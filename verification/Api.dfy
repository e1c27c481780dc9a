/** The gates in front of the JSON endpoints (apps/aggregator/api.py): decimal bounds, body size, unique keys. */
module Api {
  import opened Prelude
  import opened Digits
  import opened Utf8

  /** The two ways these gates refuse a request: status 422 and status 413. */
  datatype Failure = InvalidRequest | RequestTooLarge

  // ---- Decimal bounds without converting first ----

  predicate IsDecimal(raw: string) {
    raw != [] && AllDigits(raw)
  }

  function Normalized(raw: string): string {
    var stripped := StripZeros(raw);
    if stripped == [] then "0" else stripped
  }

  /** The comparison the handlers make on text. */
  predicate Exceeds(normalized: string, maximum: nat) {
    var limit := Decimal(maximum);
    |normalized| > |limit| || (|normalized| == |limit| && TextLess(limit, normalized))
  }

  function ContentLength(header: Option<string>, maximum: nat): Result<Option<nat>, Failure> {
    if header.None? then Ok(None)
    else if !IsDecimal(header.value) then Err(InvalidRequest)
    else if Exceeds(Normalized(header.value), maximum) then Err(RequestTooLarge)
    else Ok(Some(Value(Normalized(header.value))))
  }

  function BoundedLimit(parameters: seq<(string, string)>, default: nat, maximum: nat): Result<nat, Failure> {
    if parameters == [] then Ok(default)
    else if |parameters| != 1 || parameters[0].0 != "limit" || !IsDecimal(parameters[0].1) then Err(InvalidRequest)
    else
      var normalized := Normalized(parameters[0].1);
      if normalized == "0" || Exceeds(normalized, maximum) then Err(InvalidRequest) else Ok(Value(normalized))
  }

  lemma NormalizedValue(raw: string)
    requires IsDecimal(raw)
    ensures IsDecimal(Normalized(raw)) && Value(Normalized(raw)) == Value(raw)
    ensures Normalized(raw) == "0" || Normalized(raw)[0] != '0'
  {
    StripZerosValue(raw);
    ZeroValue();
  }

  lemma ZeroValue()
    ensures AllDigits("0") && Value("0") == Value("") == 0
  {
    assert "0"[..0] == "";
  }

  /** Between numerals without leading zeros, the longer is the larger. */
  lemma LongerIsLarger(s: string, n: nat)
    requires IsDecimal(s) && s[0] != '0' && |s| > |Decimal(n)|
    ensures Value(s) > n
  {
    LeadingDigitValue(s);
    DecimalRoundTrip(n);
    ValueBound(Decimal(n));
    Pow10Monotone(|Decimal(n)|, |s| - 1);
  }

  lemma ShorterIsSmaller(s: string, n: nat)
    requires IsDecimal(s) && |s| < |Decimal(n)|
    ensures Value(s) < n
  {
    DecimalRoundTrip(n);
    ValueBound(s);
    Pow10Monotone(|s|, |Decimal(n)| - 1);
  }

  lemma SameLengthCompares(s: string, n: nat)
    requires IsDecimal(s) && |s| == |Decimal(n)|
    ensures TextLess(Decimal(n), s) <==> Value(s) > n
  {
    DecimalRoundTrip(n);
    ValueBound(s);
    ValueBound(Decimal(n));
    PadOrder(n, Value(s), |s|);
  }

  /** The textual test decides exactly whether the number exceeds the bound, for numerals of any length. */
  lemma ExceedsIsGreater(raw: string, maximum: nat)
    requires IsDecimal(raw)
    ensures Exceeds(Normalized(raw), maximum) <==> Value(raw) > maximum
  {
    var s := Normalized(raw);
    NormalizedValue(raw);
    if |s| == |Decimal(maximum)| {
      SameLengthCompares(s, maximum);
    } else if |s| < |Decimal(maximum)| {
      ShorterIsSmaller(s, maximum);
    } else {
      assert |Decimal(maximum)| >= 1 by { DecimalRoundTrip(maximum); }
      LongerIsLarger(s, maximum);
    }
  }

  /** A declared length is refused, or is its numeric value. */
  lemma ContentLengthIsNumeric(header: Option<string>, maximum: nat)
    ensures ContentLength(header, maximum) ==
      match header
      case None => Ok(None)
      case Some(raw) =>
        if !IsDecimal(raw) then Err(InvalidRequest)
        else if Value(raw) > maximum then Err(RequestTooLarge)
        else Ok(Some(Value(raw)))
  {
    if header.Some? && IsDecimal(header.value) {
      NormalizedValue(header.value);
      ExceedsIsGreater(header.value, maximum);
    }
  }

  /** A page limit is taken exactly when it is the only parameter and a number from 1 to the maximum. */
  lemma BoundedLimitIsNumeric(parameters: seq<(string, string)>, default: nat, maximum: nat)
    ensures BoundedLimit(parameters, default, maximum) ==
      if parameters == [] then Ok(default)
      else if |parameters| == 1 && parameters[0].0 == "limit" && IsDecimal(parameters[0].1)
              && 1 <= Value(parameters[0].1) <= maximum
      then Ok(Value(parameters[0].1))
      else Err(InvalidRequest)
  {
    if |parameters| == 1 && IsDecimal(parameters[0].1) {
      var raw := parameters[0].1;
      NormalizedValue(raw);
      ExceedsIsGreater(raw, maximum);
      if Normalized(raw) != "0" { LeadingDigitValue(Normalized(raw)); }
    }
  }

  // ---- The bounded body reader ----

  /** What the request stream yields next: a chunk, possibly empty, or an exception. */
  datatype StreamItem = Chunk(bytes: seq<Byte>) | StreamRaises

  function Bytes(items: seq<StreamItem>): seq<Byte> {
    if items == [] then []
    else
      var n := |items| - 1;
      Bytes(items[..n]) + if items[n].Chunk? then items[n].bytes else []
  }

  function Join(chunks: seq<seq<Byte>>): seq<Byte> {
    if chunks == [] then [] else Join(chunks[..|chunks| - 1]) + chunks[|chunks| - 1]
  }

  predicate Completes(items: seq<StreamItem>) {
    forall i :: 0 <= i < |items| ==> items[i].Chunk?
  }

  /** The n-th item is the first with which the body passes the bound. */
  predicate Crosses(items: seq<StreamItem>, n: nat, maximum: nat) {
    n < |items| && Completes(items[..n + 1]) && |Bytes(items[..n])| <= maximum < |Bytes(items[..n + 1])|
  }

  lemma {:induction false} BytesGrow(items: seq<StreamItem>, m: nat, n: nat)
    requires m <= n <= |items|
    ensures |Bytes(items[..m])| <= |Bytes(items[..n])|
    decreases n
  {
    if m < n {
      BytesGrow(items, m, n - 1);
      assert items[..n][..n - 1] == items[..n - 1];
    }
  }

  lemma NextBytes(items: seq<StreamItem>, n: nat)
    requires n < |items| && items[n].Chunk?
    ensures Bytes(items[..n + 1]) == Bytes(items[..n]) + items[n].bytes
  {
    assert items[..n + 1][..n] == items[..n];
  }

  lemma JoinExtends(chunks: seq<seq<Byte>>, chunk: seq<Byte>)
    ensures Join(chunks + [chunk]) == Join(chunks) + chunk
  {
    assert (chunks + [chunk])[..|chunks|] == chunks;
  }

  /**
   Reads until the stream ends, raises or passes the bound. consumed counts the items taken from the stream and
   chunks is what was kept; it only ever grows, so its final size bounds it throughout.
   */
  method ReadStream(stream: seq<StreamItem>, maximum: nat)
    returns (failure: Option<Failure>, consumed: nat, chunks: seq<seq<Byte>>)
    ensures failure.None? <==> Completes(stream) && |Bytes(stream)| <= maximum
    ensures failure == Some(RequestTooLarge) <==> exists n :: Crosses(stream, n, maximum)
    ensures failure == Some(RequestTooLarge) ==> consumed > 0 && Crosses(stream, consumed - 1, maximum)
    ensures failure.None? ==> Join(chunks) == Bytes(stream)
    ensures consumed <= |stream| && |Join(chunks)| <= maximum
  {
    consumed, chunks := 0, [];
    var total := 0;
    assert stream[..0] == [];
    while consumed < |stream|
      invariant consumed <= |stream| && Completes(stream[..consumed])
      invariant Join(chunks) == Bytes(stream[..consumed]) && total == |Join(chunks)| <= maximum
    {
      if stream[consumed].StreamRaises? {
        NothingCrosses(stream, consumed, maximum);
        return Some(InvalidRequest), consumed, chunks;
      }
      var chunk := stream[consumed].bytes;
      NextBytes(stream, consumed);
      total := total + |chunk|;
      if total > maximum {
        assert Crosses(stream, consumed, maximum);
        FailsToComplete(stream, consumed, maximum);
        return Some(RequestTooLarge), consumed + 1, chunks;
      }
      if chunk != [] {
        JoinExtends(chunks, chunk);
        chunks := chunks + [chunk];
      }
      consumed := consumed + 1;
    }
    assert stream[..consumed] == stream;
    NothingCrosses(stream, consumed, maximum);
    failure := None;
  }

  /** The whole body, taken exactly when the declared length is sound, the stream ends within the bound and they agree. */
  method ReadBoundedBody(header: Option<string>, stream: seq<StreamItem>, maximum: nat)
    returns (r: Result<seq<Byte>, Failure>, consumed: nat, chunks: seq<seq<Byte>>)
    ensures var declared := ContentLength(header, maximum);
      && (declared.Err? ==> r == Err(declared.error) && consumed == 0)
      && (declared.Ok? ==>
        && (r.Ok? <==>
          && Completes(stream) && |Bytes(stream)| <= maximum
          && (declared.value.Some? ==> declared.value.value == |Bytes(stream)|))
        && (r == Err(RequestTooLarge) <==> exists n :: Crosses(stream, n, maximum)))
    ensures r.Ok? ==> r.value == Bytes(stream)
    ensures consumed <= |stream| && (r == Err(RequestTooLarge) && consumed > 0 ==> Crosses(stream, consumed - 1, maximum))
    ensures |Join(chunks)| <= maximum
  {
    var declared := ContentLength(header, maximum);
    if declared.Err? {
      return Err(declared.error), 0, [];
    }
    var failure;
    failure, consumed, chunks := ReadStream(stream, maximum);
    if failure.Some? {
      return Err(failure.value), consumed, chunks;
    }
    var total := |Join(chunks)|;
    if declared.value.Some? && declared.value.value != total {
      return Err(InvalidRequest), consumed, chunks;
    }
    return Ok(Join(chunks)), consumed, chunks;
  }

  lemma NothingCrosses(items: seq<StreamItem>, n: nat, maximum: nat)
    requires n <= |items| && |Bytes(items[..n])| <= maximum && (n == |items| || items[n].StreamRaises?)
    ensures !exists k :: Crosses(items, k, maximum)
  {
    forall k: nat | k < |items| ensures !Crosses(items, k, maximum) {
      if k < n {
        BytesGrow(items, k + 1, n);
      } else {
        assert items[..k + 1][n] == items[n];
      }
    }
  }

  lemma FailsToComplete(items: seq<StreamItem>, n: nat, maximum: nat)
    requires Crosses(items, n, maximum)
    ensures |Bytes(items)| > maximum
  {
    BytesGrow(items, n + 1, |items|);
    assert items[..|items|] == items;
  }

  // ---- Duplicate keys ----

  ghost predicate UniqueKeys<T>(pairs: seq<(string, T)>) {
    forall i, j :: 0 <= i < j < |pairs| ==> pairs[i].0 != pairs[j].0
  }

  /** The built object holds exactly the pairs. */
  ghost predicate Holds<T(!new)>(built: map<string, T>, pairs: seq<(string, T)>) {
    && (forall i :: 0 <= i < |pairs| ==> pairs[i].0 in built && built[pairs[i].0] == pairs[i].1)
    && (forall k :: k in built ==> exists i :: 0 <= i < |pairs| && pairs[i].0 == k)
  }

  lemma AddsPair<T(!new)>(built: map<string, T>, pairs: seq<(string, T)>, pair: (string, T))
    requires UniqueKeys(pairs) && Holds(built, pairs) && pair.0 !in built
    ensures UniqueKeys(pairs + [pair]) && Holds(built[pair.0 := pair.1], pairs + [pair])
  {
    var more := pairs + [pair];
    assert forall i :: 0 <= i < |pairs| ==> more[i] == pairs[i];
    var later := built[pair.0 := pair.1];
    forall k | k in later ensures exists i :: 0 <= i < |more| && more[i].0 == k {
      if k == pair.0 {
        assert more[|pairs|].0 == k;
      } else {
        var i :| 0 <= i < |pairs| && pairs[i].0 == k;
        assert more[i].0 == k;
      }
    }
  }

  lemma Collides<T(!new)>(built: map<string, T>, pairs: seq<(string, T)>, n: nat)
    requires n < |pairs| && Holds(built, pairs[..n]) && pairs[n].0 in built
    ensures !UniqueKeys(pairs)
  {
    var i :| 0 <= i < n && pairs[..n][i].0 == pairs[n].0;
    assert pairs[i].0 == pairs[n].0;
  }

  /** Builds an object exactly when its keys are distinct; nothing is overwritten and nothing is lost. */
  method UniqueObject<T(!new)>(pairs: seq<(string, T)>) returns (r: Option<map<string, T>>)
    ensures r.Some? <==> UniqueKeys(pairs)
    ensures r.Some? ==> Holds(r.value, pairs) && |r.value| == |pairs|
  {
    var result: map<string, T> := map[];
    for n := 0 to |pairs|
      invariant UniqueKeys(pairs[..n]) && Holds(result, pairs[..n]) && |result| == n
    {
      var (key, value) := pairs[n];
      if key in result {
        Collides(result, pairs, n);
        return None;
      }
      AddsPair(result, pairs[..n], pairs[n]);
      assert pairs[..n] + [pairs[n]] == pairs[..n + 1];
      result := result[key := value];
    }
    assert pairs[..|pairs|] == pairs;
    return Some(result);
  }
}
