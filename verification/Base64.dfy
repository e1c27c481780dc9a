/** Canonical base64 (RFC 4648, sections 3.5 and 4), as contracts.py and crypto.py both decode it. */
module Base64 {
  import opened Prelude
  import opened Utf8

  /** Six bits. */
  type Sextet = v: int | 0 <= v < 64

  function Symbol(v: Sextet): char {
    if v < 26 then ('A' as int + v) as char
    else if v < 52 then ('a' as int + (v - 26)) as char
    else if v < 62 then ('0' as int + (v - 52)) as char
    else if v == 62 then '+' else '/'
  }

  predicate IsSymbol(c: char) {
    'A' <= c <= 'Z' || 'a' <= c <= 'z' || '0' <= c <= '9' || c == '+' || c == '/'
  }

  function SymbolValue(c: char): Sextet
    requires IsSymbol(c)
  {
    if 'A' <= c <= 'Z' then c as int - 'A' as int
    else if 'a' <= c <= 'z' then c as int - 'a' as int + 26
    else if '0' <= c <= '9' then c as int - '0' as int + 52
    else if c == '+' then 62 else 63
  }

  lemma SymbolRoundTrip(v: Sextet)
    ensures IsSymbol(Symbol(v)) && SymbolValue(Symbol(v)) == v
  {
  }

  lemma ValueRoundTrip(c: char)
    requires IsSymbol(c)
    ensures Symbol(SymbolValue(c)) == c
  {
  }

  // ---- Groups of three bytes and four symbols ----

  function Quad(a: Byte, b: Byte, c: Byte): string {
    [Symbol(a / 4), Symbol(a % 4 * 16 + b / 16), Symbol(b % 16 * 4 + c / 64), Symbol(c % 64)]
  }

  function Encode(bytes: seq<Byte>): string {
    if |bytes| == 0 then ""
    else if |bytes| == 1 then [Symbol(bytes[0] / 4), Symbol(bytes[0] % 4 * 16), '=', '=']
    else if |bytes| == 2 then
      [Symbol(bytes[0] / 4), Symbol(bytes[0] % 4 * 16 + bytes[1] / 16), Symbol(bytes[1] % 16 * 4), '=']
    else Quad(bytes[0], bytes[1], bytes[2]) + Encode(bytes[3..])
  }

  function First(u: Sextet, v: Sextet): Byte { u * 4 + v / 16 }

  function Second(v: Sextet, w: Sextet): Byte { v % 16 * 16 + w / 4 }

  function Third(w: Sextet, x: Sextet): Byte { w % 4 * 64 + x }

  /** b64decode with validation: padding only at the very end, but the bits it leaves unused may be anything. */
  function LaxDecode(s: string): Option<seq<Byte>> {
    if s == "" then Some([])
    else if |s| < 4 || !IsSymbol(s[0]) || !IsSymbol(s[1]) then None
    else
      var u, v := SymbolValue(s[0]), SymbolValue(s[1]);
      if s[2..] == "==" then Some([First(u, v)])
      else if !IsSymbol(s[2]) then None
      else
        var w := SymbolValue(s[2]);
        if s[3..] == "=" then Some([First(u, v), Second(v, w)])
        else if !IsSymbol(s[3]) then None
        else
          match LaxDecode(s[4..])
          case None => None
          case Some(rest) => Some([First(u, v), Second(v, w), Third(w, SymbolValue(s[3]))] + rest)
  }

  datatype Base64Error = NotBase64 | WrongLength | NotCanonical

  function CanonicalDecode(s: string, length: nat): Result<seq<Byte>, Base64Error> {
    match LaxDecode(s)
    case None => Err(NotBase64)
    case Some(bytes) =>
      if |bytes| != length then Err(WrongLength)
      else if Encode(bytes) != s then Err(NotCanonical)
      else Ok(bytes)
  }

  /** Three bytes and the four symbols that encode them are the same 24-bit number, most significant first. */
  lemma GroupIsBigEndian(a: Byte, b: Byte, c: Byte)
    ensures var s := Quad(a, b, c);
      && (forall i :: 0 <= i < 4 ==> IsSymbol(s[i]))
      && SymbolValue(s[0]) * 0x40000 + SymbolValue(s[1]) * 0x1000 + SymbolValue(s[2]) * 0x40 + SymbolValue(s[3]) ==
           a * 0x10000 + b * 0x100 + c
  {
    SymbolRoundTrip(a / 4);
    SymbolRoundTrip(a % 4 * 16 + b / 16);
    SymbolRoundTrip(b % 16 * 4 + c / 64);
    SymbolRoundTrip(c % 64);
  }

  // ---- Decoding undoes encoding ----

  lemma QuadBytes(a: Byte, b: Byte, c: Byte)
    ensures First(a / 4, a % 4 * 16 + b / 16) == a
    ensures Second(a % 4 * 16 + b / 16, b % 16 * 4 + c / 64) == b
    ensures Third(b % 16 * 4 + c / 64, c % 64) == c
  {
  }

  lemma DecodeGroup(s: string)
    requires |s| >= 4 && IsSymbol(s[0]) && IsSymbol(s[1]) && IsSymbol(s[2]) && IsSymbol(s[3])
    ensures var u, v, w, x := SymbolValue(s[0]), SymbolValue(s[1]), SymbolValue(s[2]), SymbolValue(s[3]);
      LaxDecode(s) ==
        match LaxDecode(s[4..])
        case None => None
        case Some(rest) => Some([First(u, v), Second(v, w), Third(w, x)] + rest)
  {
    assert s[2..][0] == s[2] && s[3..][0] == s[3];
  }

  lemma DecodeOnePad(s: string)
    requires |s| == 4 && IsSymbol(s[0]) && IsSymbol(s[1]) && IsSymbol(s[2]) && s[3] == '='
    ensures var u, v, w := SymbolValue(s[0]), SymbolValue(s[1]), SymbolValue(s[2]);
      LaxDecode(s) == Some([First(u, v), Second(v, w)])
  {
    assert s[2..][0] == s[2] && s[3..] == "=";
  }

  lemma DecodeTwoPads(s: string)
    requires |s| == 4 && IsSymbol(s[0]) && IsSymbol(s[1]) && s[2] == '=' && s[3] == '='
    ensures LaxDecode(s) == Some([First(SymbolValue(s[0]), SymbolValue(s[1]))])
  {
    assert s[2..] == "==";
  }

  lemma DecodeSymbols(u: Sextet, v: Sextet, w: Sextet, x: Sextet, rest: string)
    ensures LaxDecode([Symbol(u), Symbol(v), Symbol(w), Symbol(x)] + rest) ==
      match LaxDecode(rest)
      case None => None
      case Some(bytes) => Some([First(u, v), Second(v, w), Third(w, x)] + bytes)
  {
    var s := [Symbol(u), Symbol(v), Symbol(w), Symbol(x)] + rest;
    SymbolRoundTrip(u);
    SymbolRoundTrip(v);
    SymbolRoundTrip(w);
    SymbolRoundTrip(x);
    assert s[4..] == rest;
    DecodeGroup(s);
  }

  lemma DecodeEncodedGroup(a: Byte, b: Byte, c: Byte, rest: string)
    ensures LaxDecode(Quad(a, b, c) + rest) ==
      match LaxDecode(rest) case None => None case Some(bytes) => Some([a, b, c] + bytes)
  {
    QuadBytes(a, b, c);
    DecodeSymbols(a / 4, a % 4 * 16 + b / 16, b % 16 * 4 + c / 64, c % 64, rest);
  }

  lemma DecodeEncodedPair(a: Byte, b: Byte)
    ensures LaxDecode(Encode([a, b])) == Some([a, b])
  {
    SymbolRoundTrip(a / 4);
    SymbolRoundTrip(a % 4 * 16 + b / 16);
    SymbolRoundTrip(b % 16 * 4);
    QuadBytes(a, b, 0);
    DecodeOnePad(Encode([a, b]));
  }

  lemma DecodeEncodedByte(a: Byte)
    ensures LaxDecode(Encode([a])) == Some([a])
  {
    SymbolRoundTrip(a / 4);
    SymbolRoundTrip(a % 4 * 16);
    QuadBytes(a, 0, 0);
    assert Encode([a])[2..] == "==";
  }

  lemma {:induction false} DecodeEncodeLax(bytes: seq<Byte>)
    ensures LaxDecode(Encode(bytes)) == Some(bytes)
  {
    if |bytes| == 1 {
      assert bytes == [bytes[0]];
      DecodeEncodedByte(bytes[0]);
    } else if |bytes| == 2 {
      assert bytes == [bytes[0], bytes[1]];
      DecodeEncodedPair(bytes[0], bytes[1]);
    } else if |bytes| > 2 {
      var rest := bytes[3..];
      assert Encode(bytes) == Quad(bytes[0], bytes[1], bytes[2]) + Encode(rest);
      DecodeEncodedGroup(bytes[0], bytes[1], bytes[2], Encode(rest));
      DecodeEncodeLax(rest);
      assert bytes == [bytes[0], bytes[1], bytes[2]] + rest;
    }
  }

  /** For every length: the decoder takes exactly the encodings of that many bytes, and undoes them. */
  lemma AcceptsExactlyEncodings(s: string, length: nat)
    ensures CanonicalDecode(s, length).Ok? <==> exists bytes :: |bytes| == length && Encode(bytes) == s
    ensures forall bytes | |bytes| == length && Encode(bytes) == s :: CanonicalDecode(s, length) == Ok(bytes)
  {
    forall bytes | |bytes| == length && Encode(bytes) == s
      ensures CanonicalDecode(s, length) == Ok(bytes)
    {
      DecodeEncodeLax(bytes);
    }
    if CanonicalDecode(s, length).Ok? {
      assert Encode(LaxDecode(s).value) == s;
    }
  }

  /** No two accepted strings stand for the same bytes. */
  lemma AcceptedStringsDiffer(s: string, t: string, length: nat)
    requires CanonicalDecode(s, length).Ok? && CanonicalDecode(t, length).Ok? && s != t
    ensures CanonicalDecode(s, length).value != CanonicalDecode(t, length).value
  {
    AcceptsExactlyEncodings(s, length);
  }

  // ---- What re-encoding adds to validation ----

  /** The bits the padding leaves over in the last symbol before it. */
  predicate UnusedBitsZero(s: string) {
    |s| >= 4 ==>
      var n := |s|;
      && (s[n - 1] == '=' && s[n - 2] == '=' && IsSymbol(s[n - 3]) ==> SymbolValue(s[n - 3]) % 16 == 0)
      && (s[n - 1] == '=' && IsSymbol(s[n - 2]) ==> SymbolValue(s[n - 2]) % 4 == 0)
  }

  lemma ByteSextets(u: Sextet, v: Sextet, w: Sextet, x: Sextet)
    ensures First(u, v) / 4 == u
    ensures First(u, v) % 4 * 16 + Second(v, w) / 16 == v
    ensures Second(v, w) % 16 * 4 + Third(w, x) / 64 == w
    ensures Third(w, x) % 64 == x
  {
  }

  lemma EncodeSextets(u: Sextet, v: Sextet, w: Sextet, x: Sextet, s: string)
    requires s == [Symbol(u), Symbol(v), Symbol(w), Symbol(x)]
    ensures Quad(First(u, v), Second(v, w), Third(w, x)) == s
  {
    ByteSextets(u, v, w, x);
  }

  lemma SymbolsOf(a: char, b: char, c: char, d: char)
    requires IsSymbol(a) && IsSymbol(b) && IsSymbol(c) && IsSymbol(d)
    ensures [Symbol(SymbolValue(a)), Symbol(SymbolValue(b)), Symbol(SymbolValue(c)), Symbol(SymbolValue(d))] == [a, b, c, d]
  {
    ValueRoundTrip(a);
    ValueRoundTrip(b);
    ValueRoundTrip(c);
    ValueRoundTrip(d);
  }

  lemma EncodeDecodedGroup(s: string)
    requires |s| >= 4 && IsSymbol(s[0]) && IsSymbol(s[1]) && IsSymbol(s[2]) && IsSymbol(s[3])
    ensures var u, v, w, x := SymbolValue(s[0]), SymbolValue(s[1]), SymbolValue(s[2]), SymbolValue(s[3]);
      Quad(First(u, v), Second(v, w), Third(w, x)) == s[..4]
  {
    assert s[..4] == [s[0], s[1], s[2], s[3]];
    SymbolsOf(s[0], s[1], s[2], s[3]);
    EncodeSextets(SymbolValue(s[0]), SymbolValue(s[1]), SymbolValue(s[2]), SymbolValue(s[3]), s[..4]);
  }

  lemma SymbolIs(v: Sextet, c: char)
    requires IsSymbol(c)
    ensures Symbol(v) == c <==> v == SymbolValue(c)
  {
    ValueRoundTrip(c);
    SymbolRoundTrip(v);
  }

  lemma KeptBits(v: Sextet, w: Sextet)
    ensures Second(v, w) % 16 * 4 == w - w % 4
  {
  }

  lemma LastSymbol(c: char, v: Sextet)
    requires IsSymbol(c)
    ensures var w := SymbolValue(c);
      Symbol(Second(v, w) % 16 * 4) == c <==> w % 4 == 0
  {
    KeptBits(v, SymbolValue(c));
    SymbolIs(Second(v, SymbolValue(c)) % 16 * 4, c);
  }

  lemma OnePad(s: string)
    requires |s| == 4 && IsSymbol(s[0]) && IsSymbol(s[1]) && IsSymbol(s[2]) && s[3] == '='
    ensures Encode([First(SymbolValue(s[0]), SymbolValue(s[1])), Second(SymbolValue(s[1]), SymbolValue(s[2]))]) == s
      <==> SymbolValue(s[2]) % 4 == 0
  {
    var u, v, w := SymbolValue(s[0]), SymbolValue(s[1]), SymbolValue(s[2]);
    ByteSextets(u, v, w, 0);
    ValueRoundTrip(s[0]);
    ValueRoundTrip(s[1]);
    LastSymbol(s[2], v);
  }

  lemma TwoPads(s: string)
    requires |s| == 4 && IsSymbol(s[0]) && IsSymbol(s[1]) && s[2..] == "=="
    ensures Encode([First(SymbolValue(s[0]), SymbolValue(s[1]))]) == s <==> SymbolValue(s[1]) % 16 == 0
  {
    var u, v := SymbolValue(s[0]), SymbolValue(s[1]);
    ByteSextets(u, v, 0, 0);
    ValueRoundTrip(s[0]);
    ValueRoundTrip(s[1]);
    SymbolRoundTrip(First(u, v) % 4 * 16);
    assert s[2] == s[2..][0] && s[3] == s[2..][1];
  }

  /** A string that validates is refused by the re-encoding check exactly when an unused bit is set. */
  lemma {:induction false} ReencodingChecksUnusedBits(s: string)
    requires LaxDecode(s).Some?
    ensures Encode(LaxDecode(s).value) == s <==> UnusedBitsZero(s)
  {
    if s != "" {
      if s[2..] == "==" {
        TwoPads(s);
        assert s[2] == s[2..][0] && s[3] == s[2..][1];
      } else if s[3..] == "=" {
        OnePad(s);
        assert s[3] == s[3..][0];
      } else {
        var rest := LaxDecode(s[4..]).value;
        EncodeDecodedGroup(s);
        ReencodingChecksUnusedBits(s[4..]);
        var bytes := LaxDecode(s).value;
        assert bytes[3..] == rest && s == s[..4] + s[4..];
        assert Encode(bytes) == s[..4] + Encode(rest);
        assert Encode(rest) == s[4..] <==> Encode(bytes) == s by {
          assert Encode(bytes)[4..] == Encode(rest);
        }
        UnusedBitsOfRest(s);
      }
    }
  }

  lemma UnusedBitsOfRest(s: string)
    requires |s| >= 4 && IsSymbol(s[0]) && IsSymbol(s[1]) && IsSymbol(s[2]) && IsSymbol(s[3]) && LaxDecode(s[4..]).Some?
    ensures UnusedBitsZero(s) <==> UnusedBitsZero(s[4..])
  {
    if s[4..] != "" {
      var n, rest := |s|, s[4..];
      assert rest[n - 5] == s[n - 1] && rest[n - 6] == s[n - 2] && rest[n - 7] == s[n - 3];
    }
  }

  function TwoSymbols(u: Sextet, v: Sextet): string {
    [Symbol(u), Symbol(v), '=', '=']
  }

  /** Validation alone takes every way of setting the unused bits, "AB==" beside "AA==", and decodes them alike. */
  lemma ValidationAloneIsNotInjective(u: Sextet, v: Sextet, d: nat)
    requires v % 16 == 0 && 0 < d < 16
    ensures TwoSymbols(u, v) != TwoSymbols(u, v + d)
    ensures LaxDecode(TwoSymbols(u, v)).Some? && LaxDecode(TwoSymbols(u, v)) == LaxDecode(TwoSymbols(u, v + d))
    ensures CanonicalDecode(TwoSymbols(u, v), 1).Ok?
    ensures CanonicalDecode(TwoSymbols(u, v + d), 1) == Err(NotCanonical)
  {
    var s, t := TwoSymbols(u, v), TwoSymbols(u, v + d);
    SymbolRoundTrip(u);
    SymbolRoundTrip(v);
    SymbolRoundTrip(v + d);
    DecodeTwoPads(s);
    DecodeTwoPads(t);
    assert s[2..] == "==" && t[2..] == "==";
    TwoPads(s);
    TwoPads(t);
  }
}
