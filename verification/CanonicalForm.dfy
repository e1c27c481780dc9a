/** The form of the signed text itself (canonical.py): compact, with nothing escaped that need not be. */
module CanonicalForm {
  import opened Prelude
  import opened Digits
  import opened Timestamps
  import opened Json

  // ---- No white space between tokens ----

  /** The text with white space outside string literals removed. */
  function Squeeze(s: string): string
    decreases |s|
  {
    if s == "" then ""
    else if s[0] == '"' then [s[0]] + SqueezeString(s[1..])
    else if IsSpace(s[0]) then Squeeze(s[1..])
    else [s[0]] + Squeeze(s[1..])
  }

  /** The same from inside a string literal, which is kept as it is up to its closing quote. */
  function SqueezeString(s: string): string
    decreases |s|
  {
    if s == "" then ""
    else if s[0] == '"' then [s[0]] + Squeeze(s[1..])
    else if s[0] == '\\' && |s| > 1 then s[..2] + SqueezeString(s[2..])
    else [s[0]] + SqueezeString(s[1..])
  }

  predicate Plain(s: string) {
    forall i :: 0 <= i < |s| ==> s[i] != '"' && !IsSpace(s[i])
  }

  lemma {:induction false} SqueezePlain(s: string, rest: string)
    requires Plain(s)
    ensures Squeeze(s + rest) == s + Squeeze(rest)
  {
    if s == "" {
      assert s + rest == rest;
    } else {
      SqueezePlain(s[1..], rest);
      assert (s + rest)[1..] == s[1..] + rest;
      assert s + Squeeze(rest) == [s[0]] + (s[1..] + Squeeze(rest));
    }
  }

  lemma {:induction false} SqueezeUnescaped(s: string, rest: string)
    requires forall i :: 0 <= i < |s| ==> s[i] != '"' && s[i] != '\\'
    ensures SqueezeString(s + rest) == s + SqueezeString(rest)
  {
    if s == "" {
      assert s + rest == rest;
    } else {
      SqueezeUnescaped(s[1..], rest);
      assert (s + rest)[1..] == s[1..] + rest;
      assert s + SqueezeString(rest) == [s[0]] + (s[1..] + SqueezeString(rest));
    }
  }

  lemma SqueezePair(a: char, rest: string)
    ensures SqueezeString(['\\', a] + rest) == ['\\', a] + SqueezeString(rest)
  {
    var s := ['\\', a] + rest;
    assert s[..2] == ['\\', a] && s[2..] == rest;
  }

  /** What Escape leaves alone: everything but the quote, the backslash and the control characters. */
  lemma EscapedExactly(c: char)
    ensures Escape(c) == [c] <==> c != '"' && c != '\\' && c >= ' '
    ensures Escape(c) != [c] ==> |Escape(c)| >= 2 && Escape(c)[0] == '\\'
  {
  }

  lemma SqueezeEscape(c: char, rest: string)
    ensures SqueezeString(Escape(c) + rest) == Escape(c) + SqueezeString(rest)
  {
    var e := Escape(c);
    if |e| == 1 {
      EscapedExactly(c);
      SqueezeUnescaped(e, rest);
    } else if |e| == 2 {
      assert e == ['\\', e[1]];
      SqueezePair(e[1], rest);
    } else {
      var tail := e[2..];
      assert e == ['\\', e[1]] + tail;
      SqueezePair(e[1], tail + rest);
      SqueezeUnescaped(tail, rest);
      assert e + rest == ['\\', e[1]] + (tail + rest);
      assert e + SqueezeString(rest) == ['\\', e[1]] + (tail + SqueezeString(rest));
    }
  }

  lemma {:induction false} SqueezeEscaped(x: string, rest: string)
    ensures SqueezeString(EscapeAll(x) + rest) == EscapeAll(x) + SqueezeString(rest)
  {
    if x == "" {
      assert EscapeAll(x) + rest == rest;
    } else {
      var head, tail := Escape(x[0]), EscapeAll(x[1..]);
      SqueezeEscape(x[0], tail + rest);
      SqueezeEscaped(x[1..], rest);
      ConcatAssociative(head, tail, rest);
      ConcatAssociative(head, tail, SqueezeString(rest));
    }
  }

  lemma SqueezeQuote(x: string, rest: string)
    ensures Squeeze(Quote(x) + rest) == Quote(x) + Squeeze(rest)
  {
    var text, after := EscapeAll(x), "\"" + rest;
    Quoted(text, rest);
    Quoted(text, Squeeze(rest));
    assert ("\"" + (text + after))[1..] == text + after;
    SqueezeEscaped(x, after);
    assert after[1..] == rest;
  }

  lemma Quoted(text: string, rest: string)
    ensures ("\"" + text + "\"") + rest == "\"" + (text + ("\"" + rest))
  {
  }

  lemma SqueezeMark(c: char, rest: string)
    requires c != '"' && !IsSpace(c)
    ensures Squeeze([c] + rest) == [c] + Squeeze(rest)
  {
    assert ([c] + rest)[1..] == rest;
  }

  lemma {:induction false} SqueezeEmitted(j: Json, rest: string)
    ensures Squeeze(Emit(j) + rest) == Emit(j) + Squeeze(rest)
    decreases j, 3
  {
    match j
    case Str(s) => SqueezeQuote(s, rest);
    case Arr(items) =>
      if items == [] {
        SqueezePlain("[]", rest);
      } else {
        SqueezeItems(items, rest);
        SqueezeMark('[', EmitItems(items) + rest);
        ConcatAssociative("[", EmitItems(items), rest);
        ConcatAssociative("[", EmitItems(items), Squeeze(rest));
      }
    case Obj(fields) =>
      if fields == [] {
        SqueezePlain("{}", rest);
      } else {
        SqueezeFields(fields, rest);
        SqueezeMark('{', EmitFields(fields) + rest);
        ConcatAssociative("{", EmitFields(fields), rest);
        ConcatAssociative("{", EmitFields(fields), Squeeze(rest));
      }
    case _ => SqueezePlain(Emit(j), rest);
  }

  lemma KeepGoing(head: string, more: string, rest: string)
    ensures (head + ("," + more)) + rest == head + ("," + (more + rest))
  {
  }

  lemma {:induction false} SqueezeItems(items: seq<Json>, rest: string)
    requires items != []
    ensures Squeeze(EmitItems(items) + rest) == EmitItems(items) + Squeeze(rest)
    decreases items, 2
  {
    var head := Emit(items[0]);
    if |items| == 1 {
      SqueezeEmitted(items[0], "]" + rest);
      SqueezeMark(']', rest);
      ConcatAssociative(head, "]", rest);
      ConcatAssociative(head, "]", Squeeze(rest));
    } else {
      var more := EmitItems(items[1..]);
      SqueezeEmitted(items[0], "," + (more + rest));
      SqueezeItems(items[1..], rest);
      SqueezeMark(',', more + rest);
      KeepGoing(head, more, rest);
      KeepGoing(head, more, Squeeze(rest));
    }
  }

  lemma KeyThenValue(key: string, value: string, rest: string)
    ensures (key + ":" + value) + rest == key + (":" + (value + rest))
  {
  }

  lemma {:induction false} SqueezeField(f: Field, rest: string)
    ensures Squeeze(FieldText(f) + rest) == FieldText(f) + Squeeze(rest)
    decreases f, 3
  {
    var key, value := Quote(f.key), Emit(f.value);
    SqueezeEmitted(f.value, rest);
    SqueezeMark(':', value + rest);
    SqueezeQuote(f.key, ":" + (value + rest));
    KeyThenValue(key, value, rest);
    KeyThenValue(key, value, Squeeze(rest));
  }

  lemma {:induction false} SqueezeFields(fields: seq<Field>, rest: string)
    requires fields != []
    ensures Squeeze(EmitFields(fields) + rest) == EmitFields(fields) + Squeeze(rest)
    decreases fields, 2
  {
    EmitFieldsSplits(fields, rest);
    EmitFieldsSplits(fields, Squeeze(rest));
    if |fields| == 1 {
      SqueezeField(fields[0], "}" + rest);
      SqueezeMark('}', rest);
    } else {
      var more := EmitFields(fields[1..]);
      SqueezeField(fields[0], "," + (more + rest));
      SqueezeFields(fields[1..], rest);
      SqueezeMark(',', more + rest);
    }
  }

  /** The canonical text has no white space outside its strings. */
  lemma CanonicalIsCompact(j: Json)
    ensures Squeeze(CanonicalText(j)) == CanonicalText(j)
  {
    var text := CanonicalText(j);
    SqueezeEmitted(SortKeys(j), "");
    assert text + "" == text;
  }

  // ---- Sorted at every depth ----

  /** Every object in the tree has its keys in order of their code points. */
  predicate SortedDeep(j: Json) {
    match j
    case Arr(items) => forall i :: 0 <= i < |items| ==> SortedDeep(items[i])
    case Obj(fields) => Sorted(fields) && forall i :: 0 <= i < |fields| ==> SortedDeep(fields[i].value)
    case _ => true
  }

  lemma {:induction false} InsertedValues(f: Field, fields: seq<Field>)
    requires SortedDeep(f.value) && forall i :: 0 <= i < |fields| ==> SortedDeep(fields[i].value)
    ensures forall i :: 0 <= i < |Insert(f, fields)| ==> SortedDeep(Insert(f, fields)[i].value)
  {
    if !(fields == [] || TextLess(f.key, fields[0].key)) {
      InsertedValues(f, fields[1..]);
    }
  }

  lemma {:induction false} SortedValues(fields: seq<Field>)
    requires forall i :: 0 <= i < |fields| ==> WellFormed(fields[i].value)
    ensures forall i :: 0 <= i < |SortFields(fields)| ==> SortedDeep(SortFields(fields)[i].value)
    decreases fields, 1
  {
    if fields != [] {
      SortKeysSorts(fields[0].value);
      SortedValues(fields[1..]);
      InsertedValues(Field(fields[0].key, SortKeys(fields[0].value)), SortFields(fields[1..]));
    }
  }

  /** What is printed has every object's keys in order, at every depth. */
  lemma {:induction false} SortKeysSorts(j: Json)
    requires WellFormed(j)
    ensures SortedDeep(SortKeys(j))
    decreases j, 2
  {
    match j
    case Arr(items) =>
      forall i | 0 <= i < |items| ensures SortedDeep(SortItems(items)[i]) {
        SortKeysSorts(items[i]);
      }
    case Obj(fields) =>
      SortFieldsSorted(fields);
      SortedValues(fields);
    case _ =>
  }

  // ---- The signed timestamp, written out ----

  lemma RenderFrom(v: seq<nat>, widths: seq<nat>, separators: string, k: nat)
    requires |v| == |widths| == |separators| && k < |v|
    ensures Render(v[k..], widths[k..], separators[k..]) ==
      Pad(v[k], widths[k]) + ([separators[k]] + Render(v[k + 1..], widths[k + 1..], separators[k + 1..]))
  {
    assert v[k..][1..] == v[k + 1..] && widths[k..][1..] == widths[k + 1..];
    assert separators[k..][1..] == separators[k + 1..];
  }

  function DateAnd(v: seq<nat>, end: string): string
    requires |v| >= 6
  {
    Pad(v[0], 4) + (['-'] + (Pad(v[1], 2) + (['-'] + (Pad(v[2], 2) + (['T'] + end)))))
  }

  function TimeAnd(v: seq<nat>, end: string): string
    requires |v| >= 6
  {
    Pad(v[3], 2) + ([':'] + (Pad(v[4], 2) + ([':'] + (Pad(v[5], 2) + end))))
  }

  lemma RenderThree(v: seq<nat>, widths: seq<nat>, separators: string, k: nat)
    requires |v| == |widths| == |separators| && k + 3 <= |v|
    ensures Render(v[k..], widths[k..], separators[k..]) ==
      Pad(v[k], widths[k]) + ([separators[k]] + (Pad(v[k + 1], widths[k + 1]) + ([separators[k + 1]] +
      (Pad(v[k + 2], widths[k + 2]) + ([separators[k + 2]] +
       Render(v[k + 3..], widths[k + 3..], separators[k + 3..]))))))
  {
    RenderFrom(v, widths, separators, k);
    RenderFrom(v, widths, separators, k + 1);
    RenderFrom(v, widths, separators, k + 2);
  }

  lemma DateFirst(v: seq<nat>, widths: seq<nat>, separators: string)
    requires |v| == |widths| == |separators| >= 6
    requires widths[0] == 4 && widths[1] == widths[2] == 2 && separators[0] == separators[1] == '-' && separators[2] == 'T'
    ensures Render(v, widths, separators) == DateAnd(v, Render(v[3..], widths[3..], separators[3..]))
  {
    assert v[0..] == v && widths[0..] == widths && separators[0..] == separators;
    RenderThree(v, widths, separators, 0);
  }

  lemma TimeNext(v: seq<nat>, widths: seq<nat>, separators: string)
    requires |v| == |widths| == |separators| >= 6
    requires widths[3] == widths[4] == widths[5] == 2 && separators[3] == separators[4] == ':'
    ensures Render(v[3..], widths[3..], separators[3..]) ==
      TimeAnd(v, [separators[5]] + Render(v[6..], widths[6..], separators[6..]))
  {
    RenderThree(v, widths, separators, 3);
  }

  lemma WholeShape(v: seq<nat>)
    requires |v| == 6
    ensures Render(v, WHOLE_WIDTHS, WHOLE_SEPARATORS) == DateAnd(v, TimeAnd(v, ['Z']))
  {
    DateFirst(v, WHOLE_WIDTHS, WHOLE_SEPARATORS);
    TimeNext(v, WHOLE_WIDTHS, WHOLE_SEPARATORS);
    assert v[6..] == [] && ['Z'] + "" == ['Z'];
  }

  lemma StoredShape(v: seq<nat>)
    requires |v| == 7
    ensures Render(v, STORED_WIDTHS, STORED_SEPARATORS) == DateAnd(v, TimeAnd(v, ['.'] + (Pad(v[6], 6) + ['Z'])))
  {
    DateFirst(v, STORED_WIDTHS, STORED_SEPARATORS);
    TimeNext(v, STORED_WIDTHS, STORED_SEPARATORS);
    StoredEnd(v);
  }

  lemma StoredEnd(v: seq<nat>)
    requires |v| == 7
    ensures Render(v[6..], STORED_WIDTHS[6..], STORED_SEPARATORS[6..]) == Pad(v[6], 6) + ['Z']
  {
    RenderFrom(v, STORED_WIDTHS, STORED_SEPARATORS, 6);
    assert v[7..] == [] && [STORED_SEPARATORS[6]] + "" == ['Z'];
  }

  /** YYYY-MM-DDThh:mm:ss, the microseconds in six digits unless they are zero, and Z; stored, always with them. */
  lemma TimestampShape(d: DateTime)
    ensures var v: seq<nat> := [d.year, d.month, d.day, d.hour, d.minute, d.second];
      var micros := ['.'] + (Pad(d.micro, 6) + ['Z']);
      && WireText(d) == DateAnd(v, TimeAnd(v, if d.micro == 0 then ['Z'] else micros))
      && StoredText(d) == DateAnd(v, TimeAnd(v, micros))
  {
    NumbersFit(d);
    WholeShape(Numbers(d)[..6]);
    StoredShape(Numbers(d));
  }
}
