/**
 JSON values as Python's json module holds them, the sorted compact printer and the strict parser.
 Number tokens are opaque; strings are escaped as section 7 of RFC 8259 prescribes.
 */
module Json {
  import opened Prelude
  import opened Digits

  // ---- Number tokens ----

  predicate IsNumberChar(c: char) {
    IsDigit(c) || c == '-' || c == '+' || c == '.' || c == 'e' || c == 'E'
  }

  /** How many characters at the front of s are decimal digits. */
  function DigitSpan(s: string): (n: nat)
    ensures n <= |s|
    ensures AllDigits(s[..n])
    ensures n < |s| ==> !IsDigit(s[n])
  {
    if s == [] || !IsDigit(s[0]) then 0 else 1 + DigitSpan(s[1..])
  }

  predicate ValidExponent(s: string) {
    s == "" ||
    ((s[0] == 'e' || s[0] == 'E') &&
     var digits := if |s| > 1 && (s[1] == '+' || s[1] == '-') then s[2..] else s[1..];
     digits != [] && AllDigits(digits))
  }

  predicate ValidFraction(s: string) {
    if s != [] && s[0] == '.' then
      var n := DigitSpan(s[1..]);
      n > 0 && ValidExponent(s[1 + n..])
    else ValidExponent(s)
  }

  predicate ValidMagnitude(s: string) {
    s != [] && IsDigit(s[0]) && ValidFraction(s[(if s[0] == '0' then 1 else DigitSpan(s))..])
  }

  /** The number grammar of section 6 of RFC 8259. */
  predicate ValidNumber(s: string) {
    && s != []
    && (forall i :: 0 <= i < |s| ==> IsNumberChar(s[i]))
    && ValidMagnitude(if s[0] == '-' then s[1..] else s)
  }

  type Number = s: string | ValidNumber(s) witness "0"

  lemma DecimalIsNumber(n: nat)
    ensures ValidNumber(Decimal(n))
  {
    DecimalRoundTrip(n);
    var s := Decimal(n);
    if n > 0 {
      assert DigitSpan(s) == |s|;
      assert s[|s|..] == "";
    } else {
      assert s[1..] == "";
    }
  }

  // ---- Values ----

  datatype Json =
    | Null
    | Bool(b: bool)
    | Num(token: Number)
    | Str(text: string)
    | Arr(items: seq<Json>)
    | Obj(fields: seq<Field>)

  /** A Python dict is kept as its insertion-ordered items. */
  datatype Field = Field(key: string, value: Json)

  predicate UniqueKeys(fields: seq<Field>) {
    forall i, j :: 0 <= i < j < |fields| ==> fields[i].key != fields[j].key
  }

  /** Every dict in the tree has distinct keys, as a dict must. */
  predicate WellFormed(j: Json) {
    match j
    case Arr(items) => forall i :: 0 <= i < |items| ==> WellFormed(items[i])
    case Obj(fields) => UniqueKeys(fields) && forall i :: 0 <= i < |fields| ==> WellFormed(fields[i].value)
    case _ => true
  }

  // ---- Printing ----

  function HexDigit(d: int): char
    requires 0 <= d < 16
  {
    if d < 10 then Digit(d) else ('a' as int + d - 10) as char
  }

  const BACKSPACE: char := 8 as char
  const FORM_FEED: char := 12 as char

  function Escape(c: char): string {
    if c == '"' then "\\\""
    else if c == '\\' then "\\\\"
    else if c == '\n' then "\\n"
    else if c == '\r' then "\\r"
    else if c == '\t' then "\\t"
    else if c == FORM_FEED then "\\f"
    else if c == BACKSPACE then "\\b"
    else if c < ' ' then "\\u00" + [HexDigit(c as int / 16), HexDigit(c as int % 16)]
    else [c]
  }

  function EscapeAll(s: string): string {
    if s == [] then "" else Escape(s[0]) + EscapeAll(s[1..])
  }

  function Quote(s: string): string {
    "\"" + EscapeAll(s) + "\""
  }

  /** Compact text of a value, dict items in the order they are held. */
  function Emit(j: Json): string {
    match j
    case Null => "null"
    case Bool(b) => if b then "true" else "false"
    case Num(t) => t
    case Str(s) => Quote(s)
    case Arr(items) => if items == [] then "[]" else "[" + EmitItems(items)
    case Obj(fields) => if fields == [] then "{}" else "{" + EmitFields(fields)
  }

  function EmitItems(items: seq<Json>): string
    requires items != []
  {
    Emit(items[0]) + (if |items| == 1 then "]" else "," + EmitItems(items[1..]))
  }

  function EmitFields(fields: seq<Field>): string
    requires fields != []
  {
    Quote(fields[0].key) + ":" + Emit(fields[0].value) +
    (if |fields| == 1 then "}" else "," + EmitFields(fields[1..]))
  }

  // ---- Parsing ----

  function HexValue(c: char): Option<int> {
    if IsDigit(c) then Some(c as int - '0' as int)
    else if 'a' <= c <= 'f' then Some(c as int - 'a' as int + 10)
    else if 'A' <= c <= 'F' then Some(c as int - 'A' as int + 10)
    else None
  }

  /** The character an escape denotes and the text after it. Surrogate escapes are refused. */
  function ParseEscape(s: string): (r: Option<(char, string)>)
    ensures r.Some? ==> |r.value.1| < |s|
  {
    if s == [] then None
    else if s[0] == 'u' then
      if |s| < 5 then None
      else
        match (HexValue(s[1]), HexValue(s[2]), HexValue(s[3]), HexValue(s[4]))
        case (Some(a), Some(b), Some(c), Some(d)) =>
          var code := ((a * 16 + b) * 16 + c) * 16 + d;
          if 0 <= code < 0xD800 || 0xE000 <= code < 0x10000 then Some((code as char, s[5..])) else None
        case _ => None
    else if s[0] == '"' || s[0] == '\\' || s[0] == '/' then Some((s[0], s[1..]))
    else if s[0] == 'n' then Some(('\n', s[1..]))
    else if s[0] == 'r' then Some(('\r', s[1..]))
    else if s[0] == 't' then Some(('\t', s[1..]))
    else if s[0] == 'f' then Some((FORM_FEED, s[1..]))
    else if s[0] == 'b' then Some((BACKSPACE, s[1..]))
    else None
  }

  /** The rest of a string literal after its opening quote. */
  function ParseString(s: string): (r: Option<(string, string)>)
    ensures r.Some? ==> |r.value.1| < |s|
    decreases |s|
  {
    if s == [] then None
    else if s[0] == '"' then Some(([], s[1..]))
    else if s[0] == '\\' then
      match ParseEscape(s[1..])
      case None => None
      case Some(e) => Prepend(e.0, ParseString(e.1))
    else if s[0] < ' ' then None
    else Prepend(s[0], ParseString(s[1..]))
  }

  function Prepend(c: char, r: Option<(string, string)>): Option<(string, string)> {
    match r
    case None => None
    case Some(p) => Some(([c] + p.0, p.1))
  }

  function NumberSpan(s: string): (n: nat)
    ensures n <= |s|
  {
    if s == [] || !IsNumberChar(s[0]) then 0 else 1 + NumberSpan(s[1..])
  }

  predicate IsSpace(c: char) {
    c == ' ' || c == '\t' || c == '\n' || c == '\r'
  }

  function SkipSpace(s: string): (r: string)
    ensures |r| <= |s|
  {
    if s != [] && IsSpace(s[0]) then SkipSpace(s[1..]) else s
  }

  predicate StartsWith(s: string, prefix: string) {
    |prefix| <= |s| && s[..|prefix|] == prefix
  }

  /** A literal name or a number. */
  function ParseAtom(s: string): (r: Option<(Json, string)>)
    requires s != []
    ensures r.Some? ==> |r.value.1| < |s|
  {
    if s[0] == 'n' then (if StartsWith(s, "null") then Some((Null, s[4..])) else None)
    else if s[0] == 't' then (if StartsWith(s, "true") then Some((Bool(true), s[4..])) else None)
    else if s[0] == 'f' then (if StartsWith(s, "false") then Some((Bool(false), s[5..])) else None)
    else
      var n := NumberSpan(s);
      if ValidNumber(s[..n]) then Some((Num(s[..n]), s[n..])) else None
  }

  /** One value and the text after it. A dict literal with a repeated key is refused. */
  function ParseValue(text: string): (r: Option<(Json, string)>)
    ensures r.Some? ==> |r.value.1| < |text|
    decreases |text|, 0
  {
    var s := SkipSpace(text);
    if s == [] then None
    else if s[0] == '"' then
      match ParseString(s[1..])
      case None => None
      case Some(p) => Some((Str(p.0), p.1))
    else if s[0] == '[' then
      var inner := SkipSpace(s[1..]);
      if inner != [] && inner[0] == ']' then Some((Arr([]), inner[1..]))
      else
        match ParseItems(s[1..])
        case None => None
        case Some(p) => Some((Arr(p.0), p.1))
    else if s[0] == '{' then
      var inner := SkipSpace(s[1..]);
      if inner != [] && inner[0] == '}' then Some((Obj([]), inner[1..]))
      else
        match ParseFields(s[1..])
        case None => None
        case Some(p) => if UniqueKeys(p.0) then Some((Obj(p.0), p.1)) else None
    else ParseAtom(s)
  }

  /** Array items up to and including the closing bracket. */
  function ParseItems(text: string): (r: Option<(seq<Json>, string)>)
    ensures r.Some? ==> |r.value.1| < |text|
    decreases |text|, 1
  {
    match ParseValue(text)
    case None => None
    case Some(first) =>
      var s := SkipSpace(first.1);
      if s == [] then None
      else if s[0] == ']' then Some(([first.0], s[1..]))
      else if s[0] == ',' then
        match ParseItems(s[1..])
        case None => None
        case Some(p) => Some(([first.0] + p.0, p.1))
      else None
  }

  function ParseField(text: string): (r: Option<(Field, string)>)
    ensures r.Some? ==> |r.value.1| < |text|
    decreases |text|, 1
  {
    var s := SkipSpace(text);
    if s == [] || s[0] != '"' then None
    else
      match ParseString(s[1..])
      case None => None
      case Some(k) =>
        var t := SkipSpace(k.1);
        if t == [] || t[0] != ':' then None
        else
          match ParseValue(t[1..])
          case None => None
          case Some(v) => Some((Field(k.0, v.0), v.1))
  }

  /** Dict items up to and including the closing brace. */
  function ParseFields(text: string): (r: Option<(seq<Field>, string)>)
    ensures r.Some? ==> |r.value.1| < |text|
    decreases |text|, 2
  {
    match ParseField(text)
    case None => None
    case Some(first) =>
      var s := SkipSpace(first.1);
      if s == [] then None
      else if s[0] == '}' then Some(([first.0], s[1..]))
      else if s[0] == ',' then
        match ParseFields(s[1..])
        case None => None
        case Some(p) => Some(([first.0] + p.0, p.1))
      else None
  }

  function Parse(text: string): Option<Json> {
    match ParseValue(text)
    case None => None
    case Some(p) => if SkipSpace(p.1) == [] then Some(p.0) else None
  }

  // ---- The parser undoes the printer ----

  lemma ParseOneEscape(c: char, tail: string)
    ensures ParseString(Escape(c) + tail) == Prepend(c, ParseString(tail))
  {
    var s := Escape(c) + tail;
    if |Escape(c)| == 1 {
      assert s[1..] == tail;
    } else if |Escape(c)| == 2 {
      assert s[1..][0] == Escape(c)[1] && s[1..][1..] == tail;
    } else {
      var e := s[1..];
      assert e[0] == 'u' && e[1] == '0' && e[2] == '0' && e[5..] == tail;
      assert HexValue(e[3]) == Some(c as int / 16) && HexValue(e[4]) == Some(c as int % 16);
    }
  }

  lemma {:induction false} ParseEscaped(x: string, rest: string)
    ensures ParseString(EscapeAll(x) + "\"" + rest) == Some((x, rest))
  {
    if x == [] {
      assert EscapeAll(x) + "\"" + rest == "\"" + rest;
    } else {
      var tail := EscapeAll(x[1..]) + "\"" + rest;
      assert EscapeAll(x) + "\"" + rest == Escape(x[0]) + tail;
      ParseOneEscape(x[0], tail);
      ParseEscaped(x[1..], rest);
      assert x == [x[0]] + x[1..];
    }
  }

  lemma {:induction false} NumberSpanStops(token: string, rest: string)
    requires forall i :: 0 <= i < |token| ==> IsNumberChar(token[i])
    requires rest == [] || !IsNumberChar(rest[0])
    ensures NumberSpan(token + rest) == |token|
  {
    if token == [] {
      assert token + rest == rest;
    } else {
      NumberSpanStops(token[1..], rest);
      assert (token + rest)[1..] == token[1..] + rest;
    }
  }

  /** Nothing after a value may run on into it: the text that follows never continues a number. */
  predicate Boundary(rest: string) {
    rest == [] || !IsNumberChar(rest[0])
  }

  lemma EmitStart(j: Json)
    ensures Emit(j) != [] && !IsSpace(Emit(j)[0]) && Emit(j)[0] != ']' && Emit(j)[0] != '}'
  {
  }

  lemma ParseEmittedLiteral(j: Json, rest: string)
    requires (j.Null? || j.Bool?)
    ensures ParseValue(Emit(j) + rest) == Some((j, rest))
  {
    var s := Emit(j) + rest;
    assert SkipSpace(s) == s;
    var n := |Emit(j)|;
    assert s[..n] == Emit(j) && s[n..] == rest;
    assert s[0] == Emit(j)[0];
  }

  lemma ParseNumberAtom(t: Number, rest: string)
    requires Boundary(rest)
    ensures ParseAtom(t + rest) == Some((Num(t), rest))
  {
    var s := t + rest;
    assert IsNumberChar(s[0]);
    NumberSpanStops(t, rest);
    assert s[..|t|] == t && s[|t|..] == rest;
  }

  lemma ParseEmittedNumber(t: Number, rest: string)
    requires Boundary(rest)
    ensures ParseValue(t + rest) == Some((Num(t), rest))
  {
    var s := t + rest;
    assert IsNumberChar(s[0]) && SkipSpace(s) == s;
    ParseNumberAtom(t, rest);
  }

  lemma ParseEmittedString(x: string, rest: string)
    ensures ParseValue(Quote(x) + rest) == Some((Str(x), rest))
  {
    var s := Quote(x) + rest;
    assert SkipSpace(s) == s;
    ParseEscaped(x, rest);
    assert s[1..] == EscapeAll(x) + "\"" + rest;
  }

  lemma ParseOpenArray(inner: string)
    requires inner != [] && !IsSpace(inner[0])
    ensures ParseValue("[" + inner) ==
      if inner[0] == ']' then Some((Arr([]), inner[1..]))
      else match ParseItems(inner) case None => None case Some(p) => Some((Arr(p.0), p.1))
  {
    var s := "[" + inner;
    assert SkipSpace(s) == s && s[1..] == inner && SkipSpace(inner) == inner;
  }

  lemma ParseOpenObject(inner: string)
    requires inner != [] && !IsSpace(inner[0])
    ensures ParseValue("{" + inner) ==
      if inner[0] == '}' then Some((Obj([]), inner[1..]))
      else
        match ParseFields(inner)
        case None => None
        case Some(p) => if UniqueKeys(p.0) then Some((Obj(p.0), p.1)) else None
  {
    var s := "{" + inner;
    assert SkipSpace(s) == s && s[1..] == inner && SkipSpace(inner) == inner;
  }

  lemma {:induction false} ParseEmittedArray(items: seq<Json>, rest: string)
    requires forall i :: 0 <= i < |items| ==> WellFormed(items[i])
    ensures ParseValue(Emit(Arr(items)) + rest) == Some((Arr(items), rest))
    decreases items, 2
  {
    if items == [] {
      ParseOpenArray("]" + rest);
      assert "[]" + rest == "[" + ("]" + rest);
    } else {
      var inner := EmitItems(items) + rest;
      EmitStart(items[0]);
      ParseEmittedItems(items, rest);
      ParseOpenArray(inner);
      assert ("[" + EmitItems(items)) + rest == "[" + inner;
    }
  }

  lemma {:induction false} ParseEmittedObject(fields: seq<Field>, rest: string)
    requires UniqueKeys(fields) && forall i :: 0 <= i < |fields| ==> WellFormed(fields[i].value)
    ensures ParseValue(Emit(Obj(fields)) + rest) == Some((Obj(fields), rest))
    decreases fields, 3
  {
    if fields == [] {
      ParseOpenObject("}" + rest);
      assert "{}" + rest == "{" + ("}" + rest);
    } else {
      var inner := EmitFields(fields) + rest;
      ParseEmittedFields(fields, rest);
      ParseOpenObject(inner);
      assert ("{" + EmitFields(fields)) + rest == "{" + inner;
    }
  }

  /** Reading back a printed value followed by any text gives the value and that text. */
  lemma {:induction false} ParseEmittedValue(j: Json, rest: string)
    requires WellFormed(j) && Boundary(rest)
    ensures ParseValue(Emit(j) + rest) == Some((j, rest))
    decreases j, 0
  {
    match j
    case Num(t) => ParseEmittedNumber(t, rest);
    case Str(x) => ParseEmittedString(x, rest);
    case Arr(items) => ParseEmittedArray(items, rest);
    case Obj(fields) => ParseEmittedObject(fields, rest);
    case _ => ParseEmittedLiteral(j, rest);
  }

  lemma {:induction false} ParseEmittedItems(items: seq<Json>, rest: string)
    requires items != [] && forall i :: 0 <= i < |items| ==> WellFormed(items[i])
    ensures ParseItems(EmitItems(items) + rest) == Some((items, rest))
    decreases items, 1
  {
    var tail := if |items| == 1 then "]" + rest else "," + (EmitItems(items[1..]) + rest);
    assert EmitItems(items) + rest == Emit(items[0]) + tail;
    ParseEmittedValue(items[0], tail);
    assert SkipSpace(tail) == tail;
    if |items| == 1 {
      assert tail[1..] == rest;
      assert items == [items[0]];
    } else {
      assert tail[1..] == EmitItems(items[1..]) + rest;
      ParseEmittedItems(items[1..], rest);
      assert items == [items[0]] + items[1..];
    }
  }

  lemma ParseQuotedKey(key: string, rest: string)
    ensures ParseField(Quote(key) + ":" + rest) ==
      match ParseValue(rest) case None => None case Some(v) => Some((Field(key, v.0), v.1))
  {
    var afterKey := ":" + rest;
    var s := Quote(key) + ":" + rest;
    assert s[1..] == EscapeAll(key) + "\"" + afterKey;
    ParseEscaped(key, afterKey);
    assert SkipSpace(s) == s && SkipSpace(afterKey) == afterKey && afterKey[1..] == rest;
  }

  lemma {:induction false} ParseEmittedField(f: Field, tail: string)
    requires WellFormed(f.value) && Boundary(tail)
    ensures ParseField(Quote(f.key) + ":" + Emit(f.value) + tail) == Some((f, tail))
    decreases f, 1
  {
    ParseQuotedKey(f.key, Emit(f.value) + tail);
    assert Quote(f.key) + ":" + Emit(f.value) + tail == Quote(f.key) + ":" + (Emit(f.value) + tail);
    ParseEmittedValue(f.value, tail);
  }

  lemma ParseLastField(f: Field, head: string, rest: string)
    requires ParseField(head + ("}" + rest)) == Some((f, "}" + rest))
    ensures ParseFields(head + ("}" + rest)) == Some(([f], rest))
  {
    var tail := "}" + rest;
    assert SkipSpace(tail) == tail && tail[1..] == rest;
  }

  lemma ParseMoreFields(f: Field, head: string, more: string, fs: seq<Field>, rest: string)
    requires ParseField(head + ("," + more)) == Some((f, "," + more))
    requires ParseFields(more) == Some((fs, rest))
    ensures ParseFields(head + ("," + more)) == Some(([f] + fs, rest))
  {
    var tail := "," + more;
    assert SkipSpace(tail) == tail && tail[1..] == more;
  }

  function FieldText(f: Field): string {
    Quote(f.key) + ":" + Emit(f.value)
  }

  lemma ConcatAssociative(a: string, b: string, c: string)
    ensures (a + b) + c == a + (b + c)
  {
  }

  lemma EmitFieldsSplits(fields: seq<Field>, rest: string)
    requires fields != []
    ensures EmitFields(fields) + rest == FieldText(fields[0]) +
      if |fields| == 1 then "}" + rest else "," + (EmitFields(fields[1..]) + rest)
  {
    if |fields| == 1 {
      ConcatAssociative(FieldText(fields[0]), "}", rest);
    } else {
      ConcatAssociative(FieldText(fields[0]), "," + EmitFields(fields[1..]), rest);
      ConcatAssociative(",", EmitFields(fields[1..]), rest);
    }
  }

  lemma {:induction false} ParseEmittedFields(fields: seq<Field>, rest: string)
    requires fields != [] && forall i :: 0 <= i < |fields| ==> WellFormed(fields[i].value)
    ensures ParseFields(EmitFields(fields) + rest) == Some((fields, rest))
    decreases fields, 2
  {
    var f := fields[0];
    EmitFieldsSplits(fields, rest);
    if |fields| == 1 {
      ParseEmittedField(f, "}" + rest);
      ParseLastField(f, FieldText(f), rest);
      assert fields == [f];
    } else {
      var more := EmitFields(fields[1..]) + rest;
      ParseEmittedField(f, "," + more);
      ParseEmittedFields(fields[1..], rest);
      ParseMoreFields(f, FieldText(f), more, fields[1..], rest);
      assert fields == [f] + fields[1..];
    }
  }

  lemma ParseEmit(j: Json)
    requires WellFormed(j)
    ensures Parse(Emit(j)) == Some(j)
  {
    ParseEmittedValue(j, "");
    assert Emit(j) + "" == Emit(j);
  }

  // ---- The parser never yields a dict with a repeated key ----

  lemma {:induction false} ParsedValueWellFormed(text: string)
    requires ParseValue(text).Some?
    ensures WellFormed(ParseValue(text).value.0)
    decreases |text|, 0
  {
    var s := SkipSpace(text);
    if s[0] == '[' {
      if ParseItems(s[1..]).Some? { ParsedItemsWellFormed(s[1..]); }
    } else if s[0] == '{' {
      if ParseFields(s[1..]).Some? { ParsedFieldsWellFormed(s[1..]); }
    }
  }

  lemma {:induction false} ParsedItemsWellFormed(text: string)
    requires ParseItems(text).Some?
    ensures forall j :: j in ParseItems(text).value.0 ==> WellFormed(j)
    decreases |text|, 1
  {
    ParsedValueWellFormed(text);
    var s := SkipSpace(ParseValue(text).value.1);
    if s[0] == ',' { ParsedItemsWellFormed(s[1..]); }
  }

  lemma {:induction false} ParsedFieldsWellFormed(text: string)
    requires ParseFields(text).Some?
    ensures forall f :: f in ParseFields(text).value.0 ==> WellFormed(f.value)
    decreases |text|, 2
  {
    var k := ParseString(SkipSpace(text)[1..]).value;
    ParsedValueWellFormed(SkipSpace(k.1)[1..]);
    var s := SkipSpace(ParseField(text).value.1);
    if s[0] == ',' { ParsedFieldsWellFormed(s[1..]); }
  }

  /** Whatever text the strict parser accepts, every dict in the result has distinct keys. */
  lemma ParsedWellFormed(text: string)
    requires Parse(text).Some?
    ensures WellFormed(Parse(text).value)
  {
    ParsedValueWellFormed(text);
  }

  // ---- Sorting keys ----

  function Insert(f: Field, fields: seq<Field>): seq<Field> {
    if fields == [] || TextLess(f.key, fields[0].key) then [f] + fields
    else [fields[0]] + Insert(f, fields[1..])
  }

  /** sort_keys=True: every dict in the tree, at every depth, ordered by key. */
  function SortKeys(j: Json): Json {
    match j
    case Arr(items) => Arr(SortItems(items))
    case Obj(fields) => Obj(SortFields(fields))
    case _ => j
  }

  function SortItems(items: seq<Json>): (r: seq<Json>)
    ensures |r| == |items|
    ensures forall i :: 0 <= i < |items| ==> r[i] == SortKeys(items[i])
  {
    if items == [] then [] else [SortKeys(items[0])] + SortItems(items[1..])
  }

  function SortFields(fields: seq<Field>): seq<Field> {
    if fields == [] then []
    else Insert(Field(fields[0].key, SortKeys(fields[0].value)), SortFields(fields[1..]))
  }

  function CanonicalText(j: Json): string {
    Emit(SortKeys(j))
  }

  function Lookup(fields: seq<Field>, key: string): Option<Json> {
    if fields == [] then None
    else if fields[0].key == key then Some(fields[0].value)
    else Lookup(fields[1..], key)
  }

  function Keys(fields: seq<Field>): set<string> {
    set f | f in fields :: f.key
  }

  /** Python's == on two decoded values: dicts compare without regard to order, lists in order. */
  predicate Same(a: Json, b: Json)
    decreases a
  {
    match (a, b)
    case (Arr(x), Arr(y)) => |x| == |y| && forall i :: 0 <= i < |x| ==> Same(x[i], y[i])
    case (Obj(x), Obj(y)) =>
      |x| == |y| && forall i :: 0 <= i < |x| ==>
        var other := Lookup(y, x[i].key);
        other.Some? && Same(x[i].value, other.value)
    case _ => a == b
  }

  predicate Sorted(fields: seq<Field>) {
    forall i, j :: 0 <= i < j < |fields| ==> TextLess(fields[i].key, fields[j].key)
  }

  lemma {:induction false} LookupAt(fields: seq<Field>, i: nat)
    requires UniqueKeys(fields) && i < |fields|
    ensures Lookup(fields, fields[i].key) == Some(fields[i].value)
  {
    if i > 0 { LookupAt(fields[1..], i - 1); }
  }

  lemma {:induction false} LookupFinds(fields: seq<Field>, key: string)
    ensures Lookup(fields, key).Some? <==> key in Keys(fields)
    ensures Lookup(fields, key).Some? ==>
      exists i :: 0 <= i < |fields| && fields[i] == Field(key, Lookup(fields, key).value)
  {
    if fields != [] {
      LookupFinds(fields[1..], key);
      assert Keys(fields) == {fields[0].key} + Keys(fields[1..]);
      if fields[0].key == key {
        assert fields[0] == Field(key, fields[0].value);
      } else if Lookup(fields, key).Some? {
        var i :| 0 <= i < |fields| - 1 && fields[1..][i] == Field(key, Lookup(fields, key).value);
        assert fields[i + 1] == fields[1..][i];
      }
    }
  }

  lemma {:induction false} InsertLookup(f: Field, fields: seq<Field>, key: string)
    requires Lookup(fields, f.key).None?
    ensures Lookup(Insert(f, fields), key) == if key == f.key then Some(f.value) else Lookup(fields, key)
  {
    if !(fields == [] || TextLess(f.key, fields[0].key)) {
      InsertLookup(f, fields[1..], key);
      assert Insert(f, fields)[1..] == Insert(f, fields[1..]);
    } else {
      assert ([f] + fields)[1..] == fields;
    }
  }

  lemma {:induction false} InsertSorted(f: Field, fields: seq<Field>)
    requires Sorted(fields) && f.key !in Keys(fields)
    ensures Sorted(Insert(f, fields)) && |Insert(f, fields)| == |fields| + 1
    ensures Keys(Insert(f, fields)) == Keys(fields) + {f.key}
  {
    if fields == [] {
    } else if TextLess(f.key, fields[0].key) {
      forall j | 0 < j < |fields| ensures TextLess(f.key, fields[j].key) {
        TextLessTransitive(f.key, fields[0].key, fields[j].key);
      }
      assert Keys([f] + fields) == Keys(fields) + {f.key};
    } else {
      var rest := Insert(f, fields[1..]);
      assert f.key != fields[0].key by { assert fields[0] in fields; }
      TextLessTotal(f.key, fields[0].key);
      InsertSorted(f, fields[1..]);
      assert Keys(fields) == {fields[0].key} + Keys(fields[1..]);
      forall j | 0 <= j < |rest| ensures TextLess(fields[0].key, rest[j].key) {
        assert rest[j].key in Keys(rest);
      }
      assert Keys([fields[0]] + rest) == {fields[0].key} + Keys(rest);
    }
  }

  lemma {:induction false} SortFieldsSorted(fields: seq<Field>)
    requires UniqueKeys(fields)
    ensures Sorted(SortFields(fields)) && |SortFields(fields)| == |fields|
    ensures Keys(SortFields(fields)) == Keys(fields)
  {
    if fields != [] {
      SortFieldsSorted(fields[1..]);
      InsertSorted(Field(fields[0].key, SortKeys(fields[0].value)), SortFields(fields[1..]));
      assert Keys(fields) == {fields[0].key} + Keys(fields[1..]);
    }
  }

  function SortFound(v: Option<Json>): Option<Json> {
    match v case None => None case Some(j) => Some(SortKeys(j))
  }

  /** Sorting moves items about but leaves what each key maps to, itself sorted. */
  lemma {:induction false} LookupSorted(fields: seq<Field>, key: string)
    requires UniqueKeys(fields)
    ensures Lookup(SortFields(fields), key) == SortFound(Lookup(fields, key))
  {
    if fields != [] {
      LookupSorted(fields[1..], key);
      LookupSorted(fields[1..], fields[0].key);
      LookupFinds(fields[1..], fields[0].key);
      InsertLookup(Field(fields[0].key, SortKeys(fields[0].value)), SortFields(fields[1..]), key);
    }
  }

  lemma SortedUnique(fields: seq<Field>)
    requires Sorted(fields)
    ensures UniqueKeys(fields)
  {
    forall i, j | 0 <= i < j < |fields| ensures fields[i].key != fields[j].key {
      TextLessIrreflexive(fields[i].key);
    }
  }

  lemma SortedHead(fields: seq<Field>, key: string)
    requires Sorted(fields) && (fields == [] || TextLess(key, fields[0].key))
    ensures Lookup(fields, key).None?
  {
    forall i | 0 <= i < |fields| ensures fields[i].key != key {
      if i > 0 { TextLessTransitive(key, fields[0].key, fields[i].key); }
      TextLessIrreflexive(key);
    }
    LookupFinds(fields, key);
  }

  lemma {:induction false} SortedDetermined(a: seq<Field>, b: seq<Field>)
    requires Sorted(a) && Sorted(b)
    requires forall k :: Lookup(a, k) == Lookup(b, k)
    ensures a == b
  {
    var first := if a != [] then a[0].key else if b != [] then b[0].key else "";
    assert Lookup(a, first) == Lookup(b, first);
    if a != [] && b != [] {
      TextLessTotal(a[0].key, b[0].key);
      if TextLess(a[0].key, b[0].key) { SortedHead(b, a[0].key); }
      if TextLess(b[0].key, a[0].key) { SortedHead(a, b[0].key); }
      assert Lookup(a, a[0].key) == Lookup(b, a[0].key);
      assert Lookup(a, b[0].key) == Lookup(b, b[0].key);
      assert a[0] == b[0];
      SortedHead(a[1..], a[0].key);
      SortedHead(b[1..], a[0].key);
      forall k ensures Lookup(a[1..], k) == Lookup(b[1..], k) {
        assert Lookup(a, k) == Lookup(b, k);
      }
      SortedDetermined(a[1..], b[1..]);
      assert a == [a[0]] + a[1..] && b == [b[0]] + b[1..];
    }
  }

  lemma {:induction false} KeysSize(fields: seq<Field>)
    requires UniqueKeys(fields)
    ensures |Keys(fields)| == |fields|
  {
    if fields == [] {
      assert Keys(fields) == {};
    } else {
      KeysSize(fields[1..]);
      assert Keys(fields) == {fields[0].key} + Keys(fields[1..]);
    }
  }

  lemma SubsetSameSize(a: set<string>, b: set<string>)
    requires a <= b && |a| == |b|
    ensures a == b
  {
    if a != b {
      var x :| x in b && x !in a;
      SubsetSize(a, b - {x});
    }
  }

  lemma SameKeys(x: seq<Field>, y: seq<Field>)
    requires UniqueKeys(x) && UniqueKeys(y) && Same(Obj(x), Obj(y))
    ensures Keys(x) == Keys(y)
  {
    forall k | k in Keys(x) ensures k in Keys(y) {
      var i :| 0 <= i < |x| && x[i].key == k;
      LookupFinds(y, k);
    }
    KeysSize(x);
    KeysSize(y);
    SubsetSameSize(Keys(x), Keys(y));
  }

  lemma {:induction false} SameSortsAlike(a: Json, b: Json)
    requires WellFormed(a) && WellFormed(b) && Same(a, b)
    ensures SortKeys(a) == SortKeys(b)
    decreases a
  {
    if a.Arr? {
      forall i | 0 <= i < |a.items| ensures SortKeys(a.items[i]) == SortKeys(b.items[i]) {
        SameSortsAlike(a.items[i], b.items[i]);
      }
    } else if a.Obj? {
      var x, y := a.fields, b.fields;
      SameKeys(x, y);
      SortFieldsSorted(x);
      SortFieldsSorted(y);
      forall k ensures Lookup(SortFields(x), k) == Lookup(SortFields(y), k) {
        LookupSorted(x, k);
        LookupSorted(y, k);
        LookupFinds(x, k);
        LookupFinds(y, k);
        if Lookup(x, k).Some? {
          var i :| 0 <= i < |x| && x[i] == Field(k, Lookup(x, k).value);
          var j :| 0 <= j < |y| && y[j] == Field(k, Lookup(y, k).value);
          SameSortsAlike(x[i].value, y[j].value);
        }
      }
      SortedDetermined(SortFields(x), SortFields(y));
    }
  }

  lemma {:induction false} SortsAlikeSame(a: Json, b: Json)
    requires WellFormed(a) && WellFormed(b) && SortKeys(a) == SortKeys(b)
    ensures Same(a, b)
    decreases a
  {
    if a.Arr? {
      forall i | 0 <= i < |a.items| ensures Same(a.items[i], b.items[i]) {
        assert SortItems(a.items)[i] == SortItems(b.items)[i];
        SortsAlikeSame(a.items[i], b.items[i]);
      }
    } else if a.Obj? {
      var x, y := a.fields, b.fields;
      SortFieldsSorted(x);
      SortFieldsSorted(y);
      forall i | 0 <= i < |x|
        ensures Lookup(y, x[i].key).Some? && Same(x[i].value, Lookup(y, x[i].key).value)
      {
        var k := x[i].key;
        LookupAt(x, i);
        LookupSorted(x, k);
        LookupSorted(y, k);
        LookupFinds(y, k);
        var j :| 0 <= j < |y| && y[j] == Field(k, Lookup(y, k).value);
        SortsAlikeSame(x[i].value, y[j].value);
      }
    }
  }

  lemma {:induction false} SortKeysWellFormed(j: Json)
    requires WellFormed(j)
    ensures WellFormed(SortKeys(j))
    decreases j
  {
    if j.Arr? {
      forall i | 0 <= i < |j.items| ensures WellFormed(SortKeys(j.items[i])) {
        SortKeysWellFormed(j.items[i]);
      }
    } else if j.Obj? {
      var sorted := SortFields(j.fields);
      SortFieldsSorted(j.fields);
      SortedUnique(sorted);
      forall i | 0 <= i < |sorted| ensures WellFormed(sorted[i].value) {
        var k := sorted[i].key;
        LookupAt(sorted, i);
        LookupSorted(j.fields, k);
        LookupFinds(j.fields, k);
        var m :| 0 <= m < |j.fields| && j.fields[m] == Field(k, Lookup(j.fields, k).value);
        SortKeysWellFormed(j.fields[m].value);
      }
    }
  }

  /** Sorting keys changes nothing Python's == can see. */
  lemma {:induction false} SortKeysSame(j: Json)
    requires WellFormed(j)
    ensures Same(SortKeys(j), j)
    decreases j
  {
    if j.Arr? {
      forall i | 0 <= i < |j.items| ensures Same(SortKeys(j.items[i]), j.items[i]) {
        SortKeysSame(j.items[i]);
      }
    } else if j.Obj? {
      var sorted := SortFields(j.fields);
      SortFieldsSorted(j.fields);
      SortedUnique(sorted);
      forall i | 0 <= i < |sorted|
        ensures Lookup(j.fields, sorted[i].key).Some? && Same(sorted[i].value, Lookup(j.fields, sorted[i].key).value)
      {
        var k := sorted[i].key;
        LookupAt(sorted, i);
        LookupSorted(j.fields, k);
        LookupFinds(j.fields, k);
        var m :| 0 <= m < |j.fields| && j.fields[m] == Field(k, Lookup(j.fields, k).value);
        SortKeysSame(j.fields[m].value);
      }
    }
  }

  /** The strict parser reads the canonical text back as the value, its keys sorted. */
  lemma ParseCanonical(j: Json)
    requires WellFormed(j)
    ensures Parse(CanonicalText(j)) == Some(SortKeys(j))
  {
    SortKeysWellFormed(j);
    ParseEmit(SortKeys(j));
  }

  /** Two values have the same canonical text exactly when Python would call them equal. */
  lemma CanonicalTextDecides(a: Json, b: Json)
    requires WellFormed(a) && WellFormed(b)
    ensures CanonicalText(a) == CanonicalText(b) <==> Same(a, b)
  {
    ParseCanonical(a);
    ParseCanonical(b);
    if CanonicalText(a) == CanonicalText(b) { SortsAlikeSame(a, b); }
    if Same(a, b) { SameSortsAlike(a, b); }
  }
}
