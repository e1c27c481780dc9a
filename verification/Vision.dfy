/** From raw detector output to detections (vision.py), over exact reals: clipping, and the conversion loop. */
module Vision {
  import opened Prelude
  import opened Digits
  import opened Events

  /** One value of the detector's output. */
  datatype Scalar = Finite(value: real) | NotFinite | NotNumeric

  datatype VisionError =
    | NotOneResult | InvalidShape | InconsistentLengths | InvalidNumber | ConfidenceOutOfRange
    | UnknownClass | EmptyBox | OutsideFrame | NotRepresentable

  function FiniteNumber(x: Scalar): Result<real, VisionError> {
    if x.Finite? then Ok(x.value) else Err(InvalidNumber)
  }

  function NonNegativeInteger(x: Scalar): Result<nat, VisionError> {
    if x.Finite? && x.value >= 0.0 && x.value.Floor as real == x.value then Ok(x.value.Floor) else Err(InvalidNumber)
  }

  // ---- Clipping ----

  datatype Rect = Rect(xMin: real, yMin: real, xMax: real, yMax: real)

  function Clamp(v: real, limit: real): real {
    var atLeast := if v < 0.0 then 0.0 else v;
    if atLeast > limit then limit else atLeast
  }

  function Clip(r: Rect, width: real, height: real): Rect {
    Rect(Clamp(r.xMin, width), Clamp(r.yMin, height), Clamp(r.xMax, width), Clamp(r.yMax, height))
  }

  function NormalizeRect(r: Rect, width: real, height: real): Result<Rect, VisionError>
    requires width > 0.0 && height > 0.0
  {
    if r.xMin >= r.xMax || r.yMin >= r.yMax then Err(EmptyBox)
    else
      var c := Clip(r, width, height);
      if c.xMin >= c.xMax || c.yMin >= c.yMax then Err(OutsideFrame)
      else Ok(Rect(c.xMin / width, c.yMin / height, c.xMax / width, c.yMax / height))
  }

  function NormalizeBox(row: seq<Scalar>, width: nat, height: nat): Result<Rect, VisionError>
    requires |row| == 4 && width > 0 && height > 0
  {
    if exists i :: 0 <= i < 4 && !row[i].Finite? then Err(InvalidNumber)
    else NormalizeRect(Rect(row[0].value, row[1].value, row[2].value, row[3].value), width as real, height as real)
  }

  /** The point lies in the box. */
  predicate Contains(r: Rect, x: real, y: real) {
    r.xMin <= x <= r.xMax && r.yMin <= y <= r.yMax
  }

  predicate InFrame(x: real, y: real, width: real, height: real) {
    0.0 <= x <= width && 0.0 <= y <= height
  }

  predicate Inner(r: Rect, x: real, y: real) {
    r.xMin < x < r.xMax && r.yMin < y < r.yMax
  }

  /** The box and the frame share an inner point, and so some area. */
  ghost predicate Overlaps(r: Rect, width: real, height: real) {
    exists x: real, y: real :: Inner(r, x, y) && Inner(Rect(0.0, 0.0, width, height), x, y)
  }

  lemma ClampMeets(low: real, high: real, limit: real)
    requires low < high && limit > 0.0
    ensures Clamp(low, limit) < Clamp(high, limit) <==> low < limit && 0.0 < high
  {
  }

  /** Between two bounds and inside (0, limit), when the clamped bounds leave room. */
  function Between(low: real, high: real, limit: real): (x: real)
    requires low < high && limit > 0.0 && low < limit && 0.0 < high
    ensures low < x < high && 0.0 < x < limit
  {
    (Clamp(low, limit) + Clamp(high, limit)) / 2.0
  }

  /** A box is taken exactly when it shares area with the frame. */
  lemma AcceptedExactlyWhenOverlapping(r: Rect, width: real, height: real)
    requires width > 0.0 && height > 0.0
    ensures NormalizeRect(r, width, height).Ok? <==> Overlaps(r, width, height)
  {
    if r.xMin < r.xMax && r.yMin < r.yMax {
      ClampMeets(r.xMin, r.xMax, width);
      ClampMeets(r.yMin, r.yMax, height);
      if r.xMin < width && 0.0 < r.xMax && r.yMin < height && 0.0 < r.yMax {
        var x, y := Between(r.xMin, r.xMax, width), Between(r.yMin, r.yMax, height);
        assert Inner(r, x, y) && Inner(Rect(0.0, 0.0, width, height), x, y);
      }
    }
  }

  lemma ScaleUp(p: real, q: real, c: real)
    requires p <= q && c > 0.0
    ensures p * c <= q * c
  {
  }

  lemma Quotients(a: real, b: real, limit: real)
    requires 0.0 <= a < b <= limit && limit > 0.0
    ensures a / limit * limit == a && b / limit * limit == b
    ensures 0.0 <= a / limit < b / limit <= 1.0
  {
    var p, q := a / limit, b / limit;
    assert p * limit == a && q * limit == b;
    if q <= p { ScaleUp(q, p, limit); }
    if q > 1.0 { assert (q - 1.0) * limit > 0.0; }
  }

  predicate UnitOrdered(r: Rect) {
    0.0 <= r.xMin < r.xMax <= 1.0 && 0.0 <= r.yMin < r.yMax <= 1.0
  }

  function Scaled(r: Rect, width: real, height: real): Rect {
    Rect(r.xMin * width, r.yMin * height, r.xMax * width, r.yMax * height)
  }

  /** What comes out is ordered inside the unit square, and scaled back it is exactly the part of the box in the frame. */
  lemma NormalizedIsIntersection(r: Rect, width: real, height: real, x: real, y: real)
    requires width > 0.0 && height > 0.0 && NormalizeRect(r, width, height).Ok?
    ensures var n := NormalizeRect(r, width, height).value;
      && UnitOrdered(n)
      && (Contains(Scaled(n, width, height), x, y) <==> Contains(r, x, y) && InFrame(x, y, width, height))
  {
    var c := Clip(r, width, height);
    Quotients(c.xMin, c.xMax, width);
    Quotients(c.yMin, c.yMax, height);
    assert Scaled(NormalizeRect(r, width, height).value, width, height) == c;
    ClampContains(r.xMin, r.xMax, width, x);
    ClampContains(r.yMin, r.yMax, height, y);
  }

  lemma ClampContains(low: real, high: real, limit: real, v: real)
    requires Clamp(low, limit) < Clamp(high, limit) && limit > 0.0
    ensures Clamp(low, limit) <= v <= Clamp(high, limit) <==> low <= v <= high && 0.0 <= v <= limit
  {
  }

  /** box is the part of r inside the frame, in units of the frame. */
  ghost predicate IsPartInFrame(box: Rect, r: Rect, width: real, height: real) {
    && UnitOrdered(box)
    && forall x: real, y: real ::
         Contains(Scaled(box, width, height), x, y) <==> (Contains(r, x, y) && InFrame(x, y, width, height))
  }

  predicate Extended(r: Rect) {
    r.xMin < r.xMax && r.yMin < r.yMax
  }

  lemma SameExtent(p: Rect, q: Rect)
    requires Extended(p) && Extended(q)
    requires forall x: real, y: real :: Contains(p, x, y) <==> Contains(q, x, y)
    ensures p == q
  {
    assert Contains(p, p.xMin, p.yMin) && Contains(p, p.xMax, p.yMax);
    assert Contains(q, q.xMin, q.yMin) && Contains(q, q.xMax, q.yMax);
  }

  lemma ScaleStrictly(p: real, q: real, c: real)
    requires p < q && c > 0.0
    ensures p * c < q * c
  {
  }

  lemma ScaledExtended(box: Rect, width: real, height: real)
    requires UnitOrdered(box) && width > 0.0 && height > 0.0
    ensures Extended(Scaled(box, width, height))
  {
    ScaleStrictly(box.xMin, box.xMax, width);
    ScaleStrictly(box.yMin, box.yMax, height);
  }

  lemma ScaleCancels(p: real, q: real, c: real)
    requires p * c == q * c && c > 0.0
    ensures p == q
  {
    if p < q { ScaleStrictly(p, q, c); }
    if q < p { ScaleStrictly(q, p, c); }
  }

  lemma ScaledOnce(a: Rect, b: Rect, width: real, height: real)
    requires Scaled(a, width, height) == Scaled(b, width, height) && width > 0.0 && height > 0.0
    ensures a == b
  {
    ScaleCancels(a.xMin, b.xMin, width);
    ScaleCancels(a.xMax, b.xMax, width);
    ScaleCancels(a.yMin, b.yMin, height);
    ScaleCancels(a.yMax, b.yMax, height);
  }

  lemma PartOverlaps(box: Rect, r: Rect, width: real, height: real)
    requires width > 0.0 && height > 0.0 && IsPartInFrame(box, r, width, height)
    ensures Overlaps(r, width, height)
  {
    var s := Scaled(box, width, height);
    ScaledExtended(box, width, height);
    assert Contains(s, s.xMin, s.yMin) && Contains(s, s.xMax, s.yMax);
    var x, y := (s.xMin + s.xMax) / 2.0, (s.yMin + s.yMax) / 2.0;
    assert Inner(r, x, y) && Inner(Rect(0.0, 0.0, width, height), x, y);
  }

  lemma NormalizedIsPart(r: Rect, width: real, height: real)
    requires width > 0.0 && height > 0.0 && NormalizeRect(r, width, height).Ok?
    ensures IsPartInFrame(NormalizeRect(r, width, height).value, r, width, height)
  {
    var n := NormalizeRect(r, width, height).value;
    NormalizedIsIntersection(r, width, height, 0.0, 0.0);
    forall x: real, y: real
      ensures Contains(Scaled(n, width, height), x, y) <==> (Contains(r, x, y) && InFrame(x, y, width, height))
    {
      NormalizedIsIntersection(r, width, height, x, y);
    }
  }

  /** Clipping and scaling give a box exactly when it is the part of the given box inside the frame. */
  lemma NormalizedExactly(box: Rect, r: Rect, width: real, height: real)
    requires width > 0.0 && height > 0.0
    ensures NormalizeRect(r, width, height) == Ok(box) <==> IsPartInFrame(box, r, width, height)
  {
    if NormalizeRect(r, width, height).Ok? { NormalizedIsPart(r, width, height); }
    if IsPartInFrame(box, r, width, height) {
      PartOverlaps(box, r, width, height);
      AcceptedExactlyWhenOverlapping(r, width, height);
      var n := NormalizeRect(r, width, height).value;
      PartOnce(box, n, r, width, height);
    }
  }

  lemma PartOnce(a: Rect, b: Rect, r: Rect, width: real, height: real)
    requires width > 0.0 && height > 0.0 && IsPartInFrame(a, r, width, height) && IsPartInFrame(b, r, width, height)
    ensures a == b
  {
    var p, q := Scaled(a, width, height), Scaled(b, width, height);
    ScaledExtended(a, width, height);
    ScaledExtended(b, width, height);
    forall x: real, y: real ensures Contains(p, x, y) <==> Contains(q, x, y) {
    }
    SameExtent(p, q);
    ScaledOnce(a, b, width, height);
  }

  // ---- Class names ----

  datatype NameEntry = Text(text: string) | NotText

  /** The names table of the result or of the backend: a mapping keyed by number or by numeral, a list, or none. */
  datatype Names =
    | NoNames
    | Listed(entries: seq<NameEntry>)
    | Mapped(byNumber: map<nat, NameEntry>, byText: map<string, NameEntry>)

  predicate Blank(s: string) {
    forall i :: 0 <= i < |s| ==> IsBlankChar(s[i])
  }

  function ClassName(names: Names, id: nat): Result<string, VisionError> {
    var entry :=
      match names
      case NoNames => NotText
      case Listed(entries) => if id < |entries| then entries[id] else NotText
      case Mapped(byNumber, byText) =>
        if id in byNumber then byNumber[id]
        else if Decimal(id) in byText then byText[Decimal(id)] else NotText;
    if entry.NotText? || Blank(entry.text) then Err(UnknownClass) else Ok(entry.text)
  }

  /** The table names class id so: a mapping by number before numeral, a list by position. */
  predicate NamesIt(names: Names, id: nat, name: string) {
    match names
    case NoNames => false
    case Listed(entries) => id < |entries| && entries[id] == Text(name)
    case Mapped(byNumber, byText) =>
      if id in byNumber then byNumber[id] == Text(name)
      else Decimal(id) in byText && byText[Decimal(id)] == Text(name)
  }

  lemma ClassNameExactly(names: Names, id: nat, name: string)
    ensures ClassName(names, id) == Ok(name) <==> NamesIt(names, id, name) && !Blank(name)
  {
  }

  // ---- Rows ----

  datatype Found = Found(classId: nat, className: string, confidence: real, box: Rect, trackId: Option<nat>)

  /** The Detection contract, number ranges included. */
  predicate Representable(d: Found) {
    1 <= |d.className| <= 255 && !Blank(d.className) && 0.0 <= d.confidence <= 1.0 && UnitOrdered(d.box)
  }

  /** A tensor read back as a list, or as a single value. */
  datatype Converted = Values(values: seq<Option<Scalar>>) | Single(value: Option<Scalar>)

  function Vector(c: Converted, expected: nat): Result<seq<Option<Scalar>>, VisionError> {
    if c.Values? then (if |c.values| == expected then Ok(c.values) else Err(InconsistentLengths))
    else if expected == 1 then Ok([c.value]) else Err(InvalidShape)
  }

  datatype RawResult = RawResult(
    rows: seq<seq<Scalar>>, confidences: Converted, classes: Converted, tracks: Option<Converted>, names: Names)

  /** One result with its parts checked against each other. */
  datatype Table = Table(
    rows: seq<seq<Scalar>>, confidences: seq<Option<Scalar>>, classes: seq<Option<Scalar>>, tracks: seq<Option<Scalar>>,
    names: Names)

  predicate WellShaped(t: Table) {
    && |t.confidences| == |t.classes| == |t.tracks| == |t.rows|
    && forall i :: 0 <= i < |t.rows| ==> |t.rows[i]| == 4
  }

  function Read(raw: seq<RawResult>): (r: Result<Table, VisionError>)
    ensures r.Ok? ==> WellShaped(r.value)
  {
    if |raw| != 1 then Err(NotOneResult)
    else
      var n := |raw[0].rows|;
      if exists i :: 0 <= i < n && |raw[0].rows[i]| != 4 then Err(InvalidShape)
      else
        match Vector(raw[0].confidences, n)
        case Err(e) => Err(e)
        case Ok(confidences) =>
          match Vector(raw[0].classes, n)
          case Err(e) => Err(e)
          case Ok(classes) =>
            match (if raw[0].tracks.None? then Ok(seq(n, _ => None)) else Vector(raw[0].tracks.value, n))
            case Err(e) => Err(e)
            case Ok(tracks) => Ok(Table(raw[0].rows, confidences, classes, tracks, raw[0].names))
  }

  /** values are what the tensor reads as: a list of the right length, or one value where one is expected. */
  predicate Column(c: Converted, expected: nat, values: seq<Option<Scalar>>) {
    |values| == expected && (c == Values(values) || (expected == 1 && c == Single(values[0])))
  }

  /** t is the one result of the output, its rows of four and its columns as long as the rows. */
  ghost predicate Tabulates(raw: seq<RawResult>, t: Table) {
    && |raw| == 1 && t.rows == raw[0].rows && t.names == raw[0].names
    && (forall i :: 0 <= i < |t.rows| ==> |t.rows[i]| == 4)
    && Column(raw[0].confidences, |t.rows|, t.confidences) && Column(raw[0].classes, |t.rows|, t.classes)
    && (if raw[0].tracks.None? then |t.tracks| == |t.rows| && forall i :: 0 <= i < |t.rows| ==> t.tracks[i] == None
        else Column(raw[0].tracks.value, |t.rows|, t.tracks))
  }

  lemma VectorExactly(c: Converted, expected: nat, values: seq<Option<Scalar>>)
    ensures Vector(c, expected) == Ok(values) <==> Column(c, expected, values)
  {
    if Column(c, expected, values) && c.Single? { assert values == [values[0]]; }
  }

  lemma ReadTabulates(raw: seq<RawResult>)
    requires Read(raw).Ok?
    ensures Tabulates(raw, Read(raw).value)
  {
    var t := Read(raw).value;
    VectorExactly(raw[0].confidences, |t.rows|, t.confidences);
    VectorExactly(raw[0].classes, |t.rows|, t.classes);
    if raw[0].tracks.Some? { VectorExactly(raw[0].tracks.value, |t.rows|, t.tracks); }
  }

  lemma TabulatedIsRead(raw: seq<RawResult>, t: Table)
    requires Tabulates(raw, t)
    ensures Read(raw) == Ok(t)
  {
    VectorExactly(raw[0].confidences, |t.rows|, t.confidences);
    VectorExactly(raw[0].classes, |t.rows|, t.classes);
    if raw[0].tracks.Some? {
      VectorExactly(raw[0].tracks.value, |t.rows|, t.tracks);
    } else {
      assert t.tracks == seq(|t.rows|, _ => None);
    }
  }

  /** Everything asked of a row whatever its confidence. */
  function ReadRow(t: Table, i: nat, width: nat, height: nat): Result<Found, VisionError>
    requires WellShaped(t) && i < |t.rows| && width > 0 && height > 0
  {
    if t.confidences[i].None? || t.classes[i].None? then Err(InvalidNumber)
    else
      match FiniteNumber(t.confidences[i].value)
      case Err(e) => Err(e)
      case Ok(confidence) =>
        if confidence < 0.0 || confidence > 1.0 then Err(ConfidenceOutOfRange)
        else
          match NonNegativeInteger(t.classes[i].value)
          case Err(e) => Err(e)
          case Ok(classId) =>
            match ClassName(t.names, classId)
            case Err(e) => Err(e)
            case Ok(className) =>
              match NormalizeBox(t.rows[i], width, height)
              case Err(e) => Err(e)
              case Ok(box) =>
                if t.tracks[i].None? then Ok(Found(classId, className, confidence, box, None))
                else
                  match NonNegativeInteger(t.tracks[i].value)
                  case Err(e) => Err(e)
                  case Ok(track) => Ok(Found(classId, className, confidence, box, Some(track)))
  }

  /** A row that reads well can fail the contract only through the length of its class name. */
  lemma ReadRowsFit(t: Table, i: nat, width: nat, height: nat)
    requires WellShaped(t) && i < |t.rows| && width > 0 && height > 0 && ReadRow(t, i, width, height).Ok?
    ensures var d := ReadRow(t, i, width, height).value; Representable(d) <==> |d.className| <= 255
  {
    var row := t.rows[i];
    var box := Rect(row[0].value, row[1].value, row[2].value, row[3].value);
    NormalizedIsIntersection(box, width as real, height as real, 0.0, 0.0);
  }

  function RawBox(row: seq<Scalar>): Rect
    requires |row| == 4 && forall j :: 0 <= j < 4 ==> row[j].Finite?
  {
    Rect(row[0].value, row[1].value, row[2].value, row[3].value)
  }

  /**
   d is what row i says: its own confidence in [0, 1], its class and that class's name in the table, its track if it
   has one, and the part of its own box that lies in the frame.
   */
  ghost predicate Reports(t: Table, i: nat, width: nat, height: nat, d: Found)
    requires WellShaped(t) && i < |t.rows|
  {
    && t.confidences[i] == Some(Finite(d.confidence)) && 0.0 <= d.confidence <= 1.0
    && t.classes[i] == Some(Finite(d.classId as real)) && NamesIt(t.names, d.classId, d.className) && !Blank(d.className)
    && t.tracks[i] == (if d.trackId.None? then None else Some(Finite(d.trackId.value as real)))
    && (forall j :: 0 <= j < 4 ==> t.rows[i][j].Finite?)
    && IsPartInFrame(d.box, RawBox(t.rows[i]), width as real, height as real)
  }

  lemma NonNegativeIntegerExactly(x: Scalar, n: nat)
    ensures NonNegativeInteger(x) == Ok(n) <==> x == Finite(n as real)
  {
  }

  lemma BoxExactly(row: seq<Scalar>, width: nat, height: nat, box: Rect)
    requires |row| == 4 && width > 0 && height > 0
    ensures NormalizeBox(row, width, height) == Ok(box) <==>
      (forall j :: 0 <= j < 4 ==> row[j].Finite?) && IsPartInFrame(box, RawBox(row), width as real, height as real)
  {
    if forall j :: 0 <= j < 4 ==> row[j].Finite? {
      NormalizedExactly(box, RawBox(row), width as real, height as real);
    }
  }

  /** Reading a row gives d exactly when d is what the row says; so a row says at most one thing. */
  lemma RowMeaning(t: Table, i: nat, width: nat, height: nat, d: Found)
    requires WellShaped(t) && i < |t.rows| && width > 0 && height > 0
    ensures ReadRow(t, i, width, height) == Ok(d) <==> Reports(t, i, width, height, d)
  {
    if t.classes[i].Some? { NonNegativeIntegerExactly(t.classes[i].value, d.classId); }
    if t.tracks[i].Some? && d.trackId.Some? { NonNegativeIntegerExactly(t.tracks[i].value, d.trackId.value); }
    ClassNameExactly(t.names, d.classId, d.className);
    BoxExactly(t.rows[i], width, height, d.box);
  }

  // ---- The conversion loop ----

  /** Row i passes the confidence threshold. */
  predicate Passes(t: Table, i: nat, threshold: real)
    requires i < |t.confidences|
  {
    t.confidences[i].Some? && t.confidences[i].value.Finite? && t.confidences[i].value.value >= threshold
  }

  /** Row i says something, and something the contract allows if it is to be kept. */
  ghost predicate Sound(t: Table, i: nat, width: nat, height: nat, threshold: real)
    requires WellShaped(t) && i < |t.rows|
  {
    exists d :: Reports(t, i, width, height, d) && (Passes(t, i, threshold) ==> |d.className| <= 255)
  }

  lemma SoundExactly(t: Table, i: nat, width: nat, height: nat, threshold: real)
    requires WellShaped(t) && i < |t.rows| && width > 0 && height > 0
    ensures var row := ReadRow(t, i, width, height);
      Sound(t, i, width, height, threshold) <==> row.Ok? && (Passes(t, i, threshold) ==> |row.value.className| <= 255)
  {
    var row := ReadRow(t, i, width, height);
    if row.Ok? { RowMeaning(t, i, width, height, row.value); }
    if d :| Reports(t, i, width, height, d) && (Passes(t, i, threshold) ==> |d.className| <= 255) {
      RowMeaning(t, i, width, height, d);
    }
  }

  /** ds are what the rows passing the threshold say, in their order; origin names the row each came from. */
  ghost predicate Selects(t: Table, width: nat, height: nat, threshold: real, n: nat, ds: seq<Found>, origin: seq<nat>)
    requires WellShaped(t) && n <= |t.rows|
  {
    && |origin| == |ds|
    && (forall k :: 0 <= k < |origin| ==>
          origin[k] < n && Passes(t, origin[k], threshold) &&
          Reports(t, origin[k], width, height, ds[k]) && Representable(ds[k]))
    && (forall k, l :: 0 <= k < l < |origin| ==> origin[k] < origin[l])
    && (forall i :: 0 <= i < n && Passes(t, i, threshold) ==> i in origin)
  }

  /**
   Fails exactly when the output is misshapen or some row, of whatever confidence, is unsound; otherwise the
   detections are what the rows passing the threshold say, in their order.
   */
  method ConvertResults(raw: seq<RawResult>, width: nat, height: nat, threshold: real)
    returns (r: Result<seq<Found>, VisionError>, ghost t: Table, ghost origin: seq<nat>)
    requires width > 0 && height > 0
    ensures r.Err? ==> forall u :: Tabulates(raw, u) ==>
      WellShaped(u) && exists i :: 0 <= i < |u.rows| && !Sound(u, i, width, height, threshold)
    ensures r.Ok? ==>
      && Tabulates(raw, t) && WellShaped(t)
      && (forall i :: 0 <= i < |t.rows| ==> Sound(t, i, width, height, threshold))
      && Selects(t, width, height, threshold, |t.rows|, r.value, origin)
  {
    origin := [];
    var table := Read(raw);
    t := if table.Ok? then table.value else Table([], [], [], [], NoNames);
    forall u | Tabulates(raw, u) ensures table == Ok(u) { TabulatedIsRead(raw, u); }
    if table.Err? {
      return Err(table.error), t, [];
    }
    ReadTabulates(raw);
    var rows := table.value;
    var detections: seq<Found> := [];
    for i := 0 to |rows.rows|
      invariant forall j :: 0 <= j < i ==> Sound(rows, j, width, height, threshold)
      invariant Selects(rows, width, height, threshold, i, detections, origin)
    {
      SoundExactly(rows, i, width, height, threshold);
      var row := ReadRow(rows, i, width, height);
      if row.Err? {
        return Err(row.error), t, [];
      }
      RowMeaning(rows, i, width, height, row.value);
      if row.value.confidence >= threshold {
        ReadRowsFit(rows, i, width, height);
        if !Representable(row.value) {
          return Err(NotRepresentable), t, [];
        }
        detections, origin := detections + [row.value], origin + [i];
      }
    }
    return Ok(detections), rows, origin;
  }
}
