/**
 The wire contracts, the canonical signed text, and the stored record of an accepted event
 (contracts.py, canonical.py and the codecs of persistence.py).
 */
module Events {
  import opened Prelude
  import opened Digits
  import opened Timestamps
  import opened Json
  import Utf8

  // ---- Contracts ----

  datatype ModelMetadata = ModelMetadata(name: string, sha256: string)

  datatype FrameMetadata = FrameMetadata(width: nat, height: nat)

  datatype Box = Box(xMin: Number, yMin: Number, xMax: Number, yMax: Number)

  datatype Detection = Detection(
    classId: nat, className: string, confidence: Number, box: Box, trackId: Option<nat>)

  datatype PerformanceMetrics = PerformanceMetrics(decodeMs: Number, inferenceMs: Number, postprocessMs: Number)

  /** schema_version and mode admit one value each, so they are constants. */
  datatype DetectionEvent = DetectionEvent(
    eventId: string, nodeId: string, cameraId: string, timestamp: DateTime, nonce: string, frameSeq: nat,
    jobId: Option<string>, model: ModelMetadata, frame: FrameMetadata, detections: seq<Detection>,
    performance: PerformanceMetrics)

  const SCHEMA_VERSION: string := "1.0"
  const PRIVACY_MODE: string := "privacy"

  predicate IsAlphanumeric(c: char) {
    IsDigit(c) || 'a' <= c <= 'z' || 'A' <= c <= 'Z'
  }

  predicate SafeIdentifier(s: string) {
    && 1 <= |s| <= 128
    && IsAlphanumeric(s[0])
    && forall i :: 0 <= i < |s| ==> IsAlphanumeric(s[i]) || s[i] == '.' || s[i] == '_' || s[i] == ':' || s[i] == '-'
  }

  predicate IsBlankChar(c: char) {
    var n := c as int;
    || 9 <= n <= 13 || 28 <= n <= 32 || n == 0x85 || n == 0xA0 || n == 0x1680 || 0x2000 <= n <= 0x200A
    || n == 0x2028 || n == 0x2029 || n == 0x202F || n == 0x205F || n == 0x3000
  }

  predicate Label(s: string) {
    1 <= |s| <= 255 && exists i :: 0 <= i < |s| && !IsBlankChar(s[i])
  }

  predicate Sha256Hex(s: string) {
    |s| == 64 && forall i :: 0 <= i < 64 ==> IsDigit(s[i]) || 'a' <= s[i] <= 'f'
  }

  predicate ValidModel(m: ModelMetadata) {
    Label(m.name) && Sha256Hex(m.sha256)
  }

  predicate ValidFrame(f: FrameMetadata) {
    f.width > 0 && f.height > 0
  }

  /** The contract apart from number ranges, since number tokens are opaque. */
  predicate ValidEvent(e: DetectionEvent) {
    && SafeIdentifier(e.eventId) && SafeIdentifier(e.nodeId) && SafeIdentifier(e.cameraId) && SafeIdentifier(e.nonce)
    && (e.jobId.Some? ==> SafeIdentifier(e.jobId.value))
    && ValidModel(e.model) && ValidFrame(e.frame)
    && forall d :: d in e.detections ==> Label(d.className)
  }

  const SAMPLE: DetectionEvent := DetectionEvent(
    "e", "n", "c", Fields(1, 1, 1, 0, 0, 0, 0), "k", 0, None, ModelMetadata("m", seq(64, _ => 'a')),
    FrameMetadata(1, 1), [], PerformanceMetrics("0", "0", "0"))

  /** An event that passed strict validation. */
  type Event = e: DetectionEvent | ValidEvent(e)
    witness (assert !IsBlankChar(SAMPLE.model.name[0]); SAMPLE)

  // ---- Encoding ----

  function NatJson(n: nat): Json {
    DecimalIsNumber(n);
    Num(Decimal(n))
  }

  function OptionalNatJson(n: Option<nat>): Json {
    match n case None => Null case Some(k) => NatJson(k)
  }

  function OptionalTextJson(s: Option<string>): Json {
    match s case None => Null case Some(t) => Str(t)
  }

  /** A dict literal: keys paired with values in order. */
  function Zip(keys: seq<string>, values: seq<Json>): (fields: seq<Field>)
    requires |keys| == |values|
    ensures |fields| == |keys|
    ensures forall i :: 0 <= i < |keys| ==> fields[i] == Field(keys[i], values[i])
  {
    if keys == [] then [] else [Field(keys[0], values[0])] + Zip(keys[1..], values[1..])
  }

  const MODEL_KEYS: seq<string> := ["name", "sha256"]
  const FRAME_KEYS: seq<string> := ["width", "height"]
  const DETECTION_KEYS: seq<string> := ["class_id", "class_name", "confidence", "bbox_xyxy_norm", "track_id"]
  const PERFORMANCE_KEYS: seq<string> := ["decode_ms", "inference_ms", "postprocess_ms"]
  const EVENT_KEYS: seq<string> := [
    "schema_version", "event_id", "node_id", "camera_id", "timestamp_utc", "nonce", "frame_seq", "job_id", "mode",
    "model", "frame", "detections", "performance"]

  function ModelFields(m: ModelMetadata): seq<Field> {
    Zip(MODEL_KEYS, [Str(m.name), Str(m.sha256)])
  }

  function FrameFields(f: FrameMetadata): seq<Field> {
    Zip(FRAME_KEYS, [NatJson(f.width), NatJson(f.height)])
  }

  function BoxItems(b: Box): seq<Json> {
    [Num(b.xMin), Num(b.yMin), Num(b.xMax), Num(b.yMax)]
  }

  function DetectionFields(d: Detection): seq<Field> {
    Zip(DETECTION_KEYS,
      [NatJson(d.classId), Str(d.className), Num(d.confidence), Arr(BoxItems(d.box)), OptionalNatJson(d.trackId)])
  }

  function DetectionItems(ds: seq<Detection>): (items: seq<Json>)
    ensures |items| == |ds| && forall i :: 0 <= i < |ds| ==> items[i] == Obj(DetectionFields(ds[i]))
  {
    if ds == [] then [] else [Obj(DetectionFields(ds[0]))] + DetectionItems(ds[1..])
  }

  function PerformanceFields(p: PerformanceMetrics): seq<Field> {
    Zip(PERFORMANCE_KEYS, [Num(p.decodeMs), Num(p.inferenceMs), Num(p.postprocessMs)])
  }

  function ScalarValues(e: DetectionEvent): (values: seq<Json>)
    ensures |values| == 9
    ensures forall i :: 0 <= i < 9 ==> !values[i].Arr? && !values[i].Obj?
  {
    [Str(SCHEMA_VERSION), Str(e.eventId), Str(e.nodeId), Str(e.cameraId), Str(WireText(e.timestamp)), Str(e.nonce),
     NatJson(e.frameSeq), OptionalTextJson(e.jobId), Str(PRIVACY_MODE)]
  }

  function PartValues(e: DetectionEvent): seq<Json> {
    [Obj(ModelFields(e.model)), Obj(FrameFields(e.frame)), Arr(DetectionItems(e.detections)),
     Obj(PerformanceFields(e.performance))]
  }

  function EventValues(e: DetectionEvent): seq<Json> {
    ScalarValues(e) + PartValues(e)
  }

  /** model_dump(mode="json"): fields in declaration order. */
  function EventFields(e: DetectionEvent): seq<Field> {
    Zip(EVENT_KEYS, EventValues(e))
  }

  function EventJson(e: DetectionEvent): Json {
    Obj(EventFields(e))
  }

  /** canonical_event_bytes: the bytes a worker signs and the aggregator verifies. */
  function CanonicalEventBytes(e: DetectionEvent): seq<Utf8.Byte> {
    Utf8.Encode(CanonicalText(EventJson(e)))
  }

  // ---- Decoding (strict model validation; unknown and missing keys are refused) ----

  function AsText(v: Option<Json>): Option<string> {
    match v case Some(Str(s)) => Some(s) case _ => None
  }

  function AsOptionalText(v: Option<Json>): Option<Option<string>> {
    match v case Some(Null) => Some(None) case Some(Str(s)) => Some(Some(s)) case _ => None
  }

  function AsNumber(v: Option<Json>): Option<Number> {
    match v case Some(Num(t)) => Some(t) case _ => None
  }

  function AsNat(v: Option<Json>): Option<nat> {
    match v case Some(Num(t)) => (if AllDigits(t) then Some(Value(t)) else None) case _ => None
  }

  function AsOptionalNat(v: Option<Json>): Option<Option<nat>> {
    match v
    case Some(Null) => Some(None)
    case _ => match AsNat(v) case Some(n) => Some(Some(n)) case None => None
  }

  function AsFields(v: Option<Json>, size: nat): Option<seq<Field>> {
    match v case Some(Obj(fs)) => (if |fs| == size then Some(fs) else None) case _ => None
  }

  function DecodeModel(v: Option<Json>): Option<ModelMetadata> {
    match AsFields(v, 2)
    case None => None
    case Some(fs) =>
      match (AsText(Lookup(fs, "name")), AsText(Lookup(fs, "sha256")))
      case (Some(name), Some(sha)) => Some(ModelMetadata(name, sha))
      case _ => None
  }

  function DecodeFrame(v: Option<Json>): Option<FrameMetadata> {
    match AsFields(v, 2)
    case None => None
    case Some(fs) =>
      match (AsNat(Lookup(fs, "width")), AsNat(Lookup(fs, "height")))
      case (Some(w), Some(h)) => Some(FrameMetadata(w, h))
      case _ => None
  }

  function DecodePerformance(v: Option<Json>): Option<PerformanceMetrics> {
    match AsFields(v, 3)
    case None => None
    case Some(fs) =>
      match (AsNumber(Lookup(fs, "decode_ms")), AsNumber(Lookup(fs, "inference_ms")),
             AsNumber(Lookup(fs, "postprocess_ms")))
      case (Some(d), Some(i), Some(p)) => Some(PerformanceMetrics(d, i, p))
      case _ => None
  }

  function DecodeBox(v: Option<Json>): Option<Box> {
    match v
    case Some(Arr(items)) =>
      if |items| == 4 && items[0].Num? && items[1].Num? && items[2].Num? && items[3].Num?
      then Some(Box(items[0].token, items[1].token, items[2].token, items[3].token)) else None
    case _ => None
  }

  function DecodeDetectionFields(fs: seq<Field>): Option<Detection> {
    match (AsNat(Lookup(fs, "class_id")), AsText(Lookup(fs, "class_name")), AsNumber(Lookup(fs, "confidence")),
           DecodeBox(Lookup(fs, "bbox_xyxy_norm")), AsOptionalNat(Lookup(fs, "track_id")))
    case (Some(id), Some(name), Some(conf), Some(box), Some(track)) => Some(Detection(id, name, conf, box, track))
    case _ => None
  }

  function DecodeDetection(v: Option<Json>): Option<Detection> {
    match AsFields(v, 5) case None => None case Some(fs) => DecodeDetectionFields(fs)
  }

  function DecodeDetections(items: seq<Json>): Option<seq<Detection>> {
    if items == [] then Some([])
    else
      match (DecodeDetection(Some(items[0])), DecodeDetections(items[1..]))
      case (Some(d), Some(ds)) => Some([d] + ds)
      case _ => None
  }

  function DecodeDetectionList(v: Option<Json>): Option<seq<Detection>> {
    match v case Some(Arr(items)) => DecodeDetections(items) case _ => None
  }

  function DecodeTimestamp(v: Option<Json>): Option<DateTime> {
    match AsText(v) case None => None case Some(s) => ParseWire(s)
  }

  datatype Identity = Identity(eventId: string, nodeId: string, cameraId: string, nonce: string, jobId: Option<string>)

  function DecodeIdentity(fs: seq<Field>): Option<Identity> {
    match (AsText(Lookup(fs, "event_id")), AsText(Lookup(fs, "node_id")), AsText(Lookup(fs, "camera_id")),
           AsText(Lookup(fs, "nonce")), AsOptionalText(Lookup(fs, "job_id")))
    case (Some(e), Some(n), Some(c), Some(k), Some(j)) => Some(Identity(e, n, c, k, j))
    case _ => None
  }

  datatype Content = Content(frameSeq: nat, model: ModelMetadata, frame: FrameMetadata,
                             detections: seq<Detection>, performance: PerformanceMetrics)

  function DecodeContent(fs: seq<Field>): Option<Content> {
    match (AsNat(Lookup(fs, "frame_seq")), DecodeModel(Lookup(fs, "model")), DecodeFrame(Lookup(fs, "frame")),
           DecodeDetectionList(Lookup(fs, "detections")), DecodePerformance(Lookup(fs, "performance")))
    case (Some(q), Some(m), Some(f), Some(d), Some(p)) => Some(Content(q, m, f, d, p))
    case _ => None
  }

  /** The two fixed fields, then the timestamp. */
  function DecodeHeader(fs: seq<Field>): Option<DateTime> {
    if Lookup(fs, "schema_version") == Some(Str(SCHEMA_VERSION)) && Lookup(fs, "mode") == Some(Str(PRIVACY_MODE))
    then DecodeTimestamp(Lookup(fs, "timestamp_utc")) else None
  }

  function Combine(identity: Option<Identity>, time: Option<DateTime>, content: Option<Content>): Option<DetectionEvent> {
    match (identity, time, content)
    case (Some(i), Some(t), Some(c)) =>
      var e := DetectionEvent(i.eventId, i.nodeId, i.cameraId, t, i.nonce, c.frameSeq, i.jobId,
                              c.model, c.frame, c.detections, c.performance);
      if ValidEvent(e) then Some(e) else None
    case _ => None
  }

  function DecodeEvent(j: Json): Option<DetectionEvent> {
    match AsFields(Some(j), 13)
    case None => None
    case Some(fs) => Combine(DecodeIdentity(fs), DecodeHeader(fs), DecodeContent(fs))
  }

  // ---- Validation does not depend on key order ----

  predicate SameFound(v: Option<Json>, w: Option<Json>) {
    match (v, w)
    case (None, None) => true
    case (Some(a), Some(b)) => WellFormed(a) && WellFormed(b) && Same(a, b)
    case _ => false
  }

  predicate SameDicts(x: seq<Field>, y: seq<Field>) {
    WellFormed(Obj(x)) && WellFormed(Obj(y)) && Same(Obj(x), Obj(y))
  }

  lemma SameLookup(x: seq<Field>, y: seq<Field>, key: string)
    requires SameDicts(x, y)
    ensures SameFound(Lookup(x, key), Lookup(y, key))
  {
    SameKeys(x, y);
    LookupFinds(x, key);
    LookupFinds(y, key);
    if Lookup(x, key).Some? {
      var i :| 0 <= i < |x| && x[i] == Field(key, Lookup(x, key).value);
      assert x[i].key == key;
    }
  }

  lemma SameModel(v: Option<Json>, w: Option<Json>)
    requires SameFound(v, w)
    ensures DecodeModel(v) == DecodeModel(w)
  {
    if v.Some? && v.value.Obj? {
      SameLookup(v.value.fields, w.value.fields, "name");
      SameLookup(v.value.fields, w.value.fields, "sha256");
    }
  }

  lemma SameFrame(v: Option<Json>, w: Option<Json>)
    requires SameFound(v, w)
    ensures DecodeFrame(v) == DecodeFrame(w)
  {
    if v.Some? && v.value.Obj? {
      SameLookup(v.value.fields, w.value.fields, "width");
      SameLookup(v.value.fields, w.value.fields, "height");
    }
  }

  lemma SamePerformance(v: Option<Json>, w: Option<Json>)
    requires SameFound(v, w)
    ensures DecodePerformance(v) == DecodePerformance(w)
  {
    if v.Some? && v.value.Obj? {
      SameLookup(v.value.fields, w.value.fields, "decode_ms");
      SameLookup(v.value.fields, w.value.fields, "inference_ms");
      SameLookup(v.value.fields, w.value.fields, "postprocess_ms");
    }
  }

  lemma SameBox(v: Option<Json>, w: Option<Json>)
    requires SameFound(v, w)
    ensures DecodeBox(v) == DecodeBox(w)
  {
    if v.Some? && v.value.Arr? && |v.value.items| == 4 {
      var x, y := v.value.items, w.value.items;
      assert Same(x[0], y[0]) && Same(x[1], y[1]) && Same(x[2], y[2]) && Same(x[3], y[3]);
    }
  }

  lemma SameDetectionFields(x: seq<Field>, y: seq<Field>)
    requires SameDicts(x, y)
    ensures DecodeDetectionFields(x) == DecodeDetectionFields(y)
  {
    SameLookup(x, y, "class_id");
    SameLookup(x, y, "class_name");
    SameLookup(x, y, "confidence");
    SameLookup(x, y, "bbox_xyxy_norm");
    SameLookup(x, y, "track_id");
    SameBox(Lookup(x, "bbox_xyxy_norm"), Lookup(y, "bbox_xyxy_norm"));
  }

  lemma SameDetection(v: Option<Json>, w: Option<Json>)
    requires SameFound(v, w)
    ensures DecodeDetection(v) == DecodeDetection(w)
  {
    if v.Some? && v.value.Obj? { SameDetectionFields(v.value.fields, w.value.fields); }
  }

  lemma {:induction false} SameDetections(x: seq<Json>, y: seq<Json>)
    requires |x| == |y| && forall i :: 0 <= i < |x| ==> SameFound(Some(x[i]), Some(y[i]))
    ensures DecodeDetections(x) == DecodeDetections(y)
  {
    if x != [] {
      SameDetection(Some(x[0]), Some(y[0]));
      SameDetections(x[1..], y[1..]);
    }
  }

  lemma SameDetectionList(v: Option<Json>, w: Option<Json>)
    requires SameFound(v, w)
    ensures DecodeDetectionList(v) == DecodeDetectionList(w)
  {
    if v.Some? && v.value.Arr? {
      var x, y := v.value.items, w.value.items;
      forall i | 0 <= i < |x| ensures SameFound(Some(x[i]), Some(y[i])) {
        assert WellFormed(x[i]) && WellFormed(y[i]) && Same(x[i], y[i]);
      }
      SameDetections(x, y);
    }
  }

  lemma SameIdentity(x: seq<Field>, y: seq<Field>)
    requires SameDicts(x, y)
    ensures DecodeIdentity(x) == DecodeIdentity(y)
  {
    SameLookup(x, y, "event_id");
    SameLookup(x, y, "node_id");
    SameLookup(x, y, "camera_id");
    SameLookup(x, y, "nonce");
    SameLookup(x, y, "job_id");
  }

  lemma SameContent(x: seq<Field>, y: seq<Field>)
    requires SameDicts(x, y)
    ensures DecodeContent(x) == DecodeContent(y)
  {
    SameLookup(x, y, "frame_seq");
    SameLookup(x, y, "model");
    SameLookup(x, y, "frame");
    SameLookup(x, y, "detections");
    SameLookup(x, y, "performance");
    SameModel(Lookup(x, "model"), Lookup(y, "model"));
    SameFrame(Lookup(x, "frame"), Lookup(y, "frame"));
    SameDetectionList(Lookup(x, "detections"), Lookup(y, "detections"));
    SamePerformance(Lookup(x, "performance"), Lookup(y, "performance"));
  }

  lemma SameHeader(x: seq<Field>, y: seq<Field>)
    requires SameDicts(x, y)
    ensures DecodeHeader(x) == DecodeHeader(y)
  {
    SameLookup(x, y, "schema_version");
    SameLookup(x, y, "mode");
    SameLookup(x, y, "timestamp_utc");
    assert AsText(Lookup(x, "timestamp_utc")) == AsText(Lookup(y, "timestamp_utc"));
  }

  /** Two JSON bodies that Python calls equal validate to the same event, or both fail. */
  lemma SameEvent(a: Json, b: Json)
    requires WellFormed(a) && WellFormed(b) && Same(a, b)
    ensures DecodeEvent(a) == DecodeEvent(b)
  {
    if a.Obj? {
      SameHeader(a.fields, b.fields);
      SameIdentity(a.fields, b.fields);
      SameContent(a.fields, b.fields);
    }
  }

  // ---- Validation undoes the dump ----

  lemma NatRoundTrip(n: nat)
    ensures AsNat(Some(NatJson(n))) == Some(n) && AsOptionalNat(Some(NatJson(n))) == Some(Some(n))
  {
    DecimalRoundTrip(n);
  }

  lemma ZipLookup(keys: seq<string>, values: seq<Json>, i: nat)
    requires |keys| == |values| && Distinct(keys) && i < |keys|
    ensures Lookup(Zip(keys, values), keys[i]) == Some(values[i])
  {
    LookupAt(Zip(keys, values), i);
  }

  lemma SmallKeysDistinct()
    ensures Distinct(MODEL_KEYS) && Distinct(FRAME_KEYS) && Distinct(PERFORMANCE_KEYS) && Distinct(DETECTION_KEYS)
  {
    assert |MODEL_KEYS[0]| != |MODEL_KEYS[1]| && |FRAME_KEYS[0]| != |FRAME_KEYS[1]|;
    var p := PERFORMANCE_KEYS;
    assert |p[0]| == 9 && |p[1]| == 12 && |p[2]| == 14;
    var d := DETECTION_KEYS;
    assert |d[0]| == 8 && |d[1]| == 10 && |d[2]| == 10 && |d[3]| == 14 && |d[4]| == 8;
    assert d[0][0] == 'c' && d[4][0] == 't' && d[1][1] == 'l' && d[2][1] == 'o';
  }

  lemma EventKeysDistinct()
    ensures Distinct(EVENT_KEYS)
  {
    var k := EVENT_KEYS;
    assert |k[0]| == 14 && |k[1]| == 8 && |k[2]| == 7 && |k[3]| == 9 && |k[4]| == 13 && |k[5]| == 5;
    assert |k[6]| == 9 && |k[7]| == 6 && |k[8]| == 4 && |k[9]| == 5 && |k[10]| == 5 && |k[11]| == 10 && |k[12]| == 11;
    assert k[3][0] == 'c' && k[6][0] == 'f' && k[5][0] == 'n' && k[9][0] == 'm' && k[10][0] == 'f';
  }

  lemma ModelRoundTrip(m: ModelMetadata)
    ensures DecodeModel(Some(Obj(ModelFields(m)))) == Some(m)
  {
    SmallKeysDistinct();
    var values := [Str(m.name), Str(m.sha256)];
    ZipLookup(MODEL_KEYS, values, 0);
    ZipLookup(MODEL_KEYS, values, 1);
  }

  lemma FrameRoundTrip(f: FrameMetadata)
    ensures DecodeFrame(Some(Obj(FrameFields(f)))) == Some(f)
  {
    SmallKeysDistinct();
    var values := [NatJson(f.width), NatJson(f.height)];
    ZipLookup(FRAME_KEYS, values, 0);
    ZipLookup(FRAME_KEYS, values, 1);
    NatRoundTrip(f.width);
    NatRoundTrip(f.height);
  }

  lemma PerformanceRoundTrip(p: PerformanceMetrics)
    ensures DecodePerformance(Some(Obj(PerformanceFields(p)))) == Some(p)
  {
    SmallKeysDistinct();
    var values := [Num(p.decodeMs), Num(p.inferenceMs), Num(p.postprocessMs)];
    ZipLookup(PERFORMANCE_KEYS, values, 0);
    ZipLookup(PERFORMANCE_KEYS, values, 1);
    ZipLookup(PERFORMANCE_KEYS, values, 2);
  }

  lemma BoxRoundTrip(b: Box)
    ensures DecodeBox(Some(Arr(BoxItems(b)))) == Some(b)
  {
  }

  lemma OptionalNatRoundTrip(n: Option<nat>)
    ensures AsOptionalNat(Some(OptionalNatJson(n))) == Some(n)
  {
    if n.Some? { NatRoundTrip(n.value); }
  }

  lemma DecodeDetectionFrom(fs: seq<Field>, d: Detection)
    requires AsNat(Lookup(fs, "class_id")) == Some(d.classId) && AsText(Lookup(fs, "class_name")) == Some(d.className)
    requires AsNumber(Lookup(fs, "confidence")) == Some(d.confidence)
    requires DecodeBox(Lookup(fs, "bbox_xyxy_norm")) == Some(d.box)
    requires AsOptionalNat(Lookup(fs, "track_id")) == Some(d.trackId)
    ensures DecodeDetectionFields(fs) == Some(d)
  {
  }

  lemma DetectionRoundTrip(d: Detection)
    ensures DecodeDetection(Some(Obj(DetectionFields(d)))) == Some(d)
  {
    SmallKeysDistinct();
    var values :=
      [NatJson(d.classId), Str(d.className), Num(d.confidence), Arr(BoxItems(d.box)), OptionalNatJson(d.trackId)];
    ZipLookup(DETECTION_KEYS, values, 0);
    ZipLookup(DETECTION_KEYS, values, 1);
    ZipLookup(DETECTION_KEYS, values, 2);
    ZipLookup(DETECTION_KEYS, values, 3);
    ZipLookup(DETECTION_KEYS, values, 4);
    NatRoundTrip(d.classId);
    BoxRoundTrip(d.box);
    OptionalNatRoundTrip(d.trackId);
    DecodeDetectionFrom(DetectionFields(d), d);
  }

  lemma {:induction false} DetectionsRoundTrip(ds: seq<Detection>)
    ensures DecodeDetections(DetectionItems(ds)) == Some(ds)
  {
    if ds != [] {
      DetectionRoundTrip(ds[0]);
      DetectionsRoundTrip(ds[1..]);
      assert DetectionItems(ds)[1..] == DetectionItems(ds[1..]);
      assert ds == [ds[0]] + ds[1..];
    }
  }

  lemma EventLookup(e: DetectionEvent, i: nat)
    requires i < 13
    ensures Lookup(EventFields(e), EVENT_KEYS[i]) == Some(EventValues(e)[i])
  {
    EventKeysDistinct();
    ZipLookup(EVENT_KEYS, EventValues(e), i);
  }

  /** Each field travels under its own name. */
  lemma EventWireNames(e: DetectionEvent)
    ensures var fs := EventFields(e);
      && Lookup(fs, "schema_version") == Some(Str("1.0")) && Lookup(fs, "mode") == Some(Str("privacy"))
      && Lookup(fs, "event_id") == Some(Str(e.eventId)) && Lookup(fs, "node_id") == Some(Str(e.nodeId))
      && Lookup(fs, "camera_id") == Some(Str(e.cameraId)) && Lookup(fs, "nonce") == Some(Str(e.nonce))
      && Lookup(fs, "timestamp_utc") == Some(Str(WireText(e.timestamp)))
      && Lookup(fs, "frame_seq") == Some(Num(Decimal(e.frameSeq)))
  {
    EventLookup(e, 0);
    EventLookup(e, 1);
    EventLookup(e, 2);
    EventLookup(e, 3);
    EventLookup(e, 4);
    EventLookup(e, 5);
    EventLookup(e, 6);
    EventLookup(e, 8);
  }

  /** And so do the parts nested in it. */
  lemma NestedWireNames(e: DetectionEvent)
    ensures var fs := EventFields(e);
      var m, f, p := ModelFields(e.model), FrameFields(e.frame), PerformanceFields(e.performance);
      && Lookup(fs, "job_id") == Some(if e.jobId.None? then Null else Str(e.jobId.value))
      && Lookup(fs, "model") == Some(Obj(m)) && Lookup(fs, "frame") == Some(Obj(f))
      && Lookup(fs, "detections") == Some(Arr(DetectionItems(e.detections))) && Lookup(fs, "performance") == Some(Obj(p))
      && Lookup(m, "name") == Some(Str(e.model.name)) && Lookup(m, "sha256") == Some(Str(e.model.sha256))
      && Lookup(f, "width") == Some(Num(Decimal(e.frame.width))) && Lookup(f, "height") == Some(Num(Decimal(e.frame.height)))
      && Lookup(p, "decode_ms") == Some(Num(e.performance.decodeMs))
      && Lookup(p, "inference_ms") == Some(Num(e.performance.inferenceMs))
      && Lookup(p, "postprocess_ms") == Some(Num(e.performance.postprocessMs))
  {
    EventLookup(e, 7);
    EventLookup(e, 9);
    EventLookup(e, 10);
    EventLookup(e, 11);
    EventLookup(e, 12);
    SmallKeysDistinct();
    var m := [Str(e.model.name), Str(e.model.sha256)];
    ZipLookup(MODEL_KEYS, m, 0);
    ZipLookup(MODEL_KEYS, m, 1);
    var f := [NatJson(e.frame.width), NatJson(e.frame.height)];
    ZipLookup(FRAME_KEYS, f, 0);
    ZipLookup(FRAME_KEYS, f, 1);
    var p := [Num(e.performance.decodeMs), Num(e.performance.inferenceMs), Num(e.performance.postprocessMs)];
    ZipLookup(PERFORMANCE_KEYS, p, 0);
    ZipLookup(PERFORMANCE_KEYS, p, 1);
    ZipLookup(PERFORMANCE_KEYS, p, 2);
  }

  /** Each part of a detection travels under its own name, its box as x_min, y_min, x_max, y_max. */
  lemma DetectionWireNames(d: Detection)
    ensures var fs := DetectionFields(d);
      && Lookup(fs, "class_id") == Some(Num(Decimal(d.classId))) && Lookup(fs, "class_name") == Some(Str(d.className))
      && Lookup(fs, "confidence") == Some(Num(d.confidence))
      && Lookup(fs, "bbox_xyxy_norm") == Some(Arr([Num(d.box.xMin), Num(d.box.yMin), Num(d.box.xMax), Num(d.box.yMax)]))
      && Lookup(fs, "track_id") == Some(if d.trackId.None? then Null else Num(Decimal(d.trackId.value)))
  {
    SmallKeysDistinct();
    var values :=
      [NatJson(d.classId), Str(d.className), Num(d.confidence), Arr(BoxItems(d.box)), OptionalNatJson(d.trackId)];
    ZipLookup(DETECTION_KEYS, values, 0);
    ZipLookup(DETECTION_KEYS, values, 1);
    ZipLookup(DETECTION_KEYS, values, 2);
    ZipLookup(DETECTION_KEYS, values, 3);
    ZipLookup(DETECTION_KEYS, values, 4);
  }

  lemma DecodeIdentityFrom(fs: seq<Field>, e: DetectionEvent)
    requires Lookup(fs, "event_id") == Some(Str(e.eventId)) && Lookup(fs, "node_id") == Some(Str(e.nodeId))
    requires Lookup(fs, "camera_id") == Some(Str(e.cameraId)) && Lookup(fs, "nonce") == Some(Str(e.nonce))
    requires Lookup(fs, "job_id") == Some(OptionalTextJson(e.jobId))
    ensures DecodeIdentity(fs) == Some(Identity(e.eventId, e.nodeId, e.cameraId, e.nonce, e.jobId))
  {
  }

  lemma IdentityRoundTrip(e: DetectionEvent)
    ensures DecodeIdentity(EventFields(e)) == Some(Identity(e.eventId, e.nodeId, e.cameraId, e.nonce, e.jobId))
  {
    EventLookup(e, 1);
    EventLookup(e, 2);
    EventLookup(e, 3);
    EventLookup(e, 5);
    EventLookup(e, 7);
    DecodeIdentityFrom(EventFields(e), e);
  }

  lemma DecodeContentFrom(fs: seq<Field>, e: DetectionEvent)
    requires Lookup(fs, "frame_seq") == Some(NatJson(e.frameSeq))
    requires Lookup(fs, "model") == Some(Obj(ModelFields(e.model)))
    requires Lookup(fs, "frame") == Some(Obj(FrameFields(e.frame)))
    requires Lookup(fs, "detections") == Some(Arr(DetectionItems(e.detections)))
    requires Lookup(fs, "performance") == Some(Obj(PerformanceFields(e.performance)))
    ensures DecodeContent(fs) == Some(Content(e.frameSeq, e.model, e.frame, e.detections, e.performance))
  {
    NatRoundTrip(e.frameSeq);
    ModelRoundTrip(e.model);
    FrameRoundTrip(e.frame);
    DetectionsRoundTrip(e.detections);
    PerformanceRoundTrip(e.performance);
  }

  lemma ContentRoundTrip(e: DetectionEvent)
    ensures DecodeContent(EventFields(e)) ==
      Some(Content(e.frameSeq, e.model, e.frame, e.detections, e.performance))
  {
    EventLookup(e, 6);
    EventLookup(e, 9);
    EventLookup(e, 10);
    EventLookup(e, 11);
    EventLookup(e, 12);
    DecodeContentFrom(EventFields(e), e);
  }

  lemma DecodeHeaderFrom(fs: seq<Field>, t: DateTime)
    requires Lookup(fs, "schema_version") == Some(Str(SCHEMA_VERSION)) && Lookup(fs, "mode") == Some(Str(PRIVACY_MODE))
    requires Lookup(fs, "timestamp_utc") == Some(Str(WireText(t)))
    ensures DecodeHeader(fs) == Some(t)
  {
    WireRoundTrip(t);
  }

  lemma HeaderRoundTrip(e: DetectionEvent)
    ensures DecodeHeader(EventFields(e)) == Some(e.timestamp)
  {
    EventLookup(e, 0);
    EventLookup(e, 4);
    EventLookup(e, 8);
    DecodeHeaderFrom(EventFields(e), e.timestamp);
  }

  lemma DecodeEventFrom(fs: seq<Field>, e: DetectionEvent)
    requires ValidEvent(e) && |fs| == 13
    requires DecodeHeader(fs) == Some(e.timestamp)
    requires DecodeIdentity(fs) == Some(Identity(e.eventId, e.nodeId, e.cameraId, e.nonce, e.jobId))
    requires DecodeContent(fs) == Some(Content(e.frameSeq, e.model, e.frame, e.detections, e.performance))
    ensures DecodeEvent(Obj(fs)) == Some(e)
  {
  }

  /** Validating the dump of a valid event rebuilds exactly that event. */
  lemma EventRoundTrip(e: DetectionEvent)
    requires ValidEvent(e)
    ensures DecodeEvent(EventJson(e)) == Some(e)
  {
    HeaderRoundTrip(e);
    IdentityRoundTrip(e);
    ContentRoundTrip(e);
    DecodeEventFrom(EventFields(e), e);
  }

  lemma DictWellFormed(keys: seq<string>, values: seq<Json>)
    requires |keys| == |values| && Distinct(keys)
    requires forall i :: 0 <= i < |values| ==> WellFormed(values[i])
    ensures WellFormed(Obj(Zip(keys, values)))
  {
  }

  lemma DetectionWellFormed(d: Detection)
    ensures WellFormed(Obj(DetectionFields(d)))
  {
    SmallKeysDistinct();
    var b := BoxItems(d.box);
    assert forall k :: 0 <= k < |b| ==> WellFormed(b[k]);
    DictWellFormed(DETECTION_KEYS,
      [NatJson(d.classId), Str(d.className), Num(d.confidence), Arr(b), OptionalNatJson(d.trackId)]);
  }

  lemma DetectionListWellFormed(ds: seq<Detection>)
    ensures WellFormed(Arr(DetectionItems(ds)))
  {
    var items := DetectionItems(ds);
    forall i | 0 <= i < |items| ensures WellFormed(items[i]) {
      DetectionWellFormed(ds[i]);
    }
  }

  lemma PartsWellFormed(m: ModelMetadata, f: FrameMetadata, p: PerformanceMetrics)
    ensures WellFormed(Obj(ModelFields(m))) && WellFormed(Obj(FrameFields(f)))
    ensures WellFormed(Obj(PerformanceFields(p)))
  {
    SmallKeysDistinct();
    DictWellFormed(MODEL_KEYS, [Str(m.name), Str(m.sha256)]);
    DictWellFormed(FRAME_KEYS, [NatJson(f.width), NatJson(f.height)]);
    DictWellFormed(PERFORMANCE_KEYS, [Num(p.decodeMs), Num(p.inferenceMs), Num(p.postprocessMs)]);
  }

  lemma EventJsonWellFormed(e: DetectionEvent)
    ensures WellFormed(EventJson(e))
  {
    EventKeysDistinct();
    PartsWellFormed(e.model, e.frame, e.performance);
    DetectionListWellFormed(e.detections);
    var scalars, parts := ScalarValues(e), PartValues(e);
    assert forall i :: 0 <= i < 4 ==> WellFormed(parts[i]);
    DictWellFormed(EVENT_KEYS, scalars + parts);
  }

  /** The canonical bytes of a valid event, decoded, parsed and validated, are that event again. */
  lemma CanonicalEventRoundTrip(e: DetectionEvent)
    requires ValidEvent(e)
    ensures exists text, j ::
      && Utf8.Decode(CanonicalEventBytes(e)) == Some(text)
      && Parse(text) == Some(j)
      && DecodeEvent(j) == Some(e)
  {
    var j := EventJson(e);
    EventJsonWellFormed(e);
    Utf8.DecodeEncode(CanonicalText(j));
    ParseCanonical(j);
    SortKeysSame(j);
    SortKeysWellFormed(j);
    SameEvent(SortKeys(j), j);
    EventRoundTrip(e);
    assert Parse(CanonicalText(j)) == Some(SortKeys(j));
  }

  /** Different valid events are never signed as the same bytes. */
  lemma CanonicalEventBytesInjective(a: DetectionEvent, b: DetectionEvent)
    requires ValidEvent(a) && ValidEvent(b) && CanonicalEventBytes(a) == CanonicalEventBytes(b)
    ensures a == b
  {
    CanonicalEventRoundTrip(a);
    CanonicalEventRoundTrip(b);
  }
}
