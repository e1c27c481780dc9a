/** The stored form of an accepted event: flat columns, text timestamps and one JSON column (persistence.py). */
module Persistence {
  import opened Prelude
  import Digits
  import opened Timestamps
  import opened Json
  import opened Events

  datatype DetectionEventRecord = DetectionEventRecord(
    schemaVersion: string, eventId: string, nodeId: string, cameraId: string, timestampUtc: string, nonce: string,
    frameSeq: nat, jobId: Option<string>, mode: string, modelName: string, modelSha256: string,
    frameWidth: nat, frameHeight: nat, detectionsJson: string,
    decodeMs: Number, inferenceMs: Number, postprocessMs: Number, acceptedAtUtc: string)

  function SerializeDetections(ds: seq<Detection>): string {
    CanonicalText(Arr(DetectionItems(ds)))
  }

  function DeserializeDetections(text: string): Option<seq<Detection>> {
    DecodeDetectionList(Parse(text))
  }

  /** from_event: refuses what the contract refuses, otherwise flattens. */
  function FromEvent(e: DetectionEvent, acceptedAt: DateTime): Option<DetectionEventRecord> {
    if !ValidEvent(e) then None
    else Some(DetectionEventRecord(
      SCHEMA_VERSION, e.eventId, e.nodeId, e.cameraId, StoredText(e.timestamp), e.nonce,
      e.frameSeq, e.jobId, PRIVACY_MODE, e.model.name, e.model.sha256,
      e.frame.width, e.frame.height, SerializeDetections(e.detections),
      e.performance.decodeMs, e.performance.inferenceMs, e.performance.postprocessMs, StoredText(acceptedAt)))
  }

  /** to_event: rebuilds and revalidates; anything malformed is refused. */
  function ToEvent(r: DetectionEventRecord): Option<DetectionEvent> {
    match (ParseStored(r.timestampUtc), DeserializeDetections(r.detectionsJson))
    case (Some(t), Some(ds)) =>
      var e := DetectionEvent(
        r.eventId, r.nodeId, r.cameraId, t, r.nonce, r.frameSeq, r.jobId, ModelMetadata(r.modelName, r.modelSha256),
        FrameMetadata(r.frameWidth, r.frameHeight), ds,
        PerformanceMetrics(r.decodeMs, r.inferenceMs, r.postprocessMs));
      if r.schemaVersion == SCHEMA_VERSION && r.mode == PRIVACY_MODE && ValidEvent(e) then Some(e) else None
    case _ => None
  }

  /** The JSON column gives back the same detections in the same order. */
  lemma DetectionColumnRoundTrip(ds: seq<Detection>)
    ensures DeserializeDetections(SerializeDetections(ds)) == Some(ds)
  {
    var j := Arr(DetectionItems(ds));
    DetectionListWellFormed(ds);
    ParseCanonical(j);
    SortKeysSame(j);
    SortKeysWellFormed(j);
    SameDetectionList(Some(SortKeys(j)), Some(j));
    DetectionsRoundTrip(ds);
  }

  /** Storing a valid event and reading it back loses nothing, and keeps its acceptance instant. */
  lemma RecordRoundTrip(e: DetectionEvent, acceptedAt: DateTime)
    requires ValidEvent(e)
    ensures FromEvent(e, acceptedAt).Some?
    ensures ToEvent(FromEvent(e, acceptedAt).value) == Some(e)
    ensures var r := FromEvent(e, acceptedAt).value;
      && ParseStored(r.acceptedAtUtc) == Some(acceptedAt) && ParseStored(r.timestampUtc) == Some(e.timestamp)
      && r.nodeId == e.nodeId && r.eventId == e.eventId && r.nonce == e.nonce && r.frameSeq == e.frameSeq
      && r.cameraId == e.cameraId && r.jobId == e.jobId
      && ModelMetadata(r.modelName, r.modelSha256) == e.model && FrameMetadata(r.frameWidth, r.frameHeight) == e.frame
      && PerformanceMetrics(r.decodeMs, r.inferenceMs, r.postprocessMs) == e.performance
  {
    DetectionColumnRoundTrip(e.detections);
    StoredRoundTrip(e.timestamp);
    StoredRoundTrip(acceptedAt);
  }

  /** ORDER BY accepted_at_utc on the text column is chronological order of acceptance. */
  lemma AcceptedOrder(a: DetectionEvent, at: DateTime, b: DetectionEvent, bt: DateTime)
    requires ValidEvent(a) && ValidEvent(b)
    ensures Digits.TextLess(FromEvent(a, at).value.acceptedAtUtc, FromEvent(b, bt).value.acceptedAtUtc)
      <==> Micros(at) < Micros(bt)
  {
    StoredTextOrder(at, bt);
  }
}
