/** Event assembly and the acquisition loop of the privacy worker (worker.py). */
module Worker {
  import opened Prelude
  import opened Timestamps
  import opened Json
  import opened Events
  import opened Sampling

  datatype PipelineError =
    | InvalidArgument | SourceFailed | LifecycleFailed | UnusableTiming | DetectorFailed | InvalidClock
    | InvalidIdentifier | ReusedIdentifier | InvalidEvent | SinkFailed

  datatype VisionResult = VisionResult(model: ModelMetadata, frame: FrameMetadata, detections: seq<Detection>)

  /**
   Everything one frame's processing obtains from outside: None is a call that raised or returned
   something unusable. The four monotonic readings are in the order they are taken.
   */
  datatype FrameInputs = FrameInputs(
    decodeMs: Option<real>, sampleTime: Option<real>,
    inferenceStarted: Option<real>, result: Option<VisionResult>, inferenceFinished: Option<real>,
    postprocessStarted: Option<real>, timestamp: Option<DateTime>, eventId: Option<string>, nonce: Option<string>,
    postprocessFinished: Option<real>)

  predicate Usable(x: Option<real>) {
    x.Some? && x.value >= 0.0
  }

  function Elapsed(started: real, finished: real): real {
    (finished - started) * 1000.0
  }

  // ---- Assembly as a function of the worker's state ----

  /** The state that decides the next event: sequence number and identifiers already issued. */
  datatype Issued = Issued(nextFrameSeq: nat, eventIds: set<string>, nonces: set<string>)

  const NOTHING_ISSUED: Issued := Issued(0, {}, {})

  datatype Identity = Identity(nodeId: string, cameraId: string)

  /** number gives the wire token of a measured duration. */
  function Assemble(who: Identity, number: real -> Number, w: Issued, f: FrameInputs): Result<Event, PipelineError> {
    if !Usable(f.decodeMs) || !Usable(f.sampleTime) then Err(UnusableTiming)
    else if !Usable(f.inferenceStarted) then Err(InvalidClock)
    else if f.result.None? then Err(DetectorFailed)
    else if !Usable(f.inferenceFinished) || f.inferenceFinished.value < f.inferenceStarted.value then Err(InvalidClock)
    else if !Usable(f.postprocessStarted) || f.timestamp.None? then Err(InvalidClock)
    else if f.eventId.None? || !SafeIdentifier(f.eventId.value) then Err(InvalidIdentifier)
    else if f.nonce.None? || !SafeIdentifier(f.nonce.value) then Err(InvalidIdentifier)
    else if f.eventId.value in w.eventIds || f.nonce.value in w.nonces then Err(ReusedIdentifier)
    else if !Usable(f.postprocessFinished) || f.postprocessFinished.value < f.postprocessStarted.value then Err(InvalidClock)
    else
      var e := DetectionEvent(
        f.eventId.value, who.nodeId, who.cameraId, f.timestamp.value, f.nonce.value, w.nextFrameSeq, None,
        f.result.value.model, f.result.value.frame, f.result.value.detections,
        PerformanceMetrics(number(f.decodeMs.value),
                           number(Elapsed(f.inferenceStarted.value, f.inferenceFinished.value)),
                           number(Elapsed(f.postprocessStarted.value, f.postprocessFinished.value))));
      if ValidEvent(e) then Ok(e) else Err(InvalidEvent)
  }

  function Issue(w: Issued, e: DetectionEvent): Issued {
    Issued(w.nextFrameSeq + 1, w.eventIds + {e.eventId}, w.nonces + {e.nonce})
  }

  /** The state after issuing es one by one from nothing. */
  function IssuedBy(es: seq<DetectionEvent>): Issued {
    if es == [] then NOTHING_ISSUED else Issue(IssuedBy(es[..|es| - 1]), es[|es| - 1])
  }

  /** Each event was the next one its worker could issue at that point. */
  predicate Lawful(who: Identity, es: seq<DetectionEvent>) {
    es == [] ||
    (var w, e := IssuedBy(es[..|es| - 1]), es[|es| - 1];
     && Lawful(who, es[..|es| - 1])
     && e.nodeId == who.nodeId && e.cameraId == who.cameraId
     && e.frameSeq == w.nextFrameSeq && e.eventId !in w.eventIds && e.nonce !in w.nonces)
  }

  lemma AssembleLawful(who: Identity, number: real -> Number, es: seq<DetectionEvent>, f: FrameInputs)
    requires Lawful(who, es) && Assemble(who, number, IssuedBy(es), f).Ok?
    ensures var e := Assemble(who, number, IssuedBy(es), f).value;
      Lawful(who, es + [e]) && IssuedBy(es + [e]) == Issue(IssuedBy(es), e)
  {
    var e := Assemble(who, number, IssuedBy(es), f).value;
    assert (es + [e])[..|es|] == es;
  }

  /** An assembled event reports its own frame: what was detected, when, and how long each stage took. */
  lemma AssembleReports(who: Identity, number: real -> Number, w: Issued, f: FrameInputs)
    requires Assemble(who, number, w, f).Ok?
    ensures var e := Assemble(who, number, w, f).value;
      && f.result == Some(VisionResult(e.model, e.frame, e.detections)) && f.timestamp == Some(e.timestamp)
      && f.eventId == Some(e.eventId) && f.nonce == Some(e.nonce) && e.jobId == None
      && exists decode, inference, postprocess ::
        && decode >= 0.0 && inference >= 0.0 && postprocess >= 0.0
        && e.performance == PerformanceMetrics(number(decode), number(inference), number(postprocess))
        && f.decodeMs == Some(decode)
        && f.inferenceFinished.value - f.inferenceStarted.value == inference / 1000.0
        && f.postprocessFinished.value - f.postprocessStarted.value == postprocess / 1000.0
  {
    var inference := Elapsed(f.inferenceStarted.value, f.inferenceFinished.value);
    var postprocess := Elapsed(f.postprocessStarted.value, f.postprocessFinished.value);
    assert inference >= 0.0 && postprocess >= 0.0;
    assert Assemble(who, number, w, f).value.performance ==
      PerformanceMetrics(number(f.decodeMs.value), number(inference), number(postprocess));
  }

  /** Exactly when a frame becomes an event. */
  lemma AssemblesExactly(who: Identity, number: real -> Number, w: Issued, f: FrameInputs)
    ensures Assemble(who, number, w, f).Ok? <==>
      (&& Usable(f.decodeMs) && Usable(f.sampleTime)
       && Usable(f.inferenceStarted) && Usable(f.inferenceFinished) && f.inferenceStarted.value <= f.inferenceFinished.value
       && Usable(f.postprocessStarted) && Usable(f.postprocessFinished)
       && f.postprocessStarted.value <= f.postprocessFinished.value
       && f.timestamp.Some? && f.eventId.Some? && f.nonce.Some?
       && f.eventId.value !in w.eventIds && f.nonce.value !in w.nonces
       && SafeIdentifier(f.eventId.value) && SafeIdentifier(f.nonce.value)
       && SafeIdentifier(who.nodeId) && SafeIdentifier(who.cameraId)
       && f.result.Some? && ValidModel(f.result.value.model) && ValidFrame(f.result.value.frame)
       && forall d :: d in f.result.value.detections ==> Label(d.className))
  {
  }

  lemma {:induction false} IdentifiersIssued(es: seq<DetectionEvent>, i: nat)
    requires i < |es|
    ensures es[i].eventId in IssuedBy(es).eventIds && es[i].nonce in IssuedBy(es).nonces
  {
    if i < |es| - 1 { IdentifiersIssued(es[..|es| - 1], i); }
  }

  lemma {:induction false} IssuedCounts(who: Identity, es: seq<DetectionEvent>)
    requires Lawful(who, es)
    ensures var w := IssuedBy(es);
      |w.eventIds| == |w.nonces| == w.nextFrameSeq == |es|
  {
    if es != [] { IssuedCounts(who, es[..|es| - 1]); }
  }

  lemma {:induction false} LawfulAt(who: Identity, es: seq<DetectionEvent>, i: nat)
    requires Lawful(who, es) && i < |es|
    ensures Lawful(who, es[..i])
    ensures var w, e := IssuedBy(es[..i]), es[i];
      && e.nodeId == who.nodeId && e.cameraId == who.cameraId && e.frameSeq == w.nextFrameSeq
      && e.eventId !in w.eventIds && e.nonce !in w.nonces
  {
    var n := |es| - 1;
    if i < n {
      LawfulAt(who, es[..n], i);
      assert es[..n][..i] == es[..i] && es[..n][i] == es[i];
    }
  }

  /**
   The sequence invariant: as many identifiers as nonces as sequence numbers have been issued, and the
   events assembled carry 0, 1, 2, ... and never share an identifier or a nonce.
   */
  lemma SequenceInvariant(who: Identity, es: seq<DetectionEvent>)
    requires Lawful(who, es)
    ensures var w := IssuedBy(es);
      |w.eventIds| == |w.nonces| == w.nextFrameSeq == |es|
    ensures forall i :: 0 <= i < |es| ==>
      es[i].frameSeq == i && es[i].nodeId == who.nodeId && es[i].cameraId == who.cameraId
    ensures forall i, j :: 0 <= i < j < |es| ==> es[i].eventId != es[j].eventId && es[i].nonce != es[j].nonce
  {
    IssuedCounts(who, es);
    forall i | 0 <= i < |es|
      ensures es[i].frameSeq == i && es[i].nodeId == who.nodeId && es[i].cameraId == who.cameraId
    {
      LawfulAt(who, es, i);
      IssuedCounts(who, es[..i]);
    }
    forall i, j | 0 <= i < j < |es| ensures es[i].eventId != es[j].eventId && es[i].nonce != es[j].nonce {
      LawfulAt(who, es, j);
      IdentifiersIssued(es[..j], i);
    }
  }

  /** What one run hands to its sink is a gap-free range of sequence numbers. */
  lemma DeliveredWithoutGaps(who: Identity, before: seq<DetectionEvent>, delivered: seq<DetectionEvent>,
                             assembled: seq<DetectionEvent>)
    requires Lawful(who, assembled) && before + delivered <= assembled
    ensures forall i :: 0 <= i < |delivered| ==> delivered[i].frameSeq == |before| + i
  {
    SequenceInvariant(who, assembled);
    forall i | 0 <= i < |delivered| ensures delivered[i].frameSeq == |before| + i {
      assert assembled[|before| + i] == (before + delivered)[|before| + i] == delivered[i];
    }
  }

  // ---- The loop's surroundings ----

  datatype ReadOutcome = ReadRaised | EndOfSource | Captured(inputs: FrameInputs)

  /**
   What the source, the sink and the lifecycle do during one run. The lifecycle's failure flag is latched, so its
   checks pass up to some point and fail from then on; the run ends with the first delivery the sink refuses.
   A source that runs out of listed frames is at its end.
   */
  datatype Surroundings = Surroundings(
    sourceOpens: bool, lifecycleEnters: bool, exitsCleanly: bool, frames: seq<ReadOutcome>,
    passingChecks: nat, takenDeliveries: nat)
  {
    predicate LifecycleHolds(check: nat) { check < passingChecks }

    predicate SinkTakes(delivery: nat) { delivery < takenDeliveries }
  }

  predicate Timed(f: ReadOutcome) {
    f.Captured? && f.inputs.sampleTime.Some?
  }

  /** The sample times of the captured frames, leaving out frames whose timing is unusable. */
  function SampleTimes(frames: seq<ReadOutcome>): seq<real> {
    if frames == [] then []
    else
      var n := |frames| - 1;
      SampleTimes(frames[..n]) + if Timed(frames[n]) then [frames[n].inputs.sampleTime.value] else []
  }

  predicate GateTakes(next: Opening, f: FrameInputs) {
    f.sampleTime.Some? && Open(next, f.sampleTime.value)
  }

  /** The frames the sampling gate lets through, in order. */
  ghost function Selected(frames: seq<ReadOutcome>, interval: real): seq<FrameInputs> {
    if frames == [] then []
    else
      var n := |frames| - 1;
      var opening := OpeningAfter(SampleTimes(frames[..n]), None, interval);
      Selected(frames[..n], interval) +
      if frames[n].Captured? && GateTakes(opening, frames[n].inputs) then [frames[n].inputs] else []
  }

  lemma NextFrame(frames: seq<ReadOutcome>, n: nat, interval: real)
    requires n < |frames|
    ensures var times := SampleTimes(frames[..n]);
      var take := Timed(frames[n]) && GateTakes(OpeningAfter(times, None, interval), frames[n].inputs);
      && SampleTimes(frames[..n + 1]) == times + (if Timed(frames[n]) then [frames[n].inputs.sampleTime.value] else [])
      && (take ==> Selected(frames[..n + 1], interval) == Selected(frames[..n], interval) + [frames[n].inputs])
      && (!take ==> Selected(frames[..n + 1], interval) == Selected(frames[..n], interval))
  {
    assert frames[..n + 1][..n] == frames[..n];
  }

  lemma {:induction false} SelectedCount(frames: seq<ReadOutcome>, interval: real)
    ensures |Selected(frames, interval)| == Chosen(Greedy(SampleTimes(frames), None, interval))
  {
    if frames != [] {
      var n := |frames| - 1;
      SelectedCount(frames[..n], interval);
      var times := SampleTimes(frames[..n]);
      if Timed(frames[n]) {
        var t := frames[n].inputs.sampleTime.value;
        GreedyExtends(times, t, None, interval);
        ChosenExtends(Greedy(times, None, interval), Open(OpeningAfter(times, None, interval), t));
      } else {
        assert SampleTimes(frames) == times;
      }
    }
  }

  /** es are, one for one, what the worker assembles from fs once it has issued start. */
  ghost predicate AssembledFrom(who: Identity, number: real -> Number, start: seq<DetectionEvent>,
                                es: seq<DetectionEvent>, fs: seq<FrameInputs>)
  {
    && |es| == |fs|
    && (es == [] ||
        (var n := |es| - 1;
         && AssembledFrom(who, number, start, es[..n], fs[..n])
         && Assemble(who, number, IssuedBy(start + es[..n]), fs[n]) == Ok(es[n])))
  }

  /** es are assembled from the first of the chosen frames, skipping none. */
  ghost predicate AssembledInOrder(who: Identity, number: real -> Number, start: seq<DetectionEvent>,
                                   es: seq<DetectionEvent>, chosen: seq<FrameInputs>)
  {
    |es| <= |chosen| && AssembledFrom(who, number, start, es, chosen[..|es|])
  }

  lemma AssembledSoFar(who: Identity, number: real -> Number, start: seq<DetectionEvent>,
                       es: seq<DetectionEvent>, fs: seq<FrameInputs>, more: seq<FrameInputs>)
    requires AssembledFrom(who, number, start, es, fs) && fs <= more
    ensures AssembledInOrder(who, number, start, es, more)
  {
    assert more[..|es|] == fs;
  }

  lemma AssembledExtends(who: Identity, number: real -> Number, start: seq<DetectionEvent>,
                         es: seq<DetectionEvent>, fs: seq<FrameInputs>, e: DetectionEvent, f: FrameInputs)
    requires AssembledFrom(who, number, start, es, fs) && Assemble(who, number, IssuedBy(start + es), f) == Ok(e)
    ensures AssembledFrom(who, number, start, es + [e], fs + [f])
  {
    assert (es + [e])[..|es|] == es && (fs + [f])[..|fs|] == fs;
  }

  /** The first checks of the lifecycle passed and the first deliveries were taken. */
  predicate Holds(env: Surroundings, checks: nat, deliveries: nat) {
    checks <= env.passingChecks && deliveries <= env.takenDeliveries
  }

  /** After n reads: what was observed and delivered so far. */
  ghost predicate Progress(who: Identity, number: real -> Number, env: Surroundings, interval: real,
                           start: seq<DetectionEvent>, delivered: seq<DetectionEvent>, observed: seq<real>, n: nat)
  {
    && n <= |env.frames|
    && observed == SampleTimes(env.frames[..n])
    && AssembledFrom(who, number, start, delivered, Selected(env.frames[..n], interval))
  }

  /** The frame read next was delivered. */
  lemma DeliveredInOrder(who: Identity, number: real -> Number, env: Surroundings, interval: real,
                         start: seq<DetectionEvent>, delivered: seq<DetectionEvent>, observed: seq<real>, n: nat,
                         f: FrameInputs, e: Event)
    requires Progress(who, number, env, interval, start, delivered, observed, n)
    requires n < |env.frames| && env.frames[n] == Captured(f) && GateTakes(OpeningAfter(observed, None, interval), f)
    requires Assemble(who, number, IssuedBy(start + delivered), f) == Ok(e)
    ensures AssembledFrom(who, number, start, delivered + [e], Selected(env.frames[..n + 1], interval))
    ensures SampleTimes(env.frames[..n + 1]) == observed + [f.sampleTime.value]
  {
    NextFrame(env.frames, n, interval);
    AssembledExtends(who, number, start, delivered, Selected(env.frames[..n], interval), e, f);
  }

  lemma Progresses(who: Identity, number: real -> Number, env: Surroundings, interval: real,
                   start: seq<DetectionEvent>, delivered: seq<DetectionEvent>, observed: seq<real>, n: nat,
                   f: FrameInputs, sent: Option<Event>, later: seq<DetectionEvent>)
    requires later == if sent.Some? then delivered + [sent.value] else delivered
    requires Progress(who, number, env, interval, start, delivered, observed, n)
    requires n < |env.frames| && env.frames[n] == Captured(f) && f.sampleTime.Some?
    requires sent.Some? <==> GateTakes(OpeningAfter(observed, None, interval), f)
    requires sent.Some? ==> Assemble(who, number, IssuedBy(start + delivered), f) == Ok(sent.value)
    ensures Progress(who, number, env, interval, start, later, observed + [f.sampleTime.value], n + 1)
  {
    NextFrame(env.frames, n, interval);
    if sent.Some? {
      DeliveredInOrder(who, number, env, interval, start, delivered, observed, n, f, sent.value);
    }
  }

  /** Whatever stopped the next frame, the events delivered are still the first of the selected frames. */
  lemma StopsInOrder(who: Identity, number: real -> Number, env: Surroundings, interval: real,
                     start: seq<DetectionEvent>, delivered: seq<DetectionEvent>, observed: seq<real>, n: nat,
                     f: FrameInputs, sent: Option<Event>, later: seq<DetectionEvent>)
    requires later == if sent.Some? then delivered + [sent.value] else delivered
    requires Progress(who, number, env, interval, start, delivered, observed, n)
    requires n < |env.frames| && env.frames[n] == Captured(f)
    requires sent.Some? ==> GateTakes(OpeningAfter(observed, None, interval), f)
    requires sent.Some? ==> Assemble(who, number, IssuedBy(start + delivered), f) == Ok(sent.value)
    ensures AssembledInOrder(who, number, start, later, Selected(env.frames[..n + 1], interval))
  {
    NextFrame(env.frames, n, interval);
    var before, chosen := Selected(env.frames[..n], interval), Selected(env.frames[..n + 1], interval);
    if sent.Some? {
      DeliveredInOrder(who, number, env, interval, start, delivered, observed, n, f, sent.value);
      AssembledSoFar(who, number, start, later, chosen, chosen);
    } else {
      AssembledSoFar(who, number, start, delivered, before, chosen);
    }
  }

  function Max(a: int, b: int): int { if a < b then b else a }

  /** What a turn of the loop amounts to, given what happened to its frame. */
  lemma TurnAdvances(who: Identity, number: real -> Number, env: Surroundings, interval: real,
                     start: seq<DetectionEvent>, delivered: seq<DetectionEvent>, observed: seq<real>, n: nat,
                     f: FrameInputs, sent: Option<Event>, completed: bool, later: seq<DetectionEvent>)
    requires Progress(who, number, env, interval, start, delivered, observed, n)
    requires Holds(env, 1 + 2 * n + 2 * |delivered|, |delivered|)
    requires later == if sent.Some? then delivered + [sent.value] else delivered
    requires n < |env.frames| && env.frames[n] == Captured(f)
    requires sent.Some? ==> GateTakes(OpeningAfter(observed, None, interval), f) && env.SinkTakes(|delivered|)
    requires sent.Some? ==> Assemble(who, number, IssuedBy(start + delivered), f) == Ok(sent.value)
    requires completed ==>
      var c := 1 + 2 * n + 2 * |delivered|;
      && f.sampleTime.Some? && (sent.None? ==> !GateTakes(OpeningAfter(observed, None, interval), f))
      && env.LifecycleHolds(c) && env.LifecycleHolds(c + 1)
      && (sent.Some? ==> env.LifecycleHolds(c + 2) && env.LifecycleHolds(c + 3))
    ensures AssembledInOrder(who, number, start, later, Selected(env.frames[..n + 1], interval))
    ensures completed ==>
      && Progress(who, number, env, interval, start, later, observed + [f.sampleTime.value], n + 1)
      && Holds(env, 1 + 2 * (n + 1) + 2 * |later|, |later|)
    ensures sent.Some? ==> (start + delivered) + [sent.value] == start + later
  {
    StopsInOrder(who, number, env, interval, start, delivered, observed, n, f, sent, later);
    if completed {
      Progresses(who, number, env, interval, start, delivered, observed, n, f, sent, later);
    }
  }

  // ---- Exactly which runs complete, and where they stop ----

  /** What decides a run: the worker, its surroundings, the sampling interval and what it had issued before. */
  datatype Job = Job(who: Identity, number: real -> Number, env: Surroundings, interval: real, start: seq<DetectionEvent>)

  predicate AtEnd(env: Surroundings, n: nat) {
    n >= |env.frames| || env.frames[n].EndOfSource?
  }

  /** The first n reads gave usable frames in time order, and es are the events assembled from those selected. */
  ghost predicate Clean(j: Job, n: nat, es: seq<DetectionEvent>) {
    && n <= |j.env.frames|
    && (forall i :: 0 <= i < n ==> j.env.frames[i].Captured? && Usable(j.env.frames[i].inputs.sampleTime))
    && NonDecreasing(SampleTimes(j.env.frames[..n]))
    && AssembledFrom(j.who, j.number, j.start, es, Selected(j.env.frames[..n], j.interval))
  }

  /** The bound was not reached by any earlier read. */
  ghost predicate NotYet(j: Job, maxEvents: Option<int>, n: nat)
    requires n <= |j.env.frames|
  {
    forall m :: 0 <= m < n ==> maxEvents != Some(|Selected(j.env.frames[..m], j.interval)|)
  }

  /**
   The loop completes after n reads with es delivered: everything before went well, the bound was not reached
   earlier, and either it is reached now or the source is at its end; every check made by then passes and the sink
   takes every delivery.
   */
  ghost predicate Completes(j: Job, maxEvents: Option<int>, n: nat, es: seq<DetectionEvent>) {
    && Clean(j, n, es) && NotYet(j, maxEvents, n)
    && if maxEvents == Some(|es|) then Holds(j.env, 1 + 2 * n + 2 * |es|, |es|)
       else AtEnd(j.env, n) && Holds(j.env, 3 + 2 * n + 2 * |es|, |es|)
  }

  /** A captured frame gets through: usable and not back in time, and if selected assembled, checked and delivered. */
  predicate FrameGoes(who: Identity, number: real -> Number, env: Surroundings, issued: seq<DetectionEvent>,
                      opening: Opening, last: Option<real>, checks: nat, deliveries: nat, f: FrameInputs)
  {
    && Usable(f.sampleTime) && (last.Some? ==> last.value <= f.sampleTime.value)
    && (GateTakes(opening, f) ==>
          Assemble(who, number, IssuedBy(issued), f).Ok? && Holds(env, checks + 2, deliveries + 1))
  }

  function LastOf(times: seq<real>): Option<real> {
    if times == [] then None else Some(times[|times| - 1])
  }

  /** The turn after n reads goes through: it ends the source or its frame gets through. */
  ghost predicate TurnGoes(j: Job, n: nat, delivered: seq<DetectionEvent>)
    requires n <= |j.env.frames|
  {
    var times, checks := SampleTimes(j.env.frames[..n]), 3 + 2 * n + 2 * |delivered|;
    && Holds(j.env, checks, |delivered|)
    && (AtEnd(j.env, n) ||
        (j.env.frames[n].Captured? &&
         FrameGoes(j.who, j.number, j.env, j.start + delivered, OpeningAfter(times, None, j.interval), LastOf(times),
                   checks, |delivered|, j.env.frames[n].inputs)))
  }

  lemma {:induction false} LongerRead(frames: seq<ReadOutcome>, interval: real, m: nat, n: nat)
    requires m <= n <= |frames|
    ensures SampleTimes(frames[..m]) <= SampleTimes(frames[..n])
    ensures Selected(frames[..m], interval) <= Selected(frames[..n], interval)
    decreases n
  {
    if m < n {
      LongerRead(frames, interval, m, n - 1);
      NextFrame(frames, n - 1, interval);
    }
  }

  lemma {:induction false} AssembledPrefix(j: Job, es: seq<DetectionEvent>, fs: seq<FrameInputs>, k: nat)
    requires AssembledFrom(j.who, j.number, j.start, es, fs) && k <= |fs|
    ensures AssembledFrom(j.who, j.number, j.start, es[..k], fs[..k])
    decreases |fs|
  {
    if k < |fs| {
      var n := |fs| - 1;
      AssembledPrefix(j, es[..n], fs[..n], k);
      assert es[..n][..k] == es[..k] && fs[..n][..k] == fs[..k];
    } else {
      assert es[..k] == es && fs[..k] == fs;
    }
  }

  lemma SameByParts(a: seq<DetectionEvent>, b: seq<DetectionEvent>)
    requires |a| == |b| > 0 && a[..|a| - 1] == b[..|b| - 1] && a[|a| - 1] == b[|b| - 1]
    ensures a == b
  {
    assert a == a[..|a| - 1] + [a[|a| - 1]] && b == b[..|b| - 1] + [b[|b| - 1]];
  }

  lemma AssembledLast(j: Job, es: seq<DetectionEvent>, init: seq<DetectionEvent>, fs: seq<FrameInputs>)
    requires AssembledFrom(j.who, j.number, j.start, es, fs) && fs != [] && es[..|fs| - 1] == init
    ensures Assemble(j.who, j.number, IssuedBy(j.start + init), fs[|fs| - 1]) == Ok(es[|fs| - 1])
  {
  }

  lemma {:induction false} AssembledOnce(j: Job, a: seq<DetectionEvent>, b: seq<DetectionEvent>, fs: seq<FrameInputs>)
    requires AssembledFrom(j.who, j.number, j.start, a, fs) && AssembledFrom(j.who, j.number, j.start, b, fs)
    ensures a == b
    decreases |fs|
  {
    if fs != [] {
      var n := |fs| - 1;
      AssembledOnce(j, a[..n], b[..n], fs[..n]);
      AssembledLast(j, a, b[..n], fs);
      AssembledLast(j, b, b[..n], fs);
      SameByParts(a, b);
    }
  }

  lemma LongerTimes(j: Job, n: nat, m: nat)
    requires n < m <= |j.env.frames| && NonDecreasing(SampleTimes(j.env.frames[..m])) && Timed(j.env.frames[n])
    ensures var last := LastOf(SampleTimes(j.env.frames[..n]));
      last.Some? ==> last.value <= j.env.frames[n].inputs.sampleTime.value
  {
    var times, later := SampleTimes(j.env.frames[..n]), SampleTimes(j.env.frames[..m]);
    LongerRead(j.env.frames, j.interval, n, m);
    LongerRead(j.env.frames, j.interval, n + 1, m);
    NextFrame(j.env.frames, n, j.interval);
    assert later[|times|] == j.env.frames[n].inputs.sampleTime.value;
    if times != [] { assert later[|times| - 1] == times[|times| - 1]; }
  }

  lemma TakeOneMore(fs: seq<FrameInputs>, f: FrameInputs, more: seq<FrameInputs>)
    requires fs + [f] <= more
    ensures |fs| < |more| && more[..|fs| + 1][..|fs|] == fs && more[..|fs| + 1][|fs|] == f
  {
    assert more[..|fs| + 1] == fs + [f];
  }

  lemma LongerAssembles(j: Job, es: seq<DetectionEvent>, fs: seq<FrameInputs>,
                        longer: seq<DetectionEvent>, more: seq<FrameInputs>, f: FrameInputs)
    requires AssembledFrom(j.who, j.number, j.start, es, fs) && AssembledFrom(j.who, j.number, j.start, longer, more)
    requires fs + [f] <= more
    ensures |longer| >= |es| + 1 && Assemble(j.who, j.number, IssuedBy(j.start + es), f).Ok?
  {
    var k := |fs|;
    TakeOneMore(fs, f, more);
    AssembledPrefix(j, longer, more, k + 1);
    var taken, frames := longer[..k + 1], more[..k + 1];
    AssembledPrefix(j, taken, frames, k);
    AssembledOnce(j, es, taken[..k], fs);
    AssembledLast(j, taken, es, frames);
  }

  lemma LongerFrameGoes(j: Job, n: nat, es: seq<DetectionEvent>, m: nat, longer: seq<DetectionEvent>)
    requires Clean(j, n, es) && Clean(j, m, longer) && n < m && Holds(j.env, 1 + 2 * m + 2 * |longer|, |longer|)
    ensures |es| <= |longer|
    ensures var f, times := j.env.frames[n].inputs, SampleTimes(j.env.frames[..n]);
      GateTakes(OpeningAfter(times, None, j.interval), f) ==>
        Assemble(j.who, j.number, IssuedBy(j.start + es), f).Ok? && |es| + 1 <= |longer|
  {
    var frames, f := j.env.frames, j.env.frames[n].inputs;
    var fs, more := Selected(frames[..n], j.interval), Selected(frames[..m], j.interval);
    LongerRead(frames, j.interval, n, m);
    if GateTakes(OpeningAfter(SampleTimes(frames[..n]), None, j.interval), f) {
      LongerRead(frames, j.interval, n + 1, m);
      NextFrame(frames, n, j.interval);
      LongerAssembles(j, es, fs, longer, more, f);
    }
  }

  /** Where a longer clean run went through, this frame did. */
  lemma LongerRunGoes(j: Job, n: nat, es: seq<DetectionEvent>, m: nat, longer: seq<DetectionEvent>)
    requires Clean(j, n, es) && Clean(j, m, longer) && n < m && Holds(j.env, 1 + 2 * m + 2 * |longer|, |longer|)
    ensures TurnGoes(j, n, es)
  {
    LongerTimes(j, n, m);
    LongerFrameGoes(j, n, es, m, longer);
  }

  /** A turn that does not go through leaves no way for the run to complete. */
  lemma BlockedNeverCompletes(j: Job, maxEvents: Option<int>, n: nat, es: seq<DetectionEvent>,
                              m: nat, other: seq<DetectionEvent>)
    requires Clean(j, n, es) && NotYet(j, maxEvents, n) && maxEvents != Some(|es|) && !TurnGoes(j, n, es)
    ensures !Completes(j, maxEvents, m, other)
  {
    if Completes(j, maxEvents, m, other) && n < m {
      LongerRunGoes(j, n, es, m, other);
    }
  }

  /** Whether the turn goes through is decided by its frame, once the read and its checks went through. */
  lemma FrameDecides(j: Job, n: nat, delivered: seq<DetectionEvent>, observed: seq<real>, opening: Opening,
                     last: Option<real>, f: FrameInputs)
    requires n < |j.env.frames| && j.env.frames[n] == Captured(f) && observed == SampleTimes(j.env.frames[..n])
    requires opening == OpeningAfter(observed, None, j.interval) && last == LastOf(observed)
    requires Holds(j.env, 3 + 2 * n + 2 * |delivered|, |delivered|)
    ensures TurnGoes(j, n, delivered) <==>
      FrameGoes(j.who, j.number, j.env, j.start + delivered, opening, last, 3 + 2 * n + 2 * |delivered|, |delivered|, f)
  {
  }

  lemma CleanExtends(j: Job, n: nat, es: seq<DetectionEvent>, later: seq<DetectionEvent>, observed: seq<real>)
    requires Clean(j, n, es) && TurnGoes(j, n, es) && !AtEnd(j.env, n)
    requires Progress(j.who, j.number, j.env, j.interval, j.start, later, observed, n + 1) && NonDecreasing(observed)
    ensures Clean(j, n + 1, later)
  {
  }

  lemma NotYetExtends(j: Job, maxEvents: Option<int>, n: nat, es: seq<DetectionEvent>)
    requires Clean(j, n, es) && NotYet(j, maxEvents, n) && maxEvents != Some(|es|) && n < |j.env.frames|
    ensures NotYet(j, maxEvents, n + 1)
  {
  }

  /** What the acquisition loop keeps: n reads went through, es were delivered, and the bound was not reached before. */
  ghost predicate Underway(j: Job, maxEvents: Option<int>, n: nat, es: seq<DetectionEvent>, observed: seq<real>) {
    && Progress(j.who, j.number, j.env, j.interval, j.start, es, observed, n)
    && AssembledInOrder(j.who, j.number, j.start, es, Selected(j.env.frames[..n], j.interval))
    && Holds(j.env, 1 + 2 * n + 2 * |es|, |es|)
    && Clean(j, n, es) && NotYet(j, maxEvents, n)
  }

  lemma Begins(j: Job, maxEvents: Option<int>)
    requires Holds(j.env, 1, 0)
    ensures Underway(j, maxEvents, 0, [], [])
  {
    assert j.env.frames[..0] == [];
  }

  lemma UnderwayBounded(j: Job, maxEvents: Option<int>, n: nat, es: seq<DetectionEvent>, observed: seq<real>)
    requires Underway(j, maxEvents, n, es, observed) && maxEvents == Some(|es|)
    ensures Completes(j, maxEvents, n, es)
  {
  }

  lemma UnderwayEnds(j: Job, maxEvents: Option<int>, n: nat, es: seq<DetectionEvent>, observed: seq<real>)
    requires Underway(j, maxEvents, n, es, observed) && maxEvents != Some(|es|) && TurnGoes(j, n, es) && AtEnd(j.env, n)
    ensures Completes(j, maxEvents, n, es)
  {
  }

  lemma UnderwayGoesOn(j: Job, maxEvents: Option<int>, n: nat, es: seq<DetectionEvent>, observed: seq<real>,
                       later: seq<DetectionEvent>, seen: seq<real>)
    requires Underway(j, maxEvents, n, es, observed) && maxEvents != Some(|es|) && TurnGoes(j, n, es) && !AtEnd(j.env, n)
    requires Progress(j.who, j.number, j.env, j.interval, j.start, later, seen, n + 1) && NonDecreasing(seen)
    requires AssembledInOrder(j.who, j.number, j.start, later, Selected(j.env.frames[..n + 1], j.interval))
    requires Holds(j.env, 1 + 2 * (n + 1) + 2 * |later|, |later|)
    ensures Underway(j, maxEvents, n + 1, later, seen)
  {
    CleanExtends(j, n, es, later, seen);
    NotYetExtends(j, maxEvents, n, es);
  }

  lemma UnderwayBlocked(j: Job, maxEvents: Option<int>, n: nat, es: seq<DetectionEvent>, observed: seq<real>)
    requires Underway(j, maxEvents, n, es, observed) && maxEvents != Some(|es|) && !TurnGoes(j, n, es)
    ensures forall m: nat, other :: !Completes(j, maxEvents, m, other)
  {
    forall m: nat, other ensures !Completes(j, maxEvents, m, other) {
      BlockedNeverCompletes(j, maxEvents, n, es, m, other);
    }
  }

  /** What a turn amounts to once its frame was handled, well or not. */
  lemma TurnConcludes(j: Job, maxEvents: Option<int>, n: nat, delivered: seq<DetectionEvent>, observed: seq<real>,
                      opening: Opening, last: Option<real>, f: FrameInputs, sent: Option<Event>, goes: bool,
                      later: seq<DetectionEvent>, seen: seq<real>)
    requires Underway(j, maxEvents, n, delivered, observed) && maxEvents != Some(|delivered|)
    requires n < |j.env.frames| && j.env.frames[n] == Captured(f)
    requires opening == OpeningAfter(observed, None, j.interval) && last == LastOf(observed)
    requires Holds(j.env, 3 + 2 * n + 2 * |delivered|, |delivered|)
    requires later == if sent.Some? then delivered + [sent.value] else delivered
    requires sent.Some? ==>
      && GateTakes(opening, f) && j.env.SinkTakes(|delivered|)
      && Assemble(j.who, j.number, IssuedBy(j.start + delivered), f) == Ok(sent.value)
    requires goes <==> FrameGoes(j.who, j.number, j.env, j.start + delivered, opening, last,
                                 3 + 2 * n + 2 * |delivered|, |delivered|, f)
    requires goes ==> (sent.None? ==> !GateTakes(opening, f)) && seen == observed + [f.sampleTime.value] && NonDecreasing(seen)
    ensures AssembledInOrder(j.who, j.number, j.start, later, Selected(j.env.frames[..n + 1], j.interval))
    ensures if goes then Underway(j, maxEvents, n + 1, later, seen)
            else forall m: nat, other :: !Completes(j, maxEvents, m, other)
    ensures sent.Some? ==> (j.start + delivered) + [sent.value] == j.start + later
  {
    TurnAdvances(j.who, j.number, j.env, j.interval, j.start, delivered, observed, n, f, sent, goes, later);
    FrameDecides(j, n, delivered, observed, opening, last, f);
    if goes {
      UnderwayGoesOn(j, maxEvents, n, delivered, observed, later, seen);
    } else {
      UnderwayBlocked(j, maxEvents, n, delivered, observed);
    }
  }

  lemma CompletionCounts(j: Job, maxEvents: Option<int>, n: nat, es: seq<DetectionEvent>)
    requires Completes(j, maxEvents, n, es)
    ensures |es| == Chosen(Greedy(SampleTimes(j.env.frames[..n]), None, j.interval))
    ensures NonDecreasing(SampleTimes(j.env.frames[..n])) && Holds(j.env, 1 + 2 * n + 2 * |es|, |es|)
  {
    SelectedCount(j.env.frames[..n], j.interval);
  }

  /** taken is all of all but at most its last element. */
  predicate AlmostAll(all: seq<DetectionEvent>, taken: seq<DetectionEvent>) {
    taken <= all && |all| <= |taken| + 1
  }

  lemma {:induction false} ChosenExtends(mask: seq<bool>, b: bool)
    ensures Chosen(mask + [b]) == Chosen(mask) + if b then 1 else 0
  {
    if mask == [] {
      assert mask + [b] == [b] && [b][1..] == [];
    } else {
      assert (mask + [b])[1..] == mask[1..] + [b];
      ChosenExtends(mask[1..], b);
    }
  }

  class PrivacyWorkerPipeline {
    const who: Identity
    const number: real -> Number
    const sampleRate: real
    var nextFrameSeq: nat
    var issuedEventIds: set<string>
    var issuedNonces: set<string>
    ghost var assembled: seq<DetectionEvent>

    ghost predicate Valid()
      reads this
    {
      Lawful(who, assembled) && View() == IssuedBy(assembled) && sampleRate > 0.0
    }

    ghost function View(): Issued
      reads this
    {
      Issued(nextFrameSeq, issuedEventIds, issuedNonces)
    }

    constructor (who: Identity, number: real -> Number, sampleRate: real)
      requires sampleRate > 0.0
      ensures Valid() && assembled == [] && this.who == who && this.number == number && this.sampleRate == sampleRate
    {
      this.who, this.number, this.sampleRate := who, number, sampleRate;
      nextFrameSeq, issuedEventIds, issuedNonces, assembled := 0, {}, {}, [];
    }

    /** Assembles one event; a failure at any point issues nothing. */
    method ProcessFrame(f: FrameInputs) returns (r: Result<Event, PipelineError>)
      requires Valid()
      modifies this
      ensures Valid()
      ensures r == Assemble(who, number, old(View()), f)
      ensures r.Err? ==> View() == old(View()) && assembled == old(assembled)
      ensures r.Ok? ==> View() == Issue(old(View()), r.value) && assembled == old(assembled) + [r.value]
    {
      if !Usable(f.decodeMs) || !Usable(f.sampleTime) {
        return Err(UnusableTiming);
      }
      if !Usable(f.inferenceStarted) {
        return Err(InvalidClock);
      }
      if f.result.None? {
        return Err(DetectorFailed);
      }
      if !Usable(f.inferenceFinished) || f.inferenceFinished.value < f.inferenceStarted.value {
        return Err(InvalidClock);
      }
      if !Usable(f.postprocessStarted) || f.timestamp.None? {
        return Err(InvalidClock);
      }
      if f.eventId.None? || !SafeIdentifier(f.eventId.value) || f.nonce.None? || !SafeIdentifier(f.nonce.value) {
        return Err(InvalidIdentifier);
      }
      if f.eventId.value in issuedEventIds || f.nonce.value in issuedNonces {
        return Err(ReusedIdentifier);
      }
      if !Usable(f.postprocessFinished) || f.postprocessFinished.value < f.postprocessStarted.value {
        return Err(InvalidClock);
      }
      var vision := f.result.value;
      var metrics := PerformanceMetrics(
        number(f.decodeMs.value),
        number(Elapsed(f.inferenceStarted.value, f.inferenceFinished.value)),
        number(Elapsed(f.postprocessStarted.value, f.postprocessFinished.value)));
      var event := DetectionEvent(
        f.eventId.value, who.nodeId, who.cameraId, f.timestamp.value, f.nonce.value, nextFrameSeq, None,
        vision.model, vision.frame, vision.detections, metrics);
      if !ValidEvent(event) {
        return Err(InvalidEvent);
      }
      AssembleLawful(who, number, assembled, f);
      issuedEventIds := issuedEventIds + {event.eventId};
      issuedNonces := issuedNonces + {event.nonce};
      nextFrameSeq := nextFrameSeq + 1;
      assembled := assembled + [event];
      return Ok(event);
    }

    /** One read between its two checks; Ok(None) is the end of the source. */
    method ReadFrame(env: Surroundings, n: nat, checks: nat) returns (r: Result<Option<FrameInputs>, PipelineError>)
      requires n <= |env.frames|
      ensures var frame := if n < |env.frames| then env.frames[n] else EndOfSource;
        && (r.Ok? <==> !frame.ReadRaised? && env.LifecycleHolds(checks) && env.LifecycleHolds(checks + 1))
        && (r == Err(SourceFailed) <==> frame.ReadRaised? && env.LifecycleHolds(checks))
        && (r.Ok? ==> r.value == if frame.Captured? then Some(frame.inputs) else None)
    {
      if !env.LifecycleHolds(checks) {
        return Err(LifecycleFailed);
      }
      var frame := if n < |env.frames| then env.frames[n] else EndOfSource;
      if frame.ReadRaised? {
        return Err(SourceFailed);
      }
      if !env.LifecycleHolds(checks + 1) {
        return Err(LifecycleFailed);
      }
      r := Ok(if frame.Captured? then Some(frame.inputs) else None);
    }

    /**
     One captured frame inside the loop: sample, assemble, check, deliver, check. Ok(None) is a frame the gate
     skipped; sent says whether the sink took an event, which can be so even when the check after it fails.
     */
    method HandleFrame(env: Surroundings, sampler: SamplingGate, f: FrameInputs, checks: nat, emitted: nat)
      returns (r: Result<Option<Event>, PipelineError>, sent: Option<Event>)
      requires Valid() && sampler.Valid()
      modifies this, sampler
      ensures Valid() && sampler.Valid()
      ensures sent.Some? ==>
        && old(GateTakes(sampler.nextAllowed, f)) && env.SinkTakes(emitted)
        && Assemble(who, number, IssuedBy(old(assembled)), f) == Ok(sent.value)
        && assembled == old(assembled) + [sent.value]
      ensures sent.None? ==> AlmostAll(assembled, old(assembled))
      ensures f.sampleTime.None? ==> r.Err? && sent.None?
      ensures r.Ok? <==> FrameGoes(who, number, env, old(assembled), old(sampler.nextAllowed), old(sampler.lastObserved),
                                   checks, emitted, f)
      ensures r.Ok? ==>
        && sent == r.value && sampler.observed == old(sampler.observed) + [f.sampleTime.value]
        && (r.value.None? <==> !old(GateTakes(sampler.nextAllowed, f)))
        && (r.value.None? ==> assembled == old(assembled))
        && (r.value.Some? ==> env.LifecycleHolds(checks) && env.LifecycleHolds(checks + 1))
    {
      sent := None;
      var sampled := sampler.Accept(f.sampleTime);
      if sampled.Err? {
        return Err(UnusableTiming), None;
      }
      if !sampled.value {
        return Ok(None), None;
      }
      var event := ProcessFrame(f);
      if event.Err? {
        return Err(event.error), None;
      }
      if !env.LifecycleHolds(checks) {
        return Err(LifecycleFailed), None;
      }
      if !env.SinkTakes(emitted) {
        return Err(SinkFailed), None;
      }
      sent := Some(event.value);
      if !env.LifecycleHolds(checks + 1) {
        return Err(LifecycleFailed), sent;
      }
      return Ok(sent), sent;
    }

    /** The rest of a turn whose read gave a frame. */
    method TurnFrame(env: Surroundings, sampler: SamplingGate, ghost j: Job, ghost maxEvents: Option<int>,
                     delivered: seq<DetectionEvent>, consumed: nat, inputs: FrameInputs)
      returns (failure: Option<PipelineError>, later: seq<DetectionEvent>)
      requires Valid() && sampler.Valid() && assembled == j.start + delivered
      requires j.who == who && j.number == number && j.env == env && j.interval == sampler.interval
      requires Underway(j, maxEvents, consumed, delivered, sampler.observed) && maxEvents != Some(|delivered|)
      requires consumed < |env.frames| && env.frames[consumed] == Captured(inputs)
      requires Holds(env, 3 + 2 * consumed + 2 * |delivered|, |delivered|)
      modifies this, sampler
      ensures Valid() && |later| <= |delivered| + 1 && AlmostAll(assembled, j.start + later)
      ensures AssembledInOrder(who, number, j.start, later, Selected(env.frames[..consumed + 1], sampler.interval))
      ensures failure.Some? ==> forall n: nat, es :: !Completes(j, maxEvents, n, es)
      ensures failure.None? ==>
        && sampler.Valid() && assembled == j.start + later
        && Underway(j, maxEvents, consumed + 1, later, sampler.observed)
    {
      var checks := 3 + 2 * consumed + 2 * |delivered|;
      ghost var observed, opening, last := sampler.observed, sampler.nextAllowed, sampler.lastObserved;
      var handled, sent := HandleFrame(env, sampler, inputs, checks, |delivered|);
      later := if sent.Some? then delivered + [sent.value] else delivered;
      TurnConcludes(j, maxEvents, consumed, delivered, observed, opening, last, inputs, sent, handled.Ok?, later,
                    sampler.observed);
      failure := if handled.Err? then Some(handled.error) else None;
    }

    /** One turn of the acquisition loop; j says what was issued before this run, delivered what was during it. */
    method Turn(env: Surroundings, sampler: SamplingGate, ghost j: Job, ghost maxEvents: Option<int>,
                delivered: seq<DetectionEvent>, consumed: nat)
      returns (failure: Option<PipelineError>, ended: bool, later: seq<DetectionEvent>, reached: nat)
      requires Valid() && sampler.Valid() && assembled == j.start + delivered
      requires j.who == who && j.number == number && j.env == env && j.interval == sampler.interval
      requires Underway(j, maxEvents, consumed, delivered, sampler.observed) && maxEvents != Some(|delivered|)
      modifies this, sampler
      ensures Valid() && reached <= |env.frames| && |later| <= |delivered| + 1
      ensures AlmostAll(assembled, j.start + later)
      ensures AssembledInOrder(who, number, j.start, later, Selected(env.frames[..reached], sampler.interval))
      ensures failure.Some? ==> forall n: nat, es :: !Completes(j, maxEvents, n, es)
      ensures failure.None? ==> sampler.Valid() && assembled == j.start + later
      ensures failure.None? && ended ==>
        reached == consumed && later == delivered && Completes(j, maxEvents, reached, later)
      ensures failure.None? && !ended ==>
        reached == consumed + 1 && Underway(j, maxEvents, reached, later, sampler.observed)
    {
      failure, ended, later, reached := None, false, delivered, consumed;
      var captured := ReadFrame(env, consumed, 1 + 2 * consumed + 2 * |delivered|);
      if captured.Err? {
        assert !TurnGoes(j, consumed, delivered);
        UnderwayBlocked(j, maxEvents, consumed, delivered, sampler.observed);
        return Some(captured.error), false, delivered, consumed;
      }
      if captured.value.None? {
        UnderwayEnds(j, maxEvents, consumed, delivered, sampler.observed);
        return None, true, delivered, consumed;
      }
      failure, later := TurnFrame(env, sampler, j, maxEvents, delivered, consumed, captured.value.value);
      reached := consumed + 1;
    }

    /** Turns until the source ends, the bound is reached or something fails. */
    method Acquire(env: Surroundings, maxEvents: Option<int>, sampler: SamplingGate)
      returns (failure: Option<PipelineError>, delivered: seq<DetectionEvent>, consumed: nat)
      requires Valid() && sampler.Valid() && sampler.observed == [] && (maxEvents.Some? ==> maxEvents.value > 0)
      requires env.LifecycleHolds(0)
      modifies this, sampler
      ensures Valid() && consumed <= |env.frames|
      ensures AlmostAll(assembled, old(assembled) + delivered)
      ensures maxEvents.Some? ==> |delivered| <= maxEvents.value
      ensures AssembledInOrder(who, number, old(assembled), delivered, Selected(env.frames[..consumed], sampler.interval))
      ensures failure.None? ==> assembled == old(assembled) + delivered
      ensures var j := Job(who, number, env, sampler.interval, old(assembled));
        if failure.None? then Completes(j, maxEvents, consumed, delivered)
        else forall n: nat, es :: !Completes(j, maxEvents, n, es)
    {
      failure, delivered, consumed := None, [], 0;
      ghost var j := Job(who, number, env, sampler.interval, assembled);
      Begins(j, maxEvents);
      while maxEvents.None? || |delivered| < maxEvents.value
        invariant Valid() && sampler.Valid() && assembled == j.start + delivered && failure.None?
        invariant maxEvents.Some? ==> |delivered| <= maxEvents.value
        invariant Underway(j, maxEvents, consumed, delivered, sampler.observed)
        decreases |env.frames| - consumed
      {
        var ended;
        failure, ended, delivered, consumed := Turn(env, sampler, j, maxEvents, delivered, consumed);
        if failure.Some? || ended {
          return;
        }
      }
      UnderwayBounded(j, maxEvents, consumed, delivered, sampler.observed);
    }

    /** delivered lists the events the sink took; consumed counts the reads. */
    method Run(env: Surroundings, maxEvents: Option<int>)
      returns (r: Result<nat, PipelineError>, delivered: seq<DetectionEvent>, consumed: nat)
      requires Valid()
      modifies this
      ensures Valid() && consumed <= |env.frames|
      ensures AlmostAll(assembled, old(assembled) + delivered)
      ensures maxEvents.Some? ==> |delivered| <= Max(0, maxEvents.value)
      ensures r.Ok? ==>
        && r.value == |delivered| && assembled == old(assembled) + delivered && env.exitsCleanly
        && r.value == Chosen(Greedy(SampleTimes(env.frames[..consumed]), None, 1.0 / sampleRate))
        && NonDecreasing(SampleTimes(env.frames[..consumed]))
        && Holds(env, 1 + 2 * consumed + 2 * |delivered|, |delivered|)
      ensures var chosen := Selected(env.frames[..consumed], 1.0 / sampleRate);
        AssembledInOrder(who, number, old(assembled), delivered, chosen)
      ensures var j := Job(who, number, env, 1.0 / sampleRate, old(assembled));
        && (r.Ok? <==>
          && (maxEvents.Some? ==> maxEvents.value > 0)
          && env.sourceOpens && env.lifecycleEnters && env.exitsCleanly
          && exists n: nat, es :: Completes(j, maxEvents, n, es))
        && (r.Ok? ==> Completes(j, maxEvents, consumed, delivered))
    {
      delivered, consumed := [], 0;
      if maxEvents.Some? && maxEvents.value <= 0 {
        r := Err(InvalidArgument);
      } else if !env.sourceOpens {
        r := Err(SourceFailed);
      } else if !env.lifecycleEnters || !env.LifecycleHolds(0) {
        r := Err(LifecycleFailed);
      } else {
        var sampler := new SamplingGate(sampleRate);
        var failure;
        failure, delivered, consumed := Acquire(env, maxEvents, sampler);
        if failure.None? {
          CompletionCounts(Job(who, number, env, 1.0 / sampleRate, old(assembled)), maxEvents, consumed, delivered);
        }
        r := if failure.Some? then Err(failure.value)
             else if env.exitsCleanly then Ok(|delivered|) else Err(LifecycleFailed);
      }
    }
  }
}
