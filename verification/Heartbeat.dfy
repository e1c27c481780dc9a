/**
 The signed worker's run with its heartbeat thread (transport.py, worker.py): two threads, one latched
 failure flag, and what every interleaving of their atomic steps guarantees about what was sent.
 */
module Heartbeat {
  import opened Prelude

  // ---- What is sent ----

  datatype Status = Healthy | Degraded

  datatype Sender = MainThread | LoopThread

  /** One attempt, in the order attempts finish. */
  datatype Send = Beat(status: Status, sender: Sender, delivered: bool) | Detection(delivered: bool)

  // ---- Where each thread is ----

  datatype Main =
    | Opening              // the local source is about to open
    | Entering             // __enter__ is about to send the initial heartbeat
    | Starting             // started is set; the thread is about to start
    | EnterChecking        // the check that ends __enter__
    | Running              // inside the with block
    | Exiting(failing: bool)   // __exit__ is about to set stop
    | Joining(failing: bool)   // waiting for the thread
    | ExitChecking(failing: bool)
    | ClosingSource
    | ClosingTransport
    | Handling             // the runner caught an exception
    | Degrading            // about to send the degraded heartbeat
    | Returned(count: nat)
    | Raised

  datatype End = ToldToStop | ClockFailedAtStart | AfterFailure

  datatype Loop =
    | NotStarted
    | FirstClock           // the reading taken before the try block
    | Waiting
    | Clocking
    | Sending
    | Latching             // caught an exception; about to set the failure flag
    | Stopping             // about to set stop
    | Done(end: End)

  datatype State = State(
    main: Main, loop: Loop, stop: bool, failure: bool, started: bool, degradedSent: bool, joined: bool,
    previous: real, emitted: nat, log: seq<Send>)

  const INITIAL: State := State(Opening, NotStarted, false, false, false, false, false, 0.0, 0, [])

  // ---- Atomic steps; each carries the outcome its environment chose ----

  datatype Step =
    | OpenSource(opens: bool)
    | SendInitial(delivered: bool)
    | StartThread(starts: bool)
    | CheckEntered
    | Check
    | SendDetection(delivered: bool)
    | FailInBody
    | FinishBody
    | SetStop
    | Join(joins: bool)
    | CheckExited
    | CloseSource(closes: bool)
    | CloseTransport(closes: bool)
    | Handle
    | SendDegraded(delivered: bool)
    | LoopFirstClock(reading: Option<real>)
    | LoopWait(answer: Option<bool>)
    | LoopClock(reading: Option<real>)
    | LoopSend(delivered: bool)
    | LoopLatch
    | LoopStop

  function Sent(s: State, x: Send): State {
    s.(log := s.log + [x])
  }

  /** A step taken where its thread is not is no step at all. */
  function Next(s: State, step: Step): State {
    match step
    // the worker's own thread
    case OpenSource(ok) => if s.main.Opening? then s.(main := if ok then Entering else Handling) else s
    case SendInitial(ok) =>
      if s.main.Entering?
      then Sent(s, Beat(Healthy, MainThread, ok)).(started := ok, main := if ok then Starting else Handling) else s
    case StartThread(ok) =>
      if !s.main.Starting? then s
      else if ok then s.(loop := FirstClock, main := EnterChecking)
      else s.(stop := true, failure := true, main := Handling)
    case CheckEntered => if s.main.EnterChecking? then s.(main := if s.failure then Handling else Running) else s
    case Check => if s.main.Running? && s.failure then s.(main := Exiting(true)) else s
    case SendDetection(ok) =>
      if !s.main.Running? then s
      else if ok then Sent(s, Detection(true)).(emitted := s.emitted + 1)
      else Sent(s, Detection(false)).(main := Exiting(true))
    case FailInBody => if s.main.Running? then s.(main := Exiting(true)) else s
    case FinishBody => if s.main.Running? then s.(main := Exiting(false)) else s
    case SetStop => if s.main.Exiting? then s.(stop := true, main := Joining(s.main.failing)) else s
    case Join(ok) =>
      if !s.main.Joining? then s
      else if !ok then s.(failure := true, main := ExitChecking(s.main.failing))
      else if s.loop.Done? then s.(joined := true, main := ExitChecking(s.main.failing))
      else s
    case CheckExited =>
      if s.main.ExitChecking? then s.(main := if s.main.failing || s.failure then Handling else ClosingSource) else s
    case CloseSource(ok) => if s.main.ClosingSource? then s.(main := if ok then ClosingTransport else Handling) else s
    case CloseTransport(ok) =>
      if s.main.ClosingTransport? then s.(main := if ok then Returned(s.emitted) else Raised) else s
    case Handle =>
      if !s.main.Handling? then s
      else if !s.started || s.failure || s.degradedSent then s.(main := Raised)
      else s.(degradedSent := true, main := Degrading)
    case SendDegraded(ok) =>
      if s.main.Degrading? then Sent(s, Beat(Degraded, MainThread, ok)).(main := Raised) else s
    // the heartbeat thread
    case LoopFirstClock(r) =>
      if !s.loop.FirstClock? then s
      else if r.Some? && r.value >= 0.0 then s.(loop := Waiting, previous := r.value)
      else s.(loop := Done(ClockFailedAtStart))
    case LoopWait(answer) =>
      if !s.loop.Waiting? then s
      else s.(loop := if answer.None? then Latching else if answer.value then Done(ToldToStop) else Clocking)
    case LoopClock(r) =>
      if !s.loop.Clocking? then s
      else if r.Some? && r.value >= 0.0 && r.value >= s.previous then s.(loop := Sending, previous := r.value)
      else s.(loop := Latching)
    case LoopSend(ok) =>
      if s.loop.Sending?
      then Sent(s, Beat(Healthy, LoopThread, ok)).(loop := if ok then Waiting else Latching) else s
    case LoopLatch => if s.loop.Latching? then s.(failure := true, loop := Stopping) else s
    case LoopStop => if s.loop.Stopping? then s.(stop := true, loop := Done(AfterFailure)) else s
  }

  function After(s: State, steps: seq<Step>): State {
    if steps == [] then s else Next(After(s, steps[..|steps| - 1]), steps[|steps| - 1])
  }

  // ---- The invariant ----

  function Delivered(log: seq<Send>): nat {
    if log == [] then 0
    else Delivered(log[..|log| - 1]) + if log[|log| - 1] == Detection(true) then 1 else 0
  }

  function Degrades(log: seq<Send>): nat {
    if log == [] then 0
    else
      var last := log[|log| - 1];
      Degrades(log[..|log| - 1]) + if last.Beat? && last.status.Degraded? then 1 else 0
  }

  predicate BeforeInitial(m: Main) {
    m.Opening? || m.Entering?
  }

  /** The exception path: nothing but the handler follows. */
  predicate Doomed(m: Main) {
    || m.Handling? || m.Degrading? || m.Raised?
    || (m.Exiting? && m.failing) || (m.Joining? && m.failing) || (m.ExitChecking? && m.failing)
  }

  predicate Concluding(m: Main) {
    m.ClosingSource? || m.ClosingTransport? || m.Returned?
  }

  /** The initial heartbeat opens the log, and nothing else happens unless it was delivered. */
  predicate LogInvariant(s: State) {
    && (s.log == [] ==> !s.started && (BeforeInitial(s.main) || s.main.Handling? || s.main.Raised?))
    && (BeforeInitial(s.main) ==> s.log == [])
    && (s.log != [] ==> s.log[0] == Beat(Healthy, MainThread, s.started))
    && (s.log != [] && !s.started ==> |s.log| == 1 && (s.main.Handling? || s.main.Raised?))
    && Delivered(s.log) == s.emitted
    && (Detection(false) in s.log ==> Doomed(s.main))
    && (s.main.Returned? ==> s.main.count == s.emitted)
  }

  predicate LoopInvariant(s: State) {
    && (!s.loop.NotStarted? ==> s.started)
    && (BeforeInitial(s.main) || s.main.Starting? ==> s.loop.NotStarted?)
    && (Beat(Healthy, LoopThread, false) in s.log ==> s.loop.Latching? || s.failure)
    && (s.loop.Stopping? || s.loop == Done(AfterFailure) ==> s.failure)
  }

  predicate HandlerInvariant(s: State) {
    && (s.joined ==> s.loop.Done?)
    && (s.main.ExitChecking? ==> s.joined || s.failure)
    && (Concluding(s.main) ==> s.joined && !s.failure)
    && (s.main.Handling? && s.started && !s.failure ==> s.joined)
    && (s.degradedSent ==> s.joined && !s.failure && (s.main.Degrading? || s.main.Raised?))
    && (s.main.Degrading? ==> s.degradedSent)
    && Degrades(s.log) == (if s.degradedSent && !s.main.Degrading? then 1 else 0)
  }

  predicate Invariant(s: State) {
    LogInvariant(s) && LoopInvariant(s) && HandlerInvariant(s)
  }

  lemma SentCounts(log: seq<Send>, x: Send)
    ensures Delivered(log + [x]) == Delivered(log) + if x == Detection(true) then 1 else 0
    ensures Degrades(log + [x]) == Degrades(log) + if x.Beat? && x.status.Degraded? then 1 else 0
  {
    assert (log + [x])[..|log|] == log;
  }

  predicate IsSend(step: Step) {
    step.SendInitial? || step.SendDetection? || step.SendDegraded? || step.LoopSend?
  }

  lemma QuietKeepsLog(s: State, step: Step)
    requires Invariant(s) && !IsSend(step)
    ensures LogInvariant(Next(s, step))
  {
  }

  lemma QuietKeepsLoop(s: State, step: Step)
    requires Invariant(s) && !IsSend(step)
    ensures LoopInvariant(Next(s, step))
  {
  }

  lemma QuietKeepsHandler(s: State, step: Step)
    requires Invariant(s) && !IsSend(step)
    ensures HandlerInvariant(Next(s, step))
  {
  }

  /** What appending one attempt does to the log, as far as the invariant looks at it. */
  lemma Appended(log: seq<Send>, x: Send)
    ensures log != [] ==> (log + [x])[0] == log[0]
    ensures log == [] ==> log + [x] == [x]
    ensures Detection(false) in log + [x] <==> Detection(false) in log || x == Detection(false)
    ensures var lost := Beat(Healthy, LoopThread, false); lost in log + [x] <==> lost in log || x == lost
  {
  }

  lemma InitialKeeps(s: State, ok: bool)
    requires Invariant(s)
    ensures Invariant(Next(s, SendInitial(ok)))
  {
    var x := Beat(Healthy, MainThread, ok);
    SentCounts(s.log, x);
    Appended(s.log, x);
  }

  lemma DetectionKeeps(s: State, ok: bool)
    requires Invariant(s)
    ensures Invariant(Next(s, SendDetection(ok)))
  {
    if s.main.Running? {
      var x := Detection(ok);
      assert s.started && s.log != [] && !s.degradedSent;
      SentCounts(s.log, x);
      Appended(s.log, x);
    }
  }

  lemma DegradedKeeps(s: State, ok: bool)
    requires Invariant(s)
    ensures Invariant(Next(s, SendDegraded(ok)))
  {
    var x := Beat(Degraded, MainThread, ok);
    SentCounts(s.log, x);
    Appended(s.log, x);
  }

  lemma LoopSendKeeps(s: State, ok: bool)
    requires Invariant(s)
    ensures Invariant(Next(s, LoopSend(ok)))
  {
    var x := Beat(Healthy, LoopThread, ok);
    SentCounts(s.log, x);
    Appended(s.log, x);
  }

  lemma StepKeepsInvariant(s: State, step: Step)
    requires Invariant(s)
    ensures Invariant(Next(s, step))
  {
    if step.SendInitial? { InitialKeeps(s, step.delivered); }
    else if step.SendDetection? { DetectionKeeps(s, step.delivered); }
    else if step.SendDegraded? { DegradedKeeps(s, step.delivered); }
    else if step.LoopSend? { LoopSendKeeps(s, step.delivered); }
    else { QuietKeepsLog(s, step); QuietKeepsLoop(s, step); QuietKeepsHandler(s, step); }
  }

  lemma {:induction false} RunsKeepInvariant(steps: seq<Step>)
    ensures Invariant(After(INITIAL, steps))
  {
    if steps != [] {
      var n := |steps| - 1;
      RunsKeepInvariant(steps[..n]);
      StepKeepsInvariant(After(INITIAL, steps[..n]), steps[n]);
    }
  }

  // ---- What every interleaving guarantees ----

  ghost predicate Reachable(s: State) {
    exists steps :: s == After(INITIAL, steps)
  }

  lemma ReachableInvariant(s: State)
    requires Reachable(s)
    ensures Invariant(s)
  {
    var steps :| s == After(INITIAL, steps);
    RunsKeepInvariant(steps);
  }

  /** Nothing is sent, neither detection nor later heartbeat, unless a healthy heartbeat was delivered first. */
  lemma HealthyComesFirst(s: State, i: nat)
    requires Reachable(s) && i < |s.log|
    ensures s.log[0].Beat? && s.log[0].status.Healthy? && s.log[0].sender.MainThread?
    ensures i > 0 ==> s.log[0].delivered
    ensures s.log[i].Detection? ==> i > 0
  {
    ReachableInvariant(s);
  }

  lemma StepKeepsFailure(s: State, step: Step)
    ensures s.failure ==> Next(s, step).failure
  {
  }

  /** Once set, the failure flag stays set whatever runs next. */
  lemma {:induction false} FailureIsLatched(s: State, steps: seq<Step>)
    requires s.failure
    ensures After(s, steps).failure
  {
    if steps != [] {
      var n := |steps| - 1;
      FailureIsLatched(s, steps[..n]);
      StepKeepsFailure(After(s, steps[..n]), steps[n]);
    }
  }

  /** The loop has caught a failure, been told to stop, or died. */
  predicate LoopIsOver(s: State) {
    s.main != Starting && !BeforeInitial(s.main) && (s.loop.Latching? || s.loop.Stopping? || s.loop.Done?)
  }

  function LoopSends(log: seq<Send>): nat {
    if log == [] then 0
    else
      var last := log[|log| - 1];
      LoopSends(log[..|log| - 1]) + if last.Beat? && last.sender.LoopThread? then 1 else 0
  }

  lemma StepStaysOver(s: State, step: Step)
    requires LoopIsOver(s)
    ensures LoopIsOver(Next(s, step))
    ensures !step.SendDetection? && !step.SendDegraded? ==> Next(s, step).log == s.log
  {
  }

  lemma OtherSends(log: seq<Send>, x: Send)
    requires x.Detection? || x.sender.MainThread?
    ensures LoopSends(log + [x]) == LoopSends(log)
  {
    assert (log + [x])[..|log|] == log;
  }

  lemma StepKeepsLoopOver(s: State, step: Step)
    requires LoopIsOver(s)
    ensures LoopIsOver(Next(s, step)) && LoopSends(Next(s, step).log) == LoopSends(s.log)
  {
    StepStaysOver(s, step);
    if step.SendDetection? { OtherSends(s.log, Detection(step.delivered)); }
    else if step.SendDegraded? { OtherSends(s.log, Beat(Degraded, MainThread, step.delivered)); }
  }

  /** From the moment the loop has caught a failure, been told to stop or died, it sends nothing more. */
  lemma {:induction false} LoopSendsNothingAfterFailure(s: State, steps: seq<Step>)
    requires LoopIsOver(s)
    ensures LoopIsOver(After(s, steps)) && LoopSends(After(s, steps).log) == LoopSends(s.log)
  {
    if steps != [] {
      var n := |steps| - 1;
      LoopSendsNothingAfterFailure(s, steps[..n]);
      StepKeepsLoopOver(After(s, steps[..n]), steps[n]);
    }
  }

  /** A degraded heartbeat is sent at most once, only after the thread was joined, and never once a failure is latched. */
  lemma DegradedOnceAfterJoin(s: State)
    requires Reachable(s)
    ensures Degrades(s.log) <= 1
    ensures Degrades(s.log) == 1 ==> s.joined && s.loop.Done? && !s.failure && s.main == Raised
  {
    ReachableInvariant(s);
  }

  /** A returned count is the number of detections delivered; every heartbeat and detection attempted was delivered. */
  lemma CountMeansAllDelivered(s: State)
    requires Reachable(s) && s.main.Returned?
    ensures s.main.count == Delivered(s.log) && Degrades(s.log) == 0
    ensures s.joined && !s.failure && s.loop.Done? && s.loop.end != AfterFailure
    ensures Beat(Healthy, LoopThread, false) !in s.log && Detection(false) !in s.log
    ensures s.log != [] && s.log[0] == Beat(Healthy, MainThread, true)
  {
    ReachableInvariant(s);
  }

  // ---- What a failing step does to the run ----

  /** The step raises an exception in the worker's own thread at s. */
  predicate Raises(s: State, step: Step) {
    match step
    case OpenSource(ok) => s.main.Opening? && !ok
    case SendInitial(ok) => s.main.Entering? && !ok
    case StartThread(ok) => s.main.Starting? && !ok
    case CheckEntered => s.main.EnterChecking? && s.failure
    case Check => s.main.Running? && s.failure
    case SendDetection(ok) => s.main.Running? && !ok
    case FailInBody => s.main.Running?
    case CheckExited => s.main == ExitChecking(false) && s.failure
    case CloseSource(ok) => s.main.ClosingSource? && !ok
    case CloseTransport(ok) => s.main.ClosingTransport? && !ok
    case _ => false
  }

  /** Some step of the run raised. */
  ghost predicate SomeStepRaised(steps: seq<Step>) {
    exists k: nat :: RaisedAt(steps, k)
  }

  predicate OfLoop(step: Step) {
    step.LoopFirstClock? || step.LoopWait? || step.LoopClock? || step.LoopSend? || step.LoopLatch? || step.LoopStop?
  }

  lemma LoopLeavesMain(s: State, step: Step)
    requires OfLoop(step)
    ensures Next(s, step).main == s.main
  {
    match step
    case LoopFirstClock(_) =>
    case LoopWait(_) =>
    case LoopClock(_) =>
    case LoopSend(_) =>
    case LoopLatch =>
    case LoopStop =>
  }

  lemma LoopRaisesNothing(s: State, step: Step)
    requires OfLoop(step)
    ensures !Raises(s, step)
  {
  }

  lemma DoomedStep(s: State, step: Step)
    requires Doomed(s.main) && !OfLoop(step)
    ensures Doomed(Next(s, step).main)
  {
  }

  lemma UndoomedStep(s: State, step: Step)
    requires !Doomed(s.main) && !OfLoop(step)
    ensures Doomed(Next(s, step).main) <==> Raises(s, step)
  {
    match step
    case OpenSource(_) =>
    case SendInitial(_) =>
    case StartThread(_) =>
    case CheckEntered =>
    case Check =>
    case SendDetection(_) =>
    case FailInBody =>
    case FinishBody =>
    case SetStop =>
    case Join(_) =>
    case CheckExited =>
    case CloseSource(_) =>
    case CloseTransport(_) =>
    case Handle =>
    case SendDegraded(_) =>
    case _ =>
  }

  lemma StepDooms(s: State, step: Step)
    ensures Doomed(Next(s, step).main) <==> Doomed(s.main) || Raises(s, step)
  {
    if OfLoop(step) { LoopLeavesMain(s, step); LoopRaisesNothing(s, step); }
    else if Doomed(s.main) { DoomedStep(s, step); }
    else { UndoomedStep(s, step); }
  }

  /** Position k of the run is a step that raised. */
  ghost predicate RaisedAt(steps: seq<Step>, k: nat) {
    k < |steps| && Raises(After(INITIAL, steps[..k]), steps[k])
  }

  lemma PrefixRaisedAt(steps: seq<Step>, n: nat, k: nat)
    requires k < n <= |steps|
    ensures RaisedAt(steps[..n], k) <==> RaisedAt(steps, k)
  {
    assert steps[..n][..k] == steps[..k];
  }

  lemma OneMoreStep(steps: seq<Step>)
    requires steps != []
    ensures var n := |steps| - 1;
      SomeStepRaised(steps) <==> SomeStepRaised(steps[..n]) || Raises(After(INITIAL, steps[..n]), steps[n])
  {
    var n := |steps| - 1;
    if k: nat :| RaisedAt(steps[..n], k) {
      PrefixRaisedAt(steps, n, k);
    }
    if k: nat :| RaisedAt(steps, k) {
      if k < n { PrefixRaisedAt(steps, n, k); }
    }
    if Raises(After(INITIAL, steps[..n]), steps[n]) { assert RaisedAt(steps, n); }
  }

  /** The run is on its exception path exactly when some step of the worker's thread raised. */
  lemma {:induction false} DoomedExactlyAfterRaise(steps: seq<Step>)
    ensures Doomed(After(INITIAL, steps).main) <==> SomeStepRaised(steps)
  {
    if steps != [] {
      var n := |steps| - 1;
      DoomedExactlyAfterRaise(steps[..n]);
      StepDooms(After(INITIAL, steps[..n]), steps[n]);
      OneMoreStep(steps);
    }
  }

  lemma WhatRaises(s: State, step: Step)
    requires !Raises(s, step)
    ensures s.main.Running? ==> !step.FailInBody? && step != SendDetection(false) && !(step.Check? && s.failure)
    ensures s.main.ClosingSource? ==> step != CloseSource(false)
    ensures s.main.ClosingTransport? ==> step != CloseTransport(false)
  {
  }

  /**
   A run that returned a count had no failure: the body never failed, no detection, heartbeat or check failed it,
   and the source and the transport closed.
   */
  lemma ReturnedMeansNothingRaised(steps: seq<Step>, k: nat)
    requires After(INITIAL, steps).main.Returned? && k < |steps|
    ensures var s, step := After(INITIAL, steps[..k]), steps[k];
      && (s.main.Running? ==> !step.FailInBody? && step != SendDetection(false) && !(step.Check? && s.failure))
      && (s.main.ClosingSource? ==> step != CloseSource(false))
      && (s.main.ClosingTransport? ==> step != CloseTransport(false))
      && !Raises(s, step)
  {
    DoomedExactlyAfterRaise(steps);
    assert !RaisedAt(steps, k);
    WhatRaises(After(INITIAL, steps[..k]), steps[k]);
  }

  /** Once the worker's thread is done it raised, and told its caller so, exactly when some step raised. */
  lemma EndsExactly(steps: seq<Step>)
    requires var m := After(INITIAL, steps).main; m.Returned? || m.Raised?
    ensures After(INITIAL, steps).main.Raised? <==> SomeStepRaised(steps)
  {
    DoomedExactlyAfterRaise(steps);
  }

  // ---- Exactly when a degraded heartbeat is attempted ----

  /** The transport itself failed to close at position k, outside the handler's reach. */
  ghost predicate CloseFailedAt(steps: seq<Step>, k: nat) {
    k < |steps| && After(INITIAL, steps[..k]).main.ClosingTransport? && steps[k] == CloseTransport(false)
  }

  ghost predicate TransportCloseFailed(steps: seq<Step>) {
    exists k: nat :: CloseFailedAt(steps, k)
  }

  lemma PrefixCloseFailedAt(steps: seq<Step>, n: nat, k: nat)
    requires k < n <= |steps|
    ensures CloseFailedAt(steps[..n], k) <==> CloseFailedAt(steps, k)
  {
    assert steps[..n][..k] == steps[..k];
  }

  /** At the end of a raising run the degraded flag tells which of the two ways it went. */
  predicate Accounted(s: State, closeFailed: bool) {
    && (s.main.Raised? && s.started && !s.failure ==> (s.degradedSent <==> !closeFailed))
    && (closeFailed ==> s.main.Raised? && s.started && !s.degradedSent)
  }

  lemma StepAccounts(s: State, step: Step, closeFailed: bool)
    requires Invariant(s) && Accounted(s, closeFailed)
    ensures Accounted(Next(s, step), closeFailed || (s.main.ClosingTransport? && step == CloseTransport(false)))
  {
  }

  lemma CloseOneMore(steps: seq<Step>)
    requires steps != []
    ensures var n := |steps| - 1;
      TransportCloseFailed(steps) <==> TransportCloseFailed(steps[..n]) || CloseFailedAt(steps, n)
  {
    var n := |steps| - 1;
    if k: nat :| CloseFailedAt(steps[..n], k) { PrefixCloseFailedAt(steps, n, k); }
    if k: nat :| CloseFailedAt(steps, k) {
      if k < n { PrefixCloseFailedAt(steps, n, k); }
    }
  }

  lemma {:induction false} RunAccounts(steps: seq<Step>)
    ensures Accounted(After(INITIAL, steps), TransportCloseFailed(steps))
  {
    if steps != [] {
      var n := |steps| - 1;
      RunAccounts(steps[..n]);
      RunsKeepInvariant(steps[..n]);
      StepAccounts(After(INITIAL, steps[..n]), steps[n], TransportCloseFailed(steps[..n]));
      CloseOneMore(steps);
    }
  }

  /**
   A run that raised attempted exactly one degraded heartbeat when it had started, no failure is latched and the
   exception did not come from closing the transport; otherwise none. So a started run whose body failed, and whose
   heartbeats did not, announces itself degraded once.
   */
  lemma DegradedExactly(steps: seq<Step>)
    requires After(INITIAL, steps).main.Raised?
    ensures var s := After(INITIAL, steps);
      Degrades(s.log) == if s.started && !s.failure && !TransportCloseFailed(steps) then 1 else 0
  {
    RunAccounts(steps);
    RunsKeepInvariant(steps);
  }

  lemma StepKeepsStarted(s: State, step: Step)
    requires s.started && !BeforeInitial(s.main)
    ensures Next(s, step).started && !BeforeInitial(Next(s, step).main)
  {
    match step
    case OpenSource(_) =>
    case SendInitial(_) =>
    case StartThread(_) =>
    case CheckEntered =>
    case Check =>
    case SendDetection(_) =>
    case FailInBody =>
    case FinishBody =>
    case SetStop =>
    case Join(_) =>
    case CheckExited =>
    case CloseSource(_) =>
    case CloseTransport(_) =>
    case Handle =>
    case SendDegraded(_) =>
    case LoopFirstClock(_) =>
    case LoopWait(_) =>
    case LoopClock(_) =>
    case LoopSend(_) =>
    case LoopLatch =>
    case LoopStop =>
  }

  lemma {:induction false} StartedStays(s: State, steps: seq<Step>)
    requires s.started && !BeforeInitial(s.main)
    ensures After(s, steps).started && !BeforeInitial(After(s, steps).main)
  {
    if steps != [] {
      var n := |steps| - 1;
      StartedStays(s, steps[..n]);
      StepKeepsStarted(After(s, steps[..n]), steps[n]);
    }
  }

  /** A run whose body failed never reaches the transport's close. */
  lemma BodyFailureComesFirst(steps: seq<Step>, k: nat)
    requires k < |steps| && After(INITIAL, steps[..k]).main.Running? && steps[k].FailInBody?
    ensures !TransportCloseFailed(steps)
  {
    assert RaisedAt(steps, k);
    if j: nat :| CloseFailedAt(steps, j) {
      if j < k {
        PrefixCloseFailedAt(steps, k, j);
        RunAccounts(steps[..k]);
      } else if k < j {
        PrefixRaisedAt(steps, j, k);
        DoomedExactlyAfterRaise(steps[..j]);
      }
    }
  }

  /** A run whose body failed, once over with no failure latched, announced itself degraded exactly once, after the join. */
  lemma BodyFailureIsAnnounced(steps: seq<Step>, k: nat)
    requires k < |steps| && After(INITIAL, steps[..k]).main.Running? && steps[k].FailInBody?
    requires After(INITIAL, steps).main.Raised? && !After(INITIAL, steps).failure
    ensures var s := After(INITIAL, steps); Degrades(s.log) == 1 && s.joined
  {
    BodyFailureComesFirst(steps, k);
    RunsKeepInvariant(steps[..k]);
    StartedStays(After(INITIAL, steps[..k]), steps[k..]);
    AfterConcat(INITIAL, steps[..k], steps[k..]);
    assert steps[..k] + steps[k..] == steps;
    DegradedExactly(steps);
    DegradedOnceAfterJoin(After(INITIAL, steps));
  }

  /** A loop that ended without being told to stop latched its failure, unless the very first clock reading failed. */
  lemma UnlatchedEnd(s: State)
    requires Reachable(s) && s.loop.Done? && !s.failure
    ensures s.loop.end == ToldToStop || s.loop.end == ClockFailedAtStart
  {
    ReachableInvariant(s);
  }

  lemma AfterFour(s: State, a: Step, b: Step, c: Step, d: Step, rest: seq<Step>)
    ensures After(s, [a, b, c, d] + rest) == After(Next(Next(Next(Next(s, a), b), c), d), rest)
    decreases |rest|
  {
    var steps := [a, b, c, d] + rest;
    if rest == [] {
      assert steps == [a, b, c, d];
      assert [a, b, c, d][..3] == [a, b, c] && [a, b, c][..2] == [a, b] && [a, b][..1] == [a] && [a][..0] == [];
      assert After(s, [a]) == Next(s, a);
      assert After(s, [a, b]) == Next(Next(s, a), b);
      assert After(s, [a, b, c]) == Next(Next(Next(s, a), b), c);
    } else {
      var n := |rest| - 1;
      AfterFour(s, a, b, c, d, rest[..n]);
      assert steps[..|steps| - 1] == [a, b, c, d] + rest[..n];
    }
  }

  function InBody4(): seq<Step> { [CheckEntered, SendDetection(true), FinishBody, SetStop] }

  function Concluding4(): seq<Step> { [Join(true), CheckExited, CloseSource(true), CloseTransport(true)] }

  function FirstClockRaises(): seq<Step> {
    [OpenSource(true), SendInitial(true), StartThread(true), LoopFirstClock(None)] + (InBody4() + Concluding4())
  }

  function Entered(): State {
    State(EnterChecking, Done(ClockFailedAtStart), false, false, true, false, false, 0.0, 0,
          [Beat(Healthy, MainThread, true)])
  }

  lemma Enters()
    ensures After(INITIAL, FirstClockRaises()) == After(Entered(), InBody4() + Concluding4())
  {
    AfterFour(INITIAL, OpenSource(true), SendInitial(true), StartThread(true), LoopFirstClock(None),
              InBody4() + Concluding4());
    assert Next(Next(INITIAL, OpenSource(true)), SendInitial(true)) ==
           State(Starting, NotStarted, false, false, true, false, false, 0.0, 0, [Beat(Healthy, MainThread, true)]);
  }

  function Left(): State {
    State(Joining(false), Done(ClockFailedAtStart), true, false, true, false, false, 0.0, 1,
          [Beat(Healthy, MainThread, true), Detection(true)])
  }

  lemma Leaves()
    ensures After(Entered(), InBody4() + Concluding4()) == After(Left(), Concluding4())
  {
    AfterFour(Entered(), CheckEntered, SendDetection(true), FinishBody, SetStop, Concluding4());
    assert [Beat(Healthy, MainThread, true)] + [Detection(true)] == Left().log;
  }

  lemma Concludes()
    ensures After(Left(), Concluding4()) == Left().(main := Returned(1), joined := true)
  {
    assert Concluding4() + [] == Concluding4();
    AfterFour(Left(), Join(true), CheckExited, CloseSource(true), CloseTransport(true), []);
  }

  /**
   That exception is real: a first reading that raises ends the thread unlatched, and the run still returns a
   count although the loop never sent a heartbeat.
   */
  lemma FirstClockFailureIsNotLatched()
    ensures var s := After(INITIAL, FirstClockRaises());
      s.main == Returned(1) && s.loop == Done(ClockFailedAtStart) && !s.failure && LoopSends(s.log) == 0
  {
    Enters();
    Leaves();
    Concludes();
    OtherSends([], Beat(Healthy, MainThread, true));
    OtherSends([Beat(Healthy, MainThread, true)], Detection(true));
  }

  /** A clock reading _monotonic_value cannot use, or one that moved backwards, which only later readings can do. */
  predicate BadReading(s: State, r: Option<real>) {
    r.None? || r.value < 0.0 || (s.loop.Clocking? && r.value < s.previous)
  }

  /** Exactly when a failing clock is latched: unless it is the first reading, taken before the try block. */
  lemma ClockFailureLatchedUnlessFirst(s: State, r: Option<real>)
    requires s.loop.FirstClock? || s.loop.Clocking?
    requires BadReading(s, r)
    ensures var clock := if s.loop.FirstClock? then LoopFirstClock(r) else LoopClock(r);
      var after := Next(Next(Next(s, clock), LoopLatch), LoopStop);
      after.loop.Done? && (after.failure <==> s.failure || s.loop.Clocking?) && after.log == s.log
  {
  }

  /** A loop whose reading is good goes on from it: to its first wait, or to sending one healthy heartbeat. */
  lemma GoodReadingGoesOn(s: State, r: Option<real>)
    ensures s.loop.FirstClock? ==>
      (var t := Next(s, LoopFirstClock(r));
       && (t.loop.Waiting? <==> !BadReading(s, r)) && (t.loop.Waiting? ==> t == s.(loop := Waiting, previous := r.value)))
    ensures s.loop.Clocking? ==>
      (var t := Next(s, LoopClock(r));
       && (t.loop.Sending? <==> !BadReading(s, r)) && (t.loop.Sending? ==> t == s.(loop := Sending, previous := r.value)))
  {
  }

  // ---- The heartbeat loop run on its own ----

  /** What one turn of the loop meets: the wait's answer, the clock reading and the delivery. */
  datatype Turn = Turn(wait: Option<bool>, reading: Option<real>, delivered: bool)

  function TurnSteps(t: Turn): seq<Step> {
    [LoopWait(t.wait), LoopClock(t.reading), LoopSend(t.delivered), LoopLatch, LoopStop]
  }

  function LoopScript(turns: seq<Turn>): seq<Step> {
    if turns == [] then [] else LoopScript(turns[..|turns| - 1]) + TurnSteps(turns[|turns| - 1])
  }

  lemma {:induction false} AfterConcat(s: State, a: seq<Step>, b: seq<Step>)
    ensures After(s, a + b) == After(After(s, a), b)
  {
    if b == [] {
      assert a + b == a;
    } else {
      var n := |b| - 1;
      assert (a + b)[..|a + b| - 1] == a + b[..n];
      AfterConcat(s, a, b[..n]);
    }
  }

  function AfterTurnSteps(s: State, t: Turn): State {
    Next(Next(Next(Next(Next(s, LoopWait(t.wait)), LoopClock(t.reading)), LoopSend(t.delivered)), LoopLatch), LoopStop)
  }

  lemma AfterTurn(s: State, t: Turn)
    ensures After(s, TurnSteps(t)) == AfterTurnSteps(s, t)
  {
    AfterFour(s, LoopWait(t.wait), LoopClock(t.reading), LoopSend(t.delivered), LoopLatch, [LoopStop]);
    assert TurnSteps(t) == [LoopWait(t.wait), LoopClock(t.reading), LoopSend(t.delivered), LoopLatch] + [LoopStop];
    assert [LoopStop][..0] == [];
  }

  lemma DoneIgnores(s: State, t: Turn)
    requires s.loop.Done?
    ensures AfterTurnSteps(s, t) == s
  {
    assert Next(s, LoopWait(t.wait)) == s;
    assert Next(s, LoopClock(t.reading)) == s;
    assert Next(s, LoopSend(t.delivered)) == s;
    assert Next(s, LoopLatch) == s;
  }

  predicate Delivers(s: State, t: Turn) {
    t.wait == Some(false) && t.reading.Some? && t.reading.value >= 0.0 && t.reading.value >= s.previous
  }

  lemma LatchRuns(s: State)
    requires s.loop.Latching?
    ensures Next(Next(s, LoopLatch), LoopStop) == TurnFails(s)
  {
  }

  lemma SendRuns(s: State, delivered: bool)
    requires s.loop.Sending?
    ensures Next(Next(Next(s, LoopSend(delivered)), LoopLatch), LoopStop) ==
      var u := Sent(s, Beat(Healthy, LoopThread, delivered));
      if delivered then u.(loop := Waiting) else TurnFails(u)
  {
    var t := Next(s, LoopSend(delivered));
    if delivered {
      assert Next(t, LoopLatch) == t;
    } else {
      LatchRuns(t);
    }
  }

  lemma FailingTurnRuns(s: State, t: Turn)
    requires s.loop.Waiting? && t.wait != Some(true) && !Delivers(s, t)
    ensures AfterTurnSteps(s, t) == TurnFails(s)
  {
    var s2 := Next(Next(s, LoopWait(t.wait)), LoopClock(t.reading));
    assert s2 == s.(loop := Latching);
    assert Next(s2, LoopSend(t.delivered)) == s2;
    LatchRuns(s2);
  }

  lemma DeliveringTurnRuns(s: State, t: Turn)
    requires s.loop.Waiting? && Delivers(s, t)
    ensures AfterTurnSteps(s, t) ==
      var u := Sent(s, Beat(Healthy, LoopThread, t.delivered)).(previous := t.reading.value);
      if t.delivered then u else TurnFails(u)
  {
    var s2 := Next(Next(s, LoopWait(t.wait)), LoopClock(t.reading));
    assert s2 == s.(loop := Sending, previous := t.reading.value);
    SendRuns(s2, t.delivered);
  }

  /** A turn taken while waiting: told to stop, caught a failure, or sent one heartbeat. */
  lemma TurnRuns(s: State, t: Turn)
    requires s.loop.Waiting?
    ensures AfterTurnSteps(s, t) ==
      if t.wait == Some(true) then s.(loop := Done(ToldToStop))
      else if !Delivers(s, t) then TurnFails(s)
      else
        var u := Sent(s, Beat(Healthy, LoopThread, t.delivered)).(previous := t.reading.value);
        if t.delivered then u else TurnFails(u)
  {
    if t.wait == Some(true) {
      var u := s.(loop := Done(ToldToStop));
      assert Next(s, LoopWait(t.wait)) == u;
      assert Next(u, LoopClock(t.reading)) == u;
      assert Next(u, LoopSend(t.delivered)) == u;
      assert Next(u, LoopLatch) == u;
    } else if Delivers(s, t) {
      DeliveringTurnRuns(s, t);
    } else {
      FailingTurnRuns(s, t);
    }
  }

  function TurnFails(s: State): State {
    s.(failure := true, stop := true, loop := Done(AfterFailure))
  }

  lemma {:induction false} DoneStays(s: State, turns: seq<Turn>)
    requires s.loop.Done?
    ensures After(s, LoopScript(turns)) == s
  {
    if turns != [] {
      var n := |turns| - 1;
      DoneStays(s, turns[..n]);
      AfterConcat(s, LoopScript(turns[..n]), TurnSteps(turns[n]));
      AfterTurn(s, turns[n]);
      DoneIgnores(s, turns[n]);
    }
  }

  lemma {:induction false} ScriptSplits(turns: seq<Turn>, i: nat)
    requires i <= |turns|
    ensures LoopScript(turns) == LoopScript(turns[..i]) + LoopScript(turns[i..])
    decreases |turns|
  {
    if i == |turns| {
      assert turns[..i] == turns;
      assert LoopScript(turns[i..]) == [];
    } else {
      var n := |turns| - 1;
      ScriptSplits(turns[..n], i);
      assert turns[..n][..i] == turns[..i] && turns[..n][i..] == turns[i..n];
      assert turns[i..][..n - i] == turns[i..n] && turns[i..][n - i] == turns[n];
      assert LoopScript(turns[i..]) == LoopScript(turns[i..n]) + TurnSteps(turns[n]);
    }
  }

  lemma EndsEarly(s: State, turns: seq<Turn>, i: nat)
    requires i <= |turns| && After(s, LoopScript(turns[..i])).loop.Done?
    ensures After(s, LoopScript(turns)) == After(s, LoopScript(turns[..i]))
  {
    ScriptSplits(turns, i);
    AfterConcat(s, LoopScript(turns[..i]), LoopScript(turns[i..]));
    DoneStays(After(s, LoopScript(turns[..i])), turns[i..]);
  }

  lemma ScriptExtends(turns: seq<Turn>, i: nat)
    requires i < |turns|
    ensures LoopScript(turns[..i + 1]) == LoopScript(turns[..i]) + TurnSteps(turns[i])
  {
    assert turns[..i + 1][..i] == turns[..i];
  }

  // ---- The main thread's calls, uninterrupted ----

  function AfterStart(s: State, starts: bool): State {
    Next(Next(s, StartThread(starts)), CheckEntered)
  }

  lemma StartRuns(s: State, starts: bool)
    requires Invariant(s) && s.main.Starting?
    ensures Invariant(AfterStart(s, starts))
    ensures AfterStart(s, starts) ==
      if !starts then s.(stop := true, failure := true, main := Handling)
      else s.(loop := FirstClock, main := if s.failure then Handling else Running)
  {
    var t := Next(s, StartThread(starts));
    StepKeepsInvariant(s, StartThread(starts));
    StepKeepsInvariant(t, CheckEntered);
    if !starts { assert Next(t, CheckEntered) == t; }
  }

  lemma NeverStarts(s: State, starts: bool)
    requires s.main.Handling?
    ensures AfterStart(s, starts) == s
  {
    assert Next(s, StartThread(starts)) == s;
  }

  function AfterExit(s: State, joins: bool): State {
    Next(Next(Next(s, SetStop), Join(joins)), CheckExited)
  }

  lemma ExitRuns(s: State, failing: bool, joins: bool)
    requires Invariant(s) && s.main == Exiting(failing) && s.loop.Done?
    ensures Invariant(AfterExit(s, joins))
    ensures AfterExit(s, joins) ==
      var t := if joins then s.(stop := true, joined := true) else s.(stop := true, failure := true);
      t.(main := if failing || t.failure then Handling else ClosingSource)
  {
    var s1 := Next(s, SetStop);
    var s2 := Next(s1, Join(joins));
    StepKeepsInvariant(s, SetStop);
    StepKeepsInvariant(s1, Join(joins));
    StepKeepsInvariant(s2, CheckExited);
    assert s1 == s.(stop := true, main := Joining(failing));
  }

  function AfterDegraded(s: State, delivered: bool): State {
    Next(Next(s, Handle), SendDegraded(delivered))
  }

  lemma DegradedRuns(s: State, delivered: bool)
    requires Invariant(s) && s.main.Handling?
    ensures Invariant(AfterDegraded(s, delivered))
    ensures AfterDegraded(s, delivered) ==
      if !s.started || s.failure || s.degradedSent then s.(main := Raised)
      else Sent(s, Beat(Degraded, MainThread, delivered)).(degradedSent := true, main := Raised)
  {
    StepKeepsInvariant(s, Handle);
    StepKeepsInvariant(Next(s, Handle), SendDegraded(delivered));
  }

  /** The object both threads share. main, loop and log record where the threads are and what was attempted. */
  class WorkerHeartbeatLifecycle {
    var stop: bool
    var failure: bool
    var started: bool
    var degradedSent: bool
    ghost var main: Main
    ghost var loop: Loop
    ghost var joined: bool
    ghost var previousReading: real
    ghost var emitted: nat
    ghost var log: seq<Send>

    ghost function View(): State
      reads this
    {
      State(main, loop, stop, failure, started, degradedSent, joined, previousReading, emitted, log)
    }

    ghost predicate Valid()
      reads this
    {
      Invariant(View())
    }

    constructor ()
      ensures View() == INITIAL && Valid()
    {
      stop, failure, started, degradedSent := false, false, false, false;
      main, loop, joined, previousReading, emitted, log := Opening, NotStarted, false, 0.0, 0, [];
      new;
      RunsKeepInvariant([]);
    }

    method Start(starts: bool) returns (entered: bool)
      requires Valid() && main.Starting?
      modifies this
      ensures Valid() && entered == main.Running?
      ensures View() == AfterStart(old(View()), starts)
    {
      StartRuns(View(), starts);
      if !starts {
        stop, failure, main := true, true, Handling;
        return false;
      }
      loop, entered := FirstClock, !failure;
      main := if failure then Handling else Running;
    }

    /** The initial healthy heartbeat; started is set only once it was delivered. */
    method SendInitialHeartbeat(delivered: bool)
      requires Valid() && main.Entering?
      modifies this
      ensures Valid() && View() == Next(old(View()), Step.SendInitial(delivered)) && started == delivered
    {
      StepKeepsInvariant(View(), Step.SendInitial(delivered));
      log := log + [Beat(Healthy, MainThread, delivered)];
      started := delivered;
      main := if delivered then Starting else Handling;
    }

    /** The first entry; entering again while started is refused before anything is sent. */
    method Enter(delivered: bool, starts: bool) returns (entered: bool)
      requires Valid() && main.Entering?
      modifies this
      ensures Valid() && entered == main.Running?
      ensures View() == AfterStart(Next(old(View()), SendInitial(delivered)), starts)
    {
      SendInitialHeartbeat(delivered);
      if !delivered {
        NeverStarts(View(), starts);
        return false;
      }
      entered := Start(starts);
    }

    method Check() returns (ok: bool)
      requires Valid() && main.Running?
      modifies this`main
      ensures Valid() && ok == !failure && View() == Next(old(View()), Step.Check)
    {
      StepKeepsInvariant(View(), Step.Check);
      if failure {
        main := Exiting(true);
      }
      return !failure;
    }

    /** Joins a thread that has ended; joins is false when the join itself raises. */
    method Exit(failing: bool, joins: bool) returns (ok: bool)
      requires Valid() && main == Exiting(failing) && loop.Done?
      modifies this
      ensures Valid() && ok == main.ClosingSource?
      ensures View() == AfterExit(old(View()), joins)
    {
      ExitRuns(View(), failing, joins);
      stop := true;
      if joins {
        joined := true;
      } else {
        failure := true;
      }
      main := if failing || failure then Handling else ClosingSource;
      ok := !failing && !failure;
    }

    method BestEffortDegraded(delivered: bool)
      requires Valid() && main.Handling?
      modifies this
      ensures Valid()
      ensures View() == AfterDegraded(old(View()), delivered)
    {
      DegradedRuns(View(), delivered);
      main := Raised;
      if !started || failure || degradedSent {
        return;
      }
      degradedSent := true;
      log := log + [Beat(Degraded, MainThread, delivered)];
    }

    /** One turn of the loop; waiting says whether there is another. */
    method TakeTurn(t: Turn, previous: real) returns (waiting: bool, latest: real)
      requires Valid() && loop.Waiting? && previousReading == previous
      modifies this
      ensures Valid() && waiting == loop.Waiting? && latest == previousReading && (loop.Waiting? || loop.Done?)
      ensures View() == AfterTurnSteps(old(View()), t)
    {
      ghost var s, target := View(), AfterTurnSteps(View(), t);
      TurnKeeps(s, t);
      TurnRuns(s, t);
      if t.wait == Some(true) {
        loop := Done(ToldToStop);
        assert View() == target;
        return false, previous;
      }
      if t.wait.None? || t.reading.None? || t.reading.value < 0.0 || t.reading.value < previous {
        failure, stop, loop := true, true, Done(AfterFailure);
        assert View() == TurnFails(s) == target;
        return false, previous;
      }
      waiting, latest := t.delivered, t.reading.value;
      previousReading, log := latest, log + [Beat(Healthy, LoopThread, t.delivered)];
      if !t.delivered {
        failure, stop, loop := true, true, Done(AfterFailure);
      }
      assert View() == target;
    }

    /** The thread's body. It ends by itself, or stays waiting when the listed turns run out. */
    method RunLoop(first: Option<real>, turns: seq<Turn>)
      requires Valid() && loop.FirstClock?
      modifies this
      ensures Valid()
      ensures View() == After(Next(old(View()), LoopFirstClock(first)), LoopScript(turns))
    {
      ghost var s := Next(View(), LoopFirstClock(first));
      StepKeepsInvariant(View(), LoopFirstClock(first));
      if first.None? || first.value < 0.0 {
        loop := Done(ClockFailedAtStart);
        DoneStays(s, turns);
        return;
      }
      previousReading, loop := first.value, Waiting;
      var previous, i := first.value, 0;
      assert turns[..0] == [];
      while i < |turns|
        invariant i <= |turns| && Valid() && loop.Waiting? && previousReading == previous
        invariant View() == After(s, LoopScript(turns[..i]))
      {
        ScriptExtends(turns, i);
        AfterConcat(s, LoopScript(turns[..i]), TurnSteps(turns[i]));
        AfterTurn(View(), turns[i]);
        var waiting;
        waiting, previous := TakeTurn(turns[i], previous);
        i := i + 1;
        if !waiting {
          EndsEarly(s, turns, i);
          return;
        }
      }
      assert turns[..|turns|] == turns;
    }
  }

  lemma TurnKeeps(s: State, t: Turn)
    requires Invariant(s)
    ensures Invariant(AfterTurnSteps(s, t))
  {
    var s1 := Next(s, LoopWait(t.wait));
    StepKeepsInvariant(s, LoopWait(t.wait));
    var s2 := Next(s1, LoopClock(t.reading));
    StepKeepsInvariant(s1, LoopClock(t.reading));
    var s3 := Next(s2, LoopSend(t.delivered));
    StepKeepsInvariant(s2, LoopSend(t.delivered));
    StepKeepsInvariant(s3, LoopLatch);
    StepKeepsInvariant(Next(s3, LoopLatch), LoopStop);
  }
}
