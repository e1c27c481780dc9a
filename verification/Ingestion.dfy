/**
 Authenticated ingestion (ingestion.py): one request's passage through lookup, signature check,
 replay reservation and commit, every interleaving of requests, and the object that runs one call.
 */
module Ingestion {
  import opened Prelude
  import opened Timestamps
  import opened Events
  import opened ReplayPolicy
  import Utf8

  // ---- Requests ----

  type Key = string

  /** An ideal signature: it verifies under exactly the key that made it and exactly the bytes it was made over. */
  datatype Signature = Signature(key: Key, message: seq<Utf8.Byte>)

  datatype Envelope = Envelope(body: Event, signature: Signature)

  /** One HTTP request: two deliveries of the same envelope are two requests. */
  datatype Request = Request(id: nat, envelope: Envelope)

  /** encode gives the bytes that are signed; nothing here depends on how it does so. */
  datatype Config = Config(settings: SecuritySettings, registry: map<string, Key>, encode: Event -> seq<Utf8.Byte>)

  predicate Registered(cfg: Config, rq: Request) {
    rq.envelope.body.nodeId in cfg.registry
  }

  predicate Authentic(cfg: Config, rq: Request) {
    Registered(cfg, rq) &&
    rq.envelope.signature == Signature(cfg.registry[rq.envelope.body.nodeId], cfg.encode(rq.envelope.body))
  }

  function ClaimOf(e: DetectionEvent): Claim {
    Claim(e.nodeId, e.eventId, e.nonce, Micros(e.timestamp))
  }

  // ---- Outcomes ----

  datatype IngestionReason = UnknownNode | InvalidSignature | Policy(reason: Reason)

  function Code(r: IngestionReason): string {
    match r
    case UnknownNode => "unknown_node"
    case InvalidSignature => "invalid_signature"
    case Policy(StaleTimestamp) => "stale_timestamp"
    case Policy(FutureTimestamp) => "future_timestamp"
    case Policy(ReplayedEventId) => "replayed_event_id"
    case Policy(ReplayedNonce) => "replayed_nonce"
  }

  function Category(r: IngestionReason): string {
    match r
    case UnknownNode => "identity"
    case InvalidSignature => "integrity"
    case Policy(StaleTimestamp) => "freshness"
    case Policy(FutureTimestamp) => "freshness"
    case Policy(ReplayedEventId) => "replay"
    case Policy(ReplayedNonce) => "replay"
  }

  datatype Reply = Acceptance(recordId: nat) | Rejection(reason: IngestionReason) | ServiceError

  datatype EventRow = EventRow(request: Request, body: DetectionEvent, acceptedAt: Instant)

  datatype AlertRow = AlertRow(request: Request, category: string, reason: string)

  function AlertFor(rq: Request, reason: IngestionReason): AlertRow {
    AlertRow(rq, Category(reason), Code(reason))
  }

  /** An alert names its reason: codes are distinct, and each category covers exactly its own reasons. */
  lemma AlertNamesReason(a: IngestionReason, b: IngestionReason)
    ensures Code(a) == Code(b) ==> a == b
    ensures Category(a) == "identity" <==> a.UnknownNode?
    ensures Category(a) == "integrity" <==> a.InvalidSignature?
    ensures Category(a) == "freshness" <==> a.Policy? && (a.reason.StaleTimestamp? || a.reason.FutureTimestamp?)
    ensures Category(a) == "replay" <==> a.Policy? && (a.reason.ReplayedEventId? || a.reason.ReplayedNonce?)
  {
    assert Code(InvalidSignature)[0] == 'i' && Code(Policy(ReplayedEventId))[0] == 'r';
    assert Category(UnknownNode)[1] == 'd' && Category(InvalidSignature)[1] == 'n';
    assert Category(Policy(StaleTimestamp))[1] == 'r' && Category(Policy(ReplayedNonce))[1] == 'e';
  }

  // ---- One request, step by step ----

  /** How far a request has come: before its clock reading, before the lock, before its commit. */
  datatype Phase =
    | Verified
    | Prepared(candidate: Candidate)
    | Reserved(candidate: Candidate)
    | Alerting(reason: IngestionReason)

  datatype Act =
    | Begin(dependencyFails: bool)
    | ReadClock(reading: Reading)
    | Lock
    | Commit(outcome: CommitOutcome)

  datatype Step = Step(request: Request, act: Act)

  datatype Reservation = Reservation(request: Request, candidate: Candidate)

  /** The policy, the durable tables, the requests in flight and answered, and the log of reservations made. */
  datatype Aggregator = Aggregator(
    policy: PolicyState, reservations: seq<Reservation>, events: seq<EventRow>, alerts: seq<AlertRow>,
    pending: map<Request, Phase>, replies: map<Request, Reply>)

  const START: Aggregator := Aggregator(FRESH, [], [], [], map[], map[])

  function Answer(s: Aggregator, rq: Request, reply: Reply): Aggregator {
    s.(pending := s.pending - {rq}, replies := s.replies[rq := reply])
  }

  function Advance(s: Aggregator, rq: Request, phase: Phase): Aggregator {
    s.(pending := s.pending[rq := phase])
  }

  function Refuse(s: Aggregator, rq: Request, o: Outcome): Aggregator {
    if o.Rejected? then Advance(s, rq, Alerting(Policy(o.reason))) else Answer(s, rq, ServiceError)
  }

  function BeginStep(cfg: Config, s: Aggregator, rq: Request, dependencyFails: bool): Aggregator {
    if dependencyFails then Answer(s, rq, ServiceError)
    else if !Registered(cfg, rq) then Advance(s, rq, Alerting(UnknownNode))
    else if !Authentic(cfg, rq) then Advance(s, rq, Alerting(InvalidSignature))
    else Advance(s, rq, Verified)
  }

  function ClockStep(cfg: Config, s: Aggregator, rq: Request, reading: Reading): Aggregator {
    match Prepare(cfg.settings, ClaimOf(rq.envelope.body), reading)
    case Ok(c) => Advance(s, rq, Prepared(c))
    case Err(o) => Refuse(s, rq, o)
  }

  function LockStep(s: Aggregator, rq: Request, c: Candidate): Aggregator {
    var (q, o) := Reserve(s.policy, c);
    if o.Accepted? then
      Advance(s.(policy := q, reservations := s.reservations + [Reservation(rq, c)]), rq, Reserved(c))
    else Refuse(s, rq, o)
  }

  function EventCommit(s: Aggregator, rq: Request, c: Candidate, outcome: CommitOutcome): Aggregator {
    var row := EventRow(rq, rq.envelope.body, c.now);
    var t := if outcome.Durable() then s.(events := s.events + [row]) else s;
    Answer(t, rq, if outcome.Committed? then Acceptance(|t.events|) else ServiceError)
  }

  function AlertCommit(s: Aggregator, rq: Request, reason: IngestionReason, outcome: CommitOutcome): Aggregator {
    var t := if outcome.Durable() then s.(alerts := s.alerts + [AlertFor(rq, reason)]) else s;
    Answer(t, rq, if outcome.Committed? then Rejection(reason) else ServiceError)
  }

  /** A step that does not fit the request's phase does nothing. */
  function Proceed(cfg: Config, s: Aggregator, rq: Request, phase: Phase, act: Act): Aggregator {
    match phase
    case Verified => if act.ReadClock? then ClockStep(cfg, s, rq, act.reading) else s
    case Prepared(c) => if act.Lock? then LockStep(s, rq, c) else s
    case Reserved(c) => if act.Commit? then EventCommit(s, rq, c, act.outcome) else s
    case Alerting(reason) => if act.Commit? then AlertCommit(s, rq, reason, act.outcome) else s
  }

  function Next(cfg: Config, s: Aggregator, step: Step): Aggregator {
    var rq := step.request;
    if step.act.Begin? then
      if rq in s.pending || rq in s.replies then s else BeginStep(cfg, s, rq, step.act.dependencyFails)
    else if rq in s.pending then Proceed(cfg, s, rq, s.pending[rq], step.act)
    else s
  }

  function After(cfg: Config, s: Aggregator, steps: seq<Step>): Aggregator {
    if steps == [] then s
    else Next(cfg, After(cfg, s, steps[..|steps| - 1]), steps[|steps| - 1])
  }

  // ---- What every step keeps ----

  function Candidates(rs: seq<Reservation>): (cs: seq<Candidate>)
    ensures |cs| == |rs| && forall i :: 0 <= i < |rs| ==> cs[i] == rs[i].candidate
  {
    seq(|rs|, i requires 0 <= i < |rs| => rs[i].candidate)
  }

  function Reserving(s: Aggregator): set<Request> { set r | r in s.reservations :: r.request }

  function Stored(s: Aggregator): set<Request> { set r | r in s.events :: r.request }

  function Alerted(s: Aggregator): set<Request> { set r | r in s.alerts :: r.request }

  predicate DistinctReservations(s: Aggregator) {
    forall i, j :: 0 <= i < j < |s.reservations| ==> s.reservations[i].request != s.reservations[j].request
  }

  predicate GenuineReservation(cfg: Config, r: Reservation) {
    && Authentic(cfg, r.request)
    && r.candidate.claim == ClaimOf(r.request.envelope.body)
    && Admissible(cfg.settings, r.candidate)
  }

  ghost predicate PolicyInvariant(cfg: Config, s: Aggregator) {
    && Reflects(Candidates(s.reservations), s.policy)
    && DistinctReservations(s)
    && forall r :: r in s.reservations ==> GenuineReservation(cfg, r)
  }

  predicate PhaseInvariant(cfg: Config, s: Aggregator, rq: Request, phase: Phase) {
    match phase
    case Verified => Authentic(cfg, rq) && rq !in Reserving(s)
    case Prepared(c) =>
      rq !in Reserving(s) && GenuineReservation(cfg, Reservation(rq, c))
    case Reserved(c) => Reservation(rq, c) in s.reservations
    case Alerting(reason) => rq !in Reserving(s) && Fits(cfg, rq, reason)
  }

  /** The reason names what is wrong with the request. */
  predicate Fits(cfg: Config, rq: Request, reason: IngestionReason) {
    && (reason.UnknownNode? <==> !Registered(cfg, rq))
    && (reason.InvalidSignature? <==> Registered(cfg, rq) && !Authentic(cfg, rq))
  }

  predicate ReplyInvariant(cfg: Config, s: Aggregator, rq: Request, reply: Reply) {
    match reply
    case Acceptance(id) => 1 <= id <= |s.events| && s.events[id - 1].request == rq
    case Rejection(reason) => AlertFor(rq, reason) in s.alerts && rq !in Reserving(s) && Fits(cfg, rq, reason)
    case ServiceError => true
  }

  /** An event row holds the request's own body and the instant of that request's reservation. */
  predicate Backed(reservations: seq<Reservation>, row: EventRow) {
    && row.body == row.request.envelope.body
    && exists i :: 0 <= i < |reservations| &&
         reservations[i].request == row.request && reservations[i].candidate.now == row.acceptedAt
  }

  ghost predicate Labelled(row: AlertRow) {
    exists reason :: row == AlertFor(row.request, reason)
  }

  ghost predicate RowInvariant(s: Aggregator) {
    && (forall i, j :: 0 <= i < j < |s.events| ==> s.events[i].request != s.events[j].request)
    && (forall i, j :: 0 <= i < j < |s.alerts| ==> s.alerts[i].request != s.alerts[j].request)
    && (forall i :: 0 <= i < |s.events| ==> Backed(s.reservations, s.events[i]))
    && (forall i :: 0 <= i < |s.alerts| ==> Labelled(s.alerts[i]))
  }

  /** Rows belong to answered requests, reservations to known ones, and no request is both in flight and answered. */
  predicate Accounting(s: Aggregator) {
    && Stored(s) <= s.replies.Keys
    && Alerted(s) <= s.replies.Keys
    && Reserving(s) <= s.pending.Keys + s.replies.Keys
    && s.pending.Keys !! s.replies.Keys
  }

  ghost predicate PhasesInvariant(cfg: Config, s: Aggregator) {
    forall rq :: rq in s.pending ==> PhaseInvariant(cfg, s, rq, s.pending[rq])
  }

  ghost predicate RepliesInvariant(cfg: Config, s: Aggregator) {
    forall rq :: rq in s.replies ==> ReplyInvariant(cfg, s, rq, s.replies[rq])
  }

  ghost predicate Invariant(cfg: Config, s: Aggregator) {
    PolicyInvariant(cfg, s) && RowInvariant(s) && Accounting(s) && PhasesInvariant(cfg, s) && RepliesInvariant(cfg, s)
  }

  lemma AdvanceKeeps(cfg: Config, s: Aggregator, rq: Request, phase: Phase)
    requires Invariant(cfg, s) && rq !in s.replies && PhaseInvariant(cfg, s, rq, phase)
    ensures Invariant(cfg, Advance(s, rq, phase))
  {
  }

  lemma AnswerKeeps(cfg: Config, s: Aggregator, rq: Request, reply: Reply)
    requires Invariant(cfg, s) && rq !in s.replies && ReplyInvariant(cfg, s, rq, reply)
    ensures Invariant(cfg, Answer(s, rq, reply))
  {
  }

  lemma MoreReservations(s: Aggregator, t: Aggregator, r: Reservation)
    requires t.reservations == s.reservations + [r]
    ensures Reserving(t) == Reserving(s) + {r.request}
    ensures forall x :: x in t.reservations <==> x in s.reservations || x == r
    ensures Candidates(t.reservations) == Candidates(s.reservations) + [r.candidate]
  {
    assert t.reservations[|s.reservations|] == r;
    forall x | x in s.reservations ensures x in t.reservations {
      var i :| 0 <= i < |s.reservations| && s.reservations[i] == x;
      assert t.reservations[i] == x;
    }
  }

  lemma LockKeepsPolicy(cfg: Config, s: Aggregator, t: Aggregator, r: Reservation)
    requires PolicyInvariant(cfg, s) && GenuineReservation(cfg, r) && r.request !in Reserving(s)
    requires t.reservations == s.reservations + [r]
    requires Reserve(s.policy, r.candidate) == (t.policy, Accepted(Decision(r.candidate.now, r.candidate.expiry)))
    ensures PolicyInvariant(cfg, t)
  {
    ReserveRefinesFullHistory(Candidates(s.reservations), s.policy, r.candidate);
    MoreReservations(s, t, r);
    forall i | 0 <= i < |s.reservations| ensures s.reservations[i].request != r.request {
      assert s.reservations[i] in s.reservations;
    }
  }

  lemma LockKeepsRows(s: Aggregator, t: Aggregator, r: Reservation)
    requires RowInvariant(s)
    requires t.reservations == s.reservations + [r] && t.events == s.events && t.alerts == s.alerts
    ensures RowInvariant(t)
  {
    forall k | 0 <= k < |s.events| ensures Backed(t.reservations, s.events[k]) {
      var i :| 0 <= i < |s.reservations| &&
        s.reservations[i].request == s.events[k].request && s.reservations[i].candidate.now == s.events[k].acceptedAt;
      assert t.reservations[i] == s.reservations[i];
    }
  }

  lemma LockKeepsRequests(cfg: Config, s: Aggregator, t: Aggregator, r: Reservation)
    requires Accounting(s) && PhasesInvariant(cfg, s) && RepliesInvariant(cfg, s) && r.request in s.pending
    requires t.reservations == s.reservations + [r] && t.events == s.events && t.alerts == s.alerts
    requires t.replies == s.replies && t.pending == s.pending[r.request := Reserved(r.candidate)]
    ensures Accounting(t) && PhasesInvariant(cfg, t) && RepliesInvariant(cfg, t)
  {
    MoreReservations(s, t, r);
    forall rq | rq in t.pending ensures PhaseInvariant(cfg, t, rq, t.pending[rq]) {
      assert rq in s.pending && PhaseInvariant(cfg, s, rq, s.pending[rq]);
    }
  }

  lemma LockKeeps(cfg: Config, s: Aggregator, rq: Request, c: Candidate)
    requires Invariant(cfg, s) && rq in s.pending && s.pending[rq] == Prepared(c)
    ensures Invariant(cfg, LockStep(s, rq, c))
  {
    var t := LockStep(s, rq, c);
    var o := Reserve(s.policy, c).1;
    if o.Accepted? {
      var r := Reservation(rq, c);
      assert PhaseInvariant(cfg, s, rq, Prepared(c));
      LockKeepsPolicy(cfg, s, t, r);
      LockKeepsRows(s, t, r);
      LockKeepsRequests(cfg, s, t, r);
    } else if o.Rejected? {
      AdvanceKeeps(cfg, s, rq, Alerting(Policy(o.reason)));
    } else {
      AnswerKeeps(cfg, s, rq, ServiceError);
    }
  }

  lemma StoreKeepsRows(s: Aggregator, t: Aggregator, row: EventRow)
    requires RowInvariant(s) && Backed(s.reservations, row) && row.request !in Stored(s)
    requires t.events == s.events + [row] && t.reservations == s.reservations && t.alerts == s.alerts
    ensures RowInvariant(t) && Stored(t) == Stored(s) + {row.request}
  {
    forall i | 0 <= i < |s.events| ensures s.events[i].request != row.request {
      assert s.events[i] in s.events;
    }
    assert forall x :: x in t.events <==> x in s.events || x == row;
  }

  lemma StoreKeepsRequests(cfg: Config, s: Aggregator, t: Aggregator, rq: Request, reply: Reply)
    requires Accounting(s) && PhasesInvariant(cfg, s) && RepliesInvariant(cfg, s) && rq in s.pending
    requires t.reservations == s.reservations && t.alerts == s.alerts && s.events <= t.events
    requires Stored(t) == Stored(s) + {rq}
    requires t.pending == s.pending - {rq} && t.replies == s.replies[rq := reply] && ReplyInvariant(cfg, t, rq, reply)
    ensures Accounting(t) && PhasesInvariant(cfg, t) && RepliesInvariant(cfg, t)
  {
    forall r | r in t.pending ensures PhaseInvariant(cfg, t, r, t.pending[r]) {
      assert PhaseInvariant(cfg, s, r, s.pending[r]);
    }
    forall r | r in t.replies ensures ReplyInvariant(cfg, t, r, t.replies[r]) {
      if r != rq { assert ReplyInvariant(cfg, s, r, s.replies[r]); }
    }
  }

  lemma EventCommitKeeps(cfg: Config, s: Aggregator, rq: Request, c: Candidate, outcome: CommitOutcome)
    requires Invariant(cfg, s) && rq in s.pending && s.pending[rq] == Reserved(c)
    ensures Invariant(cfg, EventCommit(s, rq, c, outcome))
  {
    var t := EventCommit(s, rq, c, outcome);
    if outcome.Durable() {
      var row := EventRow(rq, rq.envelope.body, c.now);
      assert PhaseInvariant(cfg, s, rq, Reserved(c));
      var i :| 0 <= i < |s.reservations| && s.reservations[i] == Reservation(rq, c);
      StoreKeepsRows(s, t, row);
      StoreKeepsRequests(cfg, s, t, rq, t.replies[rq]);
    } else {
      AnswerKeeps(cfg, s, rq, ServiceError);
    }
  }

  lemma AlertKeepsRows(s: Aggregator, t: Aggregator, row: AlertRow)
    requires RowInvariant(s) && Labelled(row) && row.request !in Alerted(s)
    requires t.alerts == s.alerts + [row] && t.reservations == s.reservations && t.events == s.events
    ensures RowInvariant(t) && Alerted(t) == Alerted(s) + {row.request}
    ensures forall x :: x in t.alerts <==> x in s.alerts || x == row
  {
    forall i | 0 <= i < |s.alerts| ensures s.alerts[i].request != row.request {
      assert s.alerts[i] in s.alerts;
    }
    assert t.alerts[|s.alerts|] == row;
    forall x | x in s.alerts ensures x in t.alerts {
      var i :| 0 <= i < |s.alerts| && s.alerts[i] == x;
      assert t.alerts[i] == x;
    }
  }

  lemma AlertKeepsRequests(cfg: Config, s: Aggregator, t: Aggregator, rq: Request, reply: Reply)
    requires Accounting(s) && PhasesInvariant(cfg, s) && RepliesInvariant(cfg, s) && rq in s.pending
    requires t.reservations == s.reservations && t.events == s.events
    requires Alerted(t) == Alerted(s) + {rq} && forall x :: x in s.alerts ==> x in t.alerts
    requires t.pending == s.pending - {rq} && t.replies == s.replies[rq := reply] && ReplyInvariant(cfg, t, rq, reply)
    ensures Accounting(t) && PhasesInvariant(cfg, t) && RepliesInvariant(cfg, t)
  {
    forall r | r in t.pending ensures PhaseInvariant(cfg, t, r, t.pending[r]) {
      assert PhaseInvariant(cfg, s, r, s.pending[r]);
    }
    forall r | r in t.replies ensures ReplyInvariant(cfg, t, r, t.replies[r]) {
      if r != rq { assert ReplyInvariant(cfg, s, r, s.replies[r]); }
    }
  }

  lemma AlertCommitKeeps(cfg: Config, s: Aggregator, rq: Request, reason: IngestionReason, outcome: CommitOutcome)
    requires Invariant(cfg, s) && rq in s.pending && s.pending[rq] == Alerting(reason)
    ensures Invariant(cfg, AlertCommit(s, rq, reason, outcome))
  {
    var t := AlertCommit(s, rq, reason, outcome);
    if outcome.Durable() {
      assert PhaseInvariant(cfg, s, rq, Alerting(reason));
      AlertKeepsRows(s, t, AlertFor(rq, reason));
      AlertKeepsRequests(cfg, s, t, rq, t.replies[rq]);
    } else {
      AnswerKeeps(cfg, s, rq, ServiceError);
    }
  }

  lemma ClockKeeps(cfg: Config, s: Aggregator, rq: Request, reading: Reading)
    requires Invariant(cfg, s) && rq in s.pending && s.pending[rq] == Verified
    ensures Invariant(cfg, ClockStep(cfg, s, rq, reading))
  {
    var prepared := Prepare(cfg.settings, ClaimOf(rq.envelope.body), reading);
    if prepared.Ok? {
      PreparedAdmissible(cfg.settings, ClaimOf(rq.envelope.body), reading);
      AdvanceKeeps(cfg, s, rq, Prepared(prepared.value));
    } else if prepared.error.Rejected? {
      AdvanceKeeps(cfg, s, rq, Alerting(Policy(prepared.error.reason)));
    } else {
      AnswerKeeps(cfg, s, rq, ServiceError);
    }
  }

  lemma BeginKeeps(cfg: Config, s: Aggregator, rq: Request, dependencyFails: bool)
    requires Invariant(cfg, s) && rq !in s.pending && rq !in s.replies
    ensures Invariant(cfg, BeginStep(cfg, s, rq, dependencyFails))
  {
    if dependencyFails { AnswerKeeps(cfg, s, rq, ServiceError); }
    else if !Registered(cfg, rq) { AdvanceKeeps(cfg, s, rq, Alerting(UnknownNode)); }
    else if !Authentic(cfg, rq) { AdvanceKeeps(cfg, s, rq, Alerting(InvalidSignature)); }
    else { AdvanceKeeps(cfg, s, rq, Verified); }
  }

  lemma ProceedKeeps(cfg: Config, s: Aggregator, rq: Request, act: Act)
    requires Invariant(cfg, s) && rq in s.pending
    ensures Invariant(cfg, Proceed(cfg, s, rq, s.pending[rq], act))
  {
    match s.pending[rq]
    case Verified => if act.ReadClock? { ClockKeeps(cfg, s, rq, act.reading); }
    case Prepared(c) => if act.Lock? { LockKeeps(cfg, s, rq, c); }
    case Reserved(c) => if act.Commit? { EventCommitKeeps(cfg, s, rq, c, act.outcome); }
    case Alerting(reason) => if act.Commit? { AlertCommitKeeps(cfg, s, rq, reason, act.outcome); }
  }

  lemma StepKeeps(cfg: Config, s: Aggregator, step: Step)
    requires Invariant(cfg, s)
    ensures Invariant(cfg, Next(cfg, s, step))
  {
    var rq := step.request;
    if step.act.Begin? {
      if rq !in s.pending && rq !in s.replies { BeginKeeps(cfg, s, rq, step.act.dependencyFails); }
    } else if rq in s.pending {
      ProceedKeeps(cfg, s, rq, step.act);
    }
  }

  /** Every interleaving of requests, with any clock readings and commit outcomes, keeps the invariant. */
  lemma {:induction false} RunsKeepInvariant(cfg: Config, steps: seq<Step>)
    ensures Invariant(cfg, After(cfg, START, steps))
  {
    if steps != [] {
      RunsKeepInvariant(cfg, steps[..|steps| - 1]);
      StepKeeps(cfg, After(cfg, START, steps[..|steps| - 1]), steps[|steps| - 1]);
    }
  }

  // ---- The object ----

  /** One uninterrupted call, as steps. */
  function Script(rq: Request, dependencyFails: bool, reading: Reading, outcome: CommitOutcome): seq<Step> {
    [Step(rq, Begin(dependencyFails)), Step(rq, ReadClock(reading)), Step(rq, Lock), Step(rq, Commit(outcome))]
  }

  lemma ScriptRuns(cfg: Config, s: Aggregator, rq: Request, fails: bool, reading: Reading, outcome: CommitOutcome)
    ensures After(cfg, s, Script(rq, fails, reading, outcome)) ==
      Next(cfg, Next(cfg, Next(cfg, Next(cfg, s,
        Step(rq, Begin(fails))), Step(rq, ReadClock(reading))), Step(rq, Lock)), Step(rq, Commit(outcome)))
  {
    var script := Script(rq, fails, reading, outcome);
    assert script[..3][..2] == script[..2] && script[..2][..1] == script[..1] && script[..1][..0] == [];
    assert After(cfg, s, script[..1]) == Next(cfg, s, script[0]);
    assert After(cfg, s, script[..2]) == Next(cfg, After(cfg, s, script[..1]), script[1]);
    assert After(cfg, s, script[..3]) == Next(cfg, After(cfg, s, script[..2]), script[2]);
  }

  /** What one uninterrupted call amounts to, decision by decision. */
  function CallResult(cfg: Config, s: Aggregator, rq: Request, fails: bool, reading: Reading, outcome: CommitOutcome)
    : Aggregator
  {
    if fails then Answer(s, rq, ServiceError)
    else if !Registered(cfg, rq) then AlertCommit(s, rq, UnknownNode, outcome)
    else if !Authentic(cfg, rq) then AlertCommit(s, rq, InvalidSignature, outcome)
    else
      match Prepare(cfg.settings, ClaimOf(rq.envelope.body), reading)
      case Err(o) => if o.Rejected? then AlertCommit(s, rq, Policy(o.reason), outcome) else Answer(s, rq, ServiceError)
      case Ok(c) =>
        var (q, o) := Reserve(s.policy, c);
        if o.Accepted? then
          EventCommit(s.(policy := q, reservations := s.reservations + [Reservation(rq, c)]), rq, c, outcome)
        else if o.Rejected? then AlertCommit(s, rq, Policy(o.reason), outcome)
        else Answer(s, rq, ServiceError)
  }

  predicate NothingInFlight(s: Aggregator) {
    s.pending == map[] && s.replies == map[]
  }

  /** Without interruption the rest of a request's steps only commit its alert. */
  lemma AlertingRuns(cfg: Config, s: Aggregator, rq: Request, reason: IngestionReason, outcome: CommitOutcome)
    requires NothingInFlight(s)
    ensures var t := Advance(s, rq, Alerting(reason));
      && (forall reading :: Next(cfg, t, Step(rq, ReadClock(reading))) == t)
      && Next(cfg, t, Step(rq, Lock)) == t
      && Next(cfg, t, Step(rq, Commit(outcome))) == AlertCommit(s, rq, reason, outcome)
  {
    var t := Advance(s, rq, Alerting(reason));
    assert t.pending - {rq} == s.pending - {rq};
  }

  lemma AnsweredRuns(cfg: Config, s: Aggregator, rq: Request, reply: Reply, step: Step)
    requires s.pending == map[] && s.replies == map[rq := reply] && step.request == rq
    ensures Next(cfg, s, step) == s
  {
  }

  lemma PreparedRuns(cfg: Config, s: Aggregator, rq: Request, c: Candidate, outcome: CommitOutcome)
    requires NothingInFlight(s)
    ensures var (q, o) := Reserve(s.policy, c);
      Next(cfg, Next(cfg, Advance(s, rq, Prepared(c)), Step(rq, Lock)), Step(rq, Commit(outcome))) ==
        if o.Accepted? then
          EventCommit(s.(policy := q, reservations := s.reservations + [Reservation(rq, c)]), rq, c, outcome)
        else if o.Rejected? then AlertCommit(s, rq, Policy(o.reason), outcome)
        else Answer(s, rq, ServiceError)
  {
    var (q, o) := Reserve(s.policy, c);
    var t := Advance(s, rq, Prepared(c));
    var u := Next(cfg, t, Step(rq, Lock));
    if o.Accepted? {
      var r := s.(policy := q, reservations := s.reservations + [Reservation(rq, c)]);
      assert u.pending == Advance(r, rq, Reserved(c)).pending;
      assert u.pending - {rq} == r.pending - {rq};
    } else if o.Rejected? {
      assert u.pending == Advance(s, rq, Alerting(Policy(o.reason))).pending;
      assert u == Advance(s, rq, Alerting(Policy(o.reason)));
      AlertingRuns(cfg, s, rq, Policy(o.reason), outcome);
    } else {
      assert u.pending == map[];
      AnsweredRuns(cfg, u, rq, ServiceError, Step(rq, Commit(outcome)));
    }
  }

  lemma VerifiedRuns(cfg: Config, s: Aggregator, rq: Request, reading: Reading, outcome: CommitOutcome)
    requires NothingInFlight(s) && Authentic(cfg, rq)
    ensures
      Next(cfg, Next(cfg, Next(cfg, Advance(s, rq, Verified),
        Step(rq, ReadClock(reading))), Step(rq, Lock)), Step(rq, Commit(outcome)))
      == CallResult(cfg, s, rq, false, reading, outcome)
  {
    var t := Advance(s, rq, Verified);
    var u := Next(cfg, t, Step(rq, ReadClock(reading)));
    assert u == ClockStep(cfg, t, rq, reading);
    var prepared := Prepare(cfg.settings, ClaimOf(rq.envelope.body), reading);
    if prepared.Ok? {
      assert u.pending == Advance(s, rq, Prepared(prepared.value)).pending;
      PreparedRuns(cfg, s, rq, prepared.value, outcome);
    } else if prepared.error.Rejected? {
      var reason := Policy(prepared.error.reason);
      assert u.pending == Advance(s, rq, Alerting(reason)).pending;
      AlertingRuns(cfg, s, rq, reason, outcome);
    } else {
      assert u.pending == map[];
      AnsweredRuns(cfg, u, rq, ServiceError, Step(rq, Lock));
      AnsweredRuns(cfg, u, rq, ServiceError, Step(rq, Commit(outcome)));
    }
  }

  lemma ScriptIsCall(cfg: Config, s: Aggregator, rq: Request, fails: bool, reading: Reading, outcome: CommitOutcome)
    requires NothingInFlight(s)
    ensures After(cfg, s, Script(rq, fails, reading, outcome)) == CallResult(cfg, s, rq, fails, reading, outcome)
  {
    ScriptRuns(cfg, s, rq, fails, reading, outcome);
    var t := Next(cfg, s, Step(rq, Begin(fails)));
    assert t == BeginStep(cfg, s, rq, fails);
    if fails {
      assert t.pending == map[];
      AnsweredRuns(cfg, t, rq, ServiceError, Step(rq, ReadClock(reading)));
      AnsweredRuns(cfg, t, rq, ServiceError, Step(rq, Lock));
      AnsweredRuns(cfg, t, rq, ServiceError, Step(rq, Commit(outcome)));
    } else if !Registered(cfg, rq) {
      AlertingRuns(cfg, s, rq, UnknownNode, outcome);
    } else if !Authentic(cfg, rq) {
      AlertingRuns(cfg, s, rq, InvalidSignature, outcome);
    } else {
      VerifiedRuns(cfg, s, rq, reading, outcome);
    }
  }

  // ---- What each answer means, on the request's own fields ----

  /** The event is fresh at that instant and its protection can be represented. */
  predicate FreshAt(settings: SecuritySettings, e: DetectionEvent, reading: Reading) {
    && UsableReading(settings, reading) && Within(Micros(e.timestamp), reading.now, Skew(settings))
    && reading.now + Ttl(settings) <= MAX_MICROS && Micros(e.timestamp) + Skew(settings) <= MAX_MICROS
  }

  /** How the clock reading of a verified request is answered, on its body's own timestamp and identifiers. */
  lemma ClockAnswers(cfg: Config, s: Aggregator, rq: Request, reading: Reading)
    requires rq in s.pending && s.pending[rq] == Verified
    ensures var t, e := Next(cfg, s, Step(rq, ReadClock(reading))), rq.envelope.body;
      var time, skew := Micros(e.timestamp), Skew(cfg.settings);
      && (rq in t.pending && t.pending[rq].Prepared? <==> FreshAt(cfg.settings, e, reading))
      && (rq in t.pending && t.pending[rq].Prepared? ==>
            t.pending[rq].candidate == Candidate(Claim(e.nodeId, e.eventId, e.nonce, time), reading.now,
                                                 Max(reading.now + Ttl(cfg.settings), time + skew)))
      && (rq in t.pending && t.pending[rq] == Alerting(Policy(StaleTimestamp)) <==>
            UsableReading(cfg.settings, reading) && time < reading.now - skew)
      && (rq in t.pending && t.pending[rq] == Alerting(Policy(FutureTimestamp)) <==>
            UsableReading(cfg.settings, reading) && time > reading.now + skew)
      && (rq !in t.pending <==>
            (!UsableReading(cfg.settings, reading) ||
             (Within(time, reading.now, skew) && !FreshAt(cfg.settings, e, reading))))
  {
  }

  /** Everything a call needs before the lock. */
  predicate ReachesLock(cfg: Config, rq: Request, fails: bool, reading: Reading) {
    !fails && Authentic(cfg, rq) && FreshAt(cfg.settings, rq.envelope.body, reading)
  }

  predicate ClockIsBehind(history: seq<Candidate>, now: Instant) {
    exists i :: 0 <= i < |history| && now < history[i].now
  }

  /** An acceptance of this node's event id is still protected; likewise of its nonce. */
  predicate IdHeld(history: seq<Candidate>, e: DetectionEvent, now: Instant) {
    exists i :: 0 <= i < |history| && history[i].expiry >= now &&
      history[i].claim.nodeId == e.nodeId && history[i].claim.eventId == e.eventId
  }

  predicate NonceHeld(history: seq<Candidate>, e: DetectionEvent, now: Instant) {
    exists i :: 0 <= i < |history| && history[i].expiry >= now &&
      history[i].claim.nodeId == e.nodeId && history[i].claim.nonce == e.nonce
  }

  /** A call with these inputs after that history of acceptances stores its event unless the commit is lost. */
  predicate Admitted(cfg: Config, history: seq<Candidate>, rq: Request, fails: bool, reading: Reading) {
    && ReachesLock(cfg, rq, fails, reading) && !ClockIsBehind(history, reading.now)
    && !IdHeld(history, rq.envelope.body, reading.now) && !NonceHeld(history, rq.envelope.body, reading.now)
  }

  /** What each answer to one uninterrupted call means. */
  predicate AnswerMeans(cfg: Config, history: seq<Candidate>, rq: Request, fails: bool, reading: Reading,
                        outcome: CommitOutcome, reply: Reply)
  {
    var e := rq.envelope.body;
    var known, genuine := e.nodeId in cfg.registry, Authentic(cfg, rq);
    var usable, time, skew := UsableReading(cfg.settings, reading), Micros(e.timestamp), Skew(cfg.settings);
    var locked := ReachesLock(cfg, rq, fails, reading) && !ClockIsBehind(history, reading.now);
    && (reply == Rejection(UnknownNode) <==> !fails && !known && outcome.Committed?)
    && (reply == Rejection(InvalidSignature) <==> !fails && known && !genuine && outcome.Committed?)
    && (reply == Rejection(Policy(StaleTimestamp)) <==>
          !fails && genuine && usable && time < reading.now - skew && outcome.Committed?)
    && (reply == Rejection(Policy(FutureTimestamp)) <==>
          !fails && genuine && usable && time > reading.now + skew && outcome.Committed?)
    && (reply == Rejection(Policy(ReplayedEventId)) <==> locked && IdHeld(history, e, reading.now) && outcome.Committed?)
    && (reply == Rejection(Policy(ReplayedNonce)) <==>
          locked && !IdHeld(history, e, reading.now) && NonceHeld(history, e, reading.now) && outcome.Committed?)
    && (reply.Acceptance? <==> Admitted(cfg, history, rq, fails, reading) && outcome.Committed?)
  }

  /** The lock's answer for a fresh event, on its own fields. */
  lemma LockAnswers(cfg: Config, p: PolicyState, history: seq<Candidate>, e: DetectionEvent, reading: Reading)
    requires Reflects(history, p) && FreshAt(cfg.settings, e, reading)
    ensures var prepared := Prepare(cfg.settings, ClaimOf(e), reading);
      && prepared.Ok? && prepared.value.now == reading.now
      && var answer := Reserve(p, prepared.value).1;
      && (answer.Faulted? <==> ClockIsBehind(history, reading.now))
      && (answer == Rejected(ReplayedEventId) <==> !ClockIsBehind(history, reading.now) && IdHeld(history, e, reading.now))
      && (answer == Rejected(ReplayedNonce) <==>
            (!ClockIsBehind(history, reading.now) && !IdHeld(history, e, reading.now) && NonceHeld(history, e, reading.now)))
      && (answer.Rejected? ==> IsReplay(answer))
  {
    var c := Prepare(cfg.settings, ClaimOf(e), reading).value;
    ReserveRefinesFullHistory(history, p, c);
    assert EventIdTaken(history, c.claim, c.now) <==> IdHeld(history, e, reading.now);
    assert NonceTaken(history, c.claim, c.now) <==> NonceHeld(history, e, reading.now);
  }

  /** Before the lock: lookup, signature, clock and window decide. */
  lemma EarlyAnswers(cfg: Config, s: Aggregator, history: seq<Candidate>, rq: Request, fails: bool, reading: Reading,
                     outcome: CommitOutcome)
    requires NothingInFlight(s) && !ReachesLock(cfg, rq, fails, reading)
    ensures var t := CallResult(cfg, s, rq, fails, reading, outcome);
      && rq in t.replies && AnswerMeans(cfg, history, rq, fails, reading, outcome, t.replies[rq])
      && t.events == s.events
  {
  }

  lemma LockedAnswers(cfg: Config, s: Aggregator, history: seq<Candidate>, rq: Request, reading: Reading,
                      outcome: CommitOutcome)
    requires NothingInFlight(s) && Reflects(history, s.policy) && ReachesLock(cfg, rq, false, reading)
    ensures var t := CallResult(cfg, s, rq, false, reading, outcome);
      && rq in t.replies && AnswerMeans(cfg, history, rq, false, reading, outcome, t.replies[rq])
      && t.events == s.events + NewRows(cfg, history, rq, false, reading, outcome)
  {
    LockAnswers(cfg, s.policy, history, rq.envelope.body, reading);
    assert s.events + [] == s.events;
  }

  function NewRows(cfg: Config, history: seq<Candidate>, rq: Request, fails: bool, reading: Reading,
                   outcome: CommitOutcome): seq<EventRow>
  {
    if Admitted(cfg, history, rq, fails, reading) && outcome.Durable()
    then [EventRow(rq, rq.envelope.body, reading.now)] else []
  }

  /**
   One uninterrupted call, decided on the request's own fields, the clock reading, the commit and the history of
   acceptances: each answer exactly when it is due, and a row stored exactly when the event is admitted and kept.
   */
  lemma CallAnswers(cfg: Config, s: Aggregator, history: seq<Candidate>, rq: Request, fails: bool, reading: Reading,
                    outcome: CommitOutcome)
    requires NothingInFlight(s) && Reflects(history, s.policy)
    ensures var t := After(cfg, s, Script(rq, fails, reading, outcome));
      && rq in t.replies && AnswerMeans(cfg, history, rq, fails, reading, outcome, t.replies[rq])
      && t.events == s.events + NewRows(cfg, history, rq, fails, reading, outcome)
  {
    ScriptIsCall(cfg, s, rq, fails, reading, outcome);
    if ReachesLock(cfg, rq, fails, reading) {
      LockedAnswers(cfg, s, history, rq, reading, outcome);
    } else {
      EarlyAnswers(cfg, s, history, rq, fails, reading, outcome);
      assert s.events + [] == s.events;
    }
  }

  /** A state in which one request was answered, and what is left of it between calls. */
  predicate Settles(t: Aggregator, rq: Request, idle: Aggregator, reply: Reply) {
    t.pending == map[] && t.replies == map[rq := reply] && idle == t.(replies := map[])
  }

  lemma AnswerSettles(s: Aggregator, rq: Request, reply: Reply)
    requires NothingInFlight(s)
    ensures Settles(Answer(s, rq, reply), rq, s, reply)
  {
  }

  lemma AlertSettles(s: Aggregator, rq: Request, reason: IngestionReason, outcome: CommitOutcome)
    requires NothingInFlight(s)
    ensures Settles(AlertCommit(s, rq, reason, outcome), rq,
                    s.(alerts := s.alerts + if outcome.Durable() then [AlertFor(rq, reason)] else []),
                    if outcome.Committed? then Rejection(reason) else ServiceError)
  {
    assert s.alerts + [] == s.alerts;
  }

  lemma StoreSettles(s: Aggregator, rq: Request, c: Candidate, outcome: CommitOutcome)
    requires NothingInFlight(s)
    ensures var row := EventRow(rq, rq.envelope.body, c.now);
      var events := s.events + if outcome.Durable() then [row] else [];
      Settles(EventCommit(s, rq, c, outcome), rq, s.(events := events),
              if outcome.Committed? then Acceptance(|events|) else ServiceError)
  {
    assert s.events + [] == s.events;
  }

  class DetectionEventIngestor {
    const cfg: Config
    const policy: ReplayFreshnessPolicy
    var events: seq<EventRow>
    var alerts: seq<AlertRow>
    ghost var reservations: seq<Reservation>

    ghost predicate Valid()
      reads this, policy
    {
      policy.Valid() && policy.settings == cfg.settings
    }

    /** The ingestor between calls: nothing in flight, replies already sent. */
    ghost function Idle(): Aggregator
      reads this, policy
    {
      Aggregator(policy.View(), reservations, events, alerts, map[], map[])
    }

    constructor (cfg: Config, policy: ReplayFreshnessPolicy)
      requires policy.Valid() && policy.settings == cfg.settings
      ensures Valid() && this.cfg == cfg && this.policy == policy
      ensures Idle() == START.(policy := policy.View())
    {
      this.cfg, this.policy := cfg, policy;
      events, alerts, reservations := [], [], [];
    }

    /** Commits the alert first; only a confirmed commit lets the rejection out. */
    method RecordRejection(rq: Request, reason: IngestionReason, outcome: CommitOutcome) returns (reply: Reply)
      modifies this`alerts
      ensures alerts == old(alerts) + if outcome.Durable() then [AlertFor(rq, reason)] else []
      ensures reply == if outcome.Committed? then Rejection(reason) else ServiceError
    {
      if outcome.Durable() {
        alerts := alerts + [AlertRow(rq, Category(reason), Code(reason))];
      }
      reply := if outcome.Committed? then Rejection(reason) else ServiceError;
    }

    /** Commits the event row; the reservation made for it stays whatever the commit does. */
    method StoreEvent(rq: Request, acceptedAt: Instant, outcome: CommitOutcome) returns (reply: Reply)
      modifies this`events
      ensures events == old(events) + if outcome.Durable() then [EventRow(rq, rq.envelope.body, acceptedAt)] else []
      ensures reply == if outcome.Committed? then Acceptance(|events|) else ServiceError
    {
      if outcome.Durable() {
        events := events + [EventRow(rq, rq.envelope.body, acceptedAt)];
      }
      reply := if outcome.Committed? then Acceptance(|events|) else ServiceError;
    }

    method IngestVerified(rq: Request, reading: Reading, outcome: CommitOutcome) returns (reply: Reply)
      requires Valid() && Authentic(cfg, rq)
      modifies this, policy
      ensures Valid()
      ensures Settles(CallResult(cfg, old(Idle()), rq, false, reading, outcome), rq, Idle(), reply)
    {
      ghost var s := Idle();
      var body := rq.envelope.body;
      var claim := Claim(body.nodeId, body.eventId, body.nonce, Micros(body.timestamp));
      var o := policy.AcceptVerifiedEvent(claim, reading);
      if o.Rejected? {
        AlertSettles(s, rq, Policy(o.reason), outcome);
        reply := RecordRejection(rq, Policy(o.reason), outcome);
        return;
      }
      if o.Faulted? {
        AnswerSettles(s, rq, ServiceError);
        return ServiceError;
      }
      var candidate := Candidate(claim, o.decision.acceptedAt, o.decision.protectedUntil);
      reservations := reservations + [Reservation(rq, candidate)];
      StoreSettles(Idle(), rq, candidate, outcome);
      reply := StoreEvent(rq, o.decision.acceptedAt, outcome);
    }

    method Ingest(rq: Request, dependencyFails: bool, reading: Reading, outcome: CommitOutcome) returns (reply: Reply)
      requires Valid()
      modifies this, policy
      ensures Valid()
      ensures Settles(After(cfg, old(Idle()), Script(rq, dependencyFails, reading, outcome)), rq, Idle(), reply)
      ensures AnswerMeans(cfg, old(policy.history), rq, dependencyFails, reading, outcome, reply)
      ensures events == old(events) + NewRows(cfg, old(policy.history), rq, dependencyFails, reading, outcome)
    {
      ghost var s := Idle();
      CallAnswers(cfg, s, policy.history, rq, dependencyFails, reading, outcome);
      ScriptIsCall(cfg, s, rq, dependencyFails, reading, outcome);
      if dependencyFails {
        AnswerSettles(s, rq, ServiceError);
        return ServiceError;
      }
      var body := rq.envelope.body;
      if body.nodeId !in cfg.registry {
        AlertSettles(s, rq, UnknownNode, outcome);
        reply := RecordRejection(rq, UnknownNode, outcome);
        return;
      }
      if rq.envelope.signature != Signature(cfg.registry[body.nodeId], cfg.encode(body)) {
        AlertSettles(s, rq, InvalidSignature, outcome);
        reply := RecordRejection(rq, InvalidSignature, outcome);
        return;
      }
      reply := IngestVerified(rq, reading, outcome);
    }
  }
}
