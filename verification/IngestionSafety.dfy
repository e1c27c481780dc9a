/** What holds over every interleaving of ingestion requests and every pattern of commit failures. */
module IngestionSafety {
  import opened Prelude
  import opened Timestamps
  import opened Events
  import opened ReplayPolicy
  import opened Ingestion

  /** Some interleaving of requests, clock readings and commit outcomes leads to s. */
  ghost predicate Reachable(cfg: Config, s: Aggregator) {
    exists steps :: s == After(cfg, START, steps)
  }

  lemma ReachableInvariant(cfg: Config, s: Aggregator)
    requires Reachable(cfg, s)
    ensures Invariant(cfg, s)
  {
    var steps :| s == After(cfg, START, steps);
    RunsKeepInvariant(cfg, steps);
  }

  // ---- Rows ----

  /** The reservation behind a row. */
  lemma RowReservation(cfg: Config, s: Aggregator, i: nat) returns (k: nat)
    requires Invariant(cfg, s) && i < |s.events|
    ensures k < |s.reservations| && s.reservations[k].request == s.events[i].request
    ensures s.reservations[k].candidate.now == s.events[i].acceptedAt
    ensures GenuineReservation(cfg, s.reservations[k]) && s.events[i].body == s.events[i].request.envelope.body
  {
    assert Backed(s.reservations, s.events[i]);
    k :| 0 <= k < |s.reservations| && s.reservations[k].request == s.events[i].request
      && s.reservations[k].candidate.now == s.events[i].acceptedAt;
    assert s.reservations[k] in s.reservations;
  }

  lemma RowsAreReserved(cfg: Config, s: Aggregator)
    requires Invariant(cfg, s)
    ensures Stored(s) <= Reserving(s)
  {
    forall i | 0 <= i < |s.events| ensures s.events[i].request in Reserving(s) {
      var k := RowReservation(cfg, s, i);
      assert s.reservations[k] in s.reservations;
    }
  }

  predicate Apart(a: Instant, b: Instant, gap: int) {
    a - b > gap || b - a > gap
  }

  lemma ReservationsApart(cfg: Config, s: Aggregator, k: nat, m: nat)
    requires PolicyInvariant(cfg, s) && k < |s.reservations| && m < |s.reservations| && k != m
    requires Shares(s.reservations[k].candidate.claim, s.reservations[m].candidate.claim)
    ensures s.reservations[k].candidate.claim != s.reservations[m].candidate.claim
    ensures Apart(s.reservations[k].candidate.now, s.reservations[m].candidate.now, Ttl(cfg.settings))
  {
    var cs := Candidates(s.reservations);
    forall i | 0 <= i < |cs| ensures Admissible(cfg.settings, cs[i]) {
      assert s.reservations[i] in s.reservations;
    }
    if cs[k].claim == cs[m].claim { SameClaimNeverTwice(cfg.settings, cs, k, m); }
    if k < m { assert cs[k].expiry < cs[m].now; } else { assert cs[m].expiry < cs[k].now; }
  }

  /**
   Whatever the commits did, no event has two durable rows, every row's body was signed under its node's
   registered key, and rows sharing an identifier were accepted more than a TTL apart.
   */
  lemma OneRowPerSignedEvent(cfg: Config, s: Aggregator, i: nat, j: nat)
    requires Reachable(cfg, s) && i < j < |s.events|
    ensures s.events[i].body != s.events[j].body
    ensures Authentic(cfg, s.events[i].request) && s.events[i].body == s.events[i].request.envelope.body
    ensures var a, b := s.events[i].body, s.events[j].body;
      a.nodeId == b.nodeId && (a.eventId == b.eventId || a.nonce == b.nonce) ==>
      Apart(s.events[i].acceptedAt, s.events[j].acceptedAt, Ttl(cfg.settings))
  {
    ReachableInvariant(cfg, s);
    var k := RowReservation(cfg, s, i);
    var m := RowReservation(cfg, s, j);
    assert s.events[i].request != s.events[j].request;
    if Shares(ClaimOf(s.events[i].body), ClaimOf(s.events[j].body)) { ReservationsApart(cfg, s, k, m); }
  }

  // ---- Freshness, judged on the signed timestamp ----

  /** Every durable row was accepted within the skew of its own signed timestamp. */
  lemma RowsAreFresh(cfg: Config, s: Aggregator, i: nat)
    requires Reachable(cfg, s) && i < |s.events|
    ensures Within(Micros(s.events[i].body.timestamp), s.events[i].acceptedAt, Skew(cfg.settings))
  {
    ReachableInvariant(cfg, s);
    var k := RowReservation(cfg, s, i);
  }

  // ---- Replies ----

  lemma AcceptedRow(cfg: Config, s: Aggregator, rq: Request)
    requires Reachable(cfg, s) && rq in s.replies && s.replies[rq].Acceptance?
    ensures var id := s.replies[rq].recordId; 1 <= id <= |s.events| && s.events[id - 1].request == rq
  {
    ReachableInvariant(cfg, s);
    assert ReplyInvariant(cfg, s, rq, s.replies[rq]);
  }

  lemma RowIsAuthentic(cfg: Config, s: Aggregator, i: nat)
    requires Reachable(cfg, s) && i < |s.events|
    ensures Authentic(cfg, s.events[i].request) && s.events[i].body == s.events[i].request.envelope.body
  {
    ReachableInvariant(cfg, s);
    var k := RowReservation(cfg, s, i);
  }

  /** A returned acceptance names a durable row holding that request's own signed event. */
  lemma AcceptedMeansStored(cfg: Config, s: Aggregator, rq: Request)
    requires Reachable(cfg, s) && rq in s.replies && s.replies[rq].Acceptance?
    ensures var id := s.replies[rq].recordId;
      1 <= id <= |s.events| && s.events[id - 1].request == rq && s.events[id - 1].body == rq.envelope.body
    ensures Authentic(cfg, rq)
  {
    AcceptedRow(cfg, s, rq);
    RowIsAuthentic(cfg, s, s.replies[rq].recordId - 1);
  }

  /** An exposed rejection has exactly one durable alert, carrying the mapped category, and stored nothing. */
  lemma RejectedMeansAudited(cfg: Config, s: Aggregator, rq: Request)
    requires Reachable(cfg, s) && rq in s.replies && s.replies[rq].Rejection?
    ensures exists i :: 0 <= i < |s.alerts| && s.alerts[i] == AlertFor(rq, s.replies[rq].reason)
    ensures forall i, j :: 0 <= i < j < |s.alerts| ==> !(s.alerts[i].request == s.alerts[j].request == rq)
    ensures rq !in Stored(s) && rq !in Reserving(s)
    ensures s.replies[rq].reason.UnknownNode? <==> !Registered(cfg, rq)
    ensures s.replies[rq].reason.InvalidSignature? <==> Registered(cfg, rq) && !Authentic(cfg, rq)
  {
    ReachableInvariant(cfg, s);
    assert ReplyInvariant(cfg, s, rq, s.replies[rq]);
    RowsAreReserved(cfg, s);
  }

  function Accepts(s: Aggregator): set<Request> {
    set rq | rq in s.replies && s.replies[rq].Acceptance?
  }

  function EventRequests(s: Aggregator): (r: seq<Request>)
    ensures |r| == |s.events| && forall i :: 0 <= i < |r| ==> r[i] == s.events[i].request
  {
    seq(|s.events|, i requires 0 <= i < |s.events| => s.events[i].request)
  }

  function ReservationRequests(s: Aggregator): (r: seq<Request>)
    ensures |r| == |s.reservations| && forall i :: 0 <= i < |r| ==> r[i] == s.reservations[i].request
  {
    seq(|s.reservations|, i requires 0 <= i < |s.reservations| => s.reservations[i].request)
  }

  lemma AcceptsAreStored(cfg: Config, s: Aggregator)
    requires Invariant(cfg, s)
    ensures Accepts(s) <= SetOf(EventRequests(s)) <= SetOf(ReservationRequests(s))
  {
    forall rq | rq in Accepts(s) ensures rq in EventRequests(s) {
      assert ReplyInvariant(cfg, s, rq, s.replies[rq]);
      assert EventRequests(s)[s.replies[rq].recordId - 1] == rq;
    }
    forall rq | rq in EventRequests(s) ensures rq in ReservationRequests(s) {
      var i :| 0 <= i < |s.events| && EventRequests(s)[i] == rq;
      var k := RowReservation(cfg, s, i);
      assert ReservationRequests(s)[k] == rq;
    }
  }

  /** Conservation: never more acceptances returned than rows stored, nor more rows than reservations made. */
  lemma Conservation(cfg: Config, s: Aggregator)
    requires Reachable(cfg, s)
    ensures |Accepts(s)| <= |s.events| <= |s.reservations|
  {
    ReachableInvariant(cfg, s);
    AcceptsAreStored(cfg, s);
    DistinctSize(EventRequests(s));
    DistinctSize(ReservationRequests(s));
    SubsetSize(Accepts(s), SetOf(EventRequests(s)));
    SubsetSize(SetOf(EventRequests(s)), SetOf(ReservationRequests(s)));
  }

  /** Once an event is reserved, whatever became of its commit, no later delivery of it gets through the lock. */
  lemma RedeliveryRefused(cfg: Config, s: Aggregator, k: nat, c: Candidate)
    requires Reachable(cfg, s) && k < |s.reservations| && Admissible(cfg.settings, c)
    requires c.claim == ClaimOf(s.reservations[k].request.envelope.body)
    ensures Reserve(s.policy, c).1 in {Rejected(ReplayedEventId), Faulted(ClockMovedBackwards)}
  {
    ReachableInvariant(cfg, s);
    assert s.reservations[k] in s.reservations;
    ReservedRefused(cfg.settings, Candidates(s.reservations), s.policy, c, k);
  }

  /** A replay rejection is never spurious: an authentic request reserved that identifier, and it has not lapsed. */
  lemma ReplayRejectionHasCause(cfg: Config, s: Aggregator, c: Candidate) returns (k: nat)
    requires Reachable(cfg, s) && c.now <= c.expiry && IsReplay(Reserve(s.policy, c).1)
    ensures k < |s.reservations| && Authentic(cfg, s.reservations[k].request)
    ensures var e := s.reservations[k].request.envelope.body;
      e.nodeId == c.claim.nodeId && (e.eventId == c.claim.eventId || e.nonce == c.claim.nonce)
    ensures s.reservations[k].candidate.expiry >= c.now
  {
    ReachableInvariant(cfg, s);
    k := ReplayHasCause(Candidates(s.reservations), s.policy, c);
    assert s.reservations[k] in s.reservations;
  }

  // ---- Authentication comes before reservation ----

  /** Only the steps of requests from registered nodes with good signatures. */
  function Keep(cfg: Config, steps: seq<Step>): seq<Step> {
    if steps == [] then []
    else
      var n := |steps| - 1;
      if Authentic(cfg, steps[n].request) then Keep(cfg, steps[..n]) + [steps[n]] else Keep(cfg, steps[..n])
  }

  function KeepAlerts(cfg: Config, alerts: seq<AlertRow>): seq<AlertRow> {
    if alerts == [] then []
    else
      var n := |alerts| - 1;
      if Authentic(cfg, alerts[n].request) then KeepAlerts(cfg, alerts[..n]) + [alerts[n]]
      else KeepAlerts(cfg, alerts[..n])
  }

  function Restrict<T>(cfg: Config, m: map<Request, T>): map<Request, T> {
    map rq | rq in m && Authentic(cfg, rq) :: m[rq]
  }

  lemma RestrictUpdate<T>(cfg: Config, m: map<Request, T>, rq: Request, v: T)
    ensures Restrict(cfg, m[rq := v]) == if Authentic(cfg, rq) then Restrict(cfg, m)[rq := v] else Restrict(cfg, m)
  {
  }

  lemma RestrictRemove<T>(cfg: Config, m: map<Request, T>, rq: Request)
    ensures Restrict(cfg, m - {rq}) == Restrict(cfg, m) - {rq}
    ensures !Authentic(cfg, rq) ==> Restrict(cfg, m - {rq}) == Restrict(cfg, m)
  {
  }

  /** What remains of a state when every unauthenticated request is erased from it. */
  function Project(cfg: Config, s: Aggregator): Aggregator {
    s.(alerts := KeepAlerts(cfg, s.alerts), pending := Restrict(cfg, s.pending), replies := Restrict(cfg, s.replies))
  }

  lemma ProjectAnswer(cfg: Config, s: Aggregator, rq: Request, reply: Reply)
    ensures Project(cfg, Answer(s, rq, reply)) ==
      if Authentic(cfg, rq) then Answer(Project(cfg, s), rq, reply) else Project(cfg, s)
  {
    RestrictRemove(cfg, s.pending, rq);
    RestrictUpdate(cfg, s.replies, rq, reply);
  }

  lemma ProjectAdvance(cfg: Config, s: Aggregator, rq: Request, phase: Phase)
    ensures Project(cfg, Advance(s, rq, phase)) ==
      if Authentic(cfg, rq) then Advance(Project(cfg, s), rq, phase) else Project(cfg, s)
  {
    RestrictUpdate(cfg, s.pending, rq, phase);
  }

  lemma ProjectAlert(cfg: Config, s: Aggregator, rq: Request, reason: IngestionReason, outcome: CommitOutcome)
    ensures Authentic(cfg, rq) ==>
      Project(cfg, AlertCommit(s, rq, reason, outcome)) == AlertCommit(Project(cfg, s), rq, reason, outcome)
    ensures !Authentic(cfg, rq) ==> Project(cfg, AlertCommit(s, rq, reason, outcome)) == Project(cfg, s)
  {
    var t := if outcome.Durable() then s.(alerts := s.alerts + [AlertFor(rq, reason)]) else s;
    assert t.alerts[..|t.alerts| - (if outcome.Durable() then 1 else 0)] == s.alerts;
    ProjectAnswer(cfg, t, rq, if outcome.Committed? then Rejection(reason) else ServiceError);
  }

  lemma ProjectProceed(cfg: Config, s: Aggregator, rq: Request, phase: Phase, act: Act)
    requires PolicyInvariant(cfg, s) && PhaseInvariant(cfg, s, rq, phase)
    ensures Project(cfg, Proceed(cfg, s, rq, phase, act)) ==
      if Authentic(cfg, rq) then Proceed(cfg, Project(cfg, s), rq, phase, act) else Project(cfg, s)
  {
    match phase
    case Verified => if act.ReadClock? { ProjectClock(cfg, s, rq, act.reading); }
    case Prepared(c) => if act.Lock? { ProjectLock(cfg, s, rq, c); }
    case Reserved(c) =>
      assert GenuineReservation(cfg, Reservation(rq, c));
      if act.Commit? { ProjectEventCommit(cfg, s, rq, c, act.outcome); }
    case Alerting(reason) => if act.Commit? { ProjectAlert(cfg, s, rq, reason, act.outcome); }
  }

  /** A step of an unauthenticated request leaves the projection alone; any other step commutes with it. */
  lemma ProjectStep(cfg: Config, s: Aggregator, step: Step)
    requires Invariant(cfg, s)
    ensures Project(cfg, Next(cfg, s, step)) ==
      if Authentic(cfg, step.request) then Next(cfg, Project(cfg, s), step) else Project(cfg, s)
  {
    var rq := step.request;
    if step.act.Begin? {
      if rq !in s.pending && rq !in s.replies { ProjectBegin(cfg, s, rq, step.act.dependencyFails); }
    } else if rq in s.pending {
      assert PhaseInvariant(cfg, s, rq, s.pending[rq]);
      ProjectProceed(cfg, s, rq, s.pending[rq], step.act);
    }
  }

  lemma ProjectBegin(cfg: Config, s: Aggregator, rq: Request, fails: bool)
    ensures Project(cfg, BeginStep(cfg, s, rq, fails)) ==
      if Authentic(cfg, rq) then BeginStep(cfg, Project(cfg, s), rq, fails) else Project(cfg, s)
  {
    ProjectAnswer(cfg, s, rq, ServiceError);
    ProjectAdvance(cfg, s, rq, Verified);
    ProjectAdvance(cfg, s, rq, Alerting(UnknownNode));
    ProjectAdvance(cfg, s, rq, Alerting(InvalidSignature));
  }

  lemma ProjectRefuse(cfg: Config, s: Aggregator, rq: Request, o: Outcome)
    requires Authentic(cfg, rq)
    ensures Project(cfg, Refuse(s, rq, o)) == Refuse(Project(cfg, s), rq, o)
  {
    if o.Rejected? { ProjectAdvance(cfg, s, rq, Alerting(Policy(o.reason))); }
    else { ProjectAnswer(cfg, s, rq, ServiceError); }
  }

  lemma ProjectClock(cfg: Config, s: Aggregator, rq: Request, reading: Reading)
    requires Authentic(cfg, rq)
    ensures Project(cfg, ClockStep(cfg, s, rq, reading)) == ClockStep(cfg, Project(cfg, s), rq, reading)
  {
    match Prepare(cfg.settings, ClaimOf(rq.envelope.body), reading)
    case Ok(c) => ProjectAdvance(cfg, s, rq, Prepared(c));
    case Err(o) => ProjectRefuse(cfg, s, rq, o);
  }

  lemma ProjectLock(cfg: Config, s: Aggregator, rq: Request, c: Candidate)
    requires Authentic(cfg, rq)
    ensures Project(cfg, LockStep(s, rq, c)) == LockStep(Project(cfg, s), rq, c)
  {
    var (q, o) := Reserve(s.policy, c);
    if o.Accepted? {
      var t := s.(policy := q, reservations := s.reservations + [Reservation(rq, c)]);
      ProjectAdvance(cfg, t, rq, Reserved(c));
      assert Project(cfg, t) == Project(cfg, s).(policy := q, reservations := t.reservations);
    } else {
      ProjectRefuse(cfg, s, rq, o);
    }
  }

  lemma ProjectEventCommit(cfg: Config, s: Aggregator, rq: Request, c: Candidate, outcome: CommitOutcome)
    requires Authentic(cfg, rq)
    ensures Project(cfg, EventCommit(s, rq, c, outcome)) == EventCommit(Project(cfg, s), rq, c, outcome)
  {
    var row := EventRow(rq, rq.envelope.body, c.now);
    var t := if outcome.Durable() then s.(events := s.events + [row]) else s;
    assert Project(cfg, t) == Project(cfg, s).(events := t.events);
    ProjectAnswer(cfg, t, rq, if outcome.Committed? then Acceptance(|t.events|) else ServiceError);
  }

  /**
   Unknown nodes and bad signatures cannot touch replay state: erasing all their requests from a run leaves the
   policy, the reservations, the event rows and every other request's phase and reply exactly as they were.
   */
  lemma {:induction false} AuthenticationBeforeReservation(cfg: Config, steps: seq<Step>)
    ensures After(cfg, START, Keep(cfg, steps)) == Project(cfg, After(cfg, START, steps))
  {
    if steps == [] {
      assert Project(cfg, START) == START;
    } else {
      var n := |steps| - 1;
      AuthenticationBeforeReservation(cfg, steps[..n]);
      RunsKeepInvariant(cfg, steps[..n]);
      ProjectStep(cfg, After(cfg, START, steps[..n]), steps[n]);
      if Authentic(cfg, steps[n].request) {
        assert (Keep(cfg, steps[..n]) + [steps[n]])[..|Keep(cfg, steps[..n])|] == Keep(cfg, steps[..n]);
      }
    }
  }
}
