/**
 The replay and freshness policy (security.py): the object, its specification over the full
 history of acceptances, and what holds over every interleaving of calls.
 */
module ReplayPolicy {
  import opened Prelude
  import opened Timestamps

  // ---- Inputs and outcomes ----

  const SECOND: int := 1000000

  datatype Settings = Settings(maxClockSkewSeconds: int, nonceTtlSeconds: int)

  type SecuritySettings = s: Settings | 1 <= s.maxClockSkewSeconds <= 3600 && 1 <= s.nonceTtlSeconds <= 86400
    witness Settings(1, 1)

  function Skew(s: SecuritySettings): (t: int) { s.maxClockSkewSeconds * SECOND }

  function Ttl(s: SecuritySettings): (t: int) { s.nonceTtlSeconds * SECOND }

  /** The fields of a verified event that the policy reads. */
  datatype Claim = Claim(nodeId: string, eventId: string, nonce: string, time: Instant)

  /** What one reading of the injected clock yields. */
  datatype Reading = ClockRaised | NotUtc | Utc(now: Instant)

  datatype Reason = StaleTimestamp | FutureTimestamp | ReplayedEventId | ReplayedNonce

  datatype Fault = ClockFailed | ClockNotUtc | TimeOutOfRange | ClockMovedBackwards

  datatype Decision = Decision(acceptedAt: Instant, protectedUntil: Instant)

  datatype Outcome = Accepted(decision: Decision) | Rejected(reason: Reason) | Faulted(fault: Fault)

  datatype ReplayKey = EventIdKey(nodeId: string, id: string) | NonceKey(nodeId: string, id: string)

  function EventKey(c: Claim): ReplayKey { EventIdKey(c.nodeId, c.eventId) }

  function NonceKeyOf(c: Claim): ReplayKey { NonceKey(c.nodeId, c.nonce) }

  /** Same node, and the same event id or the same nonce. */
  predicate Shares(a: Claim, b: Claim) {
    a.nodeId == b.nodeId && (a.eventId == b.eventId || a.nonce == b.nonce)
  }

  /** The two keys of a claim stand for exactly its node with its event id, and its node with its nonce. */
  lemma KeysAreFields(a: Claim, b: Claim)
    ensures EventKey(a) == EventKey(b) <==> a.nodeId == b.nodeId && a.eventId == b.eventId
    ensures NonceKeyOf(a) == NonceKeyOf(b) <==> a.nodeId == b.nodeId && a.nonce == b.nonce
    ensures EventKey(a) != NonceKeyOf(b)
  {
  }

  // ---- Before the lock: clock and window ----

  /** A claim that passed the window at instant now, and the instant its reservation lapses. */
  datatype Candidate = Candidate(claim: Claim, now: Instant, expiry: Instant)

  function Max(a: int, b: int): int { if a < b then b else a }

  function Prepare(s: SecuritySettings, claim: Claim, reading: Reading): Result<Candidate, Outcome> {
    match reading
    case ClockRaised => Err(Faulted(ClockFailed))
    case NotUtc => Err(Faulted(ClockNotUtc))
    case Utc(now) =>
      if !Representable(now - Skew(s)) || !Representable(now + Skew(s)) then Err(Faulted(TimeOutOfRange))
      else if claim.time < now - Skew(s) then Err(Rejected(StaleTimestamp))
      else if claim.time > now + Skew(s) then Err(Rejected(FutureTimestamp))
      else if !Representable(now + Ttl(s)) || !Representable(claim.time + Skew(s)) then Err(Faulted(TimeOutOfRange))
      else Ok(Candidate(claim, now, Max(now + Ttl(s), claim.time + Skew(s))))
  }

  /** What every candidate satisfies, whichever call and reading it came from. */
  predicate Admissible(s: SecuritySettings, c: Candidate) {
    && c.now - Skew(s) <= c.claim.time <= c.now + Skew(s)
    && c.expiry == Max(c.now + Ttl(s), c.claim.time + Skew(s))
  }

  /** Whatever passes the window is admissible, at the instant that was read. */
  lemma PreparedAdmissible(s: SecuritySettings, claim: Claim, reading: Reading)
    requires Prepare(s, claim, reading).Ok?
    ensures var c := Prepare(s, claim, reading).value;
      Admissible(s, c) && c.claim == claim && reading == Utc(c.now)
  {
  }

  /** a lies within d of b, both ends included. */
  predicate Within(a: int, b: int, d: int) {
    -d <= a - b <= d
  }

  /** The clock gave an instant whose window is inside datetime's range. */
  predicate UsableReading(s: SecuritySettings, reading: Reading) {
    reading.Utc? && 0 <= reading.now - Skew(s) && reading.now + Skew(s) <= MAX_MICROS
  }

  /** A second of the settings is a second of the calendar. */
  lemma SecondIsCalendar(d: DateTime)
    requires d.second < 59
    ensures Micros(d.(second := d.second + 1)) == Micros(d) + SECOND
  {
  }

  /** Exactly which calls reach the lock, which are refused and on which side, and which are faults. */
  lemma PreparedExactly(s: SecuritySettings, claim: Claim, reading: Reading)
    ensures Prepare(s, claim, reading).Ok? <==>
      (reading.Utc? && Within(claim.time, reading.now, Skew(s)) &&
       0 <= reading.now - Skew(s) && reading.now + Max(Skew(s), Ttl(s)) <= MAX_MICROS && claim.time + Skew(s) <= MAX_MICROS)
    ensures Prepare(s, claim, reading) == Err(Rejected(StaleTimestamp)) <==>
      UsableReading(s, reading) && claim.time < reading.now - Skew(s)
    ensures Prepare(s, claim, reading) == Err(Rejected(FutureTimestamp)) <==>
      UsableReading(s, reading) && claim.time > reading.now + Skew(s)
    ensures Prepare(s, claim, reading) == Err(Faulted(ClockFailed)) <==> reading.ClockRaised?
    ensures Prepare(s, claim, reading) == Err(Faulted(ClockNotUtc)) <==> reading.NotUtc?
  {
  }

  // ---- Under the lock ----

  datatype PolicyState = PolicyState(seen: map<ReplayKey, Instant>, latest: Option<Instant>)

  const FRESH: PolicyState := PolicyState(map[], None)

  function Retained(seen: map<ReplayKey, Instant>, now: Instant): map<ReplayKey, Instant> {
    map k | k in seen && seen[k] >= now :: seen[k]
  }

  function Reserve(p: PolicyState, c: Candidate): (PolicyState, Outcome) {
    if p.latest.Some? && c.now < p.latest.value then (p, Faulted(ClockMovedBackwards))
    else
      var retained := Retained(p.seen, c.now);
      if EventKey(c.claim) in retained then (p, Rejected(ReplayedEventId))
      else if NonceKeyOf(c.claim) in retained then (p, Rejected(ReplayedNonce))
      else
        (PolicyState(retained[EventKey(c.claim) := c.expiry][NonceKeyOf(c.claim) := c.expiry], Some(c.now)),
         Accepted(Decision(c.now, c.expiry)))
  }

  // ---- The specification: every acceptance remembered for ever ----

  /** An acceptance of the claim's node with its event id still protects it at instant now. */
  predicate EventIdTaken(history: seq<Candidate>, c: Claim, now: Instant) {
    exists i :: 0 <= i < |history| &&
      history[i].claim.nodeId == c.nodeId && history[i].claim.eventId == c.eventId && history[i].expiry >= now
  }

  predicate NonceTaken(history: seq<Candidate>, c: Claim, now: Instant) {
    exists i :: 0 <= i < |history| &&
      history[i].claim.nodeId == c.nodeId && history[i].claim.nonce == c.nonce && history[i].expiry >= now
  }

  predicate Behind(history: seq<Candidate>, now: Instant) {
    exists i :: 0 <= i < |history| && now < history[i].now
  }

  function FullHistoryOutcome(history: seq<Candidate>, c: Candidate): Outcome {
    if Behind(history, c.now) then Faulted(ClockMovedBackwards)
    else if EventIdTaken(history, c.claim, c.now) then Rejected(ReplayedEventId)
    else if NonceTaken(history, c.claim, c.now) then Rejected(ReplayedNonce)
    else Accepted(Decision(c.now, c.expiry))
  }

  function Remember(history: seq<Candidate>, c: Candidate, o: Outcome): seq<Candidate> {
    if o.Accepted? then history + [c] else history
  }

  /** Acceptances happen at non-decreasing instants. */
  predicate Ordered(history: seq<Candidate>) {
    forall i, j :: 0 <= i <= j < |history| ==> history[i].now <= history[j].now
  }

  /** A shared identifier is accepted again only after the earlier acceptance's protection lapsed. */
  predicate Separated(history: seq<Candidate>) {
    forall i, j :: 0 <= i < j < |history| && Shares(history[i].claim, history[j].claim) ==>
      history[i].expiry < history[j].now
  }

  // ---- The pruned map refines the full history ----

  predicate Reserves(c: Candidate, k: ReplayKey) {
    k == EventKey(c.claim) || k == NonceKeyOf(c.claim)
  }

  /** Some acceptance reserved k and its protection still covers instant now. */
  predicate Covered(history: seq<Candidate>, k: ReplayKey, now: Instant) {
    exists i :: 0 <= i < |history| && Reserves(history[i], k) && history[i].expiry >= now
  }

  lemma TakenIsCovered(history: seq<Candidate>, c: Claim, now: Instant)
    ensures EventIdTaken(history, c, now) <==> Covered(history, EventKey(c), now)
    ensures NonceTaken(history, c, now) <==> Covered(history, NonceKeyOf(c), now)
  {
    forall i | 0 <= i < |history|
      ensures Reserves(history[i], EventKey(c)) <==> history[i].claim.nodeId == c.nodeId && history[i].claim.eventId == c.eventId
      ensures Reserves(history[i], NonceKeyOf(c)) <==> history[i].claim.nodeId == c.nodeId && history[i].claim.nonce == c.nonce
    {
      KeysAreFields(history[i].claim, c);
    }
  }

  /** The expiry of the most recent acceptance that reserved k. */
  function LastExpiry(history: seq<Candidate>, k: ReplayKey): Option<Instant> {
    if history == [] then None
    else
      var last := history[|history| - 1];
      if Reserves(last, k) then Some(last.expiry) else LastExpiry(history[..|history| - 1], k)
  }

  function LatestOf(history: seq<Candidate>): Option<Instant> {
    if history == [] then None else Some(history[|history| - 1].now)
  }

  /** The pruned map holds exactly the reservations that have not lapsed at the latest acceptance. */
  ghost predicate Prunes(history: seq<Candidate>, p: PolicyState) {
    && p.latest == LatestOf(history)
    && forall k ::
      && (k in p.seen <==> LastExpiry(history, k).Some? && LastExpiry(history, k).value >= p.latest.value)
      && (k in p.seen ==> p.seen[k] == LastExpiry(history, k).value)
  }

  ghost predicate Reflects(history: seq<Candidate>, p: PolicyState) {
    Ordered(history) && Separated(history) && Prunes(history, p)
  }

  lemma BehindIsBelowLatest(history: seq<Candidate>, now: Instant)
    requires Ordered(history)
    ensures Behind(history, now) <==> LatestOf(history).Some? && now < LatestOf(history).value
  {
    if history != [] {
      var last := history[|history| - 1];
      if now < last.now { assert now < history[|history| - 1].now; }
    }
  }

  lemma {:induction false} LastExpiryFrom(history: seq<Candidate>, k: ReplayKey)
    requires LastExpiry(history, k).Some?
    ensures exists i: nat :: i < |history| && Reserves(history[i], k) && history[i].expiry == LastExpiry(history, k).value
  {
    var n := |history| - 1;
    if Reserves(history[n], k) {
      assert history[n].expiry == LastExpiry(history, k).value;
    } else {
      LastExpiryFrom(history[..n], k);
      var i: nat :| i < n && Reserves(history[..n][i], k) && history[..n][i].expiry == LastExpiry(history, k).value;
      assert Reserves(history[i], k);
    }
  }

  lemma {:induction false} CoveringIsLast(history: seq<Candidate>, k: ReplayKey, now: Instant, i: nat)
    requires Ordered(history) && Separated(history) && (history != [] ==> history[|history| - 1].now <= now)
    requires i < |history| && Reserves(history[i], k) && history[i].expiry >= now
    ensures LastExpiry(history, k) == Some(history[i].expiry)
  {
    var n := |history| - 1;
    if i < n {
      assert history[n - 1].now <= history[n].now;
      CoveringIsLast(history[..n], k, now, i);
    }
  }

  lemma LastExpiryDecides(history: seq<Candidate>, k: ReplayKey, now: Instant)
    requires Ordered(history) && Separated(history) && !Behind(history, now)
    ensures Covered(history, k, now) <==> LastExpiry(history, k).Some? && LastExpiry(history, k).value >= now
  {
    BehindIsBelowLatest(history, now);
    if Covered(history, k, now) {
      var i :| 0 <= i < |history| && Reserves(history[i], k) && history[i].expiry >= now;
      CoveringIsLast(history, k, now, i);
    }
    if LastExpiry(history, k).Some? { LastExpiryFrom(history, k); }
  }

  /** For a clock that has not gone back, the pruned map answers as the full history would. */
  lemma PrunedAnswers(history: seq<Candidate>, p: PolicyState, k: ReplayKey, now: Instant)
    requires Reflects(history, p) && !Behind(history, now)
    ensures k in Retained(p.seen, now) <==> Covered(history, k, now)
  {
    BehindIsBelowLatest(history, now);
    LastExpiryDecides(history, k, now);
  }

  lemma AcceptKeepsOrder(history: seq<Candidate>, c: Candidate)
    requires Ordered(history) && !Behind(history, c.now)
    ensures Ordered(history + [c])
  {
    forall i | 0 <= i < |history| ensures history[i].now <= c.now {
      assert !(c.now < history[i].now);
    }
  }

  lemma AcceptKeepsSeparation(history: seq<Candidate>, c: Candidate)
    requires Separated(history)
    requires !EventIdTaken(history, c.claim, c.now) && !NonceTaken(history, c.claim, c.now)
    ensures Separated(history + [c])
  {
  }

  lemma AcceptKeepsPruning(history: seq<Candidate>, p: PolicyState, c: Candidate)
    requires Prunes(history, p) && Reserve(p, c).1.Accepted? && c.now <= c.expiry
    ensures Prunes(history + [c], Reserve(p, c).0)
  {
    var h, q := history + [c], Reserve(p, c).0;
    assert h[..|h| - 1] == history;
    forall k
      ensures k in q.seen <==> LastExpiry(h, k).Some? && LastExpiry(h, k).value >= c.now
      ensures k in q.seen ==> q.seen[k] == LastExpiry(h, k).value
    {
      assert LastExpiry(h, k) == if Reserves(c, k) then Some(c.expiry) else LastExpiry(history, k);
    }
  }

  /** Deciding on the pruned map is deciding on the full history, and keeps the two in step. */
  lemma ReserveRefinesFullHistory(history: seq<Candidate>, p: PolicyState, c: Candidate)
    requires Reflects(history, p) && c.now <= c.expiry
    ensures Reserve(p, c).1 == FullHistoryOutcome(history, c)
    ensures !Reserve(p, c).1.Accepted? ==> Reserve(p, c).0 == p
    ensures Reflects(Remember(history, c, Reserve(p, c).1), Reserve(p, c).0)
  {
    BehindIsBelowLatest(history, c.now);
    TakenIsCovered(history, c.claim, c.now);
    if !Behind(history, c.now) {
      PrunedAnswers(history, p, EventKey(c.claim), c.now);
      PrunedAnswers(history, p, NonceKeyOf(c.claim), c.now);
      if Reserve(p, c).1.Accepted? {
        AcceptKeepsOrder(history, c);
        AcceptKeepsSeparation(history, c);
        AcceptKeepsPruning(history, p, c);
      }
    }
  }

  predicate IsReplay(o: Outcome) {
    o == Rejected(ReplayedEventId) || o == Rejected(ReplayedNonce)
  }

  /** A replay rejection points at an unlapsed acceptance of the same identifier. */
  lemma ReplayHasCause(history: seq<Candidate>, p: PolicyState, c: Candidate) returns (k: nat)
    requires Reflects(history, p) && c.now <= c.expiry && IsReplay(Reserve(p, c).1)
    ensures k < |history| && Shares(history[k].claim, c.claim) && history[k].expiry >= c.now
  {
    ReserveRefinesFullHistory(history, p, c);
    assert EventIdTaken(history, c.claim, c.now) || NonceTaken(history, c.claim, c.now);
    k :| 0 <= k < |history| && Shares(history[k].claim, c.claim) && history[k].expiry >= c.now;
  }

  /** A claim once accepted is refused from then on, at any instant its window still admits. */
  lemma ReservedRefused(s: SecuritySettings, history: seq<Candidate>, p: PolicyState, c: Candidate, k: nat)
    requires Reflects(history, p) && Admissible(s, c)
    requires k < |history| && history[k].claim == c.claim && Admissible(s, history[k])
    ensures Reserve(p, c).1 in {Rejected(ReplayedEventId), Faulted(ClockMovedBackwards)}
  {
    ReserveRefinesFullHistory(history, p, c);
    assert history[k].claim.eventId == c.claim.eventId && history[k].expiry >= c.now;
  }

  // ---- The object ----

  class ReplayFreshnessPolicy {
    const settings: SecuritySettings
    var seen: map<ReplayKey, Instant>
    var latestAcceptedAt: Option<Instant>
    ghost var history: seq<Candidate>

    ghost predicate Valid()
      reads this
    {
      Reflects(history, View()) && forall i :: 0 <= i < |history| ==> Admissible(settings, history[i])
    }

    ghost function View(): PolicyState
      reads this
    {
      PolicyState(seen, latestAcceptedAt)
    }

    constructor (settings: SecuritySettings)
      ensures Valid() && this.settings == settings && View() == FRESH && history == []
    {
      this.settings := settings;
      seen, latestAcceptedAt, history := map[], None, [];
    }

    /** The critical section: check the high-water mark, prune, check both keys, publish both at once. */
    method ReserveLocked(c: Candidate) returns (o: Outcome)
      requires Valid() && Admissible(settings, c)
      modifies this
      ensures Valid()
      ensures o == FullHistoryOutcome(old(history), c) && history == Remember(old(history), c, o)
      ensures (View(), o) == Reserve(old(View()), c)
      ensures !o.Accepted? ==> View() == old(View())
    {
      ReserveRefinesFullHistory(history, View(), c);
      if latestAcceptedAt.Some? && c.now < latestAcceptedAt.value {
        return Faulted(ClockMovedBackwards);
      }
      var retained := Retained(seen, c.now);
      if EventKey(c.claim) in retained {
        return Rejected(ReplayedEventId);
      }
      if NonceKeyOf(c.claim) in retained {
        return Rejected(ReplayedNonce);
      }
      retained := retained[EventKey(c.claim) := c.expiry][NonceKeyOf(c.claim) := c.expiry];
      seen := retained;
      latestAcceptedAt := Some(c.now);
      history := history + [c];
      o := Accepted(Decision(c.now, c.expiry));
    }

    /** Everything before the lock: the clock reading, the window and the expiry; no state is touched. */
    method Admit(claim: Claim, reading: Reading) returns (r: Result<Candidate, Outcome>)
      ensures r == Prepare(settings, claim, reading)
    {
      if reading.ClockRaised? {
        return Err(Faulted(ClockFailed));
      }
      if reading.NotUtc? {
        return Err(Faulted(ClockNotUtc));
      }
      var now := reading.now;
      var skew := settings.maxClockSkewSeconds * SECOND;
      if !Representable(now - skew) || !Representable(now + skew) {
        return Err(Faulted(TimeOutOfRange));
      }
      if claim.time < now - skew {
        return Err(Rejected(StaleTimestamp));
      }
      if claim.time > now + skew {
        return Err(Rejected(FutureTimestamp));
      }
      var ttlExpiry := now + settings.nonceTtlSeconds * SECOND;
      var freshnessExpiry := claim.time + skew;
      if !Representable(ttlExpiry) || !Representable(freshnessExpiry) {
        return Err(Faulted(TimeOutOfRange));
      }
      return Ok(Candidate(claim, now, Max(ttlExpiry, freshnessExpiry)));
    }

    method AcceptVerifiedEvent(claim: Claim, reading: Reading) returns (o: Outcome)
      requires Valid()
      modifies this
      ensures Valid()
      ensures var prepared := Prepare(settings, claim, reading);
        if prepared.Err? then o == prepared.error && View() == old(View()) && history == old(history)
        else
          && o == FullHistoryOutcome(old(history), prepared.value)
          && history == Remember(old(history), prepared.value, o)
          && (View(), o) == Reserve(old(View()), prepared.value)
      ensures !o.Accepted? ==> View() == old(View()) && history == old(history)
    {
      var prepared := Admit(claim, reading);
      if prepared.Err? {
        return prepared.error;
      }
      PreparedAdmissible(settings, claim, reading);
      o := ReserveLocked(prepared.value);
    }
  }

  // ---- Every interleaving of calls ----

  /** StartCall is everything a call does before taking the lock; FinishCall is its critical section. */
  datatype CallStep = StartCall(call: nat, claim: Claim, reading: Reading) | FinishCall(call: nat)

  datatype Run = Run(policy: PolicyState, waiting: map<nat, Candidate>, history: seq<Candidate>)

  function NextCall(s: SecuritySettings, r: Run, step: CallStep): Run {
    match step
    case StartCall(call, claim, reading) =>
      var prepared := Prepare(s, claim, reading);
      if call !in r.waiting && prepared.Ok? then r.(waiting := r.waiting[call := prepared.value]) else r
    case FinishCall(call) =>
      if call !in r.waiting then r
      else
        var c := r.waiting[call];
        var (q, o) := Reserve(r.policy, c);
        Run(q, r.waiting - {call}, Remember(r.history, c, o))
  }

  function AfterCalls(s: SecuritySettings, steps: seq<CallStep>): Run {
    if steps == [] then Run(FRESH, map[], [])
    else NextCall(s, AfterCalls(s, steps[..|steps| - 1]), steps[|steps| - 1])
  }

  ghost predicate RunInvariant(s: SecuritySettings, r: Run) {
    && Reflects(r.history, r.policy)
    && (forall i :: 0 <= i < |r.history| ==> Admissible(s, r.history[i]))
    && (forall call :: call in r.waiting ==> Admissible(s, r.waiting[call]))
  }

  lemma {:induction false} CallsKeepInvariant(s: SecuritySettings, steps: seq<CallStep>)
    ensures RunInvariant(s, AfterCalls(s, steps))
  {
    if steps != [] {
      CallsKeepInvariant(s, steps[..|steps| - 1]);
      var r := AfterCalls(s, steps[..|steps| - 1]);
      match steps[|steps| - 1]
      case StartCall(call, claim, reading) =>
        if Prepare(s, claim, reading).Ok? { PreparedAdmissible(s, claim, reading); }
      case FinishCall(call) =>
        if call in r.waiting { ReserveRefinesFullHistory(r.history, r.policy, r.waiting[call]); }
    }
  }

  /** An event whose signed timestamp is fixed can never be accepted again, however the clock moves. */
  lemma SameClaimNeverTwice(s: SecuritySettings, history: seq<Candidate>, i: nat, j: nat)
    requires Separated(history) && forall k :: 0 <= k < |history| ==> Admissible(s, history[k])
    requires i < |history| && j < |history| && history[i].claim == history[j].claim
    ensures i == j
  {
    if i < j { assert Shares(history[i].claim, history[j].claim); }
    if j < i { assert Shares(history[j].claim, history[i].claim); }
  }

  /**
   Replay safety over whole runs: two acceptances sharing an identifier are separated by the first
   one's protection, and no claim is ever accepted twice.
   */
  lemma WholeRunReplaySafety(s: SecuritySettings, steps: seq<CallStep>)
    ensures var h := AfterCalls(s, steps).history;
      && (forall i, j :: 0 <= i < j < |h| && h[i].claim.nodeId == h[j].claim.nodeId ==>
            (h[i].claim.eventId == h[j].claim.eventId ==> h[i].expiry < h[j].now) &&
            (h[i].claim.nonce == h[j].claim.nonce ==> h[i].expiry < h[j].now))
      && (forall i, j :: 0 <= i < j < |h| ==> h[i].claim != h[j].claim)
  {
    CallsKeepInvariant(s, steps);
    var h := AfterCalls(s, steps).history;
    forall i, j | 0 <= i < j < |h| ensures h[i].claim != h[j].claim {
      if h[i].claim == h[j].claim { SameClaimNeverTwice(s, h, i, j); }
    }
    forall i, j | 0 <= i < j < |h| && h[i].claim.nodeId == h[j].claim.nodeId
      ensures h[i].claim.eventId == h[j].claim.eventId || h[i].claim.nonce == h[j].claim.nonce ==> h[i].expiry < h[j].now
    {
    }
  }

  /** In every reachable state the lock decides exactly as a policy that forgets nothing. */
  lemma EveryDecisionIsFullHistory(s: SecuritySettings, steps: seq<CallStep>, call: nat)
    requires call in AfterCalls(s, steps).waiting
    ensures var r := AfterCalls(s, steps);
      Reserve(r.policy, r.waiting[call]).1 == FullHistoryOutcome(r.history, r.waiting[call])
  {
    CallsKeepInvariant(s, steps);
    var r := AfterCalls(s, steps);
    ReserveRefinesFullHistory(r.history, r.policy, r.waiting[call]);
  }

  /**
   What the critical section answers in every reachable state, on the claim's own fields: an event id is refused
   exactly while an acceptance from the same node with that event id is protected, a nonce likewise when the event
   id is not, and otherwise the call is accepted, provided the clock has not gone back.
   */
  lemma CriticalSectionAnswers(s: SecuritySettings, steps: seq<CallStep>, call: nat)
    requires call in AfterCalls(s, steps).waiting
    ensures var r := AfterCalls(s, steps);
      var h, c, answer := r.history, r.waiting[call], Reserve(r.policy, r.waiting[call]).1;
      var behind := exists i :: 0 <= i < |h| && c.now < h[i].now;
      var idTaken := (exists i :: 0 <= i < |h| && h[i].expiry >= c.now &&
                        h[i].claim.nodeId == c.claim.nodeId && h[i].claim.eventId == c.claim.eventId);
      var nonceTaken := (exists i :: 0 <= i < |h| && h[i].expiry >= c.now &&
                           h[i].claim.nodeId == c.claim.nodeId && h[i].claim.nonce == c.claim.nonce);
      && (answer == Faulted(ClockMovedBackwards) <==> behind)
      && (answer == Rejected(ReplayedEventId) <==> !behind && idTaken)
      && (answer == Rejected(ReplayedNonce) <==> !behind && !idTaken && nonceTaken)
      && (answer == Accepted(Decision(c.now, c.expiry)) <==> !behind && !idTaken && !nonceTaken)
  {
    EveryDecisionIsFullHistory(s, steps, call);
  }

  /** Nodes never collide: with no protected acceptance from its own node, a claim is not refused as a replay. */
  lemma NodesNeverCollide(s: SecuritySettings, steps: seq<CallStep>, call: nat)
    requires call in AfterCalls(s, steps).waiting
    requires var r := AfterCalls(s, steps);
      forall i :: 0 <= i < |r.history| && r.history[i].claim.nodeId == r.waiting[call].claim.nodeId ==>
        r.history[i].expiry < r.waiting[call].now
    ensures var r := AfterCalls(s, steps);
      !IsReplay(Reserve(r.policy, r.waiting[call]).1)
  {
    EveryDecisionIsFullHistory(s, steps, call);
  }

  // ---- Why the high-water mark ----

  /** The critical section without its first check. */
  function ReserveUnguarded(p: PolicyState, c: Candidate): Outcome {
    Reserve(p.(latest := None), c).1
  }

  /**
   Without the high-water mark pruning would be unsound: a call that read the clock while an event was still
   admissible, and took the lock after another acceptance pruned that event, would accept it a second time.
   With it the call fails.
   */
  lemma HighWaterMarkIsNeeded(s: SecuritySettings, first: Candidate, other: Candidate, late: Candidate)
    requires Admissible(s, first) && Admissible(s, other) && Admissible(s, late)
    requires late.claim == first.claim && !Shares(first.claim, other.claim) && first.expiry < other.now
    ensures var p := Reserve(Reserve(FRESH, first).0, other).0;
      && Reserve(FRESH, first).1.Accepted? && Reserve(Reserve(FRESH, first).0, other).1.Accepted?
      && ReserveUnguarded(p, late).Accepted?
      && Reserve(p, late) == (p, Faulted(ClockMovedBackwards))
  {
    var p := Reserve(FRESH, first).0;
    assert Retained(FRESH.seen, first.now) == map[];
    assert p.seen == map[EventKey(first.claim) := first.expiry, NonceKeyOf(first.claim) := first.expiry];
    assert Retained(p.seen, other.now) == map[];
  }

  // ---- What the map holds ----

  /** The acceptances whose reservation has not lapsed at the latest accepted instant. */
  function Live(history: seq<Candidate>, latest: Instant): set<nat> {
    set i: nat | i < |history| && history[i].expiry >= latest
  }

  function ClaimAt(history: seq<Candidate>, i: nat): Claim {
    if i < |history| then history[i].claim else Claim("", "", "", 0)
  }

  /** The map's keys are the identifiers of the live acceptances. */
  lemma SeenIsLive(history: seq<Candidate>, p: PolicyState, k: ReplayKey)
    requires Reflects(history, p) && history != []
    ensures k in p.seen <==> exists i :: i in Live(history, p.latest.value) && Reserves(history[i], k)
  {
    var latest := p.latest.value;
    BehindIsBelowLatest(history, latest);
    LastExpiryDecides(history, k, latest);
    if k in p.seen {
      LastExpiryFrom(history, k);
      var i: nat :| i < |history| && Reserves(history[i], k) && history[i].expiry == LastExpiry(history, k).value;
      assert i in Live(history, latest);
    }
    if i :| i in Live(history, latest) && Reserves(history[i], k) {
      assert Covered(history, k, latest);
    }
  }

  lemma LiveShareNothing(history: seq<Candidate>, i: nat, j: nat)
    requires Ordered(history) && Separated(history) && history != []
    requires i in Live(history, LatestOf(history).value) && j in Live(history, LatestOf(history).value)
    requires Shares(history[i].claim, history[j].claim)
    ensures i == j
  {
    var last := |history| - 1;
    assert history[i].now <= history[last].now && history[j].now <= history[last].now;
  }

  function LiveIds(history: seq<Candidate>, live: set<nat>): set<ReplayKey> {
    set i | i in live :: EventKey(ClaimAt(history, i))
  }

  function LiveNonces(history: seq<Candidate>, live: set<nat>): set<ReplayKey> {
    set i | i in live :: NonceKeyOf(ClaimAt(history, i))
  }

  lemma LiveKeysSize(history: seq<Candidate>)
    requires Ordered(history) && Separated(history) && history != []
    ensures var live := Live(history, LatestOf(history).value);
      |LiveIds(history, live)| == |live| && |LiveNonces(history, live)| == |live|
  {
    var live := Live(history, LatestOf(history).value);
    var e := (i: nat) => EventKey(ClaimAt(history, i));
    var n := (i: nat) => NonceKeyOf(ClaimAt(history, i));
    forall i, j | i in live && j in live && e(i) == e(j) ensures i == j { LiveShareNothing(history, i, j); }
    forall i, j | i in live && j in live && n(i) == n(j) ensures i == j { LiveShareNothing(history, i, j); }
    ImageSize(live, e);
    ImageSize(live, n);
    assert LiveIds(history, live) == set i | i in live :: e(i);
    assert LiveNonces(history, live) == set i | i in live :: n(i);
  }

  lemma SeenIsIdsAndNonces(history: seq<Candidate>, p: PolicyState)
    requires Reflects(history, p) && history != []
    ensures var live := Live(history, p.latest.value);
      p.seen.Keys == LiveIds(history, live) + LiveNonces(history, live)
  {
    var live := Live(history, p.latest.value);
    forall k ensures k in p.seen <==> k in LiveIds(history, live) + LiveNonces(history, live) {
      SeenIsLive(history, p, k);
      assert forall i :: i in live ==> ClaimAt(history, i) == history[i].claim;
    }
  }

  /** Live acceptances share no identifier, so the map holds one event-id key and one nonce key for each. */
  lemma SeenIsTwicePerLive(history: seq<Candidate>, p: PolicyState)
    requires Reflects(history, p) && history != []
    ensures |p.seen| == 2 * |Live(history, p.latest.value)|
  {
    var live := Live(history, p.latest.value);
    LiveKeysSize(history);
    SeenIsIdsAndNonces(history, p);
    assert LiveIds(history, live) !! LiveNonces(history, live);
    assert |p.seen| == |p.seen.Keys|;
  }

  /** Both keys of a live acceptance carry that acceptance's own expiry. */
  lemma PairedExpiries(history: seq<Candidate>, p: PolicyState, i: nat)
    requires Reflects(history, p) && history != [] && i in Live(history, p.latest.value)
    ensures EventKey(history[i].claim) in p.seen && p.seen[EventKey(history[i].claim)] == history[i].expiry
    ensures NonceKeyOf(history[i].claim) in p.seen && p.seen[NonceKeyOf(history[i].claim)] == history[i].expiry
  {
    PairedExpiry(history, p, i, EventKey(history[i].claim));
    PairedExpiry(history, p, i, NonceKeyOf(history[i].claim));
  }

  lemma PairedExpiry(history: seq<Candidate>, p: PolicyState, i: nat, k: ReplayKey)
    requires Reflects(history, p) && history != [] && i in Live(history, p.latest.value) && Reserves(history[i], k)
    ensures k in p.seen && p.seen[k] == history[i].expiry
  {
    SeenIsLive(history, p, k);
    LastExpiryFrom(history, k);
    var j: nat :| j < |history| && Reserves(history[j], k) && history[j].expiry == LastExpiry(history, k).value;
    LiveShareNothing(history, i, j);
  }

  /** In every reachable state the map is bounded so: nothing older than the protection window is kept. */
  lemma ReplayMapBound(s: SecuritySettings, steps: seq<CallStep>)
    ensures var r := AfterCalls(s, steps);
      && (r.history == [] ==> r.policy.seen == map[])
      && (r.history != [] ==>
          && r.policy.latest.Some?
          && |r.policy.seen| == 2 * |Live(r.history, r.policy.latest.value)|
          && forall i :: i in Live(r.history, r.policy.latest.value) ==>
               r.policy.latest.value - Max(Ttl(s), 2 * Skew(s)) <= r.history[i].now <= r.policy.latest.value)
  {
    CallsKeepInvariant(s, steps);
    var r := AfterCalls(s, steps);
    if r.history == [] {
      assert forall k :: k !in r.policy.seen;
    } else {
      SeenIsTwicePerLive(r.history, r.policy);
    }
  }
}
