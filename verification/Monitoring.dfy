/** Advisory heartbeats over the registry (monitoring.py): a conditional update compared as text, under interleaving. */
module Monitoring {
  import opened Prelude
  import opened Digits
  import opened Timestamps
  import opened ReplayPolicy
  import opened Registry

  datatype Heartbeat = Heartbeat(nodeId: string, timestamp: DateTime, status: Status)

  datatype HeartbeatReason = UnknownNode | Stale | Future | OutOfOrder

  datatype Reply = Recorded | Refused(reason: HeartbeatReason) | ServiceFailed

  /** A heartbeat the database kept, and the call that brought it. */
  datatype Entry = Entry(call: nat, heartbeat: Heartbeat)

  /** The table, the calls past their window check, the answers given, and every durable update in order. */
  datatype Store = Store(nodes: Nodes, pending: map<nat, Heartbeat>, replies: map<nat, Reply>, committed: seq<Entry>)

  const EMPTY: Store := Store(map[], map[], map[], [])

  // ---- Steps ----

  function CheckWindow(s: SecuritySettings, hb: Heartbeat, reading: Reading): Option<Reply> {
    match reading
    case Utc(now) =>
      if !Representable(now - Skew(s)) || !Representable(now + Skew(s)) then Some(ServiceFailed)
      else if Micros(hb.timestamp) < now - Skew(s) then Some(Refused(Stale))
      else if Micros(hb.timestamp) > now + Skew(s) then Some(Refused(Future))
      else None
    case _ => Some(ServiceFailed)
  }

  /** A heartbeat gets past the window exactly when the clock gives an instant within the skew of it, both ends included. */
  lemma WindowIsExact(s: SecuritySettings, hb: Heartbeat, reading: Reading)
    ensures CheckWindow(s, hb, reading).None? <==>
      (reading.Utc? && Within(Micros(hb.timestamp), reading.now, Skew(s)) &&
       0 <= reading.now - Skew(s) && reading.now + Skew(s) <= MAX_MICROS)
    ensures CheckWindow(s, hb, reading) == Some(Refused(Stale)) <==>
      UsableReading(s, reading) && Micros(hb.timestamp) < reading.now - Skew(s)
    ensures CheckWindow(s, hb, reading) == Some(Refused(Future)) <==>
      UsableReading(s, reading) && Micros(hb.timestamp) > reading.now + Skew(s)
    ensures CheckWindow(s, hb, reading) == Some(ServiceFailed) <==> !UsableReading(s, reading)
  {
  }

  /** The WHERE clause: the stored text is absent or sorts before the new one. */
  predicate Accepts(nodes: Nodes, hb: Heartbeat) {
    && hb.nodeId in nodes
    && (nodes[hb.nodeId].lastSeen.None? || TextLess(nodes[hb.nodeId].lastSeen.value, StoredText(hb.timestamp)))
  }

  function Updated(nodes: Nodes, hb: Heartbeat): Nodes
    requires hb.nodeId in nodes
  {
    nodes[hb.nodeId := nodes[hb.nodeId].(lastSeen := Some(StoredText(hb.timestamp)), health := Some(hb.status))]
  }

  datatype Step =
    | SeedNodes(batch: set<Registration>, at: DateTime, seedOutcome: CommitOutcome)
    | Admit(call: nat, heartbeat: Heartbeat, reading: Reading, opens: bool)
    | Apply(call: nat, executes: bool, outcome: CommitOutcome)

  function Answer(s: Store, call: nat, reply: Reply): Store {
    s.(pending := s.pending - {call}, replies := s.replies[call := reply])
  }

  /** Lookup, clock and window: everything before the update statement. */
  function AdmitStep(settings: SecuritySettings, s: Store, call: nat, hb: Heartbeat, reading: Reading, opens: bool): Store {
    if !opens then Answer(s, call, ServiceFailed)
    else if hb.nodeId !in s.nodes then Answer(s, call, Refused(UnknownNode))
    else
      match CheckWindow(settings, hb, reading)
      case Some(reply) => Answer(s, call, reply)
      case None => s.(pending := s.pending[call := hb])
  }

  /** The update and its commit hold the database's write lock, so they are one step. */
  function ApplyStep(s: Store, call: nat, hb: Heartbeat, executes: bool, outcome: CommitOutcome): Store {
    if !executes then Answer(s, call, ServiceFailed)
    else if !Accepts(s.nodes, hb) then Answer(s, call, Refused(OutOfOrder))
    else
      var t := if outcome.Durable()
               then s.(nodes := Updated(s.nodes, hb), committed := s.committed + [Entry(call, hb)]) else s;
      Answer(t, call, if outcome.Committed? then Recorded else ServiceFailed)
  }

  ghost function Next(settings: SecuritySettings, s: Store, step: Step): Store {
    match step
    case SeedNodes(batch, at, outcome) => s.(nodes := Seed(s.nodes, batch, at, outcome).0)
    case Admit(call, hb, reading, opens) =>
      if call in s.pending || call in s.replies then s else AdmitStep(settings, s, call, hb, reading, opens)
    case Apply(call, executes, outcome) =>
      if call in s.pending then ApplyStep(s, call, s.pending[call], executes, outcome) else s
  }

  ghost function After(settings: SecuritySettings, s: Store, steps: seq<Step>): Store {
    if steps == [] then s else Next(settings, After(settings, s, steps[..|steps| - 1]), steps[|steps| - 1])
  }

  // ---- The invariant ----

  /** The last heartbeat kept for a node. */
  function Latest(committed: seq<Entry>, id: string): Option<Heartbeat> {
    if committed == [] then None
    else
      var last := committed[|committed| - 1].heartbeat;
      if last.nodeId == id then Some(last) else Latest(committed[..|committed| - 1], id)
  }

  /** Each heartbeat was newer, as an instant, than the one kept before it for its node. */
  predicate Increasing(committed: seq<Entry>) {
    committed == [] ||
    (var init, last := committed[..|committed| - 1], committed[|committed| - 1].heartbeat;
     && Increasing(init)
     && (Latest(init, last.nodeId).Some? ==> Micros(Latest(init, last.nodeId).value.timestamp) < Micros(last.timestamp)))
  }

  predicate Shows(row: NodeRecord, hb: Option<Heartbeat>) {
    if hb.None? then row.lastSeen.None? && row.health.None?
    else row.lastSeen == Some(StoredText(hb.value.timestamp)) && row.health == Some(hb.value.status)
  }

  predicate RowsInvariant(nodes: Nodes, committed: seq<Entry>) {
    && Increasing(committed)
    && (forall id :: id in nodes ==> Shows(nodes[id], Latest(committed, id)))
    && (forall i :: 0 <= i < |committed| ==> committed[i].heartbeat.nodeId in nodes)
  }

  predicate Kept(committed: seq<Entry>, call: nat) {
    exists i :: 0 <= i < |committed| && committed[i].call == call
  }

  predicate RepliesInvariant(replies: map<nat, Reply>, committed: seq<Entry>) {
    forall call :: call in replies && replies[call].Recorded? ==> Kept(committed, call)
  }

  predicate PendingInvariant(nodes: Nodes, pending: map<nat, Heartbeat>) {
    forall call :: call in pending ==> pending[call].nodeId in nodes
  }

  predicate Invariant(s: Store) {
    RowsInvariant(s.nodes, s.committed) && RepliesInvariant(s.replies, s.committed) && PendingInvariant(s.nodes, s.pending)
  }

  lemma {:induction false} LatestOfStranger(committed: seq<Entry>, id: string)
    requires forall i :: 0 <= i < |committed| ==> committed[i].heartbeat.nodeId != id
    ensures Latest(committed, id) == None
  {
    if committed != [] {
      var init := committed[..|committed| - 1];
      assert forall i :: 0 <= i < |init| ==> init[i] == committed[i];
      LatestOfStranger(init, id);
    }
  }

  lemma {:induction false} LatestBelongs(committed: seq<Entry>, id: string)
    ensures Latest(committed, id).Some? ==> Latest(committed, id).value.nodeId == id
  {
    if committed != [] { LatestBelongs(committed[..|committed| - 1], id); }
  }

  lemma SeedKeepsRows(nodes: Nodes, committed: seq<Entry>, batch: set<Registration>, at: DateTime, outcome: CommitOutcome)
    requires RowsInvariant(nodes, committed)
    ensures RowsInvariant(Seed(nodes, batch, at, outcome).0, committed)
  {
    SeedCounts(nodes, batch, at, outcome);
    var later := Seed(nodes, batch, at, outcome).0;
    forall id | id in later ensures Shows(later[id], Latest(committed, id)) {
      if id !in nodes {
        assert later == Union(nodes, batch, at);
        LatestOfStranger(committed, id);
      }
    }
  }

  lemma Appended(committed: seq<Entry>, e: Entry)
    ensures (committed + [e])[..|committed|] == committed
    ensures forall id ::
      Latest(committed + [e], id) == (if id == e.heartbeat.nodeId then Some(e.heartbeat) else Latest(committed, id))
  {
    assert (committed + [e])[..|committed|] == committed;
  }

  /** The text comparison lets through exactly the heartbeats that are newer than the last one kept. */
  lemma AcceptsNewer(nodes: Nodes, committed: seq<Entry>, hb: Heartbeat)
    requires RowsInvariant(nodes, committed)
    ensures Accepts(nodes, hb) <==>
      hb.nodeId in nodes &&
      (Latest(committed, hb.nodeId).Some? ==>
        Micros(Latest(committed, hb.nodeId).value.timestamp) < Micros(hb.timestamp))
  {
    if hb.nodeId in nodes {
      var last := Latest(committed, hb.nodeId);
      assert Shows(nodes[hb.nodeId], last);
      if last.Some? { StoredTextOrder(last.value.timestamp, hb.timestamp); }
    }
  }

  lemma UpdateKeepsRows(nodes: Nodes, committed: seq<Entry>, call: nat, hb: Heartbeat)
    requires RowsInvariant(nodes, committed) && Accepts(nodes, hb)
    ensures RowsInvariant(Updated(nodes, hb), committed + [Entry(call, hb)])
  {
    AcceptsNewer(nodes, committed, hb);
    Appended(committed, Entry(call, hb));
    var later, more := Updated(nodes, hb), committed + [Entry(call, hb)];
    forall id | id in later ensures Shows(later[id], Latest(more, id)) {
      assert id in nodes && Shows(nodes[id], Latest(committed, id));
    }
    forall i | 0 <= i < |more| ensures more[i].heartbeat.nodeId in later {
      if i < |committed| { assert more[i] == committed[i]; }
    }
  }

  lemma KeptLonger(replies: map<nat, Reply>, committed: seq<Entry>, e: Entry)
    requires RepliesInvariant(replies, committed)
    ensures RepliesInvariant(replies, committed + [e]) && Kept(committed + [e], e.call)
  {
    var more := committed + [e];
    assert more[|committed|] == e;
    forall call | call in replies && replies[call].Recorded? ensures Kept(more, call) {
      var i :| 0 <= i < |committed| && committed[i].call == call;
      assert more[i].call == call;
    }
  }

  lemma AnswerKeeps(s: Store, call: nat, reply: Reply)
    requires Invariant(s) && (reply.Recorded? ==> Kept(s.committed, call))
    ensures Invariant(Answer(s, call, reply))
  {
  }

  lemma ApplyKeeps(s: Store, call: nat, hb: Heartbeat, executes: bool, outcome: CommitOutcome)
    requires Invariant(s)
    ensures Invariant(ApplyStep(s, call, hb, executes, outcome))
  {
    if executes && Accepts(s.nodes, hb) && outcome.Durable() {
      UpdateKeepsRows(s.nodes, s.committed, call, hb);
      KeptLonger(s.replies, s.committed, Entry(call, hb));
      var t := s.(nodes := Updated(s.nodes, hb), committed := s.committed + [Entry(call, hb)]);
      assert Invariant(t);
      AnswerKeeps(t, call, if outcome.Committed? then Recorded else ServiceFailed);
    } else {
      AnswerKeeps(s, call, if !executes || Accepts(s.nodes, hb) then ServiceFailed else Refused(OutOfOrder));
    }
  }

  lemma SeedKeeps(s: Store, batch: set<Registration>, at: DateTime, outcome: CommitOutcome)
    requires Invariant(s)
    ensures Invariant(s.(nodes := Seed(s.nodes, batch, at, outcome).0))
  {
    SeedKeepsRows(s.nodes, s.committed, batch, at, outcome);
    SeedCounts(s.nodes, batch, at, outcome);
  }

  lemma AdmitKeeps(settings: SecuritySettings, s: Store, call: nat, hb: Heartbeat, reading: Reading, opens: bool)
    requires Invariant(s)
    ensures Invariant(AdmitStep(settings, s, call, hb, reading, opens))
  {
  }

  lemma StepKeeps(settings: SecuritySettings, s: Store, step: Step)
    requires Invariant(s)
    ensures Invariant(Next(settings, s, step))
  {
    match step
    case SeedNodes(batch, at, outcome) => SeedKeeps(s, batch, at, outcome);
    case Admit(call, hb, reading, opens) => AdmitKeeps(settings, s, call, hb, reading, opens);
    case Apply(call, executes, outcome) =>
      if call in s.pending { ApplyKeeps(s, call, s.pending[call], executes, outcome); }
  }

  lemma {:induction false} RunsKeepInvariant(settings: SecuritySettings, steps: seq<Step>)
    ensures Invariant(After(settings, EMPTY, steps))
  {
    if steps != [] {
      var n := |steps| - 1;
      RunsKeepInvariant(settings, steps[..n]);
      StepKeeps(settings, After(settings, EMPTY, steps[..n]), steps[n]);
    }
  }

  // ---- What every interleaving guarantees ----

  ghost predicate Reachable(settings: SecuritySettings, s: Store) {
    exists steps :: s == After(settings, EMPTY, steps)
  }

  lemma ReachableInvariant(settings: SecuritySettings, s: Store)
    requires Reachable(settings, s)
    ensures Invariant(s)
  {
    var steps :| s == After(settings, EMPTY, steps);
    RunsKeepInvariant(settings, steps);
  }

  lemma {:induction false} LatestIsNewest(committed: seq<Entry>, i: nat)
    requires Increasing(committed) && i < |committed|
    ensures var id := committed[i].heartbeat.nodeId;
      && Latest(committed, id).Some?
      && Micros(committed[i].heartbeat.timestamp) <= Micros(Latest(committed, id).value.timestamp)
  {
    if i < |committed| - 1 {
      assert committed[..|committed| - 1][i] == committed[i];
      LatestIsNewest(committed[..|committed| - 1], i);
    }
  }

  lemma {:induction false} IncreasingPairs(committed: seq<Entry>, i: nat, j: nat)
    requires Increasing(committed) && i < j < |committed|
    requires committed[i].heartbeat.nodeId == committed[j].heartbeat.nodeId
    ensures Micros(committed[i].heartbeat.timestamp) < Micros(committed[j].heartbeat.timestamp)
    decreases |committed|
  {
    var init := committed[..|committed| - 1];
    assert init[i] == committed[i];
    if j == |committed| - 1 {
      LatestIsNewest(init, i);
    } else {
      assert init[j] == committed[j];
      IncreasingPairs(init, i, j);
    }
  }

  /** A node's heartbeats are kept in strictly increasing order of their instants, however calls interleave. */
  lemma HeartbeatsNeverRegress(settings: SecuritySettings, s: Store, i: nat, j: nat)
    requires Reachable(settings, s) && i < j < |s.committed|
    requires s.committed[i].heartbeat.nodeId == s.committed[j].heartbeat.nodeId
    ensures Micros(s.committed[i].heartbeat.timestamp) < Micros(s.committed[j].heartbeat.timestamp)
  {
    ReachableInvariant(settings, s);
    IncreasingPairs(s.committed, i, j);
  }

  datatype StoredError = PartialState | InvalidTimestamp

  /** to_heartbeat: what the row shows, or its refusal of a partial or unreadable state. */
  function ToHeartbeat(id: string, row: NodeRecord): Result<Option<Heartbeat>, StoredError> {
    if row.lastSeen.None? && row.health.None? then Ok(None)
    else if row.lastSeen.None? || row.health.None? then Err(PartialState)
    else
      match ParseStored(row.lastSeen.value)
      case None => Err(InvalidTimestamp)
      case Some(t) => Ok(Some(Heartbeat(id, t, row.health.value)))
  }

  /** Every row reads back without error, as the newest heartbeat kept for its node with that heartbeat's status. */
  lemma RowShowsNewest(settings: SecuritySettings, s: Store, id: string)
    requires Reachable(settings, s) && id in s.nodes
    ensures ToHeartbeat(id, s.nodes[id]) == Ok(Latest(s.committed, id))
    ensures forall i :: 0 <= i < |s.committed| && s.committed[i].heartbeat.nodeId == id ==>
      && Latest(s.committed, id).Some?
      && Micros(s.committed[i].heartbeat.timestamp) <= Micros(Latest(s.committed, id).value.timestamp)
  {
    ReachableInvariant(settings, s);
    var last := Latest(s.committed, id);
    assert Shows(s.nodes[id], last);
    if last.Some? {
      LatestBelongs(s.committed, id);
      StoredRoundTrip(last.value.timestamp);
    }
    forall i | 0 <= i < |s.committed| && s.committed[i].heartbeat.nodeId == id
      ensures last.Some? && Micros(s.committed[i].heartbeat.timestamp) <= Micros(last.value.timestamp)
    {
      LatestIsNewest(s.committed, i);
    }
  }

  /** An answer that the heartbeat was recorded means the database kept it. */
  lemma RecordedMeansKept(settings: SecuritySettings, s: Store, call: nat)
    requires Reachable(settings, s) && call in s.replies && s.replies[call] == Recorded
    ensures Kept(s.committed, call)
  {
    ReachableInvariant(settings, s);
  }

  /**
   A call changes the table only by its own newer heartbeat: a refused one never does, and a failed one only when
   the database kept the commit it reported as failed.
   */
  lemma OnlyKeptHeartbeatsChangeRows(settings: SecuritySettings, s: Store, step: Step)
    requires Reachable(settings, s) && !step.SeedNodes?
    ensures var t := Next(settings, s, step);
      (t.nodes == s.nodes && t.committed == s.committed) ||
      (&& step.Apply? && step.executes && step.outcome.Durable() && step.call in s.pending
       && var hb := s.pending[step.call];
       && Accepts(s.nodes, hb) && t.nodes == Updated(s.nodes, hb) && t.committed == s.committed + [Entry(step.call, hb)]
       && t.replies[step.call] == if step.outcome.Committed? then Recorded else ServiceFailed)
  {
  }

  /** A heartbeat past the window is refused as out of order exactly when one at least as new was already kept. */
  lemma OutOfOrderExactly(settings: SecuritySettings, s: Store, call: nat, outcome: CommitOutcome)
    requires Reachable(settings, s) && call in s.pending
    ensures var hb, last := s.pending[call], Latest(s.committed, s.pending[call].nodeId);
      Next(settings, s, Apply(call, true, outcome)).replies[call] == Refused(OutOfOrder) <==>
      last.Some? && Micros(hb.timestamp) <= Micros(last.value.timestamp)
  {
    ReachableInvariant(settings, s);
    AcceptsNewer(s.nodes, s.committed, s.pending[call]);
  }

  /**
   A heartbeat past the window, newer than the last one kept, is kept exactly when its update runs and the commit
   is durable, and is answered as recorded exactly when the commit is confirmed.
   */
  lemma NewerIsKept(settings: SecuritySettings, s: Store, call: nat, executes: bool, outcome: CommitOutcome)
    requires Reachable(settings, s) && call in s.pending
    requires var hb := s.pending[call];
      Latest(s.committed, hb.nodeId).Some? ==>
        Micros(Latest(s.committed, hb.nodeId).value.timestamp) < Micros(hb.timestamp)
    ensures var t, hb := Next(settings, s, Apply(call, executes, outcome)), s.pending[call];
      && (Latest(t.committed, hb.nodeId) == Some(hb) <==> executes && outcome.Durable())
      && (t.replies[call] == Recorded <==> executes && outcome.Committed?)
      && (executes && outcome.Durable() ==> ToHeartbeat(hb.nodeId, t.nodes[hb.nodeId]) == Ok(Some(hb)))
  {
    ReachableInvariant(settings, s);
    var hb := s.pending[call];
    AcceptsNewer(s.nodes, s.committed, hb);
    AppliedNewer(s, call, hb, executes, outcome);
  }

  lemma AppliedNewer(s: Store, call: nat, hb: Heartbeat, executes: bool, outcome: CommitOutcome)
    requires hb.nodeId in s.nodes && Accepts(s.nodes, hb)
    requires Latest(s.committed, hb.nodeId) != Some(hb)
    ensures var t := ApplyStep(s, call, hb, executes, outcome);
      && (Latest(t.committed, hb.nodeId) == Some(hb) <==> executes && outcome.Durable())
      && (t.replies[call] == Recorded <==> executes && outcome.Committed?)
      && (executes && outcome.Durable() ==>
            hb.nodeId in t.nodes && ToHeartbeat(hb.nodeId, t.nodes[hb.nodeId]) == Ok(Some(hb)))
  {
    Appended(s.committed, Entry(call, hb));
    StoredRoundTrip(hb.timestamp);
  }

  /** One whole call, decided on the heartbeat's own fields: when it is recorded, and when and how it is refused. */
  lemma RecordAnswers(settings: SecuritySettings, s: Store, call: nat, hb: Heartbeat, reading: Reading,
                      opens: bool, executes: bool, outcome: CommitOutcome)
    requires s.pending == map[] && s.replies == map[] && RowsInvariant(s.nodes, s.committed)
    ensures var t := Next(settings, Next(settings, s, Admit(call, hb, reading, opens)), Apply(call, executes, outcome));
      var time, skew, known := Micros(hb.timestamp), Skew(settings), hb.nodeId in s.nodes;
      var timely := opens && known && UsableReading(settings, reading) && Within(time, reading.now, skew);
      var last := Latest(s.committed, hb.nodeId);
      var newer := last.Some? ==> Micros(last.value.timestamp) < time;
      && call in t.replies
      && (t.replies[call] == Recorded <==> timely && newer && executes && outcome.Committed?)
      && (t.replies[call] == Refused(UnknownNode) <==> opens && !known)
      && (t.replies[call] == Refused(Stale) <==> opens && known && UsableReading(settings, reading) && time < reading.now - skew)
      && (t.replies[call] == Refused(Future) <==> opens && known && UsableReading(settings, reading) && time > reading.now + skew)
      && (t.replies[call] == Refused(OutOfOrder) <==> timely && executes && !newer)
      && t.committed == (if timely && newer && executes && outcome.Durable() then s.committed + [Entry(call, hb)] else s.committed)
  {
    RecordRuns(settings, s, call, hb, reading, opens, executes, outcome);
    AcceptsNewer(s.nodes, s.committed, hb);
    WindowIsExact(settings, hb, reading);
  }

  predicate SameIdentity(a: NodeRecord, b: NodeRecord) {
    a.publicKey == b.publicKey && a.registeredAt == b.registeredAt
  }

  lemma StepKeepsIdentity(settings: SecuritySettings, s: Store, step: Step, id: string)
    requires id in s.nodes
    ensures id in Next(settings, s, step).nodes && SameIdentity(s.nodes[id], Next(settings, s, step).nodes[id])
  {
    if step.SeedNodes? { SeedCounts(s.nodes, step.batch, step.at, step.seedOutcome); }
  }

  /** No run of seeds and heartbeats ever removes a node or changes its key or its registration time. */
  lemma {:induction false} IdentityIsPermanent(settings: SecuritySettings, s: Store, steps: seq<Step>, id: string)
    requires id in s.nodes
    ensures id in After(settings, s, steps).nodes && SameIdentity(s.nodes[id], After(settings, s, steps).nodes[id])
  {
    if steps != [] {
      var n := |steps| - 1;
      IdentityIsPermanent(settings, s, steps[..n], id);
      StepKeepsIdentity(settings, After(settings, s, steps[..n]), steps[n], id);
    }
  }

  // ---- The object ----

  class HeartbeatService {
    const settings: SecuritySettings
    const registry: NodeRegistry
    ghost var committed: seq<Entry>

    /** The service between calls. */
    ghost function Idle(): Store
      reads this, registry
    {
      Store(registry.nodes, map[], map[], committed)
    }

    constructor (settings: SecuritySettings, registry: NodeRegistry)
      ensures this.settings == settings && this.registry == registry && committed == []
    {
      this.settings, this.registry, committed := settings, registry, [];
    }

    /** Clock and window; None lets the heartbeat through. */
    method CheckFresh(hb: Heartbeat, reading: Reading) returns (outside: Option<Reply>)
      ensures outside == CheckWindow(settings, hb, reading)
    {
      if !reading.Utc? {
        return Some(ServiceFailed);
      }
      var skew := settings.maxClockSkewSeconds * SECOND;
      var earliest, latest := reading.now - skew, reading.now + skew;
      if !Representable(earliest) || !Representable(latest) {
        return Some(ServiceFailed);
      }
      if Micros(hb.timestamp) < earliest {
        return Some(Refused(Stale));
      }
      if Micros(hb.timestamp) > latest {
        return Some(Refused(Future));
      }
      return None;
    }

    /** One uninterrupted call: look up, check the window, update where older, commit. */
    method Record(call: nat, hb: Heartbeat, reading: Reading, opens: bool, executes: bool, outcome: CommitOutcome)
      returns (reply: Reply)
      modifies this, registry
      ensures var t := Next(settings, Next(settings, old(Idle()), Admit(call, hb, reading, opens)),
                            Apply(call, executes, outcome));
        t.pending == map[] && t.replies == map[call := reply] && Idle() == t.(replies := map[])
    {
      RecordRuns(settings, Idle(), call, hb, reading, opens, executes, outcome);
      if !opens {
        return ServiceFailed;
      }
      if hb.nodeId !in registry.nodes {
        return Refused(UnknownNode);
      }
      var outside := CheckFresh(hb, reading);
      if outside.Some? {
        return outside.value;
      }
      if !executes {
        return ServiceFailed;
      }
      var row := registry.nodes[hb.nodeId];
      var text := StoredText(hb.timestamp);
      if row.lastSeen.Some? && !TextLess(row.lastSeen.value, text) {
        return Refused(OutOfOrder);
      }
      if outcome.Durable() {
        registry.nodes := registry.nodes[hb.nodeId := row.(lastSeen := Some(text), health := Some(hb.status))];
        committed := committed + [Entry(call, hb)];
      }
      reply := if outcome.Committed? then Recorded else ServiceFailed;
    }
  }

  lemma RecordRuns(settings: SecuritySettings, s: Store, call: nat, hb: Heartbeat, reading: Reading,
                   opens: bool, executes: bool, outcome: CommitOutcome)
    requires s.pending == map[] && s.replies == map[]
    ensures Next(settings, Next(settings, s, Admit(call, hb, reading, opens)), Apply(call, executes, outcome)) ==
      if !opens then s.(replies := map[call := ServiceFailed])
      else if hb.nodeId !in s.nodes then s.(replies := map[call := Refused(UnknownNode)])
      else
        match CheckWindow(settings, hb, reading)
        case Some(reply) => s.(replies := map[call := reply])
        case None => ApplyStep(s, call, hb, executes, outcome)
  {
    var t := Next(settings, s, Admit(call, hb, reading, opens));
    assert s.pending - {call} == map[];
    if t.pending != map[] {
      assert t == s.(pending := map[call := hb]);
      assert t.pending - {call} == map[];
    }
  }
}
