/** Registered nodes and their atomic seeding (persistence.py). */
module Registry {
  import opened Prelude
  import opened Timestamps
  import opened Events
  import opened Base64

  datatype Registration = Registration(nodeId: string, publicKey: string)

  const KEY_BYTES: nat := 32

  predicate ValidRegistration(r: Registration) {
    SafeIdentifier(r.nodeId) && CanonicalDecode(r.publicKey, KEY_BYTES).Ok?
  }

  datatype Status = Healthy | Degraded | Unhealthy

  /** One row of the nodes table, timestamps as the text that is stored. */
  datatype NodeRecord = NodeRecord(
    publicKey: string, registeredAt: string, lastSeen: Option<string>, health: Option<Status>)

  type Nodes = map<string, NodeRecord>

  function NewRecord(publicKey: string, at: DateTime): NodeRecord {
    NodeRecord(publicKey, StoredText(at), None, None)
  }

  // ---- Seeding, as a function of which registrations a batch holds ----

  function Ids(batch: set<Registration>): set<string> {
    set r | r in batch :: r.nodeId
  }

  /** No node appears in the batch with two keys. */
  predicate Consistent(batch: set<Registration>) {
    forall a, b :: a in batch && b in batch && a.nodeId == b.nodeId ==> a.publicKey == b.publicKey
  }

  /** No node of the batch is stored with another key. */
  predicate Agrees(nodes: Nodes, batch: set<Registration>) {
    forall r :: r in batch && r.nodeId in nodes ==> nodes[r.nodeId].publicKey == r.publicKey
  }

  predicate AllValid(batch: set<Registration>) {
    forall r :: r in batch ==> ValidRegistration(r)
  }

  predicate Admits(nodes: Nodes, batch: set<Registration>) {
    AllValid(batch) && Consistent(batch) && Agrees(nodes, batch)
  }

  ghost function KeyIn(batch: set<Registration>, id: string): string
    requires id in Ids(batch)
  {
    var r :| r in batch && r.nodeId == id;
    r.publicKey
  }

  /** The batch's new identities added and nothing else changed. */
  ghost function Union(nodes: Nodes, batch: set<Registration>, at: DateTime): Nodes {
    map id | id in nodes.Keys + Ids(batch) :: if id in nodes then nodes[id] else NewRecord(KeyIn(batch, id), at)
  }

  datatype SeedError = SeedRefused | TransactionFailed

  /** One commit of session over nodes: the new contents and the count of new rows. */
  ghost function Transaction(nodes: Nodes, session: Nodes, outcome: CommitOutcome): (Nodes, Result<int, SeedError>)
  {
    (if outcome.Durable() then session else nodes,
     if outcome.Committed? then Ok(|session| - |nodes|) else Err(TransactionFailed))
  }

  /** All or nothing. Only the set of registrations counts, so neither their order nor repetition does. */
  ghost function Seed(nodes: Nodes, batch: set<Registration>, at: DateTime, outcome: CommitOutcome)
    : (Nodes, Result<int, SeedError>)
  {
    if !Admits(nodes, batch) then (nodes, Err(SeedRefused))
    else if batch == {} then (nodes, Ok(0))
    else Transaction(nodes, Union(nodes, batch, at), outcome)
  }

  /** A stored row, and with it its key, survives; the count is the growth of the table. */
  lemma UnionGrows(nodes: Nodes, batch: set<Registration>, at: DateTime)
    ensures forall id :: id in nodes ==> id in Union(nodes, batch, at) && Union(nodes, batch, at)[id] == nodes[id]
    ensures |Union(nodes, batch, at)| == |nodes| + |Ids(batch) - nodes.Keys|
  {
    var later := Union(nodes, batch, at);
    assert later.Keys == nodes.Keys + (Ids(batch) - nodes.Keys);
  }

  lemma SeedAdmitted(nodes: Nodes, batch: set<Registration>, at: DateTime, outcome: CommitOutcome)
    requires Admits(nodes, batch) && batch != {}
    ensures Seed(nodes, batch, at, outcome) == Transaction(nodes, Union(nodes, batch, at), outcome)
  {
  }

  /** A stored row, and with it its key, survives every seed; a successful one counts exactly the new nodes. */
  lemma SeedCounts(nodes: Nodes, batch: set<Registration>, at: DateTime, outcome: CommitOutcome)
    ensures var (later, r) := Seed(nodes, batch, at, outcome);
      && (forall id :: id in nodes ==> id in later && later[id] == nodes[id])
      && (r.Ok? ==> r.value == |later| - |nodes| == |Ids(batch) - nodes.Keys|)
  {
    if Admits(nodes, batch) {
      UnionGrows(nodes, batch, at);
      if batch == {} {
        assert Ids(batch) - nodes.Keys == {};
      } else {
        SeedAdmitted(nodes, batch, at, outcome);
      }
    }
  }

  lemma UnionKeys(nodes: Nodes, batch: set<Registration>, at: DateTime, r: Registration)
    requires Consistent(batch) && Agrees(nodes, batch) && r in batch
    ensures r.nodeId in Union(nodes, batch, at) && Union(nodes, batch, at)[r.nodeId].publicKey == r.publicKey
  {
    assert r.nodeId in Ids(batch);
  }

  lemma NothingToAdd(nodes: Nodes, batch: set<Registration>, at: DateTime)
    requires Ids(batch) <= nodes.Keys
    ensures Union(nodes, batch, at) == nodes && |Ids(batch) - nodes.Keys| == 0
  {
    assert Ids(batch) - nodes.Keys == {};
  }

  lemma StillAdmits(nodes: Nodes, batch: set<Registration>, at: DateTime)
    requires Admits(nodes, batch)
    ensures Admits(Union(nodes, batch, at), batch) && Ids(batch) <= Union(nodes, batch, at).Keys
  {
    forall r | r in batch ensures Union(nodes, batch, at)[r.nodeId].publicKey == r.publicKey {
      UnionKeys(nodes, batch, at, r);
    }
  }

  /** Seeding the same registrations again, at whatever time, adds nothing and changes nothing. */
  lemma ReseedingAddsNothing(nodes: Nodes, batch: set<Registration>, at: DateTime, again: DateTime)
    requires Admits(nodes, batch)
    ensures var later := Seed(nodes, batch, at, Committed).0;
      Seed(later, batch, again, Committed) == (later, Ok(0))
  {
    if batch != {} {
      var later := Union(nodes, batch, at);
      SeedAdmitted(nodes, batch, at, Committed);
      StillAdmits(nodes, batch, at);
      SeedAdmitted(later, batch, again, Committed);
      NothingToAdd(later, batch, again);
    }
  }

  /** A node the seed adds has the key it registered, the seeding instant, and no heartbeat yet. */
  lemma NewNodeCarries(nodes: Nodes, batch: set<Registration>, at: DateTime, outcome: CommitOutcome, r: Registration)
    requires Admits(nodes, batch) && r in batch && r.nodeId !in nodes && outcome.Durable()
    ensures var later := Seed(nodes, batch, at, outcome).0;
      && r.nodeId in later && later[r.nodeId].publicKey == r.publicKey
      && ParseStored(later[r.nodeId].registeredAt) == Some(at)
      && later[r.nodeId].lastSeen == None && later[r.nodeId].health == None
  {
    SeedAdmitted(nodes, batch, at, outcome);
    UnionKeys(nodes, batch, at, r);
    StoredRoundTrip(at);
  }

  /** A batch with two keys for one node, or another key for a stored node, leaves the store as it was. */
  lemma ConflictChangesNothing(nodes: Nodes, batch: set<Registration>, at: DateTime, outcome: CommitOutcome,
                               r: Registration, other: string)
    requires r in batch && other != r.publicKey
    requires Registration(r.nodeId, other) in batch || (r.nodeId in nodes && nodes[r.nodeId].publicKey == other)
    ensures Seed(nodes, batch, at, outcome) == (nodes, Err(SeedRefused))
  {
    if Registration(r.nodeId, other) in batch {
      assert !Consistent(batch);
    } else {
      assert !Agrees(nodes, batch);
    }
  }

  // ---- The object ----

  /** byId holds one registration of the batch per node, the one all its registrations agree with. */
  ghost predicate Collected(batch: set<Registration>, byId: map<string, Registration>) {
    && (forall id :: id in byId ==> byId[id] in batch && byId[id].nodeId == id)
    && (forall r :: r in batch ==> r.nodeId in byId && byId[r.nodeId].publicKey == r.publicKey)
  }

  lemma CollectedFacts(batch: set<Registration>, byId: map<string, Registration>)
    requires Collected(batch, byId)
    ensures Consistent(batch) && byId.Keys == Ids(batch)
  {
  }

  lemma CollectsOne(batch: set<Registration>, byId: map<string, Registration>, x: Registration)
    requires Collected(batch, byId)
    ensures Consistent(batch + {x}) <==> (x.nodeId in byId ==> byId[x.nodeId].publicKey == x.publicKey)
    ensures Consistent(batch + {x}) ==> Collected(batch + {x}, byId[x.nodeId := x])
  {
    if x.nodeId in byId {
      var y := byId[x.nodeId];
      assert y in batch + {x} && x in batch + {x};
    }
  }

  lemma PrefixSubset(batch: seq<Registration>, n: nat)
    requires n <= |batch|
    ensures SetOf(batch[..n]) <= SetOf(batch)
  {
  }

  lemma ConsistentSubset(a: set<Registration>, b: set<Registration>)
    requires a <= b && !Consistent(a)
    ensures !Consistent(b)
  {
  }

  function Append(ids: seq<string>, id: string): (r: seq<string>)
    ensures id !in ids && Distinct(ids) ==> Distinct(r)
    ensures SetOf(r) == SetOf(ids) + {id}
  {
    ids + [id]
  }

  class NodeRegistry {
    var nodes: Nodes

    constructor ()
      ensures nodes == map[]
    {
      nodes := map[];
    }

    /** Collects the batch by node unless it contradicts itself; ids keeps the dictionary's insertion order. */
    static method CollectById(batch: seq<Registration>)
      returns (ok: bool, ids: seq<string>, byId: map<string, Registration>)
      ensures ok <==> AllValid(SetOf(batch)) && Consistent(SetOf(batch))
      ensures ok ==> Distinct(ids) && SetOf(ids) == byId.Keys && Collected(SetOf(batch), byId)
    {
      ids, byId := [], map[];
      ghost var seen: set<Registration> := {};
      for n := 0 to |batch|
        invariant seen == SetOf(batch[..n]) && AllValid(seen) && Collected(seen, byId)
        invariant Distinct(ids) && SetOf(ids) == byId.Keys
      {
        var x := batch[n];
        assert SetOf(batch[..n + 1]) == seen + {x};
        PrefixSubset(batch, n + 1);
        CollectsOne(seen, byId, x);
        if !ValidRegistration(x) {
          assert x in SetOf(batch);
          return false, ids, byId;
        }
        if x.nodeId in byId && byId[x.nodeId].publicKey != x.publicKey {
          ConsistentSubset(seen + {x}, SetOf(batch));
          return false, ids, byId;
        }
        if x.nodeId !in byId {
          ids := Append(ids, x.nodeId);
        }
        seen, byId := seen + {x}, byId[x.nodeId := x];
      }
      assert batch[..|batch|] == batch;
      CollectedFacts(seen, byId);
      ok := true;
    }

    /** The rows the session would hold, and how many are new; ok is false once a stored key differs. */
    method AddMissing(ids: seq<string>, byId: map<string, Registration>, at: DateTime)
      returns (ok: bool, session: Nodes, inserted: nat)
      requires Distinct(ids) && SetOf(ids) == byId.Keys
      ensures ok <==> KeysAgree(nodes, byId, byId.Keys)
      ensures ok ==> session == Added(nodes, byId, byId.Keys, at) && inserted == |session| - |nodes|
    {
      session, inserted := nodes, 0;
      ghost var done: set<string> := {};
      for n := 0 to |ids|
        invariant done == SetOf(ids[..n]) && done <= byId.Keys && KeysAgree(nodes, byId, done)
        invariant session == Added(nodes, byId, done, at) && inserted == |session| - |nodes|
      {
        var id := ids[n];
        NextId(ids, n);
        AddsOne(nodes, byId, done, id, at);
        if id in nodes {
          if nodes[id].publicKey != byId[id].publicKey {
            return false, session, inserted;
          }
        } else {
          session := session[id := NewRecord(byId[id].publicKey, at)];
          inserted := inserted + 1;
        }
        done := done + {id};
      }
      assert ids[..|ids|] == ids;
      ok := true;
    }

    /** seed_node_registry: one transaction over the whole batch, refused whole or added whole. */
    method SeedNodeRegistry(batch: seq<Registration>, at: DateTime, outcome: CommitOutcome)
      returns (r: Result<int, SeedError>)
      modifies this
      ensures (nodes, r) == Seed(old(nodes), SetOf(batch), at, outcome)
    {
      var ok, ids, byId := CollectById(batch);
      if !ok {
        return Err(SeedRefused);
      }
      if ids == [] {
        EmptyBatch(batch, byId);
        return Ok(0);
      }
      assert ids[0] in SetOf(ids);
      ghost var target := Seed(nodes, SetOf(batch), at, outcome);
      SeedFrom(nodes, SetOf(batch), byId, at, outcome);
      r := Transact(ids, byId, at, outcome);
      assert (nodes, r) == target;
    }

    /** The session: look every node up, add the missing ones, commit. */
    method Transact(ids: seq<string>, byId: map<string, Registration>, at: DateTime, outcome: CommitOutcome)
      returns (r: Result<int, SeedError>)
      requires Distinct(ids) && SetOf(ids) == byId.Keys
      modifies this
      ensures !KeysAgree(old(nodes), byId, byId.Keys) ==> nodes == old(nodes) && r == Err(SeedRefused)
      ensures KeysAgree(old(nodes), byId, byId.Keys) ==>
        (nodes, r) == Transaction(old(nodes), Added(old(nodes), byId, byId.Keys, at), outcome)
    {
      var ok, session, inserted := AddMissing(ids, byId, at);
      if !ok {
        return Err(SeedRefused);
      }
      if outcome.Durable() {
        nodes := session;
      }
      r := if outcome.Committed? then Ok(inserted) else Err(TransactionFailed);
    }
  }

  predicate KeysAgree(nodes: Nodes, byId: map<string, Registration>, ids: set<string>)
    requires ids <= byId.Keys
  {
    forall id :: id in ids && id in nodes ==> nodes[id].publicKey == byId[id].publicKey
  }

  lemma NextId(ids: seq<string>, n: nat)
    requires n < |ids| && Distinct(ids)
    ensures SetOf(ids[..n + 1]) == SetOf(ids[..n]) + {ids[n]} && ids[n] !in SetOf(ids[..n]) && ids[n] in SetOf(ids)
  {
  }

  /** The session's rows once some of the batch's nodes were looked at. */
  function Added(nodes: Nodes, byId: map<string, Registration>, ids: set<string>, at: DateTime): Nodes
    requires ids <= byId.Keys
  {
    map id | id in nodes.Keys + ids :: if id in nodes then nodes[id] else NewRecord(byId[id].publicKey, at)
  }

  lemma AddsOne(nodes: Nodes, byId: map<string, Registration>, ids: set<string>, id: string, at: DateTime)
    requires ids <= byId.Keys && id in byId && id !in ids
    ensures var session := Added(nodes, byId, ids, at);
      && Added(nodes, byId, ids + {id}, at) ==
           (if id in nodes then session else session[id := NewRecord(byId[id].publicKey, at)])
      && (id in session <==> id in nodes)
  {
  }

  lemma EmptyBatch(batch: seq<Registration>, byId: map<string, Registration>)
    requires Collected(SetOf(batch), byId) && byId.Keys == {}
    ensures SetOf(batch) == {} && Consistent(SetOf(batch)) && AllValid(SetOf(batch))
  {
    CollectedFacts(SetOf(batch), byId);
  }

  lemma AddedIsUnion(nodes: Nodes, batch: set<Registration>, byId: map<string, Registration>, at: DateTime)
    requires Collected(batch, byId)
    ensures byId.Keys == Ids(batch) && Added(nodes, byId, byId.Keys, at) == Union(nodes, batch, at)
  {
    CollectedFacts(batch, byId);
    assert Added(nodes, byId, byId.Keys, at).Keys == Union(nodes, batch, at).Keys;
  }

  lemma AgreementByNode(nodes: Nodes, batch: set<Registration>, byId: map<string, Registration>)
    requires Collected(batch, byId)
    ensures KeysAgree(nodes, byId, byId.Keys) <==> Agrees(nodes, batch)
  {
    if KeysAgree(nodes, byId, byId.Keys) {
      forall r | r in batch && r.nodeId in nodes ensures nodes[r.nodeId].publicKey == r.publicKey {
        assert byId[r.nodeId].publicKey == r.publicKey;
      }
    } else {
      var id :| id in byId && id in nodes && nodes[id].publicKey != byId[id].publicKey;
      assert byId[id] in batch;
    }
  }

  /** What Seed amounts to once the batch was collected: which commit the session would make. */
  lemma SeedFrom(nodes: Nodes, batch: set<Registration>, byId: map<string, Registration>, at: DateTime,
                 outcome: CommitOutcome)
    requires AllValid(batch) && Collected(batch, byId) && byId.Keys != {}
    ensures !KeysAgree(nodes, byId, byId.Keys) ==> Seed(nodes, batch, at, outcome) == (nodes, Err(SeedRefused))
    ensures KeysAgree(nodes, byId, byId.Keys) ==>
      Seed(nodes, batch, at, outcome) == Transaction(nodes, Added(nodes, byId, byId.Keys, at), outcome)
  {
    CollectedFacts(batch, byId);
    AgreementByNode(nodes, batch, byId);
    if Agrees(nodes, batch) {
      AddedIsUnion(nodes, batch, byId, at);
      UnionCount(nodes, batch, at);
      NotEmpty(batch, byId);
    }
  }

  lemma UnionCount(nodes: Nodes, batch: set<Registration>, at: DateTime)
    ensures |Union(nodes, batch, at)| - |nodes| == |Ids(batch) - nodes.Keys|
  {
    UnionGrows(nodes, batch, at);
  }

  lemma NotEmpty(batch: set<Registration>, byId: map<string, Registration>)
    requires Collected(batch, byId) && byId.Keys != {}
    ensures batch != {}
  {
    var id :| id in byId;
    assert byId[id] in batch;
  }
}
