/**
 Workers, network and aggregator together: honest workers assemble and sign, the network drops, duplicates, delays,
 reorders and alters at will but cannot sign for them, and one aggregator process ingests.
 */
module EndToEnd {
  import opened Prelude
  import opened Timestamps
  import opened Json
  import opened Events
  import opened ReplayPolicy
  import W = Worker
  import I = Ingestion
  import S = IngestionSafety
  import Utf8

  /** honest gives the camera of each node whose key only its own pipeline holds; encode is what gets signed. */
  datatype World = World(
    settings: SecuritySettings, registry: map<string, I.Key>, honest: map<string, string>, number: real -> Number,
    encode: Event -> seq<Utf8.Byte>)

  predicate Keyed(w: World) {
    w.honest.Keys <= w.registry.Keys
  }

  /** Honest nodes are registered, and no two events are signed as the same bytes. */
  ghost predicate Proper(w: World) {
    Keyed(w) && forall a: Event, b: Event :: w.encode(a) == w.encode(b) ==> a == b
  }

  /** The system as it is: canonical bytes are what workers sign and the aggregator verifies. */
  function Canonical(settings: SecuritySettings, registry: map<string, I.Key>, honest: map<string, string>,
                     number: real -> Number): World
  {
    World(settings, registry, honest, number, (e: Event) => CanonicalEventBytes(e))
  }

  lemma CanonicalIsProper(settings: SecuritySettings, registry: map<string, I.Key>, honest: map<string, string>,
                          number: real -> Number)
    requires honest.Keys <= registry.Keys
    ensures Proper(Canonical(settings, registry, honest, number))
  {
    var w := Canonical(settings, registry, honest, number);
    forall a: Event, b: Event | w.encode(a) == w.encode(b) ensures a == b {
      CanonicalEventBytesInjective(a, b);
    }
  }

  function Aggregating(w: World): I.Config {
    I.Config(w.settings, w.registry, w.encode)
  }

  function Who(w: World, id: string): W.Identity
    requires id in w.honest
  {
    W.Identity(id, w.honest[id])
  }

  function KeyOf(w: World, id: string): I.Key
    requires Keyed(w) && id in w.honest
  {
    w.registry[id]
  }

  function HonestKeys(w: World): set<I.Key>
    requires Keyed(w)
  {
    set id | id in w.honest :: KeyOf(w, id)
  }

  function SignatureOf(w: World, id: string, e: Event): I.Signature
    requires Keyed(w) && id in w.honest
  {
    I.Signature(KeyOf(w, id), w.encode(e))
  }

  /** What each honest worker assembled so far, the signatures they made, and the aggregator. */
  datatype System = System(assembled: map<string, seq<Event>>, signed: set<I.Signature>, aggregator: I.Aggregator)
  {
    function By(id: string): seq<Event> {
      if id in assembled then assembled[id] else []
    }
  }

  function Initial(): System {
    System(map[], {}, I.START)
  }

  /** The network may present any body with any signature, except one under an honest key that was never made. */
  predicate Possible(w: World, signed: set<I.Signature>, rq: I.Request)
    requires Keyed(w)
  {
    rq.envelope.signature.key in HonestKeys(w) ==> rq.envelope.signature in signed
  }

  datatype Step = Emit(id: string, frame: W.FrameInputs) | Deliver(step: I.Step)

  /** Assembling an event and signing it; a frame that fails to assemble leaves nothing behind. */
  function Issue(w: World, s: System, id: string, e: Event): System
    requires Keyed(w) && id in w.honest
  {
    s.(assembled := s.assembled[id := s.By(id) + [e]], signed := s.signed + {SignatureOf(w, id, e)})
  }

  function Next(w: World, s: System, step: Step): System
    requires Keyed(w)
  {
    match step
    case Emit(id, frame) =>
      if id !in w.honest then s
      else
        var r := W.Assemble(Who(w, id), w.number, W.IssuedBy(s.By(id)), frame);
        if r.Ok? then Issue(w, s, id, r.value) else s
    case Deliver(d) =>
      if Possible(w, s.signed, d.request) then s.(aggregator := I.Next(Aggregating(w), s.aggregator, d)) else s
  }

  function After(w: World, steps: seq<Step>): System
    requires Keyed(w)
  {
    if steps == [] then Initial() else Next(w, After(w, steps[..|steps| - 1]), steps[|steps| - 1])
  }

  // ---- What every run keeps ----

  ghost predicate WorkersInvariant(w: World, s: System) {
    forall id :: id in w.honest ==> W.Lawful(Who(w, id), s.By(id))
  }

  predicate MadeOver(w: World, id: string, es: seq<Event>, sig: I.Signature)
    requires Keyed(w) && id in w.honest
  {
    exists i :: 0 <= i < |es| && sig == SignatureOf(w, id, es[i])
  }

  /** Some honest worker made this signature over an event it had assembled. */
  ghost predicate Made(w: World, s: System, sig: I.Signature)
    requires Keyed(w)
  {
    exists id :: id in w.honest && MadeOver(w, id, s.By(id), sig)
  }

  ghost predicate SignaturesInvariant(w: World, s: System)
    requires Keyed(w)
  {
    forall sig :: sig in s.signed ==> Made(w, s, sig)
  }

  /** Every request that got past its first step was one the network could present. */
  ghost predicate NetworkInvariant(w: World, s: System)
    requires Keyed(w)
  {
    && (forall rq :: rq in s.aggregator.pending ==> Possible(w, s.signed, rq))
    && (forall r :: r in s.aggregator.reservations ==> Possible(w, s.signed, r.request))
  }

  ghost predicate Invariant(w: World, s: System)
    requires Keyed(w)
  {
    && WorkersInvariant(w, s) && SignaturesInvariant(w, s) && NetworkInvariant(w, s)
    && S.Reachable(Aggregating(w), s.aggregator)
  }

  lemma ByAfterIssue(w: World, s: System, id: string, e: Event, j: string)
    requires Proper(w) && id in w.honest
    ensures Issue(w, s, id, e).By(j) == if j == id then s.By(id) + [e] else s.By(j)
  {
  }

  lemma MadeOverNow(w: World, id: string, es: seq<Event>, e: Event)
    requires Proper(w) && id in w.honest
    ensures MadeOver(w, id, es + [e], SignatureOf(w, id, e))
  {
    assert (es + [e])[|es|] == e;
  }

  lemma MadeOverStill(w: World, id: string, es: seq<Event>, e: Event, sig: I.Signature)
    requires Proper(w) && id in w.honest && MadeOver(w, id, es, sig)
    ensures MadeOver(w, id, es + [e], sig)
  {
    var i :| 0 <= i < |es| && sig == SignatureOf(w, id, es[i]);
    assert (es + [e])[i] == es[i];
  }

  lemma MadeStill(w: World, s: System, id: string, e: Event, sig: I.Signature)
    requires Proper(w) && id in w.honest && Made(w, s, sig)
    ensures Made(w, Issue(w, s, id, e), sig)
  {
    var j :| j in w.honest && MadeOver(w, j, s.By(j), sig);
    if j == id { MadeOverStill(w, id, s.By(id), e, sig); }
    ByAfterIssue(w, s, id, e, j);
    assert MadeOver(w, j, Issue(w, s, id, e).By(j), sig);
  }

  lemma MadeNow(w: World, s: System, id: string, e: Event)
    requires Proper(w) && id in w.honest
    ensures Made(w, Issue(w, s, id, e), SignatureOf(w, id, e))
  {
    MadeOverNow(w, id, s.By(id), e);
    ByAfterIssue(w, s, id, e, id);
    assert MadeOver(w, id, Issue(w, s, id, e).By(id), SignatureOf(w, id, e));
  }

  lemma IssueKeepsWorkers(w: World, s: System, id: string, frame: W.FrameInputs, e: Event)
    requires Proper(w) && WorkersInvariant(w, s) && id in w.honest
    requires W.Assemble(Who(w, id), w.number, W.IssuedBy(s.By(id)), frame) == Ok(e)
    ensures WorkersInvariant(w, Issue(w, s, id, e))
  {
    var t := Issue(w, s, id, e);
    W.AssembleLawful(Who(w, id), w.number, s.By(id), frame);
    forall j | j in w.honest ensures W.Lawful(Who(w, j), t.By(j)) {
      ByAfterIssue(w, s, id, e, j);
    }
  }

  lemma IssueKeepsSignatures(w: World, s: System, id: string, e: Event)
    requires Proper(w) && SignaturesInvariant(w, s) && id in w.honest
    ensures SignaturesInvariant(w, Issue(w, s, id, e))
  {
    forall sig | sig in Issue(w, s, id, e).signed ensures Made(w, Issue(w, s, id, e), sig) {
      if sig in s.signed { MadeStill(w, s, id, e, sig); } else { MadeNow(w, s, id, e); }
    }
  }

  lemma IssueKeepsNetwork(w: World, s: System, id: string, e: Event)
    requires Proper(w) && NetworkInvariant(w, s) && id in w.honest
    ensures NetworkInvariant(w, Issue(w, s, id, e))
  {
  }

  lemma NextRequests(cfg: I.Config, a: I.Aggregator, step: I.Step)
    ensures forall rq :: rq in I.Next(cfg, a, step).pending ==> rq in a.pending || rq == step.request
    ensures forall r :: r in I.Next(cfg, a, step).reservations ==> r in a.reservations || r.request == step.request
  {
  }

  lemma DeliverKeeps(w: World, s: System, step: I.Step)
    requires Proper(w) && Invariant(w, s) && Possible(w, s.signed, step.request)
    ensures Invariant(w, s.(aggregator := I.Next(Aggregating(w), s.aggregator, step)))
  {
    var cfg := Aggregating(w);
    NextRequests(cfg, s.aggregator, step);
    var steps :| s.aggregator == I.After(cfg, I.START, steps);
    assert (steps + [step])[..|steps|] == steps;
    assert I.Next(cfg, s.aggregator, step) == I.After(cfg, I.START, steps + [step]);
  }

  lemma StepKeeps(w: World, s: System, step: Step)
    requires Proper(w) && Invariant(w, s)
    ensures Invariant(w, Next(w, s, step))
  {
    match step
    case Emit(id, frame) =>
      if id in w.honest {
        var r := W.Assemble(Who(w, id), w.number, W.IssuedBy(s.By(id)), frame);
        if r.Ok? {
          IssueKeepsWorkers(w, s, id, frame, r.value);
          IssueKeepsSignatures(w, s, id, r.value);
          IssueKeepsNetwork(w, s, id, r.value);
        }
      }
    case Deliver(d) => if Possible(w, s.signed, d.request) { DeliverKeeps(w, s, d); }
  }

  lemma {:induction false} RunsKeepInvariant(w: World, steps: seq<Step>)
    requires Proper(w)
    ensures Invariant(w, After(w, steps))
  {
    if steps == [] {
      assert I.After(Aggregating(w), I.START, []) == I.START;
    } else {
      RunsKeepInvariant(w, steps[..|steps| - 1]);
      StepKeeps(w, After(w, steps[..|steps| - 1]), steps[|steps| - 1]);
    }
  }

  // ---- End to end ----

  /** Some run of the workers, the network and the aggregator leads to s. */
  ghost predicate Reachable(w: World, s: System)
    requires Keyed(w)
  {
    exists steps :: s == After(w, steps)
  }

  lemma ReachableInvariant(w: World, s: System)
    requires Proper(w) && Reachable(w, s)
    ensures Invariant(w, s) && I.Invariant(Aggregating(w), s.aggregator)
  {
    var steps :| s == After(w, steps);
    RunsKeepInvariant(w, steps);
    S.ReachableInvariant(Aggregating(w), s.aggregator);
  }

  lemma SameSignature(w: World, id: string, j: string, a: Event, b: Event)
    requires Proper(w) && id in w.honest && j in w.honest && SignatureOf(w, id, a) == SignatureOf(w, j, b)
    ensures a == b
  {
    assert w.encode(a) == w.encode(b);
  }

  lemma SignerAssembled(w: World, s: System, e: Event) returns (i: nat)
    requires Proper(w) && WorkersInvariant(w, s) && e.nodeId in w.honest && Made(w, s, SignatureOf(w, e.nodeId, e))
    ensures i < |s.By(e.nodeId)| && s.By(e.nodeId)[i] == e
  {
    var sig := SignatureOf(w, e.nodeId, e);
    var id :| id in w.honest && MadeOver(w, id, s.By(id), sig);
    i :| 0 <= i < |s.By(id)| && sig == SignatureOf(w, id, s.By(id)[i]);
    SameSignature(w, e.nodeId, id, e, s.By(id)[i]);
    W.SequenceInvariant(Who(w, id), s.By(id));
  }

  /** An authentic request in an honest node's name carries an event that node assembled. */
  lemma GenuineIsAssembled(w: World, s: System, rq: I.Request) returns (i: nat)
    requires Proper(w) && Invariant(w, s) && Possible(w, s.signed, rq) && I.Authentic(Aggregating(w), rq)
    requires rq.envelope.body.nodeId in w.honest
    ensures var e := rq.envelope.body; i < |s.By(e.nodeId)| && s.By(e.nodeId)[i] == e
  {
    var e := rq.envelope.body;
    assert rq.envelope.signature == SignatureOf(w, e.nodeId, e);
    assert rq.envelope.signature.key in HonestKeys(w);
    i := SignerAssembled(w, s, e);
  }

  /** Every durable row in an honest node's name is an event that node's worker assembled. */
  lemma RowsAreAssembled(w: World, s: System, r: nat) returns (i: nat)
    requires Proper(w) && Reachable(w, s) && r < |s.aggregator.events|
    requires s.aggregator.events[r].body.nodeId in w.honest
    ensures var e := s.aggregator.events[r].body; i < |s.By(e.nodeId)| && s.By(e.nodeId)[i] == e
  {
    ReachableInvariant(w, s);
    var k := S.RowReservation(Aggregating(w), s.aggregator, r);
    assert s.aggregator.reservations[k] in s.aggregator.reservations;
    i := GenuineIsAssembled(w, s, s.aggregator.reservations[k].request);
  }

  /** No event is stored twice, and an honest node's rows have distinct sequence numbers, identifiers and nonces. */
  lemma RowsAreDistinct(w: World, s: System, q: nat, r: nat)
    requires Proper(w) && Reachable(w, s) && q < r < |s.aggregator.events|
    ensures var a, b := s.aggregator.events[q].body, s.aggregator.events[r].body;
      && a != b
      && (a.nodeId == b.nodeId && a.nodeId in w.honest ==>
            a.frameSeq != b.frameSeq && a.eventId != b.eventId && a.nonce != b.nonce)
  {
    ReachableInvariant(w, s);
    S.OneRowPerSignedEvent(Aggregating(w), s.aggregator, q, r);
    var a, b := s.aggregator.events[q].body, s.aggregator.events[r].body;
    if a.nodeId == b.nodeId && a.nodeId in w.honest {
      var i := RowsAreAssembled(w, s, q);
      var j := RowsAreAssembled(w, s, r);
      DistinctlyIssued(w, s, a.nodeId, i, j);
    }
  }

  lemma DistinctlyIssued(w: World, s: System, id: string, i: nat, j: nat)
    requires WorkersInvariant(w, s) && id in w.honest && i < |s.By(id)| && j < |s.By(id)| && i != j
    ensures var a, b := s.By(id)[i], s.By(id)[j];
      a.frameSeq != b.frameSeq && a.eventId != b.eventId && a.nonce != b.nonce
  {
    W.SequenceInvariant(Who(w, id), s.By(id));
  }

  /** Two events of one honest worker that share an identifier or a nonce are the same event. */
  lemma SharingIsSame(w: World, s: System, id: string, i: nat, j: nat)
    requires WorkersInvariant(w, s) && id in w.honest && i < |s.By(id)| && j < |s.By(id)|
    requires Shares(I.ClaimOf(s.By(id)[i]), I.ClaimOf(s.By(id)[j]))
    ensures i == j
  {
    if i != j { DistinctlyIssued(w, s, id, i, j); }
  }

  /**
   A first delivery is never rejected as a replay: when the lock refuses an honest node's authentic event as one,
   another request carrying that very event had already been reserved.
   */
  lemma ReplayRejectionIsRedelivery(w: World, s: System, rq: I.Request, c: Candidate) returns (k: nat)
    requires Proper(w) && Reachable(w, s) && rq in s.aggregator.pending
    requires s.aggregator.pending[rq] == I.Prepared(c) && rq.envelope.body.nodeId in w.honest
    requires IsReplay(Reserve(s.aggregator.policy, c).1)
    ensures var rs := s.aggregator.reservations;
      k < |rs| && rs[k].request != rq && rs[k].request.envelope.body == rq.envelope.body
  {
    ReachableInvariant(w, s);
    k := Cause(w, s.aggregator, rq, c);
    var rs := s.aggregator.reservations;
    assert rs[k] in rs;
    var i := GenuineIsAssembled(w, s, rq);
    var j := GenuineIsAssembled(w, s, rs[k].request);
    SharingIsSame(w, s, rq.envelope.body.nodeId, j, i);
  }

  lemma Cause(w: World, a: I.Aggregator, rq: I.Request, c: Candidate) returns (k: nat)
    requires S.Reachable(Aggregating(w), a) && I.Invariant(Aggregating(w), a)
    requires rq in a.pending && a.pending[rq] == I.Prepared(c) && IsReplay(Reserve(a.policy, c).1)
    ensures k < |a.reservations| && a.reservations[k].request != rq
    ensures I.Authentic(Aggregating(w), rq) && I.Authentic(Aggregating(w), a.reservations[k].request)
    ensures Shares(I.ClaimOf(a.reservations[k].request.envelope.body), I.ClaimOf(rq.envelope.body))
  {
    assert I.PhaseInvariant(Aggregating(w), a, rq, I.Prepared(c));
    k := S.ReplayRejectionHasCause(Aggregating(w), a, c);
    assert a.reservations[k] in a.reservations;
  }
}
