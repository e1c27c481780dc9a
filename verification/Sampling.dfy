/** The frame sampling gate (worker.py), over exact reals: spacing, the rate bound, and that no choice does better. */
module Sampling {
  import opened Prelude

  /** When the gate next opens; a new gate is open. */
  type Opening = Option<real>

  predicate Open(next: Opening, t: real) {
    next.None? || next.value <= t
  }

  function AfterFrame(next: Opening, t: real, interval: real): Opening {
    if Open(next, t) then Some(t + interval) else next
  }

  /** Which frames the gate lets through. */
  function Greedy(ts: seq<real>, next: Opening, interval: real): (mask: seq<bool>)
    ensures |mask| == |ts|
  {
    if ts == [] then [] else [Open(next, ts[0])] + Greedy(ts[1..], AfterFrame(next, ts[0], interval), interval)
  }

  function Chosen(mask: seq<bool>): nat {
    if mask == [] then 0 else (if mask[0] then 1 else 0) + Chosen(mask[1..])
  }

  predicate NonDecreasing(ts: seq<real>) {
    forall i, j :: 0 <= i <= j < |ts| ==> ts[i] <= ts[j]
  }

  /** Any two chosen frames are at least an interval apart. */
  predicate Spaced(ts: seq<real>, mask: seq<bool>, interval: real)
    requires |ts| == |mask|
  {
    forall i, j :: 0 <= i < j < |ts| && mask[i] && mask[j] ==> ts[i] + interval <= ts[j]
  }

  /** Every chosen frame comes at or after the opening. */
  predicate NotBefore(ts: seq<real>, mask: seq<bool>, next: Opening)
    requires |ts| == |mask|
  {
    forall i :: 0 <= i < |ts| && mask[i] ==> Open(next, ts[i])
  }

  lemma {:induction false} GreedySpaced(ts: seq<real>, next: Opening, interval: real)
    requires NonDecreasing(ts) && interval >= 0.0
    ensures Spaced(ts, Greedy(ts, next, interval), interval)
    ensures NotBefore(ts, Greedy(ts, next, interval), next)
  {
    if ts != [] {
      var after := AfterFrame(next, ts[0], interval);
      GreedySpaced(ts[1..], after, interval);
      var mask, rest := Greedy(ts, next, interval), Greedy(ts[1..], after, interval);
      assert mask[1..] == rest;
      forall i, j | 0 <= i < j < |ts| && mask[i] && mask[j] ensures ts[i] + interval <= ts[j] {
        assert rest[j - 1] && Open(after, ts[1..][j - 1]);
        if i > 0 { assert rest[i - 1] && ts[1..][i - 1] + interval <= ts[1..][j - 1]; }
      }
      forall i | 0 <= i < |ts| && mask[i] ensures Open(next, ts[i]) {
        if i > 0 { assert rest[i - 1] && Open(after, ts[1..][i - 1]); }
      }
    }
  }

  /** A spaced choice loses at most its first frame when the gate has just closed behind time t. */
  lemma {:induction false} ClosedGateCostsOne(ts: seq<real>, mask: seq<bool>, t: real, interval: real)
    requires |ts| == |mask| && NonDecreasing(ts) && Spaced(ts, mask, interval) && interval >= 0.0
    requires forall i :: 0 <= i < |ts| ==> t <= ts[i]
    ensures Chosen(mask) <= 1 + Chosen(Greedy(ts, Some(t + interval), interval))
    decreases |ts|, 1
  {
    if ts != [] {
      var rest := Greedy(ts, Some(t + interval), interval)[1..];
      var after := AfterFrame(Some(t + interval), ts[0], interval);
      assert rest == Greedy(ts[1..], after, interval);
      if mask[0] {
        assert NotBefore(ts[1..], mask[1..], after) by {
          forall i | 0 <= i < |ts[1..]| && mask[1..][i] ensures Open(after, ts[1..][i]) {
            assert mask[0] && mask[i + 1] && ts[0] + interval <= ts[i + 1];
          }
        }
        GreedyBest(ts[1..], mask[1..], after, interval);
      } else if Open(Some(t + interval), ts[0]) {
        ClosedGateCostsOne(ts[1..], mask[1..], ts[0], interval);
      } else {
        ClosedGateCostsOne(ts[1..], mask[1..], t, interval);
      }
    }
  }

  /** No spaced choice of frames at or after the opening is larger than the gate's. */
  lemma {:induction false} GreedyBest(ts: seq<real>, mask: seq<bool>, next: Opening, interval: real)
    requires |ts| == |mask| && NonDecreasing(ts) && Spaced(ts, mask, interval) && interval >= 0.0
    requires NotBefore(ts, mask, next)
    ensures Chosen(mask) <= Chosen(Greedy(ts, next, interval))
    decreases |ts|, 0
  {
    if ts != [] {
      var after := AfterFrame(next, ts[0], interval);
      assert Greedy(ts, next, interval)[1..] == Greedy(ts[1..], after, interval);
      if mask[0] {
        assert Open(next, ts[0]);
        assert NotBefore(ts[1..], mask[1..], after) by {
          forall i | 0 <= i < |ts[1..]| && mask[1..][i] ensures Open(after, ts[1..][i]) {
            assert mask[0] && mask[i + 1] && ts[0] + interval <= ts[i + 1];
          }
        }
        GreedyBest(ts[1..], mask[1..], after, interval);
      } else if Open(next, ts[0]) {
        ClosedGateCostsOne(ts[1..], mask[1..], ts[0], interval);
      } else {
        GreedyBest(ts[1..], mask[1..], next, interval);
      }
    }
  }

  /** For every non-decreasing timeline the gate's frames are spaced, and no other spaced choice has more. */
  lemma GreedySamplingIsOptimal(ts: seq<real>, mask: seq<bool>, interval: real)
    requires |ts| == |mask| && NonDecreasing(ts) && Spaced(ts, mask, interval) && interval > 0.0
    ensures Spaced(ts, Greedy(ts, None, interval), interval)
    ensures Chosen(mask) <= Chosen(Greedy(ts, None, interval))
  {
    GreedySpaced(ts, None, interval);
    GreedyBest(ts, mask, None, interval);
  }

  /** n intervals end to end. */
  function Stretch(n: nat, interval: real): real {
    if n == 0 then 0.0 else interval + Stretch(n - 1, interval)
  }

  lemma {:induction false} StretchIsProduct(n: nat, interval: real)
    ensures Stretch(n, interval) == n as real * interval
  {
    if n > 0 {
      StretchIsProduct(n - 1, interval);
      var k := (n - 1) as real;
      assert n as real == k + 1.0;
      assert (k + 1.0) * interval == k * interval + interval;
    }
  }

  /** k spaced frames, all an interval or more after t, take k intervals from t. */
  lemma {:induction false} SpacedAfter(ts: seq<real>, mask: seq<bool>, t: real, interval: real)
    requires |ts| == |mask| && ts != [] && NonDecreasing(ts) && Spaced(ts, mask, interval) && interval >= 0.0
    requires t <= ts[0] && forall i :: 0 <= i < |ts| && mask[i] ==> t + interval <= ts[i]
    ensures Stretch(Chosen(mask), interval) <= ts[|ts| - 1] - t
    decreases |ts|
  {
    if |ts| == 1 {
      assert mask[1..] == [];
    } else if mask[0] {
      forall i | 0 <= i < |ts[1..]| && mask[1..][i] ensures ts[0] + interval <= ts[1..][i] {
        assert mask[i + 1];
      }
      SpacedAfter(ts[1..], mask[1..], ts[0], interval);
    } else {
      SpacedAfter(ts[1..], mask[1..], t, interval);
    }
  }

  /** k spaced frames take at least k - 1 intervals. */
  lemma {:induction false} SpacedSpan(ts: seq<real>, mask: seq<bool>, interval: real)
    requires |ts| == |mask| && ts != [] && NonDecreasing(ts) && Spaced(ts, mask, interval) && interval >= 0.0
    ensures Chosen(mask) > 0 ==> Stretch(Chosen(mask) - 1, interval) <= ts[|ts| - 1] - ts[0]
    decreases |ts|
  {
    if |ts| == 1 {
      assert mask[1..] == [];
    } else if mask[0] {
      forall i | 0 <= i < |ts[1..]| && mask[1..][i] ensures ts[0] + interval <= ts[1..][i] {
        assert mask[i + 1];
      }
      SpacedAfter(ts[1..], mask[1..], ts[0], interval);
    } else {
      SpacedSpan(ts[1..], mask[1..], interval);
    }
  }

  /** At rate frames per second the gate passes at most floor(T * rate) + 1 frames over a span of T seconds. */
  lemma RateBound(ts: seq<real>, rate: real)
    requires ts != [] && NonDecreasing(ts) && rate > 0.0
    ensures Chosen(Greedy(ts, None, 1.0 / rate)) <= ((ts[|ts| - 1] - ts[0]) * rate).Floor + 1
  {
    var interval := 1.0 / rate;
    var mask := Greedy(ts, None, interval);
    GreedySpaced(ts, None, interval);
    SpacedSpan(ts, mask, interval);
    if Chosen(mask) > 0 {
      var n := Chosen(mask) - 1;
      var k, span := n as real, ts[|ts| - 1] - ts[0];
      StretchIsProduct(n, interval);
      assert interval * rate == 1.0;
      ScaleUp(k * interval, span, rate);
      assert (k * interval) * rate == k * (interval * rate) == k;
    }
  }

  lemma ScaleUp(a: real, b: real, c: real)
    requires a <= b && c > 0.0
    ensures a * c <= b * c
  {
  }

  // ---- The object ----

  datatype GateError = InvalidTiming | MovedBackwards

  /** None stands for a timestamp that is not a non-negative finite number. */
  class SamplingGate {
    const interval: real
    var lastObserved: Option<real>
    var nextAllowed: Opening
    ghost var observed: seq<real>

    ghost predicate Valid()
      reads this
    {
      && interval > 0.0
      && NonDecreasing(observed)
      && lastObserved == (if observed == [] then None else Some(observed[|observed| - 1]))
      && nextAllowed == OpeningAfter(observed, None, interval)
    }

    constructor (rate: real)
      requires rate > 0.0
      ensures Valid() && interval == 1.0 / rate && observed == []
    {
      interval := 1.0 / rate;
      lastObserved, nextAllowed, observed := None, None, [];
    }

    /** Accepts the next frame exactly when the greedy choice over everything observed so far takes it. */
    method Accept(timestamp: Option<real>) returns (r: Result<bool, GateError>)
      requires Valid()
      modifies this
      ensures Valid()
      ensures r.Ok? <==>
        (timestamp.Some? && timestamp.value >= 0.0 && (old(lastObserved).Some? ==> old(lastObserved).value <= timestamp.value))
      ensures r == Err(InvalidTiming) <==> timestamp.None? || timestamp.value < 0.0
      ensures r == Err(MovedBackwards) <==>
        (timestamp.Some? && timestamp.value >= 0.0 &&
         old(lastObserved).Some? && timestamp.value < old(lastObserved).value)
      ensures r.Err? ==> observed == old(observed) && nextAllowed == old(nextAllowed)
      ensures r.Ok? ==> observed == old(observed) + [timestamp.value]
      ensures r.Ok? ==> (r.value <==> Open(old(nextAllowed), timestamp.value))
      ensures r.Ok? ==> Greedy(observed, None, interval) == Greedy(old(observed), None, interval) + [r.value]
    {
      if timestamp.None? || timestamp.value < 0.0 {
        return Err(InvalidTiming);
      }
      var current := timestamp.value;
      if lastObserved.Some? && current < lastObserved.value {
        return Err(MovedBackwards);
      }
      GreedyExtends(observed, current, None, interval);
      lastObserved := Some(current);
      observed := observed + [current];
      if nextAllowed.Some? && current < nextAllowed.value {
        return Ok(false);
      }
      nextAllowed := Some(current + interval);
      return Ok(true);
    }
  }

  ghost function OpeningAfter(ts: seq<real>, next: Opening, interval: real): Opening {
    if ts == [] then next else OpeningAfter(ts[1..], AfterFrame(next, ts[0], interval), interval)
  }

  lemma {:induction false} GreedyExtends(ts: seq<real>, t: real, next: Opening, interval: real)
    ensures Greedy(ts + [t], next, interval) ==
      Greedy(ts, next, interval) + [Open(OpeningAfter(ts, next, interval), t)]
    ensures OpeningAfter(ts + [t], next, interval) == AfterFrame(OpeningAfter(ts, next, interval), t, interval)
  {
    if ts == [] {
      assert ts + [t] == [t] && [t][1..] == [];
    } else {
      var after := AfterFrame(next, ts[0], interval);
      assert (ts + [t])[1..] == ts[1..] + [t];
      GreedyExtends(ts[1..], t, after, interval);
    }
  }
}
