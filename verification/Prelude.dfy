/** Shared result types and small facts about finite sets and sequences. */
module Prelude {
  datatype Option<+T> = None | Some(value: T)

  datatype Result<+T, +E> = Ok(value: T) | Err(error: E)

  /** What a database commit can turn out to be. The caller of a failed commit cannot tell the last two apart. */
  datatype CommitOutcome = Committed | FailedNotDurable | FailedDurable {
    predicate Durable() { !FailedNotDurable? }
  }

  function SetOf<T>(s: seq<T>): set<T> {
    set x | x in s
  }

  ghost predicate Distinct<T(!new)>(s: seq<T>) {
    forall i, j :: 0 <= i < j < |s| ==> s[i] != s[j]
  }

  lemma {:induction false} DistinctSize<T(!new)>(s: seq<T>)
    requires Distinct(s)
    ensures |SetOf(s)| == |s|
  {
    if s == [] {
      assert SetOf(s) == {};
    } else {
      var init, last := s[..|s| - 1], s[|s| - 1];
      assert s == init + [last];
      DistinctSize(init);
      assert SetOf(s) == SetOf(init) + {last};
      assert last !in init;
    }
  }

  lemma {:induction false} SubsetSize<T(!new)>(a: set<T>, b: set<T>)
    requires a <= b
    ensures |a| <= |b|
  {
    if a != {} {
      var x :| x in a;
      SubsetSize(a - {x}, b - {x});
    }
  }

  /** A function that is one-to-one on a set does not change its size. */
  lemma {:induction false} ImageSize<T(!new)>(s: set<nat>, f: nat -> T)
    requires forall i, j :: i in s && j in s && f(i) == f(j) ==> i == j
    ensures |set i | i in s :: f(i)| == |s|
  {
    var image := set i | i in s :: f(i);
    if s == {} {
      assert image == {};
    } else {
      var x :| x in s;
      var rest := s - {x};
      ImageSize(rest, f);
      assert image == (set i | i in rest :: f(i)) + {f(x)};
    }
  }
}
