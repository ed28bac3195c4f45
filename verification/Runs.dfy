/** Runs of a step relation: a sequence of states and the labels of the steps between them. */
module Runs {

  datatype Run<S, L> = Run(states: seq<S>, steps: seq<L>)

  ghost predicate IsRun<S, L>(next: (S, L, S) -> bool, r: Run<S, L>) {
    && |r.states| == |r.steps| + 1
    && forall i {:trigger r.steps[i]} :: 0 <= i < |r.steps| ==> next(r.states[i], r.steps[i], r.states[i + 1])
  }

  ghost function Last<S, L>(r: Run<S, L>): S
    requires r.states != []
  {
    r.states[|r.states| - 1]
  }

  function Extended<S, L>(r: Run<S, L>, l: L, t: S): Run<S, L> {
    Run(r.states + [t], r.steps + [l])
  }

  lemma ExtendedIsRun<S(!new), L(!new)>(next: (S, L, S) -> bool, r: Run<S, L>, l: L, t: S)
    requires IsRun(next, r) && next(Last(r), l, t)
    ensures IsRun(next, Extended(r, l, t)) && Last(Extended(r, l, t)) == t
  {
    var more := Extended(r, l, t);
    forall i | 0 <= i < |more.steps|
      ensures next(more.states[i], more.steps[i], more.states[i + 1])
    {
      assert i < |r.steps| ==> more.steps[i] == r.steps[i];
    }
  }

  ghost predicate Preserves<S(!new), L(!new)>(next: (S, L, S) -> bool, inv: S -> bool) {
    forall s, l, t :: inv(s) && next(s, l, t) ==> inv(t)
  }

  /** What holds at some point of a run and is kept by every step holds ever after. */
  lemma {:induction false} HoldsAlong<S(!new), L(!new)>(next: (S, L, S) -> bool, inv: S -> bool, r: Run<S, L>, m: nat, n: nat)
    requires IsRun(next, r) && m <= n < |r.states|
    requires inv(r.states[m]) && Preserves(next, inv)
    ensures inv(r.states[n])
  {
    if n > m {
      HoldsAlong(next, inv, r, m, n - 1);
      assert next(r.states[n - 1], r.steps[n - 1], r.states[n]);
    }
  }

  ghost predicate Joins<S, L>(next: (S, L, S) -> bool, r: Run<S, L>, s: S, t: S) {
    IsRun(next, r) && r.states[0] == s && Last(r) == t
  }

  ghost predicate Reaches<S(!new), L(!new)>(next: (S, L, S) -> bool, s: S, t: S) {
    exists r: Run<S, L> :: Joins(next, r, s, t)
  }

  lemma StayPut<S(!new), L(!new)>(next: (S, L, S) -> bool, s: S)
    ensures Reaches(next, s, s)
  {
    assert Joins(next, Run([s], []), s, s);
  }

  lemma OneStep<S(!new), L(!new)>(next: (S, L, S) -> bool, s: S, l: L, t: S)
    requires next(s, l, t)
    ensures Reaches(next, s, t)
  {
    assert Joins(next, Run([s, t], [l]), s, t);
  }

  lemma Compose<S(!new), L(!new)>(next: (S, L, S) -> bool, s: S, t: S, u: S)
    requires Reaches(next, s, t) && Reaches(next, t, u)
    ensures Reaches(next, s, u)
  {
    var r1 :| Joins(next, r1, s, t);
    var r2 :| Joins(next, r2, t, u);
    var n := |r1.steps|;
    var r := Run(r1.states + r2.states[1..], r1.steps + r2.steps);
    forall i | 0 <= i < |r.steps|
      ensures next(r.states[i], r.steps[i], r.states[i + 1])
    {
      if i < n {
        assert r.steps[i] == r1.steps[i];
      } else {
        assert r.steps[i] == r2.steps[i - n];
        assert r.states[i] == r2.states[i - n];
      }
    }
    assert Joins(next, r, s, u);
  }
}
