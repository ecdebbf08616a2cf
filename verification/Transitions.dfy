/** Runs of a system of labelled steps, and induction over them. */
module Transitions {

  datatype System<!S, !A> = System(enabled: (S, A) -> bool, apply: (S, A) -> S)

  /** `acts` can be carried out one after the other from `s`. */
  ghost predicate CanRun<S, A>(sys: System<S, A>, s: S, acts: seq<A>)
    decreases |acts|
  {
    acts == [] || (sys.enabled(s, acts[0]) && CanRun(sys, sys.apply(s, acts[0]), acts[1..]))
  }

  /** The state after `acts`. */
  ghost function After<S, A>(sys: System<S, A>, s: S, acts: seq<A>): S
    decreases |acts|
  {
    if acts == [] then s else After(sys, sys.apply(s, acts[0]), acts[1..])
  }

  /** A property that every step keeps holds after every run. */
  ghost predicate Kept<S(!new), A(!new)>(sys: System<S, A>, inv: S -> bool)
  {
    forall s, a :: inv(s) && sys.enabled(s, a) ==> inv(sys.apply(s, a))
  }

  lemma {:induction false} Always<S(!new), A(!new)>(sys: System<S, A>, inv: S -> bool, s: S, acts: seq<A>)
    requires Kept(sys, inv) && inv(s) && CanRun(sys, s, acts)
    ensures inv(After(sys, s, acts))
    decreases |acts|
  {
    if acts != [] {
      Always(sys, inv, sys.apply(s, acts[0]), acts[1..]);
    }
  }

  lemma {:induction false} Compose<S, A>(sys: System<S, A>, s: S, a: seq<A>, b: seq<A>)
    ensures CanRun(sys, s, a + b) <==> CanRun(sys, s, a) && CanRun(sys, After(sys, s, a), b)
    ensures After(sys, s, a + b) == After(sys, After(sys, s, a), b)
    decreases |a|
  {
    if a == [] {
      assert a + b == b;
    } else {
      assert (a + b)[1..] == a[1..] + b;
      Compose(sys, sys.apply(s, a[0]), a[1..], b);
    }
  }

  /** One more step at the end of a run. */
  lemma Extend<S, A>(sys: System<S, A>, s: S, acts: seq<A>, a: A)
    ensures CanRun(sys, s, acts + [a]) <==> CanRun(sys, s, acts) && sys.enabled(After(sys, s, acts), a)
    ensures After(sys, s, acts + [a]) == sys.apply(After(sys, s, acts), a)
  {
    Compose(sys, s, acts, [a]);
    var t := After(sys, s, acts);
    assert [a][1..] == [];
    assert CanRun(sys, sys.apply(t, a), [a][1..]);
  }

  /** One step, then some more. */
  lemma Prepend<S, A>(sys: System<S, A>, s: S, a: A, acts: seq<A>)
    requires sys.enabled(s, a) && CanRun(sys, sys.apply(s, a), acts)
    ensures CanRun(sys, s, [a] + acts)
    ensures After(sys, s, [a] + acts) == After(sys, sys.apply(s, a), acts)
  {
    assert ([a] + acts)[1..] == acts;
  }
}
