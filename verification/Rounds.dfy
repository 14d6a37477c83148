/** Bottom-up evaluation in rounds: one rule derives facts from facts, another derives
    outputs from facts, and every round works on the facts of the round before. */
module Rounds {
  import opened Collections
  import opened Reachability

  ghost function Outputs<T(!new), S(!new)>(out: T -> set<S>, facts: set<T>): set<S> {
    set f, s | f in facts && s in out(f) :: s
  }

  /** The outputs collected after `n` rounds; round `k` adds those of the facts at depth `k`. */
  ghost function Collected<T(!new), S(!new)>(succ: T -> set<T>, out: T -> set<S>,
                                             seeds: set<T>, base: set<S>, n: nat): set<S> {
    if n == 0 then base else base + Outputs(out, Within(succ, seeds, n - 1))
  }

  /** Round `k` (from zero) finds something new. */
  ghost predicate RoundAdds<T(!new), S(!new)>(succ: T -> set<T>, out: T -> set<S>,
                                              seeds: set<T>, base: set<S>, k: nat) {
    || |Within(succ, seeds, k)| < |Within(succ, seeds, k + 1)|
    || |Collected(succ, out, seeds, base, k)| < |Collected(succ, out, seeds, base, k + 1)|
  }

  /** Exactly the derivable facts, and exactly the outputs they give rise to. */
  ghost predicate LeastFixpoint<T(!new), S(!new)>(succ: T -> set<T>, out: T -> set<S>, seeds: set<T>, base: set<S>,
                                                  facts: set<T>, outputs: set<S>) {
    && (forall f :: f in facts <==> ReachedFrom(succ, seeds, f))
    && outputs == base + Outputs(out, facts)
  }

  lemma OutputsMonotone<T(!new), S(!new)>(out: T -> set<S>, a: set<T>, b: set<T>)
    requires a <= b
    ensures Outputs(out, a) <= Outputs(out, b)
  {
  }

  lemma CollectedMonotone<T(!new), S(!new)>(succ: T -> set<T>, out: T -> set<S>, seeds: set<T>, base: set<S>, k: nat)
    ensures Collected(succ, out, seeds, base, k) <= Collected(succ, out, seeds, base, k + 1)
  {
    if k > 0 {
      WithinMonotone(succ, seeds, k - 1, k);
      OutputsMonotone(out, Within(succ, seeds, k - 1), Within(succ, seeds, k));
    }
  }

  lemma CollectedNext<T(!new), S(!new)>(succ: T -> set<T>, out: T -> set<S>, seeds: set<T>, base: set<S>, k: nat)
    ensures Collected(succ, out, seeds, base, k) + Outputs(out, Within(succ, seeds, k))
            == Collected(succ, out, seeds, base, k + 1)
  {
    CollectedMonotone(succ, out, seeds, base, k);
  }

  /** The rounds start from the seeds and apply each rule once. */
  lemma RoundByRound<T(!new), S(!new)>(succ: T -> set<T>, out: T -> set<S>, seeds: set<T>, base: set<S>, k: nat)
    ensures Within(succ, seeds, 0) == seeds && Collected(succ, out, seeds, base, 0) == base
    ensures Within(succ, seeds, k + 1) == Step(succ, Within(succ, seeds, k))
    ensures Collected(succ, out, seeds, base, k + 1)
            == Collected(succ, out, seeds, base, k) + Outputs(out, Within(succ, seeds, k))
  {
    CollectedNext(succ, out, seeds, base, k);
  }

  lemma RoundCounted<T(!new), S(!new)>(succ: T -> set<T>, out: T -> set<S>, seeds: set<T>, base: set<S>, k: nat,
                                       newFacts: nat, newOutputs: nat)
    requires |Within(succ, seeds, k + 1)| == |Within(succ, seeds, k)| + newFacts
    requires |Collected(succ, out, seeds, base, k + 1)| == |Collected(succ, out, seeds, base, k)| + newOutputs
    ensures RoundAdds(succ, out, seeds, base, k) <==> newFacts > 0 || newOutputs > 0
  {
    hide Within, Collected;
  }

  lemma QuietIsFixed<T(!new), S(!new)>(succ: T -> set<T>, out: T -> set<S>, seeds: set<T>, base: set<S>, k: nat)
    requires !RoundAdds(succ, out, seeds, base, k)
    ensures Step(succ, Within(succ, seeds, k)) == Within(succ, seeds, k) == Within(succ, seeds, k + 1)
    ensures Collected(succ, out, seeds, base, k + 1) == Collected(succ, out, seeds, base, k)
  {
    SubsetSize(Within(succ, seeds, k), Within(succ, seeds, k + 1));
    CollectedMonotone(succ, out, seeds, base, k);
    SubsetSize(Collected(succ, out, seeds, base, k), Collected(succ, out, seeds, base, k + 1));
  }

  /** A quiet round is the end: what it leaves is the least fixpoint. */
  lemma QuietIsFixpoint<T(!new), S(!new)>(succ: T -> set<T>, out: T -> set<S>, seeds: set<T>, base: set<S>, k: nat)
    requires !RoundAdds(succ, out, seeds, base, k)
    ensures LeastFixpoint(succ, out, seeds, base, Within(succ, seeds, k + 1), Collected(succ, out, seeds, base, k + 1))
  {
    QuietIsFixed(succ, out, seeds, base, k);
    FixedIsClosed(succ, Within(succ, seeds, k));
    ClosedWithinIsReached(succ, seeds, k);
  }

  /** Rounds never start finding things again after a quiet one. */
  lemma {:induction false} QuietStaysQuiet<T(!new), S(!new)>(succ: T -> set<T>, out: T -> set<S>, seeds: set<T>, base: set<S>, k: nat, n: nat)
    requires k <= n && !RoundAdds(succ, out, seeds, base, k)
    ensures !RoundAdds(succ, out, seeds, base, n)
  {
    hide *;
    if k < n {
      QuietStaysQuiet(succ, out, seeds, base, k, n - 1);
      QuietIsFixed(succ, out, seeds, base, n - 1);
      SameFactsQuiet(succ, out, seeds, base, n);
    }
  }

  lemma SameFactsQuiet<T(!new), S(!new)>(succ: T -> set<T>, out: T -> set<S>, seeds: set<T>, base: set<S>, n: nat)
    requires n > 0 && Within(succ, seeds, n) == Within(succ, seeds, n - 1)
    ensures !RoundAdds(succ, out, seeds, base, n)
  {
    assert Within(succ, seeds, n + 1) == Step(succ, Within(succ, seeds, n)) == Within(succ, seeds, n);
  }

  /** Whatever the number of rounds, nothing underivable is ever recorded. */
  lemma RoundsAreSound<T(!new), S(!new)>(succ: T -> set<T>, out: T -> set<S>, seeds: set<T>, base: set<S>, n: nat)
    ensures forall f | f in Within(succ, seeds, n) :: ReachedFrom(succ, seeds, f)
    ensures forall s | s in Collected(succ, out, seeds, base, n) :: s in base || DerivableOutput(succ, out, seeds, s)
  {
    hide Within, ReachedFrom, Collected;
    forall f | f in Within(succ, seeds, n)
      ensures ReachedFrom(succ, seeds, f)
    {
      WithinIsReached(succ, seeds, n, f);
    }
    forall s | s in Collected(succ, out, seeds, base, n)
      ensures s in base || DerivableOutput(succ, out, seeds, s)
    {
      CollectedIsDerivable(succ, out, seeds, base, n, s);
    }
  }

  /** Some derivable fact gives rise to the output. */
  ghost predicate DerivableOutput<T(!new), S(!new)>(succ: T -> set<T>, out: T -> set<S>, seeds: set<T>, s: S) {
    exists f :: ReachedFrom(succ, seeds, f) && s in out(f)
  }

  lemma CollectedIsDerivable<T(!new), S(!new)>(succ: T -> set<T>, out: T -> set<S>, seeds: set<T>, base: set<S>, n: nat, s: S)
    requires s in Collected(succ, out, seeds, base, n)
    ensures s in base || DerivableOutput(succ, out, seeds, s)
  {
    hide Within, ReachedFrom;
    if s !in base {
      var f :| f in Within(succ, seeds, n - 1) && s in out(f);
      WithinIsReached(succ, seeds, n - 1, f);
    }
  }

  lemma WithinIsReached<T(!new)>(succ: T -> set<T>, seeds: set<T>, n: nat, f: T)
    requires f in Within(succ, seeds, n)
    ensures ReachedFrom(succ, seeds, f)
  {
    WithinHasWalk(succ, seeds, n, f);
    var p :| Walk(succ, p) && |p| <= n + 1 && p[0] in seeds && p[|p| - 1] == f;
    assert WalkFromTo(succ, p, p[0], f);
  }

  /** When no derivation needs more than `depth` steps, the round after next is quiet. */
  lemma ShallowIsQuiet<T(!new), S(!new)>(succ: T -> set<T>, out: T -> set<S>, seeds: set<T>, base: set<S>, depth: nat)
    requires forall f :: ReachedFrom(succ, seeds, f) ==> AtDepth(succ, seeds, depth, f)
    ensures !RoundAdds(succ, out, seeds, base, depth + 1)
  {
    WithinMonotone(succ, seeds, depth, depth + 1);
    forall f | f in Within(succ, seeds, depth + 1)
      ensures f in Within(succ, seeds, depth)
    {
      WithinIsReached(succ, seeds, depth + 1, f);
      WithinIsDepth(succ, seeds, depth, f);
    }
    assert Within(succ, seeds, depth + 1) == Within(succ, seeds, depth);
    SameFactsQuiet(succ, out, seeds, base, depth + 1);
  }

  /** The bound is tight: an output whose only source lies at depth `depth` keeps round `depth` busy. */
  lemma LateOutputIsNoticed<T(!new), S(!new)>(succ: T -> set<T>, out: T -> set<S>, seeds: set<T>, base: set<S>, depth: nat, s: S)
    requires depth > 0
    requires s in Outputs(out, Within(succ, seeds, depth))
    requires s !in Outputs(out, Within(succ, seeds, depth - 1)) && s !in base
    ensures RoundAdds(succ, out, seeds, base, depth)
  {
    CollectedMonotone(succ, out, seeds, base, depth);
    SubsetSize(Collected(succ, out, seeds, base, depth), Collected(succ, out, seeds, base, depth + 1));
    assert s in Collected(succ, out, seeds, base, depth + 1);
    assert s !in Collected(succ, out, seeds, base, depth);
  }
}
