/** Walks, reachability and depth-bounded sets over a successor function, and the
    depth-first search that only guards against the nodes on its current path. */
module Reachability {

  /** A walk lists its nodes; every node is a successor of the one before it. */
  ghost predicate Walk<T>(succ: T -> set<T>, p: seq<T>) {
    |p| > 0 && forall i | 0 <= i < |p| - 1 :: p[i + 1] in succ(p[i])
  }

  ghost predicate WalkFromTo<T>(succ: T -> set<T>, p: seq<T>, from: T, to: T) {
    Walk(succ, p) && p[0] == from && p[|p| - 1] == to
  }

  ghost predicate Reaches<T(!new)>(succ: T -> set<T>, from: T, to: T) {
    exists p :: WalkFromTo(succ, p, from, to)
  }

  /** `to` is reached from one of the start nodes. */
  ghost predicate ReachedFrom<T(!new)>(succ: T -> set<T>, starts: set<T>, to: T) {
    exists s :: s in starts && Reaches(succ, s, to)
  }

  ghost predicate Closed<T>(succ: T -> set<T>, s: set<T>) {
    forall x | x in s :: succ(x) <= s
  }

  lemma ReachesSelf<T(!new)>(succ: T -> set<T>, a: T)
    ensures Reaches(succ, a, a)
  {
    assert WalkFromTo(succ, [a], a, a);
  }

  lemma WalkExtend<T>(succ: T -> set<T>, p: seq<T>, from: T, via: T, to: T)
    requires WalkFromTo(succ, p, from, via) && to in succ(via)
    ensures WalkFromTo(succ, p + [to], from, to)
  {
  }

  lemma ReachesStep<T(!new)>(succ: T -> set<T>, from: T, via: T, to: T)
    requires Reaches(succ, from, via) && to in succ(via)
    ensures Reaches(succ, from, to)
  {
    var p :| WalkFromTo(succ, p, from, via);
    WalkExtend(succ, p, from, via, to);
  }

  lemma ReachedStart<T(!new)>(succ: T -> set<T>, starts: set<T>, s: T)
    requires s in starts
    ensures ReachedFrom(succ, starts, s)
  {
    ReachesSelf(succ, s);
  }

  lemma ReachedNext<T(!new)>(succ: T -> set<T>, starts: set<T>, via: T, to: T)
    requires ReachedFrom(succ, starts, via) && to in succ(via)
    ensures ReachedFrom(succ, starts, to)
  {
    var s :| s in starts && Reaches(succ, s, via);
    ReachesStep(succ, s, via, to);
  }

  lemma ReachesTransitive<T(!new)>(succ: T -> set<T>, from: T, via: T, to: T)
    requires Reaches(succ, from, via) && Reaches(succ, via, to)
    ensures Reaches(succ, from, to)
  {
    var p :| WalkFromTo(succ, p, from, via);
    var q :| WalkFromTo(succ, q, via, to);
    var w := p + q[1..];
    forall i | 0 <= i < |w| - 1
      ensures w[i + 1] in succ(w[i])
    {
      if i == |p| - 1 {
        assert w[i] == q[0] && w[i + 1] == q[1];
      } else if i >= |p| {
        assert w[i] == q[i - |p| + 1] && w[i + 1] == q[i - |p| + 2];
      }
    }
    assert WalkFromTo(succ, w, from, to);
  }

  /** A closed set that holds the first node of a walk holds all of it. */
  lemma {:induction false} ClosedHoldsWalk<T>(succ: T -> set<T>, s: set<T>, p: seq<T>, i: nat)
    requires Closed(succ, s) && Walk(succ, p) && p[0] in s && i < |p|
    ensures p[i] in s
  {
    if i > 0 {
      ClosedHoldsWalk(succ, s, p, i - 1);
      assert p[i - 1 + 1] in succ(p[i - 1]);
    }
  }

  lemma ClosedHoldsReached<T(!new)>(succ: T -> set<T>, s: set<T>, starts: set<T>, to: T)
    requires Closed(succ, s) && starts <= s && ReachedFrom(succ, starts, to)
    ensures to in s
  {
    var a :| a in starts && Reaches(succ, a, to);
    var p :| WalkFromTo(succ, p, a, to);
    ClosedHoldsWalk(succ, s, p, |p| - 1);
  }

  /** Where there are more successors and more start nodes, no less is reached. */
  lemma ReachedMore<T(!new)>(succ: T -> set<T>, more: T -> set<T>, starts: set<T>, moreStarts: set<T>, to: T)
    requires forall x :: succ(x) <= more(x)
    requires starts <= moreStarts && ReachedFrom(succ, starts, to)
    ensures ReachedFrom(more, moreStarts, to)
  {
    var s :| s in starts && Reaches(succ, s, to);
    var p :| WalkFromTo(succ, p, s, to);
    assert WalkFromTo(more, p, s, to);
  }

  // ----- Depth-bounded sets

  /** One application of the successor rule to a whole set. */
  ghost function Step<T(!new)>(succ: T -> set<T>, s: set<T>): set<T> {
    s + set x, y | x in s && y in succ(x) :: y
  }

  /** Everything at depth at most `n` from the start nodes. */
  ghost function Within<T(!new)>(succ: T -> set<T>, starts: set<T>, n: nat): set<T> {
    if n == 0 then starts else Step(succ, Within(succ, starts, n - 1))
  }

  /** `x` ends a walk of at most `n` steps from a start node. */
  ghost predicate AtDepth<T(!new)>(succ: T -> set<T>, starts: set<T>, n: nat, x: T) {
    exists p :: Walk(succ, p) && |p| <= n + 1 && p[0] in starts && p[|p| - 1] == x
  }

  /** The iterated rule and the walks agree at every depth. */
  lemma {:induction false} WithinIsDepth<T(!new)>(succ: T -> set<T>, starts: set<T>, n: nat, x: T)
    ensures x in Within(succ, starts, n) <==> AtDepth(succ, starts, n, x)
  {
    if x in Within(succ, starts, n) {
      WithinHasWalk(succ, starts, n, x);
    }
    if AtDepth(succ, starts, n, x) {
      var p :| Walk(succ, p) && |p| <= n + 1 && p[0] in starts && p[|p| - 1] == x;
      WalkIsWithin(succ, starts, n, p);
    }
  }

  lemma {:induction false} WithinHasWalk<T(!new)>(succ: T -> set<T>, starts: set<T>, n: nat, x: T)
    requires x in Within(succ, starts, n)
    ensures AtDepth(succ, starts, n, x)
  {
    if n == 0 {
      assert Walk(succ, [x]);
    } else if x in Within(succ, starts, n - 1) {
      WithinHasWalk(succ, starts, n - 1, x);
    } else {
      var y :| y in Within(succ, starts, n - 1) && x in succ(y);
      WithinHasWalk(succ, starts, n - 1, y);
      var p :| Walk(succ, p) && |p| <= n && p[0] in starts && p[|p| - 1] == y;
      WalkExtend(succ, p, p[0], y, x);
      assert (p + [x])[0] == p[0];
    }
  }

  lemma {:induction false} WalkIsWithin<T(!new)>(succ: T -> set<T>, starts: set<T>, n: nat, p: seq<T>)
    requires Walk(succ, p) && |p| <= n + 1 && p[0] in starts
    ensures p[|p| - 1] in Within(succ, starts, n)
  {
    if n > 0 {
      if |p| == 1 {
        WalkIsWithin(succ, starts, n - 1, p);
      } else {
        var q := p[..|p| - 1];
        WalkIsWithin(succ, starts, n - 1, q);
        assert p[|p| - 2 + 1] in succ(p[|p| - 2]);
      }
    }
  }

  lemma {:induction false} WithinMonotone<T(!new)>(succ: T -> set<T>, starts: set<T>, m: nat, n: nat)
    requires m <= n
    ensures Within(succ, starts, m) <= Within(succ, starts, n)
  {
    if m < n {
      WithinMonotone(succ, starts, m, n - 1);
    }
  }

  /** A set the rule adds nothing to is closed. */
  lemma FixedIsClosed<T(!new)>(succ: T -> set<T>, s: set<T>)
    requires Step(succ, s) == s
    ensures Closed(succ, s)
  {
    forall x, y | x in s && y in succ(x)
      ensures y in s
    {
      assert y in Step(succ, s);
    }
  }

  /** A closed depth set is exactly what the start nodes reach. */
  lemma ClosedWithinIsReached<T(!new)>(succ: T -> set<T>, starts: set<T>, k: nat)
    requires Closed(succ, Within(succ, starts, k))
    ensures forall x :: x in Within(succ, starts, k) <==> ReachedFrom(succ, starts, x)
  {
    WithinMonotone(succ, starts, 0, k);
    forall x
      ensures x in Within(succ, starts, k) <==> ReachedFrom(succ, starts, x)
    {
      if x in Within(succ, starts, k) {
        WithinHasWalk(succ, starts, k, x);
        var p :| Walk(succ, p) && |p| <= k + 1 && p[0] in starts && p[|p| - 1] == x;
        assert WalkFromTo(succ, p, p[0], x);
      }
      if ReachedFrom(succ, starts, x) {
        ClosedHoldsReached(succ, Within(succ, starts, k), starts, x);
      }
    }
  }

  // ----- Search guarded by the current path only

  /** Depth-first search for a target that refuses a node already on its own path.
      `seen` is the path above `t`; it is not remembered across branches. */
  ghost predicate Hits<T(!new)>(succ: T -> set<T>, universe: set<T>, targets: iset<T>, t: T, seen: set<T>)
    decreases universe - seen
  {
    && t !in seen
    && (t in targets
        || (t in universe && exists c :: c in succ(t) && Hits(succ, universe, targets, c, seen + {t})))
  }

  /** A walk from `t` to a target that avoids `seen`. */
  ghost predicate Avoiding<T>(succ: T -> set<T>, targets: iset<T>, t: T, seen: set<T>, p: seq<T>) {
    && Walk(succ, p) && p[0] == t && p[|p| - 1] in targets
    && forall i | 0 <= i < |p| :: p[i] !in seen
  }

  /** Only nodes of the universe have successors. */
  ghost predicate Supported<T(!new)>(succ: T -> set<T>, universe: set<T>) {
    forall x, y :: y in succ(x) ==> x in universe
  }

  lemma {:induction false} HitsHasWalk<T(!new)>(succ: T -> set<T>, universe: set<T>, targets: iset<T>, t: T, seen: set<T>)
    requires Hits(succ, universe, targets, t, seen)
    ensures exists p :: Avoiding(succ, targets, t, seen, p)
    decreases universe - seen
  {
    if t in targets {
      assert Avoiding(succ, targets, t, seen, [t]);
    } else {
      var c :| c in succ(t) && Hits(succ, universe, targets, c, seen + {t});
      HitsHasWalk(succ, universe, targets, c, seen + {t});
      var p :| Avoiding(succ, targets, c, seen + {t}, p);
      var w := [t] + p;
      assert forall i | 0 < i < |w| :: w[i] == p[i - 1];
      assert Avoiding(succ, targets, t, seen, w);
    }
  }

  lemma {:induction false} WalkHits<T(!new)>(succ: T -> set<T>, universe: set<T>, targets: iset<T>, t: T, seen: set<T>, p: seq<T>)
    requires Supported(succ, universe)
    requires Avoiding(succ, targets, t, seen, p)
    ensures Hits(succ, universe, targets, t, seen)
    decreases |p|
  {
    if t !in targets {
      // Drop everything up to the last visit to t: what is left avoids t as well.
      var j := LastVisit(p, t);
      assert p[j + 1] in succ(p[j]);
      var q := p[j + 1..];
      forall i | 0 <= i < |q| - 1
        ensures q[i + 1] in succ(q[i])
      {
        assert p[j + 1 + i + 1] in succ(p[j + 1 + i]);
      }
      WalkHits(succ, universe, targets, q[0], seen + {t}, q);
    }
  }

  /** The last position of `t`, which is not the end of the walk. */
  lemma {:induction false} LastVisit<T>(p: seq<T>, t: T) returns (j: nat)
    requires t in p
    ensures j < |p| && p[j] == t
    ensures forall i | j < i < |p| :: p[i] != t
  {
    if p[|p| - 1] == t {
      j := |p| - 1;
    } else {
      j := LastVisit(p[..|p| - 1], t);
    }
  }

  /** Guarding against the current path alone loses nothing: the search from an empty path
      finds a target exactly when one is reachable, cycles or not. */
  lemma PathGuardExact<T(!new)>(succ: T -> set<T>, universe: set<T>, targets: iset<T>, t: T)
    requires Supported(succ, universe)
    ensures Hits(succ, universe, targets, t, {}) <==> exists x :: x in targets && Reaches(succ, t, x)
  {
    if Hits(succ, universe, targets, t, {}) {
      HitsHasWalk(succ, universe, targets, t, {});
      var p :| Avoiding(succ, targets, t, {}, p);
      assert WalkFromTo(succ, p, t, p[|p| - 1]);
    }
    if x :| x in targets && Reaches(succ, t, x) {
      var p :| WalkFromTo(succ, p, t, x);
      assert Avoiding(succ, targets, t, {}, p);
      WalkHits(succ, universe, targets, t, {}, p);
    }
  }

  // ----- The same search, but a node already on the path counts as a find

  ghost predicate HitsOrLoops<T(!new)>(succ: T -> set<T>, universe: set<T>, targets: iset<T>, t: T, seen: set<T>)
    decreases universe - seen
  {
    || t in seen
    || t in targets
    || (t in universe && exists c :: c in succ(t) && HitsOrLoops(succ, universe, targets, c, seen + {t}))
  }

  /** The walk ends at a target, at a node of `seen`, or at a node it visited before. */
  ghost predicate Ends<T>(targets: iset<T>, seen: set<T>, p: seq<T>)
    requires |p| > 0
  {
    p[|p| - 1] in targets || p[|p| - 1] in seen || p[|p| - 1] in p[..|p| - 1]
  }

  /** Some node reached from `t` lies on a cycle. */
  ghost predicate ReachesCycle<T(!new)>(succ: T -> set<T>, t: T) {
    exists x, y :: Reaches(succ, t, x) && y in succ(x) && Reaches(succ, y, x)
  }

  lemma {:induction false} HitsOrLoopsHasWalk<T(!new)>(succ: T -> set<T>, universe: set<T>, targets: iset<T>, t: T, seen: set<T>)
    requires HitsOrLoops(succ, universe, targets, t, seen)
    ensures exists p :: Walk(succ, p) && p[0] == t && Ends(targets, seen, p)
    decreases universe - seen
  {
    if t in seen || t in targets {
      assert Walk(succ, [t]) && Ends(targets, seen, [t]);
    } else {
      var c :| c in succ(t) && HitsOrLoops(succ, universe, targets, c, seen + {t});
      HitsOrLoopsHasWalk(succ, universe, targets, c, seen + {t});
      var p :| Walk(succ, p) && p[0] == c && Ends(targets, seen + {t}, p);
      var w := [t] + p;
      assert forall i | 0 < i < |w| :: w[i] == p[i - 1];
      assert w[..|w| - 1] == [t] + p[..|p| - 1];
      assert Walk(succ, w) && Ends(targets, seen, w);
    }
  }

  lemma {:induction false} WalkHitsOrLoops<T(!new)>(succ: T -> set<T>, universe: set<T>, targets: iset<T>, t: T, seen: set<T>, p: seq<T>)
    requires Supported(succ, universe)
    requires Walk(succ, p) && p[0] == t && Ends(targets, seen, p)
    ensures HitsOrLoops(succ, universe, targets, t, seen)
    decreases |p|
  {
    if t !in seen && t !in targets {
      var q := p[1..];
      if q != [] {
        assert p[0 + 1] in succ(p[0]);
        assert forall i | 0 <= i < |q| :: q[i] == p[i + 1];
        assert p[..|p| - 1] == [t] + q[..|q| - 1];
        WalkHitsOrLoops(succ, universe, targets, q[0], seen + {t}, q);
      }
    }
  }

  lemma RevisitIsCycle<T(!new)>(succ: T -> set<T>, p: seq<T>, i: nat)
    requires Walk(succ, p) && i < |p| - 1 && p[i] == p[|p| - 1]
    ensures ReachesCycle(succ, p[0])
  {
    var x := p[|p| - 1];
    assert WalkFromTo(succ, p, p[0], x);
    assert p[i + 1] in succ(p[i]);
    var q := p[i + 1..];
    assert forall k | 0 <= k < |q| :: q[k] == p[i + 1 + k];
    assert WalkFromTo(succ, q, p[i + 1], x);
  }

  lemma CycleIsRevisit<T(!new)>(succ: T -> set<T>, targets: iset<T>, t: T)
    requires ReachesCycle(succ, t)
    ensures exists w :: Walk(succ, w) && w[0] == t && Ends(targets, {}, w)
  {
    var x, y :| Reaches(succ, t, x) && y in succ(x) && Reaches(succ, y, x);
    var p :| WalkFromTo(succ, p, t, x);
    var q :| WalkFromTo(succ, q, y, x);
    WalkJoin(succ, p, q);
    var w := p + q;
    assert w[0] == t && w[|w| - 1] == q[|q| - 1] == x;
    assert w[..|w| - 1][|p| - 1] == x;
  }

  /** From an empty path: a target is reachable, or a cycle is. */
  lemma PathGuardOrCycle<T(!new)>(succ: T -> set<T>, universe: set<T>, targets: iset<T>, t: T)
    requires Supported(succ, universe)
    ensures HitsOrLoops(succ, universe, targets, t, {}) <==>
              (exists x :: x in targets && Reaches(succ, t, x)) || ReachesCycle(succ, t)
  {
    hide HitsOrLoops, ReachesCycle;
    if HitsOrLoops(succ, universe, targets, t, {}) {
      HitsOrLoopsHasWalk(succ, universe, targets, t, {});
      var p :| Walk(succ, p) && p[0] == t && Ends(targets, {}, p);
      assert WalkFromTo(succ, p, t, p[|p| - 1]);
      if p[|p| - 1] !in targets {
        var i :| 0 <= i < |p| - 1 && p[i] == p[|p| - 1];
        RevisitIsCycle(succ, p, i);
      }
    }
    if x :| x in targets && Reaches(succ, t, x) {
      var p :| WalkFromTo(succ, p, t, x);
      WalkHitsOrLoops(succ, universe, targets, t, {}, p);
    }
    if ReachesCycle(succ, t) {
      CycleIsRevisit(succ, targets, t);
      var w :| Walk(succ, w) && w[0] == t && Ends(targets, {}, w);
      WalkHitsOrLoops(succ, universe, targets, t, {}, w);
    }
  }

  lemma WalkJoin<T>(succ: T -> set<T>, p: seq<T>, q: seq<T>)
    requires Walk(succ, p) && Walk(succ, q) && q[0] in succ(p[|p| - 1])
    ensures Walk(succ, p + q)
  {
    var w := p + q;
    forall i | 0 <= i < |w| - 1
      ensures w[i + 1] in succ(w[i])
    {
      if i < |p| - 1 {
        assert p[i + 1] in succ(p[i]);
      } else if i >= |p| {
        assert q[i - |p| + 1] in succ(q[i - |p|]);
      }
    }
  }
}
