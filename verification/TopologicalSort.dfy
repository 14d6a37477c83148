/** Kahn's algorithm as the compiler orders instantiation dependencies. */
module TopologicalSort {
  import opened Collections
  import opened Functions
  import opened Reachability

  /** What a dependency needs first; a dependency missing from the graph needs nothing. */
  function Prereqs<T(==)>(graph: map<T, seq<T>>, n: T): seq<T> {
    if n in graph then graph[n] else []
  }

  ghost function Needs<T>(graph: map<T, seq<T>>): T -> set<T> {
    n => Elements(Prereqs(graph, n))
  }

  /** Every prerequisite stands before what needs it. */
  ghost predicate Ordered<T>(s: seq<T>, graph: map<T, seq<T>>) {
    forall i, p | 0 <= i < |s| && p in Prereqs(graph, s[i]) :: p in s[..i]
  }

  /** The lists name each prerequisite once, and only prerequisites that are nodes. */
  ghost predicate Proper<T>(nodes: seq<T>, graph: map<T, seq<T>>) {
    forall m | m in nodes :: Distinct(Prereqs(graph, m)) && Needs(graph)(m) <= Elements(nodes)
  }

  ghost predicate Acyclic<T(!new)>(nodes: seq<T>, graph: map<T, seq<T>>) {
    forall m | m in nodes :: !ReachesCycle(Needs(graph), m)
  }

  // ----- Counting

  /** The prerequisites of `m` among the finished nodes. A node never counts as its own. */
  ghost function Met<T>(graph: map<T, seq<T>>, m: T, done: set<T>): set<T> {
    set p | p in done && p in Prereqs(graph, m) && p != m
  }

  /** The in-degree that Kahn's bookkeeping holds. */
  ghost function Degree<T>(graph: map<T, seq<T>>, m: T, done: set<T>): int {
    |Prereqs(graph, m)| - |Met(graph, m, done)|
  }

  /** The count reaches zero exactly when the list has no duplicates and all of it is finished. */
  lemma DegreeZero<T>(graph: map<T, seq<T>>, m: T, done: set<T>)
    ensures Degree(graph, m, done) >= 0
    ensures Degree(graph, m, done) == 0 <==>
              Distinct(Prereqs(graph, m)) && m !in Prereqs(graph, m) && Elements(Prereqs(graph, m)) <= done
  {
    var met, all := Met(graph, m, done), Elements(Prereqs(graph, m));
    ElementsCount(Prereqs(graph, m));
    SubsetSize(met, all);
    if m !in Prereqs(graph, m) && all <= done {
      assert met == all;
    }
    if met == all {
      assert forall p | p in Prereqs(graph, m) :: p in all;
    }
  }

  lemma DegreeStep<T>(graph: map<T, seq<T>>, m: T, done: set<T>, n: T)
    requires n !in done
    ensures n != m && n in Prereqs(graph, m) ==> Degree(graph, m, done + {n}) == Degree(graph, m, done) - 1
    ensures !(n != m && n in Prereqs(graph, m)) ==> Degree(graph, m, done + {n}) == Degree(graph, m, done)
  {
    if n != m && n in Prereqs(graph, m) {
      assert Met(graph, m, done + {n}) == Met(graph, m, done) + {n};
    } else {
      assert Met(graph, m, done + {n}) == Met(graph, m, done);
    }
  }

  // ----- The algorithm

  /** The part of the bookkeeping that holds between any two updates: the degrees are right for
      the nodes before `k` with `done`, and for the others with `before`; what is ready is listed. */
  ghost predicate Counted<T>(nodes: seq<T>, graph: map<T, seq<T>>, inDegree: map<T, int>, listed: seq<T>,
                             k: nat, done: set<T>, before: set<T>) {
    && k <= |nodes|
    && (forall j | 0 <= j < |nodes| ::
          nodes[j] in inDegree && inDegree[nodes[j]] == Degree(graph, nodes[j], if j < k then done else before))
    && (forall j | 0 <= j < |nodes| :: nodes[j] in listed <==> inDegree[nodes[j]] == 0)
  }

  ghost predicate Listing<T>(nodes: seq<T>, graph: map<T, seq<T>>, listed: seq<T>) {
    Distinct(listed) && Ordered(listed, graph) && forall x | x in listed :: x in nodes
  }

  lemma StartCounted<T>(nodes: seq<T>, graph: map<T, seq<T>>, inDegree: map<T, int>, queue: seq<T>)
    requires Distinct(queue) && (forall x | x in queue :: x in nodes && Prereqs(graph, x) == [])
    requires forall j | 0 <= j < |nodes| :: nodes[j] in inDegree && inDegree[nodes[j]] == |Prereqs(graph, nodes[j])|
    requires forall j | 0 <= j < |nodes| :: nodes[j] in queue <==> inDegree[nodes[j]] == 0
    ensures Listing(nodes, graph, queue) && Counted(nodes, graph, inDegree, queue, |nodes|, {}, {})
  {
    forall m
      ensures Degree(graph, m, {}) == |Prereqs(graph, m)|
    {
      assert Met(graph, m, {}) == {};
    }
    assert forall i | 0 <= i < |queue| :: queue[i] in queue;
  }

  /** Taking the next ready node: its own count does not move, and no count has been moved yet. */
  lemma CountedShift<T>(nodes: seq<T>, graph: map<T, seq<T>>, inDegree: map<T, int>, listed: seq<T>, before: set<T>, done: set<T>)
    requires Counted(nodes, graph, inDegree, listed, |nodes|, before, {})
    ensures Counted(nodes, graph, inDegree, listed, 0, done, before)
  {
    hide Degree;
  }

  lemma CountedDone<T>(nodes: seq<T>, graph: map<T, seq<T>>, inDegree: map<T, int>, listed: seq<T>, done: set<T>, before: set<T>)
    requires Counted(nodes, graph, inDegree, listed, |nodes|, done, before)
    ensures Counted(nodes, graph, inDegree, listed, |nodes|, done, {})
  {
    hide Degree;
  }

  /** One node's count is brought up to date after `n` was finished. */
  lemma CountedNext<T>(nodes: seq<T>, graph: map<T, seq<T>>, inDegree: map<T, int>, listed: seq<T>, k: nat,
                       before: set<T>, n: T, inDegree': map<T, int>, listed': seq<T>)
    requires Distinct(nodes) && k < |nodes| && n !in before && n in listed
    requires Counted(nodes, graph, inDegree, listed, k, before + {n}, before)
    requires var m := nodes[k]; var hit := n != m && n in Prereqs(graph, m);
             && inDegree' == (if hit then inDegree[m := inDegree[m] - 1] else inDegree)
             && listed' == (if hit && inDegree'[m] == 0 then listed + [m] else listed)
    ensures Counted(nodes, graph, inDegree', listed', k + 1, before + {n}, before)
    ensures listed' != listed ==> nodes[k] !in listed && Elements(Prereqs(graph, nodes[k])) <= before + {n}
  {
    var m := nodes[k];
    DegreeStep(graph, m, before, n);
    DegreeZero(graph, m, before);
    DegreeZero(graph, m, before + {n});
    hide Degree, Elements;
    assert inDegree[m] == Degree(graph, m, before);
    forall j | 0 <= j < |nodes|
      ensures nodes[j] in listed' <==> inDegree'[nodes[j]] == 0
    {
      if j != k {
        assert nodes[j] != m;
      }
    }
  }

  lemma CountedHolds<T>(nodes: seq<T>, graph: map<T, seq<T>>, inDegree: map<T, int>, listed: seq<T>, k: nat, done: set<T>, before: set<T>)
    requires Counted(nodes, graph, inDegree, listed, k, done, before)
    ensures forall j | 0 <= j < |nodes| :: nodes[j] in inDegree
  {
  }

  lemma ListingAppend<T>(nodes: seq<T>, graph: map<T, seq<T>>, listed: seq<T>, m: T, done: set<T>)
    requires Listing(nodes, graph, listed) && m in nodes && m !in listed
    requires Elements(Prereqs(graph, m)) <= done && forall x | x in done :: x in listed
    ensures Listing(nodes, graph, listed + [m])
  {
    var s := listed + [m];
    forall i, p | 0 <= i < |s| && p in Prereqs(graph, s[i])
      ensures p in s[..i]
    {
      if i < |listed| {
        assert s[..i] == listed[..i];
      } else {
        assert s[..i] == listed && p in Elements(Prereqs(graph, m));
      }
    }
  }

  lemma ListingBounded<T>(nodes: seq<T>, graph: map<T, seq<T>>, listed: seq<T>)
    requires Listing(nodes, graph, listed)
    ensures |listed| <= |nodes|
    ensures |listed| == |nodes| && Distinct(nodes) ==> multiset(listed) == multiset(nodes)
  {
    ElementsCount(listed);
    ElementsCount(nodes);
    SubsetSize(Elements(listed), Elements(nodes));
    if |listed| == |nodes| && Distinct(nodes) {
      forall x
        ensures multiset(listed)[x] == multiset(nodes)[x]
      {
        assert x in Elements(listed) <==> x in Elements(nodes);
        DistinctOnce(listed, x);
        DistinctOnce(nodes, x);
      }
    }
  }

  // ----- What the outcome means

  /** In an order, every walk along prerequisites goes strictly backwards. */
  lemma {:induction false} WalkGoesBack<T>(s: seq<T>, graph: map<T, seq<T>>, p: seq<T>, a: nat)
    requires Ordered(s, graph) && a < |s| && Walk(Needs(graph), p) && p[0] == s[a]
    ensures p[|p| - 1] in s[..a + 1]
    ensures |p| > 1 ==> p[|p| - 1] in s[..a]
    decreases |p|
  {
    if |p| > 1 {
      assert p[0 + 1] in Needs(graph)(p[0]);
      assert p[1] in s[..a];
      var b :| 0 <= b < a && s[b] == p[1];
      var q := p[1..];
      assert forall i | 0 <= i < |q| :: q[i] == p[i + 1];
      WalkGoesBack(s, graph, q, b);
    }
  }

  lemma NoWalkBack<T(!new)>(s: seq<T>, graph: map<T, seq<T>>, x: T, y: T)
    requires Distinct(s) && Ordered(s, graph) && x in s && y in Needs(graph)(x)
    ensures !Reaches(Needs(graph), y, x)
  {
    if Reaches(Needs(graph), y, x) {
      var q :| WalkFromTo(Needs(graph), q, y, x);
      var b :| 0 <= b < |s| && s[b] == x;
      WalkJoin(Needs(graph), [x], q);
      var w := [x] + q;
      assert w[|w| - 1] == q[|q| - 1];
      WalkGoesBack(s, graph, w, b);
      assert false;
    }
  }

  lemma OrderedIsAcyclic<T(!new)>(s: seq<T>, graph: map<T, seq<T>>)
    requires Distinct(s) && Ordered(s, graph)
    ensures Acyclic(s, graph)
  {
    hide Distinct, Ordered, Needs;
    forall m | m in s
      ensures !ReachesCycle(Needs(graph), m)
    {
      if ReachesCycle(Needs(graph), m) {
        var x, y :| Reaches(Needs(graph), m, x) && y in Needs(graph)(x) && Reaches(Needs(graph), y, x);
        var p :| WalkFromTo(Needs(graph), p, m, x);
        var a :| 0 <= a < |s| && s[a] == m;
        WalkGoesBack(s, graph, p, a);
        NoWalkBack(s, graph, x, y);
        assert false;
      }
    }
  }

  ghost predicate Trapped<T>(succ: T -> set<T>, r: set<T>) {
    forall x | x in r :: succ(x) * r != {}
  }

  lemma TrappedNext<T>(succ: T -> set<T>, r: set<T>, x: T) returns (y: T)
    requires Trapped(succ, r) && x in r
    ensures y in succ(x) && y in r
  {
    y :| y in succ(x) * r;
  }

  /** In a finite set where every node needs another one of the set there is a cycle. */
  lemma {:induction false} TrappedIsCyclic<T(!new)>(succ: T -> set<T>, r: set<T>, p: seq<T>)
    requires Trapped(succ, r)
    requires Walk(succ, p) && Distinct(p) && Elements(p) <= r
    ensures ReachesCycle(succ, p[0])
    decreases |r| - |p|
  {
    hide Trapped;
    var last := p[|p| - 1];
    assert last in Elements(p);
    var y := TrappedNext(succ, r, last);
    var w := p + [y];
    WalkExtend(succ, p, p[0], last, y);
    if y in p {
      var i :| 0 <= i < |p| && p[i] == y;
      RevisitIsCycle(succ, w, i);
    } else {
      hide ReachesCycle, Walk;
      ElementsCount(w);
      assert Elements(w) == Elements(p) + {y};
      SubsetSize(Elements(w), r);
      TrappedIsCyclic(succ, r, w);
    }
  }

  lemma LeftoverNeedsLeftover<T>(nodes: seq<T>, graph: map<T, seq<T>>, done: set<T>, m: T)
    requires Degree(graph, m, done) != 0 && m in nodes && m !in done
    requires Distinct(Prereqs(graph, m)) && Needs(graph)(m) <= Elements(nodes)
    ensures Needs(graph)(m) * (Elements(nodes) - done) != {}
  {
    hide Degree, Distinct;
    DegreeZero(graph, m, done);
    if m in Prereqs(graph, m) {
      assert m in Needs(graph)(m) * (Elements(nodes) - done);
    } else {
      var x :| x in Elements(Prereqs(graph, m)) && x !in done;
      assert x in Needs(graph)(m) * (Elements(nodes) - done);
    }
  }

  lemma LeftoverIsTrapped<T>(nodes: seq<T>, graph: map<T, seq<T>>, inDegree: map<T, int>, result: seq<T>)
    requires Counted(nodes, graph, inDegree, result, |nodes|, Elements(result), {})
    requires Proper(nodes, graph)
    ensures Trapped(Needs(graph), Elements(nodes) - Elements(result))
  {
    hide Degree, Needs, Distinct;
    var done := Elements(result);
    forall m | m in Elements(nodes) - done
      ensures Needs(graph)(m) * (Elements(nodes) - done) != {}
    {
      var j :| 0 <= j < |nodes| && nodes[j] == m;
      assert inDegree[nodes[j]] == Degree(graph, m, done) != 0;
      LeftoverNeedsLeftover(nodes, graph, done, m);
    }
  }

  /** Nodes left over mean a bad list or a cycle. */
  lemma LeftoverIsCyclic<T(!new)>(nodes: seq<T>, graph: map<T, seq<T>>, inDegree: map<T, int>, result: seq<T>)
    requires Counted(nodes, graph, inDegree, result, |nodes|, Elements(result), {})
    requires Listing(nodes, graph, result) && Distinct(nodes) && |result| != |nodes|
    ensures !(Proper(nodes, graph) && Acyclic(nodes, graph))
  {
    hide Degree, Needs, ReachesCycle, Ordered, Trapped, Counted, Proper;
    var left := Elements(nodes) - Elements(result);
    if Proper(nodes, graph) {
      ElementsCount(nodes);
      ElementsCount(result);
      assert Elements(nodes) == Elements(result) + left;
      hide Distinct;
      LeftoverIsTrapped(nodes, graph, inDegree, result);
      var start :| start in left;
      StartsWalk(Needs(graph), start);
      TrappedIsCyclic(Needs(graph), left, [start]);
    }
  }

  lemma StartsWalk<T>(succ: T -> set<T>, start: T)
    ensures Walk(succ, [start]) && Elements([start]) == {start} && Distinct([start])
  {
  }

  /** A complete listing is an order of proper, acyclic lists. */
  lemma CompleteIsAcyclic<T(!new)>(nodes: seq<T>, graph: map<T, seq<T>>, inDegree: map<T, int>, result: seq<T>)
    requires Counted(nodes, graph, inDegree, result, |nodes|, Elements(result), {})
    requires Listing(nodes, graph, result) && Distinct(nodes) && |result| == |nodes|
    ensures Proper(nodes, graph) && Acyclic(nodes, graph)
  {
    ListingBounded(nodes, graph, result);
    OrderedIsAcyclic(result, graph);
    forall m | m in nodes
      ensures m in result && Distinct(Prereqs(graph, m)) && Needs(graph)(m) <= Elements(nodes)
    {
      assert m in multiset(result);
      var j :| 0 <= j < |nodes| && nodes[j] == m;
      assert inDegree[nodes[j]] == 0;
      DegreeZero(graph, m, Elements(result));
    }
  }

  /** In-degrees and the nodes that need nothing. */
  method Begin<T(==)>(nodes: seq<T>, graph: map<T, seq<T>>) returns (inDegree: map<T, int>, queue: seq<T>)
    requires Distinct(nodes)
    ensures Listing(nodes, graph, queue) && Counted(nodes, graph, inDegree, queue, |nodes|, {}, {})
    ensures forall x | x in queue :: Prereqs(graph, x) == []
  {
    inDegree, queue := map[], [];
    for i := 0 to |nodes|
      invariant forall j | 0 <= j < i :: nodes[j] in inDegree && inDegree[nodes[j]] == |Prereqs(graph, nodes[j])|
    {
      inDegree := inDegree[nodes[i] := |Prereqs(graph, nodes[i])|];
    }
    for i := 0 to |nodes|
      invariant Distinct(queue)
      invariant forall x | x in queue :: x in nodes[..i] && Prereqs(graph, x) == []
      invariant forall j | 0 <= j < i :: nodes[j] in queue <==> inDegree[nodes[j]] == 0
    {
      assert nodes[i] !in nodes[..i];
      if inDegree[nodes[i]] == 0 {
        queue := queue + [nodes[i]];
      }
    }
    StartCounted(nodes, graph, inDegree, queue);
  }

  /** Counts `n` off one node that may need it; a node that becomes ready is queued. */
  method ReleaseOne<T(==)>(graph: map<T, seq<T>>, m: T, n: T, degrees: map<T, int>, waiting: seq<T>)
    returns (inDegree: map<T, int>, queue: seq<T>)
    requires m in degrees
    ensures var hit := n != m && n in Prereqs(graph, m);
            && inDegree == (if hit then degrees[m := degrees[m] - 1] else degrees)
            && queue == (if hit && inDegree[m] == 0 then waiting + [m] else waiting)
  {
    inDegree, queue := degrees, waiting;
    if m == n {
      return;
    }
    var prereqs := Prereqs(graph, m);
    for q := 0 to |prereqs|
      invariant n !in prereqs[..q] && inDegree == degrees && queue == waiting
    {
      if prereqs[q] == n {
        inDegree := inDegree[m := inDegree[m] - 1];
        if inDegree[m] == 0 {
          queue := queue + [m];
        }
        break;
      }
    }
  }

  /** Everything the queued nodes need is finished. */
  ghost predicate Ready<T>(graph: map<T, seq<T>>, queue: seq<T>, result: seq<T>) {
    forall x, p | x in queue && p in Prereqs(graph, x) :: p in result
  }

  /** One turn of the inner loop keeps the bookkeeping. */
  lemma ReleaseKeeps<T>(nodes: seq<T>, graph: map<T, seq<T>>, k: nat, n: T, degrees: map<T, int>, waiting: seq<T>,
                        inDegree: map<T, int>, queue: seq<T>, result: seq<T>, before: set<T>)
    requires Distinct(nodes) && n in result && n !in before && Elements(result) == before + {n} && k < |nodes|
    requires Listing(nodes, graph, result + waiting) && Ready(graph, waiting, result)
    requires Counted(nodes, graph, degrees, result + waiting, k, before + {n}, before) && nodes[k] in degrees
    requires var m := nodes[k]; var hit := n != m && n in Prereqs(graph, m);
             && inDegree == (if hit then degrees[m := degrees[m] - 1] else degrees)
             && queue == (if hit && inDegree[m] == 0 then waiting + [m] else waiting)
    ensures Listing(nodes, graph, result + queue) && Ready(graph, queue, result)
    ensures Counted(nodes, graph, inDegree, result + queue, k + 1, before + {n}, before)
  {
    hide Counted, Listing, Distinct, Degree;
    var m := nodes[k];
    assert queue != waiting ==> result + queue == (result + waiting) + [m];
    CountedNext(nodes, graph, degrees, result + waiting, k, before, n, inDegree, result + queue);
    if queue != waiting {
      assert forall x | x in before + {n} :: x in Elements(result);
      ListingAppend(nodes, graph, result + waiting, m, before + {n});
      assert forall p | p in Prereqs(graph, m) :: p in Elements(Prereqs(graph, m));
    }
  }

  /** Counts the finished node `n` off everything that needs it. */
  method Release<T(==)>(nodes: seq<T>, graph: map<T, seq<T>>, n: T, degrees: map<T, int>, waiting: seq<T>,
                        ghost result: seq<T>, ghost before: set<T>)
    returns (inDegree: map<T, int>, queue: seq<T>)
    requires Distinct(nodes) && n in result && n !in before && Elements(result) == before + {n}
    requires Listing(nodes, graph, result + waiting) && Ready(graph, waiting, result)
    requires Counted(nodes, graph, degrees, result + waiting, 0, before + {n}, before)
    ensures Listing(nodes, graph, result + queue) && Ready(graph, queue, result)
    ensures Counted(nodes, graph, inDegree, result + queue, |nodes|, Elements(result), {})
  {
    hide Counted, Listing, Distinct, Ready, Elements;
    inDegree, queue := degrees, waiting;
    for k := 0 to |nodes|
      invariant Listing(nodes, graph, result + queue) && Ready(graph, queue, result)
      invariant Counted(nodes, graph, inDegree, result + queue, k, before + {n}, before)
    {
      ghost var held, queued := inDegree, queue;
      CountedHolds(nodes, graph, held, result + queued, k, before + {n}, before);
      inDegree, queue := ReleaseOne(graph, nodes[k], n, inDegree, queue);
      ReleaseKeeps(nodes, graph, k, n, held, queued, inDegree, queue, result, before);
    }
    CountedDone(nodes, graph, inDegree, result + queue, before + {n}, before);
  }

  lemma FrontIsNew<T>(result: seq<T>, queue: seq<T>)
    requires Distinct(result + queue) && queue != []
    ensures queue[0] !in Elements(result) && Elements(result + [queue[0]]) == Elements(result) + {queue[0]}
    ensures result + [queue[0]] + queue[1..] == result + queue
  {
    var listed := result + queue;
    forall i | 0 <= i < |result|
      ensures result[i] != queue[0]
    {
      assert listed[i] != listed[|result|];
    }
  }

  method TopologicalSort<T(==, !new)>(nodes: seq<T>, graph: map<T, seq<T>>) returns (order: Option<seq<T>>)
    requires Distinct(nodes)
    ensures order.Some? ==> multiset(order.value) == multiset(nodes) && Ordered(order.value, graph)
    ensures order.Some? <==> Proper(nodes, graph) && Acyclic(nodes, graph)
  {
    var inDegree, queue := Begin(nodes, graph);
    var result: seq<T> := [];
    assert result + queue == queue && Elements(result) == {};
    hide Degree, Counted, Ordered, Proper, Acyclic;
    while |queue| > 0
      invariant Listing(nodes, graph, result + queue)
      invariant Counted(nodes, graph, inDegree, result + queue, |nodes|, Elements(result), {})
      invariant Ready(graph, queue, result)
      decreases |nodes| - |result|
    {
      ghost var before := Elements(result);
      ListingBounded(nodes, graph, result + queue);
      FrontIsNew(result, queue);
      hide Distinct;
      var n := queue[0];
      CountedShift(nodes, graph, inDegree, result + queue, before, before + {n});
      queue := queue[1..];
      result := result + [n];
      inDegree, queue := Release(nodes, graph, n, inDegree, queue, result, before);
    }
    assert result + queue == result;
    if |result| != |nodes| {
      LeftoverIsCyclic(nodes, graph, inDegree, result);
      return None;
    }
    ListingBounded(nodes, graph, result);
    CompleteIsAcyclic(nodes, graph, inDegree, result);
    return Some(result);
  }

  /** A prerequisite listed twice is refused although an order exists: its count never reaches zero. */
  lemma DuplicateIsRefused()
    ensures var graph := map[2 := [1, 1]];
            Ordered([1, 2], graph) && Acyclic([1, 2], graph) && !Proper([1, 2], graph)
  {
    var graph := map[2 := [1, 1]];
    assert Prereqs(graph, 2) == [1, 1] && Prereqs(graph, 1) == [];
    forall i, p | 0 <= i < |[1, 2]| && p in Prereqs(graph, [1, 2][i])
      ensures p in [1, 2][..i]
    {
      assert i == 1 && [1, 2][..1] == [1];
    }
    OrderedIsAcyclic([1, 2], graph);
    assert [1, 1][0] == [1, 1][1];
    assert 2 in [1, 2] by { assert [1, 2][1] == 2; }
  }
}
