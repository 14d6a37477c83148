/** Breadth-first search for a shortest activation path from the entrypoints to a target. */
module ShortestPath {
  import opened Collections
  import opened Functions
  import opened Orders
  import opened Reachability
  import opened ActivationGraph

  datatype PathStep = PathStep(node: Node, edge: Option<Edge>)

  // ----- The orders that make the search deterministic

  predicate NodeLess(a: Node, b: Node) {
    var p, q := a.fn.key, b.fn.key;
    if |p.packagePath| != |q.packagePath| then |p.packagePath| < |q.packagePath|
    else if p.packagePath != q.packagePath then StringLess(p.packagePath, q.packagePath)
    else if p.funcName != q.funcName then StringLess(p.funcName, q.funcName)
    else if p.receiver != q.receiver then StringLess(p.receiver, q.receiver)
    else StringLess(a.fn.name, b.fn.name)
  }

  predicate EdgeLess(nodes: seq<Node>, a: Edge, b: Edge)
    requires a.to < |nodes| && b.to < |nodes|
  {
    var toA, toB := nodes[a.to], nodes[b.to];
    if NodeLess(toA, toB) then true
    else if NodeLess(toB, toA) then false
    else if a.kind != b.kind then StringLess(a.kind, b.kind)
    else if a.pos.file != b.pos.file then StringLess(a.pos.file, b.pos.file)
    else if a.pos.line != b.pos.line then a.pos.line < b.pos.line
    else if a.pos.column != b.pos.column then a.pos.column < b.pos.column
    else a.id < b.id
  }

  function EdgeOrder(nodes: seq<Node>): (Edge, Edge) -> bool {
    (a: Edge, b: Edge) => a.to < |nodes| && b.to < |nodes| && EdgeLess(nodes, a, b)
  }

  /** Nodes the order cannot tell apart. */
  predicate SameName(a: Node, b: Node) {
    a.fn.key == b.fn.key && a.fn.name == b.fn.name
  }

  /** Shorter package paths come first; then package path, function, receiver and name decide, in this order. */
  lemma NodeOrderReads(a: Node, b: Node)
    ensures var p, q := a.fn.key, b.fn.key;
            NodeLess(a, b) <==>
              || |p.packagePath| < |q.packagePath|
              || (|p.packagePath| == |q.packagePath| && StringLess(p.packagePath, q.packagePath))
              || (p.packagePath == q.packagePath && StringLess(p.funcName, q.funcName))
              || (p.packagePath == q.packagePath && p.funcName == q.funcName && StringLess(p.receiver, q.receiver))
              || (p == q && StringLess(a.fn.name, b.fn.name))
  {
    var p, q := a.fn.key, b.fn.key;
    StringTriple(p.packagePath, q.packagePath, p.packagePath);
    StringTriple(p.funcName, q.funcName, p.funcName);
    StringTriple(p.receiver, q.receiver, p.receiver);
    hide StringLess;
  }

  /** The lesser target comes first; then kind, file, line, column and the older edge. */
  lemma EdgeOrderReads(nodes: seq<Node>, a: Edge, b: Edge)
    requires a.to < |nodes| && b.to < |nodes|
    ensures EdgeLess(nodes, a, b) <==>
              || NodeLess(nodes[a.to], nodes[b.to])
              || (SameName(nodes[a.to], nodes[b.to])
                  && (|| StringLess(a.kind, b.kind)
                      || (a.kind == b.kind && StringLess(a.pos.file, b.pos.file))
                      || (a.kind == b.kind && a.pos.file == b.pos.file && a.pos.line < b.pos.line)
                      || (a.kind == b.kind && a.pos.file == b.pos.file && a.pos.line == b.pos.line && a.pos.column < b.pos.column)
                      || (a.kind == b.kind && a.pos == b.pos && a.id < b.id)))
  {
    NodeOrder(nodes[a.to], nodes[b.to], nodes[a.to]);
    StringTriple(a.kind, b.kind, a.kind);
    StringTriple(a.pos.file, b.pos.file, a.pos.file);
    hide StringLess, NodeLess, SameName;
  }

  lemma NodeOrder(a: Node, b: Node, c: Node)
    ensures NodeLess(a, b) ==> !NodeLess(b, a)
    ensures SameName(a, b) <==> !NodeLess(a, b) && !NodeLess(b, a)
    ensures NodeLess(a, b) && NodeLess(b, c) ==> NodeLess(a, c)
  {
    var p, q, r := a.fn.key, b.fn.key, c.fn.key;
    StringTriple(p.packagePath, q.packagePath, r.packagePath);
    StringTriple(p.funcName, q.funcName, r.funcName);
    StringTriple(p.receiver, q.receiver, r.receiver);
    StringTriple(a.fn.name, b.fn.name, c.fn.name);
    hide StringLess;
  }

  lemma NodeOrderIsWeak(nodes: seq<Node>)
    ensures StrictWeakOn(nodes, NodeLess)
  {
    hide NodeLess;
    forall x, y, z | x in nodes && y in nodes && z in nodes
      ensures NodeLess(x, y) ==> !NodeLess(y, x)
      ensures !NodeLess(x, y) && !NodeLess(y, z) ==> !NodeLess(x, z)
    {
      NodeOrder(x, y, z);
      NodeOrder(z, y, x);
      NodeOrder(y, z, x);
      NodeOrder(y, x, z);
      NodeOrder(x, z, y);
      if SameName(x, y) {
        SameNameOrder(x, y, z);
      }
      if SameName(y, z) {
        SameNameOrder(y, z, x);
      }
    }
  }

  lemma SameNameOrder(a: Node, b: Node, c: Node)
    requires SameName(a, b)
    ensures NodeLess(a, c) <==> NodeLess(b, c)
    ensures NodeLess(c, a) <==> NodeLess(c, b)
  {
    hide StringLess;
  }

  lemma EdgeOrderPair(nodes: seq<Node>, a: Edge, b: Edge)
    requires a.to < |nodes| && b.to < |nodes|
    ensures EdgeLess(nodes, a, b) ==> !EdgeLess(nodes, b, a)
    ensures a.id != b.id ==> EdgeLess(nodes, a, b) || EdgeLess(nodes, b, a)
  {
    NodeOrder(nodes[a.to], nodes[b.to], nodes[a.to]);
    StringTriple(a.kind, b.kind, a.kind);
    StringTriple(a.pos.file, b.pos.file, a.pos.file);
    hide StringLess, NodeLess;
  }

  lemma EdgeOrderTransitive(nodes: seq<Node>, a: Edge, b: Edge, c: Edge)
    requires a.to < |nodes| && b.to < |nodes| && c.to < |nodes|
    requires EdgeLess(nodes, a, b) && EdgeLess(nodes, b, c)
    ensures EdgeLess(nodes, a, c)
  {
    var u, v, w := nodes[a.to], nodes[b.to], nodes[c.to];
    NodeOrder(u, v, w);
    NodeOrder(v, w, u);
    NodeOrder(u, w, v);
    if SameName(u, v) {
      SameNameOrder(u, v, w);
    }
    if SameName(v, w) {
      SameNameOrder(v, w, u);
    }
    StringTriple(a.kind, b.kind, c.kind);
    StringTriple(a.pos.file, b.pos.file, c.pos.file);
    hide StringLess, NodeLess, SameName;
  }

  /** Edges of one graph: ends inside it, and told apart by their ids. */
  ghost predicate Identified(nodes: seq<Node>, list: seq<Edge>) {
    && (forall e | e in list :: e.to < |nodes|)
    && (forall e, f | e in list && f in list && e.id == f.id :: e == f)
  }

  lemma EdgeOrderIsTotal(nodes: seq<Node>, list: seq<Edge>)
    requires Identified(nodes, list)
    ensures StrictWeakOn(list, EdgeOrder(nodes)) && TotalOn(list, EdgeOrder(nodes))
  {
    hide EdgeLess;
    forall x, y | x in list && y in list
      ensures EdgeOrder(nodes)(x, y) ==> !EdgeOrder(nodes)(y, x)
      ensures x != y ==> EdgeOrder(nodes)(x, y) || EdgeOrder(nodes)(y, x)
    {
      EdgeOrderPair(nodes, x, y);
    }
    forall x, y, z | x in list && y in list && z in list && !EdgeOrder(nodes)(x, y) && !EdgeOrder(nodes)(y, z)
      ensures !EdgeOrder(nodes)(x, z)
    {
      EdgeOrderPair(nodes, x, y);
      EdgeOrderPair(nodes, y, z);
      if EdgeLess(nodes, x, z) && x != y && y != z {
        EdgeOrderTransitive(nodes, z, y, x);
        EdgeOrderPair(nodes, x, z);
      }
    }
  }

  /** The search takes a node's edges in one order, however the graph came to list them. */
  lemma EdgeOrderIsDeterministic(nodes: seq<Node>, a: seq<Edge>, b: seq<Edge>)
    requires Identified(nodes, a) && multiset(a) == multiset(b)
    ensures SortBy(a, EdgeOrder(nodes)) == SortBy(b, EdgeOrder(nodes))
  {
    hide EdgeLess, EdgeOrder, StrictWeakOn, TotalOn, Sorted, SortBy;
    var less := EdgeOrder(nodes);
    SameElements(a, b);
    EdgeOrderIsTotal(nodes, a);
    EdgeOrderIsTotal(nodes, b);
    SortBySorted(a, less);
    SortBySorted(b, less);
    TotalOnSame(a, SortBy(a, less), less);
    SortedUnique(SortBy(a, less), SortBy(b, less), less);
  }

  // ----- What a path is

  ghost function EdgeSucc(edges: seq<Edge>): nat -> set<nat> {
    i => set e | e in edges && e.from == i :: e.to
  }

  /** A real edge walk from a start node to the target. */
  ghost predicate IsPath(nodes: seq<Node>, edges: seq<Edge>, starts: set<nat>, target: nat, steps: seq<PathStep>) {
    && |steps| > 0 && steps[0].node.id in starts && steps[0].edge.None? && steps[|steps| - 1].node.id == target
    && (forall i | 0 <= i < |steps| :: steps[i].node in nodes)
    && (forall i | 0 < i < |steps| :: Joins(edges, steps[i - 1], steps[i]))
  }

  ghost predicate Joins(edges: seq<Edge>, a: PathStep, b: PathStep) {
    b.edge.Some? && b.edge.value in edges && b.edge.value.from == a.node.id && b.edge.value.to == b.node.id
  }

  ghost predicate NoRepeat(steps: seq<PathStep>) {
    forall i, j | 0 <= i < j < |steps| :: steps[i].node.id != steps[j].node.id
  }

  /** No walk from a start node to the target visits fewer nodes. */
  ghost predicate Shortest(edges: seq<Edge>, starts: set<nat>, target: nat, length: nat) {
    forall p | Walk(EdgeSucc(edges), p) && p[0] in starts && p[|p| - 1] == target :: length <= |p|
  }

  // ----- The search state

  /** The breadth-first tree: every reached node has its depth; all but the start nodes have the
      edge they were first reached by, one level up. */
  ghost predicate Tree(edges: seq<Edge>, starts: set<nat>, prev: map<nat, Edge>, dist: map<nat, nat>) {
    && starts <= dist.Keys && prev.Keys == dist.Keys - starts
    && (forall s | s in starts :: dist[s] == 0)
    && (forall v | v in prev :: prev[v] in edges && prev[v].to == v && prev[v].from in dist && dist[v] == dist[prev[v].from] + 1)
  }

  /** Everything one step from a finished node is reached, at most one level deeper. */
  ghost predicate Expanded(edges: seq<Edge>, dist: map<nat, nat>, done: set<nat>) {
    && done <= dist.Keys
    && forall e | e in edges && e.from in done :: e.to in dist && dist[e.to] <= dist[e.from] + 1
  }

  /** Finished nodes lie at depth `d` or above; the queue is in order of depth, within one level of `d`. */
  ghost predicate Queued(dist: map<nat, nat>, queue: seq<nat>, done: set<nat>, d: nat) {
    && (forall v | v in done :: v in dist && dist[v] <= d)
    && (forall i | 0 <= i < |queue| :: queue[i] in dist && d <= dist[queue[i]] <= d + 1)
    && (forall i, j | 0 <= i < j < |queue| :: dist[queue[i]] <= dist[queue[j]])
  }

  lemma {:induction false} ShallowIsReached(edges: seq<Edge>, starts: set<nat>, prev: map<nat, Edge>, dist: map<nat, nat>,
                                            done: set<nat>, d: nat, p: seq<nat>, i: nat)
    requires Tree(edges, starts, prev, dist) && Expanded(edges, dist, done)
    requires forall v | v in dist && v !in done :: dist[v] >= d
    requires Walk(EdgeSucc(edges), p) && p[0] in starts && i < |p| && i <= d
    ensures p[i] in dist && dist[p[i]] <= i
  {
    if i > 0 {
      ShallowIsReached(edges, starts, prev, dist, done, d, p, i - 1);
      assert p[i - 1 + 1] in EdgeSucc(edges)(p[i - 1]);
    }
  }

  lemma DepthIsShortest(edges: seq<Edge>, starts: set<nat>, prev: map<nat, Edge>, dist: map<nat, nat>,
                        done: set<nat>, target: nat)
    requires Tree(edges, starts, prev, dist) && Expanded(edges, dist, done)
    requires target in dist
    requires forall v | v in dist && v !in done :: dist[v] >= dist[target]
    ensures Shortest(edges, starts, target, dist[target] + 1)
  {
    hide Tree, Expanded;
    forall p | Walk(EdgeSucc(edges), p) && p[0] in starts && p[|p| - 1] == target
      ensures dist[target] + 1 <= |p|
    {
      if |p| - 1 <= dist[target] {
        ShallowIsReached(edges, starts, prev, dist, done, dist[target], p, |p| - 1);
      }
    }
  }

  /** When nothing is waiting, what was not reached cannot be. */
  lemma ExhaustedIsUnreachable(edges: seq<Edge>, starts: set<nat>, prev: map<nat, Edge>, dist: map<nat, nat>, target: nat)
    requires Tree(edges, starts, prev, dist) && Expanded(edges, dist, dist.Keys)
    requires target !in dist
    ensures !ReachedFrom(EdgeSucc(edges), starts, target)
  {
    var s := dist.Keys;
    assert Closed(EdgeSucc(edges), s);
    hide Tree, Expanded;
    if ReachedFrom(EdgeSucc(edges), starts, target) {
      ClosedHoldsReached(EdgeSucc(edges), s, starts, target);
    }
  }

  lemma PathIsReached(nodes: seq<Node>, edges: seq<Edge>, starts: set<nat>, target: nat, steps: seq<PathStep>)
    requires IsPath(nodes, edges, starts, target, steps)
    ensures ReachedFrom(EdgeSucc(edges), starts, target)
  {
    var p: seq<nat> := seq(|steps|, i requires 0 <= i < |steps| => steps[i].node.id);
    forall i | 0 <= i < |p| - 1
      ensures p[i + 1] in EdgeSucc(edges)(p[i])
    {
      assert Joins(edges, steps[i + 1 - 1], steps[i + 1]);
    }
    assert WalkFromTo(EdgeSucc(edges), p, p[0], target);
  }

  // ----- Which of the shortest paths

  /** Two lists of steps agree before place `j`; there the first has the lesser start node or, later on,
      the lesser edge. */
  ghost predicate BeforeAt(nodes: seq<Node>, a: seq<PathStep>, b: seq<PathStep>, j: nat) {
    && j < |a| && j < |b| && a[..j] == b[..j]
    && if j == 0 then NodeLess(a[0].node, b[0].node)
       else a[j].edge.Some? && b[j].edge.Some? && EdgeOrder(nodes)(a[j].edge.value, b[j].edge.value)
  }

  ghost predicate Before(nodes: seq<Node>, a: seq<PathStep>, b: seq<PathStep>) {
    exists j: nat :: BeforeAt(nodes, a, b, j)
  }

  /** No other path of this length comes before it. */
  ghost predicate LeastPath(nodes: seq<Node>, edges: seq<Edge>, starts: set<nat>, target: nat, steps: seq<PathStep>) {
    forall other | IsPath(nodes, edges, starts, target, other) && |other| == |steps| :: !Before(nodes, other, steps)
  }

  /** Every node is numbered once, below `n`. */
  ghost predicate Numbered(dist: map<nat, nat>, pos: map<nat, nat>, n: nat) {
    && pos.Keys == dist.Keys && (forall v | v in pos :: pos[v] < n)
    && (forall v, w | v in pos && w in pos && pos[v] == pos[w] :: v == w)
  }

  /** Finished nodes were found before the waiting ones, which wait in the order in which they were found. */
  ghost predicate Lined(pos: map<nat, nat>, queue: seq<nat>, done: set<nat>) {
    && (forall q | q in queue :: q in pos) && (forall v | v in done :: v in pos)
    && (forall v, q | v in done && q in queue :: v in pos && pos[v] < pos[q])
    && (forall i, j | 0 <= i < j < |queue| :: pos[queue[i]] < pos[queue[j]])
  }

  /** Nodes are found in the order of the nodes that lead to them, and from one node in the order of its edges. */
  ghost predicate FoundInOrder(nodes: seq<Node>, starts: set<nat>, prev: map<nat, Edge>, pos: map<nat, nat>) {
    && (forall v, w | v in starts && w in starts && v in pos && w in pos && pos[v] < pos[w] ::
          v < |nodes| && w < |nodes| && !NodeLess(nodes[w], nodes[v]))
    && (forall v, w | v in prev && w in prev && v in pos && w in pos && pos[v] < pos[w] :: Sooner(nodes, pos, prev[v], prev[w]))
  }

  /** The first edge leaves an earlier node, or is the lesser edge of the same node. */
  ghost predicate Sooner(nodes: seq<Node>, pos: map<nat, nat>, e: Edge, f: Edge) {
    && e.from in pos && f.from in pos
    && (pos[e.from] < pos[f.from] || (e.from == f.from && EdgeOrder(nodes)(e, f)))
  }

  /** Of all edges that reach a node from what was found, the one it was found by is the first. */
  ghost predicate FirstEdges(nodes: seq<Node>, edges: seq<Edge>, prev: map<nat, Edge>, pos: map<nat, nat>) {
    forall e | e in edges && e.to in prev && e.from in pos :: e == prev[e.to] || Sooner(nodes, pos, prev[e.to], e)
  }

  ghost predicate ParentsDone(prev: map<nat, Edge>, done: set<nat>) {
    forall v | v in prev :: prev[v].from in done
  }

  /** The order of discovery, as the search keeps it. */
  ghost predicate Discovered(nodes: seq<Node>, edges: seq<Edge>, starts: set<nat>, prev: map<nat, Edge>, dist: map<nat, nat>,
                             queue: seq<nat>, done: set<nat>, pos: map<nat, nat>, n: nat) {
    && Numbered(dist, pos, n) && Lined(pos, queue, done) && ParentsDone(prev, done)
    && FoundInOrder(nodes, starts, prev, pos) && FirstEdges(nodes, edges, prev, pos)
  }

  lemma LinedAdvances(pos: map<nat, nat>, queue: seq<nat>, done: set<nat>)
    requires Lined(pos, queue, done) && queue != []
    ensures Lined(pos, queue[1..], done + {queue[0]})
    ensures forall v | v in done :: v in pos && pos[v] < pos[queue[0]]
  {
    assert queue == [queue[0]] + queue[1..];
  }

  /** The head of the queue was found after every finished node and before the rest of the queue. */
  ghost predicate LastDone(pos: map<nat, nat>, queue: seq<nat>, done: set<nat>, node: nat) {
    && node in pos && (forall v | v in done :: v in pos && (v == node || pos[v] < pos[node]))
    && (forall q | q in queue :: q in pos && pos[node] < pos[q])
  }

  lemma DiscoveredAdvances(nodes: seq<Node>, edges: seq<Edge>, starts: set<nat>, prev: map<nat, Edge>, dist: map<nat, nat>,
                           queue: seq<nat>, done: set<nat>, pos: map<nat, nat>, n: nat)
    requires Discovered(nodes, edges, starts, prev, dist, queue, done, pos, n) && queue != []
    ensures Discovered(nodes, edges, starts, prev, dist, queue[1..], done + {queue[0]}, pos, n)
    ensures LastDone(pos, queue[1..], done + {queue[0]}, queue[0])
  {
    hide Numbered, FoundInOrder, FirstEdges;
    LinedAdvances(pos, queue, done);
    assert queue == [queue[0]] + queue[1..];
  }

  /** What the node being expanded has led to so far came by an edge before place `k` of its list. */
  ghost predicate FromEarlier(prev: map<nat, Edge>, node: nat, sorted: seq<Edge>, k: nat) {
    k <= |sorted| && forall v | v in prev && prev[v].from == node :: prev[v] in sorted[..k]
  }

  /** Each edge strictly before all later ones. */
  ghost predicate Ascending(nodes: seq<Node>, sorted: seq<Edge>) {
    forall i, j | 0 <= i < j < |sorted| :: EdgeOrder(nodes)(sorted[i], sorted[j])
  }

  lemma AscendingAt(nodes: seq<Node>, sorted: seq<Edge>, k: nat)
    requires Ascending(nodes, sorted) && k < |sorted|
    ensures forall i | 0 <= i < k :: EdgeOrder(nodes)(sorted[i], sorted[k])
    ensures forall i | k < i < |sorted| :: EdgeOrder(nodes)(sorted[k], sorted[i])
  {
    hide EdgeOrder;
  }

  lemma FoundInOrderGrows(nodes: seq<Node>, starts: set<nat>, prev: map<nat, Edge>, dist: map<nat, nat>, queue: seq<nat>, done: set<nat>,
                          pos: map<nat, nat>, n: nat, node: nat, sorted: seq<Edge>, k: nat)
    requires FoundInOrder(nodes, starts, prev, pos) && Numbered(dist, pos, n) && ParentsDone(prev, done)
    requires LastDone(pos, queue, done, node) && FromEarlier(prev, node, sorted, k) && k < |sorted|
    requires sorted[k].from == node && sorted[k].to !in pos && sorted[k].to !in prev && sorted[k].to !in starts
    requires forall i | 0 <= i < k :: EdgeOrder(nodes)(sorted[i], sorted[k])
    ensures FoundInOrder(nodes, starts, prev[sorted[k].to := sorted[k]], pos[sorted[k].to := n])
  {
    hide NodeLess, EdgeOrder, LastDone, FromEarlier, ParentsDone, Sooner;
    var e := sorted[k];
    var prev', pos' := prev[e.to := e], pos[e.to := n];
    forall v, w | v in prev' && w in prev' && v in pos' && w in pos' && pos'[v] < pos'[w]
      ensures Sooner(nodes, pos', prev'[v], prev'[w])
    {
      if w == e.to {
        FoundBefore(nodes, prev, queue, done, pos, node, sorted, k, v);
        StillSooner(nodes, pos, prev[v], e, e.to, n);
      } else {
        assert v != e.to;
        StillSooner(nodes, pos, prev[v], prev[w], e.to, n);
      }
    }
  }

  lemma FoundBefore(nodes: seq<Node>, prev: map<nat, Edge>, queue: seq<nat>, done: set<nat>, pos: map<nat, nat>, node: nat,
                    sorted: seq<Edge>, k: nat, v: nat)
    requires ParentsDone(prev, done) && LastDone(pos, queue, done, node) && FromEarlier(prev, node, sorted, k) && k < |sorted|
    requires v in prev && sorted[k].from == node && forall i | 0 <= i < k :: EdgeOrder(nodes)(sorted[i], sorted[k])
    ensures Sooner(nodes, pos, prev[v], sorted[k])
  {
    hide EdgeOrder;
    assert prev[v].from in done;
    if prev[v].from == node {
      assert prev[v] in sorted[..k];
    }
  }

  lemma StillSooner(nodes: seq<Node>, pos: map<nat, nat>, e: Edge, f: Edge, v: nat, n: nat)
    requires Sooner(nodes, pos, e, f) && v !in pos
    ensures Sooner(nodes, pos[v := n], e, f)
  {
    hide EdgeOrder;
  }

  lemma FirstEdgesGrows(nodes: seq<Node>, edges: seq<Edge>, prev: map<nat, Edge>, dist: map<nat, nat>, queue: seq<nat>, done: set<nat>,
                        pos: map<nat, nat>, n: nat, node: nat, sorted: seq<Edge>, k: nat)
    requires FirstEdges(nodes, edges, prev, pos) && Numbered(dist, pos, n) && LastDone(pos, queue, done, node)
    requires ParentsDone(prev, done) && node in done && Waiting(dist, queue, done) && Expanded(edges, dist, done - {node}) && k < |sorted|
    requires forall e :: e in sorted <==> e in edges && e.from == node
    requires sorted[k].to !in dist && forall i | 0 <= i < k :: sorted[i].to in dist
    requires forall i | k < i < |sorted| :: EdgeOrder(nodes)(sorted[k], sorted[i])
    ensures FirstEdges(nodes, edges, prev[sorted[k].to := sorted[k]], pos[sorted[k].to := n])
  {
    hide EdgeOrder;
    var e := sorted[k];
    var prev', pos' := prev[e.to := e], pos[e.to := n];
    assert e in edges && e.from == node;
    forall f | f in edges && f.to in prev' && f.from in pos'
      ensures f == prev'[f.to] || Sooner(nodes, pos', prev'[f.to], f)
    {
      if f.to == e.to {
        if f.from == node {
          var i :| 0 <= i < |sorted| && sorted[i] == f;
        } else if f.from != e.to {
          assert f.from in dist;
          assert f.from !in done;
          assert f.from in queue;
        }
      } else if f.from == e.to {
        assert prev[f.to].from in done;
      } else {
        assert f == prev[f.to] || Sooner(nodes, pos, prev[f.to], f);
      }
    }
  }

  lemma LinedGrows(dist: map<nat, nat>, queue: seq<nat>, done: set<nat>, pos: map<nat, nat>, n: nat, v: nat)
    requires Numbered(dist, pos, n) && Lined(pos, queue, done) && v !in dist && v !in done
    ensures Lined(pos[v := n], queue + [v], done)
  {
    var queue', pos' := queue + [v], pos[v := n];
    assert forall i | 0 <= i < |queue| :: queue'[i] == queue[i] && queue[i] in queue;
    forall i, j | 0 <= i < j < |queue'|
      ensures pos'[queue'[i]] < pos'[queue'[j]]
    {
      if j < |queue| {
        assert pos[queue[i]] < pos[queue[j]];
      }
    }
  }

  lemma NumberedGrows(dist: map<nat, nat>, pos: map<nat, nat>, n: nat, v: nat, depth: nat)
    requires Numbered(dist, pos, n) && v !in dist
    ensures Numbered(dist[v := depth], pos[v := n], n + 1)
  {
  }

  lemma LastDoneGrows(dist: map<nat, nat>, queue: seq<nat>, done: set<nat>, pos: map<nat, nat>, n: nat, node: nat, v: nat)
    requires Numbered(dist, pos, n) && LastDone(pos, queue, done, node) && v !in dist
    ensures LastDone(pos[v := n], queue + [v], done, node)
  {
  }

  /** The next unseen target in the order of the node's edges is found next. */
  lemma DiscoveredGrows(nodes: seq<Node>, edges: seq<Edge>, starts: set<nat>, prev: map<nat, Edge>, dist: map<nat, nat>, queue: seq<nat>,
                        done: set<nat>, pos: map<nat, nat>, n: nat, node: nat, sorted: seq<Edge>, k: nat, depth: nat)
    requires Discovered(nodes, edges, starts, prev, dist, queue, done, pos, n) && LastDone(pos, queue, done, node)
    requires FromEarlier(prev, node, sorted, k) && k < |sorted| && node in done && starts <= dist.Keys && prev.Keys <= dist.Keys
    requires Waiting(dist, queue, done) && Expanded(edges, dist, done - {node})
    requires forall e :: e in sorted <==> e in edges && e.from == node
    requires sorted[k].to !in dist && forall i | 0 <= i < k :: sorted[i].to in dist
    requires Ascending(nodes, sorted)
    ensures var e := sorted[k];
            && Discovered(nodes, edges, starts, prev[e.to := e], dist[e.to := depth], queue + [e.to], done, pos[e.to := n], n + 1)
            && LastDone(pos[e.to := n], queue + [e.to], done, node) && FromEarlier(prev[e.to := e], node, sorted, k + 1)
  {
    hide FoundInOrder, FirstEdges, Lined, LastDone, Numbered, Waiting, Expanded, EdgeOrder, Ascending;
    var e := sorted[k];
    assert e in sorted && e.from == node;
    NotDone(dist, queue, done, e.to);
    AscendingAt(nodes, sorted, k);
    NumberedIs(dist, pos, n);
    FoundInOrderGrows(nodes, starts, prev, dist, queue, done, pos, n, node, sorted, k);
    FirstEdgesGrows(nodes, edges, prev, dist, queue, done, pos, n, node, sorted, k);
    LinedGrows(dist, queue, done, pos, n, e.to);
    NumberedGrows(dist, pos, n, e.to, depth);
    LastDoneGrows(dist, queue, done, pos, n, node, e.to);
    assert sorted[..k + 1] == sorted[..k] + [e];
  }

  lemma NumberedIs(dist: map<nat, nat>, pos: map<nat, nat>, n: nat)
    requires Numbered(dist, pos, n)
    ensures pos.Keys == dist.Keys
  {
  }

  lemma NotDone(dist: map<nat, nat>, queue: seq<nat>, done: set<nat>, v: nat)
    requires Waiting(dist, queue, done) && v !in dist
    ensures v !in done
  {
  }

  /** Every step of the list but the first was found by its edge. */
  ghost predicate Follows(prev: map<nat, Edge>, steps: seq<PathStep>) {
    forall i | 0 < i < |steps| :: steps[i].node.id in prev && steps[i].edge == Some(prev[steps[i].node.id])
  }

  /** At this depth nothing is left to be found. */
  ghost predicate SettledTo(edges: seq<Edge>, starts: set<nat>, prev: map<nat, Edge>, dist: map<nat, nat>, done: set<nat>, d: nat) {
    && Tree(edges, starts, prev, dist) && Expanded(edges, dist, done)
    && forall v | v in dist && v !in done :: dist[v] >= d
  }

  lemma FrontIsPath(nodes: seq<Node>, edges: seq<Edge>, starts: set<nat>, target: nat, steps: seq<PathStep>)
    requires IsPath(nodes, edges, starts, target, steps) && |steps| > 1
    ensures var front, e := steps[..|steps| - 1], steps[|steps| - 1].edge;
            e.Some? && e.value in edges && e.value.to == target && IsPath(nodes, edges, starts, e.value.from, front)
  {
    var k := |steps| - 1;
    assert Joins(edges, steps[k - 1], steps[k]);
    forall i | 0 < i < k
      ensures Joins(edges, steps[..k][i - 1], steps[..k][i])
    {
      assert Joins(edges, steps[i - 1], steps[i]);
    }
  }

  /** A path no longer than what is settled ends at a node that was found at most so deep. */
  lemma {:induction false} PathIsFound(nodes: seq<Node>, edges: seq<Edge>, starts: set<nat>, prev: map<nat, Edge>, dist: map<nat, nat>,
                                       done: set<nat>, d: nat, target: nat, steps: seq<PathStep>)
    requires SettledTo(edges, starts, prev, dist, done, d) && IsPath(nodes, edges, starts, target, steps) && |steps| <= d + 1
    ensures target in dist && dist[target] <= |steps| - 1
    decreases |steps|
  {
    if |steps| > 1 {
      hide IsPath, Tree;
      FrontIsPath(nodes, edges, starts, target, steps);
      var u := steps[|steps| - 1].edge.value.from;
      PathIsFound(nodes, edges, starts, prev, dist, done, d, u, steps[..|steps| - 1]);
    } else {
      hide Expanded;
    }
  }

  /** The last step of a shortest path comes from a node one level up. */
  lemma LastStep(nodes: seq<Node>, edges: seq<Edge>, starts: set<nat>, prev: map<nat, Edge>, dist: map<nat, nat>,
                 done: set<nat>, d: nat, target: nat, steps: seq<PathStep>)
    requires SettledTo(edges, starts, prev, dist, done, d) && IsPath(nodes, edges, starts, target, steps) && 1 < |steps| <= d + 1
    requires target in dist && dist[target] == |steps| - 1
    ensures var e := steps[|steps| - 1].edge;
            && e.Some? && e.value in edges && e.value.to == target && target in prev
            && e.value.from in dist && dist[e.value.from] == |steps| - 2
            && IsPath(nodes, edges, starts, e.value.from, steps[..|steps| - 1])
  {
    hide IsPath;
    FrontIsPath(nodes, edges, starts, target, steps);
    var u := steps[|steps| - 1].edge.value.from;
    PathIsFound(nodes, edges, starts, prev, dist, done, d, u, steps[..|steps| - 1]);
  }

  lemma OneStepPath(nodes: seq<Node>, edges: seq<Edge>, starts: set<nat>, target: nat, steps: seq<PathStep>)
    requires WellFormed(nodes, edges) && IsPath(nodes, edges, starts, target, steps) && |steps| == 1
    ensures target in starts && target < |nodes| && steps[0] == PathStep(nodes[target], None)
  {
    var i :| 0 <= i < |nodes| && nodes[i] == steps[0].node;
  }

  /** Before another list is to be before its front, or to differ in the last step alone. */
  lemma BeforeAtFront(nodes: seq<Node>, a: seq<PathStep>, b: seq<PathStep>, j: nat)
    requires BeforeAt(nodes, a, b, j) && |a| == |b| && |a| > 1
    ensures j < |a| - 1 ==> BeforeAt(nodes, a[..|a| - 1], b[..|b| - 1], j)
    ensures j == |a| - 1 ==> a[..|a| - 1] == b[..|b| - 1]
  {
    if j < |a| - 1 {
      assert a[..|a| - 1][..j] == a[..j] && b[..|b| - 1][..j] == b[..j];
    }
  }

  lemma SameEndPath(nodes: seq<Node>, edges: seq<Edge>, starts: set<nat>, u: nat, v: nat, steps: seq<PathStep>)
    requires IsPath(nodes, edges, starts, u, steps) && IsPath(nodes, edges, starts, v, steps)
    ensures u == v
  {
  }

  /** The edge a node was found by is not preceded by an edge to a node found no sooner. */
  lemma FoundByLeast(nodes: seq<Node>, edges: seq<Edge>, starts: set<nat>, prev: map<nat, Edge>, dist: map<nat, nat>,
                     pos: map<nat, nat>, n: nat, v: nat, w: nat, e: Edge)
    requires WellFormed(nodes, edges) && Numbered(dist, pos, n) && FoundInOrder(nodes, starts, prev, pos)
    requires FirstEdges(nodes, edges, prev, pos) && Tree(edges, starts, prev, dist)
    requires v in prev && w in prev && v in pos && w in pos && pos[v] <= pos[w] && e in edges && e.to == w && e.from in pos
    ensures prev[v].from in pos && pos[prev[v].from] <= pos[e.from]
    ensures prev[v].from == e.from ==> !EdgeOrder(nodes)(e, prev[v])
  {
    hide NodeLess, EdgeLess;
    var f, h := prev[v], prev[w];
    EdgeOrderPair(nodes, f, h);
    EdgeOrderPair(nodes, h, e);
    EdgeOrderPair(nodes, f, e);
    EdgeOrderPair(nodes, e, e);
    if f != h && h != e && f.from == h.from == e.from {
      assert v != w && Sooner(nodes, pos, f, h) && Sooner(nodes, pos, h, e);
      EdgeOrderTransitive(nodes, f, h, e);
    }
    if v != w {
      assert Sooner(nodes, pos, f, h);
    }
    assert e == h || Sooner(nodes, pos, h, e);
  }

  /** Of two nodes at one depth, no shortest path to the one found later comes before the path that was
      found to the other. */
  lemma {:induction false} NoneBefore(nodes: seq<Node>, edges: seq<Edge>, starts: set<nat>, prev: map<nat, Edge>, dist: map<nat, nat>,
                                      queue: seq<nat>, done: set<nat>, pos: map<nat, nat>, n: nat, d: nat,
                                      v: nat, w: nat, mine: seq<PathStep>, other: seq<PathStep>, j: nat)
    requires WellFormed(nodes, edges) && SettledTo(edges, starts, prev, dist, done, d)
    requires Discovered(nodes, edges, starts, prev, dist, queue, done, pos, n)
    requires IsPath(nodes, edges, starts, v, mine) && Follows(prev, mine) && IsPath(nodes, edges, starts, w, other)
    requires |mine| == |other| <= d + 1 && v in dist && w in dist && dist[v] == dist[w] == |mine| - 1
    requires v in pos && w in pos && pos[v] <= pos[w]
    ensures !BeforeAt(nodes, other, mine, j)
    decreases |mine|
  {
    hide IsPath, Tree, Expanded, Lined, ParentsDone, NodeLess, SettledTo, Numbered, FirstEdges;
    if BeforeAt(nodes, other, mine, j) {
      if |mine| == 1 {
        OneStepPath(nodes, edges, starts, v, mine);
        OneStepPath(nodes, edges, starts, w, other);
        NodeOrder(nodes[v], nodes[w], nodes[v]);
        SamePlace(dist, pos, n, v, w);
      } else {
        LastStep(nodes, edges, starts, prev, dist, done, d, v, mine);
        LastStep(nodes, edges, starts, prev, dist, done, d, w, other);
        BeforeAtFront(nodes, other, mine, j);
        var e, f := other[|other| - 1].edge.value, mine[|mine| - 1].edge.value;
        EndOfPath(nodes, edges, starts, v, mine);
        assert f == prev[v];
        TreeIs(edges, starts, prev, dist, done, d);
        NumberedIs(dist, pos, n);
        FoundByLeast(nodes, edges, starts, prev, dist, pos, n, v, w, e);
        var front, front' := mine[..|mine| - 1], other[..|other| - 1];
        if j < |other| - 1 {
          NoneBefore(nodes, edges, starts, prev, dist, queue, done, pos, n, d, f.from, e.from, front, front', j);
        } else {
          SameEndPath(nodes, edges, starts, f.from, e.from, front);
        }
      }
    }
  }

  lemma SamePlace(dist: map<nat, nat>, pos: map<nat, nat>, n: nat, v: nat, w: nat)
    requires Numbered(dist, pos, n) && v in pos && w in pos && pos[v] == pos[w]
    ensures v == w
  {
  }

  lemma EndOfPath(nodes: seq<Node>, edges: seq<Edge>, starts: set<nat>, target: nat, steps: seq<PathStep>)
    requires IsPath(nodes, edges, starts, target, steps)
    ensures |steps| > 0 && steps[|steps| - 1].node.id == target
  {
  }

  lemma TreeIs(edges: seq<Edge>, starts: set<nat>, prev: map<nat, Edge>, dist: map<nat, nat>, done: set<nat>, d: nat)
    requires SettledTo(edges, starts, prev, dist, done, d)
    ensures Tree(edges, starts, prev, dist)
  {
  }

  lemma FoundIsLeast(nodes: seq<Node>, edges: seq<Edge>, starts: set<nat>, prev: map<nat, Edge>, dist: map<nat, nat>,
                     queue: seq<nat>, done: set<nat>, pos: map<nat, nat>, n: nat, target: nat, steps: seq<PathStep>)
    requires WellFormed(nodes, edges) && target in dist && SettledTo(edges, starts, prev, dist, done, dist[target])
    requires Discovered(nodes, edges, starts, prev, dist, queue, done, pos, n)
    requires IsPath(nodes, edges, starts, target, steps) && Follows(prev, steps) && |steps| == dist[target] + 1
    ensures LeastPath(nodes, edges, starts, target, steps)
  {
    hide IsPath, SettledTo, BeforeAt, Follows;
    assert target in pos;
    hide Discovered;
    forall other | IsPath(nodes, edges, starts, target, other) && |other| == |steps|
      ensures !Before(nodes, other, steps)
    {
      forall j: nat
        ensures !BeforeAt(nodes, other, steps, j)
      {
        NoneBefore(nodes, edges, starts, prev, dist, queue, done, pos, n, dist[target], target, target, steps, other, j);
      }
    }
  }

  // ----- Reading the path back

  /** A walk back from the target, one level closer to the start with every step. */
  ghost predicate BackChain(nodes: seq<Node>, edges: seq<Edge>, dist: map<nat, nat>, target: Node, chain: seq<PathStep>)
    requires target.id in dist
  {
    && (chain != [] ==> chain[0].node == target)
    && (forall i | 0 <= i < |chain| ::
          chain[i].node in nodes && chain[i].node.id in dist && dist[chain[i].node.id] == dist[target.id] - i)
    && (forall i | 0 < i < |chain| :: Joins(edges, chain[i], chain[i - 1]))
  }

  lemma NoChainYet(nodes: seq<Node>, edges: seq<Edge>, dist: map<nat, nat>, target: Node)
    requires target.id in dist
    ensures BackChain(nodes, edges, dist, target, [])
  {
  }

  lemma BackChainGrows(nodes: seq<Node>, edges: seq<Edge>, dist: map<nat, nat>, target: Node, chain: seq<PathStep>, step: PathStep)
    requires target.id in dist && BackChain(nodes, edges, dist, target, chain)
    requires step.node in nodes && step.node.id in dist && dist[step.node.id] == dist[target.id] - |chain|
    requires if chain == [] then step.node == target else Joins(edges, step, chain[|chain| - 1])
    ensures BackChain(nodes, edges, dist, target, chain + [step])
  {
    hide Joins;
  }

  function Reversed(chain: seq<PathStep>): (steps: seq<PathStep>)
    ensures |steps| == |chain| && forall i | 0 <= i < |steps| :: steps[i] == chain[|chain| - 1 - i]
  {
    seq(|chain|, i requires 0 <= i < |chain| => chain[|chain| - 1 - i])
  }

  lemma BackChainIsPath(nodes: seq<Node>, edges: seq<Edge>, starts: set<nat>, dist: map<nat, nat>, target: Node, chain: seq<PathStep>)
    requires target.id in dist && BackChain(nodes, edges, dist, target, chain) && chain != []
    requires chain[|chain| - 1].edge.None? && chain[|chain| - 1].node.id in starts
    ensures IsPath(nodes, edges, starts, target.id, Reversed(chain)) && NoRepeat(Reversed(chain))
  {
    hide Joins;
    var steps := Reversed(chain);
    forall i | 0 < i < |steps|
      ensures Joins(edges, steps[i - 1], steps[i])
    {
      var k := |chain| - i;
      assert Joins(edges, chain[k], chain[k - 1]);
    }
  }

  /** Follows the first-reached edges from the target to a start node. The chain cannot loop:
      every step is one level closer to the start. */
  method BuildPath(g: Graph, target: Node, prev: map<nat, Edge>, ghost starts: set<nat>, ghost dist: map<nat, nat>)
    returns (steps: seq<PathStep>)
    requires g.Valid() && target in g.nodes && target.id in dist
    requires Tree(g.edges, starts, prev, dist)
    ensures IsPath(g.nodes, g.edges, starts, target.id, steps) && Follows(prev, steps)
    ensures NoRepeat(steps) && |steps| == dist[target.id] + 1
  {
    var reversed: seq<PathStep> := [];
    var node := target;
    ghost var left: nat := dist[target.id] + 1;
    hide BackChain, IsPath, NoRepeat;
    NoChainYet(g.nodes, g.edges, dist, target);
    while true
      invariant node in g.nodes && node.id in dist
      invariant left == dist[node.id] + 1 && |reversed| + left == dist[target.id] + 1
      invariant BackChain(g.nodes, g.edges, dist, target, reversed)
      invariant forall i | 0 <= i < |reversed| :: reversed[i].node.id in prev && reversed[i].edge == Some(prev[reversed[i].node.id])
      invariant if reversed == [] then node == target else Joins(g.edges, PathStep(node, None), reversed[|reversed| - 1])
      decreases left
    {
      var edge := if node.id in prev then Some(prev[node.id]) else None;
      BackChainGrows(g.nodes, g.edges, dist, target, reversed, PathStep(node, edge));
      reversed := reversed + [PathStep(node, edge)];
      if edge.None? {
        break;
      }
      node := g.nodes[edge.value.from];
      left := left - 1;
    }
    BackChainIsPath(g.nodes, g.edges, starts, dist, target, reversed);
    steps := Reversed(reversed);
  }

  // ----- The search

  /** Reached nodes are finished or waiting, never both, and wait once. */
  ghost predicate Waiting(dist: map<nat, nat>, queue: seq<nat>, done: set<nat>) {
    && (forall v :: v in dist <==> v in done || v in queue)
    && (forall q | q in queue :: q !in done)
    && (forall i, j | 0 <= i < j < |queue| :: queue[i] != queue[j])
  }

  lemma TreeGrows(edges: seq<Edge>, starts: set<nat>, prev: map<nat, Edge>, dist: map<nat, nat>, e: Edge)
    requires Tree(edges, starts, prev, dist) && e in edges && e.from in dist && e.to !in dist
    ensures Tree(edges, starts, prev[e.to := e], dist[e.to := dist[e.from] + 1])
  {
  }

  lemma ExpandedGrows(edges: seq<Edge>, dist: map<nat, nat>, done: set<nat>, v: nat, depth: nat)
    requires Expanded(edges, dist, done) && v !in dist
    ensures Expanded(edges, dist[v := depth], done)
  {
  }

  lemma QueuedGrows(dist: map<nat, nat>, queue: seq<nat>, done: set<nat>, d: nat, v: nat)
    requires Queued(dist, queue, done, d) && v !in dist
    ensures Queued(dist[v := d + 1], queue + [v], done, d)
  {
  }

  lemma WaitingGrows(dist: map<nat, nat>, queue: seq<nat>, done: set<nat>, v: nat, depth: nat)
    requires Waiting(dist, queue, done) && v !in dist
    ensures Waiting(dist[v := depth], queue + [v], done)
  {
  }

  /** Taking the head off the queue moves the current level to its depth. */
  lemma QueueAdvances(dist: map<nat, nat>, queue: seq<nat>, done: set<nat>, d: nat)
    requires Queued(dist, queue, done, d) && Waiting(dist, queue, done) && |queue| > 0
    ensures queue[0] in dist && d <= dist[queue[0]]
    ensures Queued(dist, queue[1..], done + {queue[0]}, dist[queue[0]])
    ensures Waiting(dist, queue[1..], done + {queue[0]}) && queue[0] !in done
    ensures forall v | v in dist && v !in done :: dist[v] >= dist[queue[0]]
  {
    assert queue == [queue[0]] + queue[1..];
    assert forall v :: v in queue <==> v == queue[0] || v in queue[1..];
  }

  lemma ReachedIsShallow(dist: map<nat, nat>, queue: seq<nat>, done: set<nat>, d: nat, v: nat)
    requires Queued(dist, queue, done, d) && Waiting(dist, queue, done) && v in dist
    ensures dist[v] <= d + 1
  {
  }

  lemma NodeFinished(edges: seq<Edge>, dist: map<nat, nat>, done: set<nat>, node: nat, list: seq<Edge>)
    requires Expanded(edges, dist, done - {node}) && node in dist
    requires forall e :: e in list <==> e in edges && e.from == node
    requires forall j | 0 <= j < |list| :: list[j].to in dist && dist[list[j].to] <= dist[node] + 1
    ensures Expanded(edges, dist, done + {node})
  {
    forall e | e in edges && e.from == node
      ensures e.to in dist && dist[e.to] <= dist[node] + 1
    {
      assert e in list;
    }
  }

  /** The state of the loop over one node's edges. */
  ghost predicate Expanding(edges: seq<Edge>, starts: set<nat>, node: nat, seen0: set<nat>, dist0: map<nat, nat>, done: set<nat>,
                            seen: set<nat>, prev: map<nat, Edge>, queue: seq<nat>, dist: map<nat, nat>) {
    && node in dist0 && seen == dist.Keys && FirstReached(edges, node, seen0, seen, prev)
    && Tree(edges, starts, prev, dist) && Expanded(edges, dist, done - {node})
    && Queued(dist, queue, done, dist0[node]) && Waiting(dist, queue, done)
    && (forall v | v in dist0 :: v in dist && dist[v] == dist0[v])
  }

  /** A target that was not seen is reached through this node, one level down. */
  lemma ExpandingMore(edges: seq<Edge>, starts: set<nat>, node: nat, seen0: set<nat>, dist0: map<nat, nat>, done: set<nat>,
                      seen: set<nat>, prev: map<nat, Edge>, queue: seq<nat>, dist: map<nat, nat>, e: Edge)
    requires Expanding(edges, starts, node, seen0, dist0, done, seen, prev, queue, dist)
    requires e in edges && e.from == node && e.to !in seen
    ensures Expanding(edges, starts, node, seen0, dist0, done,
                      seen + {e.to}, prev[e.to := e], queue + [e.to], dist[e.to := dist0[node] + 1])
  {
    hide Tree, Expanded, Queued, Waiting, FirstReached;
    FirstReachedGrows(edges, node, seen0, seen, prev, e);
    TreeGrows(edges, starts, prev, dist, e);
    ExpandedGrows(edges, dist, done - {node}, e.to, dist0[node] + 1);
    QueuedGrows(dist, queue, done, dist0[node], e.to);
    WaitingGrows(dist, queue, done, e.to, dist0[node] + 1);
  }

  lemma ExpandingDone(edges: seq<Edge>, starts: set<nat>, node: nat, seen0: set<nat>, dist0: map<nat, nat>, done: set<nat>,
                      seen: set<nat>, prev: map<nat, Edge>, queue: seq<nat>, dist: map<nat, nat>, list: seq<Edge>)
    requires Expanding(edges, starts, node, seen0, dist0, done, seen, prev, queue, dist) && node in done
    requires forall e :: e in list <==> e in edges && e.from == node
    requires forall j | 0 <= j < |list| :: list[j].to in seen
    ensures Expanded(edges, dist, done) && seen == seen0 + TargetsOf(edges, node)
  {
    hide Tree, Expanded, Queued, Waiting, FirstReached;
    forall j | 0 <= j < |list|
      ensures list[j].to in dist && dist[list[j].to] <= dist[node] + 1
    {
      ReachedIsShallow(dist, queue, done, dist0[node], list[j].to);
    }
    NodeFinished(edges, dist, done, node, list);
    TargetsAre(edges, node, list, seen0, seen, prev);
    assert done + {node} == done;
  }

  /** The loop over one node's edges: what was not seen is reached through this node. */
  method Expand(g: Graph, node: nat, seen0: set<nat>, prev0: map<nat, Edge>, queue0: seq<nat>,
                ghost starts: set<nat>, ghost dist0: map<nat, nat>, ghost done: set<nat>,
                ghost pos0: map<nat, nat>, ghost n0: nat)
    returns (seen: set<nat>, prev: map<nat, Edge>, queue: seq<nat>, ghost dist: map<nat, nat>, ghost pos: map<nat, nat>, ghost n: nat)
    requires g.Valid() && node in dist0 && node in done && seen0 == dist0.Keys
    requires Tree(g.edges, starts, prev0, dist0) && Expanded(g.edges, dist0, done - {node})
    requires Queued(dist0, queue0, done, dist0[node]) && Waiting(dist0, queue0, done)
    requires Discovered(g.nodes, g.edges, starts, prev0, dist0, queue0, done, pos0, n0) && LastDone(pos0, queue0, done, node)
    requires forall v | v in prev0 :: prev0[v].from != node
    ensures Discovered(g.nodes, g.edges, starts, prev, dist, queue, done, pos, n)
    ensures seen == seen0 + TargetsOf(g.edges, node) && FirstReached(g.edges, node, seen0, seen, prev)
    ensures seen == dist.Keys
    ensures Tree(g.edges, starts, prev, dist) && Expanded(g.edges, dist, done)
    ensures Queued(dist, queue, done, dist0[node]) && Waiting(dist, queue, done)
    ensures forall v | v in dist0 :: v in dist && dist[v] == dist0[v]
  {
    hide Tree, Expanded, Queued, Waiting, WellFormed, Indexed, FirstReached, TargetsOf, Expanding, SortBy, EdgeOrder, ListAt,
      Discovered, LastDone, Ascending;
    ExpandingStarts(g.edges, starts, node, dist0, done, prev0, queue0);
    seen, prev, queue, dist, pos, n := seen0, prev0, queue0, dist0, pos0, n0;
    var list := ListAt(g.out, node);
    ListAtIs(g.edges, g.out, g.into, node);
    var sorted := SortBy(list, EdgeOrder(g.nodes));
    SameElements(sorted, list);
    SortedEdges(g.nodes, g.edges, g.out, g.into, node);
    for k := 0 to |sorted|
      invariant Discovered(g.nodes, g.edges, starts, prev, dist, queue, done, pos, n) && LastDone(pos, queue, done, node)
      invariant FromEarlier(prev, node, sorted, k)
      invariant Expanding(g.edges, starts, node, seen0, dist0, done, seen, prev, queue, dist)
      invariant forall j | 0 <= j < k :: sorted[j].to in seen
    {
      var e := sorted[k];
      OneFurther(prev, node, sorted, k);
      if e.to in seen {
        continue;
      }
      ExpandingReached(g.edges, starts, node, seen0, dist0, done, seen, prev, queue, dist);
      DiscoveredGrows(g.nodes, g.edges, starts, prev, dist, queue, done, pos, n, node, sorted, k, dist0[node] + 1);
      ExpandingMore(g.edges, starts, node, seen0, dist0, done, seen, prev, queue, dist, e);
      seen := seen + {e.to};
      prev := prev[e.to := e];
      queue := queue + [e.to];
      dist := dist[e.to := dist0[node] + 1];
      pos, n := pos[e.to := n], n + 1;
    }
    ExpandingDone(g.edges, starts, node, seen0, dist0, done, seen, prev, queue, dist, sorted);
    ExpandingIs(g.edges, starts, node, seen0, dist0, done, seen, prev, queue, dist);
  }

  lemma OneFurther(prev: map<nat, Edge>, node: nat, sorted: seq<Edge>, k: nat)
    requires FromEarlier(prev, node, sorted, k) && k < |sorted|
    ensures FromEarlier(prev, node, sorted, k + 1)
  {
    assert sorted[..k + 1] == sorted[..k] + [sorted[k]];
  }

  lemma ExpandingReached(edges: seq<Edge>, starts: set<nat>, node: nat, seen0: set<nat>, dist0: map<nat, nat>, done: set<nat>,
                         seen: set<nat>, prev: map<nat, Edge>, queue: seq<nat>, dist: map<nat, nat>)
    requires Expanding(edges, starts, node, seen0, dist0, done, seen, prev, queue, dist)
    ensures starts <= dist.Keys && prev.Keys <= dist.Keys
    ensures seen == dist.Keys && Waiting(dist, queue, done) && Expanded(edges, dist, done - {node})
  {
  }

  lemma {:induction false} EdgesFromDistinct(edges: seq<Edge>, i: nat)
    requires forall j | 0 <= j < |edges| :: edges[j].id == j
    ensures Distinct(EdgesFrom(edges, i))
  {
    if edges != [] {
      var front, last := edges[..|edges| - 1], edges[|edges| - 1];
      EdgesFromDistinct(front, i);
      EdgesFromAre(front, i, last);
      var r := EdgesFrom(front, i);
      assert EdgesFrom(edges, i) == r + if last.from == i then [last] else [];
      assert last !in front;
    }
  }

  /** The edges of one node, sorted, each strictly before the next. */
  lemma SortedEdges(nodes: seq<Node>, edges: seq<Edge>, out: map<nat, seq<Edge>>, into: map<nat, seq<Edge>>, node: nat)
    requires WellFormed(nodes, edges) && Indexed(edges, out, into)
    ensures var sorted := SortBy(ListAt(out, node), EdgeOrder(nodes));
            Ascending(nodes, sorted)
  {
    hide EdgeOrder, EdgeLess, SortBy, StrictWeakOn;
    var list, less := ListAt(out, node), EdgeOrder(nodes);
    ListAtIs(edges, out, into, node);
    EdgesFromDistinct(edges, node);
    EdgeOrderIsTotal(nodes, list);
    SortBySorted(list, less);
    var sorted := SortBy(list, less);
    PermutedDistinct(list, sorted);
    TotalOnSame(list, sorted, less);
    forall i, j | 0 <= i < j < |sorted|
      ensures less(sorted[i], sorted[j])
    {
      assert sorted[i] in sorted && sorted[j] in sorted && sorted[i] != sorted[j];
    }
  }

  lemma ExpandingStarts(edges: seq<Edge>, starts: set<nat>, node: nat, dist: map<nat, nat>, done: set<nat>,
                        prev: map<nat, Edge>, queue: seq<nat>)
    requires node in dist && Tree(edges, starts, prev, dist) && Expanded(edges, dist, done - {node})
    requires Queued(dist, queue, done, dist[node]) && Waiting(dist, queue, done)
    ensures Expanding(edges, starts, node, dist.Keys, dist, done, dist.Keys, prev, queue, dist)
  {
  }

  lemma ExpandingIs(edges: seq<Edge>, starts: set<nat>, node: nat, seen0: set<nat>, dist0: map<nat, nat>, done: set<nat>,
                    seen: set<nat>, prev: map<nat, Edge>, queue: seq<nat>, dist: map<nat, nat>)
    requires Expanding(edges, starts, node, seen0, dist0, done, seen, prev, queue, dist)
    ensures node in dist0 && seen == dist.Keys && FirstReached(edges, node, seen0, seen, prev)
    ensures Tree(edges, starts, prev, dist) && Queued(dist, queue, done, dist0[node]) && Waiting(dist, queue, done)
    ensures forall v | v in dist0 :: v in dist && dist[v] == dist0[v]
  {
  }

  ghost function TargetsOf(edges: seq<Edge>, node: nat): set<nat> {
    set e | e in edges && e.from == node :: e.to
  }

  /** What is newly seen was reached through an edge of this node. */
  ghost predicate FirstReached(edges: seq<Edge>, node: nat, seen0: set<nat>, seen: set<nat>, prev: map<nat, Edge>) {
    && seen0 <= seen
    && forall v | v in seen && v !in seen0 :: v in prev && prev[v] in edges && prev[v].from == node && prev[v].to == v
  }

  lemma FirstReachedGrows(edges: seq<Edge>, node: nat, seen0: set<nat>, seen: set<nat>, prev: map<nat, Edge>, e: Edge)
    requires FirstReached(edges, node, seen0, seen, prev) && e in edges && e.from == node && e.to !in seen
    ensures FirstReached(edges, node, seen0, seen + {e.to}, prev[e.to := e])
  {
  }

  lemma TargetsAre(edges: seq<Edge>, node: nat, list: seq<Edge>, seen0: set<nat>, seen: set<nat>, prev: map<nat, Edge>)
    requires forall e :: e in list <==> e in edges && e.from == node
    requires FirstReached(edges, node, seen0, seen, prev) && forall j | 0 <= j < |list| :: list[j].to in seen
    ensures seen == seen0 + TargetsOf(edges, node)
  {
    forall v | v in TargetsOf(edges, node)
      ensures v in seen
    {
      var e :| e in edges && e.from == node && e.to == v;
      assert e in list;
    }
    forall v | v in seen && v !in seen0
      ensures v in TargetsOf(edges, node)
    {
      assert prev[v] in edges;
    }
  }

  /** The search succeeds exactly when some walk leads from an entrypoint to the target, and then
      returns such a walk over real edges, of minimum length, that visits no node twice. */
  method Search(g: Graph, entrypoints: seq<Option<Func>>, target: Option<Func>)
    returns (found: bool, steps: seq<PathStep>)
    requires g.Valid()
    ensures found <==> exists t :: t in g.nodes && target == Some(t.fn)
                         && ReachedFrom(EdgeSucc(g.edges), Starts(g.nodes, entrypoints), t.id)
    ensures found ==> exists t :: t in g.nodes && target == Some(t.fn)
                        && IsPath(g.nodes, g.edges, Starts(g.nodes, entrypoints), t.id, steps)
                        && NoRepeat(steps) && Shortest(g.edges, Starts(g.nodes, entrypoints), t.id, |steps|)
                        && LeastPath(g.nodes, g.edges, Starts(g.nodes, entrypoints), t.id, steps)
  {
    var targetNode := g.NodeByFunction(target);
    if targetNode.None? {
      return false, [];
    }
    var t := targetNode.value;
    found, steps := SearchFrom(g, entrypoints, t);
    forall u | u in g.nodes && target == Some(u.fn)
      ensures u == t
    {
    }
  }

  /** The ids of the entrypoints the graph holds. */
  ghost function Starts(nodes: seq<Node>, entrypoints: seq<Option<Func>>): set<nat> {
    set n | n in nodes && Some(n.fn) in entrypoints :: n.id
  }

  ghost function StartIds(nodes: seq<Node>, entries: set<Func>): set<nat> {
    set n | n in nodes && n.fn in entries :: n.id
  }

  method SearchFrom(g: Graph, entrypoints: seq<Option<Func>>, t: Node)
    returns (found: bool, steps: seq<PathStep>)
    requires g.Valid() && t in g.nodes
    ensures found <==> ReachedFrom(EdgeSucc(g.edges), Starts(g.nodes, entrypoints), t.id)
    ensures found ==> IsPath(g.nodes, g.edges, Starts(g.nodes, entrypoints), t.id, steps) && NoRepeat(steps)
                      && Shortest(g.edges, Starts(g.nodes, entrypoints), t.id, |steps|)
                      && LeastPath(g.nodes, g.edges, Starts(g.nodes, entrypoints), t.id, steps)
  {
    hide Tree, Expanded, Queued, Waiting, IsPath, NoRepeat, Shortest, ReachedFrom, EdgeSucc, Discovered, LeastPath, Follows, LastDone,
      NodeLess, Searching, Ids, WellFormed, Indexed;
    ghost var starts := Starts(g.nodes, entrypoints);
    var seen, queue := FirstLevel(g, entrypoints);
    var prev: map<nat, Edge> := map[];
    ghost var dist := SearchStarts(g.nodes, g.edges, entrypoints, seen, queue);
    ghost var done: set<nat>, d: nat, n: nat, pos := {}, 0, |queue|, Places(queue);
    while |queue| > 0
      invariant Searching(g.nodes, g.edges, starts, seen, prev, dist, queue, done, d, pos, n)
      invariant t.id !in done
      decreases Ids(g.nodes) - done
    {
      HeadTaken(g.nodes, g.edges, starts, seen, prev, dist, queue, done, d, pos, n);
      ghost var waiting, finished := queue, done;
      var node := queue[0];
      queue := queue[1..];
      if node == t.id {
        steps := BuildPath(g, t, prev, starts, dist);
        TargetFound(g.nodes, g.edges, starts, seen, prev, dist, waiting, done, d, pos, n, steps);
        return true, steps;
      }
      d := dist[node];
      done := done + {node};
      seen, prev, queue, dist, pos, n := Expand(g, node, seen, prev, queue, starts, dist, done, pos, n);
      SearchGoesOn(g.nodes, g.edges, starts, seen, prev, dist, queue, done, d, pos, n);
    }
    NothingFound(g.nodes, g.edges, starts, seen, prev, dist, queue, done, d, pos, n, t.id);
    return false, [];
  }

  /** The state of the search between two nodes. */
  ghost predicate Searching(nodes: seq<Node>, edges: seq<Edge>, starts: set<nat>, seen: set<nat>, prev: map<nat, Edge>, dist: map<nat, nat>,
                            queue: seq<nat>, done: set<nat>, d: nat, pos: map<nat, nat>, n: nat) {
    && starts <= Ids(nodes) && seen == dist.Keys && done <= Ids(nodes)
    && Tree(edges, starts, prev, dist) && Expanded(edges, dist, done)
    && Queued(dist, queue, done, d) && Waiting(dist, queue, done)
    && Discovered(nodes, edges, starts, prev, dist, queue, done, pos, n)
  }

  lemma SearchStarts(nodes: seq<Node>, edges: seq<Edge>, entrypoints: seq<Option<Func>>, seen: set<nat>, queue: seq<nat>)
    returns (dist: map<nat, nat>)
    requires seen == Starts(nodes, entrypoints) && forall id :: id in queue <==> id in seen
    requires forall i, j | 0 <= i < j < |queue| :: queue[i] != queue[j]
    requires forall i | 0 <= i < |queue| :: queue[i] < |nodes|
    requires forall i, j | 0 <= i < j < |queue| :: !NodeLess(nodes[queue[j]], nodes[queue[i]])
    ensures Searching(nodes, edges, Starts(nodes, entrypoints), seen, map[], dist, queue, {}, 0, Places(queue), |queue|)
  {
    hide Tree, Expanded, Queued, Waiting, Discovered, NodeLess;
    dist := map s | s in seen :: 0 as nat;
    StartsWait(edges, seen, dist, queue);
    StartsDiscovered(nodes, edges, seen, dist, queue);
  }

  lemma HeadTaken(nodes: seq<Node>, edges: seq<Edge>, starts: set<nat>, seen: set<nat>, prev: map<nat, Edge>, dist: map<nat, nat>,
                  queue: seq<nat>, done: set<nat>, d: nat, pos: map<nat, nat>, n: nat)
    requires WellFormed(nodes, edges) && Searching(nodes, edges, starts, seen, prev, dist, queue, done, d, pos, n) && queue != []
    ensures var node, later, now := queue[0], queue[1..], done + {queue[0]};
            && node in dist && node in Ids(nodes) && node !in done && seen == dist.Keys && now <= Ids(nodes) && now - {node} == done
            && Tree(edges, starts, prev, dist) && Expanded(edges, dist, done)
            && Queued(dist, later, now, dist[node]) && Waiting(dist, later, now)
            && Discovered(nodes, edges, starts, prev, dist, later, now, pos, n) && LastDone(pos, later, now, node)
            && starts <= Ids(nodes) && forall v | v in prev :: prev[v].from != node
  {
    hide Tree, Expanded, Queued, Waiting, Discovered, LastDone, WellFormed, Ids;
    QueueAdvances(dist, queue, done, d);
    DiscoveredAdvances(nodes, edges, starts, prev, dist, queue, done, pos, n);
    ReachedAreNodes(nodes, edges, starts, prev, dist);
    NotYetFrom(prev, done, queue[0], pos, dist, n, queue, nodes, edges, starts);
  }

  lemma TargetFound(nodes: seq<Node>, edges: seq<Edge>, starts: set<nat>, seen: set<nat>, prev: map<nat, Edge>, dist: map<nat, nat>,
                    queue: seq<nat>, done: set<nat>, d: nat, pos: map<nat, nat>, n: nat, steps: seq<PathStep>)
    requires WellFormed(nodes, edges) && Searching(nodes, edges, starts, seen, prev, dist, queue, done, d, pos, n)
    requires queue != [] && queue[0] in dist
    requires IsPath(nodes, edges, starts, queue[0], steps) && Follows(prev, steps) && |steps| == dist[queue[0]] + 1
    ensures Shortest(edges, starts, queue[0], |steps|) && LeastPath(nodes, edges, starts, queue[0], steps)
    ensures ReachedFrom(EdgeSucc(edges), starts, queue[0])
  {
    hide Tree, Expanded, Queued, Waiting, Discovered, WellFormed, Ids, IsPath, Follows, Shortest, LeastPath, ReachedFrom, EdgeSucc;
    var t := queue[0];
    QueueAdvances(dist, queue, done, d);
    DepthIsShortest(edges, starts, prev, dist, done, t);
    PathIsReached(nodes, edges, starts, t, steps);
    FoundIsLeast(nodes, edges, starts, prev, dist, queue, done, pos, n, t, steps);
  }

  lemma SearchGoesOn(nodes: seq<Node>, edges: seq<Edge>, starts: set<nat>, seen: set<nat>, prev: map<nat, Edge>, dist: map<nat, nat>,
                     queue: seq<nat>, done: set<nat>, d: nat, pos: map<nat, nat>, n: nat)
    requires starts <= Ids(nodes) && seen == dist.Keys && done <= Ids(nodes)
    requires Tree(edges, starts, prev, dist) && Expanded(edges, dist, done)
    requires Queued(dist, queue, done, d) && Waiting(dist, queue, done)
    requires Discovered(nodes, edges, starts, prev, dist, queue, done, pos, n)
    ensures Searching(nodes, edges, starts, seen, prev, dist, queue, done, d, pos, n)
  {
    hide Tree, Expanded, Queued, Waiting, Discovered, Ids;
  }

  lemma NothingFound(nodes: seq<Node>, edges: seq<Edge>, starts: set<nat>, seen: set<nat>, prev: map<nat, Edge>, dist: map<nat, nat>,
                     queue: seq<nat>, done: set<nat>, d: nat, pos: map<nat, nat>, n: nat, target: nat)
    requires Searching(nodes, edges, starts, seen, prev, dist, queue, done, d, pos, n) && queue == [] && target !in done
    ensures !ReachedFrom(EdgeSucc(edges), starts, target)
  {
    hide Tree, Expanded, Queued, Waiting, Discovered, Ids, ReachedFrom, EdgeSucc;
    NothingWaiting(dist, queue, done);
    ExhaustedIsUnreachable(edges, starts, prev, dist, target);
  }

  lemma NotYetFrom(prev: map<nat, Edge>, done: set<nat>, node: nat, pos: map<nat, nat>, dist: map<nat, nat>, n: nat,
                   queue: seq<nat>, nodes: seq<Node>, edges: seq<Edge>, starts: set<nat>)
    requires Discovered(nodes, edges, starts, prev, dist, queue, done, pos, n) && node !in done
    ensures forall v | v in prev :: prev[v].from != node
  {
    hide Numbered, Lined, FoundInOrder, FirstEdges;
  }

  lemma StartsWait(edges: seq<Edge>, starts: set<nat>, dist: map<nat, nat>, queue: seq<nat>)
    requires dist.Keys == starts && (forall v | v in dist :: dist[v] == 0) && forall v :: v in queue <==> v in starts
    requires forall i, j | 0 <= i < j < |queue| :: queue[i] != queue[j]
    ensures Tree(edges, starts, map[], dist) && Expanded(edges, dist, {})
    ensures Queued(dist, queue, {}, 0) && Waiting(dist, queue, {})
  {
  }

  /** The places of the start nodes in the queue. */
  ghost function Places(queue: seq<nat>): map<nat, nat> {
    map v | v in queue :: PlaceOf(queue, v)
  }

  ghost function PlaceOf(queue: seq<nat>, v: nat): (i: nat)
    requires v in queue
    ensures i < |queue| && queue[i] == v
  {
    var i :| 0 <= i < |queue| && queue[i] == v;
    i
  }

  lemma StartsDiscovered(nodes: seq<Node>, edges: seq<Edge>, starts: set<nat>, dist: map<nat, nat>, queue: seq<nat>)
    requires dist.Keys == starts && forall v :: v in queue <==> v in starts
    requires forall i, j | 0 <= i < j < |queue| :: queue[i] != queue[j]
    requires forall i | 0 <= i < |queue| :: queue[i] < |nodes|
    requires forall i, j | 0 <= i < j < |queue| :: !NodeLess(nodes[queue[j]], nodes[queue[i]])
    ensures Discovered(nodes, edges, starts, map[], dist, queue, {}, Places(queue), |queue|)
  {
    hide NodeLess;
    var pos := Places(queue);
    assert forall i | 0 <= i < |queue| :: pos[queue[i]] == i;
  }

  ghost function Ids(nodes: seq<Node>): set<nat> {
    set n | n in nodes :: n.id
  }

  lemma ReachedAreNodes(nodes: seq<Node>, edges: seq<Edge>, starts: set<nat>, prev: map<nat, Edge>, dist: map<nat, nat>)
    requires WellFormed(nodes, edges) && Tree(edges, starts, prev, dist) && starts <= Ids(nodes)
    ensures dist.Keys <= Ids(nodes)
  {
    forall v | v in dist
      ensures v in Ids(nodes)
    {
      if v in prev {
        assert prev[v] in edges && prev[v].to == v;
        assert nodes[v] in nodes;
      }
    }
  }

  lemma NothingWaiting(dist: map<nat, nat>, queue: seq<nat>, done: set<nat>)
    requires Waiting(dist, queue, done) && queue == []
    ensures dist.Keys == done
  {
  }

  /** The distinct start nodes, in node order. */
  method FirstLevel(g: Graph, entrypoints: seq<Option<Func>>) returns (seen: set<nat>, queue: seq<nat>)
    requires g.Valid()
    ensures seen == set n | n in g.nodes && Some(n.fn) in entrypoints :: n.id
    ensures forall id :: id in queue <==> id in seen
    ensures forall i, j | 0 <= i < j < |queue| :: queue[i] != queue[j]
    ensures forall i | 0 <= i < |queue| :: queue[i] < |g.nodes|
    ensures forall i, j | 0 <= i < j < |queue| :: !NodeLess(g.nodes[queue[j]], g.nodes[queue[i]])
  {
    hide NodeLess, SortBy, FirstOf;
    var startNodes := StartNodes(g, entrypoints);
    var sorted := SortBy(startNodes, NodeLess);
    SameElements(sorted, startNodes);
    NodeOrderIsWeak(startNodes);
    SortBySorted(startNodes, NodeLess);
    seen, queue := {}, [];
    NothingFirst(g.nodes, sorted);
    for i := 0 to |sorted|
      invariant FirstOf(g.nodes, sorted, i, seen, queue)
    {
      assert sorted[i] in sorted;
      FirstNext(g.nodes, sorted, i, seen, queue);
      if sorted[i].id !in seen {
        seen := seen + {sorted[i].id};
        queue := queue + [sorted[i].id];
      }
    }
    FirstIs(g.nodes, sorted, seen, queue);
  }

  /** The queue holds the ids of the first `i` sorted nodes, each once, in their order. */
  ghost predicate FirstOf(nodes: seq<Node>, sorted: seq<Node>, i: nat, seen: set<nat>, queue: seq<nat>) {
    && i <= |sorted|
    && (forall id :: id in seen <==> exists j | 0 <= j < i :: sorted[j].id == id)
    && (forall id :: id in queue <==> id in seen)
    && (forall j, k | 0 <= j < k < |queue| :: queue[j] != queue[k])
    && (forall j | 0 <= j < |queue| :: FoundAmong(nodes, sorted, i, queue[j]))
    && (forall j, k | 0 <= j < k < |queue| :: queue[j] < |nodes| && queue[k] < |nodes| && !NodeLess(nodes[queue[k]], nodes[queue[j]]))
  }

  ghost predicate FoundAmong(nodes: seq<Node>, sorted: seq<Node>, i: nat, id: nat) {
    id < |nodes| && exists k: nat :: k < i && k < |sorted| && sorted[k] == nodes[id]
  }

  lemma NothingFirst(nodes: seq<Node>, sorted: seq<Node>)
    ensures FirstOf(nodes, sorted, 0, {}, [])
  {
  }

  lemma FoundAmongMore(nodes: seq<Node>, sorted: seq<Node>, i: nat, id: nat)
    requires FoundAmong(nodes, sorted, i, id)
    ensures FoundAmong(nodes, sorted, i + 1, id)
  {
  }

  lemma FoundEarlier(nodes: seq<Node>, sorted: seq<Node>, i: nat, id: nat)
    requires FoundAmong(nodes, sorted, i, id) && i < |sorted| && Sorted(sorted, NodeLess)
    ensures !NodeLess(sorted[i], nodes[id])
  {
    hide NodeLess;
  }

  lemma FirstNext(nodes: seq<Node>, sorted: seq<Node>, i: nat, seen: set<nat>, queue: seq<nat>)
    requires FirstOf(nodes, sorted, i, seen, queue) && i < |sorted| && Sorted(sorted, NodeLess)
    requires sorted[i].id < |nodes| && nodes[sorted[i].id] == sorted[i]
    ensures var id := sorted[i].id;
            if id in seen then FirstOf(nodes, sorted, i + 1, seen, queue) else FirstOf(nodes, sorted, i + 1, seen + {id}, queue + [id])
  {
    hide NodeLess, Sorted, FoundAmong;
    var id := sorted[i].id;
    forall j | 0 <= j < |queue|
      ensures FoundAmong(nodes, sorted, i + 1, queue[j]) && queue[j] < |nodes| && !NodeLess(sorted[i], nodes[queue[j]])
    {
      FoundAmongMore(nodes, sorted, i, queue[j]);
      FoundIsNode(nodes, sorted, i, queue[j]);
      FoundEarlier(nodes, sorted, i, queue[j]);
    }
    FoundHere(nodes, sorted, i);
    if id !in seen {
      var longer := queue + [id];
      assert forall j | 0 <= j < |longer| :: longer[j] == if j < |queue| then queue[j] else id;
    }
  }

  lemma FoundHere(nodes: seq<Node>, sorted: seq<Node>, i: nat)
    requires i < |sorted| && sorted[i].id < |nodes| && nodes[sorted[i].id] == sorted[i]
    ensures FoundAmong(nodes, sorted, i + 1, sorted[i].id)
  {
  }

  lemma FoundIsNode(nodes: seq<Node>, sorted: seq<Node>, i: nat, id: nat)
    requires FoundAmong(nodes, sorted, i, id)
    ensures id < |nodes|
  {
  }

  lemma FirstIs(nodes: seq<Node>, sorted: seq<Node>, seen: set<nat>, queue: seq<nat>)
    requires FirstOf(nodes, sorted, |sorted|, seen, queue)
    ensures seen == set n | n in sorted :: n.id
    ensures forall id :: id in queue <==> id in seen
    ensures forall i, j | 0 <= i < j < |queue| :: queue[i] != queue[j]
    ensures forall i | 0 <= i < |queue| :: queue[i] < |nodes|
    ensures forall i, j | 0 <= i < j < |queue| :: !NodeLess(nodes[queue[j]], nodes[queue[i]])
  {
    hide NodeLess;
  }

  method StartNodes(g: Graph, entrypoints: seq<Option<Func>>) returns (starts: seq<Node>)
    requires g.Valid()
    ensures forall n :: n in starts <==> n in g.nodes && Some(n.fn) in entrypoints
  {
    starts := [];
    for i := 0 to |entrypoints|
      invariant forall n :: n in starts <==> n in g.nodes && Some(n.fn) in entrypoints[..i]
    {
      var node := g.NodeByFunction(entrypoints[i]);
      assert entrypoints[..i + 1] == entrypoints[..i] + [entrypoints[i]];
      if node.Some? {
        starts := starts + [node.value];
      }
    }
    assert entrypoints[..|entrypoints|] == entrypoints;
  }
}
