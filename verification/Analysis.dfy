/** The whole analysis: the call graph of the entrypoints, augmentation unless it is skipped, and
    the search for the target. */
module Analysis {
  import opened Collections
  import opened Functions
  import opened Reachability
  import opened ActivationGraph
  import opened Alternations
  import opened Augment
  import opened AugmentRules
  import opened ShortestPath

  /** The initial graph: the call graph of the entrypoints, parallel edges and all. It is the least
      graph closed under calls alone. */
  method BuildRTAGraph(prog: Program, entrypoints: seq<Func>) returns (g: Graph)
    requires Sane(prog, RTAOnly)
    ensures fresh(g) && g.Valid()
    ensures LeastClosed(prog, RTAOnly, Elements(entrypoints), Funcs(g.nodes), Links(g.nodes, g.edges))
    ensures Justified(prog, RTAOnly, Elements(entrypoints), Funcs(g.nodes), Links(g.nodes, g.edges))
    ensures CallsDone(prog, Funcs(g.nodes), Funcs(g.nodes), Links(g.nodes, g.edges))
    ensures Elements(entrypoints) <= Funcs(g.nodes)
  {
    ghost var mode, seeds := RTAOnly, Elements(entrypoints);
    hide LeastClosed, PassesDone, Derived, Monotone, PassesFor;
    hide Links, Funcs, WellFormed, Indexed, Covered, CallLinks, Justified, Sane;
    SaneIsMonotone(prog, mode);
    forall e | e in entrypoints
      ensures Derived(prog, mode, seeds, e)
    {
      DerivedSeed(prog, mode, seeds, e);
    }
    CallGraphIs(prog, mode, seeds, entrypoints);
    g := new Graph();
    var funcs := prog.callGraph(entrypoints);
    EmptyGraph();
    JustifiedNothing(prog, mode, seeds);
    for i := 0 to |funcs|
      invariant g.Valid() && fresh(g) && Links(g.nodes, g.edges) == {}
      invariant forall f :: f in Funcs(g.nodes) <==> f in funcs[..i]
      invariant Justified(prog, mode, seeds, Funcs(g.nodes), {})
    {
      JustifiedOne(prog, mode, seeds, Funcs(g.nodes), {}, funcs[i]);
      var node := g.AddNode(funcs[i]);
      assert funcs[..i + 1] == funcs[..i] + [funcs[i]];
    }
    assert funcs[..|funcs|] == funcs;
    for i := 0 to |funcs|
      invariant g.Valid() && fresh(g)
      invariant forall f :: f in Funcs(g.nodes) <==> f in funcs
      invariant Justified(prog, mode, seeds, Funcs(g.nodes), Links(g.nodes, g.edges))
      invariant forall j | 0 <= j < i :: Covered(Funcs(g.nodes), Links(g.nodes, g.edges), CallLinks(prog, funcs[j]))
    {
      ghost var F, L := Funcs(g.nodes), Links(g.nodes, g.edges);
      ConvertCalls(g, funcs[i], prog, mode, seeds);
      forall j | 0 <= j < i
        ensures Covered(Funcs(g.nodes), Links(g.nodes, g.edges), CallLinks(prog, funcs[j]))
      {
        CoveredGrows(F, L, Funcs(g.nodes), Links(g.nodes, g.edges), CallLinks(prog, funcs[j]));
      }
    }
    NoPasses(prog, Funcs(g.nodes), Links(g.nodes, g.edges));
    ConvergedIsLeast(prog, mode, seeds, g.nodes, g.edges);
  }

  lemma EmptyGraph()
    ensures WellFormed([], []) && Funcs([]) == {} && Links([], []) == {}
  {
  }

  method ConvertCalls(g: Graph, f: Func, prog: Program, ghost mode: AugmentMode, ghost seeds: set<Func>)
    requires g.Valid() && f in Funcs(g.nodes) && Monotone(prog, mode)
    requires forall t | t in ListOf(prog.callees, f) :: t.fn in Funcs(g.nodes)
    requires Justified(prog, mode, seeds, Funcs(g.nodes), Links(g.nodes, g.edges))
    modifies g`edges, g`out, g`into
    ensures g.Valid() && old(Links(g.nodes, g.edges)) <= Links(g.nodes, g.edges)
    ensures Justified(prog, mode, seeds, Funcs(g.nodes), Links(g.nodes, g.edges))
    ensures Covered(Funcs(g.nodes), Links(g.nodes, g.edges), CallLinks(prog, f))
  {
    hide Links, Funcs, WellFormed, Indexed, Justified, Monotone;
    var list := ListOf(prog.callees, f);
    for i := 0 to |list|
      invariant g.Valid() && old(Links(g.nodes, g.edges)) <= Links(g.nodes, g.edges)
      invariant Justified(prog, mode, seeds, Funcs(g.nodes), Links(g.nodes, g.edges))
      invariant forall j | 0 <= j < i ::
                  list[j].fn in Funcs(g.nodes) && Link(f, list[j].fn, list[j].kind) in Links(g.nodes, g.edges)
    {
      JustifiedCall(prog, mode, seeds, Funcs(g.nodes), Links(g.nodes, g.edges), f, list[i]);
      assert Funcs(g.nodes) + {list[i].fn} == Funcs(g.nodes);
      var from := g.NodeByFunction(Some(f));
      var to := g.NodeByFunction(Some(list[i].fn));
      if from.None? || to.None? {
        continue;
      }
      NodeAt(g.nodes, g.edges, from.value);
      NodeAt(g.nodes, g.edges, to.value);
      var e := g.AppendEdge(from.value.id, to.value.id, list[i].kind, Position("", 0, 0), "");
    }
  }

  datatype Result = NoEntrypoints | Verdict(found: bool, skippedAugment: bool, limitHit: bool, path: seq<PathStep>)

  /** Some walk over the edges leads from an entrypoint to the target. */
  ghost predicate GraphReaches(nodes: seq<Node>, edges: seq<Edge>, entries: set<Func>, target: Func) {
    exists t :: t in nodes && target == t.fn && ReachedFrom(EdgeSucc(edges), StartIds(nodes, entries), t.id)
  }

  /** Every path the search finds in a justified graph is a chain of rules. */
  lemma FoundIsDerived(prog: Program, mode: AugmentMode, seeds: set<Func>, nodes: seq<Node>, edges: seq<Edge>,
                       entries: set<Func>, t: Node)
    requires WellFormed(nodes, edges) && Justified(prog, mode, seeds, Funcs(nodes), Links(nodes, edges))
    requires t in nodes && ReachedFrom(EdgeSucc(edges), StartIds(nodes, entries), t.id)
    ensures ReachedFrom(RuleSucc(prog, mode, Funcs(nodes)), entries, t.fn)
  {
    hide ReachedFrom, RuleSucc, RuleLink;
    var starts := StartIds(nodes, entries);
    var s := set n | n in nodes && ReachedFrom(RuleSucc(prog, mode, Funcs(nodes)), entries, n.fn) :: n.id;
    forall id | id in starts
      ensures id in s
    {
      var n :| n in nodes && n.fn in entries && n.id == id;
      ReachedStart(RuleSucc(prog, mode, Funcs(nodes)), entries, n.fn);
    }
    forall id, to | id in s && to in EdgeSucc(edges)(id)
      ensures to in s
    {
      var e :| e in edges && e.from == id && e.to == to;
      var l := Link(nodes[e.from].fn, nodes[e.to].fn, e.kind);
      assert l in Links(nodes, edges);
      RuleLinkIsSucc(prog, mode, Funcs(nodes), l);
      ReachedNext(RuleSucc(prog, mode, Funcs(nodes)), entries, l.from, l.to);
    }
    ClosedHoldsReached(EdgeSucc(edges), s, starts, t.id);
  }

  /** In the least closed graph the search misses nothing the rules derive. */
  lemma DerivedIsFound(prog: Program, mode: AugmentMode, seeds: set<Func>, nodes: seq<Node>, edges: seq<Edge>,
                       entries: set<Func>, target: Func)
    requires WellFormed(nodes, edges) && LeastClosed(prog, mode, seeds, Funcs(nodes), Links(nodes, edges))
    requires entries <= Funcs(nodes) && ReachedFrom(RuleSucc(prog, mode, Funcs(nodes)), entries, target)
    ensures GraphReaches(nodes, edges, entries, target)
  {
    hide ReachedFrom, RuleSucc, RuleLink;
    var starts := StartIds(nodes, entries);
    var s := set n | n in nodes && ReachedFrom(EdgeSucc(edges), starts, n.id) :: n.fn;
    forall f | f in entries
      ensures f in s
    {
      var n :| n in nodes && n.fn == f;
      ReachedStart(EdgeSucc(edges), starts, n.id);
    }
    forall f, h | f in s && h in RuleSucc(prog, mode, Funcs(nodes))(f)
      ensures h in s
    {
      var l := SuccIsRuleLink(prog, mode, Funcs(nodes), f, h);
      assert l in Links(nodes, edges);
      var e :| e in edges && Link(nodes[e.from].fn, nodes[e.to].fn, e.kind) == l;
      var n :| n in nodes && n.fn == f && ReachedFrom(EdgeSucc(edges), starts, n.id);
      ReachedNext(EdgeSucc(edges), starts, n.id, e.to);
    }
    ClosedHoldsReached(RuleSucc(prog, mode, Funcs(nodes)), s, entries, target);
  }

  /** A path over functions: from an entrypoint to the target, every step a link some rule gives with
      these functions scanned, no node twice. */
  ghost predicate RulePath(prog: Program, mode: AugmentMode, scanned: set<Func>, entries: set<Func>, target: Func, path: seq<PathStep>) {
    && |path| > 0 && path[0].node.fn in entries && path[|path| - 1].node.fn == target
    && (forall i | 0 < i < |path| :: RuleStep(prog, mode, scanned, path[i - 1], path[i]))
    && NoRepeat(path)
  }

  ghost predicate RuleStep(prog: Program, mode: AugmentMode, scanned: set<Func>, a: PathStep, b: PathStep) {
    b.edge.Some? && RuleLink(prog, mode, scanned, Link(a.node.fn, b.node.fn, b.edge.value.kind))
  }

  /** No chain of rules from an entrypoint to the target is shorter. */
  ghost predicate ShortestChain(prog: Program, mode: AugmentMode, scanned: set<Func>, entries: set<Func>, target: Func, length: nat) {
    forall p | Walk(RuleSucc(prog, mode, scanned), p) && p[0] in entries && p[|p| - 1] == target :: length <= |p|
  }

  lemma EdgePathIsRulePath(prog: Program, mode: AugmentMode, seeds: set<Func>, nodes: seq<Node>, edges: seq<Edge>,
                           entries: set<Func>, t: Node, path: seq<PathStep>)
    requires WellFormed(nodes, edges) && Justified(prog, mode, seeds, Funcs(nodes), Links(nodes, edges))
    requires t in nodes && IsPath(nodes, edges, StartIds(nodes, entries), t.id, path) && NoRepeat(path)
    ensures RulePath(prog, mode, Funcs(nodes), entries, t.fn, path)
  {
    hide RuleLink, NoRepeat, Derived;
    forall i | 0 < i < |path|
      ensures RuleStep(prog, mode, Funcs(nodes), path[i - 1], path[i])
    {
      assert Joins(edges, path[i - 1], path[i]);
      var a, b, e := path[i - 1].node, path[i].node, path[i].edge.value;
      assert nodes[e.from] == a && nodes[e.to] == b;
      assert Link(a.fn, b.fn, e.kind) in Links(nodes, edges);
    }
  }

  /** In the least closed graph every chain of rules is an edge walk, so that the shortest walk is
      the shortest chain. */
  lemma ShortestWalkIsShortestChain(prog: Program, mode: AugmentMode, seeds: set<Func>, nodes: seq<Node>, edges: seq<Edge>,
                                    entries: set<Func>, t: Node, length: nat)
    requires WellFormed(nodes, edges) && LeastClosed(prog, mode, seeds, Funcs(nodes), Links(nodes, edges))
    requires entries <= Funcs(nodes) && t in nodes && Shortest(edges, StartIds(nodes, entries), t.id, length)
    ensures ShortestChain(prog, mode, Funcs(nodes), entries, t.fn, length)
  {
    hide EdgeSucc, RuleSucc, LeastClosed, Links, Funcs, RuleLink;
    forall p | Walk(RuleSucc(prog, mode, Funcs(nodes)), p) && p[0] in entries && p[|p| - 1] == t.fn
      ensures length <= |p|
    {
      var q := ChainIsWalk(prog, mode, seeds, nodes, edges, p);
      NodeIs(nodes, edges, q[0]);
      NodeIs(nodes, edges, q[|q| - 1]);
      assert nodes[q[0]] in nodes;
    }
  }

  lemma NodeIs(nodes: seq<Node>, edges: seq<Edge>, id: nat)
    requires WellFormed(nodes, edges) && id < |nodes|
    ensures nodes[id].id == id && nodes[id] in nodes
    ensures forall n | n in nodes && n.fn == nodes[id].fn :: n == nodes[id]
  {
  }

  lemma {:induction false} ChainIsWalk(prog: Program, mode: AugmentMode, seeds: set<Func>, nodes: seq<Node>, edges: seq<Edge>,
                                       p: seq<Func>) returns (q: seq<nat>)
    requires WellFormed(nodes, edges) && LeastClosed(prog, mode, seeds, Funcs(nodes), Links(nodes, edges))
    requires Walk(RuleSucc(prog, mode, Funcs(nodes)), p) && p[0] in Funcs(nodes)
    ensures Walk(EdgeSucc(edges), q) && |q| == |p|
    ensures forall i | 0 <= i < |q| :: q[i] < |nodes| && nodes[q[i]].fn == p[i]
  {
    hide EdgeSucc, RuleSucc, LeastClosed, RuleLink, Links, ReachedFrom;
    if |p| == 1 {
      var n :| n in nodes && n.fn == p[0];
      NodeAt(nodes, edges, n);
      q := [n.id];
    } else {
      var front, f, h := p[..|p| - 1], p[|p| - 2], p[|p| - 1];
      var r := ChainIsWalk(prog, mode, seeds, nodes, edges, front);
      assert p[|p| - 2 + 1] in RuleSucc(prog, mode, Funcs(nodes))(p[|p| - 2]);
      assert nodes[r[|r| - 1]] in nodes;
      var id := RuleIsEdge(prog, mode, seeds, nodes, edges, r[|r| - 1], h);
      q := r + [id];
    }
  }

  lemma RuleIsEdge(prog: Program, mode: AugmentMode, seeds: set<Func>, nodes: seq<Node>, edges: seq<Edge>, from: nat, h: Func)
    returns (to: nat)
    requires WellFormed(nodes, edges) && LeastClosed(prog, mode, seeds, Funcs(nodes), Links(nodes, edges))
    requires from < |nodes| && h in RuleSucc(prog, mode, Funcs(nodes))(nodes[from].fn)
    ensures to in EdgeSucc(edges)(from) && to < |nodes| && nodes[to].fn == h
  {
    hide ReachedFrom, RuleSucc, RuleLink;
    var l := SuccIsRuleLink(prog, mode, Funcs(nodes), nodes[from].fn, h);
    assert nodes[from] in nodes;
    assert l in Links(nodes, edges);
    var e :| e in edges && Link(nodes[e.from].fn, nodes[e.to].fn, e.kind) == l;
    assert e.from == from;
    to := e.to;
  }

  /** What is reached in a graph stays reached when nodes and edges are appended. */
  lemma ReachesGrows(nodes: seq<Node>, edges: seq<Edge>, moreNodes: seq<Node>, moreEdges: seq<Edge>, entries: set<Func>, target: Func)
    requires nodes <= moreNodes && edges <= moreEdges
    ensures GraphReaches(nodes, edges, entries, target) ==> GraphReaches(moreNodes, moreEdges, entries, target)
  {
    hide ReachedFrom;
    assert forall n | n in nodes :: n in moreNodes;
    assert forall e | e in edges :: e in moreEdges;
    if GraphReaches(nodes, edges, entries, target) {
      ReachedMoreEdges(nodes, edges, moreNodes, moreEdges, entries, target);
    }
  }

  lemma ReachedMoreEdges(nodes: seq<Node>, edges: seq<Edge>, moreNodes: seq<Node>, moreEdges: seq<Edge>, entries: set<Func>, target: Func)
    requires GraphReaches(nodes, edges, entries, target)
    requires forall n | n in nodes :: n in moreNodes
    requires forall e | e in edges :: e in moreEdges
    ensures GraphReaches(moreNodes, moreEdges, entries, target)
  {
    hide ReachedFrom;
    var t :| t in nodes && target == t.fn && ReachedFrom(EdgeSucc(edges), StartIds(nodes, entries), t.id);
    ReachedMore(EdgeSucc(edges), EdgeSucc(moreEdges), StartIds(nodes, entries), StartIds(moreNodes, entries), t.id);
  }

  /** One search of the current graph. */
  method FindTarget(g: Graph, entrypoints: seq<Func>, target: Func, ghost prog: Program, ghost mode: AugmentMode, ghost seeds: set<Func>)
    returns (found: bool, path: seq<PathStep>)
    requires g.Valid() && Justified(prog, mode, seeds, Funcs(g.nodes), Links(g.nodes, g.edges))
    requires Elements(entrypoints) <= Funcs(g.nodes)
    ensures found <==> GraphReaches(g.nodes, g.edges, Elements(entrypoints), target)
    ensures found ==> ReachedFrom(RuleSucc(prog, mode, Funcs(g.nodes)), Elements(entrypoints), target)
    ensures found ==> RulePath(prog, mode, Funcs(g.nodes), Elements(entrypoints), target, path)
    ensures LeastClosed(prog, mode, seeds, Funcs(g.nodes), Links(g.nodes, g.edges)) ==>
              (ReachedFrom(RuleSucc(prog, mode, Funcs(g.nodes)), Elements(entrypoints), target) ==> found)
              && (found ==> ShortestChain(prog, mode, Funcs(g.nodes), Elements(entrypoints), target, |path|))
  {
    hide Links, Funcs, WellFormed, Indexed, Justified, LeastClosed, ReachedFrom, RuleSucc, EdgeSucc, IsPath, NoRepeat, Shortest;
    hide StartIds, RulePath, ShortestChain, Elements;
    var wrapped := seq(|entrypoints|, i requires 0 <= i < |entrypoints| => Some(entrypoints[i]));
    ghost var starts := Starts(g.nodes, wrapped);
    found, path := Search(g, wrapped, Some(target));
    StartsAre(g.nodes, entrypoints, wrapped, starts);
    ghost var least := LeastClosed(prog, mode, seeds, Funcs(g.nodes), Links(g.nodes, g.edges));
    if found {
      ghost var t :| t in g.nodes && Some(target) == Some(t.fn) && IsPath(g.nodes, g.edges, starts, t.id, path)
                     && NoRepeat(path) && Shortest(g.edges, starts, t.id, |path|);
      PathIsReached(g.nodes, g.edges, starts, t.id, path);
      FoundIsDerived(prog, mode, seeds, g.nodes, g.edges, Elements(entrypoints), t);
      EdgePathIsRulePath(prog, mode, seeds, g.nodes, g.edges, Elements(entrypoints), t, path);
      if least {
        ShortestWalkIsShortestChain(prog, mode, seeds, g.nodes, g.edges, Elements(entrypoints), t, |path|);
      }
    }
    if least && ReachedFrom(RuleSucc(prog, mode, Funcs(g.nodes)), Elements(entrypoints), target) {
      DerivedIsFound(prog, mode, seeds, g.nodes, g.edges, Elements(entrypoints), target);
    }
  }

  lemma StartsAre(nodes: seq<Node>, entrypoints: seq<Func>, wrapped: seq<Option<Func>>, starts: set<nat>)
    requires |wrapped| == |entrypoints| && forall i | 0 <= i < |wrapped| :: wrapped[i] == Some(entrypoints[i])
    requires starts == set n | n in nodes && Some(n.fn) in wrapped :: n.id
    ensures starts == StartIds(nodes, Elements(entrypoints))
  {
    forall f: Func
      ensures Some(f) in wrapped <==> f in Elements(entrypoints)
    {
      if f in entrypoints {
        var i :| 0 <= i < |entrypoints| && entrypoints[i] == f;
        assert wrapped[i] == Some(f);
      }
    }
  }

  /** Augmentation of the initial graph and the search of what it leads to: appending loses no
      target the initial graph reached. */
  method FindAugmented(g: Graph, entrypoints: seq<Func>, target: Func, prog: Program, mode: AugmentMode)
    returns (found: bool, path: seq<PathStep>)
    requires g.Valid() && Sane(prog, mode) && Elements(entrypoints) <= Funcs(g.nodes)
    requires Justified(prog, RTAOnly, Elements(entrypoints), Funcs(g.nodes), Links(g.nodes, g.edges))
    requires CallsDone(prog, Funcs(g.nodes), Funcs(g.nodes), Links(g.nodes, g.edges))
    modifies g
    ensures old(GraphReaches(g.nodes, g.edges, Elements(entrypoints), target)) ==> found
    ensures AllDerived(prog, mode, Elements(entrypoints), Funcs(g.nodes))
    ensures !g.augmentLimitHit ==> Least(prog, mode, Elements(entrypoints), Funcs(g.nodes))
    ensures found ==> ReachedFrom(RuleSucc(prog, mode, Funcs(g.nodes)), Elements(entrypoints), target)
                      && RulePath(prog, mode, Funcs(g.nodes), Elements(entrypoints), target, path)
    ensures !g.augmentLimitHit ==>
              (ReachedFrom(RuleSucc(prog, mode, Funcs(g.nodes)), Elements(entrypoints), target) ==> found)
              && (found ==> ShortestChain(prog, mode, Funcs(g.nodes), Elements(entrypoints), target, |path|))
  {
    hide Links, Funcs, WellFormed, Indexed, Justified, CallsDone, LeastClosed, Sane, ReachedFrom, RuleSucc, PassesDone;
    hide Elements, RulePath, ShortestChain, GraphReaches, SurelyEnough, NeverEnough, Least, AllDerived;
    ghost var entries := Elements(entrypoints);
    CallsAreJustified(prog, mode, entries, Funcs(g.nodes), Links(g.nodes, g.edges));
    ghost var nodes, edges := g.nodes, g.edges;
    AugmentGraph(g, prog, mode, entries);
    FuncsGrow(nodes, g.nodes);
    ReachesGrows(nodes, edges, g.nodes, g.edges, entries, target);
    JustifiedIsDerived(prog, mode, entries, Funcs(g.nodes), Links(g.nodes, g.edges));
    if !g.augmentLimitHit {
      LeastOf(prog, mode, entries, Funcs(g.nodes), Links(g.nodes, g.edges));
    }
    found, path := FindTarget(g, entrypoints, target, prog, mode, entries);
  }

  ghost predicate AllDerived(prog: Program, mode: AugmentMode, entries: set<Func>, funcs: set<Func>) {
    forall f | f in funcs :: Derived(prog, mode, entries, f)
  }

  lemma JustifiedIsDerived(prog: Program, mode: AugmentMode, entries: set<Func>, funcs: set<Func>, links: set<Link>)
    requires Justified(prog, mode, entries, funcs, links)
    ensures AllDerived(prog, mode, entries, funcs)
  {
    hide Derived;
  }

  /** A path of rules over functions that are all derived. */
  ghost predicate DerivedPath(prog: Program, mode: AugmentMode, funcs: set<Func>, entries: set<Func>, target: Func, path: seq<PathStep>) {
    AllDerived(prog, mode, entries, funcs) && RulePath(prog, mode, funcs, entries, target, path)
  }

  /** A shortest path of rules once the rules have derived everything. */
  ghost predicate ShortestPathOf(prog: Program, mode: AugmentMode, funcs: set<Func>, entries: set<Func>, target: Func, path: seq<PathStep>) {
    && Least(prog, mode, entries, funcs) && RulePath(prog, mode, funcs, entries, target, path)
    && ShortestChain(prog, mode, funcs, entries, target, |path|)
  }

  /** The rules lead from an entrypoint to the target, the index being complete. */
  ghost predicate RulesReach(prog: Program, mode: AugmentMode, funcs: set<Func>, entries: set<Func>, target: Func) {
    Least(prog, mode, entries, funcs) && ReachedFrom(RuleSucc(prog, mode, funcs), entries, target)
  }

  /** What a verdict says. "Found" comes with a real chain of rules from an entrypoint to the
      target, and a target that calls alone reach is always found. Unless the augmentation limit
      was hit, the rules have a least fixpoint, the verdict is exactly reachability under the rules
      with all of it scanned, and the chain is a shortest one. Augmentation is skipped exactly when
      that is asked for and calls alone reach the target, so that skipping changes no verdict, limit
      or not; the chain is then a shortest chain of calls. */
  ghost predicate Right(prog: Program, mode: AugmentMode, entries: set<Func>, target: Func, skipWhenReachable: bool, v: Result)
    requires v.Verdict?
  {
    var used := if v.skippedAugment then RTAOnly else mode;
    && (v.found ==> exists funcs :: DerivedPath(prog, used, funcs, entries, target, v.path))
    && (ReachedFrom(CalleeSucc(prog), entries, target) ==> v.found)
    && (!v.limitHit ==> exists funcs :: Least(prog, used, entries, funcs))
    && (!v.limitHit ==> forall funcs | Least(prog, mode, entries, funcs) :: v.found <==> RulesReach(prog, mode, funcs, entries, target))
    && (!v.limitHit && v.found ==> exists funcs :: ShortestPathOf(prog, used, funcs, entries, target, v.path))
    && (v.skippedAugment <==> skipWhenReachable && ReachedFrom(CalleeSucc(prog), entries, target))
    && (v.skippedAugment ==> !v.limitHit)
  }

  lemma SkippedIsRight(prog: Program, mode: AugmentMode, funcs: set<Func>, entries: set<Func>, target: Func, path: seq<PathStep>)
    requires Least(prog, RTAOnly, entries, funcs) && ReachedFrom(RuleSucc(prog, RTAOnly, funcs), entries, target)
    requires RulePath(prog, RTAOnly, funcs, entries, target, path) && ShortestChain(prog, RTAOnly, funcs, entries, target, |path|)
    ensures Right(prog, mode, entries, target, true, Verdict(true, true, false, path))
  {
    hide ReachedFrom, RulePath, ShortestChain, RuleSucc, CalleeSucc, Derived, Closed, Anchors;
    CallsAreRules(prog, mode, funcs, entries, target);
    assert AllDerived(prog, RTAOnly, entries, funcs);
    hide AllDerived, Least;
    assert DerivedPath(prog, RTAOnly, funcs, entries, target, path);
    assert ShortestPathOf(prog, RTAOnly, funcs, entries, target, path);
    forall fs | Least(prog, mode, entries, fs)
      ensures RulesReach(prog, mode, fs, entries, target)
    {
      CallsAreRules(prog, mode, fs, entries, target);
    }
  }

  lemma AugmentedIsRight(prog: Program, mode: AugmentMode, rtaFuncs: set<Func>, funcs: set<Func>, entries: set<Func>, target: Func,
                         skipWhenReachable: bool, rtaFound: bool, found: bool, limitHit: bool, path: seq<PathStep>)
    requires Monotone(prog, mode)
    requires rtaFound <==> ReachedFrom(RuleSucc(prog, RTAOnly, rtaFuncs), entries, target)
    requires !(rtaFound && skipWhenReachable) && (rtaFound ==> found)
    requires AllDerived(prog, mode, entries, funcs) && (!limitHit ==> Least(prog, mode, entries, funcs))
    requires found ==> ReachedFrom(RuleSucc(prog, mode, funcs), entries, target) && RulePath(prog, mode, funcs, entries, target, path)
    requires !limitHit ==> (ReachedFrom(RuleSucc(prog, mode, funcs), entries, target) ==> found)
                           && (found ==> ShortestChain(prog, mode, funcs, entries, target, |path|))
    ensures Right(prog, mode, entries, target, skipWhenReachable, Verdict(found, false, limitHit, path))
  {
    hide ReachedFrom, RulePath, ShortestChain, RuleSucc, CalleeSucc, AllDerived, Least, Monotone;
    CallsAreRules(prog, mode, rtaFuncs, entries, target);
    if found {
      assert DerivedPath(prog, mode, funcs, entries, target, path);
      if !limitHit {
        assert ShortestPathOf(prog, mode, funcs, entries, target, path);
      }
    }
    if !limitHit {
      forall fs | Least(prog, mode, entries, fs)
        ensures found <==> RulesReach(prog, mode, fs, entries, target)
      {
        LeastIsUnique(prog, mode, entries, fs, funcs);
      }
    }
  }

  /** The whole analysis. */
  method Analyze(prog: Program, entrypoints: seq<Func>, target: Func, mode: AugmentMode, skipWhenReachable: bool)
    returns (result: Result)
    requires Sane(prog, mode)
    ensures result.NoEntrypoints? <==> entrypoints == []
    ensures result.Verdict? ==> Right(prog, mode, Elements(entrypoints), target, skipWhenReachable, result)
  {
    if |entrypoints| == 0 {
      return NoEntrypoints;
    }
    ghost var entries := Elements(entrypoints);
    hide Links, Funcs, WellFormed, Indexed, Justified, CallsDone, LeastClosed, Sane, ReachedFrom, RuleSucc, CalleeSucc;
    hide Elements, RulePath, ShortestChain, GraphReaches, Right, Least, AllDerived, Monotone;
    SaneForCalls(prog, mode);
    SaneIsMonotone(prog, mode);
    var g := BuildRTAGraph(prog, entrypoints);
    ghost var rtaFuncs := Funcs(g.nodes);
    LeastOf(prog, RTAOnly, entries, rtaFuncs, Links(g.nodes, g.edges));
    var rtaFound, rtaPath := FindTarget(g, entrypoints, target, prog, RTAOnly, entries);
    if rtaFound && skipWhenReachable {
      var found, path := FindTarget(g, entrypoints, target, prog, RTAOnly, entries);
      SkippedIsRight(prog, mode, rtaFuncs, entries, target, path);
      return Verdict(found, true, false, path);
    }
    var found, path := FindAugmented(g, entrypoints, target, prog, mode);
    ghost var funcs := Funcs(g.nodes);
    assert rtaFound ==> found;
    assert rtaFound <==> ReachedFrom(RuleSucc(prog, RTAOnly, rtaFuncs), entries, target);
    assert !g.augmentLimitHit ==> (ReachedFrom(RuleSucc(prog, mode, funcs), entries, target) ==> found);
    AugmentedIsRight(prog, mode, rtaFuncs, funcs, entries, target, skipWhenReachable, rtaFound, found, g.augmentLimitHit, path);
    return Verdict(found, false, g.augmentLimitHit, path);
  }

  /** Asking to skip augmentation changes no verdict, even at the iteration limit: a verdict without
      skipping agrees whenever augmentation was skipped. */
  lemma SkippingChangesNothing(prog: Program, mode: AugmentMode, entries: set<Func>, target: Func, skipping: Result, full: Result)
    requires skipping.Verdict? && full.Verdict? && skipping.skippedAugment
    requires Right(prog, mode, entries, target, true, skipping) && Right(prog, mode, entries, target, false, full)
    ensures skipping.found && full.found && !full.skippedAugment
  {
    hide ReachedFrom, DerivedPath, ShortestPathOf, Least, RulesReach;
  }
}
