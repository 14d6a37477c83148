/** Graph augmentation to a fixpoint: passes and exploration alternate until the passes find no
    new function, or the iteration limit is hit. */
module Augment {
  import opened Functions
  import opened Orders
  import opened Reachability
  import opened ActivationGraph
  import opened Alternations
  import opened AugmentRules
  import opened ShortestPath

  const MAX_ITERATIONS: nat := 10

  // ----- The passes

  /** Adds the target and the edge to it; changes nothing when both are there. */
  method Connect(g: Graph, from: Func, t: Target)
    requires g.Valid() && from in Funcs(g.nodes)
    modifies g`nodes, g`edges, g`out, g`into
    ensures g.Valid() && old(g.nodes) <= g.nodes && old(g.edges) <= g.edges
    ensures Funcs(g.nodes) == old(Funcs(g.nodes)) + {t.fn}
    ensures Links(g.nodes, g.edges) == old(Links(g.nodes, g.edges)) + {Link(from, t.fn, t.kind)}
    ensures t.fn in old(Funcs(g.nodes)) && Link(from, t.fn, t.kind) in old(Links(g.nodes, g.edges)) ==>
              g.nodes == old(g.nodes) && g.edges == old(g.edges)
  {
    var to := g.AddNode(t.fn);
    var node := g.NodeByFunction(Some(from));
    NodeAt(g.nodes, g.edges, to);
    NodeAt(g.nodes, g.edges, node.value);
    ghost var known := Link(from, t.fn, t.kind) in Links(g.nodes, g.edges);
    if known {
      LinkIsJoined(g.nodes, g.edges, node.value, to, t.kind);
    }
    hide Links, Funcs, WellFormed, Indexed, Joined;
    var edge := g.AddEdge(node.value.id, to.id, t.kind, Position("", 0, 0), "");
  }

  lemma NodeAt(nodes: seq<Node>, edges: seq<Edge>, n: Node)
    requires WellFormed(nodes, edges) && n in nodes
    ensures n.id < |nodes| && nodes[n.id] == n
  {
  }

  lemma LinkIsJoined(nodes: seq<Node>, edges: seq<Edge>, a: Node, b: Node, kind: string)
    requires WellFormed(nodes, edges) && a in nodes && b in nodes
    requires Link(a.fn, b.fn, kind) in Links(nodes, edges)
    ensures Joined(edges, a.id, b.id, kind)
  {
    var e :| e in edges && Link(nodes[e.from].fn, nodes[e.to].fn, e.kind) == Link(a.fn, b.fn, kind);
    assert e.from == a.id && e.to == b.id;
  }

  /** One function's targets in one pass. */
  method ConnectAll(g: Graph, p: Pass, f: Func, ghost prog: Program, ghost mode: AugmentMode, ghost seeds: set<Func>, ghost base: set<Func>)
    requires g.Valid() && f in Funcs(g.nodes) && base <= Funcs(g.nodes) && p in PassesFor(prog, mode, base) && Monotone(prog, mode)
    requires Justified(prog, mode, seeds, Funcs(g.nodes), Links(g.nodes, g.edges)) && PassReached(prog, mode, base, Funcs(g.nodes))
    modifies g`nodes, g`edges, g`out, g`into
    ensures g.Valid() && old(g.nodes) <= g.nodes && old(g.edges) <= g.edges
    ensures old(Funcs(g.nodes)) <= Funcs(g.nodes) && old(Links(g.nodes, g.edges)) <= Links(g.nodes, g.edges)
    ensures Justified(prog, mode, seeds, Funcs(g.nodes), Links(g.nodes, g.edges)) && PassReached(prog, mode, base, Funcs(g.nodes))
    ensures Covered(Funcs(g.nodes), Links(g.nodes, g.edges), PassLinks(p, f))
    ensures old(Covered(Funcs(g.nodes), Links(g.nodes, g.edges), PassLinks(p, f))) ==>
              g.nodes == old(g.nodes) && g.edges == old(g.edges)
  {
    hide Links, Funcs, WellFormed, Indexed, Justified, PassReached, Monotone;
    var list := ListOf(p.targets, f);
    for i := 0 to |list|
      invariant g.Valid() && old(g.nodes) <= g.nodes && old(g.edges) <= g.edges
      invariant old(Funcs(g.nodes)) <= Funcs(g.nodes) && old(Links(g.nodes, g.edges)) <= Links(g.nodes, g.edges)
      invariant Justified(prog, mode, seeds, Funcs(g.nodes), Links(g.nodes, g.edges)) && PassReached(prog, mode, base, Funcs(g.nodes))
      invariant forall j | 0 <= j < i && !list[j].fn.generic ::
                  list[j].fn in Funcs(g.nodes) && Link(f, list[j].fn, list[j].kind) in Links(g.nodes, g.edges)
      invariant old(Covered(Funcs(g.nodes), Links(g.nodes, g.edges), PassLinks(p, f))) ==>
                  g.nodes == old(g.nodes) && g.edges == old(g.edges)
    {
      var t := list[i];
      if t.fn.generic {
        continue;
      }
      JustifiedPass(prog, mode, seeds, base, Funcs(g.nodes), Links(g.nodes, g.edges), p, f, t);
      PassReachedTarget(prog, mode, base, Funcs(g.nodes), p, f, t);
      assert Link(f, t.fn, t.kind) in PassLinks(p, f);
      Connect(g, f, t);
    }
  }

  /** The dispatch functions a framework predicate brings along. */
  method AddAnchors(g: Graph, p: Pass, ghost prog: Program, ghost mode: AugmentMode, ghost seeds: set<Func>, ghost base: set<Func>)
    requires g.Valid() && base <= Funcs(g.nodes) && p in PassesFor(prog, mode, base) && Monotone(prog, mode)
    requires Justified(prog, mode, seeds, Funcs(g.nodes), Links(g.nodes, g.edges)) && PassReached(prog, mode, base, Funcs(g.nodes))
    modifies g`nodes
    ensures g.Valid() && old(g.nodes) <= g.nodes
    ensures old(Funcs(g.nodes)) <= Funcs(g.nodes) && Links(g.nodes, g.edges) == old(Links(g.nodes, g.edges))
    ensures Justified(prog, mode, seeds, Funcs(g.nodes), Links(g.nodes, g.edges)) && PassReached(prog, mode, base, Funcs(g.nodes))
    ensures forall a | a in p.anchors :: a in Funcs(g.nodes)
    ensures (forall a | a in p.anchors :: a in old(Funcs(g.nodes))) ==> g.nodes == old(g.nodes)
  {
    hide Links, Funcs, WellFormed, Indexed, Justified, PassReached, Monotone;
    for i := 0 to |p.anchors|
      invariant g.Valid() && old(g.nodes) <= g.nodes
      invariant old(Funcs(g.nodes)) <= Funcs(g.nodes) && Links(g.nodes, g.edges) == old(Links(g.nodes, g.edges))
      invariant Justified(prog, mode, seeds, Funcs(g.nodes), Links(g.nodes, g.edges)) && PassReached(prog, mode, base, Funcs(g.nodes))
      invariant forall j | 0 <= j < i :: p.anchors[j] in Funcs(g.nodes)
      invariant (forall a | a in p.anchors :: a in old(Funcs(g.nodes))) ==> g.nodes == old(g.nodes)
    {
      JustifiedAnchor(prog, mode, seeds, base, Funcs(g.nodes), Links(g.nodes, g.edges), p, p.anchors[i]);
      PassReachedAnchor(prog, mode, base, Funcs(g.nodes), p, p.anchors[i]);
      var node := g.AddNode(p.anchors[i]);
    }
  }

  /** One pass, its index made after scanning the functions of `base`: its anchors, then every
      function it walks that the graph holds. */
  method RunPass(g: Graph, p: Pass, ghost prog: Program, ghost mode: AugmentMode, ghost seeds: set<Func>, ghost base: set<Func>)
    requires g.Valid() && base <= Funcs(g.nodes) && p in PassesFor(prog, mode, base) && Listed(p) && Monotone(prog, mode)
    requires Justified(prog, mode, seeds, Funcs(g.nodes), Links(g.nodes, g.edges)) && PassReached(prog, mode, base, Funcs(g.nodes))
    modifies g`nodes, g`edges, g`out, g`into
    ensures g.Valid() && old(g.nodes) <= g.nodes && old(g.edges) <= g.edges
    ensures old(Funcs(g.nodes)) <= Funcs(g.nodes) && old(Links(g.nodes, g.edges)) <= Links(g.nodes, g.edges)
    ensures Justified(prog, mode, seeds, Funcs(g.nodes), Links(g.nodes, g.edges)) && PassReached(prog, mode, base, Funcs(g.nodes))
    ensures PassDone(p, old(Funcs(g.nodes)), Funcs(g.nodes), Links(g.nodes, g.edges))
    ensures old(PassDone(p, Funcs(g.nodes), Funcs(g.nodes), Links(g.nodes, g.edges))) ==>
              g.nodes == old(g.nodes) && g.edges == old(g.edges)
  {
    hide Links, Funcs, WellFormed, Indexed, Justified, Covered, PassLinks, PassReached, Monotone;
    ghost var F, L := Funcs(g.nodes), Links(g.nodes, g.edges);
    ghost var quiet := PassDone(p, F, F, L);
    AddAnchors(g, p, prog, mode, seeds, base);
    var list := Walked(g, p);
    for i := 0 to |list|
      invariant g.Valid() && old(g.nodes) <= g.nodes && old(g.edges) <= g.edges
      invariant F <= Funcs(g.nodes) && L <= Links(g.nodes, g.edges)
      invariant Justified(prog, mode, seeds, Funcs(g.nodes), Links(g.nodes, g.edges)) && PassReached(prog, mode, base, Funcs(g.nodes))
      invariant forall a | a in p.anchors :: a in Funcs(g.nodes)
      invariant forall j | 0 <= j < i && list[j] in F :: Covered(Funcs(g.nodes), Links(g.nodes, g.edges), PassLinks(p, list[j]))
      invariant quiet ==> g.nodes == old(g.nodes) && g.edges == old(g.edges)
    {
      var node := g.NodeByFunction(Some(list[i]));
      if node.None? {
        continue;
      }
      NodeHolds(g.nodes, node.value);
      ghost var F1, L1 := Funcs(g.nodes), Links(g.nodes, g.edges);
      ConnectAll(g, p, list[i], prog, mode, seeds, base);
      forall j | 0 <= j < i && list[j] in F
        ensures Covered(Funcs(g.nodes), Links(g.nodes, g.edges), PassLinks(p, list[j]))
      {
        CoveredGrows(F1, L1, Funcs(g.nodes), Links(g.nodes, g.edges), PassLinks(p, list[j]));
      }
    }
    forall f | f in F
      ensures Covered(Funcs(g.nodes), Links(g.nodes, g.edges), PassLinks(p, f))
    {
      if f !in list {
        NothingToCover(p, f, Funcs(g.nodes), Links(g.nodes, g.edges));
      }
    }
  }

  lemma NodeHolds(nodes: seq<Node>, n: Node)
    requires n in nodes
    ensures n.fn in Funcs(nodes)
  {
  }

  /** The functions a pass walks: its own list, or a sorted snapshot of the graph. */
  method Walked(g: Graph, p: Pass) returns (list: seq<Func>)
    requires g.Valid() && Listed(p)
    ensures forall f | f in Funcs(g.nodes) && f in p.targets :: f in list
  {
    if p.order.Some? {
      return p.order.value;
    }
    var sorted := SortBy(g.nodes, NodeLess);
    SameElements(sorted, g.nodes);
    list := seq(|sorted|, i requires 0 <= i < |sorted| => sorted[i].fn);
    forall f | f in Funcs(g.nodes)
      ensures f in list
    {
      var n :| n in g.nodes && n.fn == f;
      var i :| 0 <= i < |sorted| && sorted[i] == n;
      assert list[i] == f;
    }
  }

  /** All passes of a mode in order, the index made of what the graph holds when they start. Run on a
      graph where they have nothing left to do, they add no node and no edge. */
  method RunPasses(g: Graph, prog: Program, mode: AugmentMode, scanned: set<Func>, ghost seeds: set<Func>)
    requires g.Valid() && Sane(prog, mode) && scanned == Funcs(g.nodes)
    requires Justified(prog, mode, seeds, Funcs(g.nodes), Links(g.nodes, g.edges))
    modifies g`nodes, g`edges, g`out, g`into
    ensures g.Valid() && old(g.nodes) <= g.nodes && old(g.edges) <= g.edges
    ensures scanned <= Funcs(g.nodes) && old(Links(g.nodes, g.edges)) <= Links(g.nodes, g.edges)
    ensures Justified(prog, mode, seeds, Funcs(g.nodes), Links(g.nodes, g.edges)) && PassReached(prog, mode, scanned, Funcs(g.nodes))
    ensures PassesDone(PassesFor(prog, mode, scanned), scanned, Funcs(g.nodes), Links(g.nodes, g.edges))
    ensures old(PassesDone(PassesFor(prog, mode, scanned), scanned, scanned, Links(g.nodes, g.edges))) ==>
              g.nodes == old(g.nodes) && g.edges == old(g.edges)
  {
    hide Links, Funcs, WellFormed, Indexed, Justified, PassDone, Sane, PassReached, Monotone, Listed;
    var passes := PassesFor(prog, mode, scanned);
    ghost var F, L := scanned, Links(g.nodes, g.edges);
    PassReachedStart(prog, mode, F);
    for i := 0 to |passes|
      invariant g.Valid() && old(g.nodes) <= g.nodes && old(g.edges) <= g.edges
      invariant F <= Funcs(g.nodes) && L <= Links(g.nodes, g.edges)
      invariant Justified(prog, mode, seeds, Funcs(g.nodes), Links(g.nodes, g.edges)) && PassReached(prog, mode, F, Funcs(g.nodes))
      invariant forall j | 0 <= j < i :: PassDone(passes[j], F, Funcs(g.nodes), Links(g.nodes, g.edges))
      invariant PassesDone(passes, F, F, L) ==> g.nodes == old(g.nodes) && g.edges == old(g.edges)
    {
      PassIsListed(prog, mode, scanned, passes[i]);
      ghost var F1, L1 := Funcs(g.nodes), Links(g.nodes, g.edges);
      RunPass(g, passes[i], prog, mode, seeds, F);
      forall j | 0 <= j < i
        ensures PassDone(passes[j], F, Funcs(g.nodes), Links(g.nodes, g.edges))
      {
        PassDoneGrows(passes[j], F, F1, L1, Funcs(g.nodes), Links(g.nodes, g.edges));
      }
      PassDoneLess(passes[i], F, F1, Funcs(g.nodes), Links(g.nodes, g.edges));
    }
  }

  // ----- Call-graph exploration

  /** Merges a call graph: its functions, then its edges, none of them twice. */
  method MergeCallGraph(g: Graph, funcs: seq<Func>, prog: Program, ghost mode: AugmentMode, ghost seeds: set<Func>)
    requires g.Valid()
    requires Monotone(prog, mode) && forall f | f in funcs :: Derived(prog, mode, seeds, f)
    requires forall h, t | h in funcs && t in ListOf(prog.callees, h) :: t.fn in funcs
    requires Justified(prog, mode, seeds, Funcs(g.nodes), Links(g.nodes, g.edges))
    modifies g`nodes, g`edges, g`out, g`into
    ensures g.Valid() && old(g.nodes) <= g.nodes && old(g.edges) <= g.edges
    ensures old(Funcs(g.nodes)) <= Funcs(g.nodes) && old(Links(g.nodes, g.edges)) <= Links(g.nodes, g.edges)
    ensures Justified(prog, mode, seeds, Funcs(g.nodes), Links(g.nodes, g.edges))
    ensures forall f :: f in Funcs(g.nodes) <==> f in old(Funcs(g.nodes)) || f in funcs
    ensures forall f | f in funcs :: Covered(Funcs(g.nodes), Links(g.nodes, g.edges), CallLinks(prog, f))
    ensures forall l :: l in Links(g.nodes, g.edges) <==>
              l in old(Links(g.nodes, g.edges)) || (l.from in funcs && l in CallLinks(prog, l.from))
  {
    hide Links, Funcs, WellFormed, Indexed, Justified, Derived, Covered, CallLinks, Monotone;
    ghost var F, L := Funcs(g.nodes), Links(g.nodes, g.edges);
    for i := 0 to |funcs|
      invariant g.Valid() && old(g.nodes) <= g.nodes && g.edges == old(g.edges)
      invariant F <= Funcs(g.nodes) && L == Links(g.nodes, g.edges)
      invariant forall f | f in Funcs(g.nodes) :: f in F || f in funcs
      invariant Justified(prog, mode, seeds, Funcs(g.nodes), Links(g.nodes, g.edges))
      invariant forall j | 0 <= j < i :: funcs[j] in Funcs(g.nodes)
    {
      JustifiedOne(prog, mode, seeds, Funcs(g.nodes), Links(g.nodes, g.edges), funcs[i]);
      var node := g.AddNode(funcs[i]);
    }
    for i := 0 to |funcs|
      invariant g.Valid() && old(g.nodes) <= g.nodes && old(g.edges) <= g.edges
      invariant F <= Funcs(g.nodes) && L <= Links(g.nodes, g.edges)
      invariant forall f :: f in Funcs(g.nodes) <==> f in F || f in funcs
      invariant Justified(prog, mode, seeds, Funcs(g.nodes), Links(g.nodes, g.edges))
      invariant forall j | 0 <= j < i :: Covered(Funcs(g.nodes), Links(g.nodes, g.edges), CallLinks(prog, funcs[j]))
      invariant forall l :: l in Links(g.nodes, g.edges) <==> l in L || (l.from in funcs[..i] && l in CallLinks(prog, l.from))
    {
      ghost var F1, L1 := Funcs(g.nodes), Links(g.nodes, g.edges);
      MergeCalls(g, funcs[i], prog, mode, seeds);
      CallLinksStart(prog, funcs[i]);
      assert funcs[..i + 1] == funcs[..i] + [funcs[i]];
      forall j | 0 <= j < i
        ensures Covered(Funcs(g.nodes), Links(g.nodes, g.edges), CallLinks(prog, funcs[j]))
      {
        CoveredGrows(F1, L1, Funcs(g.nodes), Links(g.nodes, g.edges), CallLinks(prog, funcs[j]));
      }
    }
    assert funcs[..|funcs|] == funcs;
  }

  lemma CallLinksStart(prog: Program, f: Func)
    ensures forall l | l in CallLinks(prog, f) :: l.from == f
  {
  }

  /** The outgoing call edges of one function. */
  method MergeCalls(g: Graph, f: Func, prog: Program, ghost mode: AugmentMode, ghost seeds: set<Func>)
    requires g.Valid() && f in Funcs(g.nodes) && Monotone(prog, mode)
    requires forall t | t in ListOf(prog.callees, f) :: t.fn in Funcs(g.nodes)
    requires Justified(prog, mode, seeds, Funcs(g.nodes), Links(g.nodes, g.edges))
    modifies g`nodes, g`edges, g`out, g`into
    ensures g.Valid() && old(g.nodes) <= g.nodes && old(g.edges) <= g.edges
    ensures Funcs(g.nodes) == old(Funcs(g.nodes)) && Links(g.nodes, g.edges) == old(Links(g.nodes, g.edges)) + CallLinks(prog, f)
    ensures Justified(prog, mode, seeds, Funcs(g.nodes), Links(g.nodes, g.edges))
    ensures Covered(Funcs(g.nodes), Links(g.nodes, g.edges), CallLinks(prog, f))
  {
    hide Links, Funcs, WellFormed, Indexed, Justified, Monotone;
    var list := ListOf(prog.callees, f);
    for i := 0 to |list|
      invariant g.Valid() && old(g.nodes) <= g.nodes && old(g.edges) <= g.edges
      invariant Funcs(g.nodes) == old(Funcs(g.nodes))
      invariant old(Links(g.nodes, g.edges)) <= Links(g.nodes, g.edges) <= old(Links(g.nodes, g.edges)) + CallLinks(prog, f)
      invariant Justified(prog, mode, seeds, Funcs(g.nodes), Links(g.nodes, g.edges))
      invariant forall j | 0 <= j < i ::
                  list[j].fn in Funcs(g.nodes) && Link(f, list[j].fn, list[j].kind) in Links(g.nodes, g.edges)
    {
      JustifiedCall(prog, mode, seeds, Funcs(g.nodes), Links(g.nodes, g.edges), f, list[i]);
      assert Link(f, list[i].fn, list[i].kind) in CallLinks(prog, f);
      Connect(g, f, list[i]);
    }
  }

  /** Explores the functions the passes have just found. The graph was saturated with calls
      before they were added, and is again afterwards. */
  method ExploreCallees(g: Graph, prog: Program, roots: seq<Func>, ghost explored: set<Func>, ghost mode: AugmentMode, ghost seeds: set<Func>)
    requires g.Valid() && Sane(prog, mode)
    requires forall f :: f in Funcs(g.nodes) <==> f in explored || f in roots
    requires forall f | f in roots && f.generic :: f in Anchors(PassesFor(prog, mode, explored))
    requires CallsDone(prog, explored, Funcs(g.nodes), Links(g.nodes, g.edges))
    requires Justified(prog, mode, seeds, Funcs(g.nodes), Links(g.nodes, g.edges))
    modifies g`nodes, g`edges, g`out, g`into
    ensures g.Valid() && old(g.nodes) <= g.nodes && old(g.edges) <= g.edges
    ensures CallsDone(prog, Funcs(g.nodes), Funcs(g.nodes), Links(g.nodes, g.edges))
    ensures Justified(prog, mode, seeds, Funcs(g.nodes), Links(g.nodes, g.edges))
    ensures forall f | f in Funcs(g.nodes) :: ReachedFrom(CalleeSucc(prog), old(Funcs(g.nodes)), f)
  {
    var compatible: seq<Func> := [];
    for i := 0 to |roots|
      invariant forall r :: r in compatible <==> r in roots[..i] && !r.generic
    {
      assert roots[..i + 1] == roots[..i] + [roots[i]];
      if !roots[i].generic {
        compatible := compatible + [roots[i]];
      }
    }
    assert roots[..|roots|] == roots;
    hide Links, Funcs, WellFormed, Indexed, ReachedFrom, Derived, Covered, RuleLink, Anchors, CalleeSucc, SanePasses, Monotone;
    ghost var F, L := Funcs(g.nodes), Links(g.nodes, g.edges);
    if |compatible| > 0 {
      CallGraphIs(prog, mode, seeds, compatible);
      MergeCallGraph(g, prog.callGraph(compatible), prog, mode, seeds);
    }
    forall f | f in Funcs(g.nodes)
      ensures Covered(Funcs(g.nodes), Links(g.nodes, g.edges), CallLinks(prog, f))
    {
      if f in explored {
        CoveredGrows(F, L, Funcs(g.nodes), Links(g.nodes, g.edges), CallLinks(prog, f));
      } else if f in roots && f.generic {
        NoCalls(prog, mode, explored, f, Funcs(g.nodes), Links(g.nodes, g.edges));
      }
    }
    ReachedByCalls(prog, mode, compatible, F, Funcs(g.nodes));
  }

  lemma ReachedByCalls(prog: Program, mode: AugmentMode, roots: seq<Func>, before: set<Func>, after: set<Func>)
    requires Sane(prog, mode) && forall r | r in roots :: r in before
    requires forall f | f in after :: f in before || f in prog.callGraph(roots)
    ensures forall f | f in after :: ReachedFrom(CalleeSucc(prog), before, f)
  {
    hide Reaches, CalleeSucc, SanePasses, Monotone;
    forall f | f in after
      ensures ReachedFrom(CalleeSucc(prog), before, f)
    {
      if f in before {
        ReachedStart(CalleeSucc(prog), before, f);
      } else {
        assert ReachedFrom(CalleeSucc(prog), (set r | r in roots), f);
      }
    }
  }

  // ----- The fixpoint loop

  lemma ConvergedIsLeast(prog: Program, mode: AugmentMode, seeds: set<Func>, nodes: seq<Node>, edges: seq<Edge>)
    requires WellFormed(nodes, edges)
    requires Justified(prog, mode, seeds, Funcs(nodes), Links(nodes, edges)) && seeds <= Funcs(nodes)
    requires CallsDone(prog, Funcs(nodes), Funcs(nodes), Links(nodes, edges))
    requires PassesDone(PassesFor(prog, mode, Funcs(nodes)), Funcs(nodes), Funcs(nodes), Links(nodes, edges))
    ensures LeastClosed(prog, mode, seeds, Funcs(nodes), Links(nodes, edges))
  {
    hide Funcs, Links, WellFormed, Derived, RuleSucc, RuleLink, CallsDone, PassesDone, Anchors, Closed, PassesFor;
    var F, L := Funcs(nodes), Links(nodes, edges);
    LinksStart(nodes, edges);
    DoneIsClosed(prog, mode, F, L);
    AnchorsAreThere(prog, mode, F, F, F, L);
    forall l: Link | l.from in F && RuleLink(prog, mode, F, l)
      ensures l in L
    {
      RuleLinkIsThere(prog, mode, F, L, l);
    }
  }

  lemma LinksStart(nodes: seq<Node>, edges: seq<Edge>)
    requires WellFormed(nodes, edges)
    ensures forall l | l in Links(nodes, edges) :: l.from in Funcs(nodes) && l.to in Funcs(nodes)
  {
  }

  /** Runs the passes and explores what they find until they find nothing; every run of the passes
      works on an index of all the functions found before it. Without the limit the result is the
      least fixpoint of the rules, and running the passes once more would change nothing; with it,
      everything recorded is still derivable. When ten alternations surely find all, the limit stays
      away; a function that ten cannot find at best brings it. */
  method AugmentGraph(g: Graph, prog: Program, mode: AugmentMode, ghost seeds: set<Func>)
    requires g.Valid() && Sane(prog, mode) && seeds <= Funcs(g.nodes)
    requires Justified(prog, mode, seeds, Funcs(g.nodes), Links(g.nodes, g.edges))
    requires CallsDone(prog, Funcs(g.nodes), Funcs(g.nodes), Links(g.nodes, g.edges))
    modifies g
    ensures g.Valid() && old(g.nodes) <= g.nodes && old(g.edges) <= g.edges
    ensures Justified(prog, mode, seeds, Funcs(g.nodes), Links(g.nodes, g.edges))
    ensures g.augmentIterations <= MAX_ITERATIONS && (g.augmentLimitHit ==> g.augmentIterations == MAX_ITERATIONS)
    ensures SurelyEnough(prog, mode, seeds, old(Funcs(g.nodes)), MAX_ITERATIONS) ==> !g.augmentLimitHit
    ensures NeverEnough(prog, mode, seeds, old(Funcs(g.nodes)), MAX_ITERATIONS) ==> g.augmentLimitHit
    ensures !g.augmentLimitHit ==> LeastClosed(prog, mode, seeds, Funcs(g.nodes), Links(g.nodes, g.edges))
    ensures !g.augmentLimitHit ==>
              PassesDone(PassesFor(prog, mode, Funcs(g.nodes)), Funcs(g.nodes), Funcs(g.nodes), Links(g.nodes, g.edges))
  {
    hide Links, Funcs, WellFormed, Indexed, Justified, CallsDone, PassesDone, LeastClosed, Sane, PassReached, ReachedFrom, CalleeSucc;
    hide FoundAfter, SurelyEnough, NeverEnough, Anchors, PassesFor, Monotone, Derived, Least, RuleSucc, RuleLink, PassSucc;
    SaneIsMonotone(prog, mode);
    g.augmentIterations := 0;
    g.augmentLimitHit := false;
    ghost var F0 := Funcs(g.nodes);
    NothingFoundYet(prog, mode, F0);
    if mode == RTAOnly {
      NoPasses(prog, F0, Links(g.nodes, g.edges));
      ConvergedIsLeast(prog, mode, seeds, g.nodes, g.edges);
      LeastOf(prog, mode, seeds, F0, Links(g.nodes, g.edges));
      Enough(prog, mode, seeds, F0, 0, MAX_ITERATIONS, F0);
      return;
    }
    while true
      invariant g.Valid() && old(g.nodes) <= g.nodes && old(g.edges) <= g.edges && seeds <= Funcs(g.nodes)
      invariant Justified(prog, mode, seeds, Funcs(g.nodes), Links(g.nodes, g.edges))
      invariant CallsDone(prog, Funcs(g.nodes), Funcs(g.nodes), Links(g.nodes, g.edges))
      invariant g.augmentIterations <= MAX_ITERATIONS && !g.augmentLimitHit
      invariant FoundAfter(prog, mode, F0, g.augmentIterations, Funcs(g.nodes))
      decreases MAX_ITERATIONS - g.augmentIterations
    {
      var snapshot := g.FunctionSet();
      ghost var L := Links(g.nodes, g.edges);
      RunPasses(g, prog, mode, snapshot, seeds);
      var newFuncs := g.NewFunctionsSince(snapshot);
      CallsDoneGrows(prog, snapshot, snapshot, L, Funcs(g.nodes), Links(g.nodes, g.edges));
      if |newFuncs| == 0 {
        assert Funcs(g.nodes) == snapshot;
        ConvergedIsLeast(prog, mode, seeds, g.nodes, g.edges);
        LeastOf(prog, mode, seeds, Funcs(g.nodes), Links(g.nodes, g.edges));
        Enough(prog, mode, seeds, F0, g.augmentIterations, MAX_ITERATIONS, Funcs(g.nodes));
        return;
      }
      if g.augmentIterations >= MAX_ITERATIONS {
        g.augmentLimitHit := true;
        NotEnough(prog, mode, seeds, F0, g.augmentIterations, snapshot, Funcs(g.nodes), Links(g.nodes, g.edges), newFuncs[0]);
        return;
      }
      ghost var passed, passedNodes, passedLinks := Funcs(g.nodes), g.nodes, Links(g.nodes, g.edges);
      NewGenerics(prog, mode, snapshot, passed, newFuncs);
      ghost var n := g.augmentIterations;
      g.augmentIterations := g.augmentIterations + 1;
      ExploreCallees(g, prog, newFuncs, snapshot, mode, seeds);
      FuncsGrow(passedNodes, g.nodes);
      Alternates(prog, mode, F0, n, snapshot, passed, passedLinks, Funcs(g.nodes), Links(g.nodes, g.edges));
    }
  }

  lemma SaneIsMonotone(prog: Program, mode: AugmentMode)
    requires Sane(prog, mode)
    ensures Monotone(prog, mode)
  {
  }

  lemma LeastOf(prog: Program, mode: AugmentMode, seeds: set<Func>, funcs: set<Func>, links: set<Link>)
    requires LeastClosed(prog, mode, seeds, funcs, links)
    ensures Least(prog, mode, seeds, funcs)
  {
    hide Least, RuleLink;
  }

  lemma NewGenerics(prog: Program, mode: AugmentMode, base: set<Func>, funcs: set<Func>, added: seq<Func>)
    requires PassReached(prog, mode, base, funcs) && forall f | f in added :: f in funcs && f !in base
    ensures forall f | f in added && f.generic :: f in Anchors(PassesFor(prog, mode, base))
  {
    hide ReachedFrom, Anchors, PassSucc, PassesFor;
    forall f | f in added && f.generic
      ensures f in Anchors(PassesFor(prog, mode, base))
    {
      NewGenericIsAnchor(prog, mode, base, f);
    }
  }

  lemma FuncsGrow(before: seq<Node>, nodes: seq<Node>)
    requires before <= nodes
    ensures Funcs(before) <= Funcs(nodes)
  {
    assert forall n | n in before :: n in nodes;
  }
}
