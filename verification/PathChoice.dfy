/** Which path the search returns: the least of the shortest, whatever numbers the graph gave to its
    nodes and edges. */
module PathChoice {
  import opened Collections
  import opened Functions
  import opened Orders
  import opened Reachability
  import opened ActivationGraph
  import opened ShortestPath

  // ----- One graph

  lemma PathEdges(nodes: seq<Node>, edges: seq<Edge>, starts: set<nat>, target: nat, a: seq<PathStep>, j: nat)
    requires WellFormed(nodes, edges) && IsPath(nodes, edges, starts, target, a) && j < |a|
    ensures a[j].node.id < |nodes| && nodes[a[j].node.id] == a[j].node
    ensures j == 0 ==> a[j].edge.None? && a[j].node.id in starts
    ensures j > 0 ==> a[j].edge.Some? && a[j].edge.value in edges && Joins(edges, a[j - 1], a[j])
                      && a[j].edge.value.from == a[j - 1].node.id && a[j].edge.value.to == a[j].node.id
  {
    assert a[j].node in nodes;
    if j > 0 {
      assert Joins(edges, a[j - 1], a[j]);
    }
  }

  lemma {:induction false} FirstDifference<T>(a: seq<T>, b: seq<T>) returns (j: nat)
    requires |a| == |b| && a != b
    ensures j < |a| && a[..j] == b[..j] && a[j] != b[j]
  {
    if a[0] != b[0] {
      j := 0;
    } else {
      assert a == [a[0]] + a[1..] && b == [b[0]] + b[1..];
      var i := FirstDifference(a[1..], b[1..]);
      j := i + 1;
      assert a[..j] == [a[0]] + a[1..][..i] && b[..j] == [b[0]] + b[1..][..i];
    }
  }

  /** Of two paths of one length whose start nodes can be told apart, one comes before the other: there is
      only one least path. */
  lemma OneIsBefore(nodes: seq<Node>, edges: seq<Edge>, starts: set<nat>, target: nat, a: seq<PathStep>, b: seq<PathStep>)
    requires WellFormed(nodes, edges) && IsPath(nodes, edges, starts, target, a) && IsPath(nodes, edges, starts, target, b)
    requires |a| == |b| && a != b && (a[0].node == b[0].node || !SameName(a[0].node, b[0].node))
    ensures Before(nodes, a, b) || Before(nodes, b, a)
  {
    hide IsPath, NodeLess, SameName, EdgeLess, Joins;
    var j := FirstDifference(a, b);
    PathEdges(nodes, edges, starts, target, a, j);
    PathEdges(nodes, edges, starts, target, b, j);
    if j == 0 {
      NodeOrder(a[0].node, b[0].node, a[0].node);
      assert BeforeAt(nodes, a, b, 0) || BeforeAt(nodes, b, a, 0);
    } else {
      var e, f := a[j].edge.value, b[j].edge.value;
      EdgesByIds(nodes, edges, e, f);
      EdgeOrderPair(nodes, e, f);
      assert EdgeOrder(nodes)(e, f) || EdgeOrder(nodes)(f, e);
      assert BeforeAt(nodes, a, b, j) || BeforeAt(nodes, b, a, j);
    }
  }

  lemma EdgesByIds(nodes: seq<Node>, edges: seq<Edge>, e: Edge, f: Edge)
    requires WellFormed(nodes, edges) && e in edges && f in edges
    ensures e.id == f.id ==> e == f
    ensures e.to < |nodes| && f.to < |nodes|
  {
  }

  // ----- What a path looks like

  /** A step without the numbers of its graph: the function, and how it was reached. */
  datatype Look = Look(fn: Func, kind: string, pos: Position)

  function LookOf(s: PathStep): Look {
    match s.edge
    case None => Look(s.node.fn, "", Position("", 0, 0))
    case Some(e) => Look(s.node.fn, e.kind, e.pos)
  }

  function Looks(steps: seq<PathStep>): (r: seq<Look>)
    ensures |r| == |steps| && forall i | 0 <= i < |r| :: r[i] == LookOf(steps[i])
  {
    seq(|steps|, i requires 0 <= i < |steps| => LookOf(steps[i]))
  }

  /** An edge without the numbers of its graph. */
  datatype Arrow = Arrow(from: Func, to: Look)

  ghost function Arrows(nodes: seq<Node>, edges: seq<Edge>): set<Arrow>
    requires WellFormed(nodes, edges)
  {
    set e | e in edges :: Arrow(nodes[e.from].fn, Look(nodes[e.to].fn, e.kind, e.pos))
  }

  /** Both graphs show the same functions and the same edges, under whatever numbers. */
  ghost predicate SameLook(nodes: seq<Node>, edges: seq<Edge>, nodes': seq<Node>, edges': seq<Edge>) {
    && WellFormed(nodes, edges) && WellFormed(nodes', edges')
    && Funcs(nodes) == Funcs(nodes') && Arrows(nodes, edges) == Arrows(nodes', edges')
  }

  /** The names tell the functions apart. */
  ghost predicate NamesIdentify(fns: set<Func>) {
    forall f, g | f in fns && g in fns && f.key == g.key && f.name == g.name :: f == g
  }

  lemma NodeOf(nodes: seq<Node>, edges: seq<Edge>, f: Func) returns (n: Node)
    requires WellFormed(nodes, edges) && f in Funcs(nodes)
    ensures n in nodes && n.fn == f && n.id < |nodes| && nodes[n.id] == n
  {
    n :| n in nodes && n.fn == f;
    var i :| 0 <= i < |nodes| && nodes[i] == n;
  }

  lemma SameFunction(nodes: seq<Node>, edges: seq<Edge>, m: Node, n: Node)
    requires WellFormed(nodes, edges) && m in nodes && n in nodes && m.fn == n.fn
    ensures m == n
  {
  }

  /** An edge of one graph has a counterpart in the other. */
  lemma EdgeOver(nodes: seq<Node>, edges: seq<Edge>, nodes': seq<Node>, edges': seq<Edge>, e: Edge) returns (e': Edge)
    requires SameLook(nodes, edges, nodes', edges') && e in edges
    ensures e' in edges' && e.from < |nodes| && e.to < |nodes| && e'.from < |nodes'| && e'.to < |nodes'|
    ensures nodes'[e'.from].fn == nodes[e.from].fn && nodes'[e'.to].fn == nodes[e.to].fn && e'.kind == e.kind && e'.pos == e.pos
  {
    var arrow := Arrow(nodes[e.from].fn, Look(nodes[e.to].fn, e.kind, e.pos));
    assert arrow in Arrows(nodes, edges);
    e' :| e' in edges' && Arrow(nodes'[e'.from].fn, Look(nodes'[e'.to].fn, e'.kind, e'.pos)) == arrow;
  }

  lemma LastNode(nodes: seq<Node>, edges: seq<Edge>, starts: set<nat>, target: nat, steps: seq<PathStep>)
    requires WellFormed(nodes, edges) && IsPath(nodes, edges, starts, target, steps)
    ensures target < |nodes| && steps[|steps| - 1].node == nodes[target]
  {
    hide Joins;
    assert steps[|steps| - 1].node in nodes;
  }

  lemma PathGrows(nodes: seq<Node>, edges: seq<Edge>, starts: set<nat>, from: nat, steps: seq<PathStep>, e: Edge)
    requires WellFormed(nodes, edges) && IsPath(nodes, edges, starts, from, steps) && e in edges && e.from == from
    ensures e.to < |nodes| && IsPath(nodes, edges, starts, e.to, steps + [PathStep(nodes[e.to], Some(e))])
  {
    var more := steps + [PathStep(nodes[e.to], Some(e))];
    forall i | 0 < i < |more|
      ensures Joins(edges, more[i - 1], more[i])
    {
      if i < |steps| {
        assert Joins(edges, steps[i - 1], steps[i]);
      }
    }
  }

  /** A path of the other graph, to the same function, that looks the same. */
  ghost predicate Matches(nodes: seq<Node>, edges: seq<Edge>, fns: set<Func>, f: Func, steps: seq<PathStep>, looks: seq<Look>) {
    && |steps| > 0 && Looks(steps) == looks && steps[|steps| - 1].node.fn == f
    && IsPath(nodes, edges, StartIds(nodes, fns), steps[|steps| - 1].node.id, steps)
  }

  lemma StartOver(nodes: seq<Node>, edges: seq<Edge>, nodes': seq<Node>, edges': seq<Edge>, fns: set<Func>, target: nat)
    returns (steps': seq<PathStep>)
    requires SameLook(nodes, edges, nodes', edges') && target < |nodes| && target in StartIds(nodes, fns)
    ensures Matches(nodes', edges', fns, nodes[target].fn, steps', Looks([PathStep(nodes[target], None)]))
  {
    hide IsPath, Arrows;
    assert nodes[target].fn in Funcs(nodes) && nodes[target].fn in fns;
    var n := NodeOf(nodes', edges', nodes[target].fn);
    steps' := [PathStep(n, None)];
    assert n.id in StartIds(nodes', fns);
    StartPath(nodes', edges', StartIds(nodes', fns), n);
  }

  lemma StepOver(nodes: seq<Node>, edges: seq<Edge>, nodes': seq<Node>, edges': seq<Edge>, fns: set<Func>, front: seq<PathStep>,
                 e: Edge, front': seq<PathStep>) returns (steps': seq<PathStep>)
    requires SameLook(nodes, edges, nodes', edges') && e in edges && e.from < |nodes| && e.to < |nodes|
    requires Matches(nodes', edges', fns, nodes[e.from].fn, front', Looks(front))
    ensures Matches(nodes', edges', fns, nodes[e.to].fn, steps', Looks(front) + [LookOf(PathStep(nodes[e.to], Some(e)))])
  {
    hide IsPath, Joins, Arrows, Funcs, StartIds;
    var e' := EdgeOver(nodes, edges, nodes', edges', e);
    var last := front'[|front'| - 1].node;
    LastNode(nodes', edges', StartIds(nodes', fns), last.id, front');
    SameFunction(nodes', edges', last, nodes'[e'.from]);
    PathGrows(nodes', edges', StartIds(nodes', fns), last.id, front', e');
    var step := PathStep(nodes'[e'.to], Some(e'));
    steps' := front' + [step];
    LooksGrow(front', step);
    NodeAt(nodes', edges', e'.to);
  }

  lemma NodeAt(nodes: seq<Node>, edges: seq<Edge>, i: nat)
    requires WellFormed(nodes, edges) && i < |nodes|
    ensures nodes[i].id == i
  {
  }

  lemma LooksGrow(steps: seq<PathStep>, step: PathStep)
    ensures Looks(steps + [step]) == Looks(steps) + [LookOf(step)]
  {
  }

  /** Every path of one graph is matched by a path of the other that looks the same. */
  lemma {:induction false} PathOver(nodes: seq<Node>, edges: seq<Edge>, nodes': seq<Node>, edges': seq<Edge>,
                                    fns: set<Func>, target: nat, steps: seq<PathStep>) returns (steps': seq<PathStep>)
    requires SameLook(nodes, edges, nodes', edges') && IsPath(nodes, edges, StartIds(nodes, fns), target, steps)
    ensures target < |nodes| && Matches(nodes', edges', fns, nodes[target].fn, steps', Looks(steps))
    decreases |steps|
  {
    hide IsPath, Joins, Arrows, Funcs, StartIds, Matches, Looks;
    LastNode(nodes, edges, StartIds(nodes, fns), target, steps);
    EndOfPath(nodes, edges, StartIds(nodes, fns), target, steps);
    if |steps| == 1 {
      OneStepPath(nodes, edges, StartIds(nodes, fns), target, steps);
      steps' := StartOver(nodes, edges, nodes', edges', fns, target);
      assert steps == [PathStep(nodes[target], None)];
    } else {
      FrontIsPath(nodes, edges, StartIds(nodes, fns), target, steps);
      var front, last := steps[..|steps| - 1], steps[|steps| - 1];
      var e := last.edge.value;
      var front' := PathOver(nodes, edges, nodes', edges', fns, e.from, front);
      steps' := StepOver(nodes, edges, nodes', edges', fns, front, e, front');
      LooksGrow(front, last);
      assert steps == front + [last] && last == PathStep(nodes[e.to], Some(e));
    }
  }

  lemma StartPath(nodes: seq<Node>, edges: seq<Edge>, starts: set<nat>, n: Node)
    requires n in nodes && n.id in starts
    ensures IsPath(nodes, edges, starts, n.id, [PathStep(n, None)])
  {
  }

  // ----- The choice between paths, by their looks

  predicate NamedBefore(f: Func, g: Func) {
    NodeLess(Node(0, f), Node(0, g))
  }

  predicate PosLess(a: Position, b: Position) {
    || StringLess(a.file, b.file)
    || (a.file == b.file && (a.line < b.line || (a.line == b.line && a.column < b.column)))
  }

  /** The order of the edges as far as it shows. */
  predicate LookLess(a: Look, b: Look) {
    || NamedBefore(a.fn, b.fn)
    || (a.fn == b.fn && (StringLess(a.kind, b.kind) || (a.kind == b.kind && PosLess(a.pos, b.pos))))
  }

  lemma LooksCompare(a: Look, b: Look)
    requires a != b && (a.fn.key == b.fn.key && a.fn.name == b.fn.name ==> a.fn == b.fn)
    ensures LookLess(a, b) || LookLess(b, a)
  {
    NodeOrder(Node(0, a.fn), Node(0, b.fn), Node(0, a.fn));
    StringTriple(a.kind, b.kind, a.kind);
    StringTriple(a.pos.file, b.pos.file, a.pos.file);
    hide StringLess, NodeLess;
  }

  lemma LookOrdersEdges(nodes: seq<Node>, e: Edge, f: Edge)
    requires e.to < |nodes| && f.to < |nodes|
    requires LookLess(Look(nodes[e.to].fn, e.kind, e.pos), Look(nodes[f.to].fn, f.kind, f.pos))
    ensures EdgeOrder(nodes)(e, f)
  {
    EdgeOrderReads(nodes, e, f);
    NamesAlone(nodes[e.to], nodes[f.to]);
    hide StringLess, EdgeLess, NodeLess;
  }

  lemma NamesAlone(m: Node, n: Node)
    ensures NamedBefore(m.fn, n.fn) <==> NodeLess(m, n)
  {
    hide StringLess;
  }

  lemma NotBeforeItself(f: Func, p: Position)
    ensures !NamedBefore(f, f) && !PosLess(p, p) && !StringLess("", "")
  {
    NodeOrder(Node(0, f), Node(0, f), Node(0, f));
    StringTriple(p.file, p.file, p.file);
    hide StringLess, NodeLess;
  }

  /** The first `j` steps of one path and the rest of the other are a path where the two meet. */
  lemma Spliced(nodes: seq<Node>, edges: seq<Edge>, starts: set<nat>, target: nat, a: seq<PathStep>, b: seq<PathStep>, j: nat)
    requires IsPath(nodes, edges, starts, target, a) && IsPath(nodes, edges, starts, target, b) && |a| == |b|
    requires 0 < j < |a| && a[j - 1].node == b[j - 1].node
    ensures IsPath(nodes, edges, starts, target, a[..j] + b[j..])
  {
    var c := a[..j] + b[j..];
    forall i | 0 < i < |c|
      ensures Joins(edges, c[i - 1], c[i])
    {
      if i < j {
        assert Joins(edges, a[i - 1], a[i]);
      } else {
        assert Joins(edges, b[i - 1], b[i]);
        assert i == j ==> c[i - 1] == a[j - 1];
      }
    }
    forall i | 0 <= i < |c|
      ensures c[i].node in nodes
    {
      if i < j {
        assert c[i] == a[i];
      } else {
        assert c[i] == b[i];
      }
    }
  }

  /** A path that looks less makes a path that comes before: up to where they part, the edges of the first. */
  lemma LooksLessIsBefore(nodes: seq<Node>, edges: seq<Edge>, starts: set<nat>, target: nat, mine: seq<PathStep>, other: seq<PathStep>, j: nat)
    returns (better: seq<PathStep>)
    requires WellFormed(nodes, edges) && IsPath(nodes, edges, starts, target, mine) && IsPath(nodes, edges, starts, target, other)
    requires |other| == |mine| && j < |mine| && Looks(other)[..j] == Looks(mine)[..j]
    requires LookLess(LookOf(other[j]), LookOf(mine[j]))
    ensures |better| == |mine| && IsPath(nodes, edges, starts, target, better) && BeforeAt(nodes, better, mine, j)
  {
    hide IsPath, Joins, NodeLess, NamedBefore, PosLess, StringLess, Looks, EdgeOrder;
    PathEdges(nodes, edges, starts, target, mine, j);
    PathEdges(nodes, edges, starts, target, other, j);
    if j == 0 {
      better := other;
      NotBeforeItself(mine[j].node.fn, Position("", 0, 0));
      NamesAlone(other[j].node, mine[j].node);
    } else {
      better := mine[..j] + other[j..];
      PathEdges(nodes, edges, starts, target, mine, j - 1);
      PathEdges(nodes, edges, starts, target, other, j - 1);
      assert Looks(other)[..j][j - 1] == Looks(mine)[..j][j - 1];
      SameFunction(nodes, edges, mine[j - 1].node, other[j - 1].node);
      Spliced(nodes, edges, starts, target, mine, other, j);
      LookOrdersEdges(nodes, other[j].edge.value, mine[j].edge.value);
      assert better[..j] == mine[..j] && better[j] == other[j];
    }
  }

  /** A least path is also least in its looks. */
  lemma LeastLooksLeast(nodes: seq<Node>, edges: seq<Edge>, starts: set<nat>, target: nat, mine: seq<PathStep>, other: seq<PathStep>, j: nat)
    requires WellFormed(nodes, edges) && IsPath(nodes, edges, starts, target, mine) && LeastPath(nodes, edges, starts, target, mine)
    requires IsPath(nodes, edges, starts, target, other) && |other| == |mine| && j < |mine|
    requires Looks(other)[..j] == Looks(mine)[..j]
    ensures !LookLess(Looks(other)[j], Looks(mine)[j])
  {
    hide IsPath, LookLess, BeforeAt;
    if LookLess(Looks(other)[j], Looks(mine)[j]) {
      var better := LooksLessIsBefore(nodes, edges, starts, target, mine, other, j);
    }
  }

  lemma ShortestIsShorter(nodes: seq<Node>, edges: seq<Edge>, starts: set<nat>, target: nat, length: nat, steps: seq<PathStep>)
    requires Shortest(edges, starts, target, length) && IsPath(nodes, edges, starts, target, steps)
    ensures length <= |steps|
  {
    var p: seq<nat> := seq(|steps|, i requires 0 <= i < |steps| => steps[i].node.id);
    forall i | 0 <= i < |p| - 1
      ensures p[i + 1] in EdgeSucc(edges)(p[i])
    {
      assert Joins(edges, steps[i + 1 - 1], steps[i + 1]);
    }
  }

  /** The answer of the search for a path to the function `f`: a shortest path, and the least of them. */
  ghost predicate Chosen(nodes: seq<Node>, edges: seq<Edge>, fns: set<Func>, target: nat, f: Func, steps: seq<PathStep>) {
    && target < |nodes| && nodes[target].fn == f && IsPath(nodes, edges, StartIds(nodes, fns), target, steps)
    && Shortest(edges, StartIds(nodes, fns), target, |steps|) && LeastPath(nodes, edges, StartIds(nodes, fns), target, steps)
  }

  /** The path chosen in one graph, carried over, is no longer and looks no less than the one chosen in the other. */
  lemma CarriedOver(nodes: seq<Node>, edges: seq<Edge>, nodes': seq<Node>, edges': seq<Edge>, fns: set<Func>,
                    target: nat, target': nat, f: Func, steps: seq<PathStep>, steps': seq<PathStep>)
    requires SameLook(nodes, edges, nodes', edges')
    requires Chosen(nodes, edges, fns, target, f, steps) && Chosen(nodes', edges', fns, target', f, steps')
    ensures |steps'| <= |steps|
    ensures |steps'| == |steps| ==>
              forall j: nat | j < |steps| && Looks(steps)[..j] == Looks(steps')[..j] :: !LookLess(Looks(steps)[j], Looks(steps')[j])
  {
    hide IsPath, LeastPath, Shortest, LookLess, Looks;
    var over := PathOver(nodes, edges, nodes', edges', fns, target, steps);
    assert |Looks(over)| == |over| && |Looks(steps)| == |steps|;
    EndOfPath(nodes, edges, StartIds(nodes, fns), target, steps);
    var last := over[|over| - 1].node;
    LastNode(nodes', edges', StartIds(nodes', fns), last.id, over);
    SameFunction(nodes', edges', last, nodes'[target']);
    assert last.id == target';
    ShortestIsShorter(nodes', edges', StartIds(nodes', fns), target', |steps'|, over);
    if |steps'| == |steps| {
      forall j: nat | j < |steps| && Looks(steps)[..j] == Looks(steps')[..j]
        ensures !LookLess(Looks(steps)[j], Looks(steps')[j])
      {
        LeastLooksLeast(nodes', edges', StartIds(nodes', fns), target', steps', over, j);
      }
    }
  }

  lemma SameLookBack(nodes: seq<Node>, edges: seq<Edge>, nodes': seq<Node>, edges': seq<Edge>)
    requires SameLook(nodes, edges, nodes', edges')
    ensures SameLook(nodes', edges', nodes, edges)
  {
  }

  lemma LookedAt(nodes: seq<Node>, edges: seq<Edge>, fns: set<Func>, target: nat, f: Func, steps: seq<PathStep>, j: nat)
    requires WellFormed(nodes, edges) && Chosen(nodes, edges, fns, target, f, steps) && j < |steps|
    ensures Looks(steps)[j].fn in Funcs(nodes)
  {
    hide LeastPath, Shortest, Joins;
    assert steps[j].node in nodes;
  }

  /** The path does not depend on the order in which nodes and edges were added: in two graphs that show
      the same functions and edges, with names that tell functions apart, it looks the same. */
  lemma ChoiceIgnoresNumbers(nodes: seq<Node>, edges: seq<Edge>, nodes': seq<Node>, edges': seq<Edge>, fns: set<Func>,
                             target: nat, target': nat, f: Func, steps: seq<PathStep>, steps': seq<PathStep>)
    requires SameLook(nodes, edges, nodes', edges') && NamesIdentify(Funcs(nodes))
    requires Chosen(nodes, edges, fns, target, f, steps) && Chosen(nodes', edges', fns, target', f, steps')
    ensures Looks(steps) == Looks(steps')
  {
    hide Chosen, LookLess, Arrows, Looks;
    SameLookBack(nodes, edges, nodes', edges');
    CarriedOver(nodes, edges, nodes', edges', fns, target, target', f, steps, steps');
    CarriedOver(nodes', edges', nodes, edges, fns, target', target, f, steps', steps);
    if Looks(steps) != Looks(steps') {
      var j := FirstDifference(Looks(steps), Looks(steps'));
      LookedAt(nodes, edges, fns, target, f, steps, j);
      LookedAt(nodes', edges', fns, target', f, steps', j);
      LooksCompare(Looks(steps)[j], Looks(steps')[j]);
    }
  }

  function Named(entrypoints: seq<Option<Func>>): set<Func> {
    set e | e in entrypoints && e.Some? :: e.value
  }

  lemma StartsAre(nodes: seq<Node>, entrypoints: seq<Option<Func>>)
    ensures Starts(nodes, entrypoints) == StartIds(nodes, Named(entrypoints))
  {
    forall n: Node
      ensures Some(n.fn) in entrypoints <==> n.fn in Named(entrypoints)
    {
    }
  }

  /** What the search answers when it finds a path. */
  ghost predicate Answers(nodes: seq<Node>, edges: seq<Edge>, entrypoints: seq<Option<Func>>, target: Option<Func>, steps: seq<PathStep>) {
    exists t :: t in nodes && target == Some(t.fn) && IsPath(nodes, edges, Starts(nodes, entrypoints), t.id, steps)
                && Shortest(edges, Starts(nodes, entrypoints), t.id, |steps|) && LeastPath(nodes, edges, Starts(nodes, entrypoints), t.id, steps)
  }

  lemma AnswerIsChosen(nodes: seq<Node>, edges: seq<Edge>, entrypoints: seq<Option<Func>>, target: Option<Func>, steps: seq<PathStep>)
    returns (t: nat)
    requires WellFormed(nodes, edges) && Answers(nodes, edges, entrypoints, target, steps)
    ensures target.Some? && Chosen(nodes, edges, Named(entrypoints), t, target.value, steps)
  {
    hide IsPath, Shortest, LeastPath, Starts, StartIds, Named;
    StartsAre(nodes, entrypoints);
    var n :| n in nodes && target == Some(n.fn) && IsPath(nodes, edges, Starts(nodes, entrypoints), n.id, steps)
             && Shortest(edges, Starts(nodes, entrypoints), n.id, |steps|) && LeastPath(nodes, edges, Starts(nodes, entrypoints), n.id, steps);
    t := n.id;
    var i :| 0 <= i < |nodes| && nodes[i] == n;
  }

  /** Searches for one function from the same entrypoints, in any order, in graphs that show the same,
      answer with paths that look the same. */
  lemma AnswersLookAlike(nodes: seq<Node>, edges: seq<Edge>, nodes': seq<Node>, edges': seq<Edge>,
                         entrypoints: seq<Option<Func>>, entrypoints': seq<Option<Func>>, target: Option<Func>,
                         steps: seq<PathStep>, steps': seq<PathStep>)
    requires SameLook(nodes, edges, nodes', edges') && NamesIdentify(Funcs(nodes)) && Named(entrypoints) == Named(entrypoints')
    requires Answers(nodes, edges, entrypoints, target, steps) && Answers(nodes', edges', entrypoints', target, steps')
    ensures Looks(steps) == Looks(steps')
  {
    hide Answers, Chosen, Funcs, Arrows, NamesIdentify, Looks;
    var t := AnswerIsChosen(nodes, edges, entrypoints, target, steps);
    var t' := AnswerIsChosen(nodes', edges', entrypoints', target, steps');
    ChoiceIgnoresNumbers(nodes, edges, nodes', edges', Named(entrypoints), t, t', target.value, steps, steps');
  }

  // ----- Exactly when the choice is always determined

  /** In whatever graphs that show the same over these functions, whatever is chosen looks the same. */
  ghost predicate AlwaysDetermined(fns: set<Func>) {
    forall nodes, edges, nodes', edges', entries, target, target', f, steps, steps' |
      && SameLook(nodes, edges, nodes', edges') && Funcs(nodes) == fns
      && Chosen(nodes, edges, entries, target, f, steps) && Chosen(nodes', edges', entries, target', f, steps') ::
      Looks(steps) == Looks(steps')
  }

  /** A shortest path meets its target only at its end. */
  lemma TargetIsLast(nodes: seq<Node>, edges: seq<Edge>, starts: set<nat>, target: nat, steps: seq<PathStep>, j: nat)
    requires IsPath(nodes, edges, starts, target, steps) && Shortest(edges, starts, target, |steps|) && j < |steps|
    requires steps[j].node.id == target
    ensures j == |steps| - 1
  {
    var front := steps[..j + 1];
    forall i | 0 < i < |front|
      ensures Joins(edges, front[i - 1], front[i])
    {
      assert Joins(edges, steps[i - 1], steps[i]);
    }
    assert IsPath(nodes, edges, starts, target, front);
    ShortestIsShorter(nodes, edges, starts, target, |steps|, front);
  }

  lemma ChosenEnds(nodes: seq<Node>, edges: seq<Edge>, entries: set<Func>, target: nat, f: Func, steps: seq<PathStep>, j: nat)
    requires WellFormed(nodes, edges) && Chosen(nodes, edges, entries, target, f, steps) && j < |steps|
    ensures Looks(steps)[j].fn in Funcs(nodes) && f in Funcs(nodes)
    ensures Looks(steps)[j].fn == f <==> j == |steps| - 1
  {
    hide Shortest, LeastPath, IsPath;
    var starts := StartIds(nodes, entries);
    assert nodes[target] in nodes;
    LookedAt(nodes, edges, entries, target, f, steps, j);
    LastNode(nodes, edges, starts, target, steps);
    PathEdges(nodes, edges, starts, target, steps, j);
    if steps[j].node.fn == f {
      SameFunction(nodes, edges, steps[j].node, nodes[target]);
      TargetIsLast(nodes, edges, starts, target, steps, j);
    }
  }

  lemma TwoAreDetermined(nodes: seq<Node>, edges: seq<Edge>, nodes': seq<Node>, edges': seq<Edge>, entries: set<Func>,
                         target: nat, target': nat, f: Func, steps: seq<PathStep>, steps': seq<PathStep>)
    requires SameLook(nodes, edges, nodes', edges') && |Funcs(nodes)| <= 2
    requires Chosen(nodes, edges, entries, target, f, steps) && Chosen(nodes', edges', entries, target', f, steps')
    ensures Looks(steps) == Looks(steps')
  {
    hide Chosen, LookLess, Arrows, Looks, Funcs;
    SameLookBack(nodes, edges, nodes', edges');
    CarriedOver(nodes, edges, nodes', edges', entries, target, target', f, steps, steps');
    CarriedOver(nodes', edges', nodes, edges, entries, target', target, f, steps', steps);
    if Looks(steps) != Looks(steps') {
      var j := FirstDifference(Looks(steps), Looks(steps'));
      ChosenEnds(nodes, edges, entries, target, f, steps, j);
      ChosenEnds(nodes', edges', entries, target', f, steps', j);
      var a, b := Looks(steps)[j].fn, Looks(steps')[j].fn;
      if a != b {
        ThreeAreMore(Funcs(nodes), a, b, f);
      }
      LooksCompare(Looks(steps)[j], Looks(steps')[j]);
    }
  }

  lemma ThreeAreMore(fns: set<Func>, a: Func, b: Func, f: Func)
    requires a in fns && b in fns && f in fns && a != b && a != f && b != f
    ensures |fns| > 2
  {
    assert {a, b, f} <= fns;
    SubsetSize({a, b, f}, fns);
  }

  lemma {:induction false} Listing(fns: set<Func>) returns (list: seq<Func>)
    ensures Distinct(list) && forall f :: f in list <==> f in fns
  {
    list := [];
    if fns != {} {
      var f :| f in fns;
      var rest := Listing(fns - {f});
      list := rest + [f];
    }
  }

  lemma Fork(fns: set<Func>, a: Func, b: Func, t: Func) returns (nodes: seq<Node>, i: nat, j: nat, k: nat)
    requires a in fns && b in fns && t in fns && a != b && t != a && t != b
    ensures WellFormed(nodes, []) && Funcs(nodes) == fns
    ensures i < |nodes| && j < |nodes| && k < |nodes| && nodes[i].fn == a && nodes[j].fn == b && nodes[k].fn == t
  {
    var list := Listing(fns);
    nodes := seq(|list|, n requires 0 <= n < |list| => Node(n, list[n]));
    i :| 0 <= i < |list| && list[i] == a;
    j :| 0 <= j < |list| && list[j] == b;
    k :| 0 <= k < |list| && list[k] == t;
    forall f
      ensures f in Funcs(nodes) <==> f in fns
    {
      if f in fns {
        var n :| 0 <= n < |list| && list[n] == f;
        assert nodes[n] in nodes;
      }
    }
  }

  function ForkEdges(i: nat, j: nat, k: nat): seq<Edge> {
    [Edge(0, i, k, "", Position("", 0, 0), ""), Edge(1, j, k, "", Position("", 0, 0), "")]
  }

  /** From one of two entrypoints of one name straight to the target: shortest, and nothing comes before it. */
  lemma ForkIsChosen(nodes: seq<Node>, i: nat, j: nat, k: nat, first: bool) returns (steps: seq<PathStep>)
    requires WellFormed(nodes, []) && i < |nodes| && j < |nodes| && k < |nodes| && i != j && i != k && j != k
    requires SameName(nodes[i], nodes[j])
    ensures WellFormed(nodes, ForkEdges(i, j, k))
    ensures Chosen(nodes, ForkEdges(i, j, k), {nodes[i].fn, nodes[j].fn}, k, nodes[k].fn, steps)
    ensures |steps| == 2 && steps[0].node == nodes[if first then i else j]
  {
    hide NodeLess, SameName, EdgeLess, IsPath, Shortest, BeforeAt;
    var edges, fns := ForkEdges(i, j, k), {nodes[i].fn, nodes[j].fn};
    var starts := StartIds(nodes, fns);
    var e := edges[if first then 0 else 1];
    steps := [PathStep(nodes[e.from], None), PathStep(nodes[k], Some(e))];
    assert starts == {i, j} by {
      assert nodes[i] in nodes && nodes[j] in nodes;
    }
    ForkIsPath(nodes, i, j, k, first, steps);
    ForkIsShortest(edges, i, j, k);
    forall other | IsPath(nodes, edges, starts, k, other) && |other| == 2
      ensures !Before(nodes, other, steps)
    {
      forall n: nat ensures !BeforeAt(nodes, other, steps, n) { ForkIsLeast(nodes, i, j, k, first, steps, other, n); }
    }
  }

  lemma ForkIsPath(nodes: seq<Node>, i: nat, j: nat, k: nat, first: bool, steps: seq<PathStep>)
    requires i < |nodes| && j < |nodes| && k < |nodes| && WellFormed(nodes, [])
    requires var e := ForkEdges(i, j, k)[if first then 0 else 1]; steps == [PathStep(nodes[e.from], None), PathStep(nodes[k], Some(e))]
    ensures IsPath(nodes, ForkEdges(i, j, k), {i, j}, k, steps)
  {
    var edges := ForkEdges(i, j, k);
    assert edges[if first then 0 else 1] in edges;
    assert Joins(edges, steps[0], steps[1]);
  }

  lemma ForkIsShortest(edges: seq<Edge>, i: nat, j: nat, k: nat)
    requires k != i && k != j
    ensures Shortest(edges, {i, j}, k, 2)
  {
  }

  lemma ForkIsLeast(nodes: seq<Node>, i: nat, j: nat, k: nat, first: bool, steps: seq<PathStep>, other: seq<PathStep>, n: nat)
    requires WellFormed(nodes, ForkEdges(i, j, k)) && i != j && i < |nodes| && j < |nodes| && k < |nodes| && SameName(nodes[i], nodes[j])
    requires var e := ForkEdges(i, j, k)[if first then 0 else 1];
             steps == [PathStep(nodes[e.from], None), PathStep(nodes[k], Some(e))]
    requires IsPath(nodes, ForkEdges(i, j, k), {i, j}, k, other) && |other| == 2
    ensures !BeforeAt(nodes, other, steps, n)
  {
    hide NodeLess, SameName, EdgeLess, IsPath, Joins;
    var edges := ForkEdges(i, j, k);
    var e := edges[if first then 0 else 1];
    PathEdges(nodes, edges, {i, j}, k, other, 0);
    PathEdges(nodes, edges, {i, j}, k, other, 1);
    NodeOrder(nodes[i], nodes[j], nodes[i]);
    NodeOrder(nodes[i], nodes[i], nodes[i]);
    NodeOrder(nodes[j], nodes[j], nodes[j]);
    EdgeOrderPair(nodes, e, e);
  }

  lemma TwinsAreUndetermined(fns: set<Func>, a: Func, b: Func, t: Func)
    requires a in fns && b in fns && t in fns && a != b && t != a && t != b && a.key == b.key && a.name == b.name
    ensures !AlwaysDetermined(fns)
  {
    hide Chosen, Looks, Funcs;
    var nodes, i, j, k := Fork(fns, a, b, t);
    var edges := ForkEdges(i, j, k);
    var one := ForkIsChosen(nodes, i, j, k, true);
    var two := ForkIsChosen(nodes, i, j, k, false);
    assert SameLook(nodes, edges, nodes, edges);
    assert Looks(one)[0].fn == a && Looks(two)[0].fn == b;
  }

  lemma ThirdFunction(fns: set<Func>, a: Func, b: Func) returns (t: Func)
    requires a in fns && b in fns && a != b && |fns| > 2
    ensures t in fns && t != a && t != b
  {
    if fns <= {a, b} {
      SubsetSize(fns, {a, b});
    }
    t :| t in fns && t !in {a, b};
  }

  /** The path that is chosen never depends on how a graph was put together exactly if the names tell its
      functions apart, or there are no more than two. */
  lemma DeterminedIffNamed(fns: set<Func>)
    ensures AlwaysDetermined(fns) <==> NamesIdentify(fns) || |fns| <= 2
  {
    if NamesIdentify(fns) || |fns| <= 2 {
      hide Chosen, SameLook, Looks, Funcs, NamesIdentify;
      forall nodes, edges, nodes', edges', entries, target, target', f, steps, steps' |
        && SameLook(nodes, edges, nodes', edges') && Funcs(nodes) == fns
        && Chosen(nodes, edges, entries, target, f, steps) && Chosen(nodes', edges', entries, target', f, steps')
        ensures Looks(steps) == Looks(steps')
      {
        if NamesIdentify(fns) {
          ChoiceIgnoresNumbers(nodes, edges, nodes', edges', entries, target, target', f, steps, steps');
        } else {
          TwoAreDetermined(nodes, edges, nodes', edges', entries, target, target', f, steps, steps');
        }
      }
    } else {
      var a, b :| a in fns && b in fns && a.key == b.key && a.name == b.name && a != b;
      var t := ThirdFunction(fns, a, b);
      TwinsAreUndetermined(fns, a, b, t);
    }
  }

  // ----- Names that do not tell functions apart

  function Twin(id: nat): Func {
    Func(id, FunctionKey("p", "", "f"), "p.f", false)
  }

  /** An entrypoint that calls two functions of one name, the first to be called having the lower edge. */
  function TwinEdges(first: nat, second: nat): seq<Edge> {
    [Edge(0, 0, first, "call", Position("", 0, 0), ""), Edge(1, 0, second, "call", Position("", 0, 0), ""),
     Edge(2, 1, 3, "call", Position("", 0, 0), ""), Edge(3, 2, 3, "call", Position("", 0, 0), "")]
  }

  function TwinNodes(): seq<Node> {
    [Node(0, Func(0, FunctionKey("p", "", "e"), "p.e", false)), Node(1, Twin(1)), Node(2, Twin(2)),
     Node(3, Func(3, FunctionKey("p", "", "t"), "p.t", false))]
  }

  /** The path from the entrypoint to the target through the function with id `via`. */
  function TwinPath(first: nat, second: nat, via: nat): seq<PathStep>
    requires via == 1 || via == 2
  {
    var edges := TwinEdges(first, second);
    [PathStep(TwinNodes()[0], None), PathStep(TwinNodes()[via], Some(if via == first then edges[0] else edges[1])),
     PathStep(TwinNodes()[3], Some(if via == 1 then edges[2] else edges[3]))]
  }

  lemma TwinsAreWellFormed(first: nat, second: nat)
    requires first <= 3 && second <= 3
    ensures WellFormed(TwinNodes(), TwinEdges(first, second))
  {
  }

  lemma TwinPathIs(first: nat, second: nat, via: nat)
    requires (first == 1 && second == 2) || (first == 2 && second == 1)
    requires via == 1 || via == 2
    ensures IsPath(TwinNodes(), TwinEdges(first, second), {0}, 3, TwinPath(first, second, via))
  {
    hide Joins;
    var edges, p := TwinEdges(first, second), TwinPath(first, second, via);
    assert edges[0] in edges && edges[1] in edges && edges[2] in edges && edges[3] in edges;
    TwinStep(edges, p[0], p[1]);
    TwinStep(edges, p[1], p[2]);
  }

  lemma TwinStep(edges: seq<Edge>, a: PathStep, b: PathStep)
    requires b.edge.Some? && b.edge.value in edges && b.edge.value.from == a.node.id && b.edge.value.to == b.node.id
    ensures Joins(edges, a, b)
  {
  }

  ghost function ArrowOf(nodes: seq<Node>, e: Edge): Arrow
    requires e.from < |nodes| && e.to < |nodes|
  {
    Arrow(nodes[e.from].fn, Look(nodes[e.to].fn, e.kind, e.pos))
  }

  lemma FourArrows(nodes: seq<Node>, edges: seq<Edge>)
    requires WellFormed(nodes, edges) && |edges| == 4
    ensures Arrows(nodes, edges) ==
              {ArrowOf(nodes, edges[0]), ArrowOf(nodes, edges[1]), ArrowOf(nodes, edges[2]), ArrowOf(nodes, edges[3])}
  {
    assert forall e :: e in edges <==> e == edges[0] || e == edges[1] || e == edges[2] || e == edges[3];
  }

  lemma TwinsShowTheSame()
    ensures SameLook(TwinNodes(), TwinEdges(1, 2), TwinNodes(), TwinEdges(2, 1))
  {
    hide Arrows, WellFormed;
    TwinsAreWellFormed(1, 2);
    TwinsAreWellFormed(2, 1);
    FourArrows(TwinNodes(), TwinEdges(1, 2));
    FourArrows(TwinNodes(), TwinEdges(2, 1));
    assert ArrowOf(TwinNodes(), TwinEdges(1, 2)[0]) == ArrowOf(TwinNodes(), TwinEdges(2, 1)[1]);
    assert ArrowOf(TwinNodes(), TwinEdges(1, 2)[1]) == ArrowOf(TwinNodes(), TwinEdges(2, 1)[0]);
  }

  /** Without distinct names the order in which edges were added decides: in the first graph the path
      through the first twin comes before the other, in the second graph, which shows the same, after it. */
  lemma TwinsDependOnAppendOrder()
    ensures SameLook(TwinNodes(), TwinEdges(1, 2), TwinNodes(), TwinEdges(2, 1))
    ensures Looks(TwinPath(1, 2, 1)) == Looks(TwinPath(2, 1, 1)) && Looks(TwinPath(1, 2, 2)) == Looks(TwinPath(2, 1, 2))
    ensures Looks(TwinPath(1, 2, 1)) != Looks(TwinPath(1, 2, 2))
    ensures forall via | 1 <= via <= 2 ::
              && IsPath(TwinNodes(), TwinEdges(1, 2), {0}, 3, TwinPath(1, 2, via))
              && IsPath(TwinNodes(), TwinEdges(2, 1), {0}, 3, TwinPath(2, 1, via))
    ensures Before(TwinNodes(), TwinPath(1, 2, 1), TwinPath(1, 2, 2)) && Before(TwinNodes(), TwinPath(2, 1, 2), TwinPath(2, 1, 1))
  {
    TwinsShowTheSame();
    hide IsPath;
    TwinPathIs(1, 2, 1);
    TwinPathIs(1, 2, 2);
    TwinPathIs(2, 1, 1);
    TwinPathIs(2, 1, 2);
    assert Looks(TwinPath(1, 2, 1))[1] != Looks(TwinPath(1, 2, 2))[1];
    NodeOrder(TwinNodes()[1], TwinNodes()[2], TwinNodes()[1]);
    StringTriple("call", "call", "call");
    StringTriple("", "", "");
    assert BeforeAt(TwinNodes(), TwinPath(1, 2, 1), TwinPath(1, 2, 2), 1);
    assert BeforeAt(TwinNodes(), TwinPath(2, 1, 2), TwinPath(2, 1, 1), 1);
  }
}
