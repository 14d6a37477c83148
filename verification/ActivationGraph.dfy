/** The append-only activation graph: nodes are functions, edges carry a kind. */
module ActivationGraph {
  import opened Collections
  import opened Functions
  import opened Orders

  datatype Position = Position(file: string, line: int, column: int)

  datatype Node = Node(id: nat, fn: Func)

  datatype Edge = Edge(id: nat, from: nat, to: nat, kind: string, pos: Position, desc: string)

  /** An edge between functions, whatever ids the graph gave them. */
  datatype Link = Link(from: Func, to: Func, kind: string)

  /** The edges that leave one node, oldest first. */
  ghost function EdgesFrom(edges: seq<Edge>, i: nat): seq<Edge> {
    if edges == [] then []
    else
      var last := edges[|edges| - 1];
      EdgesFrom(edges[..|edges| - 1], i) + if last.from == i then [last] else []
  }

  /** The edges that enter one node, oldest first. */
  ghost function EdgesTo(edges: seq<Edge>, i: nat): seq<Edge> {
    if edges == [] then []
    else
      var last := edges[|edges| - 1];
      EdgesTo(edges[..|edges| - 1], i) + if last.to == i then [last] else []
  }

  function ListAt(lists: map<nat, seq<Edge>>, i: nat): seq<Edge> {
    if i in lists then lists[i] else []
  }

  ghost predicate WellFormed(nodes: seq<Node>, edges: seq<Edge>) {
    && (forall i | 0 <= i < |nodes| :: nodes[i].id == i)
    && (forall i, j | 0 <= i < j < |nodes| :: nodes[i].fn != nodes[j].fn)
    && (forall i | 0 <= i < |edges| :: edges[i].id == i && edges[i].from < |nodes| && edges[i].to < |nodes|)
  }

  ghost predicate Indexed(edges: seq<Edge>, out: map<nat, seq<Edge>>, into: map<nat, seq<Edge>>) {
    && (forall i: nat :: ListAt(out, i) == EdgesFrom(edges, i))
    && (forall i: nat :: ListAt(into, i) == EdgesTo(edges, i))
  }

  ghost function Funcs(nodes: seq<Node>): set<Func> {
    set n | n in nodes :: n.fn
  }

  ghost function Links(nodes: seq<Node>, edges: seq<Edge>): set<Link>
    requires WellFormed(nodes, edges)
  {
    set e | e in edges :: Link(nodes[e.from].fn, nodes[e.to].fn, e.kind)
  }

  lemma {:induction false} EdgesFromAre(edges: seq<Edge>, i: nat, e: Edge)
    ensures e in EdgesFrom(edges, i) <==> e in edges && e.from == i
  {
    if edges != [] {
      var rest, last := edges[..|edges| - 1], edges[|edges| - 1];
      EdgesFromAre(rest, i, e);
      assert edges == rest + [last];
      assert e in edges <==> e in rest || e == last;
      assert EdgesFrom(edges, i) == EdgesFrom(rest, i) + if last.from == i then [last] else [];
    }
  }

  lemma ListAtIs(edges: seq<Edge>, out: map<nat, seq<Edge>>, into: map<nat, seq<Edge>>, i: nat)
    requires Indexed(edges, out, into)
    ensures forall e :: e in ListAt(out, i) <==> e in edges && e.from == i
  {
    forall e
      ensures e in ListAt(out, i) <==> e in edges && e.from == i
    {
      EdgesFromAre(edges, i, e);
    }
  }

  lemma LinksAppend(nodes: seq<Node>, edges: seq<Edge>, e: Edge)
    requires WellFormed(nodes, edges) && e.id == |edges| && e.from < |nodes| && e.to < |nodes|
    ensures WellFormed(nodes, edges + [e])
    ensures Links(nodes, edges + [e]) == Links(nodes, edges) + {Link(nodes[e.from].fn, nodes[e.to].fn, e.kind)}
    ensures forall f :: f in edges + [e] <==> f in edges || f == e
    ensures e !in edges
  {
    assert forall f :: f in edges + [e] <==> f in edges || f == e;
  }

  lemma LinkKnown(nodes: seq<Node>, edges: seq<Edge>, e: Edge)
    requires WellFormed(nodes, edges) && e in edges
    ensures e.from < |nodes| && e.to < |nodes|
    ensures Links(nodes, edges) == Links(nodes, edges) + {Link(nodes[e.from].fn, nodes[e.to].fn, e.kind)}
  {
    assert Link(nodes[e.from].fn, nodes[e.to].fn, e.kind) in Links(nodes, edges);
  }

  lemma IndexedAppend(edges: seq<Edge>, out: map<nat, seq<Edge>>, into: map<nat, seq<Edge>>, e: Edge)
    requires Indexed(edges, out, into)
    ensures Indexed(edges + [e], out[e.from := ListAt(out, e.from) + [e]], into[e.to := ListAt(into, e.to) + [e]])
  {
    hide EdgesFrom, EdgesTo;
    forall i: nat
      ensures EdgesFrom(edges + [e], i) == EdgesFrom(edges, i) + if e.from == i then [e] else []
      ensures EdgesTo(edges + [e], i) == EdgesTo(edges, i) + if e.to == i then [e] else []
    {
      EdgesAppend(edges, e, i);
    }
  }

  lemma EdgesAppend(edges: seq<Edge>, e: Edge, i: nat)
    ensures EdgesFrom(edges + [e], i) == EdgesFrom(edges, i) + if e.from == i then [e] else []
    ensures EdgesTo(edges + [e], i) == EdgesTo(edges, i) + if e.to == i then [e] else []
  {
    assert (edges + [e])[..|edges|] == edges;
  }

  class Graph {
    var nodes: seq<Node>
    var edges: seq<Edge>
    var out: map<nat, seq<Edge>>
    var into: map<nat, seq<Edge>>
    var augmentIterations: nat
    var augmentLimitHit: bool

    ghost predicate Valid()
      reads this
    {
      WellFormed(nodes, edges) && Indexed(edges, out, into)
    }

    constructor ()
      ensures Valid() && nodes == [] && edges == []
    {
      nodes, edges, out, into := [], [], map[], map[];
      augmentIterations, augmentLimitHit := 0, false;
    }

    /** The node of a function, if the graph has one. */
    method NodeByFunction(fn: Option<Func>) returns (node: Option<Node>)
      requires Valid()
      ensures node.Some? ==> fn.Some? && node.value in nodes && node.value.fn == fn.value
      ensures node.None? ==> fn.None? || fn.value !in Funcs(nodes)
    {
      if fn.None? {
        return None;
      }
      for i := 0 to |nodes|
        invariant forall j | 0 <= j < i :: nodes[j].fn != fn.value
      {
        if nodes[i].fn == fn.value {
          return Some(nodes[i]);
        }
      }
      return None;
    }

    /** Inserts a node unless the function already has one. Nothing else changes. */
    method AddNode(fn: Func) returns (node: Node)
      requires Valid()
      modifies this`nodes
      ensures Valid() && node in nodes && node.fn == fn
      ensures nodes == if fn in Funcs(old(nodes)) then old(nodes) else old(nodes) + [node]
      ensures Funcs(nodes) == Funcs(old(nodes)) + {fn}
      ensures Links(nodes, edges) == old(Links(nodes, edges))
    {
      for i := 0 to |nodes|
        invariant forall j | 0 <= j < i :: nodes[j].fn != fn
      {
        if nodes[i].fn == fn {
          assert nodes[i] in nodes;
          assert Funcs(nodes) == Funcs(nodes) + {fn};
          return nodes[i];
        }
      }
      node := Node(|nodes|, fn);
      ghost var before := nodes;
      nodes := nodes + [node];
      assert forall n :: n in nodes <==> n in before || n == node;
      assert forall e | e in edges :: nodes[e.from] == before[e.from] && nodes[e.to] == before[e.to];
    }

    /** Inserts an edge unless one with the same ends and kind exists; refuses unknown ends. */
    method AddEdge(from: int, to: int, kind: string, pos: Position, desc: string) returns (edge: Option<Edge>)
      requires Valid()
      modifies this`edges, this`out, this`into
      ensures Valid()
      ensures edge.None? <==> !(0 <= from < |nodes| && 0 <= to < |nodes|)
      ensures edge.None? ==> edges == old(edges)
      ensures edge.Some? ==> edge.value.from == from && edge.value.to == to && edge.value.kind == kind
      ensures edge.Some? ==> edges == if Joined(old(edges), from, to, kind) then old(edges) else old(edges) + [edge.value]
      ensures edge.Some? ==> edge.value in edges
      ensures edge.Some? ==> Links(nodes, edges) == old(Links(nodes, edges)) + {Link(nodes[from].fn, nodes[to].fn, kind)}
    {
      hide Indexed, WellFormed, Links, EdgesFrom, EdgesTo, Joined;
      if from < 0 || to < 0 || from >= |nodes| || to >= |nodes| {
        return None;
      }
      var list := ListAt(out, from);
      ListAtIs(edges, out, into, from);
      for i := 0 to |list|
        invariant forall j | 0 <= j < i :: !(list[j].from == from && list[j].to == to && list[j].kind == kind)
      {
        var known := list[i];
        if known.from == from && known.to == to && known.kind == kind {
          assert known in list;
          LinkKnown(nodes, edges, known);
          JoinedBy(edges, known);
          return Some(known);
        }
      }
      NotJoined(edges, list, from, to, kind);
      var e := AppendEdge(from, to, kind, pos, desc);
      return Some(e);
    }

    /** Appends an edge without looking for one like it, as the conversion of a call graph does. */
    method AppendEdge(from: nat, to: nat, kind: string, pos: Position, desc: string) returns (e: Edge)
      requires Valid() && from < |nodes| && to < |nodes|
      modifies this`edges, this`out, this`into
      ensures Valid() && edges == old(edges) + [e]
      ensures e.from == from && e.to == to && e.kind == kind
      ensures Links(nodes, edges) == old(Links(nodes, edges)) + {Link(nodes[from].fn, nodes[to].fn, kind)}
    {
      hide Indexed, WellFormed, Links;
      e := Edge(|edges|, from, to, kind, pos, desc);
      IndexedAppend(edges, out, into, e);
      LinksAppend(nodes, edges, e);
      edges := edges + [e];
      out := out[from := ListAt(out, from) + [e]];
      into := into[to := ListAt(into, to) + [e]];
    }

    /** The functions the graph holds. */
    method FunctionSet() returns (funcs: set<Func>)
      requires Valid()
      ensures funcs == Funcs(nodes)
    {
      funcs := {};
      for i := 0 to |nodes|
        invariant funcs == Funcs(nodes[..i])
      {
        funcs := funcs + {nodes[i].fn};
        assert nodes[..i + 1] == nodes[..i] + [nodes[i]];
      }
      assert nodes[..|nodes|] == nodes;
    }

    /** The functions that are not in an earlier snapshot, sorted and without repetition. */
    method NewFunctionsSince(before: set<Func>) returns (added: seq<Func>)
      requires Valid()
      ensures forall f :: f in added <==> f in Funcs(nodes) && f !in before
      ensures Sorted(added, FuncLess) && Distinct(added)
      ensures added == [] <==> Funcs(nodes) <= before
    {
      var list: seq<Func> := [];
      for i := 0 to |nodes|
        invariant forall f :: f in list <==> f in Funcs(nodes[..i]) && f !in before
        invariant Distinct(list)
      {
        assert nodes[..i + 1] == nodes[..i] + [nodes[i]];
        if nodes[i].fn !in before && nodes[i].fn !in list {
          list := list + [nodes[i].fn];
        }
      }
      assert nodes[..|nodes|] == nodes;
      added := SortBy(list, FuncLess);
      FunctionsInOrder(list, added);
      if added != [] {
        assert added[0] in added;
      }
    }
  }

  /** Some edge has these ends and this kind. */
  ghost predicate Joined(edges: seq<Edge>, from: int, to: int, kind: string) {
    exists e :: e in edges && e.from == from && e.to == to && e.kind == kind
  }

  lemma JoinedBy(edges: seq<Edge>, e: Edge)
    requires e in edges
    ensures Joined(edges, e.from, e.to, e.kind)
  {
  }

  lemma NotJoined(edges: seq<Edge>, list: seq<Edge>, from: int, to: int, kind: string)
    requires forall e :: e in list <==> e in edges && e.from == from
    requires forall j | 0 <= j < |list| :: !(list[j].from == from && list[j].to == to && list[j].kind == kind)
    ensures !Joined(edges, from, to, kind)
  {
    forall e | e in edges && e.from == from
      ensures !(e.to == to && e.kind == kind)
    {
      assert e in list;
    }
  }
}
