/** Go types as a finite, possibly cyclic graph of ids; aliases are already resolved.
    An id that the graph does not list stands for a missing (nil) type. */
module TypeGraph {
  import opened Functions

  type TypeId = nat

  datatype BasicKind = Value | Byte | UnsafePointer | Untyped

  datatype Field = Field(typ: TypeId, exported: bool, embedded: bool)

  /** An interface method. `proxyLike` marks the streaming shape of Read and Write. */
  datatype Method = Method(isSignature: bool, proxyLike: bool, variadic: bool, params: seq<TypeId>, results: seq<TypeId>)

  datatype Shape =
    | Basic(kind: BasicKind)
    | Signature
    | Chan
    | Pointer(elem: TypeId)
    | Slice(elem: TypeId)
    | Array(elem: TypeId)
    | MapOf(key: TypeId, elem: TypeId)
    | Struct(fields: seq<Field>)
    | Interface(methods: seq<Method>)
    | Named(underlying: TypeId)
    | TypeParam
    | Unknown

  datatype BoundaryClass = Trivial | Serializable | Reconstructible | ProxyRequired | BoundaryInfeasible

  /** A type with the answers of the name tables for it: its class when its package and
      name are known, and whether it is a synchronisation primitive. */
  datatype TypeInfo = TypeInfo(shape: Shape, known: Option<BoundaryClass>, sync: bool)

  type Types = map<TypeId, TypeInfo>

  /** A variadic last parameter counts as its element. */
  function ParamType(types: Types, m: Method, i: nat): TypeId
    requires i < |m.params|
  {
    var t := m.params[i];
    if m.variadic && i == |m.params| - 1 && t in types && types[t].shape.Slice? then types[t].shape.elem else t
  }

  /** Everything the parameters and results of a method mention. */
  function MethodTypes(types: Types, m: Method): set<TypeId> {
    (set i | 0 <= i < |m.params| :: ParamType(types, m, i)) + (set t | t in m.results)
  }

  /** The signature mentions the type; a variadic slice stands for its element. */
  ghost predicate Mentions(types: Types, m: Method, t: TypeId) {
    || (exists j: nat :: j < |m.results| && m.results[j] == t)
    || (exists j: nat :: j < |m.params| && Passes(types, m, j, t))
  }

  predicate Passes(types: Types, m: Method, j: nat, t: TypeId)
    requires j < |m.params|
  {
    var p := m.params[j];
    if m.variadic && j + 1 == |m.params| && p in types && types[p].shape.Slice? then types[p].shape == Slice(t) else p == t
  }

  lemma MentionedIs(types: Types, m: Method, t: TypeId)
    ensures t in MethodTypes(types, m) <==> Mentions(types, m, t)
  {
    forall j: nat | j < |m.params|
      ensures ParamType(types, m, j) == t <==> Passes(types, m, j, t)
    {
    }
    hide ParamType, Passes;
    if j: nat :| j < |m.params| && Passes(types, m, j, t) {
      assert ParamType(types, m, j) == t;
    }
  }
}

/** `typeContainsCallback` and `typeContainsChannel`: searches over a cyclic type graph that
    guard against the types on the current path only. */
module TypeSearch {
  import opened TypeGraph
  import opened Reachability

  // ----- Callbacks

  function CallbackChildren(types: Types, t: TypeId): set<TypeId> {
    if t !in types then {} else
    match types[t].shape
    case Pointer(e) => {e}
    case Slice(e) => {e}
    case Array(e) => {e}
    case MapOf(k, e) => {k, e}
    case Struct(fields) => set f | f in fields :: f.typ
    case Interface(methods) => set m, c | m in methods && m.isSignature && c in MethodTypes(types, m) :: c
    case Named(u) => {u}
    case _ => {}
  }

  function CallbackSucc(types: Types): TypeId -> set<TypeId> {
    t => CallbackChildren(types, t)
  }

  ghost function Signatures(types: Types): iset<TypeId> {
    iset t | t in types && types[t].shape.Signature?
  }

  ghost predicate FindsCallback(types: Types, t: TypeId, seen: set<TypeId>) {
    Hits(CallbackSucc(types), types.Keys, Signatures(types), t, seen)
  }

  lemma FindsCallbackUnfold(types: Types, t: TypeId, seen: set<TypeId>)
    ensures t !in types || t in seen ==> !FindsCallback(types, t, seen)
    ensures t in types && t !in seen ==>
              (FindsCallback(types, t, seen) <==>
               types[t].shape.Signature? || exists c :: c in CallbackChildren(types, t) && FindsCallback(types, c, seen + {t}))
  {
  }

  lemma CallbackSupported(types: Types)
    ensures Supported(CallbackSucc(types), types.Keys)
  {
  }

  // ----- Channels

  function ChannelChildren(types: Types, t: TypeId): set<TypeId> {
    if t !in types then {} else
    match types[t].shape
    case Pointer(e) => {e}
    case Slice(e) => {e}
    case Array(e) => {e}
    case MapOf(k, e) => {k, e}
    case Struct(fields) => set f | f in fields :: f.typ
    case Named(u) => {u}
    case _ => {}
  }

  function ChannelSucc(types: Types): TypeId -> set<TypeId> {
    t => ChannelChildren(types, t)
  }

  ghost function Channels(types: Types): iset<TypeId> {
    iset t | t in types && types[t].shape.Chan?
  }

  ghost predicate FindsChannel(types: Types, t: TypeId, seen: set<TypeId>) {
    Hits(ChannelSucc(types), types.Keys, Channels(types), t, seen)
  }

  lemma FindsChannelUnfold(types: Types, t: TypeId, seen: set<TypeId>)
    ensures t !in types || t in seen ==> !FindsChannel(types, t, seen)
    ensures t in types && t !in seen ==>
              (FindsChannel(types, t, seen) <==>
               types[t].shape.Chan? || exists c :: c in ChannelChildren(types, t) && FindsChannel(types, c, seen + {t}))
  {
  }

  lemma ChannelSupported(types: Types)
    ensures Supported(ChannelSucc(types), types.Keys)
  {
  }

  // ----- The searches

  class Searcher {
    const types: Types
    /** The types on the current path: inserted on entry, deleted on exit. */
    var seen: set<TypeId>

    constructor (types: Types)
      ensures this.types == types && seen == {}
    {
      this.types := types;
      seen := {};
    }

    method ContainsCallback(t: TypeId) returns (found: bool)
      requires seen <= types.Keys
      modifies this
      ensures seen == old(seen)
      ensures found <==> FindsCallback(types, t, old(seen))
      decreases types.Keys - seen, 1
    {
      FindsCallbackUnfold(types, t, seen);
      hide FindsCallback, CallbackChildren;
      if t !in types || t in seen {
        return false;
      }
      seen := seen + {t};
      ChildrenByShape(types, t);
      match types[t].shape {
        case Signature =>
          found := true;
        case Pointer(e) =>
          found := ContainsCallback(e);
        case Slice(e) =>
          found := ContainsCallback(e);
        case Array(e) =>
          found := ContainsCallback(e);
        case MapOf(k, e) =>
          found := ContainsCallback(k);
          if !found {
            found := ContainsCallback(e);
          }
        case Struct(fields) =>
          found := false;
          var i := 0;
          while i < |fields| && !found
            invariant 0 <= i <= |fields| && seen == old(seen) + {t}
            invariant found ==> exists j | 0 <= j < |fields| :: FindsCallback(types, fields[j].typ, seen)
            invariant !found ==> forall j | 0 <= j < i :: !FindsCallback(types, fields[j].typ, seen)
          {
            found := ContainsCallback(fields[i].typ);
            i := i + 1;
          }
        case Interface(methods) =>
          found := false;
          var i := 0;
          while i < |methods| && !found
            invariant 0 <= i <= |methods| && seen == old(seen) + {t}
            invariant found ==> exists j | 0 <= j < |methods| :: MethodFinds(types, methods[j], seen)
            invariant !found ==> forall j | 0 <= j < i :: !MethodFinds(types, methods[j], seen)
          {
            found := MethodContainsCallback(methods[i]);
            i := i + 1;
          }
        case Named(u) =>
          found := ContainsCallback(u);
        case _ =>
          found := false;
      }
      seen := seen - {t};
    }

    method MethodContainsCallback(m: Method) returns (found: bool)
      requires seen <= types.Keys
      modifies this
      ensures seen == old(seen)
      ensures found <==> MethodFinds(types, m, seen)
      decreases types.Keys - seen, 2
    {
      hide FindsCallback;
      if !m.isSignature {
        return false;
      }
      found := false;
      var i := 0;
      while i < |m.params| && !found
        invariant 0 <= i <= |m.params| && seen == old(seen)
        invariant found ==> MethodFinds(types, m, seen)
        invariant !found ==> forall j | 0 <= j < i :: !FindsCallback(types, ParamType(types, m, j), seen)
      {
        found := ContainsCallback(ParamType(types, m, i));
        assert ParamType(types, m, i) in MethodTypes(types, m);
        i := i + 1;
      }
      var k := 0;
      while k < |m.results| && !found
        invariant 0 <= k <= |m.results| && seen == old(seen)
        invariant found ==> MethodFinds(types, m, seen)
        invariant !found ==> forall j | 0 <= j < |m.params| :: !FindsCallback(types, ParamType(types, m, j), seen)
        invariant !found ==> forall j | 0 <= j < k :: !FindsCallback(types, m.results[j], seen)
      {
        found := ContainsCallback(m.results[k]);
        assert m.results[k] in MethodTypes(types, m);
        k := k + 1;
      }
    }

    method ContainsChannel(t: TypeId) returns (found: bool)
      requires seen <= types.Keys
      modifies this
      ensures seen == old(seen)
      ensures found <==> FindsChannel(types, t, old(seen))
      decreases types.Keys - seen
    {
      FindsChannelUnfold(types, t, seen);
      hide FindsChannel;
      if t !in types || t in seen {
        return false;
      }
      seen := seen + {t};
      match types[t].shape {
        case Chan =>
          found := true;
        case Pointer(e) =>
          found := ContainsChannel(e);
        case Slice(e) =>
          found := ContainsChannel(e);
        case Array(e) =>
          found := ContainsChannel(e);
        case MapOf(k, e) =>
          found := ContainsChannel(k);
          if !found {
            found := ContainsChannel(e);
          }
        case Struct(fields) =>
          found := false;
          var i := 0;
          while i < |fields| && !found
            invariant 0 <= i <= |fields| && seen == old(seen) + {t}
            invariant found ==> exists j | 0 <= j < |fields| :: FindsChannel(types, fields[j].typ, seen)
            invariant !found ==> forall j | 0 <= j < i :: !FindsChannel(types, fields[j].typ, seen)
          {
            found := ContainsChannel(fields[i].typ);
            i := i + 1;
          }
        case Named(u) =>
          found := ContainsChannel(u);
        case _ =>
          found := false;
      }
      seen := seen - {t};
    }
  }

  ghost predicate MethodFinds(types: Types, m: Method, seen: set<TypeId>) {
    m.isSignature && exists c :: c in MethodTypes(types, m) && FindsCallback(types, c, seen)
  }

  /** The types an interface child comes from, method by method. */
  lemma ChildrenByShape(types: Types, t: TypeId)
    requires t in types
    ensures forall c :: c in CallbackChildren(types, t) <==>
              Holds(types, t, c) ||
              (types[t].shape.Interface? && exists i | 0 <= i < |types[t].shape.methods| ::
                 types[t].shape.methods[i].isSignature && c in MethodTypes(types, types[t].shape.methods[i]))
  {
    hide MethodTypes;
  }

  /** A value of the type holds values of the other type: it points to them, or they are its elements,
      keys, fields or its underlying form. */
  ghost predicate Holds(types: Types, t: TypeId, u: TypeId) {
    && t in types
    && var s := types[t].shape;
       || s in {Pointer(u), Slice(u), Array(u), Named(u)}
       || (s.MapOf? && (s.key == u || s.elem == u))
       || (s.Struct? && exists i: nat :: i < |s.fields| && s.fields[i].typ == u)
  }

  /** A method of the interface type mentions the other type. */
  ghost predicate Offers(types: Types, t: TypeId, u: TypeId) {
    && t in types && types[t].shape.Interface?
    && var methods := types[t].shape.methods;
       exists i: nat :: i < |methods| && methods[i].isSignature && Mentions(types, methods[i], u)
  }

  /** Each type of the list holds the next one, or, when interfaces are looked into, offers it. */
  ghost predicate Nested(types: Types, p: seq<TypeId>, calls: bool) {
    forall i | 0 <= i < |p| - 1 :: Holds(types, p[i], p[i + 1]) || (calls && Offers(types, p[i], p[i + 1]))
  }

  /** Somewhere in a value of type `t` there is one of the given shape. */
  ghost predicate Contains(types: Types, t: TypeId, calls: bool, shape: Shape) {
    exists p: seq<TypeId> :: p != [] && p[0] == t && Nested(types, p, calls) && p[|p| - 1] in types && types[p[|p| - 1]].shape == shape
  }

  lemma CallbackChildrenCases(types: Types, t: TypeId)
    requires t in types
    ensures forall c :: c in CallbackChildren(types, t) <==> Holds(types, t, c) || Offers(types, t, c)
  {
    hide MethodTypes, Mentions;
    forall m, c ensures c in MethodTypes(types, m) <==> Mentions(types, m, c) { MentionedIs(types, m, c); }
  }

  lemma ChannelChildrenCases(types: Types, t: TypeId)
    ensures forall c :: c in ChannelChildren(types, t) <==> Holds(types, t, c)
  {
  }

  /** A search along these steps finds a shape exactly if it is contained. */
  lemma FoundIsContained(types: Types, succ: TypeId -> set<TypeId>, t: TypeId, calls: bool, shape: Shape)
    requires forall x, c :: c in succ(x) <==> Holds(types, x, c) || (calls && Offers(types, x, c))
    ensures (exists x :: x in types && types[x].shape == shape && Reaches(succ, t, x)) <==> Contains(types, t, calls, shape)
  {
    hide Holds, Offers;
    if x :| x in types && types[x].shape == shape && Reaches(succ, t, x) {
      var p :| WalkFromTo(succ, p, t, x);
      assert forall i | 0 <= i < |p| - 1 :: p[i + 1] in succ(p[i]);
      assert Nested(types, p, calls);
    }
    if Contains(types, t, calls, shape) {
      var p: seq<TypeId> :| p != [] && p[0] == t && Nested(types, p, calls) && p[|p| - 1] in types && types[p[|p| - 1]].shape == shape;
      assert WalkFromTo(succ, p, t, p[|p| - 1]);
      assert Reaches(succ, t, p[|p| - 1]);
    }
  }

  // ----- The fresh searches the classifiers run

  /** True exactly when a function signature is reachable, whatever cycles the graph has. */
  method TypeContainsCallback(types: Types, t: TypeId) returns (found: bool)
    ensures found <==> exists x :: x in types && types[x].shape == Signature && Reaches(CallbackSucc(types), t, x)
    ensures found <==> Contains(types, t, true, Signature)
  {
    hide CallbackChildren, Holds, Offers, Contains, Reaches;
    var s := new Searcher(types);
    found := s.ContainsCallback(t);
    CallbackSupported(types);
    PathGuardExact(CallbackSucc(types), types.Keys, Signatures(types), t);
    forall x, c ensures c in CallbackSucc(types)(x) <==> Holds(types, x, c) || Offers(types, x, c) { CallbackStep(types, x, c); }
    FoundIsContained(types, CallbackSucc(types), t, true, Signature);
  }

  lemma CallbackStep(types: Types, x: TypeId, c: TypeId)
    ensures c in CallbackSucc(types)(x) <==> Holds(types, x, c) || Offers(types, x, c)
  {
    if x in types {
      CallbackChildrenCases(types, x);
    }
  }

  /** True exactly when a channel is reachable; interfaces are not looked into. */
  method TypeContainsChannel(types: Types, t: TypeId) returns (found: bool)
    ensures found <==> exists x :: x in types && types[x].shape == Chan && Reaches(ChannelSucc(types), t, x)
    ensures found <==> Contains(types, t, false, Chan)
  {
    hide ChannelChildren, Holds, Contains, Reaches;
    var s := new Searcher(types);
    found := s.ContainsChannel(t);
    ChannelSupported(types);
    PathGuardExact(ChannelSucc(types), types.Keys, Channels(types), t);
    forall x ensures forall c :: c in ChannelSucc(types)(x) <==> Holds(types, x, c) { ChannelChildrenCases(types, x); }
    FoundIsContained(types, ChannelSucc(types), t, false, Chan);
  }
}
