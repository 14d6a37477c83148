/** `classifyBoundaryType`: the worst class of data a value would carry across the cut. */
module BoundaryData {
  import opened Functions
  import opened TypeGraph
  import opened Reachability

  function Rank(c: BoundaryClass): nat {
    match c
    case Trivial => 0
    case Serializable => 1
    case Reconstructible => 2
    case ProxyRequired => 3
    case BoundaryInfeasible => 4
  }

  /** The class is at least as bad as rank `r`. */
  predicate AtRank(c: BoundaryClass, r: nat) {
    Rank(c) >= r
  }

  function Worse(a: BoundaryClass, b: BoundaryClass): (c: BoundaryClass)
    ensures Rank(c) == if Rank(a) >= Rank(b) then Rank(a) else Rank(b)
  {
    if Rank(b) > Rank(a) then b else a
  }

  /** `knownBoundaryType`: the name tables' answer; a missing type is infeasible. */
  function Known(types: Types, t: TypeId): Option<BoundaryClass> {
    if t !in types then Some(BoundaryInfeasible) else types[t].known
  }

  predicate IsByte(types: Types, t: TypeId) {
    t in types && types[t].shape == Basic(Byte)
  }

  predicate IsSync(types: Types, t: TypeId) {
    t in types && types[t].sync
  }

  predicate NeedsSerialization(types: Types, f: Field) {
    !IsSync(types, f.typ) && !f.exported && !f.embedded
  }

  // ----- The declarative reading: what a type contributes itself, and where it sends the search

  function FieldsRank(types: Types, fields: seq<Field>): nat {
    if exists f :: f in fields && NeedsSerialization(types, f) then 1 else 0
  }

  /** Synchronisation fields are skipped: the remote side starts with fresh ones. */
  function FieldTypes(types: Types, fields: seq<Field>): set<TypeId> {
    set f | f in fields && !IsSync(types, f.typ) :: f.typ
  }

  function MethodsRank(methods: seq<Method>): nat {
    if exists m :: m in methods && m.isSignature && m.proxyLike then 4 else 1
  }

  function PayloadTypes(types: Types, methods: seq<Method>): set<TypeId> {
    set m, c | m in methods && m.isSignature && !m.proxyLike && c in MethodTypes(types, m) :: c
  }

  lemma FieldsOneMore(types: Types, fields: seq<Field>, f: Field)
    ensures FieldsRank(types, fields + [f]) == if NeedsSerialization(types, f) then 1 else FieldsRank(types, fields)
    ensures FieldTypes(types, fields + [f]) ==
              FieldTypes(types, fields) + if IsSync(types, f.typ) then {} else {f.typ}
  {
    assert forall g :: g in fields + [f] <==> g in fields || g == f;
    if NeedsSerialization(types, f) {
      assert f in fields + [f];
    }
  }

  lemma MethodsOneMore(types: Types, methods: seq<Method>, m: Method)
    ensures MethodsRank(methods + [m]) == if m.isSignature && m.proxyLike then 4 else MethodsRank(methods)
    ensures PayloadTypes(types, methods + [m]) ==
              PayloadTypes(types, methods) + if m.isSignature && !m.proxyLike then MethodTypes(types, m) else {}
  {
    hide MethodTypes;
    assert forall g :: g in methods + [m] <==> g in methods || g == m;
    assert m in methods + [m];
  }

  lemma NothingYet(types: Types)
    ensures FieldsRank(types, []) == 0 && FieldTypes(types, []) == {}
    ensures MethodsRank([]) == 1 && PayloadTypes(types, []) == {}
  {
  }

  /** The rank a type has before anything it refers to is looked at. */
  function OwnRank(types: Types, t: TypeId): nat {
    var known := Known(types, t);
    if known.Some? then Rank(known.value) else
    match types[t].shape
    case Basic(kind) => if kind.UnsafePointer? then 4 else if kind.Untyped? then 1 else 0
    case Signature => 4
    case Chan => 4
    case Pointer(e) => if Known(types, e).Some? then Rank(Known(types, e).value) else 1
    case Slice(e) => if IsByte(types, e) then 0 else 1
    case Array(e) => if IsByte(types, e) then 0 else 1
    case MapOf(_, _) => 1
    case Struct(fields) => FieldsRank(types, fields)
    case Interface(methods) => MethodsRank(methods)
    case Named(u) => if u in types then 0 else 1
    case TypeParam => 1
    case Unknown => 1
  }

  function Followed(types: Types, t: TypeId): set<TypeId> {
    if Known(types, t).Some? then {} else
    match types[t].shape
    case Pointer(e) => if Known(types, e).Some? then {} else {e}
    case Slice(e) => if IsByte(types, e) then {} else {e}
    case Array(e) => if IsByte(types, e) then {} else {e}
    case MapOf(k, e) => {k, e}
    case Struct(fields) => FieldTypes(types, fields)
    case Interface(methods) => PayloadTypes(types, methods)
    case Named(u) => if u in types then {u} else {}
    case _ => {}
  }

  function BoundarySucc(types: Types): TypeId -> set<TypeId> {
    t => Followed(types, t)
  }

  ghost function AtLeast(types: Types, r: nat): iset<TypeId> {
    iset t | OwnRank(types, t) >= r
  }

  /** The search verdict for one rank. Ranks above Serializable come only from types; a type met
      again on its own path answers Serializable, so at rank one a repetition counts as well. */
  ghost predicate Level(types: Types, r: nat, t: TypeId, seen: set<TypeId>) {
    if r <= 1 then HitsOrLoops(BoundarySucc(types), types.Keys, AtLeast(types, r), t, seen)
    else Hits(BoundarySucc(types), types.Keys, AtLeast(types, r), t, seen)
  }

  ghost predicate SomeLevel(types: Types, r: nat, ts: set<TypeId>, seen: set<TypeId>) {
    exists c :: c in ts && Level(types, r, c, seen)
  }

  /** The class is the one whose rank passes every level below it and no level above. */
  ghost predicate Classified(types: Types, t: TypeId, seen: set<TypeId>, c: BoundaryClass) {
    forall r | 1 <= r <= 4 :: AtRank(c, r) <==> Level(types, r, t, seen)
  }

  /** The worst of a base rank and of the types of a set. */
  ghost predicate WorstOf(types: Types, base: nat, ts: set<TypeId>, seen: set<TypeId>, c: BoundaryClass) {
    forall r | 1 <= r <= 4 :: AtRank(c, r) <==> base >= r || SomeLevel(types, r, ts, seen)
  }

  lemma LevelUnfold(types: Types, r: nat, t: TypeId, seen: set<TypeId>)
    requires seen <= types.Keys && 1 <= r <= 4
    ensures Level(types, r, t, seen) <==>
              if t in seen then r == 1
              else OwnRank(types, t) >= r || SomeLevel(types, r, Followed(types, t), seen + {t})
  {
    hide Followed;
    assert t !in types ==> OwnRank(types, t) == 4;
    assert BoundarySucc(types)(t) == Followed(types, t);
  }

  /** A missing type is infeasible, and a type met on its own path is serializable. */
  lemma GuardClass(types: Types, t: TypeId, seen: set<TypeId>)
    requires seen <= types.Keys
    ensures t !in types ==> Classified(types, t, seen, BoundaryInfeasible)
    ensures t in seen ==> Classified(types, t, seen, Serializable)
  {
    hide Level, SomeLevel, Followed;
    forall r | 1 <= r <= 4
      ensures t !in types ==> Level(types, r, t, seen)
      ensures t in seen ==> (Level(types, r, t, seen) <==> r == 1)
    {
      LevelUnfold(types, r, t, seen);
    }
  }

  lemma WorstOfSelf(types: Types, t: TypeId, seen: set<TypeId>, c: BoundaryClass)
    requires seen <= types.Keys && t !in seen
    requires WorstOf(types, OwnRank(types, t), Followed(types, t), seen + {t}, c)
    ensures Classified(types, t, seen, c)
  {
    hide Level, SomeLevel, Followed, OwnRank;
    forall r | 1 <= r <= 4
      ensures AtRank(c, r) <==> Level(types, r, t, seen)
    {
      LevelUnfold(types, r, t, seen);
    }
  }

  lemma WorstOfMore(types: Types, base: nat, ts: set<TypeId>, seen: set<TypeId>, worst: BoundaryClass, t: TypeId, c: BoundaryClass)
    requires WorstOf(types, base, ts, seen, worst) && Classified(types, t, seen, c)
    ensures WorstOf(types, base, ts + {t}, seen, Worse(worst, c))
  {
    hide Level;
    forall r | 1 <= r <= 4
      ensures SomeLevel(types, r, ts + {t}, seen) <==> SomeLevel(types, r, ts, seen) || Level(types, r, t, seen)
    {
    }
  }

  lemma WorstOfBase(types: Types, base: nat, ts: set<TypeId>, seen: set<TypeId>, worst: BoundaryClass, c: BoundaryClass)
    requires WorstOf(types, base, ts, seen, worst)
    ensures WorstOf(types, if Rank(c) > base then Rank(c) else base, ts, seen, Worse(worst, c))
  {
    hide Level, SomeLevel;
    var w, b := Worse(worst, c), if Rank(c) > base then Rank(c) else base;
    forall r | 1 <= r <= 4
      ensures AtRank(w, r) <==> b >= r || SomeLevel(types, r, ts, seen)
    {
      assert AtRank(w, r) <==> AtRank(worst, r) || AtRank(c, r);
    }
  }

  lemma WorstOfNone(types: Types, seen: set<TypeId>, c: BoundaryClass)
    ensures WorstOf(types, Rank(c), {}, seen, c)
  {
    hide Level;
  }

  // ----- The classifier

  class Classifier {
    const types: Types
    /** The types on the current path: inserted on entry, deleted on exit. */
    var seen: set<TypeId>

    constructor (types: Types)
      ensures this.types == types && seen == {}
    {
      this.types := types;
      seen := {};
    }

    method ClassifyType(t: TypeId) returns (c: BoundaryClass)
      requires seen <= types.Keys
      modifies this
      ensures seen == old(seen)
      ensures Classified(types, t, old(seen), c)
      decreases types.Keys - seen, 2
    {
      hide Level, SomeLevel, WorstOf, Classified, OwnRank, Followed;
      GuardClass(types, t, seen);
      if t !in types {
        return BoundaryInfeasible;
      }
      if t in seen {
        return Serializable;
      }
      seen := seen + {t};
      c := ClassifyNew(t);
      seen := seen - {t};
      assert old(seen) + {t} - {t} == old(seen);
      WorstOfSelf(types, t, old(seen), c);
    }

    /** The body of the classification once the type is on the path. */
    method ClassifyNew(t: TypeId) returns (c: BoundaryClass)
      requires seen <= types.Keys && t in seen
      modifies this
      ensures seen == old(seen)
      ensures WorstOf(types, OwnRank(types, t), Followed(types, t), seen, c)
      decreases types.Keys - seen, 4
    {
      hide Level, SomeLevel, WorstOf, Classified;
      var known := Known(types, t);
      if known.Some? {
        c := known.value;
        WorstOfNone(types, seen, c);
        return;
      }
      match types[t].shape {
        case Basic(kind) =>
          c := if kind.UnsafePointer? then BoundaryInfeasible else if kind.Untyped? then Serializable else Trivial;
          WorstOfNone(types, seen, c);
        case Signature =>
          c := BoundaryInfeasible;
          WorstOfNone(types, seen, c);
        case Chan =>
          c := BoundaryInfeasible;
          WorstOfNone(types, seen, c);
        case Pointer(e) =>
          var elemKnown := Known(types, e);
          if elemKnown.Some? {
            c := elemKnown.value;
            WorstOfNone(types, seen, c);
          } else {
            c := ClassifyType(e);
            WorstOfNone(types, seen, Serializable);
            WorstOfMore(types, 1, {}, seen, Serializable, e, c);
            if c == Trivial {
              c := Serializable;
            }
            assert {} + {e} == {e};
          }
        case Slice(e) =>
          c := ClassifyElement(e);
        case Array(e) =>
          c := ClassifyElement(e);
        case MapOf(k, e) =>
          var keyClass := ClassifyType(k);
          var elemClass := ClassifyType(e);
          c := Worse(Serializable, Worse(keyClass, elemClass));
          WorstOfNone(types, seen, Serializable);
          WorstOfMore(types, 1, {}, seen, Serializable, k, keyClass);
          WorstOfMore(types, 1, {} + {k}, seen, Worse(Serializable, keyClass), e, elemClass);
          assert {} + {k} + {e} == {k, e};
          assert c == Worse(Worse(Serializable, keyClass), elemClass);
        case Struct(fields) =>
          c := ClassifyStruct(t, fields);
        case Interface(methods) =>
          c := ClassifyInterface(t, methods);
        case Named(u) =>
          if u in types {
            c := ClassifyType(u);
            WorstOfNone(types, seen, Trivial);
            WorstOfMore(types, 0, {}, seen, Trivial, u, c);
            assert {} + {u} == {u};
            assert Worse(Trivial, c) == c;
          } else {
            c := Serializable;
            WorstOfNone(types, seen, c);
          }
        case TypeParam =>
          c := Serializable;
          WorstOfNone(types, seen, c);
        case Unknown =>
          c := Serializable;
          WorstOfNone(types, seen, c);
      }
    }

    method ClassifyElement(e: TypeId) returns (c: BoundaryClass)
      requires seen <= types.Keys
      modifies this
      ensures seen == old(seen)
      ensures WorstOf(types, if IsByte(types, e) then 0 else 1, if IsByte(types, e) then {} else {e}, seen, c)
      decreases types.Keys - seen, 3
    {
      hide Level, SomeLevel, WorstOf, Classified;
      if IsByte(types, e) {
        WorstOfNone(types, seen, Trivial);
        return Trivial;
      }
      c := ClassifyType(e);
      WorstOfNone(types, seen, Serializable);
      WorstOfMore(types, 1, {}, seen, Serializable, e, c);
      assert {} + {e} == {e};
      c := Worse(Serializable, c);
    }

    method ClassifyStruct(t: TypeId, fields: seq<Field>) returns (c: BoundaryClass)
      requires seen <= types.Keys && t in types && types[t].shape == Struct(fields) && Known(types, t).None?
      modifies this
      ensures seen == old(seen)
      ensures WorstOf(types, OwnRank(types, t), Followed(types, t), seen, c)
      decreases types.Keys - seen, 3
    {
      hide Level, SomeLevel, WorstOf, Classified, FieldsRank, FieldTypes;
      NothingYet(types);
      WorstOfNone(types, seen, Trivial);
      if |fields| == 0 {
        return Trivial;
      }
      var worst := Trivial;
      var allExportedTrivial := true;
      var i := 0;
      ghost var done: set<TypeId> := {};
      ghost var base: nat := 0;
      while i < |fields|
        invariant 0 <= i <= |fields| && seen == old(seen)
        invariant done == FieldTypes(types, fields[..i])
        invariant base == FieldsRank(types, fields[..i]) <= 1
        invariant WorstOf(types, base, done, seen, worst)
        invariant allExportedTrivial <==> worst == Trivial
      {
        var field := fields[i];
        FieldsOneMore(types, fields[..i], field);
        assert fields[..i + 1] == fields[..i] + [field];
        i := i + 1;
        if IsSync(types, field.typ) {
          continue;
        }
        var itsClass := ClassifyType(field.typ);
        WorstOfMore(types, base, done, seen, worst, field.typ, itsClass);
        ghost var joined := Worse(worst, itsClass);
        done := done + {field.typ};
        if !field.exported && !field.embedded {
          WorstOfBase(types, base, done, seen, joined, Serializable);
          base := 1;
          joined := Worse(joined, Serializable);
          if itsClass == Trivial {
            itsClass := Serializable;
          }
        }
        if itsClass != Trivial || (!field.exported && !field.embedded) {
          allExportedTrivial := false;
        }
        worst := Worse(worst, itsClass);
        assert worst == joined;
      }
      assert fields[..|fields|] == fields;
      if allExportedTrivial {
        return Trivial;
      }
      c := Worse(Serializable, worst);
      assert c == worst;
    }

    method ClassifyInterface(t: TypeId, methods: seq<Method>) returns (c: BoundaryClass)
      requires seen <= types.Keys && t in types && types[t].shape == Interface(methods) && Known(types, t).None?
      modifies this
      ensures seen == old(seen)
      ensures WorstOf(types, OwnRank(types, t), Followed(types, t), seen, c)
      decreases types.Keys - seen, 3
    {
      hide Level, SomeLevel, WorstOf, Classified, MethodTypes, PayloadTypes, MethodsRank;
      NothingYet(types);
      WorstOfNone(types, seen, Serializable);
      if |methods| == 0 {
        return Serializable;
      }
      var worst := Serializable;
      var i := 0;
      ghost var done: set<TypeId> := {};
      ghost var base: nat := 1;
      while i < |methods|
        invariant 0 <= i <= |methods| && seen == old(seen)
        invariant done == PayloadTypes(types, methods[..i])
        invariant 1 <= base == MethodsRank(methods[..i]) <= 4
        invariant WorstOf(types, base, done, seen, worst)
        invariant Rank(worst) >= 1
      {
        var m := methods[i];
        MethodsOneMore(types, methods[..i], m);
        assert methods[..i + 1] == methods[..i] + [m];
        i := i + 1;
        if !m.isSignature {
          continue;
        }
        if m.proxyLike {
          WorstOfBase(types, base, done, seen, worst, BoundaryInfeasible);
          base := 4;
          worst := Worse(worst, BoundaryInfeasible);
          continue;
        }
        var itsClass := ClassifyMethod(m);
        WorstOfUnion(types, base, done, MethodTypes(types, m), seen, worst, itsClass);
        done := done + MethodTypes(types, m);
        worst := Worse(worst, itsClass);
      }
      assert methods[..|methods|] == methods;
      return worst;
    }

    method ClassifyMethod(m: Method) returns (c: BoundaryClass)
      requires seen <= types.Keys
      modifies this
      ensures seen == old(seen)
      ensures WorstOf(types, 1, MethodTypes(types, m), seen, c)
      decreases types.Keys - seen, 3, 0
    {
      hide Level, SomeLevel, WorstOf, Classified;
      var worst := Serializable;
      WorstOfNone(types, seen, Serializable);
      ghost var done: set<TypeId> := {};
      for i := 0 to |m.params|
        invariant seen == old(seen)
        invariant done == set j | 0 <= j < i :: ParamType(types, m, j)
        invariant WorstOf(types, 1, done, seen, worst)
      {
        var itsClass := ClassifyType(ParamType(types, m, i));
        WorstOfMore(types, 1, done, seen, worst, ParamType(types, m, i), itsClass);
        done := done + {ParamType(types, m, i)};
        worst := Worse(worst, itsClass);
      }
      ghost var ps := done;
      for i := 0 to |m.results|
        invariant seen == old(seen)
        invariant done == ps + set t | t in m.results[..i]
        invariant WorstOf(types, 1, done, seen, worst)
      {
        var itsClass := ClassifyType(m.results[i]);
        WorstOfMore(types, 1, done, seen, worst, m.results[i], itsClass);
        done := done + {m.results[i]};
        worst := Worse(worst, itsClass);
        assert m.results[..i + 1] == m.results[..i] + [m.results[i]];
      }
      assert m.results[..|m.results|] == m.results;
      assert done == MethodTypes(types, m);
      return worst;
    }
  }

  lemma WorstOfUnion(types: Types, base: nat, ts: set<TypeId>, more: set<TypeId>, seen: set<TypeId>, worst: BoundaryClass, c: BoundaryClass)
    requires WorstOf(types, base, ts, seen, worst) && WorstOf(types, 1, more, seen, c) && base >= 1
    ensures WorstOf(types, base, ts + more, seen, Worse(worst, c))
  {
    hide Level;
    forall r | 1 <= r <= 4
      ensures SomeLevel(types, r, ts + more, seen) <==> SomeLevel(types, r, ts, seen) || SomeLevel(types, r, more, seen)
    {
      if SomeLevel(types, r, ts, seen) {
        var x :| x in ts && Level(types, r, x, seen);
        assert x in ts + more;
      }
      if SomeLevel(types, r, more, seen) {
        var x :| x in more && Level(types, r, x, seen);
        assert x in ts + more;
      }
    }
    hide SomeLevel;
  }

  // ----- What the class of a whole function boundary means

  lemma BoundarySupported(types: Types)
    ensures Supported(BoundarySucc(types), types.Keys)
  {
  }

  /** A type whose own rank is at least `r` is reachable. */
  ghost predicate ReachesRank(types: Types, t: TypeId, r: nat) {
    exists x :: OwnRank(types, x) >= r && Reaches(BoundarySucc(types), t, x)
  }

  /** Cutting cycles loses nothing above Serializable: from an empty path a type classifies at
      rank two or more exactly when a type of that own rank is reachable, and it is better than
      Serializable exactly when neither a type of rank one nor a cycle is reachable. */
  lemma ClassIsWorstReachable(types: Types, t: TypeId, c: BoundaryClass)
    requires Classified(types, t, {}, c)
    ensures forall r | 2 <= r <= 4 :: AtRank(c, r) <==> ReachesRank(types, t, r)
    ensures c == Trivial <==> !ReachesRank(types, t, 1) && !ReachesCycle(BoundarySucc(types), t)
  {
    hide Followed, OwnRank, Reaches, ReachesCycle, BoundarySucc, Hits, HitsOrLoops;
    BoundarySupported(types);
    forall r | 1 <= r <= 4
      ensures r >= 2 ==> (Level(types, r, t, {}) <==> ReachesRank(types, t, r))
      ensures r == 1 ==> (Level(types, r, t, {}) <==> ReachesRank(types, t, r) || ReachesCycle(BoundarySucc(types), t))
    {
      PathGuardExact(BoundarySucc(types), types.Keys, AtLeast(types, r), t);
      PathGuardOrCycle(BoundarySucc(types), types.Keys, AtLeast(types, r), t);
    }
    hide Level, ReachesRank;
    assert Level(types, 1, t, {}) <==> AtRank(c, 1);
  }

  // ----- The same, shape by shape

  /** The name tables give the type this class; a missing type is infeasible. */
  predicate HasClass(types: Types, t: TypeId, c: BoundaryClass) {
    if t in types then types[t].known == Some(c) else c == BoundaryInfeasible
  }

  predicate Unclassed(types: Types, t: TypeId) {
    t in types && types[t].known.None?
  }

  /** A value of a type without a class of its own carries values of the other type. */
  ghost predicate Carries(types: Types, t: TypeId, u: TypeId) {
    && Unclassed(types, t)
    && var s := types[t].shape;
       || (s == Pointer(u) && Unclassed(types, u))
       || ((s == Slice(u) || s == Array(u)) && !(u in types && types[u].shape == Basic(Byte)))
       || (s.MapOf? && (s.key == u || s.elem == u))
       || (s.Struct? && !(u in types && types[u].sync) && exists i: nat :: i < |s.fields| && s.fields[i].typ == u)
       || (s.Interface? && exists i: nat :: i < |s.methods| && Calls(types, s.methods[i], u))
       || (s == Named(u) && u in types)
  }

  ghost predicate Calls(types: Types, m: Method, u: TypeId) {
    m.isSignature && !m.proxyLike && Mentions(types, m, u)
  }

  /** No value of the type can cross the cut: a channel, a function, an unsafe pointer or a streaming interface. */
  ghost predicate Uncuttable(types: Types, t: TypeId) {
    && Unclassed(types, t)
    && var s := types[t].shape;
       || s == Chan || s == Signature || s == Basic(UnsafePointer)
       || (s.Interface? && exists i: nat :: i < |s.methods| && s.methods[i].isSignature && s.methods[i].proxyLike)
  }

  /** The type has the class by name, or points to a type that has. */
  predicate Bears(types: Types, t: TypeId, c: BoundaryClass) {
    HasClass(types, t, c) || (Unclassed(types, t) && types[t].shape.Pointer? && HasClass(types, types[t].shape.elem, c))
  }

  ghost predicate Linked(types: Types, p: seq<TypeId>) {
    forall i | 0 <= i < |p| - 1 :: Carries(types, p[i], p[i + 1])
  }

  /** A value of type `t` carries, at whatever depth, values of type `x`. */
  ghost predicate Inside(types: Types, t: TypeId, x: TypeId) {
    exists p: seq<TypeId> :: p != [] && p[0] == t && p[|p| - 1] == x && Linked(types, p)
  }

  /** Something of type `x` would cross the cut as a parameter or a result. */
  ghost predicate Crosses(types: Types, m: Method, x: TypeId) {
    exists t :: Mentions(types, m, t) && Inside(types, t, x)
  }

  ghost predicate InfeasibleCrosses(types: Types, m: Method) {
    exists x :: Crosses(types, m, x) && (Uncuttable(types, x) || Bears(types, x, BoundaryInfeasible))
  }

  ghost predicate ClassCrosses(types: Types, m: Method, c: BoundaryClass) {
    exists x :: Crosses(types, m, x) && Bears(types, x, c)
  }

  /** A value of the type is trivial as far as the type itself goes. */
  ghost predicate Easy(types: Types, t: TypeId) {
    && t in types
    && if types[t].known.Some? then types[t].known == Some(Trivial) else
       match types[t].shape
       case Basic(kind) => kind == Value || kind == Byte
       case Slice(e) => e in types && types[e].shape == Basic(Byte)
       case Array(e) => e in types && types[e].shape == Basic(Byte)
       case Pointer(e) => e in types && types[e].known == Some(Trivial)
       case Struct(fields) =>
         forall i | 0 <= i < |fields| :: fields[i].exported || fields[i].embedded || (fields[i].typ in types && types[fields[i].typ].sync)
       case Named(u) => u in types
       case _ => false
  }

  /** The type carries itself. */
  ghost predicate Recursive(types: Types, t: TypeId) {
    exists u :: Carries(types, t, u) && Inside(types, u, t)
  }

  lemma CarriedIsFollowed(types: Types, t: TypeId, u: TypeId)
    ensures u in Followed(types, t) <==> Carries(types, t, u)
  {
    hide Mentions, MethodTypes;
    forall m ensures u in MethodTypes(types, m) <==> Mentions(types, m, u) { MentionedIs(types, m, u); }
    if Unclassed(types, t) && types[t].shape.Interface? {
      PayloadIs(types, types[t].shape.methods, u);
    }
    if Unclassed(types, t) && types[t].shape.Struct? {
      var fields := types[t].shape.fields;
      if i: nat :| i < |fields| && fields[i].typ == u {
        assert fields[i] in fields;
      }
    }
  }

  lemma PayloadIs(types: Types, methods: seq<Method>, u: TypeId)
    ensures u in PayloadTypes(types, methods) <==> exists i: nat :: i < |methods| && Calls(types, methods[i], u)
  {
    hide Mentions, MethodTypes;
    forall m ensures u in MethodTypes(types, m) <==> Mentions(types, m, u) { MentionedIs(types, m, u); }
    if i: nat :| i < |methods| && Calls(types, methods[i], u) {
      assert methods[i] in methods;
    }
  }

  lemma RankIsShape(types: Types, t: TypeId)
    ensures OwnRank(types, t) >= 4 <==> Uncuttable(types, t) || Bears(types, t, BoundaryInfeasible)
    ensures OwnRank(types, t) == 3 <==> Bears(types, t, ProxyRequired)
    ensures OwnRank(types, t) == 2 <==> Bears(types, t, Reconstructible)
    ensures OwnRank(types, t) == 0 <==> Easy(types, t)
  {
    if Unclassed(types, t) && types[t].shape.Interface? {
      var methods := types[t].shape.methods;
      if i: nat :| i < |methods| && methods[i].isSignature && methods[i].proxyLike {
        assert methods[i] in methods;
      }
    }
    if Unclassed(types, t) && types[t].shape.Struct? {
      var fields := types[t].shape.fields;
      forall i | 0 <= i < |fields|
        ensures fields[i] in fields
      {
      }
    }
  }

  lemma LinksAreSteps(types: Types, p: seq<TypeId>)
    requires p != []
    ensures Walk(BoundarySucc(types), p) <==> Linked(types, p)
  {
    hide Followed, Carries;
    forall i | 0 <= i < |p| - 1
      ensures p[i + 1] in BoundarySucc(types)(p[i]) <==> Carries(types, p[i], p[i + 1])
    {
      CarriedIsFollowed(types, p[i], p[i + 1]);
    }
  }

  lemma InsideIsReached(types: Types, t: TypeId, x: TypeId)
    ensures Inside(types, t, x) <==> Reaches(BoundarySucc(types), t, x)
  {
    hide Followed, Linked, Walk;
    if Reaches(BoundarySucc(types), t, x) {
      var p :| WalkFromTo(BoundarySucc(types), p, t, x);
      WalkIsSome(types, p);
      LinksAreSteps(types, p);
    }
    if Inside(types, t, x) {
      var p: seq<TypeId> :| p != [] && p[0] == t && p[|p| - 1] == x && Linked(types, p);
      LinksAreSteps(types, p);
      assert WalkFromTo(BoundarySucc(types), p, t, x);
    }
  }

  lemma WalkIsSome(types: Types, p: seq<TypeId>)
    requires Walk(BoundarySucc(types), p)
    ensures p != []
  {
  }

  lemma CrossesRank(types: Types, m: Method, r: nat)
    ensures SomeReachesRank(types, MethodTypes(types, m), r) <==> exists x :: Crosses(types, m, x) && OwnRank(types, x) >= r
  {
    hide MethodTypes, OwnRank, Reaches, Inside, Mentions;
    forall t, x
      ensures Inside(types, t, x) <==> Reaches(BoundarySucc(types), t, x)
      ensures t in MethodTypes(types, m) <==> Mentions(types, m, t)
    {
      InsideIsReached(types, t, x);
      MentionedIs(types, m, t);
    }
    if SomeReachesRank(types, MethodTypes(types, m), r) {
      var t :| t in MethodTypes(types, m) && ReachesRank(types, t, r);
      var x :| OwnRank(types, x) >= r && Reaches(BoundarySucc(types), t, x);
      assert Mentions(types, m, t) && Inside(types, t, x);
      assert Crosses(types, m, x);
    }
    if x :| Crosses(types, m, x) && OwnRank(types, x) >= r {
      var t :| Mentions(types, m, t) && Inside(types, t, x);
      assert t in MethodTypes(types, m) && ReachesRank(types, t, r);
    }
  }

  lemma CycleIsRecursive(types: Types, t: TypeId)
    ensures ReachesCycle(BoundarySucc(types), t) <==> exists x :: Inside(types, t, x) && Recursive(types, x)
  {
    hide Followed, Carries, Reaches, Inside;
    forall u, x
      ensures Inside(types, u, x) <==> Reaches(BoundarySucc(types), u, x)
      ensures u in BoundarySucc(types)(x) <==> Carries(types, x, u)
    {
      InsideIsReached(types, u, x);
      CarriedIsFollowed(types, x, u);
    }
    if ReachesCycle(BoundarySucc(types), t) {
      var x, y :| Reaches(BoundarySucc(types), t, x) && y in BoundarySucc(types)(x) && Reaches(BoundarySucc(types), y, x);
      assert Inside(types, t, x) && Carries(types, x, y) && Inside(types, y, x);
      assert Recursive(types, x);
    }
    if x :| Inside(types, t, x) && Recursive(types, x) {
      var y :| Carries(types, x, y) && Inside(types, y, x);
      assert Reaches(BoundarySucc(types), t, x) && y in BoundarySucc(types)(x) && Reaches(BoundarySucc(types), y, x);
    }
  }

  ghost predicate AllPlain(types: Types, ts: set<TypeId>) {
    forall t | t in ts :: Plain(types, t)
  }

  /** What crosses is trivial as far as it goes and never carries itself. */
  ghost predicate OnlyEasyCrosses(types: Types, m: Method) {
    forall x | Crosses(types, m, x) :: Easy(types, x) && !Recursive(types, x)
  }

  lemma PlainIsEasy(types: Types, t: TypeId)
    ensures Plain(types, t) <==> forall x | Inside(types, t, x) :: Easy(types, x) && !Recursive(types, x)
  {
    hide OwnRank, Reaches, Inside, Easy, ReachesCycle, Recursive;
    CycleIsRecursive(types, t);
    forall x
      ensures Inside(types, t, x) <==> Reaches(BoundarySucc(types), t, x)
      ensures OwnRank(types, x) >= 1 <==> !Easy(types, x)
    {
      InsideIsReached(types, t, x);
      RankIsShape(types, x);
    }
    if forall x | Inside(types, t, x) :: Easy(types, x) && !Recursive(types, x) {
      forall x | Reaches(BoundarySucc(types), t, x)
        ensures OwnRank(types, x) == 0
      {
        assert Inside(types, t, x);
      }
    }
    if Plain(types, t) {
      forall x | Inside(types, t, x)
        ensures Easy(types, x) && !Recursive(types, x)
      {
        assert Reaches(BoundarySucc(types), t, x);
      }
    }
  }

  lemma AllPlainIsEasy(types: Types, m: Method)
    ensures AllPlain(types, MethodTypes(types, m)) <==> OnlyEasyCrosses(types, m)
  {
    hide MethodTypes, Plain, Inside, Easy, Recursive, Mentions;
    forall t
      ensures t in MethodTypes(types, m) <==> Mentions(types, m, t)
      ensures Plain(types, t) <==> forall x | Inside(types, t, x) :: Easy(types, x) && !Recursive(types, x)
    {
      MentionedIs(types, m, t);
      PlainIsEasy(types, t);
    }
    if AllPlain(types, MethodTypes(types, m)) {
      forall x | Crosses(types, m, x)
        ensures Easy(types, x) && !Recursive(types, x)
      {
        var t :| Mentions(types, m, t) && Inside(types, t, x);
        assert t in MethodTypes(types, m);
      }
    }
    if OnlyEasyCrosses(types, m) {
      forall t | t in MethodTypes(types, m)
        ensures Plain(types, t)
      {
        assert Mentions(types, m, t);
        assert forall x | Inside(types, t, x) :: Crosses(types, m, x);
      }
    }
  }

  ghost predicate AtLeastCrosses(types: Types, m: Method, r: nat) {
    exists x :: Crosses(types, m, x) && OwnRank(types, x) >= r
  }

  lemma RanksCross(types: Types, m: Method)
    ensures AtLeastCrosses(types, m, 4) <==> InfeasibleCrosses(types, m)
    ensures AtLeastCrosses(types, m, 3) <==> InfeasibleCrosses(types, m) || ClassCrosses(types, m, ProxyRequired)
    ensures AtLeastCrosses(types, m, 2) <==>
              InfeasibleCrosses(types, m) || ClassCrosses(types, m, ProxyRequired) || ClassCrosses(types, m, Reconstructible)
  {
    hide OwnRank, Crosses, Uncuttable, Bears;
    forall x
      ensures OwnRank(types, x) >= 4 <==> Uncuttable(types, x) || Bears(types, x, BoundaryInfeasible)
      ensures OwnRank(types, x) == 3 <==> Bears(types, x, ProxyRequired)
      ensures OwnRank(types, x) == 2 <==> Bears(types, x, Reconstructible)
    {
      RankIsShape(types, x);
    }
  }

  /** The class is infeasible exactly if something infeasible crosses; failing that it asks for a proxy or
      a reconstruction exactly if a type known to ask for one crosses; and it is trivial exactly if
      nothing crosses that is not. */
  ghost predicate TellsWhatCrosses(types: Types, m: Method, c: BoundaryClass) {
    && (c == BoundaryInfeasible <==> InfeasibleCrosses(types, m))
    && (c == ProxyRequired <==> !InfeasibleCrosses(types, m) && ClassCrosses(types, m, ProxyRequired))
    && (c == Reconstructible <==>
          !InfeasibleCrosses(types, m) && !ClassCrosses(types, m, ProxyRequired) && ClassCrosses(types, m, Reconstructible))
    && (c == Trivial <==> OnlyEasyCrosses(types, m))
  }

  lemma RanksTell(types: Types, m: Method, c: BoundaryClass)
    requires forall r | 2 <= r <= 4 :: AtRank(c, r) <==> SomeReachesRank(types, MethodTypes(types, m), r)
    requires c == Trivial <==> AllPlain(types, MethodTypes(types, m))
    ensures TellsWhatCrosses(types, m, c)
  {
    hide SomeReachesRank, MethodTypes, AllPlain, OnlyEasyCrosses, InfeasibleCrosses, ClassCrosses;
    forall r | 2 <= r <= 4
      ensures AtRank(c, r) <==> AtLeastCrosses(types, m, r)
    {
      CrossesRank(types, m, r);
    }
    RanksCross(types, m);
    AllPlainIsEasy(types, m);
    hide AtLeastCrosses;
    assert AtRank(c, 4) <==> AtLeastCrosses(types, m, 4);
    assert AtRank(c, 3) <==> AtLeastCrosses(types, m, 3);
    assert AtRank(c, 2) <==> AtLeastCrosses(types, m, 2);
  }

  /** The class of all parameters and results of a function; a missing signature is infeasible. */
  method ClassifyBoundaryData(types: Types, fn: Option<Method>) returns (c: BoundaryClass)
    ensures fn.None? ==> c == BoundaryInfeasible
    ensures fn.Some? ==> forall r | 2 <= r <= 4 :: AtRank(c, r) <==> SomeReachesRank(types, MethodTypes(types, fn.value), r)
    ensures fn.Some? ==> (c == Trivial <==> forall t | t in MethodTypes(types, fn.value) :: Plain(types, t))
    ensures fn.Some? ==> TellsWhatCrosses(types, fn.value, c)
  {
    hide Classified, ReachesRank, SomeReachesRank, MethodTypes, Plain, TellsWhatCrosses;
    if fn.None? {
      return BoundaryInfeasible;
    }
    var m := fn.value;
    c := Trivial;
    ghost var done: set<TypeId> := {};
    NoneReachesRank(types);
    for i := 0 to |m.params|
      invariant done == set j | 0 <= j < i :: ParamType(types, m, j)
      invariant forall r | 2 <= r <= 4 :: AtRank(c, r) <==> SomeReachesRank(types, done, r)
      invariant c == Trivial <==> forall t | t in done :: Plain(types, t)
    {
      var itsClass := ClassifyFresh(types, ParamType(types, m, i));
      OneMoreReachesRank(types, done, ParamType(types, m, i));
      done := done + {ParamType(types, m, i)};
      c := Worse(c, itsClass);
    }
    ghost var params := done;
    for i := 0 to |m.results|
      invariant done == params + set t | t in m.results[..i]
      invariant forall r | 2 <= r <= 4 :: AtRank(c, r) <==> SomeReachesRank(types, done, r)
      invariant c == Trivial <==> forall t | t in done :: Plain(types, t)
    {
      var itsClass := ClassifyFresh(types, m.results[i]);
      OneMoreReachesRank(types, done, m.results[i]);
      done := done + {m.results[i]};
      c := Worse(c, itsClass);
      assert m.results[..i + 1] == m.results[..i] + [m.results[i]];
    }
    assert m.results[..|m.results|] == m.results;
    MethodTypesIs(types, m, params, done);
    RanksTell(types, m, c);
  }

  /** Neither a type of rank one nor a cycle is reachable. */
  ghost predicate Plain(types: Types, t: TypeId) {
    !ReachesRank(types, t, 1) && !ReachesCycle(BoundarySucc(types), t)
  }

  ghost predicate SomeReachesRank(types: Types, ts: set<TypeId>, r: nat) {
    exists t :: t in ts && ReachesRank(types, t, r)
  }

  lemma NoneReachesRank(types: Types)
    ensures forall r :: !SomeReachesRank(types, {}, r)
  {
  }

  lemma OneMoreReachesRank(types: Types, ts: set<TypeId>, t: TypeId)
    ensures forall r | 2 <= r <= 4 ::
              SomeReachesRank(types, ts + {t}, r) <==> SomeReachesRank(types, ts, r) || ReachesRank(types, t, r)
  {
    hide ReachesRank;
    forall r | 2 <= r <= 4 && SomeReachesRank(types, ts, r)
      ensures SomeReachesRank(types, ts + {t}, r)
    {
      var x :| x in ts && ReachesRank(types, x, r);
      assert x in ts + {t};
    }
    assert t in ts + {t};
  }

  lemma MethodTypesIs(types: Types, m: Method, params: set<TypeId>, all: set<TypeId>)
    requires params == set j | 0 <= j < |m.params| :: ParamType(types, m, j)
    requires all == params + set t | t in m.results
    ensures all == MethodTypes(types, m)
  {
  }

  /** One classification from an empty path. */
  method ClassifyFresh(types: Types, t: TypeId) returns (c: BoundaryClass)
    ensures forall r | 2 <= r <= 4 :: AtRank(c, r) <==> ReachesRank(types, t, r)
    ensures c == Trivial <==> Plain(types, t)
  {
    hide ReachesRank, Classified, ReachesCycle;
    var k := new Classifier(types);
    c := k.ClassifyType(t);
    ClassIsWorstReachable(types, t, c);
  }
}
