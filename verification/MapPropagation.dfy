/** Map-valued callbacks: a parameter that a function stores into a map makes every
    argument passed for it a store of that map, and a forwarded parameter a fact of the
    caller. The propagation runs in rounds and gives up after twenty. */
module MapPropagation {
  import opened Collections
  import opened Functions
  import opened Orders
  import opened Reachability
  import opened Rounds

  datatype MapKey = MapKey(packagePath: string, globalName: string, typ: string) {
    function Text(): string {
      if packagePath != "" || globalName != "" then packagePath + "." + globalName + ":" + typ else typ
    }
  }

  datatype ParamStore = ParamStore(key: MapKey, param: nat)

  /** What the propagation needs to know of a call argument: the functions it resolves to
      and the caller's parameter it forwards, if any. */
  datatype Arg = Arg(callables: seq<Func>, param: Option<nat>)

  datatype Callsite = Callsite(caller: Func, args: seq<Arg>)

  datatype Fact = Fact(fn: Func, store: ParamStore)
  datatype Store = Store(key: MapKey, fn: Func)

  datatype RoundStats = RoundStats(iteration: nat, newStores: nat, newParamStores: nat)

  type Callsites = map<Func, seq<Callsite>>

  const MAX_ROUNDS: nat := 20

  // ----- The two rules

  function SitesOf(callsites: Callsites, fn: Func): seq<Callsite> {
    if fn in callsites then callsites[fn] else []
  }

  predicate Passes(f: Fact, site: Callsite) {
    f.store.key.typ != "" && f.store.param < |site.args|
  }

  /** The caller's parameter forwarded into a storing parameter is a storing parameter. */
  ghost function FactsVia(f: Fact, site: Callsite): set<Fact> {
    if Passes(f, site) && site.args[f.store.param].param.Some?
    then {Fact(site.caller, ParamStore(f.store.key, site.args[f.store.param].param.value))}
    else {}
  }

  /** Every function passed for a storing parameter is stored under its key. */
  ghost function StoresVia(f: Fact, site: Callsite): set<Store> {
    if Passes(f, site)
    then set c | c in site.args[f.store.param].callables :: Store(f.store.key, c)
    else {}
  }

  ghost function NextFacts(callsites: Callsites, f: Fact): set<Fact> {
    set site, g | site in SitesOf(callsites, f.fn) && g in FactsVia(f, site) :: g
  }

  ghost function Forwarding(callsites: Callsites): Fact -> set<Fact> {
    f => NextFacts(callsites, f)
  }

  ghost function StoresOf(callsites: Callsites, f: Fact): set<Store> {
    set site, s | site in SitesOf(callsites, f.fn) && s in StoresVia(f, site) :: s
  }

  ghost function Storing(callsites: Callsites): Fact -> set<Store> {
    f => StoresOf(callsites, f)
  }

  // ----- The two rules, call by call

  /** The call passes something for the parameter the fact speaks of, and the key is a typed one. */
  predicate CallMatches(callsites: Callsites, f: Fact, i: nat) {
    f.fn in callsites && i < |callsites[f.fn]| && f.store.param < |callsites[f.fn][i].args| && f.store.key.typ != ""
  }

  /** Some call of the first fact's function hands a parameter of its caller on for the stored one. */
  ghost predicate HandedUp(callsites: Callsites, f: Fact, g: Fact) {
    exists i: nat ::
      && CallMatches(callsites, f, i)
      && callsites[f.fn][i].caller == g.fn && callsites[f.fn][i].args[f.store.param].param == Some(g.store.param)
      && g.store.key == f.store.key
  }

  /** Some call of the fact's function passes the stored function for the storing parameter. */
  ghost predicate PassedFor(callsites: Callsites, f: Fact, s: Store) {
    exists i: nat :: CallMatches(callsites, f, i) && s.fn in callsites[f.fn][i].args[f.store.param].callables && s.key == f.store.key
  }

  /** A chain of handing up leads from a known fact to this one. */
  ghost predicate HandedFrom(callsites: Callsites, seeds: set<Fact>, f: Fact) {
    exists p: seq<Fact> :: p != [] && p[0] in seeds && p[|p| - 1] == f && Handed(callsites, p)
  }

  ghost predicate Handed(callsites: Callsites, p: seq<Fact>) {
    forall i | 0 <= i < |p| - 1 :: HandedUp(callsites, p[i], p[i + 1])
  }

  lemma RulesByCall(callsites: Callsites, f: Fact)
    ensures forall g :: g in NextFacts(callsites, f) <==> HandedUp(callsites, f, g)
    ensures forall s :: s in StoresOf(callsites, f) <==> PassedFor(callsites, f, s)
  {
    var sites := SitesOf(callsites, f.fn);
    forall g
      ensures g in NextFacts(callsites, f) <==> HandedUp(callsites, f, g)
    {
      if i: nat :| CallMatches(callsites, f, i) && callsites[f.fn][i].caller == g.fn
                   && callsites[f.fn][i].args[f.store.param].param == Some(g.store.param) && g.store.key == f.store.key {
        assert sites[i] in sites && g in FactsVia(f, sites[i]);
      }
      if g in NextFacts(callsites, f) {
        var site :| site in sites && g in FactsVia(f, site);
        var i: nat :| i < |sites| && sites[i] == site;
        assert CallMatches(callsites, f, i);
      }
    }
    forall s
      ensures s in StoresOf(callsites, f) <==> PassedFor(callsites, f, s)
    {
      if i: nat :| CallMatches(callsites, f, i) && s.fn in callsites[f.fn][i].args[f.store.param].callables && s.key == f.store.key {
        assert sites[i] in sites && s in StoresVia(f, sites[i]);
      }
      if s in StoresOf(callsites, f) {
        var site :| site in sites && s in StoresVia(f, site);
        var i: nat :| i < |sites| && sites[i] == site;
        assert CallMatches(callsites, f, i);
      }
    }
  }

  lemma HandedIsWalk(callsites: Callsites, p: seq<Fact>)
    requires p != []
    ensures Walk(Forwarding(callsites), p) <==> Handed(callsites, p)
  {
    hide NextFacts, HandedUp;
    forall i | 0 <= i < |p| - 1
      ensures p[i + 1] in Forwarding(callsites)(p[i]) <==> HandedUp(callsites, p[i], p[i + 1])
    {
      RulesByCall(callsites, p[i]);
    }
  }

  lemma HandedIsReached(callsites: Callsites, seeds: set<Fact>, f: Fact)
    ensures HandedFrom(callsites, seeds, f) <==> ReachedFrom(Forwarding(callsites), seeds, f)
  {
    hide Forwarding, Walk, Handed;
    if ReachedFrom(Forwarding(callsites), seeds, f) {
      var seed :| seed in seeds && Reaches(Forwarding(callsites), seed, f);
      var p :| WalkFromTo(Forwarding(callsites), p, seed, f);
      WalkIsSome(Forwarding(callsites), p);
      HandedIsWalk(callsites, p);
    }
    if HandedFrom(callsites, seeds, f) {
      var p: seq<Fact> :| p != [] && p[0] in seeds && p[|p| - 1] == f && Handed(callsites, p);
      HandedIsWalk(callsites, p);
      assert WalkFromTo(Forwarding(callsites), p, p[0], f);
      assert Reaches(Forwarding(callsites), p[0], f);
    }
  }

  lemma WalkIsSome(succ: Fact -> set<Fact>, p: seq<Fact>)
    requires Walk(succ, p)
    ensures p != []
  {
  }

  /** The facts are those that chains of calls hand up from the known ones; the stores are the known ones
      and every function some call passes for a storing parameter. */
  ghost predicate ExactlyHanded(callsites: Callsites, seeds: set<Fact>, base: set<Store>, facts: set<Fact>, stored: set<Store>) {
    && (forall f :: f in facts <==> HandedFrom(callsites, seeds, f))
    && (forall s :: s in stored <==> s in base || exists f :: f in facts && PassedFor(callsites, f, s))
  }

  lemma LeastIsHanded(callsites: Callsites, seeds: set<Fact>, base: set<Store>, facts: set<Fact>, stored: set<Store>)
    requires LeastFixpoint(Forwarding(callsites), Storing(callsites), seeds, base, facts, stored)
    ensures ExactlyHanded(callsites, seeds, base, facts, stored)
  {
    hide ReachedFrom, HandedFrom, PassedFor, StoresOf;
    forall f
      ensures f in facts <==> HandedFrom(callsites, seeds, f)
    {
      HandedIsReached(callsites, seeds, f);
    }
    forall s
      ensures s in stored <==> s in base || exists f :: f in facts && PassedFor(callsites, f, s)
    {
      forall f | f in facts
        ensures s in Storing(callsites)(f) <==> PassedFor(callsites, f, s)
      {
        RulesByCall(callsites, f);
      }
    }
  }

  // ----- How many rounds are enough

  /** No fact needs a derivation of more than `depth` steps. */
  ghost predicate Shallow(callsites: Callsites, seeds: set<Fact>, depth: nat) {
    forall f :: ReachedFrom(Forwarding(callsites), seeds, f) ==> AtDepth(Forwarding(callsites), seeds, depth, f)
  }

  /** Some store has facts at this depth as its only sources. */
  ghost predicate Late(callsites: Callsites, seeds: set<Fact>, stores: set<Store>, depth: nat) {
    depth > 0 && exists s :: s in Outputs(Storing(callsites), Within(Forwarding(callsites), seeds, depth))
                             && s !in Outputs(Storing(callsites), Within(Forwarding(callsites), seeds, depth - 1)) && s !in stores
  }

  lemma RoundsNeeded(callsites: Callsites, seeds: set<Fact>, stores: set<Store>, depth: nat)
    requires depth > 0
    ensures Shallow(callsites, seeds, depth - 1) ==> !RoundAdds(Forwarding(callsites), Storing(callsites), seeds, stores, depth)
    ensures Late(callsites, seeds, stores, depth) ==> RoundAdds(Forwarding(callsites), Storing(callsites), seeds, stores, depth)
  {
    hide Forwarding, Storing, RoundAdds, Within, ReachedFrom, AtDepth, Outputs;
    if Shallow(callsites, seeds, depth - 1) {
      ShallowIsQuiet(Forwarding(callsites), Storing(callsites), seeds, stores, depth - 1);
    }
    if Late(callsites, seeds, stores, depth) {
      var s :| s in Outputs(Storing(callsites), Within(Forwarding(callsites), seeds, depth))
               && s !in Outputs(Storing(callsites), Within(Forwarding(callsites), seeds, depth - 1)) && s !in stores;
      LateOutputIsNoticed(Forwarding(callsites), Storing(callsites), seeds, stores, depth, s);
    }
  }

  // ----- The index

  predicate FactLess(a: Fact, b: Fact) {
    if a.fn.key.Text() != b.fn.key.Text() then StringLess(a.fn.key.Text(), b.fn.key.Text())
    else if a.store.key.Text() != b.store.key.Text() then StringLess(a.store.key.Text(), b.store.key.Text())
    else a.store.param < b.store.param
  }

  predicate ParamStoreLess(a: ParamStore, b: ParamStore) {
    if a.key.Text() != b.key.Text() then StringLess(a.key.Text(), b.key.Text()) else a.param < b.param
  }

  /** Function key, map key and parameter decide, in this order. */
  lemma FactOrderReads(a: Fact, b: Fact)
    ensures FactLess(a, b) <==>
              || StringLess(a.fn.key.Text(), b.fn.key.Text())
              || (a.fn.key.Text() == b.fn.key.Text() && StringLess(a.store.key.Text(), b.store.key.Text()))
              || (a.fn.key.Text() == b.fn.key.Text() && a.store.key.Text() == b.store.key.Text() && a.store.param < b.store.param)
    ensures a.fn == b.fn ==> (FactLess(a, b) <==> ParamStoreLess(a.store, b.store))
  {
    StringTriple(a.fn.key.Text(), b.fn.key.Text(), a.fn.key.Text());
    StringTriple(a.store.key.Text(), b.store.key.Text(), a.store.key.Text());
    hide StringLess;
  }

  lemma ParamStoreLessIsWeak(list: seq<ParamStore>)
    ensures StrictWeakOn(list, ParamStoreLess)
  {
    forall x, y, z: ParamStore
      ensures ParamStoreLess(x, y) ==> !ParamStoreLess(y, x)
      ensures !ParamStoreLess(x, y) && !ParamStoreLess(y, z) ==> !ParamStoreLess(x, z)
    {
      StringTriple(x.key.Text(), y.key.Text(), z.key.Text());
      StringTriple(z.key.Text(), y.key.Text(), x.key.Text());
      StringTriple(x.key.Text(), z.key.Text(), x.key.Text());
    }
  }

  lemma FactLessIsWeak(facts: seq<Fact>)
    ensures StrictWeakOn(facts, FactLess)
  {
    forall x, y, z: Fact
      ensures FactLess(x, y) ==> !FactLess(y, x)
      ensures !FactLess(x, y) && !FactLess(y, z) ==> !FactLess(x, z)
    {
      StringTriple(x.fn.key.Text(), y.fn.key.Text(), z.fn.key.Text());
      StringTriple(z.fn.key.Text(), y.fn.key.Text(), x.fn.key.Text());
      StringTriple(x.fn.key.Text(), z.fn.key.Text(), x.fn.key.Text());
      StringTriple(x.store.key.Text(), y.store.key.Text(), z.store.key.Text());
      StringTriple(z.store.key.Text(), y.store.key.Text(), x.store.key.Text());
      StringTriple(x.store.key.Text(), z.store.key.Text(), x.store.key.Text());
    }
  }

  /** Every list is in order and lists nothing twice. */
  ghost predicate Tidy(stores: map<MapKey, seq<Func>>, paramStores: map<Func, seq<ParamStore>>) {
    && (forall k | k in stores :: Sorted(stores[k], KeyLess) && Distinct(stores[k]))
    && (forall f | f in paramStores :: Sorted(paramStores[f], ParamStoreLess) && Distinct(paramStores[f]))
  }

  lemma TidyStores(stores: map<MapKey, seq<Func>>, paramStores: map<Func, seq<ParamStore>>, key: MapKey, list: seq<Func>, fn: Func)
    requires Tidy(stores, paramStores) && list == (if key in stores then stores[key] else []) && fn !in list
    ensures Tidy(stores[key := SortBy(list + [fn], KeyLess)], paramStores)
  {
    hide SortBy, KeyLess;
    KeyLessIsWeak(list + [fn]);
    SortBySorted(list + [fn], KeyLess);
    assert Distinct(list + [fn]);
    PermutedDistinct(list + [fn], SortBy(list + [fn], KeyLess));
  }

  lemma TidyParamStores(stores: map<MapKey, seq<Func>>, paramStores: map<Func, seq<ParamStore>>, fn: Func, list: seq<ParamStore>,
                        store: ParamStore)
    requires Tidy(stores, paramStores) && list == (if fn in paramStores then paramStores[fn] else []) && store !in list
    ensures Tidy(stores, paramStores[fn := SortBy(list + [store], ParamStoreLess)])
  {
    hide SortBy, ParamStoreLess;
    ParamStoreLessIsWeak(list + [store]);
    SortBySorted(list + [store], ParamStoreLess);
    assert Distinct(list + [store]);
    PermutedDistinct(list + [store], SortBy(list + [store], ParamStoreLess));
  }

  ghost function FactView(paramStores: map<Func, seq<ParamStore>>): set<Fact> {
    set fn, s | fn in paramStores && s in paramStores[fn] :: Fact(fn, s)
  }

  ghost function StoreView(stores: map<MapKey, seq<Func>>): set<Store> {
    set k, f | k in stores && f in stores[k] :: Store(k, f)
  }

  // What has been added after a prefix of the callables, callsites or facts of a round.

  ghost function AfterCallables(key: MapKey, callables: seq<Func>, base: set<Store>): set<Store> {
    if callables == [] then base
    else AfterCallables(key, callables[..|callables| - 1], base) + {Store(key, callables[|callables| - 1])}
  }

  ghost function FactsAfterSites(f: Fact, sites: seq<Callsite>, base: set<Fact>): set<Fact> {
    if sites == [] then base
    else FactsAfterSites(f, sites[..|sites| - 1], base) + FactsVia(f, sites[|sites| - 1])
  }

  ghost function StoresAfterSites(f: Fact, sites: seq<Callsite>, base: set<Store>): set<Store> {
    if sites == [] then base
    else StoresAfterSites(f, sites[..|sites| - 1], base) + StoresVia(f, sites[|sites| - 1])
  }

  ghost function FactsAfterFacts(callsites: Callsites, facts: seq<Fact>, base: set<Fact>): set<Fact> {
    if facts == [] then base
    else FactsAfterFacts(callsites, facts[..|facts| - 1], base) + NextFacts(callsites, facts[|facts| - 1])
  }

  ghost function StoresAfterFacts(callsites: Callsites, facts: seq<Fact>, base: set<Store>): set<Store> {
    if facts == [] then base
    else StoresAfterFacts(callsites, facts[..|facts| - 1], base) + StoresOf(callsites, facts[|facts| - 1])
  }

  lemma {:induction false} AfterCallablesAll(key: MapKey, callables: seq<Func>, base: set<Store>)
    ensures AfterCallables(key, callables, base) == base + set c | c in callables :: Store(key, c)
  {
    if callables != [] {
      var n := |callables| - 1;
      AfterCallablesAll(key, callables[..n], base);
      assert callables == callables[..n] + [callables[n]];
    }
  }

  lemma NoCallables(key: MapKey, base: set<Store>)
    ensures AfterCallables(key, [], base) == base
  {
  }

  lemma OneMoreCallable(key: MapKey, callables: seq<Func>, i: nat, base: set<Store>)
    requires i < |callables|
    ensures AfterCallables(key, callables[..i + 1], base) == AfterCallables(key, callables[..i], base) + {Store(key, callables[i])}
  {
    assert callables[..i + 1][..i] == callables[..i];
  }

  lemma ViaNothing(f: Fact, site: Callsite)
    ensures f.store.param >= |site.args| ==> FactsVia(f, site) == {} && StoresVia(f, site) == {}
  {
  }

  lemma ViaSomething(f: Fact, site: Callsite)
    requires f.store.param < |site.args|
    ensures var arg := site.args[f.store.param]; var key := f.store.key;
            && (key.typ == "" ==> FactsVia(f, site) == {} && StoresVia(f, site) == {})
            && (key.typ != "" ==> StoresVia(f, site) == set c | c in arg.callables :: Store(key, c))
            && (arg.param.None? ==> FactsVia(f, site) == {})
            && (key.typ != "" && arg.param.Some? ==> FactsVia(f, site) == {Fact(site.caller, ParamStore(key, arg.param.value))})
  {
  }

  lemma {:induction false} AfterSitesAll(f: Fact, sites: seq<Callsite>, base: set<Fact>, stores: set<Store>)
    ensures FactsAfterSites(f, sites, base) == base + set site, g | site in sites && g in FactsVia(f, site) :: g
    ensures StoresAfterSites(f, sites, stores) == stores + set site, s | site in sites && s in StoresVia(f, site) :: s
  {
    if sites != [] {
      var n := |sites| - 1;
      AfterSitesAll(f, sites[..n], base, stores);
      assert sites == sites[..n] + [sites[n]];
      assert forall site :: site in sites <==> site in sites[..n] || site == sites[n];
    }
  }

  lemma {:induction false} AfterFactsAll(callsites: Callsites, facts: seq<Fact>, base: set<Fact>, stores: set<Store>)
    ensures FactsAfterFacts(callsites, facts, base) == base + set f, g | f in facts && g in NextFacts(callsites, f) :: g
    ensures StoresAfterFacts(callsites, facts, stores) == stores + set f, s | f in facts && s in StoresOf(callsites, f) :: s
  {
    if facts != [] {
      var n := |facts| - 1;
      AfterFactsAll(callsites, facts[..n], base, stores);
      assert facts == facts[..n] + [facts[n]];
      assert forall f :: f in facts <==> f in facts[..n] || f == facts[n];
    }
  }

  /** A round over every fact of `before` is one application of both rules. */
  lemma WholeRound(callsites: Callsites, facts: seq<Fact>, before: set<Fact>, stores: set<Store>)
    requires forall f :: f in facts <==> f in before
    ensures FactsAfterFacts(callsites, facts, before) == Step(Forwarding(callsites), before)
    ensures StoresAfterFacts(callsites, facts, stores) == stores + Outputs(Storing(callsites), before)
  {
    hide NextFacts, StoresOf, FactsAfterFacts, StoresAfterFacts;
    AfterFactsAll(callsites, facts, before, stores);
    var succ, out := Forwarding(callsites), Storing(callsites);
    assert forall f :: succ(f) == NextFacts(callsites, f) && out(f) == StoresOf(callsites, f);
    assert (set f, g | f in facts && g in NextFacts(callsites, f) :: g) == (set x, y | x in before && y in succ(x) :: y);
    assert (set f, s | f in facts && s in StoresOf(callsites, f) :: s) == Outputs(out, before);
  }

  lemma AddedToStores(before: map<MapKey, seq<Func>>, key: MapKey, list: seq<Func>, fn: Func, sorted: seq<Func>)
    requires list == if key in before then before[key] else []
    requires multiset(sorted) == multiset(list + [fn])
    ensures StoreView(before[key := sorted]) == StoreView(before) + {Store(key, fn)}
  {
    SameElements(sorted, list + [fn]);
  }

  lemma AddedToParamStores(before: map<Func, seq<ParamStore>>, fn: Func, list: seq<ParamStore>, store: ParamStore,
                           sorted: seq<ParamStore>)
    requires list == if fn in before then before[fn] else []
    requires multiset(sorted) == multiset(list + [store])
    ensures FactView(before[fn := sorted]) == FactView(before) + {Fact(fn, store)}
  {
    SameElements(sorted, list + [store]);
  }

  class MapFuncIndex {
    var stores: map<MapKey, seq<Func>>
    var paramStores: map<Func, seq<ParamStore>>
    var callsites: Callsites
    var iterations: nat
    var limitHit: bool
    var stats: seq<RoundStats>

    /** The facts and stores the two tables hold. */
    ghost var facts: set<Fact>
    ghost var stored: set<Store>

    ghost predicate Valid()
      reads this
    {
      facts == FactView(paramStores) && stored == StoreView(stores) && Tidy(stores, paramStores)
    }

    method AddStore(key: MapKey, fn: Func) returns (added: bool)
      requires Valid()
      modifies this`stores, this`stored
      ensures Valid()
      ensures stored == if key.typ == "" then old(stored) else old(stored) + {Store(key, fn)}
      ensures added == (stored != old(stored))
      ensures |stored| == |old(stored)| + if added then 1 else 0
    {
      hide Tidy;
      if key.typ == "" {
        return false;
      }
      var list := if key in stores then stores[key] else [];
      if fn in list {
        assert Store(key, fn) in StoreView(stores);
        assert stored == stored + {Store(key, fn)};
        return false;
      }
      assert Store(key, fn) !in stored;
      var sorted := SortBy(list + [fn], KeyLess);
      AddedToStores(stores, key, list, fn, sorted);
      TidyStores(stores, paramStores, key, list, fn);
      stores := stores[key := sorted];
      stored := stored + {Store(key, fn)};
      return true;
    }

    method AddParamStore(fn: Func, store: ParamStore) returns (added: bool)
      requires Valid()
      modifies this`paramStores, this`facts
      ensures Valid()
      ensures facts == if store.key.typ == "" then old(facts) else old(facts) + {Fact(fn, store)}
      ensures added == (facts != old(facts))
      ensures |facts| == |old(facts)| + if added then 1 else 0
    {
      hide Tidy;
      if store.key.typ == "" {
        return false;
      }
      var list := if fn in paramStores then paramStores[fn] else [];
      if store in list {
        assert Fact(fn, store) in FactView(paramStores);
        assert facts == facts + {Fact(fn, store)};
        return false;
      }
      assert Fact(fn, store) !in facts;
      var sorted := SortBy(list + [store], ParamStoreLess);
      AddedToParamStores(paramStores, fn, list, store, sorted);
      TidyParamStores(stores, paramStores, fn, list, store);
      paramStores := paramStores[fn := sorted];
      facts := facts + {Fact(fn, store)};
      return true;
    }

    /** The facts known now, collected in Go's unspecified map order and then sorted. */
    method InitialFacts() returns (list: seq<Fact>)
      requires Valid()
      ensures forall f :: f in list <==> f in facts
      ensures Sorted(list, FactLess)
    {
      hide Tidy;
      var found: seq<Fact> := [];
      var rest := paramStores.Keys;
      while rest != {}
        invariant rest <= paramStores.Keys
        invariant forall f :: f in found <==> f.fn in paramStores.Keys - rest && f.store in paramStores[f.fn]
        decreases rest
      {
        var fn :| fn in rest;
        var stores := paramStores[fn];
        var more := seq(|stores|, i requires 0 <= i < |stores| => Fact(fn, stores[i]));
        assert forall f :: f in more <==> f.fn == fn && f.store in stores by {
          forall f: Fact | f.fn == fn && f.store in stores
            ensures f in more
          {
            var i :| 0 <= i < |stores| && stores[i] == f.store;
            assert more[i] == f;
          }
        }
        found := found + more;
        rest := rest - {fn};
      }
      list := SortBy(found, FactLess);
      SameElements(list, found);
      FactLessIsWeak(found);
      SortBySorted(found, FactLess);
    }

    /** One fact against one callsite. */
    method PropagateFact(f: Fact, site: Callsite) returns (newStores: nat, newFacts: nat)
      requires Valid()
      modifies this`stores, this`paramStores, this`facts, this`stored
      ensures Valid()
      ensures facts == old(facts) + FactsVia(f, site)
      ensures stored == old(stored) + StoresVia(f, site)
      ensures |facts| == |old(facts)| + newFacts
      ensures |stored| == |old(stored)| + newStores
    {
      hide FactView, StoreView, Tidy, FactsVia, StoresVia, AfterCallables;
      ViaNothing(f, site);
      newStores, newFacts := 0, 0;
      if f.store.param >= |site.args| {
        return;
      }
      var arg := site.args[f.store.param];
      var key := f.store.key;
      ViaSomething(f, site);
      NoCallables(key, old(stored));
      for i := 0 to |arg.callables|
        invariant Valid() && facts == old(facts)
        invariant stored == if key.typ == "" then old(stored) else AfterCallables(key, arg.callables[..i], old(stored))
        invariant |stored| == |old(stored)| + newStores
      {
        OneMoreCallable(key, arg.callables, i, old(stored));
        var added := AddStore(key, arg.callables[i]);
        newStores := newStores + if added then 1 else 0;
      }
      assert arg.callables[..|arg.callables|] == arg.callables;
      AfterCallablesAll(key, arg.callables, old(stored));
      if arg.param.Some? {
        var added := AddParamStore(site.caller, ParamStore(key, arg.param.value));
        newFacts := if added then 1 else 0;
      }
    }

    /** One fact against every callsite of its function. */
    method PropagateFactEverywhere(f: Fact) returns (newStores: nat, newFacts: nat)
      requires Valid()
      modifies this`stores, this`paramStores, this`facts, this`stored
      ensures Valid()
      ensures facts == old(facts) + NextFacts(callsites, f)
      ensures stored == old(stored) + StoresOf(callsites, f)
      ensures |facts| == |old(facts)| + newFacts
      ensures |stored| == |old(stored)| + newStores
    {
      hide FactView, StoreView, Tidy, FactsVia, StoresVia;
      var sites := SitesOf(callsites, f.fn);
      newStores, newFacts := 0, 0;
      for k := 0 to |sites|
        invariant Valid()
        invariant facts == FactsAfterSites(f, sites[..k], old(facts))
        invariant stored == StoresAfterSites(f, sites[..k], old(stored))
        invariant |facts| == |old(facts)| + newFacts && |stored| == |old(stored)| + newStores
      {
        var addedStores, addedFacts := PropagateFact(f, sites[k]);
        newStores, newFacts := newStores + addedStores, newFacts + addedFacts;
        assert sites[..k + 1][..k] == sites[..k];
      }
      assert sites[..|sites|] == sites;
      AfterSitesAll(f, sites, old(facts), old(stored));
    }

    /** One round over a snapshot of the facts: exactly one application of both rules. */
    method PropagateRound(iteration: nat) returns (changed: bool, round: RoundStats)
      requires Valid()
      modifies this`stores, this`paramStores, this`facts, this`stored
      ensures Valid()
      ensures facts == Step(Forwarding(callsites), old(facts))
      ensures stored == old(stored) + Outputs(Storing(callsites), old(facts))
      ensures changed == (round.newParamStores > 0 || round.newStores > 0)
      ensures |facts| == |old(facts)| + round.newParamStores
      ensures |stored| == |old(stored)| + round.newStores
    {
      hide FactView, StoreView, Tidy, NextFacts, StoresOf, Step, Outputs, Forwarding, Storing;
      var snapshot := InitialFacts();
      var newStores, newFacts := 0, 0;
      changed := false;
      for j := 0 to |snapshot|
        invariant Valid()
        invariant facts == FactsAfterFacts(callsites, snapshot[..j], old(facts))
        invariant stored == StoresAfterFacts(callsites, snapshot[..j], old(stored))
        invariant |facts| == |old(facts)| + newFacts && |stored| == |old(stored)| + newStores
        invariant changed == (newFacts > 0 || newStores > 0)
      {
        var addedStores, addedFacts := PropagateFactEverywhere(snapshot[j]);
        newStores, newFacts := newStores + addedStores, newFacts + addedFacts;
        if addedStores > 0 || addedFacts > 0 {
          changed := true;
        }
        assert snapshot[..j + 1][..j] == snapshot[..j];
      }
      assert snapshot[..|snapshot|] == snapshot;
      WholeRound(callsites, snapshot, old(facts), old(stored));
      round := RoundStats(iteration, newStores, newFacts);
    }

    /** The capped loop. However it ends, `iterations` rounds have run; it stops early exactly
        on a quiet round, and it reports the cap exactly when all twenty found something. */
    method Propagate()
      requires Valid()
      modifies this`stores, this`paramStores, this`iterations, this`limitHit, this`stats, this`facts, this`stored
      ensures Valid()
      ensures 1 <= iterations <= MAX_ROUNDS && |stats| == iterations
      ensures facts == Within(Forwarding(callsites), old(facts), iterations)
      ensures stored == Collected(Forwarding(callsites), Storing(callsites), old(facts), old(stored), iterations)
      ensures !limitHit ==>
                LeastFixpoint(Forwarding(callsites), Storing(callsites), old(facts), old(stored), facts, stored)
      ensures !limitHit ==> ExactlyHanded(callsites, old(facts), old(stored), facts, stored)
      ensures limitHit ==> iterations == MAX_ROUNDS
      ensures limitHit <==> RoundAdds(Forwarding(callsites), Storing(callsites), old(facts), old(stored), MAX_ROUNDS - 1)
      ensures Shallow(callsites, old(facts), MAX_ROUNDS - 2) ==> !limitHit
      ensures Late(callsites, old(facts), old(stored), MAX_ROUNDS - 1) ==> limitHit
      ensures forall f | f in facts :: ReachedFrom(Forwarding(callsites), old(facts), f)
      ensures forall s | s in stored ::
                s in old(stored) || DerivableOutput(Forwarding(callsites), Storing(callsites), old(facts), s)
      ensures |facts| == |old(facts)| + NewFacts(stats) && |stored| == |old(stored)| + NewStores(stats)
    {
      hide Within, Collected, RoundAdds, LeastFixpoint, Forwarding, Storing, Step, Outputs;
      hide FactView, StoreView, Tidy, NewFacts, NewStores, Shallow, Late, ExactlyHanded;
      stats, iterations, limitHit := [], 0, false;
      ghost var F, S := facts, stored;
      ghost var succ, out := Forwarding(callsites), Storing(callsites);
      RoundByRound(succ, out, F, S, 0);
      StatsTotal([], RoundStats(0, 0, 0));
      RoundsNeeded(callsites, F, S, MAX_ROUNDS - 1);
      hide ReachedFrom, DerivableOutput;
      var iteration := 0;
      while true
        invariant Valid()
        invariant iteration == iterations == |stats| <= MAX_ROUNDS && !limitHit
        invariant facts == Within(succ, F, iteration)
        invariant stored == Collected(succ, out, F, S, iteration)
        invariant iteration > 0 ==> RoundAdds(succ, out, F, S, iteration - 1)
        invariant |facts| == |F| + NewFacts(stats) && |stored| == |S| + NewStores(stats)
        decreases MAX_ROUNDS - iteration
      {
        if iteration >= MAX_ROUNDS {
          RoundsAreSound(succ, out, F, S, iteration);
          limitHit := true;
          return;
        }
        var changed, round := PropagateRound(iteration);
        RoundByRound(succ, out, F, S, iteration);
        RoundCounted(succ, out, F, S, iteration, round.newParamStores, round.newStores);
        StatsTotal(stats, round);
        stats := stats + [round];
        iterations := iteration + 1;
        if !changed {
          QuietIsFixpoint(succ, out, F, S, iteration);
          LeastIsHanded(callsites, F, S, facts, stored);
          QuietStaysQuiet(succ, out, F, S, iteration, MAX_ROUNDS - 1);
          RoundsAreSound(succ, out, F, S, iterations);
          return;
        }
        iteration := iteration + 1;
      }
    }
  }

  /** Conservation: the per-round counters add up to what the index gained. */
  ghost function NewFacts(stats: seq<RoundStats>): nat {
    if stats == [] then 0 else NewFacts(stats[..|stats| - 1]) + stats[|stats| - 1].newParamStores
  }

  ghost function NewStores(stats: seq<RoundStats>): nat {
    if stats == [] then 0 else NewStores(stats[..|stats| - 1]) + stats[|stats| - 1].newStores
  }

  lemma StatsTotal(stats: seq<RoundStats>, round: RoundStats)
    ensures NewFacts([]) == NewStores([]) == 0
    ensures NewFacts(stats + [round]) == NewFacts(stats) + round.newParamStores
    ensures NewStores(stats + [round]) == NewStores(stats) + round.newStores
  {
    assert (stats + [round])[..|stats|] == stats;
  }
}
