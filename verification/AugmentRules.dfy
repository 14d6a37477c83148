/** What augmentation derives: passes contribute targets for functions already in the graph, the more
    of them the more functions have been scanned; call-graph exploration contributes the callees. */
module AugmentRules {
  import opened Functions
  import opened Reachability
  import opened ActivationGraph

  datatype AugmentMode = RTAOnly | StructFieldMode | PredicatesMode | GoroutineMode | AllModes

  datatype Target = Target(fn: Func, kind: string)

  /** One augmentation pass over an index as it stands. `anchors` are the dispatch functions a
      framework predicate adds by itself; `order` is the list of functions the pass walks, or none
      when it walks a snapshot of the graph. */
  datatype Pass = Pass(anchors: seq<Func>, targets: map<Func, seq<Target>>, order: Option<seq<Func>>)

  /** The passes by name, in the order in which the full mode runs them. */
  datatype PassName = StructFields | Predicates | Goroutines | PackageVars | FuncArgs | MapFuncValues | InterfaceFields

  /** `pass` gives a pass once the program and these functions besides have been scanned; `callees` is the
      call relation that rapid type analysis resolves; `callGraph` lists the functions of the call graph
      it builds from some roots. */
  datatype Program = Program(pass: (PassName, set<Func>) -> Pass, callees: map<Func, seq<Target>>,
                             callGraph: seq<Func> -> seq<Func>)

  // ----- The rules

  function PassNames(mode: AugmentMode): seq<PassName> {
    match mode
    case RTAOnly => []
    case StructFieldMode => [StructFields]
    case PredicatesMode => [StructFields, Predicates]
    case GoroutineMode => [Goroutines]
    case AllModes => [StructFields, Predicates, Goroutines, PackageVars, FuncArgs, MapFuncValues, InterfaceFields]
  }

  function PassesFor(prog: Program, mode: AugmentMode, scanned: set<Func>): seq<Pass> {
    seq(|PassNames(mode)|, i requires 0 <= i < |PassNames(mode)| => prog.pass(PassNames(mode)[i], scanned))
  }

  /** Every pass the first mode runs the second one runs too. */
  ghost predicate RunsWithin(narrow: AugmentMode, wide: AugmentMode) {
    forall name | name in PassNames(narrow) :: name in PassNames(wide)
  }

  lemma PassOfMode(prog: Program, mode: AugmentMode, scanned: set<Func>, p: Pass)
    ensures p in PassesFor(prog, mode, scanned) <==> exists name :: name in PassNames(mode) && p == prog.pass(name, scanned)
  {
    hide PassNames;
    var names, passes := PassNames(mode), PassesFor(prog, mode, scanned);
    if name :| name in names && p == prog.pass(name, scanned) {
      var i :| 0 <= i < |names| && names[i] == name;
      assert passes[i] == p;
    }
    if p in passes {
      var i :| 0 <= i < |passes| && passes[i] == p;
      assert names[i] in names;
    }
  }

  function ListOf(targets: map<Func, seq<Target>>, f: Func): seq<Target> {
    if f in targets then targets[f] else []
  }

  /** The links a pass adds for a function: functions in generic contexts are passed over. */
  ghost function PassLinks(p: Pass, f: Func): set<Link> {
    set t | t in ListOf(p.targets, f) && !t.fn.generic :: Link(f, t.fn, t.kind)
  }

  ghost function CallLinks(prog: Program, f: Func): set<Link> {
    set t | t in ListOf(prog.callees, f) :: Link(f, t.fn, t.kind)
  }

  ghost predicate PassLink(passes: seq<Pass>, l: Link) {
    exists p :: p in passes && l in PassLinks(p, l.from)
  }

  /** A link some rule gives, the index as it is with these functions scanned. */
  ghost predicate RuleLink(prog: Program, mode: AugmentMode, scanned: set<Func>, l: Link) {
    l in CallLinks(prog, l.from) || PassLink(PassesFor(prog, mode, scanned), l)
  }

  ghost function CalleeSucc(prog: Program): Func -> set<Func> {
    f => set t | t in ListOf(prog.callees, f) :: t.fn
  }

  ghost function PassTargets(passes: seq<Pass>, f: Func): set<Func> {
    set p, t | p in passes && t in ListOf(p.targets, f) && !t.fn.generic :: t.fn
  }

  /** Where the passes alone lead from a function. */
  ghost function PassSucc(prog: Program, mode: AugmentMode, scanned: set<Func>): Func -> set<Func> {
    f => PassTargets(PassesFor(prog, mode, scanned), f)
  }

  /** Where any rule leads from a function. */
  ghost function RuleSucc(prog: Program, mode: AugmentMode, scanned: set<Func>): Func -> set<Func> {
    f => CalleeSucc(prog)(f) + PassTargets(PassesFor(prog, mode, scanned), f)
  }

  ghost function Anchors(passes: seq<Pass>): set<Func> {
    set p, f | p in passes && f in p.anchors :: f
  }

  /** What is assumed of the analyses outside the model: the call graph is reachability over the
      call relation, a dispatch function in a generic context calls nothing, since exploration
      passes it over, a listed pass lists every function it has targets for, and scanning more
      functions loses no target. */
  ghost predicate Sane(prog: Program, mode: AugmentMode) {
    && (forall roots: seq<Func>, f: Func ::
          f in prog.callGraph(roots) <==> ReachedFrom(CalleeSucc(prog), (set r | r in roots), f))
    && (forall s: set<Func> :: SanePasses(prog, PassesFor(prog, mode, s)))
    && Monotone(prog, mode)
  }

  ghost predicate SanePasses(prog: Program, passes: seq<Pass>) {
    && (forall f: Func | f.generic && f in Anchors(passes) :: ListOf(prog.callees, f) == [])
    && (forall p | p in passes :: Listed(p))
  }

  ghost predicate Listed(p: Pass) {
    p.order.Some? ==> forall f | f in p.targets :: f in p.order.value
  }

  /** The more functions are scanned, the more the passes have to add. */
  ghost predicate Monotone(prog: Program, mode: AugmentMode) {
    forall s: set<Func>, t: set<Func> | s <= t :: MorePasses(PassesFor(prog, mode, s), PassesFor(prog, mode, t))
  }

  ghost predicate MorePasses(passes: seq<Pass>, more: seq<Pass>) {
    && Anchors(passes) <= Anchors(more)
    && (forall l: Link :: PassLink(passes, l) ==> PassLink(more, l))
  }

  // ----- What the rules derive

  /** Closed under every rule, whatever part of the set has been scanned. */
  ghost predicate ClosedUnder(prog: Program, mode: AugmentMode, seeds: set<Func>, c: iset<Func>) {
    && (forall f | f in seeds :: f in c)
    && (forall f, h | f in c && h in CalleeSucc(prog)(f) :: h in c)
    && (forall s: set<Func> | (forall f | f in s :: f in c) :: ClosedAt(PassesFor(prog, mode, s), s, c))
  }

  ghost predicate ClosedAt(passes: seq<Pass>, s: set<Func>, c: iset<Func>) {
    && (forall a | a in Anchors(passes) :: a in c)
    && (forall f, h | f in s && h in PassTargets(passes, f) :: h in c)
  }

  /** In every set that holds the seeds and is closed under the rules. */
  ghost predicate Derived(prog: Program, mode: AugmentMode, seeds: set<Func>, f: Func) {
    forall c | ClosedUnder(prog, mode, seeds, c) :: f in c
  }

  // ----- The rules, target by target

  /** The list names this function and kind of link for `f`. */
  ghost predicate Names(targets: map<Func, seq<Target>>, f: Func, to: Func, kind: string) {
    f in targets && exists i: nat :: i < |targets[f]| && targets[f][i].fn == to && targets[f][i].kind == kind
  }

  /** A pass the mode runs names the function, which is in no generic context. */
  ghost predicate PassNamesIt(prog: Program, mode: AugmentMode, scanned: set<Func>, f: Func, to: Func, kind: string) {
    !to.generic && exists name :: name in PassNames(mode) && Names(prog.pass(name, scanned).targets, f, to, kind)
  }

  lemma NamesIs(targets: map<Func, seq<Target>>, f: Func, to: Func, kind: string)
    ensures Names(targets, f, to, kind) <==> Target(to, kind) in ListOf(targets, f)
  {
    if Target(to, kind) in ListOf(targets, f) {
      var i :| 0 <= i < |targets[f]| && targets[f][i] == Target(to, kind);
      assert targets[f][i].fn == to;
    }
  }

  /** A rule links two functions exactly if the call relation names the callee or a pass of the mode
      names the target, and a function follows another exactly if some rule links them. */
  lemma RulesRead(prog: Program, mode: AugmentMode, scanned: set<Func>, f: Func, to: Func)
    ensures forall kind :: RuleLink(prog, mode, scanned, Link(f, to, kind)) <==>
              Names(prog.callees, f, to, kind) || PassNamesIt(prog, mode, scanned, f, to, kind)
    ensures to in RuleSucc(prog, mode, scanned)(f) <==> exists kind :: RuleLink(prog, mode, scanned, Link(f, to, kind))
  {
    hide PassesFor, PassNames, ListOf, Names;
    forall kind
      ensures RuleLink(prog, mode, scanned, Link(f, to, kind)) <==>
                Names(prog.callees, f, to, kind) || PassNamesIt(prog, mode, scanned, f, to, kind)
    {
      NamesIs(prog.callees, f, to, kind);
      forall p
        ensures p in PassesFor(prog, mode, scanned) <==> exists name :: name in PassNames(mode) && p == prog.pass(name, scanned)
        ensures Names(p.targets, f, to, kind) <==> Target(to, kind) in ListOf(p.targets, f)
      {
        PassOfMode(prog, mode, scanned, p);
        NamesIs(p.targets, f, to, kind);
      }
    }
    LinkedIsNext(prog, mode, scanned, f, to);
  }

  lemma LinkedIsNext(prog: Program, mode: AugmentMode, scanned: set<Func>, f: Func, to: Func)
    ensures to in RuleSucc(prog, mode, scanned)(f) <==> exists kind :: RuleLink(prog, mode, scanned, Link(f, to, kind))
  {
    hide PassesFor, ListOf;
    if to in CalleeSucc(prog)(f) {
      var t :| t in ListOf(prog.callees, f) && t.fn == to;
      assert RuleLink(prog, mode, scanned, Link(f, to, t.kind));
    }
    if to in PassTargets(PassesFor(prog, mode, scanned), f) {
      var p, t :| p in PassesFor(prog, mode, scanned) && t in ListOf(p.targets, f) && !t.fn.generic && t.fn == to;
      assert Link(f, to, t.kind) in PassLinks(p, f);
      assert RuleLink(prog, mode, scanned, Link(f, to, t.kind));
    }
  }

  // ----- What the modes have to do with each other

  /** Which modes run a pass: struct fields, the predicates that need them, and goroutines in their own
      modes and in the full one, everything else in the full one alone. */
  lemma ModesRun(mode: AugmentMode)
    ensures StructFields in PassNames(mode) <==> mode in {StructFieldMode, PredicatesMode, AllModes}
    ensures Predicates in PassNames(mode) <==> mode in {PredicatesMode, AllModes}
    ensures Goroutines in PassNames(mode) <==> mode in {GoroutineMode, AllModes}
    ensures forall name | name in {PackageVars, FuncArgs, MapFuncValues, InterfaceFields} :: name in PassNames(mode) <==> mode == AllModes
    ensures RunsWithin(mode, AllModes) && RunsWithin(RTAOnly, mode) && RunsWithin(StructFieldMode, PredicatesMode)
  {
  }

  lemma WithinGivesMore(prog: Program, narrow: AugmentMode, wide: AugmentMode, scanned: set<Func>)
    requires RunsWithin(narrow, wide)
    ensures forall p | p in PassesFor(prog, narrow, scanned) :: p in PassesFor(prog, wide, scanned)
  {
    hide PassesFor, PassNames;
    forall p | p in PassesFor(prog, narrow, scanned)
      ensures p in PassesFor(prog, wide, scanned)
    {
      PassOfMode(prog, narrow, scanned, p);
      PassOfMode(prog, wide, scanned, p);
    }
  }

  /** A mode that runs more passes derives more. */
  lemma WiderModeDerivesMore(prog: Program, narrow: AugmentMode, wide: AugmentMode, seeds: set<Func>, f: Func)
    requires RunsWithin(narrow, wide) && Derived(prog, narrow, seeds, f)
    ensures Derived(prog, wide, seeds, f)
  {
    hide CalleeSucc, PassesFor, RunsWithin;
    forall c | ClosedUnder(prog, wide, seeds, c)
      ensures f in c
    {
      forall s: set<Func> | forall g | g in s :: g in c
        ensures ClosedAt(PassesFor(prog, narrow, s), s, c)
      {
        WithinGivesMore(prog, narrow, wide, s);
        FewerPassesClosed(PassesFor(prog, narrow, s), PassesFor(prog, wide, s), s, c);
      }
      assert ClosedUnder(prog, narrow, seeds, c);
    }
  }

  lemma FewerPassesClosed(passes: seq<Pass>, more: seq<Pass>, s: set<Func>, c: iset<Func>)
    requires (forall p | p in passes :: p in more) && ClosedAt(more, s, c)
    ensures ClosedAt(passes, s, c)
  {
    hide ListOf;
    forall a | a in Anchors(passes)
      ensures a in c
    {
      assert a in Anchors(more);
    }
    forall f, h | f in s && h in PassTargets(passes, f)
      ensures h in c
    {
      assert h in PassTargets(more, f);
    }
  }

  /** Without passes the rules derive what the call relation reaches. */
  lemma RTAOnlyIsCalls(prog: Program, seeds: set<Func>, f: Func)
    ensures Derived(prog, RTAOnly, seeds, f) <==> ReachedFrom(CalleeSucc(prog), seeds, f)
  {
    hide CalleeSucc, ReachedFrom;
    var c := iset h | ReachedFrom(CalleeSucc(prog), seeds, h);
    assert ClosedUnder(prog, RTAOnly, seeds, c) by {
      forall s | s in seeds
        ensures s in c
      {
        ReachedStart(CalleeSucc(prog), seeds, s);
      }
      forall g, h | g in c && h in CalleeSucc(prog)(g)
        ensures h in c
      {
        ReachedNext(CalleeSucc(prog), seeds, g, h);
      }
    }
    if ReachedFrom(CalleeSucc(prog), seeds, f) {
      forall d | ClosedUnder(prog, RTAOnly, seeds, d)
        ensures f in d
      {
        CallsStayInside(CalleeSucc(prog), d, seeds, f);
      }
    }
  }

  lemma CallsStayInside(succ: Func -> set<Func>, d: iset<Func>, seeds: set<Func>, f: Func)
    requires (forall s | s in seeds :: s in d) && (forall g, h | g in d && h in succ(g) :: h in d) && ReachedFrom(succ, seeds, f)
    ensures f in d
  {
    var s :| s in seeds && Reaches(succ, s, f);
    var p :| WalkFromTo(succ, p, s, f);
    WalkStaysInside(succ, d, p, |p| - 1);
  }

  lemma {:induction false} WalkStaysInside(succ: Func -> set<Func>, d: iset<Func>, p: seq<Func>, i: nat)
    requires Walk(succ, p) && p[0] in d && i < |p| && forall g, h | g in d && h in succ(g) :: h in d
    ensures p[i] in d
  {
    if i > 0 {
      WalkStaysInside(succ, d, p, i - 1);
      assert p[i - 1 + 1] in succ(p[i - 1]);
    }
  }

  // ----- States of the graph, as the functions and links it holds

  /** Every link of the set is present together with the function it leads to. */
  ghost predicate Covered(funcs: set<Func>, links: set<Link>, wanted: set<Link>) {
    wanted <= links && forall l | l in wanted :: l.to in funcs
  }

  ghost predicate PassDone(p: Pass, from: set<Func>, funcs: set<Func>, links: set<Link>) {
    (forall a | a in p.anchors :: a in funcs) && forall f | f in from :: Covered(funcs, links, PassLinks(p, f))
  }

  ghost predicate PassesDone(passes: seq<Pass>, from: set<Func>, funcs: set<Func>, links: set<Link>) {
    forall p | p in passes :: PassDone(p, from, funcs, links)
  }

  ghost predicate CallsDone(prog: Program, from: set<Func>, funcs: set<Func>, links: set<Link>) {
    forall f | f in from :: Covered(funcs, links, CallLinks(prog, f))
  }

  /** Nothing is there without a rule that derives it. */
  ghost predicate Justified(prog: Program, mode: AugmentMode, seeds: set<Func>, funcs: set<Func>, links: set<Link>) {
    && (forall f | f in funcs :: Derived(prog, mode, seeds, f))
    && (forall l | l in links :: RuleLink(prog, mode, funcs, l))
  }

  /** A set that holds the seeds, is closed under every rule once all of it has been scanned, and is
      part of every other such set. */
  ghost predicate Least(prog: Program, mode: AugmentMode, seeds: set<Func>, funcs: set<Func>) {
    && seeds <= funcs && Anchors(PassesFor(prog, mode, funcs)) <= funcs
    && Closed(RuleSucc(prog, mode, funcs), funcs)
    && (forall f | f in funcs :: Derived(prog, mode, seeds, f))
  }

  /** The least fixpoint of the rules, with exactly the links they give between its functions. */
  ghost predicate LeastClosed(prog: Program, mode: AugmentMode, seeds: set<Func>, funcs: set<Func>, links: set<Link>) {
    && Least(prog, mode, seeds, funcs)
    && (forall l: Link :: l in links <==> l.from in funcs && RuleLink(prog, mode, funcs, l))
  }

  // ----- Growing index

  lemma MoreScanned(prog: Program, mode: AugmentMode, s: set<Func>, t: set<Func>)
    requires Monotone(prog, mode) && s <= t
    ensures MorePasses(PassesFor(prog, mode, s), PassesFor(prog, mode, t))
  {
    hide MorePasses;
  }

  lemma MoreTargets(passes: seq<Pass>, more: seq<Pass>, f: Func)
    requires MorePasses(passes, more)
    ensures PassTargets(passes, f) <= PassTargets(more, f)
  {
    hide Anchors;
    forall h | h in PassTargets(passes, f)
      ensures h in PassTargets(more, f)
    {
      var l := TargetIsLink(passes, f, h);
      LinkIsTarget(more, l);
    }
  }

  lemma TargetIsLink(passes: seq<Pass>, f: Func, h: Func) returns (l: Link)
    requires h in PassTargets(passes, f)
    ensures l.from == f && l.to == h && PassLink(passes, l)
  {
    var p, t :| p in passes && t in ListOf(p.targets, f) && !t.fn.generic && t.fn == h;
    l := Link(f, h, t.kind);
    assert l in PassLinks(p, f);
  }

  lemma LinkIsTarget(passes: seq<Pass>, l: Link)
    requires PassLink(passes, l)
    ensures l.to in PassTargets(passes, l.from)
  {
    var p :| p in passes && l in PassLinks(p, l.from);
  }

  lemma MoreRules(prog: Program, mode: AugmentMode, s: set<Func>, t: set<Func>)
    requires Monotone(prog, mode) && s <= t
    ensures forall l: Link :: RuleLink(prog, mode, s, l) ==> RuleLink(prog, mode, t, l)
    ensures forall f :: RuleSucc(prog, mode, s)(f) <= RuleSucc(prog, mode, t)(f)
    ensures forall f :: PassSucc(prog, mode, s)(f) <= PassSucc(prog, mode, t)(f)
    ensures Anchors(PassesFor(prog, mode, s)) <= Anchors(PassesFor(prog, mode, t))
  {
    MoreScanned(prog, mode, s, t);
    hide PassTargets, PassLink, PassesFor, Monotone;
    forall f
      ensures PassTargets(PassesFor(prog, mode, s), f) <= PassTargets(PassesFor(prog, mode, t), f)
    {
      MoreTargets(PassesFor(prog, mode, s), PassesFor(prog, mode, t), f);
    }
  }

  /** The least set is the only one of its kind. */
  lemma LeastIsUnique(prog: Program, mode: AugmentMode, seeds: set<Func>, a: set<Func>, b: set<Func>)
    requires Monotone(prog, mode) && Least(prog, mode, seeds, a) && Least(prog, mode, seeds, b)
    ensures a == b
  {
    hide Monotone, Derived, ClosedUnder, Anchors, PassesFor, RuleSucc, Closed;
    FixedIsClosedUnder(prog, mode, seeds, a);
    FixedIsClosedUnder(prog, mode, seeds, b);
    forall f
      ensures f in a <==> f in b
    {
      if f in a {
        InClosed(prog, mode, seeds, f, iset g | g in b);
      }
      if f in b {
        InClosed(prog, mode, seeds, f, iset g | g in a);
      }
    }
  }

  lemma InClosed(prog: Program, mode: AugmentMode, seeds: set<Func>, f: Func, c: iset<Func>)
    requires Derived(prog, mode, seeds, f) && ClosedUnder(prog, mode, seeds, c)
    ensures f in c
  {
    hide ClosedUnder;
  }

  /** Closed with all of it scanned is closed whatever part of it is scanned. */
  lemma FixedIsClosedUnder(prog: Program, mode: AugmentMode, seeds: set<Func>, funcs: set<Func>)
    requires Monotone(prog, mode) && seeds <= funcs && Anchors(PassesFor(prog, mode, funcs)) <= funcs
    requires Closed(RuleSucc(prog, mode, funcs), funcs)
    ensures ClosedUnder(prog, mode, seeds, iset f | f in funcs)
  {
    var c := iset f | f in funcs;
    hide CalleeSucc, Anchors, PassesFor, PassTargets, Monotone;
    forall f, h | f in c && h in CalleeSucc(prog)(f)
      ensures h in c
    {
      assert h in RuleSucc(prog, mode, funcs)(f);
    }
    forall s: set<Func> | forall f | f in s :: f in c
      ensures ClosedAt(PassesFor(prog, mode, s), s, c)
    {
      assert s <= funcs;
      MoreRules(prog, mode, s, funcs);
      forall f, h | f in s && h in PassTargets(PassesFor(prog, mode, s), f)
        ensures h in c
      {
        assert h in RuleSucc(prog, mode, s)(f);
      }
    }
  }

  // ----- Derivations

  lemma DerivedSeed(prog: Program, mode: AugmentMode, seeds: set<Func>, f: Func)
    requires f in seeds
    ensures Derived(prog, mode, seeds, f)
  {
  }

  lemma DerivedAnchor(prog: Program, mode: AugmentMode, seeds: set<Func>, scanned: set<Func>, a: Func)
    requires forall f | f in scanned :: Derived(prog, mode, seeds, f)
    requires a in Anchors(PassesFor(prog, mode, scanned))
    ensures Derived(prog, mode, seeds, a)
  {
    hide Anchors, PassesFor, PassTargets, CalleeSucc;
    forall c | ClosedUnder(prog, mode, seeds, c)
      ensures a in c
    {
      assert ClosedAt(PassesFor(prog, mode, scanned), scanned, c);
    }
  }

  lemma DerivedTarget(prog: Program, mode: AugmentMode, seeds: set<Func>, scanned: set<Func>, f: Func, h: Func)
    requires forall g | g in scanned :: Derived(prog, mode, seeds, g)
    requires Derived(prog, mode, seeds, f) && h in PassTargets(PassesFor(prog, mode, scanned), f) && Monotone(prog, mode)
    ensures Derived(prog, mode, seeds, h)
  {
    hide *;
    MoreScanned(prog, mode, scanned, scanned + {f});
    MoreTargets(PassesFor(prog, mode, scanned), PassesFor(prog, mode, scanned + {f}), f);
    DerivedScanned(prog, mode, seeds, scanned + {f}, f, h);
  }

  lemma DerivedScanned(prog: Program, mode: AugmentMode, seeds: set<Func>, scanned: set<Func>, f: Func, h: Func)
    requires forall g | g in scanned :: Derived(prog, mode, seeds, g)
    requires f in scanned && h in PassTargets(PassesFor(prog, mode, scanned), f)
    ensures Derived(prog, mode, seeds, h)
  {
    hide Anchors, PassesFor, CalleeSucc, PassTargets;
    forall c | ClosedUnder(prog, mode, seeds, c)
      ensures h in c
    {
      assert ClosedAt(PassesFor(prog, mode, scanned), scanned, c);
    }
  }

  lemma DerivedCall(prog: Program, mode: AugmentMode, seeds: set<Func>, f: Func, h: Func)
    requires Derived(prog, mode, seeds, f) && h in CalleeSucc(prog)(f)
    ensures Derived(prog, mode, seeds, h)
  {
    hide CalleeSucc, ClosedAt;
  }

  /** What the call relation reaches from derived functions is derived. */
  lemma CallGraphIsDerived(prog: Program, mode: AugmentMode, seeds: set<Func>, roots: set<Func>, f: Func)
    requires forall r | r in roots :: Derived(prog, mode, seeds, r)
    requires ReachedFrom(CalleeSucc(prog), roots, f)
    ensures Derived(prog, mode, seeds, f)
  {
    hide Derived;
    var r :| r in roots && Reaches(CalleeSucc(prog), r, f);
    var p :| WalkFromTo(CalleeSucc(prog), p, r, f);
    WalkIsDerived(prog, mode, seeds, p, |p| - 1);
  }

  lemma {:induction false} WalkIsDerived(prog: Program, mode: AugmentMode, seeds: set<Func>, p: seq<Func>, i: nat)
    requires Walk(CalleeSucc(prog), p) && i < |p|
    requires Derived(prog, mode, seeds, p[0])
    ensures Derived(prog, mode, seeds, p[i])
  {
    hide Derived, CalleeSucc;
    if i > 0 {
      WalkIsDerived(prog, mode, seeds, p, i - 1);
      assert p[i - 1 + 1] in CalleeSucc(prog)(p[i - 1]);
      DerivedCall(prog, mode, seeds, p[i - 1], p[i]);
    }
  }

  // ----- One step of the graph

  lemma PassDoneGrows(p: Pass, from: set<Func>, funcs: set<Func>, links: set<Link>, moreFuncs: set<Func>, moreLinks: set<Link>)
    requires PassDone(p, from, funcs, links) && funcs <= moreFuncs && links <= moreLinks
    ensures PassDone(p, from, moreFuncs, moreLinks)
  {
    forall f | f in from
      ensures Covered(moreFuncs, moreLinks, PassLinks(p, f))
    {
      assert Covered(funcs, links, PassLinks(p, f));
    }
  }

  /** Justified stays justified with one more derived function. */
  lemma JustifiedOne(prog: Program, mode: AugmentMode, seeds: set<Func>, funcs: set<Func>, links: set<Link>, f: Func)
    requires Justified(prog, mode, seeds, funcs, links) && Derived(prog, mode, seeds, f) && Monotone(prog, mode)
    ensures Justified(prog, mode, seeds, funcs + {f}, links)
  {
    hide Derived, RuleSucc, RuleLink, Monotone, PassSucc;
    MoreRules(prog, mode, funcs, funcs + {f});
  }

  lemma JustifiedLink(prog: Program, mode: AugmentMode, seeds: set<Func>, funcs: set<Func>, links: set<Link>, l: Link)
    requires Justified(prog, mode, seeds, funcs, links) && RuleLink(prog, mode, funcs, l)
    ensures Justified(prog, mode, seeds, funcs, links + {l})
  {
    hide Derived, RuleLink;
  }

  lemma JustifiedPass(prog: Program, mode: AugmentMode, seeds: set<Func>, scanned: set<Func>, funcs: set<Func>, links: set<Link>,
                      p: Pass, f: Func, t: Target)
    requires Justified(prog, mode, seeds, funcs, links) && Monotone(prog, mode)
    requires scanned <= funcs && p in PassesFor(prog, mode, scanned)
    requires f in funcs && t in ListOf(p.targets, f) && !t.fn.generic
    ensures Justified(prog, mode, seeds, funcs + {t.fn}, links + {Link(f, t.fn, t.kind)})
  {
    var l := Link(f, t.fn, t.kind);
    assert l in PassLinks(p, f);
    assert RuleLink(prog, mode, scanned, l);
    assert t.fn in PassTargets(PassesFor(prog, mode, scanned), f);
    hide Derived, RuleSucc, RuleLink, Monotone, PassTargets, PassesFor, PassLinks, PassSucc;
    DerivedTarget(prog, mode, seeds, scanned, f, t.fn);
    JustifiedOne(prog, mode, seeds, funcs, links, t.fn);
    MoreRules(prog, mode, scanned, funcs + {t.fn});
    JustifiedLink(prog, mode, seeds, funcs + {t.fn}, links, l);
  }

  lemma JustifiedAnchor(prog: Program, mode: AugmentMode, seeds: set<Func>, scanned: set<Func>, funcs: set<Func>, links: set<Link>,
                        p: Pass, a: Func)
    requires Justified(prog, mode, seeds, funcs, links) && Monotone(prog, mode)
    requires scanned <= funcs && p in PassesFor(prog, mode, scanned) && a in p.anchors
    ensures Justified(prog, mode, seeds, funcs + {a}, links)
  {
    assert a in Anchors(PassesFor(prog, mode, scanned));
    hide Derived, RuleLink, Monotone, Anchors, PassesFor;
    DerivedAnchor(prog, mode, seeds, scanned, a);
    JustifiedOne(prog, mode, seeds, funcs, links, a);
  }

  lemma JustifiedCall(prog: Program, mode: AugmentMode, seeds: set<Func>, funcs: set<Func>, links: set<Link>, f: Func, t: Target)
    requires Justified(prog, mode, seeds, funcs, links) && f in funcs && t in ListOf(prog.callees, f) && Monotone(prog, mode)
    ensures Justified(prog, mode, seeds, funcs + {t.fn}, links + {Link(f, t.fn, t.kind)})
  {
    var l := Link(f, t.fn, t.kind);
    assert t.fn in CalleeSucc(prog)(f);
    assert l in CallLinks(prog, f);
    assert RuleLink(prog, mode, funcs + {t.fn}, l);
    hide Derived, RuleLink, Monotone, CalleeSucc, CallLinks;
    DerivedCall(prog, mode, seeds, f, t.fn);
    JustifiedOne(prog, mode, seeds, funcs, links, t.fn);
    JustifiedLink(prog, mode, seeds, funcs + {t.fn}, links, l);
  }

  lemma JustifiedNothing(prog: Program, mode: AugmentMode, seeds: set<Func>)
    ensures Justified(prog, mode, seeds, {}, {})
  {
  }

  lemma CoveredGrows(funcs: set<Func>, links: set<Link>, moreFuncs: set<Func>, moreLinks: set<Link>, wanted: set<Link>)
    requires Covered(funcs, links, wanted) && funcs <= moreFuncs && links <= moreLinks
    ensures Covered(moreFuncs, moreLinks, wanted)
  {
  }

  lemma NothingToCover(p: Pass, f: Func, funcs: set<Func>, links: set<Link>)
    requires f !in p.targets
    ensures Covered(funcs, links, PassLinks(p, f))
  {
  }

  lemma PassIsListed(prog: Program, mode: AugmentMode, scanned: set<Func>, p: Pass)
    requires p in PassesFor(prog, mode, scanned) && Sane(prog, mode)
    ensures Listed(p) && Monotone(prog, mode)
  {
    hide Monotone, PassesFor, ReachedFrom, Anchors, Listed;
    assert SanePasses(prog, PassesFor(prog, mode, scanned));
  }

  lemma PassDoneLess(p: Pass, from: set<Func>, more: set<Func>, funcs: set<Func>, links: set<Link>)
    requires PassDone(p, more, funcs, links) && from <= more
    ensures PassDone(p, from, funcs, links)
  {
  }

  /** What the call graph of some roots lists, from the contract of the call-graph builder. */
  lemma CallGraphIs(prog: Program, mode: AugmentMode, seeds: set<Func>, roots: seq<Func>)
    requires Sane(prog, mode)
    requires forall r | r in roots :: Derived(prog, mode, seeds, r)
    ensures forall r | r in roots :: r in prog.callGraph(roots)
    ensures forall h, t | h in prog.callGraph(roots) && t in ListOf(prog.callees, h) :: t.fn in prog.callGraph(roots)
    ensures forall f | f in prog.callGraph(roots) :: Derived(prog, mode, seeds, f)
  {
    hide ReachedFrom, Derived, CalleeSucc, SanePasses, Monotone;
    var rs := set r | r in roots;
    forall r | r in roots
      ensures r in prog.callGraph(roots)
    {
      ReachedStart(CalleeSucc(prog), rs, r);
    }
    forall h, t | h in prog.callGraph(roots) && t in ListOf(prog.callees, h)
      ensures t.fn in prog.callGraph(roots)
    {
      CalleeStep(prog, h, t);
      ReachedNext(CalleeSucc(prog), rs, h, t.fn);
    }
    forall f | f in prog.callGraph(roots)
      ensures Derived(prog, mode, seeds, f)
    {
      CallGraphIsDerived(prog, mode, seeds, rs, f);
    }
  }

  lemma CalleeStep(prog: Program, h: Func, t: Target)
    requires t in ListOf(prog.callees, h)
    ensures t.fn in CalleeSucc(prog)(h)
  {
  }

  lemma NoCalls(prog: Program, mode: AugmentMode, scanned: set<Func>, f: Func, funcs: set<Func>, links: set<Link>)
    requires Sane(prog, mode) && f.generic && f in Anchors(PassesFor(prog, mode, scanned))
    ensures Covered(funcs, links, CallLinks(prog, f))
  {
    hide Monotone, PassesFor, ReachedFrom, Anchors;
    assert SanePasses(prog, PassesFor(prog, mode, scanned));
  }

  // ----- Where nothing is left to do

  lemma RuleLinkIsThere(prog: Program, mode: AugmentMode, F: set<Func>, L: set<Link>, l: Link)
    requires CallsDone(prog, F, F, L) && PassesDone(PassesFor(prog, mode, F), F, F, L)
    requires l.from in F && RuleLink(prog, mode, F, l)
    ensures l in L && l.to in F
  {
    hide CallLinks, PassLinks, PassesFor;
    if l in CallLinks(prog, l.from) {
      assert Covered(F, L, CallLinks(prog, l.from));
    } else {
      var p :| p in PassesFor(prog, mode, F) && l in PassLinks(p, l.from);
      assert PassDone(p, F, F, L);
      assert Covered(F, L, PassLinks(p, l.from));
    }
  }

  lemma SuccIsRuleLink(prog: Program, mode: AugmentMode, scanned: set<Func>, f: Func, h: Func) returns (l: Link)
    requires h in RuleSucc(prog, mode, scanned)(f)
    ensures l.from == f && l.to == h && RuleLink(prog, mode, scanned, l)
  {
    if h in CalleeSucc(prog)(f) {
      var t :| t in ListOf(prog.callees, f) && t.fn == h;
      l := Link(f, h, t.kind);
      assert l in CallLinks(prog, f);
    } else {
      l := TargetIsLink(PassesFor(prog, mode, scanned), f, h);
    }
  }

  lemma RuleLinkIsSucc(prog: Program, mode: AugmentMode, scanned: set<Func>, l: Link)
    requires RuleLink(prog, mode, scanned, l)
    ensures l.to in RuleSucc(prog, mode, scanned)(l.from)
  {
    hide PassTargets, PassLink;
    if l in CallLinks(prog, l.from) {
      assert l.to in CalleeSucc(prog)(l.from);
    } else {
      LinkIsTarget(PassesFor(prog, mode, scanned), l);
    }
  }

  lemma DoneIsClosed(prog: Program, mode: AugmentMode, F: set<Func>, L: set<Link>)
    requires CallsDone(prog, F, F, L) && PassesDone(PassesFor(prog, mode, F), F, F, L)
    ensures Closed(RuleSucc(prog, mode, F), F)
  {
    hide RuleSucc, CallsDone, PassesDone, RuleLink;
    forall f, h | f in F && h in RuleSucc(prog, mode, F)(f)
      ensures h in F
    {
      var l := SuccIsRuleLink(prog, mode, F, f, h);
      RuleLinkIsThere(prog, mode, F, L, l);
    }
  }

  lemma AnchorsAreThere(prog: Program, mode: AugmentMode, scanned: set<Func>, from: set<Func>, funcs: set<Func>, links: set<Link>)
    requires PassesDone(PassesFor(prog, mode, scanned), from, funcs, links)
    ensures Anchors(PassesFor(prog, mode, scanned)) <= funcs
  {
    forall a | a in Anchors(PassesFor(prog, mode, scanned))
      ensures a in funcs
    {
      var p :| p in PassesFor(prog, mode, scanned) && a in p.anchors;
      assert PassDone(p, from, funcs, links);
    }
  }

  lemma CallsDoneGrows(prog: Program, from: set<Func>, funcs: set<Func>, links: set<Link>, moreFuncs: set<Func>, moreLinks: set<Link>)
    requires CallsDone(prog, from, funcs, links) && funcs <= moreFuncs && links <= moreLinks
    ensures CallsDone(prog, from, moreFuncs, moreLinks)
  {
    forall f | f in from
      ensures Covered(moreFuncs, moreLinks, CallLinks(prog, f))
    {
      assert Covered(funcs, links, CallLinks(prog, f));
    }
  }

  /** In the least set everything is reached by a chain of rules, the index being complete. */
  lemma LeastIsReached(prog: Program, mode: AugmentMode, seeds: set<Func>, funcs: set<Func>, f: Func)
    requires Least(prog, mode, seeds, funcs) && Monotone(prog, mode)
    ensures f in funcs <==> ReachedFrom(RuleSucc(prog, mode, funcs), seeds + Anchors(PassesFor(prog, mode, funcs)), f)
  {
    var succ, starts := RuleSucc(prog, mode, funcs), seeds + Anchors(PassesFor(prog, mode, funcs));
    hide ReachedFrom, RuleSucc, PassesFor, Anchors, Monotone, Derived, ClosedUnder;
    if ReachedFrom(succ, starts, f) {
      ClosedHoldsReached(succ, funcs, starts, f);
    }
    if f in funcs {
      ReachedIsClosed(prog, mode, seeds, funcs);
      InClosed(prog, mode, seeds, f, iset g | ReachedFrom(succ, starts, g));
    }
  }

  lemma ReachedIsClosed(prog: Program, mode: AugmentMode, seeds: set<Func>, funcs: set<Func>)
    requires Least(prog, mode, seeds, funcs) && Monotone(prog, mode)
    ensures ClosedUnder(prog, mode, seeds,
                        iset g | ReachedFrom(RuleSucc(prog, mode, funcs), seeds + Anchors(PassesFor(prog, mode, funcs)), g))
  {
    var succ, starts := RuleSucc(prog, mode, funcs), seeds + Anchors(PassesFor(prog, mode, funcs));
    var c := iset g | ReachedFrom(succ, starts, g);
    hide ReachedFrom, PassesFor, Anchors, Monotone, Derived, PassTargets, CalleeSucc;
    forall f | f in starts
      ensures f in c
    {
      ReachedStart(succ, starts, f);
    }
    forall f, h | f in c && h in succ(f)
      ensures h in c
    {
      ReachedNext(succ, starts, f, h);
    }
    forall f, h | f in c && h in CalleeSucc(prog)(f)
      ensures h in c
    {
      assert h in succ(f);
    }
    forall s: set<Func> | forall f | f in s :: f in c
      ensures ClosedAt(PassesFor(prog, mode, s), s, c)
    {
      forall f | f in s
        ensures f in funcs
      {
        ClosedHoldsReached(succ, funcs, starts, f);
      }
      MoreRules(prog, mode, s, funcs);
      forall f, h | f in s && h in PassTargets(PassesFor(prog, mode, s), f)
        ensures h in c
      {
        assert h in RuleSucc(prog, mode, s)(f);
        assert h in succ(f);
      }
    }
  }

  // ----- Calls alone: the rules of the mode without passes

  lemma NoPassTargets(prog: Program, scanned: set<Func>)
    ensures forall f :: PassTargets(PassesFor(prog, RTAOnly, scanned), f) == {}
    ensures Anchors(PassesFor(prog, RTAOnly, scanned)) == {}
  {
  }

  lemma CallsAreRules(prog: Program, mode: AugmentMode, scanned: set<Func>, starts: set<Func>, f: Func)
    ensures ReachedFrom(RuleSucc(prog, RTAOnly, scanned), starts, f) <==> ReachedFrom(CalleeSucc(prog), starts, f)
    ensures ReachedFrom(CalleeSucc(prog), starts, f) ==> ReachedFrom(RuleSucc(prog, mode, scanned), starts, f)
  {
    hide ReachedFrom;
    NoPassTargets(prog, scanned);
    if ReachedFrom(RuleSucc(prog, RTAOnly, scanned), starts, f) {
      ReachedMore(RuleSucc(prog, RTAOnly, scanned), CalleeSucc(prog), starts, starts, f);
    }
    if ReachedFrom(CalleeSucc(prog), starts, f) {
      ReachedMore(CalleeSucc(prog), RuleSucc(prog, RTAOnly, scanned), starts, starts, f);
      ReachedMore(CalleeSucc(prog), RuleSucc(prog, mode, scanned), starts, starts, f);
    }
  }

  lemma NoPasses(prog: Program, funcs: set<Func>, links: set<Link>)
    ensures PassesDone(PassesFor(prog, RTAOnly, funcs), funcs, funcs, links)
  {
  }

  lemma SaneForCalls(prog: Program, mode: AugmentMode)
    requires Sane(prog, mode)
    ensures Sane(prog, RTAOnly)
  {
    hide ReachedFrom;
  }

  /** What calls alone justify, every mode justifies. */
  lemma CallsAreJustified(prog: Program, mode: AugmentMode, seeds: set<Func>, funcs: set<Func>, links: set<Link>)
    requires Justified(prog, RTAOnly, seeds, funcs, links)
    ensures Justified(prog, mode, seeds, funcs, links)
  {
    hide CallLinks, ClosedUnder;
    forall f | f in funcs
      ensures Derived(prog, mode, seeds, f)
    {
      assert Derived(prog, RTAOnly, seeds, f);
      forall c | ClosedUnder(prog, mode, seeds, c)
        ensures f in c
      {
        ClosedForCalls(prog, mode, seeds, c);
      }
    }
    forall l | l in links
      ensures RuleLink(prog, mode, funcs, l)
    {
      assert RuleLink(prog, RTAOnly, funcs, l);
    }
  }

  lemma ClosedForCalls(prog: Program, mode: AugmentMode, seeds: set<Func>, c: iset<Func>)
    requires ClosedUnder(prog, mode, seeds, c)
    ensures ClosedUnder(prog, RTAOnly, seeds, c)
  {
    hide CalleeSucc, Anchors, PassTargets, PassesFor;
    forall s: set<Func>
      ensures ClosedAt(PassesFor(prog, RTAOnly, s), s, c)
    {
      NoPassTargets(prog, s);
    }
  }

  // ----- How far one run of the passes leads

  /** Everything there is an anchor, or was reached from the base by the passes alone. */
  ghost predicate PassReached(prog: Program, mode: AugmentMode, base: set<Func>, funcs: set<Func>) {
    forall f | f in funcs :: ReachedFrom(PassSucc(prog, mode, base), base + Anchors(PassesFor(prog, mode, base)), f)
  }

  lemma PassReachedStart(prog: Program, mode: AugmentMode, base: set<Func>)
    ensures PassReached(prog, mode, base, base)
  {
    hide ReachedFrom;
    forall f | f in base
      ensures ReachedFrom(PassSucc(prog, mode, base), base + Anchors(PassesFor(prog, mode, base)), f)
    {
      ReachedStart(PassSucc(prog, mode, base), base + Anchors(PassesFor(prog, mode, base)), f);
    }
  }

  lemma PassReachedAnchor(prog: Program, mode: AugmentMode, base: set<Func>, funcs: set<Func>, p: Pass, a: Func)
    requires PassReached(prog, mode, base, funcs) && p in PassesFor(prog, mode, base) && a in p.anchors
    ensures PassReached(prog, mode, base, funcs + {a})
  {
    hide ReachedFrom;
    assert a in Anchors(PassesFor(prog, mode, base));
    ReachedStart(PassSucc(prog, mode, base), base + Anchors(PassesFor(prog, mode, base)), a);
  }

  lemma PassReachedTarget(prog: Program, mode: AugmentMode, base: set<Func>, funcs: set<Func>, p: Pass, f: Func, t: Target)
    requires PassReached(prog, mode, base, funcs) && p in PassesFor(prog, mode, base)
    requires f in funcs && t in ListOf(p.targets, f) && !t.fn.generic
    ensures PassReached(prog, mode, base, funcs + {t.fn})
  {
    hide ReachedFrom;
    assert t.fn in PassTargets(PassesFor(prog, mode, base), f);
    ReachedNext(PassSucc(prog, mode, base), base + Anchors(PassesFor(prog, mode, base)), f, t.fn);
  }

  /** Passes add no function in a generic context, except as an anchor. */
  lemma NewGenericIsAnchor(prog: Program, mode: AugmentMode, base: set<Func>, f: Func)
    requires ReachedFrom(PassSucc(prog, mode, base), base + Anchors(PassesFor(prog, mode, base)), f)
    ensures f.generic ==> f in base || f in Anchors(PassesFor(prog, mode, base))
  {
    var succ, starts := PassSucc(prog, mode, base), base + Anchors(PassesFor(prog, mode, base));
    var s :| s in starts && Reaches(succ, s, f);
    var p :| WalkFromTo(succ, p, s, f);
    if |p| > 1 {
      assert p[|p| - 2 + 1] in PassTargets(PassesFor(prog, mode, base), p[|p| - 2]);
    }
  }
}
