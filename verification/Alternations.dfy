/** How many alternations of passes and exploration a program takes: bounds from both sides, and a
    program that takes as many as one likes. */
module Alternations {
  import opened Functions
  import opened Reachability
  import opened ActivationGraph
  import opened AugmentRules

  ghost function AllReached(succ: Func -> set<Func>, from: iset<Func>): iset<Func> {
    iset f, h | h in from && Reaches(succ, h, f) :: f
  }

  ghost predicate Part(s: set<Func>, of: iset<Func>) {
    forall f | f in s :: f in of
  }

  /** What one step of the passes adds, with any part of the functions scanned. */
  ghost predicate Passed(prog: Program, mode: AugmentMode, s: set<Func>, h: Func) {
    h in Anchors(PassesFor(prog, mode, s)) || exists g :: g in s && h in PassSucc(prog, mode, s)(g)
  }

  ghost predicate OneStep(prog: Program, mode: AugmentMode, from: iset<Func>, h: Func) {
    h in from || exists s :: Part(s, from) && Passed(prog, mode, s, h)
  }

  /** What one run of the passes can add, walking what it has just found. */
  ghost predicate AllSteps(prog: Program, mode: AugmentMode, from: iset<Func>, h: Func) {
    exists s :: Part(s, from) && ReachedFrom(PassSucc(prog, mode, s), s + Anchors(PassesFor(prog, mode, s)), h)
  }

  /** What is found after `n` alternations in whatever order the passes walk: each alternation
      follows the passes for at least one step, and then the calls as far as they lead. */
  ghost function FoundSurely(prog: Program, mode: AugmentMode, start: set<Func>, n: nat): iset<Func> {
    if n == 0 then iset f | f in start
    else
      var from := FoundSurely(prog, mode, start, n - 1);
      AllReached(CalleeSucc(prog), iset h | OneStep(prog, mode, from, h))
  }

  /** What can be found after `n` alternations at best: a pass may walk what it has just found. */
  ghost function FoundAtBest(prog: Program, mode: AugmentMode, start: set<Func>, n: nat): iset<Func> {
    if n == 0 then iset f | f in start
    else
      var from := FoundAtBest(prog, mode, start, n - 1);
      AllReached(CalleeSucc(prog), iset h | AllSteps(prog, mode, from, h))
  }

  /** After `n` alternations the graph holds what is surely found, and nothing beyond the best case. */
  ghost predicate FoundAfter(prog: Program, mode: AugmentMode, start: set<Func>, n: nat, funcs: set<Func>) {
    && (forall f | f in FoundSurely(prog, mode, start, n) :: f in funcs)
    && (forall f | f in funcs :: f in FoundAtBest(prog, mode, start, n))
  }

  /** `n` alternations surely find everything there is to find. */
  ghost predicate SurelyEnough(prog: Program, mode: AugmentMode, seeds: set<Func>, start: set<Func>, n: nat) {
    forall f :: Derived(prog, mode, seeds, f) ==> f in FoundSurely(prog, mode, start, n)
  }

  /** Even at best `n` alternations miss something. */
  ghost predicate NeverEnough(prog: Program, mode: AugmentMode, seeds: set<Func>, start: set<Func>, n: nat) {
    exists f :: Derived(prog, mode, seeds, f) && f !in FoundAtBest(prog, mode, start, n)
  }

  lemma NothingFoundYet(prog: Program, mode: AugmentMode, start: set<Func>)
    ensures FoundAfter(prog, mode, start, 0, start)
  {
  }

  lemma {:induction false} AtBestGrows(prog: Program, mode: AugmentMode, start: set<Func>, m: nat, n: nat)
    requires m <= n
    ensures FoundAtBest(prog, mode, start, m) <= FoundAtBest(prog, mode, start, n)
  {
    hide Reaches, PassSucc, CalleeSucc, PassesFor, Anchors, ReachedFrom;
    if m < n {
      AtBestGrows(prog, mode, start, m, n - 1);
      forall f | f in FoundAtBest(prog, mode, start, n - 1)
        ensures f in FoundAtBest(prog, mode, start, n)
      {
        ReachedStart(PassSucc(prog, mode, {f}), {f} + Anchors(PassesFor(prog, mode, {f})), f);
        assert Part({f}, FoundAtBest(prog, mode, start, n - 1));
        ReachesSelf(CalleeSucc(prog), f);
      }
    }
  }

  lemma CallsDoneIsClosed(prog: Program, F: set<Func>, L: set<Link>)
    requires CallsDone(prog, F, F, L)
    ensures Closed(CalleeSucc(prog), F)
  {
    forall f, h | f in F && h in CalleeSucc(prog)(f)
      ensures h in F
    {
      var t :| t in ListOf(prog.callees, f) && t.fn == h;
      assert Covered(F, L, CallLinks(prog, f));
      assert Link(f, h, t.kind) in CallLinks(prog, f);
    }
  }

  lemma PassesReachTargets(prog: Program, mode: AugmentMode, scanned: set<Func>, from: set<Func>, funcs: set<Func>, links: set<Link>)
    requires PassesDone(PassesFor(prog, mode, scanned), from, funcs, links)
    ensures forall f, h | f in from && h in PassSucc(prog, mode, scanned)(f) :: h in funcs
  {
    forall f, h | f in from && h in PassSucc(prog, mode, scanned)(f)
      ensures h in funcs
    {
      var p, t :| p in PassesFor(prog, mode, scanned) && t in ListOf(p.targets, f) && !t.fn.generic && t.fn == h;
      assert PassDone(p, from, funcs, links);
      assert Covered(funcs, links, PassLinks(p, f));
      assert Link(f, h, t.kind) in PassLinks(p, f);
    }
  }

  /** One more alternation: the passes run on what was found, then the calls are explored. */
  lemma Alternates(prog: Program, mode: AugmentMode, start: set<Func>, n: nat, F: set<Func>, passed: set<Func>, links: set<Link>,
                   after: set<Func>, afterLinks: set<Link>)
    requires FoundAfter(prog, mode, start, n, F) && F <= passed <= after
    requires PassesDone(PassesFor(prog, mode, F), F, passed, links) && PassReached(prog, mode, F, passed)
    requires CallsDone(prog, after, after, afterLinks) && Monotone(prog, mode)
    requires forall f | f in after :: ReachedFrom(CalleeSucc(prog), passed, f)
    ensures FoundAfter(prog, mode, start, n + 1, after)
  {
    hide FoundSurely, FoundAtBest, ReachedFrom, CalleeSucc, PassesDone, CallsDone, PassReached;
    SurelyNext(prog, mode, start, n, F, passed, links, after, afterLinks);
    AtBestNext(prog, mode, start, n, F, passed, after);
  }

  /** A run that still finds something was short of alternations. */
  lemma NotEnough(prog: Program, mode: AugmentMode, seeds: set<Func>, start: set<Func>, n: nat, F: set<Func>,
                  funcs: set<Func>, links: set<Link>, f: Func)
    requires FoundAfter(prog, mode, start, n, F) && Justified(prog, mode, seeds, funcs, links)
    requires f in funcs && f !in F
    ensures !SurelyEnough(prog, mode, seeds, start, n)
  {
    hide FoundSurely, FoundAtBest, Derived, RuleSucc, RuleLink;
  }

  /** A run that has found everything had alternations enough. */
  lemma Enough(prog: Program, mode: AugmentMode, seeds: set<Func>, start: set<Func>, m: nat, n: nat, funcs: set<Func>)
    requires Least(prog, mode, seeds, funcs) && Monotone(prog, mode) && m <= n
    requires FoundAfter(prog, mode, start, m, funcs)
    ensures !NeverEnough(prog, mode, seeds, start, n)
  {
    hide FoundSurely, FoundAtBest, Derived, RuleSucc, Anchors, PassesFor, Closed, Monotone, ClosedUnder;
    AtBestGrows(prog, mode, start, m, n);
    FixedIsClosedUnder(prog, mode, seeds, funcs);
    forall f | Derived(prog, mode, seeds, f)
      ensures f in FoundAtBest(prog, mode, start, n)
    {
      InClosed(prog, mode, seeds, f, iset g | g in funcs);
    }
  }

  /** One more alternation finds at least one more level. */
  lemma SurelyNext(prog: Program, mode: AugmentMode, start: set<Func>, n: nat, F: set<Func>, passed: set<Func>, links: set<Link>,
                   after: set<Func>, afterLinks: set<Link>)
    requires forall f | f in FoundSurely(prog, mode, start, n) :: f in F
    requires PassesDone(PassesFor(prog, mode, F), F, passed, links) && F <= passed <= after
    requires CallsDone(prog, after, after, afterLinks) && Monotone(prog, mode)
    ensures forall f | f in FoundSurely(prog, mode, start, n + 1) :: f in after
  {
    hide PassesDone, CallsDone, CalleeSucc, PassesFor, Anchors, Monotone, PassSucc;
    CallsDoneIsClosed(prog, after, afterLinks);
    forall f | f in FoundSurely(prog, mode, start, n + 1)
      ensures f in after
    {
      var h :| OneStep(prog, mode, FoundSurely(prog, mode, start, n), h) && Reaches(CalleeSucc(prog), h, f);
      if h !in FoundSurely(prog, mode, start, n) {
        var s :| Part(s, FoundSurely(prog, mode, start, n)) && Passed(prog, mode, s, h);
        assert s <= F;
        PassedIsThere(prog, mode, s, F, passed, links, h);
      }
      assert ReachedFrom(CalleeSucc(prog), after, f);
      ClosedHoldsReached(CalleeSucc(prog), after, after, f);
    }
  }

  lemma PassedIsThere(prog: Program, mode: AugmentMode, s: set<Func>, F: set<Func>, passed: set<Func>, links: set<Link>, h: Func)
    requires Passed(prog, mode, s, h) && s <= F && Monotone(prog, mode)
    requires PassesDone(PassesFor(prog, mode, F), F, passed, links)
    ensures h in passed
  {
    hide PassesDone, PassSucc, PassesFor, Anchors, Monotone;
    MoreRules(prog, mode, s, F);
    AnchorsAreThere(prog, mode, F, F, passed, links);
    PassesReachTargets(prog, mode, F, F, passed, links);
  }

  /** One more alternation finds at most one more level. */
  lemma AtBestNext(prog: Program, mode: AugmentMode, start: set<Func>, n: nat, F: set<Func>, passed: set<Func>, after: set<Func>)
    requires forall f | f in F :: f in FoundAtBest(prog, mode, start, n)
    requires PassReached(prog, mode, F, passed)
    requires forall f | f in after :: ReachedFrom(CalleeSucc(prog), passed, f)
    ensures forall f | f in after :: f in FoundAtBest(prog, mode, start, n + 1)
  {
    hide Reaches, PassSucc, CalleeSucc, PassesFor, Anchors;
    forall f | f in after
      ensures f in FoundAtBest(prog, mode, start, n + 1)
    {
      var h :| h in passed && Reaches(CalleeSucc(prog), h, f);
      assert ReachedFrom(PassSucc(prog, mode, F), F + Anchors(PassesFor(prog, mode, F)), h);
      assert Part(F, FoundAtBest(prog, mode, start, n));
    }
  }

  // ----- A program that takes as many alternations as one likes

  function Nth(i: nat): Func {
    Func(i, FunctionKey("", "", ""), "", false)
  }

  /** Everything up to the `n`th function. */
  function UpTo(n: nat): set<Func> {
    set i: nat | i <= n :: Nth(i)
  }

  /** The links from functions of this parity to the next function, `last` of them at most. */
  function NextLinks(parity: nat, last: nat): map<Func, seq<Target>> {
    map f | f in UpTo(last) && f.id < last && f.id % 2 == parity :: [Target(Nth(f.id + 1), "")]
  }

  /** Passes lead from every even function to the next one, calls from every odd one. */
  function Zigzag(last: nat): Program {
    Program((name, scanned) => Pass([], NextLinks(0, last), None), NextLinks(1, last), roots => WithCallees(NextLinks(1, last), roots))
  }

  /** The roots and what each of them calls. */
  function WithCallees(callees: map<Func, seq<Target>>, roots: seq<Func>): seq<Func> {
    if roots == [] then []
    else
      var list := ListOf(callees, roots[0]);
      [roots[0]] + (if list == [] then [] else [list[0].fn]) + WithCallees(callees, roots[1..])
  }

  lemma {:induction false} WithCalleesIs(callees: map<Func, seq<Target>>, roots: seq<Func>, f: Func)
    ensures f in WithCallees(callees, roots) <==>
              f in roots || exists r :: r in roots && ListOf(callees, r) != [] && f == ListOf(callees, r)[0].fn
  {
    if roots != [] {
      WithCalleesIs(callees, roots[1..], f);
      assert forall r :: r in roots <==> r == roots[0] || r in roots[1..];
    }
  }

  lemma LinksLead(parity: nat, last: nat, i: nat)
    requires parity < 2
    ensures ListOf(NextLinks(parity, last), Nth(i)) == if i < last && i % 2 == parity then [Target(Nth(i + 1), "")] else []
    ensures forall f: Func | f in NextLinks(parity, last) :: f == Nth(f.id)
  {
    UpToHolds(last, Nth(i));
    forall f: Func | f in NextLinks(parity, last)
      ensures f == Nth(f.id)
    {
      UpToHolds(last, f);
    }
  }

  lemma UpToHolds(n: nat, f: Func)
    ensures f in UpTo(n) <==> f == Nth(f.id) && f.id <= n
  {
    assert f.id <= n ==> Nth(f.id) in UpTo(n);
  }

  lemma ZigzagSteps(last: nat, mode: AugmentMode, scanned: set<Func>, f: Func, h: Func)
    requires f == Nth(f.id) && !mode.RTAOnly?
    ensures h in CalleeSucc(Zigzag(last))(f) <==> h == Nth(f.id + 1) && f.id < last && f.id % 2 == 1
    ensures h in PassSucc(Zigzag(last), mode, scanned)(f) <==> h == Nth(f.id + 1) && f.id < last && f.id % 2 == 0
  {
    LinksLead(0, last, f.id);
    LinksLead(1, last, f.id);
    hide NextLinks;
    var p := Pass([], NextLinks(0, last), None);
    assert PassNames(mode) != [];
    assert PassesFor(Zigzag(last), mode, scanned)[0] == p;
    assert forall q :: q in PassesFor(Zigzag(last), mode, scanned) <==> q == p;
    var t := Target(Nth(f.id + 1), "");
    assert t in [t];
    if f.id < last && f.id % 2 == 1 {
      assert t in ListOf(Zigzag(last).callees, f);
    }
    if f.id < last && f.id % 2 == 0 {
      assert t in ListOf(p.targets, f) && !t.fn.generic;
    }
  }

  lemma ClosedUpTo(last: nat, mode: AugmentMode, scanned: set<Func>, n: nat)
    requires !mode.RTAOnly?
    ensures n % 2 == 0 ==> Closed(CalleeSucc(Zigzag(last)), UpTo(n))
    ensures n % 2 == 1 ==> Closed(PassSucc(Zigzag(last), mode, scanned), UpTo(n))
  {
    hide CalleeSucc, PassSucc, UpTo;
    forall f, h | f in UpTo(n)
      ensures n % 2 == 0 && h in CalleeSucc(Zigzag(last))(f) ==> h in UpTo(n)
      ensures n % 2 == 1 && h in PassSucc(Zigzag(last), mode, scanned)(f) ==> h in UpTo(n)
    {
      UpToHolds(n, f);
      UpToHolds(n, h);
      ZigzagSteps(last, mode, scanned, f, h);
    }
  }

  lemma FoundLast(prog: Program, mode: AugmentMode, start: set<Func>, n: nat, f: Func) returns (s: set<Func>, g: Func, h: Func)
    requires n > 0 && f in FoundAtBest(prog, mode, start, n)
    ensures Part(s, FoundAtBest(prog, mode, start, n - 1)) && (g in s || g in Anchors(PassesFor(prog, mode, s)))
    ensures Reaches(PassSucc(prog, mode, s), g, h) && Reaches(CalleeSucc(prog), h, f)
  {
    hide Reaches, PassSucc, CalleeSucc, Anchors, PassesFor, Part;
    h :| AllSteps(prog, mode, FoundAtBest(prog, mode, start, n - 1), h) && Reaches(CalleeSucc(prog), h, f);
    s :| Part(s, FoundAtBest(prog, mode, start, n - 1))
         && ReachedFrom(PassSucc(prog, mode, s), s + Anchors(PassesFor(prog, mode, s)), h);
    g :| g in s + Anchors(PassesFor(prog, mode, s)) && Reaches(PassSucc(prog, mode, s), g, h);
  }

  lemma StaysIn(succ: Func -> set<Func>, s: set<Func>, f: Func, h: Func)
    requires Closed(succ, s) && f in s && Reaches(succ, f, h)
    ensures h in s
  {
    hide Reaches;
    ClosedHoldsReached(succ, s, s, h);
  }

  lemma TwoFurther(last: nat, mode: AugmentMode, scanned: set<Func>, m: nat, g: Func, h: Func, f: Func)
    requires !mode.RTAOnly? && m % 2 == 0 && g in UpTo(m)
    requires Reaches(PassSucc(Zigzag(last), mode, scanned), g, h) && Reaches(CalleeSucc(Zigzag(last)), h, f)
    ensures f in UpTo(m + 2)
  {
    hide *;
    ClosedUpTo(last, mode, scanned, m + 1);
    ClosedUpTo(last, mode, scanned, m + 2);
    UpToGrows(m, m + 1);
    StaysIn(PassSucc(Zigzag(last), mode, scanned), UpTo(m + 1), g, h);
    UpToGrows(m + 1, m + 2);
    StaysIn(CalleeSucc(Zigzag(last)), UpTo(m + 2), h, f);
  }

  /** Even at best an alternation gets two functions further. */
  lemma {:induction false} TwoAtATime(last: nat, mode: AugmentMode, n: nat, f: Func)
    requires !mode.RTAOnly? && f in FoundAtBest(Zigzag(last), mode, {Nth(0)}, n)
    ensures f in UpTo(2 * n)
  {
    hide *;
    if n == 0 {
      FoundFirst(Zigzag(last), mode, f);
    } else {
      var s, g, h := FoundLast(Zigzag(last), mode, {Nth(0)}, n, f);
      NoAnchors(last, mode, s);
      PartHolds(s, FoundAtBest(Zigzag(last), mode, {Nth(0)}, n - 1), g);
      TwoAtATime(last, mode, n - 1, g);
      TwoFurther(last, mode, s, 2 * (n - 1), g, h, f);
      assert 2 * (n - 1) + 2 == 2 * n;
    }
  }

  lemma FoundFirst(prog: Program, mode: AugmentMode, f: Func)
    requires f in FoundAtBest(prog, mode, {Nth(0)}, 0)
    ensures f in UpTo(0)
  {
    UpToHolds(0, f);
  }

  lemma PartHolds(s: set<Func>, of: iset<Func>, f: Func)
    requires Part(s, of)
    ensures f in s ==> f in of
  {
  }

  lemma NoAnchors(last: nat, mode: AugmentMode, scanned: set<Func>)
    requires !mode.RTAOnly?
    ensures Anchors(PassesFor(Zigzag(last), mode, scanned)) == {}
  {
  }

  lemma CallsOnce(last: nat, r: Func)
    ensures CalleeSucc(Zigzag(last))(r) == set t | t in ListOf(NextLinks(1, last), r) :: t.fn
    ensures r !in NextLinks(1, last) ==> CalleeSucc(Zigzag(last))(r) == {}
    ensures r in NextLinks(1, last) ==>
              r == Nth(r.id) && r.id % 2 == 1 && ListOf(NextLinks(1, last), r) == [Target(Nth(r.id + 1), "")]
              && CalleeSucc(Zigzag(last))(r) == {Nth(r.id + 1)}
    ensures Nth(r.id + 1) in NextLinks(1, last) ==> r.id % 2 == 0
  {
    LinksLead(1, last, r.id);
    LinksLead(1, last, r.id + 1);
  }

  lemma ZigzagCallGraph(last: nat, roots: seq<Func>, f: Func)
    ensures f in Zigzag(last).callGraph(roots) <==> ReachedFrom(CalleeSucc(Zigzag(last)), (set r | r in roots), f)
  {
    hide CalleeSucc, NextLinks, WithCallees, ReachedFrom;
    var prog, rs := Zigzag(last), set r | r in roots;
    var all := set h | h in prog.callGraph(roots);
    WithCalleesIs(prog.callees, roots, f);
    if f in prog.callGraph(roots) {
      if f in roots {
        ReachedStart(CalleeSucc(prog), rs, f);
      } else {
        var r :| r in roots && ListOf(prog.callees, r) != [] && f == ListOf(prog.callees, r)[0].fn;
        CallsOnce(last, r);
        ReachedStart(CalleeSucc(prog), rs, r);
        ReachedNext(CalleeSucc(prog), rs, r, f);
      }
    }
    if ReachedFrom(CalleeSucc(prog), rs, f) {
      forall g, h | g in all && h in CalleeSucc(prog)(g)
        ensures h in all
      {
        CallsOnce(last, g);
        WithCalleesIs(prog.callees, roots, g);
        WithCalleesIs(prog.callees, roots, h);
        if g !in roots {
          var r :| r in roots && ListOf(prog.callees, r) != [] && g == ListOf(prog.callees, r)[0].fn;
          CallsOnce(last, r);
          assert false;
        }
      }
      forall r | r in rs
        ensures r in all
      {
        WithCalleesIs(prog.callees, roots, r);
      }
      ClosedHoldsReached(CalleeSucc(prog), all, rs, f);
    }
  }

  lemma ZigzagIsSane(last: nat, mode: AugmentMode)
    requires !mode.RTAOnly?
    ensures Sane(Zigzag(last), mode)
  {
    hide CalleeSucc, ReachedFrom, Anchors;
    forall s: set<Func>
      ensures SanePasses(Zigzag(last), PassesFor(Zigzag(last), mode, s))
    {
      NoAnchors(last, mode, s);
    }
    forall s: set<Func>, t: set<Func>
      ensures MorePasses(PassesFor(Zigzag(last), mode, s), PassesFor(Zigzag(last), mode, t))
    {
      assert PassesFor(Zigzag(last), mode, s) == PassesFor(Zigzag(last), mode, t);
    }
    forall roots: seq<Func>, f: Func
      ensures f in Zigzag(last).callGraph(roots) <==> ReachedFrom(CalleeSucc(Zigzag(last)), (set r | r in roots), f)
    {
      ZigzagCallGraph(last, roots, f);
    }
  }

  lemma UpToGrows(m: nat, n: nat)
    requires m <= n
    ensures UpTo(m) <= UpTo(n)
  {
  }

  lemma {:induction false} ZigzagDerives(last: nat, mode: AugmentMode, i: nat)
    requires i <= last && !mode.RTAOnly?
    ensures Derived(Zigzag(last), mode, {Nth(0)}, Nth(i))
  {
    hide CalleeSucc, PassTargets, Derived, Sane, PassesFor;
    if i == 0 {
      DerivedSeed(Zigzag(last), mode, {Nth(0)}, Nth(0));
    } else {
      ZigzagDerives(last, mode, i - 1);
      ZigzagSteps(last, mode, {}, Nth(i - 1), Nth(i));
      if (i - 1) % 2 == 1 {
        DerivedCall(Zigzag(last), mode, {Nth(0)}, Nth(i - 1), Nth(i));
      } else {
        ZigzagIsMonotone(last, mode);
        DerivedTarget(Zigzag(last), mode, {Nth(0)}, {}, Nth(i - 1), Nth(i));
      }
    }
  }

  lemma ZigzagIsMonotone(last: nat, mode: AugmentMode)
    requires !mode.RTAOnly?
    ensures Monotone(Zigzag(last), mode)
  {
    ZigzagIsSane(last, mode);
    hide SanePasses, ReachedFrom, MorePasses;
  }

  /** No number of alternations is enough for every program: this one needs more than `n`. */
  lemma AlternationsCanFallShort(n: nat, mode: AugmentMode)
    requires !mode.RTAOnly?
    ensures Sane(Zigzag(2 * n + 1), mode) && NeverEnough(Zigzag(2 * n + 1), mode, {Nth(0)}, {Nth(0)}, n)
  {
    hide FoundAtBest, Derived, UpTo, Sane;
    var last := 2 * n + 1;
    ZigzagIsSane(last, mode);
    if Nth(last) in FoundAtBest(Zigzag(last), mode, {Nth(0)}, n) {
      TwoAtATime(last, mode, n, Nth(last));
      UpToHolds(2 * n, Nth(last));
    }
    ZigzagDerives(last, mode, last);
    assert Nth(last) !in FoundAtBest(Zigzag(last), mode, {Nth(0)}, n);
  }
}
