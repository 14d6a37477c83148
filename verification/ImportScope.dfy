/** The packages that import a target package, directly or not: a worklist over reverse imports. */
module ImportScope {
  import opened Orders
  import opened Reachability

  /** One package as the module listing shows it. */
  datatype Package = Package(path: string, imports: seq<string>)

  predicate Imports(p: Package, path: string, imported: string) {
    p.path == path && imported in p.imports
  }

  predicate ImportsDirectly(pkgs: seq<Package>, path: string, imported: string) {
    exists p :: p in pkgs && Imports(p, path, imported)
  }

  /** The packages that list `imported` among their imports. */
  ghost function Importers(pkgs: seq<Package>): string -> set<string> {
    imported => set p | p in pkgs && imported in p.imports :: p.path
  }

  /** A chain of imports: every package of it is imported by the one before. */
  ghost predicate ImportChain(pkgs: seq<Package>, chain: seq<string>, from: string, to: string) {
    && |chain| > 0 && chain[0] == from && chain[|chain| - 1] == to
    && forall i | 0 <= i < |chain| - 1 :: ImportsDirectly(pkgs, chain[i], chain[i + 1])
  }

  ghost predicate Depends(pkgs: seq<Package>, from: string, to: string) {
    exists chain :: ImportChain(pkgs, chain, from, to)
  }

  function Reversed<T>(s: seq<T>): (r: seq<T>)
    ensures |r| == |s| && forall i | 0 <= i < |s| :: r[i] == s[|s| - 1 - i]
  {
    seq(|s|, i requires 0 <= i < |s| => s[|s| - 1 - i])
  }

  lemma ImportersAreReverse(pkgs: seq<Package>, a: string, b: string)
    ensures a in Importers(pkgs)(b) <==> ImportsDirectly(pkgs, a, b)
  {
    if a in Importers(pkgs)(b) {
      var p :| p in pkgs && b in p.imports && p.path == a;
      assert Imports(p, a, b);
    }
  }

  /** Walking reverse imports from the target finds exactly the packages that depend on it. */
  lemma ReverseIsDepends(pkgs: seq<Package>, target: string, x: string)
    ensures Reaches(Importers(pkgs), target, x) <==> Depends(pkgs, x, target)
  {
    hide Importers, ImportsDirectly;
    if Reaches(Importers(pkgs), target, x) {
      var p :| WalkFromTo(Importers(pkgs), p, target, x);
      var chain := Reversed(p);
      forall i | 0 <= i < |chain| - 1
        ensures ImportsDirectly(pkgs, chain[i], chain[i + 1])
      {
        var k := |p| - 2 - i;
        assert p[k + 1] in Importers(pkgs)(p[k]);
        ImportersAreReverse(pkgs, p[k + 1], p[k]);
      }
      assert ImportChain(pkgs, chain, x, target);
    }
    if Depends(pkgs, x, target) {
      var chain :| ImportChain(pkgs, chain, x, target);
      var p := Reversed(chain);
      forall i | 0 <= i < |p| - 1
        ensures p[i + 1] in Importers(pkgs)(p[i])
      {
        var k := |chain| - 2 - i;
        assert ImportsDirectly(pkgs, chain[k], chain[k + 1]);
        ImportersAreReverse(pkgs, chain[k], chain[k + 1]);
      }
      assert WalkFromTo(Importers(pkgs), p, target, x);
    }
  }

  // ----- The reverse map

  function Known(reverse: map<string, seq<string>>, path: string): seq<string> {
    if path in reverse then reverse[path] else []
  }

  ghost predicate ReverseOf(reverse: map<string, seq<string>>, pkgs: seq<Package>) {
    forall imp, x :: x in Known(reverse, imp) <==> x in Importers(pkgs)(imp)
  }

  lemma ImportersMore(pkgs: seq<Package>, p: Package, imp: string, x: string)
    ensures x in Importers(pkgs + [p])(imp) <==> x in Importers(pkgs)(imp) || (imp in p.imports && x == p.path)
  {
    if x in Importers(pkgs + [p])(imp) {
      var q :| q in pkgs + [p] && imp in q.imports && q.path == x;
    }
    if imp in p.imports && x == p.path {
      assert p in pkgs + [p];
    }
    if x in Importers(pkgs)(imp) {
      var q :| q in pkgs && imp in q.imports && q.path == x;
      assert q in pkgs + [p];
    }
  }

  method BuildReverse(pkgs: seq<Package>) returns (reverse: map<string, seq<string>>)
    ensures ReverseOf(reverse, pkgs)
  {
    reverse := map[];
    for i := 0 to |pkgs|
      invariant ReverseOf(reverse, pkgs[..i])
    {
      var pkg := pkgs[i];
      reverse := AddImports(reverse, pkg);
      forall imp, x
        ensures x in Known(reverse, imp) <==> x in Importers(pkgs[..i + 1])(imp)
      {
        assert pkgs[..i + 1] == pkgs[..i] + [pkg];
        ImportersMore(pkgs[..i], pkg, imp, x);
      }
    }
    assert pkgs[..|pkgs|] == pkgs;
  }

  method AddImports(reverse: map<string, seq<string>>, pkg: Package) returns (more: map<string, seq<string>>)
    ensures forall imp, x :: x in Known(more, imp) <==> x in Known(reverse, imp) || (imp in pkg.imports && x == pkg.path)
  {
    more := reverse;
    for j := 0 to |pkg.imports|
      invariant forall imp, x :: x in Known(more, imp) <==> x in Known(reverse, imp) || (imp in pkg.imports[..j] && x == pkg.path)
    {
      ghost var before := more;
      var imp := pkg.imports[j];
      more := more[imp := Known(more, imp) + [pkg.path]];
      assert pkg.imports[..j + 1] == pkg.imports[..j] + [imp];
      forall other, x
        ensures x in Known(more, other) <==> x in Known(before, other) || (other == imp && x == pkg.path)
      {
      }
    }
    assert pkg.imports[..|pkg.imports|] == pkg.imports;
  }

  // ----- The worklist

  /** Everything seen is reached, and everything reached in one more step from a finished node is seen. */
  ghost predicate Frontier(succ: string -> set<string>, target: string, visited: set<string>, queue: seq<string>) {
    && target in visited
    && (forall x | x in visited :: Reaches(succ, target, x))
    && (forall x | x in queue :: x in visited)
    && (forall x, y | x in visited && x !in queue && y in succ(x) :: y in visited)
  }

  lemma FrontierDone(succ: string -> set<string>, target: string, visited: set<string>)
    requires Frontier(succ, target, visited, [])
    ensures forall x :: x in visited <==> Reaches(succ, target, x)
  {
    forall x | Reaches(succ, target, x)
      ensures x in visited
    {
      var p :| WalkFromTo(succ, p, target, x);
      ClosedHoldsWalk(succ, visited, p, |p| - 1);
    }
  }

  /** Visits the importers of one package that were not seen yet. */
  method Visit(importers: seq<string>, seen: set<string>, waiting: seq<string>) returns (visited: set<string>, queue: seq<string>)
    ensures forall x :: x in visited <==> x in seen || x in importers
    ensures forall x :: x in queue <==> x in waiting || (x in importers && x !in seen)
    ensures visited == seen ==> queue == waiting
  {
    visited, queue := seen, waiting;
    for i := 0 to |importers|
      invariant forall x :: x in visited <==> x in seen || x in importers[..i]
      invariant forall x :: x in queue <==> x in waiting || (x in importers[..i] && x !in seen)
      invariant visited == seen ==> queue == waiting
    {
      assert importers[..i + 1] == importers[..i] + [importers[i]];
      if importers[i] !in visited {
        visited := visited + {importers[i]};
        queue := queue + [importers[i]];
        assert importers[i] in visited && importers[i] !in seen;
      }
    }
    assert importers[..|importers|] == importers;
  }

  lemma VisitKeeps(succ: string -> set<string>, target: string, cur: string, seen: set<string>, waiting: seq<string>,
                   visited: set<string>, queue: seq<string>)
    requires Frontier(succ, target, seen, [cur] + waiting)
    requires forall x :: x in visited <==> x in seen || x in succ(cur)
    requires forall x :: x in queue <==> x in waiting || (x in succ(cur) && x !in seen)
    ensures Frontier(succ, target, visited, queue)
  {
    assert cur in [cur] + waiting;
    forall x | x in visited
      ensures Reaches(succ, target, x)
    {
      if x !in seen {
        ReachesStep(succ, target, cur, x);
      }
    }
    forall x, y | x in visited && x !in queue && y in succ(x)
      ensures y in visited
    {
      assert x in [cur] + waiting ==> x == cur || x in waiting;
    }
  }

  method ReverseReach(pkgs: seq<Package>, target: string) returns (visited: set<string>)
    ensures forall x :: x in visited <==> Depends(pkgs, x, target)
  {
    var reverse := BuildReverse(pkgs);
    ghost var universe := (set p | p in pkgs :: p.path) + {target};
    visited := {target};
    var queue := [target];
    ReachesSelf(Importers(pkgs), target);
    while |queue| > 0
      invariant Frontier(Importers(pkgs), target, visited, queue)
      invariant visited <= universe
      decreases |universe - visited|, |queue|
    {
      var cur := queue[0];
      ghost var seen, waiting := visited, queue[1..];
      assert queue == [cur] + waiting;
      visited, queue := Visit(Known(reverse, cur), visited, queue[1..]);
      VisitKeeps(Importers(pkgs), target, cur, seen, waiting, visited, queue);
      Shrinks(universe, seen, visited);
    }
    assert queue == [];
    FrontierDone(Importers(pkgs), target, visited);
    forall x
      ensures x in visited <==> Depends(pkgs, x, target)
    {
      ReverseIsDepends(pkgs, target, x);
    }
  }

  lemma Shrinks(universe: set<string>, seen: set<string>, visited: set<string>)
    requires seen <= visited <= universe
    ensures visited != seen ==> |universe - visited| < |universe - seen|
  {
    if visited != seen {
      assert universe - visited < universe - seen;
      assert universe - seen == (universe - visited) + (visited - seen);
    }
  }

  // ----- The scope

  /** The listed paths in a set, in listing order. */
  function Scoped(pkgs: seq<Package>, visited: set<string>): seq<string> {
    if pkgs == [] then []
    else if pkgs[0].path in visited then [pkgs[0].path] + Scoped(pkgs[1..], visited)
    else Scoped(pkgs[1..], visited)
  }

  lemma {:induction false} ScopedIs(pkgs: seq<Package>, visited: set<string>, x: string)
    ensures x in Scoped(pkgs, visited) <==> x in visited && exists i :: 0 <= i < |pkgs| && pkgs[i].path == x
  {
    if pkgs != [] {
      ScopedIs(pkgs[1..], visited, x);
      if i :| 0 <= i < |pkgs[1..]| && pkgs[1..][i].path == x {
        assert pkgs[i + 1].path == x;
      }
      if i :| 0 <= i < |pkgs| && pkgs[i].path == x && i > 0 {
        assert pkgs[1..][i - 1].path == x;
      }
    }
  }

  lemma StringOrder(s: seq<string>)
    ensures StrictWeakOn(s, StringLess) && TotalOn(s, StringLess)
  {
    forall x, y
      ensures StringLess(x, y) ==> !StringLess(y, x)
      ensures x == y || StringLess(x, y) || StringLess(y, x)
    {
      StringLessTrichotomy(x, y);
    }
    forall x, y, z | x in s && y in s && z in s && !StringLess(x, y) && !StringLess(y, z)
      ensures !StringLess(x, z)
    {
      StringLessTrichotomy(x, z);
      if StringLess(y, x) && StringLess(z, y) {
        StringLessTransitive(z, y, x);
      }
    }
  }

  ghost predicate ListedDependent(pkgs: seq<Package>, target: string, x: string) {
    Depends(pkgs, x, target) && exists i :: 0 <= i < |pkgs| && pkgs[i].path == x
  }

  ghost predicate IsScope(pkgs: seq<Package>, target: string, scope: seq<string>) {
    if exists x :: ListedDependent(pkgs, target, x) then forall x :: x in scope <==> ListedDependent(pkgs, target, x)
    else scope == [target]
  }

  /** The scope is the listed packages that depend on the target, sorted; only when there is none
      is it the target alone. */
  method ReverseImportScope(pkgs: seq<Package>, target: string) returns (scope: seq<string>)
    ensures Sorted(scope, StringLess) && IsScope(pkgs, target, scope)
  {
    var visited := ReverseReach(pkgs, target);
    var scoped: seq<string> := [];
    for i := 0 to |pkgs|
      invariant scoped + Scoped(pkgs[i..], visited) == Scoped(pkgs, visited)
    {
      assert pkgs[i..][1..] == pkgs[i + 1..];
      if pkgs[i].path in visited {
        scoped := scoped + [pkgs[i].path];
      }
    }
    assert scoped == Scoped(pkgs, visited);
    forall x
      ensures x in scoped <==> ListedDependent(pkgs, target, x)
    {
      ScopedIs(pkgs, visited, x);
    }
    scope := SortBy(scoped, StringLess);
    StringOrder(scoped);
    SortBySorted(scoped, StringLess);
    SameElements(scope, scoped);
    if |scope| == 0 {
      assert scoped == [];
      return [target];
    }
    assert scope[0] in scoped;
  }

  /** The target itself is in the scope exactly when it is listed or nothing listed depends on it. */
  lemma TargetInScope(pkgs: seq<Package>, target: string, scope: seq<string>)
    requires IsScope(pkgs, target, scope)
    ensures target in scope <==>
              (exists i :: 0 <= i < |pkgs| && pkgs[i].path == target) || !exists x :: ListedDependent(pkgs, target, x)
  {
    assert ImportChain(pkgs, [target], target, target);
    assert Depends(pkgs, target, target);
    if i :| 0 <= i < |pkgs| && pkgs[i].path == target {
      assert ListedDependent(pkgs, target, target);
    }
  }

  /** A target outside the listing drops out of its own scope once a listed package imports it. */
  lemma UnlistedTargetDropsOut()
    ensures var pkgs := [Package("a", ["t"])];
            IsScope(pkgs, "t", ["a"]) && "t" !in ["a"]
  {
    var pkgs := [Package("a", ["t"])];
    assert pkgs[0] in pkgs && Imports(pkgs[0], "a", "t");
    assert ImportsDirectly(pkgs, "a", "t");
    assert ImportChain(pkgs, ["a", "t"], "a", "t");
    assert Depends(pkgs, "a", "t") && pkgs[0].path == "a";
    assert ListedDependent(pkgs, "t", "a");
    forall x
      ensures x in ["a"] <==> ListedDependent(pkgs, "t", x)
    {
    }
  }
}
