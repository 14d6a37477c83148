/** The identities every analysis shares: SSA functions and their comparison keys. */
module Functions {
  import opened Collections
  import opened Orders

  datatype Option<+T> = None | Some(value: T)

  datatype FunctionKey = FunctionKey(packagePath: string, receiver: string, funcName: string) {
    function Text(): string {
      if packagePath == "" && receiver == "" then funcName
      else if receiver != "" then packagePath + "." + receiver + "." + funcName
      else packagePath + "." + funcName
    }
  }

  /** One SSA function. `id` stands for its pointer identity, `name` for its SSA string,
      `generic` for a type parameter on it or on an enclosing function. */
  datatype Func = Func(id: nat, key: FunctionKey, name: string, generic: bool)

  /** The order of `sortedUniqueFunctions`: key text, then SSA string. */
  predicate FuncLess(a: Func, b: Func) {
    var ka, kb := a.key.Text(), b.key.Text();
    if ka != kb then StringLess(ka, kb) else StringLess(a.name, b.name)
  }

  /** Key text alone, as the per-key index lists are sorted. */
  predicate KeyLess(a: Func, b: Func) {
    StringLess(a.key.Text(), b.key.Text())
  }

  /** Key texts decide, and among equal ones the names. */
  lemma FuncOrderReads(a: Func, b: Func)
    ensures FuncLess(a, b) <==>
              StringLess(a.key.Text(), b.key.Text()) || (a.key.Text() == b.key.Text() && StringLess(a.name, b.name))
    ensures KeyLess(a, b) ==> FuncLess(a, b)
  {
    StringTriple(a.key.Text(), b.key.Text(), a.key.Text());
    hide StringLess;
  }

  lemma FuncLessIsWeak(fns: seq<Func>)
    ensures StrictWeakOn(fns, FuncLess)
  {
    forall x, y, z: Func
      ensures FuncLess(x, y) ==> !FuncLess(y, x)
      ensures !FuncLess(x, y) && !FuncLess(y, z) ==> !FuncLess(x, z)
    {
      StringTriple(x.key.Text(), y.key.Text(), z.key.Text());
      StringTriple(z.key.Text(), y.key.Text(), x.key.Text());
      StringTriple(x.key.Text(), z.key.Text(), x.key.Text());
      StringTriple(x.name, y.name, z.name);
      StringTriple(z.name, y.name, x.name);
      StringTriple(x.name, z.name, x.name);
    }
  }

  lemma KeyLessIsWeak(fns: seq<Func>)
    ensures StrictWeakOn(fns, KeyLess)
  {
    forall x, y, z: Func
      ensures KeyLess(x, y) ==> !KeyLess(y, x)
      ensures !KeyLess(x, y) && !KeyLess(y, z) ==> !KeyLess(x, z)
    {
      StringTriple(x.key.Text(), y.key.Text(), z.key.Text());
      StringTriple(z.key.Text(), y.key.Text(), x.key.Text());
      StringTriple(x.key.Text(), z.key.Text(), x.key.Text());
    }
  }

  /** Distinct functions in order stay distinct and are in order. */
  lemma FunctionsInOrder(fns: seq<Func>, sorted: seq<Func>)
    requires Distinct(fns) && sorted == SortBy(fns, FuncLess)
    ensures Sorted(sorted, FuncLess) && Distinct(sorted)
    ensures forall f :: f in sorted <==> f in fns
  {
    FuncLessIsWeak(fns);
    SortBySorted(fns, FuncLess);
    SameElements(sorted, fns);
    PermutedDistinct(fns, sorted);
  }

  /** The functions of a list once each, by key and name. */
  method SortedUniqueFunctions(fns: seq<Func>) returns (sorted: seq<Func>)
    ensures forall f :: f in sorted <==> f in fns
    ensures Sorted(sorted, FuncLess) && Distinct(sorted)
  {
    var seen: set<Func> := {};
    var unique: seq<Func> := [];
    for i := 0 to |fns|
      invariant forall f :: f in unique <==> f in fns[..i]
      invariant forall f :: f in seen <==> f in fns[..i]
      invariant Distinct(unique)
    {
      assert fns[..i + 1] == fns[..i] + [fns[i]];
      if fns[i] in seen {
        continue;
      }
      seen := seen + {fns[i]};
      unique := unique + [fns[i]];
    }
    assert fns[..|fns|] == fns;
    sorted := SortBy(unique, FuncLess);
    FunctionsInOrder(unique, sorted);
  }
}
