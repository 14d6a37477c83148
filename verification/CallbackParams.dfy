/** Does a function stored, invoked, returned or forwarded through a parameter escape? The
    memoised depth-first search of `parameterMayCallback`, with its guard against parameters
    that are being searched already. */
module CallbackParams {
  import opened Functions
  import opened Reachability

  type FuncId = nat

  /** One parameter of one function. */
  datatype Key = Key(fn: FuncId, index: nat)

  /** An instruction, with every value it mentions read as the set of parameters it may carry. */
  datatype Instr =
    | Call(value: set<nat>, callee: Option<FuncId>, args: seq<set<nat>>)
    | Store(stored: set<nat>, beyondLocal: bool)
    | MapUpdate(stored: set<nat>)
    | Return(results: seq<set<nat>>)
    | Other

  datatype Body = Body(params: nat, instrs: seq<Instr>)

  type Program = map<FuncId, Body>
  type Memo = map<Key, bool>

  predicate Known(prog: Program, k: Key) {
    k.fn in prog && k.index < prog[k.fn].params
  }

  /** The parameters there are to search. */
  function Keys(prog: Program): set<Key> {
    set f, i | f in prog && 0 <= i < prog[f].params :: Key(f, i)
  }

  // ----- What the answer means

  /** The instruction itself invokes, stores, maps or returns the parameter. */
  predicate Escapes(i: Instr, param: nat) {
    match i
    case Call(value, _, _) => param in value
    case Store(stored, beyondLocal) => param in stored && beyondLocal
    case MapUpdate(stored) => param in stored
    case Return(results) => exists r :: r in results && param in r
    case Other => false
  }

  ghost predicate Sink(prog: Program, k: Key) {
    Known(prog, k) && exists i :: i in prog[k.fn].instrs && Escapes(i, k.index)
  }

  /** The parameters of the callee that receive it in this call. */
  function Receivers(prog: Program, i: Instr, param: nat): set<Key> {
    if i.Call? && i.callee.Some?
    then set a | 0 <= a < |i.args| && param in i.args[a] && Known(prog, Key(i.callee.value, a)) :: Key(i.callee.value, a)
    else {}
  }

  function Forwarded(prog: Program, k: Key): set<Key> {
    if Known(prog, k) then set i, r | i in prog[k.fn].instrs && r in Receivers(prog, i, k.index) :: r else {}
  }

  function ForwardSucc(prog: Program): Key -> set<Key> {
    k => Forwarded(prog, k)
  }

  /** A chain of forwarded parameters that ends where the parameter escapes. */
  ghost predicate MayCallback(prog: Program, k: Key) {
    exists s :: Reaches(ForwardSucc(prog), k, s) && Sink(prog, s)
  }

  // ----- The search as the code runs it

  datatype Outcome = Outcome(found: bool, memo: Memo)

  function Query(prog: Program, k: Key, memo: Memo, visiting: set<Key>): Outcome
    decreases Keys(prog) - visiting, 2, 0, 0
  {
    if !Known(prog, k) then Outcome(false, memo)
    else if k in memo then Outcome(memo[k], memo)
    else if k in visiting then Outcome(false, memo)
    else
      assert k in Keys(prog) - visiting;
      var o := Scan(prog, k, prog[k.fn].instrs, memo, visiting + {k});
      Outcome(o.found, o.memo[k := o.found])
  }

  function Scan(prog: Program, k: Key, instrs: seq<Instr>, memo: Memo, visiting: set<Key>): Outcome
    decreases Keys(prog) - visiting, 4, |instrs|, 0
  {
    if instrs == [] then Outcome(false, memo)
    else if Escapes(instrs[0], k.index) then Outcome(true, memo)
    else if instrs[0].Call? && instrs[0].callee.Some? then
      var o := ScanArgs(prog, k, instrs[0].callee.value, instrs[0].args, 0, memo, visiting);
      if o.found then o else Scan(prog, k, instrs[1..], o.memo, visiting)
    else Scan(prog, k, instrs[1..], memo, visiting)
  }

  function ScanArgs(prog: Program, k: Key, callee: FuncId, args: seq<set<nat>>, a: nat, memo: Memo, visiting: set<Key>): Outcome
    requires a <= |args|
    decreases Keys(prog) - visiting, 3, |args| - a, 0
  {
    if a == |args| then Outcome(false, memo)
    else if k.index in args[a] then
      var o := Query(prog, Key(callee, a), memo, visiting);
      if o.found then o else ScanArgs(prog, k, callee, args, a + 1, o.memo, visiting)
    else ScanArgs(prog, k, callee, args, a + 1, memo, visiting)
  }

  /** The search object: the memo it is handed and the parameters on its current path. */
  class Search {
    const prog: Program
    var memo: Memo
    var visiting: set<Key>

    constructor (prog: Program)
      ensures this.prog == prog && memo == map[] && visiting == {}
    {
      this.prog, memo, visiting := prog, map[], {};
    }

    method ParameterMayCallback(k: Key) returns (found: bool)
      modifies this
      ensures visiting == old(visiting)
      ensures Outcome(found, memo) == Query(prog, k, old(memo), old(visiting))
      decreases Keys(prog) - visiting, 2, 0, 0
    {
      if !Known(prog, k) {
        return false;
      }
      if k in memo {
        return memo[k];
      }
      if k in visiting {
        return false;
      }
      visiting := visiting + {k};
      assert k in Keys(prog);
      ghost var m, v := memo, visiting;
      var instrs := prog[k.fn].instrs;
      found := false;
      var i := 0;
      while i < |instrs| && !found
        invariant 0 <= i <= |instrs| && visiting == v
        invariant !found ==> Scan(prog, k, instrs, m, v) == Scan(prog, k, instrs[i..], memo, v)
        invariant found ==> Scan(prog, k, instrs, m, v) == Outcome(true, memo)
      {
        assert instrs[i..][0] == instrs[i] && instrs[i..][1..] == instrs[i + 1..];
        if Escapes(instrs[i], k.index) {
          found := true;
        } else if instrs[i].Call? && instrs[i].callee.Some? {
          found := ForwardedMayCallback(k, instrs[i].callee.value, instrs[i].args);
        }
        i := i + 1;
      }
      assert instrs[|instrs|..] == [];
      memo := memo[k := found];
      visiting := visiting - {k};
      assert old(visiting) + {k} - {k} == old(visiting);
    }

    method ForwardedMayCallback(k: Key, callee: FuncId, args: seq<set<nat>>) returns (found: bool)
      modifies this
      ensures visiting == old(visiting)
      ensures Outcome(found, memo) == ScanArgs(prog, k, callee, args, 0, old(memo), old(visiting))
      decreases Keys(prog) - visiting, 3, |args|, 0
    {
      found := false;
      var a := 0;
      while a < |args| && !found
        invariant 0 <= a <= |args| && visiting == old(visiting)
        invariant !found ==>
                    ScanArgs(prog, k, callee, args, 0, old(memo), visiting) == ScanArgs(prog, k, callee, args, a, memo, visiting)
        invariant found ==> ScanArgs(prog, k, callee, args, 0, old(memo), visiting) == Outcome(true, memo)
      {
        if k.index in args[a] {
          found := ParameterMayCallback(Key(callee, a));
        }
        a := a + 1;
      }
    }
  }

  // ----- Memos

  /** Every answer on record is right. */
  ghost predicate Exact(prog: Program, memo: Memo) {
    forall k | k in memo && Known(prog, k) :: memo[k] <==> MayCallback(prog, k)
  }

  ghost predicate TrueOk(prog: Program, memo: Memo) {
    forall k | k in memo && Known(prog, k) && memo[k] :: MayCallback(prog, k)
  }

  /** The receiver is no reason to answer true: it was answered false, it is on the current path,
      or it is harmless. */
  ghost predicate Excused(prog: Program, memo: Memo, visiting: set<Key>, r: Key) {
    (r in memo && !memo[r]) || r in visiting || !MayCallback(prog, r)
  }

  ghost predicate Settled(prog: Program, memo: Memo, visiting: set<Key>, k: Key) {
    !Sink(prog, k) && forall r | r in Forwarded(prog, k) :: Excused(prog, memo, visiting, r)
  }

  ghost predicate FalseOk(prog: Program, memo: Memo, visiting: set<Key>) {
    forall k | k in memo && Known(prog, k) && !memo[k] :: Settled(prog, memo, visiting, k)
  }

  /** Answers are never changed, and what is being searched is not answered. */
  ghost predicate Extends(memo: Memo, visiting: set<Key>, later: Memo) {
    && (forall k | k in memo :: k in later && later[k] == memo[k])
    && (forall k | k in visiting && k in later :: k in memo)
  }

  ghost function Trues(memo: Memo): set<Key> {
    set k | k in memo && memo[k]
  }

  ghost predicate InBody(prog: Program, k: Key, instrs: seq<Instr>) {
    Known(prog, k) && forall i | i in instrs :: i in prog[k.fn].instrs
  }

  lemma SinkMay(prog: Program, k: Key)
    requires Sink(prog, k)
    ensures MayCallback(prog, k)
  {
    ReachesSelf(ForwardSucc(prog), k);
  }

  lemma ForwardMay(prog: Program, k: Key, r: Key)
    requires r in Forwarded(prog, k) && MayCallback(prog, r)
    ensures MayCallback(prog, k)
  {
    hide Forwarded, Sink;
    var succ := ForwardSucc(prog);
    var s :| Reaches(succ, r, s) && Sink(prog, s);
    ReachesSelf(succ, k);
    assert r in succ(k);
    ReachesStep(succ, k, k, r);
    ReachesTransitive(succ, k, r, s);
  }

  /** The first step of a chain: the parameter escapes itself, or a receiver has a chain. */
  lemma MayUnfold(prog: Program, k: Key)
    requires MayCallback(prog, k)
    ensures Sink(prog, k) || exists r :: r in Forwarded(prog, k) && MayCallback(prog, r)
  {
    hide Forwarded, Sink;
    var succ := ForwardSucc(prog);
    var s :| Reaches(succ, k, s) && Sink(prog, s);
    var p :| WalkFromTo(succ, p, k, s);
    if |p| > 1 {
      var q := p[1..];
      assert forall i | 0 <= i < |q| :: q[i] == p[i + 1];
      assert p[0 + 1] in succ(p[0]);
      assert WalkFromTo(succ, q, p[1], s);
    }
  }

  lemma UnknownIsHarmless(prog: Program, k: Key)
    requires !Known(prog, k)
    ensures !MayCallback(prog, k)
  {
    if MayCallback(prog, k) {
      MayUnfold(prog, k);
    }
  }

  // ----- Induction over the search

  lemma {:induction false} QueryExtends(prog: Program, k: Key, memo: Memo, visiting: set<Key>)
    ensures Extends(memo, visiting, Query(prog, k, memo, visiting).memo)
    ensures !Query(prog, k, memo, visiting).found ==> Trues(Query(prog, k, memo, visiting).memo) == Trues(memo)
    decreases Keys(prog) - visiting, 2, 0, 0
  {
    if Known(prog, k) && k !in memo && k !in visiting {
      assert k in Keys(prog);
      ScanExtends(prog, k, prog[k.fn].instrs, memo, visiting + {k});
    }
  }

  lemma {:induction false} ScanExtends(prog: Program, k: Key, instrs: seq<Instr>, memo: Memo, visiting: set<Key>)
    ensures Extends(memo, visiting, Scan(prog, k, instrs, memo, visiting).memo)
    ensures !Scan(prog, k, instrs, memo, visiting).found ==> Trues(Scan(prog, k, instrs, memo, visiting).memo) == Trues(memo)
    decreases Keys(prog) - visiting, 4, |instrs|, 0
  {
    if instrs != [] && !Escapes(instrs[0], k.index) {
      if instrs[0].Call? && instrs[0].callee.Some? {
        ArgsExtend(prog, k, instrs[0].callee.value, instrs[0].args, 0, memo, visiting);
        var o := ScanArgs(prog, k, instrs[0].callee.value, instrs[0].args, 0, memo, visiting);
        ScanExtends(prog, k, instrs[1..], o.memo, visiting);
      } else {
        ScanExtends(prog, k, instrs[1..], memo, visiting);
      }
    }
  }

  lemma {:induction false} ArgsExtend(prog: Program, k: Key, callee: FuncId, args: seq<set<nat>>, a: nat, memo: Memo, visiting: set<Key>)
    requires a <= |args|
    ensures Extends(memo, visiting, ScanArgs(prog, k, callee, args, a, memo, visiting).memo)
    ensures !ScanArgs(prog, k, callee, args, a, memo, visiting).found ==>
              Trues(ScanArgs(prog, k, callee, args, a, memo, visiting).memo) == Trues(memo)
    decreases Keys(prog) - visiting, 3, |args| - a, 0
  {
    if a < |args| {
      if k.index in args[a] {
        QueryExtends(prog, Key(callee, a), memo, visiting);
        ArgsExtend(prog, k, callee, args, a + 1, Query(prog, Key(callee, a), memo, visiting).memo, visiting);
      } else {
        ArgsExtend(prog, k, callee, args, a + 1, memo, visiting);
      }
    }
  }

  /** A true answer always has a chain behind it, whatever right or wrong false answers the memo holds. */
  lemma {:induction false} TrueIsSound(prog: Program, k: Key, memo: Memo, visiting: set<Key>)
    requires TrueOk(prog, memo)
    ensures TrueOk(prog, Query(prog, k, memo, visiting).memo)
    ensures Query(prog, k, memo, visiting).found ==> MayCallback(prog, k)
    decreases Keys(prog) - visiting, 2, 0, 0
  {
    hide MayCallback, Sink, Forwarded;
    if Known(prog, k) && k !in memo && k !in visiting {
      assert k in Keys(prog);
      ScanIsSound(prog, k, prog[k.fn].instrs, memo, visiting + {k});
    }
  }

  lemma {:induction false} ScanIsSound(prog: Program, k: Key, instrs: seq<Instr>, memo: Memo, visiting: set<Key>)
    requires InBody(prog, k, instrs) && TrueOk(prog, memo)
    ensures TrueOk(prog, Scan(prog, k, instrs, memo, visiting).memo)
    ensures Scan(prog, k, instrs, memo, visiting).found ==> MayCallback(prog, k)
    decreases Keys(prog) - visiting, 4, |instrs|, 0
  {
    hide MayCallback, Forwarded, TrueOk;
    if instrs != [] {
      assert InBody(prog, k, instrs[1..]);
      if Escapes(instrs[0], k.index) {
        assert Sink(prog, k);
        SinkMay(prog, k);
      } else if instrs[0].Call? && instrs[0].callee.Some? {
        ArgsAreSound(prog, k, instrs[0], 0, memo, visiting);
        var o := ScanArgs(prog, k, instrs[0].callee.value, instrs[0].args, 0, memo, visiting);
        if !o.found {
          ScanIsSound(prog, k, instrs[1..], o.memo, visiting);
        }
      } else {
        ScanIsSound(prog, k, instrs[1..], memo, visiting);
      }
    }
  }

  lemma {:induction false} ArgsAreSound(prog: Program, k: Key, i: Instr, a: nat, memo: Memo, visiting: set<Key>)
    requires Known(prog, k) && i in prog[k.fn].instrs && i.Call? && i.callee.Some? && a <= |i.args|
    requires TrueOk(prog, memo)
    ensures TrueOk(prog, ScanArgs(prog, k, i.callee.value, i.args, a, memo, visiting).memo)
    ensures ScanArgs(prog, k, i.callee.value, i.args, a, memo, visiting).found ==> MayCallback(prog, k)
    decreases Keys(prog) - visiting, 3, |i.args| - a, 0
  {
    hide MayCallback, TrueOk;
    if a < |i.args| {
      if k.index in i.args[a] {
        var r := Key(i.callee.value, a);
        TrueIsSound(prog, r, memo, visiting);
        var o := Query(prog, r, memo, visiting);
        if o.found {
          assert Known(prog, r);
          ReceiverIsForwarded(prog, k, i, a);
          ForwardMay(prog, k, r);
        } else {
          ArgsAreSound(prog, k, i, a + 1, o.memo, visiting);
        }
      } else {
        ArgsAreSound(prog, k, i, a + 1, memo, visiting);
      }
    }
  }

  lemma ReceiverIsForwarded(prog: Program, k: Key, i: Instr, a: nat)
    requires Known(prog, k) && i in prog[k.fn].instrs && i.Call? && i.callee.Some? && a < |i.args|
    requires k.index in i.args[a] && Known(prog, Key(i.callee.value, a))
    ensures Key(i.callee.value, a) in Receivers(prog, i, k.index)
    ensures Key(i.callee.value, a) in Forwarded(prog, k)
  {
  }

  ghost predicate ReceiversExcused(prog: Program, k: Key, i: Instr, memo: Memo, visiting: set<Key>) {
    forall r | r in Receivers(prog, i, k.index) :: Excused(prog, memo, visiting, r)
  }

  lemma ExcusedLater(prog: Program, memo: Memo, later: Memo, visiting: set<Key>, r: Key)
    requires Excused(prog, memo, visiting, r) && Extends(memo, visiting, later)
    ensures Excused(prog, later, visiting, r)
  {
  }

  /** As long as the answer is false, every false answer on record stays accounted for. */
  lemma {:induction false} FalseIsSettled(prog: Program, k: Key, memo: Memo, visiting: set<Key>)
    requires FalseOk(prog, memo, visiting) && !Query(prog, k, memo, visiting).found
    ensures FalseOk(prog, Query(prog, k, memo, visiting).memo, visiting)
    ensures Known(prog, k) ==> Excused(prog, Query(prog, k, memo, visiting).memo, visiting, k)
    decreases Keys(prog) - visiting, 2, 0, 0
  {
    hide MayCallback, Forwarded, Receivers;
    if Known(prog, k) && k !in memo && k !in visiting {
      assert k in Keys(prog);
      WiderPath(prog, memo, visiting, k);
      ScanIsSettled(prog, k, prog[k.fn].instrs, memo, visiting + {k});
      var o := Scan(prog, k, prog[k.fn].instrs, memo, visiting + {k});
      ForwardedExcused(prog, k, o.memo, visiting + {k});
      AnswerSettles(prog, k, o.memo, visiting);
    }
  }

  lemma WiderPath(prog: Program, memo: Memo, visiting: set<Key>, k: Key)
    requires FalseOk(prog, memo, visiting)
    ensures FalseOk(prog, memo, visiting + {k})
  {
    hide MayCallback, Forwarded, Sink;
    forall x | x in memo && Known(prog, x) && !memo[x]
      ensures Settled(prog, memo, visiting + {k}, x)
    {
      assert Settled(prog, memo, visiting, x);
    }
  }

  lemma ForwardedExcused(prog: Program, k: Key, memo: Memo, visiting: set<Key>)
    requires Known(prog, k)
    requires forall i | i in prog[k.fn].instrs :: !Escapes(i, k.index) && ReceiversExcused(prog, k, i, memo, visiting)
    ensures Settled(prog, memo, visiting, k)
  {
    hide Excused, Receivers;
    forall r | r in Forwarded(prog, k)
      ensures Excused(prog, memo, visiting, r)
    {
      var i :| i in prog[k.fn].instrs && r in Receivers(prog, i, k.index);
      assert ReceiversExcused(prog, k, i, memo, visiting);
    }
  }

  lemma AnswerSettles(prog: Program, k: Key, memo: Memo, visiting: set<Key>)
    requires FalseOk(prog, memo, visiting + {k}) && Settled(prog, memo, visiting + {k}, k)
    ensures FalseOk(prog, memo[k := false], visiting)
  {
    hide MayCallback, Forwarded, Sink;
    forall x | x in memo[k := false] && Known(prog, x) && !memo[k := false][x]
      ensures Settled(prog, memo[k := false], visiting, x)
    {
      assert Settled(prog, memo, visiting + {k}, x);
      forall r | r in Forwarded(prog, x)
        ensures Excused(prog, memo[k := false], visiting, r)
      {
        assert Excused(prog, memo, visiting + {k}, r);
      }
    }
  }

  lemma {:induction false} ScanIsSettled(prog: Program, k: Key, instrs: seq<Instr>, memo: Memo, visiting: set<Key>)
    requires FalseOk(prog, memo, visiting) && !Scan(prog, k, instrs, memo, visiting).found
    ensures FalseOk(prog, Scan(prog, k, instrs, memo, visiting).memo, visiting)
    ensures forall i | i in instrs :: !Escapes(i, k.index)
              && ReceiversExcused(prog, k, i, Scan(prog, k, instrs, memo, visiting).memo, visiting)
    decreases Keys(prog) - visiting, 4, |instrs|, 0
  {
    hide Excused, FalseOk;
    if instrs != [] {
      var i := instrs[0];
      var last := Scan(prog, k, instrs, memo, visiting).memo;
      if i.Call? && i.callee.Some? {
        ArgsAreSettled(prog, k, i, 0, memo, visiting);
        var o := ScanArgs(prog, k, i.callee.value, i.args, 0, memo, visiting);
        ScanIsSettled(prog, k, instrs[1..], o.memo, visiting);
        ScanExtends(prog, k, instrs[1..], o.memo, visiting);
        forall r | r in Receivers(prog, i, k.index)
          ensures Excused(prog, last, visiting, r)
        {
          ExcusedLater(prog, o.memo, last, visiting, r);
        }
      } else {
        ScanIsSettled(prog, k, instrs[1..], memo, visiting);
      }
      assert forall j | j in instrs :: j == i || j in instrs[1..];
    }
  }

  lemma {:induction false} ArgsAreSettled(prog: Program, k: Key, i: Instr, a: nat, memo: Memo, visiting: set<Key>)
    requires i.Call? && i.callee.Some? && a <= |i.args|
    requires FalseOk(prog, memo, visiting) && !ScanArgs(prog, k, i.callee.value, i.args, a, memo, visiting).found
    ensures FalseOk(prog, ScanArgs(prog, k, i.callee.value, i.args, a, memo, visiting).memo, visiting)
    ensures forall b | a <= b < |i.args| && k.index in i.args[b] && Known(prog, Key(i.callee.value, b)) ::
              Excused(prog, ScanArgs(prog, k, i.callee.value, i.args, a, memo, visiting).memo, visiting, Key(i.callee.value, b))
    decreases Keys(prog) - visiting, 3, |i.args| - a, 0
  {
    hide Excused, FalseOk;
    if a < |i.args| {
      if k.index in i.args[a] {
        var r := Key(i.callee.value, a);
        FalseIsSettled(prog, r, memo, visiting);
        var o := Query(prog, r, memo, visiting);
        ArgsAreSettled(prog, k, i, a + 1, o.memo, visiting);
        ArgsExtend(prog, k, i.callee.value, i.args, a + 1, o.memo, visiting);
        if Known(prog, r) {
          ExcusedLater(prog, o.memo, ScanArgs(prog, k, i.callee.value, i.args, a + 1, o.memo, visiting).memo, visiting, r);
        }
      } else {
        ArgsAreSettled(prog, k, i, a + 1, memo, visiting);
      }
    }
  }

  /** With nothing left on the path, an accounted false answer is a right one. */
  lemma {:induction false} SettledIsRight(prog: Program, memo: Memo, p: seq<Key>)
    requires FalseOk(prog, memo, {}) && Walk(ForwardSucc(prog), p)
    requires p[0] in memo && Known(prog, p[0]) && !memo[p[0]]
    ensures !Sink(prog, p[|p| - 1])
    decreases |p|
  {
    hide Sink, Forwarded;
    assert Settled(prog, memo, {}, p[0]);
    if |p| > 1 {
      assert p[0 + 1] in ForwardSucc(prog)(p[0]);
      var q := p[1..];
      assert forall i | 0 <= i < |q| :: q[i] == p[i + 1];
      assert Excused(prog, memo, {}, p[1]);
      if p[1] in memo && !memo[p[1]] {
        ForwardedKnown(prog, p[0], p[1]);
        SettledIsRight(prog, memo, q);
      } else {
        assert WalkFromTo(ForwardSucc(prog), q, p[1], p[|p| - 1]);
      }
    }
  }

  lemma ForwardedKnown(prog: Program, k: Key, r: Key)
    requires r in Forwarded(prog, k)
    ensures Known(prog, r)
  {
  }

  lemma FalseOkIsRight(prog: Program, memo: Memo, k: Key)
    requires FalseOk(prog, memo, {}) && k in memo && Known(prog, k) && !memo[k]
    ensures !MayCallback(prog, k)
  {
    hide Sink, Forwarded, FalseOk;
    if MayCallback(prog, k) {
      var s :| Reaches(ForwardSucc(prog), k, s) && Sink(prog, s);
      var p :| WalkFromTo(ForwardSucc(prog), p, k, s);
      SettledIsRight(prog, memo, p);
    }
  }

  lemma ExactIsOk(prog: Program, memo: Memo)
    requires Exact(prog, memo)
    ensures TrueOk(prog, memo) && FalseOk(prog, memo, {})
  {
    hide MayCallback, Forwarded, Sink;
    forall k | k in memo && Known(prog, k) && !memo[k]
      ensures Settled(prog, memo, {}, k)
    {
      if Sink(prog, k) {
        SinkMay(prog, k);
      }
      forall r | r in Forwarded(prog, k)
        ensures Excused(prog, memo, {}, r)
      {
        if MayCallback(prog, r) {
          ForwardMay(prog, k, r);
        }
      }
    }
  }

  // ----- The theorems

  /** On a right memo, the empty one included, a query is right, cycles and all; and after a false
      answer the memo is still right. */
  lemma QueryIsExact(prog: Program, k: Key, memo: Memo)
    requires Exact(prog, memo)
    ensures Query(prog, k, memo, {}).found <==> MayCallback(prog, k)
    ensures !Query(prog, k, memo, {}).found ==> Exact(prog, Query(prog, k, memo, {}).memo)
  {
    hide MayCallback, Query, Settled;
    ExactIsOk(prog, memo);
    TrueIsSound(prog, k, memo, {});
    var o := Query(prog, k, memo, {});
    if !o.found {
      FalseIsSettled(prog, k, memo, {});
      forall x | x in o.memo && Known(prog, x) && !o.memo[x]
        ensures !MayCallback(prog, x)
      {
        FalseOkIsRight(prog, o.memo, x);
      }
      if !Known(prog, k) {
        UnknownIsHarmless(prog, k);
      }
    }
  }

  // ----- The answer, instruction by instruction

  /** The instruction calls the parameter, stores it beyond a local, puts it into a map or returns it. */
  ghost predicate LetsOut(i: Instr, param: nat) {
    || (i.Call? && param in i.value)
    || (i.Store? && i.beyondLocal && param in i.stored)
    || (i.MapUpdate? && param in i.stored)
    || (i.Return? && exists r: nat :: r < |i.results| && param in i.results[r])
  }

  /** The instruction calls function `f` with the parameter as argument `a`. */
  predicate Hands(i: Instr, param: nat, f: FuncId, a: nat) {
    i.Call? && i.callee == Some(f) && a < |i.args| && param in i.args[a]
  }

  /** One link of a chain: a call in the function of `k` hands its parameter on as `r`. */
  ghost predicate HandsOn(prog: Program, k: Key, r: Key) {
    && k.fn in prog && k.index < prog[k.fn].params && r.fn in prog && r.index < prog[r.fn].params
    && exists j: nat :: j < |prog[k.fn].instrs| && Hands(prog[k.fn].instrs[j], k.index, r.fn, r.index)
  }

  ghost predicate LetOutAt(prog: Program, k: Key) {
    && k.fn in prog && k.index < prog[k.fn].params
    && exists j: nat :: j < |prog[k.fn].instrs| && LetsOut(prog[k.fn].instrs[j], k.index)
  }

  /** From parameter to parameter along calls, to one that is let out. */
  ghost predicate EscapeChain(prog: Program, k: Key, p: seq<Key>) {
    p != [] && p[0] == k && LetOutAt(prog, p[|p| - 1]) && Linked(prog, p)
  }

  ghost predicate Linked(prog: Program, p: seq<Key>) {
    forall i | 0 <= i < |p| - 1 :: HandsOn(prog, p[i], p[i + 1])
  }

  lemma LetOutIsSink(prog: Program, k: Key)
    ensures Sink(prog, k) <==> LetOutAt(prog, k)
  {
    if Known(prog, k) {
      var instrs := prog[k.fn].instrs;
      forall j: nat | j < |instrs|
        ensures Escapes(instrs[j], k.index) <==> LetsOut(instrs[j], k.index)
      {
      }
      hide Escapes, LetsOut;
      if LetOutAt(prog, k) {
        var j: nat :| j < |instrs| && LetsOut(instrs[j], k.index);
        assert instrs[j] in instrs;
      }
    }
  }

  lemma HandedIsForwarded(prog: Program, k: Key, r: Key)
    ensures r in Forwarded(prog, k) <==> HandsOn(prog, k, r)
  {
    if HandsOn(prog, k, r) {
      var j: nat :| j < |prog[k.fn].instrs| && Hands(prog[k.fn].instrs[j], k.index, r.fn, r.index);
      ReceiverIsForwarded(prog, k, prog[k.fn].instrs[j], r.index);
    }
  }

  lemma LinksAreSteps(prog: Program, p: seq<Key>)
    requires p != []
    ensures Walk(ForwardSucc(prog), p) <==> Linked(prog, p)
  {
    hide Forwarded, HandsOn;
    var succ := ForwardSucc(prog);
    forall i | 0 <= i < |p| - 1
      ensures p[i + 1] in succ(p[i]) <==> HandsOn(prog, p[i], p[i + 1])
    {
      HandedIsForwarded(prog, p[i], p[i + 1]);
    }
  }

  lemma ChainIsWalk(prog: Program, k: Key)
    ensures MayCallback(prog, k) <==> exists p :: EscapeChain(prog, k, p)
  {
    hide Sink, Forwarded, LetOutAt, Walk, Linked;
    var succ := ForwardSucc(prog);
    if MayCallback(prog, k) {
      var s :| Reaches(succ, k, s) && Sink(prog, s);
      var p :| WalkFromTo(succ, p, k, s);
      WalkIsSome(succ, p);
      LinksAreSteps(prog, p);
      LetOutIsSink(prog, s);
      assert EscapeChain(prog, k, p);
    }
    if p :| EscapeChain(prog, k, p) {
      LinksAreSteps(prog, p);
      LetOutIsSink(prog, p[|p| - 1]);
      assert WalkFromTo(succ, p, k, p[|p| - 1]);
      assert Reaches(succ, k, p[|p| - 1]);
    }
  }

  lemma WalkIsSome(succ: Key -> set<Key>, p: seq<Key>)
    requires Walk(succ, p)
    ensures p != []
  {
  }

  /** On a right memo, as the empty one is, the answer is true exactly if a chain of calls hands the
      parameter on to a function that calls it, stores it beyond a local, puts it into a map or returns it. */
  lemma FoundIffLetOut(prog: Program, k: Key, memo: Memo)
    requires Exact(prog, memo)
    ensures Query(prog, k, memo, {}).found <==> exists p :: EscapeChain(prog, k, p)
    ensures Exact(prog, map[])
  {
    hide MayCallback, Query, EscapeChain;
    QueryIsExact(prog, k, memo);
    ChainIsWalk(prog, k);
  }

  /** A function that calls its parameter is found at once. */
  lemma InvokedIsFound(prog: Program, k: Key, j: nat)
    requires k.fn in prog && k.index < prog[k.fn].params && j < |prog[k.fn].instrs|
    requires prog[k.fn].instrs[j].Call? && k.index in prog[k.fn].instrs[j].value
    ensures Query(prog, k, map[], {}).found
  {
    hide Query;
    FoundIffLetOut(prog, k, map[]);
    assert LetsOut(prog[k.fn].instrs[j], k.index);
    assert EscapeChain(prog, k, [k]);
  }

  /** A shared memo answers every query rightly exactly when everything on record is right. */
  lemma MemoServesIffExact(prog: Program, memo: Memo)
    ensures (forall k | Known(prog, k) :: Query(prog, k, memo, {}).found <==> MayCallback(prog, k)) <==> Exact(prog, memo)
  {
    hide MayCallback;
    if Exact(prog, memo) {
      forall k | Known(prog, k)
        ensures Query(prog, k, memo, {}).found <==> MayCallback(prog, k)
      {
        QueryIsExact(prog, k, memo);
      }
    }
    if forall k | Known(prog, k) :: Query(prog, k, memo, {}).found <==> MayCallback(prog, k) {
      forall k | k in memo && Known(prog, k)
        ensures memo[k] <==> MayCallback(prog, k)
      {
        assert Query(prog, k, memo, {}).found == memo[k];
      }
    }
  }

  // ----- When a query leaves a wrong answer behind

  /** The search answers this receiver with false: it is on the current path, or harmless. */
  ghost predicate Quiet(prog: Program, path: set<Key>, r: Key) {
    r in path || !MayCallback(prog, r)
  }

  ghost predicate QuietInstr(prog: Program, path: set<Key>, k: Key, i: Instr) {
    !Escapes(i, k.index) && forall r | r in Receivers(prog, i, k.index) :: Quiet(prog, path, r)
  }

  ghost predicate AllQuiet(prog: Program, path: set<Key>, k: Key, instrs: seq<Instr>) {
    forall i | i in instrs :: QuietInstr(prog, path, k, i)
  }

  /** The parameter is passed on as argument `a`, and nothing from argument `from` up to it ends the search. */
  ghost predicate PassedOn(prog: Program, path: set<Key>, k: Key, callee: FuncId, args: seq<set<nat>>, from: nat, a: nat) {
    && from <= a < |args| && k.index in args[a]
    && forall b | from <= b < a && k.index in args[b] :: Quiet(prog, path, Key(callee, b))
  }

  /** The scan gets to argument `a` of instruction `j`: nothing in front of it ends the search. */
  ghost predicate Arrives(prog: Program, path: set<Key>, k: Key, instrs: seq<Instr>, j: nat, a: nat) {
    && j < |instrs| && (forall i | 0 <= i < j :: QuietInstr(prog, path, k, instrs[i]))
    && !Escapes(instrs[j], k.index) && instrs[j].Call? && instrs[j].callee.Some?
    && PassedOn(prog, path, k, instrs[j].callee.value, instrs[j].args, 0, a)
  }

  /** A chain of parameters the search follows, none of them answered, that ends at one which may
      call back although all it is passed on to lies on the chain or is harmless. */
  ghost predicate Trap(prog: Program, answered: set<Key>, path: set<Key>, k: Key)
    decreases Keys(prog) - path, 1
  {
    && Known(prog, k) && k !in answered && k !in path && MayCallback(prog, k)
    && (assert k in Keys(prog);
        AllQuiet(prog, path + {k}, k, prog[k.fn].instrs) || LeadsToTrap(prog, answered, path + {k}, k, prog[k.fn].instrs))
  }

  ghost predicate LeadsToTrap(prog: Program, answered: set<Key>, path: set<Key>, k: Key, instrs: seq<Instr>)
    decreases Keys(prog) - path, 3
  {
    exists j: nat, a: nat :: Arrives(prog, path, k, instrs, j, a) && Trap(prog, answered, path, Key(instrs[j].callee.value, a))
  }

  ghost predicate PassedToTrap(prog: Program, answered: set<Key>, path: set<Key>, k: Key, callee: FuncId, args: seq<set<nat>>, from: nat)
    decreases Keys(prog) - path, 2
  {
    exists a: nat :: PassedOn(prog, path, k, callee, args, from, a) && Trap(prog, answered, path, Key(callee, a))
  }

  ghost predicate NoTraps(prog: Program) {
    forall k :: !Trap(prog, {}, {}, k)
  }

  lemma PassedUnfold(prog: Program, answered: set<Key>, path: set<Key>, k: Key, callee: FuncId, args: seq<set<nat>>, a: nat)
    requires a < |args|
    ensures PassedToTrap(prog, answered, path, k, callee, args, a) <==>
              (k.index in args[a] && Trap(prog, answered, path, Key(callee, a)))
              || ((k.index in args[a] ==> Quiet(prog, path, Key(callee, a))) && PassedToTrap(prog, answered, path, k, callee, args, a + 1))
  {
    hide Trap, Quiet;
    if PassedToTrap(prog, answered, path, k, callee, args, a) {
      var c: nat :| PassedOn(prog, path, k, callee, args, a, c) && Trap(prog, answered, path, Key(callee, c));
      if c > a {
        assert PassedOn(prog, path, k, callee, args, a + 1, c);
      }
    }
    if k.index in args[a] && Trap(prog, answered, path, Key(callee, a)) {
      assert PassedOn(prog, path, k, callee, args, a, a);
    }
    if (k.index in args[a] ==> Quiet(prog, path, Key(callee, a))) && PassedToTrap(prog, answered, path, k, callee, args, a + 1) {
      var c: nat :| PassedOn(prog, path, k, callee, args, a + 1, c) && Trap(prog, answered, path, Key(callee, c));
      assert PassedOn(prog, path, k, callee, args, a, c);
    }
  }

  lemma LeadsUnfold(prog: Program, answered: set<Key>, path: set<Key>, k: Key, instrs: seq<Instr>)
    requires instrs != []
    ensures LeadsToTrap(prog, answered, path, k, instrs) <==>
              LeadsAtOnce(prog, answered, path, k, instrs[0])
              || (QuietInstr(prog, path, k, instrs[0]) && LeadsToTrap(prog, answered, path, k, instrs[1..]))
  {
    hide Trap, QuietInstr, PassedOn;
    var i, rest := instrs[0], instrs[1..];
    if LeadsToTrap(prog, answered, path, k, instrs) {
      var j: nat, a: nat :| Arrives(prog, path, k, instrs, j, a) && Trap(prog, answered, path, Key(instrs[j].callee.value, a));
      if j > 0 {
        assert forall n | 0 <= n < j - 1 :: rest[n] == instrs[n + 1];
        assert Arrives(prog, path, k, rest, j - 1, a);
      }
    }
    if LeadsAtOnce(prog, answered, path, k, i) {
      var a :| PassedOn(prog, path, k, i.callee.value, i.args, 0, a) && Trap(prog, answered, path, Key(i.callee.value, a));
      assert Arrives(prog, path, k, instrs, 0, a);
    }
    if QuietInstr(prog, path, k, i) && LeadsToTrap(prog, answered, path, k, rest) {
      var j: nat, a: nat :| Arrives(prog, path, k, rest, j, a) && Trap(prog, answered, path, Key(rest[j].callee.value, a));
      assert forall n | 0 < n <= j :: instrs[n] == rest[n - 1];
      assert instrs[j + 1] == rest[j];
      assert Arrives(prog, path, k, instrs, j + 1, a);
    }
  }

  ghost predicate LeadsAtOnce(prog: Program, answered: set<Key>, path: set<Key>, k: Key, i: Instr) {
    !Escapes(i, k.index) && i.Call? && i.callee.Some? && PassedToTrap(prog, answered, path, k, i.callee.value, i.args, 0)
  }

  ghost predicate Unanswered(memo: Memo, path: set<Key>) {
    forall v | v in path :: v !in memo
  }

  lemma UnansweredLater(memo: Memo, path: set<Key>, later: Memo)
    requires Unanswered(memo, path) && Extends(memo, path, later)
    ensures Unanswered(later, path)
  {
  }

  /** Answers are never changed, so a wrong one stays. */
  lemma WrongStays(prog: Program, memo: Memo, path: set<Key>, later: Memo)
    requires Extends(memo, path, later) && Exact(prog, later)
    ensures Exact(prog, memo)
  {
    hide MayCallback;
  }

  /** What one query does to an exact memo, by induction over the search. */
  lemma {:induction false} QueryTrap(prog: Program, k: Key, memo: Memo, path: set<Key>)
    requires Exact(prog, memo) && Unanswered(memo, path)
    ensures Exact(prog, Query(prog, k, memo, path).memo) <==> !Trap(prog, Trues(memo), path, k)
    ensures k in path ==> !Query(prog, k, memo, path).found
    ensures Exact(prog, Query(prog, k, memo, path).memo) && k !in path ==>
              (Query(prog, k, memo, path).found <==> MayCallback(prog, k))
    decreases Keys(prog) - path, 2, 0, 0
  {
    hide MayCallback, LeadsToTrap, AllQuiet, Escapes;
    if !Known(prog, k) {
      UnknownIsHarmless(prog, k);
    } else if k !in memo && k !in path {
      assert k in Keys(prog);
      var instrs := prog[k.fn].instrs;
      var o := Scan(prog, k, instrs, memo, path + {k});
      ScanTrap(prog, k, instrs, memo, path + {k});
      ScanExtends(prog, k, instrs, memo, path + {k});
      ScanIsSound(prog, k, instrs, memo, path + {k});
      if LeadsToTrap(prog, Trues(memo), path + {k}, k, instrs) {
        TrapIsForwarded(prog, Trues(memo), path + {k}, k);
      }
      ExactWith(prog, o.memo, k, o.found);
    }
  }

  lemma ExactWith(prog: Program, memo: Memo, k: Key, found: bool)
    requires k !in memo && Known(prog, k)
    ensures Exact(prog, memo[k := found]) <==> Exact(prog, memo) && (found <==> MayCallback(prog, k))
  {
    hide MayCallback;
    if Exact(prog, memo[k := found]) {
      forall x | x in memo && Known(prog, x)
        ensures memo[x] <==> MayCallback(prog, x)
      {
        assert x in memo[k := found];
      }
    }
  }

  lemma TrapIsForwarded(prog: Program, answered: set<Key>, path: set<Key>, k: Key)
    requires Known(prog, k) && LeadsToTrap(prog, answered, path, k, prog[k.fn].instrs)
    ensures MayCallback(prog, k)
  {
    hide MayCallback, AllQuiet, LeadsToTrap;
    var instrs := prog[k.fn].instrs;
    var j, a := TrapAt(prog, answered, path, k, instrs);
    ReceiverIsForwarded(prog, k, instrs[j], a);
    ForwardMay(prog, k, Key(instrs[j].callee.value, a));
  }

  lemma TrapAt(prog: Program, answered: set<Key>, path: set<Key>, k: Key, instrs: seq<Instr>) returns (j: nat, a: nat)
    requires LeadsToTrap(prog, answered, path, k, instrs)
    ensures Arrives(prog, path, k, instrs, j, a) && Trap(prog, answered, path, Key(instrs[j].callee.value, a))
  {
    hide Trap;
    j, a :| Arrives(prog, path, k, instrs, j, a) && Trap(prog, answered, path, Key(instrs[j].callee.value, a));
  }

  lemma {:induction false} ScanTrap(prog: Program, k: Key, instrs: seq<Instr>, memo: Memo, path: set<Key>)
    requires InBody(prog, k, instrs) && Exact(prog, memo) && Unanswered(memo, path)
    ensures Exact(prog, Scan(prog, k, instrs, memo, path).memo) <==> !LeadsToTrap(prog, Trues(memo), path, k, instrs)
    ensures Exact(prog, Scan(prog, k, instrs, memo, path).memo) ==>
              (Scan(prog, k, instrs, memo, path).found <==> !AllQuiet(prog, path, k, instrs))
    decreases Keys(prog) - path, 4, |instrs|, 0
  {
    hide MayCallback, Escapes, LeadsToTrap, PassedToTrap, Receivers, Quiet, Exact, Unanswered, Trues;
    if instrs == [] {
      NothingLeads(prog, Trues(memo), path, k);
    } else {
      var i := instrs[0];
      assert InBody(prog, k, instrs[1..]);
      assert forall j | j in instrs :: j == i || j in instrs[1..];
      LeadsUnfold(prog, Trues(memo), path, k, instrs);
      if !Escapes(i, k.index) {
        if i.Call? && i.callee.Some? {
          ArgsTrap(prog, k, i, 0, memo, path);
          ArgsQuietIs(prog, path, k, i);
          var o := ScanArgs(prog, k, i.callee.value, i.args, 0, memo, path);
          if !o.found {
            ArgsExtend(prog, k, i.callee.value, i.args, 0, memo, path);
            ScanExtends(prog, k, instrs[1..], o.memo, path);
            if Exact(prog, o.memo) {
              UnansweredLater(memo, path, o.memo);
              ScanTrap(prog, k, instrs[1..], o.memo, path);
            } else if Exact(prog, Scan(prog, k, instrs[1..], o.memo, path).memo) {
              WrongStays(prog, o.memo, path, Scan(prog, k, instrs[1..], o.memo, path).memo);
            }
          }
        } else {
          NoReceivers(prog, path, k, i);
          ScanTrap(prog, k, instrs[1..], memo, path);
        }
      }
    }
  }

  lemma NothingLeads(prog: Program, answered: set<Key>, path: set<Key>, k: Key)
    ensures !LeadsToTrap(prog, answered, path, k, [])
  {
  }

  lemma NoReceivers(prog: Program, path: set<Key>, k: Key, i: Instr)
    requires !Escapes(i, k.index) && !(i.Call? && i.callee.Some?)
    ensures QuietInstr(prog, path, k, i)
  {
  }

  /** Every argument from `a` on that passes the parameter on is answered false. */
  ghost predicate ArgsQuiet(prog: Program, path: set<Key>, k: Key, i: Instr, a: nat)
    requires i.Call? && i.callee.Some?
  {
    forall b | a <= b < |i.args| && k.index in i.args[b] :: Quiet(prog, path, Key(i.callee.value, b))
  }

  lemma ArgsQuietIs(prog: Program, path: set<Key>, k: Key, i: Instr)
    requires i.Call? && i.callee.Some? && !Escapes(i, k.index)
    ensures ArgsQuiet(prog, path, k, i, 0) <==> QuietInstr(prog, path, k, i)
  {
    hide MayCallback, Escapes;
    if QuietInstr(prog, path, k, i) {
      forall b | 0 <= b < |i.args| && k.index in i.args[b]
        ensures Quiet(prog, path, Key(i.callee.value, b))
      {
        var r := Key(i.callee.value, b);
        if Known(prog, r) {
          assert r in Receivers(prog, i, k.index);
        } else {
          UnknownIsHarmless(prog, r);
        }
      }
    }
  }

  lemma {:induction false} ArgsTrap(prog: Program, k: Key, i: Instr, a: nat, memo: Memo, path: set<Key>)
    requires i.Call? && i.callee.Some? && a <= |i.args|
    requires Exact(prog, memo) && Unanswered(memo, path)
    ensures Exact(prog, ScanArgs(prog, k, i.callee.value, i.args, a, memo, path).memo) <==>
              !PassedToTrap(prog, Trues(memo), path, k, i.callee.value, i.args, a)
    ensures Exact(prog, ScanArgs(prog, k, i.callee.value, i.args, a, memo, path).memo) ==>
              (ScanArgs(prog, k, i.callee.value, i.args, a, memo, path).found <==> !ArgsQuiet(prog, path, k, i, a))
    decreases Keys(prog) - path, 3, |i.args| - a, 0
  {
    hide MayCallback, PassedToTrap, Exact, Unanswered, Trues, Trap, Known;
    if a == |i.args| {
      NothingPassed(prog, Trues(memo), path, k, i.callee.value, i.args);
    } else {
      PassedUnfold(prog, Trues(memo), path, k, i.callee.value, i.args, a);
      if k.index in i.args[a] {
        var r := Key(i.callee.value, a);
        QueryTrap(prog, r, memo, path);
        QueryExtends(prog, r, memo, path);
        var o := Query(prog, r, memo, path);
        if !o.found {
          ArgsExtend(prog, k, i.callee.value, i.args, a + 1, o.memo, path);
          if Exact(prog, o.memo) {
            UnansweredLater(memo, path, o.memo);
            ArgsTrap(prog, k, i, a + 1, o.memo, path);
          } else if Exact(prog, ScanArgs(prog, k, i.callee.value, i.args, a + 1, o.memo, path).memo) {
            WrongStays(prog, o.memo, path, ScanArgs(prog, k, i.callee.value, i.args, a + 1, o.memo, path).memo);
          }
        }
      } else {
        ArgsTrap(prog, k, i, a + 1, memo, path);
      }
    }
  }

  lemma NothingPassed(prog: Program, answered: set<Key>, path: set<Key>, k: Key, callee: FuncId, args: seq<set<nat>>)
    ensures !PassedToTrap(prog, answered, path, k, callee, args, |args|)
  {
  }

  /** On a right memo a query leaves a wrong answer behind exactly when its parameter is a trap. */
  lemma StaleIffTrap(prog: Program, k: Key, memo: Memo)
    requires Exact(prog, memo)
    ensures Exact(prog, Query(prog, k, memo, {}).memo) <==> !Trap(prog, Trues(memo), {}, k)
  {
    QueryTrap(prog, k, memo, {});
  }

  /** What is answered already only cuts chains short. */
  lemma {:induction false} TrapWithLess(prog: Program, answered: set<Key>, less: set<Key>, path: set<Key>, k: Key)
    requires Trap(prog, answered, path, k) && less <= answered
    ensures Trap(prog, less, path, k)
    decreases Keys(prog) - path
  {
    hide MayCallback, AllQuiet, LeadsToTrap, Arrives;
    var instrs, p := prog[k.fn].instrs, path + {k};
    assert k in Keys(prog);
    if LeadsToTrap(prog, answered, p, k, instrs) {
      var j, a := TrapAt(prog, answered, p, k, instrs);
      ArrivesAtCall(prog, p, k, instrs, j, a);
      TrapWithLess(prog, answered, less, p, Key(instrs[j].callee.value, a));
      LeadsFrom(prog, less, p, k, instrs, j, a);
    }
  }

  lemma ArrivesAtCall(prog: Program, path: set<Key>, k: Key, instrs: seq<Instr>, j: nat, a: nat)
    requires Arrives(prog, path, k, instrs, j, a)
    ensures j < |instrs| && instrs[j].Call? && instrs[j].callee.Some? && a < |instrs[j].args| && k.index in instrs[j].args[a]
  {
  }

  lemma LeadsFrom(prog: Program, answered: set<Key>, path: set<Key>, k: Key, instrs: seq<Instr>, j: nat, a: nat)
    requires Arrives(prog, path, k, instrs, j, a) && Trap(prog, answered, path, Key(instrs[j].callee.value, a))
    ensures LeadsToTrap(prog, answered, path, k, instrs)
  {
    hide Trap;
  }

  /** The memo after a sequence of queries that share it. */
  function AfterQueries(prog: Program, ks: seq<Key>, memo: Memo): Memo {
    if ks == [] then memo else AfterQueries(prog, ks[1..], Query(prog, ks[0], memo, {}).memo)
  }

  lemma {:induction false} QueriesStayExact(prog: Program, ks: seq<Key>, memo: Memo)
    requires NoTraps(prog) && Exact(prog, memo)
    ensures Exact(prog, AfterQueries(prog, ks, memo))
  {
    hide MayCallback, Trap, Query;
    if ks != [] {
      QueryStaysExact(prog, ks[0], memo);
      QueriesStayExact(prog, ks[1..], Query(prog, ks[0], memo, {}).memo);
    }
  }

  /** Where there is no trap, the memo stays right after any answer. */
  lemma QueryStaysExact(prog: Program, k: Key, memo: Memo)
    requires NoTraps(prog) && Exact(prog, memo)
    ensures Exact(prog, Query(prog, k, memo, {}).memo)
    ensures Query(prog, k, memo, {}).found <==> MayCallback(prog, k)
  {
    hide MayCallback, Trap, Query;
    StaleIffTrap(prog, k, memo);
    QueryIsExact(prog, k, memo);
    if Trap(prog, Trues(memo), {}, k) {
      TrapWithLess(prog, Trues(memo), {}, {}, k);
    }
  }

  ghost predicate AlwaysRight(prog: Program) {
    forall ks, k | Known(prog, k) ::
      Query(prog, k, AfterQueries(prog, ks, map[]), {}).found <==> MayCallback(prog, k)
  }

  /** One memo shared by any sequence of queries answers each of them rightly exactly when the
      program has no trap. */
  lemma SharedMemoRightIffNoTraps(prog: Program)
    ensures AlwaysRight(prog) <==> NoTraps(prog)
  {
    hide MayCallback, Trap, Query, Known;
    assert Exact(prog, map[]);
    if NoTraps(prog) {
      forall ks, k | Known(prog, k)
        ensures Query(prog, k, AfterQueries(prog, ks, map[]), {}).found <==> MayCallback(prog, k)
      {
        QueriesStayExact(prog, ks, map[]);
        QueryIsExact(prog, k, AfterQueries(prog, ks, map[]));
      }
    }
    if AlwaysRight(prog) {
      forall k
        ensures !Trap(prog, {}, {}, k)
      {
        assert AfterQueries(prog, [k][1..], Query(prog, k, map[], {}).memo) == Query(prog, k, map[], {}).memo;
        assert AfterQueries(prog, [k], map[]) == Query(prog, k, map[], {}).memo;
        MemoServesIffExact(prog, Query(prog, k, map[], {}).memo);
        StaleIffTrap(prog, k, map[]);
        assert Trues(map[]) == {};
      }
    }
  }

  /** No query of the sequence meets a trap, given the answers that are on record by then. */
  ghost predicate NoTrapOn(prog: Program, ks: seq<Key>, memo: Memo) {
    ks == []
    || (!Trap(prog, Trues(memo), {}, ks[0]) && NoTrapOn(prog, ks[1..], Query(prog, ks[0], memo, {}).memo))
  }

  lemma {:induction false} QueriesExtend(prog: Program, ks: seq<Key>, memo: Memo)
    ensures Extends(memo, {}, AfterQueries(prog, ks, memo))
  {
    hide Query;
    if ks != [] {
      QueryExtends(prog, ks[0], memo, {});
      QueriesExtend(prog, ks[1..], Query(prog, ks[0], memo, {}).memo);
    }
  }

  /** A sequence of queries leaves every entry right exactly when none of them meets a trap. */
  lemma {:induction false} ExactIffNoTrapOn(prog: Program, ks: seq<Key>, memo: Memo)
    requires Exact(prog, memo)
    ensures Exact(prog, AfterQueries(prog, ks, memo)) <==> NoTrapOn(prog, ks, memo)
  {
    hide MayCallback, Trap, Query, Exact, Trues, Extends;
    if ks != [] {
      var next := Query(prog, ks[0], memo, {}).memo;
      StaleIffTrap(prog, ks[0], memo);
      if Exact(prog, next) {
        ExactIffNoTrapOn(prog, ks[1..], next);
      } else if Exact(prog, AfterQueries(prog, ks[1..], next)) {
        QueriesExtend(prog, ks[1..], next);
        WrongStays(prog, next, {}, AfterQueries(prog, ks[1..], next));
      }
    }
  }

  lemma {:induction false} QueriesSplit(prog: Program, ks: seq<Key>, more: seq<Key>, memo: Memo)
    ensures AfterQueries(prog, ks + more, memo) == AfterQueries(prog, more, AfterQueries(prog, ks, memo))
  {
    hide Query;
    if ks == [] {
      assert ks + more == more;
    } else {
      assert (ks + more)[1..] == ks[1..] + more;
      QueriesSplit(prog, ks[1..], more, Query(prog, ks[0], memo, {}).memo);
    }
  }

  lemma OneMoreQuery(prog: Program, ks: seq<Key>, k: Key, memo: Memo)
    ensures AfterQueries(prog, ks + [k], memo) == Query(prog, k, AfterQueries(prog, ks, memo), {}).memo
  {
    hide Query;
    QueriesSplit(prog, ks, [k], memo);
    assert [k][1..] == [];
  }

  /** So the memo is right all along the sequence. */
  lemma PrefixIsExact(prog: Program, ks: seq<Key>, front: seq<Key>)
    requires NoTrapOn(prog, ks, map[]) && front <= ks
    ensures Exact(prog, AfterQueries(prog, front, map[]))
  {
    hide MayCallback, NoTrapOn, AfterQueries, Extends;
    assert Exact(prog, map[]);
    hide Exact;
    ExactIffNoTrapOn(prog, ks, map[]);
    var rest := ks[|front|..];
    assert ks == front + rest;
    QueriesSplit(prog, front, rest, map[]);
    QueriesExtend(prog, rest, AfterQueries(prog, front, map[]));
    WrongStays(prog, AfterQueries(prog, front, map[]), {}, AfterQueries(prog, ks, map[]));
  }

  /** In a program without traps no sequence meets one. */
  lemma NoTrapsAnywhere(prog: Program, ks: seq<Key>)
    requires NoTraps(prog)
    ensures NoTrapOn(prog, ks, map[])
  {
    hide MayCallback, NoTrapOn, AfterQueries, NoTraps;
    assert Exact(prog, map[]);
    hide Exact;
    QueriesStayExact(prog, ks, map[]);
    ExactIffNoTrapOn(prog, ks, map[]);
  }

  // ----- Programs without traps

  /** Two parameters that are forwarded to each other are harmless. */
  ghost predicate HarmlessCycles(prog: Program) {
    forall x, y :: x != y && Reaches(ForwardSucc(prog), x, y) && Reaches(ForwardSucc(prog), y, x) ==> !MayCallback(prog, x)
  }

  ghost predicate Above(prog: Program, path: set<Key>, k: Key) {
    forall v | v in path :: Reaches(ForwardSucc(prog), v, k)
  }

  lemma AboveNext(prog: Program, path: set<Key>, k: Key, r: Key)
    requires Above(prog, path, k) && r in Forwarded(prog, k)
    ensures Above(prog, path + {k}, r)
  {
    hide Forwarded, Reaches;
    var succ := ForwardSucc(prog);
    assert r in succ(k);
    ReachesSelf(succ, k);
    forall v | v in path + {k}
      ensures Reaches(succ, v, r)
    {
      ReachesStep(succ, v, k, r);
    }
  }

  /** A chain may be taken to leave its parameter for good. */
  lemma MayThroughOther(prog: Program, k: Key) returns (r: Key)
    requires MayCallback(prog, k) && !Sink(prog, k)
    ensures r != k && r in Forwarded(prog, k) && MayCallback(prog, r)
  {
    hide Sink, Forwarded;
    var succ := ForwardSucc(prog);
    var s :| Reaches(succ, k, s) && Sink(prog, s);
    var p :| WalkFromTo(succ, p, k, s);
    var j := LastVisit(p, k);
    r := p[j + 1];
    var q := p[j + 1..];
    assert forall i | 0 <= i < |q| :: q[i] == p[j + 1 + i];
    assert WalkFromTo(succ, q, r, s);
    assert r in succ(p[j]);
  }

  lemma {:induction false} HarmlessIsNoTrap(prog: Program, answered: set<Key>, path: set<Key>, k: Key)
    requires HarmlessCycles(prog) && Above(prog, path, k)
    ensures !Trap(prog, answered, path, k)
    decreases Keys(prog) - path
  {
    hide MayCallback, Forwarded, LeadsToTrap, Arrives, Escapes, Receivers;
    if Trap(prog, answered, path, k) {
      var instrs, p := prog[k.fn].instrs, path + {k};
      assert k in Keys(prog);
      if LeadsToTrap(prog, answered, p, k, instrs) {
        var j, a := TrapAt(prog, answered, p, k, instrs);
        ArrivesAtCall(prog, p, k, instrs, j, a);
        ReceiverIsForwarded(prog, k, instrs[j], a);
        AboveNext(prog, path, k, Key(instrs[j].callee.value, a));
        HarmlessIsNoTrap(prog, answered, p, Key(instrs[j].callee.value, a));
      } else {
        QuietIsNoSink(prog, p, k);
        var r := MayThroughOther(prog, k);
        QuietReceiver(prog, p, k, r);
        ReachesSelf(ForwardSucc(prog), k);
        ReachesStep(ForwardSucc(prog), k, k, r);
      }
    }
  }

  lemma QuietIsNoSink(prog: Program, path: set<Key>, k: Key)
    requires Known(prog, k) && AllQuiet(prog, path, k, prog[k.fn].instrs)
    ensures !Sink(prog, k)
  {
    hide Escapes;
  }

  lemma QuietReceiver(prog: Program, path: set<Key>, k: Key, r: Key)
    requires Known(prog, k) && AllQuiet(prog, path, k, prog[k.fn].instrs) && r in Forwarded(prog, k)
    ensures Quiet(prog, path, r)
  {
    hide Receivers, MayCallback;
    var i :| i in prog[k.fn].instrs && r in Receivers(prog, i, k.index);
    assert QuietInstr(prog, path, k, i);
  }

  /** Recursion that hands a parameter to itself, and cycles that only pass it round, do no harm. */
  lemma HarmlessCyclesAreSafe(prog: Program)
    requires HarmlessCycles(prog)
    ensures NoTraps(prog)
  {
    hide Trap, HarmlessCycles;
    forall k
      ensures !Trap(prog, {}, {}, k)
    {
      HarmlessIsNoTrap(prog, {}, {}, k);
    }
  }

  // ----- A shared memo can go stale

  /** Function 0 forwards its parameter to function 1 and then stores it; function 1 forwards it back. */
  function Pair(): Program {
    map[0 := Body(1, [Call({}, Some(1), [{0}]), MapUpdate({0})]), 1 := Body(1, [Call({}, Some(0), [{0}])])]
  }

  /** The true answer for function 0 leaves a false one for function 1, which is wrong. */
  lemma StaleAnswer()
    ensures var memo := Query(Pair(), Key(0, 0), map[], {}).memo;
            !Query(Pair(), Key(1, 0), memo, {}).found && MayCallback(Pair(), Key(1, 0))
  {
    var prog, k0, k1 := Pair(), Key(0, 0), Key(1, 0);
    var callTo1, callTo0 := Call({}, Some(1), [{0}]), Call({}, Some(0), [{0}]);
    var body1 := [callTo0];
    // The inner search of function 1, while function 0 is being searched.
    assert Query(prog, k0, map[], {k0, k1}) == Outcome(false, map[]);
    assert ScanArgs(prog, k1, 0, [{0}], 1, map[], {k0, k1}) == Outcome(false, map[]);
    assert ScanArgs(prog, k1, 0, [{0}], 0, map[], {k0, k1}) == Outcome(false, map[]);
    assert body1[1..] == [];
    assert Scan(prog, k1, body1, map[], {k0, k1}) == Outcome(false, map[]);
    assert {k0} + {k1} == {k0, k1};
    assert Query(prog, k1, map[], {k0}) == Outcome(false, map[k1 := false]);
    // The rest of function 0.
    var m := map[k1 := false];
    assert ScanArgs(prog, k0, 1, [{0}], 1, m, {k0}) == Outcome(false, m);
    assert ScanArgs(prog, k0, 1, [{0}], 0, map[], {k0}) == Outcome(false, m);
    var body0 := [callTo1, MapUpdate({0})];
    assert body0[1..] == [MapUpdate({0})];
    assert Scan(prog, k0, body0, map[], {k0}) == Outcome(true, m);
    assert {} + {k0} == {k0};
    assert Query(prog, k0, map[], {}) == Outcome(true, m[k0 := true]);
    // The chain the stale answer misses.
    assert MapUpdate({0}) in body0 && Sink(prog, k0);
    SinkMay(prog, k0);
    assert callTo0 in body1;
    ReceiverIsForwarded(prog, k1, callTo0, 0);
    ForwardMay(prog, k1, k0);
  }

  // ----- The registrations of one augmentation pass

  /** One argument of a call: the functions it resolves to when it is of a function type. */
  datatype SiteArg = SiteArg(isFunction: bool, targets: seq<Func>)

  datatype Site = Site(callee: Option<FuncId>, args: seq<SiteArg>)

  datatype Registration = Registration(site: nat, arg: nat, target: Func)

  /** The argument is a function value and the callee may call it back; an unknown callee may. */
  ghost predicate Registers(prog: Program, sites: seq<Site>, r: Registration) {
    && r.site < |sites| && r.arg < |sites[r.site].args|
    && sites[r.site].args[r.arg].isFunction && r.target in sites[r.site].args[r.arg].targets && !r.target.generic
    && (sites[r.site].callee.Some? ==> MayCallback(prog, Key(sites[r.site].callee.value, r.arg)))
  }

  /** The parameters the pass asks about before it comes to argument `a` of call site `s`. */
  function QueriesTo(sites: seq<Site>, s: nat, a: nat): seq<Key>
    requires s <= |sites| && a <= if s < |sites| then |sites[s].args| else 0
    decreases s, a
  {
    if a > 0 then QueriesTo(sites, s, a - 1) + QueryAt(sites[s], a - 1)
    else if s > 0 then QueriesTo(sites, s - 1, |sites[s - 1].args|)
    else []
  }

  function QueryAt(site: Site, a: nat): seq<Key>
    requires a < |site.args|
  {
    if site.args[a].isFunction && site.args[a].targets != [] && site.callee.Some? then [Key(site.callee.value, a)] else []
  }

  function Queries(sites: seq<Site>): seq<Key> {
    QueriesTo(sites, |sites|, 0)
  }

  lemma {:induction false} QueriesGrow(sites: seq<Site>, s: nat, a: nat)
    requires s <= |sites| && a <= if s < |sites| then |sites[s].args| else 0
    ensures QueriesTo(sites, s, a) <= Queries(sites)
    decreases |sites| - s, if s < |sites| then |sites[s].args| - a else 0
  {
    if s < |sites| {
      if a < |sites[s].args| {
        QueriesGrow(sites, s, a + 1);
      } else {
        QueriesGrow(sites, s + 1, 0);
      }
    }
  }

  /** The pass over all call sites with one shared memo. What it registers is justified; when none of
      its own queries meets a trap it registers everything that is. */
  method AugmentFuncArgs(prog: Program, sites: seq<Site>) returns (found: seq<Registration>)
    ensures forall r | r in found :: Registers(prog, sites, r)
    ensures NoTrapOn(prog, Queries(sites), map[]) ==> forall r | Registers(prog, sites, r) :: r in found
  {
    hide MayCallback, NoTrapOn, Query, AfterQueries, QueriesTo, Exact;
    ghost var safe := NoTrapOn(prog, Queries(sites), map[]);
    var search := new Search(prog);
    found := [];
    NothingAsked(prog, sites);
    for s := 0 to |sites|
      invariant search.visiting == {} && TrueOk(prog, search.memo)
      invariant search.memo == AfterQueries(prog, QueriesTo(sites, s, 0), map[])
      invariant forall r | r in found :: Registers(prog, sites, r)
      invariant safe ==> forall r | Registers(prog, sites, r) && r.site < s :: r in found
    {
      for a := 0 to |sites[s].args|
        invariant search.visiting == {} && TrueOk(prog, search.memo)
        invariant search.memo == AfterQueries(prog, QueriesTo(sites, s, a), map[])
        invariant forall r | r in found :: Registers(prog, sites, r)
        invariant safe ==>
                    forall r | Registers(prog, sites, r) && (r.site < s || (r.site == s && r.arg < a)) :: r in found
      {
        var arg := sites[s].args[a];
        NextQuery(prog, sites, s, a);
        if !arg.isFunction || |arg.targets| == 0 {
          continue;
        }
        if sites[s].callee.Some? {
          var k := Key(sites[s].callee.value, a);
          TrueIsSound(prog, k, search.memo, {});
          if safe {
            QueriesGrow(sites, s, a);
            PrefixIsExact(prog, Queries(sites), QueriesTo(sites, s, a));
            QueryIsExact(prog, k, search.memo);
          }
          var may := search.ParameterMayCallback(k);
          if !may {
            continue;
          }
        }
        for t := 0 to |arg.targets|
          invariant forall r | r in found :: Registers(prog, sites, r)
          invariant safe ==>
                      forall r | Registers(prog, sites, r) && (r.site < s || (r.site == s && r.arg < a)) :: r in found
          invariant forall u | 0 <= u < t && !arg.targets[u].generic :: Registration(s, a, arg.targets[u]) in found
        {
          if !arg.targets[t].generic {
            found := found + [Registration(s, a, arg.targets[t])];
          }
        }
      }
      NextSite(sites, s);
    }
  }

  lemma NothingAsked(prog: Program, sites: seq<Site>)
    ensures AfterQueries(prog, QueriesTo(sites, 0, 0), map[]) == map[] && TrueOk(prog, map[])
  {
  }

  lemma NextSite(sites: seq<Site>, s: nat)
    requires s < |sites|
    ensures QueriesTo(sites, s + 1, 0) == QueriesTo(sites, s, |sites[s].args|)
  {
  }

  lemma NextQuery(prog: Program, sites: seq<Site>, s: nat, a: nat)
    requires s < |sites| && a < |sites[s].args|
    ensures var arg := sites[s].args[a]; var memo := AfterQueries(prog, QueriesTo(sites, s, a), map[]);
            AfterQueries(prog, QueriesTo(sites, s, a + 1), map[])
            == if arg.isFunction && arg.targets != [] && sites[s].callee.Some?
               then Query(prog, Key(sites[s].callee.value, a), memo, {}).memo else memo
  {
    hide Query, AfterQueries;
    var ks := QueriesTo(sites, s, a);
    var q := QueryAt(sites[s], a);
    if q == [] {
      assert ks + q == ks;
    } else {
      OneMoreQuery(prog, ks, q[0], map[]);
    }
  }
}
