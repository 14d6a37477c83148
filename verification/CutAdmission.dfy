/** The refusal-driven loop that admits, adapts or demotes recommended cuts one after another. */
module CutAdmission {
  import opened Functions
  import opened Orders
  import opened CutRanking

  /** `handle`: the type names a database, transaction, connection, file or filesystem handle. */
  datatype Refusal = Refusal(code: string, message: string, typ: string, handle: bool)

  /** `cut` is the candidate the verdict speaks about. */
  datatype Verdict = Verdict(accepted: bool, refusals: seq<Refusal>, cut: Option<Id>)

  datatype Plan = Plan(receiver: bool, functionBoundary: bool, body: nat)

  /** One call of `tryAdmitCandidate`; `failed` is its error return. */
  datatype Attempt = Attempt(accepted: bool, refusals: seq<Refusal>, plan: Option<Plan>, failed: bool)

  /** One call of `tryAdapterRecovery`. */
  datatype Recovery = Recovery(adapted: bool, refusals: seq<Refusal>)

  /** Everything the loop asks the planner and the clock: one answer for each attempt. */
  datatype Planner = Planner(expired: nat -> bool, admit: nat -> Attempt, build: nat -> Option<Plan>,
                             recover: (nat, Option<Plan>) -> Recovery, admitPlan: (nat, Plan) -> Attempt)

  datatype Demotion = Demotion(id: Id, name: string, code: string, message: string)

  /** The adapter class of every step of the path. */
  type Classes = map<int, AdapterClass>

  datatype Outcome = Outcome(verdict: Verdict, chain: seq<Demotion>, failed: bool, classes: Classes)

  // ----- Refusal vocabulary

  const RETRYABLE: set<string> := {"receiver_requires_reconstruction", "non_serializable_receiver",
    "unsupported_boundary_data", "unsupported_result_shape", "unsupported_param_shape",
    "callable_boundary_values", "missing_reconstructor", "adapter_unknown"}

  const ADAPTER_ELIGIBLE: set<string> := {"unsupported_boundary_data", "unsupported_result_shape",
    "unsupported_param_shape", "callable_boundary_values", "missing_reconstructor"}

  const PARENT_FORBIDDEN := Refusal("adapter_parent_forbidden",
    "candidate is an ancestor of a deeper candidate whose AdapterClass is not DirectBoundary; the adapter-shaped leaf must be tried instead of this parent",
    "", false)

  function Refused(v: Verdict, code: string): Verdict {
    v.(accepted := false, refusals := v.refusals + [Refusal(code, "", "", false)])
  }

  const MISSING_RECOMMENDED := Verdict(false, [Refusal("missing_recommended_cut", "", "", false)], None)

  /** The first refusal that may be retried with another candidate. */
  function Retryable(refusals: seq<Refusal>): Option<Refusal> {
    if refusals == [] then None
    else if refusals[0].code in RETRYABLE then Some(refusals[0])
    else Retryable(refusals[1..])
  }

  predicate AdapterEligible(r: Refusal) {
    r.code in ADAPTER_ELIGIBLE && (r.code == "missing_reconstructor" ==> r.typ != "" && !r.handle)
  }

  predicate RecoveryAllowed(c: Candidate, plan: Option<Plan>) {
    && c.key.receiver == "" && (plan.Some? ==> !plan.value.receiver)
    && c.state != SharedState
    && !((c.callbacks == Moderate || c.callbacks == Many) && (plan.Some? ==> plan.value.functionBoundary))
    && (c.surface == Minimal || c.surface == Small)
  }

  function AdapterRefusalClass(refusals: seq<Refusal>): (AdapterClass, string) {
    if refusals == [] then (AdapterClass.AdapterUnknown, "adapter recovery failed without a detailed refusal")
    else
      var r := refusals[0];
      (if r.code == "live_proxy_required" then LiveProxyRequired
       else if r.code == "adapter_impossible" then AdapterClass.AdapterImpossible else AdapterClass.AdapterUnknown,
       if r.message != "" then r.code + ": " + r.message else r.code)
  }

  function DemotionReason(r: Refusal): string {
    r.code + (if r.message != "" then ": " + r.message else "") + (if r.typ != "" then " (" + r.typ + ")" else "")
  }

  // ----- Adapter classes along the path

  predicate NonDirect(a: AdapterClass) {
    a != Unset && a != DirectBoundary
  }

  /** A deeper step carries an adapter class: the candidate may not stand in for that leaf. */
  predicate Forbidden(step: int, classes: Classes) {
    exists s | s in classes :: s > step && NonDirect(classes[s])
  }

  ghost predicate Shaped(cs: seq<Candidate>, classes: Classes) {
    && (forall c | c in cs :: c.step in classes && classes[c.step] == c.adapterClass)
    && (forall s | s in classes :: exists c :: c in cs && c.step == s)
  }

  // ----- One pass over the initial ranking

  /** What the loop does with one recommended candidate: settle the run, or demote it. */
  datatype Turn = Settle(verdict: Verdict, failed: bool, classes: Classes)
                | Demote(refusal: Refusal, verdict: Verdict, classes: Classes)

  function TurnFor(c: Candidate, attempt: nat, on: bool, p: Planner, last: Verdict, classes: Classes): Turn {
    if on && Forbidden(c.step, classes) then Demote(PARENT_FORBIDDEN, last, classes)
    else
      var a := p.admit(attempt);
      var v := Verdict(a.accepted, a.refusals, Some(IdOf(c)));
      if a.failed then Settle(v, true, classes)
      else if a.accepted then Settle(v, false, classes)
      else
        match Retryable(a.refusals)
        case None => Settle(v, false, classes)
        case Some(r) =>
          if on && AdapterEligible(r) then AdapterTurn(c, attempt, p, v, r, a.plan, classes)
          else Demote(r, v, classes)
  }

  function AdapterTurn(c: Candidate, attempt: nat, p: Planner, v: Verdict, r: Refusal, direct: Option<Plan>, classes: Classes): Turn {
    var plan := if direct.Some? then direct else p.build(attempt);
    if !RecoveryAllowed(c, plan) then Demote(r, v, classes)
    else
      var recovery := p.recover(attempt, plan);
      if recovery.adapted && plan.Some? then
        var a := p.admitPlan(attempt, plan.value);
        if a.accepted then
          Settle(Verdict(true, a.refusals, Some(IdOf(c))), false, classes[c.step := AdapterPossible])
        else Demote(r, v, classes[c.step := AdapterRefusalClass(a.refusals).0])
      else Demote(r, v, classes[c.step := AdapterRefusalClass(recovery.refusals).0])
  }

  function DemotionOf(c: Candidate, r: Refusal): Demotion {
    Demotion(IdOf(c), c.name, r.code, r.message)
  }

  function Onward(d: Demotion, rest: Outcome): Outcome {
    rest.(chain := [d] + rest.chain)
  }

  /** The whole run as one walk down the feasible candidates, best first, never ranked again. */
  function Walk(todo: seq<Candidate>, attempt: nat, limit: nat, on: bool, p: Planner, last: Verdict, classes: Classes): Outcome
    decreases |todo|
  {
    if attempt >= limit then Outcome(last, [], false, classes)
    else if p.expired(attempt) then
      var v := if last.refusals != [] then last
               else Verdict(false, [], if todo != [] then Some(IdOf(todo[0])) else None);
      Outcome(Refused(v, "admission_retry_budget_exceeded"), [], false, classes)
    else if todo == [] then Outcome(if last.refusals != [] then last else MISSING_RECOMMENDED, [], false, classes)
    else
      match TurnFor(todo[0], attempt, on, p, last, classes)
      case Settle(v, failed, cls) => Outcome(v, [], failed, cls)
      case Demote(r, v, cls) => Onward(DemotionOf(todo[0], r), Walk(todo[1..], attempt + 1, limit, on, p, v, cls))
  }

  function Extend(chain: seq<Demotion>, o: Outcome): Outcome {
    o.(chain := chain + o.chain)
  }

  const NO_VERDICT := Verdict(false, [], None)

  function Run(cs: seq<Candidate>, on: bool, p: Planner, classes: Classes): Outcome {
    if FeasibleOf(cs) == [] then Outcome(MISSING_RECOMMENDED, [], false, classes)
    else Walk(BareAll(FeasibleOf(cs)), 0, |cs|, on, p, NO_VERDICT, classes)
  }

  // ----- The mutable loop

  method FirstRetryable(refusals: seq<Refusal>) returns (r: Option<Refusal>)
    ensures r == Retryable(refusals)
  {
    for i := 0 to |refusals|
      invariant Retryable(refusals) == Retryable(refusals[i..])
    {
      if refusals[i].code in RETRYABLE {
        return Some(refusals[i]);
      }
      assert refusals[i..][1..] == refusals[i + 1..];
    }
    return None;
  }

  method ParentForbidden(candidate: Candidate, candidates: seq<Candidate>) returns (forbidden: bool)
    ensures forbidden <==> exists c :: c in candidates && c.step > candidate.step && NonDirect(c.adapterClass)
  {
    for i := 0 to |candidates|
      invariant forall j | 0 <= j < i :: !(candidates[j].step > candidate.step && NonDirect(candidates[j].adapterClass))
    {
      var other := candidates[i];
      if other.step <= candidate.step {
        continue;
      }
      if other.adapterClass == Unset || other.adapterClass == DirectBoundary {
        continue;
      }
      return true;
    }
    return false;
  }

  lemma ForbiddenIsShaped(step: int, cs: seq<Candidate>, classes: Classes)
    requires Shaped(cs, classes)
    ensures Forbidden(step, classes) <==> exists c :: c in cs && c.step > step && NonDirect(c.adapterClass)
  {
    if Forbidden(step, classes) {
      var s :| s in classes && s > step && NonDirect(classes[s]);
      var c :| c in cs && c.step == s;
      assert NonDirect(c.adapterClass);
    }
    if c :| c in cs && c.step > step && NonDirect(c.adapterClass) {
      assert c.step in classes && NonDirect(classes[c.step]);
    }
  }

  /** Writes the adapter class of a candidate back and makes it the recommendation. */
  method MarkCandidateAdapter(cut: CutResult, candidate: Candidate)
    modifies cut
    ensures IdOf(candidate) !in Ids(old(cut.candidates)) ==>
              cut.candidates == old(cut.candidates) && cut.recommended == old(cut.recommended)
    ensures IdOf(candidate) in Ids(old(cut.candidates)) ==>
              cut.recommended.Some? && FirstWithId(old(cut.candidates), IdOf(candidate), cut.recommended.value)
              && cut.candidates == Remarked(old(cut.candidates), cut.recommended.value, candidate)
  {
    for i := 0 to |cut.candidates|
      invariant cut.candidates == old(cut.candidates) && cut.recommended == old(cut.recommended)
      invariant forall j | 0 <= j < i :: IdOf(cut.candidates[j]) != IdOf(candidate)
    {
      if cut.candidates[i].step == candidate.step && cut.candidates[i].key == candidate.key {
        assert Ids(cut.candidates)[i] == IdOf(candidate);
        cut.candidates := Remarked(cut.candidates, i, candidate);
        cut.recommended := Some(i);
        return;
      }
    }
    assert forall j | 0 <= j < |cut.candidates| :: Ids(cut.candidates)[j] == IdOf(cut.candidates[j]);
  }

  predicate FirstWithId(cs: seq<Candidate>, id: Id, i: nat) {
    i < |cs| && IdOf(cs[i]) == id && forall j | 0 <= j < i :: IdOf(cs[j]) != id
  }

  function Remarked(cs: seq<Candidate>, i: nat, c: Candidate): seq<Candidate>
    requires i < |cs|
  {
    cs[i := cs[i].(adapterClass := c.adapterClass, adapterReason := c.adapterReason)]
  }

  lemma {:induction false} SameBareFeasibles(a: seq<Candidate>, b: seq<Candidate>)
    requires SameBare(a, b)
    ensures BareAll(FeasibleOf(a)) == BareAll(FeasibleOf(b))
  {
    if a != [] {
      assert Bare(a[0]) == Bare(b[0]);
      assert SameBare(a[1..], b[1..]);
      SameBareFeasibles(a[1..], b[1..]);
      BareCons(a[0], FeasibleOf(a[1..]));
      BareCons(b[0], FeasibleOf(b[1..]));
    }
  }

  lemma BareCons(c: Candidate, cs: seq<Candidate>)
    ensures BareAll([c] + cs) == [Bare(c)] + BareAll(cs)
  {
    assert ([c] + cs)[1..] == cs;
  }

  lemma BareTail(cs: seq<Candidate>)
    requires cs != []
    ensures BareAll(cs)[0] == Bare(cs[0]) && BareAll(cs)[1..] == BareAll(cs[1..])
  {
    assert cs == [cs[0]] + cs[1..];
    BareCons(cs[0], cs[1..]);
  }

  /** Writing an adapter class into the best candidate disturbs nothing but that class. */
  lemma MarkedState(before: seq<Candidate>, c: Candidate, classes: Classes)
    requires Sorted(before, Better) && DistinctSteps(before) && before != [] && Shaped(before, classes)
    requires IdOf(c) == IdOf(before[0])
    ensures var after := Remarked(before, 0, c);
            && SameBare(before, after) && Sorted(after, Better) && DistinctSteps(after)
            && Shaped(after, classes[c.step := c.adapterClass])
  {
    hide Better;
    var after := Remarked(before, 0, c);
    var marked := classes[c.step := c.adapterClass];
    SameBareSorted(before, after);
    forall d | d in after
      ensures d.step in marked && marked[d.step] == d.adapterClass
    {
      var i :| 0 <= i < |after| && after[i] == d;
      if i > 0 {
        assert d == before[i] && d.step != before[0].step;
      }
    }
    forall s | s in marked
      ensures exists d :: d in after && d.step == s
    {
      if s == c.step {
        assert after[0] in after;
      } else {
        var d :| d in before && d.step == s;
        var i :| 0 <= i < |before| && before[i] == d;
        assert after[i] in after && after[i].step == s;
      }
    }
  }

  lemma AnnotatedKeeps(cs: seq<Candidate>, sorted: seq<Candidate>, r: Option<nat>, i: nat)
    requires AnnotatedFrom(cs, sorted, r) && i < |cs|
    ensures cs[i].step == sorted[i].step && cs[i].adapterClass == sorted[i].adapterClass
  {
    hide AgainstNext, DecisiveDifference;
  }

  lemma ShapedPermutes(a: seq<Candidate>, b: seq<Candidate>, classes: Classes)
    requires Shaped(a, classes) && multiset(a) == multiset(b)
    ensures Shaped(b, classes)
  {
    SameElements(a, b);
  }

  lemma ShapedAlike(a: seq<Candidate>, b: seq<Candidate>, classes: Classes)
    requires Shaped(a, classes) && |a| == |b|
    requires forall i | 0 <= i < |a| :: b[i].step == a[i].step && b[i].adapterClass == a[i].adapterClass
    ensures Shaped(b, classes)
  {
    forall s | s in classes
      ensures exists d :: d in b && d.step == s
    {
      var d :| d in a && d.step == s;
      var i :| 0 <= i < |a| && a[i] == d;
      assert b[i] in b;
    }
  }

  lemma ShapedThroughSort(cs: seq<Candidate>, sorted: seq<Candidate>, r: Option<nat>, m: seq<Candidate>, classes: Classes)
    requires Shaped(m, classes) && multiset(sorted) == multiset(m) && AnnotatedFrom(cs, sorted, r)
    ensures Shaped(cs, classes)
  {
    hide Annotated, Unrecommended, Shaped;
    ShapedPermutes(m, sorted, classes);
    assert |cs| == |sorted|;
    hide AnnotatedFrom;
    forall i | 0 <= i < |cs|
      ensures cs[i].step == sorted[i].step && cs[i].adapterClass == sorted[i].adapterClass
    {
      AnnotatedKeeps(cs, sorted, r, i);
    }
    ShapedAlike(sorted, cs, classes);
  }

  lemma MarkShaped(cs: seq<Candidate>, reason: string, classes: Classes)
    requires Shaped(cs, classes) && cs != []
    ensures Shaped(Mark(cs, IdOf(cs[0]), reason), classes)
  {
    hide Mark;
    var c := cs[0].(feasibility := Infeasible, reason := Demoted(reason));
    MarkAt(cs, IdOf(cs[0]), reason, 0);
    var m := cs[0 := c];
    assert m == [c] + cs[1..];
    forall s | s in classes
      ensures exists d :: d in m && d.step == s
    {
      var d :| d in cs && d.step == s;
      var i :| 0 <= i < |cs| && cs[i] == d;
      assert m[i] in m && m[i].step == s;
    }
    forall d | d in m
      ensures d.step in classes && classes[d.step] == d.adapterClass
    {
      var i :| 0 <= i < |m| && m[i] == d;
      assert cs[i] in cs;
    }
  }

  lemma SomeFeasible(cs: seq<Candidate>)
    requires FeasibleOf(cs) != []
    ensures cs != []
  {
  }

  /** What demoting the recommended candidate leaves. */
  lemma DemotedState(before: seq<Candidate>, after: seq<Candidate>, r: Option<nat>, reason: string, classes: Classes)
    requires Sorted(before, Better) && DistinctSteps(before) && FeasibleOf(before) != [] && Shaped(before, classes)
    requires SameBare(after, SortBy(Mark(before, IdOf(before[0]), reason), Better))
    requires AnnotatedFrom(after, SortBy(Mark(before, IdOf(before[0]), reason), Better), r)
    ensures Shaped(after, classes)
    ensures BareAll(FeasibleOf(after)) == BareAll(FeasibleOf(before))[1..]
    ensures BareAll(after) == DemoteAll(BareAll(before), [IdOf(before[0])])
  {
    hide Better, Sorted, DistinctSteps, SortBy, Mark, FeasibleOf, SameBare, AnnotatedFrom, DemoteAll, MapSeq, Shaped;
    SomeFeasible(before);
    var id := IdOf(before[0]);
    var m := Mark(before, id, reason);
    var sorted := SortBy(m, Better);
    DemoteFirst(before, reason);
    MarkShaped(before, reason, classes);
    ShapedThroughSort(after, sorted, r, m, classes);
    SameBareFeasibles(after, sorted);
    BareTail(FeasibleOf(before));
    assert Ids(before)[0] == id;
    DemoteCandidateIsDemotion(before, after, id, reason);
  }

  lemma DemoteOneMore(cs: seq<Candidate>, ids: seq<Id>, id: Id)
    ensures DemoteAll(cs, ids + [id]) == DemoteAll(DemoteAll(cs, ids), [id])
  {
    hide Blocked, SortBy;
    assert (ids + [id])[..|ids|] == ids && [id][..0] == [];
    assert DemoteAll(DemoteAll(cs, ids), []) == DemoteAll(cs, ids);
  }

  lemma TurnIsBare(c: Candidate, attempt: nat, on: bool, p: Planner, last: Verdict, classes: Classes)
    ensures TurnFor(Bare(c), attempt, on, p, last, classes) == TurnFor(c, attempt, on, p, last, classes)
  {
    hide AdapterRefusalClass, Retryable, AdapterEligible, Forbidden;
  }

  function ChainIds(chain: seq<Demotion>): seq<Id> {
    seq(|chain|, i requires 0 <= i < |chain| => chain[i].id)
  }

  /** The adapter branch of the loop: either the candidate is accepted in adapted form, or it
      keeps the class that recovery found and is left to be demoted. */
  method AdapterPass(cut: CutResult, candidate: Candidate, refusal: Refusal, direct: Option<Plan>, attempt: nat,
                     p: Planner, ghost v: Verdict, ghost classes: Classes)
    returns (accepted: Option<Verdict>, ghost final: Classes)
    requires cut.Ranked() && FeasibleOf(cut.candidates) != [] && candidate == cut.candidates[0]
    requires Shaped(cut.candidates, classes)
    modifies cut
    ensures AdapterTurn(candidate, attempt, p, v, refusal, direct, classes)
            == if accepted.Some? then Settle(accepted.value, false, final) else Demote(refusal, v, final)
    ensures cut.Ranked() && Shaped(cut.candidates, final) && SameBare(old(cut.candidates), cut.candidates)
  {
    hide Better, Sorted, DistinctSteps, FeasibleOf, AdapterRefusalClass;
    accepted, final := None, classes;
    var plan := direct;
    if plan.None? {
      plan := p.build(attempt);
    }
    if !RecoveryAllowed(candidate, plan) {
      return;
    }
    var recovery := p.recover(attempt, plan);
    var refusals := recovery.refusals;
    var marked := candidate;
    if recovery.adapted && plan.Some? {
      var a := p.admitPlan(attempt, plan.value);
      if a.accepted {
        marked := candidate.(adapterClass := AdapterPossible,
                             adapterReason := "adapter recovery accepted after direct refusal: " + refusal.code);
        accepted := Some(Verdict(true, a.refusals, Some(IdOf(candidate))));
      }
      refusals := a.refusals;
    }
    if accepted.None? {
      var found := AdapterRefusalClass(refusals);
      marked := candidate.(adapterClass := found.0, adapterReason := found.1);
    }
    SomeFeasible(cut.candidates);
    MarkedState(cut.candidates, marked, classes);
    SameBareFeasible(cut.candidates, Remarked(cut.candidates, 0, marked));
    assert Ids(cut.candidates)[0] == IdOf(marked);
    MarkCandidateAdapter(cut, marked);
    final := classes[marked.step := marked.adapterClass];
    assert |Ids(FeasibleOf(cut.candidates))| == |FeasibleOf(cut.candidates)|;
  }

  lemma TopOfRanking(cs: seq<Candidate>)
    requires Sorted(cs, Better)
    ensures BareAll(FeasibleOf(cs)) == [] <==> FeasibleOf(cs) == []
    ensures FeasibleOf(cs) != [] ==> cs != [] && BareAll(FeasibleOf(cs))[0] == Bare(cs[0])
  {
    hide Better;
    FeasibleIsPrefix(cs);
    if FeasibleOf(cs) != [] {
      BareTail(FeasibleOf(cs));
    }
  }

  lemma SameBareFirst(a: seq<Candidate>, b: seq<Candidate>)
    requires SameBare(a, b) && a != []
    ensures b != [] && IdOf(b[0]) == IdOf(a[0])
  {
    assert Bare(a[0]) == Bare(b[0]);
  }

  /** One recommended candidate: settled, or refused in a way that lets another be tried. */
  method Consider(cut: CutResult, candidate: Candidate, attempt: nat, on: bool, p: Planner, last: Verdict, ghost classes: Classes)
    returns (settled: bool, verdict: Verdict, failed: bool, refusal: Refusal, ghost final: Classes)
    requires cut.Ranked() && FeasibleOf(cut.candidates) != [] && candidate == cut.candidates[0]
    requires Shaped(cut.candidates, classes)
    modifies cut
    ensures TurnFor(candidate, attempt, on, p, last, classes)
            == if settled then Settle(verdict, failed, final) else Demote(refusal, verdict, final)
    ensures failed ==> settled
    ensures cut.Ranked() && Shaped(cut.candidates, final) && SameBare(old(cut.candidates), cut.candidates)
  {
    hide Better, Sorted, DistinctSteps, FeasibleOf, AdapterTurn, Forbidden, Shaped, Retryable, AdapterEligible;
    settled, verdict, failed, refusal, final := false, last, false, PARENT_FORBIDDEN, classes;
    if on {
      ForbiddenIsShaped(candidate.step, cut.candidates, classes);
      var forbidden := ParentForbidden(candidate, cut.candidates);
      if forbidden {
        return;
      }
    }
    var a := p.admit(attempt);
    verdict := Verdict(a.accepted, a.refusals, Some(IdOf(candidate)));
    if a.failed || a.accepted {
      settled, failed := true, a.failed;
      return;
    }
    var r := FirstRetryable(a.refusals);
    if r.None? {
      settled := true;
      return;
    }
    refusal := r.value;
    if on && AdapterEligible(refusal) {
      var accepted;
      accepted, final := AdapterPass(cut, candidate, refusal, a.plan, attempt, p, verdict, classes);
      if accepted.Some? {
        settled, verdict := true, accepted.value;
      }
    }
  }

  /** What is fixed for a whole run: the flag, the planner, the attempt bound, the unannotated
      initial list and the outcome of the single walk over it. */
  datatype Setting = Setting(on: bool, p: Planner, limit: nat, bare: seq<Candidate>, whole: Outcome)

  ghost predicate Coherent(s: Setting, cs: seq<Candidate>, chain: seq<Demotion>, classes: Classes) {
    && Sorted(cs, Better) && DistinctSteps(cs) && Shaped(cs, classes)
    && BareAll(cs) == DemoteAll(s.bare, ChainIds(chain))
  }

  function Rest(s: Setting, cs: seq<Candidate>, attempt: nat, last: Verdict, classes: Classes): Outcome {
    Walk(BareAll(FeasibleOf(cs)), attempt, s.limit, s.on, s.p, last, classes)
  }

  /** The loop invariant: what is left of the single walk completes the chain so far. */
  ghost predicate OnTrack(s: Setting, cs: seq<Candidate>, chain: seq<Demotion>, attempt: nat, last: Verdict, classes: Classes) {
    Coherent(s, cs, chain, classes) && Extend(chain, Rest(s, cs, attempt, last, classes)) == s.whole
  }

  lemma TrackEnds(s: Setting, cs: seq<Candidate>, chain: seq<Demotion>, attempt: nat, last: Verdict, classes: Classes)
    requires OnTrack(s, cs, chain, attempt, last, classes)
    ensures attempt >= s.limit ==> s.whole == Outcome(last, chain, false, classes)
    ensures attempt < s.limit && s.p.expired(attempt) ==> s.whole == Outcome(Expired(cs, last), chain, false, classes)
    ensures attempt < s.limit && !s.p.expired(attempt) && FeasibleOf(cs) == [] ==>
              s.whole == Outcome(if last.refusals != [] then last else MISSING_RECOMMENDED, chain, false, classes)
  {
    hide Better, Sorted, DistinctSteps, Shaped, DemoteAll, FeasibleOf, TurnFor, Forbidden, MapSeq, BareAll;
    assert Sorted(cs, Better);
    TopOfRanking(cs);
    assert chain + [] == chain;
  }

  function Expired(cs: seq<Candidate>, last: Verdict): Verdict {
    Refused(if last.refusals != [] then last
            else Verdict(false, [], if FeasibleOf(cs) != [] && cs != [] then Some(IdOf(cs[0])) else None),
            "admission_retry_budget_exceeded")
  }

  /** One turn of the walk, seen from the re-ranked list. */
  lemma TrackTurn(s: Setting, cs: seq<Candidate>, chain: seq<Demotion>, attempt: nat, last: Verdict, classes: Classes)
    requires OnTrack(s, cs, chain, attempt, last, classes)
    requires attempt < s.limit && !s.p.expired(attempt) && FeasibleOf(cs) != []
    ensures cs != []
    ensures match TurnFor(cs[0], attempt, s.on, s.p, last, classes)
            case Settle(v, failed, cls) => s.whole == Outcome(v, chain, failed, cls)
            case Demote(r, v, cls) =>
              s.whole == Extend(chain + [DemotionOf(cs[0], r)],
                                Walk(BareAll(FeasibleOf(cs))[1..], attempt + 1, s.limit, s.on, s.p, v, cls))
  {
    hide Better, Sorted, DistinctSteps, Shaped, DemoteAll, FeasibleOf, TurnFor, Forbidden, MapSeq, BareAll;
    assert Sorted(cs, Better);
    TopOfRanking(cs);
    TurnIsBare(cs[0], attempt, s.on, s.p, last, classes);
    match TurnFor(cs[0], attempt, s.on, s.p, last, classes)
    case Settle(v, failed, cls) =>
      assert chain + [] == chain;
    case Demote(r, v, cls) =>
      var rest := Walk(BareAll(FeasibleOf(cs))[1..], attempt + 1, s.limit, s.on, s.p, v, cls);
      assert chain + ([DemotionOf(cs[0], r)] + rest.chain) == chain + [DemotionOf(cs[0], r)] + rest.chain;
  }

  lemma StillCoherent(s: Setting, before: seq<Candidate>, marked: seq<Candidate>, chain: seq<Demotion>, classes: Classes, final: Classes)
    requires Coherent(s, before, chain, classes) && SameBare(before, marked) && Shaped(marked, final)
    ensures Coherent(s, marked, chain, final)
  {
    hide Better, Sorted, DistinctSteps, Shaped, DemoteAll, BareAll, Bare, SameBare;
    SameBareSorted(before, marked);
    BareAlike(before, marked);
  }

  /** A demotion moves the track one candidate down the initial ranking. */
  lemma TrackDemotion(s: Setting, before: seq<Candidate>, marked: seq<Candidate>, after: seq<Candidate>, r: Option<nat>,
                      chain: seq<Demotion>, attempt: nat, refusal: Refusal, v: Verdict, final: Classes)
    requires Coherent(s, marked, chain, final) && FeasibleOf(before) != [] && before != [] && SameBare(before, marked)
    requires s.whole == Extend(chain + [DemotionOf(before[0], refusal)],
                               Walk(BareAll(FeasibleOf(before))[1..], attempt + 1, s.limit, s.on, s.p, v, final))
    requires marked != [] && SameBare(after, SortBy(Mark(marked, IdOf(marked[0]), DemotionReason(refusal)), Better))
    requires AnnotatedFrom(after, SortBy(Mark(marked, IdOf(marked[0]), DemotionReason(refusal)), Better), r)
    requires Sorted(after, Better) && DistinctSteps(after)
    ensures OnTrack(s, after, chain + [DemotionOf(before[0], refusal)], attempt + 1, v, final)
  {
    hide Better, Sorted, DistinctSteps, FeasibleOf, SortBy, Mark, SameBare, AnnotatedFrom, DemoteAll, BareAll, Shaped, MapSeq,
      Bare, Walk, DemotionReason;
    SameBareFeasibles(before, marked);
    SameBareFirst(before, marked);
    BareLength(FeasibleOf(before));
    BareLength(FeasibleOf(marked));
    DemotedState(marked, after, r, DemotionReason(refusal), final);
    var d := DemotionOf(before[0], refusal);
    assert ChainIds(chain + [d]) == ChainIds(chain) + [d.id];
    DemoteOneMore(s.bare, ChainIds(chain), d.id);
  }

  lemma BareLength(cs: seq<Candidate>)
    ensures |BareAll(cs)| == |cs|
  {
  }

  /** The imperative loop over a list that is re-ranked after every demotion. It ends as the single
      walk down the initial ranking does, with exactly the refused candidates demoted. */
  method AdmitCutCandidates(cut: CutResult, on: bool, p: Planner, ghost classes: Classes)
    returns (verdict: Verdict, chain: seq<Demotion>, failed: bool, ghost final: Classes)
    requires cut.Ranked() && Shaped(cut.candidates, classes)
    modifies cut
    ensures Outcome(verdict, chain, failed, final) == Run(old(cut.candidates), on, p, classes)
    ensures cut.Ranked() && Shaped(cut.candidates, final)
    ensures BareAll(cut.candidates) == DemoteAll(BareAll(old(cut.candidates)), ChainIds(chain))
  {
    hide Better, Sorted, DistinctSteps, FeasibleOf, SortBy, Mark, SameBare, AnnotatedFrom, DemoteAll, BareAll, Shaped, MapSeq,
      TurnFor, Bare, Walk, OnTrack, DemotionReason;
    chain, failed, final := [], false, classes;
    NothingDemoted(cut.candidates);
    if cut.recommended.None? {
      return MISSING_RECOMMENDED, [], false, classes;
    }
    var maxAttempts := |cut.candidates|;
    if maxAttempts == 0 {
      maxAttempts := 1;
    }
    SomeFeasible(cut.candidates);
    var last := NO_VERDICT;
    ghost var s := Setting(on, p, maxAttempts, BareAll(cut.candidates), Run(cut.candidates, on, p, classes));
    TrackStarts(s, cut.candidates, classes);
    for attempt := 0 to maxAttempts
      invariant cut.Ranked() && OnTrack(s, cut.candidates, chain, attempt, last, final)
      invariant !failed
    {
      OnTrackIs(s, cut.candidates, chain, attempt, last, final);
      TrackEnds(s, cut.candidates, chain, attempt, last, final);
      TopOfRanking(cut.candidates);
      if p.expired(attempt) {
        if |last.refusals| == 0 {
          last := Verdict(false, [], if cut.recommended.Some? then Some(IdOf(cut.candidates[cut.recommended.value])) else None);
        }
        verdict := Refused(last, "admission_retry_budget_exceeded");
        return;
      }
      if cut.recommended.None? {
        if |last.refusals| > 0 {
          verdict := last;
          return;
        }
        verdict := MISSING_RECOMMENDED;
        return;
      }
      var candidate := cut.candidates[cut.recommended.value];
      ghost var before := cut.candidates;
      TrackTurn(s, before, chain, attempt, last, final);
      ghost var held := final;
      var settled, refusal;
      settled, verdict, failed, refusal, final := Consider(cut, candidate, attempt, on, p, last, held);
      StillCoherent(s, before, cut.candidates, chain, held, final);
      if settled {
        return;
      }
      last := verdict;
      ghost var marked := cut.candidates;
      SameBareFirst(before, marked);
      assert Ids(marked)[0] == Id(candidate.step, candidate.key);
      cut.DemoteCandidate(candidate.step, candidate.key, DemotionReason(refusal));
      TrackDemotion(s, before, marked, cut.candidates, cut.recommended, chain, attempt, refusal, verdict, final);
      chain := chain + [DemotionOf(candidate, refusal)];
    }
    OnTrackIs(s, cut.candidates, chain, maxAttempts, last, final);
    TrackEnds(s, cut.candidates, chain, maxAttempts, last, final);
    verdict := last;
  }

  lemma OnTrackIs(s: Setting, cs: seq<Candidate>, chain: seq<Demotion>, attempt: nat, last: Verdict, classes: Classes)
    requires OnTrack(s, cs, chain, attempt, last, classes)
    ensures Coherent(s, cs, chain, classes)
  {
    hide Coherent;
  }

  lemma NothingDemoted(cs: seq<Candidate>)
    ensures BareAll(cs) == DemoteAll(BareAll(cs), ChainIds([]))
  {
    assert ChainIds([]) == [];
  }

  lemma TrackStarts(s: Setting, cs: seq<Candidate>, classes: Classes)
    requires Sorted(cs, Better) && DistinctSteps(cs) && Shaped(cs, classes) && FeasibleOf(cs) != []
    requires s.bare == BareAll(cs) && s.limit == |cs| && s.whole == Run(cs, s.on, s.p, classes)
    ensures OnTrack(s, cs, [], 0, NO_VERDICT, classes)
  {
    hide Better, Sorted, DistinctSteps, FeasibleOf, DemoteAll, BareAll, Shaped, Walk;
    NothingDemoted(cs);
    assert forall o: Outcome :: [] + o.chain == o.chain;
  }

  // ----- Whole runs

  /** The demotion chain walks the initial feasible ranking from the top, one candidate for each
      attempt, so no candidate is tried or demoted twice. */
  lemma {:induction false} ChainIsPrefix(todo: seq<Candidate>, attempt: nat, limit: nat, on: bool, p: Planner, last: Verdict, classes: Classes)
    ensures var o := Walk(todo, attempt, limit, on, p, last, classes);
            && |o.chain| <= |todo| && (o.chain != [] ==> attempt + |o.chain| <= limit)
            && ChainIds(o.chain) == Ids(todo)[..|o.chain|]
    decreases |todo|
  {
    hide TurnFor;
    if attempt < limit && !p.expired(attempt) && todo != [] {
      match TurnFor(todo[0], attempt, on, p, last, classes)
      case Settle(_, _, _) =>
      case Demote(r, v, cls) =>
        ChainIsPrefix(todo[1..], attempt + 1, limit, on, p, v, cls);
        var rest := Walk(todo[1..], attempt + 1, limit, on, p, v, cls).chain;
        forall i | 0 <= i < |rest|
          ensures rest[i].id == IdOf(todo[i + 1])
        {
          assert ChainIds(rest)[i] == Ids(todo[1..])[i];
        }
    }
  }

  /** Adapter classes are only ever replaced by adapter classes, and only with the flag on. */
  lemma TurnKeepsAdapters(c: Candidate, attempt: nat, on: bool, p: Planner, last: Verdict, classes: Classes)
    ensures var t := TurnFor(c, attempt, on, p, last, classes);
            && (!on ==> t.classes == classes)
            && (forall s | s in classes && NonDirect(classes[s]) :: s in t.classes && NonDirect(t.classes[s]))
  {
    hide Forbidden, Retryable, RecoveryAllowed, AdapterEligible;
  }

  lemma {:induction false} AdaptersStay(todo: seq<Candidate>, attempt: nat, limit: nat, on: bool, p: Planner, last: Verdict, classes: Classes)
    ensures var o := Walk(todo, attempt, limit, on, p, last, classes);
            && (!on ==> o.classes == classes)
            && (forall s | s in classes && NonDirect(classes[s]) :: s in o.classes && NonDirect(o.classes[s]))
    decreases |todo|
  {
    hide TurnFor, NonDirect;
    if attempt < limit && !p.expired(attempt) && todo != [] {
      TurnKeepsAdapters(todo[0], attempt, on, p, last, classes);
      match TurnFor(todo[0], attempt, on, p, last, classes)
      case Settle(_, _, _) =>
      case Demote(_, v, cls) =>
        AdaptersStay(todo[1..], attempt + 1, limit, on, p, v, cls);
    }
  }

  lemma TurnAccepts(c: Candidate, attempt: nat, on: bool, p: Planner, last: Verdict, classes: Classes)
    requires !last.accepted
    ensures match TurnFor(c, attempt, on, p, last, classes)
            case Settle(v, failed, cls) =>
              v.accepted && !failed ==> v.cut == Some(IdOf(c)) && (on ==> !Forbidden(c.step, cls))
            case Demote(_, v, _) => !v.accepted
  {
    hide Retryable, RecoveryAllowed, AdapterEligible, AdapterRefusalClass;
    var t := TurnFor(c, attempt, on, p, last, classes);
    if on && !Forbidden(c.step, classes) {
      assert !Forbidden(c.step, classes[c.step := AdapterPossible]);
    }
  }

  predicate Accepts(o: Outcome) {
    o.verdict.accepted && !o.failed
  }

  /** An accepted run accepts the candidate right after the demoted ones; with the flag on, no
      deeper step carries an adapter class in the end. */
  lemma {:induction false} AcceptedIsNext(todo: seq<Candidate>, attempt: nat, limit: nat, on: bool, p: Planner, last: Verdict, classes: Classes)
    requires !last.accepted && Accepts(Walk(todo, attempt, limit, on, p, last, classes))
    ensures var o := Walk(todo, attempt, limit, on, p, last, classes);
            && |o.chain| < |todo| && o.verdict.cut == Some(IdOf(todo[|o.chain|]))
            && (on ==> !Forbidden(todo[|o.chain|].step, o.classes))
    decreases |todo|
  {
    hide TurnFor, Forbidden;
    if attempt < limit && !p.expired(attempt) && todo != [] {
      TurnAccepts(todo[0], attempt, on, p, last, classes);
      match TurnFor(todo[0], attempt, on, p, last, classes)
      case Settle(_, _, _) =>
      case Demote(_, v, cls) =>
        AcceptedIsNext(todo[1..], attempt + 1, limit, on, p, v, cls);
    }
  }

  /** Why a candidate may be demoted at an attempt. */
  predicate Justified(d: Demotion, a: Attempt, on: bool) {
    if d.code == PARENT_FORBIDDEN.code then on
    else !a.accepted && !a.failed && Retryable(a.refusals).Some? && Retryable(a.refusals).value.code == d.code
  }

  predicate AllJustified(chain: seq<Demotion>, attempt: nat, on: bool, p: Planner) {
    forall i | 0 <= i < |chain| :: Justified(chain[i], p.admit(attempt + i), on)
  }

  lemma {:induction false} RetryableIsListed(refusals: seq<Refusal>)
    ensures Retryable(refusals).Some? ==> Retryable(refusals).value in refusals && Retryable(refusals).value.code in RETRYABLE
  {
    if refusals != [] {
      RetryableIsListed(refusals[1..]);
    }
  }

  lemma TurnIsJustified(c: Candidate, attempt: nat, on: bool, p: Planner, last: Verdict, classes: Classes)
    ensures var t := TurnFor(c, attempt, on, p, last, classes);
            t.Demote? ==> Justified(DemotionOf(c, t.refusal), p.admit(attempt), on)
  {
    hide Forbidden, RecoveryAllowed, AdapterEligible, AdapterRefusalClass, Retryable;
    RetryableIsListed(p.admit(attempt).refusals);
  }

  /** Every demotion answers a retryable refusal of that very attempt, or the parent rule. */
  lemma {:induction false} DemotionsAreJustified(todo: seq<Candidate>, attempt: nat, limit: nat, on: bool, p: Planner, last: Verdict, classes: Classes)
    ensures var o := Walk(todo, attempt, limit, on, p, last, classes);
            AllJustified(o.chain, attempt, on, p)
    decreases |todo|
  {
    hide TurnFor, Justified, AllJustified;
    NoDemotions(attempt, on, p);
    if attempt < limit && !p.expired(attempt) && todo != [] {
      TurnIsJustified(todo[0], attempt, on, p, last, classes);
      match TurnFor(todo[0], attempt, on, p, last, classes)
      case Settle(_, _, _) =>
      case Demote(r, v, cls) =>
        DemotionsAreJustified(todo[1..], attempt + 1, limit, on, p, v, cls);
        JustifiedOnward(DemotionOf(todo[0], r), Walk(todo[1..], attempt + 1, limit, on, p, v, cls).chain, attempt, on, p);
    }
  }

  lemma NoDemotions(attempt: nat, on: bool, p: Planner)
    ensures AllJustified([], attempt, on, p)
  {
  }

  lemma JustifiedOnward(d: Demotion, rest: seq<Demotion>, attempt: nat, on: bool, p: Planner)
    requires Justified(d, p.admit(attempt), on) && AllJustified(rest, attempt + 1, on, p)
    ensures AllJustified([d] + rest, attempt, on, p)
  {
    hide Justified;
    var chain := [d] + rest;
    forall i | 0 <= i < |chain|
      ensures Justified(chain[i], p.admit(attempt + i), on)
    {
      if i > 0 {
        assert Justified(rest[i - 1], p.admit(attempt + 1 + (i - 1)), on);
      }
    }
  }

  /** The planner gives no answer that ends a run short of acceptance. */
  ghost predicate Patient(p: Planner) {
    forall i: nat :: !p.expired(i) && !p.admit(i).failed && (p.admit(i).accepted || Retryable(p.admit(i).refusals).Some?)
  }

  lemma TurnIsPatient(c: Candidate, attempt: nat, on: bool, p: Planner, last: Verdict, classes: Classes)
    requires Patient(p)
    ensures var t := TurnFor(c, attempt, on, p, last, classes);
            t.Settle? ==> t.verdict.accepted && !t.failed
  {
    hide Forbidden, RecoveryAllowed, AdapterEligible, AdapterRefusalClass, Retryable;
    assert !p.admit(attempt).failed;
  }

  /** Without timeouts, errors and final refusals a run ends in acceptance or has tried every
      feasible candidate. */
  lemma {:induction false} NeverGivesUpEarly(todo: seq<Candidate>, attempt: nat, limit: nat, on: bool, p: Planner, last: Verdict, classes: Classes)
    requires Patient(p) && attempt + |todo| <= limit
    ensures var o := Walk(todo, attempt, limit, on, p, last, classes);
            Accepts(o) || |o.chain| == |todo|
    decreases |todo|
  {
    hide TurnFor;
    assert !p.expired(attempt);
    if attempt < limit && todo != [] {
      TurnIsPatient(todo[0], attempt, on, p, last, classes);
      hide Patient;
      match TurnFor(todo[0], attempt, on, p, last, classes)
      case Settle(_, _, _) =>
      case Demote(_, v, cls) =>
        NeverGivesUpEarly(todo[1..], attempt + 1, limit, on, p, v, cls);
    }
  }

  /** With the flag off nothing about adapters matters: not the classes, not what recovery says. */
  lemma {:induction false} FlagOffIgnoresAdapters(todo: seq<Candidate>, attempt: nat, limit: nat, p: Planner, q: Planner,
                                                  last: Verdict, classes: Classes, others: Classes)
    requires p.expired == q.expired && p.admit == q.admit
    ensures var a := Walk(todo, attempt, limit, false, p, last, classes);
            var b := Walk(todo, attempt, limit, false, q, last, others);
            a.verdict == b.verdict && a.chain == b.chain && a.failed == b.failed
    decreases |todo|
  {
    hide Retryable;
    if attempt < limit && !p.expired(attempt) && todo != [] {
      var t := TurnFor(todo[0], attempt, false, p, last, classes);
      if t.Demote? {
        FlagOffIgnoresAdapters(todo[1..], attempt + 1, limit, p, q, t.verdict, classes, others);
      }
    }
  }

  // ----- What a run means for the path

  lemma BareIds(cs: seq<Candidate>)
    ensures |BareAll(cs)| == |cs| && Ids(BareAll(cs)) == Ids(cs)
    ensures forall i | 0 <= i < |cs| :: IdOf(BareAll(cs)[i]) == IdOf(cs[i]) && BareAll(cs)[i].step == cs[i].step
  {
    hide MapSeq;
    assert forall i | 0 <= i < |cs| :: BareAll(cs)[i] == Bare(cs[i]);
  }

  /** An accepted cut is the best-ranked feasible candidate that was not demoted, and with the
      flag on no step deeper than it had an adapter class before or after the run. */
  lemma AcceptedCut(cs: seq<Candidate>, on: bool, p: Planner, classes: Classes)
    requires Sorted(cs, Better) && Accepts(Run(cs, on, p, classes))
    ensures var o := Run(cs, on, p, classes); var k := |o.chain|; var feasible := FeasibleOf(cs);
            && k < |feasible| && o.verdict.cut == Some(IdOf(feasible[k]))
            && ChainIds(o.chain) == Ids(feasible)[..k]
            && (forall c | c in feasible && Better(c, feasible[k]) :: IdOf(c) in ChainIds(o.chain))
            && (on ==> !Forbidden(feasible[k].step, classes) && !Forbidden(feasible[k].step, o.classes))
  {
    hide *;
    var feasible := FeasibleOf(cs);
    var todo := BareAll(feasible);
    RunIsWalk(cs, on, p, classes);
    ChainIsPrefix(todo, 0, |cs|, on, p, NO_VERDICT, classes);
    AcceptedIsNext(todo, 0, |cs|, on, p, NO_VERDICT, classes);
    AdaptersStay(todo, 0, |cs|, on, p, NO_VERDICT, classes);
    BareIds(feasible);
    FeasibleSorted(cs);
    var o := Run(cs, on, p, classes);
    BetterIsBefore(feasible, |o.chain|, o.chain);
    if on {
      ForbiddenGrows(feasible[|o.chain|].step, classes, o.classes);
    }
  }

  lemma RunIsWalk(cs: seq<Candidate>, on: bool, p: Planner, classes: Classes)
    requires Accepts(Run(cs, on, p, classes))
    ensures !NO_VERDICT.accepted && Run(cs, on, p, classes) == Walk(BareAll(FeasibleOf(cs)), 0, |cs|, on, p, NO_VERDICT, classes)
  {
    hide Walk, BareAll, FeasibleOf;
  }

  /** What is better than the candidate at `k` of a sorted list is among the demoted ones before it. */
  lemma BetterIsBefore(feasible: seq<Candidate>, k: nat, chain: seq<Demotion>)
    requires Sorted(feasible, Better) && k < |feasible| && ChainIds(chain) == Ids(feasible)[..k]
    ensures forall c | c in feasible && Better(c, feasible[k]) :: IdOf(c) in ChainIds(chain)
  {
    hide Better, MapSeq;
    forall c | c in feasible && Better(c, feasible[k])
      ensures IdOf(c) in ChainIds(chain)
    {
      var j :| 0 <= j < |feasible| && feasible[j] == c;
      BetterPair(c, c);
      assert j < k;
      assert Ids(feasible)[j] == ChainIds(chain)[j];
    }
  }

  lemma ForbiddenGrows(step: int, before: Classes, after: Classes)
    requires forall s | s in before && NonDirect(before[s]) :: s in after && NonDirect(after[s])
    ensures Forbidden(step, before) ==> Forbidden(step, after)
  {
    if Forbidden(step, before) {
      var s :| s in before && s > step && NonDirect(before[s]);
      assert s in after && NonDirect(after[s]);
    }
  }

  /** The planner was asked to adapt the candidate of this attempt and did not accept it. */
  predicate AdapterTried(c: Candidate, attempt: nat, p: Planner) {
    var a := p.admit(attempt);
    && !a.accepted && !a.failed && Retryable(a.refusals).Some? && AdapterEligible(Retryable(a.refusals).value)
    && RecoveryAllowed(c, if a.plan.Some? then a.plan else p.build(attempt))
  }

  /** Once adapter recovery has failed on a leaf, nothing above that leaf is accepted any more. */
  lemma {:induction false} FailedLeafBlocksParents(todo: seq<Candidate>, attempt: nat, limit: nat, p: Planner, last: Verdict, classes: Classes, i: nat)
    requires !last.accepted && Accepts(Walk(todo, attempt, limit, true, p, last, classes))
    requires var o := Walk(todo, attempt, limit, true, p, last, classes);
             i < |o.chain| <= |todo| && o.chain[i].code != PARENT_FORBIDDEN.code && AdapterTried(todo[i], attempt + i, p)
    ensures var o := Walk(todo, attempt, limit, true, p, last, classes);
            |o.chain| < |todo| && todo[|o.chain|].step >= todo[i].step
    decreases |todo|
  {
    hide TurnFor, Forbidden, AdapterTried;
    AcceptedIsNext(todo, attempt, limit, true, p, last, classes);
    if attempt < limit && !p.expired(attempt) && todo != [] {
      TurnAccepts(todo[0], attempt, true, p, last, classes);
      match TurnFor(todo[0], attempt, true, p, last, classes)
      case Settle(_, _, _) =>
      case Demote(_, v, cls) =>
        if i == 0 {
          TriedIsMarked(todo[0], attempt, p, last, classes);
          AdaptersStay(todo[1..], attempt + 1, limit, true, p, v, cls);
          var o := Walk(todo, attempt, limit, true, p, last, classes);
          NotForbidden(o.classes, todo[0].step, todo[|o.chain|].step);
        } else {
          FailedLeafBlocksParents(todo[1..], attempt + 1, limit, p, v, cls, i - 1);
        }
    }
  }

  lemma NotForbidden(classes: Classes, s: int, step: int)
    requires s in classes && NonDirect(classes[s]) && !Forbidden(step, classes)
    ensures s <= step
  {
  }

  lemma TriedIsMarked(c: Candidate, attempt: nat, p: Planner, last: Verdict, classes: Classes)
    requires AdapterTried(c, attempt, p)
    requires var t := TurnFor(c, attempt, true, p, last, classes); t.Demote? && t.refusal.code != PARENT_FORBIDDEN.code
    ensures var t := TurnFor(c, attempt, true, p, last, classes);
            c.step in t.classes && NonDirect(t.classes[c.step])
  {
    hide Forbidden, Retryable, RecoveryAllowed, AdapterEligible;
  }
}
