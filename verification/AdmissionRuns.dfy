/** What an admission run is, told attempt by attempt in the planner's own answers: why each candidate
    was demoted, why the run stopped where it did and what it leaves on the path. */
module AdmissionRuns {
  import opened Functions
  import opened Orders
  import opened CutRanking
  import opened CutAdmission

  // ----- What one attempt says

  predicate MayRetry(code: string) {
    || code == "receiver_requires_reconstruction" || code == "non_serializable_receiver"
    || code == "unsupported_boundary_data" || code == "unsupported_result_shape"
    || code == "unsupported_param_shape" || code == "callable_boundary_values"
    || code == "missing_reconstructor" || code == "adapter_unknown"
  }

  /** `r` is the first refusal after which another candidate may be tried. */
  ghost predicate Retries(refusals: seq<Refusal>, r: Refusal) {
    exists i: nat :: i < |refusals| && refusals[i] == r && FirstRetry(refusals, i)
  }

  predicate FirstRetry(refusals: seq<Refusal>, i: nat)
    requires i < |refusals|
  {
    MayRetry(refusals[i].code) && forall j | 0 <= j < i :: !MayRetry(refusals[j].code)
  }

  predicate Final(refusals: seq<Refusal>) {
    forall r | r in refusals :: !MayRetry(r.code)
  }

  predicate Adaptable(r: Refusal) {
    || r.code == "unsupported_boundary_data" || r.code == "unsupported_result_shape"
    || r.code == "unsupported_param_shape" || r.code == "callable_boundary_values"
    || (r.code == "missing_reconstructor" && r.typ != "" && !r.handle)
  }

  /** The plan recovery starts from: the attempt's own, or one built for it. */
  function PlanAt(n: nat, p: Planner): Option<Plan> {
    match p.admit(n).plan
    case Some(plan) => Some(plan)
    case None => p.build(n)
  }

  /** No receiver, no shared state, few callbacks or a boundary without functions, a small surface. */
  predicate Suited(c: Candidate, plan: Option<Plan>) {
    && c.key.receiver == "" && c.state != SharedState && c.surface in {Minimal, Small}
    && match plan
       case Some(known) => !known.receiver && (c.callbacks in {Moderate, Many} ==> !known.functionBoundary)
       case None => c.callbacks !in {Moderate, Many}
  }

  /** The attempt is refused in a way that another candidate may follow, `r` saying why. */
  ghost predicate RefusedFor(n: nat, p: Planner, r: Refusal) {
    !p.admit(n).failed && !p.admit(n).accepted && Retries(p.admit(n).refusals, r)
  }

  /** Recovery is asked to adapt the candidate of attempt `n`. */
  ghost predicate Asked(c: Candidate, n: nat, on: bool, p: Planner) {
    on && Suited(c, PlanAt(n, p)) && exists r :: RefusedFor(n, p, r) && Adaptable(r)
  }

  /** Recovery adapts it, and the planner accepts the adapted plan. */
  ghost predicate Recovered(c: Candidate, n: nat, on: bool, p: Planner) {
    && Asked(c, n, on, p) && PlanAt(n, p).Some?
    && p.recover(n, PlanAt(n, p)).adapted && p.admitPlan(n, PlanAt(n, p).value).accepted
  }

  /** The planner accepts the candidate, as it is or adapted. */
  ghost predicate Admitted(c: Candidate, n: nat, on: bool, p: Planner) {
    (!p.admit(n).failed && p.admit(n).accepted) || Recovered(c, n, on, p)
  }

  /** What the planner said last: about the adapted plan if it was accepted, else about the candidate. */
  ghost function Answer(c: Candidate, n: nat, on: bool, p: Planner): Verdict {
    if Recovered(c, n, on, p) then Verdict(true, p.admitPlan(n, PlanAt(n, p).value).refusals, Some(Id(c.step, c.key)))
    else Verdict(p.admit(n).accepted, p.admit(n).refusals, Some(Id(c.step, c.key)))
  }

  /** The adapter class that attempt `n` leaves on a candidate recovery was asked about. */
  ghost predicate Left(c: Candidate, n: nat, on: bool, p: Planner, class_: AdapterClass)
  {
    if Recovered(c, n, on, p) then class_ == AdapterPossible
    else
      var recovery := p.recover(n, PlanAt(n, p));
      var refusals := if recovery.adapted && PlanAt(n, p).Some? then p.admitPlan(n, PlanAt(n, p).value).refusals
                      else recovery.refusals;
      && (class_ == LiveProxyRequired <==> refusals != [] && refusals[0].code == "live_proxy_required")
      && (class_ == AdapterImpossible <==> refusals != [] && refusals[0].code == "adapter_impossible")
      && class_ in {LiveProxyRequired, AdapterImpossible, AdapterClass.AdapterUnknown}
  }

  // ----- What a run says

  /** A run over `todo` whose first attempt has number `first`; `last` and `classes` are what came before. */
  datatype Course = Course(todo: seq<Candidate>, first: nat, limit: nat, on: bool, p: Planner, last: Verdict, classes: Classes)

  function Walked(w: Course): Outcome {
    Walk(w.todo, w.first, w.limit, w.on, w.p, w.last, w.classes)
  }

  const FORBIDDEN_CODE := "adapter_parent_forbidden"

  /** Before the attempt at place `i` the step had an adapter class, from the start or because recovery
      was asked about it in this run. */
  ghost predicate Held(w: Course, chain: seq<Demotion>, i: nat, step: int)
    requires i <= |chain| <= |w.todo|
  {
    || (step in w.classes && w.classes[step] !in {Unset, DirectBoundary})
    || exists j: nat :: j < i && AskedAt(w, chain, j) && w.todo[j].step == step
  }

  ghost predicate AskedAt(w: Course, chain: seq<Demotion>, j: nat)
    requires j < |chain| <= |w.todo|
  {
    chain[j].code != FORBIDDEN_CODE && Asked(w.todo[j], w.first + j, w.on, w.p)
  }

  /** With the flag on, a deeper step has an adapter class. */
  ghost predicate Shadowed(w: Course, chain: seq<Demotion>, i: nat)
    requires i <= |chain| <= |w.todo| && i < |w.todo|
  {
    w.on && exists s :: s > w.todo[i].step && Held(w, chain, i, s)
  }

  /** Why the candidate at place `i` was demoted. */
  ghost predicate DemotedFor(w: Course, chain: seq<Demotion>, i: nat)
    requires i < |chain| <= |w.todo|
  {
    && w.first + i < w.limit && !w.p.expired(w.first + i)
    && chain[i].id == Id(w.todo[i].step, w.todo[i].key) && chain[i].name == w.todo[i].name
    && if Shadowed(w, chain, i) then chain[i].code == FORBIDDEN_CODE && chain[i].message == PARENT_FORBIDDEN.message
       else !Recovered(w.todo[i], w.first + i, w.on, w.p)
            && exists r :: RefusedFor(w.first + i, w.p, r) && chain[i].code == r.code && chain[i].message == r.message
  }

  /** The planner's last answer before place `k`: attempts forbidden by a deeper step ask nothing. */
  ghost predicate LastAnswer(w: Course, chain: seq<Demotion>, k: nat, v: Verdict)
    requires k <= |chain| <= |w.todo|
  {
    || (v == w.last && SilentFrom(chain, 0, k))
    || exists i: nat :: i < k && AnswerAt(w, chain, i, v) && SilentFrom(chain, i + 1, k)
  }

  ghost predicate AnswerAt(w: Course, chain: seq<Demotion>, i: nat, v: Verdict)
    requires i < |chain| <= |w.todo|
  {
    chain[i].code != FORBIDDEN_CODE && v == Answer(w.todo[i], w.first + i, w.on, w.p)
  }

  predicate SilentFrom(chain: seq<Demotion>, i: nat, k: nat)
    requires k <= |chain|
  {
    forall j | i <= j < k :: chain[j].code == FORBIDDEN_CODE
  }

  /** The attempt at place `k` settles the run: accepted, adapted, failed or refused for good. */
  ghost predicate SettledAt(w: Course, o: Outcome, k: nat)
    requires k <= |o.chain| <= |w.todo| && k < |w.todo|
  {
    var n, c := w.first + k, w.todo[k];
    && n < w.limit && !w.p.expired(n) && !Shadowed(w, o.chain, k)
    && (Admitted(c, n, w.on, w.p) || w.p.admit(n).failed || Final(w.p.admit(n).refusals))
    && o.verdict == Answer(c, n, w.on, w.p) && o.failed == w.p.admit(n).failed
  }

  /** The run stops before another candidate is asked about: no attempts, no time or no candidates left. */
  ghost predicate GivenUp(w: Course, o: Outcome, k: nat)
    requires k <= |o.chain| <= |w.todo|
  {
    var n := w.first + k;
    && !o.failed
    && (n < w.limit && !w.p.expired(n) ==> k == |w.todo|)
    && exists v ::
       && LastAnswer(w, o.chain, k, v)
       && if n >= w.limit then o.verdict == v
          else if w.p.expired(n) then
            && !o.verdict.accepted
            && o.verdict.refusals == v.refusals + [Refusal("admission_retry_budget_exceeded", "", "", false)]
            && o.verdict.cut == (if v.refusals != [] then v.cut else if k < |w.todo| then Some(Id(w.todo[k].step, w.todo[k].key)) else None)
          else if v.refusals != [] then o.verdict == v
          else o.verdict == Verdict(false, [Refusal("missing_recommended_cut", "", "", false)], None)
  }

  ghost predicate Ended(w: Course, o: Outcome)
    requires |o.chain| <= |w.todo|
  {
    GivenUp(w, o, |o.chain|) || (|o.chain| < |w.todo| && SettledAt(w, o, |o.chain|))
  }

  ghost predicate AllDemotedFor(w: Course, chain: seq<Demotion>)
    requires |chain| <= |w.todo|
  {
    forall i: nat | i < |chain| :: DemotedFor(w, chain, i)
  }

  ghost predicate Told(w: Course, o: Outcome) {
    |o.chain| <= |w.todo| && AllDemotedFor(w, o.chain) && Ended(w, o)
  }

  // ----- One attempt

  lemma CodesAgree(r: Refusal)
    ensures r.code in RETRYABLE <==> MayRetry(r.code)
    ensures AdapterEligible(r) <==> Adaptable(r)
    ensures r.code == FORBIDDEN_CODE ==> !MayRetry(r.code)
  {
  }

  lemma SuitedIs(c: Candidate, plan: Option<Plan>)
    ensures RecoveryAllowed(c, plan) <==> Suited(c, plan)
  {
  }

  lemma {:induction false} FirstRetryIs(refusals: seq<Refusal>)
    ensures Retryable(refusals).None? <==> Final(refusals)
    ensures forall r :: Retryable(refusals) == Some(r) <==> Retries(refusals, r)
  {
    hide MayRetry, RETRYABLE, FORBIDDEN_CODE;
    if refusals != [] {
      var rest := refusals[1..];
      CodesAgree(refusals[0]);
      FirstRetryIs(rest);
      forall r
        ensures Retryable(refusals) == Some(r) <==> Retries(refusals, r)
      {
        if MayRetry(refusals[0].code) {
          assert FirstRetry(refusals, 0);
        } else {
          if i: nat :| i < |rest| && rest[i] == r && FirstRetry(rest, i) {
            assert refusals[i + 1] == r;
            assert forall j | 0 < j < i + 1 :: refusals[j] == rest[j - 1];
            assert FirstRetry(refusals, i + 1);
          }
          if i: nat :| i < |refusals| && refusals[i] == r && FirstRetry(refusals, i) {
            assert rest[i - 1] == r;
            assert FirstRetry(rest, i - 1);
          }
        }
      }
    }
  }

  /** What the attempt leaves behind on the path. */
  ghost predicate LeavesOn(c: Candidate, n: nat, on: bool, p: Planner, before: Classes, after: Classes) {
    if Asked(c, n, on, p) then
      && c.step in after && after == before[c.step := after[c.step]] && Left(c, n, on, p, after[c.step])
    else after == before
  }

  /** The refusal class of recovery is one of three, none of them absent or direct. */
  lemma LeftIs(c: Candidate, n: nat, p: Planner, refusals: seq<Refusal>)
    ensures var class_ := AdapterRefusalClass(refusals).0;
            && (class_ == LiveProxyRequired <==> refusals != [] && refusals[0].code == "live_proxy_required")
            && (class_ == AdapterImpossible <==> refusals != [] && refusals[0].code == "adapter_impossible")
            && class_ in {LiveProxyRequired, AdapterImpossible, AdapterClass.AdapterUnknown}
  {
  }

  lemma RefusedForIs(n: nat, p: Planner)
    ensures forall r :: RefusedFor(n, p, r) <==>
              !p.admit(n).failed && !p.admit(n).accepted && Retryable(p.admit(n).refusals) == Some(r)
    ensures Retryable(p.admit(n).refusals).None? <==> Final(p.admit(n).refusals)
  {
    hide Retryable, Final, Retries;
    FirstRetryIs(p.admit(n).refusals);
  }

  lemma AskedIs(c: Candidate, n: nat, on: bool, p: Planner)
    ensures var refusals := p.admit(n).refusals;
            Asked(c, n, on, p) <==>
              && on && !p.admit(n).failed && !p.admit(n).accepted && Retryable(refusals).Some?
              && AdapterEligible(Retryable(refusals).value) && RecoveryAllowed(c, PlanAt(n, p))
  {
    hide Retryable, AdapterEligible, Adaptable, RecoveryAllowed, Suited, RefusedFor;
    RefusedForIs(n, p);
    SuitedIs(c, PlanAt(n, p));
    forall r ensures AdapterEligible(r) <==> Adaptable(r) { CodesAgree(r); }
  }

  lemma AdapterTurnTold(c: Candidate, n: nat, p: Planner, r: Refusal, classes: Classes)
    requires RefusedFor(n, p, r) && AdapterEligible(r)
    ensures match AdapterTurn(c, n, p, Verdict(false, p.admit(n).refusals, Some(IdOf(c))), r, p.admit(n).plan, classes)
            case Settle(v, failed, after) =>
              !failed && Recovered(c, n, true, p) && v == Answer(c, n, true, p) && LeavesOn(c, n, true, p, classes, after)
            case Demote(why, v, after) =>
              !Recovered(c, n, true, p) && why == r && v == Answer(c, n, true, p) && LeavesOn(c, n, true, p, classes, after)
  {
    hide Retryable, AdapterEligible, RecoveryAllowed, RefusedFor, AdapterRefusalClass, Asked;
    AskedIs(c, n, true, p);
    RefusedForIs(n, p);
    LeftIs(c, n, p, p.recover(n, PlanAt(n, p)).refusals);
    if PlanAt(n, p).Some? {
      LeftIs(c, n, p, p.admitPlan(n, PlanAt(n, p).value).refusals);
    }
  }

  lemma TurnTold(c: Candidate, n: nat, on: bool, p: Planner, last: Verdict, classes: Classes)
    ensures match TurnFor(c, n, on, p, last, classes)
            case Settle(v, failed, after) =>
              && !(on && Forbidden(c.step, classes))
              && (Admitted(c, n, on, p) || p.admit(n).failed || Final(p.admit(n).refusals))
              && v == Answer(c, n, on, p) && failed == p.admit(n).failed
              && LeavesOn(c, n, on, p, classes, after)
            case Demote(r, v, after) =>
              if on && Forbidden(c.step, classes) then r == PARENT_FORBIDDEN && v == last && after == classes
              else RefusedFor(n, p, r) && !Recovered(c, n, on, p) && v == Answer(c, n, on, p) && r.code != FORBIDDEN_CODE
                   && LeavesOn(c, n, on, p, classes, after)
  {
    hide Retryable, AdapterEligible, RecoveryAllowed, RefusedFor, AdapterTurn, Forbidden, Asked, Left, Final, PlanAt;
    AskedIs(c, n, on, p);
    RefusedForIs(n, p);
    var a := p.admit(n);
    if !a.failed && !a.accepted && Retryable(a.refusals).Some? {
      var r := Retryable(a.refusals).value;
      RetryableIsListed(a.refusals);
      CodesAgree(r);
      if on && AdapterEligible(r) {
        AdapterTurnTold(c, n, p, r, classes);
      }
    }
  }

  // ----- The whole run

  /** The run that is left after the first candidate was demoted. */
  function After(w: Course, v: Verdict, classes: Classes): Course
    requires w.todo != []
  {
    Course(w.todo[1..], w.first + 1, w.limit, w.on, w.p, v, classes)
  }

  lemma LeftIsHeld(c: Candidate, n: nat, on: bool, p: Planner, class_: AdapterClass)
    requires Left(c, n, on, p, class_)
    ensures class_ !in {Unset, DirectBoundary}
  {
    hide Recovered, PlanAt;
  }

  /** The first attempt of `w` demoted its candidate as `d` says and left `classes` and `v`. */
  ghost predicate Opens(w: Course, d: Demotion, v: Verdict, classes: Classes) {
    && w.todo != []
    && if d.code == FORBIDDEN_CODE then v == w.last && classes == w.classes
       else v == Answer(w.todo[0], w.first, w.on, w.p) && LeavesOn(w.todo[0], w.first, w.on, w.p, w.classes, classes)
  }

  lemma HeldShifts(w: Course, d: Demotion, v: Verdict, classes: Classes, rest: seq<Demotion>, i: nat, step: int)
    requires Opens(w, d, v, classes) && i <= |rest| < |w.todo|
    ensures Held(w, [d] + rest, i + 1, step) <==> Held(After(w, v, classes), rest, i, step)
  {
    hide Asked, Left, Recovered, Answer;
    var w', chain := After(w, v, classes), [d] + rest;
    assert forall j: nat | j < i :: AskedAt(w', rest, j) <==> AskedAt(w, chain, j + 1);
    if Asked(w.todo[0], w.first, w.on, w.p) && d.code != FORBIDDEN_CODE {
      LeftIsHeld(w.todo[0], w.first, w.on, w.p, classes[w.todo[0].step]);
      assert AskedAt(w, chain, 0);
    }
    if Held(w, chain, i + 1, step) {
      if j: nat :| j < i + 1 && AskedAt(w, chain, j) && w.todo[j].step == step {
        if j > 0 {
          assert AskedAt(w', rest, j - 1) && w'.todo[j - 1].step == step;
        }
      }
    }
    if Held(w', rest, i, step) {
      if j: nat :| j < i && AskedAt(w', rest, j) && w'.todo[j].step == step {
        assert AskedAt(w, chain, j + 1) && w.todo[j + 1].step == step;
      }
    }
  }

  lemma ShadowShifts(w: Course, d: Demotion, v: Verdict, classes: Classes, rest: seq<Demotion>, i: nat)
    requires Opens(w, d, v, classes) && i <= |rest| < |w.todo| && i + 1 < |w.todo|
    ensures Shadowed(w, [d] + rest, i + 1) <==> Shadowed(After(w, v, classes), rest, i)
  {
    hide Held, Opens;
    forall s
      ensures Held(w, [d] + rest, i + 1, s) <==> Held(After(w, v, classes), rest, i, s)
    {
      HeldShifts(w, d, v, classes, rest, i, s);
    }
    assert w.todo[i + 1] == After(w, v, classes).todo[i];
    if Shadowed(w, [d] + rest, i + 1) {
      var s :| s > w.todo[i + 1].step && Held(w, [d] + rest, i + 1, s);
      assert Held(After(w, v, classes), rest, i, s);
    }
  }

  lemma DemotedShifts(w: Course, d: Demotion, v: Verdict, classes: Classes, rest: seq<Demotion>)
    requires Opens(w, d, v, classes) && |rest| < |w.todo|
    requires DemotedFor(w, [d] + rest, 0) && AllDemotedFor(After(w, v, classes), rest)
    ensures AllDemotedFor(w, [d] + rest)
  {
    hide Shadowed, Opens, Recovered, RefusedFor;
    var chain := [d] + rest;
    forall i: nat | i < |chain|
      ensures DemotedFor(w, chain, i)
    {
      if i > 0 {
        ShadowShifts(w, d, v, classes, rest, i - 1);
        assert DemotedFor(After(w, v, classes), rest, i - 1);
        assert w.todo[i] == After(w, v, classes).todo[i - 1] && chain[i] == rest[i - 1];
      }
    }
  }

  lemma LastAnswerShifts(w: Course, d: Demotion, v: Verdict, classes: Classes, rest: seq<Demotion>, k: nat, u: Verdict)
    requires Opens(w, d, v, classes) && k <= |rest| < |w.todo| && LastAnswer(After(w, v, classes), rest, k, u)
    ensures LastAnswer(w, [d] + rest, k + 1, u)
  {
    hide Answer, LeavesOn;
    var w', chain := After(w, v, classes), [d] + rest;
    if u == w'.last && SilentFrom(rest, 0, k) {
      if d.code == FORBIDDEN_CODE {
        assert SilentFrom(chain, 0, k + 1);
      } else {
        assert AnswerAt(w, chain, 0, u) && SilentFrom(chain, 1, k + 1);
      }
    } else {
      var i: nat :| i < k && AnswerAt(w', rest, i, u) && SilentFrom(rest, i + 1, k);
      assert w.first + (i + 1) == w'.first + i && w.todo[i + 1] == w'.todo[i];
      assert AnswerAt(w, chain, i + 1, u) && SilentFrom(chain, i + 2, k + 1);
    }
  }

  lemma EndShifts(w: Course, d: Demotion, v: Verdict, classes: Classes, o: Outcome)
    requires Opens(w, d, v, classes) && |o.chain| < |w.todo| && Ended(After(w, v, classes), o)
    ensures Ended(w, Onward(d, o))
  {
    hide Opens, LastAnswer, Shadowed, Admitted, Answer, Final;
    var w', k := After(w, v, classes), |o.chain|;
    assert k < |w'.todo| ==> w.todo[k + 1] == w'.todo[k];
    if GivenUp(w', o, k) {
      forall u | LastAnswer(w', o.chain, k, u)
        ensures LastAnswer(w, Onward(d, o).chain, k + 1, u)
      {
        LastAnswerShifts(w, d, v, classes, o.chain, k, u);
      }
    } else {
      ShadowShifts(w, d, v, classes, o.chain, k);
    }
  }

  lemma ForbiddenIsShadowed(w: Course, chain: seq<Demotion>)
    requires w.todo != [] && |chain| <= |w.todo|
    ensures Shadowed(w, chain, 0) <==> w.on && Forbidden(w.todo[0].step, w.classes)
  {
    assert forall s :: Held(w, chain, 0, s) <==> s in w.classes && NonDirect(w.classes[s]);
  }

  lemma WalkStops(w: Course)
    requires w.first >= w.limit || w.p.expired(w.first) || w.todo == []
    ensures Told(w, Walked(w))
  {
    assert LastAnswer(w, [], 0, w.last);
  }

  /** Every demotion and the end of the run are what the planner's answers, the clock and the
      adapter classes before the run call for. */
  lemma {:induction false} WalkIsTold(w: Course)
    ensures Told(w, Walked(w))
    decreases |w.todo|
  {
    hide Forbidden, TurnFor, LeavesOn, Recovered, RefusedFor, Admitted, Answer, Final, Shadowed, Told;
    if w.first >= w.limit || w.p.expired(w.first) || w.todo == [] {
      WalkStops(w);
    } else {
      var c := w.todo[0];
      var o := Walked(w);
      TurnTold(c, w.first, w.on, w.p, w.last, w.classes);
      match TurnFor(c, w.first, w.on, w.p, w.last, w.classes)
      case Settle(v, failed, after) =>
        ForbiddenIsShadowed(w, []);
        SettledIsTold(w, o);
      case Demote(r, v, after) =>
        var d := DemotionOf(c, r);
        var rest := Walked(After(w, v, after));
        WalkIsTold(After(w, v, after));
        DemotedIsTold(w, d, r, v, after, rest);
    }
  }

  lemma SettledIsTold(w: Course, o: Outcome)
    requires o.chain == [] && w.todo != [] && SettledAt(w, o, 0)
    ensures Told(w, o)
  {
    hide SettledAt;
  }

  lemma DemotedIsTold(w: Course, d: Demotion, r: Refusal, v: Verdict, after: Classes, rest: Outcome)
    requires w.todo != [] && w.first < w.limit && !w.p.expired(w.first) && d == DemotionOf(w.todo[0], r)
    requires Told(After(w, v, after), rest)
    requires if w.on && Forbidden(w.todo[0].step, w.classes) then r == PARENT_FORBIDDEN && v == w.last && after == w.classes
             else RefusedFor(w.first, w.p, r) && !Recovered(w.todo[0], w.first, w.on, w.p)
                  && v == Answer(w.todo[0], w.first, w.on, w.p) && r.code != FORBIDDEN_CODE
                  && LeavesOn(w.todo[0], w.first, w.on, w.p, w.classes, after)
    ensures Told(w, Onward(d, rest))
  {
    hide Forbidden, LeavesOn, Recovered, RefusedFor, Answer, Shadowed, AllDemotedFor, Ended;
    var chain := [d] + rest.chain;
    ForbiddenIsShadowed(w, chain);
    assert chain[0] == d;
    assert DemotedFor(w, chain, 0);
    DemotedShifts(w, d, v, after, rest.chain);
    EndShifts(w, d, v, after, rest);
  }

  // ----- The telling leaves no choice

  ghost predicate SamePrefix(a: seq<Demotion>, b: seq<Demotion>, i: nat) {
    i <= |a| && i <= |b| && a[..i] == b[..i]
  }

  lemma HeldByPrefix(w: Course, a: seq<Demotion>, b: seq<Demotion>, i: nat, step: int)
    requires SamePrefix(a, b, i) && |a| <= |w.todo| && |b| <= |w.todo|
    ensures Held(w, a, i, step) ==> Held(w, b, i, step)
  {
    hide Asked;
    if Held(w, a, i, step) {
      if j: nat :| j < i && AskedAt(w, a, j) && w.todo[j].step == step {
        assert a[..i][j] == b[..i][j];
        assert AskedAt(w, b, j);
      }
    }
  }

  lemma ShadowByPrefix(w: Course, a: seq<Demotion>, b: seq<Demotion>, i: nat)
    requires SamePrefix(a, b, i) && |a| <= |w.todo| && |b| <= |w.todo| && i < |w.todo|
    ensures Shadowed(w, a, i) == Shadowed(w, b, i)
  {
    hide Held;
    forall s
      ensures Held(w, a, i, s) <==> Held(w, b, i, s)
    {
      HeldByPrefix(w, a, b, i, s);
      HeldByPrefix(w, b, a, i, s);
    }
    if Shadowed(w, a, i) {
      var s :| s > w.todo[i].step && Held(w, a, i, s);
      assert Held(w, b, i, s);
    }
  }

  lemma OneReason(n: nat, p: Planner, r: Refusal, s: Refusal)
    requires RefusedFor(n, p, r)
    ensures RefusedFor(n, p, s) ==> r == s
    ensures !Final(p.admit(n).refusals) && !p.admit(n).failed && !p.admit(n).accepted && r.code != FORBIDDEN_CODE
  {
    var refusals := p.admit(n).refusals;
    var i: nat :| i < |refusals| && refusals[i] == r && FirstRetry(refusals, i);
    CodesAgree(r);
    if RefusedFor(n, p, s) {
      var j: nat :| j < |refusals| && refusals[j] == s && FirstRetry(refusals, j);
    }
  }

  lemma SameDemotion(w: Course, a: seq<Demotion>, b: seq<Demotion>, i: nat)
    requires SamePrefix(a, b, i) && i < |a| <= |w.todo| && i < |b| <= |w.todo|
    requires DemotedFor(w, a, i) && DemotedFor(w, b, i)
    ensures a[i] == b[i]
  {
    hide Shadowed, RefusedFor, Recovered;
    ShadowByPrefix(w, a, b, i);
    var n := w.first + i;
    forall r, s | RefusedFor(n, w.p, r) && RefusedFor(n, w.p, s)
      ensures r == s
    {
      OneReason(n, w.p, r, s);
    }
  }

  /** A run that ends at a place does not demote there. */
  lemma EndsOrDemotes(w: Course, o: Outcome, b: seq<Demotion>)
    requires SamePrefix(o.chain, b, |o.chain|) && |o.chain| < |b| <= |w.todo|
    requires Ended(w, o)
    ensures !DemotedFor(w, b, |o.chain|)
  {
    hide Shadowed, Final, RefusedFor, Answer, Recovered, LastAnswer;
    var k := |o.chain|;
    ShadowByPrefix(w, o.chain, b, k);
    var n := w.first + k;
    if r :| RefusedFor(n, w.p, r) {
      OneReason(n, w.p, r, r);
    }
  }

  lemma SameLastAnswer(w: Course, chain: seq<Demotion>, k: nat, u: Verdict, v: Verdict)
    requires k <= |chain| <= |w.todo| && LastAnswer(w, chain, k, u) && LastAnswer(w, chain, k, v)
    ensures u == v
  {
    hide Answer;
    if i: nat :| i < k && AnswerAt(w, chain, i, u) && SilentFrom(chain, i + 1, k) {
      if j: nat :| j < k && AnswerAt(w, chain, j, v) && SilentFrom(chain, j + 1, k) {
        assert i == j;
      }
    }
  }

  lemma SameEnd(w: Course, a: Outcome, b: Outcome)
    requires a.chain == b.chain && |a.chain| <= |w.todo| && Ended(w, a) && Ended(w, b)
    ensures a.verdict == b.verdict && a.failed == b.failed
  {
    hide Shadowed, Final, Answer, Admitted, LastAnswer;
    var k := |a.chain|;
    forall u, v | LastAnswer(w, a.chain, k, u) && LastAnswer(w, a.chain, k, v)
      ensures u == v
    {
      SameLastAnswer(w, a.chain, k, u, v);
    }
  }

  lemma {:induction false} SameSoFar(w: Course, a: Outcome, b: Outcome, i: nat)
    requires Told(w, a) && Told(w, b) && i <= |a.chain| && i <= |b.chain|
    ensures SamePrefix(a.chain, b.chain, i)
  {
    hide DemotedFor, Ended;
    if i > 0 {
      SameSoFar(w, a, b, i - 1);
      assert DemotedFor(w, a.chain, i - 1) && DemotedFor(w, b.chain, i - 1);
      SameDemotion(w, a.chain, b.chain, i - 1);
      assert a.chain[..i] == a.chain[..i - 1] + [a.chain[i - 1]];
      assert b.chain[..i] == b.chain[..i - 1] + [b.chain[i - 1]];
    }
  }

  /** What is told of a run determines it: whatever answers the description is what the loop returns. */
  lemma ToldIsTheRun(w: Course, o: Outcome)
    requires Told(w, o)
    ensures var run := Walked(w); o.verdict == run.verdict && o.chain == run.chain && o.failed == run.failed
  {
    hide DemotedFor, Ended, Walked;
    var run := Walked(w);
    WalkIsTold(w);
    var k := if |o.chain| <= |run.chain| then |o.chain| else |run.chain|;
    SameSoFar(w, o, run, k);
    if |o.chain| < |run.chain| {
      assert DemotedFor(w, run.chain, k);
      EndsOrDemotes(w, o, run.chain);
    } else if |run.chain| < |o.chain| {
      assert DemotedFor(w, o.chain, k);
      EndsOrDemotes(w, run, o.chain);
    } else {
      assert o.chain[..k] == o.chain && run.chain[..k] == run.chain;
      SameEnd(w, o, run);
    }
  }

  // ----- The adapter classes a run leaves

  /** Recovery was asked at place `j`: about a candidate demoted there, or about the one that settled the run. */
  ghost predicate AskedIn(w: Course, chain: seq<Demotion>, j: nat)
    requires j <= |chain| <= |w.todo|
  {
    if j < |chain| then AskedAt(w, chain, j)
    else j < |w.todo| && w.first + j < w.limit && !w.p.expired(w.first + j) && !Shadowed(w, chain, j)
         && Asked(w.todo[j], w.first + j, w.on, w.p)
  }

  /** What recovery left on the candidates it was asked about. */
  ghost predicate AskedTold(w: Course, o: Outcome)
    requires |o.chain| <= |w.todo|
  {
    forall j: nat | j <= |o.chain| && AskedIn(w, o.chain, j) :: LeftAt(w, o, j)
  }

  ghost predicate LeftAt(w: Course, o: Outcome, j: nat)
    requires j < |w.todo|
  {
    w.todo[j].step in o.classes && Left(w.todo[j], w.first + j, w.on, w.p, o.classes[w.todo[j].step])
  }

  ghost predicate NeverAsked(w: Course, chain: seq<Demotion>, s: int)
    requires |chain| <= |w.todo|
  {
    forall j: nat | j <= |chain| && AskedIn(w, chain, j) :: w.todo[j].step != s
  }

  /** Every other step has the class it had before the run. */
  ghost predicate RestTold(w: Course, o: Outcome)
    requires |o.chain| <= |w.todo|
  {
    forall s | NeverAsked(w, o.chain, s) :: (s in o.classes <==> s in w.classes) && (s in w.classes ==> o.classes[s] == w.classes[s])
  }

  lemma AskedShifts(w: Course, d: Demotion, v: Verdict, classes: Classes, rest: seq<Demotion>, j: nat)
    requires Opens(w, d, v, classes) && j <= |rest| < |w.todo|
    ensures AskedIn(w, [d] + rest, j + 1) <==> AskedIn(After(w, v, classes), rest, j)
  {
    hide Asked, Opens, Shadowed;
    if j < |rest| {
      assert ([d] + rest)[j + 1] == rest[j];
    } else if j + 1 < |w.todo| {
      ShadowShifts(w, d, v, classes, rest, j);
    }
  }

  lemma AskedToldShifts(w: Course, d: Demotion, v: Verdict, classes: Classes, o: Outcome)
    requires Opens(w, d, v, classes) && |o.chain| < |w.todo| && DistinctSteps(w.todo)
    requires AskedTold(After(w, v, classes), o) && RestTold(After(w, v, classes), o)
    ensures AskedTold(w, Onward(d, o))
  {
    hide Asked, Shadowed, Left, AskedIn, DistinctSteps;
    var w', chain := After(w, v, classes), [d] + o.chain;
    FirstAsked(w, d, o.chain);
    forall j: nat | j <= |chain| && AskedIn(w, chain, j)
      ensures j < |w.todo| && LeftAt(w, Onward(d, o), j)
    {
      AskedIsBelow(w, chain, j);
      if j > 0 {
        AskedShifts(w, d, v, classes, o.chain, j - 1);
        assert LeftAt(w', o, j - 1);
        assert w'.todo[j - 1] == w.todo[j] && w'.first + (j - 1) == w.first + j;
      } else {
        Untouched(w, d, v, classes, o.chain);
        assert NeverAsked(w', o.chain, w.todo[0].step);
      }
    }
  }

  lemma RestToldShifts(w: Course, d: Demotion, v: Verdict, classes: Classes, o: Outcome)
    requires Opens(w, d, v, classes) && |o.chain| < |w.todo| && RestTold(After(w, v, classes), o)
    ensures RestTold(w, Onward(d, o))
  {
    hide Asked, Shadowed, Left, AskedIn;
    var w', chain := After(w, v, classes), [d] + o.chain;
    FirstAsked(w, d, o.chain);
    forall s | NeverAsked(w, chain, s)
      ensures (s in o.classes <==> s in w.classes) && (s in w.classes ==> o.classes[s] == w.classes[s])
    {
      forall j: nat | j <= |o.chain| && AskedIn(w', o.chain, j)
        ensures j < |w'.todo| && w'.todo[j].step != s
      {
        AskedIsBelow(w', o.chain, j);
        AskedShifts(w, d, v, classes, o.chain, j);
        assert AskedIn(w, chain, j + 1) && w.todo[j + 1] == w'.todo[j];
      }
      assert NeverAsked(w', o.chain, s);
      assert AskedIn(w, chain, 0) ==> w.todo[0].step != s;
    }
  }

  lemma AskedIsBelow(w: Course, chain: seq<Demotion>, j: nat)
    requires j <= |chain| <= |w.todo| && AskedIn(w, chain, j)
    ensures j < |w.todo|
  {
    hide Asked, Shadowed;
  }

  lemma FirstAsked(w: Course, d: Demotion, rest: seq<Demotion>)
    requires |rest| < |w.todo|
    ensures AskedIn(w, [d] + rest, 0) <==> d.code != FORBIDDEN_CODE && Asked(w.todo[0], w.first, w.on, w.p)
  {
    hide Asked, Shadowed;
  }

  lemma Untouched(w: Course, d: Demotion, v: Verdict, classes: Classes, rest: seq<Demotion>)
    requires |rest| < |w.todo| && DistinctSteps(w.todo)
    ensures forall j: nat | j <= |rest| && AskedIn(After(w, v, classes), rest, j) ::
              j < |After(w, v, classes).todo| && After(w, v, classes).todo[j].step != w.todo[0].step
  {
    hide Asked, Shadowed, AskedIn;
    var w' := After(w, v, classes);
    forall j: nat | j <= |rest| && AskedIn(w', rest, j)
      ensures j < |w'.todo| && w'.todo[j].step != w.todo[0].step
    {
      AskedIsBelow(w', rest, j);
      assert w'.todo[j] == w.todo[j + 1];
    }
  }

  lemma {:induction false} ClassesAreTold(w: Course)
    requires DistinctSteps(w.todo)
    ensures |Walked(w).chain| <= |w.todo| && AskedTold(w, Walked(w)) && RestTold(w, Walked(w))
    decreases |w.todo|
  {
    hide Forbidden, TurnFor, LeavesOn, Recovered, RefusedFor, Admitted, Answer, Final, Shadowed, AskedTold, RestTold;
    if w.first >= w.limit || w.p.expired(w.first) || w.todo == [] {
      StopsUntouched(w);
    } else {
      var c := w.todo[0];
      TurnTold(c, w.first, w.on, w.p, w.last, w.classes);
      match TurnFor(c, w.first, w.on, w.p, w.last, w.classes)
      case Settle(v, failed, after) =>
        ForbiddenIsShadowed(w, []);
        SettledClasses(w, Walked(w));
      case Demote(r, v, after) =>
        ClassesAreTold(After(w, v, after));
        AskedToldShifts(w, DemotionOf(c, r), v, after, Walked(After(w, v, after)));
        RestToldShifts(w, DemotionOf(c, r), v, after, Walked(After(w, v, after)));
    }
  }

  lemma StopsUntouched(w: Course)
    requires w.first >= w.limit || w.p.expired(w.first) || w.todo == []
    ensures Walked(w).chain == [] && AskedTold(w, Walked(w)) && RestTold(w, Walked(w))
  {
    hide Asked, Shadowed, Left;
  }

  lemma SettledClasses(w: Course, o: Outcome)
    requires w.todo != [] && o.chain == [] && w.first < w.limit && !w.p.expired(w.first) && !Shadowed(w, [], 0)
    requires LeavesOn(w.todo[0], w.first, w.on, w.p, w.classes, o.classes)
    ensures AskedTold(w, o) && RestTold(w, o)
  {
    hide Asked, Shadowed, Left;
    assert AskedIn(w, [], 0) <==> Asked(w.todo[0], w.first, w.on, w.p);
  }

  // ----- Runs over a ranked list

  lemma BareIsAlike(c: Candidate, n: nat, on: bool, p: Planner)
    ensures Admitted(Bare(c), n, on, p) <==> Admitted(c, n, on, p)
    ensures Answer(Bare(c), n, on, p) == Answer(c, n, on, p)
  {
    hide RefusedFor, Adaptable;
  }

  function CourseOf(cs: seq<Candidate>, on: bool, p: Planner, classes: Classes): Course {
    Course(BareAll(FeasibleOf(cs)), 0, |cs|, on, p, NO_VERDICT, classes)
  }

  lemma RunIsWalked(cs: seq<Candidate>, on: bool, p: Planner, classes: Classes)
    ensures Run(cs, on, p, classes) == if FeasibleOf(cs) == [] then Outcome(MISSING_RECOMMENDED, [], false, classes)
                                       else Walked(CourseOf(cs, on, p, classes))
    ensures |CourseOf(cs, on, p, classes).todo| == |FeasibleOf(cs)| <= |cs|
  {
    hide Walk, MapSeq;
    FeasibleIsShorter(cs);
  }

  lemma {:induction false} FeasibleIsShorter(cs: seq<Candidate>)
    ensures |FeasibleOf(cs)| <= |cs|
  {
    if cs != [] {
      FeasibleIsShorter(cs[1..]);
    }
  }

  /** Demoted candidates were not accepted, so what is repeated of them is a refusal. */
  lemma LastIsRefusal(w: Course, chain: seq<Demotion>, v: Verdict)
    requires |chain| <= |w.todo| && AllDemotedFor(w, chain) && LastAnswer(w, chain, |chain|, v) && !w.last.accepted
    ensures !v.accepted
  {
    hide Shadowed, Recovered, RefusedFor;
    if i: nat :| i < |chain| && AnswerAt(w, chain, i, v) {
      assert DemotedFor(w, chain, i);
      var r :| RefusedFor(w.first + i, w.p, r);
      OneReason(w.first + i, w.p, r, r);
    }
  }

  ghost predicate Timely(w: Course, k: nat) {
    k < |w.todo| && w.first + k < w.limit && !w.p.expired(w.first + k)
  }

  lemma EndTold(w: Course, o: Outcome)
    requires Told(w, o) && !w.last.accepted
    ensures var k := |o.chain|; Accepts(o) <==> Timely(w, k) && Admitted(w.todo[k], w.first + k, w.on, w.p)
    ensures var k := |o.chain|;
            Timely(w, k) ==> o.verdict == Answer(w.todo[k], w.first + k, w.on, w.p) && o.failed == w.p.admit(w.first + k).failed
                             && (Admitted(w.todo[k], w.first + k, w.on, w.p) || o.failed || Final(w.p.admit(w.first + k).refusals))
    ensures !Timely(w, |o.chain|) ==> !o.failed && !o.verdict.accepted
  {
    hide Shadowed, AllDemotedFor, LastAnswer, Adaptable, Suited, Retries, Final;
    forall v | LastAnswer(w, o.chain, |o.chain|, v)
      ensures !v.accepted
    {
      LastIsRefusal(w, o.chain, v);
    }
  }

  lemma RunIsTold(cs: seq<Candidate>, on: bool, p: Planner, classes: Classes)
    requires FeasibleOf(cs) != []
    ensures Told(CourseOf(cs, on, p, classes), Run(cs, on, p, classes))
    ensures var w := CourseOf(cs, on, p, classes); w.limit == |cs| >= |w.todo| == |FeasibleOf(cs)| && w.first == 0
    ensures var w := CourseOf(cs, on, p, classes); w.on == on && w.p == p && w.last == NO_VERDICT
    ensures forall i | 0 <= i < |FeasibleOf(cs)| :: CourseOf(cs, on, p, classes).todo[i] == Bare(FeasibleOf(cs)[i])
  {
    hide FeasibleOf, Run, Walked, MapSeq, Told;
    RunIsWalked(cs, on, p, classes);
    WalkIsTold(CourseOf(cs, on, p, classes));
    MapsAt(FeasibleOf(cs));
  }

  lemma MapsAt(cs: seq<Candidate>)
    ensures |BareAll(cs)| == |cs| && forall i | 0 <= i < |cs| :: BareAll(cs)[i] == Bare(cs[i])
  {
  }

  /** A run accepts exactly if the planner accepts, in time, the first candidate that was not demoted:
      as it is, or refused for a shape that recovery adapts into a plan the planner accepts. */
  lemma AcceptedIffAdmitted(cs: seq<Candidate>, on: bool, p: Planner, classes: Classes)
    ensures var o, feasible := Run(cs, on, p, classes), FeasibleOf(cs); var k := |o.chain|;
            Accepts(o) <==> k < |feasible| && !p.expired(k) && Admitted(feasible[k], k, on, p)
  {
    hide FeasibleOf, Run, BareAll, Told, Admitted, Bare, CourseOf;
    var o := Run(cs, on, p, classes);
    if FeasibleOf(cs) == [] {
      RunIsWalked(cs, on, p, classes);
    } else {
      RunIsTold(cs, on, p, classes);
      EndTold(CourseOf(cs, on, p, classes), o);
      if |o.chain| < |FeasibleOf(cs)| {
        BareIsAlike(FeasibleOf(cs)[|o.chain|], |o.chain|, on, p);
      }
    }
  }

  /** The planner's answer about the first candidate that was not demoted is the verdict. A run that ends
      there without accepting has a failed attempt or refusals none of which may be retried, and no other
      end is a failure or an acceptance. */
  lemma VerdictIsAnswer(cs: seq<Candidate>, on: bool, p: Planner, classes: Classes)
    ensures var o, feasible := Run(cs, on, p, classes), FeasibleOf(cs); var k := |o.chain|;
            if k < |feasible| && !p.expired(k) then
              && o.verdict == Answer(feasible[k], k, on, p) && o.failed == p.admit(k).failed
              && (Admitted(feasible[k], k, on, p) || p.admit(k).failed || Final(p.admit(k).refusals))
            else !o.failed && !o.verdict.accepted
  {
    hide FeasibleOf, Run, BareAll, Told, Admitted, Bare, CourseOf, Answer, Final;
    var o := Run(cs, on, p, classes);
    if FeasibleOf(cs) == [] {
      RunIsWalked(cs, on, p, classes);
    } else {
      RunIsTold(cs, on, p, classes);
      EndTold(CourseOf(cs, on, p, classes), o);
      if |o.chain| < |FeasibleOf(cs)| {
        BareIsAlike(FeasibleOf(cs)[|o.chain|], |o.chain|, on, p);
      }
    }
  }

  /** An attempt that accepts, fails or refuses for good is never followed by another: whatever was demoted
      by the planner's word was refused with a code that may be retried, and was not recovered. */
  lemma OnlyRetriedAreDemoted(cs: seq<Candidate>, on: bool, p: Planner, classes: Classes, i: nat)
    requires i < |Run(cs, on, p, classes).chain| <= |FeasibleOf(cs)|
    ensures var d := Run(cs, on, p, classes).chain[i];
            && !p.expired(i) && d.id == IdOf(FeasibleOf(cs)[i])
            && (d.code != FORBIDDEN_CODE ==>
                  && !p.admit(i).failed && !Admitted(FeasibleOf(cs)[i], i, on, p) && !Final(p.admit(i).refusals)
                  && exists r :: Retries(p.admit(i).refusals, r) && d.code == r.code && d.message == r.message)
  {
    hide FeasibleOf, Run, BareAll, Recovered, CourseOf, Shadowed, Final, Retries, Answer, Ended;
    RunIsTold(cs, on, p, classes);
    var w, chain := CourseOf(cs, on, p, classes), Run(cs, on, p, classes).chain;
    assert DemotedFor(w, chain, i);
    BareIsAlike(FeasibleOf(cs)[i], i, on, p);
    if r :| RefusedFor(i, p, r) {
      OneReason(i, p, r, r);
    }
  }
}
