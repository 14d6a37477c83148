/** Ranking of the candidate cuts of one activation path, and their demotion. */
module CutRanking {
  import opened Collections
  import opened Functions
  import opened Orders

  datatype Feasibility = Feasible | FeasibleWithProxy | Infeasible
  datatype CallbackClass = ZeroConfirmed | ZeroEstimated | Low | Moderate | Many | OtherCallbacks
  datatype StateClass = Stateless | ConfigOnly | ClientReconstructible | SharedState | OtherState
  datatype SurfaceClass = Minimal | Small | Medium | Large | VeryLarge | OtherSurface
  datatype ErrorClass = ErrorOK | NeedsWrapper | ErrorInfeasible | OtherError
  datatype EdgeAlign = Strong | Weak | Anti | OtherAlign
  datatype AdapterClass = Unset | DirectBoundary | AdapterPossible | AdapterUnknown | LiveProxyRequired | AdapterImpossible

  /** What `decisiveDifference` reports about a winner and a loser. */
  datatype Decisive =
    | CompetitorInfeasible | FeasiblePreferred
    | SurfaceBeat | CallbacksBeat | StateBeat | ErrorBeat | EdgeBeat
    | DeeperStep | NodeKeyBeat

  datatype Reason =
    | Initial(text: string)
    | Demoted(refusal: string)
    | SelectedOnly
    | Selected(against: Option<Decisive>)
    | RankedBelow(best: int, why: Decisive)
    | NoRecommendation

  datatype Candidate = Candidate(step: int, key: FunctionKey, name: string, feasibility: Feasibility,
                                 callbacks: CallbackClass, state: StateClass, surface: SurfaceClass,
                                 errorSem: ErrorClass, edgeAlign: EdgeAlign,
                                 adapterClass: AdapterClass, adapterReason: string, reason: Reason)

  /** What identifies a candidate on its path. */
  datatype Id = Id(step: int, key: FunctionKey)

  function IdOf(c: Candidate): Id {
    Id(c.step, c.key)
  }

  // ----- Ranks and the order

  function SurfaceRank(s: SurfaceClass): nat {
    match s case Minimal => 0 case Small => 1 case Medium => 2 case Large => 3 case VeryLarge => 4 case OtherSurface => 5
  }

  function CallbackRank(c: CallbackClass): nat {
    match c case ZeroConfirmed => 0 case ZeroEstimated => 0 case Low => 1 case Moderate => 2 case Many => 3 case OtherCallbacks => 4
  }

  function StateRank(s: StateClass): nat {
    match s case Stateless => 0 case ConfigOnly => 1 case ClientReconstructible => 2 case SharedState => 3 case OtherState => 4
  }

  function ErrorRank(e: ErrorClass): nat {
    match e case ErrorOK => 0 case NeedsWrapper => 1 case ErrorInfeasible => 2 case OtherError => 3
  }

  function EdgeRank(e: EdgeAlign): nat {
    match e case Strong => 0 case Weak => 1 case Anti => 2 case OtherAlign => 3
  }

  predicate TieBreak(a: Candidate, b: Candidate) {
    if a.step != b.step then a.step > b.step else StringLess(a.key.Text(), b.key.Text())
  }

  predicate Better(a: Candidate, b: Candidate) {
    if a.feasibility == Infeasible || b.feasibility == Infeasible then
      if a.feasibility != b.feasibility then b.feasibility == Infeasible else TieBreak(a, b)
    else if SurfaceRank(a.surface) != SurfaceRank(b.surface) then SurfaceRank(a.surface) < SurfaceRank(b.surface)
    else if CallbackRank(a.callbacks) != CallbackRank(b.callbacks) then CallbackRank(a.callbacks) < CallbackRank(b.callbacks)
    else if StateRank(a.state) != StateRank(b.state) then StateRank(a.state) < StateRank(b.state)
    else if ErrorRank(a.errorSem) != ErrorRank(b.errorSem) then ErrorRank(a.errorSem) < ErrorRank(b.errorSem)
    else if EdgeRank(a.edgeAlign) != EdgeRank(b.edgeAlign) then EdgeRank(a.edgeAlign) < EdgeRank(b.edgeAlign)
    else if a.feasibility != b.feasibility then a.feasibility == Feasible
    else TieBreak(a, b)
  }

  /** The first value stands before the second in the list. */
  predicate Precedes<T(==)>(order: seq<T>, x: T, y: T) {
    exists i, j :: 0 <= i < j < |order| && order[i] == x && order[j] == y
  }

  predicate Deeper(a: Candidate, b: Candidate) {
    a.step > b.step || (a.step == b.step && StringLess(a.key.Text(), b.key.Text()))
  }

  /** Both report no callbacks, one by proof and one by estimate. */
  predicate NoCallbacks(c: CallbackClass) {
    c == ZeroConfirmed || c == ZeroEstimated
  }

  const SURFACES := [Minimal, Small, Medium, Large, VeryLarge, OtherSurface]
  const CALLBACKS := [Low, Moderate, Many, OtherCallbacks]
  const STATES := [Stateless, ConfigOnly, ClientReconstructible, SharedState, OtherState]
  const ERRORS := [ErrorOK, NeedsWrapper, ErrorInfeasible, OtherError]
  const ALIGNMENTS := [Strong, Weak, Anti, OtherAlign]

  lemma ListsAreOrders()
    ensures forall x, y :: Precedes(SURFACES, x, y) <==> SurfaceRank(x) < SurfaceRank(y)
    ensures forall x, y :: Precedes(STATES, x, y) <==> StateRank(x) < StateRank(y)
    ensures forall x, y :: Precedes(ERRORS, x, y) <==> ErrorRank(x) < ErrorRank(y)
    ensures forall x, y :: Precedes(ALIGNMENTS, x, y) <==> EdgeRank(x) < EdgeRank(y)
    ensures forall x, y :: (NoCallbacks(x) && !NoCallbacks(y)) || Precedes(CALLBACKS, x, y) <==> CallbackRank(x) < CallbackRank(y)
  {
    forall x, y
      ensures Precedes(SURFACES, x, y) <==> SurfaceRank(x) < SurfaceRank(y)
    {
      assert SURFACES[SurfaceRank(x)] == x && SURFACES[SurfaceRank(y)] == y;
      assert forall i | 0 <= i < |SURFACES| :: SurfaceRank(SURFACES[i]) == i;
    }
    forall x, y
      ensures Precedes(STATES, x, y) <==> StateRank(x) < StateRank(y)
    {
      assert STATES[StateRank(x)] == x && STATES[StateRank(y)] == y;
      assert forall i | 0 <= i < |STATES| :: StateRank(STATES[i]) == i;
    }
    forall x, y
      ensures Precedes(ERRORS, x, y) <==> ErrorRank(x) < ErrorRank(y)
    {
      assert ERRORS[ErrorRank(x)] == x && ERRORS[ErrorRank(y)] == y;
      assert forall i | 0 <= i < |ERRORS| :: ErrorRank(ERRORS[i]) == i;
    }
    forall x, y
      ensures Precedes(ALIGNMENTS, x, y) <==> EdgeRank(x) < EdgeRank(y)
    {
      assert ALIGNMENTS[EdgeRank(x)] == x && ALIGNMENTS[EdgeRank(y)] == y;
      assert forall i | 0 <= i < |ALIGNMENTS| :: EdgeRank(ALIGNMENTS[i]) == i;
    }
    forall x, y
      ensures (NoCallbacks(x) && !NoCallbacks(y)) || Precedes(CALLBACKS, x, y) <==> CallbackRank(x) < CallbackRank(y)
    {
      assert !NoCallbacks(x) ==> CALLBACKS[CallbackRank(x) - 1] == x;
      assert !NoCallbacks(y) ==> CALLBACKS[CallbackRank(y) - 1] == y;
      assert forall i | 0 <= i < |CALLBACKS| :: CallbackRank(CALLBACKS[i]) == i + 1;
    }
  }

  /** Feasible candidates come before infeasible ones. Of two feasible ones the smaller surface comes
      first; then fewer callbacks, less state, milder errors, better alignment, needing no proxy and the
      deeper step decide, each when everything before it is the same. Of two infeasible ones the deeper is first. */
  lemma BetterReads(a: Candidate, b: Candidate)
    ensures a.feasibility == Infeasible && b.feasibility == Infeasible ==> (Better(a, b) <==> Deeper(a, b))
    ensures a.feasibility != b.feasibility && (a.feasibility == Infeasible || b.feasibility == Infeasible) ==>
              (Better(a, b) <==> b.feasibility == Infeasible)
    ensures a.feasibility != Infeasible && b.feasibility != Infeasible ==>
              var callbacksTie := a.callbacks == b.callbacks || (NoCallbacks(a.callbacks) && NoCallbacks(b.callbacks));
              (Better(a, b) <==>
                || Precedes(SURFACES, a.surface, b.surface)
                || (a.surface == b.surface
                    && (|| (NoCallbacks(a.callbacks) && !NoCallbacks(b.callbacks)) || Precedes(CALLBACKS, a.callbacks, b.callbacks)
                        || (callbacksTie
                            && (|| Precedes(STATES, a.state, b.state)
                                || (a.state == b.state
                                    && (|| Precedes(ERRORS, a.errorSem, b.errorSem)
                                        || (a.errorSem == b.errorSem
                                            && (|| Precedes(ALIGNMENTS, a.edgeAlign, b.edgeAlign)
                                                || (a.edgeAlign == b.edgeAlign
                                                    && (if a.feasibility != b.feasibility then a.feasibility == Feasible
                                                        else Deeper(a, b))))))))))))
  {
    hide Precedes;
    ListsAreOrders();
  }

  /** An independent reading of the order: the dimensions as numbers, compared left to right.
      All that counts for an infeasible candidate is that it is, and how deep it lies. */
  function Dimensions(c: Candidate): seq<int> {
    if c.feasibility == Infeasible then [1, 0, 0, 0, 0, 0, 0, -c.step]
    else [0, SurfaceRank(c.surface), CallbackRank(c.callbacks), StateRank(c.state), ErrorRank(c.errorSem),
          EdgeRank(c.edgeAlign), if c.feasibility == Feasible then 0 else 1, -c.step]
  }

  /** The lists agree before `k` and the first is smaller at `k`. */
  predicate SmallerAt(u: seq<int>, v: seq<int>, k: nat) {
    k < |u| == |v| && u[k] < v[k] && forall i | 0 <= i < k :: u[i] == v[i]
  }

  ghost predicate LexSmaller(u: seq<int>, v: seq<int>) {
    exists k :: SmallerAt(u, v, k)
  }

  lemma BetterIsLexicographic(a: Candidate, b: Candidate)
    requires a.step != b.step
    ensures Better(a, b) <==> LexSmaller(Dimensions(a), Dimensions(b))
  {
    hide SurfaceRank, CallbackRank, StateRank, ErrorRank, EdgeRank;
    var u, v := Dimensions(a), Dimensions(b);
    assert |u| == |v| == 8 && u[7] == -a.step && v[7] == -b.step;
    var k := if u[0] != v[0] then 0 else if u[1] != v[1] then 1 else if u[2] != v[2] then 2
             else if u[3] != v[3] then 3 else if u[4] != v[4] then 4 else if u[5] != v[5] then 5
             else if u[6] != v[6] then 6 else 7;
    assert u[k] != v[k] && forall i | 0 <= i < k :: u[i] == v[i];
    if Better(a, b) {
      assert SmallerAt(u, v, k);
    } else {
      assert SmallerAt(v, u, k);
    }
  }

  // ----- Lists with distinct steps

  ghost predicate DistinctSteps(cs: seq<Candidate>) {
    forall i, j | 0 <= i < j < |cs| :: cs[i].step != cs[j].step
  }

  ghost predicate StepsIdentify(cs: seq<Candidate>) {
    forall x, y | x in cs && y in cs && x.step == y.step :: x == y
  }

  lemma DistinctIdentify(cs: seq<Candidate>)
    requires DistinctSteps(cs)
    ensures StepsIdentify(cs)
  {
  }

  /** The order is strict and total on candidates with distinct steps. */
  lemma BetterIsTotal(cs: seq<Candidate>)
    requires StepsIdentify(cs)
    ensures StrictWeakOn(cs, Better) && TotalOn(cs, Better)
  {
    forall x, y | x in cs && y in cs
      ensures Better(x, y) ==> !Better(y, x)
      ensures x == y || Better(x, y) || Better(y, x)
    {
      BetterPair(x, y);
    }
    forall x, y, z | x in cs && y in cs && z in cs && !Better(x, y) && !Better(y, z)
      ensures !Better(x, z)
    {
      BetterTriple(x, y, z);
    }
  }

  lemma BetterPair(x: Candidate, y: Candidate)
    ensures Better(x, y) ==> !Better(y, x)
    ensures x.step != y.step ==> Better(x, y) || Better(y, x)
  {
    hide SurfaceRank, CallbackRank, StateRank, ErrorRank, EdgeRank, StringLess;
    StringLessTrichotomy(x.key.Text(), y.key.Text());
  }

  lemma BetterTriple(x: Candidate, y: Candidate, z: Candidate)
    requires x.step == y.step ==> x == y
    requires y.step == z.step ==> y == z
    requires x.step == z.step ==> x == z
    requires !Better(x, y) && !Better(y, z)
    ensures !Better(x, z)
  {
    if x.step == z.step {
      BetterPair(x, x);
    } else if x.step != y.step && y.step != z.step {
      BetterPair(x, y);
      BetterPair(y, z);
      BetterTransitive(z, y, x);
      BetterPair(x, z);
    }
  }

  lemma BetterTransitive(x: Candidate, y: Candidate, z: Candidate)
    requires x.step != y.step && y.step != z.step && x.step != z.step
    requires Better(x, y) && Better(y, z)
    ensures Better(x, z)
  {
    hide SurfaceRank, CallbackRank, StateRank, ErrorRank, EdgeRank;
  }

  /** The ranking does not depend on the order the candidates come in. */
  lemma RankingIgnoresInputOrder(a: seq<Candidate>, b: seq<Candidate>)
    requires multiset(a) == multiset(b) && DistinctSteps(a)
    ensures SortBy(a, Better) == SortBy(b, Better)
  {
    DistinctIdentify(a);
    SameElements(a, b);
    assert StepsIdentify(b);
    BetterIsTotal(a);
    BetterIsTotal(b);
    SortBySorted(a, Better);
    SortBySorted(b, Better);
    SameElements(SortBy(a, Better), a);
    BetterIsTotal(SortBy(a, Better));
    SortedUnique(SortBy(a, Better), SortBy(b, Better), Better);
  }

  // ----- The feasible part of a list

  function FeasibleOf(cs: seq<Candidate>): seq<Candidate> {
    if cs == [] then []
    else if cs[0].feasibility == Infeasible then FeasibleOf(cs[1..])
    else [cs[0]] + FeasibleOf(cs[1..])
  }

  function Ids(cs: seq<Candidate>): seq<Id> {
    seq(|cs|, i requires 0 <= i < |cs| => IdOf(cs[i]))
  }

  lemma {:induction false} FeasibleMembers(cs: seq<Candidate>, c: Candidate)
    ensures c in FeasibleOf(cs) <==> c in cs && c.feasibility != Infeasible
  {
    if cs != [] {
      FeasibleMembers(cs[1..], c);
      assert cs == [cs[0]] + cs[1..];
    }
  }

  lemma {:induction false} FeasibleMultiset(cs: seq<Candidate>, c: Candidate)
    ensures multiset(FeasibleOf(cs))[c] == if c.feasibility == Infeasible then 0 else multiset(cs)[c]
  {
    if cs != [] {
      FeasibleMultiset(cs[1..], c);
      assert cs == [cs[0]] + cs[1..];
      assert multiset(cs)[c] == multiset(cs[1..])[c] + if cs[0] == c then 1 else 0;
      var rest := FeasibleOf(cs[1..]);
      assert multiset([cs[0]] + rest)[c] == multiset(rest)[c] + if cs[0] == c then 1 else 0;
    }
  }

  lemma {:induction false} FeasibleSorted(cs: seq<Candidate>)
    requires Sorted(cs, Better)
    ensures Sorted(FeasibleOf(cs), Better)
  {
    if cs != [] {
      FeasibleSorted(cs[1..]);
      var rest := FeasibleOf(cs[1..]);
      forall j | 0 <= j < |rest|
        ensures !Better(rest[j], cs[0])
      {
        FeasibleMembers(cs[1..], rest[j]);
        var i :| 0 <= i < |cs[1..]| && cs[1..][i] == rest[j];
        assert cs[i + 1] == rest[j];
      }
    }
  }

  /** In a sorted list the feasible candidates come first. */
  lemma {:induction false} FeasibleIsPrefix(cs: seq<Candidate>)
    requires Sorted(cs, Better)
    ensures FeasibleOf(cs) <= cs
    ensures forall i | 0 <= i < |cs| :: cs[i].feasibility != Infeasible <==> i < |FeasibleOf(cs)|
  {
    if cs != [] {
      FeasibleIsPrefix(cs[1..]);
      assert cs == [cs[0]] + cs[1..];
      if cs[0].feasibility == Infeasible {
        assert forall i | 0 < i < |cs| :: !Better(cs[i], cs[0]) && cs[i] == cs[1..][i - 1];
        assert |cs| > 1 ==> cs[1].feasibility == Infeasible && cs[1] == cs[1..][0];
      }
    }
  }

  /** Two sorted lists with the same feasible candidates list them in the same order. */
  lemma FeasibleUnique(a: seq<Candidate>, b: seq<Candidate>)
    requires Sorted(a, Better) && Sorted(b, Better) && StepsIdentify(a)
    requires forall c: Candidate | c.feasibility != Infeasible :: multiset(a)[c] == multiset(b)[c]
    ensures FeasibleOf(a) == FeasibleOf(b)
  {
    var fa, fb := FeasibleOf(a), FeasibleOf(b);
    forall c: Candidate
      ensures multiset(fa)[c] == multiset(fb)[c]
    {
      FeasibleMultiset(a, c);
      FeasibleMultiset(b, c);
    }
    assert multiset(fa) == multiset(fb);
    FeasibleSorted(a);
    FeasibleSorted(b);
    forall c | c in fa
      ensures c in a
    {
      FeasibleMembers(a, c);
    }
    BetterIsTotal(fa);
    SortedUnique(fa, fb, Better);
  }

  // ----- Why one candidate beats another

  function DecisiveDifference(best: Candidate, other: Candidate): Decisive {
    if other.feasibility == Infeasible then CompetitorInfeasible
    else if best.feasibility != other.feasibility then FeasiblePreferred
    else if SurfaceRank(best.surface) != SurfaceRank(other.surface) then SurfaceBeat
    else if CallbackRank(best.callbacks) != CallbackRank(other.callbacks) then CallbacksBeat
    else if StateRank(best.state) != StateRank(other.state) then StateBeat
    else if ErrorRank(best.errorSem) != ErrorRank(other.errorSem) then ErrorBeat
    else if EdgeRank(best.edgeAlign) != EdgeRank(other.edgeAlign) then EdgeBeat
    else if best.step != other.step then DeeperStep
    else NodeKeyBeat
  }

  /** The position in `Dimensions` that a report speaks of. */
  function DimensionOf(d: Decisive): nat {
    match d
    case CompetitorInfeasible => 0
    case SurfaceBeat => 1
    case CallbacksBeat => 2
    case StateBeat => 3
    case ErrorBeat => 4
    case EdgeBeat => 5
    case FeasiblePreferred => 6
    case DeeperStep => 7
    case NodeKeyBeat => 8
  }

  predicate SoftRanksEqual(a: Candidate, b: Candidate) {
    && SurfaceRank(a.surface) == SurfaceRank(b.surface)
    && CallbackRank(a.callbacks) == CallbackRank(b.callbacks)
    && StateRank(a.state) == StateRank(b.state)
    && ErrorRank(a.errorSem) == ErrorRank(b.errorSem)
    && EdgeRank(a.edgeAlign) == EdgeRank(b.edgeAlign)
  }

  /** Among feasible candidates the report names the first dimension in which the winner is
      strictly better exactly when both are feasible alike, or nothing but that tells them apart.
      A proxy winner with a better soft rank is reported as if feasibility had decided. */
  lemma DecisiveNamesFirstDifference(best: Candidate, other: Candidate)
    requires best.feasibility != Infeasible && other.feasibility != Infeasible
    requires best.step != other.step && Better(best, other)
    ensures SmallerAt(Dimensions(best), Dimensions(other), DimensionOf(DecisiveDifference(best, other)))
            <==> best.feasibility == other.feasibility || SoftRanksEqual(best, other)
  {
    hide SurfaceRank, CallbackRank, StateRank, ErrorRank, EdgeRank;
    var u, v := Dimensions(best), Dimensions(other);
    assert |u| == |v| == 8 && u[0] == v[0] == 0 && u[7] == -best.step && v[7] == -other.step;
    assert u[1] == SurfaceRank(best.surface) && u[2] == CallbackRank(best.callbacks) && u[3] == StateRank(best.state);
    assert u[4] == ErrorRank(best.errorSem) && u[5] == EdgeRank(best.edgeAlign);
    assert v[1] == SurfaceRank(other.surface) && v[2] == CallbackRank(other.callbacks) && v[3] == StateRank(other.state);
    assert v[4] == ErrorRank(other.errorSem) && v[5] == EdgeRank(other.edgeAlign);
    assert u[6] == (if best.feasibility == Feasible then 0 else 1) && v[6] == (if other.feasibility == Feasible then 0 else 1);
  }

  /** The misreport happens: a proxy candidate that wins on surface is said to win on feasibility. */
  lemma ProxyIsMisreported()
    ensures exists best, other :: Better(best, other) && best.step != other.step
              && best.feasibility == FeasibleWithProxy && other.feasibility == Feasible
              && DecisiveDifference(best, other) == FeasiblePreferred
  {
    var key := FunctionKey("p", "", "f");
    var best := Candidate(2, key, "", FeasibleWithProxy, ZeroConfirmed, Stateless, Minimal, ErrorOK, Strong, Unset, "", Initial(""));
    var other := best.(step := 1, feasibility := Feasible, surface := Large);
    assert Better(best, other) && DecisiveDifference(best, other) == FeasiblePreferred;
  }

  // ----- Annotation

  function AgainstNext(best: Candidate, rest: seq<Candidate>): Option<Decisive> {
    if rest == [] then None
    else if rest[0].feasibility != Infeasible then Some(DecisiveDifference(best, rest[0]))
    else AgainstNext(best, rest[1..])
  }

  /** The reason a candidate carries once `best` is recommended out of `all`. */
  function Annotated(c: Candidate, best: Candidate, all: seq<Candidate>): Candidate {
    if c.feasibility == Infeasible then c
    else if IdOf(c) == IdOf(best) then
      c.(reason := if |all| <= 1 then SelectedOnly else Selected(AgainstNext(all[0], all[1..])))
    else c.(reason := RankedBelow(best.step, DecisiveDifference(best, c)))
  }

  function Unrecommended(c: Candidate): Candidate {
    if c.reason == Initial("") then c.(reason := NoRecommendation) else c
  }

  /** The recommended candidate is compared with the first feasible one behind it. */
  lemma {:induction false} AgainstNextIs(best: Candidate, rest: seq<Candidate>)
    ensures AgainstNext(best, rest).None? <==> forall i | 0 <= i < |rest| :: rest[i].feasibility == Infeasible
    ensures forall i | 0 <= i < |rest| && rest[i].feasibility != Infeasible ::
              (forall j | 0 <= j < i :: rest[j].feasibility == Infeasible) ==>
              AgainstNext(best, rest) == Some(DecisiveDifference(best, rest[i]))
  {
    hide DecisiveDifference;
    if rest != [] && rest[0].feasibility == Infeasible {
      var tail := rest[1..];
      AgainstNextIs(best, tail);
      assert forall i | 0 < i < |rest| :: rest[i] == tail[i - 1];
      if forall j | 0 <= j < |tail| :: tail[j].feasibility == Infeasible {
        assert forall i | 0 <= i < |rest| :: rest[i].feasibility == Infeasible;
      }
    }
  }

  /** What the reasons say. An infeasible candidate keeps its own; a feasible one that is not recommended
      names the recommended step and what decided; the recommended one is alone, has no feasible rival, or
      names what decided against the next one. Without a recommendation only an empty reason is filled. */
  lemma ReasonsRead(c: Candidate, all: seq<Candidate>, i: nat)
    requires 0 < i < |all| && forall j | 0 < j < i :: all[j].feasibility == Infeasible
    ensures c.feasibility == Infeasible ==> Annotated(c, all[0], all) == c
    ensures c.feasibility != Infeasible && (c.step != all[0].step || c.key != all[0].key) ==>
              Annotated(c, all[0], all) == c.(reason := RankedBelow(all[0].step, DecisiveDifference(all[0], c)))
    ensures c.feasibility != Infeasible && c.step == all[0].step && c.key == all[0].key && all[i].feasibility != Infeasible ==>
              Annotated(c, all[0], all) == c.(reason := Selected(Some(DecisiveDifference(all[0], all[i]))))
    ensures c.feasibility != Infeasible && IdOf(c) == IdOf(all[0]) && all[i].feasibility == Infeasible && i == |all| - 1 ==>
              Annotated(c, all[0], all) == c.(reason := Selected(None))
    ensures Annotated(c, c, [c]).reason == if c.feasibility == Infeasible then c.reason else SelectedOnly
    ensures Unrecommended(c).reason == NoRecommendation || (Unrecommended(c) == c && c.reason != Initial(""))
    ensures c.reason != Initial("") ==> Unrecommended(c) == c
    ensures Unrecommended(c).(reason := c.reason) == c
  {
    hide DecisiveDifference, AgainstNext;
    var rest := all[1..];
    AgainstNextIs(all[0], rest);
    assert rest[i - 1] == all[i];
    assert forall j | 0 <= j < |rest| :: rest[j] == all[j + 1];
  }

  /** A candidate without what annotation and adapter marking write. */
  function Bare(c: Candidate): Candidate {
    c.(reason := Initial(""), adapterClass := Unset, adapterReason := "")
  }

  function BareAll(cs: seq<Candidate>): seq<Candidate> {
    MapSeq(Bare, cs)
  }

  lemma BetterIsBare(a: Candidate, b: Candidate)
    ensures Better(Bare(a), Bare(b)) == Better(a, b)
  {
  }

  /** Lists that agree but for annotations and adapter marks. */
  ghost predicate SameBare(a: seq<Candidate>, b: seq<Candidate>) {
    |a| == |b| && forall i | 0 <= i < |a| :: Bare(a[i]) == Bare(b[i])
  }

  lemma SameBareSorted(a: seq<Candidate>, b: seq<Candidate>)
    requires SameBare(a, b)
    ensures Sorted(a, Better) ==> Sorted(b, Better)
    ensures DistinctSteps(a) ==> DistinctSteps(b)
  {
    forall i, j | 0 <= i < j < |b|
      ensures Better(b[j], b[i]) == Better(a[j], a[i])
      ensures b[i].step == a[i].step && b[j].step == a[j].step
    {
      BetterIsBare(a[j], a[i]);
      BetterIsBare(b[j], b[i]);
      assert Bare(a[i]) == Bare(b[i]) && Bare(a[j]) == Bare(b[j]);
    }
  }

  lemma {:induction false} SameBareFeasible(a: seq<Candidate>, b: seq<Candidate>)
    requires SameBare(a, b)
    ensures Ids(FeasibleOf(a)) == Ids(FeasibleOf(b))
  {
    if a != [] {
      assert Bare(a[0]) == Bare(b[0]);
      SameBareFeasible(a[1..], b[1..]);
      if a[0].feasibility != Infeasible {
        IdsCons(a[0], FeasibleOf(a[1..]));
        IdsCons(b[0], FeasibleOf(b[1..]));
      }
    }
  }

  lemma IdsCons(c: Candidate, cs: seq<Candidate>)
    ensures Ids([c] + cs) == [IdOf(c)] + Ids(cs)
  {
  }

  // ----- Marking and re-ranking

  /** The list with its first candidate of that identity made infeasible. */
  function Mark(cs: seq<Candidate>, id: Id, refusal: string): seq<Candidate> {
    if cs == [] then []
    else if IdOf(cs[0]) == id then [cs[0].(feasibility := Infeasible, reason := Demoted(refusal))] + cs[1..]
    else [cs[0]] + Mark(cs[1..], id, refusal)
  }

  lemma {:induction false} MarkAt(cs: seq<Candidate>, id: Id, refusal: string, i: nat)
    requires i < |cs| && IdOf(cs[i]) == id && forall j | 0 <= j < i :: IdOf(cs[j]) != id
    ensures Mark(cs, id, refusal) == cs[i := cs[i].(feasibility := Infeasible, reason := Demoted(refusal))]
  {
    if i > 0 {
      MarkAt(cs[1..], id, refusal, i - 1);
    }
  }

  lemma {:induction false} MarkMissing(cs: seq<Candidate>, id: Id, refusal: string)
    requires forall j | 0 <= j < |cs| :: IdOf(cs[j]) != id
    ensures Mark(cs, id, refusal) == cs
  {
    if cs != [] {
      MarkMissing(cs[1..], id, refusal);
    }
  }

  /** Demoting the best candidate and sorting again leaves the other feasible ones in order. */
  lemma DemoteFirst(cs: seq<Candidate>, refusal: string)
    requires Sorted(cs, Better) && DistinctSteps(cs) && FeasibleOf(cs) != []
    ensures cs[0].feasibility != Infeasible && FeasibleOf(cs)[0] == cs[0]
    ensures var marked := SortBy(Mark(cs, IdOf(cs[0]), refusal), Better);
            Sorted(marked, Better) && DistinctSteps(marked) && FeasibleOf(marked) == FeasibleOf(cs)[1..]
  {
    FeasibleIsPrefix(cs);
    var c := cs[0].(feasibility := Infeasible, reason := Demoted(refusal));
    var m := Mark(cs, IdOf(cs[0]), refusal);
    var marked := SortBy(m, Better);
    assert m == [c] + cs[1..];
    DistinctIdentify(m);
    BetterIsTotal(m);
    SortBySorted(m, Better);
    SortKeepsDistinct(m);
    DistinctIdentify(marked);
    var tail := cs[1..];
    forall d: Candidate | d.feasibility != Infeasible
      ensures multiset(marked)[d] == multiset(tail)[d]
    {
      assert multiset(m) == multiset{c} + multiset(tail);
    }
    assert Sorted(tail, Better);
    FeasibleUnique(marked, tail);
  }

  lemma SortKeepsDistinct(cs: seq<Candidate>)
    requires DistinctSteps(cs)
    ensures DistinctSteps(SortBy(cs, Better))
  {
    var sorted := SortBy(cs, Better);
    DistinctIdentify(cs);
    SameElements(cs, sorted);
    assert Distinct(cs);
    PermutedDistinct(cs, sorted);
    forall i, j | 0 <= i < j < |sorted|
      ensures sorted[i].step != sorted[j].step
    {
      assert sorted[i] in cs && sorted[j] in cs && sorted[i] != sorted[j];
    }
  }

  lemma {:induction false} AgainstNextBare(best: Candidate, best': Candidate, a: seq<Candidate>, b: seq<Candidate>)
    requires SameBare(a, b) && Bare(best) == Bare(best')
    ensures AgainstNext(best, a) == AgainstNext(best', b)
  {
    if a != [] {
      assert Bare(a[0]) == Bare(b[0]);
      assert forall i | 0 <= i < |a[1..]| :: a[1..][i] == a[i + 1] && b[1..][i] == b[i + 1];
      AgainstNextBare(best, best', a[1..], b[1..]);
    }
  }

  lemma SameNext(a: seq<Candidate>, b: seq<Candidate>)
    requires |a| == |b| > 0 && forall j | 0 <= j < |a| :: Bare(a[j]) == Bare(b[j])
    ensures AgainstNext(a[0], a[1..]) == AgainstNext(b[0], b[1..])
  {
    assert SameBare(a[1..], b[1..]);
    AgainstNextBare(a[0], b[0], a[1..], b[1..]);
  }

  lemma FirstIsThere(cs: seq<Candidate>, i: nat)
    requires FirstFeasible(cs, i)
    ensures i < |cs|
  {
  }

  lemma AnnotatedIs(c: Candidate, best: Candidate, all: seq<Candidate>)
    requires all != []
    ensures Bare(Annotated(c, best, all)) == Bare(c)
    ensures c.feasibility == Infeasible ==> Annotated(c, best, all) == c
    ensures c.feasibility != Infeasible && IdOf(c) == IdOf(best) ==>
              Annotated(c, best, all) == c.(reason := if |all| == 1 then SelectedOnly else Selected(AgainstNext(all[0], all[1..])))
    ensures c.feasibility != Infeasible && IdOf(c) != IdOf(best) ==>
              Annotated(c, best, all) == c.(reason := RankedBelow(best.step, DecisiveDifference(best, c)))
  {
    hide AgainstNext, DecisiveDifference;
  }

  predicate FirstFeasible(cs: seq<Candidate>, i: nat) {
    i < |cs| && cs[i].feasibility != Infeasible && forall j | 0 <= j < i :: cs[j].feasibility == Infeasible
  }

  /** The reasons follow from the sorted list and the recommended slot. */
  ghost predicate AnnotatedFrom(cs: seq<Candidate>, sorted: seq<Candidate>, recommended: Option<nat>) {
    && |cs| == |sorted|
    && (recommended.Some? ==> recommended.value < |sorted|)
    && forall i | 0 <= i < |cs| ::
         cs[i] == if recommended.Some? then Annotated(sorted[i], sorted[recommended.value], sorted) else Unrecommended(sorted[i])
  }

  // ----- The cut result

  class CutResult {
    var candidates: seq<Candidate>
    /** The slot of the recommended candidate. */
    var recommended: Option<nat>

    constructor (candidates: seq<Candidate>)
      ensures this.candidates == candidates && recommended == None
    {
      this.candidates, recommended := candidates, None;
    }

    /** Best first, feasible before infeasible, and the best feasible candidate recommended. */
    ghost predicate Ranked()
      reads this
    {
      && Sorted(candidates, Better) && DistinctSteps(candidates)
      && recommended == if FeasibleOf(candidates) == [] then None else Some(0)
    }

    /** Sorts in place, recommends the first feasible candidate and rewrites the reasons. */
    method Rank()
      requires recommended == None
      modifies this
      ensures SameBare(candidates, SortBy(old(candidates), Better))
      ensures DistinctSteps(old(candidates)) ==> Ranked()
      ensures AnnotatedFrom(candidates, SortBy(old(candidates), Better), recommended)
    {
      hide Better, SortBy, Sorted, DistinctSteps, FeasibleOf, Annotated, Unrecommended;
      NothingToRank();
      if |candidates| == 0 {
        return;
      }
      var sorted := SortBy(candidates, Better);
      candidates := sorted;
      var i := 0;
      while i < |candidates| && recommended.None?
        invariant 0 <= i <= |candidates| && candidates == sorted
        invariant recommended.None? ==> forall j | 0 <= j < i :: sorted[j].feasibility == Infeasible
        invariant recommended.Some? ==> FirstFeasible(sorted, recommended.value)
      {
        if candidates[i].feasibility != Infeasible {
          recommended := Some(i);
        }
        i := i + 1;
      }
      ghost var r := recommended;
      if recommended.None? {
        AnnotateUnrecommended(sorted);
      } else {
        AnnotateReasons(sorted);
      }
      if DistinctSteps(old(candidates)) {
        RankedIs(old(candidates), sorted, r);
        SameBareSorted(sorted, candidates);
        SameBareFeasible(sorted, candidates);
        assert |Ids(FeasibleOf(sorted))| == |FeasibleOf(sorted)| && |Ids(FeasibleOf(candidates))| == |FeasibleOf(candidates)|;
      }
    }

    method AnnotateUnrecommended(ghost sorted: seq<Candidate>)
      requires candidates == sorted
      modifies this`candidates
      requires recommended == None
      ensures SameBare(sorted, candidates) && SameBare(candidates, sorted)
      ensures AnnotatedFrom(candidates, sorted, recommended)
    {
      for i := 0 to |candidates|
        invariant |candidates| == |sorted|
        invariant forall j | 0 <= j < i :: candidates[j] == Unrecommended(sorted[j])
        invariant forall j | i <= j < |sorted| :: candidates[j] == sorted[j]
      {
        if candidates[i].reason == Initial("") {
          candidates := candidates[i := candidates[i].(reason := NoRecommendation)];
        }
      }
    }

    method AnnotateReasons(ghost sorted: seq<Candidate>)
      requires candidates == sorted && recommended.Some? && FirstFeasible(sorted, recommended.value)
      modifies this`candidates
      ensures SameBare(sorted, candidates) && SameBare(candidates, sorted)
      ensures AnnotatedFrom(candidates, sorted, recommended)
    {
      hide Better, DecisiveDifference, AgainstNext, FirstFeasible, Annotated;
      FirstIsThere(sorted, recommended.value);
      var best := candidates[recommended.value];
      for i := 0 to |candidates|
        invariant |candidates| == |sorted| && best == sorted[recommended.value]
        invariant forall j | 0 <= j < i :: candidates[j] == Annotated(sorted[j], best, sorted)
        invariant forall j | i <= j < |sorted| :: candidates[j] == sorted[j]
        invariant SameBare(candidates, sorted)
      {
        var c := candidates[i];
        AnnotatedIs(c, best, sorted);
        if c.feasibility == Infeasible {
          continue;
        }
        if IdOf(c) == IdOf(best) {
          SameNext(candidates, sorted);
          var why := if |candidates| == 1 then SelectedOnly else Selected(AgainstNext(candidates[0], candidates[1..]));
          candidates := candidates[i := c.(reason := why)];
        } else {
          candidates := candidates[i := c.(reason := RankedBelow(best.step, DecisiveDifference(best, c)))];
        }
      }
    }

    /** Makes one candidate infeasible and ranks again; an unknown candidate changes nothing. */
    method DemoteCandidate(step: int, key: FunctionKey, refusal: string)
      modifies this
      ensures Id(step, key) !in Ids(old(candidates)) ==> candidates == old(candidates) && recommended == old(recommended)
      ensures Id(step, key) in Ids(old(candidates)) ==>
                SameBare(candidates, SortBy(Mark(old(candidates), Id(step, key), refusal), Better))
      ensures Id(step, key) in Ids(old(candidates)) ==>
                AnnotatedFrom(candidates, SortBy(Mark(old(candidates), Id(step, key), refusal), Better), recommended)
      ensures Id(step, key) in Ids(old(candidates)) && DistinctSteps(old(candidates)) ==> Ranked()
    {
      for i := 0 to |candidates|
        invariant candidates == old(candidates) && recommended == old(recommended)
        invariant forall j | 0 <= j < i :: IdOf(candidates[j]) != Id(step, key)
      {
        if candidates[i].step != step || candidates[i].key != key {
          continue;
        }
        hide Better, SortBy, DistinctSteps, Sorted, FeasibleOf, SameBare, Annotated, AnnotatedFrom, Mark;
        MarkedDistinct(candidates, i, refusal);
        assert Ids(candidates)[i] == Id(step, key);
        MarkAt(candidates, Id(step, key), refusal, i);
        candidates := candidates[i := candidates[i].(feasibility := Infeasible, reason := Demoted(refusal))];
        recommended := None;
        Rank();
        return;
      }
      assert forall j | 0 <= j < |candidates| :: Ids(candidates)[j] == IdOf(candidates[j]);
    }
  }

  lemma NothingToRank()
    ensures SortBy([], Better) == [] && Sorted([], Better) && FeasibleOf([]) == []
  {
  }

  lemma MarkedDistinct(cs: seq<Candidate>, i: nat, refusal: string)
    requires i < |cs|
    ensures DistinctSteps(cs) ==> DistinctSteps(cs[i := cs[i].(feasibility := Infeasible, reason := Demoted(refusal))])
  {
  }

  lemma RankedIs(before: seq<Candidate>, sorted: seq<Candidate>, r: Option<nat>)
    requires sorted == SortBy(before, Better) && DistinctSteps(before)
    requires r.None? ==> forall j | 0 <= j < |sorted| :: sorted[j].feasibility == Infeasible
    requires r.Some? ==> FirstFeasible(sorted, r.value)
    ensures Sorted(sorted, Better) && DistinctSteps(sorted)
    ensures r == if FeasibleOf(sorted) == [] then None else Some(0)
  {
    DistinctIdentify(before);
    BetterIsTotal(before);
    SortBySorted(before, Better);
    SortKeepsDistinct(before);
    FeasibleIsPrefix(sorted);
  }

  // ----- Demoting many candidates

  /** Every candidate whose identity is in the set made infeasible, annotations aside. */
  function Blocked(cs: seq<Candidate>, ids: set<Id>): seq<Candidate> {
    MapSeq(Blocker(ids), cs)
  }

  function BlockOne(c: Candidate, ids: set<Id>): Candidate {
    if IdOf(c) in ids then c.(feasibility := Infeasible) else c
  }

  function IdSet(ids: seq<Id>): set<Id> {
    set id | id in ids
  }

  function Blocker(ids: set<Id>): Candidate -> Candidate {
    c => BlockOne(c, ids)
  }

  /** Demotions one after another, each followed by a new ranking. */
  function DemoteAll(cs: seq<Candidate>, ids: seq<Id>): seq<Candidate> {
    if ids == [] then cs else SortBy(Blocked(DemoteAll(cs, ids[..|ids| - 1]), {ids[|ids| - 1]}), Better)
  }

  lemma BlockedDistinct(cs: seq<Candidate>, ids: set<Id>)
    requires DistinctSteps(cs)
    ensures DistinctSteps(Blocked(cs, ids))
  {
    hide MapSeq;
    var r := Blocked(cs, ids);
    assert forall i | 0 <= i < |cs| :: r[i] == BlockOne(cs[i], ids) && r[i].step == cs[i].step;
  }

  lemma BlockedTwice(cs: seq<Candidate>, a: set<Id>, b: set<Id>)
    ensures Blocked(Blocked(cs, a), b) == Blocked(cs, a + b)
  {
    hide MapSeq;
    assert forall i | 0 <= i < |cs| :: Blocked(Blocked(cs, a), b)[i] == Blocked(cs, a + b)[i];
  }

  /** Only which candidates were demoted matters: any order of demotions ends in the one ranking
      that blocking all of them at once gives. */
  lemma {:induction false} DemotionOrderIrrelevant(cs: seq<Candidate>, ids: seq<Id>)
    requires DistinctSteps(cs) && Sorted(cs, Better)
    ensures DemoteAll(cs, ids) == SortBy(Blocked(cs, IdSet(ids)), Better)
    ensures DistinctSteps(DemoteAll(cs, ids)) && Sorted(DemoteAll(cs, ids), Better)
  {
    hide Better, BlockOne, Blocked, Blocker, DistinctSteps, Sorted, SortBy, MapSeq, IdSet;
    var all := IdSet(ids);
    BlockedDistinct(cs, all);
    SortedDistinct(Blocked(cs, all));
    if ids == [] {
      BlockedByNone(cs);
      AlreadySorted(cs);
    } else {
      var front, last := ids[..|ids| - 1], ids[|ids| - 1];
      var before := IdSet(front);
      DemotionOrderIrrelevant(cs, front);
      IdSetLast(ids);
      BlockedIs(DemoteAll(cs, front), Blocked(cs, before), {last});
      MapPermutes(Blocker({last}), DemoteAll(cs, front), Blocked(cs, before));
      BlockedTwice(cs, before, {last});
      RankingIgnoresInputOrder(Blocked(cs, all), Blocked(DemoteAll(cs, front), {last}));
    }
  }

  lemma IdSetLast(ids: seq<Id>)
    requires ids != []
    ensures IdSet(ids) == IdSet(ids[..|ids| - 1]) + {ids[|ids| - 1]}
  {
    assert ids == ids[..|ids| - 1] + [ids[|ids| - 1]];
  }

  lemma BlockedIs(a: seq<Candidate>, b: seq<Candidate>, ids: set<Id>)
    ensures Blocked(a, ids) == MapSeq(Blocker(ids), a) && Blocked(b, ids) == MapSeq(Blocker(ids), b)
  {
  }

  lemma SortedDistinct(cs: seq<Candidate>)
    requires DistinctSteps(cs)
    ensures Sorted(SortBy(cs, Better), Better) && DistinctSteps(SortBy(cs, Better))
  {
    DistinctIdentify(cs);
    BetterIsTotal(cs);
    SortBySorted(cs, Better);
    SortKeepsDistinct(cs);
  }

  lemma AlreadySorted(cs: seq<Candidate>)
    requires DistinctSteps(cs) && Sorted(cs, Better)
    ensures SortBy(cs, Better) == cs
  {
    SortedDistinct(cs);
    DistinctIdentify(cs);
    BetterIsTotal(cs);
    SortedUnique(cs, SortBy(cs, Better), Better);
  }

  lemma BlockedByNone(cs: seq<Candidate>)
    ensures Blocked(cs, IdSet([])) == cs
  {
    hide MapSeq;
  }

  /** A demoted candidate is never feasible, hence never recommended, again. */
  lemma DemotedStaysOut(cs: seq<Candidate>, ids: seq<Id>, c: Candidate)
    requires DistinctSteps(cs) && Sorted(cs, Better)
    requires c in FeasibleOf(DemoteAll(cs, ids))
    ensures IdOf(c) !in ids && c in cs
  {
    hide Better, Sorted, DistinctSteps, DemoteAll;
    DemotionOrderIrrelevant(cs, ids);
    FeasibleMembers(DemoteAll(cs, ids), c);
    var blocked := Blocked(cs, IdSet(ids));
    SameElements(SortBy(blocked, Better), blocked);
    var i :| 0 <= i < |blocked| && blocked[i] == c;
    assert c == BlockOne(cs[i], IdSet(ids));
  }

  lemma BareSort(cs: seq<Candidate>)
    ensures BareAll(SortBy(cs, Better)) == SortBy(BareAll(cs), Better)
  {
    forall a, b
      ensures Better(Bare(a), Bare(b)) == Better(a, b)
    {
      BetterIsBare(a, b);
    }
    hide Better, Bare;
    MapSort(Bare, cs, Better);
  }

  /** What one call of `DemoteCandidate` does to the list, annotations aside. */
  lemma DemoteCandidateIsDemotion(before: seq<Candidate>, after: seq<Candidate>, id: Id, refusal: string)
    requires DistinctSteps(before) && id in Ids(before)
    requires SameBare(after, SortBy(Mark(before, id, refusal), Better))
    ensures BareAll(after) == DemoteAll(BareAll(before), [id])
  {
    hide Better, SortBy, FeasibleOf, Sorted, MapSeq;
    var i :| 0 <= i < |before| && Ids(before)[i] == id;
    forall k | 0 <= k < |before| && k != i
      ensures IdOf(before[k]) != id
    {
      assert before[k].step != before[i].step;
    }
    MarkAt(before, id, refusal, i);
    var marked := Mark(before, id, refusal);
    BareMarked(before, marked, i, id, refusal);
    BareSort(marked);
    BareAlike(after, SortBy(marked, Better));
    assert [id][..0] == [];
    assert DemoteAll(BareAll(before), []) == BareAll(before);
  }

  lemma BareAlike(a: seq<Candidate>, b: seq<Candidate>)
    requires SameBare(a, b)
    ensures BareAll(a) == BareAll(b)
  {
    hide Bare;
    MapIs(Bare, a, BareAll(b));
  }

  lemma BareMarked(before: seq<Candidate>, marked: seq<Candidate>, i: nat, id: Id, refusal: string)
    requires i < |before| && IdOf(before[i]) == id && forall k | 0 <= k < |before| && k != i :: IdOf(before[k]) != id
    requires marked == before[i := before[i].(feasibility := Infeasible, reason := Demoted(refusal))]
    ensures BareAll(marked) == Blocked(BareAll(before), {id})
  {
    hide MapSeq;
    forall k | 0 <= k < |before|
      ensures BareAll(marked)[k] == Blocked(BareAll(before), {id})[k]
    {
    }
  }

  // ----- Depth and surface

  /** The surface class of a step; the depth is its share of the path, as a real. */
  function ClassifySurface(step: int, pathLen: int): SurfaceClass {
    if pathLen <= 1 || step <= 0 then VeryLarge
    else
      var lastStep := pathLen - 1;
      if pathLen <= 4 then
        if step >= lastStep then Minimal else if step >= lastStep - 1 then Small else Medium
      else if step <= 1 then VeryLarge
      else
        var depth := (step as real) / (lastStep as real);
        if depth < 0.25 then Large else if depth < 0.50 then Medium else if depth < 0.75 then Small else Minimal
  }

  lemma Quarter(step: int, lastStep: int, quarters: int)
    requires lastStep > 0
    ensures (step as real) / (lastStep as real) < (quarters as real) / 4.0 <==> 4 * step < quarters * lastStep
  {
    var d, x := (step as real) / (lastStep as real), lastStep as real;
    assert d * x == step as real;
    assert d < (quarters as real) / 4.0 <==> d * x < (quarters as real) / 4.0 * x;
    assert (4 * step) as real == 4.0 * (step as real);
    assert (quarters * lastStep) as real == (quarters as real) * x;
  }

  /** The depth thresholds as integer comparisons. */
  lemma SurfaceThresholds(step: int, pathLen: int)
    requires pathLen > 4 && step > 1
    ensures ClassifySurface(step, pathLen) ==
              if 4 * step < pathLen - 1 then Large
              else if 2 * step < pathLen - 1 then Medium
              else if 4 * step < 3 * (pathLen - 1) then Small
              else Minimal
  {
    Quarter(step, pathLen - 1, 1);
    Quarter(step, pathLen - 1, 2);
    Quarter(step, pathLen - 1, 3);
  }

  /** The bands of short paths: the end is minimal, the step before it small, and what is neither start nor
      one of these medium. The start of any path, and the step after it on a long one, is very large. */
  lemma ShortPathBands(step: int, pathLen: int)
    ensures step <= 0 || pathLen <= 1 || (pathLen > 4 && step == 1) ==> ClassifySurface(step, pathLen) == VeryLarge
    ensures step > 0 && 1 < pathLen <= 4 ==>
              && (ClassifySurface(step, pathLen) == Minimal <==> pathLen <= step + 1)
              && (ClassifySurface(step, pathLen) == Small <==> pathLen == step + 2)
              && (ClassifySurface(step, pathLen) == Medium <==> pathLen >= step + 3)
  {
  }

  /** Going deeper on one path never enlarges the surface. */
  lemma DeeperIsSmaller(step: int, deeper: int, pathLen: int)
    requires step <= deeper
    ensures SurfaceRank(ClassifySurface(deeper, pathLen)) <= SurfaceRank(ClassifySurface(step, pathLen))
  {
    if pathLen > 4 && step > 1 {
      SurfaceThresholds(step, pathLen);
      SurfaceThresholds(deeper, pathLen);
    }
  }

  /** Depth dominates: the recommended cut has the surface class of the deepest feasible one. */
  lemma RecommendedMatchesDeepest(cs: seq<Candidate>, pathLen: int, deepest: Candidate)
    requires Sorted(cs, Better) && FeasibleOf(cs) != []
    requires forall c | c in cs :: c.surface == ClassifySurface(c.step, pathLen)
    requires deepest in FeasibleOf(cs) && forall c | c in FeasibleOf(cs) :: c.step <= deepest.step
    ensures cs[0] in FeasibleOf(cs) && cs[0].surface == deepest.surface
  {
    hide Better, ClassifySurface, SurfaceRank, FeasibleOf;
    FeasibleIsPrefix(cs);
    FeasibleMembers(cs, deepest);
    FeasibleMembers(cs, cs[0]);
    DeeperIsSmaller(cs[0].step, deepest.step, pathLen);
    var i :| 0 <= i < |cs| && cs[i] == deepest;
    if i > 0 {
      assert !Better(cs[i], cs[0]);
      NotBetterSurface(cs[0], deepest);
    }
    SurfaceOfStep(deepest.step, pathLen);
    SurfaceOfStep(cs[0].step, pathLen);
    SurfaceRankInjective(cs[0].surface, deepest.surface);
  }

  lemma NotBetterSurface(best: Candidate, other: Candidate)
    requires best.feasibility != Infeasible && other.feasibility != Infeasible && !Better(other, best)
    ensures SurfaceRank(best.surface) <= SurfaceRank(other.surface)
  {
  }

  lemma SurfaceRankInjective(a: SurfaceClass, b: SurfaceClass)
    requires SurfaceRank(a) == SurfaceRank(b)
    ensures a == b
  {
  }

  lemma SurfaceOfStep(step: int, pathLen: int)
    ensures ClassifySurface(step, pathLen) != OtherSurface
  {
  }
}
