/** Followee and follower lists: the list update behind Follow and Unfollow, its retry loop over the
    store, and how the two directions of the graph stay in step. */
module FollowGraph {
  import opened Collections
  import opened Functions
  import opened KeyValueStore
  import OptimisticUpdate

  const MAX_FOLLOWS: nat := 2000
  const MAX_RETRIES := OptimisticUpdate.MAX_RETRIES
  const STORE := "socialgraph-store"

  // ----- One list

  datatype FollowOp = FollowOp(value: string, add: bool, max: int)

  function IndexOf(list: seq<string>, value: string): (i: nat)
    ensures i <= |list|
    ensures i < |list| ==> list[i] == value
    ensures value !in list[..i]
  {
    if list == [] then 0
    else if list[0] == value then 0
    else
      assert list[..1 + IndexOf(list[1..], value)] == [list[0]] + list[1..][..IndexOf(list[1..], value)];
      1 + IndexOf(list[1..], value)
  }

  /** The new list, or None when the value is already there or already gone. */
  function FollowUpdate(list: seq<string>, op: FollowOp): Option<seq<string>> {
    var i := IndexOf(list, op.value);
    if op.add then
      if i < |list| then None
      else
        var longer := list + [op.value];
        Some(if op.max > 0 && |longer| > op.max then longer[|longer| - op.max..] else longer)
    else if i < |list| then Some(list[..i] + list[i + 1..])
    else None
  }

  function Applied(list: seq<string>, op: FollowOp): seq<string> {
    match FollowUpdate(list, op) case None => list case Some(l) => l
  }

  /** The update would push the oldest entry out. */
  predicate Trims(list: seq<string>, op: FollowOp) {
    op.add && op.value !in list && op.max > 0 && |list| >= op.max
  }

  lemma IndexOfMember(list: seq<string>, value: string)
    ensures value in list <==> IndexOf(list, value) < |list|
  {
    assert list[..|list|] == list;
  }

  ghost predicate Sound(list: seq<string>) {
    Distinct(list) && |list| <= MAX_FOLLOWS
  }

  lemma AppliedSound(list: seq<string>, op: FollowOp)
    requires Sound(list) && op.max == MAX_FOLLOWS
    ensures Sound(Applied(list, op))
  {
    IndexOfMember(list, op.value);
  }

  /** Without a trim an update changes the membership of its value alone. */
  lemma AppliedMembers(list: seq<string>, op: FollowOp, v: string)
    requires Distinct(list) && !Trims(list, op)
    ensures v in Applied(list, op) <==> if v == op.value then op.add else v in list
  {
    IndexOfMember(list, op.value);
    var i := IndexOf(list, op.value);
    if !op.add && i < |list| {
      assert list == list[..i] + [list[i]] + list[i + 1..];
      assert list[i] !in list[i + 1..];
    }
  }

  /** A trim drops the oldest entry and keeps everything else. */
  lemma TrimDropsOldest(list: seq<string>, op: FollowOp)
    requires Sound(list) && Trims(list, op) && op.max == MAX_FOLLOWS
    ensures list != [] && list[0] !in Applied(list, op) && op.value in Applied(list, op) && list[0] != op.value
    ensures forall v | v != list[0] && v != op.value :: v in Applied(list, op) <==> v in list
  {
    IndexOfMember(list, op.value);
    var longer := list + [op.value];
    assert |longer| == MAX_FOLLOWS + 1;
    assert longer[1..] == list[1..] + [op.value];
    assert list == [list[0]] + list[1..];
    assert list[0] !in list[1..];
  }

  /** A new value goes last, behind the old entries in their order; of these only the last `max - 1`
      stay when a bound is set. */
  lemma AddGoesLast(list: seq<string>, op: FollowOp)
    requires op.add
    ensures FollowUpdate(list, op).None? <==> op.value in list
    ensures op.value !in list ==>
              var r := FollowUpdate(list, op).value;
              var kept := if op.max > 0 && |list| >= op.max then op.max - 1 else |list|;
              && |r| == kept + 1 && r[kept] == op.value
              && forall i | 0 <= i < kept :: r[i] == list[|list| - kept + i]
  {
    IndexOfMember(list, op.value);
  }

  /** Removing cuts out the first occurrence and keeps the order of the rest. */
  lemma RemovalKeepsOrder(before: seq<string>, value: string, after: seq<string>, max: int)
    requires value !in before
    ensures FollowUpdate(before + [value] + after, FollowOp(value, false, max)) == Some(before + after)
    ensures FollowUpdate(before, FollowOp(value, false, max)) == None
  {
    var list := before + [value] + after;
    IndexOfMember(before, value);
    IndexIs(list, value, |before|);
    assert list[..|before|] == before && list[|before| + 1..] == after;
  }

  // ----- One list under concurrency

  const FOLLOWS := OptimisticUpdate.Service(FollowUpdate, [])

  lemma AffectedIs(list: seq<string>, e: OptimisticUpdate.Effect<FollowOp>)
    ensures OptimisticUpdate.Affected(FOLLOWS, list, e) == Applied(if e.blind then [] else list, e.op)
  {
  }

  lemma {:induction false} EffectsSound(start: seq<string>, es: seq<OptimisticUpdate.Effect<FollowOp>>)
    requires Sound(start) && forall o | o in OptimisticUpdate.OpsOf(es) :: o.max == MAX_FOLLOWS
    ensures Sound(OptimisticUpdate.AffectedBy(FOLLOWS, start, es))
  {
    if es != [] {
      var front, last := es[..|es| - 1], es[|es| - 1];
      EffectsSound(start, front);
      assert Sound([]);
      hide Sound, Applied;
      var v := OptimisticUpdate.AffectedBy(FOLLOWS, start, front);
      AffectedIs(v, last);
      assert last.op in OptimisticUpdate.OpsOf(es);
      AppliedSound(if last.blind then [] else v, last.op);
    }
  }

  /** On an existing or an absent list every run of any number of clients leaves the effects of the
      successful calls, without duplicates and within the bound; on an existing list this is the
      fold of the calls. */
  lemma FollowListSafe(cell: Option<OptimisticUpdate.Cell<seq<string>>>, clients: nat, steps: seq<OptimisticUpdate.Step<FollowOp>>)
    requires cell.Some? ==> Sound(cell.value.value)
    requires OptimisticUpdate.After(FOLLOWS, OptimisticUpdate.Initial(cell, clients), steps).Some?
    requires var s := OptimisticUpdate.After(FOLLOWS, OptimisticUpdate.Initial(cell, clients), steps).value;
             forall o | o in OptimisticUpdate.Ops(s.log) :: o.max == MAX_FOLLOWS
    ensures var s0 := OptimisticUpdate.Initial<seq<string>, FollowOp>(cell, clients);
            var s, list := OptimisticUpdate.After(FOLLOWS, s0, steps).value, OptimisticUpdate.Current(FOLLOWS, s0);
            && Sound(OptimisticUpdate.Current(FOLLOWS, s))
            && OptimisticUpdate.Current(FOLLOWS, s) == OptimisticUpdate.AffectedBy(FOLLOWS, list, OptimisticUpdate.Effects(FOLLOWS, s0, steps))
            && (cell.Some? ==> OptimisticUpdate.Current(FOLLOWS, s) == OptimisticUpdate.Fold(FOLLOWS, list, s.log))
  {
    assert Sound([]);
    hide Sound;
    var s0 := OptimisticUpdate.Initial<seq<string>, FollowOp>(cell, clients);
    OptimisticUpdate.RunIsEffects(FOLLOWS, cell, clients, steps);
    EffectsSound(OptimisticUpdate.Current(FOLLOWS, s0), OptimisticUpdate.Effects(FOLLOWS, s0, steps));
    if cell.Some? {
      OptimisticUpdate.NoLostUpdate(FOLLOWS, cell.value, clients, steps);
    }
  }

  function Values(ops: seq<FollowOp>): seq<string> {
    seq(|ops|, i requires 0 <= i < |ops| => ops[i].value)
  }

  /** The last entries of a list, as many as it may have. */
  function Newest(list: seq<string>): seq<string> {
    if |list| <= MAX_FOLLOWS then list else list[|list| - MAX_FOLLOWS..]
  }

  ghost predicate AllAdds(ops: seq<FollowOp>) {
    forall o | o in ops :: o.add && o.max == MAX_FOLLOWS
  }

  lemma AddToNewest(all: seq<string>, value: string)
    requires Distinct(all + [value])
    ensures Applied(Newest(all), FollowOp(value, true, MAX_FOLLOWS)) == Newest(all + [value])
  {
    var list := Newest(all);
    forall i | 0 <= i < |all|
      ensures all[i] != value
    {
      assert (all + [value])[i] != (all + [value])[|all|];
    }
    assert value !in list;
    AddGoesLast(list, FollowOp(value, true, MAX_FOLLOWS));
  }

  lemma NewestIsAll(list: seq<string>)
    requires |list| <= MAX_FOLLOWS
    ensures Newest(list) == list
  {
  }

  lemma DistinctFront(list: seq<string>, value: string)
    requires Distinct(list + [value])
    ensures Distinct(list)
  {
    assert forall i | 0 <= i < |list| :: (list + [value])[i] == list[i];
  }

  /** Distinct values that are added one after another stay in the order in which they were added, and
      when they are too many the newest of them stay. */
  lemma {:induction false} AddsKeepNewest(start: seq<string>, log: seq<OptimisticUpdate.Entry<FollowOp>>)
    requires AllAdds(OptimisticUpdate.Ops(log)) && Distinct(start + Values(OptimisticUpdate.Ops(log))) && |start| <= MAX_FOLLOWS
    ensures OptimisticUpdate.Fold(FOLLOWS, start, log) == Newest(start + Values(OptimisticUpdate.Ops(log)))
  {
    hide Newest, Distinct;
    if log == [] {
      assert start + Values([]) == start;
      NewestIsAll(start);
    } else {
      var front, last := log[..|log| - 1], log[|log| - 1];
      var ops := OptimisticUpdate.Ops(front);
      var all := start + Values(ops);
      assert OptimisticUpdate.Ops(log) == ops + [last.op];
      assert start + Values(ops + [last.op]) == all + [last.op.value];
      assert forall o | o in ops :: o in ops + [last.op];
      assert last.op in OptimisticUpdate.Ops(log);
      DistinctFront(all, last.op.value);
      AddsKeepNewest(start, front);
      AddToNewest(all, last.op.value);
      assert last.op == FollowOp(last.op.value, true, MAX_FOLLOWS);
    }
  }

  /** However the follows of any number of clients interleave on an existing list, the newest entries
      are left, in the order in which the calls took effect. */
  lemma FollowsKeepNewest(cell: OptimisticUpdate.Cell<seq<string>>, clients: nat, steps: seq<OptimisticUpdate.Step<FollowOp>>)
    requires OptimisticUpdate.After(FOLLOWS, OptimisticUpdate.Initial(Some(cell), clients), steps).Some?
    requires var ops := OptimisticUpdate.Ops(OptimisticUpdate.After(FOLLOWS, OptimisticUpdate.Initial(Some(cell), clients), steps).value.log);
             AllAdds(ops) && Distinct(cell.value + Values(ops)) && |cell.value| <= MAX_FOLLOWS
    ensures var s := OptimisticUpdate.After(FOLLOWS, OptimisticUpdate.Initial(Some(cell), clients), steps).value;
            OptimisticUpdate.Current(FOLLOWS, s) == Newest(cell.value + Values(OptimisticUpdate.Ops(s.log)))
  {
    hide Newest, AllAdds, Distinct, Values;
    OptimisticUpdate.NoLostUpdate(FOLLOWS, cell, clients, steps);
    AddsKeepNewest(cell.value, OptimisticUpdate.After(FOLLOWS, OptimisticUpdate.Initial(Some(cell), clients), steps).value.log);
  }

  // ----- Keys

  function FollowKey(user: string): string {
    user + "-followees"
  }

  function FollowerKey(user: string): string {
    user + "-followers"
  }

  lemma KeysApart(a: string, b: string)
    ensures FollowKey(a) != FollowerKey(b)
    ensures FollowKey(a) == FollowKey(b) ==> a == b
    ensures FollowerKey(a) == FollowerKey(b) ==> a == b
  {
    var x, y := FollowKey(a), FollowerKey(b);
    assert |"-followees"| == |"-followers"| == 10;
    assert x[|x| - 2] == 'e' && y[|y| - 2] == 'r';
    if FollowKey(a) == FollowKey(b) {
      assert a == FollowKey(a)[..|a|] && b == FollowKey(b)[..|b|];
    }
    if FollowerKey(a) == FollowerKey(b) {
      assert a == FollowerKey(a)[..|a|] && b == FollowerKey(b)[..|b|];
    }
  }

  // ----- The graph

  type Lists = map<string, seq<string>>

  function ListAt(lists: Lists, key: string): seq<string> {
    if key in lists then lists[key] else []
  }

  function Put(lists: Lists, key: string, op: FollowOp): Lists {
    match FollowUpdate(ListAt(lists, key), op) case None => lists case Some(l) => lists[key := l]
  }

  lemma PutIs(lists: Lists, key: string, op: FollowOp, k: string)
    ensures ListAt(Put(lists, key, op), k) == if k == key then Applied(ListAt(lists, key), op) else ListAt(lists, k)
  {
    hide FollowUpdate;
  }

  datatype Call = Call(user: string, other: string, add: bool)

  function Performed(lists: Lists, c: Call): Lists {
    Put(Put(lists, FollowKey(c.user), FollowOp(c.other, c.add, MAX_FOLLOWS)),
        FollowerKey(c.other), FollowOp(c.user, c.add, MAX_FOLLOWS))
  }

  ghost predicate Follows(lists: Lists, x: string, y: string) {
    y in ListAt(lists, FollowKey(x))
  }

  ghost predicate FollowedBy(lists: Lists, x: string, y: string) {
    x in ListAt(lists, FollowerKey(y))
  }

  /** Both directions of the graph agree. */
  ghost predicate Consistent(lists: Lists) {
    forall x, y :: Follows(lists, x, y) <==> FollowedBy(lists, x, y)
  }

  ghost predicate AllSound(lists: Lists) {
    forall k | k in lists :: Sound(lists[k])
  }

  /** A call trims one of its two lists. */
  predicate CallTrims(lists: Lists, c: Call) {
    || Trims(ListAt(lists, FollowKey(c.user)), FollowOp(c.other, c.add, MAX_FOLLOWS))
    || Trims(ListAt(lists, FollowerKey(c.other)), FollowOp(c.user, c.add, MAX_FOLLOWS))
  }

  lemma ListSound(lists: Lists, k: string)
    requires AllSound(lists)
    ensures Sound(ListAt(lists, k))
  {
  }

  lemma PutSound(lists: Lists, key: string, op: FollowOp)
    requires AllSound(lists) && op.max == MAX_FOLLOWS
    ensures AllSound(Put(lists, key, op))
  {
    hide Sound, FollowUpdate;
    ListSound(lists, key);
    AppliedSound(ListAt(lists, key), op);
  }

  lemma PerformedSound(lists: Lists, c: Call)
    requires AllSound(lists)
    ensures AllSound(Performed(lists, c))
  {
    hide AllSound, Put;
    PutSound(lists, FollowKey(c.user), FollowOp(c.other, c.add, MAX_FOLLOWS));
    PutSound(Put(lists, FollowKey(c.user), FollowOp(c.other, c.add, MAX_FOLLOWS)), FollowerKey(c.other), FollowOp(c.user, c.add, MAX_FOLLOWS));
  }

  // ----- The two halves of a call

  predicate About(c: Call, x: string, y: string) {
    c.user == x && c.other == y
  }

  /** The two updates of a call. An update is blind when it read no list and its save overwrites
      whatever is there by then. */
  datatype Half = First(c: Call, blind: bool) | Second(c: Call, blind: bool)

  function KeyOf(h: Half): string {
    match h case First(c, _) => FollowKey(c.user) case Second(c, _) => FollowerKey(c.other)
  }

  function OpOf(h: Half): FollowOp {
    match h case First(c, _) => FollowOp(c.other, c.add, MAX_FOLLOWS) case Second(c, _) => FollowOp(c.user, c.add, MAX_FOLLOWS)
  }

  /** What the update makes of the list it meets. */
  function Made(list: seq<string>, h: Half): seq<string> {
    Applied(if h.blind then [] else list, OpOf(h))
  }

  function HalfDone(lists: Lists, h: Half): Lists {
    if h.blind then lists[KeyOf(h) := Made(ListAt(lists, KeyOf(h)), h)] else Put(lists, KeyOf(h), OpOf(h))
  }

  lemma HalfDoneIs(lists: Lists, h: Half, k: string)
    ensures ListAt(HalfDone(lists, h), k) == if k == KeyOf(h) then Made(ListAt(lists, k), h) else ListAt(lists, k)
  {
    hide FollowUpdate, KeyOf, OpOf;
    if !h.blind {
      PutIs(lists, KeyOf(h), OpOf(h), k);
    }
  }

  lemma PerformedIsHalves(lists: Lists, c: Call)
    ensures Performed(lists, c) == HalfDone(HalfDone(lists, First(c, false)), Second(c, false))
  {
  }

  /** The first half leaves the list of the second alone. */
  lemma KeysMeet(lists: Lists, c: Call, blind: bool)
    ensures ListAt(HalfDone(lists, First(c, blind)), FollowerKey(c.other)) == ListAt(lists, FollowerKey(c.other))
  {
    hide HalfDone, ListAt;
    HalfDoneIs(lists, First(c, blind), FollowerKey(c.other));
    KeysApart(c.user, c.other);
  }

  /** The update drops an entry that is not its own. */
  ghost predicate Loses(list: seq<string>, h: Half) {
    exists v :: v in list && v != OpOf(h).value && v !in Made(list, h)
  }

  /** An update that saw the list loses something exactly when it trims; a blind one exactly when
      the list it overwrites holds anything but its own value. */
  lemma LosesIff(list: seq<string>, h: Half)
    requires Sound(list)
    ensures !h.blind ==> (Loses(list, h) <==> Trims(list, OpOf(h)))
    ensures h.blind ==> (Loses(list, h) <==> list != [] && list != [OpOf(h).value])
  {
    var op := OpOf(h);
    if h.blind {
      IndexOfMember([], op.value);
      assert Made(list, h) == if op.add then [op.value] else [];
      if list != [] && list != [op.value] {
        var v := if list[0] == op.value then list[1] else list[0];
        assert v in list && v !in Made(list, h);
      }
    } else if Trims(list, op) {
      TrimDropsOldest(list, op);
      assert list[0] in list;
    } else {
      forall v | v in list && v != op.value
        ensures v in Made(list, h)
      {
        AppliedMembers(list, op, v);
      }
    }
  }

  /** A blind save that adds its value does what one that saw the list would do exactly when it
      loses nothing. */
  lemma BlindKeepsIff(list: seq<string>, c: Call, second: bool)
    requires Sound(list) && c.add
    ensures var b := if second then Second(c, true) else First(c, true);
            Made(list, b) == Made(list, b.(blind := false)) <==> !Loses(list, b)
  {
    var b := if second then Second(c, true) else First(c, true);
    LosesIff(list, b);
    IndexOfMember([], OpOf(b).value);
    IndexOfMember(list, OpOf(b).value);
    if list != [] && list != [OpOf(b).value] && OpOf(b).value in list {
      assert |list| >= 2;
    }
  }

  lemma MadeSound(list: seq<string>, h: Half)
    requires Sound(list)
    ensures Sound(Made(list, h))
  {
    assert Sound([]);
    AppliedSound(if h.blind then [] else list, OpOf(h));
  }

  /** An update that loses nothing changes the membership of its own value alone. */
  lemma MadeMembers(list: seq<string>, h: Half, v: string)
    requires Sound(list) && !Loses(list, h)
    ensures v in Made(list, h) <==> if v == OpOf(h).value then h.c.add else v in list
  {
    LosesIff(list, h);
    if h.blind {
      IndexOfMember([], OpOf(h).value);
    } else {
      AppliedMembers(list, OpOf(h), v);
    }
  }

  lemma HalfSound(lists: Lists, h: Half)
    requires AllSound(lists)
    ensures AllSound(HalfDone(lists, h))
  {
    hide Sound, Made, KeyOf;
    ListSound(lists, KeyOf(h));
    MadeSound(ListAt(lists, KeyOf(h)), h);
    if !h.blind {
      PutSound(lists, KeyOf(h), OpOf(h));
    }
  }

  /** An update that loses nothing changes its own direction of its own pair alone. */
  lemma KeptHalf(lists: Lists, h: Half, x: string, y: string)
    requires AllSound(lists) && !Loses(ListAt(lists, KeyOf(h)), h)
    ensures var after := HalfDone(lists, h); var hit := About(h.c, x, y);
            && (Follows(after, x, y) <==> if h.First? && hit then h.c.add else Follows(lists, x, y))
            && (FollowedBy(after, x, y) <==> if h.Second? && hit then h.c.add else FollowedBy(lists, x, y))
  {
    hide Made, FollowKey, FollowerKey, ListAt, Loses, Sound, HalfDone, AllSound;
    var c := h.c;
    HalfDoneIs(lists, h, FollowKey(x));
    HalfDoneIs(lists, h, FollowerKey(y));
    KeysApart(x, c.user);
    KeysApart(c.user, y);
    KeysApart(x, c.other);
    KeysApart(y, c.other);
    ListSound(lists, KeyOf(h));
    MadeMembers(ListAt(lists, KeyOf(h)), h, if h.First? then y else x);
  }

  lemma TrimmingLoses(lists: Lists, c: Call)
    requires AllSound(lists)
    ensures CallTrims(lists, c) <==>
              Loses(ListAt(lists, FollowKey(c.user)), First(c, false)) || Loses(ListAt(lists, FollowerKey(c.other)), Second(c, false))
  {
    hide Loses, Trims, ListAt, AllSound;
    ListSound(lists, FollowKey(c.user));
    ListSound(lists, FollowerKey(c.other));
    LosesIff(ListAt(lists, FollowKey(c.user)), First(c, false));
    LosesIff(ListAt(lists, FollowerKey(c.other)), Second(c, false));
  }

  lemma UntrimmedPair(lists: Lists, c: Call, x: string, y: string)
    requires AllSound(lists) && !CallTrims(lists, c)
    ensures var hit := About(c, x, y);
            && (Follows(Performed(lists, c), x, y) <==> if hit then c.add else Follows(lists, x, y))
            && (FollowedBy(Performed(lists, c), x, y) <==> if hit then c.add else FollowedBy(lists, x, y))
  {
    PerformedIsHalves(lists, c);
    TrimmingLoses(lists, c);
    hide HalfDone, Performed, AllSound, Follows, FollowedBy, CallTrims, About, KeyOf, Loses;
    var half := HalfDone(lists, First(c, false));
    KeysMeet(lists, c, false);
    HalfSound(lists, First(c, false));
    KeptHalf(lists, First(c, false), x, y);
    KeptHalf(half, Second(c, false), x, y);
  }

  /** A completed call keeps the two directions in step exactly when neither of its updates loses
      anything, be it by a trim or by overwriting a list that was not there when it was read. */
  lemma ConsistentIffNothingLost(lists: Lists, c: Call, blind: bool, blind': bool)
    requires AllSound(lists) && Consistent(lists)
    ensures Consistent(HalfDone(HalfDone(lists, First(c, blind)), Second(c, blind'))) <==>
              !Loses(ListAt(lists, FollowKey(c.user)), First(c, blind)) && !Loses(ListAt(lists, FollowerKey(c.other)), Second(c, blind'))
  {
    hide HalfDone, AllSound, Follows, FollowedBy, Loses, FollowKey, FollowerKey, ListAt;
    var half := HalfDone(lists, First(c, blind));
    var end := HalfDone(half, Second(c, blind'));
    KeysMeet(lists, c, blind);
    if Loses(ListAt(lists, FollowKey(c.user)), First(c, blind)) {
      LossBreaksFollowees(lists, c, blind, blind');
    } else if Loses(ListAt(lists, FollowerKey(c.other)), Second(c, blind')) {
      LossBreaksFollowers(lists, c, blind, blind');
    } else {
      HalfSound(lists, First(c, blind));
      forall x, y
        ensures Follows(end, x, y) <==> FollowedBy(end, x, y)
      {
        KeptHalf(lists, First(c, blind), x, y);
        KeptHalf(half, Second(c, blind'), x, y);
      }
    }
  }

  lemma LossBreaksFollowees(lists: Lists, c: Call, blind: bool, blind': bool)
    requires Consistent(lists) && Loses(ListAt(lists, FollowKey(c.user)), First(c, blind))
    ensures !Consistent(HalfDone(HalfDone(lists, First(c, blind)), Second(c, blind')))
  {
    hide HalfDone, FollowKey, FollowerKey, ListAt, Made;
    var half := HalfDone(lists, First(c, blind));
    var end := HalfDone(half, Second(c, blind'));
    var list := ListAt(lists, FollowKey(c.user));
    var z :| z in list && z != c.other && z !in Made(list, First(c, blind));
    assert Follows(lists, c.user, z) && FollowedBy(lists, c.user, z);
    KeysApart(c.user, c.other);
    KeysApart(c.user, z);
    KeysApart(c.other, z);
    HalfDoneIs(lists, First(c, blind), FollowKey(c.user));
    HalfDoneIs(half, Second(c, blind'), FollowKey(c.user));
    HalfDoneIs(lists, First(c, blind), FollowerKey(z));
    HalfDoneIs(half, Second(c, blind'), FollowerKey(z));
    assert !Follows(end, c.user, z) && FollowedBy(end, c.user, z);
  }

  lemma LossBreaksFollowers(lists: Lists, c: Call, blind: bool, blind': bool)
    requires Consistent(lists) && Loses(ListAt(lists, FollowerKey(c.other)), Second(c, blind'))
    ensures !Consistent(HalfDone(HalfDone(lists, First(c, blind)), Second(c, blind')))
  {
    hide HalfDone, FollowKey, FollowerKey, ListAt, Made;
    var half := HalfDone(lists, First(c, blind));
    var end := HalfDone(half, Second(c, blind'));
    var list := ListAt(lists, FollowerKey(c.other));
    var w :| w in list && w != c.user && w !in Made(list, Second(c, blind'));
    assert FollowedBy(lists, w, c.other) && Follows(lists, w, c.other);
    KeysApart(c.user, c.other);
    KeysApart(w, c.other);
    KeysApart(w, c.user);
    KeysMeet(lists, c, blind);
    HalfDoneIs(half, Second(c, blind'), FollowerKey(c.other));
    HalfDoneIs(lists, First(c, blind), FollowKey(w));
    HalfDoneIs(half, Second(c, blind'), FollowKey(w));
    assert Follows(end, w, c.other) && !FollowedBy(end, w, c.other);
  }

  /** Completed calls one after another read what is there, so that only a trim loses anything. */
  lemma ConsistentIffUntrimmed(lists: Lists, c: Call)
    requires AllSound(lists) && Consistent(lists)
    ensures Consistent(Performed(lists, c)) <==> !CallTrims(lists, c)
  {
    hide Performed, AllSound, Consistent, CallTrims, Loses;
    PerformedIsHalves(lists, c);
    TrimmingLoses(lists, c);
    ConsistentIffNothingLost(lists, c, false, false);
  }

  lemma ChangedMember(list: seq<string>, op: FollowOp)
    requires Sound(list) && op.max == MAX_FOLLOWS && FollowUpdate(list, op).Some?
    ensures op.value in Applied(list, op) <==> op.value !in list
  {
    IndexOfMember(list, op.value);
    if Trims(list, op) {
      TrimDropsOldest(list, op);
    } else {
      AppliedMembers(list, op, op.value);
    }
  }

  /** A call that stops between its two lists leaves the graph inconsistent exactly when its first
      half changed anything. */
  lemma HalfIsInconsistent(lists: Lists, c: Call)
    requires AllSound(lists) && Consistent(lists)
    ensures var op := FollowOp(c.other, c.add, MAX_FOLLOWS);
            Consistent(Put(lists, FollowKey(c.user), op)) <==> FollowUpdate(ListAt(lists, FollowKey(c.user)), op).None?
  {
    hide Sound, AllSound, FollowKey, FollowerKey, FollowUpdate, ListAt, Applied;
    var op := FollowOp(c.other, c.add, MAX_FOLLOWS);
    var half := Put(lists, FollowKey(c.user), op);
    if FollowUpdate(ListAt(lists, FollowKey(c.user)), op).Some? {
      ListSound(lists, FollowKey(c.user));
      ChangedMember(ListAt(lists, FollowKey(c.user)), op);
      KeysApart(c.user, c.other);
      PutIs(lists, FollowKey(c.user), op, FollowKey(c.user));
      PutIs(lists, FollowKey(c.user), op, FollowerKey(c.other));
      assert Follows(lists, c.user, c.other) <==> FollowedBy(lists, c.user, c.other);
      assert Follows(half, c.user, c.other) <==> !FollowedBy(half, c.user, c.other);
    }
  }

  function AfterCalls(calls: seq<Call>): Lists {
    if calls == [] then map[] else Performed(AfterCalls(calls[..|calls| - 1]), calls[|calls| - 1])
  }

  /** No call of the sequence trims a list. */
  ghost predicate NeverTrims(calls: seq<Call>) {
    forall i | 0 <= i < |calls| :: !CallTrims(AfterCalls(calls[..i]), calls[i])
  }

  /** Who follows whom is what the last call about the pair said. */
  function LastWord(calls: seq<Call>, x: string, y: string): bool {
    if calls == [] then false
    else
      var last := calls[|calls| - 1];
      if last.user == x && last.other == y then last.add else LastWord(calls[..|calls| - 1], x, y)
  }

  lemma NeverTrimsFront(calls: seq<Call>)
    requires calls != [] && NeverTrims(calls)
    ensures NeverTrims(calls[..|calls| - 1]) && !CallTrims(AfterCalls(calls[..|calls| - 1]), calls[|calls| - 1])
  {
    hide CallTrims, AfterCalls;
    var front := calls[..|calls| - 1];
    assert forall i | 0 <= i < |front| :: front[..i] == calls[..i] && front[i] == calls[i];
  }

  /** After any sequence of completed calls that never trims, each direction of the graph says
      exactly what the last call about each pair said; all lists stay duplicate-free and bounded. */
  lemma {:induction false} GraphIsLastWord(calls: seq<Call>, x: string, y: string)
    requires NeverTrims(calls)
    ensures var lists := AfterCalls(calls);
            && AllSound(lists)
            && (Follows(lists, x, y) <==> LastWord(calls, x, y))
            && (FollowedBy(lists, x, y) <==> LastWord(calls, x, y))
  {
    if calls != [] {
      hide CallTrims, Follows, FollowedBy, AllSound, NeverTrims, Performed;
      var front, last := calls[..|calls| - 1], calls[|calls| - 1];
      NeverTrimsFront(calls);
      GraphIsLastWord(front, x, y);
      UntrimmedPair(AfterCalls(front), last, x, y);
      PerformedSound(AfterCalls(front), last);
    }
  }

  // ----- Calls that overlap

  /** The lists after some updates of any calls took effect in this order. */
  function HalvesFrom(start: Lists, hs: seq<Half>): Lists {
    if hs == [] then start else HalfDone(HalvesFrom(start, hs[..|hs| - 1]), hs[|hs| - 1])
  }

  /** No update of the run drops an entry that is not its own. */
  ghost predicate NothingLost(start: Lists, hs: seq<Half>) {
    forall i | 0 <= i < |hs| :: !Loses(ListAt(HalvesFrom(start, hs[..i]), KeyOf(hs[i])), hs[i])
  }

  /** What the last update of the followees said about the pair, or else the start. */
  ghost predicate LastFirst(start: Lists, hs: seq<Half>, x: string, y: string) {
    if hs == [] then Follows(start, x, y)
    else if hs[|hs| - 1].First? && About(hs[|hs| - 1].c, x, y) then hs[|hs| - 1].c.add
    else LastFirst(start, hs[..|hs| - 1], x, y)
  }

  /** What the last update of the followers said about the pair, or else the start. */
  ghost predicate LastSecond(start: Lists, hs: seq<Half>, x: string, y: string) {
    if hs == [] then FollowedBy(start, x, y)
    else if hs[|hs| - 1].Second? && About(hs[|hs| - 1].c, x, y) then hs[|hs| - 1].c.add
    else LastSecond(start, hs[..|hs| - 1], x, y)
  }

  ghost predicate SameLastWords(start: Lists, hs: seq<Half>) {
    forall x, y :: LastFirst(start, hs, x, y) <==> LastSecond(start, hs, x, y)
  }

  lemma NothingLostFront(start: Lists, hs: seq<Half>)
    requires hs != [] && NothingLost(start, hs)
    ensures NothingLost(start, hs[..|hs| - 1])
    ensures !Loses(ListAt(HalvesFrom(start, hs[..|hs| - 1]), KeyOf(hs[|hs| - 1])), hs[|hs| - 1])
  {
    hide Loses, HalvesFrom, KeyOf, ListAt;
    var front := hs[..|hs| - 1];
    assert forall i | 0 <= i < |front| :: front[..i] == hs[..i] && front[i] == hs[i];
  }

  /** Over every interleaving of the updates of any calls, as long as none of them loses anything,
      each direction of the graph says what its own last update about the pair said. */
  lemma {:induction false} EachDirectionHasItsLastWord(start: Lists, hs: seq<Half>, x: string, y: string)
    requires AllSound(start) && NothingLost(start, hs)
    ensures var lists := HalvesFrom(start, hs);
            && AllSound(lists)
            && (Follows(lists, x, y) <==> LastFirst(start, hs, x, y))
            && (FollowedBy(lists, x, y) <==> LastSecond(start, hs, x, y))
  {
    if hs != [] {
      hide Loses, Follows, FollowedBy, AllSound, NothingLost, HalfDone, KeyOf, About;
      var front, last := hs[..|hs| - 1], hs[|hs| - 1];
      NothingLostFront(start, hs);
      EachDirectionHasItsLastWord(start, front, x, y);
      KeptHalf(HalvesFrom(start, front), last, x, y);
      HalfSound(HalvesFrom(start, front), last);
    }
  }

  /** So the directions agree exactly when the last updates about every pair said the same. */
  lemma ConsistentIffSameLastWords(start: Lists, hs: seq<Half>)
    requires AllSound(start) && NothingLost(start, hs)
    ensures Consistent(HalvesFrom(start, hs)) <==> SameLastWords(start, hs)
  {
    hide NothingLost, HalvesFrom, Follows, FollowedBy, AllSound, LastFirst, LastSecond;
    forall x, y
      ensures Follows(HalvesFrom(start, hs), x, y) <==> LastFirst(start, hs, x, y)
      ensures FollowedBy(HalvesFrom(start, hs), x, y) <==> LastSecond(start, hs, x, y)
    {
      EachDirectionHasItsLastWord(start, hs, x, y);
    }
    if Consistent(HalvesFrom(start, hs)) {
      forall x, y
        ensures LastFirst(start, hs, x, y) <==> LastSecond(start, hs, x, y)
      {
        assert Follows(HalvesFrom(start, hs), x, y) <==> FollowedBy(HalvesFrom(start, hs), x, y);
      }
    }
  }

  /** The calls whose first update has taken effect and whose second has not; None when a second
      update has no first. */
  function Open(hs: seq<Half>): Option<multiset<Call>> {
    if hs == [] then Some(multiset{})
    else
      match Open(hs[..|hs| - 1])
      case None => None
      case Some(open) =>
        match hs[|hs| - 1]
        case First(c, _) => Some(open + multiset{c})
        case Second(c, _) => if c in open then Some(open - multiset{c}) else None
  }

  /** No call starts while another call about the same pair is open. */
  ghost predicate PairsApart(hs: seq<Half>) {
    forall i | 0 <= i < |hs| && hs[i].First? && Open(hs[..i]).Some? ::
      forall d | d in Open(hs[..i]).value :: !About(d, hs[i].c.user, hs[i].c.other)
  }

  lemma PairsApartFront(hs: seq<Half>)
    requires hs != [] && PairsApart(hs)
    ensures PairsApart(hs[..|hs| - 1])
    ensures var last := hs[|hs| - 1]; var open := Open(hs[..|hs| - 1]);
            last.First? && open.Some? ==> forall d | d in open.value :: !About(d, last.c.user, last.c.other)
  {
    hide Open, About;
    var front := hs[..|hs| - 1];
    assert forall i | 0 <= i < |front| :: front[..i] == hs[..i] && front[i] == hs[i];
  }

  /** Only pairs with an open call can be out of step, and then the first update has been made. */
  lemma {:induction false} OnlyOpenPairsDiffer(start: Lists, hs: seq<Half>, x: string, y: string)
    requires Consistent(start) && PairsApart(hs) && Open(hs).Some?
    ensures forall c | c in Open(hs).value && About(c, x, y) ::
              Open(hs).value[c] == 1 && (LastFirst(start, hs, x, y) <==> c.add)
    ensures forall c, d | c in Open(hs).value && d in Open(hs).value && About(c, x, y) && About(d, x, y) :: c == d
    ensures (forall c | c in Open(hs).value :: !About(c, x, y)) ==>
              (LastFirst(start, hs, x, y) <==> LastSecond(start, hs, x, y))
  {
    hide Follows, FollowedBy;
    if hs != [] {
      hide PairsApart, Consistent;
      var front, last := hs[..|hs| - 1], hs[|hs| - 1];
      PairsApartFront(hs);
      OnlyOpenPairsDiffer(start, front, x, y);
    }
  }

  /** When calls about the same pair never overlap and no update loses anything, the directions agree
      as soon as all calls are done, however the calls about other pairs interleave. */
  lemma ApartIsConsistent(start: Lists, hs: seq<Half>)
    requires AllSound(start) && Consistent(start) && NothingLost(start, hs)
    requires PairsApart(hs) && Open(hs) == Some(multiset{})
    ensures Consistent(HalvesFrom(start, hs))
  {
    hide AllSound, NothingLost, PairsApart, Open, HalvesFrom, Consistent, LastFirst, LastSecond;
    forall x, y
      ensures LastFirst(start, hs, x, y) <==> LastSecond(start, hs, x, y)
    {
      OnlyOpenPairsDiffer(start, hs, x, y);
    }
    ConsistentIffSameLastWords(start, hs);
  }

  // ----- The store behind the halves

  function EffectOf(h: Half): OptimisticUpdate.Effect<FollowOp> {
    OptimisticUpdate.Effect(OpOf(h), h.blind)
  }

  /** The updates of one list, in order. */
  function EffectsOn(hs: seq<Half>, key: string): seq<OptimisticUpdate.Effect<FollowOp>> {
    if hs == [] then []
    else
      var front, last := EffectsOn(hs[..|hs| - 1], key), hs[|hs| - 1];
      if KeyOf(last) == key then front + [EffectOf(last)] else front
  }

  lemma {:induction false} HalvesAt(start: Lists, hs: seq<Half>, key: string)
    ensures ListAt(HalvesFrom(start, hs), key) == OptimisticUpdate.AffectedBy(FOLLOWS, ListAt(start, key), EffectsOn(hs, key))
  {
    if hs != [] {
      hide HalfDone, ListAt, KeyOf, Applied, OptimisticUpdate.Affected;
      var front, last := hs[..|hs| - 1], hs[|hs| - 1];
      HalvesAt(start, front, key);
      HalfDoneIs(HalvesFrom(start, front), last, key);
      OptimisticUpdate.AffectedLast(FOLLOWS, ListAt(start, key), EffectsOn(front, key), EffectOf(last));
      AffectedIs(ListAt(HalvesFrom(start, front), key), EffectOf(last));
    }
  }

  /** What the clients of one key did, on a cell that is there or not. */
  datatype Run = Run(cell: Option<OptimisticUpdate.Cell<seq<string>>>, clients: nat, steps: seq<OptimisticUpdate.Step<FollowOp>>)

  /** The run of a key starts at its list, takes effect as the updates of the key do, and leaves its list. */
  ghost predicate RunsAs(start: Lists, hs: seq<Half>, key: string, r: Run, end: Lists) {
    var s0 := OptimisticUpdate.Initial<seq<string>, FollowOp>(r.cell, r.clients);
    && ListAt(start, key) == OptimisticUpdate.Current(FOLLOWS, s0)
    && OptimisticUpdate.After(FOLLOWS, s0, r.steps).Some?
    && OptimisticUpdate.Effects(FOLLOWS, s0, r.steps) == EffectsOn(hs, key)
    && ListAt(end, key) == OptimisticUpdate.Current(FOLLOWS, OptimisticUpdate.After(FOLLOWS, s0, r.steps).value)
  }

  /** A store whose clients interleave step by step on every key ends as the updates say that took
      effect; and on a key that was there no update is blind. */
  lemma StoreEndsAsHalves(start: Lists, hs: seq<Half>, key: string, r: Run, end: Lists)
    requires RunsAs(start, hs, key, r, end)
    ensures ListAt(end, key) == ListAt(HalvesFrom(start, hs), key)
    ensures r.cell.Some? ==> forall h | h in hs && KeyOf(h) == key :: !h.blind
  {
    hide ListAt, HalvesFrom;
    var s0 := OptimisticUpdate.Initial<seq<string>, FollowOp>(r.cell, r.clients);
    OptimisticUpdate.RunIsEffects(FOLLOWS, r.cell, r.clients, r.steps);
    HalvesAt(start, hs, key);
    if r.cell.Some? {
      OptimisticUpdate.PresentSeesAll(FOLLOWS, s0, r.steps);
      forall h | h in hs && KeyOf(h) == key
        ensures !h.blind
      {
        EffectIsListed(hs, h);
      }
    }
  }

  lemma {:induction false} EffectIsListed(hs: seq<Half>, h: Half)
    requires h in hs
    ensures EffectOf(h) in EffectsOn(hs, KeyOf(h))
  {
    hide KeyOf;
    if h != hs[|hs| - 1] {
      EffectIsListed(hs[..|hs| - 1], h);
    }
  }

  /** The graph in the store, over every interleaving of the steps of any calls: as long as no update
      loses anything, each direction says what its own last update about the pair said. */
  lemma StoreHasLastWords(start: Lists, hs: seq<Half>, runs: string -> Run, end: Lists, x: string, y: string)
    requires forall key :: RunsAs(start, hs, key, runs(key), end)
    requires AllSound(start) && NothingLost(start, hs)
    ensures (Follows(end, x, y) <==> LastFirst(start, hs, x, y)) && (FollowedBy(end, x, y) <==> LastSecond(start, hs, x, y))
  {
    hide RunsAs, AllSound, NothingLost, HalvesFrom, ListAt, LastFirst, LastSecond;
    EachDirectionHasItsLastWord(start, hs, x, y);
    StoreEndsAsHalves(start, hs, FollowKey(x), runs(FollowKey(x)), end);
    StoreEndsAsHalves(start, hs, FollowerKey(y), runs(FollowerKey(y)), end);
  }

  /** And when calls about the same pair never overlap, it is consistent once all calls are done. */
  lemma StoreIsConsistent(start: Lists, hs: seq<Half>, runs: string -> Run, end: Lists)
    requires forall key :: RunsAs(start, hs, key, runs(key), end)
    requires AllSound(start) && Consistent(start) && NothingLost(start, hs)
    requires PairsApart(hs) && Open(hs) == Some(multiset{})
    ensures Consistent(end)
  {
    hide RunsAs, AllSound, NothingLost, PairsApart, Open, HalvesFrom, LastFirst, LastSecond, Follows, FollowedBy;
    forall x, y
      ensures Follows(end, x, y) <==> FollowedBy(end, x, y)
    {
      StoreHasLastWords(start, hs, runs, end, x, y);
      OnlyOpenPairsDiffer(start, hs, x, y);
    }
  }

  /** One step of one client on one key. */
  datatype StoreStep = StoreStep(key: string, step: OptimisticUpdate.Step<FollowOp>)

  /** What the steps of the store are for one key. */
  function OnKey(ss: seq<StoreStep>, key: string): seq<OptimisticUpdate.Step<FollowOp>> {
    if ss == [] then []
    else
      var front, last := OnKey(ss[..|ss| - 1], key), ss[|ss| - 1];
      if last.key == key then front + [last.step] else front
  }

  type Cells = string -> Option<OptimisticUpdate.Cell<seq<string>>>

  function KeyState(cells: Cells, clients: nat, ss: seq<StoreStep>, key: string): Option<OptimisticUpdate.State<seq<string>, FollowOp>> {
    OptimisticUpdate.After(FOLLOWS, OptimisticUpdate.Initial(cells(key), clients), OnKey(ss, key))
  }

  /** What the last step of a run makes take effect. */
  function LastEffects(cells: Cells, clients: nat, ss: seq<StoreStep>): seq<OptimisticUpdate.Effect<FollowOp>>
    requires ss != []
  {
    match KeyState(cells, clients, ss[..|ss| - 1], ss[|ss| - 1].key)
    case None => []
    case Some(t) => OptimisticUpdate.StepEffects(FOLLOWS, t, ss[|ss| - 1].step)
  }

  /** The halves in the order in which the steps of the store make them take effect; `labels` names
      the half that each step may end. */
  function HalvesOf(cells: Cells, clients: nat, ss: seq<StoreStep>, labels: seq<Half>): seq<Half>
    requires |labels| == |ss|
  {
    if ss == [] then []
    else
      var front := HalvesOf(cells, clients, ss[..|ss| - 1], labels[..|ss| - 1]);
      if LastEffects(cells, clients, ss) == [] then front else front + [labels[|ss| - 1]]
  }

  /** A step that ends an update carries the half it is of. */
  ghost predicate Labelled(cells: Cells, clients: nat, ss: seq<StoreStep>, labels: seq<Half>)
    requires |labels| == |ss|
  {
    ss == []
    || (Labelled(cells, clients, ss[..|ss| - 1], labels[..|ss| - 1])
        && forall e | e in LastEffects(cells, clients, ss) :: KeyOf(labels[|ss| - 1]) == ss[|ss| - 1].key && EffectOf(labels[|ss| - 1]) == e)
  }

  lemma LabelledLast(cells: Cells, clients: nat, ss: seq<StoreStep>, labels: seq<Half>)
    requires ss != [] && |labels| == |ss| && Labelled(cells, clients, ss, labels)
    ensures var n := |ss| - 1; var es := LastEffects(cells, clients, ss);
            && Labelled(cells, clients, ss[..n], labels[..n])
            && (forall e | e in es :: KeyOf(labels[n]) == ss[n].key && EffectOf(labels[n]) == e)
            && HalvesOf(cells, clients, ss, labels)
               == HalvesOf(cells, clients, ss[..n], labels[..n]) + if es == [] then [] else [labels[n]]
  {
    hide KeyOf, EffectOf, LastEffects;
  }

  lemma EffectsOnLast(hs: seq<Half>, h: Half, key: string)
    ensures EffectsOn(hs + [h], key) == EffectsOn(hs, key) + if KeyOf(h) == key then [EffectOf(h)] else []
  {
    hide KeyOf, EffectOf;
    assert (hs + [h])[..|hs|] == hs;
  }

  /** The last step of the store, as its own key and every other key see it. */
  lemma KeyLast(cells: Cells, clients: nat, ss: seq<StoreStep>, key: string)
    requires ss != [] && KeyState(cells, clients, ss, key).Some?
    ensures var n, s0 := |ss| - 1, OptimisticUpdate.Initial<seq<string>, FollowOp>(cells(key), clients);
            && KeyState(cells, clients, ss[..n], key).Some?
            && OptimisticUpdate.Effects(FOLLOWS, s0, OnKey(ss, key))
               == OptimisticUpdate.Effects(FOLLOWS, s0, OnKey(ss[..n], key))
                  + (if ss[n].key == key then LastEffects(cells, clients, ss) else [])
            && (ss[n].key == key ==> |LastEffects(cells, clients, ss)| <= 1)
  {
    hide OptimisticUpdate.StepEffects, OptimisticUpdate.Do, OptimisticUpdate.Effects, OptimisticUpdate.After, OptimisticUpdate.Initial;
    var n, s0 := |ss| - 1, OptimisticUpdate.Initial<seq<string>, FollowOp>(cells(key), clients);
    var front, last := OnKey(ss[..n], key), ss[n];
    if last.key == key {
      assert (front + [last.step])[..|front|] == front;
      OptimisticUpdate.LastStep(FOLLOWS, s0, OnKey(ss, key));
      OptimisticUpdate.AtMostOne(FOLLOWS, KeyState(cells, clients, ss[..n], key).value, last.step);
    }
  }

  lemma {:induction false} HalvesOfKey(cells: Cells, clients: nat, ss: seq<StoreStep>, labels: seq<Half>, key: string)
    requires |labels| == |ss| && Labelled(cells, clients, ss, labels) && KeyState(cells, clients, ss, key).Some?
    ensures EffectsOn(HalvesOf(cells, clients, ss, labels), key)
            == OptimisticUpdate.Effects(FOLLOWS, OptimisticUpdate.Initial(cells(key), clients), OnKey(ss, key))
  {
    if ss == [] {
      hide KeyOf, EffectOf;
    } else {
      hide *;
      var n := |ss| - 1;
      var front, mark, es := ss[..n], labels[n], LastEffects(cells, clients, ss);
      LabelledLast(cells, clients, ss, labels);
      KeyLast(cells, clients, ss, key);
      HalvesOfKey(cells, clients, front, labels[..n], key);
      EffectsOnLast(HalvesOf(cells, clients, front, labels[..n]), mark, key);
      if es != [] {
        assert es[0] in es;
        assert ss[n].key == key ==> es == [EffectOf(mark)];
      }
    }
  }

  /** Every run of the steps of a store, of any clients on any keys in any order, is a run of halves: key
      by key it starts at the lists of the start, takes effect as the halves do and leaves the end. */
  lemma StoreRunIsHalves(cells: Cells, clients: nat, ss: seq<StoreStep>, labels: seq<Half>, start: Lists, end: Lists)
    requires |labels| == |ss| && Labelled(cells, clients, ss, labels)
    requires forall key :: KeyState(cells, clients, ss, key).Some?
    requires forall key ::
               && ListAt(start, key) == OptimisticUpdate.Current(FOLLOWS, OptimisticUpdate.Initial(cells(key), clients))
               && ListAt(end, key) == OptimisticUpdate.Current(FOLLOWS, KeyState(cells, clients, ss, key).value)
    ensures forall key :: RunsAs(start, HalvesOf(cells, clients, ss, labels), key, Run(cells(key), clients, OnKey(ss, key)), end)
  {
    hide HalvesOf, Labelled, EffectsOn, ListAt, OptimisticUpdate.Current, OptimisticUpdate.Effects, OptimisticUpdate.After, OnKey;
    forall key
      ensures RunsAs(start, HalvesOf(cells, clients, ss, labels), key, Run(cells(key), clients, OnKey(ss, key)), end)
    {
      assert KeyState(cells, clients, ss, key).Some?;
      HalvesOfKey(cells, clients, ss, labels, key);
    }
  }

  // ----- What overlapping calls can break

  /** A call that follows and a call that unfollows, the second inside the first, on an empty store. */
  function Overlap(x: string, y: string): seq<Half> {
    var follow, unfollow := Call(x, y, true), Call(x, y, false);
    [First(follow, true), First(unfollow, false), Second(unfollow, false), Second(follow, true)]
  }

  lemma OverlapIsDone(x: string, y: string)
    ensures Open(Overlap(x, y)) == Some(multiset{})
    ensures !LastFirst(map[], Overlap(x, y), x, y) && LastSecond(map[], Overlap(x, y), x, y)
  {
    hide Follows, FollowedBy;
    var follow, unfollow := Call(x, y, true), Call(x, y, false);
    var hs := Overlap(x, y);
    var h1 := [First(follow, true)];
    var h2 := [First(follow, true), First(unfollow, false)];
    var h3 := [First(follow, true), First(unfollow, false), Second(unfollow, false)];
    assert h1[..0] == [] && h2[..1] == h1 && h3[..2] == h2 && hs[..3] == h3;
    assert multiset{} + multiset{follow} == multiset{follow};
    assert Open(h1) == Some(multiset{follow});
    assert multiset{follow} + multiset{unfollow} == multiset{follow, unfollow};
    assert Open(h2) == Some(multiset{follow, unfollow});
    assert multiset{follow, unfollow} - multiset{unfollow} == multiset{follow};
    assert Open(h3) == Some(multiset{follow});
    assert multiset{follow} - multiset{follow} == multiset{};
    hide Open;
    assert !LastFirst(map[], h2, x, y) && !LastFirst(map[], h3, x, y);
  }

  /** The lists the overlap meets: each empty but the one the unfollow takes its value out of. */
  lemma OverlapMeets(x: string, y: string)
    ensures var hs := Overlap(x, y);
            && ListAt(HalvesFrom(map[], hs[..0]), FollowKey(x)) == []
            && ListAt(HalvesFrom(map[], hs[..1]), FollowKey(x)) == [y]
            && ListAt(HalvesFrom(map[], hs[..2]), FollowerKey(y)) == []
            && ListAt(HalvesFrom(map[], hs[..3]), FollowerKey(y)) == []
  {
    var hs := Overlap(x, y);
    KeysApart(x, y);
    hide FollowKey, FollowerKey;
    assert hs[..1][..0] == hs[..0] == [] && hs[..2][..1] == hs[..1] && hs[..3][..2] == hs[..2];
    var l1, l2 := HalvesFrom(map[], hs[..1]), HalvesFrom(map[], hs[..2]);
    assert Applied([], FollowOp(y, true, MAX_FOLLOWS)) == [y];
    assert Applied([], FollowOp(x, false, MAX_FOLLOWS)) == [];
    HalfDoneIs(map[], hs[0], FollowKey(x));
    HalfDoneIs(map[], hs[0], FollowerKey(y));
    HalfDoneIs(l1, hs[1], FollowerKey(y));
    HalfDoneIs(l2, hs[2], FollowerKey(y));
  }

  /** Overlapping calls about one pair can both succeed, lose nothing and yet leave it out of step:
      the followees say what the call that started last said, the followers what the call that ended
      last said. */
  lemma OverlapBreaksAgreement(x: string, y: string)
    ensures Open(Overlap(x, y)) == Some(multiset{}) && NothingLost(map[], Overlap(x, y))
    ensures !Follows(HalvesFrom(map[], Overlap(x, y)), x, y) && FollowedBy(HalvesFrom(map[], Overlap(x, y)), x, y)
  {
    var hs := Overlap(x, y);
    OverlapMeets(x, y);
    hide HalvesFrom, Follows, FollowedBy, Open, LastFirst, LastSecond, ListAt, Loses, FollowKey, FollowerKey;
    OverlapIsDone(x, y);
    LosesIff([], hs[0]);
    LosesIff([y], hs[1]);
    LosesIff([], hs[2]);
    LosesIff([], hs[3]);
    assert |hs| == 4;
    EachDirectionHasItsLastWord(map[], hs, x, y);
  }

  /** Two first follows of one user: both calls read no list of followees, and both save. */
  function FirstFollows(x: string, a: string, b: string): seq<Half> {
    var first, second := Call(x, a, true), Call(x, b, true);
    [First(first, true), First(second, true), Second(first, true), Second(second, true)]
  }

  /** The steps behind it: a race on the followees, one save on each list of followers. */
  function FirstFollowsRun(x: string, a: string, b: string): string -> Run {
    key =>
      if key == FollowKey(x) then
        Run(None, 2, OptimisticUpdate.RaceSteps(FollowOp(a, true, MAX_FOLLOWS), FollowOp(b, true, MAX_FOLLOWS)))
      else if key == FollowerKey(a) || key == FollowerKey(b) then
        Run(None, 1, OptimisticUpdate.SaveSteps(FollowOp(x, true, MAX_FOLLOWS)))
      else Run(None, 0, [])
  }

  lemma FirstFollowsApart(x: string, a: string, b: string)
    requires a != b
    ensures PairsApart(FirstFollows(x, a, b)) && Open(FirstFollows(x, a, b)) == Some(multiset{})
  {
    var first, second := Call(x, a, true), Call(x, b, true);
    var hs := FirstFollows(x, a, b);
    var h1, h2, h3 := hs[..1], hs[..2], hs[..3];
    assert multiset{} + multiset{first} == multiset{first} && multiset{first} + multiset{second} == multiset{first, second};
    assert multiset{first, second} - multiset{first} == multiset{second} && multiset{second} - multiset{second} == multiset{};
    assert h1 == [] + [First(first, true)] && h2 == h1 + [First(second, true)];
    assert h3 == h2 + [Second(first, true)] && hs == h3 + [Second(second, true)] && hs[..0] == [];
    NothingOpen();
    hide Open;
    OpenNext([], First(first, true), multiset{});
    OpenNext(h1, First(second, true), multiset{first});
    OpenNext(h2, Second(first, true), multiset{first, second});
    OpenNext(h3, Second(second, true), multiset{second});
  }

  lemma NothingOpen()
    ensures Open([]) == Some(multiset{})
  {
  }

  lemma OpenNext(hs: seq<Half>, h: Half, open: multiset<Call>)
    requires Open(hs) == Some(open)
    ensures h.First? ==> Open(hs + [h]) == Some(open + multiset{h.c})
    ensures h.Second? && h.c in open ==> Open(hs + [h]) == Some(open - multiset{h.c})
  {
    assert (hs + [h])[..|hs|] == hs;
  }

  lemma FirstFollowsEffects(x: string, a: string, b: string, key: string)
    requires a != b
    ensures EffectsOn(FirstFollows(x, a, b), key)
            == if key == FollowKey(x) then
                 [OptimisticUpdate.Effect(FollowOp(a, true, MAX_FOLLOWS), true), OptimisticUpdate.Effect(FollowOp(b, true, MAX_FOLLOWS), true)]
               else if key == FollowerKey(a) || key == FollowerKey(b) then [OptimisticUpdate.Effect(FollowOp(x, true, MAX_FOLLOWS), true)]
               else []
  {
    KeysApart(x, a);
    KeysApart(x, b);
    KeysApart(a, b);
    hide FollowKey, FollowerKey;
    var hs := FirstFollows(x, a, b);
    assert hs[..1][..0] == [] && hs[..2][..1] == hs[..1] && hs[..3][..2] == hs[..2];
    assert EffectsOn(hs[..1], key) == if key == FollowKey(x) then [EffectOf(hs[0])] else [];
    assert EffectsOn(hs[..2], key) == if key == FollowKey(x) then [EffectOf(hs[0]), EffectOf(hs[1])] else [];
    assert EffectsOn(hs[..3], key) == EffectsOn(hs[..2], key) + if key == FollowerKey(a) then [EffectOf(hs[2])] else [];
  }

  /** Two first follows that overlap, about different pairs: both succeed, the followees keep only the
      second, and both lists of followers are written. A run of the steps of the store ends so. */
  lemma FirstFollowsRace(x: string, a: string, b: string)
    requires a != b
    ensures var hs := FirstFollows(x, a, b); var end := HalvesFrom(map[], hs);
            && PairsApart(hs) && Open(hs) == Some(multiset{})
            && (forall key :: RunsAs(map[], hs, key, FirstFollowsRun(x, a, b)(key), end))
            && !Follows(end, x, a) && Follows(end, x, b) && FollowedBy(end, x, a) && FollowedBy(end, x, b)
  {
    var hs := FirstFollows(x, a, b);
    var end := HalvesFrom(map[], hs);
    FirstFollowsApart(x, a, b);
    KeysApart(x, a);
    KeysApart(x, b);
    hide *;
    forall key
      ensures RunsAs(map[], hs, key, FirstFollowsRun(x, a, b)(key), end)
    {
      FirstFollowsRuns(x, a, b, key);
    }
    FirstFollowsEnd(x, a, b, FollowKey(x));
    FirstFollowsEnd(x, a, b, FollowerKey(a));
    FirstFollowsEnd(x, a, b, FollowerKey(b));
    ListedIsFollowed(end, x, a, [b], [x]);
    ListedIsFollowed(end, x, b, [b], [x]);
  }

  lemma ListedIsFollowed(lists: Lists, x: string, y: string, followees: seq<string>, followers: seq<string>)
    requires ListAt(lists, FollowKey(x)) == followees && ListAt(lists, FollowerKey(y)) == followers
    ensures (Follows(lists, x, y) <==> y in followees) && (FollowedBy(lists, x, y) <==> x in followers)
  {
  }

  lemma FirstFollowsEnd(x: string, a: string, b: string, key: string)
    requires a != b
    ensures ListAt(HalvesFrom(map[], FirstFollows(x, a, b)), key)
            == if key == FollowKey(x) then [b] else if key == FollowerKey(a) || key == FollowerKey(b) then [x] else []
  {
    hide *;
    FirstFollowsEffects(x, a, b, key);
    HalvesAt(map[], FirstFollows(x, a, b), key);
    NoList(key);
    BlindChain([], FollowOp(a, true, MAX_FOLLOWS), FollowOp(b, true, MAX_FOLLOWS));
    BlindChain([], FollowOp(x, true, MAX_FOLLOWS), FollowOp(x, true, MAX_FOLLOWS));
  }

  lemma NoList(key: string)
    ensures ListAt(map[], key) == []
  {
  }

  lemma FirstFollowsRuns(x: string, a: string, b: string, key: string)
    requires a != b
    ensures RunsAs(map[], FirstFollows(x, a, b), key, FirstFollowsRun(x, a, b)(key), HalvesFrom(map[], FirstFollows(x, a, b)))
  {
    var opA, opB, opX := FollowOp(a, true, MAX_FOLLOWS), FollowOp(b, true, MAX_FOLLOWS), FollowOp(x, true, MAX_FOLLOWS);
    FirstFollowsEffects(x, a, b, key);
    FirstFollowsEnd(x, a, b, key);
    BlindChain([], opA, opB);
    BlindChain([], opX, opX);
    OptimisticUpdate.FirstWriteRace(FOLLOWS, opA, opB, [a], [b]);
    OptimisticUpdate.FirstSave(FOLLOWS, opX, [x]);
    NoList(key);
    hide FollowKey, FollowerKey, FirstFollows, HalvesFrom, EffectsOn, ListAt, FollowUpdate, Applied;
    hide OptimisticUpdate.Do, OptimisticUpdate.RaceSteps, OptimisticUpdate.SaveSteps, OptimisticUpdate.Fold, OptimisticUpdate.AffectedBy;
  }

  lemma BlindChain(list: seq<string>, a: FollowOp, b: FollowOp)
    requires a.add && b.add && a.max == b.max == MAX_FOLLOWS
    ensures FollowUpdate([], a) == Some([a.value]) && FollowUpdate([], b) == Some([b.value])
    ensures OptimisticUpdate.AffectedBy(FOLLOWS, list, []) == list
    ensures OptimisticUpdate.AffectedBy(FOLLOWS, list, [OptimisticUpdate.Effect(a, true)]) == [a.value]
    ensures OptimisticUpdate.AffectedBy(FOLLOWS, list, [OptimisticUpdate.Effect(a, true), OptimisticUpdate.Effect(b, true)]) == [b.value]
  {
    assert [] + [a.value] == [a.value] && [] + [b.value] == [b.value];
    assert [OptimisticUpdate.Effect(a, true), OptimisticUpdate.Effect(b, true)][..1] == [OptimisticUpdate.Effect(a, true)];
    assert [OptimisticUpdate.Effect(a, true)][..0] == [];
  }

  // ----- The service over the store

  type Items = map<string, StateItem<seq<string>>>

  function ItemsOf(stores: Stores<seq<string>>): Items {
    if STORE in stores then stores[STORE] else map[]
  }

  /** The lists the store holds. */
  function View(items: Items): Lists {
    map k | k in items :: items[k].value
  }

  function ItemAt(items: Items, key: string): Option<StateItem<seq<string>>> {
    if key in items then Some(items[key]) else None
  }

  /** What happens at one attempt after its read: other clients may leave other lists in the store
      before the save, the store may break, and the clock gives a new etag. */
  datatype Attempt = Attempt(others: Option<Items>, broken: bool, etag: string)

  datatype UpdateError = SaveFailed | RetriesSpent

  datatype Ended = Ended(error: Option<UpdateError>, items: Items)

  /** The lists the save of an attempt meets. */
  function Met(items: Items, a: Attempt): Items {
    if a.others.Some? then a.others.value else items
  }

  function EtagAt(items: Items, key: string): Option<string> {
    if key in items then Some(items[key].etag) else None
  }

  /** How the attempts from `i` on end. `wraps` tells whether the store reports a stale etag as the
      error the loop retries on. Each attempt reads the list anew; an update with nothing to change
      needs no save. */
  function Loop(items: Items, key: string, op: FollowOp, attempts: nat -> Attempt, wraps: bool, i: nat): Ended
    decreases MAX_RETRIES - i
  {
    if i >= MAX_RETRIES then Ended(Some(RetriesSpent), items)
    else
      match FollowUpdate(ListAt(View(items), key), op)
      case None => Ended(None, items)
      case Some(l) =>
        var a := attempts(i);
        var met := Met(items, a);
        if a.broken then Ended(Some(SaveFailed), met)
        else
          match SaveError(ItemAt(met, key), EtagAt(items, key))
          case None => Ended(None, met[key := StateItem(l, a.etag)])
          case Some(EtagMismatch) => if wraps then Loop(met, key, op, attempts, wraps, i + 1) else Ended(Some(SaveFailed), met)
          case Some(MissingForEtag) => Ended(Some(SaveFailed), met)
  }

  /** Etags are given out once: an item whose etag is unchanged is unchanged, and none is empty. */
  ghost predicate Honest(items: Items, met: Items, key: string) {
    key in items ==> items[key].etag != "" && (key in met && met[key].etag == items[key].etag ==> met[key] == items[key])
  }

  /** The lists attempt `k` reads, after those before it were refused. */
  function ReadAt(items: Items, attempts: nat -> Attempt, k: nat): Items {
    if k == 0 then items else Met(ReadAt(items, attempts, k - 1), attempts(k - 1))
  }

  ghost predicate AllHonest(items: Items, key: string, attempts: nat -> Attempt) {
    forall k: nat :: Honest(ReadAt(items, attempts, k), Met(ReadAt(items, attempts, k), attempts(k)), key)
  }

  /** How an attempt that read `read` and saved on `met` leaves the lists: blind exactly when it read
      no list. */
  function Saved(read: Items, met: Items, key: string, op: FollowOp): Lists {
    if key in read then Put(View(met), key, op) else View(met)[key := Applied([], op)]
  }

  lemma SaveIs(read: Items, met: Items, key: string, op: FollowOp, l: seq<string>, etag: string)
    requires Honest(read, met, key) && FollowUpdate(ListAt(View(read), key), op) == Some(l)
    requires SaveError(ItemAt(met, key), EtagAt(read, key)).None?
    ensures View(met[key := StateItem(l, etag)]) == Saved(read, met, key, op)
  {
    hide FollowUpdate;
  }

  /** How a call ends. One that succeeds takes effect once: it had nothing to change in the list it
      read last, or its save on the lists it met then updates the list it met if it had read one, and
      overwrites it if it had not. One that fails writes nothing, and it runs out of attempts exactly
      after five refusals. */
  lemma {:induction false} LoopIs(items: Items, key: string, op: FollowOp, attempts: nat -> Attempt, wraps: bool, i: nat) returns (k: nat)
    requires i <= MAX_RETRIES && AllHonest(items, key, attempts)
    ensures i <= k <= MAX_RETRIES
    ensures var e := Loop(ReadAt(items, attempts, i), key, op, attempts, wraps, i);
            var read := ReadAt(items, attempts, k); var met := Met(read, attempts(k));
            && (e.error == Some(RetriesSpent) <==> k == MAX_RETRIES)
            && (e.error == Some(RetriesSpent) ==> e.items == read)
            && (e.error == Some(SaveFailed) ==> e.items == met)
            && (e.error.None? ==>
                  if FollowUpdate(ListAt(View(read), key), op).None? then e.items == read
                  else View(e.items) == Saved(read, met, key, op))
    decreases MAX_RETRIES - i
  {
    hide *;
    var read := ReadAt(items, attempts, i);
    var met := Met(read, attempts(i));
    k := i;
    LoopUnfold(read, key, op, attempts, wraps, i);
    if i < MAX_RETRIES && FollowUpdate(ListAt(View(read), key), op).Some? && !attempts(i).broken {
      var l := FollowUpdate(ListAt(View(read), key), op).value;
      HonestAt(items, key, attempts, i);
      ReadNext(items, attempts, i);
      if SaveError(ItemAt(met, key), EtagAt(read, key)).None? {
        SaveIs(read, met, key, op, l, attempts(i).etag);
      } else if SaveError(ItemAt(met, key), EtagAt(read, key)) == Some(EtagMismatch) && wraps {
        k := LoopIs(items, key, op, attempts, wraps, i + 1);
      }
    }
  }

  lemma LoopUnfold(items: Items, key: string, op: FollowOp, attempts: nat -> Attempt, wraps: bool, i: nat)
    requires i <= MAX_RETRIES
    ensures var e := Loop(items, key, op, attempts, wraps, i); var update := FollowUpdate(ListAt(View(items), key), op);
            var met := Met(items, attempts(i)); var refused := SaveError(ItemAt(met, key), EtagAt(items, key));
            && (i == MAX_RETRIES ==> e == Ended(Some(RetriesSpent), items))
            && (i < MAX_RETRIES && update.None? ==> e == Ended(None, items))
            && (i < MAX_RETRIES && update.Some? && attempts(i).broken ==> e == Ended(Some(SaveFailed), met))
            && (i < MAX_RETRIES && update.Some? && !attempts(i).broken ==>
                  e == if refused.None? then Ended(None, met[key := StateItem(update.value, attempts(i).etag)])
                       else if refused == Some(EtagMismatch) && wraps then Loop(met, key, op, attempts, wraps, i + 1)
                       else Ended(Some(SaveFailed), met))
  {
    hide FollowUpdate, View, SaveError;
  }

  lemma HonestAt(items: Items, key: string, attempts: nat -> Attempt, k: nat)
    requires AllHonest(items, key, attempts)
    ensures Honest(ReadAt(items, attempts, k), Met(ReadAt(items, attempts, k), attempts(k)), key)
  {
    hide Honest;
  }

  lemma ReadNext(items: Items, attempts: nat -> Attempt, k: nat)
    ensures ReadAt(items, attempts, k + 1) == Met(ReadAt(items, attempts, k), attempts(k))
  {
  }

  /** Where nobody else writes and the store does not break, the first attempt succeeds. */
  lemma UndisturbedLoop(items: Items, key: string, op: FollowOp, attempts: nat -> Attempt, wraps: bool)
    requires attempts(0).others.None? && !attempts(0).broken
    ensures var e := Loop(items, key, op, attempts, wraps, 0); e.error.None? && View(e.items) == Put(View(items), key, op)
  {
    hide FollowUpdate;
  }

  class FollowService {
    const db: InMemoryKVStore<seq<string>>
    /** The in-memory store does not wrap the errors the loop retries on, the Redis store does. */
    const wraps: bool

    constructor (db: InMemoryKVStore<seq<string>>, wraps: bool)
      ensures this.db == db && this.wraps == wraps
    {
      this.db, this.wraps := db, wraps;
    }

    /** The retry loop. Before each save other clients may have written. */
    method UpdateFollowList(key: string, op: FollowOp, attempts: nat -> Attempt) returns (error: Option<UpdateError>)
      modifies db
      ensures Ended(error, ItemsOf(db.stores)) == Loop(old(ItemsOf(db.stores)), key, op, attempts, wraps, 0)
    {
      hide Loop, FollowUpdate, View, ListAt, Lookup;
      for i := 0 to MAX_RETRIES
        invariant Loop(old(ItemsOf(db.stores)), key, op, attempts, wraps, 0) == Loop(ItemsOf(db.stores), key, op, attempts, wraps, i)
      {
        var item := db.GetState(STORE, key);
        ItemIs(db.stores, key);
        LoopUnfold(ItemsOf(db.stores), key, op, attempts, wraps, i);
        var current: seq<string> := [];
        var etag: Option<string> := None;
        if item.Some? {
          current, etag := item.value.value, Some(item.value.etag);
        }
        var updated := UpdateList(current, op);
        if updated.None? {
          return None;
        }
        var a := attempts(i);
        if a.others.Some? {
          db.stores := db.stores[STORE := a.others.value];
        }
        if a.broken {
          return Some(SaveFailed);
        }
        ghost var before := db.stores;
        ItemIs(before, key);
        var refused := db.SaveState(STORE, key, updated.value, etag, a.etag);
        ItemsAfter(before, db.stores, key, updated.value, a.etag);
        if refused.None? {
          return None;
        }
        if refused == Some(EtagMismatch) && wraps {
          continue;
        }
        return Some(SaveFailed);
      }
      LoopUnfold(ItemsOf(db.stores), key, op, attempts, wraps, MAX_RETRIES);
      return Some(RetriesSpent);
    }

    /** The middle of the loop: search, then append and trim, or cut out. */
    static method UpdateList(list: seq<string>, op: FollowOp) returns (updated: Option<seq<string>>)
      ensures updated == FollowUpdate(list, op)
    {
      var found, foundIdx := false, |list|;
      for idx := 0 to |list|
        invariant !found && foundIdx == |list| && op.value !in list[..idx]
      {
        if list[idx] == op.value {
          found, foundIdx := true, idx;
          break;
        }
      }
      IndexIs(list, op.value, foundIdx);
      if op.add {
        if found {
          return None;
        }
        var longer := list + [op.value];
        if op.max > 0 && |longer| > op.max {
          longer := longer[|longer| - op.max..];
        }
        return Some(longer);
      }
      if !found {
        return None;
      }
      return Some(list[..foundIdx] + list[foundIdx + 1..]);
    }

    /** Both lists of a Follow or an Unfollow, the caller's first. A failure of the second leaves
        the caller's list changed. */
    method Update(c: Call, attempts: nat -> Attempt, attempts': nat -> Attempt) returns (error: Option<UpdateError>)
      modifies db
      ensures Ended(error, ItemsOf(db.stores)) == CallEnds(old(ItemsOf(db.stores)), c, attempts, attempts', wraps)
    {
      hide ItemsOf, Loop, FollowKey, FollowerKey;
      error := UpdateFollowList(FollowKey(c.user), FollowOp(c.other, c.add, MAX_FOLLOWS), attempts);
      if error.Some? {
        return;
      }
      error := UpdateFollowList(FollowerKey(c.other), FollowOp(c.user, c.add, MAX_FOLLOWS), attempts');
    }
  }

  lemma ItemIs(stores: Stores<seq<string>>, key: string)
    ensures Lookup(stores, STORE, key) == ItemAt(ItemsOf(stores), key)
    ensures EtagAt(ItemsOf(stores), key) == (match Lookup(stores, STORE, key) case None => None case Some(item) => Some(item.etag))
    ensures ListAt(View(ItemsOf(stores)), key) == (match Lookup(stores, STORE, key) case None => [] case Some(item) => item.value)
  {
  }

  /** What a save, done or refused, leaves under the other keys and under its own. */
  lemma ItemsAfter(before: Stores<seq<string>>, after: Stores<seq<string>>, key: string, l: seq<string>, etag: string)
    requires SameElsewhere(before, after, STORE, key)
    ensures Lookup(after, STORE, key) == Lookup(before, STORE, key) ==> ItemsOf(after) == ItemsOf(before)
    ensures Lookup(after, STORE, key) == Some(StateItem(l, etag)) ==> ItemsOf(after) == ItemsOf(before)[key := StateItem(l, etag)]
  {
    hide Lookup, ItemsOf;
    forall k
      ensures ItemAt(ItemsOf(after), k) == Lookup(after, STORE, k) && ItemAt(ItemsOf(before), k) == Lookup(before, STORE, k)
      ensures k != key ==> Lookup(after, STORE, k) == Lookup(before, STORE, k)
    {
      ItemIs(before, k);
      ItemIs(after, k);
    }
    assert forall k :: k in ItemsOf(after) <==> ItemAt(ItemsOf(after), k).Some?;
    assert forall k :: k in ItemsOf(before) <==> ItemAt(ItemsOf(before), k).Some?;
  }

  function CallEnds(items: Items, c: Call, attempts: nat -> Attempt, attempts': nat -> Attempt, wraps: bool): Ended {
    var first := Loop(items, FollowKey(c.user), FollowOp(c.other, c.add, MAX_FOLLOWS), attempts, wraps, 0);
    if first.error.Some? then first
    else Loop(first.items, FollowerKey(c.other), FollowOp(c.user, c.add, MAX_FOLLOWS), attempts', wraps, 0)
  }

  /** The half of a call that an attempt makes: on the lists its save met, blind when it had read no
      list; without anything to change, on the lists it read. */
  function MadeBy(read: Items, met: Items, h: Half): Lists {
    if FollowUpdate(ListAt(View(read), KeyOf(h)), OpOf(h)).None? then HalfDone(View(read), h.(blind := false))
    else HalfDone(View(met), h.(blind := KeyOf(h) !in read))
  }

  lemma SameHalf(h: Half, blind: bool)
    ensures KeyOf(h.(blind := blind)) == KeyOf(h) && OpOf(h.(blind := blind)) == OpOf(h)
  {
  }

  lemma LoopMakesHalf(items: Items, h: Half, attempts: nat -> Attempt, wraps: bool) returns (k: nat)
    requires AllHonest(items, KeyOf(h), attempts)
    requires Loop(items, KeyOf(h), OpOf(h), attempts, wraps, 0).error.None?
    ensures k < MAX_RETRIES
    ensures var read := ReadAt(items, attempts, k);
            View(Loop(items, KeyOf(h), OpOf(h), attempts, wraps, 0).items) == MadeBy(read, Met(read, attempts(k)), h)
  {
    hide Loop, FollowUpdate, AllHonest, View, KeyOf, OpOf, Met;
    k := LoopIs(items, KeyOf(h), OpOf(h), attempts, wraps, 0);
    SameHalf(h, false);
    SameHalf(h, true);
    assert ReadAt(items, attempts, 0) == items;
  }

  /** A call that succeeds makes each of its two halves at one attempt, on the lists its save met. It
      updates a list it had read and overwrites one that was not there when it read it, so that it
      undoes another client's write exactly when its half loses something there. */
  lemma CallTakesEffect(items: Items, c: Call, attempts: nat -> Attempt, attempts': nat -> Attempt, wraps: bool)
    returns (k: nat, k': nat)
    requires CallEnds(items, c, attempts, attempts', wraps).error.None?
    requires AllHonest(items, FollowKey(c.user), attempts)
    requires AllHonest(Loop(items, FollowKey(c.user), FollowOp(c.other, c.add, MAX_FOLLOWS), attempts, wraps, 0).items,
                       FollowerKey(c.other), attempts')
    ensures k < MAX_RETRIES && k' < MAX_RETRIES
    ensures var half := Loop(items, FollowKey(c.user), FollowOp(c.other, c.add, MAX_FOLLOWS), attempts, wraps, 0).items;
            var read, read' := ReadAt(items, attempts, k), ReadAt(half, attempts', k');
            && View(half) == MadeBy(read, Met(read, attempts(k)), First(c, false))
            && View(CallEnds(items, c, attempts, attempts', wraps).items) == MadeBy(read', Met(read', attempts'(k')), Second(c, false))
  {
    hide Loop, View, MadeBy, AllHonest, FollowKey, FollowerKey;
    k := LoopMakesHalf(items, First(c, false), attempts, wraps);
    var half := Loop(items, FollowKey(c.user), FollowOp(c.other, c.add, MAX_FOLLOWS), attempts, wraps, 0).items;
    k' := LoopMakesHalf(half, Second(c, false), attempts', wraps);
  }

  /** Undisturbed, a call is one call of the sequential graph. */
  lemma UndisturbedCall(items: Items, c: Call, attempts: nat -> Attempt, attempts': nat -> Attempt, wraps: bool)
    requires attempts(0).others.None? && !attempts(0).broken && attempts'(0).others.None? && !attempts'(0).broken
    ensures var e := CallEnds(items, c, attempts, attempts', wraps); e.error.None? && View(e.items) == Performed(View(items), c)
  {
    hide Loop, View, Put, FollowKey, FollowerKey;
    var f, g := FollowOp(c.other, c.add, MAX_FOLLOWS), FollowOp(c.user, c.add, MAX_FOLLOWS);
    UndisturbedLoop(items, FollowKey(c.user), f, attempts, wraps);
    UndisturbedLoop(Loop(items, FollowKey(c.user), f, attempts, wraps, 0).items, FollowerKey(c.other), g, attempts', wraps);
  }

  lemma {:induction false} IndexIs(list: seq<string>, value: string, i: nat)
    requires i <= |list| && value !in list[..i] && (i < |list| ==> list[i] == value)
    ensures IndexOf(list, value) == i
  {
  }
}
