/** A bounded timeline, newest first: the update behind it and the paged read. */
module Timeline {
  import opened Collections
  import opened Functions
  import opened Orders
  import OptimisticUpdate

  const MAX_TIMELINE_SIZE: nat := 1000

  datatype Entry = Entry(postId: string, timestamp: int)

  predicate Newer(a: Entry, b: Entry) {
    a.timestamp > b.timestamp
  }

  predicate Listed(entries: seq<Entry>, postId: string) {
    exists i :: 0 <= i < |entries| && entries[i].postId == postId
  }

  /** A post not yet listed is inserted, the list sorted and the oldest overflow dropped. */
  function Added(entries: seq<Entry>, e: Entry): seq<Entry> {
    if Listed(entries, e.postId) then entries
    else
      var longer := SortBy(entries + [e], Newer);
      if |longer| > MAX_TIMELINE_SIZE then longer[..MAX_TIMELINE_SIZE] else longer
  }

  function Removed(entries: seq<Entry>, postId: string): seq<Entry> {
    if entries == [] then []
    else if entries[0].postId != postId then [entries[0]] + Removed(entries[1..], postId)
    else Removed(entries[1..], postId)
  }

  /** What the retry loop computes from the entries it read. */
  method UpdateEntries(current: seq<Entry>, postId: string, timestamp: int, add: bool) returns (entries: seq<Entry>)
    ensures entries == if add then Added(current, Entry(postId, timestamp)) else Removed(current, postId)
  {
    entries := current;
    if add {
      var found := false;
      for i := 0 to |entries|
        invariant !found && forall j | 0 <= j < i :: entries[j].postId != postId
      {
        if entries[i].postId == postId {
          found := true;
          break;
        }
      }
      if !found {
        entries := entries + [Entry(postId, timestamp)];
        entries := SortBy(entries, Newer);
        if |entries| > MAX_TIMELINE_SIZE {
          entries := entries[..MAX_TIMELINE_SIZE];
        }
      }
    } else {
      var kept: seq<Entry> := [];
      for i := 0 to |entries|
        invariant kept + Removed(entries[i..], postId) == Removed(entries, postId)
      {
        assert entries[i..] == [entries[i]] + entries[i + 1..];
        if entries[i].postId != postId {
          kept := kept + [entries[i]];
        }
      }
      entries := kept;
    }
  }

  // ----- Shape

  ghost predicate Descending(entries: seq<Entry>) {
    forall i, j | 0 <= i < j < |entries| :: entries[i].timestamp > entries[j].timestamp
  }

  ghost predicate DistinctPosts(entries: seq<Entry>) {
    forall i, j | 0 <= i < j < |entries| :: entries[i].postId != entries[j].postId
  }

  lemma NewerIsWeak(entries: seq<Entry>)
    ensures StrictWeakOn(entries, Newer)
  {
  }

  /** No two different entries share a post or a timestamp. */
  ghost predicate Stamped(all: set<Entry>) {
    forall a, b | a in all && b in all && a != b :: a.postId != b.postId && a.timestamp != b.timestamp
  }

  ghost predicate Within(entries: seq<Entry>, all: set<Entry>) {
    forall i | 0 <= i < |entries| :: entries[i] in all
  }

  lemma SortedPermutation(entries: seq<Entry>, e: Entry, all: set<Entry>)
    requires Distinct(entries + [e]) && Within(entries + [e], all) && Stamped(all)
    ensures var longer := SortBy(entries + [e], Newer);
            && |longer| == |entries| + 1 && Descending(longer) && Within(longer, all)
            && (forall x :: x in longer <==> x in entries || x == e)
  {
    var s := entries + [e];
    var longer := SortBy(s, Newer);
    NewerIsWeak(s);
    SortBySorted(s, Newer);
    SameElements(longer, s);
    forall i | 0 <= i < |longer|
      ensures longer[i] in all
    {
      assert longer[i] in s;
    }
    PermutedDistinct(s, longer);
    hide SortBy;
    forall i, j | 0 <= i < j < |longer|
      ensures longer[i].timestamp > longer[j].timestamp
    {
      assert !Newer(longer[j], longer[i]);
    }
  }

  // ----- The newest of everything

  /** `entries` are the newest of `all`, in descending order, as many as fit. */
  ghost predicate NewestOf(entries: seq<Entry>, all: set<Entry>) {
    && Descending(entries) && Within(entries, all)
    && |entries| == (if |all| <= MAX_TIMELINE_SIZE then |all| else MAX_TIMELINE_SIZE)
    && (forall x, i | x in all && x !in entries && 0 <= i < |entries| :: x.timestamp < entries[i].timestamp)
  }

  lemma DescendingDistinct(entries: seq<Entry>)
    requires Descending(entries)
    ensures Distinct(entries)
  {
  }

  lemma NewestCovers(entries: seq<Entry>, all: set<Entry>)
    requires NewestOf(entries, all)
    ensures Elements(entries) <= all && |Elements(entries)| == |entries|
    ensures |entries| < MAX_TIMELINE_SIZE ==> Elements(entries) == all
  {
    DescendingDistinct(entries);
    ElementsCount(entries);
    SubsetSize(Elements(entries), all);
  }

  lemma ListedIsMember(entries: seq<Entry>, all: set<Entry>, e: Entry)
    requires Within(entries, all) && Stamped(all + {e})
    ensures Listed(entries, e.postId) <==> e in entries
  {
  }

  lemma AppendDistinct(entries: seq<Entry>, e: Entry, all: set<Entry>)
    requires Descending(entries) && Within(entries, all) && e !in entries
    ensures Distinct(entries + [e]) && Within(entries + [e], all + {e})
  {
  }

  /** One addition keeps the newest of everything added so far. */
  lemma AddKeepsNewest(entries: seq<Entry>, all: set<Entry>, e: Entry)
    requires NewestOf(entries, all) && Stamped(all + {e})
    ensures NewestOf(Added(entries, e), all + {e})
  {
    NewestCovers(entries, all);
    ListedIsMember(entries, all, e);
    hide NewestOf, SortBy, Listed, Stamped;
    if e in entries {
      assert all + {e} == all;
    } else {
      NewKeepsNewest(entries, all, e);
    }
  }

  /** A post not yet listed is put in its place; what no longer fits is the oldest. */
  lemma NewKeepsNewest(entries: seq<Entry>, all: set<Entry>, e: Entry)
    requires NewestOf(entries, all) && Stamped(all + {e}) && e !in entries
    ensures var longer := SortBy(entries + [e], Newer);
            NewestOf(if |longer| > MAX_TIMELINE_SIZE then longer[..MAX_TIMELINE_SIZE] else longer, all + {e})
  {
    NewestCovers(entries, all);
    AppendDistinct(entries, e, all);
    SortedPermutation(entries, e, all + {e});
    hide SortBy, Stamped, Distinct;
    var longer := SortBy(entries + [e], Newer);
    if |longer| > MAX_TIMELINE_SIZE {
      TrimKeepsNewest(entries, all, e, longer);
    } else {
      assert |all + {e}| == |all| + 1;
    }
  }

  lemma TrimKeepsNewest(entries: seq<Entry>, all: set<Entry>, e: Entry, longer: seq<Entry>)
    requires NewestOf(entries, all) && e !in entries && |entries| == MAX_TIMELINE_SIZE && |longer| == MAX_TIMELINE_SIZE + 1
    requires Descending(longer) && Within(longer, all + {e})
    requires forall x :: x in longer <==> x in entries || x == e
    ensures NewestOf(longer[..MAX_TIMELINE_SIZE], all + {e})
  {
    var n := MAX_TIMELINE_SIZE;
    var kept, last := longer[..n], longer[n];
    SubsetSize(all, all + {e});
    assert longer == kept + [last];
    forall x, i | x in all + {e} && x !in kept && 0 <= i < |kept|
      ensures x.timestamp < kept[i].timestamp
    {
      OlderThanKept(entries, all, e, longer, x, i);
    }
  }

  lemma OlderThanKept(entries: seq<Entry>, all: set<Entry>, e: Entry, longer: seq<Entry>, x: Entry, i: nat)
    requires NewestOf(entries, all) && e !in entries && |longer| == MAX_TIMELINE_SIZE + 1 && i < MAX_TIMELINE_SIZE
    requires Descending(longer) && forall y :: y in longer <==> y in entries || y == e
    requires x in all + {e} && x !in longer[..MAX_TIMELINE_SIZE]
    ensures x.timestamp < longer[i].timestamp
  {
    var last := longer[MAX_TIMELINE_SIZE];
    assert longer == longer[..MAX_TIMELINE_SIZE] + [last];
    assert longer[i].timestamp > last.timestamp;
    if x != last {
      assert x !in longer;
      assert x in all && x !in entries;
      var r := if longer[i] in entries then longer[i] else last;
      assert r in longer;
      if r == last && longer[i] !in entries {
        assert longer[i] in longer && longer[i] == e && last != e;
      }
      var k :| 0 <= k < |entries| && entries[k] == r;
      assert x.timestamp < entries[k].timestamp;
    }
  }

  // ----- Runs of updates

  datatype Update = Add(entry: Entry) | Remove(postId: string)

  function Updated(entries: seq<Entry>, u: Update): seq<Entry> {
    match u case Add(e) => Added(entries, e) case Remove(id) => Removed(entries, id)
  }

  function UpdateAll(start: seq<Entry>, us: seq<Update>): seq<Entry> {
    if us == [] then start else Updated(UpdateAll(start, us[..|us| - 1]), us[|us| - 1])
  }

  /** The entries any of the updates adds. */
  function AddedBy(us: seq<Update>): set<Entry> {
    set i | 0 <= i < |us| && us[i].Add? :: us[i].entry
  }

  lemma UpdatesLast(us: seq<Update>)
    requires us != []
    ensures AddedBy(us) == AddedBy(us[..|us| - 1]) + if us[|us| - 1].Add? then {us[|us| - 1].entry} else {}
  {
    assert us == us[..|us| - 1] + [us[|us| - 1]];
  }

  /** Additions with one timestamp for each post, repeated or in any order, to the newest thousand
      of some posts leave exactly the newest thousand of these and all posts added, newest first. */
  lemma {:induction false} AddsLeaveNewest(start: seq<Entry>, all: set<Entry>, us: seq<Update>)
    requires NewestOf(start, all) && Stamped(all + AddedBy(us)) && forall i | 0 <= i < |us| :: us[i].Add?
    ensures NewestOf(UpdateAll(start, us), all + AddedBy(us))
  {
    hide Added, Stamped, NewestOf, AddedBy;
    if us != [] {
      var front, last := us[..|us| - 1], us[|us| - 1];
      UpdatesLast(us);
      StampedPart(all + AddedBy(front), all + AddedBy(us));
      AddsLeaveNewest(start, all, front);
      assert all + AddedBy(front) + {last.entry} == all + AddedBy(us);
      AddKeepsNewest(UpdateAll(start, front), all + AddedBy(front), last.entry);
    } else {
      NothingAdded();
      assert all + AddedBy([]) == all;
    }
  }

  lemma NothingAdded()
    ensures AddedBy([]) == {}
  {
  }

  lemma StampedPart(a: set<Entry>, b: set<Entry>)
    requires a <= b && Stamped(b)
    ensures Stamped(a)
  {
  }

  /** The newest of a set are one list: how the posts arrived leaves no trace. */
  lemma {:induction false} NewestIsUnique(a: seq<Entry>, b: seq<Entry>, all: set<Entry>)
    requires NewestOf(a, all) && NewestOf(b, all)
    ensures a == b
  {
    NewestCovers(a, all);
    NewestCovers(b, all);
    forall x
      ensures x in a <==> x in b
    {
      if x in a && x !in b {
        var y := SameSizeMisses(a, b, x);
        assert false;
      }
      if x in b && x !in a {
        var y := SameSizeMisses(b, a, x);
        assert false;
      }
    }
    DescendingOnce(a, b);
  }

  /** Of two equally large lists each lacks something when one does. */
  lemma SameSizeMisses(a: seq<Entry>, b: seq<Entry>, x: Entry) returns (y: Entry)
    requires |Elements(a)| == |Elements(b)| && x in a && x !in b
    ensures y in b && y !in a
  {
    var left := Elements(b) - Elements(a);
    assert Elements(a) == (Elements(a) * Elements(b)) + (Elements(a) - Elements(b));
    assert Elements(b) == (Elements(a) * Elements(b)) + left;
    assert x in Elements(a) && x !in Elements(b);
    assert x in Elements(a) - Elements(b);
    assert |left| > 0;
    y :| y in left;
  }

  lemma {:induction false} DescendingOnce(a: seq<Entry>, b: seq<Entry>)
    requires Descending(a) && Descending(b) && |a| == |b| && forall x :: x in a <==> x in b
    ensures a == b
    decreases |a|
  {
    if a != [] {
      assert a[0] in b;
      assert b[0] in a;
      var i :| 0 <= i < |b| && b[i] == a[0];
      var j :| 0 <= j < |a| && a[j] == b[0];
      assert a[0] == b[0];
      assert a == [a[0]] + a[1..] && b == [b[0]] + b[1..];
      forall x
        ensures x in a[1..] <==> x in b[1..]
      {
        assert x in a <==> x == a[0] || x in a[1..];
        assert x in b <==> x == b[0] || x in b[1..];
        assert a[0] !in a[1..] && b[0] !in b[1..];
      }
      DescendingOnce(a[1..], b[1..]);
    }
  }

  // ----- Removal

  lemma {:induction false} RemovedMembers(entries: seq<Entry>, postId: string, x: Entry)
    ensures x in Removed(entries, postId) <==> x in entries && x.postId != postId
  {
    if entries != [] {
      RemovedMembers(entries[1..], postId, x);
      assert entries == [entries[0]] + entries[1..];
    }
  }

  lemma TailOf(entries: seq<Entry>, x: Entry)
    requires entries != [] && x in entries[1..]
    ensures Descending(entries) ==> entries[0].timestamp > x.timestamp
    ensures DistinctPosts(entries) ==> entries[0].postId != x.postId
  {
    var i :| 0 <= i < |entries[1..]| && entries[1..][i] == x;
    assert entries[i + 1] == x;
  }

  /** Removing drops exactly the post and keeps the order of the rest. */
  lemma {:induction false} RemovedIs(entries: seq<Entry>, postId: string)
    ensures |Removed(entries, postId)| <= |entries|
    ensures Descending(entries) ==> Descending(Removed(entries, postId))
    ensures DistinctPosts(entries) ==> DistinctPosts(Removed(entries, postId))
  {
    if entries != [] {
      RemovedIs(entries[1..], postId);
      var r := Removed(entries[1..], postId);
      forall k | 0 <= k < |r|
        ensures Descending(entries) ==> entries[0].timestamp > r[k].timestamp
        ensures DistinctPosts(entries) ==> entries[0].postId != r[k].postId
      {
        RemovedMembers(entries[1..], postId, r[k]);
        TailOf(entries, r[k]);
      }
    }
  }

  ghost predicate Shaped(entries: seq<Entry>, all: set<Entry>) {
    Descending(entries) && Within(entries, all) && |entries| <= MAX_TIMELINE_SIZE
  }

  lemma AddKeepsShape(entries: seq<Entry>, all: set<Entry>, e: Entry)
    requires Shaped(entries, all) && Stamped(all + {e})
    ensures Shaped(Added(entries, e), all + {e}) && DistinctPosts(Added(entries, e))
  {
    hide SortBy;
    ListedIsMember(entries, all, e);
    if e !in entries {
      AppendDistinct(entries, e, all);
      SortedPermutation(entries, e, all + {e});
    }
    StampedPosts(Added(entries, e), all + {e});
  }

  lemma StampedPosts(entries: seq<Entry>, all: set<Entry>)
    requires Descending(entries) && Within(entries, all) && Stamped(all)
    ensures DistinctPosts(entries)
  {
  }

  /** Whatever is added and removed, the timeline stays in order, free of duplicates and bounded,
      and holds only posts that were added. */
  lemma {:induction false} UpdatesKeepShape(start: seq<Entry>, all: set<Entry>, us: seq<Update>)
    requires Shaped(start, all) && Stamped(all + AddedBy(us))
    ensures Shaped(UpdateAll(start, us), all + AddedBy(us)) && DistinctPosts(UpdateAll(start, us))
  {
    hide Stamped, DistinctPosts, Added, Removed, AddedBy;
    if us != [] {
      hide Shaped;
      var front, last := us[..|us| - 1], us[|us| - 1];
      UpdatesLast(us);
      StampedPart(all + AddedBy(front), all + AddedBy(us));
      UpdatesKeepShape(start, all, front);
      if last.Add? {
        assert all + AddedBy(front) + {last.entry} == all + AddedBy(us);
        AddKeepsShape(UpdateAll(start, front), all + AddedBy(front), last.entry);
      } else {
        RemoveKeepsShape(UpdateAll(start, front), all + AddedBy(front), last.postId);
        assert all + AddedBy(us) == all + AddedBy(front);
      }
    } else {
      NothingAdded();
      assert all + AddedBy([]) == all;
      StampedPosts(start, all);
    }
  }

  lemma RemoveKeepsShape(entries: seq<Entry>, all: set<Entry>, postId: string)
    requires Shaped(entries, all) && DistinctPosts(entries)
    ensures Shaped(Removed(entries, postId), all) && DistinctPosts(Removed(entries, postId))
  {
    RemovedIs(entries, postId);
    var r := Removed(entries, postId);
    forall i | 0 <= i < |r|
      ensures r[i] in all
    {
      RemovedMembers(entries, postId, r[i]);
    }
  }

  /** Removal leaves the other entries in their order. */
  lemma RemovalKeepsOrder(before: seq<Entry>, e: Entry, after: seq<Entry>)
    requires forall x | x in before :: x.postId != e.postId
    requires forall x | x in after :: x.postId != e.postId
    ensures Removed(before + [e] + after, e.postId) == before + after
    ensures Removed(before + after, e.postId) == before + after
  {
    hide Removed;
    RemovedNothing(before, e.postId);
    RemovedNothing(after, e.postId);
    RemovedApart(before, after, e.postId);
    RemovedApart(before + [e], after, e.postId);
    RemovedApart(before, [e], e.postId);
    RemovedOne(e);
    assert before + [] == before;
  }

  lemma RemovedOne(e: Entry)
    ensures Removed([e], e.postId) == []
  {
  }

  lemma {:induction false} RemovedApart(a: seq<Entry>, b: seq<Entry>, postId: string)
    ensures Removed(a + b, postId) == Removed(a, postId) + Removed(b, postId)
  {
    if a == [] {
      assert a + b == b;
    } else {
      assert (a + b)[1..] == a[1..] + b;
      RemovedApart(a[1..], b, postId);
    }
  }

  lemma {:induction false} RemovedNothing(entries: seq<Entry>, postId: string)
    requires forall x | x in entries :: x.postId != postId
    ensures Removed(entries, postId) == entries
  {
    if entries != [] {
      RemovedNothing(entries[1..], postId);
      assert entries[0] in entries;
    }
  }

  // ----- Reading

  function Eligible(entries: seq<Entry>, cutoff: int): seq<Entry> {
    if entries == [] then []
    else if entries[0].timestamp <= cutoff then [entries[0]] + Eligible(entries[1..], cutoff)
    else Eligible(entries[1..], cutoff)
  }

  /** The size of a page: asking for nothing still yields one post. */
  function PageSize(posts: int): nat {
    if posts < 1 then 1 else posts
  }

  /** The first eligible entries, a page full of them. */
  function Page(entries: seq<Entry>, cutoff: int, posts: int): seq<Entry> {
    var all := Eligible(entries, cutoff);
    if PageSize(posts) < |all| then all[..PageSize(posts)] else all
  }

  function PostIds(entries: seq<Entry>): seq<string> {
    seq(|entries|, i requires 0 <= i < |entries| => entries[i].postId)
  }

  method ReadTimeline(entries: seq<Entry>, cutoff: int, posts: int) returns (ids: seq<string>)
    ensures ids == PostIds(Page(entries, cutoff, posts))
  {
    hide Eligible, PostIds, Page;
    ids := [];
    ghost var page: seq<Entry> := [];
    NothingRead(entries, cutoff);
    for i := 0 to |entries|
      invariant Eligible(entries, cutoff) == page + Eligible(entries[i..], cutoff)
      invariant ids == PostIds(page) && |page| < PageSize(posts)
    {
      EligibleNext(entries, cutoff, i);
      ghost var rest := Eligible(entries[i + 1..], cutoff);
      if entries[i].timestamp <= cutoff {
        NextPostId(page, entries[i]);
        assert page + ([entries[i]] + rest) == page + [entries[i]] + rest;
        ids := ids + [entries[i].postId];
        page := page + [entries[i]];
        if |ids| >= posts {
          PageIsRead(entries, cutoff, posts, page, rest);
          return;
        }
      }
    }
    PageIsRead(entries, cutoff, posts, page, Eligible(entries[|entries|..], cutoff));
  }

  lemma NothingRead(entries: seq<Entry>, cutoff: int)
    ensures PostIds([]) == [] && Eligible(entries[|entries|..], cutoff) == []
    ensures Eligible(entries, cutoff) == [] + Eligible(entries[0..], cutoff)
  {
    assert entries[0..] == entries;
  }

  /** A page ends when it is full or nothing eligible is left. */
  lemma PageIsRead(entries: seq<Entry>, cutoff: int, posts: int, page: seq<Entry>, rest: seq<Entry>)
    requires Eligible(entries, cutoff) == page + rest
    requires |page| == PageSize(posts) || (|page| < PageSize(posts) && rest == [])
    ensures Page(entries, cutoff, posts) == page
  {
    hide Eligible;
  }

  lemma EligibleNext(entries: seq<Entry>, cutoff: int, i: nat)
    requires i < |entries|
    ensures Eligible(entries[i..], cutoff)
            == (if entries[i].timestamp <= cutoff then [entries[i]] else []) + Eligible(entries[i + 1..], cutoff)
  {
    assert entries[i..][1..] == entries[i + 1..];
  }

  lemma NextPostId(page: seq<Entry>, e: Entry)
    ensures PostIds(page + [e]) == PostIds(page) + [e.postId] && |PostIds(page)| == |page|
  {
  }

  /** The first entry at or before the cutoff. */
  function FirstEligible(entries: seq<Entry>, cutoff: int): (i: nat)
    ensures i <= |entries|
    ensures forall j | 0 <= j < i :: entries[j].timestamp > cutoff
    ensures i < |entries| ==> entries[i].timestamp <= cutoff
  {
    if entries == [] || entries[0].timestamp <= cutoff then 0 else 1 + FirstEligible(entries[1..], cutoff)
  }

  lemma {:induction false} AllEligible(entries: seq<Entry>, cutoff: int)
    requires forall j | 0 <= j < |entries| :: entries[j].timestamp <= cutoff
    ensures Eligible(entries, cutoff) == entries
  {
    if entries != [] {
      AllEligible(entries[1..], cutoff);
    }
  }

  /** On a timeline in order everything from the first eligible entry on is eligible. */
  lemma {:induction false} EligibleIsSuffix(entries: seq<Entry>, cutoff: int)
    requires Descending(entries)
    ensures Eligible(entries, cutoff) == entries[FirstEligible(entries, cutoff)..]
  {
    if entries != [] {
      if entries[0].timestamp <= cutoff {
        AllEligible(entries, cutoff);
      } else {
        EligibleIsSuffix(entries[1..], cutoff);
      }
    }
  }

  /** Reading a timeline that holds the newest posts of a set: the page is in order, and whatever
      eligible post of the whole set is not on it is older than everything on it or did not fit. */
  lemma PageIsNewest(entries: seq<Entry>, all: set<Entry>, cutoff: int, posts: int, x: Entry)
    requires NewestOf(entries, all) && Descending(entries) && x in all && x.timestamp <= cutoff && x !in Page(entries, cutoff, posts)
    ensures var page := Page(entries, cutoff, posts);
            && (forall r | r in page :: r in all && x.timestamp < r.timestamp <= cutoff)
            && (|page| == (if posts < 1 then 1 else posts) || x !in entries)
  {
    PageSizeIs(posts);
    hide *;
    var i := FirstEligible(entries, cutoff);
    EligibleIsSuffix(entries, cutoff);
    PageIsSlice(entries, cutoff, posts);
    var page := Page(entries, cutoff, posts);
    SliceIsNewest(entries, all, cutoff, i, i + |page|, x);
  }

  lemma PageSizeIs(posts: int)
    ensures PageSize(posts) == if posts < 1 then 1 else posts
  {
  }

  /** These are the places of the eligible entries, in order. */
  ghost predicate PlacesOf(entries: seq<Entry>, cutoff: int, places: seq<nat>) {
    && (forall j | 0 <= j < |places| :: places[j] < |entries|)
    && (forall i, j | 0 <= i < j < |places| :: places[i] < places[j])
    && (forall k | 0 <= k < |entries| :: entries[k].timestamp <= cutoff <==> k in places)
  }

  lemma PlacesMove(entries: seq<Entry>, cutoff: int, rest: seq<nat>) returns (places: seq<nat>)
    requires entries != [] && PlacesOf(entries[1..], cutoff, rest)
    ensures PlacesOf(entries, cutoff, places)
    ensures var first: seq<nat> := if entries[0].timestamp <= cutoff then [0] else [];
            |places| == |first| + |rest| && places[..|first|] == first && forall j | 0 <= j < |rest| :: places[|first| + j] == rest[j] + 1
  {
    var moved := seq(|rest|, j requires 0 <= j < |rest| => rest[j] + 1);
    forall k | 0 < k < |entries|
      ensures k in moved <==> entries[k].timestamp <= cutoff
    {
      assert entries[1..][k - 1] == entries[k];
      if k - 1 in rest {
        var j :| 0 <= j < |rest| && rest[j] == k - 1;
        assert moved[j] == k;
      }
    }
    places := if entries[0].timestamp <= cutoff then [0] + moved else moved;
  }

  /** The entries at these places are those of the list. */
  ghost predicate Fits(entries: seq<Entry>, places: seq<nat>, all: seq<Entry>) {
    |places| == |all| && forall j | 0 <= j < |places| :: places[j] < |entries| && all[j] == entries[places[j]]
  }

  lemma FitsMoved(entries: seq<Entry>, rest: seq<nat>, all: seq<Entry>, places: seq<nat>, first: bool)
    requires entries != [] && Fits(entries[1..], rest, all)
    requires var n := if first then 1 else 0; |places| == n + |rest| && forall j | 0 <= j < |rest| :: places[n + j] == rest[j] + 1
    requires first ==> places[0] == 0
    ensures Fits(entries, places, (if first then [entries[0]] else []) + all)
  {
    var n := if first then 1 else 0;
    forall j | 0 <= j < |places|
      ensures places[j] < |entries| && ((if first then [entries[0]] else []) + all)[j] == entries[places[j]]
    {
      if j >= n {
        assert places[n + (j - n)] == rest[j - n] + 1;
        assert entries[1..][rest[j - n]] == entries[rest[j - n] + 1];
      }
    }
  }

  lemma {:induction false} EligiblePlaces(entries: seq<Entry>, cutoff: int) returns (places: seq<nat>)
    ensures PlacesOf(entries, cutoff, places) && Fits(entries, places, Eligible(entries, cutoff))
  {
    hide Fits, PlacesOf, Eligible;
    if entries == [] {
      places := [];
      NoPlaces(cutoff);
    } else {
      var rest := EligiblePlaces(entries[1..], cutoff);
      FitsLength(entries[1..], rest, Eligible(entries[1..], cutoff));
      var first := entries[0].timestamp <= cutoff;
      places := PlacesMove(entries, cutoff, rest);
      assert first ==> places[..1][0] == 0;
      FitsMoved(entries, rest, Eligible(entries[1..], cutoff), places, first);
      FirstOrNot(entries, cutoff);
    }
  }

  lemma NoPlaces(cutoff: int)
    ensures PlacesOf([], cutoff, []) && Fits([], [], Eligible([], cutoff))
  {
  }

  lemma FitsLength(entries: seq<Entry>, places: seq<nat>, all: seq<Entry>)
    requires Fits(entries, places, all)
    ensures |places| == |all|
  {
  }

  lemma FirstOrNot(entries: seq<Entry>, cutoff: int)
    requires entries != []
    ensures Eligible(entries, cutoff) == (if entries[0].timestamp <= cutoff then [entries[0]] else []) + Eligible(entries[1..], cutoff)
  {
  }

  /** A page takes entries at or before the cutoff in the order of the timeline, skips none of them, and
      stops only when it is full: at the number asked for, or at one when less than one is asked for. */
  lemma PageTakesFirst(entries: seq<Entry>, cutoff: int, posts: int) returns (places: seq<nat>)
    ensures var page, size := Page(entries, cutoff, posts), if posts < 1 then 1 else posts;
            && |places| == |page| <= size
            && (forall j | 0 <= j < |page| :: places[j] < |entries| && page[j] == entries[places[j]] && page[j].timestamp <= cutoff)
            && (forall i, j | 0 <= i < j < |page| :: places[i] < places[j])
            && (forall k | 0 <= k < |entries| && entries[k].timestamp <= cutoff && k !in places ::
                  |page| == size && forall j | 0 <= j < |page| :: places[j] < k)
  {
    hide Eligible;
    var all := EligiblePlaces(entries, cutoff);
    var page := Page(entries, cutoff, posts);
    places := all[..|page|];
    forall j | 0 <= j < |page|
      ensures places[j] < |entries| && page[j] == entries[places[j]] && page[j].timestamp <= cutoff
    {
      assert all[j] in all;
    }
    forall j | 0 <= j < |page|
      ensures all[j] in places
    {
      assert places[j] == all[j];
    }
    forall k | 0 <= k < |entries| && entries[k].timestamp <= cutoff && k !in places
      ensures |page| == PageSize(posts) && forall j | 0 <= j < |page| :: places[j] < k
    {
      var i :| 0 <= i < |all| && all[i] == k;
    }
  }

  lemma SliceIsNewest(entries: seq<Entry>, all: set<Entry>, cutoff: int, i: nat, j: nat, x: Entry)
    requires NewestOf(entries, all) && x in all && i <= j <= |entries| && x !in entries[i..j]
    requires (i < |entries| ==> entries[i].timestamp <= cutoff) && forall m | 0 <= m < i :: entries[m] != x
    ensures forall r | r in entries[i..j] :: r in all && x.timestamp < r.timestamp <= cutoff
    ensures j < |entries| || x !in entries
  {
    hide NewestOf;
    forall r | r in entries[i..j]
      ensures r in all && x.timestamp < r.timestamp <= cutoff
    {
      var k :| 0 <= k < j - i && entries[i..j][k] == r;
      NewerThanMissing(entries, all, cutoff, i, j, i + k, x);
    }
    if x in entries {
      var n := NotOnPage(entries, i, j, x);
    }
  }

  lemma NewerThanMissing(entries: seq<Entry>, all: set<Entry>, cutoff: int, i: nat, j: nat, k: nat, x: Entry)
    requires NewestOf(entries, all) && x in all && i <= k < j <= |entries| && x !in entries[i..j]
    requires entries[i].timestamp <= cutoff && forall m | 0 <= m < i :: entries[m] != x
    ensures entries[k] in all && x.timestamp < entries[k].timestamp <= cutoff
  {
    hide NewestOf;
    InOrder(entries, all, i, k);
    if x in entries {
      var n := NotOnPage(entries, i, j, x);
      InOrder(entries, all, k, n);
    } else {
      OlderThanListed(entries, all, x, k);
    }
  }

  lemma PageIsSlice(entries: seq<Entry>, cutoff: int, posts: int)
    requires Eligible(entries, cutoff) == entries[FirstEligible(entries, cutoff)..]
    ensures var i := FirstEligible(entries, cutoff); var page := Page(entries, cutoff, posts);
            && i + |page| <= |entries| && page == entries[i..i + |page|]
            && (|page| == PageSize(posts) || i + |page| == |entries|)
  {
  }

  lemma InOrder(entries: seq<Entry>, all: set<Entry>, k: nat, n: nat)
    requires NewestOf(entries, all) && k <= n < |entries|
    ensures entries[n] in all && entries[n].timestamp <= entries[k].timestamp
    ensures k < n ==> entries[n].timestamp < entries[k].timestamp
  {
  }

  lemma OlderThanListed(entries: seq<Entry>, all: set<Entry>, x: Entry, k: nat)
    requires NewestOf(entries, all) && x in all && x !in entries && k < |entries|
    ensures x.timestamp < entries[k].timestamp
  {
  }

  lemma InSlice(entries: seq<Entry>, i: nat, j: nat, n: nat)
    requires i <= n < j <= |entries|
    ensures entries[n] in entries[i..j]
  {
    assert entries[i..j][n - i] == entries[n];
  }

  /** An eligible entry outside a page that starts at the first eligible one lies behind it. */
  lemma NotOnPage(entries: seq<Entry>, i: nat, j: nat, x: Entry) returns (n: nat)
    requires i <= j <= |entries| && x in entries && x !in entries[i..j]
    requires forall k | 0 <= k < i :: entries[k] != x
    ensures j <= n < |entries| && entries[n] == x
  {
    n :| 0 <= n < |entries| && entries[n] == x;
    if i <= n < j {
      InSlice(entries, i, j, n);
      assert false;
    }
  }

  // ----- Timelines under concurrency

  /** The loop saves whatever it computed, changed or not. */
  function TimelineUpdate(entries: seq<Entry>, u: Update): Option<seq<Entry>> {
    Some(Updated(entries, u))
  }

  const TIMELINES := OptimisticUpdate.Service(TimelineUpdate, [])

  lemma {:induction false} FoldIsUpdateAll(start: seq<Entry>, log: seq<OptimisticUpdate.Entry<Update>>)
    ensures OptimisticUpdate.Fold(TIMELINES, start, log) == UpdateAll(start, OptimisticUpdate.Ops(log))
  {
    if log != [] {
      hide Updated;
      var front, last := log[..|log| - 1], log[|log| - 1];
      FoldIsUpdateAll(start, front);
      var ops := OptimisticUpdate.Ops(front);
      assert (ops + [last.op])[..|ops|] == ops;
      assert OptimisticUpdate.Fold(TIMELINES, start, log) == Updated(OptimisticUpdate.Fold(TIMELINES, start, front), last.op);
    }
  }

  /** The calls that took effect are additions, one timestamp for each post. */
  ghost predicate OnlyAdds(all: set<Entry>, log: seq<OptimisticUpdate.Entry<Update>>) {
    Stamped(all + AddedBy(OptimisticUpdate.Ops(log))) && forall i | 0 <= i < |OptimisticUpdate.Ops(log)| :: OptimisticUpdate.Ops(log)[i].Add?
  }

  /** On a store that checks etags, over every interleaving of any number of workers adding posts to
      a timeline that holds the newest thousand of some posts, it ends as the newest thousand of
      these and of all posts whose addition succeeded. */
  lemma InterleavedAddsLeaveNewest(start: seq<Entry>, all: set<Entry>, etag: nat, clients: nat, steps: seq<OptimisticUpdate.Step<Update>>)
    requires NewestOf(start, all)
    requires OptimisticUpdate.After(TIMELINES, OptimisticUpdate.Initial(Some(OptimisticUpdate.Cell(start, etag)), clients), steps).Some?
    requires OnlyAdds(all, OptimisticUpdate.After(TIMELINES, OptimisticUpdate.Initial(Some(OptimisticUpdate.Cell(start, etag)), clients), steps).value.log)
    ensures var s := OptimisticUpdate.After(TIMELINES, OptimisticUpdate.Initial(Some(OptimisticUpdate.Cell(start, etag)), clients), steps).value;
            s.cell.Some? && NewestOf(s.cell.value.value, all + AddedBy(OptimisticUpdate.Ops(s.log)))
  {
    hide NewestOf, Stamped, AddedBy;
    OptimisticUpdate.NoLostUpdate(TIMELINES, OptimisticUpdate.Cell(start, etag), clients, steps);
    var s := OptimisticUpdate.After(TIMELINES, OptimisticUpdate.Initial(Some(OptimisticUpdate.Cell(start, etag)), clients), steps).value;
    FoldIsUpdateAll(start, s.log);
    AddsLeaveNewest(start, all, OptimisticUpdate.Ops(s.log));
  }

  /** A timeline starts absent. As long as no unconditional save meets an existing timeline, the
      workers leave the newest thousand of all posts whose addition succeeded. */
  lemma FirstAddsLeaveNewest(clients: nat, steps: seq<OptimisticUpdate.Step<Update>>)
    requires OptimisticUpdate.GuardedRun(TIMELINES, OptimisticUpdate.Initial(None, clients), steps)
    requires OptimisticUpdate.After(TIMELINES, OptimisticUpdate.Initial(None, clients), steps).Some?
    requires OnlyAdds({}, OptimisticUpdate.After(TIMELINES, OptimisticUpdate.Initial(None, clients), steps).value.log)
    ensures var s := OptimisticUpdate.After(TIMELINES, OptimisticUpdate.Initial(None, clients), steps).value;
            NewestOf(OptimisticUpdate.Current(TIMELINES, s), AddedBy(OptimisticUpdate.Ops(s.log)))
  {
    assert NewestOf([], {});
    hide NewestOf, Stamped, AddedBy;
    OptimisticUpdate.NoLostUpdateFromAbsent(TIMELINES, clients, steps);
    var s := OptimisticUpdate.After(TIMELINES, OptimisticUpdate.Initial(None, clients), steps).value;
    FoldIsUpdateAll([], s.log);
    AddsLeaveNewest([], {}, OptimisticUpdate.Ops(s.log));
    assert {} + AddedBy(OptimisticUpdate.Ops(s.log)) == AddedBy(OptimisticUpdate.Ops(s.log));
  }
}
