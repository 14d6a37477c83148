/** Go's byte-wise string order and the sorting contract the repository relies on. */
module Orders {

  /** Go's `<` on strings, one `char` standing for one byte. */
  predicate StringLess(a: string, b: string) {
    if |b| == 0 then false
    else if |a| == 0 then true
    else a[0] < b[0] || (a[0] == b[0] && StringLess(a[1..], b[1..]))
  }

  /** The strings agree before `k`; there the first ends, or has the smaller character. */
  predicate LessAt(a: string, b: string, k: nat) {
    k <= |a| && k < |b| && a[..k] == b[..k] && (k == |a| || a[k] < b[k])
  }

  lemma {:induction false} StringLessIs(a: string, b: string)
    ensures StringLess(a, b) <==> exists k: nat :: LessAt(a, b, k)
  {
    if |a| == 0 && |b| > 0 {
      assert LessAt(a, b, 0);
    } else if |a| > 0 && |b| > 0 {
      StringLessIs(a[1..], b[1..]);
      if a[0] < b[0] {
        assert LessAt(a, b, 0);
      }
      if a[0] == b[0] && StringLess(a[1..], b[1..]) {
        var k: nat :| LessAt(a[1..], b[1..], k);
        assert a[..k + 1] == [a[0]] + a[1..][..k] && b[..k + 1] == [b[0]] + b[1..][..k];
        assert LessAt(a, b, k + 1);
      }
      if k: nat :| LessAt(a, b, k) {
        if k > 0 {
          assert a[..k][0] == b[..k][0];
          assert a[1..][..k - 1] == a[..k][1..] && b[1..][..k - 1] == b[..k][1..];
          assert LessAt(a[1..], b[1..], k - 1);
        }
      }
    }
  }

  lemma {:induction false} StringLessTrichotomy(a: string, b: string)
    ensures StringLess(a, b) ==> a != b && !StringLess(b, a)
    ensures a == b || StringLess(a, b) || StringLess(b, a)
  {
    if |a| > 0 && |b| > 0 {
      StringLessTrichotomy(a[1..], b[1..]);
      if a[0] == b[0] && a[1..] == b[1..] {
        assert a == [a[0]] + a[1..] == [b[0]] + b[1..] == b;
      }
    }
  }

  lemma {:induction false} StringLessTransitive(a: string, b: string, c: string)
    requires StringLess(a, b) && StringLess(b, c)
    ensures StringLess(a, c)
  {
    if |a| > 0 && a[0] == b[0] == c[0] {
      StringLessTransitive(a[1..], b[1..], c[1..]);
    }
  }

  lemma StringTriple(x: string, y: string, z: string)
    ensures StringLess(x, y) ==> x != y && !StringLess(y, x)
    ensures x == y || StringLess(x, y) || StringLess(y, x)
    ensures StringLess(x, y) && StringLess(y, z) ==> StringLess(x, z)
  {
    StringLessTrichotomy(x, y);
    if StringLess(x, y) && StringLess(y, z) {
      StringLessTransitive(x, y, z);
    }
  }

  /** Stable insertion: `x` goes before every element that is not smaller than it. */
  function Insert<T>(x: T, s: seq<T>, less: (T, T) -> bool): (r: seq<T>)
    ensures multiset(r) == multiset(s) + multiset{x}
    ensures |r| == |s| + 1
  {
    if s == [] then [x]
    else if !less(s[0], x) then
      [x] + s
    else
      assert s == [s[0]] + s[1..];
      [s[0]] + Insert(x, s[1..], less)
  }

  /** The result of Go's `sort.SliceStable(s, less)`; also a legal result of `sort.Slice`. */
  function SortBy<T>(s: seq<T>, less: (T, T) -> bool): (r: seq<T>)
    ensures multiset(r) == multiset(s)
    ensures |r| == |s|
  {
    if s == [] then []
    else
      assert s == [s[0]] + s[1..];
      Insert(s[0], SortBy(s[1..], less), less)
  }

  ghost predicate Sorted<T>(s: seq<T>, less: (T, T) -> bool) {
    forall i, j | 0 <= i < j < |s| :: !less(s[j], s[i])
  }

  /** What a comparison must satisfy on the elements of `s` for sorting to mean anything:
      a strict order whose "not smaller" relation is transitive. */
  ghost predicate StrictWeakOn<T>(s: seq<T>, less: (T, T) -> bool) {
    && (forall x, y | x in s && y in s && less(x, y) :: !less(y, x))
    && (forall x, y, z | x in s && y in s && z in s && !less(x, y) && !less(y, z) :: !less(x, z))
  }

  /** Distinct elements are always comparable. */
  ghost predicate TotalOn<T>(s: seq<T>, less: (T, T) -> bool) {
    forall x, y | x in s && y in s && x != y :: less(x, y) || less(y, x)
  }

  lemma SameElements<T>(a: seq<T>, b: seq<T>)
    requires multiset(a) == multiset(b)
    ensures forall x | x in a :: x in b
    ensures forall x | x in b :: x in a
  {
    assert forall x | x in a :: x in multiset(b);
    assert forall x | x in b :: x in multiset(a);
  }

  lemma {:induction false} InsertSorted<T>(x: T, s: seq<T>, less: (T, T) -> bool)
    requires Sorted(s, less) && StrictWeakOn([x] + s, less)
    ensures Sorted(Insert(x, s, less), less)
  {
    var whole := [x] + s;
    assert x == whole[0] && forall i | 0 <= i < |s| :: s[i] == whole[i + 1];
    if s == [] {
    } else if !less(s[0], x) {
      forall j | 0 <= j < |s|
        ensures !less(s[j], x)
      {
        assert j > 0 ==> !less(s[j], s[0]);
        assert s[j] in whole && s[0] in whole && x in whole;
      }
    } else {
      assert forall y | y in [x] + s[1..] :: y in whole;
      InsertSorted(x, s[1..], less);
      var r := Insert(x, s[1..], less);
      forall j | 0 <= j < |r|
        ensures !less(r[j], s[0])
      {
        assert r[j] in multiset(r);
        if r[j] != x {
          assert r[j] in multiset(s[1..]);
          assert r[j] in s[1..];
          var k :| 0 <= k < |s[1..]| && s[1..][k] == r[j];
          assert s[k + 1] == r[j];
        } else {
          assert x in whole && s[0] in whole;
        }
      }
    }
  }

  lemma {:induction false} SortBySorted<T>(s: seq<T>, less: (T, T) -> bool)
    requires StrictWeakOn(s, less)
    ensures Sorted(SortBy(s, less), less)
  {
    if s != [] {
      assert forall x | x in s[1..] :: x in s;
      SortBySorted(s[1..], less);
      var r := SortBy(s[1..], less);
      SameElements(r, s[1..]);
      forall x | x in [s[0]] + r
        ensures x in s
      {
        if x != s[0] {
          assert x in r;
          assert x in s[1..];
        }
      }
      InsertSorted(s[0], r, less);
    }
  }

  lemma SortedSameFirst<T>(a: seq<T>, b: seq<T>, less: (T, T) -> bool)
    requires multiset(a) == multiset(b) && a != [] && b != []
    requires Sorted(a, less) && Sorted(b, less)
    requires TotalOn(a, less)
    ensures a[0] == b[0]
  {
    SameElements(a, b);
    assert b[0] in b && a[0] in a;
    var i :| 0 <= i < |a| && a[i] == b[0];
    var j :| 0 <= j < |b| && b[j] == a[0];
    assert i > 0 ==> !less(a[i], a[0]);
    assert j > 0 ==> !less(b[j], b[0]);
  }

  lemma SortedTail<T>(a: seq<T>, less: (T, T) -> bool)
    requires Sorted(a, less) && TotalOn(a, less) && a != []
    ensures Sorted(a[1..], less) && TotalOn(a[1..], less)
    ensures multiset(a[1..]) == multiset(a) - multiset{a[0]}
  {
    assert a == [a[0]] + a[1..];
    assert forall x | x in a[1..] :: x in a;
  }

  lemma TotalOnSame<T>(a: seq<T>, b: seq<T>, less: (T, T) -> bool)
    requires multiset(a) == multiset(b) && TotalOn(a, less)
    ensures TotalOn(b, less)
  {
    SameElements(a, b);
  }

  /** A total order leaves only one sorted arrangement of the same elements. */
  lemma {:induction false} SortedUnique<T>(a: seq<T>, b: seq<T>, less: (T, T) -> bool)
    requires multiset(a) == multiset(b)
    requires Sorted(a, less) && Sorted(b, less)
    requires TotalOn(a, less)
    ensures a == b
  {
    hide Sorted, TotalOn;
    SameLength(a, b);
    if a != [] {
      SortedTails(a, b, less);
      SortedUnique(a[1..], b[1..], less);
      SameParts(a, b);
    }
  }

  lemma SortedTails<T>(a: seq<T>, b: seq<T>, less: (T, T) -> bool)
    requires multiset(a) == multiset(b) && a != [] && b != []
    requires Sorted(a, less) && Sorted(b, less) && TotalOn(a, less)
    ensures a[0] == b[0] && multiset(a[1..]) == multiset(b[1..])
    ensures Sorted(a[1..], less) && Sorted(b[1..], less) && TotalOn(a[1..], less)
  {
    hide Sorted, TotalOn;
    SortedSameFirst(a, b, less);
    TotalOnSame(a, b, less);
    SortedTail(a, less);
    SortedTail(b, less);
  }

  lemma SameParts<T>(a: seq<T>, b: seq<T>)
    requires a != [] && b != [] && a[0] == b[0] && a[1..] == b[1..]
    ensures a == b
  {
    assert a == [a[0]] + a[1..] && b == [b[0]] + b[1..];
  }

  lemma SameLength<T>(a: seq<T>, b: seq<T>)
    requires multiset(a) == multiset(b)
    ensures |a| == |b|
  {
    assert |a| == |multiset(a)| == |multiset(b)| == |b|;
  }

  // ----- Element-wise images

  function MapSeq<A, B>(f: A -> B, s: seq<A>): (r: seq<B>)
    ensures |r| == |s| && forall i | 0 <= i < |s| :: r[i] == f(s[i])
  {
    if s == [] then [] else [f(s[0])] + MapSeq(f, s[1..])
  }

  lemma MapIs<A, B>(f: A -> B, s: seq<A>, r: seq<B>)
    requires |r| == |s| && forall i | 0 <= i < |s| :: r[i] == f(s[i])
    ensures r == MapSeq(f, s)
  {
  }

  lemma MapConcat<A, B>(f: A -> B, a: seq<A>, b: seq<A>)
    ensures MapSeq(f, a + b) == MapSeq(f, a) + MapSeq(f, b)
  {
    MapIs(f, a + b, MapSeq(f, a) + MapSeq(f, b));
  }

  lemma PullOut<A>(b: seq<A>, x: A) returns (i: nat)
    requires x in b
    ensures i < |b| && b == b[..i] + [x] + b[i + 1..]
    ensures multiset(b[..i] + b[i + 1..]) == multiset(b) - multiset{x}
  {
    i :| 0 <= i < |b| && b[i] == x;
    assert b == b[..i] + [b[i]] + b[i + 1..];
    assert multiset(b) == multiset(b[..i] + b[i + 1..]) + multiset{x};
  }

  /** The images of two arrangements of the same elements are arrangements of the same elements. */
  lemma {:induction false} MapPermutes<A, B>(f: A -> B, a: seq<A>, b: seq<A>)
    requires multiset(a) == multiset(b)
    ensures multiset(MapSeq(f, a)) == multiset(MapSeq(f, b))
  {
    if a == [] {
      assert |multiset(b)| == 0;
      assert b == [];
    } else {
      var x, tail := a[0], a[1..];
      assert a == [x] + tail;
      assert x in multiset(b);
      var i := PullOut(b, x);
      var l, r := b[..i], b[i + 1..];
      assert multiset(tail) == multiset(a) - multiset{x};
      MapPermutes(f, tail, l + r);
      MapOfParts(f, x, tail, l, r);
    }
  }

  lemma MapOfParts<A, B>(f: A -> B, x: A, tail: seq<A>, l: seq<A>, r: seq<A>)
    requires multiset(MapSeq(f, tail)) == multiset(MapSeq(f, l + r))
    ensures multiset(MapSeq(f, [x] + tail)) == multiset(MapSeq(f, l + [x] + r))
  {
    MapConcat(f, [x], tail);
    MapConcat(f, l, r);
    MapConcat(f, l, [x]);
    MapConcat(f, l + [x], r);
    assert MapSeq(f, [x]) == [f(x)];
  }

  /** The comparison does not see what the image changes. */
  ghost predicate Blind<A(!new)>(f: A -> A, less: (A, A) -> bool) {
    forall a, b :: less(f(a), f(b)) == less(a, b)
  }

  lemma {:induction false} MapInsert<A(!new)>(f: A -> A, x: A, s: seq<A>, less: (A, A) -> bool)
    requires Blind(f, less)
    ensures MapSeq(f, Insert(x, s, less)) == Insert(f(x), MapSeq(f, s), less)
  {
    if s != [] {
      assert less(f(s[0]), f(x)) == less(s[0], x);
      MapConcat(f, [s[0]], Insert(x, s[1..], less));
      MapConcat(f, [x], s);
      assert MapSeq(f, [s[0]]) == [f(s[0])] && MapSeq(f, [x]) == [f(x)];
      assert MapSeq(f, s)[1..] == MapSeq(f, s[1..]);
      if less(s[0], x) {
        MapInsert(f, x, s[1..], less);
      }
    }
  }

  /** Sorting commutes with an image the comparison does not see. */
  lemma {:induction false} MapSort<A(!new)>(f: A -> A, s: seq<A>, less: (A, A) -> bool)
    requires Blind(f, less)
    ensures MapSeq(f, SortBy(s, less)) == SortBy(MapSeq(f, s), less)
  {
    if s != [] {
      MapSort(f, s[1..], less);
      MapInsert(f, s[0], SortBy(s[1..], less), less);
      assert MapSeq(f, s)[1..] == MapSeq(f, s[1..]);
    }
  }
}
