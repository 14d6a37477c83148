/** The index of function values stored into struct fields and of calls through such fields,
    filled incrementally as functions are discovered. */
module StructFieldIndex {
  import opened Collections
  import opened Functions
  import opened Orders

  /** How a function got into a field, or that the field was called. */
  datatype Kind = FuncValue | LiteralAssignment | Call

  /** A record about one field: the stored function or the calling one. `detail` stands for the
      position and the types that come with it. */
  datatype Entry = Entry(key: string, fn: Func, kind: Kind, detail: nat)

  /** What makes two records the same. */
  datatype Tag = Tag(key: string, fn: Func, kind: Kind)

  function TagOf(e: Entry): Tag {
    Tag(e.key, e.fn, e.kind)
  }

  /** The stores and the field calls of one function body, in instruction order. */
  datatype Body = Body(writes: seq<Entry>, calls: seq<FieldCall>)

  datatype FieldCall = FieldCall(key: string, detail: nat)

  function CallEntries(fn: Func, calls: seq<FieldCall>): (es: seq<Entry>)
    ensures |es| == |calls| && forall i | 0 <= i < |calls| :: es[i] == Entry(calls[i].key, fn, Call, calls[i].detail)
  {
    seq(|calls|, i requires 0 <= i < |calls| => Entry(calls[i].key, fn, Call, calls[i].detail))
  }

  type Table = map<string, seq<Entry>>

  predicate EntryLess(a: Entry, b: Entry) {
    KeyLess(a.fn, b.fn)
  }

  predicate Known(list: seq<Entry>, e: Entry) {
    exists i :: 0 <= i < |list| && list[i].fn == e.fn && list[i].kind == e.kind
  }

  function ListAt(table: Table, key: string): seq<Entry> {
    if key in table then table[key] else []
  }

  /** A new record goes to the end of its list, which is then sorted by function key. */
  function WithEntry(table: Table, e: Entry): Table {
    if Known(ListAt(table, e.key), e) then table
    else table[e.key := SortBy(ListAt(table, e.key) + [e], EntryLess)]
  }

  function WithEntries(table: Table, es: seq<Entry>): Table {
    if es == [] then table else WithEntry(WithEntries(table, es[..|es| - 1]), es[|es| - 1])
  }

  // ----- What a table says

  ghost function View(table: Table): set<Tag> {
    set k, e | k in table && e in table[k] :: TagOf(e)
  }

  ghost function Tags(es: seq<Entry>): set<Tag> {
    set e | e in es :: TagOf(e)
  }

  ghost predicate DistinctTags(list: seq<Entry>) {
    forall i, j | 0 <= i < j < |list| :: TagOf(list[i]) != TagOf(list[j])
  }

  ghost predicate TidyList(list: seq<Entry>, key: string) {
    Sorted(list, EntryLess) && DistinctTags(list) && forall e | e in list :: e.key == key
  }

  /** Every list is sorted by function key and free of duplicates. */
  ghost predicate Tidy(table: Table) {
    forall k | k in table :: TidyList(table[k], k)
  }

  lemma EntryLessIsWeak(s: seq<Entry>)
    ensures StrictWeakOn(s, EntryLess)
  {
    forall x, y | EntryLess(x, y)
      ensures !EntryLess(y, x)
    {
      StringLessTrichotomy(x.fn.key.Text(), y.fn.key.Text());
    }
    forall x: Entry, y: Entry, z: Entry | !EntryLess(x, y) && !EntryLess(y, z)
      ensures !EntryLess(x, z)
    {
      var a, b, c := x.fn.key.Text(), y.fn.key.Text(), z.fn.key.Text();
      StringLessTrichotomy(a, b);
      StringLessTrichotomy(b, c);
      StringLessTrichotomy(a, c);
      if StringLess(b, a) && StringLess(c, b) {
        StringLessTransitive(c, b, a);
      }
    }
  }

  lemma KnownIsTagged(list: seq<Entry>, e: Entry)
    requires forall d | d in list :: d.key == e.key
    ensures Known(list, e) <==> TagOf(e) in Tags(list)
  {
    if Known(list, e) {
      var i :| 0 <= i < |list| && list[i].fn == e.fn && list[i].kind == e.kind;
      assert list[i] in list && TagOf(list[i]) == TagOf(e);
    }
    if TagOf(e) in Tags(list) {
      var d :| d in list && TagOf(d) == TagOf(e);
      var i :| 0 <= i < |list| && list[i] == d;
    }
  }

  lemma DistinctAppend(list: seq<Entry>, e: Entry)
    requires DistinctTags(list) && TagOf(e) !in Tags(list)
    ensures DistinctTags(list + [e])
  {
    forall i | 0 <= i < |list|
      ensures TagOf(list[i]) != TagOf(e)
    {
      assert list[i] in list;
    }
  }

  lemma DistinctPermuted(a: seq<Entry>, b: seq<Entry>)
    requires multiset(a) == multiset(b) && DistinctTags(a)
    ensures DistinctTags(b)
  {
    SameElements(a, b);
    assert Distinct(a);
    PermutedDistinct(a, b);
    forall i, j | 0 <= i < j < |b|
      ensures TagOf(b[i]) != TagOf(b[j])
    {
      if TagOf(b[i]) == TagOf(b[j]) {
        TagNamesOne(a, b[i], b[j]);
        assert false;
      }
    }
  }

  lemma TagNamesOne(a: seq<Entry>, x: Entry, y: Entry)
    requires DistinctTags(a) && x in a && y in a && TagOf(x) == TagOf(y)
    ensures x == y
  {
    var i :| 0 <= i < |a| && a[i] == x;
    var j :| 0 <= j < |a| && a[j] == y;
  }

  /** Adding one record keeps the lists tidy and adds exactly its tag. */
  lemma WithEntryIs(table: Table, e: Entry)
    requires Tidy(table)
    ensures Tidy(WithEntry(table, e)) && View(WithEntry(table, e)) == View(table) + {TagOf(e)}
  {
    hide SortBy, Sorted, DistinctTags, EntryLess, Known;
    var list := ListAt(table, e.key);
    EmptyIsTidy(e.key);
    assert TidyList(list, e.key);
    KnownIsTagged(list, e);
    if Known(list, e) {
      TaggedIsViewed(table, e);
    } else {
      TidyAppend(list, e);
      ViewUpdate(table, e);
    }
  }

  lemma EmptyIsTidy(key: string)
    ensures TidyList([], key)
  {
  }

  lemma TidyAppend(list: seq<Entry>, e: Entry)
    requires TidyList(list, e.key) && TagOf(e) !in Tags(list)
    ensures TidyList(SortBy(list + [e], EntryLess), e.key)
  {
    hide SortBy, Sorted, DistinctTags, EntryLess;
    var longer := SortBy(list + [e], EntryLess);
    EntryLessIsWeak(list + [e]);
    SortBySorted(list + [e], EntryLess);
    DistinctAppend(list, e);
    DistinctPermuted(list + [e], longer);
    SameElements(longer, list + [e]);
  }

  lemma TaggedIsViewed(table: Table, e: Entry)
    requires TagOf(e) in Tags(ListAt(table, e.key))
    ensures TagOf(e) in View(table)
  {
    var d :| d in ListAt(table, e.key) && TagOf(d) == TagOf(e);
    assert e.key in table && d in table[e.key];
  }

  lemma ViewUpdate(table: Table, e: Entry)
    ensures View(table[e.key := SortBy(ListAt(table, e.key) + [e], EntryLess)]) == View(table) + {TagOf(e)}
  {
    hide SortBy;
    var list := ListAt(table, e.key);
    var longer := SortBy(list + [e], EntryLess);
    var after := table[e.key := longer];
    SameElements(longer, list + [e]);
    forall t | t in View(after)
      ensures t in View(table) + {TagOf(e)}
    {
      var k, d :| k in after && d in after[k] && TagOf(d) == t;
      if k == e.key && d != e {
        assert d in list + [e];
        assert d in list;
      }
    }
    forall t | t in View(table) + {TagOf(e)}
      ensures t in View(after)
    {
      if t == TagOf(e) {
        assert e in list + [e];
        assert e.key in after && e in after[e.key];
      } else {
        var k, d :| k in table && d in table[k] && TagOf(d) == t;
        if k == e.key {
          assert d in list + [e];
          assert k in after && d in after[k];
        } else {
          assert k in after && d in after[k];
        }
      }
    }
  }

  lemma {:induction false} WithEntriesIs(table: Table, es: seq<Entry>)
    requires Tidy(table)
    ensures Tidy(WithEntries(table, es)) && View(WithEntries(table, es)) == View(table) + Tags(es)
  {
    if es != [] {
      hide WithEntry, Tidy, View, Tags;
      var front, last := es[..|es| - 1], es[|es| - 1];
      WithEntriesIs(table, front);
      WithEntryIs(WithEntries(table, front), last);
      TagsLast(es);
    } else {
      assert Tags(es) == {};
    }
  }

  lemma TagsLast(es: seq<Entry>)
    requires es != []
    ensures Tags(es) == Tags(es[..|es| - 1]) + {TagOf(es[|es| - 1])}
  {
    assert es == es[..|es| - 1] + [es[|es| - 1]];
  }

  /** The call table holds calls only. */
  ghost predicate OnlyCalls(table: Table) {
    forall k, e | k in table && e in table[k] :: e.kind == Call
  }

  lemma OnlyCallsAt(table: Table, read: Entry)
    requires OnlyCalls(table) && read.kind == Call
    ensures forall e | e in ListAt(table, read.key) :: e.kind == Call
    ensures OnlyCalls(WithEntry(table, read))
  {
    hide SortBy;
    SameElements(SortBy(ListAt(table, read.key) + [read], EntryLess), ListAt(table, read.key) + [read]);
  }

  lemma {:induction false} OnlyCallsAll(table: Table, es: seq<Entry>)
    requires OnlyCalls(table) && forall e | e in es :: e.kind == Call
    ensures OnlyCalls(WithEntries(table, es))
  {
    if es != [] {
      hide OnlyCalls, WithEntry;
      var front, last := es[..|es| - 1], es[|es| - 1];
      assert last in es && forall e | e in front :: e in es;
      OnlyCallsAll(table, front);
      OnlyCallsAt(WithEntries(table, front), last);
    }
  }

  // ----- The scan of a set of functions at once

  ghost function WritesOf(code: Func -> Body, fns: set<Func>): set<Tag> {
    set f, t | f in fns && t in Tags(code(f).writes) :: t
  }

  ghost function CallsOf(code: Func -> Body, fns: set<Func>): set<Tag> {
    set f, t | f in fns && t in Tags(CallEntries(f, code(f).calls)) :: t
  }

  lemma ScanOneMore(code: Func -> Body, fns: set<Func>, fn: Func)
    ensures WritesOf(code, fns + {fn}) == WritesOf(code, fns) + Tags(code(fn).writes)
    ensures CallsOf(code, fns + {fn}) == CallsOf(code, fns) + Tags(CallEntries(fn, code(fn).calls))
  {
  }

  /** The state of an index that has scanned exactly these functions. */
  ghost predicate Indexed(code: Func -> Body, scanned: set<Func>, stores: Table, calls: Table) {
    && Tidy(stores) && View(stores) == WritesOf(code, scanned)
    && Tidy(calls) && View(calls) == CallsOf(code, scanned) && OnlyCalls(calls)
  }

  lemma IndexOneMore(code: Func -> Body, scanned: set<Func>, stores: Table, calls: Table, fn: Func)
    requires Indexed(code, scanned, stores, calls)
    ensures Indexed(code, scanned + {fn}, WithEntries(stores, code(fn).writes), WithEntries(calls, CallEntries(fn, code(fn).calls)))
  {
    hide Tidy, View, WithEntries, WritesOf, CallsOf, OnlyCalls;
    WithEntriesIs(stores, code(fn).writes);
    WithEntriesIs(calls, CallEntries(fn, code(fn).calls));
    ScanOneMore(code, scanned, fn);
    OnlyCallsAll(calls, CallEntries(fn, code(fn).calls));
  }

  class FieldIndex {
    const code: Func -> Body
    var stores: Table
    var calls: Table
    var scanned: set<Func>

    constructor (code: Func -> Body)
      ensures this.code == code && scanned == {} && Valid()
    {
      this.code, stores, calls, scanned := code, map[], map[], {};
    }

    /** The index agrees with one scan of everything it has been given. */
    ghost predicate Valid()
      reads this
    {
      Indexed(code, scanned, stores, calls)
    }

    method AddStore(stored: Entry)
      modifies this`stores
      ensures stores == WithEntry(old(stores), stored)
    {
      var list := ListAt(stores, stored.key);
      for i := 0 to |list|
        invariant stores == old(stores)
        invariant forall j | 0 <= j < i :: !(list[j].fn == stored.fn && list[j].kind == stored.kind)
      {
        if list[i].fn == stored.fn && list[i].kind == stored.kind {
          return;
        }
      }
      stores := stores[stored.key := SortBy(list + [stored], EntryLess)];
    }

    /** A second call of a field from the same function is not recorded. */
    method AddRead(read: Entry)
      requires read.kind == Call && forall e | e in ListAt(calls, read.key) :: e.kind == Call
      modifies this`calls
      ensures calls == WithEntry(old(calls), read)
    {
      var list := ListAt(calls, read.key);
      for i := 0 to |list|
        invariant calls == old(calls)
        invariant forall j | 0 <= j < i :: list[j].fn != read.fn
      {
        if list[i].fn == read.fn {
          assert list[i] in list;
          return;
        }
      }
      calls := calls[read.key := SortBy(list + [read], EntryLess)];
    }

    method ScanWrites(fn: Func)
      modifies this`stores
      ensures stores == WithEntries(old(stores), code(fn).writes)
    {
      var writes := code(fn).writes;
      for i := 0 to |writes|
        invariant stores == WithEntries(old(stores), writes[..i])
      {
        assert writes[..i + 1][..i] == writes[..i];
        AddStore(writes[i]);
      }
      assert writes[..|writes|] == writes;
    }

    method ScanCalls(fn: Func)
      requires OnlyCalls(calls)
      modifies this`calls
      ensures calls == WithEntries(old(calls), CallEntries(fn, code(fn).calls)) && OnlyCalls(calls)
    {
      hide OnlyCalls, WithEntry;
      var found := code(fn).calls;
      ghost var es := CallEntries(fn, found);
      for i := 0 to |found|
        invariant calls == WithEntries(old(calls), es[..i]) && OnlyCalls(calls)
      {
        assert es[..i + 1][..i] == es[..i];
        var read := Entry(found[i].key, fn, Call, found[i].detail);
        OnlyCallsAt(calls, read);
        AddRead(read);
      }
      assert es[..|found|] == es;
    }

    /** Scans one function. */
    method ScanFunction(fn: Func)
      requires Valid()
      modifies this
      ensures Valid() && scanned == old(scanned) + {fn}
    {
      assert OnlyCalls(calls);
      IndexOneMore(code, scanned, stores, calls, fn);
      hide Indexed, OnlyCalls;
      scanned := scanned + {fn};
      ScanWrites(fn);
      ScanCalls(fn);
    }

    /** Scans the functions that were not scanned before. */
    method Update(newFuncs: seq<Func>)
      requires Valid()
      modifies this
      ensures Valid() && scanned == old(scanned) + set f | f in newFuncs
    {
      hide Indexed;
      var fns := SortedUniqueFunctions(newFuncs);
      for i := 0 to |fns|
        invariant Valid()
        invariant scanned == old(scanned) + set f | f in fns[..i]
      {
        assert fns[..i + 1] == fns[..i] + [fns[i]];
        var fn := fns[i];
        if fn in scanned {
          continue;
        }
        ScanFunction(fn);
      }
      assert fns[..|fns|] == fns;
    }
  }

  /** Two indexes over the same functions say the same, however the functions were handed to them. */
  lemma IncrementalAgreesWithBatch(code: Func -> Body, scanned: set<Func>, stores: Table, calls: Table, stores': Table, calls': Table)
    requires Indexed(code, scanned, stores, calls) && Indexed(code, scanned, stores', calls')
    ensures forall k, fn, kind ::
              Known(ListAt(stores, k), Entry(k, fn, kind, 0)) <==> Known(ListAt(stores', k), Entry(k, fn, kind, 0))
    ensures forall k, fn, kind ::
              Known(ListAt(calls, k), Entry(k, fn, kind, 0)) <==> Known(ListAt(calls', k), Entry(k, fn, kind, 0))
    ensures forall k :: |ListAt(stores, k)| == |ListAt(stores', k)| && |ListAt(calls, k)| == |ListAt(calls', k)|
  {
    hide Known, Tidy, View, WritesOf, CallsOf;
    forall k, fn, kind
      ensures Known(ListAt(stores, k), Entry(k, fn, kind, 0)) <==> Known(ListAt(stores', k), Entry(k, fn, kind, 0))
      ensures Known(ListAt(calls, k), Entry(k, fn, kind, 0)) <==> Known(ListAt(calls', k), Entry(k, fn, kind, 0))
    {
      KnownIsViewed(stores, k, fn, kind);
      KnownIsViewed(stores', k, fn, kind);
      KnownIsViewed(calls, k, fn, kind);
      KnownIsViewed(calls', k, fn, kind);
    }
    forall k
      ensures |ListAt(stores, k)| == |ListAt(stores', k)| && |ListAt(calls, k)| == |ListAt(calls', k)|
    {
      SizeIsViewed(stores, stores', k);
      SizeIsViewed(calls, calls', k);
    }
  }

  lemma KnownIsViewed(table: Table, k: string, fn: Func, kind: Kind)
    requires Tidy(table)
    ensures Known(ListAt(table, k), Entry(k, fn, kind, 0)) <==> Tag(k, fn, kind) in View(table)
  {
    hide Known, Sorted, DistinctTags;
    var e := Entry(k, fn, kind, 0);
    EmptyIsTidy(k);
    assert TidyList(ListAt(table, k), k);
    KnownIsTagged(ListAt(table, k), e);
    if TagOf(e) in Tags(ListAt(table, k)) {
      TaggedIsViewed(table, e);
    }
    if TagOf(e) in View(table) {
      var k', d :| k' in table && d in table[k'] && TagOf(d) == TagOf(e);
      assert TidyList(table[k'], k');
    }
  }

  lemma {:induction false} TagCount(list: seq<Entry>)
    requires DistinctTags(list)
    ensures |Tags(list)| == |list|
  {
    if list != [] {
      var front, last := list[..|list| - 1], list[|list| - 1];
      assert list == front + [last];
      TagCount(front);
      assert Tags(list) == Tags(front) + {TagOf(last)};
      assert TagOf(last) !in Tags(front);
    }
  }

  lemma SizeIsViewed(a: Table, b: Table, k: string)
    requires Tidy(a) && Tidy(b) && View(a) == View(b)
    ensures |ListAt(a, k)| == |ListAt(b, k)|
  {
    hide Known, View, Tidy;
    forall t: Tag
      ensures t in Tags(ListAt(a, k)) <==> t in Tags(ListAt(b, k))
    {
      TagsAreViewed(a, k, t);
      TagsAreViewed(b, k, t);
    }
    assert Tags(ListAt(a, k)) == Tags(ListAt(b, k));
    ListIsDistinct(a, k);
    ListIsDistinct(b, k);
    TagCount(ListAt(a, k));
    TagCount(ListAt(b, k));
  }

  lemma ListIsDistinct(table: Table, k: string)
    requires Tidy(table)
    ensures DistinctTags(ListAt(table, k)) && forall e | e in ListAt(table, k) :: e.key == k
  {
    hide Sorted;
    EmptyIsTidy(k);
    assert TidyList(ListAt(table, k), k);
  }

  lemma TagsAreViewed(table: Table, k: string, t: Tag)
    requires Tidy(table)
    ensures t in Tags(ListAt(table, k)) <==> t.key == k && t in View(table)
  {
    ListIsDistinct(table, k);
    if t.key == k {
      KnownIsViewed(table, k, t.fn, t.kind);
      KnownIsTagged(ListAt(table, k), Entry(k, t.fn, t.kind, 0));
    }
  }
}
