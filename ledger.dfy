/**
 * Ledger entries and their grouping by calendar day (app-v2.js, groupByDate).
 *
 * `dayKey` (the local "YYYY-MM-DD" of a timestamp), `new Date(created_at)`
 * (its millisecond value) and the human dayLabel of a day ("Today",
 * "Yesterday", "Mon D") depend on the clock and the locale; they are
 * parameters `dayKey`, `time` and `dayLabel`.
 */
module Ledger {
  import opened Meta

  /** One ledger row as the server sends it; amounts are in minor units. */
  datatype Entry = Entry(
    id: string,
    transactionId: string,
    amount: int,
    balanceAfter: int,
    metadata: RawMeta,
    createdAt: string)

  /** A bucket of entries of one day, with its key and its display dayLabel. */
  datatype DateGroup = DateGroup(key: string, readable: string, items: seq<Entry>)

  predicate Distinct<T(==)>(s: seq<T>)
  {
    forall i, j :: 0 <= i < j < |s| ==> s[i] != s[j]
  }

  lemma DistinctTail<T>(s: seq<T>)
    requires Distinct(s) && s != []
    ensures s[0] !in s[1..] && Distinct(s[1..])
  {
    forall j | 0 <= j < |s[1..]| ensures s[1..][j] != s[0] {
      assert s[1..][j] == s[j + 1];
    }
    forall i, j | 0 <= i < j < |s[1..]| ensures s[1..][i] != s[1..][j] {
      assert s[1..][i] == s[i + 1] && s[1..][j] == s[j + 1];
    }
  }

  // ---------------------------------------------------------------------
  // Order of day keys. `b.localeCompare(a)` on fixed-width "YYYY-MM-DD"
  // keys orders them as code-point lexicographic order does.
  // ---------------------------------------------------------------------

  /** `a` sorts strictly before `b` in lexicographic order. */
  predicate Below(a: string, b: string)
    decreases |a|
  {
    if a == [] then b != []
    else b != [] && (a[0] < b[0] || (a[0] == b[0] && Below(a[1..], b[1..])))
  }

  lemma {:induction false} BelowIrreflexive(a: string)
    ensures !Below(a, a)
  {
    if a != [] {
      BelowIrreflexive(a[1..]);
    }
  }

  lemma {:induction false} BelowTransitive(a: string, b: string, c: string)
    requires Below(a, b) && Below(b, c)
    ensures Below(a, c)
  {
    if a != [] {
      if a[0] == b[0] && b[0] == c[0] {
        BelowTransitive(a[1..], b[1..], c[1..]);
      }
    }
  }

  lemma {:induction false} BelowTotal(a: string, b: string)
    requires a != b
    ensures Below(a, b) || Below(b, a)
  {
    if a != [] && b != [] && a[0] == b[0] {
      assert a == [a[0]] + a[1..] && b == [b[0]] + b[1..];
      BelowTotal(a[1..], b[1..]);
    }
  }

  predicate StrictlyDescending(ks: seq<string>)
  {
    forall i, j :: 0 <= i < j < |ks| ==> Below(ks[j], ks[i])
  }

  lemma DescendingIsDistinct(ks: seq<string>)
    requires StrictlyDescending(ks)
    ensures Distinct(ks)
  {
    forall i, j | 0 <= i < j < |ks|
      ensures ks[i] != ks[j]
    {
      BelowIrreflexive(ks[i]);
    }
  }

  lemma PrependDescending(k: string, ks: seq<string>)
    requires StrictlyDescending(ks)
    requires forall x :: x in ks ==> Below(x, k)
    ensures StrictlyDescending([k] + ks)
  {
    var r := [k] + ks;
    forall i, j | 0 <= i < j < |r|
      ensures Below(r[j], r[i])
    {
      if i > 0 {
        assert r[i] == ks[i - 1] && r[j] == ks[j - 1];
      } else {
        assert r[j] in ks;
      }
    }
  }

  /** Inserts a new key into a strictly descending sequence of keys. */
  function InsertKey(k: string, ks: seq<string>): (r: seq<string>)
    requires StrictlyDescending(ks) && k !in ks
    ensures multiset(r) == multiset(ks) + multiset{k}
    ensures StrictlyDescending(r)
  {
    if ks == [] then [k]
    else if Below(ks[0], k) then
      HeadBelowAll(k, ks);
      PrependDescending(k, ks);
      [k] + ks
    else
      var rest := InsertKey(k, ks[1..]);
      RestBelowHead(k, ks, rest);
      PrependDescending(ks[0], rest);
      assert ks == [ks[0]] + ks[1..];
      [ks[0]] + rest
  }

  /** A key above the head of a descending run is above all of it. */
  lemma HeadBelowAll(k: string, ks: seq<string>)
    requires StrictlyDescending(ks) && ks != [] && Below(ks[0], k)
    ensures forall x :: x in ks ==> Below(x, k)
  {
    forall x | x in ks ensures Below(x, k) {
      if x != ks[0] {
        var j :| 0 <= j < |ks| && ks[j] == x;
        BelowTransitive(x, ks[0], k);
      }
    }
  }

  /** Inserting below the head keeps everything below the head. */
  lemma RestBelowHead(k: string, ks: seq<string>, rest: seq<string>)
    requires StrictlyDescending(ks) && ks != [] && !Below(ks[0], k) && k != ks[0]
    requires multiset(rest) == multiset(ks[1..]) + multiset{k}
    ensures forall x :: x in rest ==> Below(x, ks[0])
  {
    forall x | x in rest ensures Below(x, ks[0]) {
      assert x in multiset(rest);
      if x == k {
        BelowTotal(k, ks[0]);
      } else {
        assert x in multiset(ks[1..]);
        var j :| 0 <= j < |ks[1..]| && ks[1..][j] == x;
        assert ks[j + 1] == x;
      }
    }
  }

  /** The `Object.keys(groups).sort((a, b) => b.localeCompare(a))` step. */
  function SortKeysDesc(ks: seq<string>): (r: seq<string>)
    requires Distinct(ks)
    ensures multiset(r) == multiset(ks)
    ensures StrictlyDescending(r)
  {
    if ks == [] then []
    else
      DistinctTail(ks);
      var rest := SortKeysDesc(ks[1..]);
      assert ks[0] !in rest by {
        assert ks[0] !in multiset(ks[1..]);
      }
      assert ks == [ks[0]] + ks[1..];
      InsertKey(ks[0], rest)
  }

  /** Sorting keeps exactly the keys it was given. */
  lemma SortKeysDescMembers(ks: seq<string>)
    requires Distinct(ks)
    ensures forall k :: k in SortKeysDesc(ks) <==> k in ks
  {
    var r := SortKeysDesc(ks);
    assert forall k :: k in r <==> k in multiset(r);
    assert forall k :: k in ks <==> k in multiset(ks);
  }

  // ---------------------------------------------------------------------
  // Order of entries within a day: `new Date(b) - new Date(a)`, newest first.
  // ---------------------------------------------------------------------

  predicate NewestFirst(s: seq<Entry>, time: string -> int)
  {
    forall i, j :: 0 <= i < j < |s| ==> time(s[j].createdAt) <= time(s[i].createdAt)
  }

  lemma PrependNewest(e: Entry, s: seq<Entry>, time: string -> int)
    requires NewestFirst(s, time)
    requires forall x :: x in s ==> time(x.createdAt) <= time(e.createdAt)
    ensures NewestFirst([e] + s, time)
  {
    var r := [e] + s;
    forall i, j | 0 <= i < j < |r|
      ensures time(r[j].createdAt) <= time(r[i].createdAt)
    {
      if i > 0 {
        assert r[i] == s[i - 1] && r[j] == s[j - 1];
      } else {
        assert r[j] in s;
      }
    }
  }

  lemma NewestAtHead(s: seq<Entry>, time: string -> int)
    requires NewestFirst(s, time) && s != []
    ensures forall x :: x in s ==> time(x.createdAt) <= time(s[0].createdAt)
  {
    forall x | x in s ensures time(x.createdAt) <= time(s[0].createdAt) {
      var j :| 0 <= j < |s| && s[j] == x;
    }
  }

  lemma KeepNewerHead(e: Entry, s: seq<Entry>, rest: seq<Entry>, time: string -> int)
    requires s != [] && NewestFirst(s, time) && time(e.createdAt) < time(s[0].createdAt)
    requires multiset(rest) == multiset(s[1..]) + multiset{e} && NewestFirst(rest, time)
    ensures multiset([s[0]] + rest) == multiset(s) + multiset{e}
    ensures NewestFirst([s[0]] + rest, time)
  {
    NewestAtHead(s, time);
    forall x | x in rest ensures time(x.createdAt) <= time(s[0].createdAt) {
      assert x in multiset(rest);
      assert x == e || x in multiset(s[1..]);
    }
    PrependNewest(s[0], rest, time);
    assert s == [s[0]] + s[1..];
  }

  /** Places `e` before the first entry that is not newer than it. */
  function InsertByTime(e: Entry, s: seq<Entry>, time: string -> int): seq<Entry>
  {
    if s == [] then [e]
    else if time(s[0].createdAt) <= time(e.createdAt) then [e] + s
    else [s[0]] + InsertByTime(e, s[1..], time)
  }

  lemma {:induction false} InsertByTimeSorted(e: Entry, s: seq<Entry>, time: string -> int)
    requires NewestFirst(s, time)
    ensures multiset(InsertByTime(e, s, time)) == multiset(s) + multiset{e}
    ensures NewestFirst(InsertByTime(e, s, time), time)
  {
    if s == [] {
    } else if time(s[0].createdAt) <= time(e.createdAt) {
      NewestAtHead(s, time);
      PrependNewest(e, s, time);
    } else {
      assert NewestFirst(s[1..], time);
      InsertByTimeSorted(e, s[1..], time);
      KeepNewerHead(e, s, InsertByTime(e, s[1..], time), time);
    }
  }

  /** The `groups[k].sort(...)` step, a stable insertion sort newest first. */
  function SortByTimeDesc(s: seq<Entry>, time: string -> int): seq<Entry>
  {
    if s == [] then [] else InsertByTime(s[0], SortByTimeDesc(s[1..], time), time)
  }

  /** Sorting a bucket permutes it and leaves it newest first. */
  lemma {:induction false} SortByTimeDescSorts(s: seq<Entry>, time: string -> int)
    ensures multiset(SortByTimeDesc(s, time)) == multiset(s)
    ensures NewestFirst(SortByTimeDesc(s, time), time)
  {
    if s != [] {
      SortByTimeDescSorts(s[1..], time);
      InsertByTimeSorted(s[0], SortByTimeDesc(s[1..], time), time);
      assert s == [s[0]] + s[1..];
    }
  }

  // ---------------------------------------------------------------------
  // Grouping
  // ---------------------------------------------------------------------

  /** Every day key that some entry has. */
  function KeySet(list: seq<Entry>, dayKey: string -> string): set<string>
  {
    set e | e in list :: dayKey(e.createdAt)
  }

  lemma KeySetSnoc(list: seq<Entry>, e: Entry, dayKey: string -> string)
    ensures KeySet(list + [e], dayKey) == KeySet(list, dayKey) + {dayKey(e.createdAt)}
  {
    var l := list + [e];
    forall x | x in l ensures x in list || x == e {}
    forall x | x in list ensures x in l {}
  }

  /** The day keys in the order `Object.keys` lists them: order of first appearance. */
  function FirstSeen(list: seq<Entry>, dayKey: string -> string): (r: seq<string>)
    ensures Distinct(r)
  {
    if list == [] then []
    else
      var p := FirstSeen(list[..|list| - 1], dayKey);
      var k := dayKey(list[|list| - 1].createdAt);
      if k in p then p else p + [k]
  }

  /** The dictionary's keys are exactly the day keys that occur in the input. */
  lemma {:induction false} FirstSeenKeys(list: seq<Entry>, dayKey: string -> string)
    ensures forall k :: k in FirstSeen(list, dayKey) <==> k in KeySet(list, dayKey)
  {
    if list != [] {
      var init := list[..|list| - 1];
      var e := list[|list| - 1];
      assert list == init + [e];
      FirstSeenKeys(init, dayKey);
      KeySetSnoc(init, e, dayKey);
    }
  }

  /** `groups[k]` after the `forEach`: the entries with day key `k`, in input order. */
  function Bucket(list: seq<Entry>, k: string, dayKey: string -> string): seq<Entry>
  {
    if list == [] then []
    else
      var e := list[|list| - 1];
      Bucket(list[..|list| - 1], k, dayKey) + (if dayKey(e.createdAt) == k then [e] else [])
  }

  /** A bucket holds exactly the input entries whose day key is its key. */
  lemma {:induction false} BucketMembers(list: seq<Entry>, k: string, dayKey: string -> string)
    ensures forall e :: e in Bucket(list, k, dayKey) <==> e in list && dayKey(e.createdAt) == k
  {
    if list != [] {
      var init := list[..|list| - 1];
      var e := list[|list| - 1];
      assert list == init + [e];
      BucketMembers(init, k, dayKey);
    }
  }

  /** One more entry of the input: what the `forEach` body does to the buckets and the key order. */
  lemma PrefixStep(list: seq<Entry>, n: nat, dayKey: string -> string)
    requires n < |list|
    ensures var k := dayKey(list[n].createdAt);
      var p := FirstSeen(list[..n], dayKey);
      FirstSeen(list[..n + 1], dayKey) == if k in p then p else p + [k]
    ensures forall k :: (Bucket(list[..n + 1], k, dayKey)
      == Bucket(list[..n], k, dayKey) + (if dayKey(list[n].createdAt) == k then [list[n]] else []))
  {
    assert list[..n + 1][..n] == list[..n];
  }

  lemma {:induction false} BucketOfUnseenKey(list: seq<Entry>, k: string, dayKey: string -> string)
    requires k !in FirstSeen(list, dayKey)
    ensures Bucket(list, k, dayKey) == []
  {
    if list != [] {
      BucketOfUnseenKey(list[..|list| - 1], k, dayKey);
    }
  }

  function MakeGroup(list: seq<Entry>, k: string, dayKey: string -> string,
                     time: string -> int, dayLabel: string -> string): DateGroup
  {
    DateGroup(k, dayLabel(k), SortByTimeDesc(Bucket(list, k, dayKey), time))
  }

  /** The day keys of the groups, latest first. */
  function DayKeys(list: seq<Entry>, dayKey: string -> string): (ks: seq<string>)
    ensures StrictlyDescending(ks)
  {
    SortKeysDesc(FirstSeen(list, dayKey))
  }

  lemma DayKeysCover(list: seq<Entry>, dayKey: string -> string)
    ensures var ks := DayKeys(list, dayKey);
      && Distinct(ks)
      && (forall k :: k in ks <==> k in KeySet(list, dayKey))
      && |ks| == |KeySet(list, dayKey)|
  {
    var fs := FirstSeen(list, dayKey);
    var ks := SortKeysDesc(fs);
    FirstSeenKeys(list, dayKey);
    DescendingIsDistinct(ks);
    assert forall k :: k in ks <==> k in multiset(ks);
    assert forall k :: k in fs <==> k in multiset(fs);
    assert |multiset(ks)| == |multiset(fs)|;
    assert (set x | x in fs) == KeySet(list, dayKey);
    DistinctCard(fs);
  }

  /** What `groupByDate` returns: one group per distinct day key, latest day first. */
  function Grouped(list: seq<Entry>, dayKey: string -> string,
                   time: string -> int, dayLabel: string -> string): (gs: seq<DateGroup>)
  {
    var ks := DayKeys(list, dayKey);
    DayKeysCover(list, dayKey);
    seq(|ks|, i requires 0 <= i < |ks| => MakeGroup(list, ks[i], dayKey, time, dayLabel))
  }

  /** Every item of every group, in group order. */
  function AllItems(gs: seq<DateGroup>): seq<Entry>
  {
    if gs == [] then [] else gs[0].items + AllItems(gs[1..])
  }

  /** The union of the buckets of `ks`. */
  function Buckets(list: seq<Entry>, ks: seq<string>, dayKey: string -> string): multiset<Entry>
  {
    if ks == [] then multiset{} else multiset(Bucket(list, ks[0], dayKey)) + Buckets(list, ks[1..], dayKey)
  }

  /** How often an entry occurs in a bucket: as often as in the input when
      its day key is the bucket's key, never otherwise. */
  lemma {:induction false} BucketCount(list: seq<Entry>, k: string, x: Entry, dayKey: string -> string)
    ensures multiset(Bucket(list, k, dayKey))[x] == if dayKey(x.createdAt) == k then multiset(list)[x] else 0
  {
    if list != [] {
      var init := list[..|list| - 1];
      assert list == init + [list[|list| - 1]];
      BucketCount(init, k, x, dayKey);
    }
  }

  lemma {:induction false} BucketsCount(list: seq<Entry>, ks: seq<string>, x: Entry, dayKey: string -> string)
    requires Distinct(ks)
    ensures Buckets(list, ks, dayKey)[x] == if dayKey(x.createdAt) in ks then multiset(list)[x] else 0
  {
    if ks != [] {
      DistinctTail(ks);
      BucketCount(list, ks[0], x, dayKey);
      BucketsCount(list, ks[1..], x, dayKey);
      assert dayKey(x.createdAt) in ks <==> dayKey(x.createdAt) == ks[0] || dayKey(x.createdAt) in ks[1..] by {
        assert ks == [ks[0]] + ks[1..];
      }
    }
  }

  /** Distinct keys that cover every entry's key split the entries exactly. */
  lemma BucketsCover(list: seq<Entry>, ks: seq<string>, dayKey: string -> string)
    requires Distinct(ks)
    requires forall e :: e in list ==> dayKey(e.createdAt) in ks
    ensures Buckets(list, ks, dayKey) == multiset(list)
  {
    forall x ensures Buckets(list, ks, dayKey)[x] == multiset(list)[x] {
      BucketsCount(list, ks, x, dayKey);
    }
  }

  /** Groups whose items permute the buckets of `ks` hold, together, the union of those buckets. */
  lemma {:induction false} AllItemsOfGroups(list: seq<Entry>, gs: seq<DateGroup>, ks: seq<string>,
                                           dayKey: string -> string)
    requires |gs| == |ks|
    requires forall i :: 0 <= i < |gs| ==> multiset(gs[i].items) == multiset(Bucket(list, ks[i], dayKey))
    ensures multiset(AllItems(gs)) == Buckets(list, ks, dayKey)
  {
    if gs != [] {
      assert forall i :: 0 <= i < |gs| - 1 ==> gs[1..][i] == gs[i + 1] && ks[1..][i] == ks[i + 1];
      AllItemsOfGroups(list, gs[1..], ks[1..], dayKey);
    }
  }

  lemma DistinctCard(s: seq<string>)
    requires Distinct(s)
    ensures |set x | x in s| == |s|
  {
    if s != [] {
      DistinctTail(s);
      DistinctCard(s[1..]);
      assert (set x | x in s) == {s[0]} + (set x | x in s[1..]);
    }
  }

  /** There is one group per distinct day key. */
  lemma GroupedCount(list: seq<Entry>, dayKey: string -> string,
                     time: string -> int, dayLabel: string -> string)
    ensures var gs := Grouped(list, dayKey, time, dayLabel);
      && |gs| == |KeySet(list, dayKey)|
      && (forall k :: k in KeySet(list, dayKey) <==> exists i :: 0 <= i < |gs| && gs[i].key == k)
  {
    var gs := Grouped(list, dayKey, time, dayLabel);
    var ks := DayKeys(list, dayKey);
    DayKeysCover(list, dayKey);
    forall k | k in KeySet(list, dayKey) ensures exists i :: 0 <= i < |gs| && gs[i].key == k {
      var i :| 0 <= i < |ks| && ks[i] == k;
      assert gs[i].key == k;
    }
  }

  /** The groups' keys are strictly latest first; each group carries its
      key's label and lists its items newest first. */
  lemma GroupedOrder(list: seq<Entry>, dayKey: string -> string,
                     time: string -> int, dayLabel: string -> string)
    ensures var gs := Grouped(list, dayKey, time, dayLabel);
      && (forall i, j :: 0 <= i < j < |gs| ==> Below(gs[j].key, gs[i].key))
      && (forall i :: 0 <= i < |gs| ==> gs[i].readable == dayLabel(gs[i].key))
      && (forall i :: 0 <= i < |gs| ==> NewestFirst(gs[i].items, time))
  {
    var gs := Grouped(list, dayKey, time, dayLabel);
    forall i | 0 <= i < |gs| ensures NewestFirst(gs[i].items, time) {
      SortByTimeDescSorts(Bucket(list, gs[i].key, dayKey), time);
    }
  }

  lemma GroupAt(list: seq<Entry>, dayKey: string -> string,
                time: string -> int, dayLabel: string -> string, i: int)
    requires 0 <= i < |Grouped(list, dayKey, time, dayLabel)|
    ensures var g := Grouped(list, dayKey, time, dayLabel)[i];
      && g.key == DayKeys(list, dayKey)[i]
      && forall e :: e in g.items <==> e in list && dayKey(e.createdAt) == g.key
  {
    var g := Grouped(list, dayKey, time, dayLabel)[i];
    var k := DayKeys(list, dayKey)[i];
    assert g == MakeGroup(list, k, dayKey, time, dayLabel);
    BucketMembers(list, k, dayKey);
    SortByTimeDescSorts(Bucket(list, k, dayKey), time);
    forall e ensures e in g.items <==> e in Bucket(list, k, dayKey) {
      assert e in g.items <==> e in multiset(g.items);
      assert e in Bucket(list, k, dayKey) <==> e in multiset(Bucket(list, k, dayKey));
    }
  }

  /** A group holds exactly the entries whose day key is the group's key. */
  lemma GroupedMembership(list: seq<Entry>, dayKey: string -> string,
                          time: string -> int, dayLabel: string -> string)
    ensures var gs := Grouped(list, dayKey, time, dayLabel);
      forall i, e :: 0 <= i < |gs| ==>
        (e in gs[i].items <==> e in list && dayKey(e.createdAt) == gs[i].key)
  {
    var gs := Grouped(list, dayKey, time, dayLabel);
    forall i | 0 <= i < |gs|
      ensures forall e :: e in gs[i].items <==> e in list && dayKey(e.createdAt) == gs[i].key
    {
      GroupAt(list, dayKey, time, dayLabel, i);
    }
  }

  /** Every entry lands in exactly one group: the one whose key is its day key. */
  lemma GroupedExactlyOnce(list: seq<Entry>, dayKey: string -> string,
                           time: string -> int, dayLabel: string -> string, e: Entry)
    requires e in list
    ensures var gs := Grouped(list, dayKey, time, dayLabel);
      exists i :: 0 <= i < |gs| && gs[i].key == dayKey(e.createdAt) && e in gs[i].items &&
        forall j :: 0 <= j < |gs| && e in gs[j].items ==> j == i
  {
    var gs := Grouped(list, dayKey, time, dayLabel);
    var ks := DayKeys(list, dayKey);
    DayKeysCover(list, dayKey);
    GroupedMembership(list, dayKey, time, dayLabel);
    assert dayKey(e.createdAt) in KeySet(list, dayKey);
    var i :| 0 <= i < |ks| && ks[i] == dayKey(e.createdAt);
    assert gs[i].key == ks[i];
    forall j | 0 <= j < |gs| && e in gs[j].items ensures j == i {
      assert gs[j].key == ks[j];
    }
  }

  /** The groups' items, read in order, are a permutation of the input. */
  lemma GroupedKeepsEveryEntry(list: seq<Entry>, dayKey: string -> string,
                               time: string -> int, dayLabel: string -> string)
    ensures var gs := Grouped(list, dayKey, time, dayLabel);
      && multiset(AllItems(gs)) == multiset(list)
      && |AllItems(gs)| == |list|
  {
    var gs := Grouped(list, dayKey, time, dayLabel);
    var ks := DayKeys(list, dayKey);
    DayKeysCover(list, dayKey);
    forall i | 0 <= i < |gs| ensures multiset(gs[i].items) == multiset(Bucket(list, ks[i], dayKey)) {
      SortByTimeDescSorts(Bucket(list, ks[i], dayKey), time);
    }
    AllItemsOfGroups(list, gs, ks, dayKey);
    forall e | e in list ensures dayKey(e.createdAt) in ks {
      assert dayKey(e.createdAt) in KeySet(list, dayKey);
    }
    BucketsCover(list, ks, dayKey);
    assert |multiset(AllItems(gs))| == |multiset(list)|;
  }

  /**
   * The `forEach` of groupByDate: one bucket per day key, filled by `push`
   * in input order; `order` is the order in which the keys first appear.
   */
  method FillBuckets(list: seq<Entry>, dayKey: string -> string)
    returns (buckets: map<string, seq<Entry>>, order: seq<string>)
    ensures order == FirstSeen(list, dayKey)
    ensures forall k :: k in buckets <==> k in order
    ensures forall k :: k in buckets ==> buckets[k] == Bucket(list, k, dayKey)
  {
    buckets := map[];
    order := [];
    var n := 0;
    while n < |list|
      invariant 0 <= n <= |list|
      invariant order == FirstSeen(list[..n], dayKey)
      invariant forall k :: k in buckets <==> k in order
      invariant forall k :: k in buckets ==> buckets[k] == Bucket(list[..n], k, dayKey)
    {
      var e := list[n];
      var k := dayKey(e.createdAt);
      PrefixStep(list, n, dayKey);
      if k !in buckets {
        BucketOfUnseenKey(list[..n], k, dayKey);
        buckets := buckets[k := []];
        order := order + [k];
      }
      buckets := buckets[k := buckets[k] + [e]];
      n := n + 1;
    }
    assert list[..n] == list;
  }

  /**
   * The `map` over the sorted keys: one group per key, its bucket sorted
   * newest first and its dayLabel computed from the key.
   */
  function GroupsFrom(ks: seq<string>, buckets: map<string, seq<Entry>>,
                      time: string -> int, dayLabel: string -> string): (gs: seq<DateGroup>)
    requires forall i :: 0 <= i < |ks| ==> ks[i] in buckets
    ensures |gs| == |ks|
  {
    if ks == [] then []
    else
      var k := ks[|ks| - 1];
      GroupsFrom(ks[..|ks| - 1], buckets, time, dayLabel) + [DateGroup(k, dayLabel(k), SortByTimeDesc(buckets[k], time))]
  }

  /** With the buckets of the `forEach`, the groups are those of the specification. */
  lemma {:induction false} GroupsFromBuckets(list: seq<Entry>, ks: seq<string>, buckets: map<string, seq<Entry>>,
                                            dayKey: string -> string, time: string -> int, dayLabel: string -> string)
    requires forall i :: 0 <= i < |ks| ==> ks[i] in buckets && buckets[ks[i]] == Bucket(list, ks[i], dayKey)
    ensures GroupsFrom(ks, buckets, time, dayLabel)
         == seq(|ks|, i requires 0 <= i < |ks| => MakeGroup(list, ks[i], dayKey, time, dayLabel))
  {
    if ks != [] {
      var init := ks[..|ks| - 1];
      GroupsFromBuckets(list, init, buckets, dayKey, time, dayLabel);
      var gs := GroupsFrom(ks, buckets, time, dayLabel);
      forall i | 0 <= i < |ks| ensures gs[i] == MakeGroup(list, ks[i], dayKey, time, dayLabel) {
        if i < |ks| - 1 {
          assert ks[i] == init[i];
        }
      }
    }
  }

  /** Every sorted key has its bucket. */
  lemma SortedKeysHaveBuckets(list: seq<Entry>, order: seq<string>, keys: seq<string>,
                              buckets: map<string, seq<Entry>>, dayKey: string -> string)
    requires Distinct(order) && keys == SortKeysDesc(order)
    requires forall k :: k in buckets <==> k in order
    requires forall k :: k in buckets ==> buckets[k] == Bucket(list, k, dayKey)
    ensures forall i :: 0 <= i < |keys| ==> keys[i] in buckets && buckets[keys[i]] == Bucket(list, keys[i], dayKey)
  {
    SortKeysDescMembers(order);
    forall i | 0 <= i < |keys| ensures keys[i] in order {
      assert keys[i] in keys;
    }
  }

  /** The groups built from the buckets of the `forEach` are the specified
      grouping: keys latest first and every entry kept. */
  lemma BucketGroupsAreGrouped(list: seq<Entry>, order: seq<string>, keys: seq<string>,
                               buckets: map<string, seq<Entry>>, dayKey: string -> string,
                               time: string -> int, dayLabel: string -> string)
    requires order == FirstSeen(list, dayKey) && keys == SortKeysDesc(order)
    requires forall i :: 0 <= i < |keys| ==> keys[i] in buckets && buckets[keys[i]] == Bucket(list, keys[i], dayKey)
    ensures GroupsFrom(keys, buckets, time, dayLabel) == Grouped(list, dayKey, time, dayLabel)
    ensures var groups := GroupsFrom(keys, buckets, time, dayLabel);
      forall i, j :: 0 <= i < j < |groups| ==> Below(groups[j].key, groups[i].key)
    ensures multiset(AllItems(GroupsFrom(keys, buckets, time, dayLabel))) == multiset(list)
  {
    assert keys == DayKeys(list, dayKey);
    GroupsFromBuckets(list, keys, buckets, dayKey, time, dayLabel);
    GroupedOrder(list, dayKey, time, dayLabel);
    GroupedKeepsEveryEntry(list, dayKey, time, dayLabel);
  }

  /** The `.map` over the sorted keys: each key becomes its group. */
  method MapKeysToGroups(keys: seq<string>, buckets: map<string, seq<Entry>>,
                         time: string -> int, dayLabel: string -> string)
    returns (groups: seq<DateGroup>)
    requires forall i :: 0 <= i < |keys| ==> keys[i] in buckets
    ensures groups == GroupsFrom(keys, buckets, time, dayLabel)
  {
    groups := [];
    var j := 0;
    while j < |keys|
      invariant 0 <= j <= |keys|
      invariant groups == GroupsFrom(keys[..j], buckets, time, dayLabel)
    {
      var k := keys[j];
      assert keys[..j + 1][..j] == keys[..j];
      groups := groups + [DateGroup(k, dayLabel(k), SortByTimeDesc(buckets[k], time))];
      j := j + 1;
    }
    assert keys[..j] == keys;
  }

  /**
   * groupByDate: fills a dictionary of buckets entry by entry (`push`),
   * then sorts the keys latest first and each bucket newest first.
   */
  method GroupByDate(list: seq<Entry>, dayKey: string -> string,
                     time: string -> int, dayLabel: string -> string)
    returns (groups: seq<DateGroup>)
    ensures groups == Grouped(list, dayKey, time, dayLabel)
    ensures forall i, j :: 0 <= i < j < |groups| ==> Below(groups[j].key, groups[i].key)
    ensures multiset(AllItems(groups)) == multiset(list)
  {
    var buckets, order := FillBuckets(list, dayKey);
    var keys := SortKeysDesc(order);
    SortedKeysHaveBuckets(list, order, keys, buckets, dayKey);
    groups := MapKeysToGroups(keys, buckets, time, dayLabel);
    BucketGroupsAreGrouped(list, order, keys, buckets, dayKey, time, dayLabel);
  }

  lemma KeySetOfThree(a: Entry, b: Entry, c: Entry, dayKey: string -> string)
    requires dayKey(a.createdAt) == dayKey(b.createdAt)
    ensures KeySet([a, b, c], dayKey) == {dayKey(a.createdAt), dayKey(c.createdAt)}
  {
    var list := [a, b, c];
    assert a in list && b in list && c in list;
    assert forall e :: e in list ==> e == a || e == b || e == c;
  }

  /** Two entries of one day and one of an earlier day give exactly two
      groups, the later day first. */
  lemma TwoDaysTwoGroups(a: Entry, b: Entry, c: Entry, dayKey: string -> string,
                         time: string -> int, dayLabel: string -> string)
    requires dayKey(a.createdAt) == dayKey(b.createdAt)
    requires Below(dayKey(c.createdAt), dayKey(a.createdAt))
    ensures var gs := Grouped([a, b, c], dayKey, time, dayLabel);
      |gs| == 2 && gs[0].key == dayKey(a.createdAt) && gs[1].key == dayKey(c.createdAt)
  {
    KeySetOfThree(a, b, c, dayKey);
    TwoDayKeys([a, b, c], dayKey(a.createdAt), dayKey(c.createdAt), dayKey);
  }

  /** A ledger spanning exactly two days has those two day keys, the later first. */
  lemma TwoDayKeys(list: seq<Entry>, ka: string, kc: string, dayKey: string -> string)
    requires KeySet(list, dayKey) == {ka, kc}
    requires Below(kc, ka)
    ensures DayKeys(list, dayKey) == [ka, kc]
  {
    var ks := DayKeys(list, dayKey);
    DayKeysCover(list, dayKey);
    BelowIrreflexive(ka);
    assert |{ka, kc}| == 2;
    assert ks[0] in {ka, kc} && ks[1] in {ka, kc};
    assert Below(ks[1], ks[0]);
    BelowIrreflexive(ks[0]);
    BelowAsymmetric(kc, ka);
  }

  lemma BelowAsymmetric(a: string, b: string)
    requires Below(a, b)
    ensures !Below(b, a)
  {
    if Below(b, a) {
      BelowTransitive(a, b, a);
      BelowIrreflexive(a);
    }
  }
}
