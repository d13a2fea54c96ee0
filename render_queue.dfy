/**
 * The flattened render plan of the history screen (app-v2.js,
 * buildRenderQueue): for each day group a header node carrying its label,
 * followed by one node per entry of the group, in the group's order.
 */
module RenderQueue {
  import opened Ledger

  datatype RenderNode = Header(text: string) | Item(entry: Entry)

  function ItemNodes(items: seq<Entry>): (r: seq<RenderNode>)
    ensures |r| == |items|
    ensures forall m :: 0 <= m < |items| ==> r[m] == Item(items[m])
  {
    if items == [] then [] else [Item(items[0])] + ItemNodes(items[1..])
  }

  /** What one group contributes: its header, then its items. */
  function GroupNodes(g: DateGroup): seq<RenderNode>
  {
    [Header(g.readable)] + ItemNodes(g.items)
  }

  /** The render queue of a sequence of groups. */
  function Flatten(gs: seq<DateGroup>): seq<RenderNode>
  {
    if gs == [] then [] else GroupNodes(gs[0]) + Flatten(gs[1..])
  }

  /** The entries the item nodes carry, in queue order. */
  function Payloads(q: seq<RenderNode>): seq<Entry>
  {
    if q == [] then [] else (if q[0].Item? then [q[0].entry] else []) + Payloads(q[1..])
  }

  /** The labels the header nodes carry, in queue order. */
  function Labels(q: seq<RenderNode>): seq<string>
  {
    if q == [] then [] else (if q[0].Header? then [q[0].text] else []) + Labels(q[1..])
  }

  function Readables(gs: seq<DateGroup>): (r: seq<string>)
    ensures |r| == |gs|
    ensures forall i :: 0 <= i < |gs| ==> r[i] == gs[i].readable
  {
    if gs == [] then [] else [gs[0].readable] + Readables(gs[1..])
  }

  lemma {:induction false} FlattenAppend(a: seq<DateGroup>, b: seq<DateGroup>)
    ensures Flatten(a + b) == Flatten(a) + Flatten(b)
  {
    if a == [] {
      assert a + b == b;
    } else {
      assert (a + b)[0] == a[0];
      assert (a + b)[1..] == a[1..] + b;
      FlattenAppend(a[1..], b);
    }
  }

  lemma {:induction false} PayloadsAppend(p: seq<RenderNode>, q: seq<RenderNode>)
    ensures Payloads(p + q) == Payloads(p) + Payloads(q)
  {
    if p == [] {
      assert p + q == q;
    } else {
      var pq := p + q;
      assert pq[0] == p[0] && pq[1..] == p[1..] + q;
      PayloadsAppend(p[1..], q);
    }
  }

  lemma {:induction false} LabelsAppend(p: seq<RenderNode>, q: seq<RenderNode>)
    ensures Labels(p + q) == Labels(p) + Labels(q)
  {
    if p == [] {
      assert p + q == q;
    } else {
      var pq := p + q;
      assert pq[0] == p[0] && pq[1..] == p[1..] + q;
      LabelsAppend(p[1..], q);
    }
  }

  lemma {:induction false} ItemNodesCarryItems(items: seq<Entry>)
    ensures Payloads(ItemNodes(items)) == items
    ensures Labels(ItemNodes(items)) == []
  {
    if items != [] {
      ItemNodesCarryItems(items[1..]);
    }
  }

  /** The queue holds one node per group and one per entry. */
  lemma {:induction false} FlattenLength(gs: seq<DateGroup>)
    ensures |Flatten(gs)| == |gs| + |AllItems(gs)|
  {
    if gs != [] {
      FlattenLength(gs[1..]);
    }
  }

  /** Read in order, the item nodes carry the groups' items concatenated,
      and the header nodes carry the groups' labels. */
  lemma {:induction false} FlattenContents(gs: seq<DateGroup>)
    ensures Payloads(Flatten(gs)) == AllItems(gs)
    ensures Labels(Flatten(gs)) == Readables(gs)
  {
    if gs != [] {
      FlattenContents(gs[1..]);
      PayloadsAppend(GroupNodes(gs[0]), Flatten(gs[1..]));
      LabelsAppend(GroupNodes(gs[0]), Flatten(gs[1..]));
      GroupNodesContents(gs[0]);
    }
  }

  /** One group's nodes carry its items and, once, its label. */
  lemma GroupNodesContents(g: DateGroup)
    ensures Payloads(GroupNodes(g)) == g.items
    ensures Labels(GroupNodes(g)) == [g.readable]
  {
    PayloadsAppend([Header(g.readable)], ItemNodes(g.items));
    LabelsAppend([Header(g.readable)], ItemNodes(g.items));
    ItemNodesCarryItems(g.items);
  }

  /** Position of group `i`'s header in the queue. */
  function Offset(gs: seq<DateGroup>, i: nat): nat
    requires i <= |gs|
  {
    |Flatten(gs[..i])|
  }

  /** Group `i` contributes its header at `Offset(gs, i)`, followed
      immediately by its items in the same order. */
  lemma GroupLayout(gs: seq<DateGroup>, i: nat)
    requires i < |gs|
    ensures Offset(gs, i) + |gs[i].items| < |Flatten(gs)|
    ensures Flatten(gs)[Offset(gs, i)] == Header(gs[i].readable)
    ensures forall m :: 0 <= m < |gs[i].items| ==>
      Flatten(gs)[Offset(gs, i) + 1 + m] == Item(gs[i].items[m])
  {
    assert gs == gs[..i] + ([gs[i]] + gs[i + 1..]);
    FlattenAppend(gs[..i], [gs[i]] + gs[i + 1..]);
    assert ([gs[i]] + gs[i + 1..])[1..] == gs[i + 1..];
    var q := Flatten(gs);
    var o := Offset(gs, i);
    assert q == Flatten(gs[..i]) + (GroupNodes(gs[i]) + Flatten(gs[i + 1..]));
    forall m | 0 <= m < |gs[i].items|
      ensures q[o + 1 + m] == Item(gs[i].items[m])
    {
      assert q[o + 1 + m] == GroupNodes(gs[i])[1 + m];
    }
  }

  lemma ItemNodesSnoc(items: seq<Entry>, n: nat)
    requires n < |items|
    ensures ItemNodes(items[..n + 1]) == ItemNodes(items[..n]) + [Item(items[n])]
  {
  }

  lemma FlattenSnoc(gs: seq<DateGroup>, n: nat)
    requires n < |gs|
    ensures Flatten(gs[..n + 1]) == Flatten(gs[..n]) + [Header(gs[n].readable)] + ItemNodes(gs[n].items)
  {
    assert gs[..n + 1] == gs[..n] + [gs[n]];
    FlattenAppend(gs[..n], [gs[n]]);
    assert Flatten([gs[n]]) == GroupNodes(gs[n]) + Flatten([]);
  }

  /**
   * buildRenderQueue: pushes, for each group, a header node and then one
   * node per item.
   */
  method BuildRenderQueue(groups: seq<DateGroup>) returns (q: seq<RenderNode>)
    ensures q == Flatten(groups)
  {
    q := [];
    var gi := 0;
    while gi < |groups|
      invariant 0 <= gi <= |groups|
      invariant q == Flatten(groups[..gi])
    {
      var g := groups[gi];
      q := q + [Header(g.readable)];
      var ii := 0;
      while ii < |g.items|
        invariant 0 <= ii <= |g.items|
        invariant q == Flatten(groups[..gi]) + [Header(g.readable)] + ItemNodes(g.items[..ii])
      {
        ItemNodesSnoc(g.items, ii);
        q := q + [Item(g.items[ii])];
        ii := ii + 1;
      }
      assert g.items[..ii] == g.items;
      FlattenSnoc(groups, gi);
      gi := gi + 1;
    }
    assert groups[..gi] == groups;
  }

  /** The queue's entries are in reverse-chronological order: a later item
      is of an earlier day, or of the same day and not newer. */
  predicate ReverseChronological(s: seq<Entry>, dayKey: string -> string, time: string -> int)
  {
    forall p, r :: 0 <= p < r < |s| ==>
      Below(dayKey(s[r].createdAt), dayKey(s[p].createdAt)) ||
      (dayKey(s[r].createdAt) == dayKey(s[p].createdAt) && time(s[r].createdAt) <= time(s[p].createdAt))
  }

  /** One day's items, newest first, followed by items of earlier days in
      reverse-chronological order, are still reverse-chronological. */
  lemma DayThenEarlier(a: seq<Entry>, b: seq<Entry>, k: string, dayKey: string -> string, time: string -> int)
    requires NewestFirst(a, time)
    requires forall e :: e in a ==> dayKey(e.createdAt) == k
    requires forall e :: e in b ==> Below(dayKey(e.createdAt), k)
    requires ReverseChronological(b, dayKey, time)
    ensures ReverseChronological(a + b, dayKey, time)
  {
    var s := a + b;
    forall p, r | 0 <= p < r < |s|
      ensures Below(dayKey(s[r].createdAt), dayKey(s[p].createdAt)) ||
        (dayKey(s[r].createdAt) == dayKey(s[p].createdAt) && time(s[r].createdAt) <= time(s[p].createdAt))
    {
      if r < |a| {
        assert s[p] == a[p] && s[r] == a[r];
      } else if p < |a| {
        assert s[p] in a && s[r] in b;
      } else {
        assert s[p] == b[p - |a|] && s[r] == b[r - |a|];
      }
    }
  }

  lemma {:induction false} AllItemsChronological(gs: seq<DateGroup>, dayKey: string -> string, time: string -> int)
    requires forall i, j :: 0 <= i < j < |gs| ==> Below(gs[j].key, gs[i].key)
    requires forall i :: 0 <= i < |gs| ==> NewestFirst(gs[i].items, time)
    requires forall i, e :: 0 <= i < |gs| && e in gs[i].items ==> dayKey(e.createdAt) == gs[i].key
    ensures ReverseChronological(AllItems(gs), dayKey, time)
    ensures forall e :: e in AllItems(gs) ==> exists i :: 0 <= i < |gs| && dayKey(e.createdAt) == gs[i].key
  {
    if gs != [] {
      var rest := gs[1..];
      assert forall i :: 0 <= i < |rest| ==> rest[i] == gs[i + 1];
      AllItemsChronological(rest, dayKey, time);
      var a := gs[0].items;
      var b := AllItems(rest);
      forall e | e in b ensures Below(dayKey(e.createdAt), gs[0].key) {
        var i :| 0 <= i < |rest| && dayKey(e.createdAt) == rest[i].key;
      }
      DayThenEarlier(a, b, gs[0].key, dayKey, time);
      forall e | e in a + b ensures exists i :: 0 <= i < |gs| && dayKey(e.createdAt) == gs[i].key {
        if e in a {
          assert dayKey(e.createdAt) == gs[0].key;
        } else {
          var i :| 0 <= i < |rest| && dayKey(e.createdAt) == rest[i].key;
          assert rest[i] == gs[i + 1];
        }
      }
    }
  }

  /** The render queue of a ledger: one header per day and one item per
      entry, every entry exactly once, latest day first and newest first
      within a day. */
  lemma LedgerQueue(list: seq<Entry>, dayKey: string -> string,
                    time: string -> int, dayLabel: string -> string)
    ensures var q := Flatten(Grouped(list, dayKey, time, dayLabel));
      && |q| == |KeySet(list, dayKey)| + |list|
      && multiset(Payloads(q)) == multiset(list)
      && ReverseChronological(Payloads(q), dayKey, time)
  {
    var gs := Grouped(list, dayKey, time, dayLabel);
    GroupedCount(list, dayKey, time, dayLabel);
    GroupedOrder(list, dayKey, time, dayLabel);
    GroupedMembership(list, dayKey, time, dayLabel);
    GroupedKeepsEveryEntry(list, dayKey, time, dayLabel);
    FlattenLength(gs);
    FlattenContents(gs);
    AllItemsChronological(gs, dayKey, time);
  }
}
