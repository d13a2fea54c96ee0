/**
 * The chunked renderer of the history screen (app-v2.js, renderNextChunk
 * and the part of initLedger that runs once the ledger has arrived).
 *
 * The page's state is a `LedgerView`: the fetched ledger, the render queue
 * built from it, the cursor `index` into the queue, the nodes appended to
 * the `#ledgerList` container, the text of the `#ledgerSentinel` element
 * and whether the intersection observer still watches that sentinel.
 */
module Renderer {
  import opened Wrappers
  import opened Meta
  import opened Ledger
  import opened RenderQueue

  /** Nodes appended per call. */
  const RenderChunk: nat := 12

  const EndOfList: string := "\U{2014} End of transactions \U{2014}"

  /** A node appended to the list: a day header, or a transaction row with
      its glyph, its description and its credit/debit style. */
  datatype DomNode =
    | DateHeader(text: string)
    | TxRow(entry: Entry, icon: Icon, desc: string, credit: bool)

  /** How one queue node is drawn; `parse` is `JSON.parse`. */
  function View(node: RenderNode, parse: string -> Option<Parsed>): (d: DomNode)
    ensures node.Header? <==> d.DateHeader?
    ensures node.Header? ==> d.text == node.text
    ensures node.Item? ==> d.entry == node.entry && (d.credit <==> node.entry.amount > 0)
    ensures node.Item? ==> var m := SafeParseMeta(node.entry.metadata, parse);
      d.icon == TxIcon(m, node.entry.amount) && d.desc == TxDesc(m, node.entry.amount)
  {
    match node
    case Header(text) => DateHeader(text)
    case Item(e) =>
      var meta := SafeParseMeta(e.metadata, parse);
      TxRow(e, TxIcon(meta, e.amount), TxDesc(meta, e.amount), e.amount > 0)
  }

  /** The nodes drawn for a run of queue nodes, one per node, in order. */
  function Views(nodes: seq<RenderNode>, parse: string -> Option<Parsed>): (r: seq<DomNode>)
    ensures |r| == |nodes|
  {
    if nodes == [] then [] else [View(nodes[0], parse)] + Views(nodes[1..], parse)
  }

  /** The `m`-th node drawn is the view of the `m`-th queue node. */
  lemma {:induction false} ViewsAt(nodes: seq<RenderNode>, m: nat, parse: string -> Option<Parsed>)
    requires m < |nodes|
    ensures Views(nodes, parse)[m] == View(nodes[m], parse)
  {
    if m > 0 {
      ViewsAt(nodes[1..], m - 1, parse);
    }
  }

  /** Drawing two runs one after the other draws their concatenation. */
  lemma {:induction false} ViewsAppend(a: seq<RenderNode>, b: seq<RenderNode>, parse: string -> Option<Parsed>)
    ensures Views(a + b, parse) == Views(a, parse) + Views(b, parse)
  {
    if a == [] {
      assert a + b == b;
    } else {
      assert (a + b)[0] == a[0] && (a + b)[1..] == a[1..] + b;
      ViewsAppend(a[1..], b, parse);
    }
  }

  lemma ViewsSnoc(nodes: seq<RenderNode>, lo: nat, hi: nat, parse: string -> Option<Parsed>)
    requires lo <= hi < |nodes|
    ensures Views(nodes[lo..hi + 1], parse) == Views(nodes[lo..hi], parse) + [View(nodes[hi], parse)]
  {
    assert nodes[lo..hi + 1] == nodes[lo..hi] + [nodes[hi]];
    ViewsAppend(nodes[lo..hi], [nodes[hi]], parse);
  }

  /** The loop of renderNextChunk: builds the DOM nodes of `nodes[lo..hi]`, in order. */
  method DrawNodes(nodes: seq<RenderNode>, lo: nat, hi: nat, parse: string -> Option<Parsed>)
    returns (drawn: seq<DomNode>)
    requires lo <= hi <= |nodes|
    ensures drawn == Views(nodes[lo..hi], parse)
  {
    drawn := [];
    var i := lo;
    while i < hi
      invariant lo <= i <= hi
      invariant drawn == Views(nodes[lo..i], parse)
    {
      ViewsSnoc(nodes, lo, i, parse);
      drawn := drawn + [View(nodes[i], parse)];
      i := i + 1;
    }
  }

  /** The cursor after one call: `Math.min(renderIndex + RENDER_CHUNK, renderQueue.length)`. */
  function Advance(index: nat, len: nat): (r: nat)
    requires index <= len
    ensures index <= r <= len
    ensures r - index <= RenderChunk
    ensures r < len ==> r == index + RenderChunk
    ensures index == len ==> r == index
  {
    if index + RenderChunk < len then index + RenderChunk else len
  }

  /** The cursor after `k` calls on a freshly loaded queue of length `len`. */
  function CursorAfter(k: nat, len: nat): (r: nat)
    ensures r <= len
  {
    if k == 0 then 0 else Advance(CursorAfter(k - 1, len), len)
  }

  /** Each call moves the cursor a whole chunk until the queue runs out. */
  lemma {:induction false} CursorAfterCalls(k: nat, len: nat)
    ensures CursorAfter(k, len) == if RenderChunk * k < len then RenderChunk * k else len
  {
    if k > 0 {
      CursorAfterCalls(k - 1, len);
    }
  }

  /** The number of calls that exhausts a queue of length `len`: ceil(len / 12). */
  function CallsToExhaust(len: nat): nat
  {
    (len + RenderChunk - 1) / RenderChunk
  }

  /** Exactly `CallsToExhaust(len)` calls bring the cursor to the end. */
  lemma ExhaustsAfterCeil(len: nat)
    ensures CursorAfter(CallsToExhaust(len), len) == len
    ensures forall k: nat :: k < CallsToExhaust(len) ==> CursorAfter(k, len) < len
  {
    var c := CallsToExhaust(len);
    CursorAfterCalls(c, len);
    forall k: nat | k < c ensures CursorAfter(k, len) < len {
      CursorAfterCalls(k, len);
    }
  }

  /** The step that chains successive calls on a fresh queue: the window the
      `k+1`-th call draws (by RenderNextChunk's contract) extends the views of
      the first `CursorAfter(k, |q|)` nodes to the views of the first
      `CursorAfter(k + 1, |q|)`, so the windows neither overlap nor leave gaps. */
  lemma WindowsTile(q: seq<RenderNode>, k: nat, parse: string -> Option<Parsed>)
    ensures var a := CursorAfter(k, |q|);
      var b := CursorAfter(k + 1, |q|);
      Views(q[..a], parse) + Views(q[a..b], parse) == Views(q[..b], parse)
  {
    var a := CursorAfter(k, |q|);
    var b := CursorAfter(k + 1, |q|);
    assert q[..b] == q[..a] + q[a..b];
    ViewsAppend(q[..a], q[a..b], parse);
  }

  /** The list after `k` calls on a freshly loaded queue `q`: each call
      appends the views of the window from the previous cursor to the next,
      as RenderNextChunk's contract says. */
  function ListAfter(q: seq<RenderNode>, k: nat, parse: string -> Option<Parsed>): (r: seq<DomNode>)
    ensures |r| == CursorAfter(k, |q|)
  {
    if k == 0 then []
    else
      var a := CursorAfter(k - 1, |q|);
      ListAfter(q, k - 1, parse) + Views(q[a..CursorAfter(k, |q|)], parse)
  }

  /** After `k` calls the list holds exactly the views of the first
      `CursorAfter(k, |q|)` queue nodes, in queue order. */
  lemma {:induction false} ListAfterCalls(q: seq<RenderNode>, k: nat, parse: string -> Option<Parsed>)
    ensures ListAfter(q, k, parse) == Views(q[..CursorAfter(k, |q|)], parse)
  {
    if k > 0 {
      ListAfterCalls(q, k - 1, parse);
      WindowsTile(q, k - 1, parse);
    }
  }

  /** The outcome of the ledger request. */
  datatype LedgerResponse =
    | Loaded(data: Option<seq<Entry>>)   // 2xx with a JSON body; `None` for `null`
    | Rejected(error: Option<string>)    // non-2xx; the body's `error` if any (an unreadable body reads as `{}`)
    | RejectedNull                       // non-2xx whose body is JSON `null`: reading `error` off it throws
    | Unreachable                        // the request or the body parse threw

  class LedgerView {
    var ledger: seq<Entry>
    var queue: seq<RenderNode>
    var index: nat
    var list: seq<DomNode>
    var sentinel: string
    var observing: bool

    ghost predicate Valid()
      reads this
    {
      index <= |queue|
    }

    /** The page's initial globals: empty ledger and queue, cursor 0. */
    constructor ()
      ensures Valid()
      ensures ledger == [] && queue == [] && index == 0
      ensures list == [] && sentinel == "" && !observing
    {
      ledger, queue, index := [], [], 0;
      list, sentinel, observing := [], "", false;
    }

    /** renderNextChunk: draws the next window of at most 12 queue nodes. */
    method RenderNextChunk(parse: string -> Option<Parsed>)
      requires Valid()
      modifies this
      ensures Valid()
      ensures ledger == old(ledger) && queue == old(queue)
      ensures index == Advance(old(index), |queue|)
      ensures list == old(list) + Views(queue[old(index)..index], parse)
      ensures sentinel == (if index == |queue| then EndOfList else "")
      ensures observing == (old(observing) && index < |queue|)
      ensures old(index) == |queue| ==> list == old(list) && index == old(index)
    {
      var end := Advance(index, |queue|);
      var drawn := DrawNodes(queue, index, end, parse);
      list := list + drawn;
      index := end;
      if index >= |queue| {
        sentinel := EndOfList;
        observing := false;
      } else {
        sentinel := "";
      }
    }

    /** The observer's callback: the sentinel scrolled into view. */
    method SentinelVisible(parse: string -> Option<Parsed>)
      requires Valid()
      modifies this
      ensures Valid()
      ensures ledger == old(ledger) && queue == old(queue)
      ensures old(observing) ==> index == Advance(old(index), |queue|)
      ensures old(observing) ==> list == old(list) + Views(queue[old(index)..index], parse)
      ensures old(observing) ==> observing == (index < |queue|)
      ensures old(observing) ==> sentinel == (if index == |queue| then EndOfList else "")
      ensures !old(observing) ==> index == old(index) && list == old(list) && !observing
      ensures !old(observing) ==> sentinel == old(sentinel)
    {
      if observing {
        RenderNextChunk(parse);
      }
    }

    /** initLedger after the request: on success, stores the ledger,
        rebuilds the queue, resets the cursor and the list, watches the
        sentinel again and draws the first chunk; on failure, only reports. */
    method InitLedger(response: LedgerResponse, dayKey: string -> string, time: string -> int,
                      dayLabel: string -> string, parse: string -> Option<Parsed>)
      returns (message: string)
      requires Valid()
      modifies this
      ensures Valid()
      ensures !response.Loaded? ==> ledger == old(ledger) && queue == old(queue) && index == old(index)
      ensures !response.Loaded? ==> list == old(list) && observing == old(observing)
      ensures !response.Loaded? ==> sentinel == old(sentinel)
      ensures response.RejectedNull? ==> message == "Ledger network error"
      ensures response.Rejected? ==>
        message == if response.error.Some? && response.error.value != "" then response.error.value
                   else "Failed to load ledger"
      ensures response.Unreachable? ==> message == "Ledger network error"
      ensures response.Loaded? ==> message == "Transactions loaded"
      ensures response.Loaded? ==> ledger == (if response.data.Some? then response.data.value else [])
      ensures response.Loaded? ==> queue == Flatten(Grouped(ledger, dayKey, time, dayLabel))
      ensures response.Loaded? ==> index == Advance(0, |queue|) && list == Views(queue[..index], parse)
      ensures response.Loaded? ==> observing == (index < |queue|)
      ensures response.Loaded? ==> sentinel == (if index == |queue| then EndOfList else "")
    {
      match response
      case Rejected(error) =>
        message := if error.Some? && error.value != "" then error.value else "Failed to load ledger";
      case RejectedNull =>
        message := "Ledger network error";
      case Unreachable =>
        message := "Ledger network error";
      case Loaded(data) =>
        ShowLedger(if data.Some? then data.value else [], dayKey, time, dayLabel, parse);
        message := "Transactions loaded";
    }

    /** The success path of initLedger: stores the entries, rebuilds the
        queue, clears the list, draws the first window and watches the
        sentinel while nodes remain. */
    method ShowLedger(entries: seq<Entry>, dayKey: string -> string, time: string -> int,
                      dayLabel: string -> string, parse: string -> Option<Parsed>)
      modifies this
      ensures Valid()
      ensures ledger == entries
      ensures queue == Flatten(Grouped(entries, dayKey, time, dayLabel))
      ensures index == Advance(0, |queue|) && list == Views(queue[..index], parse)
      ensures observing == (index < |queue|)
      ensures sentinel == (if index == |queue| then EndOfList else "")
    {
      ResetQueue(entries, dayKey, time, dayLabel);
      RenderNextChunk(parse);
    }

    /** Stores the entries and their render queue, rewinds the cursor and
        empties the list before the first window is drawn. */
    method ResetQueue(entries: seq<Entry>, dayKey: string -> string, time: string -> int,
                      dayLabel: string -> string)
      modifies this
      ensures Valid()
      ensures ledger == entries
      ensures queue == Flatten(Grouped(entries, dayKey, time, dayLabel))
      ensures index == 0 && list == [] && sentinel == "" && observing
    {
      var groups := GroupByDate(entries, dayKey, time, dayLabel);
      var q := BuildRenderQueue(groups);
      ledger, queue := entries, q;
      index := 0;
      list := [];
      sentinel := "";
      observing := true;
    }
  }
}
