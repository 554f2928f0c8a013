/** Scanning one node for its biggest keys, and merging the lists of all nodes of a cluster. */
module BigKeys {
  import opened Sequences
  import opened TopN

  datatype Entry = Entry(key: string, sizeBytes: int, nodeId: string)

  function Sizes(entries: seq<Entry>): seq<int> {
    seq(|entries|, i requires 0 <= i < |entries| => entries[i].sizeBytes)
  }

  /** Entries in descending order of size; entries of one size keep their order. */
  function InsertEntry(s: seq<Entry>, e: Entry): seq<Entry> {
    if s == [] then [e]
    else if s[|s| - 1].sizeBytes >= e.sizeBytes then s + [e]
    else InsertEntry(s[..|s| - 1], e) + [s[|s| - 1]]
  }

  function SortEntries(s: seq<Entry>): seq<Entry> {
    if s == [] then [] else InsertEntry(SortEntries(s[..|s| - 1]), s[|s| - 1])
  }

  lemma {:induction false} SizesOfInsert(s: seq<Entry>, e: Entry)
    ensures Sizes(InsertEntry(s, e)) == Insert(Sizes(s), e.sizeBytes)
  {
    if s != [] {
      assert Sizes(s)[..|s| - 1] == Sizes(s[..|s| - 1]);
      SizesOfInsert(s[..|s| - 1], e);
    }
  }

  lemma {:induction false} SizesOfSort(s: seq<Entry>)
    ensures Sizes(SortEntries(s)) == SortDescending(Sizes(s))
  {
    if s != [] {
      SizesOfSort(s[..|s| - 1]);
      SizesOfInsert(SortEntries(s[..|s| - 1]), s[|s| - 1]);
      assert Sizes(s)[..|s| - 1] == Sizes(s[..|s| - 1]);
    }
  }

  /** Every entry of `a` is in `b`, no more often. */
  ghost predicate Within(a: seq<Entry>, b: seq<Entry>) {
    multiset(a) <= multiset(b)
  }

  lemma WithinSnoc(a: seq<Entry>, b: seq<Entry>, e: Entry)
    requires Within(a, b)
    ensures Within(a, b + [e]) && Within(a + [e], b + [e])
  {
    assert multiset(a + [e]) == multiset(a) + multiset{e};
    assert multiset(b + [e]) == multiset(b) + multiset{e};
  }

  lemma WithinWithout(a: seq<Entry>, k: nat)
    requires k < |a|
    ensures multiset(a) == multiset(a[..k] + a[k + 1..]) + multiset{a[k]}
  {
    assert a == a[..k] + ([a[k]] + a[k + 1..]);
  }

  lemma {:induction false} InsertKeepsEntries(s: seq<Entry>, e: Entry)
    ensures multiset(InsertEntry(s, e)) == multiset(s) + multiset{e}
  {
    if s != [] {
      InsertKeepsEntries(s[..|s| - 1], e);
      assert s == s[..|s| - 1] + [s[|s| - 1]];
    }
  }

  lemma {:induction false} SortKeepsEntries(s: seq<Entry>)
    ensures multiset(SortEntries(s)) == multiset(s)
  {
    if s != [] {
      var front, last := s[..|s| - 1], s[|s| - 1];
      SortKeepsEntries(front);
      InsertKeepsEntries(SortEntries(front), last);
      MultisetSnoc(s);
    }
  }

  lemma CutIsWithin(s: seq<Entry>, n: nat)
    ensures Within(Cut(s, n), s)
  {
    if |s| > n { assert s == s[..n] + s[n..]; }
  }

  // ----- the bounded heap -----

  /** A min-heap by size, as far as its callers can tell: which of several smallest entries is on top is open. */
  class MinHeap {
    var items: seq<Entry>

    constructor ()
      ensures items == []
    {
      items := [];
    }

    method Push(e: Entry)
      modifies this
      ensures items == old(items) + [e]
    {
      items := items + [e];
    }

    method Peek() returns (k: nat)
      requires items != []
      ensures k < |items| && forall i :: 0 <= i < |items| ==> items[k].sizeBytes <= items[i].sizeBytes
    {
      k := 0;
      for i := 1 to |items|
        invariant 0 <= k < |items| && forall j :: 0 <= j < i ==> items[k].sizeBytes <= items[j].sizeBytes
      {
        if items[i].sizeBytes < items[k].sizeBytes { k := i; }
      }
    }

    method Pop(k: nat)
      requires k < |items| && forall i :: 0 <= i < |items| ==> items[k].sizeBytes <= items[i].sizeBytes
      modifies this
      ensures items == old(items)[..k] + old(items)[k + 1..]
    {
      items := items[..k] + items[k + 1..];
    }
  }

  lemma {:induction false} LastOfSorted(s: seq<int>, least: int)
    requires forall i :: 0 <= i < |s| ==> least <= s[i]
    ensures var sorted := SortDescending(s); sorted != [] ==> sorted[|sorted| - 1] >= least
  {
    if s != [] {
      LastOfSorted(s[..|s| - 1], least);
      SortIsSorted(s[..|s| - 1]);
      InsertIsSorted(SortDescending(s[..|s| - 1]), s[|s| - 1]);
    }
  }

  lemma SplitAt(s: seq<int>, k: nat)
    requires k < |s|
    ensures s == s[..k] + [s[k]] + s[k + 1..]
  {
  }

  lemma RestIsNoSmaller(s: seq<int>, k: nat, rest: seq<int>)
    requires k < |s| && forall i :: 0 <= i < |s| ==> s[k] <= s[i]
    requires rest == s[..k] + s[k + 1..]
    ensures forall i :: 0 <= i < |rest| ==> s[k] <= rest[i]
  {
  }

  /** Taking out a smallest value takes the last one off the sorted list. */
  lemma SortWithoutSmallest(s: seq<int>, k: nat)
    requires k < |s| && forall i :: 0 <= i < |s| ==> s[k] <= s[i]
    ensures SortDescending(s) == SortDescending(s[..k] + s[k + 1..]) + [s[k]]
  {
    SortWithout(s, k, s[k]);
    RestIsNoSmaller(s, k, s[..k] + s[k + 1..]);
    LastOfSorted(s[..k] + s[k + 1..], s[k]);
  }

  lemma SortWithout(s: seq<int>, k: nat, x: int)
    requires k < |s| && s[k] == x
    ensures SortDescending(s) == Insert(SortDescending(s[..k] + s[k + 1..]), x)
  {
    SplitAt(s, k);
    SortFromAnyPlace(s[..k], x, s[k + 1..]);
  }

  /** How a heap that holds the `n` largest so far changes when a value arrives. */
  lemma HeapStep(heap: seq<int>, k: nat, seen: seq<int>, x: int, n: nat)
    requires n > 0 && SortDescending(heap) == Largest(seen, n)
    requires heap != [] ==> k < |heap| && forall i :: 0 <= i < |heap| ==> heap[k] <= heap[i]
    ensures |heap| < n ==> SortDescending(heap + [x]) == Largest(seen + [x], n)
    ensures |heap| >= n ==> |heap| == n && k < |heap|
    ensures |heap| >= n && x > heap[k] ==> SortDescending(heap[..k] + heap[k + 1..] + [x]) == Largest(seen + [x], n)
    ensures |heap| >= n && x <= heap[k] ==> SortDescending(heap) == Largest(seen + [x], n)
  {
    LargestSnoc(seen, x, n);
    SortIsSorted(heap);
    InsertKeepsElements(SortDescending(heap), x);
    SortSnoc(heap, x);
    if |heap| >= n {
      var rest := heap[..k] + heap[k + 1..];
      SortWithoutSmallest(heap, k);
      SortSnoc(rest, x);
      SortIsSorted(rest);
      InsertKeepsElements(SortDescending(rest), x);
      assert SortDescending(heap)[..|heap| - 1] == SortDescending(rest);
    }
  }

  // ----- scanning a node -----

  /** One SCAN reply with the sizes of its keys. */
  datatype Reply = Reply(cursor: string, entries: seq<Entry>)

  const DONE := "0"

  function Scanned(replies: seq<Reply>): seq<Entry> {
    if replies == [] then [] else Scanned(replies[..|replies| - 1]) + replies[|replies| - 1].entries
  }

  lemma ScannedSnoc(replies: seq<Reply>, n: nat)
    requires n < |replies|
    ensures Scanned(replies[..n + 1]) == Scanned(replies[..n]) + replies[n].entries
  {
    assert replies[..n + 1][..n] == replies[..n];
  }

  /** The scan ends after `n` replies: the cursor is back at 0, or enough keys were scanned. */
  predicate StopsAt(replies: seq<Reply>, n: nat, scanLimit: int) {
    0 < n <= |replies| && (replies[n - 1].cursor == "0" || |Scanned(replies[..n])| >= scanLimit)
  }

  /** The scan goes on until it may end. */
  predicate FirstStop(replies: seq<Reply>, n: nat, scanLimit: int) {
    StopsAt(replies, n, scanLimit) && forall m: nat :: m < n ==> !StopsAt(replies, m, scanLimit)
  }

  /** What a heap holds was scanned, each key as often, and its sizes are the `n` largest so far. */
  ghost predicate HoldsLargest(items: seq<Entry>, seen: seq<Entry>, n: nat) {
    && SortDescending(Sizes(items)) == Largest(Sizes(seen), n)
    && Within(items, seen)
  }

  lemma SizesConcat(a: seq<Entry>, b: seq<Entry>)
    ensures Sizes(a + b) == Sizes(a) + Sizes(b)
  {
  }

  lemma SizesAfterReplace(items: seq<Entry>, k: nat, e: Entry)
    requires k < |items|
    ensures Sizes(items[..k] + items[k + 1..] + [e]) == Sizes(items)[..k] + Sizes(items)[k + 1..] + [e.sizeBytes]
  {
  }

  lemma OneFurther(seen: seq<Entry>, entries: seq<Entry>, n: nat)
    requires n < |entries|
    ensures seen + entries[..n + 1] == seen + entries[..n] + [entries[n]]
  {
  }

  /** Offer one batch of entries to the heap. */
  method OfferBatch(heap: MinHeap, entries: seq<Entry>, topN: nat, ghost seen: seq<Entry>)
    requires topN > 0
    requires HoldsLargest(heap.items, seen, topN)
    modifies heap
    ensures HoldsLargest(heap.items, seen + entries, topN)
  {
    ghost var all := seen;
    for i := 0 to |entries|
      invariant HoldsLargest(heap.items, all, topN)
      invariant all == seen + entries[..i]
    {
      OfferStep(heap, entries[i], topN, all);
      OneFurther(seen, entries, i);
      all := all + [entries[i]];
    }
    Whole(all, seen, entries);
  }

  lemma Whole(all: seq<Entry>, seen: seq<Entry>, entries: seq<Entry>)
    requires all == seen + entries[..|entries|]
    ensures all == seen + entries
  {
  }

  /** Taking an entry into the heap, in place of one of its own or not. */
  lemma TakenIsWithin(items: seq<Entry>, k: nat, e: Entry, seen: seq<Entry>)
    requires Within(items, seen)
    ensures Within(items, seen + [e]) && Within(items + [e], seen + [e])
    ensures k < |items| ==> Within(items[..k] + items[k + 1..] + [e], seen + [e])
  {
    WithinSnoc(items, seen, e);
    if k < |items| {
      WithinWithout(items, k);
      WithinSnoc(items[..k] + items[k + 1..], seen, e);
    }
  }

  predicate IsLeast(items: seq<Entry>, k: nat) {
    k < |items| && forall i :: 0 <= i < |items| ==> items[k].sizeBytes <= items[i].sizeBytes
  }

  /** What to do with an entry so that the heap holds the largest of what was seen. */
  lemma OfferKeepsLargest(items: seq<Entry>, k: nat, e: Entry, seen: seq<Entry>, n: nat)
    requires n > 0 && HoldsLargest(items, seen, n) && (items != [] ==> IsLeast(items, k))
    ensures |items| < n ==> HoldsLargest(items + [e], seen + [e], n)
    ensures |items| >= n && e.sizeBytes > items[k].sizeBytes ==>
              HoldsLargest(items[..k] + items[k + 1..] + [e], seen + [e], n)
    ensures |items| >= n && e.sizeBytes <= items[k].sizeBytes ==> HoldsLargest(items, seen + [e], n)
  {
    SizesConcat(seen, [e]);
    SizesConcat(items, [e]);
    assert Sizes([e]) == [e.sizeBytes];
    HeapStep(Sizes(items), k, Sizes(seen), e.sizeBytes, n);
    TakenIsWithin(items, k, e, seen);
    if k < |items| { SizesAfterReplace(items, k, e); }
  }

  method OfferStep(heap: MinHeap, entry: Entry, topN: nat, ghost seen: seq<Entry>)
    requires topN > 0
    requires HoldsLargest(heap.items, seen, topN)
    modifies heap
    ensures HoldsLargest(heap.items, seen + [entry], topN)
  {
    var k := 0;
    if heap.items != [] { k := heap.Peek(); }
    OfferKeepsLargest(heap.items, k, entry, seen, topN);
    if |heap.items| < topN {
      heap.Push(entry);
    } else if entry.sizeBytes > heap.items[k].sizeBytes {
      heap.Pop(k);
      heap.Push(entry);
    }
  }

  /**
   * Scan until the cursor is back at 0 or enough keys were scanned. What is returned are entries
   * that were scanned, and their sizes are the `topN` largest of all scanned, largest first.
   */
  method ScanBigKeys(replies: seq<Reply>, topN: nat, scanLimit: int) returns (top: seq<Entry>, scanned: nat, batches: nat)
    requires topN > 0 && replies != [] && replies[|replies| - 1].cursor == "0"
    ensures FirstStop(replies, batches, scanLimit)
    ensures scanned == |Scanned(replies[..batches])|
    ensures Sizes(top) == Largest(Sizes(Scanned(replies[..batches])), topN)
    ensures Within(top, Scanned(replies[..batches]))
  {
    var heap := new MinHeap();
    scanned, batches := 0, 0;
    while batches == 0 || (replies[batches - 1].cursor != DONE && scanned < scanLimit)
      invariant 0 <= batches <= |replies| && scanned == |Scanned(replies[..batches])|
      invariant forall n: nat :: n < batches ==> !StopsAt(replies, n, scanLimit)
      invariant HoldsLargest(heap.items, Scanned(replies[..batches]), topN)
      decreases |replies| - batches
    {
      assert !StopsAt(replies, batches, scanLimit);
      ScannedSnoc(replies, batches);
      OfferBatch(heap, replies[batches].entries, topN, Scanned(replies[..batches]));
      scanned := scanned + |replies[batches].entries|;
      batches := batches + 1;
    }
    top := SortEntries(heap.items);
    SizesOfSort(heap.items);
    SortKeepsEntries(heap.items);
  }

  // ----- merging the nodes' lists -----

  datatype NodeKeys = NodeKeys(nodeId: string, keys: seq<Entry>)

  function Tagged(node: NodeKeys): seq<Entry> {
    seq(|node.keys|, i requires 0 <= i < |node.keys| => node.keys[i].(nodeId := node.nodeId))
  }

  function AllKeys(nodes: seq<NodeKeys>): seq<Entry> {
    if nodes == [] then [] else AllKeys(nodes[..|nodes| - 1]) + Tagged(nodes[|nodes| - 1])
  }

  /** Every node's keys are among all keys, each under its node's id. */
  lemma {:induction false} AllKeysSplit(nodes: seq<NodeKeys>, i: nat)
    requires i < |nodes|
    ensures AllKeys(nodes) == AllKeys(nodes[..i]) + Tagged(nodes[i]) + AllKeys(nodes[i + 1..])
    ensures |Tagged(nodes[i])| == |nodes[i].keys|
    ensures forall j :: 0 <= j < |nodes[i].keys| ==> Tagged(nodes[i])[j] == nodes[i].keys[j].(nodeId := nodes[i].nodeId)
  {
    var last := |nodes| - 1;
    if i < last {
      AllKeysSplit(nodes[..last], i);
      assert nodes[..last][..i] == nodes[..i] && nodes[..last][i + 1..] == nodes[i + 1..last];
      assert nodes[i + 1..][..last - i - 1] == nodes[i + 1..last];
    } else {
      assert nodes[i + 1..] == [];
    }
  }

  /** All nodes' keys with their node, sorted by size, the first `n`. */
  function MergeKeys(nodes: seq<NodeKeys>, n: nat): seq<Entry> {
    Cut(SortEntries(AllKeys(nodes)), n)
  }

  lemma {:induction false} LargestOfNodes(tops: seq<NodeKeys>, scans: seq<NodeKeys>, n: nat)
    requires |tops| == |scans|
    requires forall i :: 0 <= i < |tops| ==> Sizes(tops[i].keys) == Largest(Sizes(scans[i].keys), n)
    ensures Largest(Sizes(AllKeys(tops)), n) == Largest(Sizes(AllKeys(scans)), n)
  {
    if tops != [] {
      var last := |tops| - 1;
      LargestOfNodes(tops[..last], scans[..last], n);
      SizesConcat(AllKeys(tops[..last]), Tagged(tops[last]));
      SizesConcat(AllKeys(scans[..last]), Tagged(scans[last]));
      var a, b := Sizes(AllKeys(tops[..last])), Sizes(AllKeys(scans[..last]));
      var x := Sizes(scans[last].keys);
      assert Sizes(Tagged(tops[last])) == Largest(x, n) && Sizes(Tagged(scans[last])) == x;
      LargestOfParts(b, x, n);
      LargestOfParts(a, Largest(x, n), n);
      SortIsSorted(x);
      TakeIsSorted(SortDescending(x), n);
      SortOfSorted(Largest(x, n));
    }
  }

  /**
   * Merging the nodes' own top lists gives the same sizes as sorting everything every node scanned,
   * and every merged key is some node's key under that node's id.
   */
  lemma MergeIsGlobalTop(tops: seq<NodeKeys>, scans: seq<NodeKeys>, n: nat)
    requires |tops| == |scans|
    requires forall i :: 0 <= i < |tops| ==> Sizes(tops[i].keys) == Largest(Sizes(scans[i].keys), n)
    ensures Sizes(MergeKeys(tops, n)) == Largest(Sizes(AllKeys(scans)), n)
    ensures Within(MergeKeys(tops, n), AllKeys(tops))
  {
    var sorted := SortEntries(AllKeys(tops));
    SizesOfSort(AllKeys(tops));
    assert Sizes(MergeKeys(tops, n)) == Cut(Sizes(sorted), n);
    LargestOfNodes(tops, scans, n);
    SortKeepsEntries(AllKeys(tops));
    CutIsWithin(sorted, n);
  }

  // ----- a whole request -----

  /** The replies of a node to its scan. */
  datatype NodeReplies = NodeReplies(nodeId: string, replies: seq<Reply>)

  /** What a node scanned until it stopped. */
  function ScanOf(node: NodeReplies, batches: nat): NodeKeys {
    NodeKeys(node.nodeId, Scanned(if batches <= |node.replies| then node.replies[..batches] else node.replies))
  }

  function ScansOf(nodes: seq<NodeReplies>, batches: seq<nat>): seq<NodeKeys>
    requires |batches| == |nodes|
  {
    seq(|nodes|, i requires 0 <= i < |nodes| => ScanOf(nodes[i], batches[i]))
  }

  /** One node's list is no more than what it scanned, and has the sizes of its largest keys. */
  ghost predicate IsTop(top: NodeKeys, scan: NodeKeys, n: nat) {
    && top.nodeId == scan.nodeId && Within(top.keys, scan.keys)
    && Sizes(top.keys) == Largest(Sizes(scan.keys), n)
  }

  lemma {:induction false} TagsAreWithin(some: seq<Entry>, all: seq<Entry>, nodeId: string)
    requires Within(some, all)
    ensures Within(Tagged(NodeKeys(nodeId, some)), Tagged(NodeKeys(nodeId, all)))
  {
    if some != [] {
      var front, last := some[..|some| - 1], some[|some| - 1];
      var k := PlaceOf(front, last, some, all);
      var rest := all[..k] + all[k + 1..];
      TagsAreWithin(front, rest, nodeId);
      WithinSnoc(Tagged(NodeKeys(nodeId, front)), Tagged(NodeKeys(nodeId, rest)), last.(nodeId := nodeId));
      TagSplit(all, k, nodeId);
      assert Tagged(NodeKeys(nodeId, some)) == Tagged(NodeKeys(nodeId, front)) + [last.(nodeId := nodeId)];
    }
  }

  /** An entry of `some` has a place in `all`, and the others are in the rest. */
  lemma PlaceOf(front: seq<Entry>, last: Entry, some: seq<Entry>, all: seq<Entry>) returns (k: nat)
    requires some == front + [last] && Within(some, all)
    ensures k < |all| && all[k] == last && Within(front, all[..k] + all[k + 1..])
  {
    assert last in multiset(all);
    k :| 0 <= k < |all| && all[k] == last;
    WithinWithout(all, k);
    var rest := all[..k] + all[k + 1..];
    MultisetSnoc(some);
    assert some[..|some| - 1] == front;
    forall e ensures multiset(front)[e] <= multiset(rest)[e] {
      assert multiset(some)[e] <= multiset(all)[e];
    }
  }

  lemma TagSplit(all: seq<Entry>, k: nat, nodeId: string)
    requires k < |all|
    ensures multiset(Tagged(NodeKeys(nodeId, all)))
         == multiset(Tagged(NodeKeys(nodeId, all[..k] + all[k + 1..])) + [all[k].(nodeId := nodeId)])
  {
    var tagged := Tagged(NodeKeys(nodeId, all));
    WithinWithout(tagged, k);
    assert Tagged(NodeKeys(nodeId, all[..k] + all[k + 1..])) == tagged[..k] + tagged[k + 1..];
  }

  lemma {:induction false} AllKeysKeep(tops: seq<NodeKeys>, scans: seq<NodeKeys>, n: nat)
    requires |tops| == |scans| && forall i :: 0 <= i < |tops| ==> IsTop(tops[i], scans[i], n)
    ensures Within(AllKeys(tops), AllKeys(scans))
  {
    if tops != [] {
      var last := |tops| - 1;
      AllKeysKeep(tops[..last], scans[..last], n);
      TagsAreWithin(tops[last].keys, scans[last].keys, tops[last].nodeId);
    }
  }

  /**
   * Ask every node for its biggest keys and merge the answers. The result is scanned keys, each
   * under its node's id and no more often than it was scanned, and their sizes are the `topN`
   * largest of everything all nodes scanned.
   */
  method RequestBigKeys(nodes: seq<NodeReplies>, topN: nat, scanLimit: int)
    returns (merged: seq<Entry>, batches: seq<nat>)
    requires topN > 0
    requires forall i :: 0 <= i < |nodes| ==> nodes[i].replies != [] && nodes[i].replies[|nodes[i].replies| - 1].cursor == "0"
    ensures |batches| == |nodes|
    ensures forall i :: 0 <= i < |nodes| ==> FirstStop(nodes[i].replies, batches[i], scanLimit)
    ensures Sizes(merged) == Largest(Sizes(AllKeys(ScansOf(nodes, batches))), topN)
    ensures Within(merged, AllKeys(ScansOf(nodes, batches)))
  {
    var results: seq<NodeKeys> := [];
    batches := [];
    for i := 0 to |nodes|
      invariant |results| == |batches| == i
      invariant forall j :: 0 <= j < i ==> FirstStop(nodes[j].replies, batches[j], scanLimit)
      invariant forall j :: 0 <= j < i ==> IsTop(results[j], ScanOf(nodes[j], batches[j]), topN)
    {
      var top, _, n := ScanBigKeys(nodes[i].replies, topN, scanLimit);
      results, batches := results + [NodeKeys(nodes[i].nodeId, top)], batches + [n];
    }
    merged := MergeKeys(results, topN);
    MergeIsGlobalTop(results, ScansOf(nodes, batches), topN);
    AllKeysKeep(results, ScansOf(nodes, batches), topN);
  }
}
