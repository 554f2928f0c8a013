/**
 * The concurrent SCAN of a cluster: every primary is walked by its own cursor, and all walks
 * add to one insertion-ordered key set that stops growing at a limit.
 */
module ClusterScans {
  import opened Sequences

  datatype Reply = Reply(node: nat, cursor: string, keys: seq<string>)

  const DONE := "0"

  function Cap(limit: int): nat { if limit < 0 then 0 else limit }

  /** Adding a key below the limit is what taking the first `n` distinct keys does. */
  lemma CutDistinctSnoc(s: seq<string>, k: string, n: nat)
    ensures var d := Cut(Distinct(s), n);
            Cut(Distinct(s + [k]), n) == if |d| < n && k !in d then d + [k] else d
  {
    DistinctSnoc(s, k);
  }

  class ClusterScan {
    const limit: int
    var allKeys: seq<string>
    var cursor: seq<string>
    var waiting: seq<bool>
    /** Every key any node returned, in the order the replies were handled. */
    ghost var returned: seq<string>

    /** What holds between any two blocks of code, however the replies interleave. */
    ghost predicate Valid()
      reads this
    {
      && |cursor| == |waiting|
      && allKeys == Cut(Distinct(returned), Cap(limit))
      && (forall i :: 0 <= i < |cursor| && waiting[i] ==> cursor[i] != DONE)
      && (forall i :: 0 <= i < |cursor| && !waiting[i] ==> cursor[i] == DONE || |allKeys| >= limit)
    }

    method AddKey(key: string)
      requires allKeys == Cut(Distinct(returned), Cap(limit))
      modifies this`allKeys, this`returned
      ensures returned == old(returned) + [key]
      ensures allKeys == Cut(Distinct(returned), Cap(limit)) && |old(allKeys)| <= |allKeys|
    {
      CutDistinctSnoc(returned, key, Cap(limit));
      if |allKeys| < limit && key !in allKeys { allKeys := allKeys + [key]; }
      returned := returned + [key];
    }

    method AddKeys(keys: seq<string>)
      requires allKeys == Cut(Distinct(returned), Cap(limit))
      modifies this`allKeys, this`returned
      ensures returned == old(returned) + keys
      ensures allKeys == Cut(Distinct(returned), Cap(limit))
      ensures |old(allKeys)| <= |allKeys|
    {
      for i := 0 to |keys|
        invariant returned == old(returned) + keys[..i]
        invariant allKeys == Cut(Distinct(returned), Cap(limit))
        invariant |old(allKeys)| <= |allKeys|
      {
        AddKey(keys[i]);
      }
    }

    /** The code of one more node runs up to its first wait. */
    method StartNode(r: Reply)
      requires Valid()
      modifies this
      ensures Valid() && cursor == old(cursor) + [r.cursor]
      ensures returned == old(returned) + r.keys
      ensures waiting == old(waiting) + [r.cursor != DONE && |allKeys| < limit]
    {
      AddKeys(r.keys);
      cursor := cursor + [r.cursor];
      waiting := waiting + [r.cursor != DONE && |allKeys| < limit];
    }

    constructor (limit: int)
      ensures Valid() && this.limit == limit && cursor == [] && returned == []
    {
      this.limit := limit;
      allKeys, cursor, waiting, returned := [], [], [], [];
    }

    /** A node's reply arrives: its loop continues up to the next wait, or ends. */
    method OnReply(r: Reply)
      requires Valid() && r.node < |cursor| && waiting[r.node]
      modifies this
      ensures Valid() && |cursor| == |old(cursor)|
      ensures returned == old(returned) + r.keys
      ensures cursor == old(cursor)[r.node := r.cursor]
      ensures waiting == old(waiting)[r.node := r.cursor != DONE && |allKeys| < limit]
    {
      cursor := cursor[r.node := r.cursor];
      AddKeys(r.keys);
      waiting := waiting[r.node := r.cursor != DONE && |allKeys| < limit];
    }

    /** When every node's loop has ended, the scan is full, or every walk is complete and no key is missing. */
    lemma FinishedScanIsFullOrComplete()
      requires Valid() && true !in waiting
      ensures || |allKeys| == Cap(limit)
              || ((forall i :: 0 <= i < |cursor| ==> cursor[i] == DONE)
                  && (forall k :: k in allKeys <==> k in returned))
    {
      DistinctMembers(returned);
      assert forall i :: 0 <= i < |waiting| ==> waiting[i] in waiting;
    }
  }

  /** The keys of a run of replies, in order. */
  function Returned(replies: seq<Reply>): seq<string> {
    if replies == [] then []
    else Returned(replies[..|replies| - 1]) + replies[|replies| - 1].keys
  }

  lemma ReturnedSnoc(replies: seq<Reply>, r: Reply)
    ensures Returned(replies + [r]) == Returned(replies) + r.keys
  {
    assert (replies + [r])[..|replies|] == replies;
  }

  /** The cursor in the last reply of a node. */
  function LastCursor(replies: seq<Reply>, node: nat): string {
    if replies == [] then ""
    else if replies[|replies| - 1].node == node then replies[|replies| - 1].cursor
    else LastCursor(replies[..|replies| - 1], node)
  }

  /** The keys held after some replies. */
  function KeysAfter(limit: int, replies: seq<Reply>): seq<string> {
    Cut(Distinct(Returned(replies)), Cap(limit))
  }

  /** A node asks again when its last reply left its walk unfinished and the set below the limit. */
  predicate Asks(limit: int, replies: seq<Reply>, node: nat) {
    if replies == [] then false
    else
      var last := replies[|replies| - 1];
      if last.node == node then AsksOn(limit, replies, last)
      else Asks(limit, replies[..|replies| - 1], node)
  }

  /** A node asks again only while its walk is unfinished, and never once a reply finds the set full. */
  lemma {:induction false} AsksOnlyBelowLimit(limit: int, replies: seq<Reply>, node: nat)
    ensures Asks(limit, replies, node) ==> LastCursor(replies, node) != "0"
    ensures replies != [] && replies[|replies| - 1].node == node && |KeysAfter(limit, replies)| >= limit ==>
              !Asks(limit, replies, node)
  {
    if replies != [] { AsksOnlyBelowLimit(limit, replies[..|replies| - 1], node); }
  }

  predicate NoneAsks(limit: int, replies: seq<Reply>, nodes: nat) {
    forall node: nat :: node < nodes ==> !Asks(limit, replies, node)
  }

  /** The replies that are handled: the first ones, and of those that arrive the ones asked for. */
  function Handled(limit: int, first: seq<Reply>, arrivals: seq<Reply>): seq<Reply> {
    if arrivals == [] then first
    else
      var before, r := Handled(limit, first, arrivals[..|arrivals| - 1]), arrivals[|arrivals| - 1];
      if r.node < |first| && Asks(limit, before, r.node) then before + [r] else before
  }

  lemma HandledSnoc(limit: int, first: seq<Reply>, arrivals: seq<Reply>, n: nat)
    requires n < |arrivals|
    ensures var before := Handled(limit, first, arrivals[..n]);
            Handled(limit, first, arrivals[..n + 1])
            == if arrivals[n].node < |first| && Asks(limit, before, arrivals[n].node) then before + [arrivals[n]] else before
  {
    assert arrivals[..n + 1][..n] == arrivals[..n];
  }

  lemma ReplySnoc(limit: int, replies: seq<Reply>, r: Reply, node: nat)
    ensures LastCursor(replies + [r], node) == if r.node == node then r.cursor else LastCursor(replies, node)
    ensures Asks(limit, replies + [r], node)
       <==> if r.node == node then AsksOn(limit, replies + [r], r) else Asks(limit, replies, node)
  {
    assert (replies + [r])[..|replies|] == replies;
  }

  /** After its last reply a node goes on. */
  predicate AsksOn(limit: int, replies: seq<Reply>, last: Reply) {
    last.cursor != DONE && |KeysAfter(limit, replies)| < limit
  }

  /** A node's cursor and whether it waits for a reply are what the replies handled say. */
  ghost predicate StandsAt(limit: int, cursor: seq<string>, waiting: seq<bool>, handled: seq<Reply>, node: nat) {
    node < |cursor| == |waiting| ==>
      cursor[node] == LastCursor(handled, node) && waiting[node] == Asks(limit, handled, node)
  }

  ghost predicate AllStand(limit: int, cursor: seq<string>, waiting: seq<bool>, handled: seq<Reply>) {
    |cursor| == |waiting| && forall node: nat :: StandsAt(limit, cursor, waiting, handled, node)
  }

  lemma OneMoreStarts(limit: int, cursor: seq<string>, waiting: seq<bool>, handled: seq<Reply>, r: Reply)
    requires AllStand(limit, cursor, waiting, handled) && r.node == |cursor|
    ensures AllStand(limit, cursor + [r.cursor], waiting + [AsksOn(limit, handled + [r], r)], handled + [r])
  {
    forall node: nat
      ensures StandsAt(limit, cursor + [r.cursor], waiting + [AsksOn(limit, handled + [r], r)], handled + [r], node)
    {
      assert StandsAt(limit, cursor, waiting, handled, node);
      ReplySnoc(limit, handled, r, node);
    }
  }

  lemma OneMoveOn(limit: int, cursor: seq<string>, waiting: seq<bool>, handled: seq<Reply>, r: Reply)
    requires AllStand(limit, cursor, waiting, handled) && r.node < |cursor|
    ensures AllStand(limit, cursor[r.node := r.cursor], waiting[r.node := AsksOn(limit, handled + [r], r)], handled + [r])
  {
    var cursor', waiting' := cursor[r.node := r.cursor], waiting[r.node := AsksOn(limit, handled + [r], r)];
    forall node: nat
      ensures StandsAt(limit, cursor', waiting', handled + [r], node)
    {
      assert StandsAt(limit, cursor, waiting, handled, node);
      ReplySnoc(limit, handled, r, node);
    }
  }

  ghost predicate Follows(scan: ClusterScan, handled: seq<Reply>)
    reads scan
  {
    && scan.Valid() && scan.returned == Returned(handled)
    && AllStand(scan.limit, scan.cursor, scan.waiting, handled)
  }

  /** The first scan went to every primary at once; the code of each runs up to its first wait. */
  method StartScan(limit: int, first: seq<Reply>) returns (scan: ClusterScan)
    requires forall i :: 0 <= i < |first| ==> first[i].node == i
    ensures fresh(scan) && scan.limit == limit && |scan.cursor| == |first| && Follows(scan, first)
  {
    scan := new ClusterScan(limit);
    for i := 0 to |first|
      invariant fresh(scan) && scan.limit == limit && |scan.cursor| == i && Follows(scan, first[..i])
    {
      assert first[..i + 1] == first[..i] + [first[i]];
      ReturnedSnoc(first[..i], first[i]);
      OneMoreStarts(limit, scan.cursor, scan.waiting, first[..i], first[i]);
      scan.StartNode(first[i]);
    }
    assert first[..|first|] == first;
  }

  /** A reply that its node asked for is handled. */
  method Handle(scan: ClusterScan, r: Reply, ghost handled: seq<Reply>)
    requires Follows(scan, handled) && r.node < |scan.cursor| && scan.waiting[r.node]
    modifies scan
    ensures |scan.cursor| == |old(scan.cursor)| && Follows(scan, handled + [r])
  {
    ReturnedSnoc(handled, r);
    OneMoveOn(scan.limit, scan.cursor, scan.waiting, handled, r);
    scan.OnReply(r);
  }

  /**
   * A whole scan: the first replies of all primaries, then any interleaving of later ones, of which
   * those that a node asked for are handled. The keys are the first `limit` distinct ones returned,
   * and the scan is finished when no node asks any more: then it is full, or every walk is complete
   * and no key is missing.
   */
  method ScanCluster(limit: int, first: seq<Reply>, arrivals: seq<Reply>) returns (keys: seq<string>, finished: bool)
    requires forall i :: 0 <= i < |first| ==> first[i].node == i
    ensures keys == KeysAfter(limit, Handled(limit, first, arrivals))
    ensures finished <==> NoneAsks(limit, Handled(limit, first, arrivals), |first|)
    ensures finished ==>
              || |keys| == Cap(limit)
              || ((forall node: nat :: node < |first| ==> LastCursor(Handled(limit, first, arrivals), node) == "0")
                  && (forall k :: k in keys <==> k in Returned(Handled(limit, first, arrivals))))
  {
    var scan := StartScan(limit, first);
    for i := 0 to |arrivals|
      invariant fresh(scan) && scan.limit == limit && |scan.cursor| == |first|
      invariant Follows(scan, Handled(limit, first, arrivals[..i]))
    {
      ghost var handled := Handled(limit, first, arrivals[..i]);
      var r := arrivals[i];
      HandledSnoc(limit, first, arrivals, i);
      assert StandsAt(limit, scan.cursor, scan.waiting, handled, r.node);
      if r.node < |scan.cursor| && scan.waiting[r.node] {
        Handle(scan, r, handled);
      }
    }
    assert arrivals[..|arrivals|] == arrivals;
    keys, finished := scan.allKeys, true !in scan.waiting;
    FinishedMeansNoneAsks(scan, Handled(limit, first, arrivals));
    if finished { scan.FinishedScanIsFullOrComplete(); }
  }

  lemma FinishedMeansNoneAsks(scan: ClusterScan, handled: seq<Reply>)
    requires Follows(scan, handled)
    ensures true !in scan.waiting <==> NoneAsks(scan.limit, handled, |scan.cursor|)
    ensures forall node: nat :: node < |scan.cursor| ==> scan.cursor[node] == LastCursor(handled, node)
  {
    forall node: nat | node < |scan.cursor|
      ensures scan.cursor[node] == LastCursor(handled, node)
    {
      assert StandsAt(scan.limit, scan.cursor, scan.waiting, handled, node);
    }
    forall node: nat | node < |scan.cursor| && Asks(scan.limit, handled, node)
      ensures true in scan.waiting
    {
      assert StandsAt(scan.limit, scan.cursor, scan.waiting, handled, node);
      assert scan.waiting[node] in scan.waiting;
    }
    if true in scan.waiting {
      var node: nat :| node < |scan.waiting| && scan.waiting[node] == true;
      assert StandsAt(scan.limit, scan.cursor, scan.waiting, handled, node);
    }
  }
}
