/** The largest keys: a bounded min-heap per node, and the merge of the nodes' lists. */
module TopN {
  import opened Sequences

  // ----- the reference definition, on sizes -----

  predicate Descending(s: seq<int>) {
    |s| <= 1 || (s[|s| - 2] >= s[|s| - 1] && Descending(s[..|s| - 1]))
  }

  /** `x` put in its place in a descending list, after equal values. */
  function Insert(s: seq<int>, x: int): seq<int> {
    if s == [] then [x]
    else if s[|s| - 1] >= x then s + [x]
    else Insert(s[..|s| - 1], x) + [s[|s| - 1]]
  }

  function SortDescending(s: seq<int>): seq<int> {
    if s == [] then [] else Insert(SortDescending(s[..|s| - 1]), s[|s| - 1])
  }

  /** The `n` largest values, largest first. */
  function Largest(s: seq<int>, n: nat): seq<int> {
    Cut(SortDescending(s), n)
  }

  lemma {:induction false} SortSnoc(s: seq<int>, x: int)
    ensures SortDescending(s + [x]) == Insert(SortDescending(s), x)
  {
    assert (s + [x])[..|s|] == s;
  }

  lemma {:induction false} InsertKeepsElements(s: seq<int>, x: int)
    ensures |Insert(s, x)| == |s| + 1
    ensures multiset(Insert(s, x)) == multiset(s) + multiset{x}
  {
    if s != [] && s[|s| - 1] < x {
      InsertKeepsElements(s[..|s| - 1], x);
      MultisetSnoc(s);
    }
  }

  lemma {:induction false} InsertIsSorted(s: seq<int>, x: int)
    requires Descending(s)
    ensures Descending(Insert(s, x))
    ensures Insert(s, x) != [] && Insert(s, x)[|Insert(s, x)| - 1] == if s != [] && s[|s| - 1] < x then s[|s| - 1] else x
  {
    if s != [] && s[|s| - 1] < x {
      var front, last := s[..|s| - 1], s[|s| - 1];
      InsertIsSorted(front, x);
      assert Insert(s, x)[..|Insert(s, x)| - 1] == Insert(front, x);
    } else {
      assert (s + [x])[..|s|] == s;
    }
  }

  /** The reference is a descending arrangement of the values. */
  lemma {:induction false} SortIsSorted(s: seq<int>)
    ensures Descending(SortDescending(s)) && |SortDescending(s)| == |s|
    ensures multiset(SortDescending(s)) == multiset(s)
  {
    if s != [] {
      var front := SortDescending(s[..|s| - 1]);
      SortIsSorted(s[..|s| - 1]);
      InsertIsSorted(front, s[|s| - 1]);
      InsertKeepsElements(front, s[|s| - 1]);
      MultisetSnoc(s);
    }
  }

  lemma {:induction false} InsertCommutes(s: seq<int>, x: int, y: int)
    requires Descending(s)
    ensures Insert(Insert(s, x), y) == Insert(Insert(s, y), x)
  {
    if s == [] || (s[|s| - 1] >= x && s[|s| - 1] >= y) {
      InsertAfterLast(s, x, y);
      InsertAfterLast(s, y, x);
    } else {
      var front, last := s[..|s| - 1], s[|s| - 1];
      assert front + [last] == s;
      InsertCommutes(front, x, y);
      InsertBeforeLast(front, last, x, y);
      InsertBeforeLast(front, last, y, x);
    }
  }

  /** Two insertions after the last value stand in their own order. */
  lemma {:induction false} InsertAfterLast(s: seq<int>, x: int, y: int)
    requires s == [] || (s[|s| - 1] >= x && s[|s| - 1] >= y)
    ensures Insert(Insert(s, x), y) == if x >= y then s + [x, y] else s + [y, x]
  {
    var t := s + [x];
    assert Insert(s, x) == t && t[..|t| - 1] == s && t[|t| - 1] == x;
    if x >= y {
      assert Insert(t, y) == t + [y] == s + [x, y];
    } else {
      assert Insert(t, y) == Insert(s, y) + [x] && Insert(s, y) == s + [y];
    }
  }

  /** Two insertions, at least one of which goes before the last value, leave it last or next to last. */
  lemma {:induction false} InsertBeforeLast(front: seq<int>, last: int, x: int, y: int)
    requires last < x || last < y
    ensures Insert(Insert(front + [last], x), y)
         == if last < x && last < y then Insert(Insert(front, x), y) + [last]
            else if last < x then Insert(front, x) + [last, y]
            else Insert(front, y) + [last, x]
  {
    var s := front + [last];
    assert s[..|s| - 1] == front;
    if last < x {
      var t := Insert(front, x) + [last];
      assert Insert(s, x) == t && t[..|t| - 1] == Insert(front, x);
    } else {
      var t := s + [x];
      assert Insert(s, x) == t && t[..|t| - 1] == s;
    }
  }

  /** A value may be added at any place of the list: the sorted list is the same. */
  lemma {:induction false} SortFromAnyPlace(a: seq<int>, x: int, b: seq<int>)
    ensures SortDescending(a + [x] + b) == Insert(SortDescending(a + b), x)
  {
    if b == [] {
      assert a + b == a && a + [x] + b == a + [x];
      SortSnoc(a, x);
    } else {
      var front, last := b[..|b| - 1], b[|b| - 1];
      assert a + [x] + b == (a + [x] + front) + [last] && a + b == (a + front) + [last];
      SortSnoc(a + [x] + front, last);
      SortSnoc(a + front, last);
      SortFromAnyPlace(a, x, front);
      SortIsSorted(a + front);
      InsertCommutes(SortDescending(a + front), x, last);
    }
  }

  lemma {:induction false} SortOfSwapped(a: seq<int>, b: seq<int>)
    ensures SortDescending(a + b) == SortDescending(b + a)
  {
    if b == [] {
      assert a + b == a && b + a == a;
    } else {
      var front, last := b[..|b| - 1], b[|b| - 1];
      assert a + b == (a + front) + [last] && b + a == front + [last] + a;
      SortSnoc(a + front, last);
      SortFromAnyPlace(front, last, a);
      SortOfSwapped(a, front);
    }
  }

  // ----- only the largest matter -----

  /** Only the `n` largest so far matter when a value is added. */
  lemma {:induction false} InsertThenCut(s: seq<int>, x: int, n: nat)
    requires Descending(s)
    ensures Cut(Insert(s, x), n) == Cut(Insert(Cut(s, n), x), n)
    decreases |s|
  {
    if |s| > n > 0 {
      var front, last := s[..|s| - 1], s[|s| - 1];
      InsertThenCut(front, x, n);
      assert Cut(front, n) == Cut(s, n);
      InsertKeepsElements(front, x);
      if last >= x {
        assert front[|front| - 1] >= x;
        assert Insert(front, x) == front + [x];
      }
    }
  }

  lemma LargestSnoc(s: seq<int>, x: int, n: nat)
    ensures Largest(s + [x], n) == Cut(Insert(Largest(s, n), x), n)
  {
    SortSnoc(s, x);
    SortIsSorted(s);
    InsertThenCut(SortDescending(s), x, n);
  }

  lemma {:induction false} InsertsAtEnd(s: seq<int>, x: int)
    requires s == [] || s[|s| - 1] >= x
    ensures Insert(s, x) == s + [x]
  {
  }

  lemma {:induction false} SortOfSorted(s: seq<int>)
    requires Descending(s)
    ensures SortDescending(s) == s
  {
    if s != [] {
      var front, last := s[..|s| - 1], s[|s| - 1];
      assert s == front + [last];
      SortOfSorted(front);
      SortSnoc(front, last);
      InsertsAtEnd(front, last);
    }
  }

  lemma {:induction false} TakeIsSorted(s: seq<int>, n: nat)
    requires Descending(s)
    ensures Descending(Cut(s, n))
    decreases |s|
  {
    if |s| > n {
      TakeIsSorted(s[..|s| - 1], n);
      assert Cut(s[..|s| - 1], n) == Cut(s, n);
    }
  }

  /** Of a first part only its own `n` largest matter. */
  lemma {:induction false} LargestOfFirstPart(a: seq<int>, b: seq<int>, n: nat)
    ensures Largest(a + b, n) == Largest(Largest(a, n) + b, n)
  {
    if b == [] {
      assert a + b == a && Largest(a, n) + b == Largest(a, n);
      SortIsSorted(a);
      TakeIsSorted(SortDescending(a), n);
      SortOfSorted(Largest(a, n));
    } else {
      var front, last := b[..|b| - 1], b[|b| - 1];
      assert a + b == (a + front) + [last] && Largest(a, n) + b == (Largest(a, n) + front) + [last];
      LargestOfFirstPart(a, front, n);
      LargestSnoc(a + front, last, n);
      LargestSnoc(Largest(a, n) + front, last, n);
    }
  }

  /** The `n` largest of two lists together are those of their own `n` largest. */
  lemma LargestOfParts(a: seq<int>, b: seq<int>, n: nat)
    ensures Largest(a + b, n) == Largest(Largest(a, n) + Largest(b, n), n)
  {
    LargestOfFirstPart(a, b, n);
    SortOfSwapped(Largest(a, n), b);
    LargestOfFirstPart(b, Largest(a, n), n);
    SortOfSwapped(Largest(b, n), Largest(a, n));
  }
}
