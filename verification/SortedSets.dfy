/** The sorted set a server holds while it is being read, and the replies its range commands give. */
module SortedSets {
  import opened Sequences

  datatype Member = Member(key: string, score: real)

  /** Byte-wise order on member names. */
  predicate KeyLess(a: string, b: string) {
    b != "" && (a == "" || a[0] < b[0] || (a[0] == b[0] && KeyLess(a[1..], b[1..])))
  }

  lemma {:induction false} KeyLessIrreflexive(a: string)
    ensures !KeyLess(a, a)
  {
    if a != "" {
      KeyLessIrreflexive(a[1..]);
    }
  }

  lemma {:induction false} KeyLessTransitive(a: string, b: string, c: string)
    requires KeyLess(a, b) && KeyLess(b, c)
    ensures KeyLess(a, c)
  {
    if a != "" && a[0] == b[0] == c[0] {
      KeyLessTransitive(a[1..], b[1..], c[1..]);
    }
  }

  predicate Before(x: Member, y: Member) {
    x.score < y.score || (x.score == y.score && KeyLess(x.key, y.key))
  }

  /** A sorted set as the server keeps it: distinct names, ordered by score and then by name. */
  ghost predicate ValidSet(s: seq<Member>) {
    && (forall i, j :: 0 <= i < j < |s| ==> Before(s[i], s[j]))
    && DistinctKeys(s)
  }

  ghost predicate KeysDiffer(s: seq<Member>, i: int, j: int) {
    0 <= i < j < |s| ==> s[i].key != s[j].key
  }

  ghost predicate DistinctKeys(s: seq<Member>) {
    forall i, j :: KeysDiffer(s, i, j)
  }

  /** Set order is also name order. */
  ghost predicate KeyOrdered(s: seq<Member>) {
    forall i, j :: 0 <= i < j < |s| ==> KeyLess(s[i].key, s[j].key)
  }

  /** Member `j` comes at least `n` places after another member with its score. */
  ghost predicate DeepAt(s: seq<Member>, n: nat, j: nat) {
    n <= j < |s| && s[j - n].score == s[j].score
  }

  /** No score has more than `n` members. */
  ghost predicate TiesFit(s: seq<Member>, n: nat) {
    forall j: nat :: !DeepAt(s, n, j)
  }

  function KeySet(s: seq<Member>): set<string> {
    set m | m in s :: m.key
  }

  // ----- range replies -----

  datatype Range = Everything | AtLeast(score: real) | Above(score: real) | Exactly(score: real) | AfterKey(key: string)

  predicate Admits(r: Range, m: Member) {
    match r
    case Everything => true
    case AtLeast(x) => x <= m.score
    case Above(x) => x < m.score
    case Exactly(x) => x == m.score
    case AfterKey(k) => KeyLess(k, m.key)
  }

  /** The members of `s` in the range, in set order. */
  function Matching(s: seq<Member>, r: Range): seq<Member> {
    if s == [] then []
    else (if Admits(r, s[0]) then [s[0]] else []) + Matching(s[1..], r)
  }

  /** The reply to a range query with `LIMIT 0 n`. */
  function Page(s: seq<Member>, r: Range, n: nat): seq<Member> {
    Cut(Matching(s, r), n)
  }

  /** Where the page of `n` members from index `a` ends. */
  function PageEnd(s: seq<Member>, a: nat, n: nat): (e: nat)
    requires a <= |s|
    ensures a <= e <= |s|
  {
    if |s| - a <= n then |s| else a + n
  }

  /** The page of `n` members from index `a`. */
  function SliceAt(s: seq<Member>, a: nat, n: nat): seq<Member>
    requires a <= |s|
  {
    s[a..PageEnd(s, a, n)]
  }

  function Names(s: seq<Member>): seq<string> {
    seq(|s|, i requires 0 <= i < |s| => s[i].key)
  }

  /**
   * What is documented of `BYLEX` after an exclusive cursor. The command is specified only
   * when set order is also name order; otherwise a reply may be anything.
   */
  ghost predicate HonoursByLex(s: seq<Member>, n: nat, byLex: string -> seq<string>) {
    KeyOrdered(s) ==> forall c :: byLex(c) == Names(Page(s, AfterKey(c), n))
  }

  /** When exactly the indices from `a` up to `b` are in range, the range is that slice. */
  lemma {:induction false} MatchingIsSlice(s: seq<Member>, r: Range, a: nat, b: nat)
    requires a <= b <= |s|
    requires forall i :: 0 <= i < |s| ==> (Admits(r, s[i]) <==> a <= i < b)
    ensures Matching(s, r) == s[a..b]
  {
    if s != [] {
      if a == 0 < b {
        MatchingIsSlice(s[1..], r, 0, b - 1);
        assert s[0..b] == [s[0]] + s[1..][0..b - 1];
      } else if a == 0 {
        MatchingIsSlice(s[1..], r, 0, 0);
      } else {
        MatchingIsSlice(s[1..], r, a - 1, b - 1);
        assert s[a..b] == s[1..][a - 1..b - 1];
      }
    }
  }

  lemma SuffixPage(s: seq<Member>, r: Range, a: nat, n: nat)
    requires a <= |s|
    requires forall i :: 0 <= i < |s| ==> (Admits(r, s[i]) <==> a <= i)
    ensures Page(s, r, n) == SliceAt(s, a, n)
  {
    MatchingIsSlice(s, r, a, |s|);
    assert Cut(s[a..|s|], n) == SliceAt(s, a, n);
  }

  // ----- score groups -----

  /** The first index whose score is that of index `k`. */
  function GroupStart(s: seq<Member>, k: nat): (q: nat)
    requires k < |s|
    ensures q <= k && s[q].score == s[k].score
    ensures forall i :: q <= i <= k ==> s[i].score == s[k].score
    ensures q > 0 ==> s[q - 1].score != s[q].score
  {
    if k > 0 && s[k - 1].score == s[k].score then GroupStart(s, k - 1) else k
  }

  /** One past the last index whose score is that of index `k`. */
  function GroupEnd(s: seq<Member>, k: nat): (e: nat)
    requires k < |s|
    ensures k < e <= |s|
    ensures forall i :: k <= i < e ==> s[i].score == s[k].score
    ensures e < |s| ==> s[e].score != s[k].score
    decreases |s| - k
  {
    if k + 1 < |s| && s[k + 1].score == s[k].score then GroupEnd(s, k + 1) else k + 1
  }

  ghost predicate ScoresRise(s: seq<Member>, i: int, j: int) {
    0 <= i <= j < |s| ==> s[i].score <= s[j].score
  }

  /** Scores never fall along the set. */
  ghost predicate ScoreSorted(s: seq<Member>) {
    forall i, j :: ScoresRise(s, i, j)
  }

  lemma ValidIsScoreSorted(s: seq<Member>)
    requires ValidSet(s)
    ensures ScoreSorted(s)
  {
    forall i, j
      ensures ScoresRise(s, i, j)
    {
      assert 0 <= i < j < |s| ==> Before(s[i], s[j]);
    }
  }

  lemma GroupBounds(s: seq<Member>, k: nat)
    requires ScoreSorted(s) && k < |s|
    ensures forall i :: 0 <= i < |s| ==> (s[i].score < s[k].score <==> i < GroupStart(s, k))
    ensures forall i :: 0 <= i < |s| ==> (s[k].score < s[i].score <==> GroupEnd(s, k) <= i)
  {
    var q: int, e: int := GroupStart(s, k), GroupEnd(s, k);
    forall i | 0 <= i < |s|
      ensures s[i].score < s[k].score <==> i < q
      ensures s[k].score < s[i].score <==> e <= i
    {
      assert ScoresRise(s, q - 1, q) && ScoresRise(s, i, q - 1) && ScoresRise(s, k, i);
      assert ScoresRise(s, i, k) && ScoresRise(s, e - 1, e) && ScoresRise(s, e, i);
    }
  }

  /** An index where a new score begins, or the end of the set. */
  ghost predicate StartsGroup(s: seq<Member>, p: nat) {
    p <= |s| && (0 < p < |s| ==> s[p - 1].score < s[p].score)
  }

  lemma InclusivePage(s: seq<Member>, k: nat, n: nat)
    requires ScoreSorted(s) && k < |s|
    ensures StartsGroup(s, GroupStart(s, k))
    ensures Page(s, AtLeast(s[k].score), n) == SliceAt(s, GroupStart(s, k), n)
  {
    GroupBounds(s, k);
    SuffixPage(s, AtLeast(s[k].score), GroupStart(s, k), n);
  }

  lemma ExclusivePage(s: seq<Member>, k: nat, n: nat)
    requires ScoreSorted(s) && k < |s|
    ensures StartsGroup(s, GroupEnd(s, k))
    ensures Page(s, Above(s[k].score), n) == SliceAt(s, GroupEnd(s, k), n)
  {
    GroupBounds(s, k);
    SuffixPage(s, Above(s[k].score), GroupEnd(s, k), n);
  }

  lemma TieCount(s: seq<Member>, k: nat)
    requires ScoreSorted(s) && k < |s|
    ensures Matching(s, Exactly(s[k].score)) == s[GroupStart(s, k)..GroupEnd(s, k)]
  {
    GroupBounds(s, k);
    MatchingIsSlice(s, Exactly(s[k].score), GroupStart(s, k), GroupEnd(s, k));
  }

  lemma LexPage(s: seq<Member>, k: nat, n: nat)
    requires KeyOrdered(s) && k < |s|
    ensures Page(s, AfterKey(s[k].key), n) == SliceAt(s, k + 1, n)
  {
    forall i | 0 <= i < |s|
      ensures Admits(AfterKey(s[k].key), s[i]) <==> k + 1 <= i < |s|
    {
      if i == k { KeyLessIrreflexive(s[k].key); }
      if i < k && KeyLess(s[k].key, s[i].key) {
        KeyLessTransitive(s[i].key, s[k].key, s[i].key);
        KeyLessIrreflexive(s[i].key);
      }
    }
    SuffixPage(s, AfterKey(s[k].key), k + 1, n);
  }
}
