/**
 * Paged reading of a sorted set: inclusive score pages with repeats filtered out, a
 * name-ordered drain for a score with more members than a page, and an exclusive resume.
 */
module ZSetReaders {
  import opened SortedSets

  // ----- what adding a page of members does -----

  /** `results` after the members of `page` whose names are not yet in it were appended in turn. */
  function WithPage(results: seq<Member>, page: seq<Member>): seq<Member> {
    if page == [] then results
    else
      var earlier, last := WithPage(results, page[..|page| - 1]), page[|page| - 1];
      if last.key in KeySet(earlier) then earlier else earlier + [last]
  }

  /** Adding a slice of the set, starting inside the part already read, gives the longer prefix. */
  lemma {:induction false} SliceExtendsPrefix(zset: seq<Member>, k: nat, q: nat, l: nat)
    requires DistinctKeys(zset) && q <= k <= |zset| && q <= l <= |zset|
    ensures WithPage(zset[..k], zset[q..l]) == zset[..if l <= k then k else l]
    decreases l
  {
    if q < l {
      assert zset[q..l][..l - q - 1] == zset[q..l - 1];
      SliceExtendsPrefix(zset, k, q, l - 1);
      if l <= k {
        assert zset[..k][l - 1] == zset[l - 1];
      } else {
        forall i | 0 <= i < l - 1
          ensures zset[i].key != zset[l - 1].key
        {
          assert KeysDiffer(zset, i, l - 1);
        }
        assert zset[..l] == zset[..l - 1] + [zset[l - 1]];
      }
    }
  }

  /** Keeping something new leaves fewer members of the set to read. */
  lemma {:induction false} NewMemberIsProgress(zset: seq<Member>, results: seq<Member>, page: seq<Member>)
    requires forall m :: m in page ==> m in zset
    ensures KeySet(zset) - KeySet(WithPage(results, page)) <= KeySet(zset) - KeySet(results)
    ensures |results| <= |WithPage(results, page)|
    ensures |results| < |WithPage(results, page)| ==>
              KeySet(zset) - KeySet(WithPage(results, page)) < KeySet(zset) - KeySet(results)
  {
    if page != [] {
      var earlier, last := WithPage(results, page[..|page| - 1]), page[|page| - 1];
      NewMemberIsProgress(zset, results, page[..|page| - 1]);
      assert last in page && last in zset;
      if last.key !in KeySet(earlier) {
        assert forall m :: m in earlier ==> m in earlier + [last];
        assert last in earlier + [last];
        assert last.key in KeySet(earlier + [last]);
        assert last.key in KeySet(zset) - KeySet(earlier);
        assert last.key !in KeySet(zset) - KeySet(earlier + [last]);
      }
    }
  }

  // ----- score groups and pages -----

  lemma GroupsAreApart(zset: seq<Member>, p: nat, a: int, b: int)
    requires ScoreSorted(zset) && StartsGroup(zset, p) && 0 <= a < p <= b < |zset|
    ensures zset[a].score < zset[b].score
  {
    assert ScoresRise(zset, a, p - 1) && ScoresRise(zset, p, b);
  }

  /** A score page starts where a score begins, so no deep index is ever on one. */
  lemma DeepIsOffPage(zset: seq<Member>, n: nat, p: nat, j: nat)
    requires ScoreSorted(zset) && StartsGroup(zset, p) && DeepAt(zset, n, j) && p <= j
    ensures p + n <= j
  {
    if j - n < p {
      GroupsAreApart(zset, p, j - n, j);
    }
  }

  /** The query after a full page starts at or after the page's own start. */
  lemma NextPage(zset: seq<Member>, p: nat, n: nat, lastPage: seq<Member>)
    requires ScoreSorted(zset) && StartsGroup(zset, p) && 0 < n
    requires lastPage == SliceAt(zset, p, n) && |lastPage| == n
    ensures PageEnd(zset, p, n) == p + n && lastPage[n - 1] == zset[p + n - 1]
    ensures var q := GroupStart(zset, p + n - 1);
            && p <= q < p + n && StartsGroup(zset, q)
            && Page(zset, AtLeast(lastPage[n - 1].score), n) == SliceAt(zset, q, n) != []
  {
    var k := p + n;
    assert lastPage == zset[p..k];
    var q := GroupStart(zset, k - 1);
    InclusivePage(zset, k - 1, n);
    if q < p {
      GroupsAreApart(zset, p, q, k - 1);
    }
  }

  /**
   * The page from the last score of the full page at `p` ends within that page, so that it holds
   * nothing new, exactly when all of that page has one score; then it is the same page.
   */
  lemma RepeatedPageIsOneScore(zset: seq<Member>, p: nat, q: nat, n: nat)
    requires 0 < n && p + n < |zset| && p <= q && q == GroupStart(zset, p + n - 1)
    ensures PageEnd(zset, q, n) <= p + n <==> forall i :: p <= i < p + n ==> zset[i].score == zset[p + n - 1].score
    ensures PageEnd(zset, q, n) <= p + n ==> q == p && PageEnd(zset, q, n) == p + n
  {
    if q > p {
      assert zset[q - 1].score != zset[p + n - 1].score;
    }
  }

  /** A page that ends within the full page before it repeats it, or both end the set. */
  lemma StuckPage(zset: seq<Member>, p: nat, q: nat, n: nat)
    requires 0 < n && p + n <= |zset| && p <= q && q == GroupStart(zset, p + n - 1) && PageEnd(zset, q, n) <= p + n
    ensures PageEnd(zset, q, n) == p + n && (p == GroupStart(zset, p + n - 1) || p + n == |zset|)
  {
  }

  lemma ScoreCountInPrefix(zset: seq<Member>, k: nat)
    requires ScoreSorted(zset) && 0 < k <= |zset|
    ensures |Matching(zset[..k], Exactly(zset[k - 1].score))| == k - GroupStart(zset, k - 1)
  {
    GroupBounds(zset, k - 1);
    MatchingIsSlice(zset[..k], Exactly(zset[k - 1].score), GroupStart(zset, k - 1), k);
  }

  /** A score that fits in a page has no members left after a page that is all of one score. */
  lemma FittingTieIsComplete(zset: seq<Member>, q: nat, n: nat)
    requires TiesFit(zset, n) && 0 < n && q + n <= |zset| && q == GroupStart(zset, q + n - 1)
    ensures GroupEnd(zset, q + n - 1) == q + n
  {
    assert !DeepAt(zset, n, q + n);
  }

  // ----- what score pages alone can read -----

  /** The first `k` members without those a page or more deep in their score, in set order. */
  ghost function Shallow(zset: seq<Member>, n: nat, k: nat): seq<Member>
    requires k <= |zset|
  {
    if k == 0 then []
    else if DeepAt(zset, n, k - 1) then Shallow(zset, n, k - 1)
    else Shallow(zset, n, k - 1) + [zset[k - 1]]
  }

  /** Exactly the members that are not deep, in set order. */
  lemma {:induction false} ShallowMembers(zset: seq<Member>, n: nat, k: nat)
    requires ValidSet(zset) && k <= |zset|
    ensures |Shallow(zset, n, k)| <= k
    ensures forall m :: m in Shallow(zset, n, k) <==> exists j: nat :: j < k && zset[j] == m && !DeepAt(zset, n, j)
    ensures forall i, j :: 0 <= i < j < |Shallow(zset, n, k)| ==> Before(Shallow(zset, n, k)[i], Shallow(zset, n, k)[j])
  {
    if k > 0 {
      ShallowMembers(zset, n, k - 1);
      var front := Shallow(zset, n, k - 1);
      forall i | 0 <= i < |front|
        ensures Before(front[i], zset[k - 1])
      {
        assert front[i] in front;
      }
    }
  }

  lemma {:induction false} ShallowKeys(zset: seq<Member>, n: nat, k: nat, j: nat)
    requires DistinctKeys(zset) && k <= |zset| && j < |zset|
    ensures |Shallow(zset, n, k)| <= k
    ensures zset[j].key in KeySet(Shallow(zset, n, k)) <==> j < k && !DeepAt(zset, n, j)
  {
    if k > 0 {
      ShallowKeys(zset, n, k - 1, j);
      assert KeysDiffer(zset, k - 1, j) && KeysDiffer(zset, j, k - 1);
      var front := Shallow(zset, n, k - 1);
      KeySetSnoc(front, zset[k - 1]);
    }
  }

  lemma KeySetSnoc(s: seq<Member>, m: Member)
    ensures KeySet(s + [m]) == KeySet(s) + {m.key}
  {
    forall key
      ensures key in KeySet(s + [m]) <==> key in KeySet(s) || key == m.key
    {
      assert m in s + [m];
      assert forall x :: x in s ==> x in s + [m];
    }
  }

  lemma {:induction false} ShallowIsNoLonger(zset: seq<Member>, n: nat, k: nat)
    requires k <= |zset|
    ensures |Shallow(zset, n, k)| <= k
  {
    if k > 0 { ShallowIsNoLonger(zset, n, k - 1); }
  }

  ghost predicate NoneDeep(zset: seq<Member>, n: nat, q: nat, l: nat) {
    forall j: nat :: q <= j < l ==> !DeepAt(zset, n, j)
  }

  /** Adding a page that starts inside the part walked already, and holds nothing deep, walks on to its end. */
  lemma {:induction false} SliceExtendsShallow(zset: seq<Member>, n: nat, k: nat, q: nat, l: nat)
    requires DistinctKeys(zset) && q <= k <= |zset| && q <= l <= |zset| && NoneDeep(zset, n, q, l)
    ensures WithPage(Shallow(zset, n, k), zset[q..l]) == Shallow(zset, n, Max(k, l))
    decreases l
  {
    if q < l {
      assert zset[q..l] == zset[q..l - 1] + [zset[l - 1]];
      WithPageSnoc(Shallow(zset, n, k), zset[q..l - 1], zset[l - 1]);
      SliceExtendsShallow(zset, n, k, q, l - 1);
      WalkOneMore(zset, n, k, l);
    } else {
      assert zset[q..l] == [];
    }
  }

  lemma WalkOneMore(zset: seq<Member>, n: nat, k: nat, l: nat)
    requires DistinctKeys(zset) && k <= |zset| && 0 < l <= |zset| && !DeepAt(zset, n, l - 1)
    ensures var walked := Shallow(zset, n, Max(k, l - 1));
            Shallow(zset, n, Max(k, l)) == if zset[l - 1].key in KeySet(walked) then walked else walked + [zset[l - 1]]
  {
    ShallowKeys(zset, n, Max(k, l - 1), l - 1);
  }

  lemma WithPageSnoc(results: seq<Member>, page: seq<Member>, m: Member)
    ensures var earlier := WithPage(results, page);
            WithPage(results, page + [m]) == if m.key in KeySet(earlier) then earlier else earlier + [m]
  {
    assert (page + [m])[..|page|] == page;
  }

  lemma {:induction false} ShallowGrows(zset: seq<Member>, n: nat, k: nat, l: nat)
    requires k <= l <= |zset| && NoneDeep(zset, n, k, l)
    ensures |Shallow(zset, n, l)| == |Shallow(zset, n, k)| + (l - k)
    decreases l
  {
    if k < l { ShallowGrows(zset, n, k, l - 1); }
  }

  /** A score page holds nothing deep. */
  lemma PageIsShallow(zset: seq<Member>, n: nat, p: nat)
    requires ScoreSorted(zset) && StartsGroup(zset, p)
    ensures NoneDeep(zset, n, p, PageEnd(zset, p, n))
  {
    forall j: nat | p <= j < PageEnd(zset, p, n)
      ensures !DeepAt(zset, n, j)
    {
      if DeepAt(zset, n, j) { DeepIsOffPage(zset, n, p, j); }
    }
  }

  /** Nothing between a full page of one score and the end of that score is shallow. */
  lemma {:induction false} RestOfScoreIsDeep(zset: seq<Member>, n: nat, q: nat, k: nat)
    requires 0 < n && q + n <= |zset| && q + n <= k <= GroupEnd(zset, q + n - 1)
    requires q == GroupStart(zset, q + n - 1) || q + n == |zset|
    ensures Shallow(zset, n, k) == Shallow(zset, n, q + n)
  {
    if q + n < k {
      RestOfScoreIsDeep(zset, n, q, k - 1);
      assert zset[k - 1].score == zset[q + n - 1].score == zset[k - 1 - n].score;
    }
  }

  function Max(a: nat, b: nat): nat { if a <= b then b else a }

  lemma PageWalksOn(zset: seq<Member>, n: nat, p: nat, k: nat)
    requires ScoreSorted(zset) && DistinctKeys(zset) && StartsGroup(zset, p) && p <= k <= |zset|
    ensures WithPage(Shallow(zset, n, k), SliceAt(zset, p, n)) == Shallow(zset, n, Max(k, PageEnd(zset, p, n)))
    ensures k < PageEnd(zset, p, n) ==> |Shallow(zset, n, k)| < |Shallow(zset, n, PageEnd(zset, p, n))|
  {
    PageIsShallow(zset, n, p);
    SliceExtendsShallow(zset, n, k, p, PageEnd(zset, p, n));
    if k < PageEnd(zset, p, n) { ShallowGrows(zset, n, k, PageEnd(zset, p, n)); }
  }

  // ----- walking names inside one score -----

  function Scored(names: seq<string>, score: real): seq<Member> {
    seq(|names|, i requires 0 <= i < |names| => Member(names[i], score))
  }

  /** The reply to `BYLEX` past member `k - 1` is the names of the members from `k` on, cut to a page. */
  ghost predicate WalksFrom(zset: seq<Member>, n: nat, byLex: string -> seq<string>, k: nat) {
    0 < k <= |zset| ==> byLex(zset[k - 1].key) == Names(SliceAt(zset, k, n))
  }

  ghost predicate WalksByLex(zset: seq<Member>, n: nat, byLex: string -> seq<string>) {
    forall k: nat :: WalksFrom(zset, n, byLex, k)
  }

  lemma SpecifiedByLexWalks(zset: seq<Member>, n: nat, byLex: string -> seq<string>)
    requires KeyOrdered(zset) && HonoursByLex(zset, n, byLex)
    ensures WalksByLex(zset, n, byLex)
  {
    forall k: nat
      ensures WalksFrom(zset, n, byLex, k)
    {
      if 0 < k <= |zset| {
        LexPage(zset, k - 1, n);
      }
    }
  }

  /** `remaining` members of `score`, up to index `e`, are still to be read by name. */
  ghost predicate Draining(zset: seq<Member>, results: seq<Member>, e: nat, score: real,
                           remaining: int, cursor: string) {
    && 0 < |results| <= e <= |zset| && remaining == e - |results|
    && results == zset[..|results|]
    && (forall i :: |results| <= i < e ==> zset[i].score == score)
    && (remaining > 0 ==> cursor == zset[|results| - 1].key)
  }

  /** One page of names, kept up to the number still missing, advances the drain. */
  lemma DrainStep(zset: seq<Member>, results: seq<Member>, e: nat, score: real,
                  remaining: nat, cursor: string, n: nat, byLex: string -> seq<string>)
    requires WalksByLex(zset, n, byLex) && 0 < n && 0 < remaining
    requires Draining(zset, results, e, score, remaining, cursor)
    ensures var members := byLex(cursor); var kept := if |members| <= remaining then |members| else remaining;
            && |members| > 0
            && Draining(zset, results + Scored(members[..kept], score), e, score,
                        remaining - kept, members[|members| - 1])
  {
    var k, members := |results|, byLex(cursor);
    assert WalksFrom(zset, n, byLex, k);
    var kept := if |members| <= remaining then |members| else remaining;
    assert forall i :: 0 <= i < kept ==> members[i] == zset[k..][i].key;
    assert results + Scored(members[..kept], score) == zset[..k + kept];
  }

  // ----- the reader -----

  class ZSetReader {
    const zset: seq<Member>
    const pageSize: nat
    const byLex: string -> seq<string>
    var seen: set<string>
    var results: seq<Member>
    ghost var lexCalls: nat

    constructor (zset: seq<Member>, pageSize: nat, byLex: string -> seq<string>)
      ensures this.zset == zset && this.pageSize == pageSize && this.byLex == byLex
      ensures Valid() && results == [] && lexCalls == 0
    {
      this.zset, this.pageSize, this.byLex := zset, pageSize, byLex;
      seen, results, lexCalls := {}, [], 0;
    }

    ghost predicate Valid()
      reads this
    {
      seen == KeySet(results)
    }

    /** What a read needs: distinct names in score order, and a page that holds something. */
    ghost predicate Ready() {
      pageSize > 0 && ScoreSorted(zset) && DistinctKeys(zset)
    }

    /** Ties fit in a page, or walking names is specified for the set. */
    ghost predicate Readable() {
      TiesFit(zset, pageSize) || WalksByLex(zset, pageSize, byLex)
    }

    ghost predicate Silent() {
      forall c :: byLex(c) == []
    }

    /** Exactly the first `k` members were read, in set order. */
    ghost predicate HasRead(k: nat)
      reads this
    {
      k <= |zset| && results == zset[..k]
    }

    /** Every member up to the end of the page at index `p` was read, and no other. */
    ghost predicate HasReadPage(p: nat)
      reads this
    {
      p <= |zset| && HasRead(PageEnd(zset, p, pageSize))
    }

    /** Exactly the first `k` members but the deep ones were read, in set order. */
    ghost predicate HasWalked(k: nat)
      reads this
    {
      k <= |zset| && results == Shallow(zset, pageSize, k)
    }

    method AddMembers(page: seq<Member>) returns (added: nat)
      requires Valid()
      modifies this`seen, this`results
      ensures Valid()
      ensures results == WithPage(old(results), page)
      ensures |results| == |old(results)| + added
    {
      added := 0;
      for i := 0 to |page|
        invariant Valid()
        invariant results == WithPage(old(results), page[..i])
        invariant |results| == |old(results)| + added
      {
        var member := page[i];
        assert page[..i + 1][..i] == page[..i];
        if member.key !in seen {
          seen := seen + {member.key};
          results := results + [member];
          added := added + 1;
        }
      }
      assert page[..|page|] == page;
    }

    /** Add the score page at `p`. A set read up to `k`, which the page reaches, is then read to the page's end. */
    method AddPage(ghost p: nat, page: seq<Member>, ghost walked: nat) returns (added: nat)
      requires Valid() && Ready() && StartsGroup(zset, p) && page == SliceAt(zset, p, pageSize)
      modifies this`seen, this`results
      ensures Valid()
      ensures added > 0 ==> KeySet(zset) - KeySet(results) < KeySet(zset) - old(KeySet(results))
      ensures old(HasWalked(walked)) && p <= walked ==>
                HasWalked(Max(walked, PageEnd(zset, p, pageSize))) && (added == 0 ==> PageEnd(zset, p, pageSize) <= walked)
      ensures var k := |old(results)|; old(HasRead(k)) && p <= k ==>
                if added == 0 then HasRead(k) && PageEnd(zset, p, pageSize) <= k else HasReadPage(p)
    {
      added := AddMembers(page);
      NewMemberIsProgress(zset, old(results), page);
      if old(HasWalked(walked)) && p <= walked { PageWalksOn(zset, pageSize, p, walked); }
      if old(HasRead(|results|)) && p <= |old(results)| {
        SliceExtendsPrefix(zset, |old(results)|, p, PageEnd(zset, p, pageSize));
      }
    }

    /** The reader stopped inside or at the end of a score, and walking names is specified for this set. */
    ghost predicate AtSpecifiedTie(score: real, lastKey: string, keptAtScore: nat)
      reads this
    {
      var k := |results|;
      && pageSize > 0 && ScoreSorted(zset) && WalksByLex(zset, pageSize, byLex)
      && HasRead(k) && k > 0
      && score == zset[k - 1].score && lastKey == zset[k - 1].key
      && keptAtScore == k - GroupStart(zset, k - 1)
    }

    lemma DrainStarts(score: real, lastKey: string, keptAtScore: nat)
      requires AtSpecifiedTie(score, lastKey, keptAtScore)
      ensures Draining(zset, results, GroupEnd(zset, |results| - 1), score,
                       |Matching(zset, Exactly(score))| - keptAtScore, lastKey)
    {
      TieCount(zset, |results| - 1);
    }

    /** Keep a page of names as members of `score`, up to the number still missing at the score. */
    method KeepTied(members: seq<string>, score: real, missing: nat) returns (remaining: nat)
      requires Valid()
      modifies this`seen, this`results
      ensures Valid()
      ensures remaining == if |members| <= missing then missing - |members| else 0
      ensures results == old(results) + Scored(members[..missing - remaining], score)
    {
      remaining := missing;
      var i := 0;
      while i < |members| && remaining != 0
        invariant Valid()
        invariant 0 <= i <= |members| && remaining == missing - i >= 0
        invariant results == old(results) + Scored(members[..i], score)
      {
        assert Scored(members[..i + 1], score) == Scored(members[..i], score) + [Member(members[i], score)];
        seen := seen + {members[i]};
        results := results + [Member(members[i], score)];
        remaining := remaining - 1;
        i := i + 1;
      }
    }

    /**
     * Finish the score of the last member read by walking names. When the replies to `BYLEX`
     * are specified this reads exactly the rest of the score and nothing of the next one.
     */
    method DrainTiedScore(score: real, lastScannedAtScoreKey: string, keptAtScore: nat)
      requires Valid()
      modifies this
      ensures Valid()
      ensures Silent() ==> results == old(results)
      ensures |Matching(zset, Exactly(score))| == keptAtScore ==>
                results == old(results) && lexCalls == old(lexCalls)
      ensures old(AtSpecifiedTie(score, lastScannedAtScoreKey, keptAtScore)) ==>
                HasRead(GroupEnd(zset, |old(results)| - 1))
    {
      ghost var specified := AtSpecifiedTie(score, lastScannedAtScoreKey, keptAtScore);
      ghost var e := if specified then GroupEnd(zset, |results| - 1) else 0;
      if specified { DrainStarts(score, lastScannedAtScoreKey, keptAtScore); }
      var tiedCount := |Matching(zset, Exactly(score))|;
      var remaining := tiedCount - keptAtScore;
      var lexCursor := lastScannedAtScoreKey;
      while remaining > 0
        invariant Valid()
        invariant Silent() ==> results == old(results)
        invariant tiedCount == keptAtScore ==>
                    remaining == 0 && results == old(results) && lexCalls == old(lexCalls)
        invariant specified ==> Draining(zset, results, e, score, remaining, lexCursor)
      {
        if specified { DrainStep(zset, results, e, score, remaining, lexCursor, pageSize, byLex); }
        var members := byLex(lexCursor);
        lexCalls := lexCalls + 1;
        if members == [] { break; }
        remaining := KeepTied(members, score, remaining);
        lexCursor := members[|members| - 1];
      }
    }

    /** The members kept of a score that one page at index `q` is all of, when `q + pageSize` were read. */
    lemma KeptAtScore(q: nat)
      requires Ready() && q + pageSize <= |zset|
      requires HasRead(q + pageSize) && q == GroupStart(zset, q + pageSize - 1)
      ensures var last := zset[q + pageSize - 1]; var kept := |Matching(results, Exactly(last.score))|;
              && (TiesFit(zset, pageSize) ==> |Matching(zset, Exactly(last.score))| == kept
                                              && GroupEnd(zset, q + pageSize - 1) == q + pageSize)
              && (WalksByLex(zset, pageSize, byLex) ==> AtSpecifiedTie(last.score, last.key, kept))
    {
      ScoreCountInPrefix(zset, q + pageSize);
      TieCount(zset, q + pageSize - 1);
      if TiesFit(zset, pageSize) { FittingTieIsComplete(zset, q, pageSize); }
    }

    /** The page past the score of member `k`. */
    method FetchPast(score: real, ghost k: nat) returns (page: seq<Member>)
      requires Ready() && k < |zset| && score == zset[k].score
      ensures StartsGroup(zset, GroupEnd(zset, k)) && page == SliceAt(zset, GroupEnd(zset, k), pageSize)
    {
      ExclusivePage(zset, k, pageSize);
      page := Page(zset, Above(score), pageSize);
    }

    /** The page from the start of the last score on the full page at `p`. */
    method FetchFromLastScore(lastPage: seq<Member>, ghost p: nat)
      returns (lastScore: real, page: seq<Member>, ghost q: nat)
      requires Ready() && StartsGroup(zset, p)
      requires lastPage == SliceAt(zset, p, pageSize) && |lastPage| == pageSize
      ensures PageEnd(zset, p, pageSize) == p + pageSize && lastScore == zset[p + pageSize - 1].score
      ensures q == GroupStart(zset, p + pageSize - 1) && p <= q && StartsGroup(zset, q)
      ensures page == SliceAt(zset, q, pageSize) != []
    {
      NextPage(zset, p, pageSize, lastPage);
      lastScore := lastPage[|lastPage| - 1].score;
      page := Page(zset, AtLeast(lastScore), pageSize);
      q := GroupStart(zset, p + pageSize - 1);
    }

    /** `DrainTiedScore` on a full page at `q` that is all of one score, of which every member read is counted. */
    method DrainFullPage(ghost q: nat, lastScore: real, lastKey: string)
      requires Valid() && Ready() && q + pageSize <= |zset| && lastScore == zset[q + pageSize - 1].score
      modifies this
      ensures Valid()
      ensures Silent() ==> results == old(results)
      ensures Readable() && old(HasRead(q + pageSize)) && q == GroupStart(zset, q + pageSize - 1)
              && lastKey == zset[q + pageSize - 1].key
              ==> HasRead(GroupEnd(zset, q + pageSize - 1))
                  && (TiesFit(zset, pageSize) ==> lexCalls == old(lexCalls))
    {
      var scannedAtScoreCount := |Matching(results, Exactly(lastScore))|;
      if HasRead(q + pageSize) && q == GroupStart(zset, q + pageSize - 1) { KeptAtScore(q); }
      DrainTiedScore(lastScore, lastKey, scannedAtScoreCount);
    }

    /**
     * A full page brought nothing new: all of it has one score. Drain that score, then add the
     * first page past it.
     */
    method ResumePastScore(ghost q: nat, lastScore: real, lastKey: string) returns (next: seq<Member>)
      requires Valid() && Ready() && q + pageSize <= |zset| && lastScore == zset[q + pageSize - 1].score
      modifies this
      ensures Valid()
      ensures next == SliceAt(zset, GroupEnd(zset, q + pageSize - 1), pageSize)
      ensures StartsGroup(zset, GroupEnd(zset, q + pageSize - 1))
      ensures Silent() && old(HasWalked(q + pageSize))
              && (q == GroupStart(zset, q + pageSize - 1) || q + pageSize == |zset|)
              ==> HasWalked(PageEnd(zset, GroupEnd(zset, q + pageSize - 1), pageSize))
      ensures Readable() && old(HasRead(q + pageSize)) && q == GroupStart(zset, q + pageSize - 1)
              && lastKey == zset[q + pageSize - 1].key
              ==> HasReadPage(GroupEnd(zset, q + pageSize - 1))
                  && (TiesFit(zset, pageSize) ==> lexCalls == old(lexCalls))
    {
      DrainFullPage(q, lastScore, lastKey);
      next := FetchPast(lastScore, q + pageSize - 1);
      ghost var e := GroupEnd(zset, q + pageSize - 1);
      if q == GroupStart(zset, q + pageSize - 1) || q + pageSize == |zset| { RestOfScoreIsDeep(zset, pageSize, q, e); }
      AddIfAny(e, next);
    }

    /** Add the page at `e`, up to which everything was read, unless the set ends there. */
    method AddIfAny(ghost e: nat, next: seq<Member>)
      requires Valid() && Ready() && StartsGroup(zset, e) && next == SliceAt(zset, e, pageSize)
      modifies this`seen, this`results
      ensures Valid()
      ensures old(HasWalked(e)) ==> HasWalked(PageEnd(zset, e, pageSize))
      ensures old(HasRead(e)) ==> HasReadPage(e)
    {
      if next != [] {
        var _ := AddPage(e, next, e);
      }
    }

    /** The page at `q`, from the last score of the full page at `p`, brought nothing new. */
    method Unstick(ghost p: nat, ghost q: nat, page: seq<Member>, lastScore: real) returns (next: seq<Member>)
      requires Valid() && Ready() && p + pageSize <= |zset| && lastScore == zset[p + pageSize - 1].score
      requires p <= q && q == GroupStart(zset, p + pageSize - 1) && page == SliceAt(zset, q, pageSize) != []
      modifies this
      ensures Valid()
      ensures StartsGroup(zset, GroupEnd(zset, p + pageSize - 1))
      ensures next == SliceAt(zset, GroupEnd(zset, p + pageSize - 1), pageSize)
      ensures Silent() && old(HasWalked(p + pageSize)) && PageEnd(zset, q, pageSize) <= p + pageSize ==>
                HasWalked(PageEnd(zset, GroupEnd(zset, p + pageSize - 1), pageSize))
      ensures Readable() && old(HasRead(p + pageSize)) && PageEnd(zset, q, pageSize) <= p + pageSize < |zset| ==>
                HasReadPage(GroupEnd(zset, p + pageSize - 1)) && (TiesFit(zset, pageSize) ==> lexCalls == old(lexCalls))
    {
      if PageEnd(zset, q, pageSize) <= p + pageSize {
        StuckPage(zset, p, q, pageSize);
        if p + pageSize < |zset| { RepeatedPageIsOneScore(zset, p, q, pageSize); }
      }
      next := ResumePastScore(p, lastScore, page[|page| - 1].key);
    }

    /** One round of the paging loop, from the full page at `p` to the page at `p'`. */
    method Advance(ghost p: nat, lastPage: seq<Member>) returns (ghost p': nat, next: seq<Member>)
      requires Valid() && Ready() && |results| < |zset|
      requires StartsGroup(zset, p) && lastPage == SliceAt(zset, p, pageSize) && |lastPage| == pageSize
      modifies this
      ensures Valid()
      ensures StartsGroup(zset, p') && next == SliceAt(zset, p', pageSize)
      ensures p < p' || (p == p' && KeySet(zset) - KeySet(results) < KeySet(zset) - old(KeySet(results)))
      ensures Silent() && old(HasWalked(PageEnd(zset, p, pageSize))) ==> HasWalked(PageEnd(zset, p', pageSize))
      ensures Readable() && old(HasReadPage(p)) ==>
                HasReadPage(p') && (TiesFit(zset, pageSize) ==> lexCalls == old(lexCalls))
    {
      var lastScore;
      lastScore, next, p' := FetchFromLastScore(lastPage, p);
      var added := AddPage(p', next, p + pageSize);
      if added == 0 {
        next := Unstick(p, p', next, lastScore);
        p' := GroupEnd(zset, p + pageSize - 1);
      }
    }

    lemma FirstPage()
      ensures Page(zset, Everything, pageSize) == SliceAt(zset, 0, pageSize)
    {
      SuffixPage(zset, Everything, 0, pageSize);
    }

    lemma LastPageEndsTheSet(p: nat)
      requires HasReadPage(p) && (|results| >= |zset| || |SliceAt(zset, p, pageSize)| != pageSize)
      ensures results == zset
    {
      assert zset[..|zset|] == zset;
    }

    lemma LastPageEndsTheWalk(p: nat)
      requires Ready() && p <= |zset| && HasWalked(PageEnd(zset, p, pageSize))
      requires |results| >= |zset| || |SliceAt(zset, p, pageSize)| != pageSize
      ensures HasWalked(|zset|)
    {
      ShallowIsNoLonger(zset, pageSize, PageEnd(zset, p, pageSize));
    }

    method ReadAll()
      requires Valid() && Ready() && results == []
      modifies this
      ensures Readable() ==> results == zset
      ensures Silent() ==> HasWalked(|zset|)
      ensures TiesFit(zset, pageSize) ==> lexCalls == old(lexCalls)
    {
      FirstPage();
      var lastPage, collectionSize := Page(zset, Everything, pageSize), |zset|;
      var _ := AddPage(0, lastPage, 0);
      ghost var p := 0;
      while |results| < collectionSize && |lastPage| == pageSize
        invariant Valid()
        invariant StartsGroup(zset, p) && lastPage == SliceAt(zset, p, pageSize)
        invariant Readable() ==> HasReadPage(p)
        invariant Silent() ==> HasWalked(PageEnd(zset, p, pageSize))
        invariant TiesFit(zset, pageSize) ==> lexCalls == old(lexCalls)
        decreases |zset| - p, KeySet(zset) - KeySet(results)
      {
        p, lastPage := Advance(p, lastPage);
      }
      if Readable() { LastPageEndsTheSet(p); }
      if Silent() { LastPageEndsTheWalk(p); }
    }
  }

  /**
   * Read a whole sorted set, `pageSize` members a page. The result is the set itself when no
   * score has more members than a page, and also when `BYLEX` is specified for the set. When
   * `BYLEX` gives nothing, which its documentation allows on any other set, the result is exactly
   * the members less than a page deep in their score, in set order without repeats: the set itself
   * exactly when every score fits in a page.
   */
  method ReadSortedSet(zset: seq<Member>, pageSize: nat, byLex: string -> seq<string>)
    returns (elements: seq<Member>)
    requires ValidSet(zset) && pageSize > 0
    ensures TiesFit(zset, pageSize) ==> elements == zset
    ensures KeyOrdered(zset) && HonoursByLex(zset, pageSize, byLex) ==> elements == zset
    ensures (forall c :: byLex(c) == []) ==>
              && (forall m :: m in elements <==> exists j: nat :: j < |zset| && zset[j] == m && !DeepAt(zset, pageSize, j))
              && (forall i, j :: 0 <= i < j < |elements| ==> Before(elements[i], elements[j]))
    ensures (forall c :: byLex(c) == []) ==> (elements == zset <==> TiesFit(zset, pageSize))
  {
    ValidIsScoreSorted(zset);
    if KeyOrdered(zset) && HonoursByLex(zset, pageSize, byLex) {
      SpecifiedByLexWalks(zset, pageSize, byLex);
    }
    var reader := new ZSetReader(zset, pageSize, byLex);
    reader.ReadAll();
    elements := reader.results;
    ShallowMembers(zset, pageSize, |zset|);
    if !TiesFit(zset, pageSize) {
      DeepIsMissing(zset, pageSize);
    }
  }

  /** When some score outgrows a page, score pages alone do not read the set. */
  lemma DeepIsMissing(zset: seq<Member>, n: nat)
    requires ValidSet(zset) && !TiesFit(zset, n)
    ensures Shallow(zset, n, |zset|) != zset
  {
    var j: nat :| DeepAt(zset, n, j);
    assert zset[j] in zset;
    ShallowKeys(zset, n, |zset|, j);
    assert zset[j].key in KeySet(zset);
  }
}
