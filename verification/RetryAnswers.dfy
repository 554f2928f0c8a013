/** Which answers decide a retry run: what each node's result and last update come from, and how long it waits. */
module RetryAnswers {
  import opened Wrappers
  import opened RetryRunner

  // ----- what settles an attempt -----

  /** The result an event gives the attempt that is under way at a target. */
  function Settling(s: State, e: Event, i: nat): Option<NodeResult> {
    match e
    case WorkSettled(target, k, result) =>
      if target == i && i < |s.phases| && s.phases[i] == Running(k) then Some(result) else None
    case TimedOut(target, k) =>
      if target == i && i < |s.phases| && s.phases[i] == Running(k) then Some(NodeResult(false, TIMEOUT_MESSAGE)) else None
    case _ => None
  }

  /** The result of the last attempt at a target that settled. */
  function LastSettled(s0: State, events: seq<Event>, i: nat): Option<NodeResult> {
    if events == [] then None
    else
      var front, e := events[..|events| - 1], events[|events| - 1];
      var result := Settling(Run(s0, front), e, i);
      if result.Some? then result else LastSettled(s0, front, i)
  }

  function LastOrFirst(last: Option<NodeResult>): NodeResult {
    if last.Some? then last.value else NodeResult(false, NOT_ATTEMPTED_YET)
  }

  /** A target's code keeps the result of its last attempt. */
  ghost predicate Keeps(phase: Phase, last: Option<NodeResult>) {
    && (phase.Done? ==> phase.result == LastOrFirst(last))
    && (phase.Sleeping? ==> last == Some(phase.last) && !phase.last.success)
    && (phase.Running? || phase.Skipped? ==> last.None? || !last.value.success)
  }

  lemma {:induction false} StartKeeps(s: State, n: nat, i: nat)
    requires n <= |s.targets| == |s.phases| && i < |s.targets| && s.phases[i] == Skipped
    ensures Keeps(BeginTargets(s, n).phases[i], None)
  {
    if n > 0 {
      StartKeeps(s, n - 1, i);
    }
  }

  lemma StepKeeps(s: State, e: Event, i: nat, last: Option<NodeResult>)
    requires i < |s.phases| && Keeps(s.phases[i], last)
    ensures Keeps(Step(s, e).phases[i], if Settling(s, e, i).Some? then Settling(s, e, i) else last)
  {
  }

  /**
   * A node's result is the answer that settled its last attempt: what the operation answered, or
   * the time-out. One that was never attempted has the initial failure.
   */
  lemma {:induction false} ResultIsLastAnswer(targets: seq<Target>, policy: Policy, aborted: bool, events: seq<Event>, i: nat)
    requires i < |targets|
    ensures var s0 := Start(targets, policy, aborted);
            Keeps(Run(s0, events).phases[i], LastSettled(s0, events, i))
  {
    var s0 := Start(targets, policy, aborted);
    if events == [] {
      StartKeeps(SkipTargets(State(targets, policy, aborted, seq(|targets|, _ => Skipped), [], None), |targets|), |targets|, i);
    } else {
      var front := events[..|events| - 1];
      ResultIsLastAnswer(targets, policy, aborted, front, i);
      StepKeeps(Run(s0, front), events[|events| - 1], i, LastSettled(s0, front, i));
    }
  }

  // ----- success -----

  /** Event `m` is a successful answer of the operation to attempt `k`, which is under way. */
  predicate Answers(s0: State, events: seq<Event>, m: nat, i: nat, k: nat) {
    && m < |events| && events[m].WorkSettled? && events[m].target == i && events[m].attempt == k
    && events[m].result.success && i < |s0.phases| && Run(s0, events[..m]).phases[i] == Running(k)
  }

  lemma AnswersSnoc(s0: State, events: seq<Event>, e: Event, m: nat, i: nat, k: nat)
    ensures Answers(s0, events + [e], m, i, k)
       <==> Answers(s0, events, m, i, k)
            || (m == |events| && i < |s0.phases| && Run(s0, events).phases[i] == Running(k)
                && e.WorkSettled? && e.target == i && e.attempt == k && e.result.success)
  {
    if m < |events| { assert (events + [e])[..m] == events[..m]; }
    if m == |events| { assert (events + [e])[..m] == events; }
  }

  ghost predicate SucceededAt(s0: State, events: seq<Event>, i: nat, k: nat) {
    exists m: nat :: Answers(s0, events, m, i, k)
  }

  lemma SucceededAtSnoc(s0: State, events: seq<Event>, e: Event, i: nat, k: nat)
    requires i < |s0.phases|
    ensures SucceededAt(s0, events + [e], i, k)
       <==> SucceededAt(s0, events, i, k)
            || (Run(s0, events).phases[i] == Running(k)
                && e.WorkSettled? && e.target == i && e.attempt == k && e.result.success)
  {
    forall m: nat
      ensures Answers(s0, events + [e], m, i, k) ==> Answers(s0, events, m, i, k) || m == |events|
      ensures Answers(s0, events, m, i, k) ==> Answers(s0, events + [e], m, i, k)
    {
      AnswersSnoc(s0, events, e, m, i, k);
    }
    AnswersSnoc(s0, events, e, |events|, i, k);
  }

  lemma UninterruptedBefore(s: State, e: Event)
    requires Uninterrupted(Step(s, e))
    ensures Uninterrupted(s)
  {
  }

  /** A node is done with a success at attempt `k`, and has said so unless an abort came before the runner resolved. */
  ghost predicate Won(s: State, i: nat, k: nat) {
    && i < |s.phases| && s.phases[i].Done? && s.phases[i].result.success
    && (Uninterrupted(s) ==>
          var w := Word(s.emitted, i); w != [] && w[|w| - 1] == Update(i, Succeeded, k))
  }

  lemma StepWins(s: State, e: Event, i: nat, k: nat)
    requires Inv(s)
    requires Won(s, i, k) || (i < |s.phases| && s.phases[i] == Running(k)
                              && e.WorkSettled? && e.target == i && e.attempt == k && e.result.success)
    ensures Won(Step(s, e), i, k)
  {
    var t := Step(s, e);
    if Uninterrupted(t) { UninterruptedBefore(s, e); }
    if t.emitted != s.emitted {
      assert |t.emitted| == |s.emitted| + 1 && t.emitted == s.emitted + [t.emitted[|s.emitted|]];
      WordSnoc(s.emitted, t.emitted[|s.emitted|], i);
    }
  }

  lemma {:induction false} AnswersWin(targets: seq<Target>, policy: Policy, aborted: bool, events: seq<Event>, i: nat, k: nat)
    requires i < |targets| && SucceededAt(Start(targets, policy, aborted), events, i, k)
    ensures Won(Run(Start(targets, policy, aborted), events), i, k)
  {
    var s0 := Start(targets, policy, aborted);
    var front, e := events[..|events| - 1], events[|events| - 1];
    assert events == front + [e];
    SucceededAtSnoc(s0, front, e, i, k);
    StartSatisfiesInv(targets, policy, aborted);
    RunKeepsInv(s0, front);
    if SucceededAt(s0, front, i, k) { AnswersWin(targets, policy, aborted, front, i, k); }
    StepWins(Run(s0, front), e, i, k);
  }

  /** A successful result that settled an attempt is an answer of the operation. */
  lemma {:induction false} SuccessWasAnswered(targets: seq<Target>, policy: Policy, aborted: bool, events: seq<Event>, i: nat)
    returns (k: nat)
    requires i < |targets|
    requires LastSettled(Start(targets, policy, aborted), events, i).Some?
    requires LastSettled(Start(targets, policy, aborted), events, i).value.success
    ensures SucceededAt(Start(targets, policy, aborted), events, i, k)
  {
    var s0 := Start(targets, policy, aborted);
    var front, e := events[..|events| - 1], events[|events| - 1];
    assert events == front + [e];
    if Settling(Run(s0, front), e, i).Some? {
      k := e.attempt;
    } else {
      k := SuccessWasAnswered(targets, policy, aborted, front, i);
    }
    SucceededAtSnoc(s0, front, e, i, k);
  }

  /**
   * In every run a node is done with a success exactly when the operation answered a success to an
   * attempt under way, never by a time-out; and unless an abort came before the runner resolved, its
   * last update then is that this attempt succeeded.
   */
  lemma SuccessIsAnAnswer(targets: seq<Target>, policy: Policy, aborted: bool, events: seq<Event>, i: nat)
    requires i < |targets|
    ensures var s0 := Start(targets, policy, aborted); var s := Run(s0, events);
            && (s.phases[i].Done? && s.phases[i].result.success <==> exists k: nat :: SucceededAt(s0, events, i, k))
            && (forall k: nat :: SucceededAt(s0, events, i, k) ==> Won(s, i, k))
  {
    var s0 := Start(targets, policy, aborted);
    var s := Run(s0, events);
    forall k: nat | SucceededAt(s0, events, i, k)
      ensures Won(s, i, k)
    {
      AnswersWin(targets, policy, aborted, events, i, k);
    }
    if s.phases[i].Done? && s.phases[i].result.success {
      ResultIsLastAnswer(targets, policy, aborted, events, i);
      var k := SuccessWasAnswered(targets, policy, aborted, events, i);
    }
  }

  // ----- failure -----

  /** The update for an attempt that failed: the retry that follows, or the final failure. */
  function AfterFailure(policy: Policy, i: nat, k: nat): Update {
    if k < policy.maxAttempts then Update(i, Retrying(DelayForRetry(policy, k)), k)
    else Update(i, Failed, policy.maxAttempts)
  }

  predicate Fails(e: Event, i: nat, k: nat) {
    || e == TimedOut(i, k)
    || (e.WorkSettled? && e.target == i && e.attempt == k && !e.result.success)
  }

  /**
   * A time-out or a failed answer that comes while its attempt is under way is announced with the
   * retry, or with the final failure after the last attempt, unless the run was aborted.
   */
  lemma FailureIsAnnounced(targets: seq<Target>, policy: Policy, aborted: bool, events: seq<Event>, m: nat, i: nat, k: nat)
    requires i < |targets| && m < |events| && Fails(events[m], i, k)
    requires Run(Start(targets, policy, aborted), events[..m]).phases[i] == Running(k)
    ensures var s0 := Start(targets, policy, aborted); var s, t := Run(s0, events[..m]), Run(s0, events[..m + 1]);
            && Word(t.emitted, i) == Word(s.emitted, i) + (if s.aborted then [] else [AfterFailure(policy, i, k)])
            && (t.phases[i].Sleeping? <==> !s.aborted && k < policy.maxAttempts)
            && !(t.phases[i].Done? && t.phases[i].result.success)
  {
    var s0 := Start(targets, policy, aborted);
    var s := Run(s0, events[..m]);
    assert events[..m + 1][..m] == events[..m];
    WordSnoc(s.emitted, AfterFailure(policy, i, k), i);
  }

  // ----- how often and how long -----

  /** The wait announced before the retry after attempt `k`, from what the caller overrides. */
  function WaitAfter(overrides: Overrides, k: nat): nat
    requires k > 0
  {
    match overrides.delaysMs
    case None => RetryDelay(k)
    case Some(delays) => if delays == [] then 0 else if k <= |delays| then delays[k - 1] else delays[|delays| - 1]
  }

  function RetriesOf(overrides: Overrides): int {
    match overrides.maxRetries
    case None => 6
    case Some(n) => n
  }

  predicate AttemptAt(w: seq<Update>, i: nat, at: nat, k: nat, policy: Policy) {
    at + 1 < |w| && w[at] == Update(i, Attempting, k) && w[at + 1] == AfterFailure(policy, i, k)
  }

  lemma {:induction false} FailedWord(w: seq<Update>, i: nat, j: nat, k: nat, policy: Policy)
    requires Ended(w, i, j, policy) && EndsInFailure(w) && j <= k <= policy.maxAttempts
    ensures |w| == 2 * (policy.maxAttempts - j + 1) && AttemptAt(w, i, 2 * (k - j), k, policy)
    decreases |w|
  {
    if j < policy.maxAttempts {
      assert w[1..] != [] && w[1..] != [Update(i, Succeeded, j)];
      assert w[1] == AfterFailure(policy, i, j);
      var rest := w[2..];
      assert rest != [] && rest[|rest| - 1] == w[|w| - 1];
      if j < k {
        FailedWord(rest, i, j + 1, k, policy);
        assert w[2 * (k - j)] == rest[2 * (k - j - 1)] && w[2 * (k - j) + 1] == rest[2 * (k - j - 1) + 1];
      } else {
        FailedWord(rest, i, j + 1, j + 1, policy);
      }
    } else {
      assert w[1..] == [Update(i, Failed, policy.maxAttempts)];
    }
  }

  /**
   * A word that ends in failure has one attempt more than there are retries, numbered in turn, each
   * but the last followed by the wait the policy gives, the last by the final failure.
   */
  lemma FailedWordTriesAll(overrides: Overrides, w: seq<Update>, i: nat, k: nat)
    requires Ended(w, i, 1, ResolvePolicy(overrides)) && EndsInFailure(w)
    requires 1 <= k <= RetriesOf(overrides) + 1
    ensures |w| == 2 * (RetriesOf(overrides) + 1)
    ensures w[2 * (k - 1)] == Update(i, Attempting, k)
    ensures w[2 * (k - 1) + 1]
         == if k <= RetriesOf(overrides) then Update(i, Retrying(WaitAfter(overrides, k)), k)
            else Update(i, Failed, RetriesOf(overrides) + 1)
  {
    FailedWord(w, i, 1, k, ResolvePolicy(overrides));
  }

  // ----- the reports -----

  /** A resolved run reports of each node the answer that settled its last attempt. */
  lemma ReportsAreAnswers(targets: seq<Target>, policy: Policy, aborted: bool, events: seq<Event>, r: NodeReport)
    requires r in Reports(Run(Start(targets, policy, aborted), events))
    ensures exists i: nat :: i < |targets| && r.nodeId == targets[i].nodeId
                             && r.result == LastOrFirst(LastSettled(Start(targets, policy, aborted), events, i))
  {
    var s := Run(Start(targets, policy, aborted), events);
    AttemptedMembers(s, |targets|);
    var i: nat :| i < |targets| && s.phases[i].Done? && r == NodeReport(targets[i].nodeId, s.phases[i].result);
    ResultIsLastAnswer(targets, policy, aborted, events, i);
  }
}
