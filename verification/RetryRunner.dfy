/**
 * The per-node retry runner as a state machine. Code between two awaits is one step: a node's
 * attempt settles, times out or its backoff ends; the caller may abort between any two steps.
 */
module RetryRunner {
  import opened Wrappers

  // ----- policy -----

  const BASE_DELAY := 1000
  const MAX_DELAY := 30000
  const DEFAULT_RETRY_MAX_RETRIES := 6

  function Fib(n: nat): nat {
    if n < 2 then n else Fib(n - 1) + Fib(n - 2)
  }

  /** The backoff before retry `retryCount`: Fibonacci seconds, capped. */
  function RetryDelay(retryCount: nat): nat {
    var delay := BASE_DELAY * Fib(retryCount + 1);
    if delay < MAX_DELAY then delay else MAX_DELAY
  }

  method ComputeRetryDelay(retryCount: nat) returns (delay: nat)
    ensures delay == RetryDelay(retryCount)
  {
    var a, b := 1, 1;
    var i := 2;
    while i <= retryCount
      invariant 2 <= i && (i <= retryCount + 1 || i == 2)
      invariant a == Fib(i - 1) && b == Fib(i)
    {
      a, b := b, a + b;
      i := i + 1;
    }
    delay := BASE_DELAY * b;
    if MAX_DELAY < delay { delay := MAX_DELAY; }
  }

  lemma {:induction false} FibGrows(m: nat, n: nat)
    requires m <= n
    ensures Fib(m) <= Fib(n)
  {
    if m < n {
      FibGrows(m, n - 1);
    }
  }

  /** The first retries wait 1, 2, 3, 5, 8, 13 and 21 seconds. */
  lemma FirstWaits()
    ensures RetryDelay(1) == 1000 && RetryDelay(2) == 2000 && RetryDelay(3) == 3000 && RetryDelay(4) == 5000
    ensures RetryDelay(5) == 8000 && RetryDelay(6) == 13000 && RetryDelay(7) == 21000 && RetryDelay(8) == 30000
  {
    assert Fib(2) == 1 && Fib(3) == 2 && Fib(4) == 3 && Fib(5) == 5;
    assert Fib(6) == 8 && Fib(7) == 13 && Fib(8) == 21 && Fib(9) == 34;
  }

  /** Later retries never wait less, and from the eighth on they wait the full 30 seconds. */
  lemma BackoffNeverShrinks(m: nat, n: nat)
    requires m <= n
    ensures BASE_DELAY <= RetryDelay(m) <= RetryDelay(n) <= MAX_DELAY
    ensures 8 <= n <==> RetryDelay(n) == MAX_DELAY
  {
    FibGrows(1, m + 1);
    FibGrows(m + 1, n + 1);
    assert Fib(8) == 21 && Fib(9) == 34 by {
      assert Fib(2) == 1 && Fib(3) == 2 && Fib(4) == 3 && Fib(5) == 5;
      assert Fib(6) == 8 && Fib(7) == 13;
    }
    if 8 <= n {
      FibGrows(9, n + 1);
    } else {
      FibGrows(n + 1, 8);
    }
  }

  /** How often and after how long to retry. */
  datatype Policy = Policy(maxAttempts: int, delaysMs: Option<seq<nat>>)

  /** What a caller may override. */
  datatype Overrides = Overrides(maxRetries: Option<int>, delaysMs: Option<seq<nat>>)

  function ResolvePolicy(overrides: Overrides): Policy {
    var maxRetries := if overrides.maxRetries.Some? then overrides.maxRetries.value else DEFAULT_RETRY_MAX_RETRIES;
    Policy(maxRetries + 1, overrides.delaysMs)
  }

  /** An explicit list is used entry by entry, its last entry for all later retries. */
  function DelayForRetry(policy: Policy, retryCount: nat): nat {
    match policy.delaysMs
    case None => RetryDelay(retryCount)
    case Some(delays) =>
      var i := if retryCount <= |delays| then retryCount - 1 else |delays| - 1;
      if 0 <= i then delays[i] else 0
  }

  // ----- targets, updates, results -----

  const NOT_ATTEMPTED_YET := "Not attempted"

  datatype Target = Target(nodeId: string, hasURI: bool)

  datatype Status =
    | Attempting
    | Retrying(nextRetryMs: nat)
    | Succeeded
    | Failed
    | NotAttempted

  /** A status update emitted for the target at an index. */
  datatype Update = Update(target: nat, status: Status, attempt: int)

  datatype NodeResult = NodeResult(success: bool, message: string)

  /** Where the code of one target stands. */
  datatype Phase =
    | Skipped                                   // no metrics URI: never attempted
    | Running(attempt: nat)                     // waits for its attempt to settle
    | Sleeping(attempt: nat, last: NodeResult)  // waits out the backoff after a failed attempt
    | Done(result: NodeResult)

  datatype State = State(
    targets: seq<Target>, policy: Policy, aborted: bool,
    phases: seq<Phase>, emitted: seq<Update>,
    /** The `aborted` flag of the result, once every node was done and the runner resolved. */
    outcome: Option<bool>)

  function Emit(s: State, u: Update): State {
    if s.aborted then s else s.(emitted := s.emitted + [u])
  }

  // ----- steps -----

  datatype Event =
    | WorkSettled(target: nat, attempt: nat, result: NodeResult)  // the operation answered, or threw
    | TimedOut(target: nat, attempt: nat)                         // the attempt's timer fired
    | BackoffOver(target: nat, attempt: nat)                      // the sleep ended, or was aborted
    | Abort                                                       // the caller's signal
    | AllSettled                                                  // every node is done

  const TIMEOUT_MESSAGE := "Node did not respond within 5000ms"

  /** The loop head: begin an attempt, or stop when aborted. */
  function BeginAttempt(s: State, i: nat, attempt: nat, last: NodeResult): State
    requires i < |s.phases|
  {
    if attempt > s.policy.maxAttempts then
      Emit(s, Update(i, Failed, s.policy.maxAttempts)).(phases := s.phases[i := Done(last)])
    else if s.aborted then s.(phases := s.phases[i := Done(last)])
    else Emit(s, Update(i, Attempting, attempt)).(phases := s.phases[i := Running(attempt)])
  }

  /** The code after an attempt settled. */
  function EndAttempt(s: State, i: nat, attempt: nat, result: NodeResult): State
    requires i < |s.phases|
  {
    if s.aborted then s.(phases := s.phases[i := Done(result)])
    else if result.success then
      Emit(s, Update(i, Succeeded, attempt)).(phases := s.phases[i := Done(result)])
    else if attempt < s.policy.maxAttempts then
      Emit(s, Update(i, Retrying(DelayForRetry(s.policy, attempt)), attempt))
        .(phases := s.phases[i := Sleeping(attempt, result)])
    else
      Emit(s, Update(i, Failed, s.policy.maxAttempts)).(phases := s.phases[i := Done(result)])
  }

  /**
   * One step. Of an attempt's answer and its timer the first one counts; whatever comes for an
   * attempt that is over changes nothing.
   */
  function Step(s: State, e: Event): (t: State)
    ensures t.targets == s.targets && t.policy == s.policy && |t.phases| == |s.phases|
  {
    match e
    case WorkSettled(i, k, result) =>
      if i < |s.phases| && s.phases[i] == Running(k) then EndAttempt(s, i, k, result) else s
    case TimedOut(i, k) =>
      if i < |s.phases| && s.phases[i] == Running(k) then EndAttempt(s, i, k, NodeResult(false, TIMEOUT_MESSAGE)) else s
    case BackoffOver(i, k) =>
      if i < |s.phases| && s.phases[i].Sleeping? && s.phases[i].attempt == k
      then BeginAttempt(s, i, k + 1, s.phases[i].last) else s
    case Abort => s.(aborted := true)
    case AllSettled =>
      if AllDone(s) && s.outcome.None? then s.(outcome := Some(s.aborted)) else s
  }

  predicate AllDone(s: State) {
    forall i :: 0 <= i < |s.phases| ==> s.phases[i].Skipped? || s.phases[i].Done?
  }

  /** The synchronous part of a run: skip targets without a URI, then begin the others in order. */
  function SkipTargets(s: State, n: nat): (t: State)
    requires n <= |s.targets|
    ensures t == s.(emitted := t.emitted)
  {
    if n == 0 then s
    else
      var t := SkipTargets(s, n - 1);
      if s.targets[n - 1].hasURI then t else Emit(t, Update(n - 1, NotAttempted, 0))
  }

  function BeginTargets(s: State, n: nat): (t: State)
    requires n <= |s.targets| == |s.phases|
    ensures t == s.(emitted := t.emitted, phases := t.phases) && |t.phases| == |s.phases|
  {
    if n == 0 then s
    else
      var t := BeginTargets(s, n - 1);
      if s.targets[n - 1].hasURI then BeginAttempt(t, n - 1, 1, NodeResult(false, NOT_ATTEMPTED_YET)) else t
  }

  function Start(targets: seq<Target>, policy: Policy, aborted: bool): (s: State)
    ensures s.targets == targets && s.policy == policy && |s.phases| == |targets|
  {
    var s0 := State(targets, policy, aborted, seq(|targets|, _ => Skipped), [], None);
    BeginTargets(SkipTargets(s0, |targets|), |targets|)
  }

  function Run(s: State, events: seq<Event>): (t: State)
    ensures t.targets == s.targets && t.policy == s.policy && |t.phases| == |s.phases|
  {
    if events == [] then s else Step(Run(s, events[..|events| - 1]), events[|events| - 1])
  }

  // ----- the language of updates of one target -----

  /** What was emitted for one target. */
  function Word(emitted: seq<Update>, i: nat): seq<Update> {
    if emitted == [] then []
    else
      var earlier, last := Word(emitted[..|emitted| - 1], i), emitted[|emitted| - 1];
      if last.target == i then earlier + [last] else earlier
  }

  lemma WordSnoc(emitted: seq<Update>, u: Update, i: nat)
    ensures Word(emitted + [u], i) == if u.target == i then Word(emitted, i) + [u] else Word(emitted, i)
  {
    assert (emitted + [u])[..|emitted|] == emitted;
  }

  /**
   * The words a target may have emitted so far from attempt `k` on: an attempt, then success,
   * final failure after the last attempt, or a retry announced with its backoff and the next attempt.
   */
  predicate Begun(w: seq<Update>, i: nat, k: nat, policy: Policy)
    decreases |w|
  {
    if policy.maxAttempts < k then w == [] || w == [Update(i, Failed, policy.maxAttempts)]
    else
      w == [] || (w[0] == Update(i, Attempting, k) && (
        || w[1..] == []
        || w[1..] == [Update(i, Succeeded, k)]
        || (if k < policy.maxAttempts
            then w[1] == Update(i, Retrying(DelayForRetry(policy, k)), k) && Begun(w[2..], i, k + 1, policy)
            else w[1..] == [Update(i, Failed, policy.maxAttempts)])))
  }

  /** The words of a target that ran to its end: they end in success or in the final failure. */
  predicate Ended(w: seq<Update>, i: nat, k: nat, policy: Policy) {
    Begun(w, i, k, policy) && w != [] && (w[|w| - 1].status.Succeeded? || w[|w| - 1].status.Failed?)
  }

  predicate EndsInSuccess(w: seq<Update>) {
    w != [] && w[|w| - 1].status.Succeeded?
  }

  /** The word of a target from attempt `j` up to the start of attempt `k`. */
  function Path(i: nat, j: nat, k: nat, policy: Policy): seq<Update>
    requires j <= k
    decreases k - j
  {
    if j == k then [Update(i, Attempting, k)]
    else [Update(i, Attempting, j), Update(i, Retrying(DelayForRetry(policy, j)), j)] + Path(i, j + 1, k, policy)
  }

  lemma {:induction false} PathSnoc(i: nat, j: nat, k: nat, policy: Policy)
    requires j <= k
    ensures Path(i, j, k + 1, policy)
         == Path(i, j, k, policy) + [Update(i, Retrying(DelayForRetry(policy, k)), k), Update(i, Attempting, k + 1)]
    decreases k - j
  {
    if j == k {
      assert Path(i, k + 1, k + 1, policy) == [Update(i, Attempting, k + 1)];
    } else {
      PathSnoc(i, j + 1, k, policy);
    }
  }

  /** What may follow the start of attempt `k`. */
  predicate Tail(t: seq<Update>, i: nat, k: nat, policy: Policy) {
    || t == []
    || t == [Update(i, Succeeded, k)]
    || (k < policy.maxAttempts && t == [Update(i, Retrying(DelayForRetry(policy, k)), k)])
    || (k >= policy.maxAttempts && t == [Update(i, Failed, policy.maxAttempts)])
  }

  lemma {:induction false} PathIsBegun(i: nat, j: nat, k: nat, t: seq<Update>, policy: Policy)
    requires j <= k <= policy.maxAttempts && Tail(t, i, k, policy)
    ensures Begun(Path(i, j, k, policy) + t, i, j, policy)
    decreases k - j
  {
    var w := Path(i, j, k, policy) + t;
    if j == k {
      assert w[1..] == t;
      if k < policy.maxAttempts && t == [Update(i, Retrying(DelayForRetry(policy, k)), k)] {
        assert w[2..] == [];
      }
    } else {
      assert w[2..] == Path(i, j + 1, k, policy) + t;
      PathIsBegun(i, j + 1, k, t, policy);
    }
  }

  // ----- the invariant of every run -----

  /** What a target has emitted while nothing was aborted is given by where its code stands. */
  ghost predicate LiveWord(target: Target, i: nat, phase: Phase, w: seq<Update>, policy: Policy) {
    match phase
    case Skipped => !target.hasURI && w == [Update(i, NotAttempted, 0)]
    case Running(k) => target.hasURI && 1 <= k <= policy.maxAttempts && w == Path(i, 1, k, policy)
    case Sleeping(k, last) =>
      && target.hasURI && 1 <= k < policy.maxAttempts && !last.success
      && w == Path(i, 1, k, policy) + [Update(i, Retrying(DelayForRetry(policy, k)), k)]
    case Done(result) =>
      target.hasURI && Ended(w, i, 1, policy) && (EndsInSuccess(w) <==> result.success)
  }

  /** What a target has emitted at any time. */
  ghost predicate QuietWord(target: Target, i: nat, phase: Phase, w: seq<Update>, policy: Policy) {
    if target.hasURI then
      !phase.Skipped? && Begun(w, i, 1, policy) && (EndsInSuccess(w) ==> phase.Done? && phase.result.success)
    else phase.Skipped? && (w == [] || w == [Update(i, NotAttempted, 0)])
  }

  /** No abort came before the runner resolved. */
  predicate Uninterrupted(s: State) {
    !s.aborted || s.outcome == Some(false)
  }

  ghost predicate TargetOk(s: State, i: nat)
    requires |s.phases| == |s.targets|
  {
    i < |s.targets| ==>
      && QuietWord(s.targets[i], i, s.phases[i], Word(s.emitted, i), s.policy)
      && (Uninterrupted(s) ==> LiveWord(s.targets[i], i, s.phases[i], Word(s.emitted, i), s.policy))
  }

  ghost predicate Inv(s: State) {
    && |s.phases| == |s.targets|
    && (forall i: nat :: TargetOk(s, i))
    && (s.outcome.Some? ==> AllDone(s))
  }

  /** A path never ends in success, nor does a path with a retry announced. */
  lemma {:induction false} PathEndsInAttempt(i: nat, j: nat, k: nat, policy: Policy)
    requires j <= k
    ensures var w := Path(i, j, k, policy); w != [] && w[|w| - 1] == Update(i, Attempting, k)
    decreases k - j
  {
    if j < k {
      PathEndsInAttempt(i, j + 1, k, policy);
    }
  }

  lemma LiveIsQuiet(target: Target, i: nat, phase: Phase, w: seq<Update>, policy: Policy)
    requires LiveWord(target, i, phase, w, policy)
    ensures QuietWord(target, i, phase, w, policy)
  {
    match phase
    case Running(k) =>
      PathIsBegun(i, 1, k, [], policy);
      PathEndsInAttempt(i, 1, k, policy);
      assert w == Path(i, 1, k, policy) + [];
    case Sleeping(k, _) =>
      PathIsBegun(i, 1, k, [Update(i, Retrying(DelayForRetry(policy, k)), k)], policy);
    case _ =>
  }

  /** A target's code moved on and emitted one update; the others are as they were. */
  lemma MoveKeepsInv(s: State, i: nat, u: Update, phase: Phase)
    requires Inv(s) && !s.aborted && s.outcome.None? && i < |s.phases| && u.target == i
    requires LiveWord(s.targets[i], i, phase, Word(s.emitted, i) + [u], s.policy)
    ensures Inv(s.(emitted := s.emitted + [u], phases := s.phases[i := phase]))
  {
    var t := s.(emitted := s.emitted + [u], phases := s.phases[i := phase]);
    forall j: nat
      ensures TargetOk(t, j)
    {
      WordSnoc(s.emitted, u, j);
      assert TargetOk(s, j);
      if j == i {
        LiveIsQuiet(s.targets[i], i, phase, Word(t.emitted, i), s.policy);
      }
    }
  }

  lemma AbortedMoveKeepsInv(s: State, i: nat, phase: Phase)
    requires Inv(s) && s.aborted && s.outcome.None? && i < |s.phases|
    requires s.targets[i].hasURI && !phase.Skipped? && !s.phases[i].Done?
    ensures Inv(s.(phases := s.phases[i := phase]))
  {
    var t := s.(phases := s.phases[i := phase]);
    forall j: nat
      ensures TargetOk(t, j)
    {
      assert TargetOk(s, j);
    }
  }

  lemma EndAttemptKeepsInv(s: State, i: nat, k: nat, result: NodeResult)
    requires Inv(s) && s.outcome.None? && i < |s.phases| && s.phases[i] == Running(k)
    ensures Inv(EndAttempt(s, i, k, result))
  {
    assert TargetOk(s, i);
    if s.aborted {
      AbortedMoveKeepsInv(s, i, Done(result));
    } else {
      var w := Path(i, 1, k, s.policy);
      if !result.success && k < s.policy.maxAttempts {
        var u := Update(i, Retrying(DelayForRetry(s.policy, k)), k);
        MoveKeepsInv(s, i, u, Sleeping(k, result));
      } else {
        var u := if result.success then Update(i, Succeeded, k) else Update(i, Failed, s.policy.maxAttempts);
        PathIsBegun(i, 1, k, [u], s.policy);
        assert (w + [u])[|w + [u]| - 1] == u;
        MoveKeepsInv(s, i, u, Done(result));
      }
    }
  }

  lemma WakeKeepsInv(s: State, i: nat, k: nat)
    requires Inv(s) && s.outcome.None? && i < |s.phases| && s.phases[i].Sleeping? && s.phases[i].attempt == k
    ensures Inv(BeginAttempt(s, i, k + 1, s.phases[i].last))
  {
    assert TargetOk(s, i);
    if s.aborted {
      AbortedMoveKeepsInv(s, i, Done(s.phases[i].last));
    } else {
      PathSnoc(i, 1, k, s.policy);
      assert Path(i, 1, k + 1, s.policy) == Word(s.emitted, i) + [Update(i, Attempting, k + 1)];
      MoveKeepsInv(s, i, Update(i, Attempting, k + 1), Running(k + 1));
    }
  }

  lemma StepKeepsInv(s: State, e: Event)
    requires Inv(s)
    ensures Inv(Step(s, e))
  {
    match e
    case WorkSettled(i, k, result) =>
      if i < |s.phases| && s.phases[i] == Running(k) { EndAttemptKeepsInv(s, i, k, result); }
    case TimedOut(i, k) =>
      if i < |s.phases| && s.phases[i] == Running(k) { EndAttemptKeepsInv(s, i, k, NodeResult(false, TIMEOUT_MESSAGE)); }
    case BackoffOver(i, k) =>
      if i < |s.phases| && s.phases[i].Sleeping? && s.phases[i].attempt == k { WakeKeepsInv(s, i, k); }
    case Abort =>
      forall i: nat
        ensures TargetOk(s.(aborted := true), i)
      {
        assert TargetOk(s, i);
      }
    case AllSettled =>
      forall i: nat
        ensures TargetOk(s.(outcome := Some(s.aborted)), i)
      {
        assert TargetOk(s, i);
      }
  }

  // ----- the start of a run -----

  /** The first `n` targets were visited by the loop that skips targets without a URI. */
  lemma {:induction false} SkippedWords(s: State, n: nat, i: nat)
    requires n <= |s.targets| && s.emitted == []
    ensures Word(SkipTargets(s, n).emitted, i)
         == if i < n && !s.targets[i].hasURI && !s.aborted then [Update(i, NotAttempted, 0)] else []
  {
    if n > 0 {
      SkippedWords(s, n - 1, i);
      var t := SkipTargets(s, n - 1);
      assert t.aborted == s.aborted;
      if !s.aborted && !s.targets[n - 1].hasURI {
        assert SkipTargets(s, n).emitted == t.emitted + [Update(n - 1, NotAttempted, 0)];
        WordSnoc(t.emitted, Update(n - 1, NotAttempted, 0), i);
      }
    }
  }

  /** Targets that have not begun yet are as they were; the others stand where one attempt begins. */
  lemma {:induction false} BegunTargets(s: State, n: nat, i: nat)
    requires n <= |s.targets| == |s.phases| && i < |s.targets|
    ensures var t := BeginTargets(s, n);
            if i < n && s.targets[i].hasURI then
              var one := BeginAttempt(s.(emitted := []), i, 1, NodeResult(false, NOT_ATTEMPTED_YET));
              t.phases[i] == one.phases[i] && Word(t.emitted, i) == Word(s.emitted, i) + one.emitted
            else
              t.phases[i] == s.phases[i] && Word(t.emitted, i) == Word(s.emitted, i)
  {
    if n > 0 {
      BegunTargets(s, n - 1, i);
      var t := BeginTargets(s, n - 1);
      if s.targets[n - 1].hasURI && !s.aborted {
        WordSnoc(t.emitted, if 1 <= s.policy.maxAttempts then Update(n - 1, Attempting, 1)
                            else Update(n - 1, Failed, s.policy.maxAttempts), i);
      }
    }
  }

  lemma StartSatisfiesInv(targets: seq<Target>, policy: Policy, aborted: bool)
    ensures Inv(Start(targets, policy, aborted))
  {
    var s0 := State(targets, policy, aborted, seq(|targets|, _ => Skipped), [], None);
    var s1 := SkipTargets(s0, |targets|);
    var s := Start(targets, policy, aborted);
    forall i: nat
      ensures TargetOk(s, i)
    {
      if i < |targets| {
        SkippedWords(s0, |targets|, i);
        BegunTargets(s1, |targets|, i);
        assert Path(i, 1, 1, policy) == [Update(i, Attempting, 1)];
        assert [] + [Update(i, Attempting, 1)] == [Update(i, Attempting, 1)];
        assert [] + [Update(i, Failed, policy.maxAttempts)] == [Update(i, Failed, policy.maxAttempts)];
      }
    }
  }

  lemma {:induction false} StartIsUnresolved(targets: seq<Target>, policy: Policy)
    ensures Start(targets, policy, false).outcome == None && !Start(targets, policy, false).aborted
  {
  }

  // ----- what holds of every run -----

  lemma {:induction false} RunKeepsInv(s: State, events: seq<Event>)
    requires Inv(s)
    ensures Inv(Run(s, events))
  {
    if events != [] {
      RunKeepsInv(s, events[..|events| - 1]);
      StepKeepsInv(Run(s, events[..|events| - 1]), events[|events| - 1]);
    }
  }

  /**
   * For every interleaving of nodes and every abort point: what is emitted for a target with a
   * URI is a word of the language so far, and a complete word once its node is done without an
   * abort, ending in success exactly when the node's result is a success.
   */
  lemma EveryRunEmitsLegalWords(targets: seq<Target>, policy: Policy, aborted: bool, events: seq<Event>, i: nat)
    requires i < |targets|
    ensures var s := Run(Start(targets, policy, aborted), events); var w := Word(s.emitted, i);
            && |s.phases| == |targets|
            && (targets[i].hasURI ==> Begun(w, i, 1, policy))
            && (!targets[i].hasURI ==> w == (if aborted then [] else [Update(i, NotAttempted, 0)]))
            && (Uninterrupted(s) && s.phases[i].Done? ==>
                  Ended(w, i, 1, policy) && (EndsInSuccess(w) <==> s.phases[i].result.success))
  {
    StartSatisfiesInv(targets, policy, aborted);
    RunKeepsInv(Start(targets, policy, aborted), events);
    assert TargetOk(Run(Start(targets, policy, aborted), events), i);
    if !targets[i].hasURI {
      SkippedTargetIsSilent(targets, policy, aborted, events, i);
    }
  }

  /** Once aborted a run emits nothing more. */
  lemma {:induction false} NothingIsEmittedAfterAbort(s: State, events: seq<Event>)
    requires s.aborted
    ensures Run(s, events).emitted == s.emitted && Run(s, events).aborted
  {
    if events != [] {
      NothingIsEmittedAfterAbort(s, events[..|events| - 1]);
    }
  }

  /** The one update of a target without a URI is emitted at the start. */
  lemma {:induction false} SkippedTargetIsSilent(targets: seq<Target>, policy: Policy, aborted: bool, events: seq<Event>, i: nat)
    requires i < |targets| && !targets[i].hasURI
    ensures Word(Run(Start(targets, policy, aborted), events).emitted, i)
         == if aborted then [] else [Update(i, NotAttempted, 0)]
  {
    var s0 := State(targets, policy, aborted, seq(|targets|, _ => Skipped), [], None);
    if events == [] {
      SkippedWords(s0, |targets|, i);
      BegunTargets(SkipTargets(s0, |targets|), |targets|, i);
    } else {
      var before := events[..|events| - 1];
      SkippedTargetIsSilent(targets, policy, aborted, before, i);
      StartSatisfiesInv(targets, policy, aborted);
      RunKeepsInv(Start(targets, policy, aborted), before);
      var s := Run(Start(targets, policy, aborted), before);
      assert TargetOk(s, i);
      StepIsSilentFor(s, events[|events| - 1], i);
    }
  }

  lemma StepIsSilentFor(s: State, e: Event, i: nat)
    requires |s.phases| == |s.targets| && i < |s.phases| && s.phases[i].Skipped?
    ensures Word(Step(s, e).emitted, i) == Word(s.emitted, i)
  {
    var t := Step(s, e);
    if t.emitted != s.emitted {
      assert |t.emitted| == |s.emitted| + 1;
      WordSnoc(s.emitted, t.emitted[|s.emitted|], i);
    }
  }

  // ----- the result -----

  datatype NodeReport = NodeReport(nodeId: string, result: NodeResult)

  /** The results of the attempted targets among the first `n`, in target order. */
  function Attempted(s: State, n: nat): seq<NodeReport>
    requires n <= |s.targets| == |s.phases|
  {
    if n == 0 then []
    else Attempted(s, n - 1)
         + if s.phases[n - 1].Done? then [NodeReport(s.targets[n - 1].nodeId, s.phases[n - 1].result)] else []
  }

  /** The results a run resolves with. */
  function Reports(s: State): seq<NodeReport> {
    if |s.phases| == |s.targets| then Attempted(s, |s.targets|) else []
  }

  lemma {:induction false} AttemptedFrame(s: State, t: State, n: nat)
    requires n <= |s.targets| == |s.phases| && t.targets == s.targets && t.phases == s.phases
    ensures Attempted(s, n) == Attempted(t, n)
  {
    if n > 0 {
      AttemptedFrame(s, t, n - 1);
    }
  }

  /** A later abort does not change what a run resolved with. */
  lemma ResolvedReportsStay(s: State, e: Event)
    requires s.outcome.Some? && AllDone(s) && |s.phases| == |s.targets|
    ensures Step(s, e) == s.(aborted := Step(s, e).aborted) && Reports(Step(s, e)) == Reports(s)
  {
    AttemptedFrame(s, Step(s, e), |s.targets|);
  }

  function NodeIds(targets: seq<Target>, hasURI: bool): seq<string> {
    if targets == [] then []
    else NodeIds(targets[..|targets| - 1], hasURI)
         + if targets[|targets| - 1].hasURI == hasURI then [targets[|targets| - 1].nodeId] else []
  }

  /** The loop that separates the targets to attempt from the others. */
  method SplitTargets(targets: seq<Target>) returns (attemptedTargets: seq<string>, notAttempted: seq<string>)
    ensures attemptedTargets == NodeIds(targets, true) && notAttempted == NodeIds(targets, false)
  {
    attemptedTargets, notAttempted := [], [];
    for i := 0 to |targets|
      invariant attemptedTargets == NodeIds(targets[..i], true) && notAttempted == NodeIds(targets[..i], false)
    {
      assert targets[..i + 1][..i] == targets[..i];
      if targets[i].hasURI {
        attemptedTargets := attemptedTargets + [targets[i].nodeId];
      } else {
        notAttempted := notAttempted + [targets[i].nodeId];
      }
    }
    assert targets[..|targets|] == targets;
  }

  function Ids(targets: seq<Target>): seq<string> {
    seq(|targets|, i requires 0 <= i < |targets| => targets[i].nodeId)
  }

  /** Nothing is lost or doubled by the split. */
  lemma {:induction false} SplitIsPartition(targets: seq<Target>)
    ensures multiset(NodeIds(targets, true)) + multiset(NodeIds(targets, false)) == multiset(Ids(targets))
  {
    if targets != [] {
      var front := targets[..|targets| - 1];
      SplitIsPartition(front);
      assert Ids(targets) == Ids(front) + [targets[|targets| - 1].nodeId];
    }
  }

  function ReportIds(reports: seq<NodeReport>): seq<string> {
    seq(|reports|, i requires 0 <= i < |reports| => reports[i].nodeId)
  }

  /** A resolved run reports exactly the targets with a URI, in target order. */
  lemma ReportsFollowTargets(s: State)
    requires Inv(s) && AllDone(s)
    ensures ReportIds(Reports(s)) == NodeIds(s.targets, true)
  {
    AttemptedFollowTargets(s, |s.targets|);
    assert s.targets[..|s.targets|] == s.targets;
  }

  lemma {:induction false} AttemptedFollowTargets(s: State, n: nat)
    requires Inv(s) && AllDone(s) && n <= |s.targets|
    ensures ReportIds(Attempted(s, n)) == NodeIds(s.targets[..n], true)
  {
    if n > 0 {
      AttemptedFollowTargets(s, n - 1);
      assert TargetOk(s, n - 1);
      assert s.targets[..n][..n - 1] == s.targets[..n - 1];
    }
  }

  datatype ReplyOutcome = NothingAttempted | Fulfilled | SomeFailed

  function ToOutcome(attempted: seq<NodeReport>): ReplyOutcome {
    if attempted == [] then NothingAttempted
    else if exists r :: r in attempted && !r.result.success then SomeFailed
    else Fulfilled
  }

  lemma {:induction false} AttemptedMembers(s: State, n: nat)
    requires n <= |s.targets| == |s.phases|
    ensures forall r :: r in Attempted(s, n) <==>
              exists i :: 0 <= i < n && s.phases[i].Done? && r == NodeReport(s.targets[i].nodeId, s.phases[i].result)
  {
    if n > 0 {
      AttemptedMembers(s, n - 1);
    }
  }

  /** Every target with a URI emitted a word that ends in success, and there is one. */
  ghost predicate AllWordsSucceed(s: State) {
    && HasAttempts(s.targets)
    && (forall i :: 0 <= i < |s.targets| && s.targets[i].hasURI ==> EndsInSuccess(Word(s.emitted, i)))
  }

  predicate EndsInFailure(w: seq<Update>) {
    w != [] && w[|w| - 1].status.Failed?
  }

  /** Some target with a URI emitted a word that ends in the final failure. */
  ghost predicate SomeWordFails(s: State) {
    exists i :: 0 <= i < |s.targets| && s.targets[i].hasURI && EndsInFailure(Word(s.emitted, i))
  }

  predicate HasAttempts(targets: seq<Target>) {
    exists i :: 0 <= i < |targets| && targets[i].hasURI
  }

  lemma OutcomeOfPhases(s: State)
    requires Inv(s) && AllDone(s)
    ensures ToOutcome(Reports(s)) == Fulfilled <==>
              && HasAttempts(s.targets)
              && (forall i :: 0 <= i < |s.targets| && s.targets[i].hasURI ==> s.phases[i].Done? && s.phases[i].result.success)
    ensures ToOutcome(Reports(s)) == NothingAttempted <==> !HasAttempts(s.targets)
    ensures ToOutcome(Reports(s)) == SomeFailed <==>
              exists i :: 0 <= i < |s.targets| && s.targets[i].hasURI && s.phases[i].Done? && !s.phases[i].result.success
  {
    AttemptedMembers(s, |s.targets|);
    var reports := Attempted(s, |s.targets|);
    forall i: nat | i < |s.targets|
      ensures s.targets[i].hasURI <==> s.phases[i].Done?
      ensures s.phases[i].Done? ==> NodeReport(s.targets[i].nodeId, s.phases[i].result) in reports
    {
      assert TargetOk(s, i);
    }
    if reports != [] {
      assert reports[0] in reports;
    }
  }

  /**
   * The outcome is `NothingAttempted` exactly when no target has a URI. With no abort before the
   * runner resolved it is `Fulfilled` exactly when there is a word and every word ends in success,
   * and `SomeFailed` exactly when some word ends in the final failure.
   */
  lemma OutcomeMatchesWords(s: State)
    requires Inv(s) && AllDone(s)
    ensures ToOutcome(Reports(s)) == NothingAttempted <==> !HasAttempts(s.targets)
    ensures Uninterrupted(s) ==> (ToOutcome(Reports(s)) == SomeFailed <==> SomeWordFails(s))
    ensures AllWordsSucceed(s) ==> ToOutcome(Reports(s)) == Fulfilled
    ensures Uninterrupted(s) ==> (ToOutcome(Reports(s)) == Fulfilled <==> AllWordsSucceed(s))
  {
    OutcomeOfPhases(s);
    forall i: nat | i < |s.targets|
      ensures s.targets[i].hasURI && EndsInSuccess(Word(s.emitted, i)) ==> s.phases[i].Done? && s.phases[i].result.success
      ensures Uninterrupted(s) && s.targets[i].hasURI ==>
                && (EndsInSuccess(Word(s.emitted, i)) <==> s.phases[i].Done? && s.phases[i].result.success)
                && (EndsInFailure(Word(s.emitted, i)) <==> s.phases[i].Done? && !s.phases[i].result.success)
    {
      assert TargetOk(s, i);
    }
  }

  // ----- an abort before the runner resolved -----

  /** After an abort a node that is done stays so, and one that waits out its backoff ends in its last failure. */
  ghost predicate Settles(before: Phase, after: Phase) {
    && (before.Done? ==> after == before)
    && (before.Sleeping? ==> after == before || after == Done(before.last))
  }

  lemma {:induction false} AbortedPhasesSettle(a: State, events: seq<Event>, i: nat)
    requires a.aborted && i < |a.phases|
    ensures Settles(a.phases[i], Run(a, events).phases[i])
  {
    if events != [] {
      var front := events[..|events| - 1];
      AbortedPhasesSettle(a, front, i);
      NothingIsEmittedAfterAbort(a, front);
    }
  }

  /** What a run that is aborted in state `a` comes to. */
  function AbortedRun(a: State, events: seq<Event>): (s: State)
    ensures s.targets == a.targets && s.policy == a.policy && |s.phases| == |a.phases|
  {
    Run(Step(a, Abort), events)
  }

  predicate InFlight(a: State) {
    !a.aborted && a.outcome.None?
  }

  /**
   * After an abort an outcome `Fulfilled` is what the words say exactly when every node was done
   * at the moment of the abort.
   */
  lemma AbortDecides(a: State, events: seq<Event>)
    requires Inv(a) && InFlight(a)
    requires AllDone(AbortedRun(a, events)) && ToOutcome(Reports(AbortedRun(a, events))) == Fulfilled
    ensures AllWordsSucceed(AbortedRun(a, events))
       <==> forall i :: 0 <= i < |a.targets| && a.targets[i].hasURI ==> a.phases[i].Done?
  {
    var s := AbortedRun(a, events);
    StepKeepsInv(a, Abort);
    RunKeepsInv(Step(a, Abort), events);
    NothingIsEmittedAfterAbort(Step(a, Abort), events);
    OutcomeOfPhases(s);
    forall i: nat | i < |a.targets| && a.targets[i].hasURI
      ensures EndsInSuccess(Word(s.emitted, i)) <==> a.phases[i].Done?
    {
      assert TargetOk(a, i);
      AbortedPhasesSettle(Step(a, Abort), events, i);
    }
  }

  /** Some attempt is under way, and no node has failed so far: all others are done and succeeded. */
  predicate MaySucceedLate(a: State) {
    && (exists i :: 0 <= i < |a.phases| && a.phases[i].Running?)
    && (forall i :: 0 <= i < |a.phases| ==>
          a.phases[i].Skipped? || a.phases[i].Running? || (a.phases[i].Done? && a.phases[i].result.success))
  }

  const OK_RESULT := NodeResult(true, "ok")

  /** Every attempt under way among the first `n` targets succeeds. */
  function LateAnswers(a: State, n: nat): seq<Event>
    requires n <= |a.phases|
  {
    if n == 0 then []
    else if a.phases[n - 1].Running? then
      LateAnswers(a, n - 1) + [WorkSettled(n - 1, a.phases[n - 1].attempt, OK_RESULT)]
    else LateAnswers(a, n - 1)
  }

  lemma RunSnoc(s: State, events: seq<Event>, e: Event)
    ensures Run(s, events + [e]) == Step(Run(s, events), e)
  {
    assert (events + [e])[..|events|] == events;
  }

  /** Where a target's code stands once the first `n` attempts under way succeeded. */
  predicate SettledUpTo(a: State, s: State, n: nat, i: nat) {
    i < |a.phases| == |s.phases| ==>
      s.phases[i] == if i < n && a.phases[i].Running? then Done(OK_RESULT) else a.phases[i]
  }

  ghost predicate Settled(a: State, s: State, n: nat) {
    s == a.(phases := s.phases) && |s.phases| == |a.phases| && forall i: nat :: SettledUpTo(a, s, n, i)
  }

  lemma {:induction false} LateAnswersSettle(a: State, n: nat)
    requires a.aborted && n <= |a.phases|
    ensures Settled(a, Run(a, LateAnswers(a, n)), n)
  {
    if n == 0 {
      assert forall i: nat :: SettledUpTo(a, a, 0, i);
    } else {
      var before := LateAnswers(a, n - 1);
      LateAnswersSettle(a, n - 1);
      if a.phases[n - 1].Running? {
        RunSnoc(a, before, WorkSettled(n - 1, a.phases[n - 1].attempt, OK_RESULT));
        OneAnswerSettles(a, Run(a, before), n - 1);
      } else {
        NoAnswerNeeded(a, Run(a, before), n - 1);
      }
    }
  }

  lemma NoAnswerNeeded(a: State, s: State, i: nat)
    requires i < |a.phases| && !a.phases[i].Running? && Settled(a, s, i)
    ensures Settled(a, s, i + 1)
  {
    var n := i + 1;
    forall j: nat ensures SettledUpTo(a, s, n, j) {
      assert SettledUpTo(a, s, i, j);
    }
  }

  lemma OneAnswerSettles(a: State, s: State, i: nat)
    requires a.aborted && i < |a.phases| && a.phases[i].Running? && Settled(a, s, i)
    ensures Settled(a, Step(s, WorkSettled(i, a.phases[i].attempt, OK_RESULT)), i + 1)
  {
    var t := Step(s, WorkSettled(i, a.phases[i].attempt, OK_RESULT));
    assert SettledUpTo(a, s, i, i);
    assert t == s.(phases := s.phases[i := Done(OK_RESULT)]);
    var n := i + 1;
    forall j: nat ensures SettledUpTo(a, t, n, j) {
      assert SettledUpTo(a, s, i, j);
    }
  }

  /** An outcome `Fulfilled` that the words do not bear out. */
  ghost predicate Overstates(s: State) {
    AllDone(s) && ToOutcome(Reports(s)) == Fulfilled && !AllWordsSucceed(s)
  }

  lemma LateAnswersOverstate(a: State)
    requires Inv(a) && InFlight(a) && MaySucceedLate(a)
    ensures Overstates(AbortedRun(a, LateAnswers(Step(a, Abort), |a.phases|)))
  {
    var b := Step(a, Abort);
    var events := LateAnswers(b, |a.phases|);
    LateAnswersSettle(b, |a.phases|);
    StepKeepsInv(a, Abort);
    RunKeepsInv(b, events);
    var s := AbortedRun(a, events);
    forall i: nat | i < |a.targets|
      ensures s.targets[i].hasURI ==> s.phases[i].Done? && s.phases[i].result.success
      ensures a.phases[i].Running? ==> s.targets[i].hasURI && !EndsInSuccess(Word(s.emitted, i))
      ensures s.phases[i].Skipped? || s.phases[i].Done?
    {
      assert TargetOk(a, i) && SettledUpTo(b, s, |a.phases|, i);
    }
    OutcomeOfPhases(s);
  }

  /**
   * Aborting in state `a` can lead to an outcome `Fulfilled` that the words do not bear out exactly
   * when an attempt is under way and no node has failed an attempt it did not make up for.
   */
  lemma AbortMayOverstateExactly(a: State)
    requires Inv(a) && InFlight(a)
    ensures (exists events :: Overstates(AbortedRun(a, events))) <==> MaySucceedLate(a)
  {
    if events :| Overstates(AbortedRun(a, events)) {
      AbortDecides(a, events);
      OverstatedMeansLate(a, events);
    }
    if MaySucceedLate(a) { LateAnswersOverstate(a); }
  }

  lemma OverstatedMeansLate(a: State, events: seq<Event>)
    requires Inv(a) && InFlight(a) && Overstates(AbortedRun(a, events))
    ensures MaySucceedLate(a)
  {
    var s := AbortedRun(a, events);
    StepKeepsInv(a, Abort);
    RunKeepsInv(Step(a, Abort), events);
    AbortDecides(a, events);
    OutcomeOfPhases(s);
    forall i: nat | i < |a.phases|
      ensures a.phases[i].Skipped? || a.phases[i].Running? || (a.phases[i].Done? && a.phases[i].result.success)
      ensures a.targets[i].hasURI <==> !a.phases[i].Skipped?
    {
      assert TargetOk(a, i);
      AbortedPhasesSettle(Step(a, Abort), events, i);
    }
  }

  /** For example: abort while the only node's attempt is under way, and let it succeed. */
  lemma LateSuccessHappens(policy: Policy)
    requires policy.maxAttempts >= 1
    ensures var s := Run(Start([Target("node", true)], policy, false), [Abort, WorkSettled(0, 1, OK_RESULT), AllSettled]);
            && s.outcome == Some(true) && ToOutcome(Reports(s)) == Fulfilled
            && Word(s.emitted, 0) == [Update(0, Attempting, 1)]
  {
    var events := [Abort, WorkSettled(0, 1, OK_RESULT), AllSettled];
    var s0 := Start([Target("node", true)], policy, false);
    var s1 := State([Target("node", true)], policy, false, seq(1, _ => Skipped), [], None);
    assert SkipTargets(s1, 1) == SkipTargets(s1, 0) == s1;
    assert BeginTargets(s1, 0) == s1;
    assert s0 == BeginTargets(s1, 1) == BeginAttempt(s1, 0, 1, NodeResult(false, NOT_ATTEMPTED_YET));
    assert s0.emitted == [Update(0, Attempting, 1)] && s0.phases == [Running(1)];
    assert events[..2] == [Abort, WorkSettled(0, 1, OK_RESULT)] && events[..2][..1] == [Abort] && [Abort][..0] == [];
    assert Run(s0, [Abort]) == s0.(aborted := true);
    assert Run(s0, events[..2]) == s0.(aborted := true, phases := [Done(OK_RESULT)]);
    var s := Run(s0, events);
    assert s == s0.(aborted := true, phases := [Done(OK_RESULT)], outcome := Some(true));
    assert Attempted(s, 1) == [NodeReport("node", OK_RESULT)];
    assert s.emitted[..0] == [];
  }

  // ----- every run comes to its end -----

  /** How many more steps the code of a target can take. */
  function StepsLeft(phase: Phase, policy: Policy): nat {
    match phase
    case Running(k) => if k <= policy.maxAttempts then 2 * (policy.maxAttempts - k) + 1 else 1
    case Sleeping(k, _) => if k < policy.maxAttempts then 2 * (policy.maxAttempts - k) else 1
    case _ => 0
  }

  function TotalStepsLeft(phases: seq<Phase>, policy: Policy): nat {
    if phases == [] then 0
    else TotalStepsLeft(phases[..|phases| - 1], policy) + StepsLeft(phases[|phases| - 1], policy)
  }

  lemma {:induction false} TotalAfterMove(phases: seq<Phase>, i: nat, phase: Phase, policy: Policy)
    requires i < |phases|
    ensures TotalStepsLeft(phases[i := phase], policy)
         == TotalStepsLeft(phases, policy) - StepsLeft(phases[i], policy) + StepsLeft(phase, policy)
  {
    var front := phases[..|phases| - 1];
    if i < |phases| - 1 {
      assert phases[i := phase][..|phases| - 1] == front[i := phase];
      TotalAfterMove(front, i, phase, policy);
    } else {
      assert phases[i := phase][..|phases| - 1] == front;
    }
  }

  function Remaining(s: State): nat {
    TotalStepsLeft(s.phases, s.policy) + (if s.aborted then 0 else 1) + (if s.outcome.None? then 1 else 0)
  }

  /** Every step that does something brings the run closer to its end. */
  lemma StepsAreBounded(s: State, e: Event)
    ensures Step(s, e) == s || Remaining(Step(s, e)) < Remaining(s)
  {
    if (e.WorkSettled? || e.TimedOut? || e.BackoffOver?) && e.target < |s.phases| {
      TotalAfterMove(s.phases, e.target, Step(s, e).phases[e.target], s.policy);
    }
  }

  /** A run that has not resolved always waits for something that moves it on. */
  lemma SomethingIsPending(s: State) returns (e: Event)
    requires |s.phases| == |s.targets| && s.outcome.None?
    ensures !e.Abort? && Step(s, e) != s
  {
    if AllDone(s) {
      e := AllSettled;
    } else {
      var i :| 0 <= i < |s.phases| && !(s.phases[i].Skipped? || s.phases[i].Done?);
      match s.phases[i] {
        case Running(k) =>
          e := TimedOut(i, k);
          assert Step(s, e).phases[i] != s.phases[i];
        case Sleeping(k, _) =>
          e := BackoffOver(i, k);
          assert Step(s, e).phases[i] != s.phases[i];
      }
    }
  }
}
