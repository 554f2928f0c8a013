/**
 * Superseding config sessions. A new request for a target aborts the session in flight; a closed
 * socket aborts the sessions it started; a session that was not aborted sends one aggregate reply.
 *
 * A request and a close are events of a socket, and the code that acts on a runner's result is in the
 * same drain of promises as the result: no socket event comes between the two.
 */
module ConfigSessions {
  import opened Wrappers
  import R = RetryRunner

  /** A session's key: the owner and the target id joined with a bar. */
  function SessionKey(owner: string, target: string): string { owner + "|" + target }

  datatype Session = Session(key: string, ws: nat, runner: R.State, finished: bool)

  datatype Reply = Reply(session: nat, outcome: R.ReplyOutcome)

  datatype State = State(
    sessions: seq<Session>,
    /** The session registered for each key. */
    live: map<string, nat>,
    replies: seq<Reply>)

  const INITIAL := State([], map[], [])

  datatype Event =
    | Start(owner: string, target: string, ws: nat, targets: seq<R.Target>, overrides: R.Overrides)
    | Node(session: nat, event: R.Event)   // a step of the session's retry runner
    | Continue(session: nat)               // the code after the runner's await
    | SocketClosed(ws: nat)

  function Aborted(session: Session): Session {
    session.(runner := R.Step(session.runner, R.Abort))
  }

  predicate IsLive(s: State, id: nat) {
    id < |s.sessions| && s.sessions[id].key in s.live && s.live[s.sessions[id].key] == id
  }

  /** Supersede the session in flight, register the new one, run its nodes up to their first wait. */
  function StartSession(s: State, key: string, ws: nat, targets: seq<R.Target>, policy: R.Policy): State {
    var superseded := if key in s.live && s.live[key] < |s.sessions|
                      then s.sessions[s.live[key] := Aborted(s.sessions[s.live[key]])] else s.sessions;
    var session := Session(key, ws, R.Start(targets, policy, false), false);
    s.(sessions := superseded + [session], live := s.live[key := |s.sessions|])
  }

  function CloseSocket(s: State, ws: nat): State {
    s.(sessions := seq(|s.sessions|, i requires 0 <= i < |s.sessions| =>
                     if IsLive(s, i) && s.sessions[i].ws == ws then Aborted(s.sessions[i]) else s.sessions[i]),
       live := map k | k in s.live && !(s.live[k] < |s.sessions| && s.sessions[s.live[k]].ws == ws) :: s.live[k])
  }

  /** The runner's result is in: reply unless it was aborted, then give up the key if it is still ours. */
  function Finish(s: State, id: nat): State
    requires id < |s.sessions|
  {
    var session := s.sessions[id];
    var outcome := R.ToOutcome(R.Reports(session.runner));
    s.(sessions := s.sessions[id := session.(finished := true)],
       live := if IsLive(s, id) then s.live - {session.key} else s.live,
       replies := if session.runner.outcome == Some(false) then s.replies + [Reply(id, outcome)] else s.replies)
  }

  /** Every session whose runner resolved has acted on the result: a socket event may come. */
  predicate Drained(s: State) {
    forall id :: 0 <= id < |s.sessions| && s.sessions[id].runner.outcome.Some? ==> s.sessions[id].finished
  }

  /** Whether an event can come at all. */
  predicate MayCome(s: State, e: Event) {
    e.Start? || e.SocketClosed? ==> Drained(s)
  }

  function Step(s: State, e: Event): State {
    if !MayCome(s, e) then s
    else
      match e
      case Start(owner, target, ws, targets, overrides) =>
        StartSession(s, SessionKey(owner, target), ws, targets, R.ResolvePolicy(overrides))
      case Node(id, event) =>
        if id < |s.sessions| && !event.Abort?
        then s.(sessions := s.sessions[id := s.sessions[id].(runner := R.Step(s.sessions[id].runner, event))])
        else s
      case Continue(id) =>
        if id < |s.sessions| && s.sessions[id].runner.outcome.Some? && !s.sessions[id].finished then Finish(s, id) else s
      case SocketClosed(ws) => CloseSocket(s, ws)
  }

  function Run(events: seq<Event>): State {
    if events == [] then INITIAL else Step(Run(events[..|events| - 1]), events[|events| - 1])
  }

  // ----- the invariant of every run -----

  /** How often a session replied. */
  function RepliesOf(replies: seq<Reply>, id: nat): nat {
    if replies == [] then 0
    else RepliesOf(replies[..|replies| - 1], id) + if replies[|replies| - 1].session == id then 1 else 0
  }

  lemma RepliesOfSnoc(replies: seq<Reply>, r: Reply, id: nat)
    ensures RepliesOf(replies + [r], id) == RepliesOf(replies, id) + if r.session == id then 1 else 0
  {
    assert (replies + [r])[..|replies|] == replies;
  }

  ghost predicate SessionOk(s: State, id: nat) {
    if id < |s.sessions| then
      var session := s.sessions[id];
      && R.Inv(session.runner)
      && (session.finished ==> session.runner.outcome.Some?)
      && (session.runner.outcome.Some? ==> session.runner.outcome == Some(session.runner.aborted))
      && (!session.finished && !session.runner.aborted <==> IsLive(s, id))
      && RepliesOf(s.replies, id) == (if session.finished && !session.runner.aborted then 1 else 0)
    else RepliesOf(s.replies, id) == 0
  }

  ghost predicate KeyOk(s: State, key: string) {
    key in s.live ==> s.live[key] < |s.sessions| && s.sessions[s.live[key]].key == key
  }

  /** What a reply said is what its session's runner resolved with. */
  ghost predicate ReplyOk(s: State, i: nat) {
    i < |s.replies| ==>
      && s.replies[i].session < |s.sessions|
      && var runner := s.sessions[s.replies[i].session].runner;
         runner.outcome == Some(false) && s.replies[i].outcome == R.ToOutcome(R.Reports(runner))
  }

  ghost predicate Inv(s: State) {
    && (forall id: nat :: SessionOk(s, id))
    && (forall key :: KeyOk(s, key))
    && (forall i: nat :: ReplyOk(s, i))
  }

  /** A step of one session's runner leaves its reply, and whether it is live, as they were. */
  lemma {:induction false} NodeStepKeepsInv(s: State, id: nat, event: R.Event)
    requires Inv(s) && id < |s.sessions| && !event.Abort?
    ensures Inv(Step(s, Node(id, event)))
  {
    var t := Step(s, Node(id, event));
    var runner, runner' := s.sessions[id].runner, t.sessions[id].runner;
    assert SessionOk(s, id);
    R.StepKeepsInv(runner, event);
    if runner.outcome.Some? { R.ResolvedReportsStay(runner, event); }
    forall j: nat
      ensures SessionOk(t, j)
    {
      assert SessionOk(s, j);
    }
    forall key
      ensures KeyOk(t, key)
    {
      assert KeyOk(s, key);
    }
    forall i: nat
      ensures ReplyOk(t, i)
    {
      assert ReplyOk(s, i);
    }
  }

  lemma {:induction false} FinishKeepsSession(s: State, id: nat, j: nat)
    requires Inv(s) && id < |s.sessions| && s.sessions[id].runner.outcome.Some? && !s.sessions[id].finished
    ensures SessionOk(Finish(s, id), j)
  {
    assert SessionOk(s, j) && SessionOk(s, id);
    RepliesOfSnoc(s.replies, Reply(id, R.ToOutcome(R.Reports(s.sessions[id].runner))), j);
  }

  lemma {:induction false} FinishKeepsInv(s: State, id: nat)
    requires Inv(s) && id < |s.sessions| && s.sessions[id].runner.outcome.Some? && !s.sessions[id].finished
    ensures Inv(Finish(s, id))
  {
    var t := Finish(s, id);
    forall j: nat
      ensures SessionOk(t, j)
    {
      FinishKeepsSession(s, id, j);
    }
    forall key
      ensures KeyOk(t, key)
    {
      assert KeyOk(s, key);
    }
    forall i: nat
      ensures ReplyOk(t, i)
    {
      assert ReplyOk(s, i);
    }
  }

  /** Aborting some sessions, each together with its key, keeps the invariant. */
  lemma AbortKeepsInv(s: State, t: State)
    requires Inv(s) && Drained(s) && |t.sessions| == |s.sessions| && t.replies == s.replies
    requires forall i :: 0 <= i < |s.sessions| ==>
               t.sessions[i] == if IsLive(s, i) && !IsLive(t, i) then Aborted(s.sessions[i]) else s.sessions[i]
    requires forall key :: key in t.live ==> key in s.live && t.live[key] == s.live[key]
    ensures Inv(t)
  {
    forall i: nat
      ensures SessionOk(t, i)
    {
      assert SessionOk(s, i);
      if i < |s.sessions| { R.StepKeepsInv(s.sessions[i].runner, R.Abort); }
    }
    forall key
      ensures KeyOk(t, key)
    {
      assert KeyOk(s, key);
    }
    forall i: nat
      ensures ReplyOk(t, i)
    {
      assert ReplyOk(s, i);
      if i < |s.replies| {
        var id := s.replies[i].session;
        assert SessionOk(s, id);
        R.ResolvedReportsStay(s.sessions[id].runner, R.Abort);
      }
    }
  }

  lemma CloseSocketKeepsInv(s: State, ws: nat)
    requires Inv(s) && Drained(s)
    ensures Inv(CloseSocket(s, ws))
  {
    var t := CloseSocket(s, ws);
    forall i | 0 <= i < |s.sessions|
      ensures t.sessions[i] == if IsLive(s, i) && !IsLive(t, i) then Aborted(s.sessions[i]) else s.sessions[i]
    {
      assert KeyOk(s, s.sessions[i].key);
    }
    AbortKeepsInv(s, t);
  }

  /** The sessions after the one registered for a key was aborted and unregistered. */
  function Superseded(s: State, key: string): State {
    if key in s.live && s.live[key] < |s.sessions|
    then s.(sessions := s.sessions[s.live[key] := Aborted(s.sessions[s.live[key]])], live := s.live - {key})
    else s
  }

  lemma RegisterKeepsInv(s: State, key: string, ws: nat, targets: seq<R.Target>, policy: R.Policy)
    requires Inv(s) && key !in s.live
    ensures Inv(s.(sessions := s.sessions + [Session(key, ws, R.Start(targets, policy, false), false)],
                   live := s.live[key := |s.sessions|]))
  {
    var session := Session(key, ws, R.Start(targets, policy, false), false);
    var t := s.(sessions := s.sessions + [session], live := s.live[key := |s.sessions|]);
    R.StartSatisfiesInv(targets, policy, false);
    R.StartIsUnresolved(targets, policy);
    forall i: nat
      ensures SessionOk(t, i)
    {
      assert SessionOk(s, i);
    }
    forall k
      ensures KeyOk(t, k)
    {
      assert KeyOk(s, k);
    }
    forall i: nat
      ensures ReplyOk(t, i)
    {
      assert ReplyOk(s, i);
    }
  }

  lemma StartKeepsInv(s: State, key: string, ws: nat, targets: seq<R.Target>, policy: R.Policy)
    requires Inv(s) && Drained(s)
    ensures Inv(StartSession(s, key, ws, targets, policy))
  {
    assert KeyOk(s, key);
    var t := Superseded(s, key);
    AbortKeepsInv(s, t);
    RegisterKeepsInv(t, key, ws, targets, policy);
    assert StartSession(s, key, ws, targets, policy).live == t.live[key := |s.sessions|];
  }

  lemma StepKeepsInv(s: State, e: Event)
    requires Inv(s)
    ensures Inv(Step(s, e))
  {
    if MayCome(s, e) {
      match e
      case Start(owner, target, ws, targets, overrides) =>
        StartKeepsInv(s, SessionKey(owner, target), ws, targets, R.ResolvePolicy(overrides));
      case Node(id, event) => if id < |s.sessions| && !event.Abort? { NodeStepKeepsInv(s, id, event); }
      case Continue(id) =>
        if id < |s.sessions| && s.sessions[id].runner.outcome.Some? && !s.sessions[id].finished { FinishKeepsInv(s, id); }
      case SocketClosed(ws) => CloseSocketKeepsInv(s, ws);
    }
  }

  lemma {:induction false} RunKeepsInv(events: seq<Event>)
    ensures Inv(Run(events))
  {
    if events == [] {
      assert forall id: nat :: SessionOk(INITIAL, id);
    } else {
      RunKeepsInv(events[..|events| - 1]);
      StepKeepsInv(Run(events[..|events| - 1]), events[|events| - 1]);
    }
  }

  // ----- what holds of every run -----

  ghost predicate Active(s: State, id: nat) {
    id < |s.sessions| && !s.sessions[id].finished && !s.sessions[id].runner.aborted
  }

  /** Each key has at most one session that is neither finished nor aborted, and it is the registered one. */
  lemma OneActiveSessionPerKey(events: seq<Event>)
    ensures var s := Run(events);
            && (forall id: nat :: Active(s, id) <==> IsLive(s, id))
            && (forall a: nat, b: nat :: Active(s, a) && Active(s, b) && s.sessions[a].key == s.sessions[b].key ==> a == b)
            && (forall key :: key in s.live ==> Active(s, s.live[key]) && s.sessions[s.live[key]].key == key)
  {
    RunKeepsInv(events);
    var s := Run(events);
    forall id: nat
      ensures Active(s, id) <==> IsLive(s, id)
    {
      assert SessionOk(s, id);
    }
    forall key | key in s.live
      ensures s.live[key] < |s.sessions| && s.sessions[s.live[key]].key == key
    {
      assert KeyOk(s, key);
    }
  }

  ghost predicate Says(outcome: R.ReplyOutcome, runner: R.State) {
    && (outcome == R.NothingAttempted <==> !R.HasAttempts(runner.targets))
    && (outcome == R.SomeFailed <==> R.SomeWordFails(runner))
    && (outcome == R.Fulfilled <==> R.AllWordsSucceed(runner))
  }

  /**
   * A session that was ever aborted never replies, and every other session replies exactly once,
   * when it finishes. The reply says that nothing was attempted exactly when no node had a URI, that
   * some node failed exactly when some node's updates ended in failure, and that all is fulfilled
   * exactly when there was a node to push to and every node's updates ended in success.
   */
  lemma RepliesAreExact(events: seq<Event>, id: nat)
    requires id < |Run(events).sessions|
    ensures var s := Run(events); var session := s.sessions[id];
            && RepliesOf(s.replies, id) == (if session.finished && !session.runner.aborted then 1 else 0)
            && (forall r :: r in s.replies && r.session == id ==> Says(r.outcome, session.runner))
  {
    RunKeepsInv(events);
    var s := Run(events);
    assert SessionOk(s, id);
    forall r | r in s.replies && r.session == id
      ensures Says(r.outcome, s.sessions[id].runner)
    {
      var i: nat :| i < |s.replies| && s.replies[i] == r;
      assert ReplyOk(s, i);
      R.OutcomeMatchesWords(s.sessions[id].runner);
    }
  }

  function Continued(s: State, more: seq<Event>): State {
    if more == [] then s else Step(Continued(s, more[..|more| - 1]), more[|more| - 1])
  }

  /** Whatever comes, a session once aborted stays so, emits nothing more and never replies. */
  lemma {:induction false} AbortedNeverReplies(s: State, more: seq<Event>, id: nat)
    requires Inv(s) && id < |s.sessions| && s.sessions[id].runner.aborted
    ensures var t := Continued(s, more);
            && Inv(t) && id < |t.sessions| && t.sessions[id].runner.aborted
            && RepliesOf(t.replies, id) == 0
            && t.sessions[id].runner.emitted == s.sessions[id].runner.emitted
  {
    if more == [] {
      assert SessionOk(s, id);
    } else {
      var front, e := more[..|more| - 1], more[|more| - 1];
      AbortedNeverReplies(s, front, id);
      var u := Continued(s, front);
      StepKeepsInv(u, e);
      StepKeepsAborted(u, e, id);
      assert SessionOk(Step(u, e), id);
    }
  }

  lemma StepKeepsAborted(s: State, e: Event, id: nat)
    requires Inv(s) && id < |s.sessions| && s.sessions[id].runner.aborted
    ensures id < |Step(s, e).sessions|
    ensures Step(s, e).sessions[id].runner.aborted
    ensures Step(s, e).sessions[id].runner.emitted == s.sessions[id].runner.emitted
  {
  }

  /** A new session for a key aborts the one in flight, and a closed socket all in flight that it started. */
  lemma WhatAborts(s: State, e: Event, id: nat)
    requires Inv(s) && MayCome(s, e) && id < |s.sessions|
    ensures var superseded := e.Start? && IsLive(s, id) && s.sessions[id].key == SessionKey(e.owner, e.target);
            var closed := e.SocketClosed? && IsLive(s, id) && s.sessions[id].ws == e.ws;
            id < |Step(s, e).sessions|
            && (Step(s, e).sessions[id].runner.aborted <==> s.sessions[id].runner.aborted || superseded || closed)
  {
    assert SessionOk(s, id);
    if e.Start? { assert KeyOk(s, SessionKey(e.owner, e.target)); }
  }

  /** A new session runs its own nodes under its caller's overrides and is the registered one; others are at most aborted. */
  lemma WhatStarts(s: State, e: Event)
    requires Inv(s) && MayCome(s, e) && e.Start?
    ensures var t := Step(s, e); var key := SessionKey(e.owner, e.target); var id := |s.sessions|;
            && |t.sessions| == id + 1 && t.replies == s.replies && key in t.live && t.live[key] == id
            && t.sessions[id] == Session(key, e.ws, R.Start(e.targets, R.ResolvePolicy(e.overrides), false), false)
            && forall other :: 0 <= other < id ==>
                 t.sessions[other] == s.sessions[other] || t.sessions[other] == Aborted(s.sessions[other])
  {
  }

  /** An event of a session's nodes is a step of that session's runner and of nothing else. */
  lemma WhatNodesDo(s: State, id: nat, event: R.Event)
    requires id < |s.sessions| && !event.Abort?
    ensures var t := Step(s, Node(id, event));
            && |t.sessions| == |s.sessions| && t.live == s.live && t.replies == s.replies
            && t.sessions[id] == s.sessions[id].(runner := R.Step(s.sessions[id].runner, event))
            && forall other :: 0 <= other < |s.sessions| && other != id ==> t.sessions[other] == s.sessions[other]
  {
  }

  /** The runner went through some run of its targets and policy, not aborted at the start. */
  ghost predicate IsRun(runner: R.State) {
    exists events :: runner == R.Run(R.Start(runner.targets, runner.policy, false), events)
  }

  lemma StepIsRun(runner: R.State, e: R.Event)
    requires IsRun(runner)
    ensures IsRun(R.Step(runner, e))
  {
    var events :| runner == R.Run(R.Start(runner.targets, runner.policy, false), events);
    R.RunSnoc(R.Start(runner.targets, runner.policy, false), events, e);
    assert R.Step(runner, e) == R.Run(R.Start(runner.targets, runner.policy, false), events + [e]);
  }

  lemma StartIsRun(targets: seq<R.Target>, policy: R.Policy)
    ensures IsRun(R.Start(targets, policy, false))
  {
    assert R.Start(targets, policy, false) == R.Run(R.Start(targets, policy, false), []);
  }

  /** Whatever sessions do to each other, each one's runner goes through a run of the retry runner. */
  lemma {:induction false} SessionsAreRuns(events: seq<Event>, id: nat)
    requires id < |Run(events).sessions|
    ensures IsRun(Run(events).sessions[id].runner)
  {
    if events != [] {
      var s, e := Run(events[..|events| - 1]), events[|events| - 1];
      if id < |s.sessions| {
        SessionsAreRuns(events[..|events| - 1], id);
        StepIsRun(s.sessions[id].runner, R.Abort);
        if e.Node? { StepIsRun(s.sessions[id].runner, e.event); }
      } else if e.Start? {
        StartIsRun(e.targets, R.ResolvePolicy(e.overrides));
      }
    }
  }

  /** A session that has not finished waits for something of its own that moves it on. */
  lemma SessionMovesOn(s: State, id: nat) returns (e: Event)
    requires Inv(s) && id < |s.sessions| && !s.sessions[id].finished
    ensures (e == Continue(id) || (e.Node? && e.session == id)) && Step(s, e) != s
  {
    assert SessionOk(s, id);
    var session := s.sessions[id];
    if session.runner.outcome.Some? {
      e := Continue(id);
      assert Step(s, e).sessions[id].finished;
    } else {
      var event := R.SomethingIsPending(session.runner);
      e := Node(id, event);
      assert Step(s, e).sessions[id].runner == R.Step(session.runner, event);
    }
  }

  // ----- keys -----

  /** Target ids without a bar, as node ids and the ids Valkey gives its clusters are, keep owners apart. */
  lemma KeysSeparateOwners(owner: string, target: string, owner': string, target': string)
    requires '|' !in target && '|' !in target'
    ensures SessionKey(owner, target) == SessionKey(owner', target') <==> owner == owner' && target == target'
  {
    var key := SessionKey(owner, target);
    if key == SessionKey(owner', target') {
      assert key[|owner|] == '|' && key[|owner'|] == '|';
      assert owner == key[..|owner|] && target == key[|owner| + 1..];
      assert owner' == key[..|owner'|] && target' == key[|owner'| + 1..];
    }
  }

  /** As a text, a key can be read as another owner and target exactly when one of the two holds a bar. */
  lemma KeyIsAmbiguousExactly(owner: string, target: string)
    ensures (exists o, t :: (o, t) != (owner, target) && SessionKey(o, t) == SessionKey(owner, target))
       <==> '|' in owner || '|' in target
  {
    var key := SessionKey(owner, target);
    if i :| 0 <= i < |owner| && owner[i] == '|' {
      var o, t := owner[..i], owner[i + 1..] + "|" + target;
      assert owner == o + "|" + owner[i + 1..];
      assert SessionKey(o, t) == key && |o| < |owner|;
      assert (o, t) != (owner, target);
    } else if i :| 0 <= i < |target| && target[i] == '|' {
      var o, t := owner + "|" + target[..i], target[i + 1..];
      assert target == target[..i] + "|" + t;
      assert SessionKey(o, t) == key && |o| > |owner|;
      assert (o, t) != (owner, target);
    } else {
      forall o, t | SessionKey(o, t) == key
        ensures (o, t) == (owner, target)
      {
        OneReading(owner, target, o, t);
      }
    }
  }

  lemma OneReading(owner: string, target: string, o: string, t: string)
    requires '|' !in owner && '|' !in target && SessionKey(o, t) == SessionKey(owner, target)
    ensures o == owner && t == target
  {
    var key := SessionKey(owner, target);
    assert key[|o|] == '|';
    forall i | 0 <= i < |key|
      ensures key[i] == '|' ==> i == |owner|
    {
      assert key[i] == if i < |owner| then owner[i] else if i == |owner| then '|' else target[i - |owner| - 1];
    }
    assert o == key[..|o|] && t == key[|o| + 1..];
  }
}
