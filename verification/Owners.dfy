/**
 * The owner registry together with the per-connection mutex. Connects to one connection id of one
 * owner queue behind each other; an owner state is created when a connect first needs it and is
 * removed when nothing is left in it. Code between two awaits is one step.
 */
module Owners {
  import opened Wrappers

  /** Where one call of `connectToValkey` stands. */
  datatype Phase =
    | Waiting   // for the connect before it
    | Running   // its body runs
    | Settled   // the body returned or threw; its own clean-up is still to come
    | Finished

  /** One connect: the owner it runs for, and the connect it queued behind. */
  datatype Task = Task(owner: nat, conn: string, prior: Option<nat>, phase: Phase)

  datatype OwnerState = OwnerState(
    key: string,
    clients: set<string>,
    /** The connect that arrived last for each connection id, while it is in flight. */
    connectInFlight: map<string, nat>,
    /** Nodes with a collector, clusters with a known topology, clusters whose client is being created. */
    metricsServers: set<string>, clusterNodes: set<string>, inFlightClusterClients: set<string>)

  /** A state as it is created. */
  function NewOwnerState(key: string): OwnerState {
    OwnerState(key, {}, map[], {}, {}, {})
  }

  datatype State = State(
    owners: map<string, nat>,
    /** Every owner state there ever was. State 0 belongs to the preconfigured identity. */
    states: seq<OwnerState>,
    tasks: seq<Task>)

  const ENV := 0

  datatype Event =
    | Connect(key: string, joins: Option<nat>, conn: string)  // the credentials were accepted
    | Enter(task: nat)                                        // the connect before it is over
    | SetClient(task: nat, present: bool)                     // the body stores or drops its client
    | Settle(task: nat)                                       // the body returns or throws
    | CleanUp(task: nat)                                      // the code after the body
    | HoldOther(owner: nat, metricsServers: set<string>, clusterNodes: set<string>,
                inFlightClusterClients: set<string>)          // collectors and topologies come and go
    | Teardown(owner: nat, conn: string)                      // a client is closed
    | RemoveIfUnused(owner: nat)                              // a failed connect, or pruned collectors

  /** The state a key resolves to: the registered one, or the preconfigured one by its own key. */
  function Find(s: State, key: string): Option<nat> {
    if key in s.owners then Some(s.owners[key])
    else if |s.states| > ENV && s.states[ENV].key == key then Some(ENV)
    else None
  }

  /** The states a connect may join: the registered ones and the preconfigured one. */
  predicate Candidate(s: State, id: nat) {
    id < |s.states| && (id == ENV || (s.states[id].key in s.owners && s.owners[s.states[id].key] == id))
  }

  function Init(envKey: Option<string>): State {
    match envKey
    case None => State(map[], [NewOwnerState("env")], [])
    case Some(key) => State(map[key := ENV], [NewOwnerState(key)], [])
  }

  /** Pick the owner state for a connect, creating it on first use. */
  function PickOwner(s: State, key: string, joins: Option<nat>): (State, nat) {
    if joins.Some? && Candidate(s, joins.value) then (s, joins.value)
    else
      match Find(s, key)
      case Some(id) => (s, id)
      case None =>
        (s.(states := s.states + [NewOwnerState(key)], owners := s.owners[key := |s.states|]), |s.states|)
  }

  /** Queue a connect behind the one in flight for its connection id. */
  function Enqueue(s: State, id: nat, conn: string): State
    requires id < |s.states|
  {
    var owner := s.states[id];
    var prior := if conn in owner.connectInFlight then Some(owner.connectInFlight[conn]) else None;
    var t := |s.tasks|;
    s.(tasks := s.tasks + [Task(id, conn, prior, Waiting)],
       states := s.states[id := owner.(connectInFlight := owner.connectInFlight[conn := t])])
  }

  function SetPhase(s: State, t: nat, phase: Phase): State
    requires t < |s.tasks|
  {
    s.(tasks := s.tasks[t := s.tasks[t].(phase := phase)])
  }

  predicate Over(task: Task) { task.phase.Settled? || task.phase.Finished? }

  predicate MayEnter(s: State, t: nat) {
    && t < |s.tasks| && s.tasks[t].phase.Waiting?
    && (s.tasks[t].prior.Some? ==> s.tasks[t].prior.value < |s.tasks| && Over(s.tasks[s.tasks[t].prior.value]))
  }

  /** Give up the connection id unless a later connect queued for it. */
  function CleanUpAfter(s: State, t: nat): State
    requires t < |s.tasks|
  {
    var u := SetPhase(s, t, Finished);
    if Registered(s, t) then
      var owner := s.states[s.tasks[t].owner];
      u.(states := s.states[s.tasks[t].owner := owner.(connectInFlight := owner.connectInFlight - {s.tasks[t].conn})])
    else u
  }

  predicate Unused(owner: OwnerState) {
    && owner.clients == {} && owner.metricsServers == {} && owner.clusterNodes == {}
    && owner.connectInFlight == map[] && owner.inFlightClusterClients == {}
  }

  function Remove(s: State, id: nat): State
    requires id < |s.states|
  {
    var owner := s.states[id];
    if id == ENV || owner.key !in s.owners || s.owners[owner.key] != id || !Unused(owner) then s
    else s.(owners := s.owners - {owner.key})
  }

  function Step(s: State, e: Event): State {
    match e
    case Connect(key, joins, conn) =>
      var (picked, id) := PickOwner(s, key, joins);
      if id < |picked.states| then Enqueue(picked, id, conn) else s
    case Enter(t) => if MayEnter(s, t) then SetPhase(s, t, Running) else s
    case SetClient(t, present) =>
      if t < |s.tasks| && s.tasks[t].phase.Running? && s.tasks[t].owner < |s.states| then
        var owner := s.states[s.tasks[t].owner];
        s.(states := s.states[s.tasks[t].owner := owner.(clients :=
             if present then owner.clients + {s.tasks[t].conn} else owner.clients - {s.tasks[t].conn})])
      else s
    case Settle(t) => if t < |s.tasks| && s.tasks[t].phase.Running? then SetPhase(s, t, Settled) else s
    case CleanUp(t) => if t < |s.tasks| && s.tasks[t].phase.Settled? then CleanUpAfter(s, t) else s
    case HoldOther(id, metricsServers, clusterNodes, inFlightClusterClients) =>
      if id < |s.states| then
        s.(states := s.states[id := s.states[id].(metricsServers := metricsServers, clusterNodes := clusterNodes,
                                                  inFlightClusterClients := inFlightClusterClients)])
      else s
    case Teardown(id, conn) =>
      if id < |s.states| then
        Remove(s.(states := s.states[id := s.states[id].(clients := s.states[id].clients - {conn})]), id)
      else s
    case RemoveIfUnused(id) => if id < |s.states| then Remove(s, id) else s
  }

  function Run(envKey: Option<string>, events: seq<Event>): State {
    if events == [] then Init(envKey) else Step(Run(envKey, events[..|events| - 1]), events[|events| - 1])
  }

  // ----- the invariant of every run -----

  predicate Same(a: Task, b: Task) { a.owner == b.owner && a.conn == b.conn }

  /** A connect left the queue only after every earlier one for its owner and id was over. */
  ghost predicate Ordered(s: State, i: nat, j: nat) {
    i < j < |s.tasks| && Same(s.tasks[i], s.tasks[j]) && !s.tasks[j].phase.Waiting? ==> Over(s.tasks[i])
  }

  ghost predicate AllOverBefore(s: State, j: nat)
    requires j < |s.tasks|
  {
    forall i :: 0 <= i < j && Same(s.tasks[i], s.tasks[j]) ==> Over(s.tasks[i])
  }

  /** A connect queued behind the one just before it, or found every earlier one over. */
  ghost predicate QueuedRight(s: State, j: nat) {
    j < |s.tasks| ==>
      match s.tasks[j].prior
      case None => AllOverBefore(s, j)
      case Some(p) =>
        && p < j && Same(s.tasks[p], s.tasks[j])
        && (forall m :: p < m < j ==> !Same(s.tasks[m], s.tasks[j]))
  }

  ghost predicate Latest(s: State, t: nat) {
    t < |s.tasks| && forall m :: t < m < |s.tasks| ==> !Same(s.tasks[m], s.tasks[t])
  }

  predicate Registered(s: State, t: nat) {
    && t < |s.tasks| && s.tasks[t].owner < |s.states|
    && s.tasks[t].conn in s.states[s.tasks[t].owner].connectInFlight
    && s.states[s.tasks[t].owner].connectInFlight[s.tasks[t].conn] == t
  }

  /** The latest connect of an id is the one in flight until it cleaned up, and nothing else is. */
  ghost predicate TaskOk(s: State, t: nat) {
    t < |s.tasks| ==>
      && s.tasks[t].owner < |s.states|
      && (Registered(s, t) <==> Latest(s, t) && !s.tasks[t].phase.Finished?)
  }

  ghost predicate EntryOk(s: State, id: nat, conn: string) {
    id < |s.states| && conn in s.states[id].connectInFlight ==>
      var t := s.states[id].connectInFlight[conn];
      t < |s.tasks| && s.tasks[t].owner == id && s.tasks[t].conn == conn
  }

  predicate InUse(owner: OwnerState) { owner.clients != {} || owner.connectInFlight != map[] }

  /** A state in use is the one its key resolves to. */
  ghost predicate OwnerOk(s: State, id: nat) {
    id < |s.states| && (InUse(s.states[id]) || id == ENV) ==> Find(s, s.states[id].key) == Some(id)
  }

  ghost predicate KeyOk(s: State, key: string) {
    key in s.owners ==> s.owners[key] < |s.states| && s.states[s.owners[key]].key == key
  }

  ghost predicate QueueInv(s: State) {
    && (forall i: nat, j: nat :: Ordered(s, i, j))
    && (forall j: nat :: QueuedRight(s, j))
    && (forall t: nat :: TaskOk(s, t))
    && (forall id: nat, conn :: EntryOk(s, id, conn))
  }

  ghost predicate RegistryInv(s: State) {
    && |s.states| > ENV
    && (forall id: nat :: OwnerOk(s, id))
    && (forall key :: KeyOk(s, key))
  }

  ghost predicate Inv(s: State) {
    QueueInv(s) && RegistryInv(s)
  }

  // ----- the queue -----

  /** Creating an owner state, or changing anything but its connects, leaves the queue alone. */
  lemma QueueFrame(s: State, t: State)
    requires QueueInv(s) && t.tasks == s.tasks && |s.states| <= |t.states|
    requires forall id :: 0 <= id < |s.states| ==> t.states[id].connectInFlight == s.states[id].connectInFlight
    requires forall id :: |s.states| <= id < |t.states| ==> t.states[id].connectInFlight == map[]
    ensures QueueInv(t)
  {
    forall i: nat, j: nat
      ensures Ordered(t, i, j)
    {
      assert Ordered(s, i, j);
    }
    forall j: nat
      ensures QueuedRight(t, j)
    {
      assert QueuedRight(s, j);
    }
    forall j: nat
      ensures TaskOk(t, j)
    {
      assert TaskOk(s, j);
      assert Latest(t, j) <==> Latest(s, j);
    }
    forall id: nat, conn
      ensures EntryOk(t, id, conn)
    {
      assert EntryOk(s, id, conn);
    }
  }

  lemma EnqueueKeepsQueue(s: State, id: nat, conn: string)
    requires QueueInv(s) && id < |s.states|
    ensures QueueInv(Enqueue(s, id, conn))
  {
    var t, n := Enqueue(s, id, conn), |s.tasks|;
    assert EntryOk(s, id, conn);
    forall i: nat, j: nat
      ensures Ordered(t, i, j)
    {
      assert Ordered(s, i, j);
    }
    forall j: nat
      ensures QueuedRight(t, j)
    {
      assert QueuedRight(s, j);
      if j == n { NewTaskQueuesRight(s, id, conn); }
    }
    forall j: nat
      ensures TaskOk(t, j)
    {
      assert TaskOk(s, j);
      if j < n {
        assert forall m :: 0 <= m < n ==> (Same(t.tasks[m], t.tasks[j]) <==> Same(s.tasks[m], s.tasks[j]));
        assert Latest(t, j) <==> Latest(s, j) && !Same(t.tasks[n], t.tasks[j]);
      }
    }
    forall other: nat, c
      ensures EntryOk(t, other, c)
    {
      assert EntryOk(s, other, c);
    }
  }

  /** The last connect for an owner and id, at or after a given one. */
  lemma LatestExists(s: State, t: nat) returns (m: nat)
    requires t < |s.tasks|
    ensures t <= m < |s.tasks| && Same(s.tasks[m], s.tasks[t]) && Latest(s, m)
  {
    m := t;
    var i := t + 1;
    while i < |s.tasks|
      invariant t <= m < i <= |s.tasks| && Same(s.tasks[m], s.tasks[t])
      invariant forall j :: m < j < i ==> !Same(s.tasks[j], s.tasks[t])
    {
      if Same(s.tasks[i], s.tasks[t]) { m := i; }
      i := i + 1;
    }
  }

  /** With no connect in flight for an id, every connect for it is over. */
  lemma NothingInFlightMeansAllOver(s: State, t: nat)
    requires QueueInv(s) && t < |s.tasks|
    ensures s.tasks[t].owner < |s.states|
    ensures s.tasks[t].conn !in s.states[s.tasks[t].owner].connectInFlight ==> Over(s.tasks[t])
  {
    var m := LatestExists(s, t);
    assert TaskOk(s, m) && TaskOk(s, t);
    assert Ordered(s, t, m);
  }

  lemma NewTaskQueuesRight(s: State, id: nat, conn: string)
    requires QueueInv(s) && id < |s.states|
    ensures QueuedRight(Enqueue(s, id, conn), |s.tasks|)
  {
    var t, n := Enqueue(s, id, conn), |s.tasks|;
    if conn in s.states[id].connectInFlight {
      var p := s.states[id].connectInFlight[conn];
      assert EntryOk(s, id, conn) && TaskOk(s, p);
    } else {
      forall i | 0 <= i < n && Same(t.tasks[i], t.tasks[n])
        ensures Over(t.tasks[i])
      {
        NothingInFlightMeansAllOver(s, i);
      }
    }
  }

  /** A connect may start its body only when every earlier one for its owner and id is over. */
  lemma EnteringMeansAllOver(s: State, t: nat)
    requires QueueInv(s) && MayEnter(s, t)
    ensures AllOverBefore(s, t)
  {
    assert QueuedRight(s, t);
    if s.tasks[t].prior.Some? {
      var p := s.tasks[t].prior.value;
      forall i: nat | i < t && Same(s.tasks[i], s.tasks[t])
        ensures Over(s.tasks[i])
      {
        assert Ordered(s, i, p);
      }
    }
  }

  lemma LatestFrame(s: State, u: State, t: nat)
    requires |u.tasks| == |s.tasks| && t < |s.tasks|
    requires forall m :: 0 <= m < |s.tasks| ==> Same(u.tasks[m], s.tasks[m])
    ensures Latest(u, t) <==> Latest(s, t)
  {
    assert forall m :: 0 <= m < |s.tasks| ==> (Same(u.tasks[m], u.tasks[t]) <==> Same(s.tasks[m], s.tasks[t]));
  }

  lemma PhaseKeepsQueue(s: State, t: nat, phase: Phase)
    requires QueueInv(s) && t < |s.tasks| && !phase.Waiting? && !phase.Finished? && !s.tasks[t].phase.Finished?
    requires s.tasks[t].phase.Waiting? ==> MayEnter(s, t)
    requires s.tasks[t].phase.Settled? ==> phase.Settled?
    ensures QueueInv(SetPhase(s, t, phase))
  {
    var u := SetPhase(s, t, phase);
    if s.tasks[t].phase.Waiting? { EnteringMeansAllOver(s, t); }
    forall i: nat, j: nat
      ensures Ordered(u, i, j)
    {
      assert Ordered(s, i, j);
    }
    forall j: nat
      ensures QueuedRight(u, j)
    {
      assert QueuedRight(s, j);
      assert j < |s.tasks| && AllOverBefore(s, j) ==> AllOverBefore(u, j);
    }
    forall j: nat
      ensures TaskOk(u, j)
    {
      assert TaskOk(s, j);
      if j < |s.tasks| { LatestFrame(s, u, j); }
    }
    forall id: nat, conn
      ensures EntryOk(u, id, conn)
    {
      assert EntryOk(s, id, conn);
    }
  }

  lemma CleanUpKeepsQueue(s: State, t: nat)
    requires QueueInv(s) && t < |s.tasks| && s.tasks[t].phase.Settled?
    ensures QueueInv(CleanUpAfter(s, t))
  {
    var u := CleanUpAfter(s, t);
    forall i: nat, j: nat
      ensures Ordered(u, i, j)
    {
      assert Ordered(s, i, j);
    }
    forall j: nat
      ensures QueuedRight(u, j)
    {
      assert QueuedRight(s, j);
      assert j < |s.tasks| && AllOverBefore(s, j) ==> AllOverBefore(u, j);
    }
    forall j: nat
      ensures TaskOk(u, j)
    {
      assert TaskOk(s, j) && TaskOk(s, t);
      if j < |s.tasks| { LatestFrame(s, u, j); }
      assert j < |s.tasks| && j != t && Registered(s, j) && Registered(s, t) ==> !Same(s.tasks[j], s.tasks[t]);
    }
    forall id: nat, conn
      ensures EntryOk(u, id, conn)
    {
      assert EntryOk(s, id, conn);
    }
  }

  // ----- the registry -----

  /** An owner state changed, and is registered if it is in use now; no key or registration changed. */
  lemma UpdateKeepsRegistry(s: State, u: State, id: nat)
    requires RegistryInv(s) && u.owners == s.owners && |u.states| == |s.states| && id < |s.states|
    requires forall j :: 0 <= j < |s.states| ==> u.states[j].key == s.states[j].key
    requires forall j :: 0 <= j < |s.states| && j != id ==> u.states[j] == s.states[j]
    requires InUse(u.states[id]) ==> Find(s, s.states[id].key) == Some(id)
    ensures RegistryInv(u)
  {
    forall j: nat
      ensures OwnerOk(u, j)
    {
      assert OwnerOk(s, j);
    }
    forall key
      ensures KeyOk(u, key)
    {
      assert KeyOk(s, key);
    }
  }

  /** The state picked for a connect is the one its key resolves to. */
  lemma PickKeepsInv(s: State, key: string, joins: Option<nat>)
    requires Inv(s)
    ensures var (u, id) := PickOwner(s, key, joins);
            Inv(u) && id < |u.states| && Find(u, u.states[id].key) == Some(id)
  {
    var (u, id) := PickOwner(s, key, joins);
    assert KeyOk(s, key) && OwnerOk(s, ENV);
    if u != s {
      QueueFrame(s, u);
      forall j: nat
        ensures OwnerOk(u, j)
      {
        assert OwnerOk(s, j);
      }
      forall k
        ensures KeyOk(u, k)
      {
        assert KeyOk(s, k);
      }
    }
  }

  lemma RemoveKeepsInv(s: State, id: nat)
    requires Inv(s) && id < |s.states|
    ensures Inv(Remove(s, id))
  {
    var u := Remove(s, id);
    QueueFrame(s, u);
    forall j: nat
      ensures OwnerOk(u, j)
    {
      assert OwnerOk(s, j) && OwnerOk(s, ENV);
    }
    forall k
      ensures KeyOk(u, k)
    {
      assert KeyOk(s, k);
    }
  }

  /** While a body runs its connection id is in flight, so its owner state is in use. */
  lemma RunningMeansInFlight(s: State, t: nat)
    requires QueueInv(s) && t < |s.tasks| && s.tasks[t].phase.Running?
    ensures s.tasks[t].owner < |s.states| && s.tasks[t].conn in s.states[s.tasks[t].owner].connectInFlight
  {
    NothingInFlightMeansAllOver(s, t);
  }

  lemma ConnectKeepsInv(s: State, key: string, joins: Option<nat>, conn: string)
    requires Inv(s)
    ensures Inv(Step(s, Connect(key, joins, conn)))
  {
    PickKeepsInv(s, key, joins);
    var (picked, id) := PickOwner(s, key, joins);
    EnqueueKeepsQueue(picked, id, conn);
    UpdateKeepsRegistry(picked, Enqueue(picked, id, conn), id);
  }

  lemma SetClientKeepsInv(s: State, t: nat, present: bool)
    requires Inv(s)
    ensures Inv(Step(s, SetClient(t, present)))
  {
    var u := Step(s, SetClient(t, present));
    if u != s {
      RunningMeansInFlight(s, t);
      assert OwnerOk(s, s.tasks[t].owner);
      QueueFrame(s, u);
      UpdateKeepsRegistry(s, u, s.tasks[t].owner);
    }
  }

  lemma CleanUpKeepsInv(s: State, t: nat)
    requires Inv(s) && t < |s.tasks| && s.tasks[t].phase.Settled?
    ensures Inv(CleanUpAfter(s, t))
  {
    CleanUpKeepsQueue(s, t);
    assert TaskOk(s, t) && OwnerOk(s, s.tasks[t].owner);
    UpdateKeepsRegistry(s, CleanUpAfter(s, t), s.tasks[t].owner);
  }

  /** A change that adds no client and no connect to an owner state. */
  lemma LessUseKeepsInv(s: State, u: State, id: nat)
    requires Inv(s) && id < |s.states| && u == s.(states := u.states) && |u.states| == |s.states|
    requires forall j :: 0 <= j < |s.states| && j != id ==> u.states[j] == s.states[j]
    requires u.states[id].key == s.states[id].key && u.states[id].connectInFlight == s.states[id].connectInFlight
    requires u.states[id].clients <= s.states[id].clients
    ensures Inv(u)
  {
    QueueFrame(s, u);
    assert OwnerOk(s, id);
    UpdateKeepsRegistry(s, u, id);
  }

  lemma StepKeepsInv(s: State, e: Event)
    requires Inv(s)
    ensures Inv(Step(s, e))
  {
    match e
    case Connect(key, joins, conn) => ConnectKeepsInv(s, key, joins, conn);
    case Enter(t) => if MayEnter(s, t) { PhaseKeepsInv(s, t, Running); }
    case SetClient(t, present) => SetClientKeepsInv(s, t, present);
    case Settle(t) => if t < |s.tasks| && s.tasks[t].phase.Running? { PhaseKeepsInv(s, t, Settled); }
    case CleanUp(t) => if t < |s.tasks| && s.tasks[t].phase.Settled? { CleanUpKeepsInv(s, t); }
    case HoldOther(id, _, _, _) => if id < |s.states| { LessUseKeepsInv(s, Step(s, e), id); }
    case Teardown(id, conn) =>
      if id < |s.states| {
        var u := s.(states := s.states[id := s.states[id].(clients := s.states[id].clients - {conn})]);
        LessUseKeepsInv(s, u, id);
        RemoveKeepsInv(u, id);
      }
    case RemoveIfUnused(id) => if id < |s.states| { RemoveKeepsInv(s, id); }
  }

  lemma PhaseKeepsInv(s: State, t: nat, phase: Phase)
    requires Inv(s) && t < |s.tasks| && !phase.Waiting? && !phase.Finished? && !s.tasks[t].phase.Finished?
    requires s.tasks[t].phase.Waiting? ==> MayEnter(s, t)
    requires s.tasks[t].phase.Settled? ==> phase.Settled?
    ensures Inv(SetPhase(s, t, phase))
  {
    PhaseKeepsQueue(s, t, phase);
    assert OwnerOk(s, ENV);
    UpdateKeepsRegistry(s, SetPhase(s, t, phase), ENV);
  }

  lemma {:induction false} RunKeepsInv(envKey: Option<string>, events: seq<Event>)
    ensures Inv(Run(envKey, events))
  {
    if events == [] {
      var s := Init(envKey);
      assert forall j: nat :: QueuedRight(s, j) && TaskOk(s, j) && OwnerOk(s, j);
    } else {
      RunKeepsInv(envKey, events[..|events| - 1]);
      StepKeepsInv(Run(envKey, events[..|events| - 1]), events[|events| - 1]);
    }
  }

  // ----- what holds of every run -----

  /**
   * The mutex: of the connects for one owner and connection id at most one body runs at a time,
   * and one leaves the queue only after every earlier arrival is over, failed or not.
   */
  lemma BodiesRunOneByOne(envKey: Option<string>, events: seq<Event>, i: nat, j: nat)
    requires i < j < |Run(envKey, events).tasks|
    requires Same(Run(envKey, events).tasks[i], Run(envKey, events).tasks[j])
    ensures var s := Run(envKey, events);
            && (s.tasks[j].phase != Waiting ==> Over(s.tasks[i]))
            && !(s.tasks[i].phase.Running? && s.tasks[j].phase.Running?)
  {
    RunKeepsInv(envKey, events);
    assert Ordered(Run(envKey, events), i, j);
  }

  /** The entry of a connection id names its latest connect, and is gone exactly when that one cleaned up. */
  lemma EntryGoneOnceDrained(envKey: Option<string>, events: seq<Event>, id: nat, conn: string)
    requires id < |Run(envKey, events).states|
    ensures var s := Run(envKey, events); var entries := s.states[id].connectInFlight;
            && (conn in entries <==> exists t: nat :: Latest(s, t) && s.tasks[t].owner == id && s.tasks[t].conn == conn
                                                      && !s.tasks[t].phase.Finished?)
            && (conn in entries ==> Latest(s, entries[conn]) && s.tasks[entries[conn]].conn == conn)
  {
    RunKeepsInv(envKey, events);
    var s := Run(envKey, events);
    var entries := s.states[id].connectInFlight;
    if conn in entries {
      assert EntryOk(s, id, conn) && TaskOk(s, entries[conn]);
    }
    if t: nat :| Latest(s, t) && s.tasks[t].owner == id && s.tasks[t].conn == conn && !s.tasks[t].phase.Finished? {
      assert TaskOk(s, t);
    }
  }

  /** No connect waits forever: the earliest one that is not over may enter, or its body runs. */
  lemma {:induction false} QueueMoves(envKey: Option<string>, events: seq<Event>, t: nat) returns (first: nat)
    requires t < |Run(envKey, events).tasks| && !Over(Run(envKey, events).tasks[t])
    ensures var s := Run(envKey, events);
            && first <= t && Same(s.tasks[first], s.tasks[t]) && !Over(s.tasks[first])
            && (s.tasks[first].phase.Running? || MayEnter(s, first))
    decreases t
  {
    RunKeepsInv(envKey, events);
    var s := Run(envKey, events);
    if i: nat :| i < t && Same(s.tasks[i], s.tasks[t]) && !Over(s.tasks[i]) {
      first := QueueMoves(envKey, events, i);
    } else {
      first := t;
      assert QueuedRight(s, first);
    }
  }

  /**
   * An owner state with a client or a connect in flight is the one its key resolves to, in
   * particular the one a later connect for that key gets, and an attempt to remove it does nothing.
   */
  lemma StatesInUseAreRegistered(envKey: Option<string>, events: seq<Event>, id: nat)
    requires id < |Run(envKey, events).states| && InUse(Run(envKey, events).states[id])
    ensures var s := Run(envKey, events);
            && Find(s, s.states[id].key) == Some(id)
            && PickOwner(s, s.states[id].key, None) == (s, id)
            && Step(s, RemoveIfUnused(id)) == s
            && (forall other: nat :: other < |s.states| && InUse(s.states[other]) && s.states[other].key == s.states[id].key
                  ==> other == id)
  {
    RunKeepsInv(envKey, events);
    var s := Run(envKey, events);
    assert OwnerOk(s, id);
    forall other: nat | other < |s.states| && InUse(s.states[other]) && s.states[other].key == s.states[id].key
      ensures other == id
    {
      assert OwnerOk(s, other);
    }
  }

  /** A connect whose body runs finds its owner state in use, whatever was torn down around it. */
  lemma RunningBodyHasItsOwner(envKey: Option<string>, events: seq<Event>, t: nat)
    requires t < |Run(envKey, events).tasks| && !Over(Run(envKey, events).tasks[t])
    ensures var s := Run(envKey, events); var id := s.tasks[t].owner;
            id < |s.states| && InUse(s.states[id]) && Find(s, s.states[id].key) == Some(id)
  {
    RunKeepsInv(envKey, events);
    var s := Run(envKey, events);
    NothingInFlightMeansAllOver(s, t);
    assert OwnerOk(s, s.tasks[t].owner);
  }

  // ----- what each event does -----

  predicate IsRegistered(s: State, id: nat) {
    id < |s.states| && s.states[id].key in s.owners && s.owners[s.states[id].key] == id
  }

  /** The registrations after a state was offered for removal. */
  predicate RemovedIfEmpty(s: State, owners: map<string, nat>, id: nat, clients: set<string>)
    requires id < |s.states|
  {
    var owner := s.states[id];
    var goes := id != ENV && IsRegistered(s, id) && clients == {} && owner.connectInFlight == map[]
                && owner.metricsServers == {} && owner.clusterNodes == {} && owner.inFlightClusterClients == {};
    if goes then owner.key !in owners && owners == s.owners - {owner.key} else owners == s.owners
  }

  /**
   * In every run an offer to remove a state unregisters it exactly when it is not the preconfigured
   * one, is registered, and has no client, no connect in flight, no collector, no topology and no
   * cluster client on the way; otherwise it changes nothing. Tearing a connection down takes its
   * client out, and then does the same.
   */
  lemma RemovalIsExact(envKey: Option<string>, events: seq<Event>, id: nat, conn: string)
    requires id < |Run(envKey, events).states|
    ensures var s := Run(envKey, events); var t := Step(s, RemoveIfUnused(id));
            t == s.(owners := t.owners) && RemovedIfEmpty(s, t.owners, id, s.states[id].clients)
    ensures var s := Run(envKey, events); var t := Step(s, Teardown(id, conn));
            var clients := s.states[id].clients - {conn};
            && t == s.(owners := t.owners, states := s.states[id := s.states[id].(clients := clients)])
            && RemovedIfEmpty(s, t.owners, id, clients)
  {
  }

  /** A removed state is not what its key resolves to any more: a later connect gets a new one. */
  lemma RemovedIsGone(envKey: Option<string>, events: seq<Event>, id: nat)
    requires var s := Run(envKey, events); IsRegistered(s, id) && !IsRegistered(Step(s, RemoveIfUnused(id)), id)
    ensures var s := Run(envKey, events); var t := Step(s, RemoveIfUnused(id)); var key := s.states[id].key;
            Find(t, key) == None && PickOwner(t, key, None).1 == |s.states|
  {
    RunKeepsInv(envKey, events);
    var s := Run(envKey, events);
    assert OwnerOk(s, ENV);
  }

  /** Nothing else unregisters a state: one that holds anything stays registered whatever happens. */
  lemma OnlyEmptyStatesGo(s: State, e: Event, id: nat)
    requires Inv(s) && IsRegistered(s, id) && !IsRegistered(Step(s, e), id)
    ensures (e == RemoveIfUnused(id) || (e.Teardown? && e.owner == id)) && id != ENV && Unused(Step(s, e).states[id])
  {
    if e.RemoveIfUnused? || e.Teardown? { assert KeyOk(s, s.states[id].key); }
  }

  /**
   * A connect joins the state it was told to if that is a candidate, else the one its key resolves
   * to, else a new and empty one that is registered; there it queues behind the connect in flight.
   */
  lemma WhatConnectsDo(s: State, key: string, joins: Option<nat>, conn: string)
    requires Inv(s)
    ensures |Step(s, Connect(key, joins, conn)).tasks| == |s.tasks| + 1
    ensures var t := Step(s, Connect(key, joins, conn)); var task := t.tasks[|s.tasks|]; var id := task.owner;
            && t.tasks == s.tasks + [task] && task.conn == conn && task.phase == Waiting && id < |t.states|
            && (if joins.Some? && (joins.value == ENV || IsRegistered(s, joins.value)) && joins.value < |s.states|
                then id == joins.value
                else if Find(s, key).Some? then id == Find(s, key).value
                else id == |s.states| && t.owners == s.owners[key := id] && t.states[id].key == key && t.states[id].clients == {})
            && (id < |s.states| ==> t.owners == s.owners && |t.states| == |s.states|)
            && conn in t.states[id].connectInFlight && t.states[id].connectInFlight[conn] == |s.tasks|
            && task.prior == (if id < |s.states| && conn in s.states[id].connectInFlight
                              then Some(s.states[id].connectInFlight[conn]) else None)
            && forall other :: 0 <= other < |s.states| && other != id ==> t.states[other] == s.states[other]
  {
    PickKeepsInv(s, key, joins);
  }

  /** A body stores and drops the client of its own connection id, in its own owner state. */
  lemma WhatBodiesDo(s: State, task: nat, present: bool)
    requires Inv(s) && task < |s.tasks| && s.tasks[task].phase.Running?
    ensures var t := Step(s, SetClient(task, present)); var id, conn := s.tasks[task].owner, s.tasks[task].conn;
            && id < |s.states| && (forall c :: c in t.states[id].clients <==> if c == conn then present else c in s.states[id].clients)
            && t == s.(states := s.states[id := s.states[id].(clients := t.states[id].clients)])
  {
    RunningMeansInFlight(s, task);
  }
}
