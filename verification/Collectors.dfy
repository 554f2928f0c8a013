/**
 * The collector processes of one owner in Web mode: which run, which keys they have, and how a
 * reconcile round moves them to what a cluster needs. The server's tasks interleave at their awaits;
 * a block is what a task does between two of them. A round is three blocks: it compares, it starts,
 * and it stops.
 */
module Collectors {
  import opened Wrappers

  /** A collector entry; the process id is missing when the spawn failed. */
  datatype Entry = Entry(pid: Option<nat>, lastSeen: int)

  type ServerMap = map<string, Entry>

  predicate Stale(entry: Entry, now: int, ttl: int) { now - entry.lastSeen > ttl }

  predicate HasProcess(servers: ServerMap, node: string) {
    node in servers && servers[node].pid.Some?
  }

  /** What a spawn gives: the key minted for the collector, and a process id unless it failed. */
  datatype Spawn = Spawn(key: nat, pid: Option<nat>)

  /** Every spawn so far yielded a process id. */
  predicate AllRunning(servers: ServerMap) {
    forall n :: n in servers ==> servers[n].pid.Some?
  }

  // ----- what a reconcile round does to the map -----

  /** Nodes of the cluster that have no collector. */
  function ToAdd(servers: ServerMap, cluster: set<string>): set<string> {
    cluster - servers.Keys
  }

  /** Nodes whose collector is stale, or in neither the cluster nor any client's use. */
  function ToRemove(servers: ServerMap, cluster: set<string>, claimed: set<string>, now: int, ttl: int): set<string> {
    set n | n in servers && ((n !in cluster && n !in claimed) || Stale(servers[n], now, ttl))
  }

  /** The nodes that have a collector after a round. */
  function AfterRound(servers: ServerMap, cluster: set<string>, claimed: set<string>, now: int, ttl: int): set<string> {
    servers.Keys + cluster
    - (set n | n in ToRemove(servers, cluster, claimed, now, ttl) && HasProcess(servers, n))
  }

  predicate NothingStale(servers: ServerMap, now: int, ttl: int) {
    forall n :: n in servers ==> !Stale(servers[n], now, ttl)
  }

  /** The collectors a cluster and the owner's clients need, as far as they run. */
  predicate Converged(servers: ServerMap, cluster: set<string>, claimed: set<string>) {
    cluster <= servers.Keys <= cluster + claimed
  }

  /**
   * With every process running, a round leaves the cluster's nodes and the running nodes claimed by
   * a client, except those whose collector was stale: exactly when none of them was, it leaves all.
   */
  lemma RoundConverges(servers: ServerMap, cluster: set<string>, claimed: set<string>, now: int, ttl: int)
    requires AllRunning(servers)
    ensures var goal := cluster + (servers.Keys * claimed); var stale := set n | n in servers && Stale(servers[n], now, ttl);
            && AfterRound(servers, cluster, claimed, now, ttl) == goal - stale
            && (AfterRound(servers, cluster, claimed, now, ttl) == goal <==> goal !! stale)
  {
    var goal := cluster + (servers.Keys * claimed);
    var stale := set n | n in servers && Stale(servers[n], now, ttl);
    assert AfterRound(servers, cluster, claimed, now, ttl) == goal - stale;
    if goal - stale == goal {
      assert forall n :: n in goal ==> n in goal - stale;
    }
  }

  /** A round has nothing to do exactly when the map has converged and holds nothing stale. */
  lemma NothingToDoMeansConverged(servers: ServerMap, cluster: set<string>, claimed: set<string>, now: int, ttl: int)
    ensures ToAdd(servers, cluster) == {} && ToRemove(servers, cluster, claimed, now, ttl) == {}
        <==> Converged(servers, cluster, claimed) && NothingStale(servers, now, ttl)
  {
    var gone := ToRemove(servers, cluster, claimed, now, ttl);
    if gone == {} {
      forall n | n in servers
        ensures n in cluster + claimed && !Stale(servers[n], now, ttl)
      {
        assert n !in gone;
      }
    }
    if ToAdd(servers, cluster) == {} {
      assert forall n :: n in cluster ==> n !in ToAdd(servers, cluster);
    }
  }

  // ----- starting and stopping several nodes -----

  function Started(servers: ServerMap, nodes: set<string>, spawns: string -> Spawn, now: int): ServerMap {
    servers + map n | n in nodes && n !in servers :: Entry(spawns(n).pid, now)
  }

  function Stopped(servers: ServerMap, nodes: set<string>): ServerMap {
    map n | n in servers && !(n in nodes && HasProcess(servers, n)) :: servers[n]
  }

  // ----- a whole round -----

  /** The map after a round that nothing interrupts: start what is missing, then stop what was found to remove. */
  function RoundMap(servers: ServerMap, cluster: set<string>, claimed: set<string>, now: int, ttl: int,
                    spawns: string -> Spawn): ServerMap {
    Stopped(Started(servers, ToAdd(servers, cluster), spawns, now), ToRemove(servers, cluster, claimed, now, ttl))
  }

  lemma RoundMapKeys(servers: ServerMap, cluster: set<string>, claimed: set<string>, now: int, ttl: int,
                     spawns: string -> Spawn)
    ensures RoundMap(servers, cluster, claimed, now, ttl, spawns).Keys == AfterRound(servers, cluster, claimed, now, ttl)
  {
  }

  /**
   * What a round leaves: a missing node of the cluster is there, with the process its spawn gave; one that
   * had an entry keeps it exactly when it has no process, or was seen within `ttl` and is of the cluster or a client's.
   */
  lemma RoundKeeps(servers: ServerMap, cluster: set<string>, claimed: set<string>, now: int, ttl: int,
                   spawns: string -> Spawn, node: string)
    ensures var after := RoundMap(servers, cluster, claimed, now, ttl, spawns);
            if node in servers then
              && (node in after <==> servers[node].pid.None?
                                     || (now - servers[node].lastSeen <= ttl && (node in cluster || node in claimed)))
              && (node in after ==> after[node] == servers[node])
            else
              (node in after <==> node in cluster) && (node in after ==> after[node] == Entry(spawns(node).pid, now))
  {
  }

  lemma EmptyRound(servers: ServerMap, now: int, spawns: string -> Spawn)
    ensures Stopped(Started(servers, {}, spawns, now), {}) == servers
  {
  }

  /** After a round no collector with a process is stale, as long as new ones are fresh. */
  lemma RoundLeavesNothingStale(servers: ServerMap, cluster: set<string>, claimed: set<string>, now: int, ttl: int,
                                spawns: string -> Spawn)
    requires AllRunning(servers) && (forall n :: spawns(n).pid.Some?) && ttl >= 0
    ensures var after := RoundMap(servers, cluster, claimed, now, ttl, spawns);
            AllRunning(after) && NothingStale(after, now, ttl)
  {
  }

  /**
   * A round at which nothing is stale leaves what the cluster and the clients need, and a round at
   * any later time at which still nothing is stale changes nothing.
   */
  lemma OneRoundConverges(servers: ServerMap, cluster: set<string>, claimed: set<string>, now: int, later: int, ttl: int,
                          spawns: string -> Spawn, spawns': string -> Spawn)
    requires AllRunning(servers) && (forall n :: spawns(n).pid.Some?) && NothingStale(servers, now, ttl)
    ensures var after := RoundMap(servers, cluster, claimed, now, ttl, spawns);
            && after.Keys == cluster + (servers.Keys * claimed)
            && (NothingStale(after, later, ttl) ==>
                  && ToAdd(after, cluster) == {} && ToRemove(after, cluster, claimed, later, ttl) == {}
                  && RoundMap(after, cluster, claimed, later, ttl, spawns') == after)
  {
    var after := RoundMap(servers, cluster, claimed, now, ttl, spawns);
    RoundMapKeys(servers, cluster, claimed, now, ttl, spawns);
    RoundConverges(servers, cluster, claimed, now, ttl);
    NothingToDoMeansConverged(after, cluster, claimed, later, ttl);
  }

  /**
   * Two rounds are enough whatever was stale at the first: it clears that, and the second, if by
   * its time nothing went stale anew, starts it again. Right after the first nothing is stale.
   */
  lemma TwoRoundsConverge(servers: ServerMap, cluster: set<string>, claimed: set<string>, now: int, later: int, ttl: int,
                          spawns: string -> Spawn, spawns': string -> Spawn)
    requires AllRunning(servers) && (forall n :: spawns(n).pid.Some? && spawns'(n).pid.Some?) && ttl >= 0
    ensures var first := RoundMap(servers, cluster, claimed, now, ttl, spawns);
            && NothingStale(first, now, ttl)
            && (NothingStale(first, later, ttl) ==>
                  Converged(RoundMap(first, cluster, claimed, later, ttl, spawns'), cluster, claimed))
  {
    var first := RoundMap(servers, cluster, claimed, now, ttl, spawns);
    RoundLeavesNothingStale(servers, cluster, claimed, now, ttl, spawns);
    if NothingStale(first, later, ttl) {
      OneRoundConverges(first, cluster, claimed, later, later, ttl, spawns', spawns');
    }
  }

  // ----- what the blocks do -----

  datatype State = State(
    servers: ServerMap, keys: map<string, nat>,
    clients: set<string>, clusters: map<string, set<string>>,
    /** The calls to the operating system so far: processes spawned and killed, by node. */
    spawned: multiset<string>, killed: multiset<string>)

  const INITIAL := State(map[], map[], {}, map[], multiset{}, multiset{})

  /** Spawn a collector for a node, whatever entry it has. */
  function StartOne(s: State, node: string, spawn: Spawn, now: int): State {
    s.(keys := s.keys[node := spawn.key],
       spawned := s.spawned + if spawn.pid.Some? then multiset{node} else multiset{},
       servers := s.servers[node := Entry(spawn.pid, now)])
  }

  /** Start those of the nodes that have no entry. */
  function StartAll(s: State, nodes: set<string>, spawns: string -> Spawn, now: int): State {
    var missing := nodes - s.servers.Keys;
    s.(keys := s.keys + KeysFor(missing, spawns),
       spawned := s.spawned + multiset(Yielding(missing, spawns)),
       servers := Started(s.servers, nodes, spawns, now))
  }

  function StopOne(s: State, node: string): State {
    s.(keys := s.keys - {node}, killed := s.killed + multiset{node}, servers := s.servers - {node})
  }

  /** Stop those of the nodes that have a process; an entry without one stays. */
  function StopSome(s: State, nodes: set<string>): State {
    var running := Running(s.servers, nodes);
    s.(keys := s.keys - running, killed := s.killed + multiset(running), servers := Stopped(s.servers, nodes))
  }

  lemma StartedOneMore(servers: ServerMap, done: set<string>, node: string, spawns: string -> Spawn, now: int)
    requires node !in done
    ensures node in Started(servers, done, spawns, now) <==> node in servers
    ensures Started(servers, done + {node}, spawns, now)
         == if node in servers then Started(servers, done, spawns, now)
            else Started(servers, done, spawns, now)[node := Entry(spawns(node).pid, now)]
  {
  }

  function KeysFor(nodes: set<string>, spawns: string -> Spawn): map<string, nat> {
    map n | n in nodes :: spawns(n).key
  }

  /** Those of the nodes whose spawn yields a process. */
  function Yielding(nodes: set<string>, spawns: string -> Spawn): set<string> {
    set n | n in nodes && spawns(n).pid.Some?
  }

  lemma YieldOneMore(nodes: set<string>, node: string, spawns: string -> Spawn)
    requires node !in nodes
    ensures KeysFor(nodes + {node}, spawns) == KeysFor(nodes, spawns)[node := spawns(node).key]
    ensures multiset(Yielding(nodes + {node}, spawns))
         == multiset(Yielding(nodes, spawns)) + if spawns(node).pid.Some? then multiset{node} else multiset{}
  {
    assert Yielding(nodes + {node}, spawns)
        == Yielding(nodes, spawns) + if spawns(node).pid.Some? then {node} else {};
  }

  lemma StartOneMore(s: State, done: set<string>, node: string, spawns: string -> Spawn, now: int)
    requires node !in done
    ensures var t := StartAll(s, done, spawns, now);
            && (node in t.servers <==> node in s.servers)
            && StartAll(s, done + {node}, spawns, now)
               == if node in s.servers then t else StartOne(t, node, spawns(node), now)
  {
    StartedOneMore(s.servers, done, node, spawns, now);
    if node in s.servers {
      assert done + {node} - s.servers.Keys == done - s.servers.Keys;
    } else {
      assert done + {node} - s.servers.Keys == (done - s.servers.Keys) + {node};
      SpawnOneMore(s, done - s.servers.Keys, node, spawns);
    }
  }

  lemma SpawnOneMore(s: State, nodes: set<string>, node: string, spawns: string -> Spawn)
    requires node !in nodes
    ensures s.keys + KeysFor(nodes + {node}, spawns) == (s.keys + KeysFor(nodes, spawns))[node := spawns(node).key]
    ensures s.spawned + multiset(Yielding(nodes + {node}, spawns))
         == s.spawned + multiset(Yielding(nodes, spawns)) + if spawns(node).pid.Some? then multiset{node} else multiset{}
  {
    YieldOneMore(nodes, node, spawns);
  }

  /** The processes among some nodes. */
  function Running(servers: ServerMap, nodes: set<string>): set<string> {
    set n | n in nodes && HasProcess(servers, n)
  }

  lemma StoppedOneMore(servers: ServerMap, done: set<string>, node: string)
    requires node !in done
    ensures HasProcess(Stopped(servers, done), node) <==> HasProcess(servers, node)
    ensures Stopped(servers, done + {node})
         == if HasProcess(servers, node) then Stopped(servers, done) - {node} else Stopped(servers, done)
  {
  }

  lemma StopOneMore(s: State, done: set<string>, node: string)
    requires node !in done
    ensures HasProcess(StopSome(s, done).servers, node) <==> HasProcess(s.servers, node)
    ensures StopSome(s, done + {node})
         == if HasProcess(s.servers, node) then StopOne(StopSome(s, done), node) else StopSome(s, done)
  {
    StoppedOneMore(s.servers, done, node);
    var running := Running(s.servers, done);
    if HasProcess(s.servers, node) {
      assert Running(s.servers, done + {node}) == running + {node};
      assert s.keys - (running + {node}) == s.keys - running - {node};
    } else {
      assert Running(s.servers, done + {node}) == running;
    }
  }

  lemma MoveOver(done: set<string>, rest: set<string>, node: string)
    requires done !! rest && node in rest
    ensures done + {node} !! rest - {node} && done + {node} + (rest - {node}) == done + rest
    ensures |rest - {node}| < |rest|
  {
  }

  // ----- the owner's collectors -----

  class OwnerCollectors {
    const nodeOf: string -> string
    const ttl: int
    var servers: ServerMap
    var collectorKeys: map<string, nat>
    var clients: set<string>
    var clusters: map<string, set<string>>
    var spawned: multiset<string>
    var killed: multiset<string>

    ghost function Now(): State
      reads this
    {
      State(servers, collectorKeys, clients, clusters, spawned, killed)
    }

    /** The nodes some client of the owner is on. */
    function Claimed(): set<string>
      reads this`clients
    {
      set id | id in clients :: nodeOf(id)
    }

    constructor (nodeOf: string -> string, ttl: int)
      ensures Now() == INITIAL && this.nodeOf == nodeOf && this.ttl == ttl
    {
      this.nodeOf, this.ttl := nodeOf, ttl;
      servers, collectorKeys, clients, clusters := map[], map[], {}, map[];
      spawned, killed := multiset{}, multiset{};
    }

    /** Spawn a collector. The spawn may fail to yield a process. */
    method StartMetricsServer(node: string, spawn: Spawn, now: int)
      modifies this`servers, this`collectorKeys, this`spawned
      ensures Now() == StartOne(old(Now()), node, spawn, now)
    {
      collectorKeys := collectorKeys[node := spawn.key];
      if spawn.pid.Some? { spawned := spawned + multiset{node}; }
      servers := servers[node := Entry(spawn.pid, now)];
    }

    /** Start collectors for the nodes that have none; the test and the spawn of a node are one block. */
    method StartMetricsServers(nodes: set<string>, spawns: string -> Spawn, now: int)
      modifies this`servers, this`collectorKeys, this`spawned
      ensures Now() == StartAll(old(Now()), nodes, spawns, now)
    {
      var rest := nodes;
      ghost var was, done := Now(), {};
      while rest != {}
        invariant done !! rest && done + rest == nodes
        invariant Now() == StartAll(was, done, spawns, now)
        decreases |rest|
      {
        var node :| node in rest;
        StartIfMissing(node, spawns, now, was, done);
        MoveOver(done, rest, node);
        done, rest := done + {node}, rest - {node};
      }
      assert done == nodes;
    }

    method StartIfMissing(node: string, spawns: string -> Spawn, now: int, ghost was: State, ghost done: set<string>)
      requires Now() == StartAll(was, done, spawns, now) && node !in done
      modifies this`servers, this`collectorKeys, this`spawned
      ensures Now() == StartAll(was, done + {node}, spawns, now)
    {
      StartOneMore(was, done, node, spawns, now);
      if node !in servers {
        StartMetricsServer(node, spawns(node), now);
      }
    }

    /** Kill a node's process and forget it. An entry without a process stays. */
    method StopMetricsServer(node: string)
      modifies this`servers, this`collectorKeys, this`killed
      ensures Now() == if HasProcess(old(Now()).servers, node) then StopOne(old(Now()), node) else old(Now())
    {
      if node in servers && servers[node].pid.Some? {
        killed := killed + multiset{node};
        servers := servers - {node};
        collectorKeys := collectorKeys - {node};
      }
    }

    method StopMetricsServers(nodes: set<string>)
      modifies this`servers, this`collectorKeys, this`killed
      ensures Now() == StopSome(old(Now()), nodes)
    {
      var rest := nodes;
      ghost var was, done := Now(), {};
      while rest != {}
        invariant done !! rest && done + rest == nodes
        invariant Now() == StopSome(was, done)
        decreases |rest|
      {
        var node :| node in rest;
        StopNext(node, was, done);
        MoveOver(done, rest, node);
        done, rest := done + {node}, rest - {node};
      }
      assert done == nodes;
    }

    method StopNext(node: string, ghost was: State, ghost done: set<string>)
      requires Now() == StopSome(was, done) && node !in done
      modifies this`servers, this`collectorKeys, this`killed
      ensures Now() == StopSome(was, done + {node})
    {
      StopOneMore(was, done, node);
      StopMetricsServer(node);
    }

    /** Compare the map with a cluster, then start and stop what differs, with no other task in between. */
    method ReconcileCluster(clusterId: string, spawns: string -> Spawn, now: int) returns (changed: bool)
      modifies this`servers, this`collectorKeys, this`spawned, this`killed
      ensures var cluster := if clusterId in clusters then clusters[clusterId] else {};
              && servers == RoundMap(old(servers), cluster, Claimed(), now, ttl, spawns)
              && (changed <==> !(Converged(old(servers), cluster, Claimed()) && NothingStale(old(servers), now, ttl)))
              && Now() == if !changed then old(Now())
                          else StopSome(StartAll(old(Now()), ToAdd(old(servers), cluster), spawns, now),
                                        ToRemove(old(servers), cluster, Claimed(), now, ttl))
    {
      var cluster := if clusterId in clusters then clusters[clusterId] else {};
      var nodesToAdd, nodesToRemove := ToAdd(servers, cluster), ToRemove(servers, cluster, Claimed(), now, ttl);
      NothingToDoMeansConverged(servers, cluster, Claimed(), now, ttl);
      EmptyRound(servers, now, spawns);
      changed := nodesToAdd != {} || nodesToRemove != {};
      if changed {
        StartMetricsServers(nodesToAdd, spawns, now);
        StopMetricsServers(nodesToRemove);
      }
    }

    /** Stop the collectors of nodes nothing uses: those stay whose process is missing, and those of a client or a cluster. */
    method PruneCollectors()
      modifies this`servers, this`collectorKeys, this`killed
      ensures Now() == Pruned(old(Now()), nodeOf)
      ensures forall n :: n in servers <==>
                && n in old(servers)
                && (old(servers)[n].pid.None? || (exists id :: id in clients && nodeOf(id) == n)
                    || (exists c :: c in clusters && n in clusters[c]))
      ensures forall n :: n in servers ==> servers[n] == old(servers)[n]
    {
      var unused := set n | n in servers && n !in Claimed() && !(exists c :: c in clusters && n in clusters[c]);
      assert unused == Unused(Now(), nodeOf);
      StopMetricsServers(unused);
    }

    /** A collector registered or pinged. */
    method Seen(node: string, now: int)
      modifies this`servers
      ensures Now() == Pinged(old(Now()), node, now)
    {
      if node in servers {
        servers := servers[node := servers[node].(lastSeen := now)];
      }
    }

    /** Shutdown: kill every process and forget everything. */
    method StopAll()
      modifies this`servers, this`collectorKeys, this`killed
      ensures Now() == Emptied(old(Now()))
    {
      StopMetricsServers(servers.Keys);
      servers, collectorKeys := map[], map[];
    }
  }

  // ----- any interleaving -----

  /** A node is used when a client is on it or one of the owner's clusters lists it. */
  predicate Used(s: State, nodeOf: string -> string, node: string) {
    (exists id :: id in s.clients && nodeOf(id) == node) || exists c :: c in s.clusters && node in s.clusters[c]
  }

  function Unused(s: State, nodeOf: string -> string): set<string> {
    set n | n in s.servers && !Used(s, nodeOf, n)
  }

  function Pruned(s: State, nodeOf: string -> string): State {
    StopSome(s, Unused(s, nodeOf))
  }

  function Pinged(s: State, node: string, now: int): State {
    if node in s.servers then s.(servers := s.servers[node := s.servers[node].(lastSeen := now)]) else s
  }

  function Emptied(s: State): State {
    StopSome(s, s.servers.Keys).(servers := map[], keys := map[])
  }

  /**
   * One block of some task. Tasks act on lists they computed earlier, so a block may get any list.
   * The start of the preconfigured node is the only one that does not look at the map.
   */
  datatype Block =
    | StartNodes(nodes: set<string>, spawns: string -> Spawn, now: int)
    | StartPreconfigured(node: string, spawn: Spawn, now: int)
    | StopNodes(nodes: set<string>)
    | Prune
    | Ping(node: string, now: int)
    | SetClients(clients: set<string>)
    | SetCluster(clusterId: string, nodes: set<string>)
    | DropCluster(clusterId: string)
    | Shutdown

  function Step(s: State, block: Block, nodeOf: string -> string): State {
    match block
    case StartNodes(nodes, spawns, now) => StartAll(s, nodes, spawns, now)
    case StartPreconfigured(node, spawn, now) => StartOne(s, node, spawn, now)
    case StopNodes(nodes) => StopSome(s, nodes)
    case Prune => Pruned(s, nodeOf)
    case Ping(node, now) => Pinged(s, node, now)
    case SetClients(clients) => s.(clients := clients)
    case SetCluster(clusterId, nodes) => s.(clusters := s.clusters[clusterId := nodes])
    case DropCluster(clusterId) => s.(clusters := s.clusters - {clusterId})
    case Shutdown => Emptied(s)
  }

  function Run(blocks: seq<Block>, nodeOf: string -> string): State {
    if blocks == [] then INITIAL else Step(Run(blocks[..|blocks| - 1], nodeOf), blocks[|blocks| - 1], nodeOf)
  }

  /** The preconfigured node is started over an entry with a process, whose process id is lost. */
  predicate Overwrites(s: State, block: Block) {
    block.StartPreconfigured? && HasProcess(s.servers, block.node)
  }

  ghost predicate OverwritesAt(blocks: seq<Block>, nodeOf: string -> string, i: nat) {
    i < |blocks| && Overwrites(Run(blocks[..i], nodeOf), blocks[i])
  }

  /** The nodes whose process was lost, each as often as that happened. */
  function Lost(blocks: seq<Block>, nodeOf: string -> string): multiset<string> {
    if blocks == [] then multiset{}
    else
      var front, last := blocks[..|blocks| - 1], blocks[|blocks| - 1];
      Lost(front, nodeOf) + if Overwrites(Run(front, nodeOf), last) then multiset{last.node} else multiset{}
  }

  /** Every process spawned was killed, or was lost, or is the one the node's entry names. */
  ghost predicate Accounted(s: State, lost: multiset<string>, n: string) {
    s.spawned[n] == s.killed[n] + lost[n] + if HasProcess(s.servers, n) then 1 else 0
  }

  ghost predicate Accounts(s: State, lost: multiset<string>) {
    s.keys.Keys == s.servers.Keys && forall n :: Accounted(s, lost, n)
  }

  lemma StopAccounts(s: State, nodes: set<string>, lost: multiset<string>)
    requires Accounts(s, lost)
    ensures Accounts(StopSome(s, nodes), lost)
  {
    forall n
      ensures Accounted(StopSome(s, nodes), lost, n)
    {
      assert Accounted(s, lost, n);
    }
  }

  lemma StartAccounts(s: State, nodes: set<string>, spawns: string -> Spawn, now: int, lost: multiset<string>)
    requires Accounts(s, lost)
    ensures Accounts(StartAll(s, nodes, spawns, now), lost)
  {
    forall n
      ensures Accounted(StartAll(s, nodes, spawns, now), lost, n)
    {
      assert Accounted(s, lost, n);
    }
  }

  lemma StepAccounts(s: State, block: Block, nodeOf: string -> string, lost: multiset<string>)
    requires Accounts(s, lost)
    ensures Accounts(Step(s, block, nodeOf),
                     lost + if Overwrites(s, block) then multiset{block.node} else multiset{})
  {
    var lost' := lost + if Overwrites(s, block) then multiset{block.node} else multiset{};
    assert !block.StartPreconfigured? ==> lost' == lost;
    match block
    case StartNodes(nodes, spawns, now) => StartAccounts(s, nodes, spawns, now, lost);
    case StopNodes(nodes) => StopAccounts(s, nodes, lost);
    case Prune => StopAccounts(s, Unused(s, nodeOf), lost);
    case Shutdown => EmptiedAccounts(s, lost);
    case _ =>
      forall n
        ensures Accounted(Step(s, block, nodeOf), lost', n)
      {
        assert Accounted(s, lost, n);
      }
  }

  lemma EmptiedAccounts(s: State, lost: multiset<string>)
    requires Accounts(s, lost)
    ensures Accounts(Emptied(s), lost)
  {
    var t := StopSome(s, s.servers.Keys);
    StopAccounts(s, s.servers.Keys, lost);
    forall n
      ensures Accounted(Emptied(s), lost, n)
    {
      assert Accounted(t, lost, n) && !HasProcess(t.servers, n);
    }
  }

  lemma {:induction false} RunAccounts(blocks: seq<Block>, nodeOf: string -> string)
    ensures Accounts(Run(blocks, nodeOf), Lost(blocks, nodeOf))
  {
    if blocks != [] {
      var front := blocks[..|blocks| - 1];
      RunAccounts(front, nodeOf);
      StepAccounts(Run(front, nodeOf), blocks[|blocks| - 1], nodeOf, Lost(front, nodeOf));
    } else {
      assert forall n :: Accounted(INITIAL, multiset{}, n);
    }
  }

  /** Spawns minus kills is one for the nodes with an entry that has a process, and zero for all others. */
  ghost predicate Balanced(s: State) {
    forall n :: Accounted(s, multiset{}, n)
  }

  /**
   * Under any interleaving keys are kept for exactly the nodes with an entry; and spawns minus kills
   * are balanced exactly when the preconfigured node was never started while it had a process.
   */
  lemma RunIsBalancedExactly(blocks: seq<Block>, nodeOf: string -> string)
    ensures Run(blocks, nodeOf).keys.Keys == Run(blocks, nodeOf).servers.Keys
    ensures Balanced(Run(blocks, nodeOf)) <==> forall i: nat :: !OverwritesAt(blocks, nodeOf, i)
  {
    RunAccounts(blocks, nodeOf);
    LostExactly(blocks, nodeOf);
    var s, lost := Run(blocks, nodeOf), Lost(blocks, nodeOf);
    if lost == multiset{} {
      assert Accounts(s, multiset{});
    } else {
      var n :| n in lost;
      assert Accounted(s, lost, n) && !Accounted(s, multiset{}, n);
    }
  }

  lemma {:induction false} LostExactly(blocks: seq<Block>, nodeOf: string -> string)
    ensures Lost(blocks, nodeOf) == multiset{} <==> forall i: nat :: !OverwritesAt(blocks, nodeOf, i)
  {
    if blocks != [] {
      var last := |blocks| - 1;
      var front := blocks[..last];
      LostExactly(front, nodeOf);
      forall i: nat
        ensures OverwritesAt(blocks, nodeOf, i)
           <==> OverwritesAt(front, nodeOf, i) || (i == last && Overwrites(Run(front, nodeOf), blocks[last]))
      {
        if i < last { assert front[..i] == blocks[..i]; }
      }
      assert OverwritesAt(blocks, nodeOf, last) <==> Overwrites(Run(front, nodeOf), blocks[last]);
    }
  }

  /** The last time a node was started, registered or pinged, and the key of its last start, after a block. */
  function NextSign(servers: ServerMap, block: Block, node: string, sign: (int, nat)): (int, nat) {
    match block
    case StartNodes(nodes, spawns, now) => if node in nodes && node !in servers then (now, spawns(node).key) else sign
    case StartPreconfigured(n, spawn, now) => if n == node then (now, spawn.key) else sign
    case Ping(n, now) => if n == node && node in servers then (now, sign.1) else sign
    case _ => sign
  }

  function LastSign(blocks: seq<Block>, nodeOf: string -> string, node: string): (int, nat) {
    if blocks == [] then (0, 0)
    else
      var front := blocks[..|blocks| - 1];
      NextSign(Run(front, nodeOf).servers, blocks[|blocks| - 1], node, LastSign(front, nodeOf, node))
  }

  /** Every entry shows the last sign of its collector, and its key is the one that collector was started with. */
  lemma {:induction false} EntriesShowLastSign(blocks: seq<Block>, nodeOf: string -> string, node: string)
    ensures var s := Run(blocks, nodeOf);
            && (node in s.servers ==> s.servers[node].lastSeen == LastSign(blocks, nodeOf, node).0)
            && (node in s.servers && node in s.keys ==> s.keys[node] == LastSign(blocks, nodeOf, node).1)
            && (node in s.servers <==> node in s.keys)
  {
    if blocks != [] {
      var front := blocks[..|blocks| - 1];
      EntriesShowLastSign(front, nodeOf, node);
      StepShowsLastSign(Run(front, nodeOf), blocks[|blocks| - 1], nodeOf, node, LastSign(front, nodeOf, node));
    }
  }

  lemma {:induction false} StepShowsLastSign(s: State, block: Block, nodeOf: string -> string, node: string, sign: (int, nat))
    requires node in s.servers <==> node in s.keys
    requires node in s.servers ==> s.servers[node].lastSeen == sign.0 && s.keys[node] == sign.1
    ensures var t := Step(s, block, nodeOf); var sign' := NextSign(s.servers, block, node, sign);
            && (node in t.servers <==> node in t.keys)
            && (node in t.servers ==> t.servers[node].lastSeen == sign'.0 && t.keys[node] == sign'.1)
  {
  }

  predicate Yields(block: Block) {
    (block.StartPreconfigured? ==> block.spawn.pid.Some?)
    && (block.StartNodes? ==> forall n :: n in block.nodes ==> block.spawns(n).pid.Some?)
  }

  /** When every spawn yields a process, every entry has one. */
  lemma {:induction false} EveryEntryRuns(blocks: seq<Block>, nodeOf: string -> string)
    requires forall i :: 0 <= i < |blocks| ==> Yields(blocks[i])
    ensures AllRunning(Run(blocks, nodeOf).servers)
  {
    if blocks != [] {
      EveryEntryRuns(blocks[..|blocks| - 1], nodeOf);
      assert Yields(blocks[|blocks| - 1]);
    }
  }

  /** A user connects to the preconfigured node before its own start comes: two processes, one entry. */
  lemma PreconfiguredStartsTwice(node: string, spawns: string -> Spawn, spawn: Spawn, nodeOf: string -> string)
    requires spawns(node).pid.Some? && spawn.pid.Some?
    ensures var s := Run([StartNodes({node}, spawns, 0), StartPreconfigured(node, spawn, 0)], nodeOf);
            s.spawned[node] == 2 && s.killed[node] == 0 && s.servers.Keys == {node}
  {
    RunOfTwo(StartNodes({node}, spawns, 0), StartPreconfigured(node, spawn, 0), nodeOf);
    FirstStart(node, spawns, 0);
    var s1 := StartOne(INITIAL, node, spawns(node), 0);
    assert s1.spawned == multiset{node} && s1.killed == multiset{} && s1.servers.Keys == {node};
  }

  lemma FirstStart(node: string, spawns: string -> Spawn, now: int)
    ensures StartAll(INITIAL, {node}, spawns, now) == StartOne(INITIAL, node, spawns(node), now)
  {
    assert {} - INITIAL.servers.Keys == {};
    assert StartAll(INITIAL, {}, spawns, now) == INITIAL;
    StartOneMore(INITIAL, {}, node, spawns, now);
    assert {} + {node} == {node};
  }

  lemma RunOfTwo(first: Block, second: Block, nodeOf: string -> string)
    ensures Run([first, second], nodeOf) == Step(Step(INITIAL, first, nodeOf), second, nodeOf)
  {
    assert [first, second][..1] == [first] && [first][..0] == [];
    assert Run([first][..0], nodeOf) == INITIAL;
    assert Run([first], nodeOf) == Step(INITIAL, first, nodeOf);
  }
}
