/** The programs that run the protocol: the daemon's reconciliation cycle (pgdaemon/node.go,
    WriteClusterStatusIfChanged of pgdaemon/logic.go) and the failover command (pgdaemon/main.go),
    over the etcd backend. */
module NodeDaemon {
  import opened Common
  import opened ClusterLogic
  import opened SortedStore
  import opened StoreSpec
  import opened EtcdStore
  import opened Reconcile

  datatype Error =
    | FetchFailed(cause: FetchError)
    | WriteFailed
    | ConfigureFailed
    | BouncerFailed
    | NotInCluster
    | NoTarget

  /** What the surroundings of one cycle do: whether the fetch fails, which writes other clients get
      in between the fetch and this client's write, how that write fares, and whether Postgres can
      be configured and PgBouncer started. */
  datatype Environment = Environment(
    fetchFails: bool, others: seq<Op>, fault: Fault, configureFails: bool, bouncerFails: bool)

  function ApplyAll(kvs: seq<Entry>, ops: seq<Op>): seq<Entry> {
    if ops == [] then kvs else EtcdStore.ApplyOp(ApplyAll(kvs, ops[..|ops| - 1]), ops[|ops| - 1])
  }

  /** Other clients' writes, in the order the server processes them. */
  method Serve(server: EtcdServer, ops: seq<Op>)
    modifies server
    ensures server.kvs == ApplyAll(old(server.kvs), ops)
  {
    var i := 0;
    while i < |ops|
      invariant 0 <= i <= |ops|
      invariant server.kvs == ApplyAll(old(server.kvs), ops[..i])
    {
      assert ops[..i + 1][..i] == ops[..i];
      server.kvs := EtcdStore.ApplyOp(server.kvs, ops[i]);
      i := i + 1;
    }
    assert ops[..i] == ops;
  }

  /** Whether a writer that read `before` and proposes `after` writes, and what it goes on with. */
  function GoesOnWith(before: ClusterStatus, after: ClusterStatus, source: Name, uuid: Uuid, time: string)
      : ClusterStatus
  {
    if Changed(before, after) then Stamp(after, source, uuid, time) else after
  }

  function AfterWrite(kvs: seq<Entry>, c: Name, before: ClusterStatus, goesOnWith: ClusterStatus, fault: Fault)
      : seq<Entry>
  {
    if Changed(before, goesOnWith) && !fault.NeverArrived?
    then EtcdStore.ApplyOp(kvs, CasStatus(c, before.uuid, goesOnWith))
    else kvs
  }

  /** The answer does not depend on whether the compare-and-set won. */
  method WriteClusterStatusIfChanged(store: EtcdBackend, oldStatus: ClusterStatus, newStatus: ClusterStatus,
                                     source: Name, uuid: Uuid, time: string, fault: Fault)
      returns (r: Result<(ClusterStatus, bool), Error>)
    modifies store.client
    ensures var s := GoesOnWith(oldStatus, newStatus, source, uuid, time);
            && store.client.kvs == AfterWrite(old(store.client.kvs), store.clusterName, oldStatus, s, fault)
            && r == if Changed(oldStatus, newStatus) && !fault.Answered? then Err(WriteFailed)
                    else Ok((s, Changed(oldStatus, newStatus)))
    ensures var s := GoesOnWith(oldStatus, newStatus, source, uuid, time);
            && MeaningOf(s) == MeaningOf(newStatus)
            && (Changed(oldStatus, newStatus) ==> s.uuid == uuid && s.sourceNode == source && s.sourceTime == time)
            && (!Changed(oldStatus, newStatus) ==> s == newStatus)
  {
    var status := newStatus;
    var changed := ClusterStatusChanged(oldStatus, newStatus);
    if changed {
      status := status.(uuid := uuid);
      status := status.(sourceNode := source);
      status := status.(sourceTime := time);
      var ok := store.AtomicWriteClusterStatus(oldStatus.uuid, status, fault);
      if !ok {
        return Err(WriteFailed);
      }
    }
    return Ok((status, changed));
  }

  // ---------- reporting the node's own status ----------

  datatype ReplicaRow = ReplicaRow(
    clientHostname: Name, state: string, writeLsn: Option<string>, writeLag: Option<string>,
    syncState: Option<string>, replyTime: Option<string>)

  datatype WalReceiver = WalReceiver(senderHost: Name, status: string, writtenLsn: Option<string>)

  datatype PgState =
    PgState(nodeTime: string, isPrimary: bool, replicaRows: seq<ReplicaRow>, walReceiver: Option<WalReceiver>)

  /** Field by field. */
  predicate CopiesRow(replica: NodeReplica, row: ReplicaRow) {
    && replica.hostname == row.clientHostname && replica.state == row.state
    && replica.writeLsn == row.writeLsn && replica.writeLag == row.writeLag
    && replica.syncState == row.syncState && replica.replyTime == row.replyTime
  }

  predicate CopiesReceiver(replication: Option<ReplicationStatus>, w: Option<WalReceiver>) {
    && (replication.Some? <==> w.Some?)
    && (w.Some? ==>
          && replication.value.primaryHost == w.value.senderHost && replication.value.status == w.value.status
          && replication.value.writtenLsn == w.value.writtenLsn)
  }

  /** The status says what Postgres reported, or carries only the error. */
  ghost predicate Reports(status: NodeStatus, name: Name, uuid: Uuid, pg: Result<PgState, string>) {
    && status.name == name && status.uuid == uuid
    && match pg
       case Err(e) => status == NodeStatus(name, uuid, "", Some(e), false, [], None)
       case Ok(p) =>
         && status.error == None && status.time == p.nodeTime && status.isPrimary == p.isPrimary
         && |status.replicas| == |p.replicaRows|
         && (forall i | 0 <= i < |p.replicaRows| :: CopiesRow(status.replicas[i], p.replicaRows[i]))
         && CopiesReceiver(status.replication, p.walReceiver)
  }

  method StoreNodeStatus(store: EtcdBackend, nodeName: Name, pg: Result<PgState, string>, uuid: Uuid, fault: Fault)
      returns (ok: bool, ghost written: NodeStatus)
    requires store.nodeName == nodeName
    modifies store.client
    ensures Reports(written, nodeName, uuid, pg)
    ensures store.client.kvs == if fault.NeverArrived? then old(store.client.kvs)
                                else EtcdStore.ApplyOp(old(store.client.kvs), PutNodeStatus(store.clusterName, written))
    ensures ok <==> fault.Answered?
  {
    var status := NodeStatus(nodeName, uuid, "", None, false, [], None);
    match pg
    case Err(e) =>
      status := status.(error := Some(e));
      ok := store.WriteCurrentNodeStatus(status, fault);
      written := status;
    case Ok(p) =>
      status := status.(time := p.nodeTime, isPrimary := p.isPrimary);
      var replicas: seq<NodeReplica> := [];
      for i := 0 to |p.replicaRows|
        invariant |replicas| == i
        invariant forall j | 0 <= j < i :: CopiesRow(replicas[j], p.replicaRows[j])
      {
        var row := p.replicaRows[i];
        replicas := replicas + [NodeReplica(row.clientHostname, row.state, row.writeLsn, row.writeLag,
                                            row.syncState, row.replyTime)];
      }
      status := status.(replicas := replicas);
      if p.walReceiver.Some? {
        var w := p.walReceiver.value;
        status := status.(replication := Some(ReplicationStatus(w.senderHost, w.status, w.writtenLsn)));
      }
      ok := store.WriteCurrentNodeStatus(status, fault);
      written := status;
  }

  // ---------- tasks ----------

  /** The local Postgres, as far as the protocol is concerned: the role it was last configured for. */
  class PostgresNode {
    var role: Role

    constructor ()
      ensures role == NoRole
    {
      role := NoRole;
    }

    method ConfigureAsPrimary(fails: bool) returns (ok: bool)
      modifies this
      ensures role == if fails then old(role) else PrimaryRole
      ensures ok <==> !fails
    {
      if !fails {
        role := PrimaryRole;
      }
      ok := !fails;
    }

    method ConfigureAsReplica(primary: Name, fails: bool) returns (ok: bool)
      modifies this
      ensures role == if fails then old(role) else ReplicaRole(primary)
      ensures ok <==> !fails
    {
      if !fails {
        role := ReplicaRole(primary);
      }
      ok := !fails;
    }
  }

  /** What a cycle answers that goes on with a status giving its node this role: the first thing that
      fails, and success exactly if nothing does. */
  ghost predicate Answers(r: Result<Role, Error>, sent: bool, role: Role, env: Environment) {
    var stopped := sent && !env.fault.Answered?;
    && (r == Err(WriteFailed) <==> stopped)
    && (r == Err(NotInCluster) <==> !stopped && role == NoRole)
    && (r == Err(ConfigureFailed) <==> !stopped && role != NoRole && env.configureFails)
    && (r == Err(BouncerFailed) <==> !stopped && role != NoRole && !env.configureFails && env.bouncerFails)
    && (r == Ok(role) <==> !stopped && role != NoRole && !env.configureFails && !env.bouncerFails)
  }

  function FetchResult(kvs: seq<Entry>, c: Name, env: Environment): Result<ClusterState, FetchError> {
    if env.fetchFails then Err(Unavailable) else EtcdStore.Fetch(kvs, c)
  }

  /** The outcome of one daemon cycle that started with this store content. */
  ghost predicate TasksDone(before: seq<Entry>, after: seq<Entry>, roleBefore: Role, roleAfter: Role,
                            r: Result<Role, Error>, c: Name, n: Name, uuid: Uuid, time: string, env: Environment)
  {
    var fetched := FetchResult(before, c, env);
    if fetched.Err? then
      r == Err(FetchFailed(fetched.error)) && after == before && roleAfter == roleBefore
    else
      var read := fetched.value.status;
      var proposal := Proposal(Daemon(n), read, fetched.value.nodes);
      var s := GoesOnWith(read, proposal, n, uuid, time);
      && after == AfterWrite(ApplyAll(before, env.others), c, read, s, env.fault)
      && Answers(r, Changed(read, proposal), RoleOf(s, n), env)
      && roleAfter == if r.Ok? || r == Err(BouncerFailed) then RoleOf(s, n) else roleBefore
  }

  method PerformNodeTasks(store: EtcdBackend, nodeName: Name, pg: PostgresNode, uuid: Uuid, time: string,
                          env: Environment)
      returns (r: Result<Role, Error>)
    modifies store.client, pg
    ensures TasksDone(old(store.client.kvs), store.client.kvs, old(pg.role), pg.role, r,
                      store.clusterName, nodeName, uuid, time, env)
  {
    var fetched := store.FetchClusterState(env.fetchFails);
    if fetched.Err? {
      return Err(FetchFailed(fetched.error));
    }
    var state := fetched.value;

    var newStatus := ComputeNewClusterStatus(state);
    Serve(store.client, env.others);
    var w := WriteClusterStatusIfChanged(store, state.status, newStatus, nodeName, uuid, time, env.fault);
    if w.Err? {
      return Err(w.error);
    }
    state := state.(status := w.value.0);

    if state.status.primary == nodeName {
      var ok := pg.ConfigureAsPrimary(env.configureFails);
      if !ok {
        return Err(ConfigureFailed);
      }
    } else if nodeName in Items(state.status.replicas) {
      var ok := pg.ConfigureAsReplica(state.status.primary, env.configureFails);
      if !ok {
        return Err(ConfigureFailed);
      }
    } else {
      return Err(NotInCluster);
    }
    if env.bouncerFails {
      return Err(BouncerFailed);
    }
    return Ok(pg.role);
  }

  /** A cycle reports the node's status first and goes on whether or not that worked. */
  method PerformReconciliationCycle(store: EtcdBackend, nodeName: Name, pgState: Result<PgState, string>,
                                    pg: PostgresNode, nodeUuid: Uuid, nodeFault: Fault, uuid: Uuid, time: string,
                                    env: Environment)
      returns (r: Result<Role, Error>, ghost written: NodeStatus)
    requires store.nodeName == nodeName
    modifies store.client, pg
    ensures Reports(written, nodeName, nodeUuid, pgState)
    ensures var reported := if nodeFault.NeverArrived? then old(store.client.kvs)
                            else EtcdStore.ApplyOp(old(store.client.kvs), PutNodeStatus(store.clusterName, written));
            TasksDone(reported, store.client.kvs, old(pg.role), pg.role, r,
                      store.clusterName, nodeName, uuid, time, env)
  {
    var ok: bool;
    ok, written := StoreNodeStatus(store, nodeName, pgState, nodeUuid, nodeFault);
    r := PerformNodeTasks(store, nodeName, pg, uuid, time, env);
  }

  /** What a failover writes: health, reasons and replicas stay as they were read. */
  function Rewritten(read: ClusterStatus, target: Name, uuid: Uuid, time: string): (s: ClusterStatus)
    ensures MeaningOf(s) == Meaning(read.health, Items(read.reasons), target, Items(read.replicas))
    ensures s.uuid == uuid && s.sourceNode == "pgdaemon CLI" && s.sourceTime == time
  {
    ClusterStatus(uuid, "pgdaemon CLI", time, read.health, read.reasons, target, read.replicas)
  }

  /** The outcome of one failover command.  It answers whether it initiated anything, not whether its
      write won. */
  ghost predicate FailoverDone(before: seq<Entry>, after: seq<Entry>, r: Result<bool, Error>,
                               c: Name, target: Name, uuid: Uuid, time: string, env: Environment)
  {
    var fetched := FetchResult(before, c, env);
    if target == "" then r == Err(NoTarget) && after == before
    else if fetched.Err? then r == Err(FetchFailed(fetched.error)) && after == before
    else
      var read, met := fetched.value.status, ApplyAll(before, env.others);
      && (if target == read.primary || env.fault.NeverArrived? then after == met
          else after == EtcdStore.ApplyOp(met, CasStatus(c, read.uuid, Rewritten(read, target, uuid, time))))
      && r == if target != read.primary && !env.fault.Answered? then Err(WriteFailed) else Ok(target != read.primary)
  }

  method Failover(store: EtcdBackend, target: Name, uuid: Uuid, time: string, env: Environment)
      returns (r: Result<bool, Error>)
    modifies store.client
    ensures FailoverDone(old(store.client.kvs), store.client.kvs, r, store.clusterName, target, uuid, time, env)
  {
    if target == "" {
      return Err(NoTarget);
    }
    var fetched := store.FetchClusterState(env.fetchFails);
    if fetched.Err? {
      return Err(FetchFailed(fetched.error));
    }
    var newStatus := fetched.value.status;
    newStatus := newStatus.(primary := target);
    Serve(store.client, env.others);
    var w := WriteClusterStatusIfChanged(store, fetched.value.status, newStatus, "pgdaemon CLI", uuid, time, env.fault);
    if w.Err? {
      return Err(w.error);
    }
    return Ok(w.value.1);
  }
}
