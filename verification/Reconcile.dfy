/** Leaderless reconciliation as a transition system: any number of daemons and failover commands
    read the cluster state, compute a status and compare-and-set it, in any interleaving. */
module Reconcile {
  import opened Common
  import opened ClusterLogic
  import opened SortedStore

  /** What a fetch may return.
      Snapshot: the status and the node table as they are (etcd's range read).
      Lagging: a table that was current at some point, and a status that is not newer than it.
      Mixed: any status ever committed, and of each node nothing or any value ever written, as a
      DynamoDB query may answer that does not ask for consistent reads. */
  datatype Reads = Snapshot | Lagging | Mixed

  datatype Origin = Daemon(node: Name) | Failover(target: Name)

  /** A compare-and-set on its way to the store.  `version` is auxiliary: how many statuses had been
      committed when the status it read was current. */
  datatype Request =
    Request(origin: Origin, read: ClusterStatus, nodes: seq<NodeStatus>, version: nat, status: ClusterStatus)

  datatype Outcome = Unchanged | Won(index: nat) | Lost(count: nat)

  /** Where a daemon's cycle stands: between read and write, or about to apply its role. */
  datatype Cycle =
    | Idle
    | Waiting(r: Request)
    | Ready(status: ClusterStatus, read: ClusterStatus, version: nat, outcome: Outcome)

  /** The store holds the status of the last of `hist`, the history of winning requests. */
  datatype State = State(nodes: seq<NodeStatus>, hist: seq<Request>, flight: set<Request>,
                         cycles: map<Name, Cycle>, used: set<Uuid>, roles: map<Name, Role>)

  datatype Event =
    | Heartbeat(n: NodeStatus)
    | Read(o: Origin, version: nat, nodes: seq<NodeStatus>, read: ClusterStatus, uuid: Uuid, time: string)
    | Deliver(r: Request)
    | Drop(r: Request)
    | Abort(node: Name)
    | Apply(node: Name)

  function StatusAt(hist: seq<Request>, k: nat): ClusterStatus
    requires k <= |hist|
  {
    if k == 0 then ZERO_STATUS else hist[k - 1].status
  }

  function Current(hist: seq<Request>): ClusterStatus {
    StatusAt(hist, |hist|)
  }

  /** Reading back may turn an empty slice into nil or the other way round, nothing else. */
  predicate Recoded(stored: ClusterStatus, read: ClusterStatus) {
    && read.uuid == stored.uuid && read.sourceNode == stored.sourceNode && read.sourceTime == stored.sourceTime
    && !Changed(stored, read)
  }

  function Proposal(o: Origin, read: ClusterStatus, nodes: seq<NodeStatus>): ClusterStatus {
    match o
    case Daemon(_) => Compute(ClusterState(read, nodes))
    case Failover(target) => read.(primary := target)
  }

  function SourceName(o: Origin): Name {
    if o.Daemon? then o.node else "pgdaemon CLI"
  }

  function Stamp(status: ClusterStatus, source: Name, uuid: Uuid, time: string): ClusterStatus {
    status.(uuid := uuid, sourceNode := source, sourceTime := time)
  }

  predicate Matches(current: ClusterStatus, prev: Uuid) {
    current.uuid == prev
  }

  function CycleOf(s: State, n: Name): Cycle {
    if n in s.cycles then s.cycles[n] else Idle
  }

  /** The role that node n last applied. */
  function RoleIn(s: State, n: Name): Role {
    if n in s.roles then s.roles[n] else NoRole
  }

  predicate Init(s: State) {
    s == State([], [], {}, map[], {}, map[])
  }

  predicate Enabled(s: State, e: Event) {
    match e
    case Heartbeat(n) => n.name != ""
    case Read(o, version, _, read, uuid, _) =>
      && version <= |s.hist| && Recoded(StatusAt(s.hist, version), read)
      && uuid != NIL && uuid !in s.used
      && (o.Daemon? ==> o.node != "" && CycleOf(s, o.node).Idle?)
      && (o.Failover? ==> o.target != "")
    case Deliver(r) => r in s.flight
    case Drop(r) => r in s.flight
    case Abort(_) => true
    case Apply(n) => CycleOf(s, n).Ready?
  }

  function ReadRequest(e: Event): Request
    requires e.Read?
  {
    Request(e.o, e.read, e.nodes, e.version, Stamp(Proposal(e.o, e.read, e.nodes), SourceName(e.o), e.uuid, e.time))
  }

  function ReadStep(s: State, e: Event): State
    requires e.Read?
  {
    var proposal := Proposal(e.o, e.read, e.nodes);
    var changed := Changed(e.read, proposal);
    var r := ReadRequest(e);
    var cycle := if changed then Waiting(r) else Ready(proposal, e.read, e.version, Unchanged);
    s.(flight := if changed then s.flight + {r} else s.flight,
       cycles := if e.o.Daemon? then s.cycles[e.o.node := cycle] else s.cycles,
       used := s.used + {e.uuid})
  }

  function OutcomeOf(hist: seq<Request>, r: Request): Outcome {
    if Matches(Current(hist), r.read.uuid) then Won(|hist|) else Lost(|hist|)
  }

  /** The store processes a request.  A lost compare-and-set is not an error: a daemon that still
      waits for the answer goes on with the status it computed. */
  function DeliverStep(s: State, r: Request): State {
    var won := Matches(Current(s.hist), r.read.uuid);
    var answered := r.origin.Daemon? && CycleOf(s, r.origin.node) == Waiting(r);
    s.(hist := if won then s.hist + [r] else s.hist,
       flight := s.flight - {r},
       cycles := if answered
                 then s.cycles[r.origin.node := Ready(r.status, r.read, r.version, OutcomeOf(s.hist, r))]
                 else s.cycles)
  }

  /** A node that is neither primary nor replica reports an error and leaves Postgres as it is. */
  function Applied(roles: map<Name, Role>, n: Name, role: Role): map<Name, Role> {
    if role.NoRole? then roles else roles[n := role]
  }

  function Step(s: State, e: Event): State
    requires e.Apply? ==> CycleOf(s, e.node).Ready?
  {
    match e
    case Heartbeat(n) => s.(nodes := PutNode(s.nodes, n))
    case Read(_, _, _, _, _, _) => ReadStep(s, e)
    case Deliver(r) => DeliverStep(s, r)
    case Drop(r) => s.(flight := s.flight - {r})
    case Abort(n) => s.(cycles := s.cycles[n := Idle])
    case Apply(n) => s.(cycles := s.cycles[n := Idle], roles := Applied(s.roles, n, RoleOf(CycleOf(s, n).status, n)))
  }

  predicate Next(s: State, e: Event, s': State) {
    Enabled(s, e) && s' == Step(s, e)
  }

  ghost predicate WasWritten(es: seq<Event>, i: nat, n: NodeStatus) {
    exists j :: 0 <= j < i <= |es| && es[j] == Heartbeat(n)
  }

  /** Whether the read es[i] may return this version and this table. */
  ghost predicate MayRead(c: Reads, ss: seq<State>, es: seq<Event>, i: nat)
    requires |ss| == |es| + 1 && i < |es| && es[i].Read?
  {
    var version, nodes := es[i].version, es[i].nodes;
    match c
    case Snapshot => version == |ss[i].hist| && nodes == ss[i].nodes
    case Lagging => exists m :: 0 <= m <= i && version <= |ss[m].hist| && nodes == ss[m].nodes
    case Mixed => SortedNodes(nodes) && forall n | n in nodes :: WasWritten(es, i, n)
  }

  ghost predicate IsRun(c: Reads, ss: seq<State>, es: seq<Event>) {
    && |ss| == |es| + 1
    && Init(ss[0])
    && (forall i {:trigger es[i]} | 0 <= i < |es| :: Next(ss[i], es[i], ss[i + 1]))
    && forall i | 0 <= i < |es| && es[i].Read? :: MayRead(c, ss, es, i)
  }

  // ---------- the invariant ----------

  ghost predicate UuidsOk(s: State) {
    && (forall i | 0 <= i < |s.hist| :: s.hist[i].status.uuid != NIL && s.hist[i].status.uuid in s.used)
    && (forall i, j | 0 <= i < j < |s.hist| :: s.hist[i].status.uuid != s.hist[j].status.uuid)
    && (forall r | r in s.flight :: r.status.uuid != NIL && r.status.uuid in s.used)
    && (forall r, i | r in s.flight && 0 <= i < |s.hist| :: s.hist[i].status.uuid != r.status.uuid)
    && (forall r, q | r in s.flight && q in s.flight && r.status.uuid == q.status.uuid :: r == q)
  }

  /** The request rewrites, in meaning, the status that was current at its version. */
  ghost predicate RequestOk(hist: seq<Request>, r: Request) {
    && r.version <= |hist|
    && Recoded(StatusAt(hist, r.version), r.read)
    && Changed(r.read, r.status)
    && r.status == Stamp(Proposal(r.origin, r.read, r.nodes), SourceName(r.origin), r.status.uuid, r.status.sourceTime)
    && (r.origin.Failover? ==> r.origin.target != "")
  }

  /** Where the status a daemon is about to apply comes from. */
  ghost predicate ReadyOk(hist: seq<Request>, cycle: Cycle) {
    cycle.Ready? ==>
      && cycle.version <= |hist|
      && Recoded(StatusAt(hist, cycle.version), cycle.read)
      && match cycle.outcome
         case Unchanged => cycle.version > 0 && !Changed(StatusAt(hist, cycle.version), cycle.status)
         case Won(i) => i == cycle.version < |hist| && hist[i].status == cycle.status
         case Lost(count) => cycle.version < count <= |hist|
  }

  ghost predicate FlightOk(s: State) {
    forall r | r in s.flight :: RequestOk(s.hist, r)
  }

  ghost predicate HistoryOk(hist: seq<Request>) {
    forall i | 0 <= i < |hist| :: hist[i].version == i && RequestOk(hist, hist[i])
  }

  ghost predicate CyclesOk(s: State) {
    forall n | n in s.cycles :: ReadyOk(s.hist, s.cycles[n])
  }

  ghost predicate Inv(s: State) {
    UuidsOk(s) && FlightOk(s) && HistoryOk(s.hist) && CyclesOk(s)
  }

  /** A compare-and-set wins exactly when nothing was committed since the status it read. */
  lemma WinsIffCurrent(s: State, r: Request)
    requires UuidsOk(s) && RequestOk(s.hist, r)
    ensures Matches(Current(s.hist), r.read.uuid) <==> r.version == |s.hist|
  {
    if 0 < r.version < |s.hist| {
      assert s.hist[r.version - 1].status.uuid != s.hist[|s.hist| - 1].status.uuid;
    }
  }

  lemma UuidsAfterRead(s: State, e: Event)
    requires UuidsOk(s) && Enabled(s, e) && e.Read?
    ensures UuidsOk(ReadStep(s, e))
  {
  }

  lemma UuidsAfterDelivery(s: State, r: Request)
    requires UuidsOk(s) && r in s.flight
    ensures UuidsOk(DeliverStep(s, r))
  {
  }

  lemma UuidsKept(s: State, e: Event)
    requires UuidsOk(s) && Enabled(s, e)
    ensures UuidsOk(Step(s, e))
  {
    if e.Read? {
      UuidsAfterRead(s, e);
    } else if e.Deliver? {
      UuidsAfterDelivery(s, e.r);
    }
  }

  /** A request stays what it is while the history grows. */
  lemma RequestLater(h: seq<Request>, h': seq<Request>, r: Request)
    requires h <= h' && RequestOk(h, r)
    ensures RequestOk(h', r)
  {
  }

  lemma ReadRequestOk(s: State, e: Event)
    requires Enabled(s, e) && e.Read? && Changed(e.read, Proposal(e.o, e.read, e.nodes))
    ensures RequestOk(s.hist, ReadRequest(e))
  {
  }

  lemma RequestsKept(s: State, e: Event)
    requires Inv(s) && Enabled(s, e)
    ensures FlightOk(Step(s, e))
  {
    var s' := Step(s, e);
    forall r | r in s'.flight ensures RequestOk(s'.hist, r) {
      if r in s.flight {
        RequestLater(s.hist, s'.hist, r);
      } else {
        ReadRequestOk(s, e);
      }
    }
  }

  lemma HistoryKept(s: State, e: Event)
    requires Inv(s) && Enabled(s, e)
    ensures HistoryOk(Step(s, e).hist)
  {
    if e.Deliver? {
      WinsIffCurrent(s, e.r);
      var h := Step(s, e).hist;
      forall i | 0 <= i < |h| ensures h[i].version == i && RequestOk(h, h[i]) {
        if i < |s.hist| {
          assert RequestOk(s.hist, s.hist[i]);
        }
      }
    }
  }

  lemma ReadyLater(h: seq<Request>, h': seq<Request>, cycle: Cycle)
    requires h <= h' && ReadyOk(h, cycle)
    ensures ReadyOk(h', cycle)
  {
  }

  lemma AnswerReady(s: State, r: Request)
    requires UuidsOk(s) && RequestOk(s.hist, r)
    ensures ReadyOk(DeliverStep(s, r).hist, Ready(r.status, r.read, r.version, OutcomeOf(s.hist, r)))
  {
    WinsIffCurrent(s, r);
  }

  lemma UnchangedReady(s: State, e: Event)
    requires e.Read? && e.o.Daemon? && e.version <= |s.hist| && Recoded(StatusAt(s.hist, e.version), e.read)
    requires !Changed(e.read, Proposal(e.o, e.read, e.nodes))
    ensures ReadyOk(s.hist, Ready(Proposal(e.o, e.read, e.nodes), e.read, e.version, Unchanged))
  {
  }

  /** Changing one cycle while the history grows keeps the others. */
  lemma OneCycleChanges(s: State, s': State, n: Name, cycle: Cycle)
    requires CyclesOk(s) && s.hist <= s'.hist
    requires s'.cycles == s.cycles[n := cycle] && ReadyOk(s'.hist, cycle)
    ensures CyclesOk(s')
  {
    forall m | m in s'.cycles ensures ReadyOk(s'.hist, s'.cycles[m]) {
      if m != n {
        ReadyLater(s.hist, s'.hist, s.cycles[m]);
      }
    }
  }

  lemma SameCycles(s: State, s': State)
    requires CyclesOk(s) && s.hist <= s'.hist && s'.cycles == s.cycles
    ensures CyclesOk(s')
  {
    forall m | m in s'.cycles ensures ReadyOk(s'.hist, s'.cycles[m]) {
      ReadyLater(s.hist, s'.hist, s.cycles[m]);
    }
  }

  lemma CyclesKept(s: State, e: Event)
    requires Inv(s) && Enabled(s, e)
    ensures CyclesOk(Step(s, e))
  {
    var s' := Step(s, e);
    if s'.cycles == s.cycles {
      SameCycles(s, s');
    } else if e.Deliver? {
      AnswerReady(s, e.r);
      OneCycleChanges(s, s', e.r.origin.node, s'.cycles[e.r.origin.node]);
    } else if e.Read? {
      if !Changed(e.read, Proposal(e.o, e.read, e.nodes)) {
        UnchangedReady(s, e);
      }
      OneCycleChanges(s, s', e.o.node, s'.cycles[e.o.node]);
    } else {
      OneCycleChanges(s, s', e.node, Idle);
    }
  }

  lemma StepKeepsInv(s: State, e: Event)
    requires Inv(s) && Enabled(s, e)
    ensures Inv(Step(s, e)) && s.hist <= Step(s, e).hist
  {
    UuidsKept(s, e);
    RequestsKept(s, e);
    HistoryKept(s, e);
    CyclesKept(s, e);
  }

  lemma {:induction false} InvAlongRun(c: Reads, ss: seq<State>, es: seq<Event>, i: nat)
    requires IsRun(c, ss, es) && i < |ss|
    ensures Inv(ss[i])
  {
    if i == 0 {
    } else {
      InvAlongRun(c, ss, es, i - 1);
      assert Next(ss[i - 1], es[i - 1], ss[i]);
      NextKeepsInv(ss[i - 1], es[i - 1], ss[i]);
    }
  }

  lemma NextKeepsInv(s: State, e: Event, s': State)
    requires Inv(s) && Next(s, e, s')
    ensures Inv(s') && s.hist <= s'.hist
  {
    StepKeepsInv(s, e);
  }

  lemma {:induction false} HistoryGrows(c: Reads, ss: seq<State>, es: seq<Event>, i: nat, j: nat)
    requires IsRun(c, ss, es) && i <= j < |ss|
    ensures ss[i].hist <= ss[j].hist
  {
    if i < j {
      HistoryGrows(c, ss, es, i, j - 1);
      assert Next(ss[j - 1], es[j - 1], ss[j]);
    }
  }

  /** The cycle lost its compare-and-set and is about to apply its status all the same. */
  ghost predicate IsLost(cycle: Cycle) {
    cycle.Ready? && cycle.outcome.Lost?
  }

  // ---------- where applied roles come from ----------

  /** Every role a node applies is its role in a committed status, unless its cycle lost the
      compare-and-set: then some status was committed after the one it read and before its own
      write was processed, and it applies the status it had computed all the same. */
  lemma RolesComeFromCommits(c: Reads, ss: seq<State>, es: seq<Event>, k: nat)
    requires IsRun(c, ss, es) && k < |es| && es[k].Apply?
    ensures var n := es[k].node;
            var h := ss[k].hist;
            var cycle := CycleOf(ss[k], n);
            && cycle.Ready? && cycle.version <= |h|
            && ss[k + 1].roles == Applied(ss[k].roles, n, RoleOf(cycle.status, n))
            && (cycle.outcome.Unchanged? ==>
                  cycle.version > 0 && RoleOf(cycle.status, n) == RoleOf(StatusAt(h, cycle.version), n))
            && (cycle.outcome.Won? ==> cycle.version < |h| && cycle.status == h[cycle.version].status)
            && (cycle.outcome.Lost? ==> cycle.version < cycle.outcome.count <= |h|)
  {
    InvAlongRun(c, ss, es, k);
    assert Next(ss[k], es[k], ss[k + 1]);
    var n := es[k].node;
    assert n in ss[k].cycles;
    assert ReadyOk(ss[k].hist, ss[k].cycles[n]);
  }

  /** Every committed status rewrites its immediate predecessor: it is what the daemon's computation
      or the failover makes of it, it differs from it in meaning, and its UUID is new. */
  lemma CommitsRewriteTheirPredecessor(c: Reads, ss: seq<State>, es: seq<Event>, k: nat, i: nat)
    requires IsRun(c, ss, es) && k < |ss| && i < |ss[k].hist|
    ensures var h := ss[k].hist;
            var r := h[i];
            && MeaningOf(r.read) == MeaningOf(StatusAt(h, i))
            && MeaningOf(r.status) == MeaningOf(Proposal(r.origin, StatusAt(h, i), r.nodes))
            && Changed(StatusAt(h, i), r.status)
            && forall j | 0 <= j < i :: h[j].status.uuid != r.status.uuid
  {
    InvAlongRun(c, ss, es, k);
    var h := ss[k].hist;
    var r := h[i];
    assert RequestOk(h, r);
    if r.origin.Daemon? {
      ComputeByFacts(ClusterState(r.read, r.nodes), ClusterState(StatusAt(h, i), r.nodes));
    }
  }

  /** A winning failover changes the primary into its target, which it was not, and nothing else that
      counts: health, reasons and replicas stay those of the status before. */
  lemma FailoverMovesOnlyPrimary(c: Reads, ss: seq<State>, es: seq<Event>, k: nat, i: nat)
    requires IsRun(c, ss, es) && k < |ss| && i < |ss[k].hist| && ss[k].hist[i].origin.Failover?
    ensures var before, after := StatusAt(ss[k].hist, i), ss[k].hist[i].status;
            && after.primary == ss[k].hist[i].origin.target && after.primary != before.primary && after.primary != ""
            && after.health == before.health
            && Items(after.reasons) == Items(before.reasons) && Items(after.replicas) == Items(before.replicas)
  {
    InvAlongRun(c, ss, es, k);
    assert RequestOk(ss[k].hist, ss[k].hist[i]);
  }

  /** A daemon's winning write describes the table it read: primary, replicas, reasons and health are
      what ClusterLogic.Describes says, relative to the primary committed before. */
  lemma DaemonCommitsDescribe(c: Reads, ss: seq<State>, es: seq<Event>, k: nat, i: nat)
      returns (places: seq<nat>, cuts: seq<nat>)
    requires IsRun(c, ss, es) && k < |ss| && i < |ss[k].hist| && ss[k].hist[i].origin.Daemon?
    ensures var r := ss[k].hist[i];
            && RightChoice(r.nodes, StatusAt(ss[k].hist, i).primary, r.status.primary)
            && Describes(r.status.(uuid := r.read.uuid, sourceNode := r.read.sourceNode,
                                   sourceTime := r.read.sourceTime),
                         ClusterState(r.read, r.nodes), places, cuts)
  {
    InvAlongRun(c, ss, es, k);
    var r := ss[k].hist[i];
    assert RequestOk(ss[k].hist, r);
    places, cuts := ComputeDescribes(ClusterState(r.read, r.nodes));
  }

  // ---------- where commits come from ----------

  /** Every request in flight was computed by a read of the run. */
  lemma {:induction false} RequestWasRead(c: Reads, ss: seq<State>, es: seq<Event>, k: nat, r: Request) returns (f: nat)
    requires IsRun(c, ss, es) && k < |ss| && r in ss[k].flight
    ensures f < k && es[f].Read? && ReadRequest(es[f]) == r
  {
    assert Next(ss[k - 1], es[k - 1], ss[k]);
    if r in ss[k - 1].flight {
      f := RequestWasRead(c, ss, es, k - 1, r);
    } else {
      f := k - 1;
    }
  }

  /** Every commit is signed: it carries the UUID that its read drew, the time of its writer, and the
      name of the daemon that computed it, or that of the command line tool. */
  lemma CommitsAreSigned(c: Reads, ss: seq<State>, es: seq<Event>, k: nat, i: nat) returns (f: nat)
    requires IsRun(c, ss, es) && k < |ss| && i < |ss[k].hist|
    ensures f < k && es[f].Read? && es[f].o == ss[k].hist[i].origin
    ensures var status := ss[k].hist[i].status;
            && status.uuid == es[f].uuid && status.sourceTime == es[f].time
            && status.sourceNode == if es[f].o.Daemon? then es[f].o.node else "pgdaemon CLI"
  {
    var d := CommitWasDelivered(c, ss, es, k, i);
    f := RequestWasRead(c, ss, es, d, ss[k].hist[i]);
  }

  /** Commit i was delivered when exactly the i commits before it were in the store. */
  lemma {:induction false} CommitWasDelivered(c: Reads, ss: seq<State>, es: seq<Event>, k: nat, i: nat) returns (d: nat)
    requires IsRun(c, ss, es) && k < |ss| && i < |ss[k].hist|
    ensures d < k && es[d] == Deliver(ss[k].hist[i]) && ss[k].hist[i] in ss[d].flight
    ensures |ss[d].hist| == i && |ss[d + 1].hist| == i + 1
  {
    assert Next(ss[k - 1], es[k - 1], ss[k]);
    if i < |ss[k - 1].hist| {
      d := CommitWasDelivered(c, ss, es, k - 1, i);
    } else {
      d := k - 1;
    }
  }

  /** Unless reads are mixed, a request that can still win saw a table that was the node table
      while the status it read was current. */
  lemma ViableSawCurrent(c: Reads, ss: seq<State>, es: seq<Event>, k: nat, r: Request) returns (m: nat, f: nat)
    requires c != Mixed && IsRun(c, ss, es) && k < |ss| && r in ss[k].flight && r.version == |ss[k].hist|
    ensures m <= f < k && es[f].Read? && ReadRequest(es[f]) == r && (c.Snapshot? ==> m == f)
    ensures |ss[m].hist| == r.version && ss[m].nodes == r.nodes
  {
    f := RequestWasRead(c, ss, es, k, r);
    assert MayRead(c, ss, es, f);
    m := f;
    if c.Lagging? {
      m :| 0 <= m <= f && r.version <= |ss[m].hist| && r.nodes == ss[m].nodes;
    }
    HistoryGrows(c, ss, es, m, k);
  }

  // ---------- the node table ----------

  lemma {:induction false} TableSorted(c: Reads, ss: seq<State>, es: seq<Event>, k: nat)
    requires IsRun(c, ss, es) && k < |ss|
    ensures SortedNodes(ss[k].nodes) && !Listed(ss[k].nodes, "")
  {
    if k > 0 {
      TableSorted(c, ss, es, k - 1);
      assert Next(ss[k - 1], es[k - 1], ss[k]);
      if es[k - 1].Heartbeat? {
        PutNodeSorted(ss[k - 1].nodes, es[k - 1].n);
        PutNodeLists(ss[k - 1].nodes, es[k - 1].n, "");
      }
    }
  }

  /** The table only gains names. */
  lemma {:induction false} NamesStay(c: Reads, ss: seq<State>, es: seq<Event>, i: nat, j: nat, n: Name)
    requires IsRun(c, ss, es) && i <= j < |ss| && Listed(ss[i].nodes, n)
    ensures Listed(ss[j].nodes, n)
  {
    if i < j {
      NamesStay(c, ss, es, i, j - 1, n);
      assert Next(ss[j - 1], es[j - 1], ss[j]);
      if es[j - 1].Heartbeat? {
        PutNodeLists(ss[j - 1].nodes, es[j - 1].n, n);
      }
    }
  }

  lemma {:induction false} TableWasWritten(c: Reads, ss: seq<State>, es: seq<Event>, k: nat, n: NodeStatus)
    requires IsRun(c, ss, es) && k < |ss| && n in ss[k].nodes
    ensures WasWritten(es, k, n)
  {
    assert Next(ss[k - 1], es[k - 1], ss[k]);
    if n in ss[k - 1].nodes {
      TableWasWritten(c, ss, es, k - 1, n);
    } else {
      PutNodeMembers(ss[k - 1].nodes, es[k - 1].n, n);
      assert es[k - 1] == Heartbeat(n);
    }
  }

  /** Under every mode a fetch lists each node once, in name order. */
  lemma ReadsAreSorted(c: Reads, ss: seq<State>, es: seq<Event>, f: nat)
    requires IsRun(c, ss, es) && f < |es| && es[f].Read?
    ensures SortedNodes(es[f].nodes)
  {
    assert MayRead(c, ss, es, f);
    if c.Snapshot? {
      TableSorted(c, ss, es, f);
    } else if c.Lagging? {
      var m :| 0 <= m <= f && es[f].version <= |ss[m].hist| && es[f].nodes == ss[m].nodes;
      TableSorted(c, ss, es, m);
    }
  }

  /** Each mode allows what the stricter one allows. */
  lemma ModesAreNested(ss: seq<State>, es: seq<Event>)
    ensures IsRun(Snapshot, ss, es) ==> IsRun(Lagging, ss, es)
    ensures IsRun(Lagging, ss, es) ==> IsRun(Mixed, ss, es)
  {
    if IsRun(Snapshot, ss, es) {
      forall i | 0 <= i < |es| && es[i].Read? ensures MayRead(Lagging, ss, es, i) {
        assert MayRead(Snapshot, ss, es, i);
      }
    }
    if IsRun(Lagging, ss, es) {
      forall i | 0 <= i < |es| && es[i].Read? ensures MayRead(Mixed, ss, es, i) {
        LaggingIsMixed(ss, es, i);
      }
    }
  }

  lemma LaggingIsMixed(ss: seq<State>, es: seq<Event>, i: nat)
    requires IsRun(Lagging, ss, es) && i < |es| && es[i].Read?
    ensures MayRead(Mixed, ss, es, i)
  {
    ReadsAreSorted(Lagging, ss, es, i);
    assert MayRead(Lagging, ss, es, i);
    var m :| 0 <= m <= i && es[i].version <= |ss[m].hist| && es[i].nodes == ss[m].nodes;
    forall n | n in es[i].nodes ensures WasWritten(es, i, n) {
      TableWasWritten(Lagging, ss, es, m, n);
    }
  }

  // ---------- partitions ----------

  /** A daemon's winning write settles the table it saw: the status is a fixed point for it and
      partitions it, also when the status it replaced was a failover's and did not. */
  lemma DaemonCommitsPartition(c: Reads, ss: seq<State>, es: seq<Event>, k: nat, i: nat)
    requires IsRun(c, ss, es) && k < |ss| && i < |ss[k].hist| && ss[k].hist[i].origin.Daemon?
    ensures var r := ss[k].hist[i];
            && FixedPoint(r.status, r.nodes)
            && (r.nodes != [] ==> Partitions(r.status, r.nodes))
  {
    InvAlongRun(c, ss, es, k);
    var r := ss[k].hist[i];
    assert RequestOk(ss[k].hist, r);
    ComputedIsFixedPoint(ClusterState(r.read, r.nodes), r.status, r.nodes);
    if r.nodes != [] {
      var d := CommitWasDelivered(c, ss, es, k, i);
      var f := RequestWasRead(c, ss, es, d, r);
      ReadsAreSorted(c, ss, es, f);
      SortedNodesAreDistinct(r.nodes);
      FixedPointPartitions(r.status, r.nodes);
    }
  }

  /** A winning failover always breaks a partition: it moves the primary and leaves the replicas. */
  lemma FailoverBreaksPartition(c: Reads, ss: seq<State>, es: seq<Event>, k: nat, i: nat, nodes: seq<NodeStatus>)
    requires IsRun(c, ss, es) && k < |ss| && i < |ss[k].hist| && ss[k].hist[i].origin.Failover?
    requires Partitions(StatusAt(ss[k].hist, i), nodes)
    ensures !Partitions(ss[k].hist[i].status, nodes)
  {
    InvAlongRun(c, ss, es, k);
    var r := ss[k].hist[i];
    assert RequestOk(ss[k].hist, r);
    var target := r.origin.target;
    if Listed(nodes, target) {
      assert target in Items(StatusAt(ss[k].hist, i).replicas);
    }
  }

  /** Under every read mode a daemon's winning write keeps a chosen primary exactly when that primary
      is in the node table the daemon read. */
  lemma PrimaryKeptIffListed(c: Reads, ss: seq<State>, es: seq<Event>, k: nat, i: nat)
    requires IsRun(c, ss, es) && k < |ss| && i < |ss[k].hist| && ss[k].hist[i].origin.Daemon?
    requires StatusAt(ss[k].hist, i).primary != ""
    ensures var p := StatusAt(ss[k].hist, i).primary;
            ss[k].hist[i].status.primary == p <==> Listed(ss[k].hist[i].nodes, p)
  {
    InvAlongRun(c, ss, es, k);
    assert RequestOk(ss[k].hist, ss[k].hist[i]);
  }
}
