/** Once the facts in the node table stop changing, the cluster status settles. */
module Convergence {
  import opened Common
  import opened ClusterLogic
  import opened SortedStore
  import opened Reconcile
  import opened Sequential

  /** No new failover starts, and heartbeats (fresh identifiers, times, replication details) leave the
      facts as they are. */
  predicate Quiet(e: Event) {
    !(e.Read? && e.o.Failover?)
  }

  ghost predicate KeepsFacts(s: State, e: Event) {
    e.Heartbeat? ==> SameFacts(s.nodes, PutNode(s.nodes, e.n))
  }

  ghost predicate QuietFrom(ss: seq<State>, es: seq<Event>, k: nat) {
    |ss| == |es| + 1 && forall i {:trigger es[i]} | k <= i < |es| :: Quiet(es[i]) && KeepsFacts(ss[i], es[i])
  }

  /** A read that returns the current status, when it is at least the base-th, shows these facts. */
  ghost predicate ShowsFacts(facts: seq<NodeStatus>, base: nat, s: State, e: Event) {
    e.Read? && base <= e.version && e.version == |s.hist| ==> SameFacts(e.nodes, facts)
  }

  /** From event k on every such read shows these facts. */
  ghost predicate FactsShown(ss: seq<State>, es: seq<Event>, k: nat, base: nat, facts: seq<NodeStatus>) {
    |ss| == |es| + 1 && forall i {:trigger es[i]} | k <= i < |es| :: ShowsFacts(facts, base, ss[i], es[i])
  }

  /** e may happen in s, and s is a state of a run. */
  ghost predicate QuietlyEnabled(facts: seq<NodeStatus>, base: nat, s: State, e: Event) {
    && Enabled(s, e) && Quiet(e) && KeepsFacts(s, e) && ShowsFacts(facts, base, s, e)
    && (e.Deliver? ==> Processable(s, e.r))
  }

  /** A run that is quiet from event k on, and shows these facts. */
  ghost predicate QuietRun(c: Reads, ss: seq<State>, es: seq<Event>, k: nat, base: nat, facts: seq<NodeStatus>) {
    IsRun(c, ss, es) && QuietFrom(ss, es, k) && FactsShown(ss, es, k, base, facts)
  }

  /** What the invariant gives for a request about to be processed. */
  ghost predicate Processable(s: State, r: Request) {
    && RequestOk(s.hist, r)
    && (Matches(Current(s.hist), r.read.uuid) <==> r.version == |s.hist|)
    && forall q | q in s.flight :: q.version <= |s.hist|
  }

  lemma RunProcessable(c: Reads, ss: seq<State>, es: seq<Event>, k: nat)
    requires IsRun(c, ss, es) && k < |es| && es[k].Deliver?
    ensures Processable(ss[k], es[k].r)
  {
    InvAlongRun(c, ss, es, k);
    assert Next(ss[k], es[k], ss[k + 1]);
    assert RequestOk(ss[k].hist, es[k].r);
    WinsIffCurrent(ss[k], es[k].r);
    forall q | q in ss[k].flight ensures q.version <= |ss[k].hist| {
      assert RequestOk(ss[k].hist, q);
    }
  }

  lemma QuietStep(c: Reads, ss: seq<State>, es: seq<Event>, k: nat, i: nat, base: nat, facts: seq<NodeStatus>)
    requires QuietRun(c, ss, es, k, base, facts) && k <= i < |es|
    ensures QuietlyEnabled(facts, base, ss[i], es[i]) && ss[i + 1] == Step(ss[i], es[i])
  {
    assert Next(ss[i], es[i], ss[i + 1]);
    if es[i].Deliver? {
      RunProcessable(c, ss, es, i);
    }
  }

  // ---------- who sees the final facts ----------

  lemma {:induction false} FactsStayAlongRun(c: Reads, ss: seq<State>, es: seq<Event>, k: nat, j: nat)
    requires IsRun(c, ss, es) && QuietFrom(ss, es, k) && k <= j < |ss|
    ensures SameFacts(ss[j].nodes, ss[k].nodes)
  {
    if k < j {
      FactsStayAlongRun(c, ss, es, k, j - 1);
      assert Next(ss[j - 1], es[j - 1], ss[j]);
    }
  }

  /** A snapshot always shows the facts that are there. */
  lemma SnapshotsShowFacts(ss: seq<State>, es: seq<Event>, k: nat)
    requires IsRun(Snapshot, ss, es) && QuietFrom(ss, es, k) && k < |ss|
    ensures FactsShown(ss, es, k, 0, ss[k].nodes)
  {
    forall i {:trigger es[i]} | k <= i < |es| ensures ShowsFacts(ss[k].nodes, 0, ss[i], es[i]) {
      if es[i].Read? {
        assert MayRead(Snapshot, ss, es, i);
        FactsStayAlongRun(Snapshot, ss, es, k, i);
      }
    }
  }

  /** Also when statuses and tables may be old, a status committed since is only read together with
      a table that shows the facts. */
  lemma NewStatusShowsFacts(c: Reads, ss: seq<State>, es: seq<Event>, k: nat)
    requires c != Mixed && IsRun(c, ss, es) && QuietFrom(ss, es, k) && k < |ss|
    ensures FactsShown(ss, es, k, |ss[k].hist| + 1, ss[k].nodes)
  {
    forall i {:trigger es[i]} | k <= i < |es| ensures ShowsFacts(ss[k].nodes, |ss[k].hist| + 1, ss[i], es[i]) {
      if es[i].Read? && |ss[k].hist| < es[i].version {
        NewStatusShows(c, ss, es, k, i);
      }
    }
  }

  lemma NewStatusShows(c: Reads, ss: seq<State>, es: seq<Event>, k: nat, i: nat)
    requires c != Mixed && IsRun(c, ss, es) && QuietFrom(ss, es, k) && k <= i < |es|
    requires es[i].Read? && |ss[k].hist| < es[i].version
    ensures SameFacts(es[i].nodes, ss[k].nodes)
  {
    assert MayRead(c, ss, es, i);
    var m := i;
    if c.Lagging? {
      m :| 0 <= m <= i && es[i].version <= |ss[m].hist| && es[i].nodes == ss[m].nodes;
    }
    if m < k {
      EarlierHistory(c, ss, es, m, k);
    }
    FactsStayAlongRun(c, ss, es, k, m);
  }

  // ---------- settled states ----------

  /** r is a daemon's and saw these facts. */
  ghost predicate FromDaemon(facts: seq<NodeStatus>, r: Request) {
    r.origin.Daemon? && SameFacts(r.nodes, facts)
  }

  /** Every request that could still win comes from a daemon that saw these facts. */
  ghost predicate OnlyDaemons(facts: seq<NodeStatus>, s: State) {
    forall r | r in s.flight && r.version == |s.hist| :: FromDaemon(facts, r)
  }

  ghost predicate NothingViable(s: State) {
    forall r | r in s.flight :: r.version != |s.hist|
  }

  ghost predicate Settled(facts: seq<NodeStatus>, s: State) {
    SameFacts(s.nodes, facts) && FixedPoint(Current(s.hist), facts) && NothingViable(s)
  }

  lemma ViableBreaksFixedPoint(facts: seq<NodeStatus>, hist: seq<Request>, r: Request)
    requires RequestOk(hist, r) && r.version == |hist| && FromDaemon(facts, r)
    ensures !FixedPoint(Current(hist), facts)
  {
    ComputeByFacts(ClusterState(r.read, r.nodes), ClusterState(Current(hist), facts));
  }

  lemma DaemonWinIsFixed(facts: seq<NodeStatus>, hist: seq<Request>, r: Request)
    requires RequestOk(hist, r) && FromDaemon(facts, r)
    ensures FixedPoint(r.status, facts)
  {
    ComputedIsFixedPoint(ClusterState(r.read, r.nodes), r.status, facts);
  }

  /** What one read may do to the viable requests while things are quiet. */
  lemma QuietRead(facts: seq<NodeStatus>, base: nat, s: State, e: Event)
    requires e.Read? && QuietlyEnabled(facts, base, s, e) && base <= |s.hist|
    ensures var s' := Step(s, e);
            && (OnlyDaemons(facts, s) ==> OnlyDaemons(facts, s'))
            && (FixedPoint(Current(s.hist), facts) && NothingViable(s) ==> NothingViable(s'))
  {
    var r := ReadRequest(e);
    if e.version == |s.hist| && Changed(e.read, r.status) {
      ComputeByFacts(ClusterState(e.read, e.nodes), ClusterState(Current(s.hist), facts));
    }
  }

  lemma SettledStays(facts: seq<NodeStatus>, base: nat, s: State, e: Event)
    requires QuietlyEnabled(facts, base, s, e) && base <= |s.hist|
    requires Settled(facts, s)
    ensures Settled(facts, Step(s, e)) && Step(s, e).hist == s.hist
  {
    if e.Read? {
      QuietRead(facts, base, s, e);
    }
  }

  /** A daemon's win leaves nothing that could still win, and a status no daemon will change. */
  lemma DaemonWinSettles(facts: seq<NodeStatus>, s: State, r: Request)
    requires Processable(s, r) && r.version == |s.hist| && FromDaemon(facts, r)
    requires SameFacts(s.nodes, facts)
    ensures Settled(facts, DeliverStep(s, r))
  {
    DaemonWinIsFixed(facts, s.hist, r);
  }

  /** In a settled state heartbeats and cycles commit nothing, ever. */
  lemma {:induction false} SettledForever(c: Reads, ss: seq<State>, es: seq<Event>, facts: seq<NodeStatus>,
                                          k: nat, j: nat)
    requires k <= j < |ss| && QuietRun(c, ss, es, k, |ss[k].hist|, facts)
    requires Settled(facts, ss[k])
    ensures Settled(facts, ss[j]) && ss[j].hist == ss[k].hist
  {
    if k < j {
      SettledForever(c, ss, es, facts, k, j - 1);
      SettledNext(c, ss, es, facts, |ss[k].hist|, k, j);
    }
  }

  lemma SettledNext(c: Reads, ss: seq<State>, es: seq<Event>, facts: seq<NodeStatus>, base: nat, k: nat, i: nat)
    requires QuietRun(c, ss, es, k, base, facts) && k < i < |ss|
    requires Settled(facts, ss[i - 1]) && base <= |ss[i - 1].hist|
    ensures Settled(facts, ss[i]) && ss[i].hist == ss[i - 1].hist
  {
    QuietStep(c, ss, es, k, i - 1, base, facts);
    SettledStays(facts, base, ss[i - 1], es[i - 1]);
  }

  /** With snapshot reads nothing more needs to be known about the reads. */
  lemma SettledForeverWithSnapshots(ss: seq<State>, es: seq<Event>, k: nat, j: nat)
    requires IsRun(Snapshot, ss, es) && QuietFrom(ss, es, k) && k <= j < |ss|
    requires Settled(ss[k].nodes, ss[k])
    ensures Settled(ss[k].nodes, ss[j]) && ss[j].hist == ss[k].hist
  {
    SnapshotsShowFacts(ss, es, k);
    SettledForever(Snapshot, ss, es, ss[k].nodes, k, j);
  }

  // ---------- at most two more commits ----------

  /** `base` statuses were committed when things went quiet. */
  ghost predicate Settling(facts: seq<NodeStatus>, base: nat, s: State) {
    && SameFacts(s.nodes, facts)
    && base <= |s.hist|
    && (|s.hist| > base ==> OnlyDaemons(facts, s))
    && (|s.hist| > base + 1 ==> |s.hist| == base + 2 && Settled(facts, s))
  }

  lemma SettlingStep(facts: seq<NodeStatus>, base: nat, s: State, e: Event)
    requires QuietlyEnabled(facts, base + 1, s, e)
    requires Settling(facts, base, s)
    ensures Settling(facts, base, Step(s, e))
  {
    if |s.hist| > base + 1 {
      SettledStays(facts, base + 1, s, e);
    } else if e.Deliver? && e.r.version == |s.hist| {
      if |s.hist| == base + 1 {
        DaemonWinSettles(facts, s, e.r);
      }
    } else if e.Read? && |s.hist| == base + 1 {
      QuietRead(facts, base + 1, s, e);
    }
  }

  lemma {:induction false} SettlingAlongRun(c: Reads, ss: seq<State>, es: seq<Event>, k: nat, j: nat)
    requires k <= j < |ss| && QuietRun(c, ss, es, k, |ss[k].hist| + 1, ss[k].nodes)
    ensures Settling(ss[k].nodes, |ss[k].hist|, ss[j])
  {
    if k < j {
      SettlingAlongRun(c, ss, es, k, j - 1);
      SettlingNext(c, ss, es, k, j, |ss[k].hist|, ss[k].nodes);
    }
  }

  lemma SettlingNext(c: Reads, ss: seq<State>, es: seq<Event>, k: nat, i: nat, base: nat, facts: seq<NodeStatus>)
    requires QuietRun(c, ss, es, k, base + 1, facts) && k < i < |ss| && Settling(facts, base, ss[i - 1])
    ensures Settling(facts, base, ss[i])
  {
    QuietStep(c, ss, es, k, i - 1, base + 1, facts);
    SettlingStep(facts, base, ss[i - 1], es[i - 1]);
  }

  /** Once the facts in the node table stop changing and no new failover starts, at most two more
      statuses are committed, whatever was in flight and however many daemons go on: one by
      a request from before, one that answers it.  After the first only daemons that see the final
      facts can win, after the second nobody, ever.  Mixed reads may bring back old facts for good;
      for them it holds as long as the statuses committed since are read with the final facts. */
  lemma AtMostTwoMoreCommits(c: Reads, ss: seq<State>, es: seq<Event>, k: nat, j: nat)
    requires IsRun(c, ss, es) && QuietFrom(ss, es, k) && k <= j < |ss|
    requires c.Mixed? ==> FactsShown(ss, es, k, |ss[k].hist| + 1, ss[k].nodes)
    ensures |ss[j].hist| <= |ss[k].hist| + 2
    ensures |ss[j].hist| > |ss[k].hist| ==> OnlyDaemons(ss[k].nodes, ss[j])
    ensures |ss[j].hist| == |ss[k].hist| + 2 ==> Settled(ss[k].nodes, ss[j])
  {
    if !c.Mixed? {
      NewStatusShowsFacts(c, ss, es, k);
    }
    SettlingAlongRun(c, ss, es, k, j);
  }

  // ---------- one complete cycle settles ----------

  /** While the history has length `base` only daemons' requests are viable; then it is settled. */
  ghost predicate Calm(facts: seq<NodeStatus>, base: nat, s: State) {
    && SameFacts(s.nodes, facts)
    && base <= |s.hist|
    && (|s.hist| == base ==> OnlyDaemons(facts, s))
    && (|s.hist| != base ==> Settled(facts, s))
  }

  lemma CalmStep(facts: seq<NodeStatus>, base: nat, s: State, e: Event)
    requires QuietlyEnabled(facts, base, s, e)
    requires Calm(facts, base, s)
    ensures Calm(facts, base, Step(s, e))
    ensures e.Deliver? && e.r.version == base ==> Settled(facts, Step(s, e))
  {
    if |s.hist| != base {
      SettledStays(facts, base, s, e);
    } else if e.Deliver? && e.r.version == base {
      DaemonWinSettles(facts, s, e.r);
    } else if e.Read? {
      QuietRead(facts, base, s, e);
    }
  }

  lemma CalmNext(c: Reads, ss: seq<State>, es: seq<Event>, facts: seq<NodeStatus>, base: nat, k: nat, i: nat)
    requires QuietRun(c, ss, es, k, base, facts) && k < i < |ss|
    requires Calm(facts, base, ss[i - 1])
    ensures Calm(facts, base, ss[i])
    ensures es[i - 1].Deliver? && es[i - 1].r.version == base ==> Settled(facts, ss[i])
  {
    QuietStep(c, ss, es, k, i - 1, base, facts);
    CalmStep(facts, base, ss[i - 1], es[i - 1]);
  }

  lemma {:induction false} CalmAlongRun(c: Reads, ss: seq<State>, es: seq<Event>, facts: seq<NodeStatus>,
                                        base: nat, k: nat, j: nat)
    requires QuietRun(c, ss, es, k, base, facts) && k <= j < |ss|
    requires Calm(facts, base, ss[k])
    ensures Calm(facts, base, ss[j])
  {
    if k < j {
      CalmAlongRun(c, ss, es, facts, base, k, j - 1);
      CalmNext(c, ss, es, facts, base, k, j);
    }
  }

  /** When no failover and no daemon that saw other facts can win any more, one daemon cycle that read
      the current status settles it for good, if its write reaches the store, whoever else writes in
      between, or if it finds nothing to change. */
  lemma OneCycleSettles(c: Reads, ss: seq<State>, es: seq<Event>, k: nat, d: nat, j: nat)
    requires IsRun(c, ss, es) && QuietFrom(ss, es, k) && k < d <= j < |ss|
    requires !c.Snapshot? ==> FactsShown(ss, es, k, |ss[k].hist|, ss[k].nodes)
    requires OnlyDaemons(ss[k].nodes, ss[k])
    requires es[k].Read? && es[k].o.Daemon? && es[k].version == |ss[k].hist|
    requires Changed(es[k].read, Proposal(es[k].o, es[k].read, es[k].nodes)) ==>
               es[d - 1] == Deliver(ReadRequest(es[k]))
    ensures Settled(ss[k].nodes, ss[j]) && ss[j].hist == ss[d].hist
  {
    var facts, base := ss[k].nodes, |ss[k].hist|;
    if c.Snapshot? {
      SnapshotsShowFacts(ss, es, k);
    }
    if Changed(es[k].read, Proposal(es[k].o, es[k].read, es[k].nodes)) {
      WriteSettles(c, ss, es, k, d);
    } else {
      InvAlongRun(c, ss, es, k);
      QuietStep(c, ss, es, k, k, base, facts);
      NoChangeMeansSettled(ss[k], es[k]);
      SettledForever(c, ss, es, facts, k, d);
    }
    EarlierHistory(c, ss, es, k, d);
    SettledForever(c, ss, es, facts, d, j);
  }

  lemma WriteSettles(c: Reads, ss: seq<State>, es: seq<Event>, k: nat, d: nat)
    requires k < d < |ss| && QuietRun(c, ss, es, k, |ss[k].hist|, ss[k].nodes)
    requires OnlyDaemons(ss[k].nodes, ss[k]) && es[d - 1].Deliver? && es[d - 1].r.version == |ss[k].hist|
    ensures Settled(ss[k].nodes, ss[d])
  {
    CalmAfter(c, ss, es, k, d - 1);
    CalmNext(c, ss, es, ss[k].nodes, |ss[k].hist|, k, d);
  }

  lemma CalmAfter(c: Reads, ss: seq<State>, es: seq<Event>, k: nat, j: nat)
    requires k <= j < |ss| && QuietRun(c, ss, es, k, |ss[k].hist|, ss[k].nodes)
    requires OnlyDaemons(ss[k].nodes, ss[k])
    ensures Calm(ss[k].nodes, |ss[k].hist|, ss[j])
  {
    CalmAlongRun(c, ss, es, ss[k].nodes, |ss[k].hist|, k, j);
  }

  lemma NoChangeMeansSettled(s: State, e: Event)
    requires e.Read? && e.o.Daemon? && Enabled(s, e) && e.version == |s.hist| && SameFacts(e.nodes, s.nodes)
    requires OnlyDaemons(s.nodes, s) && FlightOk(s)
    requires !Changed(e.read, Proposal(e.o, e.read, e.nodes))
    ensures Settled(s.nodes, s)
  {
    ComputeByFacts(ClusterState(e.read, e.nodes), ClusterState(Current(s.hist), s.nodes));
    forall r | r in s.flight ensures r.version != |s.hist| {
      assert RequestOk(s.hist, r);
      if r.version == |s.hist| {
        ViableBreaksFixedPoint(s.nodes, s.hist, r);
      }
    }
  }

  // ---------- roles once settled ----------

  /** In a settled state every cycle that reads the current status and the facts finds nothing to write
      and is ready to apply the committed status, under which exactly one listed node takes the primary branch
      and every other the replica branch. */
  lemma SettledCyclesAgree(c: Reads, ss: seq<State>, es: seq<Event>, k: nat, n: Name)
    requires IsRun(c, ss, es) && k < |es| && es[k].Read? && es[k].o.Daemon?
    requires Settled(ss[k].nodes, ss[k]) && ss[k].nodes != []
    requires !c.Snapshot? ==> es[k].version == |ss[k].hist| && SameFacts(es[k].nodes, ss[k].nodes)
    ensures var cycle := CycleOf(ss[k + 1], es[k].o.node);
            var p := Current(ss[k].hist).primary;
            && cycle.Ready? && cycle.outcome.Unchanged?
            && RoleOf(cycle.status, n) == RoleOf(Current(ss[k].hist), n)
            && Listed(ss[k].nodes, p)
            && (RoleOf(cycle.status, n) == PrimaryRole <==> n == p)
            && (RoleOf(cycle.status, n) == ReplicaRole(p) <==> n != p && Listed(ss[k].nodes, n))
  {
    assert Next(ss[k], es[k], ss[k + 1]);
    assert MayRead(c, ss, es, k);
    TableSorted(c, ss, es, k);
    SortedNodesAreDistinct(ss[k].nodes);
    ComputeByFacts(ClusterState(es[k].read, es[k].nodes), ClusterState(Current(ss[k].hist), ss[k].nodes));
    OneRoleEach(Current(ss[k].hist), ss[k].nodes, n);
  }

  // ---------- what the nodes end up doing ----------

  predicate IsReadBy(e: Event, n: Name) {
    e.Read? && e.o == Daemon(n)
  }

  /** e reads the current status and these facts. */
  ghost predicate ReadsCurrent(facts: seq<NodeStatus>, s: State, e: Event)
    requires e.Read?
  {
    e.version == |s.hist| && SameFacts(e.nodes, facts)
  }

  ghost predicate ReadsCurrentFrom(ss: seq<State>, es: seq<Event>, k: nat, facts: seq<NodeStatus>, n: Name) {
    && |ss| == |es| + 1
    && forall i {:trigger es[i]} | k <= i < |es| && IsReadBy(es[i], n) :: ReadsCurrent(facts, ss[i], es[i])
  }

  /** A run that is settled and quiet from k on, in which n reads what is there. */
  ghost predicate SettledRun(c: Reads, ss: seq<State>, es: seq<Event>, k: nat, facts: seq<NodeStatus>, n: Name) {
    && k < |ss| && QuietRun(c, ss, es, k, |ss[k].hist|, facts) && Settled(facts, ss[k])
    && ReadsCurrentFrom(ss, es, k, facts, n)
  }

  /** The cycle is over, or about to apply this role of n. */
  predicate HeadsFor(cycle: Cycle, n: Name, role: Role) {
    cycle.Idle? || (cycle.Ready? && RoleOf(cycle.status, n) == role)
  }

  /** One step of a run towards a role of n: it is not lost, and applying leads to it. */
  ghost predicate KeepsCourse(s: State, e: Event, s': State, n: Name, role: Role) {
    && HeadsFor(CycleOf(s', n), n, role)
    && (RoleIn(s, n) == role || e == Apply(n) ==> RoleIn(s', n) == role)
  }

  lemma SettledRead(facts: seq<NodeStatus>, s: State, e: Event, n: Name)
    requires IsReadBy(e, n) && Enabled(s, e) && ReadsCurrent(facts, s, e) && Settled(facts, s)
    ensures KeepsCourse(s, e, Step(s, e), n, RoleOf(Current(s.hist), n))
  {
    ComputeByFacts(ClusterState(e.read, e.nodes), ClusterState(Current(s.hist), facts));
  }

  lemma OtherStep(s: State, e: Event, n: Name, role: Role)
    requires !IsReadBy(e, n) && Enabled(s, e) && HeadsFor(CycleOf(s, n), n, role) && role != NoRole
    ensures KeepsCourse(s, e, Step(s, e), n, role)
  {
  }

  /** Once n has read it keeps its course. */
  ghost predicate CourseStep(s: State, e: Event, s': State, n: Name, role: Role) {
    IsReadBy(e, n) || HeadsFor(CycleOf(s, n), n, role) ==> KeepsCourse(s, e, s', n, role)
  }

  ghost predicate StaysOnCourse(ss: seq<State>, es: seq<Event>, k: nat, n: Name, role: Role) {
    |ss| == |es| + 1 && forall i {:trigger es[i]} | k <= i < |es| :: CourseStep(ss[i], es[i], ss[i + 1], n, role)
  }

  lemma OneCourseStep(c: Reads, ss: seq<State>, es: seq<Event>, k: nat, i: nat, facts: seq<NodeStatus>, n: Name)
    requires SettledRun(c, ss, es, k, facts, n) && k <= i < |es| && RoleOf(Current(ss[k].hist), n) != NoRole
    ensures CourseStep(ss[i], es[i], ss[i + 1], n, RoleOf(Current(ss[k].hist), n))
  {
    SettledForever(c, ss, es, facts, k, i);
    assert Next(ss[i], es[i], ss[i + 1]);
    var role := RoleOf(Current(ss[k].hist), n);
    if IsReadBy(es[i], n) {
      SettledRead(facts, ss[i], es[i], n);
    } else if HeadsFor(CycleOf(ss[i], n), n, role) {
      OtherStep(ss[i], es[i], n, role);
    }
  }

  lemma SettledStaysOnCourse(c: Reads, ss: seq<State>, es: seq<Event>, k: nat, facts: seq<NodeStatus>, n: Name)
    requires SettledRun(c, ss, es, k, facts, n) && RoleOf(Current(ss[k].hist), n) != NoRole
    ensures StaysOnCourse(ss, es, k, n, RoleOf(Current(ss[k].hist), n))
  {
    var role := RoleOf(Current(ss[k].hist), n);
    forall i {:trigger es[i]} | k <= i < |es| ensures CourseStep(ss[i], es[i], ss[i + 1], n, role) {
      OneCourseStep(c, ss, es, k, i, facts, n);
    }
  }

  /** n has read at f and applied a role at a. */
  ghost predicate CycledAt(es: seq<Event>, n: Name, f: nat, a: nat) {
    f < a < |es| && IsReadBy(es[f], n) && es[a] == Apply(n)
  }

  lemma {:induction false} OnCourse(ss: seq<State>, es: seq<Event>, k: nat, n: Name, role: Role,
                                    f: nat, a: nat, j: nat)
    requires StaysOnCourse(ss, es, k, n, role) && k <= f < j < |ss| && CycledAt(es, n, f, a)
    ensures HeadsFor(CycleOf(ss[j], n), n, role) && (a < j ==> RoleIn(ss[j], n) == role)
  {
    if j > f + 1 {
      OnCourse(ss, es, k, n, role, f, a, j - 1);
    }
    assert CourseStep(ss[j - 1], es[j - 1], ss[j], n, role);
  }

  lemma SnapshotsAreCurrent(ss: seq<State>, es: seq<Event>, k: nat, n: Name)
    requires IsRun(Snapshot, ss, es) && QuietFrom(ss, es, k) && k < |ss|
    ensures ReadsCurrentFrom(ss, es, k, ss[k].nodes, n)
  {
    forall i {:trigger es[i]} | k <= i < |es| && IsReadBy(es[i], n) ensures ReadsCurrent(ss[k].nodes, ss[i], es[i]) {
      assert MayRead(Snapshot, ss, es, i);
      FactsStayAlongRun(Snapshot, ss, es, k, i);
    }
  }

  /** A run that is quiet and settled from k on. */
  ghost predicate AtRest(c: Reads, ss: seq<State>, es: seq<Event>, k: nat) {
    IsRun(c, ss, es) && QuietFrom(ss, es, k) && k < |ss| && Settled(ss[k].nodes, ss[k])
  }

  /** In which n reads what is there: with snapshot reads it always does. */
  ghost predicate SeesRest(c: Reads, ss: seq<State>, es: seq<Event>, k: nat, n: Name) {
    && AtRest(c, ss, es, k)
    && (!c.Snapshot? ==> FactsShown(ss, es, k, |ss[k].hist|, ss[k].nodes)
                         && ReadsCurrentFrom(ss, es, k, ss[k].nodes, n))
  }

  /** The role that the committed status gives to a listed node. */
  function SettledRole(s: State, n: Name): Role {
    var p := Current(s.hist).primary;
    if n == p then PrimaryRole else ReplicaRole(p)
  }

  lemma SettledRoleIsRole(c: Reads, ss: seq<State>, es: seq<Event>, k: nat, n: Name)
    requires AtRest(c, ss, es, k) && Listed(ss[k].nodes, n)
    ensures Listed(ss[k].nodes, Current(ss[k].hist).primary)
    ensures RoleOf(Current(ss[k].hist), n) == SettledRole(ss[k], n)
  {
    TableSorted(c, ss, es, k);
    SortedNodesAreDistinct(ss[k].nodes);
    OneRoleEach(Current(ss[k].hist), ss[k].nodes, n);
  }

  /** Convergence reaches the nodes.  In a settled and quiet run a listed node that has completed one
      cycle has the role that the committed status gives it, in every later state, and whatever cycle
      it runs then is over or about to apply that role again. */
  lemma RolesConverge(c: Reads, ss: seq<State>, es: seq<Event>, k: nat, n: Name, f: nat, a: nat, j: nat)
    requires SeesRest(c, ss, es, k, n) && Listed(ss[k].nodes, n)
    requires k <= f && a < j < |ss| && CycledAt(es, n, f, a)
    ensures RoleIn(ss[j], n) == SettledRole(ss[k], n) && HeadsFor(CycleOf(ss[j], n), n, SettledRole(ss[k], n))
    ensures ss[j].hist == ss[k].hist
  {
    if c.Snapshot? {
      SnapshotsShowFacts(ss, es, k);
      SnapshotsAreCurrent(ss, es, k, n);
    }
    SettledRoleIsRole(c, ss, es, k, n);
    SettledStaysOnCourse(c, ss, es, k, ss[k].nodes, n);
    SettledForever(c, ss, es, ss[k].nodes, k, j);
    OnCourse(ss, es, k, n, SettledRole(ss[k], n), f, a, j);
  }

  /** Since event k, n has read, and has applied a role after that, before ss[j]. */
  ghost predicate HasCycled(es: seq<Event>, n: Name, k: nat, j: nat) {
    exists f: nat, a: nat :: k <= f && a < j && CycledAt(es, n, f, a)
  }

  ghost predicate AllCycled(nodes: seq<NodeStatus>, es: seq<Event>, k: nat, j: nat) {
    forall n {:trigger HasCycled(es, n, k, j)} | Listed(nodes, n) :: HasCycled(es, n, k, j)
  }

  ghost predicate AllSeeRest(c: Reads, ss: seq<State>, es: seq<Event>, k: nat) {
    && AtRest(c, ss, es, k)
    && forall n {:trigger SeesRest(c, ss, es, k, n)} | Listed(ss[k].nodes, n) :: SeesRest(c, ss, es, k, n)
  }

  /** Once every listed node has completed one cycle, exactly one of them is configured as primary, the
      committed one, and every other as its replica, in every later state. */
  lemma OnePrimaryForGood(c: Reads, ss: seq<State>, es: seq<Event>, k: nat, j: nat)
    requires AllSeeRest(c, ss, es, k) && k < j < |ss| && AllCycled(ss[k].nodes, es, k, j)
    ensures ss[k].nodes != [] ==> Listed(ss[k].nodes, Current(ss[k].hist).primary)
    ensures forall n | Listed(ss[k].nodes, n) ::
              && (IsPrimary(ss[j], n) <==> n == Current(ss[k].hist).primary)
              && RoleIn(ss[j], n) == SettledRole(ss[k], n)
  {
    if ss[k].nodes != [] {
      SettledRoleIsRole(c, ss, es, k, ss[k].nodes[0].name);
    }
    forall n | Listed(ss[k].nodes, n) ensures RoleIn(ss[j], n) == SettledRole(ss[k], n) {
      assert HasCycled(es, n, k, j) && SeesRest(c, ss, es, k, n);
      var f: nat, a: nat :| k <= f && a < j && CycledAt(es, n, f, a);
      RolesConverge(c, ss, es, k, n, f, a, j);
    }
  }

  lemma SettledForTable(facts: seq<NodeStatus>, s: State)
    requires Settled(facts, s)
    ensures Settled(s.nodes, s)
  {
    ComputeByFacts(ClusterState(Current(s.hist), facts), ClusterState(Current(s.hist), s.nodes));
  }

  /** A daemon reads at k, and its write, if any, has arrived before ss[d]. */
  ghost predicate WriteArrived(es: seq<Event>, k: nat, d: nat) {
    && k < d <= |es| && es[k].Read? && es[k].o.Daemon?
    && (Changed(es[k].read, Proposal(es[k].o, es[k].read, es[k].nodes)) ==> es[d - 1] == Deliver(ReadRequest(es[k])))
  }

  /** From rest to the right roles, with snapshot reads: when things are quiet and only daemons that see
      the facts can still win, one cycle whose write, if any, has arrived, and after it one cycle of
      every listed node, leave exactly one of them configured as primary and the others as its
      replicas, in every later state. */
  lemma OneRoundConverges(ss: seq<State>, es: seq<Event>, k: nat, d: nat, j: nat)
    requires IsRun(Snapshot, ss, es) && QuietFrom(ss, es, k) && k < d < j < |ss|
    requires OnlyDaemons(ss[k].nodes, ss[k]) && WriteArrived(es, k, d) && AllCycled(ss[d].nodes, es, d, j)
    ensures ss[d].nodes != [] ==> Listed(ss[d].nodes, Current(ss[d].hist).primary)
    ensures forall n | Listed(ss[d].nodes, n) ::
              && (IsPrimary(ss[j], n) <==> n == Current(ss[d].hist).primary)
              && RoleIn(ss[j], n) == SettledRole(ss[d], n)
  {
    assert MayRead(Snapshot, ss, es, k);
    OneCycleSettles(Snapshot, ss, es, k, d, d);
    SettledForTable(ss[k].nodes, ss[d]);
    OnePrimaryForGood(Snapshot, ss, es, d, j);
  }
}
