/** Concrete runs of the reconciliation protocol that show where its guarantees end. */
module ReconcileWitness {
  import opened Common
  import opened ClusterLogic
  import opened SortedStore
  import opened Reconcile
  import opened Sequential
  import opened Convergence

  // ---------- building runs ----------

  const EMPTY := State([], [], {}, map[], {}, map[])

  ghost predicate Leads(c: Reads, ss: seq<State>, es: seq<Event>, s: State) {
    IsRun(c, ss, es) && ss[|ss| - 1] == s
  }

  lemma Extended(c: Reads, ss: seq<State>, es: seq<Event>, s: State, e: Event, s': State)
    requires Leads(c, ss, es, s) && Next(s, e, s')
    requires e.Read? ==> MayRead(c, ss + [s'], es + [e], |es|)
    ensures Leads(c, ss + [s'], es + [e], s')
  {
    var ss', es' := ss + [s'], es + [e];
    forall i {:trigger es'[i]} | 0 <= i < |es'| ensures Next(ss'[i], es'[i], ss'[i + 1]) {
      if i < |es| {
        assert es'[i] == es[i];
      }
    }
    forall i | 0 <= i < |es'| && es'[i].Read? ensures MayRead(c, ss', es', i) {
      if i < |es| {
        assert es'[i] == es[i];
        StillRead(c, ss, es, e, s', i);
      }
    }
  }

  lemma StillRead(c: Reads, ss: seq<State>, es: seq<Event>, e: Event, s': State, i: nat)
    requires |ss| == |es| + 1 && i < |es| && es[i].Read? && MayRead(c, ss, es, i)
    ensures MayRead(c, ss + [s'], es + [e], i)
  {
    if c.Lagging? {
      var m :| 0 <= m <= i && es[i].version <= |ss[m].hist| && es[i].nodes == ss[m].nodes;
      assert (ss + [s'])[m] == ss[m];
    }
    if c.Mixed? {
      forall n | n in es[i].nodes ensures WasWritten(es + [e], i, n) {
        StillWritten(es, e, i, n);
      }
    }
  }

  lemma StillWritten(es: seq<Event>, e: Event, i: nat, n: NodeStatus)
    requires WasWritten(es, i, n)
    ensures WasWritten(es + [e], i, n)
  {
    var j :| 0 <= j < i <= |es| && es[j] == Heartbeat(n);
    assert (es + [e])[j] == Heartbeat(n);
  }

  /** No cycle that lost its compare-and-set applied its status. */
  ghost predicate NoLostApplied(ss: seq<State>, es: seq<Event>)
    requires |es| <= |ss|
  {
    forall j {:trigger es[j]} | 0 <= j < |es| :: es[j].Apply? ==> !IsLost(CycleOf(ss[j], es[j].node))
  }

  /** A run with snapshot reads in which that is so. */
  ghost predicate CleanRun(ss: seq<State>, es: seq<Event>, s: State) {
    Leads(Snapshot, ss, es, s) && NoLostApplied(ss, es)
  }

  ghost predicate Reachable(s: State) {
    exists ss, es :: CleanRun(ss, es, s)
  }

  lemma Begin()
    ensures Reachable(EMPTY)
  {
    assert CleanRun([EMPTY], [], EMPTY);
  }

  lemma After(s: State, e: Event, s': State)
    requires Reachable(s) && Next(s, e, s')
    requires e.Read? ==> e.version == |s.hist| && e.nodes == s.nodes
    requires e.Apply? ==> !IsLost(CycleOf(s, e.node))
    ensures Reachable(s')
  {
    var ss, es :| CleanRun(ss, es, s);
    Extended(Snapshot, ss, es, s, e, s');
    assert CleanRun(ss + [s'], es + [e], s');
  }

  lemma RunTo(s: State) returns (ss: seq<State>, es: seq<Event>)
    requires Reachable(s)
    ensures CleanRun(ss, es, s) && NoBlindLoss(ss, es, |es|)
  {
    ss, es :| CleanRun(ss, es, s);
  }

  const A: Name := "a"
  const B: Name := "b"

  // a reports an error, b is fine
  const NODE_A := NodeStatus(A, 1, "", Some("down"), false, [], None)
  const NODE_B := NodeStatus(B, 2, "", None, false, [], None)

  // what a computes when it is alone, and what b computes when it sees both
  const ALONE := ClusterStatus(3, A, "", Unhealthy, Elems([HasError(A)]), A, NilSlice)
  const BOTH := ClusterStatus(4, B, "", Unhealthy,
                              Elems([HasError(A), NotIntendedReplica(B), NotReplicating(B)]), B, Elems([A]))

  lemma ComputedAlone()
    ensures Stamp(Compute(ClusterState(ZERO_STATUS, [NODE_A])), A, 3, "") == ALONE
  {
    var nodes := [NODE_A];
    assert nodes[..0] == [];
    assert SelectPrimary(nodes, "") == A;
    assert OthersThan(nodes, A) == [];
    assert AllReasons(nodes, A, []) == [HasError(A)];
  }

  lemma ReasonsUnderB()
    ensures OthersThan([NODE_A, NODE_B], B) == [A]
    ensures AllReasons([NODE_A, NODE_B], B, [A]) == [HasError(A), NotIntendedReplica(B), NotReplicating(B)]
  {
    var nodes := [NODE_A, NODE_B];
    assert nodes[..1] == [NODE_A] && nodes[..1][..0] == [];
    assert OthersThan([NODE_A], B) == [A];
    assert AllReasons([NODE_A], B, [A]) == [HasError(A)];
  }

  lemma ComputedBoth()
    ensures Stamp(Compute(ClusterState(ZERO_STATUS, [NODE_A, NODE_B])), B, 4, "") == BOTH
  {
    var nodes := [NODE_A, NODE_B];
    assert nodes[..1] == [NODE_A] && nodes[..1][..0] == [];
    PickPrimaryPrefix(nodes, 1);
    assert SelectPrimary(nodes, "") == B;
    ReasonsUnderB();
  }

  // ---------- a lost cycle applies what was never committed ----------

  const REQ_A := Request(Daemon(A), ZERO_STATUS, [NODE_A], 0, ALONE)
  const REQ_B := Request(Daemon(B), ZERO_STATUS, [NODE_A, NODE_B], 0, BOTH)

  const A_SENT := State([NODE_A], [], {REQ_A}, map[A := Waiting(REQ_A)], {3}, map[])
  const BOTH_SENT :=
    State([NODE_A, NODE_B], [], {REQ_A, REQ_B}, map[A := Waiting(REQ_A), B := Waiting(REQ_B)], {3, 4}, map[])
  const A_READY := Ready(ALONE, ZERO_STATUS, 0, Won(0))
  const B_READY := Ready(BOTH, ZERO_STATUS, 0, Lost(1))
  const BOTH_READY := State([NODE_A, NODE_B], [REQ_A], {}, map[A := A_READY, B := B_READY], {3, 4}, map[])
  const A_APPLIED := BOTH_READY.(cycles := map[A := Idle, B := B_READY], roles := map[A := PrimaryRole])
  const TWO_PRIMARIES :=
    State([NODE_A, NODE_B], [REQ_A], {}, map[A := Idle, B := Idle], {3, 4}, map[A := PrimaryRole, B := PrimaryRole])

  lemma ReachASent()
    ensures Reachable(A_SENT)
  {
    Begin();
    var s1 := EMPTY.(nodes := [NODE_A]);
    After(EMPTY, Heartbeat(NODE_A), s1);
    ComputedAlone();
    After(s1, Read(Daemon(A), 0, [NODE_A], ZERO_STATUS, 3, ""), A_SENT);
  }

  lemma PutB()
    ensures PutNode([NODE_A], NODE_B) == [NODE_A, NODE_B]
  {
    assert !Less(B, A);
    assert [NODE_A][1..] == [];
  }

  const BOTH_LISTED := A_SENT.(nodes := [NODE_A, NODE_B])

  lemma ReachBothListed()
    ensures Reachable(BOTH_LISTED)
  {
    ReachASent();
    PutB();
    After(A_SENT, Heartbeat(NODE_B), BOTH_LISTED);
  }

  const READ_BOTH := Read(Daemon(B), 0, [NODE_A, NODE_B], ZERO_STATUS, 4, "")

  lemma ReadBothStep()
    ensures Next(BOTH_LISTED, READ_BOTH, BOTH_SENT)
  {
    ComputedBoth();
  }

  lemma ReachBothSent()
    ensures Reachable(BOTH_SENT)
  {
    ReachBothListed();
    ReadBothStep();
    After(BOTH_LISTED, READ_BOTH, BOTH_SENT);
  }

  const A_WON := BOTH_SENT.(hist := [REQ_A], flight := {REQ_B}, cycles := map[A := A_READY, B := Waiting(REQ_B)])

  lemma ReachBothReady()
    ensures Reachable(BOTH_READY)
  {
    ReachBothSent();
    After(BOTH_SENT, Deliver(REQ_A), A_WON);
    After(A_WON, Deliver(REQ_B), BOTH_READY);
  }

  lemma ReachAApplied()
    ensures Reachable(A_APPLIED)
  {
    ReachBothReady();
    After(BOTH_READY, Apply(A), A_APPLIED);
  }

  /** A lost compare-and-set is no error, so two nodes can both take the primary branch, one of
      them for a status that was never committed.  A single blind loss is enough. */
  lemma LostCycleAppliesItsOwnStatus() returns (ss: seq<State>, es: seq<Event>)
    ensures Leads(Snapshot, ss, es, TWO_PRIMARIES)
    ensures IsPrimary(TWO_PRIMARIES, A) && IsPrimary(TWO_PRIMARIES, B) && Failovers(TWO_PRIMARIES.hist) == 0
    ensures !WasPrimary(TWO_PRIMARIES.hist, B)
    ensures var last := |es| - 1;
            && last >= 0 && NoBlindLoss(ss, es, last)
            && es[last] == Apply(B) && LosesBlindly(CycleOf(ss[last], B))
  {
    ReachAApplied();
    var ss0, es0 := RunTo(A_APPLIED);
    Extended(Snapshot, ss0, es0, A_APPLIED, Apply(B), TWO_PRIMARIES);
    ss, es := ss0 + [TWO_PRIMARIES], es0 + [Apply(B)];
    assert ss[|es0|] == A_APPLIED;
  }

  // ---------- a failover overlaps with the old primary ----------

  const OVERRULED := ALONE.(uuid := 5, sourceNode := "pgdaemon CLI", primary := B)
  const REQ_F := Request(Failover(B), ALONE, [NODE_A, NODE_B], 1, OVERRULED)
  const TAKEN_OVER := BOTH.(uuid := 6)
  const REQ_T := Request(Daemon(B), OVERRULED, [NODE_A, NODE_B], 2, TAKEN_OVER)

  const A_ACTS := State([NODE_A], [REQ_A], {}, map[A := Idle], {3}, map[A := PrimaryRole])
  const MOVED := State([NODE_A, NODE_B], [REQ_A, REQ_F], {}, map[A := Idle], {3, 5}, map[A := PrimaryRole])
  const B_ASKS := MOVED.(flight := {REQ_T}, cycles := map[A := Idle, B := Waiting(REQ_T)], used := {3, 5, 6})
  const OVERLAP := State([NODE_A, NODE_B], [REQ_A, REQ_F, REQ_T], {}, map[A := Idle, B := Idle], {3, 5, 6},
                         map[A := PrimaryRole, B := PrimaryRole])

  const A_ALONE := A_SENT.(hist := [REQ_A], flight := {}, cycles := map[A := A_READY])

  lemma ReachAActs()
    ensures Reachable(A_ACTS)
  {
    ReachASent();
    After(A_SENT, Deliver(REQ_A), A_ALONE);
    After(A_ALONE, Apply(A), A_ACTS);
  }

  const B_JOINS := A_ACTS.(nodes := [NODE_A, NODE_B])
  const F_ASKS := B_JOINS.(flight := {REQ_F}, used := {3, 5})

  lemma ReachFAsks()
    ensures Reachable(F_ASKS)
  {
    ReachAActs();
    PutB();
    After(A_ACTS, Heartbeat(NODE_B), B_JOINS);
    After(B_JOINS, Read(Failover(B), 1, [NODE_A, NODE_B], ALONE, 5, ""), F_ASKS);
  }

  lemma ReachMoved()
    ensures Reachable(MOVED)
  {
    ReachFAsks();
    After(F_ASKS, Deliver(REQ_F), MOVED);
  }

  const READ_T := Read(Daemon(B), 2, [NODE_A, NODE_B], OVERRULED, 6, "")

  lemma TakeOverRequested()
    ensures ReadRequest(READ_T) == REQ_T && Changed(OVERRULED, Proposal(Daemon(B), OVERRULED, [NODE_A, NODE_B]))
  {
    var nodes := [NODE_A, NODE_B];
    assert nodes[..1] == [NODE_A];
    assert nodes[1].name == B && Listed(nodes, B);
    assert SelectPrimary(nodes, B) == B;
    ReasonsUnderB();
  }

  lemma ReachBAsks()
    ensures Reachable(B_ASKS)
  {
    ReachMoved();
    TakeOverRequested();
    assert {3, 5} + {6} == {3, 5, 6};
    After(MOVED, READ_T, B_ASKS);
  }

  const B_WON := B_ASKS.(hist := [REQ_A, REQ_F, REQ_T], flight := {},
                         cycles := map[A := Idle, B := Ready(TAKEN_OVER, OVERRULED, 2, Won(2))])

  /** After a failover the new primary acts before the old one has noticed, although every cycle
      applied a committed status: no cycle lost, blindly or not. */
  lemma FailoverOverlaps() returns (ss: seq<State>, es: seq<Event>)
    ensures CleanRun(ss, es, OVERLAP) && NoBlindLoss(ss, es, |es|)
    ensures IsPrimary(OVERLAP, A) && IsPrimary(OVERLAP, B)
  {
    ReachBAsks();
    After(B_ASKS, Deliver(REQ_T), B_WON);
    After(B_WON, Apply(B), OVERLAP);
    ss, es := RunTo(OVERLAP);
  }

  // ---------- every failover may cost two changes of the primary ----------

  /** a is alone, idle and primary. */
  ghost predicate AloneInOffice(s: State) {
    Reachable(s) && s.nodes == [NODE_A] && CycleOf(s, A).Idle? && Current(s.hist).primary == A
  }

  ghost predicate Commits(s: State, o: Origin, s': State) {
    && Reachable(s') && s'.nodes == s.nodes && CycleOf(s', A).Idle? && |s'.hist| == |s.hist| + 1
    && s'.hist[..|s.hist|] == s.hist && s'.hist[|s.hist|].origin == o
    && Current(s'.hist).primary == Proposal(o, Current(s.hist), s.nodes).primary
  }

  function ReadNow(s: State, o: Origin, uuid: Uuid): Event {
    Read(o, |s.hist|, s.nodes, Current(s.hist), uuid, "")
  }

  lemma Asks(s: State, o: Origin) returns (s': State, r: Request)
    requires Reachable(s) && CycleOf(s, A).Idle? && (o == Daemon(A) || (o.Failover? && o.target != ""))
    requires Proposal(o, Current(s.hist), s.nodes).primary != Current(s.hist).primary
    ensures Reachable(s') && r in s'.flight && r.origin == o && Matches(Current(s'.hist), r.read.uuid)
    ensures s'.nodes == s.nodes && s'.hist == s.hist
    ensures r.status.primary == Proposal(o, Current(s.hist), s.nodes).primary
  {
    var uuid := UnusedUuid(s.used);
    var e := ReadNow(s, o, uuid);
    r := ReadRequest(e);
    s' := Step(s, e);
    After(s, e, s');
  }

  /** An undisturbed operation of a, or of a failover command, that moves the primary. */
  lemma CommitsAlone(s: State, o: Origin) returns (s': State)
    requires Reachable(s) && CycleOf(s, A).Idle? && (o == Daemon(A) || (o.Failover? && o.target != ""))
    requires Proposal(o, Current(s.hist), s.nodes).primary != Current(s.hist).primary
    ensures Commits(s, o, s')
  {
    var asked, r := Asks(s, o);
    var won := DeliverStep(asked, r);
    After(asked, Deliver(r), won);
    s' := won.(cycles := won.cycles[A := Idle]);
    After(won, Abort(A), s');
  }

  lemma OnlyAIsChosen(status: ClusterStatus)
    ensures Compute(ClusterState(status, [NODE_A])).primary == A
  {
    assert [NODE_A][..0] == [];
  }

  lemma FirstInOffice() returns (s: State)
    ensures AloneInOffice(s) && PrimaryChanges(s.hist) == 1 && Failovers(s.hist) == 0
  {
    Begin();
    var s1 := EMPTY.(nodes := [NODE_A]);
    After(EMPTY, Heartbeat(NODE_A), s1);
    OnlyAIsChosen(ZERO_STATUS);
    s := CommitsAlone(s1, Daemon(A));
  }

  /** A failover to a name that no node has, which a undoes. */
  lemma MovedAndBack(s: State) returns (s': State)
    requires AloneInOffice(s)
    ensures AloneInOffice(s')
    ensures PrimaryChanges(s'.hist) == PrimaryChanges(s.hist) + 2 && Failovers(s'.hist) == Failovers(s.hist) + 1
  {
    var moved := CommitsAlone(s, Failover("x"));
    OnlyAIsChosen(Current(moved.hist));
    s' := CommitsAlone(moved, Daemon(A));
    assert s'.hist[..|moved.hist|] == moved.hist;
  }

  lemma {:induction false} MovedAndBackOften(k: nat) returns (s: State)
    ensures AloneInOffice(s) && Failovers(s.hist) == k && PrimaryChanges(s.hist) == 1 + 2 * k
  {
    if k == 0 {
      s := FirstInOffice();
    } else {
      var before := MovedAndBackOften(k - 1);
      s := MovedAndBack(before);
    }
  }

  /** The bound of 1 + 2k changes of the primary is attained for every number k of failovers. */
  lemma EveryFailoverCostsTwo(k: nat) returns (ss: seq<State>, es: seq<Event>)
    ensures IsRun(Snapshot, ss, es)
    ensures var h := ss[|ss| - 1].hist; Failovers(h) == k && PrimaryChanges(h) == 1 + 2 * k
  {
    var s := MovedAndBackOften(k);
    ss, es := RunTo(s);
  }

  // ---------- two more commits do happen ----------

  const ANSWER := ClusterStatus(6, A, "", Unhealthy, Elems([HasError(A), NotReplicating(B)]), A, Elems([B]))
  const REQ_ANSWER := Request(Daemon(A), ALONE, [NODE_A, NODE_B], 1, ANSWER)

  lemma ComputedAnswer()
    ensures Stamp(Compute(ClusterState(ALONE, [NODE_A, NODE_B])), A, 6, "") == ANSWER
  {
    var nodes := [NODE_A, NODE_B];
    assert nodes[..1] == [NODE_A] && nodes[..1][..0] == [];
    assert HasName([NODE_A], A);
    assert SelectPrimary(nodes, A) == A;
    assert OthersThan([NODE_A], A) == [];
    assert OthersThan(nodes, A) == [B];
    assert AllReasons([NODE_A], A, [B]) == [HasError(A)];
    assert AllReasons(nodes, A, [B]) == [HasError(A), NotReplicating(B)];
  }

  lemma QuietlyLeads(c: Reads, ss: seq<State>, es: seq<Event>, k: nat, s: State, e: Event, s': State)
    requires Leads(c, ss, es, s) && k < |ss| && QuietFrom(ss, es, k)
    requires Next(s, e, s') && Quiet(e) && !e.Heartbeat?
    requires e.Read? ==> MayRead(c, ss + [s'], es + [e], |es|)
    ensures Leads(c, ss + [s'], es + [e], s') && QuietFrom(ss + [s'], es + [e], k)
  {
    Extended(c, ss, es, s, e, s');
    var ss', es' := ss + [s'], es + [e];
    forall i {:trigger es'[i]} | k <= i < |es'| ensures Quiet(es'[i]) && KeepsFacts(ss'[i], es'[i]) {
      if i < |es| {
        assert es'[i] == es[i];
      }
    }
  }

  /** A run that is quiet from index k on. */
  ghost predicate QuietSince(ss: seq<State>, es: seq<Event>, k: nat, s: State) {
    Leads(Snapshot, ss, es, s) && k < |ss| && ss[k] == BOTH_SENT && QuietFrom(ss, es, k)
  }

  lemma QuietlyExtended(ss: seq<State>, es: seq<Event>, k: nat, s: State, e: Event, s': State)
      returns (ss': seq<State>, es': seq<Event>)
    requires QuietSince(ss, es, k, s) && Next(s, e, s') && Quiet(e) && !e.Heartbeat?
    requires e.Read? ==> e.version == |s.hist| && e.nodes == s.nodes
    ensures QuietSince(ss', es', k, s')
  {
    QuietlyLeads(Snapshot, ss, es, k, s, e, s');
    ss', es' := ss + [s'], es + [e];
  }

  const A_IDLE := A_WON.(cycles := map[A := Idle, B := Waiting(REQ_B)])
  const ANSWER_SENT := A_IDLE.(flight := {REQ_B, REQ_ANSWER}, used := {3, 4, 6},
                               cycles := map[A := Waiting(REQ_ANSWER), B := Waiting(REQ_B)])
  const SECOND_MORE := A_IDLE.(hist := [REQ_A, REQ_ANSWER], used := {3, 4, 6},
                               cycles := map[A := Ready(ANSWER, ALONE, 1, Won(1)), B := Waiting(REQ_B)])

  lemma QuietFirst() returns (ss: seq<State>, es: seq<Event>, k: nat)
    ensures QuietSince(ss, es, k, A_IDLE)
  {
    ReachBothSent();
    var ss0, es0 := RunTo(BOTH_SENT);
    k := |ss0| - 1;
    var ss1, es1 := QuietlyExtended(ss0, es0, k, BOTH_SENT, Deliver(REQ_A), A_WON);
    ss, es := QuietlyExtended(ss1, es1, k, A_WON, Abort(A), A_IDLE);
  }

  const READ_ANSWER := Read(Daemon(A), 1, [NODE_A, NODE_B], ALONE, 6, "")

  lemma AnswerRequested()
    ensures ReadRequest(READ_ANSWER) == REQ_ANSWER
    ensures Changed(ALONE, Proposal(Daemon(A), ALONE, [NODE_A, NODE_B]))
  {
    ComputedAnswer();
  }

  lemma AnswerStep()
    ensures Step(A_IDLE, READ_ANSWER) == ANSWER_SENT
  {
    AnswerRequested();
    var s := ReadStep(A_IDLE, READ_ANSWER);
    assert s.flight == ANSWER_SENT.flight;
    assert s.used == ANSWER_SENT.used;
    assert s.cycles == ANSWER_SENT.cycles;
    assert s.nodes == ANSWER_SENT.nodes && s.hist == ANSWER_SENT.hist && s.roles == ANSWER_SENT.roles;
  }

  lemma AnswerWins()
    ensures Next(ANSWER_SENT, Deliver(REQ_ANSWER), SECOND_MORE)
  {
  }

  /** The bound of two is attained: a request from before the table came to rest wins, and the
      daemon that answers it wins too. */
  lemma TwoMoreCommitsHappen() returns (ss: seq<State>, es: seq<Event>, k: nat)
    ensures IsRun(Snapshot, ss, es) && k < |ss| && QuietFrom(ss, es, k)
    ensures |ss[|ss| - 1].hist| == |ss[k].hist| + 2
  {
    ss, es, k := QuietFirst();
    AnswerStep();
    ss, es := QuietlyExtended(ss, es, k, A_IDLE, READ_ANSWER, ANSWER_SENT);
    AnswerWins();
    ss, es := QuietlyExtended(ss, es, k, ANSWER_SENT, Deliver(REQ_ANSWER), SECOND_MORE);
  }
}
