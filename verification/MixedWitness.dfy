/** Why the bounds on the reconciliation need the fetched table to be of one moment: a DynamoDB query
    that misses items can keep it moving forever. */
module MixedWitness {
  import opened Common
  import opened ClusterLogic
  import opened SortedStore
  import opened StoreSpec
  import opened Reconcile
  import opened Sequential
  import opened Convergence
  import opened ReconcileWitness
  import DynamoStore
  import Layouts

  // ---------- what a query can give ----------

  /** Every empty slice is nil, so that an attribute map gives the status back as it was. */
  predicate Plain(status: ClusterStatus) {
    Decode(AttributeMap, status) == status
  }

  /** Wherever the DynamoDB table serves the cluster's events so far, among whatever other clusters do,
      some answer of the query makes the fetch return what e reads. */
  ghost predicate Answerable(before: seq<Event>, e: Event)
    requires e.Read?
  {
    forall c, ops | Layouts.Interleaves(ops, Layouts.OpsOf(before, c), c) :: HasAnswer(ops, c, e)
  }

  ghost predicate HasAnswer(ops: seq<StoreSpec.Op>, c: Name, e: Event)
    requires e.Read?
  {
    exists answer :: Answers(answer, ops, c, e)
  }

  ghost predicate Answers(answer: seq<Entry>, ops: seq<StoreSpec.Op>, c: Name, e: Event)
    requires e.Read?
  {
    && DynamoStore.StaleAnswer(answer, ops, c)
    && DynamoStore.FetchFrom(answer) == Ok(ClusterState(e.read, e.nodes))
  }

  ghost predicate ReadsAnswerable(es: seq<Event>) {
    forall i {:trigger es[i]} | 0 <= i < |es| && es[i].Read? :: Answerable(es[..i], es[i])
  }

  lemma OneMoreEvent(es: seq<Event>, e: Event)
    requires ReadsAnswerable(es) && (e.Read? ==> Answerable(es, e))
    ensures ReadsAnswerable(es + [e])
  {
    var es' := es + [e];
    forall i {:trigger es'[i]} | 0 <= i < |es'| && es'[i].Read? ensures Answerable(es'[..i], es'[i]) {
      if i < |es| {
        assert es'[i] == es[i] && es'[..i] == es[..i];
      } else {
        assert es'[..i] == es;
      }
    }
  }

  function NodeItem(n: NodeStatus): Entry {
    Entry(DynamoStore.NodeStatusKey(n.name), NodeValue(n))
  }

  /** The item of one node, and the status item if there is one. */
  function OneNode(n: NodeStatus, reg: Option<ClusterStatus>): seq<Entry> {
    [NodeItem(n)] + if reg.None? then [] else [Entry(DynamoStore.STATUS_KEY, StatusValue(reg.value))]
  }

  lemma ItemOfNode(items: seq<Entry>, n: NodeStatus)
    requires DynamoStore.ItemsOk(items) && n in Collect(items, DynamoStore.NODE_STATUSES_KEY)
    ensures NodeItem(n) in items
  {
    CollectMembers(items, DynamoStore.NODE_STATUSES_KEY, n);
    DynamoStore.NodesUnderPrefix(items);
    var e :| e in items && IsNodeEntry(e, DynamoStore.NODE_STATUSES_KEY) && e.value.node == n;
    assert e == NodeItem(n);
  }

  /** Such an answer is one that misses the other nodes' items. */
  lemma OneNodeIsAnswer(ops: seq<StoreSpec.Op>, c: Name, n: NodeStatus)
    requires n in TableAfter(ops, c)
    ensures DynamoStore.StaleAnswer(OneNode(n, RegisterAfter(ops, c)), ops, c)
  {
    var answer, items := OneNode(n, RegisterAfter(ops, c)), DynamoStore.Partition(DynamoStore.StoreAfter(ops), c);
    DynamoStore.DynamoRefinesRegister(ops, c);
    ItemOfNode(items, n);
    GetIsIn(items, DynamoStore.STATUS_KEY);
    assert ops[..|ops|] == ops;
    forall e | e in answer ensures exists j: nat :: DynamoStore.WasItem(ops, c, e, j) {
      assert DynamoStore.WasItem(ops, c, e, |ops|);
    }
    assert DynamoStore.NodeStatusKey(n.name)[0] == 'n' && DynamoStore.STATUS_KEY[0] == 's';
  }

  lemma OneNodeIsRead(ops: seq<StoreSpec.Op>, c: Name, n: NodeStatus)
    requires n in TableAfter(ops, c)
    ensures DynamoStore.FetchFrom(OneNode(n, RegisterAfter(ops, c)))
            == Ok(ClusterState(StateAfter(AttributeMap, ops, c).status, [n]))
  {
    var reg := RegisterAfter(ops, c);
    var answer := OneNode(n, reg);
    OneNodeIsAnswer(ops, c, n);
    DynamoStore.StaleItemsOk(answer, ops, c);
    DynamoStore.WholeScan(answer);
    SuffixTellsKind(Node(n.name), Status);
    SuffixTellsKind(Status, Status);
    DynamoStore.NodeKeyIsSuffix(n.name);
    var rest := answer[1..];
    assert reg.Some? ==> rest == [Entry(DynamoStore.STATUS_KEY, StatusValue(reg.value))] && rest[1..] == [];
    assert Collect(rest, DynamoStore.NODE_STATUSES_KEY) == [];
    assert Get(rest, DynamoStore.STATUS_KEY) == if reg.None? then None else Some(StatusValue(reg.value));
    var got := DynamoStore.Collected(ClusterState(ZERO_STATUS, []), answer);
    assert got.status == StateAfter(AttributeMap, ops, c).status && got.nodes == [n];
  }

  /** A read that finds the current status and one node only can be the answer of a query. */
  lemma OneNodeAnswerable(mode: Reads, ss: seq<State>, es: seq<Event>, s: State, n: NodeStatus, e: Event)
    requires Leads(mode, ss, es, s) && n in s.nodes && Plain(Current(s.hist))
    requires e.Read? && e.read == Current(s.hist) && e.nodes == [n]
    ensures Answerable(es, e)
  {
    forall c, ops | Layouts.Interleaves(ops, Layouts.OpsOf(es, c), c) ensures HasAnswer(ops, c, e) {
      assert es[..|es|] == es;
      Layouts.RegisterFollowsRun(mode, ss, es, c, |es|);
      Layouts.OthersDoNotMatter(ops, Layouts.OpsOf(es, c), c);
      OneNodeIsAnswer(ops, c, n);
      OneNodeIsRead(ops, c, n);
      assert Answers(OneNode(n, RegisterAfter(ops, c)), ops, c, e);
    }
  }

  // ---------- a run that never settles ----------

  /** A run with mixed reads, quiet from k on, whose every commit is a daemon's and moves the primary. */
  ghost predicate MovingRun(ss: seq<State>, es: seq<Event>, k: nat, s: State) {
    && Leads(Mixed, ss, es, s) && k < |ss| && QuietFrom(ss, es, k)
    && WasWritten(es, |es|, NODE_A) && WasWritten(es, |es|, NODE_B)
    && s.nodes == [NODE_A, NODE_B] && Plain(Current(s.hist)) && ReadsAnswerable(es)
    && CycleOf(s, A).Idle?
    && Failovers(s.hist) == 0 && PrimaryChanges(s.hist) == |s.hist|
  }

  lemma MovingStart() returns (ss: seq<State>, es: seq<Event>, s: State)
    ensures MovingRun(ss, es, 2, s) && |ss| == 3 && ss[2].hist == []
  {
    PutB();
    var s1 := EMPTY.(nodes := [NODE_A]);
    s := EMPTY.(nodes := [NODE_A, NODE_B]);
    ss, es := [EMPTY, s1, s], [Heartbeat(NODE_A), Heartbeat(NODE_B)];
    assert Next(EMPTY, Heartbeat(NODE_A), s1) && Next(s1, Heartbeat(NODE_B), s);
    assert es[0] == Heartbeat(NODE_A) && es[1] == Heartbeat(NODE_B);
  }

  /** The events of one round: a reads, wins, and its cycle ends. */
  function MovingRead(s: State, uuid: Uuid): Event {
    Read(Daemon(A), |s.hist|, [if Current(s.hist).primary == A then NODE_B else NODE_A], Current(s.hist), uuid, "")
  }

  lemma MovingReadAllowed(ss: seq<State>, es: seq<Event>, k: nat, s: State, uuid: Uuid, s': State)
    requires MovingRun(ss, es, k, s)
    ensures MayRead(Mixed, ss + [s'], es + [MovingRead(s, uuid)], |es|)
    ensures ReadsAnswerable(es + [MovingRead(s, uuid)])
  {
    var e := MovingRead(s, uuid);
    StillWritten(es, e, |es|, NODE_A);
    StillWritten(es, e, |es|, NODE_B);
    OneNodeAnswerable(Mixed, ss, es, s, e.nodes[0], e);
    OneMoreEvent(es, e);
  }

  /** A run that sent r, and may go on to win with it. */
  ghost predicate SentRun(ss: seq<State>, es: seq<Event>, k: nat, s: State, r: Request) {
    && Leads(Mixed, ss, es, s) && k < |ss| && QuietFrom(ss, es, k)
    && s.nodes == [NODE_A, NODE_B] && Plain(r.status) && ReadsAnswerable(es)
    && CycleOf(s, A) == Waiting(r) && r in s.flight && r.origin == Daemon(A)
    && Matches(Current(s.hist), r.read.uuid)
  }

  lemma MoveSent(ss: seq<State>, es: seq<Event>, k: nat, s: State)
      returns (ss': seq<State>, es': seq<Event>, s': State, r: Request)
    requires MovingRun(ss, es, k, s)
    ensures SentRun(ss', es', k, s', r) && s'.hist == s.hist && ss <= ss' && es <= es'
    ensures r.status.primary != Current(s.hist).primary
  {
    var uuid := UnusedUuid(s.used);
    var e := MovingRead(s, uuid);
    r := ReadRequest(e);
    s' := Step(s, e);
    MovingReadAllowed(ss, es, k, s, uuid, s');
    QuietlyLeads(Mixed, ss, es, k, s, e, s');
    ss', es' := ss + [s'], es + [e];
  }

  lemma MoveWins(ss: seq<State>, es: seq<Event>, k: nat, s: State, r: Request)
      returns (ss': seq<State>, es': seq<Event>, s': State)
    requires SentRun(ss, es, k, s, r)
    ensures Leads(Mixed, ss', es', s') && QuietFrom(ss', es', k) && CycleOf(s', A).Idle?
    ensures s'.hist == s.hist + [r] && ss <= ss' && es <= es'
    ensures s'.nodes == s.nodes && ReadsAnswerable(es')
  {
    var won := DeliverStep(s, r);
    QuietlyLeads(Mixed, ss, es, k, s, Deliver(r), won);
    s' := won.(cycles := won.cycles[A := Idle]);
    QuietlyLeads(Mixed, ss + [won], es + [Deliver(r)], k, won, Abort(A), s');
    OneMoreEvent(es, Deliver(r));
    OneMoreEvent(es + [Deliver(r)], Abort(A));
    ss', es' := ss + [won] + [s'], es + [Deliver(r)] + [Abort(A)];
  }

  lemma OneMoreMove(ss: seq<State>, es: seq<Event>, k: nat, s: State)
      returns (ss': seq<State>, es': seq<Event>, s': State)
    requires MovingRun(ss, es, k, s)
    ensures MovingRun(ss', es', k, s') && |s'.hist| == |s.hist| + 1 && ss'[k] == ss[k]
  {
    var ss1, es1, s1, r := MoveSent(ss, es, k, s);
    ss', es', s' := MoveWins(ss1, es1, k, s1, r);
  }

  lemma {:induction false} Moves(n: nat) returns (ss: seq<State>, es: seq<Event>, s: State)
    ensures MovingRun(ss, es, 2, s) && |s.hist| == n && ss[2].hist == []
  {
    if n == 0 {
      ss, es, s := MovingStart();
    } else {
      var ss0, es0, s0 := Moves(n - 1);
      ss, es, s := OneMoreMove(ss0, es0, 2, s0);
    }
  }

  /** With mixed reads neither the bound on commits nor the bound on changes of the primary holds: for
      every n there is a run in which, without any failover and after the facts have come to rest,
      n more statuses are committed and each moves the primary, because each writer's query missed
      the item of the primary before.  Every fetch of the run is one that such a query can give. */
  lemma MixedReadsNeverSettle(n: nat) returns (ss: seq<State>, es: seq<Event>, k: nat)
    ensures IsRun(Mixed, ss, es) && k < |ss| && QuietFrom(ss, es, k)
    ensures var h := ss[|ss| - 1].hist;
            |h| == |ss[k].hist| + n && Failovers(h) == 0 && PrimaryChanges(h) == n
    ensures ReadsAnswerable(es)
  {
    k := 2;
    var s;
    ss, es, s := Moves(n);
  }
}
