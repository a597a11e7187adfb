/** Interleaved runs commit what sequential runs commit, and what follows for the primary. */
module Sequential {
  import opened Common
  import opened ClusterLogic
  import opened SortedStore
  import opened Reconcile

  /** One indivisible operation: a node writes its status, or a daemon or failover command reads,
      computes and writes the cluster status with nothing in between. */
  datatype Op = Write(n: NodeStatus) | Commit(r: Request)

  datatype Ops = Nothing | Then(before: Ops, op: Op)

  function WritesOf(ops: Ops): seq<NodeStatus> {
    match ops
    case Nothing => []
    case Then(before, op) => if op.Write? then WritesOf(before) + [op.n] else WritesOf(before)
  }

  /** How many node writes come before commit i. */
  function WritesBefore(ops: Ops, i: nat): nat {
    match ops
    case Nothing => 0
    case Then(before, op) =>
      if op.Commit? && i == |HistAfter(before)| then |WritesOf(before)| else WritesBefore(before, i)
  }

  function NodesAfter(ops: Ops): seq<NodeStatus> {
    match ops
    case Nothing => []
    case Then(before, op) => if op.Write? then PutNode(NodesAfter(before), op.n) else NodesAfter(before)
  }

  function HistAfter(ops: Ops): seq<Request> {
    match ops
    case Nothing => []
    case Then(before, op) => if op.Commit? then HistAfter(before) + [op.r] else HistAfter(before)
  }

  /** The operation is a legal atomic step from this table and history. */
  ghost predicate OpOk(nodes: seq<NodeStatus>, hist: seq<Request>, op: Op) {
    match op
    case Write(n) => n.name != ""
    case Commit(r) => r.version == |hist| && r.nodes == nodes && RequestOk(hist, r)
  }

  ghost predicate AtomicRun(ops: Ops) {
    ops.Then? ==> AtomicRun(ops.before) && OpOk(NodesAfter(ops.before), HistAfter(ops.before), ops.op)
  }

  // ---------- the linearization ----------

  /** The table after w node writes was this one, and only nodes wrote since. */
  ghost predicate Placeable(ops: Ops, nodes: seq<NodeStatus>, w: nat) {
    if |WritesOf(ops)| == w then NodesAfter(ops) == nodes
    else ops.Then? && ops.op.Write? && Placeable(ops.before, nodes, w)
  }

  /** The run with r's commit placed behind the first w node writes. */
  ghost function Insert(ops: Ops, r: Request, w: nat): Ops
    requires Placeable(ops, r.nodes, w)
  {
    if |WritesOf(ops)| == w then Then(ops, Commit(r)) else Then(Insert(ops.before, r, w), ops.op)
  }

  /** Node writes commute with a commit. */
  lemma {:induction false} InsertOk(ops: Ops, r: Request, w: nat)
    requires AtomicRun(ops) && Placeable(ops, r.nodes, w)
    requires r.version == |HistAfter(ops)| && RequestOk(HistAfter(ops), r)
    ensures AtomicRun(Insert(ops, r, w))
    ensures WritesOf(Insert(ops, r, w)) == WritesOf(ops) && NodesAfter(Insert(ops, r, w)) == NodesAfter(ops)
    ensures HistAfter(Insert(ops, r, w)) == HistAfter(ops) + [r]
  {
    if |WritesOf(ops)| != w {
      InsertOk(ops.before, r, w);
    }
  }

  /** It takes the place it is given and moves no other commit. */
  lemma {:induction false} InsertPlaces(ops: Ops, r: Request, w: nat, i: nat)
    requires AtomicRun(ops) && Placeable(ops, r.nodes, w)
    requires r.version == |HistAfter(ops)| && RequestOk(HistAfter(ops), r) && i <= |HistAfter(ops)|
    ensures WritesBefore(Insert(ops, r, w), i) == if i == |HistAfter(ops)| then w else WritesBefore(ops, i)
  {
    if |WritesOf(ops)| != w {
      InsertPlaces(ops.before, r, w, i);
    }
  }

  /** The node statuses written by the first k events. */
  function Written(es: seq<Event>, k: nat): seq<NodeStatus>
    requires k <= |es|
  {
    if k == 0 then []
    else if es[k - 1].Heartbeat? then Written(es, k - 1) + [es[k - 1].n]
    else Written(es, k - 1)
  }

  lemma {:induction false} WrittenGrows(es: seq<Event>, m: nat, k: nat)
    requires m <= k <= |es|
    ensures |Written(es, m)| <= |Written(es, k)|
  {
    if m < k {
      WrittenGrows(es, m, k - 1);
    }
  }

  ghost predicate Follows(ops: Ops, ss: seq<State>, es: seq<Event>, k: nat)
    requires k < |ss| == |es| + 1
  {
    && AtomicRun(ops)
    && WritesOf(ops) == Written(es, k)
    && NodesAfter(ops) == ss[k].nodes
    && HistAfter(ops) == ss[k].hist
  }

  /** A commit that saw the table of ss[m] while the status it read was current still fits in there. */
  ghost predicate CurrentPlaceable(ops: Ops, ss: seq<State>, es: seq<Event>, k: nat)
    requires k < |ss| == |es| + 1
  {
    forall m | 0 <= m <= k && |ss[m].hist| == |ss[k].hist| :: Placeable(ops, ss[m].nodes, |Written(es, m)|)
  }

  /** Commit i is the request of the read es[f] and stands behind exactly the node writes that came
      before ss[m], the point at which its predecessor was current and its table was the table. */
  ghost predicate StandsAt(c: Reads, ops: Ops, ss: seq<State>, es: seq<Event>, i: nat, m: nat, f: nat)
    requires |ss| == |es| + 1
  {
    && i < |HistAfter(ops)| && m <= f < |es| && (c.Snapshot? ==> m == f)
    && es[f].Read? && ReadRequest(es[f]) == HistAfter(ops)[i]
    && |ss[m].hist| == i && ss[m].nodes == es[f].nodes
    && WritesBefore(ops, i) == |Written(es, m)|
  }

  ghost predicate Stands(c: Reads, ops: Ops, ss: seq<State>, es: seq<Event>, i: nat)
    requires |ss| == |es| + 1
  {
    exists m, f :: StandsAt(c, ops, ss, es, i, m, f)
  }

  ghost predicate AllStand(c: Reads, ops: Ops, ss: seq<State>, es: seq<Event>)
    requires |ss| == |es| + 1
  {
    forall i | 0 <= i < |HistAfter(ops)| :: Stands(c, ops, ss, es, i)
  }

  ghost predicate Linearizes(c: Reads, ops: Ops, ss: seq<State>, es: seq<Event>, k: nat)
    requires k < |ss| == |es| + 1
  {
    Follows(ops, ss, es, k) && CurrentPlaceable(ops, ss, es, k) && AllStand(c, ops, ss, es)
  }

  ghost predicate Wins(s: State, e: Event) {
    e.Deliver? && e.r.version == |s.hist|
  }

  lemma WinnerOk(c: Reads, ss: seq<State>, es: seq<Event>, k: nat)
    requires IsRun(c, ss, es) && k < |es|
    ensures if Wins(ss[k], es[k])
            then es[k].r in ss[k].flight && RequestOk(ss[k].hist, es[k].r)
                 && ss[k + 1].hist == ss[k].hist + [es[k].r] && ss[k + 1].nodes == ss[k].nodes
            else ss[k + 1].hist == ss[k].hist
    ensures ss[k + 1].nodes == if es[k].Heartbeat? then PutNode(ss[k].nodes, es[k].n) else ss[k].nodes
    ensures es[k].Heartbeat? ==> es[k].n.name != ""
  {
    InvAlongRun(c, ss, es, k);
    assert Next(ss[k], es[k], ss[k + 1]);
    if es[k].Deliver? {
      assert RequestOk(ss[k].hist, es[k].r);
      WinsIffCurrent(ss[k], es[k].r);
    }
  }

  /** A commit that stands where it stood. */
  lemma StillStands(c: Reads, ops: Ops, ops': Ops, ss: seq<State>, es: seq<Event>, i: nat)
    requires |ss| == |es| + 1 && Stands(c, ops, ss, es, i) && i < |HistAfter(ops')|
    requires HistAfter(ops')[i] == HistAfter(ops)[i] && WritesBefore(ops', i) == WritesBefore(ops, i)
    ensures Stands(c, ops', ss, es, i)
  {
    var m, f :| StandsAt(c, ops, ss, es, i, m, f);
    assert StandsAt(c, ops', ss, es, i, m, f);
  }

  lemma AllStandAfterInsert(c: Reads, ops: Ops, ss: seq<State>, es: seq<Event>, r: Request, m: nat, f: nat)
    requires |ss| == |es| + 1 && m <= f < |es| && AllStand(c, ops, ss, es)
    requires AtomicRun(ops) && r.version == |HistAfter(ops)| && RequestOk(HistAfter(ops), r)
    requires Placeable(ops, r.nodes, |Written(es, m)|)
    requires (c.Snapshot? ==> m == f) && es[f].Read? && ReadRequest(es[f]) == r
    requires |ss[m].hist| == r.version && ss[m].nodes == r.nodes
    ensures AllStand(c, Insert(ops, r, |Written(es, m)|), ss, es)
  {
    var w := |Written(es, m)|;
    var ops' := Insert(ops, r, w);
    InsertOk(ops, r, w);
    forall i | 0 <= i < |HistAfter(ops')| ensures Stands(c, ops', ss, es, i) {
      InsertPlaces(ops, r, w, i);
      if i == r.version {
        assert StandsAt(c, ops', ss, es, i, m, f);
      } else {
        StillStands(c, ops, ops', ss, es, i);
      }
    }
  }

  lemma EarlierHistory(c: Reads, ss: seq<State>, es: seq<Event>, m: nat, k: nat)
    requires IsRun(c, ss, es) && m <= k < |ss|
    ensures |ss[m].hist| <= |ss[k].hist|
  {
    HistoryGrows(c, ss, es, m, k);
  }

  /** After a commit only the present table can be read together with the current status. */
  lemma PlaceableAfterCommit(c: Reads, ops: Ops, ss: seq<State>, es: seq<Event>, k: nat)
    requires IsRun(c, ss, es) && 0 < k < |ss| && |ss[k].hist| > |ss[k - 1].hist|
    requires |WritesOf(ops)| == |Written(es, k)| && NodesAfter(ops) == ss[k].nodes
    ensures CurrentPlaceable(ops, ss, es, k)
  {
    forall m | 0 <= m <= k && |ss[m].hist| == |ss[k].hist| ensures Placeable(ops, ss[m].nodes, |Written(es, m)|) {
      if m < k {
        EarlierHistory(c, ss, es, m, k - 1);
      }
    }
  }

  lemma FollowsAfterInsert(c: Reads, ops: Ops, ss: seq<State>, es: seq<Event>, k: nat, w: nat)
    requires IsRun(c, ss, es) && k < |es| && Wins(ss[k], es[k])
    requires Follows(ops, ss, es, k) && Placeable(ops, es[k].r.nodes, w)
    ensures RequestOk(HistAfter(ops), es[k].r)
    ensures Follows(Insert(ops, es[k].r, w), ss, es, k + 1) && |ss[k + 1].hist| > |ss[k].hist|
  {
    WinnerOk(c, ss, es, k);
    InsertOk(ops, es[k].r, w);
  }

  lemma CommitStandsAt(c: Reads, ops: Ops, ss: seq<State>, es: seq<Event>, k: nat, m: nat, f: nat)
    requires IsRun(c, ss, es) && k < |es| && Wins(ss[k], es[k]) && m <= f < |es| && Linearizes(c, ops, ss, es, k)
    requires (c.Snapshot? ==> m == f) && es[f].Read? && ReadRequest(es[f]) == es[k].r
    requires |ss[m].hist| == es[k].r.version && ss[m].nodes == es[k].r.nodes
    requires Placeable(ops, es[k].r.nodes, |Written(es, m)|)
    ensures Linearizes(c, Insert(ops, es[k].r, |Written(es, m)|), ss, es, k + 1)
  {
    var r, w := es[k].r, |Written(es, m)|;
    FollowsAfterInsert(c, ops, ss, es, k, w);
    AllStandAfterInsert(c, ops, ss, es, r, m, f);
    PlaceableAfterCommit(c, Insert(ops, r, w), ss, es, k + 1);
  }

  /** A winning commit goes to where its table was current. */
  lemma CommitFollows(c: Reads, ops: Ops, ss: seq<State>, es: seq<Event>, k: nat) returns (ops': Ops)
    requires c != Mixed && IsRun(c, ss, es) && k < |es| && Wins(ss[k], es[k]) && es[k].r in ss[k].flight
    requires Linearizes(c, ops, ss, es, k)
    ensures Linearizes(c, ops', ss, es, k + 1)
  {
    var m, f := ViableSawCurrent(c, ss, es, k, es[k].r);
    assert Placeable(ops, ss[m].nodes, |Written(es, m)|);
    CommitStandsAt(c, ops, ss, es, k, m, f);
    ops' := Insert(ops, es[k].r, |Written(es, m)|);
  }

  lemma PlaceableAfterWrite(c: Reads, ops: Ops, ss: seq<State>, es: seq<Event>, k: nat)
    requires IsRun(c, ss, es) && k < |es| && es[k].Heartbeat? && ss[k + 1].hist == ss[k].hist
    requires Follows(ops, ss, es, k) && CurrentPlaceable(ops, ss, es, k)
    requires Follows(Then(ops, Write(es[k].n)), ss, es, k + 1)
    ensures CurrentPlaceable(Then(ops, Write(es[k].n)), ss, es, k + 1)
  {
    var ops' := Then(ops, Write(es[k].n));
    forall m | 0 <= m <= k + 1 && |ss[m].hist| == |ss[k + 1].hist|
      ensures Placeable(ops', ss[m].nodes, |Written(es, m)|)
    {
      if m <= k {
        WrittenGrows(es, m, k);
      }
    }
  }

  /** A node write goes to the end. */
  lemma WriteFollows(c: Reads, ops: Ops, ss: seq<State>, es: seq<Event>, k: nat)
    requires IsRun(c, ss, es) && k < |es| && es[k].Heartbeat?
    requires Linearizes(c, ops, ss, es, k)
    ensures Linearizes(c, Then(ops, Write(es[k].n)), ss, es, k + 1)
  {
    var ops' := Then(ops, Write(es[k].n));
    WinnerOk(c, ss, es, k);
    PlaceableAfterWrite(c, ops, ss, es, k);
    forall i | 0 <= i < |HistAfter(ops')| ensures Stands(c, ops', ss, es, i) {
      StillStands(c, ops, ops', ss, es, i);
    }
  }

  lemma NothingFollows(c: Reads, ops: Ops, ss: seq<State>, es: seq<Event>, k: nat)
    requires IsRun(c, ss, es) && k < |es| && !es[k].Heartbeat? && !Wins(ss[k], es[k])
    requires Linearizes(c, ops, ss, es, k)
    ensures Linearizes(c, ops, ss, es, k + 1)
  {
    WinnerOk(c, ss, es, k);
  }

  lemma LinearizeStep(c: Reads, ops: Ops, ss: seq<State>, es: seq<Event>, k: nat) returns (ops': Ops)
    requires c != Mixed && IsRun(c, ss, es) && k < |es|
    requires Linearizes(c, ops, ss, es, k)
    ensures Linearizes(c, ops', ss, es, k + 1)
  {
    if Wins(ss[k], es[k]) {
      WinnerOk(c, ss, es, k);
      ops' := CommitFollows(c, ops, ss, es, k);
    } else if es[k].Heartbeat? {
      WriteFollows(c, ops, ss, es, k);
      ops' := Then(ops, Write(es[k].n));
    } else {
      NothingFollows(c, ops, ss, es, k);
      ops' := ops;
    }
  }

  lemma NothingLinearizes(c: Reads, ss: seq<State>, es: seq<Event>)
    requires IsRun(c, ss, es)
    ensures Linearizes(c, Nothing, ss, es, 0)
  {
  }

  lemma {:induction false} Linearize(c: Reads, ss: seq<State>, es: seq<Event>, k: nat) returns (ops: Ops)
    requires c != Mixed && IsRun(c, ss, es) && k < |ss|
    ensures Linearizes(c, ops, ss, es, k)
  {
    if k == 0 {
      ops := Nothing;
      NothingLinearizes(c, ss, es);
    } else {
      var before := Linearize(c, ss, es, k - 1);
      ops := LinearizeStep(c, before, ss, es, k - 1);
    }
  }

  /** Unless reads are mixed, every interleaved run of daemons and failover commands commits what a
      sequential run commits, in which each winner reads, computes and writes at one point.  The
      sequential run has the node writes of the interleaved one, in their order, and each commit
      stands where the table it read was current together with its predecessor: with snapshot
      reads exactly where its fetch was. */
  lemma EveryRunIsSequential(c: Reads, ss: seq<State>, es: seq<Event>, k: nat) returns (ops: Ops)
    requires c != Mixed && IsRun(c, ss, es) && k < |ss|
    ensures AtomicRun(ops) && HistAfter(ops) == ss[k].hist
    ensures WritesOf(ops) == Written(es, k) && NodesAfter(ops) == ss[k].nodes
    ensures AllStand(c, ops, ss, es)
  {
    ops := Linearize(c, ss, es, k);
  }

  // ---------- the primary over a sequential run ----------

  function PrimaryChanges(hist: seq<Request>): nat {
    if hist == [] then 0
    else
      var last := |hist| - 1;
      PrimaryChanges(hist[..last])
      + if hist[last].status.primary != StatusAt(hist, last).primary then 1 else 0
  }

  function Failovers(hist: seq<Request>): nat {
    if hist == [] then 0
    else Failovers(hist[..|hist| - 1]) + if hist[|hist| - 1].origin.Failover? then 1 else 0
  }

  /** How many more changes the daemons may make on their own. */
  ghost function Credit(nodes: seq<NodeStatus>, primary: Name): nat {
    if Listed(nodes, primary) then 0
    else if primary == "" || nodes != [] then 1
    else 2
  }

  ghost predicate NoEmptyName(nodes: seq<NodeStatus>) {
    !Listed(nodes, "")
  }

  lemma {:induction false} NamesAlongAtomicRun(ops: Ops)
    requires AtomicRun(ops)
    ensures NoEmptyName(NodesAfter(ops)) && SortedNodes(NodesAfter(ops))
  {
    if ops.Then? {
      NamesAlongAtomicRun(ops.before);
      if ops.op.Write? {
        PutNodeLists(NodesAfter(ops.before), ops.op.n, "");
        PutNodeSorted(NodesAfter(ops.before), ops.op.n);
      }
    }
  }

  lemma CreditAfterWrite(nodes: seq<NodeStatus>, n: NodeStatus, primary: Name)
    ensures Credit(PutNode(nodes, n), primary) <= Credit(nodes, primary)
  {
    PutNodeLists(nodes, n, primary);
    PutNodeLists(nodes, n, n.name);
  }

  /** Changes made and changes the daemons may still make, against 1 + 2k. */
  ghost predicate WithinCredit(nodes: seq<NodeStatus>, hist: seq<Request>) {
    PrimaryChanges(hist) + Credit(nodes, Current(hist).primary) <= 1 + 2 * Failovers(hist)
  }

  lemma OpKeepsCredit(nodes: seq<NodeStatus>, hist: seq<Request>, op: Op)
    requires NoEmptyName(nodes) && OpOk(nodes, hist, op) && WithinCredit(nodes, hist)
    ensures if op.Write? then WithinCredit(PutNode(nodes, op.n), hist) else WithinCredit(nodes, hist + [op.r])
  {
    if op.Write? {
      CreditAfterWrite(nodes, op.n, Current(hist).primary);
    }
  }

  lemma {:induction false} PrimaryChangesInAtomicRun(ops: Ops)
    requires AtomicRun(ops)
    ensures WithinCredit(NodesAfter(ops), HistAfter(ops))
  {
    if ops.Then? {
      PrimaryChangesInAtomicRun(ops.before);
      NamesAlongAtomicRun(ops.before);
      OpKeepsCredit(NodesAfter(ops.before), HistAfter(ops.before), ops.op);
    }
  }

  /** From an empty store the committed intended primary changes at most 1 + 2k times, where k is
      the number of failover writes that won. */
  lemma PrimaryChangesBounded(c: Reads, ss: seq<State>, es: seq<Event>, k: nat)
    requires c != Mixed && IsRun(c, ss, es) && k < |ss|
    ensures PrimaryChanges(ss[k].hist) <= 1 + 2 * Failovers(ss[k].hist)
  {
    var ops := EveryRunIsSequential(c, ss, es, k);
    PrimaryChangesInAtomicRun(ops);
  }

  // ---------- stickiness ----------

  /** A commit that saw a current table saw every name that was in the table before its predecessor
      was replaced. */
  lemma CommitSeesEarlierNames(c: Reads, ss: seq<State>, es: seq<Event>, k: nat, j: nat, m: nat, n: Name)
    requires c != Mixed && IsRun(c, ss, es) && k < |ss| && j < |ss[k].hist|
    requires m < |ss| && |ss[m].hist| < j && Listed(ss[m].nodes, n)
    ensures Listed(ss[k].hist[j].nodes, n)
  {
    var r := ss[k].hist[j];
    InvAlongRun(c, ss, es, k);
    assert r.version == j;
    var d := CommitWasDelivered(c, ss, es, k, j);
    var m', _ := ViableSawCurrent(c, ss, es, d, r);
    if m' < m {
      HistoryGrows(c, ss, es, m', m);
    }
    NamesStay(c, ss, es, m, m', n);
  }

  lemma DaemonFollows(c: Reads, ss: seq<State>, es: seq<Event>, k: nat, j: nat, m: nat)
    requires c != Mixed && IsRun(c, ss, es) && k < |ss| && 0 < j < |ss[k].hist| && ss[k].hist[j].origin.Daemon?
    requires m < |ss| && |ss[m].hist| < j && Listed(ss[m].nodes, ss[k].hist[j - 1].status.primary)
    ensures ss[k].hist[j].status.primary == ss[k].hist[j - 1].status.primary
  {
    var p := ss[k].hist[j - 1].status.primary;
    TableSorted(c, ss, es, m);
    CommitSeesEarlierNames(c, ss, es, k, j, m, p);
    PrimaryKeptIffListed(c, ss, es, k, j);
  }

  /** A committed primary that was in the node table when it was committed, or earlier, stays primary
      until the next winning failover.  This covers a primary that a daemon chose and a failover
      target that has registered by the time the failover wins. */
  lemma {:induction false} ListedPrimaryStays(c: Reads, ss: seq<State>, es: seq<Event>, k: nat, i: nat, j: nat, m: nat)
    requires c != Mixed && IsRun(c, ss, es) && k < |ss| && i <= j < |ss[k].hist|
    requires m < |ss| && |ss[m].hist| <= i && Listed(ss[m].nodes, ss[k].hist[i].status.primary)
    requires forall q | i < q <= j :: ss[k].hist[q].origin.Daemon?
    ensures ss[k].hist[j].status.primary == ss[k].hist[i].status.primary
  {
    if i < j {
      ListedPrimaryStays(c, ss, es, k, i, j - 1, m);
      DaemonFollows(c, ss, es, k, j, m);
    }
  }

  /** A primary that a daemon committed was in the table while the status before it was current. */
  lemma ChosenWasListed(c: Reads, ss: seq<State>, es: seq<Event>, k: nat, i: nat) returns (m: nat)
    requires c != Mixed && IsRun(c, ss, es) && k < |ss| && i < |ss[k].hist|
    requires ss[k].hist[i].origin.Daemon? && ss[k].hist[i].status.primary != ""
    ensures m < |ss| && |ss[m].hist| == i && Listed(ss[m].nodes, ss[k].hist[i].status.primary)
  {
    var r := ss[k].hist[i];
    InvAlongRun(c, ss, es, k);
    assert RequestOk(ss[k].hist, r) && r.version == i;
    if r.nodes != [] {
      assert Listed(r.nodes, SelectPrimary(r.nodes, r.read.primary));
    }
    var d := CommitWasDelivered(c, ss, es, k, i);
    var f;
    m, f := ViableSawCurrent(c, ss, es, d, r);
  }

  /** Without failovers the primary is chosen once: all nonempty committed primaries are the same. */
  lemma ChosenOnce(c: Reads, ss: seq<State>, es: seq<Event>, k: nat, i: nat, j: nat)
    requires c != Mixed && IsRun(c, ss, es) && k < |ss| && i <= j < |ss[k].hist|
    requires Failovers(ss[k].hist) == 0 && ss[k].hist[i].status.primary != ""
    ensures ss[k].hist[j].status.primary == ss[k].hist[i].status.primary
  {
    NoFailoversMeansDaemons(ss[k].hist);
    var m := ChosenWasListed(c, ss, es, k, i);
    ListedPrimaryStays(c, ss, es, k, i, j, m);
  }

  ghost predicate DaemonsOnly(hist: seq<Request>) {
    forall i | 0 <= i < |hist| :: hist[i].origin.Daemon?
  }

  lemma {:induction false} NoFailoversMeansDaemons(hist: seq<Request>)
    requires Failovers(hist) == 0
    ensures DaemonsOnly(hist)
  {
    if hist != [] {
      NoFailoversMeansDaemons(hist[..|hist| - 1]);
    }
  }

  // ---------- a chosen primary is kept by every cycle ----------

  /** The table of a read lists a primary that the status read names. */
  lemma ReadListsChosen(c: Reads, ss: seq<State>, es: seq<Event>, k: nat)
    requires c != Mixed && IsRun(c, ss, es) && k < |es| && DaemonsOnly(ss[k].hist)
    requires es[k].Read? && es[k].read.primary != ""
    ensures Listed(es[k].nodes, es[k].read.primary)
  {
    assert Next(ss[k], es[k], ss[k + 1]);
    assert MayRead(c, ss, es, k);
    var i: nat := es[k].version - 1;
    assert ss[k].hist[i].status.primary == es[k].read.primary;
    var m := ChosenWasListed(c, ss, es, k, i);
    var at := k;
    if c.Lagging? {
      at :| 0 <= at <= k && es[k].version <= |ss[at].hist| && es[k].nodes == ss[at].nodes;
    }
    if at < m {
      EarlierHistory(c, ss, es, at, m);
    }
    NamesStay(c, ss, es, m, at, es[k].read.primary);
  }

  /** The cycle goes on with the primary it read, if it read one. */
  predicate KeepsRead(cycle: Cycle) {
    match cycle
    case Idle => true
    case Waiting(r) => r.read.primary != "" ==> r.status.primary == r.read.primary
    case Ready(status, read, _, _) => read.primary != "" ==> status.primary == read.primary
  }

  lemma StepKeepsRead(s: State, e: Event, s': State, n: Name)
    requires Next(s, e, s') && KeepsRead(CycleOf(s, n))
    requires e.Read? && e.read.primary != "" ==> Listed(e.nodes, e.read.primary)
    ensures KeepsRead(CycleOf(s', n))
  {
    if e.Read? && e.read.primary != "" {
      assert SelectPrimary(e.nodes, e.read.primary) == e.read.primary;
    }
  }

  lemma {:induction false} CyclesKeepRead(c: Reads, ss: seq<State>, es: seq<Event>, k: nat, n: Name)
    requires c != Mixed && IsRun(c, ss, es) && k < |ss| && DaemonsOnly(ss[k].hist)
    ensures KeepsRead(CycleOf(ss[k], n))
  {
    if k > 0 {
      HistoryGrows(c, ss, es, k - 1, k);
      CyclesKeepRead(c, ss, es, k - 1, n);
      if es[k - 1].Read? && es[k - 1].read.primary != "" {
        ReadListsChosen(c, ss, es, k - 1);
      }
      assert Next(ss[k - 1], es[k - 1], ss[k]);
      StepKeepsRead(ss[k - 1], es[k - 1], ss[k], n);
    }
  }

  // ---------- how many nodes act as primary ----------

  /** The cycle is about to apply a status that lost its compare-and-set and was computed from one
      without a primary.  A daemon that looked at the outcome of its write could tell. */
  ghost predicate LosesBlindly(cycle: Cycle) {
    IsLost(cycle) && cycle.read.primary == ""
  }

  ghost predicate NoBlindLoss(ss: seq<State>, es: seq<Event>, k: nat)
    requires k <= |es| <= |ss|
  {
    forall j {:trigger es[j]} | 0 <= j < k :: es[j].Apply? ==> !LosesBlindly(CycleOf(ss[j], es[j].node))
  }

  ghost predicate IsPrimary(s: State, n: Name) {
    n in s.roles && s.roles[n] == PrimaryRole
  }

  ghost predicate WasPrimary(hist: seq<Request>, n: Name) {
    exists i :: 0 <= i < |hist| && hist[i].status.primary == n
  }

  lemma {:induction false} NamelessNeverActs(c: Reads, ss: seq<State>, es: seq<Event>, k: nat)
    requires IsRun(c, ss, es) && k < |ss|
    ensures CycleOf(ss[k], "").Idle? && "" !in ss[k].roles
  {
    if k > 0 {
      NamelessNeverActs(c, ss, es, k - 1);
      assert Next(ss[k - 1], es[k - 1], ss[k]);
    }
  }

  /** A cycle that kept the primary it read, and did not lose blindly, makes its node primary only if
      that is a committed primary. */
  lemma AppliedWasCommitted(c: Reads, ss: seq<State>, es: seq<Event>, k: nat)
    requires IsRun(c, ss, es) && k < |es| && es[k].Apply? && !LosesBlindly(CycleOf(ss[k], es[k].node))
    requires KeepsRead(CycleOf(ss[k], es[k].node))
    ensures RoleOf(CycleOf(ss[k], es[k].node).status, es[k].node).PrimaryRole? ==> WasPrimary(ss[k].hist, es[k].node)
  {
    RolesComeFromCommits(c, ss, es, k);
    var cycle, h := CycleOf(ss[k], es[k].node), ss[k].hist;
    if cycle.outcome.Won? {
      assert cycle.status == h[cycle.version].status;
    } else {
      InvAlongRun(c, ss, es, k);
      assert ReadyOk(h, cycle);
      if cycle.version > 0 {
        assert StatusAt(h, cycle.version) == h[cycle.version - 1].status;
      }
    }
  }

  lemma {:induction false} PrimariesWereCommitted(c: Reads, ss: seq<State>, es: seq<Event>, k: nat, n: Name)
    requires c != Mixed && IsRun(c, ss, es) && k < |ss| && DaemonsOnly(ss[k].hist)
    requires NoBlindLoss(ss, es, k) && IsPrimary(ss[k], n)
    ensures WasPrimary(ss[k].hist, n)
  {
    var j := k - 1;
    assert Next(ss[j], es[j], ss[k]);
    HistoryGrows(c, ss, es, j, k);
    if IsPrimary(ss[j], n) {
      PrimariesWereCommitted(c, ss, es, j, n);
    } else {
      CyclesKeepRead(c, ss, es, j, n);
      AppliedWasCommitted(c, ss, es, j);
    }
  }

  /** While no failover has won, and no cycle that lost its compare-and-set after reading a status
      without a primary has applied what it computed, at most one node has ever configured itself as
      primary.  A lost cycle that had read a primary does no harm.  Neither condition can be dropped:
      see ReconcileWitness.LostCycleAppliesItsOwnStatus and ReconcileWitness.FailoverOverlaps. */
  lemma OnePrimary(c: Reads, ss: seq<State>, es: seq<Event>, k: nat, l: nat, a: Name, b: Name)
    requires c != Mixed && IsRun(c, ss, es) && l <= k < |ss|
    requires Failovers(ss[k].hist) == 0 && NoBlindLoss(ss, es, k)
    requires IsPrimary(ss[l], a) && IsPrimary(ss[k], b)
    ensures a == b
  {
    var h := ss[k].hist;
    NoFailoversMeansDaemons(h);
    HistoryGrows(c, ss, es, l, k);
    PrimariesWereCommitted(c, ss, es, l, a);
    PrimariesWereCommitted(c, ss, es, k, b);
    NamelessNeverActs(c, ss, es, l);
    NamelessNeverActs(c, ss, es, k);
    var i :| 0 <= i < |ss[l].hist| && ss[l].hist[i].status.primary == a;
    var j :| 0 <= j < |h| && h[j].status.primary == b;
    if i <= j {
      ChosenOnce(c, ss, es, k, i, j);
    } else {
      ChosenOnce(c, ss, es, k, j, i);
    }
  }
}
