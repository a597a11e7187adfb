/** Both storage layouts serve the reconciliation protocol: one register and one table per cluster. */
module Layouts {
  import opened Common
  import opened ClusterLogic
  import opened SortedStore
  import opened StoreSpec
  import opened Reconcile
  import EtcdStore
  import DynamoStore

  /** The two layouts answer alike: the same nodes, and statuses that differ at most in whether an
      empty slice is nil, each being a re-encoding of the register's content. */
  lemma LayoutsAgree(ops: seq<Op>, c: Name)
    requires EtcdStore.Apart(c, ops)
    ensures var e := EtcdStore.Fetch(EtcdStore.StoreAfter(ops), c);
            var d := DynamoStore.FetchFrom(DynamoStore.Partition(DynamoStore.StoreAfter(ops), c));
            var reg := RegisterAfter(ops, c);
            e.Ok? && d.Ok? ==>
              && e.value.nodes == d.value.nodes == TableAfter(ops, c)
              && Recoded(e.value.status, d.value.status)
              && Recoded(if reg.None? then ZERO_STATUS else reg.value, e.value.status)
  {
    EtcdStore.FetchUndoesWrites(ops, c);
    DynamoStore.FetchUndoesWrites(ops, c);
  }

  // ---------- the protocol's steps as store operations ----------

  /** What one event of cluster c makes the store do. */
  function OpOf(e: Event, c: Name): seq<Op> {
    if e.Heartbeat? then [PutNodeStatus(c, e.n)]
    else if e.Deliver? then [CasStatus(c, e.r.read.uuid, e.r.status)]
    else []
  }

  /** What the events of a protocol run of cluster c make the store do. */
  function OpsOf(es: seq<Event>, c: Name): seq<Op> {
    if es == [] then [] else OpsOf(es[..|es| - 1], c) + OpOf(es[|es| - 1], c)
  }

  /** ops are the store operations of the run, with writes of other clusters anywhere in between. */
  ghost predicate Interleaves(ops: seq<Op>, own: seq<Op>, c: Name) {
    if ops == [] then own == []
    else
      var front, op := ops[..|ops| - 1], ops[|ops| - 1];
      if op.cluster != c then Interleaves(front, own, c)
      else own != [] && own[|own| - 1] == op && Interleaves(front, own[..|own| - 1], c)
  }

  lemma {:induction false} OthersDoNotMatter(ops: seq<Op>, own: seq<Op>, c: Name)
    requires Interleaves(ops, own, c)
    ensures RegisterAfter(ops, c) == RegisterAfter(own, c)
    ensures TableAfter(ops, c) == TableAfter(own, c)
  {
    if ops != [] {
      var front, op := ops[..|ops| - 1], ops[|ops| - 1];
      if op.cluster != c {
        OthersDoNotMatter(front, own, c);
      } else {
        OthersDoNotMatter(front, own[..|own| - 1], c);
      }
    }
  }

  function Committed(hist: seq<Request>): Option<ClusterStatus> {
    if hist == [] then None else Some(Current(hist))
  }

  /** The register's compare is the protocol's, Nil standing for "nothing committed". */
  lemma CasIsDeliver(s: State, r: Request)
    requires UuidsOk(s)
    ensures CasRegister(Committed(s.hist), r.read.uuid, r.status) == Committed(DeliverStep(s, r).hist)
  {
  }

  lemma RegisterFollowsStep(s: State, e: Event, before: seq<Op>, after: seq<Op>, c: Name)
    requires UuidsOk(s) && (e.Apply? ==> CycleOf(s, e.node).Ready?)
    requires RegisterAfter(before, c) == Committed(s.hist) && TableAfter(before, c) == s.nodes
    requires after == before + OpOf(e, c)
    ensures RegisterAfter(after, c) == Committed(Step(s, e).hist)
    ensures TableAfter(after, c) == Step(s, e).nodes
  {
    if e.Heartbeat? {
    } else if e.Deliver? {
      CasIsDeliver(s, e.r);
    } else {
      assert before + [] == before;
    }
  }

  lemma OpsOneMore(es: seq<Event>, c: Name, k: nat)
    requires k < |es|
    ensures OpsOf(es[..k + 1], c) == OpsOf(es[..k], c) + OpOf(es[k], c)
  {
    assert es[..k + 1][..k] == es[..k];
  }

  lemma StepFacts(mode: Reads, ss: seq<State>, es: seq<Event>, k: nat)
    requires IsRun(mode, ss, es) && k < |es|
    ensures UuidsOk(ss[k]) && (es[k].Apply? ==> CycleOf(ss[k], es[k].node).Ready?) && ss[k + 1] == Step(ss[k], es[k])
  {
    InvAlongRun(mode, ss, es, k);
    assert Next(ss[k], es[k], ss[k + 1]);
  }

  lemma {:induction false} RegisterFollowsRun(mode: Reads, ss: seq<State>, es: seq<Event>, c: Name, k: nat)
    requires IsRun(mode, ss, es) && k < |ss|
    ensures RegisterAfter(OpsOf(es[..k], c), c) == Committed(ss[k].hist)
    ensures TableAfter(OpsOf(es[..k], c), c) == ss[k].nodes
  {
    if k > 0 {
      RegisterFollowsRun(mode, ss, es, c, k - 1);
      RegisterNext(mode, ss, es, c, k - 1);
    }
  }

  lemma RegisterNext(mode: Reads, ss: seq<State>, es: seq<Event>, c: Name, i: nat)
    requires IsRun(mode, ss, es) && i < |es|
    requires RegisterAfter(OpsOf(es[..i], c), c) == Committed(ss[i].hist)
    requires TableAfter(OpsOf(es[..i], c), c) == ss[i].nodes
    ensures RegisterAfter(OpsOf(es[..i + 1], c), c) == Committed(ss[i + 1].hist)
    ensures TableAfter(OpsOf(es[..i + 1], c), c) == ss[i + 1].nodes
  {
    StepFacts(mode, ss, es, i);
    OpsOneMore(es, c, i);
    RegisterFollowsStep(ss[i], es[i], OpsOf(es[..i], c), OpsOf(es[..i + 1], c), c);
  }

  /** What the protocol lets a daemon read in state s; before the first write of the cluster a fetch
      may fail instead, with "not found". */
  ghost predicate Serves(r: Result<ClusterState, FetchError>, s: State) {
    if r.Err? then r.error == NotFound && s.hist == [] && s.nodes == []
    else r.value.nodes == s.nodes && Recoded(Current(s.hist), r.value.status)
  }

  /** End to end: whatever other clusters with separate names share the etcd server, what a fetch
      returns after k events of a protocol run is what the protocol lets a daemon read there. */
  lemma EtcdServesProtocol(mode: Reads, ss: seq<State>, es: seq<Event>, c: Name, k: nat, ops: seq<Op>)
    requires IsRun(mode, ss, es) && k < |ss|
    requires EtcdStore.Apart(c, ops)
    requires Interleaves(ops, OpsOf(es[..k], c), c)
    ensures Serves(EtcdStore.Fetch(EtcdStore.StoreAfter(ops), c), ss[k])
  {
    RegisterFollowsRun(mode, ss, es, c, k);
    OthersDoNotMatter(ops, OpsOf(es[..k], c), c);
    EtcdStore.FetchUndoesWrites(ops, c);
    if EtcdStore.Fetch(EtcdStore.StoreAfter(ops), c).Err? {
      EtcdStore.NotFoundMeansEmpty(ops, c);
    }
  }

  /** The same for DynamoDB, for all cluster names, when the query sees the current items. */
  lemma DynamoServesProtocol(mode: Reads, ss: seq<State>, es: seq<Event>, c: Name, k: nat, ops: seq<Op>)
    requires IsRun(mode, ss, es) && k < |ss|
    requires Interleaves(ops, OpsOf(es[..k], c), c)
    ensures Serves(DynamoStore.FetchFrom(DynamoStore.Partition(DynamoStore.StoreAfter(ops), c)), ss[k])
  {
    var items := DynamoStore.Partition(DynamoStore.StoreAfter(ops), c);
    RegisterFollowsRun(mode, ss, es, c, k);
    OthersDoNotMatter(ops, OpsOf(es[..k], c), c);
    DynamoStore.FetchUndoesWrites(ops, c);
    if items == [] {
      DynamoStore.NotFoundMeansEmpty(ops, c);
    }
  }

  // ---------- old answers ----------

  /** A point of the store's history is a point of the run. */
  lemma {:induction false} PointInRun(es: seq<Event>, c: Name, k: nat, ops: seq<Op>, j: nat) returns (i: nat)
    requires k <= |es| && j <= |ops| && Interleaves(ops, OpsOf(es[..k], c), c)
    ensures i <= k && Interleaves(ops[..j], OpsOf(es[..i], c), c)
    decreases |ops| + k
  {
    if j == |ops| {
      i := k;
      assert ops[..j] == ops;
    } else {
      var front, op := ops[..|ops| - 1], ops[|ops| - 1];
      assert front[..j] == ops[..j];
      if op.cluster != c {
        i := PointInRun(es, c, k, front, j);
      } else {
        assert k > 0;
        var before := OpsOf(es[..k - 1], c);
        OpsOneMore(es, c, k - 1);
        if OpOf(es[k - 1], c) == [] {
          assert before + [] == before;
          i := PointInRun(es, c, k - 1, ops, j);
        } else {
          assert (before + OpOf(es[k - 1], c))[..|before|] == before;
          i := PointInRun(es, c, k - 1, front, j);
        }
      }
    }
  }

  lemma OldStatusWasCommitted(mode: Reads, ss: seq<State>, es: seq<Event>, c: Name, k: nat, ops: seq<Op>,
                              status: ClusterStatus, j: nat)
      returns (version: nat)
    requires IsRun(mode, ss, es) && k < |ss| && Interleaves(ops, OpsOf(es[..k], c), c)
    requires DynamoStore.WasStatus(ops, c, status, j)
    ensures version <= |ss[k].hist| && Recoded(StatusAt(ss[k].hist, version), status)
  {
    var i := PointInRun(es, c, k, ops, j);
    RegisterFollowsRun(mode, ss, es, c, i);
    OthersDoNotMatter(ops[..j], OpsOf(es[..i], c), c);
    HistoryGrows(mode, ss, es, i, k);
    version := |ss[i].hist|;
    assert StatusAt(ss[k].hist, version) == Current(ss[i].hist);
  }

  lemma OldNodeWasWritten(mode: Reads, ss: seq<State>, es: seq<Event>, c: Name, k: nat, ops: seq<Op>,
                          n: NodeStatus, j: nat)
    requires IsRun(mode, ss, es) && k < |ss| && Interleaves(ops, OpsOf(es[..k], c), c)
    requires DynamoStore.WasInTable(ops, c, n, j)
    ensures WasWritten(es, k, n)
  {
    var i := PointInRun(es, c, k, ops, j);
    RegisterFollowsRun(mode, ss, es, c, i);
    OthersDoNotMatter(ops[..j], OpsOf(es[..i], c), c);
    TableWasWritten(mode, ss, es, i, n);
  }

  /** Any answer of a DynamoDB query, with items missing or old, is one that the mixed mode of the
      protocol allows after k events. */
  lemma DynamoServesMixedReads(mode: Reads, ss: seq<State>, es: seq<Event>, c: Name, k: nat, ops: seq<Op>,
                               answer: seq<Entry>)
      returns (version: nat)
    requires IsRun(mode, ss, es) && k < |ss|
    requires Interleaves(ops, OpsOf(es[..k], c), c)
    requires DynamoStore.StaleAnswer(answer, ops, c) && answer != []
    ensures var r := DynamoStore.FetchFrom(answer);
            && r.Ok?
            && version <= |ss[k].hist| && Recoded(StatusAt(ss[k].hist, version), r.value.status)
            && SortedNodes(r.value.nodes) && forall n | n in r.value.nodes :: WasWritten(es, k, n)
  {
    DynamoStore.StaleFetch(answer, ops, c);
    var state := DynamoStore.FetchFrom(answer).value;
    var j: nat :| DynamoStore.WasStatus(ops, c, state.status, j);
    version := OldStatusWasCommitted(mode, ss, es, c, k, ops, state.status, j);
    forall n | n in state.nodes ensures WasWritten(es, k, n) {
      var i: nat :| DynamoStore.WasInTable(ops, c, n, i);
      OldNodeWasWritten(mode, ss, es, c, k, ops, n, i);
    }
  }
}
