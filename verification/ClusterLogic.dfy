/** The deterministic step from a cluster state to a new cluster status (pgdaemon/logic.go). */
module ClusterLogic {
  import opened Common

  /** A Go slice: nil and empty are different values with the same elements. */
  datatype Slice<+T> = NilSlice | Elems(xs: seq<T>)

  function Items<T>(s: Slice<T>): seq<T> {
    if s.NilSlice? then [] else s.xs
  }

  /** The slice a nil variable grows into by appending xs. */
  function Appended<T>(xs: seq<T>): Slice<T> {
    if xs == [] then NilSlice else Elems(xs)
  }

  datatype Health = Unset | Healthy | Unhealthy

  datatype Reason =
    | NoNodes
    | HasError(name: Name)
    | NotIntendedPrimary(name: Name)
    | ReplicaCount(name: Name, have: nat, want: nat)
    | NotIntendedReplica(name: Name)
    | NotReplicating(name: Name)

  datatype ClusterStatus = ClusterStatus(
    uuid: Uuid, sourceNode: Name, sourceTime: string,
    health: Health, reasons: Slice<Reason>,
    primary: Name, replicas: Slice<Name>)

  const ZERO_STATUS := ClusterStatus(NIL, "", "", Unset, NilSlice, "", NilSlice)

  datatype NodeReplica = NodeReplica(
    hostname: Name, state: string, writeLsn: Option<string>, writeLag: Option<string>,
    syncState: Option<string>, replyTime: Option<string>)

  datatype ReplicationStatus = ReplicationStatus(primaryHost: Name, status: string, writtenLsn: Option<string>)

  datatype NodeStatus = NodeStatus(
    name: Name, uuid: Uuid, time: string, error: Option<string>, isPrimary: bool,
    replicas: seq<NodeReplica>, replication: Option<ReplicationStatus>)

  datatype ClusterState = ClusterState(status: ClusterStatus, nodes: seq<NodeStatus>)

  ghost predicate Listed(nodes: seq<NodeStatus>, n: Name) {
    exists i :: 0 <= i < |nodes| && nodes[i].name == n
  }

  ghost predicate DistinctNames(nodes: seq<NodeStatus>) {
    forall i, j | 0 <= i < j < |nodes| :: nodes[i].name != nodes[j].name
  }

  // ---------- choosing the primary ----------

  predicate HasName(nodes: seq<NodeStatus>, n: Name)
    ensures HasName(nodes, n) <==> Listed(nodes, n)
  {
    nodes != [] && (nodes[|nodes| - 1].name == n || HasName(nodes[..|nodes| - 1], n))
  }

  /** The first node without an error, else the first node. */
  function PickPrimary(nodes: seq<NodeStatus>): (p: Name)
    requires nodes != []
    ensures Listed(nodes, p)
  {
    var last := |nodes| - 1;
    if last == 0 then nodes[0].name
    else
      var earlier := PickPrimary(nodes[..last]);
      if nodes[last].error.None? && AllFail(nodes[..last]) then nodes[last].name else earlier
  }

  predicate AllFail(nodes: seq<NodeStatus>) {
    forall i | 0 <= i < |nodes| :: nodes[i].error.Some?
  }

  function SelectPrimary(nodes: seq<NodeStatus>, current: Name): Name {
    if current != "" && HasName(nodes, current) then current
    else if nodes == [] then ""
    else PickPrimary(nodes)
  }

  lemma {:induction false} PickPrimaryPrefix(nodes: seq<NodeStatus>, k: nat)
    requires k < |nodes|
    requires forall j | 0 <= j < k :: nodes[j].error.Some?
    requires nodes[k].error.None? || (k == 0 && AllFail(nodes))
    ensures PickPrimary(nodes) == nodes[k].name
  {
    var last := |nodes| - 1;
    if k < last {
      PickPrimaryPrefix(nodes[..last], k);
      assert nodes[..last][k] == nodes[k];
    }
  }

  /** k is the first node without an error, or the first node if all have errors. */
  ghost predicate FirstFit(nodes: seq<NodeStatus>, k: nat) {
    && k < |nodes|
    && if AllFail(nodes) then k == 0
       else nodes[k].error.None? && forall j | 0 <= j < k :: nodes[j].error.Some?
  }

  /** An existing primary that is still listed stays; otherwise the first fit node is chosen, nobody if
      there is no node. */
  ghost predicate RightChoice(nodes: seq<NodeStatus>, current: Name, p: Name) {
    if current != "" && Listed(nodes, current) then p == current
    else if nodes == [] then p == ""
    else exists k: nat :: FirstFit(nodes, k) && p == nodes[k].name
  }

  method SelectIntendedPrimary(nodes: seq<NodeStatus>, currentPrimary: Name) returns (p: Name)
    ensures RightChoice(nodes, currentPrimary, p)
    ensures p == SelectPrimary(nodes, currentPrimary)
  {
    SelectPrimaryMeaning(nodes, currentPrimary);
    if currentPrimary != "" {
      for i := 0 to |nodes|
        invariant forall j | 0 <= j < i :: nodes[j].name != currentPrimary
      {
        if nodes[i].name == currentPrimary {
          return currentPrimary;
        }
      }
    }
    if |nodes| > 0 {
      for i := 0 to |nodes|
        invariant forall j | 0 <= j < i :: nodes[j].error.Some?
      {
        if nodes[i].error.None? {
          PickPrimaryPrefix(nodes, i);
          return nodes[i].name;
        }
      }
      PickPrimaryPrefix(nodes, 0);
      return nodes[0].name;
    }
    return "";
  }

  lemma {:induction false} FirstFitExists(nodes: seq<NodeStatus>) returns (k: nat)
    requires nodes != []
    ensures FirstFit(nodes, k) && nodes[k].name == PickPrimary(nodes)
  {
    k := 0;
    while k < |nodes| && nodes[k].error.Some?
      invariant k <= |nodes| && forall j | 0 <= j < k :: nodes[j].error.Some?
    {
      k := k + 1;
    }
    if k == |nodes| {
      k := 0;
    }
    PickPrimaryPrefix(nodes, k);
  }

  /** The specified choice is the right one, and there is only one. */
  lemma SelectPrimaryMeaning(nodes: seq<NodeStatus>, current: Name)
    ensures forall p :: RightChoice(nodes, current, p) <==> p == SelectPrimary(nodes, current)
  {
    if nodes != [] {
      var k := FirstFitExists(nodes);
      assert forall j: nat | FirstFit(nodes, j) :: j == k;
    }
  }

  // ---------- the replicas ----------

  function OthersThan(nodes: seq<NodeStatus>, p: Name): seq<Name> {
    if nodes == [] then []
    else
      var last := |nodes| - 1;
      OthersThan(nodes[..last], p) + if nodes[last].name != p then [nodes[last].name] else []
  }

  method BuildIntendedReplicas(nodes: seq<NodeStatus>, intendedPrimary: Name) returns (r: Slice<Name>)
    ensures r == Appended(OthersThan(nodes, intendedPrimary))
  {
    var replicas := [];
    for i := 0 to |nodes|
      invariant replicas == OthersThan(nodes[..i], intendedPrimary)
    {
      assert nodes[..i + 1][..i] == nodes[..i];
      if nodes[i].name != intendedPrimary {
        replicas := replicas + [nodes[i].name];
      }
    }
    assert nodes[..|nodes|] == nodes;
    if |replicas| == 0 {
      return NilSlice;
    }
    return Elems(replicas);
  }

  lemma {:induction false} OthersMembers(nodes: seq<NodeStatus>, p: Name, n: Name)
    ensures n in OthersThan(nodes, p) <==> n != p && Listed(nodes, n)
  {
    if nodes != [] {
      var last := |nodes| - 1;
      OthersMembers(nodes[..last], p, n);
      assert Listed(nodes, n) <==> nodes[last].name == n || Listed(nodes[..last], n) by {
        if Listed(nodes[..last], n) {
          var i :| 0 <= i < last && nodes[..last][i].name == n;
          assert nodes[i].name == n;
        }
        if Listed(nodes, n) && nodes[last].name != n {
          var i :| 0 <= i < |nodes| && nodes[i].name == n;
          assert nodes[..last][i].name == n;
        }
      }
    }
  }

  lemma {:induction false} OthersCount(nodes: seq<NodeStatus>, p: Name)
    requires DistinctNames(nodes)
    ensures |OthersThan(nodes, p)| == if Listed(nodes, p) then |nodes| - 1 else |nodes|
    ensures forall i, j | 0 <= i < j < |OthersThan(nodes, p)| :: OthersThan(nodes, p)[i] != OthersThan(nodes, p)[j]
  {
    if nodes != [] {
      var last := |nodes| - 1;
      var front := nodes[..last];
      OthersCount(front, p);
      if nodes[last].name != p {
        OthersMembers(front, p, nodes[last].name);
        assert HasName(nodes, p) == HasName(front, p);
      } else {
        assert !Listed(front, p);
      }
    }
  }

  /** Places of a table with this many entries, in order. */
  ghost predicate Increasing(places: seq<nat>, bound: nat) {
    && (forall i | 0 <= i < |places| :: places[i] < bound)
    && forall i, j | 0 <= i < j < |places| :: places[i] < places[j]
  }

  /** The places are exactly those of the entries not named p. */
  ghost predicate PlacesOfOthers(places: seq<nat>, nodes: seq<NodeStatus>, p: Name) {
    forall j: nat {:trigger nodes[j]} | j < |nodes| :: j in places <==> nodes[j].name != p
  }

  ghost predicate NamesAt(names: seq<Name>, nodes: seq<NodeStatus>, places: seq<nat>) {
    |names| == |places| && forall i | 0 <= i < |places| :: places[i] < |nodes| && names[i] == nodes[places[i]].name
  }

  /** The replicas are the names of all entries not named p, in table order. */
  ghost predicate Filtered(replicas: seq<Name>, nodes: seq<NodeStatus>, p: Name, places: seq<nat>) {
    Increasing(places, |nodes|) && PlacesOfOthers(places, nodes, p) && NamesAt(replicas, nodes, places)
  }

  /** That holds for any table, also with repeated names. */
  lemma {:induction false} OthersFiltered(nodes: seq<NodeStatus>, p: Name) returns (places: seq<nat>)
    ensures Filtered(OthersThan(nodes, p), nodes, p, places)
  {
    if nodes == [] {
      places := [];
    } else {
      var last := |nodes| - 1;
      var front := OthersFiltered(nodes[..last], p);
      places := if nodes[last].name != p then front + [last] else front;
      IncreasingOneMore(front, last);
      PlacesOneMore(nodes, p, front);
      NamesOneMore(OthersThan(nodes[..last], p), nodes, front);
    }
  }

  lemma IncreasingOneMore(front: seq<nat>, last: nat)
    requires Increasing(front, last)
    ensures Increasing(front, last + 1) && Increasing(front + [last], last + 1)
  {
  }

  lemma PlacesOneMore(nodes: seq<NodeStatus>, p: Name, front: seq<nat>)
    requires nodes != [] && Increasing(front, |nodes| - 1) && PlacesOfOthers(front, nodes[..|nodes| - 1], p)
    ensures var last := |nodes| - 1;
            PlacesOfOthers(if nodes[last].name != p then front + [last] else front, nodes, p)
  {
    var last := |nodes| - 1;
    forall j: nat {:trigger nodes[j]} | j < last ensures j in front <==> nodes[j].name != p {
      assert nodes[..last][j] == nodes[j];
    }
  }

  lemma NamesOneMore(names: seq<Name>, nodes: seq<NodeStatus>, front: seq<nat>)
    requires nodes != [] && NamesAt(names, nodes[..|nodes| - 1], front)
    ensures NamesAt(names, nodes, front)
    ensures NamesAt(names + [nodes[|nodes| - 1].name], nodes, front + [|nodes| - 1])
  {
    forall i | 0 <= i < |front| ensures names[i] == nodes[front[i]].name {
      assert nodes[..|nodes| - 1][front[i]] == nodes[front[i]];
    }
  }

  /** The replicas are the names in table order, with the primary's left out. */
  lemma {:induction false} OthersInOrder(nodes: seq<NodeStatus>, k: nat)
    requires DistinctNames(nodes) && k < |nodes|
    ensures var others := OthersThan(nodes, nodes[k].name);
            && |others| == |nodes| - 1
            && (forall i | 0 <= i < k :: others[i] == nodes[i].name)
            && (forall i | k < i < |nodes| :: others[i - 1] == nodes[i].name)
  {
    var last := |nodes| - 1;
    var front := nodes[..last];
    if k < last {
      OthersInOrder(front, k);
      assert front[k] == nodes[k];
    } else {
      OthersWithout(front, nodes[k].name);
    }
  }

  lemma {:induction false} OthersWithout(nodes: seq<NodeStatus>, p: Name)
    requires forall i | 0 <= i < |nodes| :: nodes[i].name != p
    ensures |OthersThan(nodes, p)| == |nodes|
    ensures forall i | 0 <= i < |nodes| :: OthersThan(nodes, p)[i] == nodes[i].name
  {
    if nodes != [] {
      OthersWithout(nodes[..|nodes| - 1], p);
    }
  }

  // ---------- health ----------

  function NodeReasons(node: NodeStatus, primary: Name, replicas: seq<Name>): seq<Reason> {
    if node.error.Some? then [HasError(node.name)]
    else if node.isPrimary then
      (if node.name != primary then [NotIntendedPrimary(node.name)] else [])
      + (if |node.replicas| != |replicas| then [ReplicaCount(node.name, |node.replicas|, |replicas|)] else [])
    else
      (if node.name !in replicas then [NotIntendedReplica(node.name)] else [])
      + (if node.replication.None? then [NotReplicating(node.name)] else [])
  }

  function AllReasons(nodes: seq<NodeStatus>, primary: Name, replicas: seq<Name>): seq<Reason> {
    if nodes == [] then []
    else AllReasons(nodes[..|nodes| - 1], primary, replicas) + NodeReasons(nodes[|nodes| - 1], primary, replicas)
  }

  function UnhealthyReasons(nodes: seq<NodeStatus>, primary: Name, replicas: seq<Name>): seq<Reason> {
    if nodes == [] then [NoNodes] else AllReasons(nodes, primary, replicas)
  }

  method ComputeClusterUnhealthyReasons(nodes: seq<NodeStatus>, status: ClusterStatus) returns (r: Slice<Reason>)
    ensures r == Appended(UnhealthyReasons(nodes, status.primary, Items(status.replicas)))
  {
    if |nodes| == 0 {
      return Elems([NoNodes]);
    }
    var replicas := Items(status.replicas);
    var reasons := [];
    for i := 0 to |nodes|
      invariant reasons == AllReasons(nodes[..i], status.primary, replicas)
    {
      assert nodes[..i + 1][..i] == nodes[..i];
      var node := nodes[i];
      ghost var before := reasons;
      if node.error.Some? {
        reasons := reasons + [HasError(node.name)];
      } else if node.isPrimary {
        if node.name != status.primary {
          reasons := reasons + [NotIntendedPrimary(node.name)];
        }
        if |node.replicas| != |replicas| {
          reasons := reasons + [ReplicaCount(node.name, |node.replicas|, |replicas|)];
        }
      } else {
        if node.name !in replicas {
          reasons := reasons + [NotIntendedReplica(node.name)];
        }
        if node.replication.None? {
          reasons := reasons + [NotReplicating(node.name)];
        }
      }
      assert reasons == before + NodeReasons(node, status.primary, replicas);
    }
    assert nodes[..|nodes|] == nodes;
    return Appended(reasons);
  }

  /** What each reason claims about a node. */
  predicate ReasonHolds(r: Reason, node: NodeStatus, primary: Name, replicas: seq<Name>) {
    match r
    case NoNodes => false
    case HasError(n) => node.name == n && node.error.Some?
    case NotIntendedPrimary(n) => node.name == n && node.error.None? && node.isPrimary && n != primary
    case ReplicaCount(n, have, want) =>
      && node.name == n && node.error.None? && node.isPrimary
      && have == |node.replicas| && want == |replicas| && have != want
    case NotIntendedReplica(n) => node.name == n && node.error.None? && !node.isPrimary && n !in replicas
    case NotReplicating(n) => node.name == n && node.error.None? && !node.isPrimary && node.replication.None?
  }

  lemma NodeReasonsExact(node: NodeStatus, primary: Name, replicas: seq<Name>, r: Reason)
    ensures r in NodeReasons(node, primary, replicas) <==> ReasonHolds(r, node, primary, replicas)
  {
  }

  /** A reason is reported if and only if it is true of some node, or there is no node at all. */
  lemma ReasonsExact(nodes: seq<NodeStatus>, primary: Name, replicas: seq<Name>, r: Reason)
    ensures r in UnhealthyReasons(nodes, primary, replicas)
            <==> (if nodes == [] then r == NoNodes else HoldsOfSome(r, nodes, primary, replicas))
  {
    AllReasonsExact(nodes, primary, replicas, r);
  }

  ghost predicate HoldsOfSome(r: Reason, nodes: seq<NodeStatus>, primary: Name, replicas: seq<Name>) {
    exists i :: 0 <= i < |nodes| && ReasonHolds(r, nodes[i], primary, replicas)
  }

  lemma HoldsOfSomeStep(r: Reason, nodes: seq<NodeStatus>, primary: Name, replicas: seq<Name>)
    requires nodes != []
    ensures var last := |nodes| - 1;
            HoldsOfSome(r, nodes, primary, replicas)
            <==> HoldsOfSome(r, nodes[..last], primary, replicas) || ReasonHolds(r, nodes[last], primary, replicas)
  {
    var front := nodes[..|nodes| - 1];
    if HoldsOfSome(r, front, primary, replicas) {
      var i :| 0 <= i < |front| && ReasonHolds(r, front[i], primary, replicas);
      assert front[i] == nodes[i];
    }
  }

  lemma {:induction false} AllReasonsExact(nodes: seq<NodeStatus>, primary: Name, replicas: seq<Name>, r: Reason)
    ensures r in AllReasons(nodes, primary, replicas) <==> HoldsOfSome(r, nodes, primary, replicas)
  {
    if nodes != [] {
      var last := |nodes| - 1;
      AllReasonsExact(nodes[..last], primary, replicas, r);
      NodeReasonsExact(nodes[last], primary, replicas, r);
      HoldsOfSomeStep(r, nodes, primary, replicas);
    }
  }

  /** The reasons of one node: each that holds, once, that about its role before that about its replication. */
  ghost predicate IsReport(report: seq<Reason>, node: NodeStatus, primary: Name, replicas: seq<Name>) {
    && (forall r :: r in report <==> ReasonHolds(r, node, primary, replicas))
    && |report| <= 2
    && (|report| == 2 ==> (report[0].NotIntendedPrimary? && report[1].ReplicaCount?)
                          || (report[0].NotIntendedReplica? && report[1].NotReplicating?))
  }

  lemma NodeReasonsReport(node: NodeStatus, primary: Name, replicas: seq<Name>)
    ensures IsReport(NodeReasons(node, primary, replicas), node, primary, replicas)
  {
    forall r ensures r in NodeReasons(node, primary, replicas) <==> ReasonHolds(r, node, primary, replicas) {
      NodeReasonsExact(node, primary, replicas, r);
    }
  }

  ghost predicate ReportAt(reasons: seq<Reason>, nodes: seq<NodeStatus>, primary: Name, replicas: seq<Name>,
                           cuts: seq<nat>, i: nat)
    requires i < |nodes| && |cuts| == |nodes| + 1
  {
    && cuts[i] <= cuts[i + 1] <= |reasons|
    && IsReport(reasons[cuts[i]..cuts[i + 1]], nodes[i], primary, replicas)
  }

  /** The reasons are the nodes' reports one after the other: node i's stand from cuts[i] up to cuts[i + 1]. */
  ghost predicate InReports(reasons: seq<Reason>, nodes: seq<NodeStatus>, primary: Name, replicas: seq<Name>,
                            cuts: seq<nat>)
  {
    && |cuts| == |nodes| + 1 && cuts[0] == 0 && cuts[|nodes|] == |reasons|
    && forall i: nat | i < |nodes| :: ReportAt(reasons, nodes, primary, replicas, cuts, i)
  }

  lemma ReportsOneMore(before: seq<Reason>, nodes: seq<NodeStatus>, primary: Name, replicas: seq<Name>,
                       cuts: seq<nat>, report: seq<Reason>)
    requires nodes != [] && InReports(before, nodes[..|nodes| - 1], primary, replicas, cuts)
    requires IsReport(report, nodes[|nodes| - 1], primary, replicas)
    ensures InReports(before + report, nodes, primary, replicas, cuts + [|before + report|])
  {
    var reasons, last, cuts' := before + report, |nodes| - 1, cuts + [|before + report|];
    forall i: nat | i < |nodes| ensures ReportAt(reasons, nodes, primary, replicas, cuts', i) {
      if i < last {
        assert ReportAt(before, nodes[..last], primary, replicas, cuts, i);
        assert reasons[cuts[i]..cuts[i + 1]] == before[cuts[i]..cuts[i + 1]];
      } else {
        assert reasons[cuts'[i]..cuts'[i + 1]] == report;
      }
    }
  }

  lemma {:induction false} AllReasonsInReports(nodes: seq<NodeStatus>, primary: Name, replicas: seq<Name>)
      returns (cuts: seq<nat>)
    ensures InReports(AllReasons(nodes, primary, replicas), nodes, primary, replicas, cuts)
  {
    if nodes == [] {
      cuts := [0];
    } else {
      var last := |nodes| - 1;
      var front := AllReasonsInReports(nodes[..last], primary, replicas);
      NodeReasonsReport(nodes[last], primary, replicas);
      ReportsOneMore(AllReasons(nodes[..last], primary, replicas), nodes, primary, replicas, front,
                     NodeReasons(nodes[last], primary, replicas));
      cuts := front + [|AllReasons(nodes, primary, replicas)|];
    }
  }

  // ---------- the new status ----------

  function Compute(state: ClusterState): ClusterStatus {
    var p := SelectPrimary(state.nodes, state.status.primary);
    var others := OthersThan(state.nodes, p);
    var reasons := UnhealthyReasons(state.nodes, p, others);
    state.status.(primary := p, replicas := Appended(others), reasons := Appended(reasons),
                  health := if reasons == [] then Healthy else Unhealthy)
  }

  /** The primary is the right choice, the replicas are all others in table order. */
  ghost predicate DescribesRoles(status: ClusterStatus, state: ClusterState, places: seq<nat>) {
    && RightChoice(state.nodes, state.status.primary, status.primary)
    && Filtered(Items(status.replicas), state.nodes, status.primary, places)
  }

  /** The reasons are what holds of each node under this very primary and these replicas, in table order,
      and the health says whether there are any. */
  ghost predicate DescribesHealth(status: ClusterStatus, nodes: seq<NodeStatus>, cuts: seq<nat>) {
    && (if nodes == [] then Items(status.reasons) == [NoNodes]
        else InReports(Items(status.reasons), nodes, status.primary, Items(status.replicas), cuts))
    && status.health == if Items(status.reasons) == [] then Healthy else Unhealthy
  }

  /** The metadata is kept, and no empty slice is left. */
  predicate KeepsRest(status: ClusterStatus, before: ClusterStatus) {
    && status.reasons != Elems([]) && status.replicas != Elems([])
    && status.uuid == before.uuid && status.sourceNode == before.sourceNode && status.sourceTime == before.sourceTime
  }

  /** What a computed status says about the table, field by field. */
  ghost predicate Describes(status: ClusterStatus, state: ClusterState, places: seq<nat>, cuts: seq<nat>) {
    && DescribesRoles(status, state, places)
    && DescribesHealth(status, state.nodes, cuts)
    && KeepsRest(status, state.status)
  }

  lemma ComputeDescribes(state: ClusterState) returns (places: seq<nat>, cuts: seq<nat>)
    ensures Describes(Compute(state), state, places, cuts)
  {
    var p := Compute(state).primary;
    SelectPrimaryMeaning(state.nodes, state.status.primary);
    places := OthersFiltered(state.nodes, p);
    cuts := AllReasonsInReports(state.nodes, p, OthersThan(state.nodes, p));
  }

  method ComputeNewClusterStatus(state: ClusterState) returns (status: ClusterStatus)
    ensures exists places, cuts :: Describes(status, state, places, cuts)
    ensures status == Compute(state)
  {
    status := state.status;

    var primary := SelectIntendedPrimary(state.nodes, status.primary);
    status := status.(primary := primary);
    var replicas := BuildIntendedReplicas(state.nodes, status.primary);
    status := status.(replicas := replicas);

    var reasons := ComputeClusterUnhealthyReasons(state.nodes, status);
    status := status.(reasons := reasons, health := Healthy);
    if |Items(status.reasons)| > 0 {
      status := status.(health := Unhealthy);
    }
    ghost var places, cuts := ComputeDescribes(state);
  }

  // ---------- change in meaning ----------

  /** What of a status counts: neither its metadata nor whether an empty slice is nil. */
  datatype Meaning = Meaning(health: Health, reasons: seq<Reason>, primary: Name, replicas: seq<Name>)

  function MeaningOf(s: ClusterStatus): Meaning {
    Meaning(s.health, Items(s.reasons), s.primary, Items(s.replicas))
  }

  predicate Changed(before: ClusterStatus, after: ClusterStatus) {
    MeaningOf(before) != MeaningOf(after)
  }

  /** A local copy of a status whose fields are set in place. */
  class StatusCopy {
    var status: ClusterStatus

    constructor (s: ClusterStatus)
      ensures status == s
    {
      status := s;
    }

    method ClearMetadata()
      modifies this
      ensures status == old(status).(uuid := NIL, sourceNode := "", sourceTime := "")
    {
      status := status.(uuid := NIL);
      status := status.(sourceNode := "");
      status := status.(sourceTime := "");
    }

    method NormalizeSlices()
      modifies this
      ensures MeaningOf(status) == MeaningOf(old(status))
      ensures status.reasons != Elems([]) && status.replicas != Elems([])
      ensures status.uuid == old(status.uuid)
      ensures status.sourceNode == old(status.sourceNode) && status.sourceTime == old(status.sourceTime)
    {
      if status.reasons.Elems? && |status.reasons.xs| == 0 {
        status := status.(reasons := NilSlice);
      }
      if status.replicas.Elems? && |status.replicas.xs| == 0 {
        status := status.(replicas := NilSlice);
      }
    }
  }

  /** The comparison ignores metadata and the difference of nil and empty, and nothing else. */
  method ClusterStatusChanged(before: ClusterStatus, after: ClusterStatus) returns (changed: bool)
    ensures !changed <==> before.health == after.health && before.primary == after.primary
                          && Items(before.reasons) == Items(after.reasons)
                          && Items(before.replicas) == Items(after.replicas)
    ensures changed <==> Changed(before, after)
  {
    var a := new StatusCopy(before);
    var b := new StatusCopy(after);
    a.ClearMetadata();
    b.ClearMetadata();
    a.NormalizeSlices();
    b.NormalizeSlices();
    changed := a.status != b.status;
  }

  // ---------- properties of Compute ----------

  /** The facts of a node status that Compute looks at; heartbeats change none of them. */
  datatype Fact = Fact(name: Name, failed: bool, isPrimary: bool, replicas: nat, replicating: bool)

  function FactOf(n: NodeStatus): Fact {
    Fact(n.name, n.error.Some?, n.isPrimary, |n.replicas|, n.replication.Some?)
  }

  ghost predicate SameFacts(a: seq<NodeStatus>, b: seq<NodeStatus>) {
    |a| == |b| && forall i | 0 <= i < |a| :: FactOf(a[i]) == FactOf(b[i])
  }

  lemma SameFactsFront(a: seq<NodeStatus>, b: seq<NodeStatus>)
    requires SameFacts(a, b) && a != []
    ensures SameFacts(a[..|a| - 1], b[..|b| - 1]) && FactOf(a[|a| - 1]) == FactOf(b[|b| - 1])
  {
  }

  lemma SelectByFacts(a: seq<NodeStatus>, b: seq<NodeStatus>, current: Name)
    requires SameFacts(a, b)
    ensures SelectPrimary(a, current) == SelectPrimary(b, current)
  {
    assert Listed(a, current) ==> Listed(b, current) by {
      if Listed(a, current) {
        var i :| 0 <= i < |a| && a[i].name == current;
        assert FactOf(a[i]) == FactOf(b[i]);
      }
    }
    assert Listed(b, current) ==> Listed(a, current) by {
      if Listed(b, current) {
        var i :| 0 <= i < |b| && b[i].name == current;
        assert FactOf(a[i]) == FactOf(b[i]);
      }
    }
    if a != [] {
      var k := FirstFitExists(a);
      forall j | 0 <= j < |a| ensures FactOf(a[j]) == FactOf(b[j]) {
      }
      PickPrimaryPrefix(b, k);
    }
  }

  lemma {:induction false} OthersByFacts(a: seq<NodeStatus>, b: seq<NodeStatus>, p: Name)
    requires SameFacts(a, b)
    ensures OthersThan(a, p) == OthersThan(b, p)
  {
    if a != [] {
      SameFactsFront(a, b);
      OthersByFacts(a[..|a| - 1], b[..|b| - 1], p);
    }
  }

  lemma {:induction false} ReasonsByFacts(a: seq<NodeStatus>, b: seq<NodeStatus>, p: Name, replicas: seq<Name>)
    requires SameFacts(a, b)
    ensures AllReasons(a, p, replicas) == AllReasons(b, p, replicas)
  {
    if a != [] {
      SameFactsFront(a, b);
      ReasonsByFacts(a[..|a| - 1], b[..|b| - 1], p, replicas);
    }
  }

  /** The new status means the same whenever the node facts and the current primary are the same:
      identifiers, times, error texts, replication details and re-encoding play no part. */
  lemma ComputeByFacts(a: ClusterState, b: ClusterState)
    requires SameFacts(a.nodes, b.nodes) && a.status.primary == b.status.primary
    ensures MeaningOf(Compute(a)) == MeaningOf(Compute(b))
  {
    SelectByFacts(a.nodes, b.nodes, a.status.primary);
    var p := SelectPrimary(a.nodes, a.status.primary);
    OthersByFacts(a.nodes, b.nodes, p);
    ReasonsByFacts(a.nodes, b.nodes, p, OthersThan(a.nodes, p));
  }

  /** Computing twice is computing once, for every state. */
  lemma ComputeIsIdempotent(state: ClusterState)
    ensures Compute(ClusterState(Compute(state), state.nodes)) == Compute(state)
  {
    var p := SelectPrimary(state.nodes, state.status.primary);
    assert SelectPrimary(state.nodes, p) == p;
  }

  /** A status that recomputation on these nodes would leave as it is. */
  predicate FixedPoint(status: ClusterStatus, nodes: seq<NodeStatus>) {
    !Changed(status, Compute(ClusterState(status, nodes)))
  }

  /** Whatever a status was computed from, it is a fixed point for every table with those facts,
      also after stamping new metadata on it. */
  lemma ComputedIsFixedPoint(state: ClusterState, stamped: ClusterStatus, nodes: seq<NodeStatus>)
    requires MeaningOf(stamped) == MeaningOf(Compute(state)) && SameFacts(state.nodes, nodes)
    ensures FixedPoint(stamped, nodes)
  {
    ComputeIsIdempotent(state);
    ComputeByFacts(ClusterState(stamped, nodes), ClusterState(Compute(state), state.nodes));
  }

  // ---------- health is exact ----------

  ghost predicate AllWell(nodes: seq<NodeStatus>, primary: Name) {
    && (forall i | 0 <= i < |nodes| :: nodes[i].error.None?)
    && exists k :: 0 <= k < |nodes| && RunsAlone(nodes, primary, k)
  }

  /** Node k is the intended primary, the only one reporting to be one, and all others replicate. */
  ghost predicate RunsAlone(nodes: seq<NodeStatus>, primary: Name, k: nat)
    requires k < |nodes|
  {
    && nodes[k].name == primary && nodes[k].isPrimary && |nodes[k].replicas| == |nodes| - 1
    && forall i | 0 <= i < |nodes| && i != k :: !nodes[i].isPrimary && nodes[i].replication.Some?
  }

  lemma {:induction false} NoneIfNoReasons(nodes: seq<NodeStatus>, p: Name, replicas: seq<Name>, i: nat)
    requires AllReasons(nodes, p, replicas) == [] && i < |nodes|
    ensures NodeReasons(nodes[i], p, replicas) == []
  {
    if i < |nodes| - 1 {
      NoneIfNoReasons(nodes[..|nodes| - 1], p, replicas, i);
    }
  }

  lemma NoReasonsIffNoneEach(nodes: seq<NodeStatus>, p: Name, replicas: seq<Name>)
    ensures AllReasons(nodes, p, replicas) == []
            <==> forall i | 0 <= i < |nodes| :: NodeReasons(nodes[i], p, replicas) == []
  {
    if AllReasons(nodes, p, replicas) == [] {
      forall i | 0 <= i < |nodes| ensures NodeReasons(nodes[i], p, replicas) == [] {
        NoneIfNoReasons(nodes, p, replicas, i);
      }
    }
  }

  ghost predicate ReplicasRight(nodes: seq<NodeStatus>, p: Name, others: seq<Name>) {
    && |others| == |nodes| - 1
    && forall i | 0 <= i < |nodes| :: nodes[i].name in others <==> nodes[i].name != p
  }

  lemma WellIfNoReasons(nodes: seq<NodeStatus>, p: Name, others: seq<Name>, k: nat)
    requires DistinctNames(nodes) && ReplicasRight(nodes, p, others)
    requires k < |nodes| && nodes[k].name == p
    requires forall i | 0 <= i < |nodes| :: NodeReasons(nodes[i], p, others) == []
    ensures AllWell(nodes, p)
  {
    assert NodeReasons(nodes[k], p, others) == [];
    forall i | 0 <= i < |nodes| && i != k
      ensures nodes[i].error.None? && !nodes[i].isPrimary && nodes[i].replication.Some?
    {
      assert NodeReasons(nodes[i], p, others) == [];
      assert nodes[i].name != p;
    }
    assert RunsAlone(nodes, p, k);
  }

  lemma NoReasonsIfWell(nodes: seq<NodeStatus>, p: Name, others: seq<Name>, i: nat)
    requires DistinctNames(nodes) && ReplicasRight(nodes, p, others)
    requires AllWell(nodes, p) && i < |nodes|
    ensures NodeReasons(nodes[i], p, others) == []
  {
    var j :| 0 <= j < |nodes| && RunsAlone(nodes, p, j);
    assert i != j ==> nodes[i].name != nodes[j].name;
  }

  /** A cluster is reported healthy exactly when no node has an error, one node reports to be
      primary, that one is the intended primary and sees n - 1 replicas, and the others replicate. */
  lemma HealthIsExact(state: ClusterState)
    requires state.nodes != [] && DistinctNames(state.nodes)
    ensures Compute(state).health == Healthy <==> AllWell(state.nodes, Compute(state).primary)
  {
    var nodes, p := state.nodes, SelectPrimary(state.nodes, state.status.primary);
    var others := OthersThan(nodes, p);
    NoReasonsIffNoneEach(nodes, p, others);
    OthersCount(nodes, p);
    forall i | 0 <= i < |nodes| ensures nodes[i].name in others <==> nodes[i].name != p {
      OthersMembers(nodes, p, nodes[i].name);
    }
    if AllReasons(nodes, p, others) == [] {
      var k :| 0 <= k < |nodes| && nodes[k].name == p;
      WellIfNoReasons(nodes, p, others, k);
    } else if AllWell(nodes, p) {
      forall i | 0 <= i < |nodes| ensures NodeReasons(nodes[i], p, others) == [] {
        NoReasonsIfWell(nodes, p, others, i);
      }
    }
  }

  // ---------- roles ----------

  datatype Role = PrimaryRole | ReplicaRole(primary: Name) | NoRole

  /** The branch performNodeTasks takes for node n. */
  function RoleOf(status: ClusterStatus, n: Name): Role {
    if status.primary == n then PrimaryRole
    else if n in Items(status.replicas) then ReplicaRole(status.primary)
    else NoRole
  }

  /** primary and replicas divide the listed nodes: the primary is one of them, the replicas are
      exactly the others in table order, each once. */
  ghost predicate Partitions(status: ClusterStatus, nodes: seq<NodeStatus>) {
    && Listed(nodes, status.primary)
    && Items(status.replicas) == OthersThan(nodes, status.primary)
    && |Items(status.replicas)| == |nodes| - 1
    && status.primary !in Items(status.replicas)
    && forall n :: n in Items(status.replicas) <==> n != status.primary && Listed(nodes, n)
  }

  lemma FixedPointPartitions(status: ClusterStatus, nodes: seq<NodeStatus>)
    requires nodes != [] && DistinctNames(nodes)
    requires FixedPoint(status, nodes)
    ensures Partitions(status, nodes)
  {
    OthersCount(nodes, status.primary);
    forall n ensures n in OthersThan(nodes, status.primary) <==> n != status.primary && Listed(nodes, n) {
      OthersMembers(nodes, status.primary, n);
    }
  }

  /** Under a fixed point every listed node has exactly one role, and exactly one is primary. */
  lemma OneRoleEach(status: ClusterStatus, nodes: seq<NodeStatus>, n: Name)
    requires nodes != [] && DistinctNames(nodes) && FixedPoint(status, nodes)
    ensures RoleOf(status, n) == PrimaryRole <==> n == status.primary
    ensures RoleOf(status, n) == ReplicaRole(status.primary) <==> n != status.primary && Listed(nodes, n)
    ensures Listed(nodes, status.primary)
  {
    FixedPointPartitions(status, nodes);
  }
}
