/** The DynamoDB layout (pgdaemon/dynamodb.go): one partition per cluster, the status in a single item
    whose writes are conditioned on the UUID embedded in it. */
module DynamoStore {
  import opened Common
  import opened ClusterLogic
  import opened SortedStore
  import opened StoreSpec

  /** The items of a cluster, by range key. */
  type Table = map<Name, seq<Entry>>

  const SPEC_KEY: string := "spec"
  const STATUS_KEY: string := "status"
  const NODE_STATUSES_KEY: string := "node-statuses"

  function NodeStatusKey(n: Name): string { NodeKeyUnder(NODE_STATUSES_KEY, n) }

  function Partition(t: Table, c: Name): seq<Entry> {
    if c in t then t[c] else []
  }

  function PutItem(t: Table, c: Name, k: string, v: Value): Table {
    t[c := Put(Partition(t, c), k, v)]
  }

  /** The status_uuid attribute of an item. */
  function UuidAttribute(v: Option<Value>): Option<Uuid> {
    if v.None? then None
    else match v.value
         case StatusValue(s) => Some(s.uuid)
         case NodeValue(n) => Some(n.uuid)
         case _ => None
  }

  /** The condition expression of the conditional put. */
  predicate ConditionHolds(item: Option<Value>, prev: Uuid) {
    if prev == NIL then UuidAttribute(item).None? else UuidAttribute(item) == Some(prev)
  }

  function ApplyOp(t: Table, op: Op): Table {
    match op
    case CasStatus(c, prev, status) =>
      if ConditionHolds(Get(Partition(t, c), STATUS_KEY), prev)
      then PutItem(t, c, STATUS_KEY, StatusValue(status))
      else t
    case PutNodeStatus(c, node) => PutItem(t, c, NodeStatusKey(node.name), NodeValue(node))
    case PutSpec(c) => PutItem(t, c, SPEC_KEY, SpecValue)
  }

  function StoreAfter(ops: seq<Op>): Table {
    if ops == [] then map[] else ApplyOp(StoreAfter(ops[..|ops| - 1]), ops[|ops| - 1])
  }

  // ---------- fetching ----------

  function ScanOne(acc: ClusterState, e: Entry): Result<ClusterState, FetchError> {
    if e.key == SPEC_KEY then Ok(acc)
    else if e.key == STATUS_KEY then
      var status := AsStatus(AttributeMap, e.value);
      if status.None? then Err(Malformed(e.key)) else Ok(acc.(status := status.value))
    else if NODE_STATUSES_KEY <= e.key then AddNode(acc, e, NODE_STATUSES_KEY)
    else Ok(acc)
  }

  function Scan(acc: ClusterState, items: seq<Entry>): Result<ClusterState, FetchError>
    decreases |items|
  {
    if items == [] then Ok(acc)
    else
      var next := ScanOne(acc, items[0]);
      if next.Err? then next else Scan(next.value, items[1..])
  }

  /** What a fetch makes of the items that its query answered. */
  function FetchFrom(answer: seq<Entry>): Result<ClusterState, FetchError> {
    if answer == [] then Err(NotFound) else Scan(ClusterState(ZERO_STATUS, []), answer)
  }

  /** A fetch can use the item. */
  predicate Usable(e: Entry) {
    && (e.key == STATUS_KEY ==> !e.value.UuidValue?)
    && (NODE_STATUSES_KEY <= e.key ==> NamesItself(e, NODE_STATUSES_KEY))
  }

  ghost predicate FirstUnusable(answer: seq<Entry>, i: nat) {
    i < |answer| && !Usable(answer[i]) && forall j | 0 <= j < i :: Usable(answer[j])
  }

  lemma ScanOneMeaning(acc: ClusterState, e: Entry)
    ensures ScanOne(acc, e).Ok? <==> Usable(e)
    ensures ScanOne(acc, e).Err? ==> Blames(ScanOne(acc, e).error, e, NODE_STATUSES_KEY)
  {
    assert SPEC_KEY[0] == 's' && STATUS_KEY[0] == 's' && NODE_STATUSES_KEY[0] == 'n' && |SPEC_KEY| != |STATUS_KEY|;
    AddNodeMeaning(acc, e, NODE_STATUSES_KEY);
  }

  lemma {:induction false} ScanMeaning(acc: ClusterState, answer: seq<Entry>)
    ensures Scan(acc, answer).Ok? <==> forall i | 0 <= i < |answer| :: Usable(answer[i])
    ensures Scan(acc, answer).Err? ==>
              exists i: nat :: FirstUnusable(answer, i) && Blames(Scan(acc, answer).error, answer[i], NODE_STATUSES_KEY)
    decreases |answer|
  {
    if answer != [] {
      ScanOneMeaning(acc, answer[0]);
      var next := ScanOne(acc, answer[0]);
      if next.Err? {
        assert FirstUnusable(answer, 0);
      } else {
        ScanMeaning(next.value, answer[1..]);
        assert forall i | 1 <= i < |answer| :: answer[i] == answer[1..][i - 1];
        if Scan(next.value, answer[1..]).Err? {
          var i: nat :| FirstUnusable(answer[1..], i)
                        && Blames(Scan(next.value, answer[1..]).error, answer[1..][i], NODE_STATUSES_KEY);
          assert FirstUnusable(answer, i + 1);
        }
      }
    }
  }

  /** When a fetch fails, whatever its query answered: not found exactly if that is nothing, otherwise
      exactly if some item cannot be used, and then with what is wrong with the first of them. */
  lemma FetchFailsExactly(answer: seq<Entry>)
    ensures var r := FetchFrom(answer);
            && (r == Err(NotFound) <==> answer == [])
            && (r.Ok? <==> answer != [] && forall i | 0 <= i < |answer| :: Usable(answer[i]))
            && (r.Err? && answer != [] ==>
                  exists i: nat :: FirstUnusable(answer, i) && Blames(r.error, answer[i], NODE_STATUSES_KEY))
  {
    ScanMeaning(ClusterState(ZERO_STATUS, []), answer);
  }

  /** The conditional put, key by key, in every partition: if the condition holds the status item is the
      new status, and nothing else changes; if not, nothing does. */
  lemma CasKeyByKey(t: Table, c: Name, prev: Uuid, status: ClusterStatus, d: Name, k: string)
    requires Sorted(Partition(t, c))
    requires Get(Partition(t, c), STATUS_KEY).Some? ==> Get(Partition(t, c), STATUS_KEY).value.StatusValue?
    ensures var stored := Get(Partition(t, c), STATUS_KEY);
            var holds := if prev == NIL then stored.None? else stored.Some? && stored.value.status.uuid == prev;
            Get(Partition(ApplyOp(t, CasStatus(c, prev, status)), d), k) ==
              if holds && d == c && k == STATUS_KEY then Some(StatusValue(status)) else Get(Partition(t, d), k)
  {
    PutThenGet(Partition(t, c), STATUS_KEY, StatusValue(status), k);
  }

  // ---------- the client object ----------

  class DynamoDBTable {
    var items: Table

    constructor ()
      ensures items == map[]
    {
      items := map[];
    }
  }

  datatype ConfigError = EmptyTableName | EmptyClusterName | EmptyNodeName

  class DynamoDBBackend {
    const client: DynamoDBTable
    const clusterName: Name
    const nodeName: Name

    constructor (client: DynamoDBTable, clusterName: Name, nodeName: Name)
      requires clusterName != "" && nodeName != ""
      ensures this.client == client && this.clusterName == clusterName && this.nodeName == nodeName
    {
      this.client := client;
      this.clusterName := clusterName;
      this.nodeName := nodeName;
    }

    static method New(client: DynamoDBTable, tableName: Name, clusterName: Name, nodeName: Name)
        returns (r: Result<DynamoDBBackend, ConfigError>)
      ensures r.Ok? <==> tableName != "" && clusterName != "" && nodeName != ""
      ensures r.Ok? ==> fresh(r.value) && r.value.client == client
                        && r.value.clusterName == clusterName && r.value.nodeName == nodeName
    {
      if tableName == "" {
        return Err(EmptyTableName);
      }
      if clusterName == "" {
        return Err(EmptyClusterName);
      }
      if nodeName == "" {
        return Err(EmptyNodeName);
      }
      var d := new DynamoDBBackend(client, clusterName, nodeName);
      r := Ok(d);
    }

    /** A failed condition is no error. */
    method AtomicWriteClusterStatus(prevStatusUuid: Uuid, status: ClusterStatus, fault: Fault) returns (ok: bool)
      modifies client
      ensures client.items == if fault.NeverArrived? then old(client.items)
                              else ApplyOp(old(client.items), CasStatus(clusterName, prevStatusUuid, status))
      ensures ok <==> fault.Answered?
    {
      var uuid := UuidAttribute(Get(Partition(client.items, clusterName), STATUS_KEY));
      var holds := uuid.None?;
      if prevStatusUuid != NIL {
        holds := uuid == Some(prevStatusUuid);
      }
      if holds && !fault.NeverArrived? {
        client.items := PutItem(client.items, clusterName, STATUS_KEY, StatusValue(status));
      }
      ok := fault.Answered?;
    }

    method WriteCurrentNodeStatus(status: NodeStatus, fault: Fault) returns (ok: bool)
      modifies client
      ensures client.items == if fault.NeverArrived? then old(client.items)
                              else PutItem(old(client.items), clusterName, NodeStatusKey(nodeName), NodeValue(status))
      ensures status.name == nodeName && !fault.NeverArrived? ==>
                client.items == ApplyOp(old(client.items), PutNodeStatus(clusterName, status))
      ensures ok <==> fault.Answered?
    {
      if !fault.NeverArrived? {
        client.items := PutItem(client.items, clusterName, NodeStatusKey(nodeName), NodeValue(status));
      }
      ok := fault.Answered?;
    }

    /** The query asks for no consistency, and for one page only, so its answer is a parameter. */
    method FetchClusterState(fails: bool, answer: seq<Entry>) returns (r: Result<ClusterState, FetchError>)
      ensures r == if fails then Err(Unavailable) else FetchFrom(answer)
    {
      if fails {
        return Err(Unavailable);
      }
      if |answer| == 0 {
        return Err(NotFound);
      }
      var state := ClusterState(ZERO_STATUS, []);
      var i := 0;
      while i < |answer|
        invariant 0 <= i <= |answer|
        invariant FetchFrom(answer) == Scan(state, answer[i..])
      {
        var e := answer[i];
        if e.key == STATUS_KEY {
          var status := AsStatus(AttributeMap, e.value);
          if status.None? {
            return Err(Malformed(e.key));
          }
          state := state.(status := status.value);
        }
        if NODE_STATUSES_KEY <= e.key {
          var name := TrimPrefix(e.key, NODE_STATUSES_KEY + "/");
          var node := AsNode(e.value);
          if node.None? {
            return Err(Malformed(e.key));
          }
          if name != node.value.name {
            return Err(NameMismatch(name, node.value.name));
          }
          state := state.(nodes := state.nodes + [node.value]);
        }
        i := i + 1;
      }
      return Ok(state);
    }
  }

  // ---------- the layout refines the register and the table ----------

  ghost predicate ItemOk(e: Entry) {
    exists k: Kind :: !k.StatusUuid? && e.key == Suffix(k) && ValueFits(k, e.value)
  }

  ghost predicate ItemsOk(items: seq<Entry>) {
    Sorted(items) && forall e | e in items :: ItemOk(e)
  }

  lemma NodeKeyIsSuffix(n: Name)
    ensures NodeStatusKey(n) == Suffix(Node(n))
  {
    assert "node-statuses/" == "node-statuses" + "/";
  }

  lemma PutKeepsItems(items: seq<Entry>, k: Kind, v: Value)
    requires ItemsOk(items) && !k.StatusUuid? && ValueFits(k, v)
    ensures ItemsOk(Put(items, Suffix(k), v))
  {
    PutSorted(items, Suffix(k), v);
    forall e | e in Put(items, Suffix(k), v) ensures ItemOk(e) {
      PutMembers(items, Suffix(k), v, e);
    }
  }

  lemma NodesUnderPrefix(items: seq<Entry>)
    requires ItemsOk(items)
    ensures NodeEntriesOk(items, NODE_STATUSES_KEY)
  {
    forall e | e in items && NODE_STATUSES_KEY <= e.key
      ensures e.value.NodeValue? && e.key == NodeStatusKey(e.value.node.name)
    {
      assert ItemOk(e);
      var k: Kind :| !k.StatusUuid? && e.key == Suffix(k) && ValueFits(k, e.value);
      SuffixTellsKind(k, k);
      NodeKeyIsSuffix(k.name);
    }
  }

  /** What the items of one cluster hold. */
  ghost predicate Holds(items: seq<Entry>, reg: Option<ClusterStatus>, nodes: seq<NodeStatus>) {
    && ItemsOk(items)
    && Get(items, STATUS_KEY) == (if reg.None? then None else Some(StatusValue(reg.value)))
    && Collect(items, NODE_STATUSES_KEY) == nodes
  }

  lemma StatusPutHolds(items: seq<Entry>, status: ClusterStatus, reg: Option<ClusterStatus>, nodes: seq<NodeStatus>)
    requires Holds(items, reg, nodes)
    ensures Holds(Put(items, STATUS_KEY, StatusValue(status)), Some(status), nodes)
  {
    PutKeepsItems(items, Status, StatusValue(status));
    PutThenGet(items, STATUS_KEY, StatusValue(status), STATUS_KEY);
    SuffixTellsKind(Status, Status);
    CollectUnaffected(items, NODE_STATUSES_KEY, STATUS_KEY, StatusValue(status));
  }

  lemma NodePutHolds(items: seq<Entry>, node: NodeStatus, reg: Option<ClusterStatus>, nodes: seq<NodeStatus>)
    requires Holds(items, reg, nodes)
    ensures Holds(Put(items, NodeStatusKey(node.name), NodeValue(node)), reg, PutNode(nodes, node))
  {
    NodeKeyIsSuffix(node.name);
    PutKeepsItems(items, Node(node.name), NodeValue(node));
    SuffixTellsKind(Node(node.name), Status);
    PutThenGet(items, NodeStatusKey(node.name), NodeValue(node), STATUS_KEY);
    NodesUnderPrefix(items);
    CollectAfterPut(items, NODE_STATUSES_KEY, node);
  }

  lemma SpecPutHolds(items: seq<Entry>, reg: Option<ClusterStatus>, nodes: seq<NodeStatus>)
    requires Holds(items, reg, nodes)
    ensures Holds(Put(items, SPEC_KEY, SpecValue), reg, nodes)
  {
    PutKeepsItems(items, Spec, SpecValue);
    SuffixTellsKind(Spec, Status);
    PutThenGet(items, SPEC_KEY, SpecValue, STATUS_KEY);
    SuffixTellsKind(Spec, Spec);
    CollectUnaffected(items, NODE_STATUSES_KEY, SPEC_KEY, SpecValue);
  }

  /** In every reachable state each cluster's partition, whatever the cluster's name, holds the
      abstract register and table. */
  lemma {:induction false} DynamoRefinesRegister(ops: seq<Op>, c: Name)
    ensures Holds(Partition(StoreAfter(ops), c), RegisterAfter(ops, c), TableAfter(ops, c))
  {
    if ops != [] {
      var front, op := ops[..|ops| - 1], ops[|ops| - 1];
      DynamoRefinesRegister(front, c);
      if op.cluster == c {
        var items, reg, nodes := Partition(StoreAfter(front), c), RegisterAfter(front, c), TableAfter(front, c);
        match op
        case CasStatus(_, prev, status) => StatusPutHolds(items, status, reg, nodes);
        case PutNodeStatus(_, node) => NodePutHolds(items, node, reg, nodes);
        case PutSpec(_) => SpecPutHolds(items, reg, nodes);
      }
    }
  }

  lemma ScanOneOk(acc: ClusterState, e: Entry)
    requires ItemOk(e)
    ensures ScanOne(acc, e) == Ok(ClusterState(
              if e.key == STATUS_KEY then StatusFrom(AttributeMap, acc.status, Some(e.value)) else acc.status,
              acc.nodes + Contribution(e, NODE_STATUSES_KEY)))
    ensures e.key == STATUS_KEY ==> e.value.StatusValue?
  {
    var k: Kind :| !k.StatusUuid? && e.key == Suffix(k) && ValueFits(k, e.value);
    SuffixTellsKind(k, Spec);
    SuffixTellsKind(k, Status);
    assert acc.nodes + [] == acc.nodes;
    if k.Node? {
      NodeKeyIsSuffix(k.name);
    }
  }

  function Collected(acc: ClusterState, items: seq<Entry>): ClusterState {
    ClusterState(StatusFrom(AttributeMap, acc.status, Get(items, STATUS_KEY)),
                 acc.nodes + Collect(items, NODE_STATUSES_KEY))
  }

  lemma CollectedOneMore(acc: ClusterState, items: seq<Entry>)
    requires ItemsOk(items) && items != []
    ensures ItemsOk(items[1..]) && ScanOne(acc, items[0]).Ok?
    ensures Collected(ScanOne(acc, items[0]).value, items[1..]) == Collected(acc, items)
  {
    assert items[0] in items;
    GetAbsent(items[1..], items[0].key);
    ScanOneOk(acc, items[0]);
    NodesOneMore(acc.nodes, items, NODE_STATUSES_KEY);
  }

  lemma {:induction false} ScanCollects(acc: ClusterState, items: seq<Entry>)
    requires ItemsOk(items)
    ensures Scan(acc, items) == Ok(Collected(acc, items))
    decreases |items|
  {
    if items == [] {
      assert acc.nodes + [] == acc.nodes;
    } else {
      CollectedOneMore(acc, items);
      ScanCollects(ScanOne(acc, items[0]).value, items[1..]);
    }
  }

  lemma WholeScan(items: seq<Entry>)
    requires ItemsOk(items)
    ensures FetchFrom(items)
            == if items == [] then Err(NotFound) else Ok(Collected(ClusterState(ZERO_STATUS, []), items))
    ensures Collected(ClusterState(ZERO_STATUS, []), items).nodes == Collect(items, NODE_STATUSES_KEY)
  {
    ScanCollects(ClusterState(ZERO_STATUS, []), items);
    var nodes := Collect(items, NODE_STATUSES_KEY);
    assert [] + nodes == nodes;
  }

  /** Fetch undoes write, for all cluster names: a fetch that sees the current items returns the last
      committed status and each node's latest status. */
  lemma FetchUndoesWrites(ops: seq<Op>, c: Name)
    ensures var items := Partition(StoreAfter(ops), c);
            FetchFrom(items) == if items == [] then Err(NotFound) else Ok(StateAfter(AttributeMap, ops, c))
  {
    DynamoRefinesRegister(ops, c);
    WholeScan(Partition(StoreAfter(ops), c));
  }

  // ---------- queries without consistency ----------

  /** After the first j writes e was an item of the cluster. */
  ghost predicate WasItem(ops: seq<Op>, c: Name, e: Entry, j: nat) {
    j <= |ops| && e in Partition(StoreAfter(ops[..j]), c)
  }

  /** An answer that may miss items, and each of whose items may be an old one. */
  ghost predicate StaleAnswer(answer: seq<Entry>, ops: seq<Op>, c: Name) {
    Sorted(answer) && forall e | e in answer :: exists j: nat :: WasItem(ops, c, e, j)
  }

  lemma WasItemOk(ops: seq<Op>, c: Name, e: Entry, j: nat)
    requires WasItem(ops, c, e, j)
    ensures ItemOk(e)
    ensures e.key == STATUS_KEY ==> WasStatus(ops, c, StatusFrom(AttributeMap, ZERO_STATUS, Some(e.value)), j)
    ensures IsNodeEntry(e, NODE_STATUSES_KEY) ==> WasInTable(ops, c, e.value.node, j)
  {
    var items := Partition(StoreAfter(ops[..j]), c);
    DynamoRefinesRegister(ops[..j], c);
    IsInGet(items, e);
    if IsNodeEntry(e, NODE_STATUSES_KEY) {
      CollectHas(items, NODE_STATUSES_KEY, e);
    }
  }

  lemma StaleItemsOk(answer: seq<Entry>, ops: seq<Op>, c: Name)
    requires StaleAnswer(answer, ops, c)
    ensures ItemsOk(answer)
  {
    forall e | e in answer ensures ItemOk(e) {
      var j: nat :| WasItem(ops, c, e, j);
      WasItemOk(ops, c, e, j);
    }
  }

  /** The status was in the register after the first j writes. */
  ghost predicate WasStatus(ops: seq<Op>, c: Name, status: ClusterStatus, j: nat) {
    j <= |ops| && status == StateAfter(AttributeMap, ops[..j], c).status
  }

  ghost predicate WasInTable(ops: seq<Op>, c: Name, n: NodeStatus, j: nat) {
    j <= |ops| && n in TableAfter(ops[..j], c)
  }

  lemma StaleStatus(answer: seq<Entry>, ops: seq<Op>, c: Name)
    requires StaleAnswer(answer, ops, c)
    ensures exists j: nat :: WasStatus(ops, c, StatusFrom(AttributeMap, ZERO_STATUS, Get(answer, STATUS_KEY)), j)
  {
    GetIsIn(answer, STATUS_KEY);
    var found := Get(answer, STATUS_KEY);
    if found.Some? {
      var j: nat :| WasItem(ops, c, Entry(STATUS_KEY, found.value), j);
      WasItemOk(ops, c, Entry(STATUS_KEY, found.value), j);
      assert found == Some(found.value);
    } else {
      assert ops[..0] == [];
      assert WasStatus(ops, c, StatusFrom(AttributeMap, ZERO_STATUS, found), 0);
    }
  }

  lemma StaleNode(answer: seq<Entry>, ops: seq<Op>, c: Name, n: NodeStatus)
    requires StaleAnswer(answer, ops, c) && n in Collect(answer, NODE_STATUSES_KEY)
    ensures exists j: nat :: WasInTable(ops, c, n, j)
  {
    CollectMembers(answer, NODE_STATUSES_KEY, n);
    var e :| e in answer && IsNodeEntry(e, NODE_STATUSES_KEY) && e.value.node == n;
    var j: nat :| WasItem(ops, c, e, j);
    WasItemOk(ops, c, e, j);
  }

  /** Whatever a query misses and however old its items are, a fetch that finds anything returns some
      status that was once committed, or none, and of each node at most one value it once wrote, in
      name order; there is no decoding error and no name mismatch. */
  lemma StaleFetch(answer: seq<Entry>, ops: seq<Op>, c: Name)
    requires StaleAnswer(answer, ops, c) && answer != []
    ensures var r := FetchFrom(answer);
            && r.Ok?
            && (exists j: nat :: WasStatus(ops, c, r.value.status, j))
            && SortedNodes(r.value.nodes)
            && forall n | n in r.value.nodes :: exists j: nat :: WasInTable(ops, c, n, j)
  {
    StaleItemsOk(answer, ops, c);
    WholeScan(answer);
    StaleStatus(answer, ops, c);
    NodesUnderPrefix(answer);
    CollectSorted(answer, NODE_STATUSES_KEY);
    forall n | n in Collect(answer, NODE_STATUSES_KEY) ensures exists j: nat :: WasInTable(ops, c, n, j) {
      StaleNode(answer, ops, c, n);
    }
  }

  /** "Not found" is only answered while neither a status nor a node status was written. */
  lemma NotFoundMeansEmpty(ops: seq<Op>, c: Name)
    requires Partition(StoreAfter(ops), c) == []
    ensures RegisterAfter(ops, c) == None && TableAfter(ops, c) == []
  {
    DynamoRefinesRegister(ops, c);
  }
}
