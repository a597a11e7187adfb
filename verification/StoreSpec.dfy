/** What both storage layouts promise: per cluster one compare-and-set register and one table. */
module StoreSpec {
  import opened Common
  import opened ClusterLogic
  import opened SortedStore

  /** A write as one client sends it; the store serves many clusters. */
  datatype Op =
    | CasStatus(cluster: Name, prev: Uuid, status: ClusterStatus)
    | PutNodeStatus(cluster: Name, node: NodeStatus)
    | PutSpec(cluster: Name)

  /** The abstract register: Nil expects that nothing was written yet. */
  function CasRegister(reg: Option<ClusterStatus>, prev: Uuid, status: ClusterStatus): Option<ClusterStatus> {
    var matches := if prev == NIL then reg.None? else reg.Some? && reg.value.uuid == prev;
    if matches then Some(status) else reg
  }

  function RegisterAfter(ops: seq<Op>, c: Name): Option<ClusterStatus> {
    if ops == [] then None
    else
      var before, op := RegisterAfter(ops[..|ops| - 1], c), ops[|ops| - 1];
      if op.CasStatus? && op.cluster == c then CasRegister(before, op.prev, op.status) else before
  }

  function TableAfter(ops: seq<Op>, c: Name): seq<NodeStatus> {
    if ops == [] then []
    else
      var before, op := TableAfter(ops[..|ops| - 1], c), ops[|ops| - 1];
      if op.PutNodeStatus? && op.cluster == c then PutNode(before, op.node) else before
  }

  /** Clients write statuses under fresh UUIDs, never Nil. */
  ghost predicate FreshUuids(ops: seq<Op>) {
    forall i | 0 <= i < |ops| && ops[i].CasStatus? :: ops[i].status.uuid != NIL
  }

  // ---------- decoding ----------

  /** JSON omits an empty health_reasons but keeps an empty intended_replicas; attribute maps omit
      both.  An omitted slice is read back as nil. */
  datatype Codec = Json | AttributeMap

  function Decode(codec: Codec, s: ClusterStatus): ClusterStatus {
    s.(reasons := Appended(Items(s.reasons)),
       replicas := if codec.Json? then s.replicas else Appended(Items(s.replicas)))
  }

  /** Decoding changes neither the meaning nor the metadata; it leaves no empty reasons, and no empty
      replicas either if the codec omits them. */
  lemma DecodeMeaning(codec: Codec, s: ClusterStatus)
    ensures var d := Decode(codec, s);
            && d.uuid == s.uuid && d.sourceNode == s.sourceNode && d.sourceTime == s.sourceTime
            && d.health == s.health && d.primary == s.primary
            && Items(d.reasons) == Items(s.reasons) && Items(d.replicas) == Items(s.replicas)
            && d.reasons != Elems([])
            && (codec.Json? ==> d.replicas == s.replicas) && (codec.AttributeMap? ==> d.replicas != Elems([]))
  {
  }

  const ZERO_NODE := NodeStatus("", NIL, "", None, false, [], None)

  /** Unmarshalling matches fields by name, and status_uuid is the only one both records have;
      a bare UUID is not a record. */
  function AsStatus(codec: Codec, v: Value): Option<ClusterStatus> {
    match v
    case StatusValue(s) => Some(Decode(codec, s))
    case NodeValue(n) => Some(ZERO_STATUS.(uuid := n.uuid))
    case SpecValue => Some(ZERO_STATUS)
    case UuidValue(_) => None
  }

  function AsNode(v: Value): Option<NodeStatus> {
    match v
    case NodeValue(n) => Some(n)
    case StatusValue(s) => Some(ZERO_NODE.(uuid := s.uuid))
    case SpecValue => Some(ZERO_NODE)
    case UuidValue(_) => None
  }

  datatype FetchError = Unavailable | NotFound | Malformed(key: string) | NameMismatch(expected: Name, got: Name)

  function TrimPrefix(s: string, p: string): string {
    if p <= s then s[|p|..] else s
  }

  /** The branch of the fetch loop for a key under the node prefix. */
  function AddNode(acc: ClusterState, e: Entry, prefix: string): Result<ClusterState, FetchError> {
    var name := TrimPrefix(e.key, prefix + "/");
    var node := AsNode(e.value);
    if node.None? then Err(Malformed(e.key))
    else if name != node.value.name then Err(NameMismatch(name, node.value.name))
    else Ok(acc.(nodes := acc.nodes + [node.value]))
  }

  /** The node name in a value: only a node status has one. */
  function NameIn(v: Value): Name {
    if v.NodeValue? then v.node.name else ""
  }

  /** The entry is a record, and stands under its own name; a key without the slash is taken whole. */
  predicate NamesItself(e: Entry, prefix: string) {
    && !e.value.UuidValue?
    && e.key == if prefix + "/" <= e.key then NodeKeyUnder(prefix, NameIn(e.value)) else NameIn(e.value)
  }

  /** Why a scan stops at this entry. */
  predicate Blames(error: FetchError, e: Entry, prefix: string) {
    if e.value.UuidValue? then error == Malformed(e.key)
    else
      && error.NameMismatch? && error.got == NameIn(e.value) && error.expected != error.got
      && e.key == if prefix + "/" <= e.key then NodeKeyUnder(prefix, error.expected) else error.expected
  }

  lemma AddNodeMeaning(acc: ClusterState, e: Entry, prefix: string)
    ensures AddNode(acc, e, prefix).Ok? <==> NamesItself(e, prefix)
    ensures AddNode(acc, e, prefix).Err? ==> Blames(AddNode(acc, e, prefix).error, e, prefix)
    ensures AddNode(acc, e, prefix).Ok? ==> AddNode(acc, e, prefix).value.status == acc.status
  {
    var start := prefix + "/";
    if start <= e.key {
      assert e.key == start + e.key[|start|..];
    }
  }

  /** What a fetch of cluster c returns after these writes. */
  function StateAfter(codec: Codec, ops: seq<Op>, c: Name): ClusterState {
    var reg := RegisterAfter(ops, c);
    ClusterState(if reg.None? then ZERO_STATUS else Decode(codec, reg.value), TableAfter(ops, c))
  }

  // ---------- what the table holds ----------

  /** The latest status written for a node of the cluster. */
  function LatestNode(ops: seq<Op>, c: Name, name: Name): Option<NodeStatus> {
    if ops == [] then None
    else
      var op := ops[|ops| - 1];
      if op.PutNodeStatus? && op.cluster == c && op.node.name == name then Some(op.node)
      else LatestNode(ops[..|ops| - 1], c, name)
  }

  /** The table has exactly one entry per node name ever written, in key order, with its latest value. */
  lemma {:induction false} TableHoldsLatest(ops: seq<Op>, c: Name, name: Name)
    ensures SortedNodes(TableAfter(ops, c))
    ensures LookUp(TableAfter(ops, c), name) == LatestNode(ops, c, name)
  {
    if ops != [] {
      var front, op := ops[..|ops| - 1], ops[|ops| - 1];
      TableHoldsLatest(front, c, name);
      if op.PutNodeStatus? && op.cluster == c {
        PutNodeSorted(TableAfter(front, c), op.node);
        PutNodeLooksUp(TableAfter(front, c), op.node, name);
      }
    }
  }

  /** A Nil UUID is read exactly when no status was committed. */
  lemma {:induction false} NilMeansNoStatus(codec: Codec, ops: seq<Op>, c: Name)
    requires FreshUuids(ops)
    ensures StateAfter(codec, ops, c).status.uuid == NIL <==> RegisterAfter(ops, c).None?
  {
    if ops != [] {
      NilMeansNoStatus(codec, ops[..|ops| - 1], c);
    }
  }

  // ---------- kinds of entries ----------

  /** What an entry is within its cluster, and the last part of its key. */
  datatype Kind = Spec | Status | StatusUuid | Node(name: Name)

  function Suffix(k: Kind): string {
    match k
    case Spec => "spec"
    case Status => "status"
    case StatusUuid => "status-uuid"
    case Node(n) => "node-statuses/" + n
  }

  lemma SuffixTellsKind(k: Kind, k': Kind)
    ensures Suffix(k) == Suffix(k') <==> k == k'
    ensures "node-statuses" <= Suffix(k) <==> k.Node?
  {
    if k.Node? {
      assert Suffix(k)[0] == 'n';
      assert Suffix(k)[|"node-statuses/"|..] == k.name;
    }
    if k'.Node? {
      assert Suffix(k')[0] == 'n';
      assert Suffix(k')[|"node-statuses/"|..] == k'.name;
    }
    assert "spec"[1] == 'p' && "status"[1] == 't' && "status-uuid"[1] == 't';
    assert "node-statuses"[0] == 'n' && "spec"[0] == 's' && "status"[0] == 's' && "status-uuid"[0] == 's';
    assert |"status"| != |"status-uuid"|;
  }

  predicate ValueFits(k: Kind, v: Value) {
    match k
    case Spec => v.SpecValue?
    case Status => v.StatusValue?
    case StatusUuid => v.UuidValue?
    case Node(n) => v.NodeValue? && v.node.name == n
  }

  // ---------- what a scan gathers ----------

  function StatusFrom(codec: Codec, acc: ClusterStatus, v: Option<Value>): ClusterStatus {
    if v.Some? && v.value.StatusValue? then Decode(codec, v.value.status) else acc
  }

  function Contribution(e: Entry, prefix: string): seq<NodeStatus> {
    if IsNodeEntry(e, prefix) then [e.value.node] else []
  }

  lemma NodesOneMore(nodes: seq<NodeStatus>, kvs: seq<Entry>, prefix: string)
    requires kvs != []
    ensures nodes + Contribution(kvs[0], prefix) + Collect(kvs[1..], prefix) == nodes + Collect(kvs, prefix)
  {
    Associative(nodes, Contribution(kvs[0], prefix), Collect(kvs[1..], prefix));
  }

  lemma Associative<T>(a: seq<T>, b: seq<T>, c: seq<T>)
    ensures (a + b) + c == a + (b + c)
  {
  }
}
