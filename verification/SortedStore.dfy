/** A remote map read in key order, as etcd range reads and DynamoDB queries return it, and the
    table of node statuses it holds. */
module SortedStore {
  import opened Common
  import opened ClusterLogic

  // ---------- key order ----------

  predicate Less(a: string, b: string) {
    b != [] && (a == [] || a[0] < b[0] || (a[0] == b[0] && Less(a[1..], b[1..])))
  }

  lemma {:induction false} LessIrreflexive(a: string)
    ensures !Less(a, a)
  {
    if a != [] {
      LessIrreflexive(a[1..]);
    }
  }

  lemma {:induction false} LessTransitive(a: string, b: string, c: string)
    requires Less(a, b) && Less(b, c)
    ensures Less(a, c)
  {
    if a != [] && a[0] == b[0] == c[0] {
      LessTransitive(a[1..], b[1..], c[1..]);
    }
  }

  lemma {:induction false} LessTotal(a: string, b: string)
    ensures Less(a, b) || a == b || Less(b, a)
  {
    if a != [] && b != [] && a[0] == b[0] {
      LessTotal(a[1..], b[1..]);
      if a[1..] == b[1..] {
        assert a == [a[0]] + a[1..] && b == [b[0]] + b[1..];
      }
    }
  }

  /** a and b agree up to place k, where a ends or has the smaller character. */
  ghost predicate SmallerAt(a: string, b: string, k: nat) {
    k <= |a| && k < |b| && (forall i | 0 <= i < k :: a[i] == b[i]) && (k == |a| || a[k] < b[k])
  }

  /** The order is that of the first difference. */
  lemma {:induction false} LessIsLexicographic(a: string, b: string)
    ensures Less(a, b) <==> exists k: nat :: SmallerAt(a, b, k)
  {
    if b != [] && (a == [] || a[0] < b[0]) {
      assert SmallerAt(a, b, 0);
    } else if a != [] && b != [] && a[0] == b[0] {
      LessIsLexicographic(a[1..], b[1..]);
      if Less(a, b) {
        var k: nat :| SmallerAt(a[1..], b[1..], k);
        assert forall i | 1 <= i <= k :: a[i] == a[1..][i - 1] && b[i] == b[1..][i - 1];
        assert SmallerAt(a, b, k + 1);
      }
      if exists k: nat :: SmallerAt(a, b, k) {
        var k: nat :| SmallerAt(a, b, k);
        assert SmallerAt(a[1..], b[1..], k - 1);
      }
    }
  }

  /** A common prefix does not affect the order. */
  lemma {:induction false} LessAfterPrefix(p: string, a: string, b: string)
    ensures Less(p + a, p + b) <==> Less(a, b)
  {
    if p == [] {
      assert p + a == a && p + b == b;
    } else {
      LessAfterPrefix(p[1..], a, b);
      assert (p + a)[1..] == p[1..] + a && (p + b)[1..] == p[1..] + b;
    }
  }

  // ---------- the map ----------

  datatype Value =
    | SpecValue
    | StatusValue(status: ClusterStatus)
    | UuidValue(uuid: Uuid)
    | NodeValue(node: NodeStatus)

  datatype Entry = Entry(key: string, value: Value)

  function Put(kvs: seq<Entry>, k: string, v: Value): seq<Entry> {
    if kvs == [] then [Entry(k, v)]
    else if kvs[0].key == k then [Entry(k, v)] + kvs[1..]
    else if Less(k, kvs[0].key) then [Entry(k, v)] + kvs
    else [kvs[0]] + Put(kvs[1..], k, v)
  }

  function Get(kvs: seq<Entry>, k: string): Option<Value> {
    if kvs == [] then None
    else if kvs[0].key == k then Some(kvs[0].value)
    else Get(kvs[1..], k)
  }

  ghost predicate Sorted(kvs: seq<Entry>) {
    forall i, j | 0 <= i < j < |kvs| :: Less(kvs[i].key, kvs[j].key)
  }

  lemma {:induction false} PutMembers(kvs: seq<Entry>, k: string, v: Value, e: Entry)
    requires e in Put(kvs, k, v)
    ensures e == Entry(k, v) || e in kvs
  {
    if kvs != [] && kvs[0].key != k && !Less(k, kvs[0].key) && e != kvs[0] {
      PutMembers(kvs[1..], k, v, e);
    }
  }

  lemma {:induction false} PutSorted(kvs: seq<Entry>, k: string, v: Value)
    requires Sorted(kvs)
    ensures Sorted(Put(kvs, k, v))
  {
    if kvs != [] {
      var head, rest := kvs[0], kvs[1..];
      if head.key == k {
      } else if Less(k, head.key) {
        forall i | 0 <= i < |kvs| ensures Less(k, kvs[i].key) {
          if i > 0 {
            LessTransitive(k, head.key, kvs[i].key);
          }
        }
      } else {
        LessTotal(k, head.key);
        PutSorted(rest, k, v);
        var put := Put(rest, k, v);
        forall i | 0 <= i < |put| ensures Less(head.key, put[i].key) {
          PutMembers(rest, k, v, put[i]);
        }
      }
    }
  }

  lemma {:induction false} PutThenGet(kvs: seq<Entry>, k: string, v: Value, k': string)
    requires Sorted(kvs)
    ensures Get(Put(kvs, k, v), k') == if k' == k then Some(v) else Get(kvs, k')
  {
    if kvs == [] || kvs[0].key == k {
    } else if Less(k, kvs[0].key) {
      assert Put(kvs, k, v)[1..] == kvs;
    } else {
      PutThenGet(kvs[1..], k, v, k');
      assert Put(kvs, k, v)[1..] == Put(kvs[1..], k, v);
    }
  }

  lemma {:induction false} GetAbsent(kvs: seq<Entry>, k: string)
    requires forall i | 0 <= i < |kvs| :: Less(k, kvs[i].key)
    ensures Get(kvs, k) == None
  {
    if kvs != [] {
      LessIrreflexive(k);
      GetAbsent(kvs[1..], k);
    }
  }

  lemma {:induction false} GetIsIn(kvs: seq<Entry>, k: string)
    ensures Get(kvs, k).Some? ==> Entry(k, Get(kvs, k).value) in kvs
  {
    if kvs != [] && kvs[0].key != k {
      GetIsIn(kvs[1..], k);
    }
  }

  lemma {:induction false} IsInGet(kvs: seq<Entry>, e: Entry)
    requires Sorted(kvs) && e in kvs
    ensures Get(kvs, e.key) == Some(e.value)
  {
    if e != kvs[0] {
      LessIrreflexive(e.key);
      IsInGet(kvs[1..], e);
    }
  }

  // ---------- the table of node statuses ----------

  /** Writing one node's status into a table kept in name order. */
  function PutNode(nodes: seq<NodeStatus>, n: NodeStatus): seq<NodeStatus> {
    if nodes == [] then [n]
    else if nodes[0].name == n.name then [n] + nodes[1..]
    else if Less(n.name, nodes[0].name) then [n] + nodes
    else [nodes[0]] + PutNode(nodes[1..], n)
  }

  /** The latest value written for a name, if any. */
  function LookUp(nodes: seq<NodeStatus>, name: Name): Option<NodeStatus> {
    if nodes == [] then None
    else if nodes[0].name == name then Some(nodes[0])
    else LookUp(nodes[1..], name)
  }

  ghost predicate SortedNodes(nodes: seq<NodeStatus>) {
    forall i, j | 0 <= i < j < |nodes| :: Less(nodes[i].name, nodes[j].name)
  }

  lemma SortedNodesAreDistinct(nodes: seq<NodeStatus>)
    requires SortedNodes(nodes)
    ensures DistinctNames(nodes)
  {
    forall i, j | 0 <= i < j < |nodes| ensures nodes[i].name != nodes[j].name {
      LessIrreflexive(nodes[i].name);
    }
  }

  lemma {:induction false} PutNodeMembers(nodes: seq<NodeStatus>, n: NodeStatus, m: NodeStatus)
    requires m in PutNode(nodes, n)
    ensures m == n || m in nodes
  {
    if nodes != [] && nodes[0].name != n.name && !Less(n.name, nodes[0].name) && m != nodes[0] {
      PutNodeMembers(nodes[1..], n, m);
    }
  }

  lemma {:induction false} PutNodeSorted(nodes: seq<NodeStatus>, n: NodeStatus)
    requires SortedNodes(nodes)
    ensures SortedNodes(PutNode(nodes, n))
  {
    if nodes != [] {
      var head, rest := nodes[0], nodes[1..];
      if head.name == n.name {
      } else if Less(n.name, head.name) {
        forall i | 0 <= i < |nodes| ensures Less(n.name, nodes[i].name) {
          if i > 0 {
            LessTransitive(n.name, head.name, nodes[i].name);
          }
        }
      } else {
        LessTotal(n.name, head.name);
        PutNodeSorted(rest, n);
        var put := PutNode(rest, n);
        forall i | 0 <= i < |put| ensures Less(head.name, put[i].name) {
          PutNodeMembers(rest, n, put[i]);
        }
      }
    }
  }

  /** One entry per name ever written, carrying its latest value. */
  lemma {:induction false} PutNodeLooksUp(nodes: seq<NodeStatus>, n: NodeStatus, name: Name)
    requires SortedNodes(nodes)
    ensures LookUp(PutNode(nodes, n), name) == if name == n.name then Some(n) else LookUp(nodes, name)
  {
    if nodes == [] || nodes[0].name == n.name {
    } else if Less(n.name, nodes[0].name) {
      assert PutNode(nodes, n)[1..] == nodes;
    } else {
      PutNodeLooksUp(nodes[1..], n, name);
      assert PutNode(nodes, n)[1..] == PutNode(nodes[1..], n);
    }
  }

  /** The table only gains names. */
  lemma {:induction false} PutNodeLists(nodes: seq<NodeStatus>, n: NodeStatus, name: Name)
    ensures Listed(PutNode(nodes, n), name) <==> name == n.name || Listed(nodes, name)
  {
    var put := PutNode(nodes, n);
    if nodes == [] || nodes[0].name == n.name || Less(n.name, nodes[0].name) {
      assert put[0] == n;
      forall i | 0 <= i < |nodes| ensures Listed(put, nodes[i].name) {
        assert nodes[i] in put || nodes[i].name == put[0].name;
      }
    } else {
      PutNodeLists(nodes[1..], n, name);
      ListedSplit(put, name);
      ListedSplit(nodes, name);
      assert put[1..] == PutNode(nodes[1..], n);
    }
  }

  lemma ListedSplit(nodes: seq<NodeStatus>, name: Name)
    requires nodes != []
    ensures Listed(nodes, name) <==> nodes[0].name == name || Listed(nodes[1..], name)
  {
    if Listed(nodes, name) && nodes[0].name != name {
      var i :| 0 <= i < |nodes| && nodes[i].name == name;
      assert nodes[1..][i - 1].name == name;
    }
    if Listed(nodes[1..], name) {
      var i :| 0 <= i < |nodes[1..]| && nodes[1..][i].name == name;
      assert nodes[i + 1].name == name;
    }
  }

  // ---------- node entries under a key prefix ----------

  predicate IsNodeEntry(e: Entry, prefix: string) {
    prefix <= e.key && e.value.NodeValue?
  }

  /** The node statuses of the entries whose key starts with the prefix, in key order. */
  function Collect(kvs: seq<Entry>, prefix: string): seq<NodeStatus> {
    if kvs == [] then []
    else (if IsNodeEntry(kvs[0], prefix) then [kvs[0].value.node] else []) + Collect(kvs[1..], prefix)
  }

  function NodeKeyUnder(prefix: string, name: Name): string {
    prefix + "/" + name
  }

  /** Under the prefix there is nothing but node statuses, each under its own name. */
  ghost predicate NodeEntriesOk(kvs: seq<Entry>, prefix: string) {
    forall e | e in kvs && prefix <= e.key :: e.value.NodeValue? && e.key == NodeKeyUnder(prefix, e.value.node.name)
  }

  lemma {:induction false} CollectMembers(kvs: seq<Entry>, prefix: string, n: NodeStatus)
    requires n in Collect(kvs, prefix)
    ensures exists e :: e in kvs && IsNodeEntry(e, prefix) && e.value.node == n
  {
    if kvs != [] {
      if IsNodeEntry(kvs[0], prefix) && n == kvs[0].value.node {
        assert kvs[0] in kvs;
      } else {
        CollectMembers(kvs[1..], prefix, n);
      }
    }
  }

  lemma {:induction false} CollectHas(kvs: seq<Entry>, prefix: string, e: Entry)
    requires e in kvs && IsNodeEntry(e, prefix)
    ensures e.value.node in Collect(kvs, prefix)
  {
    if e != kvs[0] {
      CollectHas(kvs[1..], prefix, e);
    }
  }

  lemma NodeKeyOrder(prefix: string, a: Name, b: Name)
    ensures Less(NodeKeyUnder(prefix, a), NodeKeyUnder(prefix, b)) <==> Less(a, b)
    ensures NodeKeyUnder(prefix, a) == NodeKeyUnder(prefix, b) <==> a == b
  {
    LessAfterPrefix(prefix + "/", a, b);
    var l := |prefix + "/"|;
    assert NodeKeyUnder(prefix, a)[l..] == a && NodeKeyUnder(prefix, b)[l..] == b;
  }

  /** Entries in key order give a table in name order. */
  lemma {:induction false} CollectSorted(kvs: seq<Entry>, prefix: string)
    requires Sorted(kvs) && NodeEntriesOk(kvs, prefix)
    ensures SortedNodes(Collect(kvs, prefix))
  {
    if kvs != [] {
      var rest := Collect(kvs[1..], prefix);
      CollectSorted(kvs[1..], prefix);
      assert kvs[0] in kvs;
      if IsNodeEntry(kvs[0], prefix) {
        forall i | 0 <= i < |rest| ensures Less(kvs[0].value.node.name, rest[i].name) {
          CollectMembers(kvs[1..], prefix, rest[i]);
          var e :| e in kvs[1..] && IsNodeEntry(e, prefix) && e.value.node == rest[i];
          NodeKeyOrder(prefix, kvs[0].value.node.name, rest[i].name);
        }
      }
    }
  }

  /** A new node that precedes everything collected goes to the front of the table. */
  lemma CollectBehind(kvs: seq<Entry>, prefix: string, n: NodeStatus)
    requires NodeEntriesOk(kvs, prefix)
    requires forall i | 0 <= i < |kvs| :: Less(NodeKeyUnder(prefix, n.name), kvs[i].key)
    ensures PutNode(Collect(kvs, prefix), n) == [n] + Collect(kvs, prefix)
  {
    var nodes := Collect(kvs, prefix);
    if nodes != [] {
      CollectMembers(kvs, prefix, nodes[0]);
      var e :| e in kvs && IsNodeEntry(e, prefix) && e.value.node == nodes[0];
      NodeKeyOrder(prefix, n.name, nodes[0].name);
      LessIrreflexive(n.name);
    }
  }

  lemma {:induction false} CollectAfterPut(kvs: seq<Entry>, prefix: string, n: NodeStatus)
    requires Sorted(kvs) && NodeEntriesOk(kvs, prefix)
    ensures Collect(Put(kvs, NodeKeyUnder(prefix, n.name), NodeValue(n)), prefix) == PutNode(Collect(kvs, prefix), n)
  {
    var k := NodeKeyUnder(prefix, n.name);
    assert prefix <= k;
    if kvs != [] {
      var head, rest := kvs[0], kvs[1..];
      var put := Put(kvs, k, NodeValue(n));
      assert head in kvs;
      assert NodeEntriesOk(rest, prefix);
      if head.key == k {
        assert put[1..] == rest;
        NodeKeyOrder(prefix, n.name, head.value.node.name);
      } else if Less(k, head.key) {
        assert put[1..] == kvs;
        forall i | 0 <= i < |kvs| ensures Less(k, kvs[i].key) {
          if i > 0 {
            LessTransitive(k, head.key, kvs[i].key);
          }
        }
        CollectBehind(kvs, prefix, n);
      } else {
        assert put[1..] == Put(rest, k, NodeValue(n));
        CollectAfterPut(rest, prefix, n);
        if prefix <= head.key {
          NodeKeyOrder(prefix, n.name, head.value.node.name);
          assert Collect(kvs, prefix)[1..] == Collect(rest, prefix);
        } else {
          assert Collect(kvs, prefix) == Collect(rest, prefix);
          assert Collect(put, prefix) == Collect(put[1..], prefix);
        }
      }
    }
  }

  lemma {:induction false} CollectUnaffected(kvs: seq<Entry>, prefix: string, k: string, v: Value)
    requires !(prefix <= k)
    ensures Collect(Put(kvs, k, v), prefix) == Collect(kvs, prefix)
  {
    if kvs != [] {
      var put := Put(kvs, k, v);
      if kvs[0].key == k {
        assert put[1..] == kvs[1..];
      } else if Less(k, kvs[0].key) {
        assert put[1..] == kvs;
      } else {
        assert put[1..] == Put(kvs[1..], k, v);
        CollectUnaffected(kvs[1..], prefix, k, v);
      }
    }
  }
}
