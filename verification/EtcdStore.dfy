/** The etcd layout (pgdaemon/etcd.go): one sorted map shared by all clusters, a status key and a
    status-uuid key per cluster, and one key per node. */
module EtcdStore {
  import opened Common
  import opened ClusterLogic
  import opened SortedStore
  import opened StoreSpec

  function ClusterPrefix(c: Name): string { "/" + c }

  function SpecKey(c: Name): string { ClusterPrefix(c) + "/spec" }

  function StatusUuidKey(c: Name): string { ClusterPrefix(c) + "/status-uuid" }

  function StatusKey(c: Name): string { ClusterPrefix(c) + "/status" }

  function NodeStatusesPrefix(c: Name): string { ClusterPrefix(c) + "/node-statuses" }

  function NodeStatusKey(c: Name, n: Name): string { NodeKeyUnder(NodeStatusesPrefix(c), n) }

  // ---------- writing ----------

  /** The transaction: compare the status-uuid key, then put both keys. */
  function Cas(kvs: seq<Entry>, c: Name, prev: Uuid, status: ClusterStatus): seq<Entry> {
    var stored := Get(kvs, StatusUuidKey(c));
    var matches := if prev == NIL then stored.None? else stored == Some(UuidValue(prev));
    if matches then Put(Put(kvs, StatusUuidKey(c), UuidValue(status.uuid)), StatusKey(c), StatusValue(status)) else kvs
  }

  function ApplyOp(kvs: seq<Entry>, op: Op): seq<Entry> {
    match op
    case CasStatus(c, prev, status) => Cas(kvs, c, prev, status)
    case PutNodeStatus(c, node) => Put(kvs, NodeStatusKey(c, node.name), NodeValue(node))
    case PutSpec(c) => Put(kvs, SpecKey(c), SpecValue)
  }

  function StoreAfter(ops: seq<Op>): seq<Entry> {
    if ops == [] then [] else ApplyOp(StoreAfter(ops[..|ops| - 1]), ops[|ops| - 1])
  }

  // ---------- fetching ----------

  /** The answer to a range read: the entries under the cluster prefix, in key order. */
  function Range(kvs: seq<Entry>, prefix: string): seq<Entry> {
    if kvs == [] then []
    else (if prefix <= kvs[0].key then [kvs[0]] else []) + Range(kvs[1..], prefix)
  }

  function ScanOne(acc: ClusterState, e: Entry, c: Name): Result<ClusterState, FetchError> {
    if e.key == SpecKey(c) then
      if e.value.UuidValue? then Err(Malformed(e.key)) else Ok(acc)
    else if e.key == StatusKey(c) then
      var status := AsStatus(Json, e.value);
      if status.None? then Err(Malformed(e.key)) else Ok(acc.(status := status.value))
    else if e.key == StatusUuidKey(c) then Ok(acc)
    else if NodeStatusesPrefix(c) <= e.key then AddNode(acc, e, NodeStatusesPrefix(c))
    else Ok(acc)
  }

  function Scan(acc: ClusterState, kvs: seq<Entry>, c: Name): Result<ClusterState, FetchError>
    decreases |kvs|
  {
    if kvs == [] then Ok(acc)
    else
      var next := ScanOne(acc, kvs[0], c);
      if next.Err? then next else Scan(next.value, kvs[1..], c)
  }

  function Fetch(kvs: seq<Entry>, c: Name): Result<ClusterState, FetchError> {
    var answer := Range(kvs, ClusterPrefix(c));
    if answer == [] then Err(NotFound) else Scan(ClusterState(ZERO_STATUS, []), answer, c)
  }

  /** A fetch of cluster c can use the entry. */
  predicate Usable(e: Entry, c: Name) {
    && (e.key == SpecKey(c) || e.key == StatusKey(c) ==> !e.value.UuidValue?)
    && (NodeStatusesPrefix(c) <= e.key ==> NamesItself(e, NodeStatusesPrefix(c)))
  }

  ghost predicate FirstUnusable(answer: seq<Entry>, c: Name, i: nat) {
    i < |answer| && !Usable(answer[i], c) && forall j | 0 <= j < i :: Usable(answer[j], c)
  }

  lemma SpecialKeys(c: Name)
    ensures SpecKey(c) != StatusKey(c) && SpecKey(c) != StatusUuidKey(c) && StatusKey(c) != StatusUuidKey(c)
    ensures !(NodeStatusesPrefix(c) <= SpecKey(c)) && !(NodeStatusesPrefix(c) <= StatusKey(c))
    ensures !(NodeStatusesPrefix(c) <= StatusUuidKey(c))
  {
    var i := |ClusterPrefix(c)| + 1;
    assert SpecKey(c)[i] == 's' && StatusKey(c)[i] == 's' && StatusUuidKey(c)[i] == 's';
    assert NodeStatusesPrefix(c)[i] == 'n';
    assert SpecKey(c)[i + 1] == 'p' && StatusKey(c)[i + 1] == 't' && StatusUuidKey(c)[i + 1] == 't';
    assert |StatusKey(c)| != |StatusUuidKey(c)|;
  }

  lemma ScanOneMeaning(acc: ClusterState, e: Entry, c: Name)
    ensures ScanOne(acc, e, c).Ok? <==> Usable(e, c)
    ensures ScanOne(acc, e, c).Err? ==> Blames(ScanOne(acc, e, c).error, e, NodeStatusesPrefix(c))
  {
    SpecialKeys(c);
    AddNodeMeaning(acc, e, NodeStatusesPrefix(c));
  }

  lemma {:induction false} ScanMeaning(acc: ClusterState, answer: seq<Entry>, c: Name)
    ensures Scan(acc, answer, c).Ok? <==> forall i | 0 <= i < |answer| :: Usable(answer[i], c)
    ensures Scan(acc, answer, c).Err? ==>
              exists i: nat :: FirstUnusable(answer, c, i)
                               && Blames(Scan(acc, answer, c).error, answer[i], NodeStatusesPrefix(c))
    decreases |answer|
  {
    if answer != [] {
      ScanOneMeaning(acc, answer[0], c);
      var next := ScanOne(acc, answer[0], c);
      if next.Err? {
        assert FirstUnusable(answer, c, 0);
      } else {
        ScanMeaning(next.value, answer[1..], c);
        assert forall i | 1 <= i < |answer| :: answer[i] == answer[1..][i - 1];
        if Scan(next.value, answer[1..], c).Err? {
          var i: nat :| FirstUnusable(answer[1..], c, i)
                        && Blames(Scan(next.value, answer[1..], c).error, answer[1..][i], NodeStatusesPrefix(c));
          assert FirstUnusable(answer, c, i + 1);
        }
      }
    }
  }

  /** When a fetch fails, on any content of the server: not found exactly if nothing is under the
      cluster's prefix, otherwise exactly if some entry there cannot be used, and then with what is wrong
      with the first of them. */
  lemma FetchFailsExactly(kvs: seq<Entry>, c: Name)
    ensures var answer, r := Range(kvs, ClusterPrefix(c)), Fetch(kvs, c);
            && (r == Err(NotFound) <==> answer == [])
            && (r.Ok? <==> answer != [] && forall i | 0 <= i < |answer| :: Usable(answer[i], c))
            && (r.Err? && answer != [] ==> exists i: nat :: FirstUnusable(answer, c, i)
                                                            && Blames(r.error, answer[i], NodeStatusesPrefix(c)))
  {
    ScanMeaning(ClusterState(ZERO_STATUS, []), Range(kvs, ClusterPrefix(c)), c);
  }

  /** The answer has exactly the entries under the prefix. */
  lemma {:induction false} RangeMembers(kvs: seq<Entry>, prefix: string, e: Entry)
    ensures e in Range(kvs, prefix) <==> e in kvs && prefix <= e.key
  {
    if kvs != [] {
      RangeMembers(kvs[1..], prefix, e);
    }
  }

  /** The transaction, key by key: if the comparison holds both keys get the new status, and nothing
      else changes; if not, nothing does. */
  lemma CasKeyByKey(kvs: seq<Entry>, c: Name, prev: Uuid, status: ClusterStatus, k: string)
    requires Sorted(kvs)
    ensures var stored := Get(kvs, StatusUuidKey(c));
            var holds := (prev == NIL && stored == None) || (prev != NIL && stored == Some(UuidValue(prev)));
            Get(Cas(kvs, c, prev, status), k) ==
              if holds && k == StatusKey(c) then Some(StatusValue(status))
              else if holds && k == StatusUuidKey(c) then Some(UuidValue(status.uuid))
              else Get(kvs, k)
  {
    SpecialKeys(c);
    PutSorted(kvs, StatusUuidKey(c), UuidValue(status.uuid));
    PutThenGet(kvs, StatusUuidKey(c), UuidValue(status.uuid), k);
    PutThenGet(Put(kvs, StatusUuidKey(c), UuidValue(status.uuid)), StatusKey(c), StatusValue(status), k);
  }

  // ---------- the client object ----------

  /** The etcd server; its map is changed by every client. */
  class EtcdServer {
    var kvs: seq<Entry>

    constructor ()
      ensures kvs == []
    {
      kvs := [];
    }
  }

  class EtcdBackend {
    const client: EtcdServer
    const clusterName: Name
    const nodeName: Name

    constructor (client: EtcdServer, clusterName: Name, nodeName: Name)
      ensures this.client == client && this.clusterName == clusterName && this.nodeName == nodeName
    {
      this.client := client;
      this.clusterName := clusterName;
      this.nodeName := nodeName;
    }

    /** A failed comparison is no error. */
    method AtomicWriteClusterStatus(prevStatusUuid: Uuid, status: ClusterStatus, fault: Fault) returns (ok: bool)
      modifies client
      ensures client.kvs == if fault.NeverArrived? then old(client.kvs)
                            else ApplyOp(old(client.kvs), CasStatus(clusterName, prevStatusUuid, status))
      ensures ok <==> fault.Answered?
    {
      var stored := Get(client.kvs, StatusUuidKey(clusterName));
      var compare := stored.None?;
      if prevStatusUuid != NIL {
        compare := stored == Some(UuidValue(prevStatusUuid));
      }
      if compare && !fault.NeverArrived? {
        client.kvs := Put(client.kvs, StatusUuidKey(clusterName), UuidValue(status.uuid));
        client.kvs := Put(client.kvs, StatusKey(clusterName), StatusValue(status));
      }
      ok := fault.Answered?;
    }

    method WriteCurrentNodeStatus(status: NodeStatus, fault: Fault) returns (ok: bool)
      modifies client
      ensures client.kvs == if fault.NeverArrived? then old(client.kvs)
                            else Put(old(client.kvs), NodeStatusKey(clusterName, nodeName), NodeValue(status))
      ensures status.name == nodeName && !fault.NeverArrived? ==>
                client.kvs == ApplyOp(old(client.kvs), PutNodeStatus(clusterName, status))
      ensures ok <==> fault.Answered?
    {
      if !fault.NeverArrived? {
        client.kvs := Put(client.kvs, NodeStatusKey(clusterName, nodeName), NodeValue(status));
      }
      ok := fault.Answered?;
    }

    method FetchClusterState(fails: bool) returns (r: Result<ClusterState, FetchError>)
      ensures r == if fails then Err(Unavailable) else Fetch(client.kvs, clusterName)
    {
      if fails {
        return Err(Unavailable);
      }
      var answer := Range(client.kvs, ClusterPrefix(clusterName));
      if |answer| == 0 {
        return Err(NotFound);
      }
      var state := ClusterState(ZERO_STATUS, []);
      var i := 0;
      while i < |answer|
        invariant 0 <= i <= |answer|
        invariant Fetch(client.kvs, clusterName) == Scan(state, answer[i..], clusterName)
      {
        var e := answer[i];
        if e.key == SpecKey(clusterName) {
          if e.value.UuidValue? {
            return Err(Malformed(e.key));
          }
        } else if e.key == StatusKey(clusterName) {
          var status := AsStatus(Json, e.value);
          if status.None? {
            return Err(Malformed(e.key));
          }
          state := state.(status := status.value);
        } else if e.key == StatusUuidKey(clusterName) {
          // the UUID is embedded in the status
        } else if NodeStatusesPrefix(clusterName) <= e.key {
          var name := TrimPrefix(e.key, NodeStatusesPrefix(clusterName) + "/");
          var node := AsNode(e.value);
          if node.None? {
            return Err(Malformed(e.key));
          }
          if name != node.value.name {
            return Err(NameMismatch(name, node.value.name));
          }
          state := state.(nodes := state.nodes + [node.value]);
        }
        i := i + 1;
      }
      return Ok(state);
    }
  }

  // ---------- whose key it is ----------

  /** The names of c and d keep every key that d can write out of what a fetch of c looks at. */
  predicate Separate(c: Name, d: Name) {
    !(c + "/node-statuses" <= d) && !(d + "/node-statuses/" <= c + "/node-statuses")
  }

  ghost predicate Apart(c: Name, ops: seq<Op>) {
    forall i | 0 <= i < |ops| :: Separate(c, ops[i].cluster)
  }

  predicate SlashFree(c: Name) {
    forall i | 0 <= i < |c| :: c[i] != '/'
  }

  /** Names without slashes are always separate. */
  lemma SlashFreeAreSeparate(c: Name, d: Name)
    requires SlashFree(c) && SlashFree(d)
    ensures Separate(c, d)
  {
    OneSlash();
    var a, b := d + "/node-statuses/", c + "/node-statuses";
    assert b[|c|] == '/' && a[|d|] == '/' && a[|d| + 14] == '/';
    assert forall i | 0 <= i < |b| && i != |c| :: b[i] != '/';
  }

  lemma OneSlash()
    ensures |"/node-statuses"| == 14 && "/node-statuses"[0] == '/'
    ensures forall i | 0 < i < 14 :: "/node-statuses"[i] != '/'
  {
    var s := "/node-statuses";
    assert s[1] == 'n' && s[2] == 'o' && s[3] == 'd' && s[4] == 'e' && s[5] == '-' && s[6] == 's' && s[7] == 't';
    assert s[8] == 'a' && s[9] == 't' && s[10] == 'u' && s[11] == 's' && s[12] == 'e' && s[13] == 's';
  }

  function KeyOf(c: Name, k: Kind): string {
    "/" + c + "/" + Suffix(k)
  }

  lemma KeysAreKinds(c: Name)
    ensures SpecKey(c) == KeyOf(c, Spec)
    ensures StatusKey(c) == KeyOf(c, Status)
    ensures StatusUuidKey(c) == KeyOf(c, StatusUuid)
  {
    assert "/spec" == "/" + "spec" && "/status" == "/" + "status" && "/status-uuid" == "/" + "status-uuid";
  }

  lemma NodeKeysAreKinds(c: Name, n: Name)
    ensures NodeStatusesPrefix(c) == "/" + c + "/" + "node-statuses"
    ensures NodeStatusKey(c, n) == KeyOf(c, Node(n))
  {
    assert "/node-statuses" == "/" + "node-statuses";
    assert "node-statuses/" == "node-statuses" + "/";
    assert ("/" + c + "/" + "node-statuses") + "/" + n == "/" + c + "/" + (("node-statuses" + "/") + n);
  }

  predicate Simple(k: Kind) {
    !k.Node?
  }

  /** Only node keys have a second slash behind the cluster name, and only at one place. */
  lemma SlashesInSuffix(k: Kind)
    ensures var s := "/" + Suffix(k);
            && (forall o | 0 < o < |s| && (Simple(k) || o < 14) :: s[o] != '/')
            && (Simple(k) ==> |s| <= 12)
            && (k.Node? ==> "/node-statuses/" <= s)
  {
    OneSlash();
    if k.Node? {
      assert "/" + Suffix(k) == "/node-statuses" + ("/" + k.name);
    }
  }

  /** A key without its leading slash. */
  lemma KeyTail(c: Name, k: Kind)
    ensures KeyOf(c, k) != "" && KeyOf(c, k)[1..] == c + ("/" + Suffix(k))
  {
    var key, tail := KeyOf(c, k), c + ("/" + Suffix(k));
    assert |key| == 1 + |tail|;
    forall i | 0 <= i < |tail| ensures key[1 + i] == tail[i] {
    }
  }

  /** A status, status-uuid or spec key of c is written for c only. */
  lemma KeyIsOwn(c: Name, d: Name, k: Kind, own: Kind)
    requires Separate(c, d) && Simple(own)
    ensures KeyOf(d, k) == KeyOf(c, own) <==> c == d && k == own
  {
    if KeyOf(d, k) == KeyOf(c, own) {
      SameKey(c, d, k, own);
    }
  }

  lemma SameKey(c: Name, d: Name, k: Kind, own: Kind)
    requires Simple(own) && KeyOf(d, k) == KeyOf(c, own)
    ensures (c == d && k == own) || !Separate(c, d)
  {
    var x, y := d + ("/" + Suffix(k)), c + ("/" + Suffix(own));
    KeyTail(d, k);
    KeyTail(c, own);
    assert x == y;
    SlashesInSuffix(own);
    assert x[|d|] == '/' && forall i | |c| < i < |y| :: y[i] != '/';
    assert |d| <= |c|;
    if |d| == |c| {
      assert c == y[..|c|] == d;
      assert Suffix(k) == x[|d| + 1..] == Suffix(own);
      SuffixTellsKind(k, own);
    } else {
      LongerName(c, d, k, own);
    }
  }

  lemma LongerName(c: Name, d: Name, k: Kind, own: Kind)
    requires |d| < |c| && d + ("/" + Suffix(k)) == c + ("/" + Suffix(own))
    ensures !Separate(c, d)
  {
    var s, p := "/" + Suffix(k), c + "/node-statuses";
    SlashesInSuffix(k);
    OneSlash();
    assert s[|c| - |d|] == (d + s)[|c|] == (c + ("/" + Suffix(own)))[|c|] == '/';
    assert |c| - |d| >= 14 && k.Node?;
    assert c + "/" <= d + s && c + "/" <= p;
    assert d + "/node-statuses/" <= d + s;
  }

  /** No key of another cluster lies under c's node prefix, unless the names overlap. */
  lemma ForeignUnderPrefix(c: Name, d: Name, k: Kind)
    requires c != d && NodeStatusesPrefix(c) <= KeyOf(d, k)
    ensures !Separate(c, d)
  {
    var p, s := c + "/node-statuses", "/" + Suffix(k);
    KeyTail(d, k);
    assert NodeStatusesPrefix(c)[1..] == p;
    assert p <= d + s;
    if |d| < |p| {
      ReachesInto(c, d, k);
    }
  }

  lemma ReachesInto(c: Name, d: Name, k: Kind)
    requires c != d && d <= c + "/node-statuses" <= d + ("/" + Suffix(k)) && |d| < |c| + 14
    ensures !Separate(c, d)
  {
    var p, s := c + "/node-statuses", "/" + Suffix(k);
    OneSlash();
    SlashesInSuffix(k);
    assert p[|d|] == (d + s)[|d|] == '/';
    assert forall i | |c| < i < |p| :: p[i] != '/';
    assert p[..|d|] == d && p[..|c|] == c;
    assert |d| < |c| && |s| >= 15 && k.Node?;
    assert d + "/node-statuses/" <= d + s;
  }

  lemma OwnPrefix(c: Name, s: string)
    ensures NodeStatusesPrefix(c) <= "/" + c + "/" + s <==> "node-statuses" <= s
  {
    NodeKeysAreKinds(c, "");
    var p := "/" + c + "/";
    assert (p + s)[|p|..] == s && (p + "node-statuses")[|p|..] == "node-statuses";
    if p + "node-statuses" <= p + s {
      assert "node-statuses" == (p + s)[|p|..][..13];
    }
  }

  /** Only c's own node keys start with c's node prefix. */
  lemma NodePrefixTellsNode(c: Name, d: Name, k: Kind)
    requires Separate(c, d)
    ensures NodeStatusesPrefix(c) <= KeyOf(d, k) <==> c == d && k.Node?
  {
    if c == d {
      OwnPrefix(c, Suffix(k));
      SuffixTellsKind(k, k);
    } else if NodeStatusesPrefix(c) <= KeyOf(d, k) {
      ForeignUnderPrefix(c, d, k);
    }
  }

  // ---------- every entry is some cluster's ----------

  ghost predicate EntryOk(c: Name, e: Entry) {
    exists d: Name, k: Kind :: Separate(c, d) && e.key == KeyOf(d, k) && ValueFits(k, e.value)
  }

  ghost predicate EntriesOk(c: Name, kvs: seq<Entry>) {
    forall e | e in kvs :: EntryOk(c, e)
  }

  /** Sorted, and nothing in it that a fetch of c could mistake. */
  ghost predicate WellKept(c: Name, kvs: seq<Entry>) {
    Sorted(kvs) && EntriesOk(c, kvs)
  }

  lemma PutKeepsEntries(kvs: seq<Entry>, c: Name, d: Name, k: Kind, v: Value)
    requires WellKept(c, kvs) && Separate(c, d) && ValueFits(k, v)
    ensures WellKept(c, Put(kvs, KeyOf(d, k), v))
  {
    PutSorted(kvs, KeyOf(d, k), v);
    forall e | e in Put(kvs, KeyOf(d, k), v) ensures EntryOk(c, e) {
      PutMembers(kvs, KeyOf(d, k), v, e);
    }
  }

  lemma NodesUnderPrefix(kvs: seq<Entry>, c: Name)
    requires EntriesOk(c, kvs)
    ensures NodeEntriesOk(kvs, NodeStatusesPrefix(c))
  {
    forall e | e in kvs && NodeStatusesPrefix(c) <= e.key
      ensures e.value.NodeValue? && e.key == NodeStatusKey(c, e.value.node.name)
    {
      assert EntryOk(c, e);
      var d: Name, k: Kind :| Separate(c, d) && e.key == KeyOf(d, k) && ValueFits(k, e.value);
      NodePrefixTellsNode(c, d, k);
      NodeKeysAreKinds(c, k.name);
    }
  }

  // ---------- fetching undoes writing ----------

  /** Entries outside the range read would not have mattered. */
  lemma {:induction false} ScanRange(acc: ClusterState, kvs: seq<Entry>, c: Name)
    ensures Scan(acc, Range(kvs, ClusterPrefix(c)), c) == Scan(acc, kvs, c)
    decreases |kvs|
  {
    if kvs != [] {
      var e := kvs[0];
      if ClusterPrefix(c) <= e.key {
        assert Range(kvs, ClusterPrefix(c))[1..] == Range(kvs[1..], ClusterPrefix(c));
        var next := ScanOne(acc, e, c);
        if next.Ok? {
          ScanRange(next.value, kvs[1..], c);
        }
      } else {
        assert Range(kvs, ClusterPrefix(c)) == Range(kvs[1..], ClusterPrefix(c));
        ScanRange(acc, kvs[1..], c);
      }
    }
  }

  /** One well-formed entry contributes to the scan what its cluster and kind say. */
  lemma ScanOneOk(acc: ClusterState, e: Entry, c: Name)
    requires EntryOk(c, e)
    ensures ScanOne(acc, e, c) == Ok(ClusterState(
              if e.key == StatusKey(c) then StatusFrom(Json, acc.status, Some(e.value)) else acc.status,
              acc.nodes + Contribution(e, NodeStatusesPrefix(c))))
    ensures e.key == StatusKey(c) ==> e.value.StatusValue?
  {
    var d: Name, k: Kind :| Separate(c, d) && e.key == KeyOf(d, k) && ValueFits(k, e.value);
    KeysAreKinds(c);
    KeyIsOwn(c, d, k, Spec);
    KeyIsOwn(c, d, k, Status);
    KeyIsOwn(c, d, k, StatusUuid);
    NodePrefixTellsNode(c, d, k);
    assert acc.nodes + [] == acc.nodes;
    if c == d && k.Node? {
      NodeKeysAreKinds(c, k.name);
    }
  }

  lemma WellKeptTail(c: Name, kvs: seq<Entry>)
    requires WellKept(c, kvs) && kvs != []
    ensures EntryOk(c, kvs[0]) && WellKept(c, kvs[1..]) && Get(kvs[1..], kvs[0].key) == None
  {
    assert kvs[0] in kvs;
    GetAbsent(kvs[1..], kvs[0].key);
  }

  /** The state a scan that starts from acc ends with. */
  function Collected(acc: ClusterState, kvs: seq<Entry>, c: Name): ClusterState {
    ClusterState(StatusFrom(Json, acc.status, Get(kvs, StatusKey(c))), acc.nodes + Collect(kvs, NodeStatusesPrefix(c)))
  }

  lemma CollectedOneMore(acc: ClusterState, kvs: seq<Entry>, c: Name)
    requires WellKept(c, kvs) && kvs != []
    ensures ScanOne(acc, kvs[0], c).Ok?
    ensures Collected(ScanOne(acc, kvs[0], c).value, kvs[1..], c) == Collected(acc, kvs, c)
  {
    WellKeptTail(c, kvs);
    ScanOneOk(acc, kvs[0], c);
    NodesOneMore(acc.nodes, kvs, NodeStatusesPrefix(c));
  }

  lemma {:induction false} ScanCollects(acc: ClusterState, kvs: seq<Entry>, c: Name)
    requires WellKept(c, kvs)
    ensures Scan(acc, kvs, c) == Ok(Collected(acc, kvs, c))
    decreases |kvs|
  {
    if kvs == [] {
      assert acc.nodes + [] == acc.nodes;
    } else {
      CollectedOneMore(acc, kvs, c);
      WellKeptTail(c, kvs);
      ScanCollects(ScanOne(acc, kvs[0], c).value, kvs[1..], c);
    }
  }

  // ---------- the layout refines the register and the table ----------

  /** The two status keys of c hold the register: both absent, or a status and the UUID embedded in it. */
  ghost predicate HoldsRegister(kvs: seq<Entry>, c: Name, reg: Option<ClusterStatus>) {
    && Get(kvs, StatusKey(c)) == (if reg.None? then None else Some(StatusValue(reg.value)))
    && Get(kvs, StatusUuidKey(c)) == (if reg.None? then None else Some(UuidValue(reg.value.uuid)))
  }

  /** A put under any key of cluster d leaves the status keys of c alone unless it is one of them. */
  lemma PutElsewhere(kvs: seq<Entry>, c: Name, d: Name, k: Kind, v: Value, reg: Option<ClusterStatus>)
    requires WellKept(c, kvs) && Separate(c, d) && HoldsRegister(kvs, c, reg)
    requires c != d || k.Spec? || k.Node?
    ensures HoldsRegister(Put(kvs, KeyOf(d, k), v), c, reg)
  {
    KeysAreKinds(c);
    KeyIsOwn(c, d, k, Status);
    KeyIsOwn(c, d, k, StatusUuid);
    PutThenGet(kvs, KeyOf(d, k), v, StatusKey(c));
    PutThenGet(kvs, KeyOf(d, k), v, StatusUuidKey(c));
  }

  /** The two puts of a winning transaction. */
  function PutStatus(kvs: seq<Entry>, d: Name, status: ClusterStatus): seq<Entry> {
    Put(Put(kvs, StatusUuidKey(d), UuidValue(status.uuid)), StatusKey(d), StatusValue(status))
  }

  lemma PutStatusKeeps(kvs: seq<Entry>, c: Name, d: Name, status: ClusterStatus, reg: Option<ClusterStatus>)
    requires WellKept(c, kvs) && Separate(c, d) && HoldsRegister(kvs, c, reg)
    ensures WellKept(c, PutStatus(kvs, d, status))
    ensures HoldsRegister(PutStatus(kvs, d, status), c, if c == d then Some(status) else reg)
    ensures Collect(PutStatus(kvs, d, status), NodeStatusesPrefix(c)) == Collect(kvs, NodeStatusesPrefix(c))
  {
    KeysAreKinds(d);
    var once := Put(kvs, StatusUuidKey(d), UuidValue(status.uuid));
    PutKeepsEntries(kvs, c, d, StatusUuid, UuidValue(status.uuid));
    PutKeepsEntries(once, c, d, Status, StatusValue(status));
    NodePrefixTellsNode(c, d, StatusUuid);
    NodePrefixTellsNode(c, d, Status);
    CollectUnaffected(kvs, NodeStatusesPrefix(c), StatusUuidKey(d), UuidValue(status.uuid));
    CollectUnaffected(once, NodeStatusesPrefix(c), StatusKey(d), StatusValue(status));
    if c == d {
      KeyIsOwn(c, c, Status, StatusUuid);
      PutThenGet(once, StatusKey(c), StatusValue(status), StatusKey(c));
      PutThenGet(once, StatusKey(c), StatusValue(status), StatusUuidKey(c));
      PutThenGet(kvs, StatusUuidKey(c), UuidValue(status.uuid), StatusUuidKey(c));
    } else {
      PutElsewhere(kvs, c, d, StatusUuid, UuidValue(status.uuid), reg);
      PutElsewhere(once, c, d, Status, StatusValue(status), reg);
    }
  }

  lemma NodePutKeeps(kvs: seq<Entry>, c: Name, d: Name, node: NodeStatus, reg: Option<ClusterStatus>)
    requires WellKept(c, kvs) && Separate(c, d) && HoldsRegister(kvs, c, reg)
    ensures var kvs' := Put(kvs, NodeStatusKey(d, node.name), NodeValue(node));
            && WellKept(c, kvs') && HoldsRegister(kvs', c, reg)
            && Collect(kvs', NodeStatusesPrefix(c))
               == var nodes := Collect(kvs, NodeStatusesPrefix(c)); if c == d then PutNode(nodes, node) else nodes
  {
    NodeKeysAreKinds(d, node.name);
    PutKeepsEntries(kvs, c, d, Node(node.name), NodeValue(node));
    PutElsewhere(kvs, c, d, Node(node.name), NodeValue(node), reg);
    if c == d {
      NodesUnderPrefix(kvs, c);
      CollectAfterPut(kvs, NodeStatusesPrefix(c), node);
    } else {
      NodePrefixTellsNode(c, d, Node(node.name));
      CollectUnaffected(kvs, NodeStatusesPrefix(c), NodeStatusKey(d, node.name), NodeValue(node));
    }
  }

  lemma SpecPutKeeps(kvs: seq<Entry>, c: Name, d: Name, reg: Option<ClusterStatus>)
    requires WellKept(c, kvs) && Separate(c, d) && HoldsRegister(kvs, c, reg)
    ensures var kvs' := Put(kvs, SpecKey(d), SpecValue);
            && WellKept(c, kvs') && HoldsRegister(kvs', c, reg)
            && Collect(kvs', NodeStatusesPrefix(c)) == Collect(kvs, NodeStatusesPrefix(c))
  {
    KeysAreKinds(d);
    PutKeepsEntries(kvs, c, d, Spec, SpecValue);
    PutElsewhere(kvs, c, d, Spec, SpecValue, reg);
    NodePrefixTellsNode(c, d, Spec);
    CollectUnaffected(kvs, NodeStatusesPrefix(c), SpecKey(d), SpecValue);
  }

  /** In every reachable state the etcd layout holds, for each cluster, the abstract register and
      table: the status-uuid key equals the UUID embedded in the status, and both keys are absent
      exactly when no status was committed. */
  lemma {:induction false} EtcdRefinesRegister(ops: seq<Op>, c: Name)
    requires Apart(c, ops)
    ensures var kvs := StoreAfter(ops);
            && WellKept(c, kvs)
            && HoldsRegister(kvs, c, RegisterAfter(ops, c))
            && Collect(kvs, NodeStatusesPrefix(c)) == TableAfter(ops, c)
  {
    if ops != [] {
      var front, op := ops[..|ops| - 1], ops[|ops| - 1];
      EtcdRefinesRegister(front, c);
      var kvs, reg := StoreAfter(front), RegisterAfter(front, c);
      match op
      case CasStatus(d, prev, status) =>
        PutStatusKeeps(kvs, c, d, status, reg);
      case PutNodeStatus(d, node) =>
        NodePutKeeps(kvs, c, d, node, reg);
      case PutSpec(d) =>
        SpecPutKeeps(kvs, c, d, reg);
    }
  }

  /** Fetch undoes write: after any writes to any clusters with separate names, a fetch of c returns the last
      committed status and one entry per node of c, with its latest value and no name mismatch; keys
      of other clusters, also of those whose names extend c, never leak in.  It fails only while no
      key starts with the cluster prefix. */
  lemma FetchUndoesWrites(ops: seq<Op>, c: Name)
    requires Apart(c, ops)
    ensures FetchesRight(ops, c)
  {
    var kvs := StoreAfter(ops);
    EtcdRefinesRegister(ops, c);
    ScanRange(ClusterState(ZERO_STATUS, []), kvs, c);
    ScanCollects(ClusterState(ZERO_STATUS, []), kvs, c);
    var nodes := Collect(kvs, NodeStatusesPrefix(c));
    assert [] + nodes == nodes;
  }

  lemma {:induction false} NothingUnder(kvs: seq<Entry>, outer: string, prefix: string, k: string)
    requires Range(kvs, outer) == [] && outer <= prefix && outer <= k
    ensures Collect(kvs, prefix) == [] && Get(kvs, k) == None
  {
    if kvs != [] {
      NothingUnder(kvs[1..], outer, prefix, k);
    }
  }

  /** "Not found" is only answered while neither a status nor a node status was written. */
  lemma NotFoundMeansEmpty(ops: seq<Op>, c: Name)
    requires Apart(c, ops)
    requires Range(StoreAfter(ops), ClusterPrefix(c)) == []
    ensures RegisterAfter(ops, c) == None && TableAfter(ops, c) == []
  {
    EtcdRefinesRegister(ops, c);
    KeysAreKinds(c);
    NothingUnder(StoreAfter(ops), ClusterPrefix(c), NodeStatusesPrefix(c), StatusKey(c));
  }

  // ---------- exactly which names may share a server ----------

  ghost predicate FetchesRight(ops: seq<Op>, c: Name) {
    var kvs := StoreAfter(ops);
    Fetch(kvs, c) == if Range(kvs, ClusterPrefix(c)) == [] then Err(NotFound) else Ok(StateAfter(Json, ops, c))
  }

  ghost predicate Only(ops: seq<Op>, clusters: set<Name>) {
    forall i | 0 <= i < |ops| :: ops[i].cluster in clusters
  }

  /** The name of a node of cluster d whose key lies under c's node prefix. */
  function Intruder(c: Name, d: Name): Name
    requires !Separate(c, d)
  {
    if c + "/node-statuses" <= d then "n" else (c + "/node-statuses")[|d + "/node-statuses/"|..]
  }

  lemma IntruderKey(c: Name, d: Name)
    requires !Separate(c, d)
    ensures c != d && Intruder(c, d) != "" && NodeStatusesPrefix(c) <= NodeStatusKey(d, Intruder(c, d))
  {
    OneSlash();
    var p, q, n := c + "/node-statuses", d + "/node-statuses/", Intruder(c, d);
    assert NodeStatusesPrefix(c) == "/" + p;
    assert NodeStatusKey(d, n) == "/" + (q + n);
    assert p[|p| - 1] == 's' && q[|q| - 1] == '/';
    if p <= d {
      assert p <= q + n;
    } else {
      assert p == q + n;
      assert n == "" ==> p == q;
    }
  }

  lemma IntruderMismatches(c: Name, d: Name, node: NodeStatus)
    requires c != d && NodeStatusesPrefix(c) <= NodeStatusKey(d, node.name)
    ensures var e := Entry(NodeStatusKey(d, node.name), NodeValue(node));
            var name := TrimPrefix(e.key, NodeStatusesPrefix(c) + "/");
            && ScanOne(ClusterState(ZERO_STATUS, []), e, c) == Err(NameMismatch(name, node.name))
            && ClusterPrefix(c) <= e.key
  {
    var p, key := NodeStatusesPrefix(c), NodeStatusKey(d, node.name);
    OneSlash();
    assert p[2 + |c|] == 'n' && key[2 + |c|] == 'n';
    assert SpecKey(c)[2 + |c|] == 's' && StatusKey(c)[2 + |c|] == 's' && StatusUuidKey(c)[2 + |c|] == 's';
    assert |key| == |d| + |node.name| + 16 && |p| == |c| + 15;
    assert c == p[1..1 + |c|] == key[1..1 + |c|];
    assert d == key[1..1 + |d|];
    assert |c| != |d|;
  }

  /** Overlapping names leak: one node status that a daemon of d writes makes every fetch of c fail. */
  lemma OverlappingNamesLeak(c: Name, d: Name, node: NodeStatus)
    requires !Separate(c, d) && node.name == Intruder(c, d)
    ensures node.name != ""
    ensures var r := Fetch(StoreAfter([PutNodeStatus(d, node)]), c); r.Err? && r.error.NameMismatch?
  {
    var ops := [PutNodeStatus(d, node)];
    var e := Entry(NodeStatusKey(d, node.name), NodeValue(node));
    assert ops[..0] == [];
    assert StoreAfter(ops) == [e];
    IntruderKey(c, d);
    IntruderMismatches(c, d, node);
    assert Range([e], ClusterPrefix(c)) == [e];
  }

  /** Clusters can share an etcd server, whatever they write and in whatever order, exactly when
      their names are separate; the names alone decide it. */
  lemma FetchRightIffSeparate(c: Name, clusters: set<Name>)
    ensures (forall ops | Only(ops, clusters) :: FetchesRight(ops, c)) <==> (forall d | d in clusters :: Separate(c, d))
  {
    if forall d | d in clusters :: Separate(c, d) {
      forall ops | Only(ops, clusters) ensures FetchesRight(ops, c) {
        FetchUndoesWrites(ops, c);
      }
    } else {
      var d :| d in clusters && !Separate(c, d);
      var node := ZERO_NODE.(name := Intruder(c, d));
      var ops := [PutNodeStatus(d, node)];
      OverlappingNamesLeak(c, d, node);
      assert Only(ops, clusters) && !FetchesRight(ops, c);
    }
  }
}
