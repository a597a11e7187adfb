/** The programs of NodeDaemon refine the reconciliation protocol: whatever their contracts allow in the
    surroundings that a run of the protocol gives them is what that run does. */
module DaemonRefinement {
  import opened Common
  import opened ClusterLogic
  import opened SortedStore
  import opened StoreSpec
  import opened EtcdStore
  import Layouts
  import opened Reconcile
  import opened NodeDaemon

  lemma {:induction false} ApplyAllAppends(ops: seq<Op>, others: seq<Op>)
    ensures ApplyAll(EtcdStore.StoreAfter(ops), others) == EtcdStore.StoreAfter(ops + others)
  {
    if others == [] {
      assert ops + others == ops;
    } else {
      var front, last := others[..|others| - 1], others[|others| - 1];
      ApplyAllAppends(ops, front);
      assert others == front + [last] && ops + others == (ops + front) + [last];
      OneMore(EtcdStore.StoreAfter(ops), ops + front, front, last);
    }
  }

  lemma OneMore(kvs: seq<Entry>, ops: seq<Op>, others: seq<Op>, op: Op)
    requires ApplyAll(kvs, others) == EtcdStore.StoreAfter(ops)
    ensures ApplyAll(kvs, others + [op]) == EtcdStore.StoreAfter(ops + [op])
  {
    assert (others + [op])[..|others|] == others;
    StoreAfterOneMore(ops, op);
  }

  lemma StoreAfterOneMore(ops: seq<Op>, op: Op)
    ensures EtcdStore.StoreAfter(ops + [op]) == EtcdStore.ApplyOp(EtcdStore.StoreAfter(ops), op)
  {
    assert (ops + [op])[..|ops|] == ops;
  }

  lemma {:induction false} InterleavesAppends(a: seq<Op>, x: seq<Op>, b: seq<Op>,
                                              y: seq<Op>, c: Name)
    requires Layouts.Interleaves(a, x, c) && Layouts.Interleaves(b, y, c)
    ensures Layouts.Interleaves(a + b, x + y, c)
  {
    if b == [] {
      assert a + b == a && x + y == x;
    } else {
      var front, op := b[..|b| - 1], b[|b| - 1];
      assert (a + b)[..|a + b| - 1] == a + front;
      if op.cluster != c {
        InterleavesAppends(a, x, front, y, c);
      } else {
        InterleavesAppends(a, x, front, y[..|y| - 1], c);
        assert (x + y)[..|x + y| - 1] == x + y[..|y| - 1];
      }
    }
  }

  lemma {:induction false} OpsAppend(x: seq<Event>, y: seq<Event>, c: Name)
    ensures Layouts.OpsOf(x + y, c) == Layouts.OpsOf(x, c) + Layouts.OpsOf(y, c)
  {
    if y == [] {
      assert x + y == x;
      assert Layouts.OpsOf(x, c) + [] == Layouts.OpsOf(x, c);
    } else {
      var front, last := y[..|y| - 1], y[|y| - 1];
      OpsAppend(x, front, c);
      assert (x + y)[..|x + y| - 1] == x + front;
      Associative(Layouts.OpsOf(x, c), Layouts.OpsOf(front, c), Layouts.OpOf(last, c));
    }
  }

  lemma OpsAcrossRead(es: seq<Event>, f: nat, d: nat, c: Name)
    requires f < d <= |es| && es[f].Read?
    ensures Layouts.OpsOf(es[..d], c) == Layouts.OpsOf(es[..f], c) + Layouts.OpsOf(es[f + 1..d], c)
  {
    assert es[..d] == es[..f + 1] + es[f + 1..d];
    OpsAppend(es[..f + 1], es[f + 1..d], c);
    Layouts.OpsOneMore(es, c, f);
    var before := Layouts.OpsOf(es[..f], c);
    assert before + [] == before;
  }

  /** What the client that read e goes on with, and whether it sends it. */
  function Goes(e: Event): ClusterStatus
    requires e.Read?
  {
    GoesOnWith(e.read, Proposal(e.o, e.read, e.nodes), SourceName(e.o), e.uuid, e.time)
  }

  predicate Sends(e: Event)
    requires e.Read?
  {
    Changed(e.read, Proposal(e.o, e.read, e.nodes))
  }

  lemma GoesMeaning(e: Event)
    requires e.Read?
    ensures Changed(e.read, Goes(e)) <==> Sends(e)
    ensures Sends(e) ==> Goes(e) == ReadRequest(e).status
  {
    assert MeaningOf(Goes(e)) == MeaningOf(Proposal(e.o, e.read, e.nodes));
  }

  /** The store operations of the run up to event f, then those of the others up to event d, then the
      client's own compare-and-set if event d is its delivery. */
  ghost predicate StoreHistory(ops: seq<Op>, env: Environment, es: seq<Event>, c: Name, f: nat, d: nat) {
    && f < d <= |es| && es[f].Read?
    && Layouts.Interleaves(ops, Layouts.OpsOf(es[..f], c), c)
    && Layouts.Interleaves(env.others, Layouts.OpsOf(es[f + 1..d], c), c)
    && (Sends(es[f]) && !env.fault.NeverArrived? ==> d < |es| && es[d] == Deliver(ReadRequest(es[f])))
  }

  predicate Writes(env: Environment, e: Event)
    requires e.Read?
  {
    Sends(e) && !env.fault.NeverArrived?
  }

  /** How many events of the run the store has seen when the client's call returns. */
  function Seen(env: Environment, e: Event, d: nat): nat
    requires e.Read?
  {
    if Writes(env, e) then d + 1 else d
  }

  /** The operations of the store when the client's call returns. */
  function OpsSeen(ops: seq<Op>, env: Environment, e: Event, c: Name): seq<Op>
    requires e.Read?
  {
    ops + env.others + if Writes(env, e) then [CasStatus(c, e.read.uuid, Goes(e))] else []
  }

  /** They are the run's, whether the compare-and-set won, lost or never arrived. */
  lemma SeenInterleaves(env: Environment, es: seq<Event>, c: Name, f: nat, d: nat, ops: seq<Op>)
    requires StoreHistory(ops, env, es, c, f, d)
    ensures Seen(env, es[f], d) <= |es|
    ensures Layouts.Interleaves(OpsSeen(ops, env, es[f], c), Layouts.OpsOf(es[..Seen(env, es[f], d)], c), c)
  {
    OthersMet(env, es, c, f, d, ops);
    if Writes(env, es[f]) {
      OwnSeen(env, es, c, f, d, ops);
    } else {
      assert ops + env.others + [] == ops + env.others;
    }
  }

  lemma OwnSeen(env: Environment, es: seq<Event>, c: Name, f: nat, d: nat, ops: seq<Op>)
    requires StoreHistory(ops, env, es, c, f, d) && Writes(env, es[f])
    ensures Layouts.Interleaves(OpsSeen(ops, env, es[f], c), Layouts.OpsOf(es[..d + 1], c), c)
  {
    var op := CasStatus(c, es[f].read.uuid, Goes(es[f]));
    OthersMet(env, es, c, f, d, ops);
    GoesMeaning(es[f]);
    Layouts.OpsOneMore(es, c, d);
    assert Layouts.OpOf(es[d], c) == [op];
    OneOwnMore(ops + env.others, Layouts.OpsOf(es[..d], c), op, c);
  }

  /** The content of the store follows them. */
  lemma SeenStored(env: Environment, e: Event, c: Name, ops: seq<Op>)
    requires e.Read?
    ensures AfterWrite(ApplyAll(EtcdStore.StoreAfter(ops), env.others), c, e.read, Goes(e), env.fault)
            == EtcdStore.StoreAfter(OpsSeen(ops, env, e, c))
  {
    var met := ops + env.others;
    ApplyAllAppends(ops, env.others);
    GoesMeaning(e);
    if Writes(env, e) {
      StoreAfterOneMore(met, CasStatus(c, e.read.uuid, Goes(e)));
    } else {
      assert met + [] == met;
    }
  }

  lemma SeenApart(env: Environment, e: Event, c: Name, ops: seq<Op>)
    requires e.Read? && EtcdStore.Apart(c, ops) && EtcdStore.Apart(c, env.others)
    ensures EtcdStore.Apart(c, OpsSeen(ops, env, e, c))
  {
    OwnNameIsSeparate(c);
  }

  lemma OthersMet(env: Environment, es: seq<Event>, c: Name, f: nat, d: nat, ops: seq<Op>)
    requires StoreHistory(ops, env, es, c, f, d)
    ensures Layouts.Interleaves(ops + env.others, Layouts.OpsOf(es[..d], c), c)
  {
    InterleavesAppends(ops, Layouts.OpsOf(es[..f], c), env.others, Layouts.OpsOf(es[f + 1..d], c), c);
    OpsAcrossRead(es, f, d, c);
  }

  lemma OneOwnMore(a: seq<Op>, x: seq<Op>, op: Op, c: Name)
    requires Layouts.Interleaves(a, x, c) && op.cluster == c
    ensures Layouts.Interleaves(a + [op], x + [op], c)
  {
    assert (a + [op])[..|a|] == a && (x + [op])[..|x|] == x;
  }

  lemma OwnNameIsSeparate(c: Name)
    ensures EtcdStore.Separate(c, c)
  {
  }

  /** A cycle of node n: it reads at f and ends at a, by applying a role or giving up. */
  ghost predicate IsCycle(es: seq<Event>, n: Name, f: nat, a: nat) {
    && f < a < |es| && es[f].Read? && es[f].o == Daemon(n)
    && (es[a] == Apply(n) || es[a] == Abort(n))
    && forall j {:trigger es[j]} | f < j < a :: es[j] != Apply(n) && es[j] != Abort(n)
  }

  /** Between its read and its end a daemon waits for its own request or holds what it goes on with. */
  ghost predicate Holds(cycle: Cycle, e: Event)
    requires e.Read?
  {
    (Sends(e) && cycle == Waiting(ReadRequest(e))) || (cycle.Ready? && cycle.status == Goes(e))
  }

  lemma StepHolds(s: State, e: Event, n: Name, read: Event)
    requires read.Read? && read.o == Daemon(n) && Enabled(s, e) && e != Apply(n) && e != Abort(n)
    requires Holds(CycleOf(s, n), read)
    ensures Holds(CycleOf(Step(s, e), n), read) && RoleIn(Step(s, e), n) == RoleIn(s, n)
  {
  }

  lemma ReadHolds(s: State, e: Event, n: Name)
    requires e.Read? && e.o == Daemon(n) && Enabled(s, e)
    ensures Holds(CycleOf(Step(s, e), n), e) && RoleIn(Step(s, e), n) == RoleIn(s, n)
  {
    GoesMeaning(e);
  }

  lemma HoldsFirst(mode: Reads, ss: seq<State>, es: seq<Event>, n: Name, f: nat, a: nat)
    requires IsRun(mode, ss, es) && IsCycle(es, n, f, a)
    ensures Holds(CycleOf(ss[f + 1], n), es[f]) && RoleIn(ss[f + 1], n) == RoleIn(ss[f], n)
  {
    assert Next(ss[f], es[f], ss[f + 1]);
    ReadHolds(ss[f], es[f], n);
  }

  lemma HoldsOneMore(mode: Reads, ss: seq<State>, es: seq<Event>, n: Name, f: nat, a: nat, j: nat)
    requires IsRun(mode, ss, es) && IsCycle(es, n, f, a) && f < j < a && Holds(CycleOf(ss[j], n), es[f])
    ensures Holds(CycleOf(ss[j + 1], n), es[f]) && RoleIn(ss[j + 1], n) == RoleIn(ss[j], n)
  {
    assert Next(ss[j], es[j], ss[j + 1]);
    StepHolds(ss[j], es[j], n, es[f]);
  }

  lemma {:induction false} CycleHolds(mode: Reads, ss: seq<State>, es: seq<Event>, n: Name, f: nat, a: nat, j: nat)
    requires IsRun(mode, ss, es) && IsCycle(es, n, f, a) && f < j <= a
    ensures Holds(CycleOf(ss[j], n), es[f]) && RoleIn(ss[j], n) == RoleIn(ss[f], n)
  {
    if j == f + 1 {
      HoldsFirst(mode, ss, es, n, f, a);
    } else {
      CycleHolds(mode, ss, es, n, f, a, j - 1);
      HoldsOneMore(mode, ss, es, n, f, a, j - 1);
    }
  }

  lemma CycleEnds(mode: Reads, ss: seq<State>, es: seq<Event>, n: Name, f: nat, a: nat)
    requires IsRun(mode, ss, es) && IsCycle(es, n, f, a)
    ensures var role := RoleOf(Goes(es[f]), n);
            RoleIn(ss[a + 1], n) == if es[a].Apply? && !role.NoRole? then role else RoleIn(ss[f], n)
  {
    CycleHolds(mode, ss, es, n, f, a, a);
    assert Next(ss[a], es[a], ss[a + 1]);
  }

  /** The cycle applies its role in the run exactly when nothing stops the program before. */
  ghost predicate Ends(env: Environment, es: seq<Event>, f: nat, a: nat)
    requires f < |es| && a < |es| && es[f].Read?
  {
    es[a].Apply? <==> (Sends(es[f]) ==> env.fault.Answered?) && !env.configureFails
  }

  /** The read returns what etcd answers. */
  predicate ReadsAnswer(kvs: seq<Entry>, c: Name, env: Environment, e: Event) {
    && e.Read? && FetchResult(kvs, c, env).Ok?
    && FetchResult(kvs, c, env).value.status == e.read && FetchResult(kvs, c, env).value.nodes == e.nodes
  }

  /** What the cycle answers, in terms of the run. */
  ghost predicate AnswersRun(ss: seq<State>, es: seq<Event>, n: Name, f: nat, a: nat, env: Environment,
                             r: Result<Role, Error>)
    requires f + 1 < |ss| && f < |es| && a < |es| && es[f].Read?
  {
    var role := RoleOf(ReadRequest(es[f]).status, n);
    var stopped := CycleOf(ss[f + 1], n).Waiting? && !env.fault.Answered?;
    && (r == Err(WriteFailed) <==> stopped)
    && (r == Err(NotInCluster) <==> !stopped && role == NoRole)
    && (r == Err(ConfigureFailed) <==> !stopped && role != NoRole && env.configureFails)
    && (r == Err(BouncerFailed) <==> es[a].Apply? && role != NoRole && env.bouncerFails)
    && (r == Ok(role) <==> es[a].Apply? && role != NoRole && !env.bouncerFails)
    && (r.Ok? <==> r == Ok(role))
  }

  lemma AnswersAsRun(mode: Reads, ss: seq<State>, es: seq<Event>, n: Name, f: nat, a: nat, env: Environment,
                     r: Result<Role, Error>)
    requires IsRun(mode, ss, es) && IsCycle(es, n, f, a) && Ends(env, es, f, a)
    requires Answers(r, Sends(es[f]), RoleOf(Goes(es[f]), n), env)
    ensures AnswersRun(ss, es, n, f, a, env, r)
    ensures es[a].Apply? && RoleOf(ReadRequest(es[f]).status, n) != NoRole ==>
              RoleIn(ss[a + 1], n) == RoleOf(ReadRequest(es[f]).status, n)
  {
    assert Next(ss[f], es[f], ss[f + 1]);
    GoesMeaning(es[f]);
    CycleEnds(mode, ss, es, n, f, a);
  }

  /** performNodeTasks refines the protocol.  Take any cycle of a run, whatever the others do in
      between, that reads at f what etcd answers, has its request, if it sends one, processed at d
      unless it never arrives, and ends at a.  Whatever the program's contract allows in these
      surroundings is what the run does: the same store, won or lost, the same role, and later
      fetches see the protocol's state. */
  lemma CycleRefinesProtocol(mode: Reads, ss: seq<State>, es: seq<Event>, c: Name, n: Name, f: nat, d: nat, a: nat,
                             ops: seq<Op>, env: Environment, after: seq<Entry>, roleAfter: Role,
                             r: Result<Role, Error>)
      returns (ops': seq<Op>)
    requires IsRun(mode, ss, es) && IsCycle(es, n, f, a) && d <= a
    requires StoreHistory(ops, env, es, c, f, d) && Ends(env, es, f, a)
    requires EtcdStore.Apart(c, ops) && EtcdStore.Apart(c, env.others)
    requires ReadsAnswer(EtcdStore.StoreAfter(ops), c, env, es[f])
    requires TasksDone(EtcdStore.StoreAfter(ops), after, RoleIn(ss[f], n), roleAfter, r,
                       c, n, es[f].uuid, es[f].time, env)
    ensures Seen(env, es[f], d) < |ss|
    ensures after == EtcdStore.StoreAfter(ops')
    ensures Layouts.Interleaves(ops', Layouts.OpsOf(es[..Seen(env, es[f], d)], c), c)
    ensures Layouts.Serves(EtcdStore.Fetch(after, c), ss[Seen(env, es[f], d)])
    ensures roleAfter == RoleIn(ss[a + 1], n)
    ensures AnswersRun(ss, es, n, f, a, env, r)
    ensures es[a].Apply? && RoleOf(ReadRequest(es[f]).status, n) != NoRole ==>
              RoleIn(ss[a + 1], n) == RoleOf(ReadRequest(es[f]).status, n)
  {
    ops' := OpsSeen(ops, env, es[f], c);
    SeenInterleaves(env, es, c, f, d, ops);
    SeenStored(env, es[f], c, ops);
    SeenApart(env, es[f], c, ops);
    Layouts.EtcdServesProtocol(mode, ss, es, c, Seen(env, es[f], d), ops');
    CycleEnds(mode, ss, es, n, f, a);
    AnswersAsRun(mode, ss, es, n, f, a, env, r);
  }

  /** The failover command refines the protocol in the same way. */
  lemma FailoverRefinesProtocol(mode: Reads, ss: seq<State>, es: seq<Event>, c: Name, target: Name, f: nat, d: nat,
                                ops: seq<Op>, env: Environment, after: seq<Entry>, r: Result<bool, Error>)
      returns (ops': seq<Op>)
    requires IsRun(mode, ss, es) && StoreHistory(ops, env, es, c, f, d) && es[f].o == Origin.Failover(target)
    requires EtcdStore.Apart(c, ops) && EtcdStore.Apart(c, env.others)
    requires ReadsAnswer(EtcdStore.StoreAfter(ops), c, env, es[f])
    requires FailoverDone(EtcdStore.StoreAfter(ops), after, r, c, target, es[f].uuid, es[f].time, env)
    ensures Seen(env, es[f], d) < |ss|
    ensures after == EtcdStore.StoreAfter(ops')
    ensures Layouts.Interleaves(ops', Layouts.OpsOf(es[..Seen(env, es[f], d)], c), c)
    ensures Layouts.Serves(EtcdStore.Fetch(after, c), ss[Seen(env, es[f], d)])
    ensures r == if Sends(es[f]) && !env.fault.Answered? then Err(WriteFailed) else Ok(Sends(es[f]))
  {
    assert Next(ss[f], es[f], ss[f + 1]);
    ops' := OpsSeen(ops, env, es[f], c);
    SeenInterleaves(env, es, c, f, d, ops);
    SeenStored(env, es[f], c, ops);
    SeenApart(env, es[f], c, ops);
    Layouts.EtcdServesProtocol(mode, ss, es, c, Seen(env, es[f], d), ops');
  }

  /** Reporting the node's status is a heartbeat of the protocol. */
  lemma ReportIsHeartbeat(mode: Reads, ss: seq<State>, es: seq<Event>, c: Name, k: nat, ops: seq<Op>,
                          written: NodeStatus)
    requires IsRun(mode, ss, es) && k < |es| && es[k] == Heartbeat(written)
    requires Layouts.Interleaves(ops, Layouts.OpsOf(es[..k], c), c) && EtcdStore.Apart(c, ops)
    ensures var after := EtcdStore.ApplyOp(EtcdStore.StoreAfter(ops), PutNodeStatus(c, written));
            Layouts.Serves(EtcdStore.Fetch(after, c), ss[k + 1])
  {
    var own := [PutNodeStatus(c, written)];
    Layouts.OpsOneMore(es, c, k);
    StoreAfterOneMore(ops, own[0]);
    OneOwnMore(ops, Layouts.OpsOf(es[..k], c), own[0], c);
    OwnNameIsSeparate(c);
    Layouts.EtcdServesProtocol(mode, ss, es, c, k + 1, ops + own);
  }
}
