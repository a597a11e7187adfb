/** The lease election as a transition system: any number of nodes, any interleaving.

    Go reads time.Now() before it fetches the lease, so a round is three separate steps: the
    clock is read (Start), the lease is fetched and evaluated against that reading (Fetch), and the
    backend later processes the compare-and-set, if at all (Deliver, Drop).  A node never waits for
    its request here, which covers timeouts after which the write still happens. */
module ElectionProtocol {
  import opened Common
  import opened LeaseLogic

  /** `lag` bounds how long after the clock reading a fetch may take effect; `gap` is a minimal
      distance between a store write and the fetches and writes around it.  Both are arbitrary:
      every finite run has some lag, and gap 0 asks for nothing. */
  datatype Config = Config(durations: map<Name, int>, lag: nat, gap: nat)

  predicate ValidConfig(c: Config) {
    forall n | n in c.durations :: c.durations[n] > 0
  }

  datatype Phase = Idle | Started(clock: int)

  // `index` is auxiliary: the position in the history of the lease in memory.  A fetch takes effect
  // when the store is read, but the reply may take a while; until the node's next step `prior`
  // is what it remembered before and may still answer from.
  datatype Node = Node(mem: Option<Observed>, index: nat, phase: Phase, prior: Option<Observed>, priorIndex: nat)

  const BLANK := Node(None, 0, Idle, None, 0)

  // `base` is auxiliary: how many writes the store had seen when the request's round fetched.
  datatype Request = Request(lease: Lease, prev: Option<Uuid>, base: nat, why: Comment)

  datatype Write = Write(lease: Lease, at: int, base: nat, why: Comment)

  /** The store holds the last lease of `hist`, the history of successful writes, and was last read or
      written at `access`. */
  datatype State = State(now: int, access: int, nodes: map<Name, Node>, hist: seq<Write>, flight: set<Request>,
                         used: set<Uuid>)

  datatype Event =
    | Start(n: Name, at: int)
    | Fetch(n: Name, at: int, rvn: Uuid)
    | FetchError(n: Name, at: int)
    | Restart(n: Name, at: int)
    | Deliver(r: Request, at: int)
    | Drop(r: Request, at: int)

  /** e is a step of node n itself. */
  predicate Touches(e: Event, n: Name) {
    match e
    case Start(m, _) => m == n
    case Fetch(m, _, _) => m == n
    case FetchError(m, _) => m == n
    case Restart(m, _) => m == n
    case _ => false
  }

  function Stored(hist: seq<Write>): Option<Lease> {
    if hist == [] then None else Some(hist[|hist| - 1].lease)
  }

  predicate Init(c: Config, s: State) {
    && s.nodes.Keys == c.durations.Keys
    && (forall n | n in s.nodes :: s.nodes[n] == BLANK)
    && s.access <= s.now
    && s.hist == []
    && s.flight == {}
    && s.used == {}
  }

  /** The request a round sends, if it runs for election. */
  function RoundRequest(e: Evaluation, me: Name, duration: int, rvn: Uuid, base: nat): Option<Request> {
    if e.shouldRun then Some(Request(Lease(me, rvn, duration), PrevRvn(e.lease), base, e.comment)) else None
  }

  predicate Enabled(c: Config, s: State, e: Event) {
    && e.at >= s.now
    && match e
       case Start(n, _) => n in s.nodes && s.nodes[n].phase.Idle?
       case Fetch(n, at, rvn) =>
         && n in s.nodes
         && s.nodes[n].phase.Started?
         && at - s.nodes[n].phase.clock <= c.lag
         && (s.hist != [] ==> s.hist[|s.hist| - 1].at + c.gap <= at)
         && rvn != NIL && rvn !in s.used
       case FetchError(n, _) => n in s.nodes && s.nodes[n].phase.Started?
       case Restart(n, _) => n in s.nodes
       case Deliver(r, at) => r in s.flight && s.access + c.gap <= at
       case Drop(r, _) => r in s.flight
  }

  function FetchStep(c: Config, s: State, n: Name, at: int, rvn: Uuid): State
    requires n in s.nodes && n in c.durations && s.nodes[n].phase.Started?
  {
    var node := s.nodes[n];
    var e := Evaluate(node.mem, Stored(s.hist), n, node.phase.clock);
    var r := RoundRequest(e, n, c.durations[n], rvn, |s.hist|);
    var node' := Node(e.lease, if s.hist == [] then 0 else |s.hist| - 1, Idle, node.mem, node.index);
    s.(now := at,
       access := at,
       nodes := s.nodes[n := node'],
       flight := if r.Some? then s.flight + {r.value} else s.flight,
       used := s.used + {rvn})
  }

  function DeliverStep(s: State, r: Request, at: int): State {
    s.(now := at,
       access := at,
       hist := if Matches(Stored(s.hist), r.prev) then s.hist + [Write(r.lease, at, r.base, r.why)] else s.hist,
       flight := s.flight - {r})
  }

  function Step(c: Config, s: State, e: Event): State
    requires s.nodes.Keys == c.durations.Keys
    requires Enabled(c, s, e)
  {
    match e
    case Start(n, at) => s.(now := at, nodes := s.nodes[n := s.nodes[n].(phase := Started(at), prior := None)])
    case Fetch(n, at, rvn) => FetchStep(c, s, n, at, rvn)
    case FetchError(n, at) => s.(now := at, nodes := s.nodes[n := BLANK])
    case Restart(n, at) => s.(now := at, nodes := s.nodes[n := BLANK])
    case Deliver(r, at) => DeliverStep(s, r, at)
    case Drop(r, at) => s.(now := at, flight := s.flight - {r})
  }

  ghost predicate Next(c: Config, s: State, e: Event, s': State) {
    && s.nodes.Keys == c.durations.Keys
    && Enabled(c, s, e)
    && s' == Step(c, s, e)
  }

  /** A run: event es[i] leads from ss[i] to ss[i + 1]. */
  ghost predicate IsRun(c: Config, ss: seq<State>, es: seq<Event>) {
    && ValidConfig(c)
    && |ss| == |es| + 1
    && Init(c, ss[0])
    && forall i {:trigger es[i]} | 0 <= i < |es| :: Next(c, ss[i], es[i], ss[i + 1])
  }

  // ---------- the invariant ----------

  ghost predicate Ordered(gap: nat, hist: seq<Write>) {
    forall i, j | 0 <= i < j < |hist| :: hist[i].at + gap <= hist[j].at
  }

  ghost predicate TimesOk(c: Config, s: State) {
    && Ordered(c.gap, s.hist)
    && s.access <= s.now
    && forall i | 0 <= i < |s.hist| :: s.hist[i].at <= s.access
  }

  ghost predicate Distinct(hist: seq<Write>) {
    forall i, j | 0 <= i < j < |hist| :: hist[i].lease.rvn != hist[j].lease.rvn
  }

  ghost predicate RvnsOk(s: State) {
    && Distinct(s.hist)
    && (forall i | 0 <= i < |s.hist| :: s.hist[i].lease.rvn in s.used)
    && (forall r | r in s.flight :: r.lease.rvn in s.used)
    && (forall r, i | r in s.flight && 0 <= i < |s.hist| :: s.hist[i].lease.rvn != r.lease.rvn)
    && (forall r, q | r in s.flight && q in s.flight && r.lease.rvn == q.lease.rvn :: r == q)
  }

  /** When a round that runs because the lease written by w has expired may first fetch. */
  function FreeAt(c: Config, w: Write): int {
    w.at + c.gap + w.lease.duration - c.lag
  }

  /** The observation is of the index-th lease, fetched at least `gap` after it was written and before
      the next one was, and its deadline is not early. */
  ghost predicate MemOk(c: Config, s: State, mem: Option<Observed>, index: nat) {
    mem.Some? ==>
      var o := mem.value;
      && index < |s.hist|
      && o.lease == s.hist[index].lease
      && o.seen <= s.access && s.hist[index].at + c.gap <= s.access
      && (index + 1 < |s.hist| ==> o.seen + c.gap <= s.hist[index + 1].at)
      && FreeAt(c, s.hist[index]) <= o.Deadline()
      && o.timeLeft <= o.lease.duration
  }

  ghost predicate PhaseOk(s: State, node: Node) {
    node.phase.Started? ==>
      && node.phase.clock <= s.now
      && (node.mem.Some? ==> node.mem.value.seen <= node.phase.clock)
  }

  ghost predicate NodeOk(c: Config, s: State, n: Name)
    requires n in s.nodes
  {
    var node := s.nodes[n];
    PhaseOk(s, node) && MemOk(c, s, node.mem, node.index) && MemOk(c, s, node.prior, node.priorIndex)
  }

  /** n has written one of the first k leases. */
  ghost predicate Led(hist: seq<Write>, n: Name, k: nat) {
    exists j :: 0 <= j < k <= |hist| && hist[j].lease.leader == n
  }

  /** Why a round that fetched after `base` writes, no later than t, may replace the lease it found. */
  ghost predicate Justified(c: Config, hist: seq<Write>, leader: Name, base: nat, why: Comment, t: int) {
    && base <= |hist|
    && match why
       case NoLeader => base == 0
       case Refreshing => base > 0 && Led(hist, leader, base)
       case OwnExpired => base > 0 && FreeAt(c, hist[base - 1]) <= t && hist[base - 1].lease.leader == leader
       case OtherExpired => base > 0 && FreeAt(c, hist[base - 1]) <= t
       case _ => false
  }

  predicate OwnLease(c: Config, l: Lease) {
    l.leader in c.durations && l.duration == c.durations[l.leader]
  }

  ghost predicate RequestOk(c: Config, s: State, r: Request) {
    && OwnLease(c, r.lease)
    && Justified(c, s.hist, r.lease.leader, r.base, r.why, s.access)
    && r.prev == (if r.base == 0 then None else Some(s.hist[r.base - 1].lease.rvn))
    && (r.base > 0 ==> s.hist[r.base - 1].at + c.gap <= s.access)
  }

  ghost predicate WriteOk(c: Config, hist: seq<Write>, i: nat)
    requires i < |hist|
  {
    && OwnLease(c, hist[i].lease)
    && hist[i].base == i
    && (i > 0 ==> hist[i - 1].at + 2 * c.gap <= hist[i].at)
    && Justified(c, hist, hist[i].lease.leader, i, hist[i].why, hist[i].at - c.gap)
  }

  ghost predicate Inv(c: Config, s: State) {
    && s.nodes.Keys == c.durations.Keys
    && TimesOk(c, s)
    && RvnsOk(s)
    && (forall n | n in s.nodes :: NodeOk(c, s, n))
    && (forall r | r in s.flight :: RequestOk(c, s, r))
    && (forall i | 0 <= i < |s.hist| :: WriteOk(c, s.hist, i))
  }

  // ---------- preservation ----------

  /** A compare-and-set succeeds exactly when no write happened since its round's fetch. */
  lemma MatchIffCurrent(c: Config, s: State, r: Request)
    requires RvnsOk(s) && RequestOk(c, s, r)
    ensures Matches(Stored(s.hist), r.prev) <==> r.base == |s.hist|
  {
    if 0 < r.base < |s.hist| {
      assert s.hist[r.base - 1].lease.rvn != s.hist[|s.hist| - 1].lease.rvn;
    }
  }

  lemma JustifiedLater(c: Config, h: seq<Write>, h': seq<Write>, leader: Name, base: nat, why: Comment, t: int, t': int)
    requires h <= h' && t <= t'
    requires Justified(c, h, leader, base, why, t)
    ensures Justified(c, h', leader, base, why, t')
  {
    if why.Refreshing? {
      var j :| 0 <= j < base <= |h| && h[j].lease.leader == leader;
      assert h'[j].lease.leader == leader;
    }
  }

  /** No step takes from an observation what it was worth. */
  lemma MemStays(c: Config, s: State, e: Event, mem: Option<Observed>, index: nat)
    requires s.nodes.Keys == c.durations.Keys && TimesOk(c, s) && Enabled(c, s, e) && MemOk(c, s, mem, index)
    ensures MemOk(c, Step(c, s, e), mem, index)
  {
  }

  /** What the evaluated round may rely on: the deadline in memory is never early. */
  lemma EvaluatedOk(c: Config, s: State, n: Name, now: int, at: int)
    requires TimesOk(c, s) && RvnsOk(s) && n in s.nodes && MemOk(c, s, s.nodes[n].mem, s.nodes[n].index)
    requires (forall i | 0 <= i < |s.hist| :: WriteOk(c, s.hist, i)) && s.nodes[n].phase == Started(now)
    requires PhaseOk(s, s.nodes[n]) && s.now <= at <= now + c.lag
    requires s.hist != [] ==> s.hist[|s.hist| - 1].at + c.gap <= at
    ensures var e := Evaluate(s.nodes[n].mem, Stored(s.hist), n, now);
            MemOk(c, s.(now := at, access := at), e.lease, if s.hist == [] then 0 else |s.hist| - 1)
  {
    var node := s.nodes[n];
    if s.hist != [] && node.mem.Some? {
      var last := |s.hist| - 1;
      assert node.index < last ==> s.hist[node.index].lease.rvn != s.hist[last].lease.rvn;
    }
  }

  lemma FetchMemOk(c: Config, s: State, e: Event)
    requires Inv(c, s) && e.Fetch? && Enabled(c, s, e)
    ensures NodeOk(c, Step(c, s, e), e.n)
  {
    var node, s' := s.nodes[e.n], Step(c, s, e);
    assert NodeOk(c, s, e.n);
    EvaluatedOk(c, s, e.n, node.phase.clock, e.at);
    MemStays(c, s, e, node.mem, node.index);
  }

  /** A request is justified by what its round saw. */
  lemma SentJustified(c: Config, s: State, n: Name, now: int, at: int)
    requires TimesOk(c, s) && RvnsOk(s) && n in s.nodes && MemOk(c, s, s.nodes[n].mem, s.nodes[n].index)
    requires (forall i | 0 <= i < |s.hist| :: WriteOk(c, s.hist, i)) && s.nodes[n].phase == Started(now)
    requires PhaseOk(s, s.nodes[n]) && s.now <= at <= now + c.lag
    requires s.hist != [] ==> s.hist[|s.hist| - 1].at + c.gap <= at
    ensures var e := Evaluate(s.nodes[n].mem, Stored(s.hist), n, now);
            e.shouldRun ==> Justified(c, s.hist, n, |s.hist|, e.comment, at)
  {
    var node := s.nodes[n];
    EvaluatedOk(c, s, n, now, at);
    if node.mem.Some? && node.mem.value.lease.leader == n {
      assert s.hist[node.index].lease.leader == n;
    }
  }

  lemma FetchRequestOk(c: Config, s: State, e: Event)
    requires Inv(c, s) && e.Fetch? && Enabled(c, s, e)
    ensures var s' := Step(c, s, e); forall r | r in s'.flight && r !in s.flight :: RequestOk(c, s', r)
  {
    assert NodeOk(c, s, e.n);
    SentJustified(c, s, e.n, s.nodes[e.n].phase.clock, e.at);
  }

  lemma TimesKept(c: Config, s: State, e: Event)
    requires Inv(c, s) && Enabled(c, s, e)
    ensures TimesOk(c, Step(c, s, e))
  {
  }

  lemma RvnsKept(c: Config, s: State, e: Event)
    requires s.nodes.Keys == c.durations.Keys && RvnsOk(s) && Enabled(c, s, e)
    ensures RvnsOk(Step(c, s, e))
  {
  }

  lemma NodeKept(c: Config, s: State, e: Event, n: Name)
    requires Inv(c, s) && Enabled(c, s, e) && n in s.nodes && !(e.Fetch? && n == e.n)
    ensures NodeOk(c, Step(c, s, e), n)
  {
    var node := s.nodes[n];
    assert NodeOk(c, s, n);
    MemStays(c, s, e, node.mem, node.index);
    MemStays(c, s, e, node.prior, node.priorIndex);
  }

  lemma NodesKept(c: Config, s: State, e: Event)
    requires Inv(c, s) && Enabled(c, s, e)
    ensures forall n | n in Step(c, s, e).nodes :: NodeOk(c, Step(c, s, e), n)
  {
    forall n | n in Step(c, s, e).nodes ensures NodeOk(c, Step(c, s, e), n) {
      if e.Fetch? && n == e.n {
        FetchMemOk(c, s, e);
      } else {
        NodeKept(c, s, e, n);
      }
    }
  }

  lemma RequestsKept(c: Config, s: State, e: Event)
    requires Inv(c, s) && Enabled(c, s, e)
    ensures var s' := Step(c, s, e); forall r | r in s'.flight :: RequestOk(c, s', r)
  {
    var s' := Step(c, s, e);
    if e.Fetch? {
      FetchRequestOk(c, s, e);
    }
    forall r | r in s'.flight ensures RequestOk(c, s', r) {
      if r in s.flight {
        assert RequestOk(c, s, r);
        JustifiedLater(c, s.hist, s'.hist, r.lease.leader, r.base, r.why, s.access, s'.access);
      }
    }
  }

  lemma WritesKept(c: Config, s: State, e: Event)
    requires Inv(c, s) && Enabled(c, s, e) && e.Deliver?
    ensures var h := Step(c, s, e).hist; forall i | 0 <= i < |h| :: WriteOk(c, h, i)
  {
    var h := Step(c, s, e).hist;
    assert RequestOk(c, s, e.r);
    MatchIffCurrent(c, s, e.r);
    forall i | 0 <= i < |h| ensures WriteOk(c, h, i) {
      if i < |s.hist| {
        assert WriteOk(c, s.hist, i);
        var t := s.hist[i].at - c.gap;
        JustifiedLater(c, s.hist, h, s.hist[i].lease.leader, i, s.hist[i].why, t, t);
      } else {
        JustifiedLater(c, s.hist, h, e.r.lease.leader, i, e.r.why, s.access, e.at - c.gap);
      }
    }
  }

  lemma StepKeepsInv(c: Config, s: State, e: Event)
    requires Inv(c, s) && Enabled(c, s, e)
    ensures Inv(c, Step(c, s, e))
  {
    TimesKept(c, s, e);
    RvnsKept(c, s, e);
    NodesKept(c, s, e);
    RequestsKept(c, s, e);
    if e.Deliver? {
      WritesKept(c, s, e);
    }
  }

  lemma {:induction false} InvAlongRun(c: Config, ss: seq<State>, es: seq<Event>, i: nat)
    requires IsRun(c, ss, es) && i < |ss|
    ensures Inv(c, ss[i])
  {
    if i > 0 {
      InvAlongRun(c, ss, es, i - 1);
      assert Next(c, ss[i - 1], es[i - 1], ss[i]);
      StepKeepsInv(c, ss[i - 1], es[i - 1]);
    }
  }

  /** Time and history only grow. */
  lemma {:induction false} Monotone(c: Config, ss: seq<State>, es: seq<Event>, i: nat, j: nat)
    requires IsRun(c, ss, es) && i <= j < |ss|
    ensures ss[i].now <= ss[j].now && ss[i].hist <= ss[j].hist
  {
    if i < j {
      Monotone(c, ss, es, i, j - 1);
      assert Next(c, ss[j - 1], es[j - 1], ss[j]);
    }
  }

  // ---------- the chain of leases ----------

  /** The leases committed in any run form a single chain with distinct RVNs: write i was computed
      by a round that fetched exactly the i-th state of the store, so each lease is replaced at
      most once, and the write that expects no lease is the first one and only that. */
  lemma LeasesFormAChain(c: Config, ss: seq<State>, es: seq<Event>, k: nat)
    requires IsRun(c, ss, es) && k < |es| && es[k].Deliver?
    ensures var h := ss[k].hist;
            var r := es[k].r;
            && Distinct(ss[k + 1].hist)
            && (ss[k + 1].hist != h <==> r.base == |h|)
            && (ss[k + 1].hist != h ==>
                  r.prev == PrevRvnOf(h) && ss[k + 1].hist == h + [Write(r.lease, es[k].at, |h|, r.why)])
            && (ss[k + 1].hist != h && r.prev.None? ==> h == [])
  {
    InvAlongRun(c, ss, es, k);
    InvAlongRun(c, ss, es, k + 1);
    assert Next(c, ss[k], es[k], ss[k + 1]);
    MatchIffCurrent(c, ss[k], es[k].r);
  }

  function PrevRvnOf(hist: seq<Write>): Option<Uuid> {
    var l := Stored(hist);
    if l.None? then None else Some(l.value.rvn)
  }
}
