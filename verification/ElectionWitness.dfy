/** Runs that reach the bounds of ElectionSafety, in every configuration: exactly how many nodes can
    claim at once, and how fast an old leader can retake the lease. */
module ElectionWitness {
  import opened Common
  import opened LeaseLogic
  import opened ElectionProtocol
  import opened ElectionSafety

  // ---------- building runs ----------

  ghost predicate Untouched(es: seq<Event>, idle: set<Name>) {
    forall i, n | 0 <= i < |es| && n in idle :: !Touches(es[i], n)
  }

  /** A run that ends in s, with room before time 0 for early clock readings, in which the idle nodes
      have done nothing yet. */
  ghost predicate Leads(c: Config, ss: seq<State>, es: seq<Event>, s: State, idle: set<Name>) {
    IsRun(c, ss, es) && ss[0].now == 0 - c.lag && ss[|ss| - 1] == s && Untouched(es, idle)
  }

  ghost predicate Reaches(c: Config, s: State, idle: set<Name>) {
    exists ss, es :: Leads(c, ss, es, s, idle)
  }

  ghost predicate Reachable(c: Config, s: State) {
    exists ss, es :: IsRun(c, ss, es) && ss[|ss| - 1] == s
  }

  lemma ReachesIsReachable(c: Config, s: State, idle: set<Name>)
    requires Reaches(c, s, idle)
    ensures Reachable(c, s) && Inv(c, s)
  {
    var ss, es :| Leads(c, ss, es, s, idle);
    InvAlongRun(c, ss, es, |ss| - 1);
  }

  lemma Extended(c: Config, ss: seq<State>, es: seq<Event>, s: State, idle: set<Name>, e: Event, s': State,
                 idle': set<Name>)
    requires Leads(c, ss, es, s, idle) && Next(c, s, e, s')
    requires idle' <= idle && forall n | n in idle' :: !Touches(e, n)
    ensures Leads(c, ss + [s'], es + [e], s', idle')
  {
    var ss', es' := ss + [s'], es + [e];
    forall i {:trigger es'[i]} | 0 <= i < |es'| ensures Next(c, ss'[i], es'[i], ss'[i + 1]) {
      if i < |es| {
        assert es'[i] == es[i];
      }
    }
    forall i, n | 0 <= i < |es'| && n in idle' ensures !Touches(es'[i], n) {
      if i < |es| {
        assert es'[i] == es[i];
      }
    }
  }

  lemma Then(c: Config, s: State, idle: set<Name>, e: Event, s': State, idle': set<Name>)
    requires Reaches(c, s, idle) && Next(c, s, e, s')
    requires idle' <= idle && forall n | n in idle' :: !Touches(e, n)
    ensures Reaches(c, s', idle')
  {
    var ss, es :| Leads(c, ss, es, s, idle);
    Extended(c, ss, es, s, idle, e, s', idle');
  }

  function Blanks(c: Config): map<Name, Node> {
    map n | n in c.durations :: BLANK
  }

  function Beginning(c: Config): State {
    State(0 - c.lag, 0 - c.lag, Blanks(c), [], {}, {})
  }

  lemma Begin(c: Config)
    requires ValidConfig(c)
    ensures Reaches(c, Beginning(c), c.durations.Keys)
  {
    assert Leads(c, [Beginning(c)], [], Beginning(c), c.durations.Keys);
  }

  // ---------- reading a clock earlier ----------

  function Woken(s: State, n: Name, clock: int): State {
    s.(nodes := s.nodes[n := BLANK.(phase := Started(clock))])
  }

  lemma {:induction false} UntouchedIsBlank(c: Config, ss: seq<State>, es: seq<Event>, k: nat, idle: set<Name>, n: Name)
    requires IsRun(c, ss, es) && Untouched(es, idle) && n in idle && n in c.durations && k < |ss|
    ensures n in ss[k].nodes && ss[k].nodes[n] == BLANK
  {
    if k > 0 {
      UntouchedIsBlank(c, ss, es, k - 1, idle, n);
      assert Next(c, ss[k - 1], es[k - 1], ss[k]);
    }
  }

  /** An event of another node does not mind. */
  lemma Commutes(c: Config, s: State, e: Event, s': State, n: Name, clock: int, now: int)
    requires Next(c, s, e, s') && !Touches(e, n) && n in s.nodes && now <= e.at
    ensures Next(c, Woken(s, n, clock).(now := now), e, Woken(s', n, clock))
  {
    var w := Woken(s, n, clock).(now := now);
    assert w.nodes.Keys == s.nodes.Keys;
    assert Step(c, w, e).nodes == Woken(s', n, clock).nodes;
  }

  lemma WakeAtEnd(c: Config, ss: seq<State>, es: seq<Event>, s: State, idle: set<Name>, n: Name, clock: int)
      returns (ss': seq<State>, es': seq<Event>)
    requires Leads(c, ss, es, s, idle) && n in idle && n in c.durations && s.now <= clock
    ensures Leads(c, ss', es', Woken(s, n, clock).(now := clock), idle - {n})
  {
    UntouchedIsBlank(c, ss, es, |ss| - 1, idle, n);
    assert s.nodes.Keys == c.durations.Keys by {
      InvAlongRun(c, ss, es, |ss| - 1);
    }
    var s' := Woken(s, n, clock).(now := clock);
    Extended(c, ss, es, s, idle, Start(n, clock), s', idle - {n});
    ss', es' := ss + [s'], es + [Start(n, clock)];
  }

  /** A node that did nothing may as well have read its clock at any time of the run. */
  lemma {:induction false} WakeEarlier(c: Config, ss: seq<State>, es: seq<Event>, s: State, idle: set<Name>, n: Name,
                                       clock: int)
      returns (ss': seq<State>, es': seq<Event>)
    requires Leads(c, ss, es, s, idle) && n in idle && n in c.durations && 0 - c.lag <= clock <= s.now
    ensures Leads(c, ss', es', Woken(s, n, clock), idle - {n})
    decreases |es|
  {
    if es == [] {
      ss', es' := WakeAtEnd(c, ss, es, s, idle, n, clock);
    } else {
      var last := |es| - 1;
      var front, events, prev, e := ss[..last + 1], es[..last], ss[last], es[last];
      assert Leads(c, front, events, prev, idle);
      assert Next(c, prev, e, s);
      var now := if clock <= prev.now then prev.now else clock;
      if clock <= prev.now {
        ss', es' := WakeEarlier(c, front, events, prev, idle, n, clock);
      } else {
        ss', es' := WakeAtEnd(c, front, events, prev, idle, n, clock);
      }
      AfterWaking(c, ss', es', prev, e, s, idle, n, clock, now);
      ss', es' := ss' + [Woken(s, n, clock)], es' + [e];
    }
  }

  lemma AfterWaking(c: Config, ss: seq<State>, es: seq<Event>, prev: State, e: Event, s: State, idle: set<Name>,
                    n: Name, clock: int, now: int)
    requires Leads(c, ss, es, Woken(prev, n, clock).(now := now), idle - {n})
    requires Next(c, prev, e, s) && n in prev.nodes && now <= e.at
    requires forall m | m in idle + {n} :: !Touches(e, m)
    ensures Leads(c, ss + [Woken(s, n, clock)], es + [e], Woken(s, n, clock), idle - {n})
  {
    Commutes(c, prev, e, s, n, clock, now);
    Extended(c, ss, es, Woken(prev, n, clock).(now := now), idle - {n}, e, Woken(s, n, clock), idle - {n});
  }

  function Later(a: int, b: int): int {
    if a <= b then b else a
  }

  lemma Wakes(c: Config, s: State, idle: set<Name>, n: Name, clock: int)
    requires Reaches(c, s, idle) && n in idle && n in c.durations && 0 - c.lag <= clock
    ensures Reaches(c, Woken(s, n, clock).(now := Later(s.now, clock)), idle - {n})
  {
    var ss, es :| Leads(c, ss, es, s, idle);
    if clock <= s.now {
      var ss', es' := WakeEarlier(c, ss, es, s, idle, n, clock);
      assert Leads(c, ss', es', Woken(s, n, clock), idle - {n});
    } else {
      var ss', es' := WakeAtEnd(c, ss, es, s, idle, n, clock);
      assert Leads(c, ss', es', Woken(s, n, clock).(now := clock), idle - {n});
    }
  }

  // ---------- rounds ----------

  /** A fetch may happen at this time. */
  predicate MayFetch(c: Config, s: State, at: int) {
    s.now <= at && (s.hist != [] ==> s.hist[|s.hist| - 1].at + c.gap <= at)
  }

  lemma Fetches(c: Config, s: State, idle: set<Name>, n: Name, at: int) returns (s': State, rvn: Uuid)
    requires Reaches(c, s, idle) && n in c.durations && n in s.nodes && n !in idle && MayFetch(c, s, at)
    requires s.nodes[n].phase.Started? && at - s.nodes[n].phase.clock <= c.lag
    ensures Reaches(c, s', idle) && rvn !in s.used && s' == FetchStep(c, s, n, at, rvn)
  {
    ReachesIsReachable(c, s, idle);
    rvn := UnusedUuid(s.used);
    s' := FetchStep(c, s, n, at, rvn);
    Then(c, s, idle, Fetch(n, at, rvn), s', idle);
  }

  function Awake(s: State, n: Name, at: int): State
    requires n in s.nodes
  {
    s.(now := at, nodes := s.nodes[n := s.nodes[n].(phase := Started(at), prior := None)])
  }

  /** A round whose clock reading and fetch coincide. */
  lemma ExactRound(c: Config, s: State, idle: set<Name>, n: Name, at: int) returns (s': State, rvn: Uuid)
    requires Reaches(c, s, idle) && n in c.durations && n in s.nodes && n !in idle && MayFetch(c, s, at)
    requires s.nodes[n].phase.Idle?
    ensures Reaches(c, s', idle) && rvn !in s.used && s' == FetchStep(c, Awake(s, n, at), n, at, rvn)
  {
    ReachesIsReachable(c, s, idle);
    Then(c, s, idle, Start(n, at), Awake(s, n, at), idle);
    s', rvn := Fetches(c, Awake(s, n, at), idle, n, at);
  }

  lemma Delivers(c: Config, s: State, idle: set<Name>, r: Request, at: int) returns (s': State)
    requires Reaches(c, s, idle) && r in s.flight && s.now <= at && s.access + c.gap <= at
    ensures Reaches(c, s', idle) && s' == DeliverStep(s, r, at)
  {
    ReachesIsReachable(c, s, idle);
    s' := DeliverStep(s, r, at);
    Then(c, s, idle, Deliver(r, at), s', idle);
  }

  // ---------- a chain of takeovers ----------

  ghost predicate NoRepeats(names: seq<Name>) {
    forall i, j | 0 <= i < j < |names| :: names[i] != names[j]
  }

  ghost predicate Setup(c: Config, d: nat, names: seq<Name>) {
    && ValidConfig(c) && CommonDuration(c, d) && d > 0 && NoRepeats(names)
    && forall i | 0 <= i < |names| :: names[i] in c.durations
  }

  /** When the i-th of the names takes the lease. */
  function TakenAt(c: Config, d: nat, i: nat): int {
    c.gap + Times(i, Tenure(c, d))
  }

  function From(names: seq<Name>, i: nat): set<Name> {
    set j | i <= j < |names| :: names[j]
  }

  /** n remembers a lease of its own, seen at this time. */
  predicate Remembers(s: State, n: Name, d: int, seen: int) {
    && n in s.nodes && s.nodes[n].phase.Idle? && s.nodes[n].mem.Some?
    && s.nodes[n].mem.value.lease.leader == n
    && s.nodes[n].mem.value.lease.duration == d
    && s.nodes[n].mem.value.seen == seen
  }

  /** n does not know yet that it holds the lease. */
  predicate Unaware(s: State, n: Name) {
    && n in s.nodes && s.hist != [] && s.nodes[n].phase.Idle?
    && (s.nodes[n].mem.Some? ==>
          && s.nodes[n].mem.value.lease.leader != n
          && s.nodes[n].mem.value.lease.rvn != s.hist[|s.hist| - 1].lease.rvn)
  }

  predicate Holds(hist: seq<Write>, n: Name, d: int, at: int) {
    && hist != [] && hist[|hist| - 1].at == at
    && hist[|hist| - 1].lease.leader == n && hist[|hist| - 1].lease.duration == d
  }

  /** names[i] has just taken the lease; each one before saw its own lease last a gap before it lost it. */
  ghost predicate Chain(c: Config, d: nat, names: seq<Name>, i: nat, s: State)
    requires i < |names|
  {
    && Reaches(c, s, From(names, i + 1))
    && s.now == s.access == TakenAt(c, d, i)
    && |s.hist| == i + 1 && Holds(s.hist, names[i], d, TakenAt(c, d, i)) && ChangesByExpiry(s.hist)
    && Unaware(s, names[i])
    && forall j | 0 <= j < i :: Remembers(s, names[j], d, TakenAt(c, d, j + 1) - c.gap)
  }

  /** a takes the free lease in a round at time 0, and the others have done nothing yet. */
  lemma FirstTakes(c: Config, a: Name) returns (s: State)
    requires ValidConfig(c) && a in c.durations
    ensures Reaches(c, s, c.durations.Keys - {a}) && s.now == s.access == c.gap
    ensures |s.hist| == 1 && Holds(s.hist, a, c.durations[a], c.gap) && ChangesByExpiry(s.hist) && Unaware(s, a)
  {
    var others := c.durations.Keys - {a};
    Begin(c);
    var s0 := Beginning(c);
    Idler(c, s0, c.durations.Keys, others);
    var s1, rvn := ExactRound(c, s0, others, a, 0);
    var r := Request(Lease(a, rvn, c.durations[a]), None, 0, NoLeader);
    assert r in s1.flight;
    s := Delivers(c, s1, others, r, c.gap);
  }

  lemma ChainBegins(c: Config, d: nat, names: seq<Name>) returns (s: State)
    requires Setup(c, d, names) && names != []
    ensures Chain(c, d, names, 0, s)
  {
    s := FirstTakes(c, names[0]);
    Idler(c, s, c.durations.Keys - {names[0]}, From(names, 1));
  }

  lemma Idler(c: Config, s: State, idle: set<Name>, idle': set<Name>)
    requires Reaches(c, s, idle) && idle' <= idle
    ensures Reaches(c, s, idle')
  {
    var ss, es :| Leads(c, ss, es, s, idle);
    assert Leads(c, ss, es, s, idle');
  }

  /** How much earlier than its fetch a node best reads its clock. */
  function UsefulLag(c: Config, d: nat): nat {
    if c.lag <= d then c.lag else d
  }

  /** The newcomer n has seen the lease, with a clock reading as early as it may be. */
  ghost predicate Seen(c: Config, d: nat, s: State, n: Name) {
    && n in s.nodes && s.hist != [] && s.nodes[n].phase.Idle?
    && var w := s.hist[|s.hist| - 1];
       s.nodes[n].mem == Some(Observed(w.lease, w.at + c.gap - UsefulLag(c, d), d))
  }

  predicate OthersKept(s: State, s': State, touched: set<Name>) {
    && s'.hist == s.hist && s.used <= s'.used && s'.nodes.Keys == s.nodes.Keys
    && forall n | n in s.nodes && n !in touched :: s'.nodes[n] == s.nodes[n]
  }

  lemma NewcomerLooks(c: Config, d: nat, s: State, idle: set<Name>, n: Name) returns (s': State)
    requires Reaches(c, s, idle) && n in idle && n in c.durations && d > 0
    requires s.hist != [] && s.hist[|s.hist| - 1].lease.duration == d
    requires s.now == s.hist[|s.hist| - 1].at >= 0
    ensures Reaches(c, s', idle - {n}) && Seen(c, d, s', n) && OthersKept(s, s', {n})
    ensures s'.now == s'.access == s.now + c.gap
  {
    var at := s.now + c.gap;
    var clock := at - UsefulLag(c, d);
    NodeKnown(c, s, idle, n);
    Wakes(c, s, idle, n, clock);
    var s1 := Woken(s, n, clock).(now := Later(s.now, clock));
    var rvn;
    s', rvn := Fetches(c, s1, idle - {n}, n, at);
  }

  lemma NodeKnown(c: Config, s: State, idle: set<Name>, n: Name)
    requires Reaches(c, s, idle) && n in c.durations
    ensures n in s.nodes
  {
    ReachesIsReachable(c, s, idle);
  }

  lemma HolderLooks(c: Config, d: nat, s: State, idle: set<Name>, n: Name, at: int) returns (s': State)
    requires Reaches(c, s, idle) && n in c.durations && n !in idle && MayFetch(c, s, at) && d > 0
    requires Unaware(s, n) && s.hist[|s.hist| - 1].lease.leader == n && s.hist[|s.hist| - 1].lease.duration == d
    ensures Reaches(c, s', idle) && Remembers(s', n, d, at) && OthersKept(s, s', {n})
    ensures s'.now == s'.access == at && s'.nodes[n].phase.Idle?
  {
    var rvn;
    s', rvn := ExactRound(c, s, idle, n, at);
  }

  lemma LookedLongEnough(c: Config, d: nat, s: State, n: Name, at: int)
    requires Seen(c, d, s, n) && s.hist[|s.hist| - 1].lease.leader != n
    requires at == s.hist[|s.hist| - 1].at + Tenure(c, d) - c.gap
    ensures var e := Evaluate(s.nodes[n].mem, Stored(s.hist), n, at);
            && e.shouldRun && e.comment == OtherExpired
            && e.lease.Some? && e.lease.value.lease == s.hist[|s.hist| - 1].lease
  {
  }

  /** The newcomer's next round, at the end of the tenure, runs for election. */
  lemma NewcomerRuns(c: Config, d: nat, s: State, idle: set<Name>, n: Name, at: int) returns (s': State, r: Request)
    requires Reaches(c, s, idle) && n in c.durations && n !in idle && MayFetch(c, s, at)
    requires Seen(c, d, s, n) && s.hist[|s.hist| - 1].lease.leader != n
    requires at == s.hist[|s.hist| - 1].at + Tenure(c, d) - c.gap
    ensures Reaches(c, s', idle) && OthersKept(s, s', {n}) && s'.now == s'.access == at
    ensures r in s'.flight && r.lease.leader == n && r.lease.duration == c.durations[n] && r.why == OtherExpired
    ensures r.prev == Some(s.hist[|s.hist| - 1].lease.rvn) && r.lease.rvn !in s.used
    ensures n in s'.nodes && s'.nodes[n].phase.Idle? && s'.nodes[n].mem.Some?
    ensures s'.nodes[n].mem.value.lease == s.hist[|s.hist| - 1].lease
  {
    LookedLongEnough(c, d, s, n, at);
    var rvn;
    s', rvn := ExactRound(c, s, idle, n, at);
    r := Request(Lease(n, rvn, c.durations[n]), Some(s.hist[|s.hist| - 1].lease.rvn), |s.hist|, OtherExpired);
  }

  lemma NewcomerTakes(c: Config, d: int, s: State, idle: set<Name>, n: Name, r: Request, at: int) returns (s': State)
    requires Reaches(c, s, idle) && r in s.flight && s.now <= at && s.access + c.gap == at && s.hist != []
    requires r.prev == Some(s.hist[|s.hist| - 1].lease.rvn) && r.why == OtherExpired
    requires r.lease.leader == n && r.lease.duration == d && r.lease.rvn != s.hist[|s.hist| - 1].lease.rvn
    requires n in s.nodes && s.nodes[n].phase.Idle? && s.nodes[n].mem.Some?
    requires s.nodes[n].mem.value.lease == s.hist[|s.hist| - 1].lease && s.hist[|s.hist| - 1].lease.leader != n
    requires ChangesByExpiry(s.hist)
    ensures Reaches(c, s', idle) && s'.nodes == s.nodes && s'.now == s'.access == at
    ensures |s'.hist| == |s.hist| + 1 && Holds(s'.hist, n, d, at) && ChangesByExpiry(s'.hist) && Unaware(s', n)
  {
    s' := Delivers(c, s, idle, r, at);
    var h := s'.hist;
    assert h == s.hist + [Write(r.lease, at, r.base, r.why)];
    forall i | LeaderChange(h, i) ensures ByExpiry(h[i]) {
      if i < |s.hist| {
        assert LeaderChange(s.hist, i);
      }
    }
  }

  lemma LastRvnUsed(c: Config, s: State, idle: set<Name>)
    requires Reaches(c, s, idle) && s.hist != []
    ensures s.hist[|s.hist| - 1].lease.rvn in s.used
  {
    ReachesIsReachable(c, s, idle);
  }

  /** Both look: n as early as it can, the holder once more just before it will lose the lease. */
  lemma BothLook(c: Config, d: nat, s: State, idle: set<Name>, holder: Name, n: Name, at: int) returns (s': State)
    requires Reaches(c, s, idle) && holder in c.durations && n in c.durations && d > 0
    requires n in idle && holder !in idle && holder != n
    requires s.hist != [] && s.now == s.hist[|s.hist| - 1].at >= 0 && s.now + c.gap <= at
    requires Unaware(s, holder) && s.hist[|s.hist| - 1].lease.leader == holder
    requires s.hist[|s.hist| - 1].lease.duration == d
    ensures Reaches(c, s', idle - {n}) && s'.now == s'.access == at
    ensures Seen(c, d, s', n) && Remembers(s', holder, d, at) && OthersKept(s, s', {n, holder})
  {
    var s1 := NewcomerLooks(c, d, s, idle, n);
    s' := HolderLooks(c, d, s1, idle - {n}, holder, at);
  }

  /** One takeover: both look, n runs and wins. */
  lemma Takeover(c: Config, d: nat, s: State, idle: set<Name>, holder: Name, n: Name) returns (s': State)
    requires Reaches(c, s, idle) && holder in c.durations && n in c.durations && d > 0
    requires n in idle && holder !in idle && holder != n
    requires s.hist != [] && s.now == s.hist[|s.hist| - 1].at >= 0 && ChangesByExpiry(s.hist)
    requires Unaware(s, holder) && s.hist[|s.hist| - 1].lease.leader == holder
    requires s.hist[|s.hist| - 1].lease.duration == d
    ensures Reaches(c, s', idle - {n})
    ensures s'.now == s'.access == s.now + Tenure(c, d)
    ensures |s'.hist| == |s.hist| + 1 && Holds(s'.hist, n, c.durations[n], s'.now) && ChangesByExpiry(s'.hist)
    ensures Unaware(s', n) && Remembers(s', holder, d, s'.now - c.gap)
    ensures s'.nodes.Keys == s.nodes.Keys
    ensures forall m | m in s.nodes && m != n && m != holder :: s'.nodes[m] == s.nodes[m]
  {
    var at := s.now + Tenure(c, d) - c.gap;
    LastRvnUsed(c, s, idle);
    var s1 := BothLook(c, d, s, idle, holder, n, at);
    var s2, r := NewcomerRuns(c, d, s1, idle - {n}, n, at);
    s' := NewcomerTakes(c, c.durations[n], s2, idle - {n}, n, r, at + c.gap);
  }

  lemma ChainGrows(c: Config, d: nat, names: seq<Name>, i: nat, s: State) returns (s': State)
    requires Setup(c, d, names) && i + 1 < |names| && Chain(c, d, names, i, s)
    ensures Chain(c, d, names, i + 1, s')
  {
    var n := names[i + 1];
    s' := Takeover(c, d, s, From(names, i + 1), names[i], n);
    assert From(names, i + 1) - {n} == From(names, i + 2);
    forall j | 0 <= j < i + 1 ensures Remembers(s', names[j], d, TakenAt(c, d, j + 1) - c.gap) {
      assert names[j] != n;
      if j < i {
        assert names[j] != names[i];
      }
    }
  }

  lemma {:induction false} ChainOf(c: Config, d: nat, names: seq<Name>, i: nat) returns (s: State)
    requires Setup(c, d, names) && i < |names|
    ensures Chain(c, d, names, i, s)
  {
    if i == 0 {
      s := ChainBegins(c, d, names);
    } else {
      var before := ChainOf(c, d, names, i - 1);
      s := ChainGrows(c, d, names, i - 1, before);
    }
  }

  /** The chain is complete, and the last one has seen its lease, too. */
  lemma LastLooks(c: Config, d: nat, names: seq<Name>, last: nat, before: State) returns (s: State)
    requires Setup(c, d, names) && |names| == last + 1 && Chain(c, d, names, last, before)
    ensures Reachable(c, s) && s.hist == before.hist && s.now == TakenAt(c, d, last) + c.gap
    ensures Remembers(s, names[last], d, s.now) && OthersKept(before, s, {names[last]})
  {
    s := HolderLooks(c, d, before, From(names, last + 1), names[last], before.now + c.gap);
    ReachesIsReachable(c, s, From(names, last + 1));
  }

  lemma OneClaims(c: Config, d: nat, names: seq<Name>, last: nat, before: State, s: State, j: nat)
    requires Setup(c, d, names) && |names| == last + 1 && Chain(c, d, names, last, before) && j <= last
    requires Room(c, d, |names|) && s.now == TakenAt(c, d, last) + c.gap
    requires Remembers(s, names[last], d, s.now) && OthersKept(before, s, {names[last]})
    ensures Claims(s, names[j], s.now)
  {
    if j < last {
      StillFresh(c, d, last, j);
      assert names[j] != names[last];
    }
  }

  /** Then all of them claim, if there is room. */
  lemma AllClaim(c: Config, d: nat, names: seq<Name>) returns (s: State)
    requires Setup(c, d, names) && names != [] && Room(c, d, |names|)
    ensures Reachable(c, s) && ChangesByExpiry(s.hist)
    ensures forall j | 0 <= j < |names| :: Claims(s, names[j], s.now)
  {
    var last := |names| - 1;
    var before := ChainOf(c, d, names, last);
    s := LastLooks(c, d, names, last, before);
    forall j | 0 <= j < |names| ensures Claims(s, names[j], s.now) {
      OneClaims(c, d, names, last, before, s, j);
    }
  }

  lemma StillFresh(c: Config, d: nat, last: nat, j: nat)
    requires j < last && Room(c, d, last + 1)
    ensures TakenAt(c, d, last) + c.gap - (TakenAt(c, d, j + 1) - c.gap) <= d
  {
    TimesMonotone(1, j + 1, Tenure(c, d));
    TimesIsProduct(last - 1, Tenure(c, d));
  }

  // ---------- exactly how many ----------

  lemma {:induction false} PickNames(all: set<Name>, n: nat) returns (names: seq<Name>)
    requires n <= |all|
    ensures |names| == n && NoRepeats(names) && forall i | 0 <= i < n :: names[i] in all
  {
    if n == 0 {
      names := [];
    } else {
      var x :| x in all;
      var rest := PickNames(all - {x}, n - 1);
      names := rest + [x];
    }
  }

  lemma {:induction false} AllOfThem(names: seq<Name>, all: set<Name>)
    requires NoRepeats(names) && forall i | 0 <= i < |names| :: names[i] in all
    ensures |names| <= |all|
  {
    if names != [] {
      var last := |names| - 1;
      AllOfThem(names[..last], all - {names[last]});
    }
  }

  /** n nodes claim at time t in s, and the lease only changed hands through expiry. */
  ghost predicate Claimed(c: Config, s: State, t: int, n: nat) {
    Reachable(c, s) && s.now <= t && ChangesByExpiry(s.hist) && |Claimants(s, t)| >= n
  }

  lemma ClaimedNeedsRoom(c: Config, d: int, s: State, t: int, n: nat)
    requires CommonDuration(c, d) && Claimed(c, s, t, n)
    ensures n <= |c.durations| && Room(c, d, n)
  {
    var ss, es :| IsRun(c, ss, es) && ss[|ss| - 1] == s;
    InvAlongRun(c, ss, es, |ss| - 1);
    ClaimantsVersusDuration(c, ss, es, |ss| - 1, t, d);
    FewerFit(c, d, n, |Claimants(s, t)|);
    SubsetSize(Claimants(s, t), c.durations.Keys);
  }

  lemma RoomIsClaimed(c: Config, d: int, n: nat) returns (s: State)
    requires ValidConfig(c) && CommonDuration(c, d) && 0 < n <= |c.durations| && Room(c, d, n)
    ensures Claimed(c, s, s.now, n)
  {
    var names := PickNames(c.durations.Keys, n);
    assert c.durations[names[0]] == d;
    s := AllClaim(c, d, names);
    forall i | 0 <= i < |names| ensures names[i] in Claimants(s, s.now) {
      assert Claims(s, names[i], s.now);
    }
    AllOfThem(names, Claimants(s, s.now));
  }

  /** How many nodes can claim at one instant, exactly: with one common Duration and changes of leader
      through expiry only, n nodes can answer IsLeader at once if and only if there are n nodes and
      (n - 2) * (Duration - lag + 2 * gap) + 2 * gap <= Duration. */
  lemma ClaimantsExactly(c: Config, d: int, n: nat)
    requires ValidConfig(c) && CommonDuration(c, d) && n > 0
    ensures (exists s, t :: Claimed(c, s, t, n)) <==> n <= |c.durations| && Room(c, d, n)
  {
    if n <= |c.durations| && Room(c, d, n) {
      var s := RoomIsClaimed(c, d, n);
      assert Claimed(c, s, s.now, n);
    }
    if exists s, t :: Claimed(c, s, t, n) {
      var s, t :| Claimed(c, s, t, n);
      ClaimedNeedsRoom(c, d, s, t, n);
    }
  }

  ghost predicate Doubled(c: Config, s: State, t: int) {
    Reachable(c, s) && s.now <= t && |Claimants(s, t)| >= 2
  }

  lemma {:induction false} TwoOf(all: set<Name>) returns (a: Name, b: Name)
    requires |all| >= 2
    ensures a in all && b in all && a != b
  {
    a :| a in all;
    assert |all - {a}| >= 1;
    b :| b in all - {a};
  }

  /** a led, saw its own lease just before it lost it, and b has just taken over. */
  ghost predicate TwoTerms(c: Config, s: State, a: Name, b: Name)
    requires a in c.durations && b in c.durations
  {
    && Reaches(c, s, c.durations.Keys - {a} - {b}) && s.now == s.access
    && |s.hist| == 2 && s.hist[0].lease.leader == a && Holds(s.hist, b, c.durations[b], s.now)
    && Remembers(s, a, c.durations[a], s.now - c.gap) && Unaware(s, b)
  }

  lemma TakenOver(c: Config, a: Name, b: Name) returns (s: State)
    requires ValidConfig(c) && a in c.durations && b in c.durations && a != b
    ensures TwoTerms(c, s, a, b)
  {
    var first := FirstTakes(c, a);
    var idle := c.durations.Keys - {a};
    s := Takeover(c, c.durations[a], first, idle, a, b);
    ReachesIsReachable(c, s, idle - {b});
  }

  /** Once b has seen its own lease both claim, if a's Duration has room for two gaps. */
  lemma BothClaim(c: Config, a: Name, b: Name) returns (s: State)
    requires ValidConfig(c) && a in c.durations && b in c.durations && a != b && 2 * c.gap <= c.durations[a]
    ensures Doubled(c, s, s.now)
  {
    var before := TakenOver(c, a, b);
    var idle := c.durations.Keys - {a} - {b};
    s := HolderLooks(c, c.durations[b], before, idle, b, before.now + c.gap);
    ReachesIsReachable(c, s, idle);
    assert Claims(s, a, s.now) && Claims(s, b, s.now);
    SubsetSize({a, b}, Claimants(s, s.now));
  }

  lemma Another(all: set<Name>, a: Name) returns (b: Name)
    requires a in all && |all| >= 2
    ensures b in all && b != a
  {
    assert |all - {a}| >= 1;
    b :| b in all - {a};
  }

  /** Mutual exclusion of IsLeader fails in exactly these configurations, whatever the Durations and
      however the lease changes hands: at least two nodes, one of them with a Duration of at least two
      gaps. */
  lemma TwoClaimantsIff(c: Config)
    requires ValidConfig(c)
    ensures (exists s, t :: Doubled(c, s, t)) <==>
            |c.durations| >= 2 && exists n :: n in c.durations && 2 * c.gap <= c.durations[n]
  {
    if |c.durations| >= 2 && exists n :: n in c.durations && 2 * c.gap <= c.durations[n] {
      var a :| a in c.durations && 2 * c.gap <= c.durations[a];
      var b := Another(c.durations.Keys, a);
      var s := BothClaim(c, a, b);
    }
    if exists s, t :: Doubled(c, s, t) {
      var s, t :| Doubled(c, s, t);
      var ss, es :| IsRun(c, ss, es) && ss[|ss| - 1] == s;
      InvAlongRun(c, ss, es, |ss| - 1);
      var a, b := TwoOf(Claimants(s, t));
      TwoClaimsNeedRoom(c, s, a, b, t);
      SubsetSize(Claimants(s, t), c.durations.Keys);
    }
  }

  // ---------- an old leader retakes at once ----------

  /** The refresh branch looks at what the node remembered, not at what it fetched: in every
      configuration with two nodes a displaced leader can take the lease back after two gaps, the
      least time that any write needs, however long the Duration is. */
  lemma OldLeaderRetakesAtOnce(c: Config) returns (s: State)
    requires ValidConfig(c) && |c.durations| >= 2
    ensures Reachable(c, s) && LeaderChange(s.hist, 2) && s.hist[2].why == Refreshing
    ensures s.hist[2].at == s.hist[1].at + 2 * c.gap
  {
    var a, b := TwoOf(c.durations.Keys);
    var before := TakenOver(c, a, b);
    var idle := c.durations.Keys - {a} - {b};
    s := Retakes(c, before, idle, a);
    ReachesIsReachable(c, s, idle);
  }

  lemma Retakes(c: Config, s: State, idle: set<Name>, n: Name) returns (s': State)
    requires Reaches(c, s, idle) && n in c.durations && n !in idle && n in s.nodes && s.nodes[n].mem.Some?
    requires s.nodes[n].mem.value.lease.leader == n && s.nodes[n].phase.Idle?
    requires s.hist != [] && s.now == s.access == s.hist[|s.hist| - 1].at
    ensures Reaches(c, s', idle) && |s'.hist| == |s.hist| + 1 && s'.hist[..|s.hist|] == s.hist
    ensures s'.hist[|s.hist|].lease.leader == n && s'.hist[|s.hist|].why == Refreshing
    ensures s'.hist[|s.hist|].at == s.now + 2 * c.gap
  {
    var l := s.hist[|s.hist| - 1].lease;
    var s1, rvn := ExactRound(c, s, idle, n, s.now + c.gap);
    var r := Request(Lease(n, rvn, c.durations[n]), Some(l.rvn), |s.hist|, Refreshing);
    assert r in s1.flight;
    s' := Delivers(c, s1, idle, r, s.now + 2 * c.gap);
    assert s'.hist == s.hist + [Write(r.lease, s.now + 2 * c.gap, r.base, r.why)];
  }
}
