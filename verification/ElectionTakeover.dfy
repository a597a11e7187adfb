/** An abandoned lease is replaced within a bounded time. */
module ElectionTakeover {
  import opened Common
  import opened LeaseLogic
  import opened ElectionProtocol

  predicate Fails(e: Event, n: Name) {
    (e.FetchError? || e.Restart?) && e.n == n
  }

  /** es[a] and es[b] are the clock reading and the fetch of one round of n. */
  ghost predicate Round(es: seq<Event>, n: Name, a: nat, b: nat) {
    && a < b < |es|
    && es[a].Start? && es[a].n == n
    && es[b].Fetch? && es[b].n == n
    && forall i | a < i < b :: !Touches(es[i], n)
  }

  /** The request sent by the fetch at index b, if any, is processed by time hi. */
  ghost predicate Answered(ss: seq<State>, es: seq<Event>, b: nat, hi: int)
    requires b + 1 < |ss|
  {
    forall r | r in ss[b + 1].flight && r !in ss[b].flight :: DeliveredBy(es, r, b, hi)
  }

  ghost predicate DeliveredBy(es: seq<Event>, r: Request, b: nat, hi: int) {
    exists d :: b < d < |es| && es[d].Deliver? && es[d].r == r && es[d].at <= hi
  }

  ghost predicate CompletePoll(ss: seq<State>, es: seq<Event>, n: Name, a: nat, b: nat, lo: int, p: nat)
    requires |ss| == |es| + 1
  {
    Round(es, n, a, b) && lo <= es[a].at && es[b].at <= lo + p && Answered(ss, es, b, lo + p)
  }

  /** From index k on, n completes a poll within [lo, lo + p]. */
  ghost predicate PollsWithin(ss: seq<State>, es: seq<Event>, n: Name, k: nat, lo: int, p: nat)
    requires |ss| == |es| + 1
  {
    exists a: nat, b: nat :: k <= a && CompletePoll(ss, es, n, a, b, lo, p)
  }

  /** The lease number h - 1 has been replaced, no later than `limit`. */
  ghost predicate ReplacedBy(hist: seq<Write>, h: nat, limit: int) {
    h < |hist| && hist[h].at <= limit
  }

  lemma {:induction false} ClockKept(c: Config, ss: seq<State>, es: seq<Event>, n: Name, a: nat, b: nat, i: nat)
    requires IsRun(c, ss, es) && Round(es, n, a, b) && a < i <= b
    ensures n in ss[i].nodes && ss[i].nodes[n].phase == Started(es[a].at)
  {
    assert Next(c, ss[i - 1], es[i - 1], ss[i]);
    if i > a + 1 {
      ClockKept(c, ss, es, n, a, b, i - 1);
    }
  }

  /** n remembers the last lease and believes it free no later than `deadline`. */
  ghost predicate Watches(s: State, n: Name, h: nat, deadline: int) {
    && n in s.nodes
    && s.nodes[n].mem.Some?
    && |s.hist| == h > 0
    && s.nodes[n].mem.value.lease == s.hist[h - 1].lease
    && s.nodes[n].mem.value.Deadline() <= deadline
  }

  /** Once a non-holder remembers the lease, its deadline never moves, however often it polls. */
  lemma {:induction false} DeadlineKept(c: Config, ss: seq<State>, es: seq<Event>, n: Name, h: nat, i: nat, j: nat,
                                        deadline: int)
    requires IsRun(c, ss, es) && i <= j < |ss|
    requires Watches(ss[i], n, h, deadline) && ss[i].hist[h - 1].lease.leader != n
    requires forall k | i <= k < j :: !Fails(es[k], n)
    requires |ss[j].hist| == h
    ensures Watches(ss[j], n, h, deadline)
    ensures ss[j].nodes[n].mem.value.Deadline() == ss[i].nodes[n].mem.value.Deadline()
  {
    if i < j {
      assert Next(c, ss[j - 1], es[j - 1], ss[j]);
      Monotone(c, ss, es, i, j - 1);
      DeadlineKept(c, ss, es, n, h, i, j - 1, deadline);
    }
  }

  /** A first poll either finds the lease replaced or leaves n with a deadline one Duration after
      its clock reading. */
  lemma FirstPoll(c: Config, ss: seq<State>, es: seq<Event>, n: Name, a: nat, b: nat, h: nat)
    requires IsRun(c, ss, es) && Round(es, n, a, b)
    requires |ss[b].hist| == h > 0
    ensures |ss[b + 1].hist| == h
    ensures Watches(ss[b + 1], n, h, es[a].at + ss[b].hist[h - 1].lease.duration)
  {
    InvAlongRun(c, ss, es, b);
    ClockKept(c, ss, es, n, a, b, b);
    assert Next(c, ss[b], es[b], ss[b + 1]);
  }

  /** A poll at or after the deadline sends a request that names the lease still in the store. */
  lemma LatePollRuns(c: Config, ss: seq<State>, es: seq<Event>, n: Name, a: nat, b: nat, h: nat, deadline: int)
      returns (r: Request)
    requires IsRun(c, ss, es) && Round(es, n, a, b)
    requires Watches(ss[b], n, h, deadline) && deadline <= es[a].at
    ensures r in ss[b + 1].flight && r !in ss[b].flight && r.base == h
  {
    InvAlongRun(c, ss, es, b);
    ClockKept(c, ss, es, n, a, b, b);
    assert Next(c, ss[b], es[b], ss[b + 1]);
    var e := Evaluate(ss[b].nodes[n].mem, Stored(ss[b].hist), n, es[a].at);
    r := RoundRequest(e, n, c.durations[n], es[b].rvn, h).value;
    assert r.lease.rvn !in ss[b].used;
  }

  /** Once delivered, a request computed after h writes leaves more than h writes behind. */
  lemma DeliveryReplaces(c: Config, ss: seq<State>, es: seq<Event>, d: nat, h: nat)
    requires IsRun(c, ss, es) && d < |es| && es[d].Deliver? && es[d].r.base == h
    ensures ReplacedBy(ss[d + 1].hist, h, es[d].at)
  {
    InvAlongRun(c, ss, es, d);
    assert Next(c, ss[d], es[d], ss[d + 1]);
  }

  lemma StaysReplaced(c: Config, ss: seq<State>, es: seq<Event>, i: nat, h: nat, limit: int)
    requires IsRun(c, ss, es) && i < |ss|
    requires h < |ss[i].hist| && (ss[i].now <= limit || ReplacedBy(ss[i].hist, h, limit))
    ensures ReplacedBy(ss[|ss| - 1].hist, h, limit)
  {
    InvAlongRun(c, ss, es, i);
    Monotone(c, ss, es, i, |ss| - 1);
  }

  /** The second half of a takeover: n watches the lease and polls again after its deadline. */
  lemma SecondPoll(c: Config, ss: seq<State>, es: seq<Event>, n: Name, h: nat, i: nat, a: nat, b: nat,
                   deadline: int, p: nat)
    requires IsRun(c, ss, es) && i <= a && CompletePoll(ss, es, n, a, b, deadline, p)
    requires Watches(ss[i], n, h, deadline) && ss[i].hist[h - 1].lease.leader != n
    requires forall k | i <= k < |es| :: !Fails(es[k], n)
    ensures ReplacedBy(ss[|ss| - 1].hist, h, deadline + p)
  {
    Monotone(c, ss, es, i, b);
    if |ss[b].hist| > h {
      StaysReplaced(c, ss, es, b, h, deadline + p);
    } else {
      DeadlineKept(c, ss, es, n, h, i, b, deadline);
      var r := LatePollRuns(c, ss, es, n, a, b, h, deadline);
      assert DeliveredBy(es, r, b, deadline + p);
      var d :| b < d < |es| && es[d].Deliver? && es[d].r == r && es[d].at <= deadline + p;
      DeliveryReplaces(c, ss, es, d, h);
      StaysReplaced(c, ss, es, d + 1, h, deadline + p);
    }
  }

  /** Two rounds of one node do not overlap. */
  lemma LaterRound(c: Config, ss: seq<State>, es: seq<Event>, n: Name, a: nat, b: nat, a': nat, b': nat)
    requires IsRun(c, ss, es) && Round(es, n, a, b) && Round(es, n, a', b')
    requires es[a].at < es[a'].at
    ensures b < a'
  {
    if a' <= a {
      if a' < a {
        Monotone(c, ss, es, a' + 1, a);
      }
      assert false;
    }
    assert Touches(es[a'], n);
  }

  /** Two polls suffice: one to start the clock, one after it has run out. */
  lemma TwoPolls(c: Config, ss: seq<State>, es: seq<Event>, n: Name, h: nat, a: nat, b: nat, a': nat, b': nat,
                 deadline: int, p: nat)
    requires IsRun(c, ss, es) && Round(es, n, a, b)
    requires |ss[b].hist| == h > 0 && ss[b].hist[h - 1].lease.leader != n && ss[b].hist[h - 1].lease.duration > 0
    requires deadline == es[a].at + ss[b].hist[h - 1].lease.duration
    requires CompletePoll(ss, es, n, a', b', deadline, p)
    requires forall i | b < i < |es| :: !Fails(es[i], n)
    ensures ReplacedBy(ss[|ss| - 1].hist, h, deadline + p)
  {
    FirstPoll(c, ss, es, n, a, b, h);
    LaterRound(c, ss, es, n, a, b, a', b');
    Monotone(c, ss, es, b, b + 1);
    SecondPoll(c, ss, es, n, h, b + 1, a', b', deadline, p);
  }

  lemma TakeoverAfter(c: Config, ss: seq<State>, es: seq<Event>, n: Name, k: nat, w: Write, p: nat, a: nat, b: nat)
    requires IsRun(c, ss, es) && k <= a && CompletePoll(ss, es, n, a, b, w.at, p)
    requires ss[b].hist == ss[k].hist && ss[k].hist != [] && w == ss[k].hist[|ss[k].hist| - 1]
    requires n != w.lease.leader
    requires forall i | k <= i < |es| :: !Fails(es[i], n)
    requires PollsWithin(ss, es, n, k, es[a].at + w.lease.duration, p)
    ensures ReplacedBy(ss[|ss| - 1].hist, |ss[k].hist|, es[a].at + w.lease.duration + p)
  {
    var deadline := es[a].at + w.lease.duration;
    var a': nat, b': nat :| k <= a' && CompletePoll(ss, es, n, a', b', deadline, p);
    DurationPositive(c, ss, es, k);
    assert forall i | b < i < |es| :: !Fails(es[i], n);
    TwoPolls(c, ss, es, n, |ss[k].hist|, a, b, a', b', deadline, p);
  }

  /** Bounded takeover: if some node other than the holder completes a poll in every window of
      length p, without errors, then the lease current at index k, written at w, has been
      replaced by w + Duration + 2 * p.  Nothing is assumed about what the node remembered before,
      about the holder, or about other contenders. */
  lemma BoundedTakeover(c: Config, ss: seq<State>, es: seq<Event>, n: Name, k: nat, w: Write, p: nat)
    requires IsRun(c, ss, es) && k < |ss|
    requires ss[k].hist != [] && w == ss[k].hist[|ss[k].hist| - 1]
    requires n != w.lease.leader
    requires forall i | k <= i < |es| :: !Fails(es[i], n)
    requires forall lo | w.at <= lo <= w.at + p + w.lease.duration :: PollsWithin(ss, es, n, k, lo, p)
    ensures ReplacedBy(ss[|ss| - 1].hist, |ss[k].hist|, w.at + w.lease.duration + 2 * p)
  {
    var h, limit := |ss[k].hist|, w.at + w.lease.duration + 2 * p;
    DurationPositive(c, ss, es, k);
    assert PollsWithin(ss, es, n, k, w.at, p);
    var a: nat, b: nat :| k <= a && CompletePoll(ss, es, n, a, b, w.at, p);
    RoundTimes(c, ss, es, n, a, b);
    Monotone(c, ss, es, k, b);
    if |ss[b].hist| > h {
      StaysReplaced(c, ss, es, b, h, limit);
    } else {
      var deadline := es[a].at + w.lease.duration;
      assert PollsWithin(ss, es, n, k, deadline, p);
      TakeoverAfter(c, ss, es, n, k, w, p, a, b);
    }
  }

  lemma DurationPositive(c: Config, ss: seq<State>, es: seq<Event>, k: nat)
    requires IsRun(c, ss, es) && k < |ss| && ss[k].hist != []
    ensures ss[k].hist[|ss[k].hist| - 1].lease.duration > 0
  {
    InvAlongRun(c, ss, es, k);
    assert WriteOk(c, ss[k].hist, |ss[k].hist| - 1);
  }

  lemma RoundTimes(c: Config, ss: seq<State>, es: seq<Event>, n: Name, a: nat, b: nat)
    requires IsRun(c, ss, es) && Round(es, n, a, b)
    ensures es[a].at <= es[b].at
  {
    Monotone(c, ss, es, a + 1, b);
  }
}
