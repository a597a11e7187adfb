/** What a claim to be leader is worth, and how fast the lease can change hands. */
module ElectionSafety {
  import opened Common
  import opened LeaseLogic
  import opened ElectionProtocol

  /** n may answer IsLeader at t, from its memory or, while a reply is under way, from the one before. */
  ghost predicate Claims(s: State, n: Name, t: int) {
    n in s.nodes && (IsLeader(s.nodes[n].mem, n, t) || IsLeader(s.nodes[n].prior, n, t))
  }

  ghost function Claimants(s: State, t: int): set<Name> {
    set n | n in s.nodes && Claims(s, n, t)
  }

  /** n is the leader of the lease in the store at time u. */
  ghost predicate HeldAt(hist: seq<Write>, n: Name, u: int) {
    exists i :: 0 <= i < |hist| && hist[i].lease.leader == n && Covers(hist, i, u)
  }

  ghost predicate Covers(hist: seq<Write>, i: nat, u: int)
    requires i < |hist|
  {
    hist[i].at <= u && (i + 1 < |hist| ==> u <= hist[i + 1].at)
  }

  predicate LeaderChange(hist: seq<Write>, i: int) {
    0 < i < |hist| && hist[i].lease.leader != hist[i - 1].lease.leader
  }

  /** The number of leader changes since time `from`. */
  function ChangesSince(hist: seq<Write>, from: int): nat {
    var last := |hist| - 1;
    if last <= 0 || hist[last].at < from then 0
    else ChangesSince(hist[..last], from) + if LeaderChange(hist, last) then 1 else 0
  }

  // ---------- claims are fresh ----------

  /** Behind every claim is an observation of one of the claimant's own leases. */
  lemma ClaimSource(c: Config, s: State, n: Name, t: int) returns (o: Observed, i: nat)
    requires Inv(c, s) && Claims(s, n, t)
    ensures MemOk(c, s, Some(o), i) && IsLeader(Some(o), n, t)
    ensures s.hist[i].lease.leader == n && n in c.durations && o.lease.duration == c.durations[n]
  {
    assert NodeOk(c, s, n);
    var node := s.nodes[n];
    if IsLeader(node.mem, n, t) {
      o, i := node.mem.value, node.index;
    } else {
      o, i := node.prior.value, node.priorIndex;
    }
    assert WriteOk(c, s.hist, i);
  }

  /** A claim is never staler than one Duration: whoever answers IsLeader at time t led the lease
      in the store at some moment of [t - Duration, t]. */
  lemma ClaimIsFresh(c: Config, ss: seq<State>, es: seq<Event>, k: nat, n: Name, t: int)
    requires IsRun(c, ss, es) && k < |ss|
    requires ss[k].now <= t && Claims(ss[k], n, t)
    ensures n in c.durations && exists u :: t - c.durations[n] <= u <= t && HeldAt(ss[k].hist, n, u)
  {
    InvAlongRun(c, ss, es, k);
    var h := ss[k].hist;
    var o, i := ClaimSource(c, ss[k], n, t);
    var u := if o.seen < h[i].at then h[i].at else o.seen;
    assert Covers(h, i, u);
    assert HeldAt(h, n, u);
  }

  /** n wrote a lease that was still in the store at time `from` or later. */
  ghost predicate LedSince(hist: seq<Write>, n: Name, from: int) {
    exists i :: 0 <= i < |hist| && hist[i].lease.leader == n && (i + 1 < |hist| ==> from <= hist[i + 1].at)
  }

  lemma LedAlone(hist: seq<Write>, n: Name, from: int)
    requires Ordered(0, hist) && LedSince(hist, n, from)
    requires |hist| == 1 || hist[|hist| - 1].at < from
    ensures n == hist[|hist| - 1].lease.leader
  {
    var i :| 0 <= i < |hist| && hist[i].lease.leader == n && (i + 1 < |hist| ==> from <= hist[i + 1].at);
    if i + 1 < |hist| - 1 {
      assert hist[i + 1].at + 0 <= hist[|hist| - 1].at;
    }
  }

  lemma LedBefore(hist: seq<Write>, n: Name, from: int)
    requires LedSince(hist, n, from) && |hist| > 1
    requires LeaderChange(hist, |hist| - 1) ==> n != hist[|hist| - 1].lease.leader
    ensures LedSince(hist[..|hist| - 1], n, from)
  {
    var last := |hist| - 1;
    var i :| 0 <= i < |hist| && hist[i].lease.leader == n && (i + 1 < |hist| ==> from <= hist[i + 1].at);
    var j := if i == last then last - 1 else i;
    assert hist[..last][j].lease.leader == n;
  }

  lemma {:induction false} LeadersBounded(hist: seq<Write>, from: int, names: set<Name>)
    requires Ordered(0, hist)
    requires forall n | n in names :: LedSince(hist, n, from)
    ensures |names| <= 1 + ChangesSince(hist, from)
  {
    var last := |hist| - 1;
    if last < 0 {
      assert names == {};
    } else if last == 0 || hist[last].at < from {
      forall n | n in names ensures n == hist[last].lease.leader {
        LedAlone(hist, n, from);
      }
      SubsetSize(names, {hist[last].lease.leader});
    } else {
      var rest := if LeaderChange(hist, last) then names - {hist[last].lease.leader} else names;
      forall n | n in rest ensures LedSince(hist[..last], n, from) {
        LedBefore(hist, n, from);
      }
      LeadersBounded(hist[..last], from, rest);
    }
  }

  lemma {:induction false} SubsetSize<T>(a: set<T>, b: set<T>)
    requires a <= b
    ensures |a| <= |b|
  {
    if a != {} {
      var x :| x in a;
      SubsetSize(a - {x}, b - {x});
    }
  }

  /** The writes up to this time. */
  function UpTo(hist: seq<Write>, limit: int): seq<Write> {
    if hist == [] || hist[|hist| - 1].at <= limit then hist else UpTo(hist[..|hist| - 1], limit)
  }

  lemma {:induction false} UpToIsPrefix(hist: seq<Write>, limit: int)
    ensures var h := UpTo(hist, limit);
            && h <= hist && (h != [] ==> h[|h| - 1].at <= limit)
            && forall i | 0 <= i < |hist| && hist[i].at <= limit :: i < |h|
  {
    if hist != [] && hist[|hist| - 1].at > limit {
      UpToIsPrefix(hist[..|hist| - 1], limit);
    }
  }

  /** What the claimants at a time t can have seen. */
  function Visible(c: Config, s: State): seq<Write> {
    UpTo(s.hist, s.access - c.gap)
  }

  /** Every claimant led the store after `from`, when all leases last at most d. */
  lemma ClaimantLedSince(c: Config, s: State, n: Name, t: int, d: int)
    requires Inv(c, s) && Claims(s, n, t) && (n in c.durations ==> c.durations[n] <= d)
    ensures LedSince(s.hist, n, t - d + c.gap) && LedSince(Visible(c, s), n, t - d + c.gap)
  {
    var o, i := ClaimSource(c, s, n, t);
    UpToIsPrefix(s.hist, s.access - c.gap);
    var h := Visible(c, s);
    assert s.hist[i].lease.leader == n && h[i].lease.leader == n;
    assert i + 1 < |s.hist| ==> t - d + c.gap <= s.hist[i + 1].at;
  }

  /** In every run, with no assumption on scheduling, the number of nodes that answer IsLeader at
      one instant is at most one more than the number of leader changes in the last Duration. */
  lemma ClaimantsBounded(c: Config, ss: seq<State>, es: seq<Event>, k: nat, t: int, d: int)
    requires IsRun(c, ss, es) && k < |ss|
    requires forall n | n in c.durations :: c.durations[n] <= d
    ensures |Claimants(ss[k], t)| <= 1 + ChangesSince(ss[k].hist, t - d + c.gap)
  {
    InvAlongRun(c, ss, es, k);
    forall n | n in Claimants(ss[k], t) ensures LedSince(ss[k].hist, n, t - d + c.gap) {
      ClaimantLedSince(c, ss[k], n, t, d);
    }
    LeadersBounded(ss[k].hist, t - d + c.gap, Claimants(ss[k], t));
  }

  /** While the stored leader has not changed for a Duration, nobody else claims. */
  lemma OneClaimantWhenStable(c: Config, ss: seq<State>, es: seq<Event>, k: nat, t: int, d: int)
    requires IsRun(c, ss, es) && k < |ss| && ss[k].hist != []
    requires forall n | n in c.durations :: c.durations[n] <= d
    requires ChangesSince(ss[k].hist, t - d + c.gap) == 0
    ensures Claimants(ss[k], t) <= {ss[k].hist[|ss[k].hist| - 1].lease.leader}
  {
    InvAlongRun(c, ss, es, k);
    var h, from := ss[k].hist, t - d + c.gap;
    HistOrdered(c, ss, es, k);
    forall n | n in Claimants(ss[k], t) ensures n == h[|h| - 1].lease.leader {
      ClaimantLedSince(c, ss[k], n, t, d);
      NoChangeSameLeader(h, n, from);
    }
  }

  lemma {:induction false} NoChangeSameLeader(hist: seq<Write>, n: Name, from: int)
    requires Ordered(0, hist) && ChangesSince(hist, from) == 0 && LedSince(hist, n, from)
    ensures n == hist[|hist| - 1].lease.leader
  {
    var last := |hist| - 1;
    if last > 0 && from <= hist[last].at {
      NoChangeSameLeader(hist[..last], n, from);
    }
  }

  // ---------- tenure ----------

  /** The round that wrote hist[i] went through the expiry branch. */
  predicate ByExpiry(w: Write) {
    w.why.OwnExpired? || w.why.OtherExpired?
  }

  /** Minimum tenure: a lease is displaced by another node only once it was in the store for its
      Duration (less the lag of one clock reading, plus twice the gap), unless the taker remembered a lease of its own
      when it took it; and such a taker had led before. */
  lemma MinimumTenure(c: Config, ss: seq<State>, es: seq<Event>, k: nat, i: nat)
    requires IsRun(c, ss, es) && k < |ss| && LeaderChange(ss[k].hist, i)
    ensures var h := ss[k].hist;
            && (h[i].why.Refreshing? <==> !ByExpiry(h[i]))
            && (ByExpiry(h[i]) ==> h[i].at >= h[i - 1].at + h[i - 1].lease.duration - c.lag + 2 * c.gap)
            && (h[i].why.Refreshing? ==> Led(h, h[i].lease.leader, i))
            && h[i].at >= h[i - 1].at + 2 * c.gap
  {
    InvAlongRun(c, ss, es, k);
    assert WriteOk(c, ss[k].hist, i);
  }

  /** A node that never led before always waits until the lease it displaces has run out. */
  lemma NewcomerWaits(c: Config, ss: seq<State>, es: seq<Event>, k: nat, i: nat)
    requires IsRun(c, ss, es) && k < |ss| && 0 < i < |ss[k].hist|
    requires forall j | 0 <= j < i :: ss[k].hist[j].lease.leader != ss[k].hist[i].lease.leader
    ensures var h := ss[k].hist; h[i].at >= h[i - 1].at + h[i - 1].lease.duration - c.lag + 2 * c.gap
  {
    MinimumTenure(c, ss, es, k, i);
  }

  // ---------- how many claimants at once ----------

  /** All nodes use one Duration d, and the lease only changes hands through expiry. */
  ghost predicate CommonDuration(c: Config, d: int) {
    forall n | n in c.durations :: c.durations[n] == d
  }

  ghost predicate ChangesByExpiry(hist: seq<Write>) {
    forall i | LeaderChange(hist, i) :: ByExpiry(hist[i])
  }

  /** Any two leader changes are so far apart. */
  ghost predicate Spaced(hist: seq<Write>, apart: int) {
    forall i, j | LeaderChange(hist, i) && LeaderChange(hist, j) && i < j :: hist[i].at + apart <= hist[j].at
  }

  /** How long a lease of Duration d > 0 stays in the store at least: a lag beyond the Duration gains
      nothing, since the clock reading also starts the wait. */
  function Tenure(c: Config, d: int): int {
    (if c.lag <= d then d - c.lag else 0) + 2 * c.gap
  }

  /** Consecutive changes of leader through expiry are a Duration apart, less the lag, plus two gaps. */
  lemma LeaderChangesSpaced(c: Config, ss: seq<State>, es: seq<Event>, k: nat, d: int)
    requires IsRun(c, ss, es) && k < |ss|
    requires CommonDuration(c, d) && ChangesByExpiry(ss[k].hist)
    ensures Spaced(ss[k].hist, Tenure(c, d))
  {
    InvAlongRun(c, ss, es, k);
    var h := ss[k].hist;
    forall i, j | LeaderChange(h, i) && LeaderChange(h, j) && i < j ensures h[i].at + Tenure(c, d) <= h[j].at {
      MinimumTenure(c, ss, es, k, j);
      assert WriteOk(c, h, j - 1) && ByExpiry(h[j]);
      assert i < j - 1 ==> h[i].at + c.gap <= h[j - 1].at;
    }
  }

  /** Times(n, x) is n * x, kept linear for the induction over the history. */
  function Times(n: nat, x: nat): nat {
    if n == 0 then 0 else Times(n - 1, x) + x
  }

  lemma {:induction false} TimesIsProduct(n: nat, x: nat)
    ensures Times(n, x) == n * x
  {
    if n > 0 {
      TimesIsProduct(n - 1, x);
    }
  }

  lemma {:induction false} TimesMonotone(a: nat, b: nat, x: nat)
    requires a <= b
    ensures Times(a, x) <= Times(b, x)
  {
    if a < b {
      TimesMonotone(a, b - 1, x);
    }
  }

  lemma CountsBack(hist: seq<Write>, from: int)
    requires ChangesSince(hist, from) > 0
    ensures var last := |hist| - 1;
            && last > 0 && from <= hist[last].at
            && ChangesSince(hist, from) == ChangesSince(hist[..last], from) + if LeaderChange(hist, last) then 1 else 0
  {
  }

  lemma CountsOn(hist: seq<Write>, n: nat, from: int)
    requires n < |hist| && ChangesSince(hist[..n + 1], from) > 0
    ensures var more := if LeaderChange(hist, n) then 1 else 0;
            ChangesSince(hist[..n + 1], from) == ChangesSince(hist[..n], from) + more && from <= hist[n].at
  {
    CountsBack(hist[..n + 1], from);
    assert hist[..n + 1][..n] == hist[..n];
  }

  /** The latest of the leader changes since `from` comes after all the others' tenures. */
  lemma {:induction false} SpacedTakeTime(hist: seq<Write>, n: nat, from: int, apart: nat) returns (i: int)
    requires Spaced(hist, apart) && n < |hist|
    requires ChangesSince(hist[..n + 1], from) > 0
    ensures LeaderChange(hist, i) && i <= n
    ensures from + Times(ChangesSince(hist[..n + 1], from) - 1, apart) <= hist[i].at
  {
    CountsOn(hist, n, from);
    i := n;
    if ChangesSince(hist[..n], from) > 0 {
      var j := SpacedTakeTime(hist, n - 1, from, apart);
      if LeaderChange(hist, n) {
        assert hist[j].at + apart <= hist[n].at;
      } else {
        i := j;
      }
    }
  }

  lemma ChangesTakeTime(hist: seq<Write>, from: int, apart: nat) returns (i: int)
    requires Spaced(hist, apart) && ChangesSince(hist, from) > 0
    ensures 0 <= i < |hist| && from + Times(ChangesSince(hist, from) - 1, apart) <= hist[i].at
  {
    CountsBack(hist, from);
    assert hist[..|hist| - 1 + 1] == hist;
    i := SpacedTakeTime(hist, |hist| - 1, from, apart);
  }

  lemma SpacedChangesFit(hist: seq<Write>, from: int, apart: nat, last: int, many: nat)
    requires Ordered(0, hist) && Spaced(hist, apart)
    requires 2 <= many <= 1 + ChangesSince(hist, from)
    requires hist != [] ==> hist[|hist| - 1].at <= last
    ensures from + Times(many - 2, apart) <= last
  {
    var i := ChangesTakeTime(hist, from, apart);
    assert hist[i].at + 0 <= hist[|hist| - 1].at || i == |hist| - 1;
    TimesMonotone(many - 2, ChangesSince(hist, from) - 1, apart);
  }

  lemma VisibleSpaced(c: Config, ss: seq<State>, es: seq<Event>, k: nat, d: int)
    requires IsRun(c, ss, es) && k < |ss|
    requires CommonDuration(c, d) && ChangesByExpiry(ss[k].hist)
    ensures var h := Visible(c, ss[k]);
            && Ordered(0, h) && Spaced(h, Tenure(c, d))
            && (h != [] ==> h[|h| - 1].at + c.gap <= ss[k].now)
  {
    InvAlongRun(c, ss, es, k);
    LeaderChangesSpaced(c, ss, es, k, d);
    HistOrdered(c, ss, es, k);
    UpToIsPrefix(ss[k].hist, ss[k].access - c.gap);
  }

  lemma ClaimantsLed(c: Config, ss: seq<State>, es: seq<Event>, k: nat, t: int, d: int)
    requires IsRun(c, ss, es) && k < |ss| && CommonDuration(c, d) && Ordered(0, Visible(c, ss[k]))
    ensures |Claimants(ss[k], t)| <= 1 + ChangesSince(Visible(c, ss[k]), t - d + c.gap)
  {
    InvAlongRun(c, ss, es, k);
    var h, from := Visible(c, ss[k]), t - d + c.gap;
    forall n | n in Claimants(ss[k], t) ensures LedSince(h, n, from) {
      ClaimantLedSince(c, ss[k], n, t, d);
    }
    LeadersBounded(h, from, Claimants(ss[k], t));
  }

  /** Room(c, d, n): n claims of Duration d fit behind each other. */
  predicate Room(c: Config, d: int, n: nat) {
    n >= 2 ==> (n - 2) * Tenure(c, d) + 2 * c.gap <= d
  }

  /** With one common Duration and changes of leader through expiry only, N >= 2 nodes can answer IsLeader
      at the same instant only if (N - 2) * (Duration - lag + 2 * gap) + 2 * gap <= Duration, where a lag
      beyond the Duration counts as the Duration. */
  lemma ClaimantsVersusDuration(c: Config, ss: seq<State>, es: seq<Event>, k: nat, t: int, d: int)
    requires IsRun(c, ss, es) && k < |ss|
    requires CommonDuration(c, d) && ChangesByExpiry(ss[k].hist)
    requires ss[k].now <= t
    ensures Room(c, d, |Claimants(ss[k], t)|)
  {
    var many := |Claimants(ss[k], t)|;
    if many >= 2 {
      VisibleSpaced(c, ss, es, k, d);
      ClaimantsLed(c, ss, es, k, t, d);
      SpacedChangesFit(Visible(c, ss[k]), t - d + c.gap, Tenure(c, d), t - c.gap, many);
      TimesIsProduct(many - 2, Tenure(c, d));
    }
  }

  lemma HistOrdered(c: Config, ss: seq<State>, es: seq<Event>, k: nat)
    requires IsRun(c, ss, es) && k < |ss|
    ensures Ordered(0, ss[k].hist)
  {
    InvAlongRun(c, ss, es, k);
    var h := ss[k].hist;
    forall i, j | 0 <= i < j < |h| ensures h[i].at <= h[j].at {
      assert h[i].at + c.gap <= h[j].at;
    }
  }

  /** Fewer claims need less room. */
  lemma FewerFit(c: Config, d: int, few: nat, many: nat)
    requires few <= many && Room(c, d, many)
    ensures Room(c, d, few)
  {
    if few >= 2 {
      TimesIsProduct(many - 2, Tenure(c, d));
      TimesIsProduct(few - 2, Tenure(c, d));
      TimesMonotone(few - 2, many - 2, Tenure(c, d));
    }
  }

  /** While the lag is less than four gaps never more than two: in particular when clock readings and
      fetches coincide and store writes take time. */
  lemma AtMostTwoClaimants(c: Config, ss: seq<State>, es: seq<Event>, k: nat, t: int, d: nat)
    requires IsRun(c, ss, es) && k < |ss| && ss[k].now <= t
    requires CommonDuration(c, d) && ChangesByExpiry(ss[k].hist)
    requires c.lag < 4 * c.gap
    ensures |Claimants(ss[k], t)| <= 2
  {
    ClaimantsVersusDuration(c, ss, es, k, t, d);
    if |Claimants(ss[k], t)| > 2 {
      FewerFit(c, d, 3, |Claimants(ss[k], t)|);
    }
  }

  /** A lag of up to half the Duration and three gaps admits a third claimant, and no more. */
  lemma AtMostThreeClaimants(c: Config, ss: seq<State>, es: seq<Event>, k: nat, t: int, d: nat)
    requires IsRun(c, ss, es) && k < |ss| && ss[k].now <= t
    requires CommonDuration(c, d) && ChangesByExpiry(ss[k].hist)
    requires 2 * c.lag < d + 6 * c.gap
    ensures |Claimants(ss[k], t)| <= 3
  {
    ClaimantsVersusDuration(c, ss, es, k, t, d);
    if |Claimants(ss[k], t)| > 3 {
      FewerFit(c, d, 4, |Claimants(ss[k], t)|);
    }
  }

  /** Two claimants at one instant, with whatever Durations and however leaders changed: the one with the
      older lease has one of at least two gaps. */
  lemma TwoClaimsNeedRoom(c: Config, s: State, a: Name, b: Name, t: int)
    requires Inv(c, s) && s.now <= t && a != b && Claims(s, a, t) && Claims(s, b, t)
    ensures a in c.durations && b in c.durations
    ensures 2 * c.gap <= c.durations[a] || 2 * c.gap <= c.durations[b]
  {
    var oa, i := ClaimSource(c, s, a, t);
    var ob, j := ClaimSource(c, s, b, t);
    if i < j {
      assert s.hist[i + 1].at <= s.hist[j].at;
    } else {
      assert s.hist[j + 1].at <= s.hist[i].at;
    }
  }

  // ---------- a timely holder is never displaced ----------

  /** At every step the stored lease is younger than its Duration (less the lag, plus the gap). */
  ghost predicate Timely(c: Config, ss: seq<State>, es: seq<Event>) {
    |ss| == |es| + 1 &&
    forall i {:trigger es[i]} | 0 <= i < |es| && ss[i].hist != [] :: es[i].at < FreeAt(c, ss[i].hist[|ss[i].hist| - 1])
  }

  predicate RemembersOnly(mem: Option<Observed>, leader: Name) {
    mem.Some? ==> mem.value.lease.leader == leader
  }

  /** Only `leader` has written, is remembered, or tries to replace an existing lease. */
  ghost predicate OnlyLeader(s: State, leader: Name) {
    && (forall i | 0 <= i < |s.hist| :: s.hist[i].lease.leader == leader)
    && (forall n | n in s.nodes :: RemembersOnly(s.nodes[n].mem, leader) && RemembersOnly(s.nodes[n].prior, leader))
    && (forall r | r in s.flight && r.base > 0 :: r.lease.leader == leader)
  }

  /** While the lease is young, a fetch makes nobody but the leader run. */
  lemma YoungLeaseNotTaken(c: Config, s: State, e: Event, leader: Name)
    requires Inv(c, s) && Enabled(c, s, e) && e.Fetch?
    requires s.hist != [] && OnlyLeader(s, leader) && e.at < FreeAt(c, s.hist[|s.hist| - 1])
    ensures e.n != leader ==> Step(c, s, e).flight == s.flight
  {
    var s' := Step(c, s, e);
    FetchMemOk(c, s, e);
    assert NodeOk(c, s, e.n) && NodeOk(c, s', e.n);
  }

  lemma TimelyFetch(c: Config, s: State, e: Event, leader: Name)
    requires Inv(c, s) && Enabled(c, s, e) && e.Fetch?
    requires s.hist != [] && OnlyLeader(s, leader) && e.at < FreeAt(c, s.hist[|s.hist| - 1])
    ensures OnlyLeader(FetchStep(c, s, e.n, e.at, e.rvn), leader)
  {
    assert NodeOk(c, s, e.n);
  }

  lemma TimelyStep(c: Config, s: State, e: Event, leader: Name)
    requires Inv(c, s) && Enabled(c, s, e)
    requires s.hist != [] && OnlyLeader(s, leader) && e.at < FreeAt(c, s.hist[|s.hist| - 1])
    ensures OnlyLeader(Step(c, s, e), leader)
  {
    if e.Fetch? {
      TimelyFetch(c, s, e, leader);
    }
  }

  ghost predicate NoLeaseSeen(s: State) {
    s.hist == [] && forall n | n in s.nodes :: s.nodes[n].mem.None? && s.nodes[n].prior.None?
  }

  ghost predicate OneLeader(s: State) {
    if s.hist == [] then NoLeaseSeen(s) else OnlyLeader(s, s.hist[0].lease.leader)
  }

  lemma OneLeaderStep(c: Config, s: State, e: Event)
    requires Inv(c, s) && Enabled(c, s, e) && OneLeader(s)
    requires s.hist != [] ==> e.at < FreeAt(c, s.hist[|s.hist| - 1])
    ensures OneLeader(Step(c, s, e))
  {
    if s.hist == [] {
    } else {
      TimelyStep(c, s, e, s.hist[0].lease.leader);
    }
  }

  lemma {:induction false} TimelyRun(c: Config, ss: seq<State>, es: seq<Event>, k: nat)
    requires IsRun(c, ss, es) && Timely(c, ss, es) && k < |ss|
    ensures OneLeader(ss[k])
  {
    if k > 0 {
      TimelyRun(c, ss, es, k - 1);
      TimelyNext(c, ss, es, k - 1);
    }
  }

  lemma TimelyNext(c: Config, ss: seq<State>, es: seq<Event>, i: nat)
    requires IsRun(c, ss, es) && Timely(c, ss, es) && i < |es| && OneLeader(ss[i])
    ensures OneLeader(ss[i + 1])
  {
    InvAlongRun(c, ss, es, i);
    assert Next(c, ss[i], es[i], ss[i + 1]);
    OneLeaderStep(c, ss[i], es[i]);
  }

  /** If the holder's refreshes keep the stored lease younger than its Duration, the stored leader
      never changes, no other node tries to replace an existing lease, and no other node ever
      answers IsLeader, whatever the polls, errors and restarts of the others. */
  lemma TimelyHolderStays(c: Config, ss: seq<State>, es: seq<Event>, j: nat, k: nat, t: int)
    requires IsRun(c, ss, es) && Timely(c, ss, es) && j <= k < |ss|
    requires ss[j].hist != []
    ensures var leader := ss[j].hist[0].lease.leader;
            && (forall i | 0 <= i < |ss[k].hist| :: ss[k].hist[i].lease.leader == leader)
            && (forall r | r in ss[k].flight && r.prev.Some? :: r.lease.leader == leader)
            && Claimants(ss[k], t) <= {leader}
  {
    TimelyRun(c, ss, es, k);
    InvAlongRun(c, ss, es, k);
    Monotone(c, ss, es, j, k);
    assert ss[k].hist[0] == ss[j].hist[0];
    forall r | r in ss[k].flight && r.prev.Some? ensures r.base > 0 {
      assert RequestOk(c, ss[k], r);
    }
  }

  // ---------- what becomes of a claim ----------

  /** A claim from memory survives the node's own fetch until its reply arrives: in every state up to
      the node's next step the node may still make it, whatever the fetch found. */
  lemma ClaimOutlivesFetch(c: Config, ss: seq<State>, es: seq<Event>, k: nat, j: nat, n: Name, t: int)
    requires IsRun(c, ss, es) && k < j < |ss| && es[k].Fetch? && es[k].n == n
    requires forall i | k < i < j :: !Touches(es[i], n)
    requires n in ss[k].nodes && IsLeader(ss[k].nodes[n].mem, n, t)
    ensures Claims(ss[j], n, t)
  {
    PriorKept(c, ss, es, k, j, n);
  }

  lemma {:induction false} PriorKept(c: Config, ss: seq<State>, es: seq<Event>, k: nat, j: nat, n: Name)
    requires IsRun(c, ss, es) && k < j < |ss| && es[k].Fetch? && es[k].n == n && n in ss[k].nodes
    requires forall i | k < i < j :: !Touches(es[i], n)
    ensures n in ss[j].nodes && ss[j].nodes[n].prior == ss[k].nodes[n].mem
  {
    assert Next(c, ss[j - 1], es[j - 1], ss[j]);
    if k + 1 < j {
      PriorKept(c, ss, es, k, j - 1, n);
    }
  }

  /** A node that starts anew, or whose fetch fails, has forgotten what it observed and claims nothing;
      its requests stay under way. */
  lemma ForgetsAndClaimsNothing(c: Config, ss: seq<State>, es: seq<Event>, k: nat, n: Name, t: int)
    requires IsRun(c, ss, es) && k < |es| && (es[k].Restart? || es[k].FetchError?) && es[k].n == n
    ensures n in ss[k + 1].nodes && ss[k + 1].nodes[n].mem == None && !Claims(ss[k + 1], n, t)
    ensures ss[k + 1].flight == ss[k].flight && ss[k + 1].hist == ss[k].hist
  {
    assert Next(c, ss[k], es[k], ss[k + 1]);
  }
}
