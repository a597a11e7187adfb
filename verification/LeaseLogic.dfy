/** The decision a node makes in one election round, as a function of what it remembers, what
    it fetched and its own clock (pgdaemon/election/election.go). */
module LeaseLogic {
  import opened Common

  datatype Lease = Lease(leader: Name, rvn: Uuid, duration: int)

  datatype Observed = Observed(lease: Lease, seen: int, timeLeft: int) {
    function Deadline(): int {
      seen + timeLeft
    }
  }

  datatype Comment =
    | NoLeader
    | FirstLease
    | Refreshing
    | NoChange
    | Updated
    | OwnExpired
    | OtherExpired

  datatype Evaluation = Evaluation(shouldRun: bool, lease: Option<Observed>, comment: Comment)

  predicate Expired(o: Option<Observed>) {
    o.None? || o.value.timeLeft <= 0
  }

  function Evaluate(prev: Option<Observed>, lease: Option<Lease>, me: Name, now: int): Evaluation {
    match lease
    case None => Evaluation(true, None, NoLeader)
    case Some(l) =>
      var first := Observed(l, now, l.duration);
      if prev.None? then
        Evaluation(false, Some(first), FirstLease)
      else if prev.value.lease.leader == me then
        Evaluation(true, Some(first), Refreshing)
      else
        var same := prev.value.lease.rvn == l.rvn;
        var o := if same then first.(timeLeft := prev.value.timeLeft - (now - prev.value.seen)) else first;
        if Expired(Some(o)) then
          Evaluation(true, Some(o), if l.leader == me then OwnExpired else OtherExpired)
        else
          Evaluation(false, Some(o), if same then NoChange else Updated)
  }

  /** IsLeader: a claim is judged from the remembered observation and the local clock alone. */
  predicate IsLeader(mem: Option<Observed>, me: Name, now: int) {
    && mem.Some?
    && mem.value.lease.leader == me
    && now - mem.value.seen <= mem.value.lease.duration
  }

  /** The RVN that a round's compare-and-set expects, given what it observed. */
  function PrevRvn(o: Option<Observed>): Option<Uuid> {
    if o.None? then None else Some(o.value.lease.rvn)
  }

  /** The backend's compare: no previous RVN means that no lease may exist yet. */
  predicate Matches(stored: Option<Lease>, prev: Option<Uuid>) {
    if prev.None? then stored.None? else stored.Some? && stored.value.rvn == prev.value
  }

  // ---------- what one decision means ----------

  /** A node that remembers something runs against an existing lease exactly when it believes
      it held the lease itself or when the absolute deadline it remembers has passed. */
  lemma RunsExactlyWhen(prev: Observed, l: Lease, me: Name, now: int)
    requires l.duration > 0
    ensures Evaluate(Some(prev), Some(l), me, now).shouldRun <==>
              prev.lease.leader == me || (prev.lease.rvn == l.rvn && prev.Deadline() <= now)
  {
    var e := Evaluate(Some(prev), Some(l), me, now);
    if prev.lease.leader != me && prev.lease.rvn == l.rvn {
      assert e.lease.value.timeLeft == prev.Deadline() - now;
    }
  }

  /** Everything an evaluation yields.  It remembers what was fetched, when, and until when it counts: a
      lease that another node held before keeps its deadline, any other starts a full Duration.  It
      runs if there is no lease, if the remembered one was the node's own, or if a deadline has
      passed; a first observation only watches. */
  lemma EvaluationMeaning(prev: Option<Observed>, lease: Option<Lease>, me: Name, now: int)
    ensures var e := Evaluate(prev, lease, me, now);
            var held := prev.Some? && prev.value.lease.leader == me;
            var known := prev.Some? && !held && lease.Some? && prev.value.lease.rvn == lease.value.rvn;
            var deadline := if known then prev.value.Deadline()
                            else if lease.Some? then now + lease.value.duration else now;
            && (lease.None? ==> e.lease.None?)
            && (lease.Some? ==> e.lease.Some? && e.lease.value.lease == lease.value && e.lease.value.seen == now
                                && e.lease.value.Deadline() == deadline)
            && (e.shouldRun <==> lease.None? || held || (prev.Some? && deadline <= now))
            && (e.comment == NoLeader <==> lease.None?)
            && (e.comment == FirstLease <==> lease.Some? && prev.None?)
            && (e.comment == Refreshing <==> lease.Some? && held)
            && (e.comment == NoChange <==> known && now < deadline)
            && (e.comment == Updated <==> lease.Some? && prev.Some? && !held && !known && now < deadline)
            && (e.comment == OwnExpired <==>
                  lease.Some? && prev.Some? && !held && deadline <= now && lease.value.leader == me)
            && (e.comment == OtherExpired <==>
                  lease.Some? && prev.Some? && !held && deadline <= now && lease.value.leader != me)
  {
    if lease.Some? && prev.Some? && prev.value.lease.leader != me {
      var o := Evaluate(prev, lease, me, now).lease.value;
      assert Expired(Some(o)) <==> o.Deadline() <= now;
    }
  }

  /** Polling repeatedly while the store keeps returning the same lease. */
  function PollAll(prev: Option<Observed>, l: Lease, me: Name, times: seq<int>): Evaluation
    requires times != []
  {
    var last := |times| - 1;
    if last == 0 then
      Evaluate(prev, Some(l), me, times[0])
    else
      Evaluate(PollAll(prev, l, me, times[..last]).lease, Some(l), me, times[last])
  }

  /** The incrementally updated timeLeft refines an absolute deadline: however a non-holder's
      polls are spread, the time left is Duration minus the time since the RVN was first seen, and
      the node runs exactly when that elapsed time reaches Duration. */
  lemma {:induction false} TimeLeftIsAbsolute(prev: Option<Observed>, l: Lease, me: Name, times: seq<int>)
    requires times != []
    requires l.duration > 0 && l.leader != me
    requires prev.Some? ==> prev.value.lease.leader != me && prev.value.lease.rvn != l.rvn
    ensures var e := PollAll(prev, l, me, times);
            var elapsed := times[|times| - 1] - times[0];
            && e.lease == Some(Observed(l, times[|times| - 1], l.duration - elapsed))
            && (e.shouldRun <==> elapsed >= l.duration)
            && (Expired(e.lease) <==> elapsed >= l.duration)
  {
    var last := |times| - 1;
    if last > 0 {
      TimeLeftIsAbsolute(prev, l, me, times[..last]);
      assert times[..last][|times[..last]| - 1] == times[last - 1];
    }
  }

  function Shift(o: Option<Observed>, k: int): Option<Observed> {
    if o.None? then None else Some(o.value.(seen := o.value.seen + k))
  }

  /** Only differences of one node's clock readings matter: moving the node's clock by any constant
      changes neither its decisions nor its claims.  This is why the protocol below may read
      every node's clock off one time line. */
  lemma ClockOffsetIrrelevant(prev: Option<Observed>, lease: Option<Lease>, me: Name, now: int, k: int)
    ensures var e := Evaluate(prev, lease, me, now);
            Evaluate(Shift(prev, k), lease, me, now + k) == e.(lease := Shift(e.lease, k))
    ensures IsLeader(Shift(prev, k), me, now + k) == IsLeader(prev, me, now)
  {
    if prev.Some? {
      assert now + k - Shift(prev, k).value.seen == now - prev.value.seen;
    }
  }
}
