/** The Election object of election.go: a method that overwrites lastObservedLease and compares
    and sets the backend's lease, and its refinement of the protocol's steps. */
module ElectionClass {
  import opened Common
  import opened LeaseLogic
  import opened ElectionProtocol

  /** What a successful or failed compare-and-set leaves in the backend. */
  function Swap(stored: Option<Lease>, prev: Option<Uuid>, lease: Lease): Option<Lease> {
    if Matches(stored, prev) then Some(lease) else stored
  }

  datatype Attempt = Attempt(prev: Option<Uuid>, lease: Lease)

  function AfterAttempts(stored: Option<Lease>, attempts: seq<Attempt>): Option<Lease> {
    if attempts == [] then stored
    else
      var last := attempts[|attempts| - 1];
      Swap(AfterAttempts(stored, attempts[..|attempts| - 1]), last.prev, last.lease)
  }

  /** What happens around one round: whether its fetch fails, which compare-and-sets of other
      nodes the backend processes between its fetch and its own, and how its own fares. */
  datatype Environment = Environment(fetchFails: bool, others: seq<Attempt>, fault: Fault)

  datatype Outcome = DidNotRun | WonElection | LostRace

  datatype Error = BadDuration | FetchFailed | CasFailed

  class LeaseBackend {
    var lease: Option<Lease>

    constructor ()
      ensures lease == None
    {
      lease := None;
    }

    method FetchCurrentLease(fails: bool) returns (r: Result<Option<Lease>, Error>)
      ensures r == if fails then Err(FetchFailed) else Ok(lease)
    {
      r := if fails then Err(FetchFailed) else Ok(lease);
    }

    method AtomicCompareAndSwapLease(prev: Option<Uuid>, newLease: Lease, fault: Fault) returns (r: Result<bool, Error>)
      modifies this
      ensures lease == if fault.NeverArrived? then old(lease) else Swap(old(lease), prev, newLease)
      ensures r == if fault.Answered? then Ok(Matches(old(lease), prev)) else Err(CasFailed)
    {
      var won := Matches(lease, prev);
      if won && !fault.NeverArrived? {
        lease := Some(newLease);
      }
      r := if fault.Answered? then Ok(won) else Err(CasFailed);
    }

    /** Other nodes' requests, in the order the backend processes them. */
    method Serve(attempts: seq<Attempt>)
      modifies this
      ensures lease == AfterAttempts(old(lease), attempts)
    {
      var i := 0;
      while i < |attempts|
        invariant 0 <= i <= |attempts|
        invariant lease == AfterAttempts(old(lease), attempts[..i])
      {
        assert attempts[..i + 1][..i] == attempts[..i];
        if Matches(lease, attempts[i].prev) {
          lease := Some(attempts[i].lease);
        }
        i := i + 1;
      }
      assert attempts[..i] == attempts;
    }
  }

  /** After the others' requests the backend still holds the lease fetched, or still none. */
  predicate Finds(fetched: Option<Lease>, others: seq<Attempt>) {
    var met := AfterAttempts(fetched, others);
    if fetched.None? then met.None? else met.Some? && met.value.rvn == fetched.value.rvn
  }

  /** What the backend holds after a round that fetched `fetched`, evaluated to e, met `others` on
      the way and sent its own request, if it ran. */
  function AfterRound(fetched: Option<Lease>, q: Option<Request>, env: Environment): Option<Lease> {
    var met := AfterAttempts(fetched, env.others);
    if q.None? || env.fault.NeverArrived? then met else Swap(met, q.value.prev, q.value.lease)
  }

  /** The outcome of one round of node n that read its clock at `now`.  It answers that it did not run, that
      it does not know how its request fared, or whether the backend, as the others left it, still held
      the lease it had fetched. */
  ghost predicate RoundDone(memBefore: Option<Observed>, leaseBefore: Option<Lease>, memAfter: Option<Observed>,
                            leaseAfter: Option<Lease>, r: Result<Outcome, Error>, n: Name, duration: int, now: int,
                            rvn: Uuid, env: Environment)
  {
    if env.fetchFails then
      r == Err(FetchFailed) && memAfter == None && leaseAfter == leaseBefore
    else
      var e := Evaluate(memBefore, leaseBefore, n, now);
      var q := RoundRequest(e, n, duration, rvn, 0);
      && memAfter == e.lease
      && leaseAfter == AfterRound(leaseBefore, q, env)
      && (r == Ok(DidNotRun) <==> !e.shouldRun)
      && (r == Err(CasFailed) <==> e.shouldRun && !env.fault.Answered?)
      && (r == Ok(WonElection) <==> e.shouldRun && env.fault.Answered? && Finds(leaseBefore, env.others))
      && (r == Ok(LostRace) <==> e.shouldRun && env.fault.Answered? && !Finds(leaseBefore, env.others))
  }

  class Election {
    const nodeName: Name
    const leaseDuration: int
    var lastObservedLease: Option<Observed>

    constructor Create(nodeName: Name, leaseDuration: int)
      requires leaseDuration > 0
      ensures this.nodeName == nodeName && this.leaseDuration == leaseDuration
      ensures lastObservedLease == None
    {
      this.nodeName := nodeName;
      this.leaseDuration := leaseDuration;
      this.lastObservedLease := None;
    }

    static method New(nodeName: Name, leaseDuration: int) returns (r: Result<Election, Error>)
      ensures r.Err? <==> leaseDuration <= 0
      ensures r.Ok? ==> fresh(r.value) && r.value.nodeName == nodeName && r.value.leaseDuration == leaseDuration
                        && r.value.lastObservedLease == None
    {
      if leaseDuration <= 0 {
        return Err(BadDuration);
      }
      var e := new Election.Create(nodeName, leaseDuration);
      r := Ok(e);
    }

    /** One round.  `now` was read before the fetch; `rvn` is the identifier makeUuid would draw. */
    method RunInner(backend: LeaseBackend, now: int, rvn: Uuid, env: Environment) returns (r: Result<Outcome, Error>)
      modifies this`lastObservedLease, backend
      ensures RoundDone(old(lastObservedLease), old(backend.lease), lastObservedLease, backend.lease, r,
                        nodeName, leaseDuration, now, rvn, env)
    {
      var fetched := backend.FetchCurrentLease(env.fetchFails);
      if fetched.Err? {
        lastObservedLease := None;
        return Err(fetched.error);
      }

      var result := Evaluate(lastObservedLease, fetched.value, nodeName, now);
      lastObservedLease := result.lease;
      backend.Serve(env.others);

      if !result.shouldRun {
        return Ok(DidNotRun);
      }
      var newLease := Lease(nodeName, rvn, leaseDuration);
      var prevRvn := None;
      if lastObservedLease.Some? {
        prevRvn := Some(lastObservedLease.value.lease.rvn);
      }
      var won := backend.AtomicCompareAndSwapLease(prevRvn, newLease, env.fault);
      if won.Err? {
        return Err(won.error);
      }
      r := Ok(if won.value then WonElection else LostRace);
    }

    method IsLeader(now: int) returns (b: bool)
      ensures b <==> (lastObservedLease.Some? && lastObservedLease.value.lease.leader == nodeName
                    && now <= lastObservedLease.value.seen + lastObservedLease.value.lease.duration)
    ensures b <==> LeaseLogic.IsLeader(lastObservedLease, nodeName, now)
    {
      if lastObservedLease.None? {
        return false;
      }
      if lastObservedLease.value.lease.leader != nodeName {
        return false;
      }
      if now - lastObservedLease.value.seen > lastObservedLease.value.lease.duration {
        return false;
      }
      return true;
    }
  }

  // ---------- the method refines the protocol ----------

  /** The compare-and-sets among events es[i..j], as the backend sees them. */
  function Attempts(es: seq<Event>): seq<Attempt> {
    if es == [] then []
    else
      var rest := Attempts(es[..|es| - 1]);
      var e := es[|es| - 1];
      if e.Deliver? then rest + [Attempt(e.r.prev, e.r.lease)] else rest
  }

  lemma AttemptsOneMore(stored: Option<Lease>, es: seq<Event>, i: nat, j: nat)
    requires i <= j < |es|
    ensures AfterAttempts(stored, Attempts(es[i..j + 1]))
            == var met := AfterAttempts(stored, Attempts(es[i..j]));
               if es[j].Deliver? then Swap(met, es[j].r.prev, es[j].r.lease) else met
  {
    var longer := es[i..j + 1];
    assert longer[..|longer| - 1] == es[i..j];
    assert longer[|longer| - 1] == es[j];
    var rest := Attempts(es[i..j]);
    if es[j].Deliver? {
      assert (rest + [Attempt(es[j].r.prev, es[j].r.lease)])[..|rest|] == rest;
    }
  }

  /** Between two points of a run the store changes as the delivered attempts say. */
  lemma {:induction false} StoreFollowsAttempts(c: Config, ss: seq<State>, es: seq<Event>, i: nat, j: nat)
    requires IsRun(c, ss, es) && i <= j < |ss|
    ensures Stored(ss[j].hist) == AfterAttempts(Stored(ss[i].hist), Attempts(es[i..j]))
  {
    if i == j {
      assert es[i..j] == [];
    } else {
      StoreFollowsAttempts(c, ss, es, i, j - 1);
      StoreNext(c, ss, es, i, j - 1);
    }
  }

  lemma StoreNext(c: Config, ss: seq<State>, es: seq<Event>, i: nat, j: nat)
    requires IsRun(c, ss, es) && i <= j < |es|
    requires Stored(ss[j].hist) == AfterAttempts(Stored(ss[i].hist), Attempts(es[i..j]))
    ensures Stored(ss[j + 1].hist) == AfterAttempts(Stored(ss[i].hist), Attempts(es[i..j + 1]))
  {
    AttemptsOneMore(Stored(ss[i].hist), es, i, j);
  }

  /** The request that the fetch e sends in state s, if it runs for election. */
  function SentBy(c: Config, s: State, e: Event): Option<Request>
    requires e.Fetch? && e.n in s.nodes && e.n in c.durations && s.nodes[e.n].phase.Started?
  {
    var evaluated := Evaluate(s.nodes[e.n].mem, Stored(s.hist), e.n, s.nodes[e.n].phase.clock);
    RoundRequest(evaluated, e.n, c.durations[e.n], e.rvn, |s.hist|)
  }

  /** The surroundings of a round in a run: it fetches at f and is over at d, which is when its request is
      processed, if it sends one and that arrives; the others' deliveries in between are `others`. */
  ghost predicate IsRound(c: Config, ss: seq<State>, es: seq<Event>, n: Name, f: nat, d: nat, env: Environment) {
    && |ss| == |es| + 1 && f < d <= |es|
    && (es[f].Fetch? || es[f].FetchError?) && es[f].n == n
    && n in ss[f].nodes && n in c.durations && ss[f].nodes[n].phase.Started?
    && env.others == Attempts(es[f + 1..d])
    && (env.fetchFails <==> es[f].FetchError?)
    && (es[f].FetchError? ==> d == f + 1)
    && (Processed(c, ss, es, f, env) ==>
          d < |es| && es[d].Deliver? && es[d].r == SentBy(c, ss[f], es[f]).value)
  }

  ghost predicate Processed(c: Config, ss: seq<State>, es: seq<Event>, f: nat, env: Environment)
    requires |ss| == |es| + 1 && f < |es|
    requires es[f].Fetch? ==> es[f].n in ss[f].nodes && es[f].n in c.durations && ss[f].nodes[es[f].n].phase.Started?
  {
    es[f].Fetch? && SentBy(c, ss[f], es[f]).Some? && !env.fault.NeverArrived?
  }

  /** The fetch at f sent a request, and its answer came back. */
  ghost predicate GotAnswer(ss: seq<State>, f: nat, env: Environment)
    requires f + 1 < |ss|
  {
    ss[f + 1].flight != ss[f].flight && env.fault.Answered?
  }

  /** A fetch changes the requests in flight exactly if it runs for election. */
  lemma SendingShows(c: Config, ss: seq<State>, es: seq<Event>, f: nat)
    requires IsRun(c, ss, es) && f < |es| && es[f].Fetch?
    ensures es[f].n in ss[f].nodes && es[f].n in c.durations && ss[f].nodes[es[f].n].phase.Started?
    ensures ss[f + 1].flight != ss[f].flight <==> SentBy(c, ss[f], es[f]).Some?
  {
    InvAlongRun(c, ss, es, f);
    assert Next(c, ss[f], es[f], ss[f + 1]);
    var r := SentBy(c, ss[f], es[f]);
    assert r.Some? ==> r.value !in ss[f].flight;
  }

  /** What the run does to memory and store. */
  lemma RoundEffect(c: Config, ss: seq<State>, es: seq<Event>, n: Name, f: nat, d: nat, env: Environment,
                    rvn: Uuid, memAfter: Option<Observed>, leaseAfter: Option<Lease>, r: Result<Outcome, Error>)
    requires IsRun(c, ss, es) && IsRound(c, ss, es, n, f, d, env) && (es[f].Fetch? ==> rvn == es[f].rvn)
    requires RoundDone(ss[f].nodes[n].mem, Stored(ss[f].hist), memAfter, leaseAfter, r,
                       n, c.durations[n], ss[f].nodes[n].phase.clock, rvn, env)
    ensures n in ss[f + 1].nodes && memAfter == ss[f + 1].nodes[n].mem
    ensures leaseAfter == Stored(ss[if Processed(c, ss, es, f, env) then d + 1 else d].hist)
  {
    assert Next(c, ss[f], es[f], ss[f + 1]);
    if es[f].Fetch? {
      StoreFollowsAttempts(c, ss, es, f + 1, d);
      if Processed(c, ss, es, f, env) {
        assert Next(c, ss[d], es[d], ss[d + 1]);
      }
    }
  }

  /** The comparison finds what it expects exactly if the run adds the write. */
  lemma FindsIffAdded(c: Config, ss: seq<State>, es: seq<Event>, n: Name, f: nat, d: nat, env: Environment)
    requires IsRun(c, ss, es) && IsRound(c, ss, es, n, f, d, env) && Processed(c, ss, es, f, env)
    ensures d < |es|
    ensures Finds(Stored(ss[f].hist), env.others) ==> |ss[d + 1].hist| == |ss[d].hist| + 1
    ensures !Finds(Stored(ss[f].hist), env.others) ==> ss[d + 1].hist == ss[d].hist
    ensures Finds(Stored(ss[f].hist), env.others) ==>
              Stored(ss[d + 1].hist) == Some(Lease(n, es[f].rvn, c.durations[n]))
  {
    assert Next(c, ss[f], es[f], ss[f + 1]);
    StoreFollowsAttempts(c, ss, es, f + 1, d);
    assert Next(c, ss[d], es[d], ss[d + 1]);
  }

  /** runInner refines the protocol.  For every round of a run, whether its fetch fails, it does not run
      for election, its request is lost or its reply is, or it wins or loses, whatever the method's
      contract allows in these surroundings is what the run does: the node's memory, the stored lease
      and each answer, in particular a win exactly when the answer came and the run added the write. */
  lemma RoundRefinesProtocol(c: Config, ss: seq<State>, es: seq<Event>, n: Name, f: nat, d: nat, env: Environment,
                             rvn: Uuid, memAfter: Option<Observed>, leaseAfter: Option<Lease>,
                             r: Result<Outcome, Error>)
    requires IsRun(c, ss, es) && IsRound(c, ss, es, n, f, d, env) && (es[f].Fetch? ==> rvn == es[f].rvn)
    requires RoundDone(ss[f].nodes[n].mem, Stored(ss[f].hist), memAfter, leaseAfter, r,
                       n, c.durations[n], ss[f].nodes[n].phase.clock, rvn, env)
    ensures n in ss[f + 1].nodes && memAfter == ss[f + 1].nodes[n].mem
    ensures leaseAfter == Stored(ss[if Processed(c, ss, es, f, env) then d + 1 else d].hist)
    ensures r == Err(FetchFailed) <==> es[f].FetchError?
    ensures r == Ok(DidNotRun) <==> es[f].Fetch? && ss[f + 1].flight == ss[f].flight
    ensures r == Err(CasFailed) <==> ss[f + 1].flight != ss[f].flight && !env.fault.Answered?
    ensures r == Ok(WonElection) <==> GotAnswer(ss, f, env) && d < |es| && |ss[d + 1].hist| == |ss[d].hist| + 1
    ensures r == Ok(LostRace) <==> GotAnswer(ss, f, env) && d < |es| && ss[d + 1].hist == ss[d].hist
    ensures r == Ok(WonElection) ==> leaseAfter == Some(Lease(n, rvn, c.durations[n]))
  {
    RoundEffect(c, ss, es, n, f, d, env, rvn, memAfter, leaseAfter, r);
    assert Next(c, ss[f], es[f], ss[f + 1]);
    if es[f].Fetch? {
      SendingShows(c, ss, es, f);
      if Processed(c, ss, es, f, env) {
        FindsIffAdded(c, ss, es, n, f, d, env);
      }
    }
  }
}
