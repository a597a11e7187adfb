/** A status whose compare-and-set was lost stays lost. */
module LostStatus {
  import opened Common
  import opened Reconcile

  /** No commit carries this UUID, and no request in flight could bring it. */
  ghost predicate Dead(s: State, uuid: Uuid) {
    && uuid in s.used
    && (forall i | 0 <= i < |s.hist| :: s.hist[i].status.uuid != uuid)
    && (forall r | r in s.flight :: r.status.uuid != uuid)
  }

  ghost predicate LostAreDead(s: State) {
    forall n | n in s.cycles && IsLost(s.cycles[n]) :: Dead(s, s.cycles[n].status.uuid)
  }

  lemma DeadStays(s: State, e: Event, uuid: Uuid)
    requires Enabled(s, e) && Dead(s, uuid)
    ensures Dead(Step(s, e), uuid)
  {
  }

  lemma LosingKills(s: State, r: Request)
    requires UuidsOk(s) && r in s.flight && !Matches(Current(s.hist), r.read.uuid)
    ensures Dead(DeliverStep(s, r), r.status.uuid)
  {
  }

  lemma LostAreDeadKept(s: State, e: Event)
    requires UuidsOk(s) && LostAreDead(s) && Enabled(s, e)
    ensures LostAreDead(Step(s, e))
  {
    var s' := Step(s, e);
    forall n | n in s'.cycles && IsLost(s'.cycles[n]) ensures Dead(s', s'.cycles[n].status.uuid) {
      if n in s.cycles && s'.cycles[n] == s.cycles[n] {
        DeadStays(s, e, s.cycles[n].status.uuid);
      } else {
        LosingKills(s, e.r);
      }
    }
  }

  lemma {:induction false} LostAreDeadAlongRun(c: Reads, ss: seq<State>, es: seq<Event>, i: nat)
    requires IsRun(c, ss, es) && i < |ss|
    ensures LostAreDead(ss[i])
  {
    if i > 0 {
      LostAreDeadAlongRun(c, ss, es, i - 1);
      LostAreDeadNext(c, ss, es, i - 1);
    }
  }

  lemma LostAreDeadNext(c: Reads, ss: seq<State>, es: seq<Event>, i: nat)
    requires IsRun(c, ss, es) && i < |es| && LostAreDead(ss[i])
    ensures LostAreDead(ss[i + 1])
  {
    InvAlongRun(c, ss, es, i);
    assert Next(ss[i], es[i], ss[i + 1]);
    LostAreDeadKept(ss[i], es[i]);
  }

  lemma {:induction false} DeadAlongRun(c: Reads, ss: seq<State>, es: seq<Event>, i: nat, j: nat, uuid: Uuid)
    requires IsRun(c, ss, es) && i <= j < |ss| && Dead(ss[i], uuid)
    ensures Dead(ss[j], uuid)
  {
    if i < j {
      DeadAlongRun(c, ss, es, i, j - 1, uuid);
      assert Next(ss[j - 1], es[j - 1], ss[j]);
      DeadStays(ss[j - 1], es[j - 1], uuid);
    }
  }

  /** The status that a lost cycle goes on to apply was never committed and never will be. */
  lemma LostStatusNeverCommitted(c: Reads, ss: seq<State>, es: seq<Event>, k: nat, j: nat, n: Name)
    requires IsRun(c, ss, es) && k < |ss| && j < |ss|
    requires IsLost(CycleOf(ss[k], n))
    ensures forall i | 0 <= i < |ss[j].hist| :: ss[j].hist[i].status.uuid != CycleOf(ss[k], n).status.uuid
  {
    var uuid := CycleOf(ss[k], n).status.uuid;
    LostAreDeadAlongRun(c, ss, es, k);
    assert Dead(ss[k], uuid);
    if k <= j {
      DeadAlongRun(c, ss, es, k, j, uuid);
    } else {
      HistoryGrows(c, ss, es, j, k);
    }
  }
}
