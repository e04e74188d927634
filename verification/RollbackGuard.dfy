/** The rollback guard as it is written, over whole runs: which transactions stay in the submitted
    list, and what clients can avoid so that the processor never throws. */
module RollbackGuards {
  import opened DbTypes
  import opened EngineLogs
  import opened EngineSteps
  import opened EngineInvariants
  import opened EngineProofs
  import opened EngineTheorems

  // ------------------------------------------------------------------
  // What is left behind
  // ------------------------------------------------------------------

  ghost function Behind(s: State, e: Event): set<int> {
    set t | t in s.submitted && LeavesBehind(s, e, t)
  }

  /** The submitted transactions that were rolled back since the last restart. */
  ghost function LeftBehind(s: State, es: seq<Event>): set<int> {
    if es == [] then {}
    else
      var n := |es| - 1;
      var p := Run(s, es[..n]);
      if !Happens(p, es[n]) then LeftBehind(s, es[..n])
      else if es[n].Restart? then {}
      else LeftBehind(s, es[..n]) + Behind(p, es[n])
  }

  /** A restart lists exactly the transactions that it makes active. */
  lemma RestartLeavesNone(s: State, order: seq<int>)
    requires Inv(s) && Enabled(s, Restart(order))
    ensures Stale(AfterRestart(s, order)) == {} && AfterRestart(s, order).pc == Idle
    ensures AfterRestart(s, order).queue == []
  {
    hide BookOf, Queueing, ConflictFree, Passed, Delivered, Counted, Documents, Durable;
    var r := AfterRestart(s, order);
    assert forall t | t in r.submitted :: t in r.active;
  }

  lemma StaleStep(s: State, e: Event)
    requires Inv(s) && Happens(s, e) && !e.Restart?
    ensures Stale(Step(s, e)) == Stale(s) + Behind(s, e)
  {
    hide Inv, Step, Enabled, EngineSteps.Known, Stale;
    var now, all := Stale(Step(s, e)), Stale(s) + Behind(s, e);
    forall t ensures t in now <==> t in all {
      StaleExactly(s, e, t);
      assert LeavesBehind(s, e, t) ==> t in Behind(s, e);
    }
  }

  /** In every run the inactive transactions in the submitted list are exactly the submitted ones
      that were rolled back, with the guard as it is written, since the last restart. */
  lemma {:induction false} StaleIsLeftBehind(repaired: bool, storages: nat, drivers: nat, es: seq<Event>)
    requires storages <= drivers
    ensures Stale(Reached(repaired, storages, drivers, es)) == LeftBehind(Initial(repaired, storages, drivers), es)
  {
    hide Inv, Step, Enabled, EngineSteps.Known, Stale, Behind;
    if es == [] {
      NothingStale(repaired, storages, drivers);
    } else {
      var n := |es| - 1;
      StaleIsLeftBehind(repaired, storages, drivers, es[..n]);
      ReachedInv(repaired, storages, drivers, es[..n]);
      var p := Reached(repaired, storages, drivers, es[..n]);
      if Happens(p, es[n]) {
        if es[n].Restart? {
          RestartStep(p, es[n]);
        } else {
          StaleStep(p, es[n]);
        }
      }
    }
  }

  lemma RestartStep(s: State, e: Event)
    requires Inv(s) && Happens(s, e) && e.Restart?
    ensures Stale(Step(s, e)) == {}
  {
    hide Inv, AfterRestart, Stale;
    RestartLeavesNone(s, e.order);
  }

  lemma NothingStale(repaired: bool, storages: nat, drivers: nat)
    ensures Stale(Initial(repaired, storages, drivers)) == {}
  {
  }

  // ------------------------------------------------------------------
  // What clients can avoid
  // ------------------------------------------------------------------

  /** A client calls `rollback` for a submitted transaction. */
  predicate RollsBackSubmitted(s: State, e: Event) {
    && e.Enqueue? && e.item.kind == Rollback
    && e.item.trid in s.active && s.active[e.item.trid].state == Submitted
  }

  /** In this run clients only roll back open transactions. */
  ghost predicate OnlyOpenRolledBack(s: State, es: seq<Event>) {
    forall i | 0 <= i < |es| :: Happens(Run(s, es[..i]), es[i]) ==> !RollsBackSubmitted(Run(s, es[..i]), es[i])
  }

  ghost predicate RollbacksOpen(s: State) {
    && (forall i | 0 <= i < |s.queue| && s.queue[i].kind == Rollback :: s.queue[i].trid !in s.submitted)
    && (s.pc.At? && s.pc.item.kind == Rollback ==> s.pc.item.trid !in s.submitted)
  }

  /** No rollback that is queued is one of a submitted transaction, so nothing is left behind. */
  ghost predicate Clean(s: State) {
    RollbacksOpen(s) && Stale(s) == {} && s.pc != Thrown
  }

  lemma CallKeepsRollbacksOpen(s: State, e: Event)
    requires Inv(s) && Happens(s, e) && RollbacksOpen(s) && !RollsBackSubmitted(s, e)
    requires !e.Work? && !e.Restart?
    ensures RollbacksOpen(Step(s, e))
  {
    hide Inv, BookOf;
    if e.Enqueue? && e.item.trid in s.active && e.item.kind == Rollback {
      OpenIsApart(s, e.item.trid);
    }
  }

  lemma WorkKeepsRollbacksOpen(s: State, found: bool)
    requires Inv(s) && Happens(s, Work(found)) && RollbacksOpen(s)
    ensures RollbacksOpen(AfterWork(s, found))
  {
    hide Queueing, LogAgrees, ConflictFree, Passed, Delivered, Counted, Documents, Durable, BookOf, Judge, EntryFor,
         Distinct;
    Working(s);
    QueueApart(s);
    SubmittedDistinct(s);
    Erased(s.submitted, s.pc.item.trid);
  }

  lemma OnlyWorkThrows(s: State, e: Event)
    requires Inv(s) && Happens(s, e) && s.pc != Thrown && !e.Work? && !e.Restart?
    ensures Step(s, e).pc != Thrown
  {
    hide Inv, BookOf;
  }

  lemma CleanStep(s: State, e: Event)
    requires Inv(s) && Happens(s, e) && Clean(s) && !RollsBackSubmitted(s, e)
    ensures Clean(Step(s, e))
  {
    hide Inv, AfterWork, AfterRestart, BookOf, Stale, RollbacksOpen;
    match e {
      case Restart(order) =>
        RestartLeavesNone(s, order);
        NothingQueued(AfterRestart(s, order));
      case Work(found) =>
        WorkKeepsRollbacksOpen(s, found);
        StaleStep(s, e);
        BehindIsSubmitted(s, e);
        if AfterWork(s, found).pc == Thrown {
          OnlySubmissionsThrow(s, found);
        }
      case _ =>
        CallKeepsRollbacksOpen(s, e);
        OnlyWorkThrows(s, e);
        StaleStep(s, e);
        BehindIsSubmitted(s, e);
    }
  }

  lemma NothingQueued(s: State)
    requires s.queue == [] && s.pc == Idle
    ensures RollbacksOpen(s)
  {
  }

  lemma BehindIsSubmitted(s: State, e: Event)
    requires RollbacksOpen(s)
    ensures Behind(s, e) == {}
  {
  }

  /** With the guard as it is written: as long as clients only roll back open transactions, the
      processor never throws and nothing inactive is listed as submitted, over any number of
      restarts. */
  lemma {:induction false} OpenRollbacksAreSafe(repaired: bool, storages: nat, drivers: nat, es: seq<Event>)
    requires storages <= drivers && OnlyOpenRolledBack(Initial(repaired, storages, drivers), es)
    ensures Clean(Reached(repaired, storages, drivers, es))
  {
    hide Inv, Step, Enabled, EngineSteps.Known, Clean, RollsBackSubmitted;
    if es == [] {
      InitiallyClean(repaired, storages, drivers);
    } else {
      var n := |es| - 1;
      var s := Initial(repaired, storages, drivers);
      forall i | 0 <= i < n
        ensures Happens(Run(s, es[..n][..i]), es[..n][i]) ==> !RollsBackSubmitted(Run(s, es[..n][..i]), es[..n][i])
      {
        assert es[..n][..i] == es[..i];
      }
      OpenRollbacksAreSafe(repaired, storages, drivers, es[..n]);
      ReachedInv(repaired, storages, drivers, es[..n]);
      if Happens(Run(s, es[..n]), es[n]) {
        CleanStep(Run(s, es[..n]), es[n]);
      }
    }
  }

  lemma InitiallyClean(repaired: bool, storages: nat, drivers: nat)
    ensures Clean(Initial(repaired, storages, drivers))
  {
  }
}
