/** What the invariant means for clients, drivers and recovery. All statements are about every
    run from the empty engine, across any number of restarts. */
module EngineTheorems {
  import opened DbTypes
  import opened EngineLogs
  import opened EngineSteps
  import opened EngineInvariants
  import opened EngineProofs

  // ------------------------------------------------------------------
  // Conflicts, queue items and the rollback guard
  // ------------------------------------------------------------------

  /** The states that the engine can get into. */
  ghost function Reached(repaired: bool, storages: nat, drivers: nat, es: seq<Event>): State {
    Run(Initial(repaired, storages, drivers), es)
  }

  lemma ReachedInv(repaired: bool, storages: nat, drivers: nat, es: seq<Event>)
    requires storages <= drivers
    ensures Inv(Reached(repaired, storages, drivers, es))
  {
    InitialInv(repaired, storages, drivers);
    RunInv(Initial(repaired, storages, drivers), es);
  }

  /** No submitted transaction modifies a document that another one, by a constraint, wants unchanged. */
  lemma ConflictFreedom(repaired: bool, storages: nat, drivers: nat, es: seq<Event>, a: int, b: int, m: int, c: int)
    requires storages <= drivers && a != b
    requires var s := Reached(repaired, storages, drivers, es);
             && a in s.submitted && b in s.submitted && a in s.active && b in s.active
             && 0 <= m < |s.active[a].mutations| && 0 <= c < |s.active[b].constraints|
    ensures var s := Reached(repaired, storages, drivers, es);
            !(&& s.active[a].mutations[m].kind == MutationType.Modify
              && s.active[b].constraints[c].matchSequenceId
              && s.active[b].constraints[c].documentId == s.active[a].mutations[m].documentId)
  {
    ReachedInv(repaired, storages, drivers, es);
    var s := Reached(repaired, storages, drivers, es);
    assert Agree(s.active[a], s.active[b]);
    assert Compatible(s.active[a].mutations[m], s.active[b].constraints[c]);
  }

  lemma StepKeepsGuard(s: State, e: Event)
    requires Happens(s, e)
    ensures Step(s, e).repaired == s.repaired
  {
    hide Judge, EntryFor, BookOf, Outstanding, Holds;
  }

  lemma {:induction false} RunKeepsGuard(s: State, es: seq<Event>)
    ensures Run(s, es).repaired == s.repaired
  {
    hide Enabled, Step;
    if es != [] {
      RunKeepsGuard(s, es[..|es| - 1]);
      var p := Run(s, es[..|es| - 1]);
      if Happens(p, es[|es| - 1]) {
        StepKeepsGuard(p, es[|es| - 1]);
      }
    }
  }

  /** With the guard repaired the processor never throws, every queued item finds its
      transaction, every queued commit finds it submitted, and no transaction has two items. */
  lemma SubmitGuaranteesCommit(storages: nat, drivers: nat, es: seq<Event>)
    requires storages <= drivers
    ensures var s := Reached(true, storages, drivers, es);
            var items := Items(s.pc, s.queue);
            && s.pc != Thrown
            && (forall t | t in s.submitted :: t in s.active)
            && (forall i | 0 <= i < |items| :: Waiting(s.active, s.submitted, items[i]))
            && (forall i, j | 0 <= i < j < |items| :: items[i].trid != items[j].trid)
  {
    ReachedInv(true, storages, drivers, es);
    RunKeepsGuard(Initial(true, storages, drivers), es);
    var s := Reached(true, storages, drivers, es);
    assert forall t | t in s.submitted :: Listed(s.active, s.pc, s.repaired, t);
  }

  /** Listed transactions that are no longer active. */
  ghost function Stale(s: State): set<int> {
    set t | t in s.submitted && t !in s.active
  }

  /** Whether a step rolls back a submitted transaction without taking it off the list. */
  ghost predicate LeavesBehind(s: State, e: Event, t: int) {
    && !s.repaired && e.Work? && s.pc.At? && s.pc.phase == Taken && s.pc.item == QueueItem(Rollback, t)
    && t in s.submitted
  }

  /** An inactive transaction gets into the submitted list exactly when one that was submitted
      is rolled back: then the guard, as it is written, never takes it off. */
  lemma StaleExactly(s: State, e: Event, t: int)
    requires Inv(s) && Happens(s, e) && !e.Restart?
    ensures t in Stale(Step(s, e)) <==> t in Stale(s) || LeavesBehind(s, e, t)
  {
    hide Inv, BookOf;
    match e {
      case Begin => FreshId(s);
      case Work(found) =>
        StaleWork(s, found, t);
      case _ =>
    }
  }

  lemma SubmittedDistinct(s: State)
    requires Queueing(s.active, s.submitted, s.queue, s.pc, s.nextTransactId, s.repaired)
    ensures Distinct(s.submitted) && (forall t | t in s.active && s.active[t].state == Submitted :: t in s.submitted)
  {
  }

  lemma StaleTaken(s: State, t: int)
    requires Inv(s) && s.pc.At? && s.pc.phase == Taken && Known(s)
    ensures t in Stale(AfterWork(s, true)) <==> t in Stale(s) || LeavesBehind(s, Work(true), t)
  {
    hide Queueing, LogAgrees, ConflictFree, Passed, Delivered, Counted, Documents, Durable, BookOf, Judge, EntryFor,
         Distinct;
    Working(s);
    SubmittedDistinct(s);
    Erased(s.submitted, s.pc.item.trid);
  }

  lemma StaleLater(s: State, found: bool, t: int)
    requires Inv(s) && s.pc.At? && s.pc.phase in {Checking, Logging, AfterLog} && Known(s)
    ensures t in Stale(AfterWork(s, found)) <==> t in Stale(s)
  {
    hide Queueing, LogAgrees, ConflictFree, Passed, Delivered, Counted, Documents, Durable, BookOf, Judge, EntryFor,
         Distinct;
    Working(s);
    SubmittedDistinct(s);
    ProperLogging(s);
  }

  lemma StaleDelivering(s: State, found: bool, t: int)
    requires Inv(s) && s.pc.At? && s.pc.phase == Delivering && Known(s)
    ensures t in Stale(AfterWork(s, found)) <==> t in Stale(s)
  {
    hide Queueing, LogAgrees, ConflictFree, Passed, Delivered, Counted, Documents, Durable, BookOf, Judge, EntryFor,
         Distinct;
    Working(s);
    SubmittedDistinct(s);
    Erased(s.submitted, s.pc.item.trid);
  }

  lemma StaleWork(s: State, found: bool, t: int)
    requires Inv(s) && Happens(s, Work(found))
    ensures t in Stale(AfterWork(s, found)) <==> t in Stale(s) || LeavesBehind(s, Work(found), t)
  {
    hide Inv, Stale;
    match s.pc.phase {
      case Taken =>
        StaleTaken(s, t);
        assert AfterWork(s, found) == AfterWork(s, true);
      case Delivering => StaleDelivering(s, found, t);
      case _ => StaleLater(s, found, t);
    }
  }

  /** A submission makes the processor throw exactly when its scan comes to a stale transaction
      before it finds a conflict. */
  lemma ThrowsExactly(s: State, found: bool)
    requires Inv(s) && s.pc.At? && s.pc.phase == Taken && QueuedState(s.pc.item.kind) == InSubmit
    requires s.pc.item.trid in s.active
    ensures AfterWork(s, found).pc == Thrown <==>
            exists i :: 0 <= i < |s.submitted| && ThrowsAt(s.active, s.submitted, s.active[s.pc.item.trid], i)
  {
    JudgeMeans(s.active, s.submitted, s.active[s.pc.item.trid]);
    Working(s);
  }

  /** Once the scan has passed, the processor does not throw. */
  lemma LaterNeverThrows(s: State, found: bool)
    requires Inv(s) && Happens(s, Work(found)) && s.pc.phase != Taken
    ensures AfterWork(s, found).pc != Thrown
  {
    hide LogAgrees, ConflictFree, Passed, Delivered, Counted, Documents, Durable, BookOf, EntryFor, Erase;
    Working(s);
    ProperLogging(s);
    if s.pc.phase == Delivering {
      DeliveringListed(s);
    }
  }

  lemma TakenThrows(s: State, found: bool)
    requires Inv(s) && s.pc.At? && s.pc.phase == Taken && Known(s)
    ensures s.pc.item.trid in s.active
    ensures AfterWork(s, found).pc == Thrown ==>
              && QueuedState(s.pc.item.kind) == InSubmit
              && Judge(s.active, s.submitted, s.active[s.pc.item.trid]) == IllegalAt
  {
    hide LogAgrees, ConflictFree, Passed, Delivered, Counted, Documents, Durable, BookOf, Judge, Erase;
    Working(s);
  }

  /** Rollbacks and commits of the processor never throw: it happens only in submissions. */
  lemma OnlySubmissionsThrow(s: State, found: bool)
    requires Inv(s) && Happens(s, Work(found)) && AfterWork(s, found).pc == Thrown
    ensures s.pc.phase == Taken && QueuedState(s.pc.item.kind) == InSubmit && s.pc.item.trid in s.active
            && Stale(s) != {}
  {
    hide Inv, AfterWork, Judge, Agree;
    if s.pc.phase != Taken {
      LaterNeverThrows(s, found);
    } else {
      TakenThrows(s, found);
      JudgeMeans(s.active, s.submitted, s.active[s.pc.item.trid]);
      var i :| 0 <= i < |s.submitted| && ThrowsAt(s.active, s.submitted, s.active[s.pc.item.trid], i);
      assert s.submitted[i] in Stale(s);
    }
  }

  /** The first submitted transaction that does not pass decides the verdict: an inactive one
      throws, one whose mutations violate a constraint of the new transaction is a constraint
      conflict, and one whose constraints the new transaction violates a mutation conflict. */
  lemma {:induction false} FirstDecides(active: map<int, Transaction>, submitted: seq<int>, t: Transaction, i: nat)
    requires i < |submitted| && forall j | 0 <= j < i :: submitted[j] in active && Agree(active[submitted[j]], t)
    requires submitted[i] in active ==> !Agree(active[submitted[i]], t)
    ensures Judge(active, submitted, t) ==
            if submitted[i] !in active then IllegalAt
            else if !AllCompatible(active[submitted[i]].mutations, t.constraints) then ConstraintConflict
            else MutationConflict
  {
    if i > 0 {
      hide AllCompatible;
      assert submitted[0] in active && Agree(active[submitted[0]], t);
      forall j | 0 <= j < i - 1 ensures submitted[1..][j] in active && Agree(active[submitted[1..][j]], t) {
        assert submitted[1..][j] == submitted[j + 1];
      }
      FirstDecides(active, submitted[1..], t, i - 1);
    }
  }

  /** A constraint check ends a submission exactly when the document must exist and was not
      found; otherwise the submission goes on, and it is logged after its last constraint. */
  lemma ChecksDecide(s: State, found: bool)
    requires Inv(s) && Happens(s, Work(found)) && s.pc.phase == Checking
    ensures var t, cs := s.pc.item.trid, s.active[s.pc.item.trid].constraints;
            var u := AfterWork(s, found);
            && t !in u.submitted
            && (t !in u.active <==> s.pc.index < |cs| && cs[s.pc.index].mustExist && !found)
            && (t !in u.active ==> u.pc == Idle && u.log == s.log)
            && (t in u.active ==> u.pc == if s.pc.index >= |cs| then
                At(Logging, s.pc.item, s.currentSequenceId + 1, s.pc.index)
                                          else s.pc.(index := s.pc.index + 1))
  {
    hide Queueing, LogAgrees, ConflictFree, Passed, Delivered, Counted, Documents, Durable, Finished, BookOf,
         EntryFor, Judge;
    Working(s);
    ProperLogging(s);
  }

  lemma Extends(s: State, es: seq<Event>, e: Event)
    requires Happens(Run(s, es), e)
    ensures Run(s, es + [e]) == Step(Run(s, es), e)
  {
    assert (es + [e])[..|es|] == es;
  }

  /** Submit a transaction, roll it back, submit another one: the processor throws. */
  lemma RollbackBreaksSubmit() returns (es: seq<Event>)
    ensures Reached(false, 1, 1, es).pc == Thrown
  {
    var s := Initial(false, 1, 1);
    es := ThroughRollback(s);
    Extends(s, es, Event.Begin);
    es := es + [Event.Begin];
    Extends(s, es, Enqueue(QueueItem(Submit, 2)));
    es := es + [Enqueue(QueueItem(Submit, 2))];
    Extends(s, es, Event.Process);
    es := es + [Event.Process];
    Extends(s, es, Work(true));
    es := es + [Work(true)];
  }

  lemma ThroughRollback(s: State) returns (es: seq<Event>)
    requires s == Initial(false, 1, 1)
    ensures var t := Run(s, es);
            && t.active == map[] && t.submitted == [1] && t.queue == [] && t.pc == Idle
            && t.nextTransactId == 2 && !t.repaired && |t.pending| == |t.delivered| == |t.lastDocument| == 1
  {
    es := ThroughRollbackTaken(s);
    Extends(s, es, Work(true));
    es := es + [Work(true)];
  }

  /** A submitted transaction whose rollback the processor has taken from the queue. */
  lemma ThroughRollbackTaken(s: State) returns (es: seq<Event>)
    requires s == Initial(s.repaired, 1, 1)
    ensures var t := Run(s, es);
            && t.active == map[1 := Transaction(InCommitOrRollback, [], [])] && t.submitted == [1] && t.queue == []
            && t.pc == At(Taken, QueueItem(Rollback, 1), 0, 0) && t.log == [SubmitEntry(1, [])]
            && t.nextTransactId == 2 && t.repaired == s.repaired
            && |t.pending| == |t.delivered| == |t.lastDocument| == 1
  {
    es := ThroughSubmit(s);
    Extends(s, es, Enqueue(QueueItem(Rollback, 1)));
    es := es + [Enqueue(QueueItem(Rollback, 1))];
    assert Run(s, es).active == map[1 := Transaction(InCommitOrRollback, [], [])];
    Extends(s, es, Event.Process);
    es := es + [Event.Process];
  }

  lemma ThroughScan(s: State) returns (es: seq<Event>)
    requires s == Initial(s.repaired, 1, 1)
    ensures var t := Run(s, es);
            && t.active == map[1 := Transaction(InSubmit, [], [])] && t.submitted == [] && t.queue == []
            && t.pc == At(Checking, QueueItem(Submit, 1), 0, 0)
            && t.log == [] && t.nextTransactId == 2 && t.repaired == s.repaired
            && |t.pending| == |t.delivered| == |t.lastDocument| == 1
  {
    es := [];
    Extends(s, es, Event.Begin);
    es := es + [Event.Begin];
    Extends(s, es, Enqueue(QueueItem(Submit, 1)));
    es := es + [Enqueue(QueueItem(Submit, 1))];
    Extends(s, es, Event.Process);
    es := es + [Event.Process];
    Extends(s, es, Work(true));
    es := es + [Work(true)];
  }

  lemma ThroughSubmit(s: State) returns (es: seq<Event>)
    requires s == Initial(s.repaired, 1, 1)
    ensures var t := Run(s, es);
            && t.active == map[1 := Transaction(Submitted, [], [])] && t.submitted == [1] && t.queue == []
            && t.pc == Idle
            && t.log == [SubmitEntry(1, [])] && t.nextTransactId == 2 && t.repaired == s.repaired
            && |t.pending| == |t.delivered| == |t.lastDocument| == 1
  {
    es := ThroughScan(s);
    Extends(s, es, Work(true));
    es := es + [Work(true)];
    assert Run(s, es).pc.phase == Logging;
    Extends(s, es, Work(true));
    es := es + [Work(true)];
    Extends(s, es, Work(true));
    es := es + [Work(true)];
  }

  // ------------------------------------------------------------------
  // Reference counts
  // ------------------------------------------------------------------

  /** A transaction's reference count is one for the engine while it is active, one for every
      item of it that a driver has not finished, and, after a recovery, one that is never
      given back. */
  lemma ReferenceCount(repaired: bool, storages: nat, drivers: nat, es: seq<Event>, t: int)
    requires storages <= drivers
    ensures var s := Reached(repaired, storages, drivers, es);
            s.refs[Live(t)] == (if t in s.active then 1 else 0) + Outstanding(s.pending)[Live(t)] + s.leaked[Live(t)]
  {
    ReachedInv(repaired, storages, drivers, es);
  }

  lemma {:induction false} PendingOutstanding(pending: seq<seq<Object>>, d: nat, k: nat)
    requires d < |pending| && k < |pending[d]|
    ensures pending[d][k] in Outstanding(pending)
  {
    var n := |pending| - 1;
    if d < n {
      PendingOutstanding(pending[..n], d, k);
    } else {
      assert pending[d][k] in multiset(pending[n]);
    }
  }

  /** Neither a driver nor the processor ever holds a freed transaction. */
  lemma NothingFreed(repaired: bool, storages: nat, drivers: nat, es: seq<Event>, d: nat, k: nat)
    requires storages <= drivers
    ensures var s := Reached(repaired, storages, drivers, es);
            && (d < |s.pending| && k < |s.pending[d]| ==> s.refs[s.pending[d][k]] > 0)
            && (s.pc.At? ==> s.refs[Live(s.pc.item.trid)] > 0)
  {
    ReachedInv(repaired, storages, drivers, es);
    var s := Reached(repaired, storages, drivers, es);
    if d < |s.pending| && k < |s.pending[d]| {
      PendingOutstanding(s.pending, d, k);
    }
    if s.pc.At? {
      Working(s);
    }
  }

  // ------------------------------------------------------------------
  // Sequence ids, transaction ids, document ids
  // ------------------------------------------------------------------

  /** Along the log and along what any driver is given, sequence ids strictly increase; the
      delivered ids are the logged ids, and a transaction is delivered at most once. */
  lemma IdsIncrease(repaired: bool, storages: nat, drivers: nat, es: seq<Event>, d: nat, i: nat, j: nat)
    requires storages <= drivers
    ensures var s := Reached(repaired, storages, drivers, es);
            var points := CommitPoints(s.log);
            && (i < j < |points| ==> points[i].1 < points[j].1)
            && (d < |s.delivered| ==>
                  && |points| - 1 <= |s.delivered[d]| <= |points|
                  && (i < |s.delivered[d]| ==> (s.delivered[d][i].trid, s.delivered[d][i].sequenceId) == points[i])
                  && (i < j < |s.delivered[d]| ==> s.delivered[d][i].sequenceId < s.delivered[d][j].sequenceId
                                                   && s.delivered[d][i].trid != s.delivered[d][j].trid))
  {
    hide BookOf, CommitPoints, Queueing, ConflictFree, Passed, Counted, Documents, Durable;
    ReachedInv(repaired, storages, drivers, es);
    var s := Reached(repaired, storages, drivers, es);
    CommitsAreLogged(s.log);
    if d < |s.delivered| {
      assert DeliveredTo(s.delivered[d], s.pc, BookOf(s.log).commits, d);
      assert i < |s.delivered[d]| ==> Norms(s.delivered[d])[i] == Norm(s.delivered[d][i]);
      assert j < |s.delivered[d]| ==> Norms(s.delivered[d])[j] == Norm(s.delivered[d][j]);
    }
  }

  /** The id that a client gets for its commit is the logged one, and it stays in the log. */
  lemma ReturnedIsLogged(repaired: bool, storages: nat, drivers: nat, es: seq<Event>, k: nat)
    requires storages <= drivers && k < |Reached(repaired, storages, drivers, es).acks|
    ensures var s := Reached(repaired, storages, drivers, es);
            (s.acks[k].trid, s.acks[k].sequenceId) in CommitPoints(s.log)
  {
    hide BookOf, CommitPoints;
    ReachedInv(repaired, storages, drivers, es);
    var s := Reached(repaired, storages, drivers, es);
    CommitsAreLogged(s.log);
    assert IsCommit(BookOf(s.log).commits, s.acks[k]);
    var i :| 0 <= i < |BookOf(s.log).commits| && BookOf(s.log).commits[i].trid == s.acks[k].trid
             && BookOf(s.log).commits[i].sequenceId == s.acks[k].sequenceId;
    assert CommitPoints(s.log)[i] == (s.acks[k].trid, s.acks[k].sequenceId);
  }

  lemma {:induction false} EntryBeyond(log: seq<LogEntry>, i: nat)
    requires BookOf(log).ok && i < |log|
    ensures log[i].trid < BookOf(log).nextTransactId
  {
    var n := |log| - 1;
    if i < n {
      EntryBeyond(log[..n], i);
    } else {
      BookBeyond(log[..n]);
    }
  }

  /** `transaction()` and `allocate()` never return an id that the log mentions. */
  lemma NeverReissued(repaired: bool, storages: nat, drivers: nat, es: seq<Event>, i: nat, j: nat)
    requires storages <= drivers && i < |Reached(repaired, storages, drivers, es).log|
    ensures var s := Reached(repaired, storages, drivers, es);
            && s.log[i].trid < s.nextTransactId
            && (j < |MutationsIn(s.log[i])| && MutationsIn(s.log[i])[j].kind == MutationType.Insert ==>
                  var m := MutationsIn(s.log[i])[j];
                  0 <= m.storageIndex < |s.lastDocument| && m.documentId < s.lastDocument[m.storageIndex] + 1)
  {
    ReachedInv(repaired, storages, drivers, es);
    var s := Reached(repaired, storages, drivers, es);
    EntryBeyond(s.log, i);
    assert Allocated(MutationsIn(s.log[i]), s.lastDocument);
  }
}
