/** What a restart forgets: rollbacks, which are not logged, and constraints, which are not logged
    either. Each statement is about every reachable state. */
module RestartLosses {
  import opened DbTypes
  import opened EngineLogs
  import opened EngineSteps
  import opened EngineInvariants
  import opened EngineProofs
  import opened EngineTheorems
  import opened Recoveries

  // ------------------------------------------------------------------
  // Which transactions come back
  // ------------------------------------------------------------------

  /** The log says that the transaction was submitted, and not that it was committed. */
  ghost predicate Survives(s: State, t: int) {
    || (t in s.submitted && !(PastCommit(s.pc) && s.pc.item.trid == t))
    || (PastSubmit(s.pc) && s.pc.item.trid == t)
  }

  lemma OpenIsSurviving(s: State, t: int)
    requires Inv(s) && t in s.active
    ensures t in BookOf(s.log).open <==> Survives(s, t)
    ensures t in BookOf(s.log).open ==> BookOf(s.log).open[t] == AsInserts(s.active[t].mutations)
    ensures s.active[t].state == Submitted ==> Survives(s, t)
    ensures s.active[t].state == Open ==> !Survives(s, t)
  {
    hide BookOf, ConflictFree, Passed, Delivered, Counted, Documents, Durable, AsInserts, Increasing, Queueing;
    if s.pc.At? {
      Working(s);
    }
    if s.active[t].state in {Open, Submitted} {
      NotQueued(s, t);
    }
  }

  /** A transaction that is active before a restart is active after it if and only if it had been
      submitted and its commit was not logged; then it can be committed, with the same mutations
      as insertions and without its constraints. This includes transactions whose commit, or
      rollback, is still queued. */
  lemma SubmittedSurvive(repaired: bool, storages: nat, drivers: nat, es: seq<Event>, order: seq<int>, t: int)
    requires storages <= drivers && Enabled(Reached(repaired, storages, drivers, es), Restart(order))
    requires t in Reached(repaired, storages, drivers, es).active
    ensures var s := Reached(repaired, storages, drivers, es);
            var r := AfterRestart(s, order);
            && (t in r.active <==> Survives(s, t)) && (t in r.submitted <==> Survives(s, t))
            && (Survives(s, t) ==> r.active[t] == Transaction(Submitted, AsInserts(s.active[t].mutations), []))
            && (s.active[t].state == Submitted ==> Survives(s, t))
            && (s.active[t].state == Open ==> !Survives(s, t))
  {
    hide Inv, BookOf, Run, Survives;
    ReachedInv(repaired, storages, drivers, es);
    var s := Reached(repaired, storages, drivers, es);
    OpenIsSurviving(s, t);
    LogIncreases(s);
  }

  // ------------------------------------------------------------------
  // Rollbacks
  // ------------------------------------------------------------------

  /** When the processor rolls a transaction back, replay still finds it open if and only if it
      was submitted: the log does not change. */
  lemma RollbackLeavesOpen(repaired: bool, storages: nat, drivers: nat, es: seq<Event>)
    requires storages <= drivers
    requires var s := Reached(repaired, storages, drivers, es);
             s.pc.At? && s.pc.phase == Taken && s.pc.item.kind == Rollback
    ensures var s := Reached(repaired, storages, drivers, es);
            var t := s.pc.item.trid;
            && t in s.active && t !in AfterProcessRollback(s).active
            && (t in BookOf(AfterProcessRollback(s).log).open <==> t in s.submitted)
  {
    hide Inv, BookOf, Run, Erase;
    ReachedInv(repaired, storages, drivers, es);
    var s := Reached(repaired, storages, drivers, es);
    Working(s);
    OpenIsSurviving(s, s.pc.item.trid);
  }

  datatype Fate = Gone | Back(mutations: seq<Mutation>)

  /** What replay makes of a transaction. */
  function FateOf(b: Book, t: int): Fate {
    if t in b.open then Back(b.open[t]) else Gone
  }

  predicate IsQueued(s: State, item: QueueItem) {
    (s.pc.At? && s.pc.item == item) || item in s.queue
  }

  /** The rollback of `t` was asked for, and it is queued, at work, or done. */
  ghost predicate RollingBack(s: State, t: int, f: Fate) {
    && t < s.nextTransactId
    && FateOf(BookOf(s.log), t) == f
    && (t in s.active ==> IsQueued(s, QueueItem(Rollback, t)))
  }

  /** No other item of the queue is about `t`, so what is logged is not about `t`. */
  lemma OnlyItem(s: State, t: int)
    requires Queueing(s.active, s.submitted, s.queue, s.pc, s.nextTransactId, s.repaired)
    requires s.pc.At? && IsQueued(s, QueueItem(Rollback, t))
    ensures s.pc.item.trid == t ==> s.pc.item.kind == Rollback && s.pc.phase == Taken
  {
    hide Queueing;
    QueueApart(s);
  }

  lemma EntryOfOther(b: Book, e: LogEntry, t: int)
    requires Enter(b, e).ok && e.trid != t
    ensures FateOf(Enter(b, e), t) == FateOf(b, t)
  {
    hide Reinspected, AsInserts;
  }

  /** The processor's step, seen from a transaction that is being rolled back. */
  lemma WorkOnOther(s: State, found: bool, t: int)
    requires Inv(s) && Happens(s, Work(found))
    requires t in s.active ==> IsQueued(s, QueueItem(Rollback, t))
    ensures var u := AfterWork(s, found);
            && u.nextTransactId == s.nextTransactId
            && (t in u.active ==> t in s.active && IsQueued(u, QueueItem(Rollback, t)))
            && (u.log == s.log || (s.pc.item.trid != t && s.pc.item.trid in s.active && u.log == s.log + [EntryFor(s)]))
  {
    hide Queueing, LogAgrees, ConflictFree, Passed, Delivered, Counted, Documents, Durable, BookOf, Judge, EntryFor,
         Erase;
    Working(s);
    if t in s.active {
      OnlyItem(s, t);
    }
  }

  lemma RollingBackStep(s: State, e: Event, t: int, f: Fate)
    requires Inv(s) && Happens(s, e) && !e.Restart? && RollingBack(s, t, f)
    ensures RollingBack(Step(s, e), t, f)
  {
    hide Inv, BookOf, FateOf;
    match e {
      case Work(found) =>
        hide AfterWork;
        WorkOnOther(s, found, t);
        StepInv(s, e);
        var u := AfterWork(s, found);
        if u.log != s.log {
          BookGrows(s.log, EntryFor(s));
          LogIncreases(u);
          EntryOfOther(BookOf(s.log), EntryFor(s), t);
        }
      case _ =>
    }
  }

  /** A run without a restart. */
  ghost predicate NoRestart(es: seq<Event>) {
    forall i | 0 <= i < |es| :: !es[i].Restart?
  }

  lemma {:induction false} RollingBackRun(s: State, es: seq<Event>, t: int, f: Fate)
    requires Inv(s) && NoRestart(es) && RollingBack(s, t, f)
    ensures RollingBack(Run(s, es), t, f)
  {
    hide Inv, Step, Enabled, EngineSteps.Known, RollingBack;
    if es != [] {
      var n := |es| - 1;
      RollingBackRun(s, es[..n], t, f);
      RunInv(s, es[..n]);
      if Happens(Run(s, es[..n]), es[n]) {
        RollingBackStep(Run(s, es[..n]), es[n], t, f);
      }
    }
  }

  /** Whatever happens after a client called `rollback`, up to a restart: the transaction comes
      back if and only if it was submitted when the client called; then it can be committed. */
  lemma RolledBackReturns(repaired: bool, storages: nat, drivers: nat, es: seq<Event>, t: int, more: seq<Event>,
                          order: seq<int>)
    requires storages <= drivers && t in Reached(repaired, storages, drivers, es).active && NoRestart(more)
    requires Happens(Reached(repaired, storages, drivers, es), Enqueue(QueueItem(Rollback, t)))
    requires Enabled(Run(Step(Reached(repaired, storages, drivers, es), Enqueue(QueueItem(Rollback, t))), more),
                     Restart(order))
    ensures var s := Reached(repaired, storages, drivers, es);
            var r := AfterRestart(Run(Step(s, Enqueue(QueueItem(Rollback, t))), more), order);
            && (t in r.active <==> s.active[t].state == Submitted)
            && (t in r.submitted <==> s.active[t].state == Submitted)
            && (t in r.active ==> r.active[t] == Transaction(Submitted, AsInserts(s.active[t].mutations), []))
  {
    hide Inv, BookOf, Run, Survives;
    var s := Reached(repaired, storages, drivers, es);
    var e := Enqueue(QueueItem(Rollback, t));
    ReachedInv(repaired, storages, drivers, es);
    OpenIsSurviving(s, t);
    BelowNext(s, t);
    var u, f := Step(s, e), FateOf(BookOf(s.log), t);
    StepInv(s, e);
    assert RollingBack(u, t, f);
    RollingBackRun(u, more, t, f);
    RunInv(u, more);
    LogIncreases(Run(u, more));
  }

  lemma BelowNext(s: State, t: int)
    requires Inv(s) && t in s.active
    ensures t < s.nextTransactId
  {
    hide BookOf, ConflictFree, Passed, LogAgrees, Delivered, Counted, Documents, Durable;
  }

  // ------------------------------------------------------------------
  // Constraints
  // ------------------------------------------------------------------

  lemma InsertionsAreCompatible(ms: seq<Mutation>, cs: seq<Constraint>)
    requires AsInserts(ms) == ms
    ensures AllCompatible(ms, cs)
  {
    forall i, j | 0 <= i < |ms| && 0 <= j < |cs| ensures Compatible(ms[i], cs[j]) {
      assert ms[i] == AsInsert(ms[i]);
    }
  }

  /** After a restart from any reachable state every transaction passes the scan against the
      recovered ones: their constraints are gone, and their modifications are insertions. */
  lemma RecoveredAcceptAll(repaired: bool, storages: nat, drivers: nat, es: seq<Event>, order: seq<int>, x: Transaction)
    requires storages <= drivers && Enabled(Reached(repaired, storages, drivers, es), Restart(order))
    ensures var r := AfterRestart(Reached(repaired, storages, drivers, es), order);
            Judge(r.active, r.submitted, x) == Pass
  {
    hide Inv, BookOf, Run, Judge, AllCompatible, AsInserts;
    ReachedInv(repaired, storages, drivers, es);
    var s := Reached(repaired, storages, drivers, es);
    LogIncreases(s);
    var r := AfterRestart(s, order);
    JudgeMeans(r.active, r.submitted, x);
    forall u | u in r.submitted ensures u in r.active && Agree(r.active[u], x) {
      InsertsTwice(s, u);
      InsertionsAreCompatible(r.active[u].mutations, x.constraints);
      NoConstraints(x.mutations);
    }
  }

  lemma NoConstraints(ms: seq<Mutation>)
    ensures AllCompatible(ms, [])
  {
  }

  // A run: a transaction that modifies document 7 is submitted; one that relies on document 7 is
  // refused; after a restart it is accepted.

  function Modifying(): Mutation {
    Mutation(MutationType.Modify, 0, 7, [])
  }

  function Relying(): Constraint {
    Constraint(0, 7, 0, false, true)
  }

  ghost predicate Small(s: State) {
    |s.pending| == |s.delivered| == |s.lastDocument| == 1
  }

  lemma ThroughModifyingSubmit() returns (es: seq<Event>)
    ensures var t := Reached(true, 1, 1, es);
            && t.active == map[1 := Transaction(InSubmit, [Modifying()], [])] && t.submitted == []
            && t.queue == [QueueItem(Submit, 1)] && t.pc == Idle && t.log == [] && t.nextTransactId == 2 && Small(t)
  {
    var s := Initial(true, 1, 1);
    es := [];
    Extends(s, es, Event.Begin);
    es := es + [Event.Begin];
    Extends(s, es, UpdateMutation(1, Modifying()));
    es := es + [UpdateMutation(1, Modifying())];
    var none: seq<Mutation> := [];
    assert none + [Modifying()] == [Modifying()];
    assert Run(s, es).active == map[1 := Transaction(Open, [Modifying()], [])];
    Extends(s, es, Enqueue(QueueItem(Submit, 1)));
    es := es + [Enqueue(QueueItem(Submit, 1))];
  }

  lemma ThroughModifyingScan() returns (es: seq<Event>)
    ensures var t := Reached(true, 1, 1, es);
            && t.active == map[1 := Transaction(InSubmit, [Modifying()], [])] && t.submitted == [] && t.queue == []
            && t.pc.At? && t.pc.phase == Logging && t.pc.item == QueueItem(Submit, 1)
            && t.log == [] && t.nextTransactId == 2 && Small(t)
  {
    var s := Initial(true, 1, 1);
    es := ThroughModifyingSubmit();
    Extends(s, es, Event.Process);
    es := es + [Event.Process];
    Extends(s, es, Work(true));
    es := es + [Work(true)];
    assert Run(s, es).pc.phase == Checking;
    Extends(s, es, Work(true));
    es := es + [Work(true)];
  }


  lemma ThroughModifying() returns (es: seq<Event>)
    ensures var t := Reached(true, 1, 1, es);
            && t.active == map[1 := Transaction(Submitted, [Modifying()], [])] && t.submitted == [1] && t.queue == []
            && t.pc == Idle && t.log == [SubmitEntry(1, [Modifying()])] && t.nextTransactId == 2 && Small(t)
  {
    var s := Initial(true, 1, 1);
    es := ThroughModifyingScan();
    Extends(s, es, Work(true));
    es := es + [Work(true)];
    Extends(s, es, Work(true));
    es := es + [Work(true)];
  }

  /** A second transaction, with the constraint. */
  lemma BeginRelying(es: seq<Event>, ms: seq<Mutation>) returns (more: seq<Event>)
    requires var t := Reached(true, 1, 1, es);
             && t.active == map[1 := Transaction(Submitted, ms, [])] && t.submitted == [1] && t.queue == []
             && t.pc == Idle && t.log == [SubmitEntry(1, [Modifying()])] && t.nextTransactId == 2 && Small(t)
    ensures es <= more
    ensures var t := Reached(true, 1, 1, more);
            && t.active == map[1 := Transaction(Submitted, ms, []), 2 := Transaction(Open, [], [Relying()])]
            && t.submitted == [1] && t.queue == [] && t.pc == Idle && t.log == [SubmitEntry(1, [Modifying()])]
            && Small(t)
  {
    var s := Initial(true, 1, 1);
    Extends(s, es, Event.Begin);
    more := es + [Event.Begin];
    assert Run(s, more).active == map[1 := Transaction(Submitted, ms, []), 2 := Transaction(Open, [], [])];
    Extends(s, more, UpdateConstraint(2, Relying()));
    more := more + [UpdateConstraint(2, Relying())];
    var none: seq<Constraint> := [];
    assert none + [Relying()] == [Relying()];
    assert Run(s, more).active == map[1 := Transaction(Submitted, ms, []), 2 := Transaction(Open, [], [Relying()])];
  }

  /** And it comes to the point where it is scanned. */
  lemma SubmitRelying(es: seq<Event>, ms: seq<Mutation>) returns (more: seq<Event>)
    requires var t := Reached(true, 1, 1, es);
             && t.active == map[1 := Transaction(Submitted, ms, []), 2 := Transaction(Open, [], [Relying()])]
             && t.submitted == [1] && t.queue == [] && t.pc == Idle && t.log == [SubmitEntry(1, [Modifying()])]
             && Small(t)
    ensures es <= more
    ensures var t := Reached(true, 1, 1, more);
            && t.active == map[1 := Transaction(Submitted, ms, []), 2 := Transaction(InSubmit, [], [Relying()])]
            && t.submitted == [1] && t.queue == [] && t.pc == At(Taken, QueueItem(Submit, 2), 0, 0)
            && t.log == [SubmitEntry(1, [Modifying()])] && Small(t)
  {
    var s := Initial(true, 1, 1);
    Extends(s, es, Enqueue(QueueItem(Submit, 2)));
    more := es + [Enqueue(QueueItem(Submit, 2))];
    Extends(s, more, Event.Process);
    more := more + [Event.Process];
  }

  lemma RestartModifying(es: seq<Event>) returns (more: seq<Event>)
    requires var t := Reached(true, 1, 1, es); t.log == [SubmitEntry(1, [Modifying()])] && Small(t)
    ensures es <= more
    ensures var t := Reached(true, 1, 1, more);
            && t.active == map[1 := Transaction(Submitted, AsInserts([Modifying()]), [])] && t.submitted == [1]
            && t.queue == [] && t.pc == Idle && t.log == [SubmitEntry(1, [Modifying()])] && t.nextTransactId == 2
            && Small(t)
  {
    var s := Initial(true, 1, 1);
    var b := BookOf([SubmitEntry(1, [Modifying()])]);
    assert b == Enter(NewBook(), SubmitEntry(1, [Modifying()]));
    assert b.open == map[1 := AsInserts([Modifying()])];
    ReachedInv(true, 1, 1, es);
    InvKnown(Reached(true, 1, 1, es));
    Extends(s, es, Restart([1]));
    more := es + [Restart([1])];
  }

  lemma RelyingVerdicts()
    ensures !AllCompatible([Modifying()], [Relying()])
    ensures AllCompatible(AsInserts([Modifying()]), [Relying()])
  {
    assert !Compatible([Modifying()][0], [Relying()][0]);
    InsertionsAreCompatible(AsInserts([Modifying()]), [Relying()]);
  }

  /** The pair that is refused before the restart is accepted after it. */
  lemma ConstraintForgotten() returns (before: seq<Event>, after: seq<Event>)
    ensures before <= after
    ensures var s, r := Reached(true, 1, 1, before), Reached(true, 1, 1, after);
            && s.active.Keys == r.active.Keys == {1, 2} && s.active[2] == r.active[2] && Small(s) && Small(r)
            && s.pc == r.pc == At(Taken, QueueItem(Submit, 2), 0, 0)
            && 2 !in AfterWork(s, true).active && AfterWork(s, true).pc == Idle
            && AfterWork(r, true).pc == At(Checking, QueueItem(Submit, 2), 0, 0)
  {
    hide Run, AllCompatible, AsInserts;
    var es := ThroughModifying();
    es := BeginRelying(es, [Modifying()]);
    before := SubmitRelying(es, [Modifying()]);
    after := RestartModifying(before);
    after := BeginRelying(after, AsInserts([Modifying()]));
    after := SubmitRelying(after, AsInserts([Modifying()]));
    RelyingVerdicts();
    NoConstraints([]);
    FirstVerdict(Reached(true, 1, 1, before));
    FirstVerdict(Reached(true, 1, 1, after));
  }

  lemma FirstVerdict(s: State)
    requires 1 in s.active && 2 in s.active && s.submitted == [1]
    ensures Judge(s.active, s.submitted, s.active[2]) ==
            if !AllCompatible(s.active[1].mutations, s.active[2].constraints) then ConstraintConflict
            else if !AllCompatible(s.active[2].mutations, s.active[1].constraints) then MutationConflict
            else Pass
  {
    hide AllCompatible;
    assert s.submitted[1..] == [];
  }
}
