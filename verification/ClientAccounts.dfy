/** What clients tell the engine, over whole runs: a transaction holds, logs and delivers exactly the
    mutations that its client passed in, the queue keeps the order of the calls, and drivers finish
    what they were given in order. */
module ClientAccounts {
  import opened DbTypes
  import opened EngineLogs
  import opened EngineSteps
  import opened EngineInvariants
  import opened EngineProofs
  import opened EngineTheorems
  import opened Recoveries
  import opened RestartLosses

  // ------------------------------------------------------------------
  // Mutations
  // ------------------------------------------------------------------

  /** The same documents with the same contents in the same storages, as insertions. */
  function Insertions(ms: seq<Mutation>): seq<Mutation> {
    seq(|ms|, i requires 0 <= i < |ms| =>
      Mutation(MutationType.Insert, ms[i].storageIndex, ms[i].documentId, ms[i].buffer))
  }

  lemma ReplayedAreInsertions(ms: seq<Mutation>)
    ensures AsInserts(ms) == Insertions(ms) == Insertions(Insertions(ms))
  {
  }

  /** What one event adds to the mutations of transaction `t`: its client passes in a mutation, and
      an insertion gets the next document id of its storage. A transaction begins with none, and a
      restart leaves insertions. */
  ghost function Telling(s: State, e: Event, t: int, told: seq<Mutation>): seq<Mutation> {
    if !Happens(s, e) then told
    else
      match e
      case Begin => if s.nextTransactId == t then [] else told
      case UpdateMutation(u, m) =>
        if u != t || t !in s.active then told
        else if m.kind == MutationType.Modify then told + [m]
        else told + [Mutation(m.kind, m.storageIndex, s.lastDocument[m.storageIndex] + 1, m.buffer)]
      case Restart(_) => Insertions(told)
      case _ => told
  }

  /** The mutations that the client of `t` passed in, in order. */
  ghost function ToldIn(s: State, es: seq<Event>, t: int): seq<Mutation> {
    if es == [] then []
    else Telling(Run(s, es[..|es| - 1]), es[|es| - 1], t, ToldIn(s, es[..|es| - 1], t))
  }

  ghost predicate Held(active: map<int, Transaction>, t: int, told: seq<Mutation>) {
    t in active ==> active[t].mutations == told
  }

  ghost predicate InBook(b: Book, t: int, told: seq<Mutation>) {
    && (t in b.open ==> b.open[t] == Insertions(told))
    && (forall k | 0 <= k < |b.commits| && b.commits[k].trid == t :: b.commits[k].mutations == Insertions(told))
  }

  ghost predicate InLog(log: seq<LogEntry>, t: int, told: seq<Mutation>) {
    forall i | 0 <= i < |log| && !log[i].CommitEntry? && log[i].trid == t ::
      Insertions(log[i].mutations) == Insertions(told)
  }

  ghost predicate GivenAs(delivered: seq<seq<Committed>>, t: int, told: seq<Mutation>) {
    forall d, k | 0 <= d < |delivered| && 0 <= k < |delivered[d]| && delivered[d][k].trid == t ::
      delivered[d][k].mutations == told
  }

  ghost predicate AsTold(s: State, t: int, told: seq<Mutation>) {
    && Held(s.active, t, told) && InBook(BookOf(s.log), t, told) && InLog(s.log, t, told)
    && GivenAs(s.delivered, t, told)
  }

  /** A transaction that the log does not mention, and that was not delivered. */
  ghost predicate Unmentioned(s: State, t: int) {
    && t !in BookOf(s.log).open
    && (forall k | 0 <= k < |BookOf(s.log).commits| :: BookOf(s.log).commits[k].trid != t)
    && (forall i | 0 <= i < |s.log| :: s.log[i].trid != t)
    && (forall d, k | 0 <= d < |s.delivered| && 0 <= k < |s.delivered[d]| :: s.delivered[d][k].trid != t)
  }

  ghost predicate InBookAt(b: Book, t: int) {
    t in b.open || exists k :: 0 <= k < |b.commits| && b.commits[k].trid == t
  }

  lemma EnteredIn(b: Book, e: LogEntry, t: int)
    requires Enter(b, e).ok
    ensures InBookAt(Enter(b, e), e.trid)
    ensures InBookAt(b, t) ==> InBookAt(Enter(b, e), t)
  {
    hide Reinspected;
    var c := Enter(b, e);
    if !e.SubmitEntry? {
      assert c.commits[|b.commits|].trid == e.trid;
    }
    if k :| 0 <= k < |b.commits| && b.commits[k].trid == t {
      assert c.commits[k] == b.commits[k];
    }
  }

  lemma {:induction false} EntryInBook(log: seq<LogEntry>, i: nat)
    requires BookOf(log).ok && i < |log|
    ensures InBookAt(BookOf(log), log[i].trid)
  {
    hide InBookAt, Enter;
    var n := |log| - 1;
    NeverOkAgain(BookOf(log[..n]), log[n]);
    EnteredIn(BookOf(log[..n]), log[n], log[i].trid);
    if i < n {
      EntryInBook(log[..n], i);
    }
  }

  lemma DeliveredIsCommit(s: State, d: nat, k: nat)
    requires Inv(s) && d < |s.delivered| && k < |s.delivered[d]|
    ensures k < |BookOf(s.log).commits| && BookOf(s.log).commits[k].trid == s.delivered[d][k].trid
  {
    hide BookOf, Queueing, ConflictFree, Passed, LogAgrees, Counted, Documents, Durable;
    assert DeliveredTo(s.delivered[d], s.pc, BookOf(s.log).commits, d);
    assert Norms(s.delivered[d])[k].trid == s.delivered[d][k].trid;
  }

  lemma UnmentionedBook(s: State, t: int)
    requires Inv(s) && !InBookAt(BookOf(s.log), t)
    ensures Unmentioned(s, t)
  {
    hide BookOf, Inv;
    InvBookOk(s);
    forall i | 0 <= i < |s.log| ensures s.log[i].trid != t {
      EntryInBook(s.log, i);
    }
    forall d, k | 0 <= d < |s.delivered| && 0 <= k < |s.delivered[d]| ensures s.delivered[d][k].trid != t {
      DeliveredIsCommit(s, d, k);
    }
  }

  lemma InvBookOk(s: State)
    requires Inv(s)
    ensures BookOf(s.log).ok && BookOf(s.log).nextTransactId <= s.nextTransactId
  {
    hide BookOf, Queueing, ConflictFree, Passed, Delivered, Counted, Documents, Durable;
  }

  lemma NewUnmentioned(s: State)
    requires Inv(s)
    ensures Unmentioned(s, s.nextTransactId)
  {
    hide BookOf, Inv;
    InvBookOk(s);
    BookBeyond(s.log);
    UnmentionedBook(s, s.nextTransactId);
  }

  lemma CommittedNotOpen(s: State, t: int)
    requires Inv(s) && t in s.active && s.active[t].state == Open
    ensures forall k | 0 <= k < |BookOf(s.log).commits| :: BookOf(s.log).commits[k].trid != t
  {
    hide BookOf, Queueing, ConflictFree, Passed, Delivered, Counted, Documents, Durable;
    if s.pc.At? {
      Working(s);
    }
  }

  lemma OpenUnmentioned(s: State, t: int)
    requires Inv(s) && t in s.active && s.active[t].state == Open
    ensures Unmentioned(s, t)
  {
    hide BookOf, Inv;
    OpenIsSurviving(s, t);
    CommittedNotOpen(s, t);
    UnmentionedBook(s, t);
  }

  lemma UnmentionedAsTold(s: State, t: int, told: seq<Mutation>)
    requires Unmentioned(s, t) && Held(s.active, t, told)
    ensures AsTold(s, t, told)
  {
    hide BookOf;
  }

  // The steps ------------------------------------------------------------------

  lemma BeginTells(s: State, t: int, told: seq<Mutation>)
    requires Inv(s) && Happens(s, Event.Begin) && AsTold(s, t, told)
    ensures AsTold(AfterBegin(s), t, Telling(s, Event.Begin, t, told))
  {
    hide BookOf, Inv, Unmentioned;
    if t == s.nextTransactId {
      NewUnmentioned(s);
      assert Unmentioned(AfterBegin(s), t) by {
        SameMentioned(s, AfterBegin(s), t);
      }
      UnmentionedAsTold(AfterBegin(s), t, []);
    }
  }

  lemma SameMentioned(s: State, u: State, t: int)
    requires Unmentioned(s, t) && u.log == s.log && u.delivered == s.delivered
    ensures Unmentioned(u, t)
  {
    hide BookOf;
  }

  lemma UpdateTells(s: State, u: int, m: Mutation, t: int, told: seq<Mutation>)
    requires Inv(s) && Happens(s, UpdateMutation(u, m)) && AsTold(s, t, told)
    ensures AsTold(AfterUpdateMutation(s, u, m), t, Telling(s, UpdateMutation(u, m), t, told))
  {
    hide BookOf, Inv, Unmentioned;
    if u == t && t in s.active {
      OpenUnmentioned(s, t);
      SameMentioned(s, AfterUpdateMutation(s, u, m), t);
      UnmentionedAsTold(AfterUpdateMutation(s, u, m), t, Telling(s, UpdateMutation(u, m), t, told));
    }
  }

  /** A step that keeps the log and the deliveries, and of active transactions the mutations. */
  ghost predicate KeepsTold(s: State, u: State) {
    && u.log == s.log && u.delivered == s.delivered
    && (forall t | t in u.active :: t in s.active && u.active[t].mutations == s.active[t].mutations)
  }

  lemma KeptAsTold(s: State, u: State, t: int, told: seq<Mutation>)
    requires KeepsTold(s, u) && AsTold(s, t, told)
    ensures AsTold(u, t, told)
  {
    hide BookOf;
  }

  lemma CallKeeps(s: State, e: Event)
    requires Happens(s, e) && (e.UpdateConstraint? || e.Enqueue? || e.Process? || e.Complete?)
    ensures KeepsTold(s, Step(s, e))
  {
  }

  lemma TakenKeeps(s: State)
    requires s.pc.At? && s.pc.phase == Taken && Happens(s, Work(true))
    ensures KeepsTold(s, AfterWork(s, true))
  {
    hide Judge, Erase;
  }

  lemma LaterKeeps(s: State, found: bool)
    requires Happens(s, Work(found)) && s.pc.phase in {Checking, AfterLog, Delivering}
    requires s.pc.phase == Delivering ==> s.pc.index >= |s.delivered|
    ensures KeepsTold(s, AfterWork(s, found))
  {
    hide Erase;
  }

  lemma WorkKeeps(s: State, found: bool)
    requires Happens(s, Work(found))
    requires s.pc.phase != Logging && !(s.pc.phase == Delivering && s.pc.index < |s.delivered|)
    ensures KeepsTold(s, AfterWork(s, found))
  {
    hide KeepsTold, AfterProcessSubmit, AfterProcessCommit, AfterProcessRollback, AfterCheckConstraint, AfterLogged,
         AfterDeliver;
    if s.pc.phase == Taken {
      TakenKeeps(s);
    } else {
      LaterKeeps(s, found);
    }
  }

  lemma EnterTells(b: Book, e: LogEntry, t: int, told: seq<Mutation>)
    requires InBook(b, t, told) && Enter(b, e).ok
    requires !e.CommitEntry? && e.trid == t ==> e.mutations == told
    ensures InBook(Enter(b, e), t, told)
  {
    hide Reinspected;
    ReplayedAreInsertions(told);
  }

  lemma LoggingTells(s: State, t: int, told: seq<Mutation>)
    requires Inv(s) && s.pc.At? && s.pc.phase == Logging && AsTold(s, t, told)
    ensures s.pc.item.trid in s.active && AsTold(AfterWriteAhead(s), t, told)
  {
    hide BookOf, Inv, InBook;
    Working(s);
    WriteAheadInv(s);
    InvBookOk(AfterWriteAhead(s));
    BookGrows(s.log, EntryFor(s));
    EnterTells(BookOf(s.log), EntryFor(s), t, told);
  }

  lemma DeliverTells(s: State, t: int, told: seq<Mutation>)
    requires Happens(s, Work(true)) && s.pc.phase == Delivering && s.pc.index < |s.delivered| && AsTold(s, t, told)
    ensures AsTold(AfterDeliver(s), t, told)
  {
    hide BookOf, InBook, InLog;
  }

  lemma RestartTells(s: State, order: seq<int>, t: int, told: seq<Mutation>)
    requires Inv(s) && Happens(s, Restart(order)) && AsTold(s, t, told)
    ensures AsTold(AfterRestart(s, order), t, Insertions(told))
  {
    hide BookOf, Inv;
    InvBookOk(s);
    ReplayedAreInsertions(told);
    assert AfterRestart(s, order).delivered == Repeat(|s.delivered|, BookOf(s.log).commits);
  }

  lemma StepTells(s: State, e: Event, t: int, told: seq<Mutation>)
    requires Inv(s) && Happens(s, e) && AsTold(s, t, told)
    ensures AsTold(Step(s, e), t, Telling(s, e, t, told))
  {
    hide Inv, AsTold, KeepsTold, AfterBegin, AfterUpdateMutation, AfterRestart, AfterWriteAhead, AfterDeliver,
         Insertions;
    match e {
      case Begin => BeginTells(s, t, told);
      case UpdateMutation(u, m) => UpdateTells(s, u, m, t, told);
      case Restart(order) => RestartTells(s, order, t, told);
      case Work(found) =>
        if s.pc.phase == Logging {
          LoggingTells(s, t, told);
        } else if s.pc.phase == Delivering && s.pc.index < |s.delivered| {
          DeliverTells(s, t, told);
        } else {
          WorkKeeps(s, found);
          KeptAsTold(s, Step(s, e), t, told);
        }
      case _ =>
        CallKeeps(s, e);
        KeptAsTold(s, Step(s, e), t, told);
    }
  }

  lemma {:induction false} RunTells(repaired: bool, storages: nat, drivers: nat, es: seq<Event>, t: int)
    requires storages <= drivers
    ensures AsTold(Reached(repaired, storages, drivers, es), t, ToldIn(Initial(repaired, storages, drivers), es, t))
  {
    hide Inv, Step, Happens, AsTold, Telling;
    var s := Initial(repaired, storages, drivers);
    if es == [] {
      NothingTold(repaired, storages, drivers, t);
    } else {
      var n := |es| - 1;
      RunTells(repaired, storages, drivers, es[..n], t);
      ReachedInv(repaired, storages, drivers, es[..n]);
      if Happens(Run(s, es[..n]), es[n]) {
        StepTells(Run(s, es[..n]), es[n], t, ToldIn(s, es[..n], t));
      } else {
        NotTelling(Run(s, es[..n]), es[n], t, ToldIn(s, es[..n], t));
      }
    }
  }

  lemma NothingTold(repaired: bool, storages: nat, drivers: nat, t: int)
    ensures AsTold(Initial(repaired, storages, drivers), t, [])
  {
  }

  lemma NotTelling(s: State, e: Event, t: int, told: seq<Mutation>)
    requires !Happens(s, e)
    ensures Telling(s, e, t, told) == told
  {
  }

  /** In every run, across restarts, an active transaction holds the mutations that its client passed
      in, in order; they are what is logged for it, up to their kinds, and what every driver is
      given for it. */
  lemma MutationsAreTold(repaired: bool, storages: nat, drivers: nat, es: seq<Event>, t: int, d: nat, k: nat, i: nat)
    requires storages <= drivers
    ensures var s := Reached(repaired, storages, drivers, es);
            var told := ToldIn(Initial(repaired, storages, drivers), es, t);
            && (t in s.active ==> s.active[t].mutations == told)
            && (i < |s.log| && !s.log[i].CommitEntry? && s.log[i].trid == t ==>
                  Insertions(s.log[i].mutations) == Insertions(told))
            && (d < |s.delivered| && k < |s.delivered[d]| && s.delivered[d][k].trid == t ==>
                  s.delivered[d][k].mutations == told)
  {
    hide Run, ToldIn, Insertions, BookOf;
    RunTells(repaired, storages, drivers, es, t);
  }

  /** While the processor has not thrown, clients can always begin a transaction, add to an open one,
      submit it or roll it back, and commit a submitted one or roll it back. Calls with the id of a
      transaction that is gone are accepted, and refused. */
  lemma CallsAreAccepted(repaired: bool, storages: nat, drivers: nat, es: seq<Event>, t: int, m: Mutation,
                         c: Constraint)
    requires storages <= drivers && Reached(repaired, storages, drivers, es).pc != Thrown
    requires 0 <= m.storageIndex < |Reached(repaired, storages, drivers, es).lastDocument|
    ensures var s := Reached(repaired, storages, drivers, es);
            && Happens(s, Event.Begin)
            && (t in s.active ==>
                  && (s.active[t].state == Open ==>
                        && Happens(s, UpdateMutation(t, m)) && Happens(s, UpdateConstraint(t, c))
                        && Happens(s, Enqueue(QueueItem(Submit, t))) && Happens(s, Enqueue(QueueItem(SubmitCommit, t)))
                        && Happens(s, Enqueue(QueueItem(Rollback, t))))
                  && (s.active[t].state == Submitted ==>
                        && Happens(s, Enqueue(QueueItem(Commit, t))) && Happens(s, Enqueue(QueueItem(Rollback, t)))))
            && (t !in s.active ==>
                  && Step(s, UpdateMutation(t, m)) == Step(s, UpdateConstraint(t, c)) == s
                  && forall kind :: Step(s, Enqueue(QueueItem(kind, t))) == s)
  {
    hide Inv, Run;
    ReachedInv(repaired, storages, drivers, es);
    Restartable(Reached(repaired, storages, drivers, es));
  }

  // ------------------------------------------------------------------
  // Constraints
  // ------------------------------------------------------------------

  ghost function Constraining(s: State, e: Event, t: int, given: seq<Constraint>): seq<Constraint> {
    if !Happens(s, e) then given
    else
      match e
      case Begin => if s.nextTransactId == t then [] else given
      case UpdateConstraint(u, c) => if u == t && t in s.active then given + [c] else given
      case Restart(_) => []
      case _ => given
  }

  /** The constraints that the client of `t` passed in since the last restart, in order. */
  ghost function ConstrainedIn(s: State, es: seq<Event>, t: int): seq<Constraint> {
    if es == [] then []
    else Constraining(Run(s, es[..|es| - 1]), es[|es| - 1], t, ConstrainedIn(s, es[..|es| - 1], t))
  }

  ghost predicate Constrained(s: State, t: int, given: seq<Constraint>) {
    t in s.active ==> s.active[t].constraints == given
  }

  lemma CallConstrains(s: State, e: Event, t: int, given: seq<Constraint>)
    requires Happens(s, e) && !e.Work? && !e.Restart? && Constrained(s, t, given)
    ensures Constrained(Step(s, e), t, Constraining(s, e, t, given))
  {
  }

  lemma RestartConstrains(s: State, order: seq<int>, t: int)
    requires Inv(s) && Enabled(s, Restart(order))
    ensures Constrained(AfterRestart(s, order), t, [])
  {
    hide BookOf, Inv;
    InvBookOk(s);
  }

  lemma TakenConstrains(s: State, t: int, given: seq<Constraint>)
    requires s.pc.At? && s.pc.phase == Taken && Happens(s, Work(true)) && Constrained(s, t, given)
    ensures Constrained(AfterWork(s, true), t, given)
  {
    hide Judge, Erase;
  }

  lemma LaterConstrains(s: State, found: bool, t: int, given: seq<Constraint>)
    requires Happens(s, Work(found)) && s.pc.phase != Taken && Constrained(s, t, given)
    ensures Constrained(AfterWork(s, found), t, given)
  {
    hide Erase, EntryFor;
  }

  lemma StepConstrains(s: State, e: Event, t: int, given: seq<Constraint>)
    requires Inv(s) && Happens(s, e) && Constrained(s, t, given)
    ensures Constrained(Step(s, e), t, Constraining(s, e, t, given))
  {
    hide Inv, Constrained, AfterRestart;
    if e.Restart? {
      RestartConstrains(s, e.order, t);
    } else if !e.Work? {
      CallConstrains(s, e, t, given);
    } else if s.pc.phase == Taken {
      TakenConstrains(s, t, given);
      assert AfterWork(s, e.found) == AfterWork(s, true);
    } else {
      LaterConstrains(s, e.found, t, given);
    }
  }

  lemma NotConstraining(s: State, e: Event, t: int, given: seq<Constraint>)
    requires !Happens(s, e)
    ensures Constraining(s, e, t, given) == given
  {
  }

  /** In every run an active transaction has the constraints that its client passed in since the last
      restart, in order. */
  lemma {:induction false} ConstraintsAreGiven(repaired: bool, storages: nat, drivers: nat, es: seq<Event>, t: int)
    requires storages <= drivers
    ensures var s := Reached(repaired, storages, drivers, es);
            t in s.active ==>
              s.active[t].constraints == ConstrainedIn(Initial(repaired, storages, drivers), es, t)
  {
    hide Inv, Step, Happens, Constraining;
    if es != [] {
      var s, n := Initial(repaired, storages, drivers), |es| - 1;
      ConstraintsAreGiven(repaired, storages, drivers, es[..n], t);
      ReachedInv(repaired, storages, drivers, es[..n]);
      var p := Run(s, es[..n]);
      if Happens(p, es[n]) {
        StepConstrains(p, es[n], t, ConstrainedIn(s, es[..n], t));
      } else {
        NotConstraining(p, es[n], t, ConstrainedIn(s, es[..n], t));
      }
    }
  }

  // ------------------------------------------------------------------
  // The queue
  // ------------------------------------------------------------------

  /** What clients queued since the last restart, and what the processor took. */
  ghost function EnqueuedIn(s: State, es: seq<Event>): seq<QueueItem> {
    if es == [] then []
    else
      var e, p, before := es[|es| - 1], Run(s, es[..|es| - 1]), EnqueuedIn(s, es[..|es| - 1]);
      if !Happens(p, e) then before
      else if e.Restart? then []
      else if e.Enqueue? && e.item.trid in p.active then before + [e.item]
      else before
  }

  ghost function TakenIn(s: State, es: seq<Event>): seq<QueueItem> {
    if es == [] then []
    else
      var e, p, before := es[|es| - 1], Run(s, es[..|es| - 1]), TakenIn(s, es[..|es| - 1]);
      if !Happens(p, e) then before
      else if e.Restart? then []
      else if e.Process? then before + [p.queue[0]]
      else before
  }

  lemma WorkKeepsQueue(s: State, found: bool)
    requires Happens(s, Work(found))
    ensures AfterWork(s, found).queue == s.queue
  {
    hide Judge, Erase, EntryFor;
  }

  lemma RestartQueue(s: State, order: seq<int>)
    requires Inv(s) && Enabled(s, Restart(order))
    ensures AfterRestart(s, order).queue == []
  {
    hide BookOf, Inv;
    InvBookOk(s);
  }

  lemma StepQueue(s: State, e: Event)
    requires Inv(s) && Happens(s, e)
    ensures Step(s, e).queue == if e.Restart? then []
                                else if e.Enqueue? && e.item.trid in s.active then s.queue + [e.item]
                                else if e.Process? then s.queue[1..]
                                else s.queue
  {
    hide Inv, AfterWork, AfterRestart;
    match e {
      case Work(found) => WorkKeepsQueue(s, found);
      case Restart(order) => RestartQueue(s, order);
      case _ =>
    }
  }

  /** The processor takes what clients queued, each item once and in the order of the calls; what it
      has not taken waits. A restart forgets the queue. */
  lemma {:induction false} QueueInOrder(repaired: bool, storages: nat, drivers: nat, es: seq<Event>)
    requires storages <= drivers
    ensures var s := Initial(repaired, storages, drivers);
            EnqueuedIn(s, es) == TakenIn(s, es) + Run(s, es).queue
  {
    hide Inv, Step, Happens;
    if es != [] {
      var s, n := Initial(repaired, storages, drivers), |es| - 1;
      QueueInOrder(repaired, storages, drivers, es[..n]);
      ReachedInv(repaired, storages, drivers, es[..n]);
      var p := Run(s, es[..n]);
      if Happens(p, es[n]) {
        StepQueue(p, es[n]);
        ProcessTakes(p, es[n]);
      }
    }
  }

  lemma ProcessTakes(s: State, e: Event)
    requires Happens(s, e)
    ensures e.Process? ==> s.queue != [] && s.queue == [s.queue[0]] + s.queue[1..]
  {
  }

  // ------------------------------------------------------------------
  // What drivers finish
  // ------------------------------------------------------------------

  /** How many items driver `d` has finished since the last restart. */
  ghost function FinishedBy(s: State, es: seq<Event>, d: nat): nat {
    if es == [] then 0
    else
      var e, p, before := es[|es| - 1], Run(s, es[..|es| - 1]), FinishedBy(s, es[..|es| - 1], d);
      if !Happens(p, e) then before
      else if e.Restart? then 0
      else if e == Event.Complete(d) then before + 1
      else before
  }

  /** The k-th delivery, as the object that the driver holds for it. */
  ghost predicate ObjectOf(o: Object, d: nat, k: nat, c: Committed) {
    o == Live(c.trid) || o == Replayed(d, k)
  }

  ghost predicate Unfinished(delivered: seq<Committed>, pending: seq<Object>, d: nat, done: nat) {
    && |delivered| == done + |pending|
    && (forall i | 0 <= i < |pending| :: ObjectOf(pending[i], d, done + i, delivered[done + i]))
  }

  lemma DeliverUnfinished(s: State, d: nat, done: nat)
    requires Happens(s, Work(true)) && s.pc.phase == Delivering && d < |s.delivered|
    requires Unfinished(s.delivered[d], s.pending[d], d, done)
    ensures var u := AfterDeliver(s);
            |u.delivered| == |u.pending| == |s.delivered| && Unfinished(u.delivered[d], u.pending[d], d, done)
  {
    hide Erase;
  }

  lemma CompleteUnfinished(s: State, c: nat, d: nat, done: nat)
    requires Happens(s, Event.Complete(c)) && d < |s.delivered|
    requires Unfinished(s.delivered[d], s.pending[d], d, done)
    ensures Unfinished(s.delivered[d], AfterComplete(s, c).pending[d], d, if c == d then done + 1 else done)
  {
  }

  lemma RestartUnfinished(s: State, order: seq<int>, d: nat)
    requires Inv(s) && Enabled(s, Restart(order)) && d < |s.delivered|
    ensures var u := AfterRestart(s, order);
            |u.delivered| == |u.pending| == |s.delivered| && Unfinished(u.delivered[d], u.pending[d], d, 0)
  {
    hide BookOf, Inv;
    InvBookOk(s);
  }

  lemma NothingDelivered(s: State, e: Event)
    requires Happens(s, e) && !e.Restart? && !e.Complete? && !(e.Work? && s.pc.phase == Delivering)
    ensures Step(s, e).delivered == s.delivered && Step(s, e).pending == s.pending
  {
    hide Judge, Erase, EntryFor;
  }

  lemma StepUnfinished(s: State, e: Event, d: nat, done: nat)
    requires Inv(s) && Happens(s, e) && d < |s.delivered| && Unfinished(s.delivered[d], s.pending[d], d, done)
    ensures var u := Step(s, e);
            && |u.delivered| == |u.pending| == |s.delivered|
            && Unfinished(u.delivered[d], u.pending[d], d,
                          if e.Restart? then 0 else if e == Event.Complete(d) then done + 1 else done)
  {
    hide Inv, Unfinished, AfterRestart, AfterDeliver;
    match e {
      case Complete(c) => CompleteUnfinished(s, c, d, done);
      case Restart(order) => RestartUnfinished(s, order, d);
      case Work(_) =>
        if s.pc.phase == Delivering {
          DeliverUnfinished(s, d, done);
        } else {
          NothingDelivered(s, e);
        }
      case _ => NothingDelivered(s, e);
    }
  }

  lemma {:induction false} RunUnfinished(repaired: bool, storages: nat, drivers: nat, es: seq<Event>, d: nat)
    requires storages <= drivers && d < drivers
    ensures var s := Reached(repaired, storages, drivers, es);
            && |s.delivered| == |s.pending| == drivers
            && Unfinished(s.delivered[d], s.pending[d], d, FinishedBy(Initial(repaired, storages, drivers), es, d))
  {
    hide Inv, Step, Enabled, Unfinished;
    if es == [] {
      assert Unfinished([], [], d, 0) by {
        NothingUnfinished(d);
      }
    } else {
      var s, n := Initial(repaired, storages, drivers), |es| - 1;
      RunUnfinished(repaired, storages, drivers, es[..n], d);
      ReachedInv(repaired, storages, drivers, es[..n]);
      if Happens(Run(s, es[..n]), es[n]) {
        StepUnfinished(Run(s, es[..n]), es[n], d, FinishedBy(s, es[..n], d));
      }
    }
  }

  lemma NothingUnfinished(d: nat)
    ensures Unfinished([], [], d, 0)
  {
  }

  /** A driver finishes what it was given in the order in which it was given it: the objects it still
      holds are those of the last deliveries, all but the finished ones. */
  lemma FinishedInOrder(repaired: bool, storages: nat, drivers: nat, es: seq<Event>, d: nat, i: nat)
    requires storages <= drivers && d < drivers
    ensures var s := Reached(repaired, storages, drivers, es);
            var done := FinishedBy(Initial(repaired, storages, drivers), es, d);
            && |s.delivered| == |s.pending| == drivers
            && |s.delivered[d]| == done + |s.pending[d]|
            && (i < |s.pending[d]| ==>
                  || s.pending[d][i] == Live(s.delivered[d][done + i].trid)
                  || s.pending[d][i] == Replayed(d, done + i))
  {
    hide Run, FinishedBy;
    RunUnfinished(repaired, storages, drivers, es, d);
  }

  // ------------------------------------------------------------------
  // References
  // ------------------------------------------------------------------

  /** The transactions that the last restart made active again. */
  ghost function RecoveredLast(s: State, es: seq<Event>): seq<int> {
    if es == [] then []
    else
      var e, p := es[|es| - 1], Run(s, es[..|es| - 1]);
      if e.Restart? && Happens(p, e) then e.order else RecoveredLast(s, es[..|es| - 1])
  }

  lemma CallKeepsLeaked(s: State, e: Event)
    requires Happens(s, e) && !e.Restart?
    ensures Step(s, e).leaked == s.leaked
  {
    hide Judge, Erase, EntryFor;
  }

  lemma RestartLeaks(s: State, order: seq<int>, t: int)
    requires Inv(s) && Enabled(s, Restart(order))
    ensures AfterRestart(s, order).leaked[Live(t)] == if t in order then 1 else 0
  {
    hide BookOf, Inv;
    InvBookOk(s);
    var keys := BookOf(s.log).open.Keys;
    assert AfterRestart(s, order).leaked == Holds(keys);
    assert Live(t) in (set u | u in keys :: Live(u)) <==> t in keys;
  }

  lemma {:induction false} LeakedExactly(repaired: bool, storages: nat, drivers: nat, es: seq<Event>, t: int)
    requires storages <= drivers
    ensures Reached(repaired, storages, drivers, es).leaked[Live(t)]
            == if t in RecoveredLast(Initial(repaired, storages, drivers), es) then 1 else 0
  {
    hide Inv, Step, Enabled;
    if es != [] {
      var s, n := Initial(repaired, storages, drivers), |es| - 1;
      LeakedExactly(repaired, storages, drivers, es[..n], t);
      ReachedInv(repaired, storages, drivers, es[..n]);
      var p := Run(s, es[..n]);
      if Happens(p, es[n]) {
        if es[n].Restart? {
          RestartHappens(p, es[n]);
          RestartLeaks(p, es[n].order, t);
        } else {
          CallKeepsLeaked(p, es[n]);
        }
      }
    }
  }

  lemma RestartHappens(s: State, e: Event)
    requires Happens(s, e) && e.Restart?
    ensures Enabled(s, Restart(e.order)) && Step(s, e) == AfterRestart(s, e.order)
  {
    hide AfterRestart;
  }

  /** A transaction is referenced once for the engine while it is active, once for every item of it
      that a driver has not finished, and once more, for good, if the last restart recovered it. */
  lemma ReferencesExact(repaired: bool, storages: nat, drivers: nat, es: seq<Event>, t: int)
    requires storages <= drivers
    ensures var s := Reached(repaired, storages, drivers, es);
            s.refs[Live(t)] == (if t in s.active then 1 else 0) + Outstanding(s.pending)[Live(t)]
                               + (if t in RecoveredLast(Initial(repaired, storages, drivers), es) then 1 else 0)
  {
    hide Run, RecoveredLast, Outstanding;
    ReferenceCount(repaired, storages, drivers, es, t);
    LeakedExactly(repaired, storages, drivers, es, t);
  }
}
