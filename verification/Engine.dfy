/** The engine: client calls, the queue processor and recovery, each proved to take exactly the
    steps of the state machine. */
module Engines {
  import opened DbTypes
  import opened EngineLogs
  import opened EngineSteps
  import opened EngineInvariants
  import opened EngineProofs

  class Engine {
    const repaired: bool
    var nextTransactId: int
    var currentSequenceId: int
    var active: map<int, Transaction>
    var submitted: seq<int>
    var queue: seq<QueueItem>
    var pc: Processor
    var log: seq<LogEntry>
    var lastDocument: seq<int>
    var delivered: seq<seq<Committed>>
    var pending: seq<seq<Object>>
    var refs: multiset<Object>
    ghost var leaked: multiset<Object>
    ghost var acks: seq<Ack>

    ghost function Now(): State
      reads this
    {
      State(repaired, nextTransactId, currentSequenceId, active, submitted, queue, pc, log, lastDocument, delivered,
            pending, refs, leaked, acks)
    }

    constructor (repaired: bool, storages: nat, drivers: nat)
      requires storages <= drivers
      ensures Inv(Now()) && Now() == Initial(repaired, storages, drivers)
    {
      this.repaired := repaired;
      nextTransactId, currentSequenceId := 1, 0;
      active, submitted, queue, pc, log := map[], [], [], Idle, [];
      lastDocument := Repeat(storages, 0);
      delivered, pending := Repeat(drivers, []), Repeat(drivers, []);
      refs, leaked, acks := multiset{}, multiset{}, [];
      new;
      InitialInv(repaired, storages, drivers);
    }

    // Client calls -------------------------------------------------------------

    method Begin() returns (id: int)
      requires Inv(Now()) && pc != Thrown
      modifies this`nextTransactId, this`active, this`refs
      ensures Inv(Now()) && Now() == AfterBegin(old(Now()))
      ensures id == old(nextTransactId) && nextTransactId == id + 1
      ensures id !in old(active) && active == old(active)[id := Transaction(Open, [], [])]
    {
      hide Inv;
      BeginInv(Now());
      FreshId(Now());
      id := nextTransactId;
      nextTransactId := nextTransactId + 1;
      active := active[id := Transaction(Open, [], [])];
      refs := refs + multiset{Live(id)};
    }

    /** Adds a mutation as it was passed in; the document id of an insertion is allocated here. */
    method UpdateMutation(trid: int, mutation: Mutation) returns (legal: bool, documentId: int)
      requires Inv(Now()) && Enabled(Now(), Event.UpdateMutation(trid, mutation))
      modifies this`active, this`lastDocument
      ensures Inv(Now()) && Now() == AfterUpdateMutation(old(Now()), trid, mutation)
      ensures legal <==> trid in active
      ensures legal ==> trid in old(active) && active == old(active)[trid := old(active[trid]).(
                mutations := old(active[trid].mutations) + [mutation.(documentId := documentId)])]
      ensures legal && mutation.kind == MutationType.Insert ==>
                && documentId == old(lastDocument)[mutation.storageIndex] + 1
                && lastDocument == old(lastDocument)[mutation.storageIndex := documentId]
      ensures mutation.kind == MutationType.Modify ==>
                documentId == mutation.documentId && lastDocument == old(lastDocument)
      ensures !legal ==> active == old(active) && lastDocument == old(lastDocument)
    {
      hide Inv;
      UpdateMutationInv(Now(), trid, mutation);
      documentId := mutation.documentId;
      if trid !in active {
        return false, documentId;
      }
      var transaction := active[trid];
      if mutation.kind == MutationType.Insert {
        documentId := lastDocument[mutation.storageIndex] + 1;
        lastDocument := lastDocument[mutation.storageIndex := documentId];
      }
      active := active[trid := transaction.(mutations := transaction.mutations
                                            + [mutation.(documentId := documentId)])];
      legal := true;
    }

    method UpdateConstraint(trid: int, constraint: Constraint) returns (legal: bool)
      requires Inv(Now()) && Enabled(Now(), Event.UpdateConstraint(trid, constraint))
      modifies this`active
      ensures Inv(Now()) && Now() == AfterUpdateConstraint(old(Now()), trid, constraint)
      ensures legal <==> trid in active
      ensures legal ==> trid in old(active) && active == old(active)[trid := old(active[trid]).(
                constraints := old(active[trid].constraints) + [constraint])]
      ensures !legal ==> active == old(active)
    {
      hide Inv;
      UpdateConstraintInv(Now(), trid, constraint);
      if trid !in active {
        return false;
      }
      var transaction := active[trid];
      active := active[trid := transaction.(constraints := transaction.constraints + [constraint])];
      legal := true;
    }

    /** `submit`, `submitCommit`, `commit` and `rollback`. */
    method Enqueue(kind: QueueType, trid: int) returns (legal: bool)
      requires Inv(Now()) && Enabled(Now(), Event.Enqueue(QueueItem(kind, trid)))
      modifies this`active, this`queue
      ensures Inv(Now()) && Now() == AfterEnqueue(old(Now()), QueueItem(kind, trid))
      ensures legal <==> trid in active
      ensures legal ==> trid in old(active) && queue == old(queue) + [QueueItem(kind, trid)]
      ensures legal && kind in {Submit, SubmitCommit} ==>
                active == old(active)[trid := old(active[trid]).(state := InSubmit)]
      ensures legal && kind in {Commit, Rollback} ==>
                active == old(active)[trid := old(active[trid]).(state := InCommitOrRollback)]
      ensures !legal ==> active == old(active) && queue == old(queue)
    {
      hide Inv;
      EnqueueInv(Now(), QueueItem(kind, trid));
      if trid !in active {
        return false;
      }
      var state := if kind == Submit || kind == SubmitCommit then InSubmit else InCommitOrRollback;
      active := active[trid := active[trid].(state := state)];
      queue := queue + [QueueItem(kind, trid)];
      legal := true;
    }

    // The queue processor ------------------------------------------------------

    method Process()
      requires Inv(Now()) && pc == Idle && queue != []
      modifies this`queue, this`pc
      ensures Inv(Now()) && Now() == Step(old(Now()), Event.Process)
      ensures pc == At(Taken, old(queue)[0], 0, 0) && queue == old(queue)[1..]
    {
      hide Inv;
      ProcessInv(Now());
      pc := At(Taken, queue[0], 0, 0);
      queue := queue[1..];
    }

    /** Whether every mutation is compatible with every constraint. */
    method CheckAll(mutations: seq<Mutation>, constraints: seq<Constraint>) returns (ok: bool)
      ensures ok <==> AllCompatible(mutations, constraints)
    {
      for i := 0 to |mutations|
        invariant forall k, j | 0 <= k < i && 0 <= j < |constraints| :: Compatible(mutations[k], constraints[j])
      {
        for j := 0 to |constraints|
          invariant forall k | 0 <= k < j :: Compatible(mutations[i], constraints[k])
        {
          if !Compatible(mutations[i], constraints[j]) {
            return false;
          }
        }
      }
      ok := true;
    }

    /** The conflict checks of a submission, against one submitted transaction after the other. */
    method Scan(transaction: Transaction) returns (v: Verdict)
      ensures v == Judge(active, submitted, transaction)
    {
      var i := 0;
      while i < |submitted|
        invariant 0 <= i <= |submitted|
        invariant Judge(active, submitted, transaction) == Judge(active, submitted[i..], transaction)
      {
        if submitted[i] !in active {
          return IllegalAt;
        }
        var other := active[submitted[i]];
        var ok := CheckAll(other.mutations, transaction.constraints);
        if !ok {
          return ConstraintConflict;
        }
        ok := CheckAll(transaction.mutations, other.constraints);
        if !ok {
          return MutationConflict;
        }
        i := i + 1;
      }
      v := Pass;
    }

    method ProcessSubmit() returns (v: Verdict)
      requires Inv(Now()) && pc.At? && pc.phase == Taken && QueuedState(pc.item.kind) == InSubmit
      modifies this`active, this`refs, this`pc
      ensures Inv(Now()) && Now() == AfterProcessSubmit(old(Now()))
      ensures v == Pass <==> pc.At?
      ensures v == IllegalAt <==> pc == Thrown
    {
      hide Inv, Judge;
      ProcessSubmitInv(Now());
      Working(Now());
      var trid := pc.item.trid;
      v := Scan(active[trid]);
      match v {
        case IllegalAt => pc := Thrown;
        case Pass => pc := pc.(phase := Checking, index := 0);
        case _ => Free(trid);
      }
    }

    /** The engine gives up its hold of a transaction. */
    method Free(trid: int)
      modifies this`active, this`refs, this`pc
      ensures Now() == Drop(old(Now()), trid)
    {
      active, refs, pc := active - {trid}, refs - multiset{Live(trid)}, Idle;
    }

    /** One constraint, whose document the storage found or not; or the end of the checks. */
    method SubmitCheckConstraint(found: bool)
      requires Inv(Now()) && pc.At? && pc.phase == Checking
      modifies this`active, this`refs, this`pc, this`currentSequenceId
      ensures old(pc.item.trid in active)
      ensures Inv(Now()) && Now() == AfterCheckConstraint(old(Now()), found)
    {
      hide Inv;
      Working(Now());
      CheckConstraintInv(Now(), found);
      var transaction := active[pc.item.trid];
      if pc.index >= |transaction.constraints| {
        currentSequenceId := currentSequenceId + 1;
        pc := pc.(phase := Logging, sequenceId := currentSequenceId);
      } else {
        var checkOkay := found || !transaction.constraints[pc.index].mustExist;
        if !checkOkay {
          Free(pc.item.trid);
        } else {
          pc := pc.(index := pc.index + 1);
        }
      }
    }

    method ProcessCommit()
      requires Inv(Now()) && pc.At? && pc.phase == Taken && pc.item.kind == Commit
      modifies this`pc, this`currentSequenceId
      ensures Inv(Now()) && Now() == AfterProcessCommit(old(Now())) && pc != Thrown
    {
      hide Inv;
      Working(Now());
      ProcessCommitInv(Now());
      currentSequenceId := currentSequenceId + 1;
      pc := pc.(phase := Logging, sequenceId := currentSequenceId);
    }

    /** `std::find` and `erase` on the submitted list. */
    method EraseSubmitted(trid: int)
      requires trid in submitted
      modifies this`submitted
      ensures submitted == Erase(old(submitted), trid)
    {
      var i := 0;
      while submitted[i] != trid
        invariant 0 <= i < |submitted| && trid !in submitted[..i] && submitted == old(submitted)
        decreases |submitted| - i
      {
        assert submitted[..i + 1] == submitted[..i] + [submitted[i]];
        i := i + 1;
      }
      EraseAt(submitted, trid, i);
      submitted := submitted[..i] + submitted[i + 1..];
    }

    method ProcessRollback()
      requires Inv(Now()) && pc.At? && pc.phase == Taken && pc.item.kind == Rollback
      modifies this`active, this`refs, this`pc, this`submitted
      ensures Inv(Now()) && Now() == AfterProcessRollback(old(Now())) && pc == Idle
    {
      hide Inv, Erase, Drop, AfterProcessRollback;
      ghost var s := Now();
      RolledBack(s);
      var trid := pc.item.trid;
      var takesBack := if repaired then trid in submitted else active[trid].state == Submitted;
      if takesBack {
        EraseSubmitted(trid);
      }
      Free(trid);
    }

    method LogEntryAhead()
      requires Inv(Now()) && pc.At? && pc.phase == Logging
      modifies this`log, this`pc
      ensures old(pc.item.trid in active)
      ensures Inv(Now()) && Now() == AfterWriteAhead(old(Now()))
      ensures old(pc.item.kind) in {Submit, SubmitCommit, Commit}
      ensures log == old(log) + [if old(pc.item.kind) == Submit then
                                   SubmitEntry(old(pc.item.trid), old(active[pc.item.trid].mutations))
                                 else if old(pc.item.kind) == SubmitCommit then
                                   SubmitCommitEntry(old(pc.item.trid), currentSequenceId,
                                                     old(active[pc.item.trid].mutations))
                                 else CommitEntry(old(pc.item.trid), currentSequenceId)]
    {
      hide Inv, BookOf;
      HasTransaction(Now());
      WriteAheadInv(Now());
      var trid := pc.item.trid;
      var entry: LogEntry;
      if pc.item.kind == Submit {
        entry := SubmitEntry(trid, active[trid].mutations);
      } else if pc.item.kind == SubmitCommit {
        entry := SubmitCommitEntry(trid, currentSequenceId, active[trid].mutations);
      } else {
        entry := CommitEntry(trid, currentSequenceId);
      }
      log := log + [entry];
      pc := pc.(phase := AfterLog);
    }

    /** `afterWriteAhead` and `submitComplete`. */
    method SubmitComplete()
      requires Inv(Now()) && pc.At? && pc.phase == AfterLog
      modifies this`active, this`submitted, this`pc
      ensures old(pc.item.trid in active)
      ensures Inv(Now()) && Now() == AfterLogged(old(Now()))
    {
      hide Inv, BookOf;
      ghost var s := Now();
      HasTransaction(s);
      var trid := pc.item.trid;
      if pc.item.kind == Submit {
        submitted := submitted + [trid];
        active := active[trid := active[trid].(state := Submitted)];
        pc := Idle;
      } else {
        if pc.item.kind == SubmitCommit {
          submitted := submitted + [trid];
        }
        pc := pc.(phase := Delivering, index := 0);
      }
      AfterLoggedInv(s);
    }

    /** The loop of `commitComplete`: the next driver gets the transaction. */
    method DeliverNext()
      requires Inv(Now()) && pc.At? && pc.phase == Delivering && pc.index < |delivered|
      modifies this`delivered, this`pending, this`refs, this`pc
      ensures old(pc.item.trid in active && |pending| == |delivered|)
      ensures Inv(Now()) && Now() == AfterDeliver(old(Now()))
      ensures delivered == old(delivered)[old(pc.index) := old(delivered[pc.index])
                                          + [Committed(old(pc.item.trid), old(pc.sequenceId),
                                                       old(active[pc.item.trid].mutations))]]
    {
      hide Inv, BookOf, AfterDeliver;
      ghost var s := Now();
      HasTransaction(s);
      var trid, d := pc.item.trid, pc.index;
      refs := refs + multiset{Live(trid)};
      delivered := delivered[d := delivered[d] + [Committed(trid, pc.sequenceId, active[trid].mutations)]];
      pending := pending[d := pending[d] + [Live(trid)]];
      pc := pc.(index := d + 1);
      DeliverInv(s);
      DeliveredNext(s);
    }

    /** The end of `commitComplete`; the client gets the sequence id. */
    method CommitComplete() returns (sequenceId: int)
      requires Inv(Now()) && pc.At? && pc.phase == Delivering && pc.index >= |delivered|
      modifies this`active, this`submitted, this`refs, this`pc, this`acks
      ensures old(pc.item.trid in active && |pending| == |delivered|)
      ensures Inv(Now()) && Now() == AfterDeliver(old(Now()))
      ensures acks == old(acks) + [Ack(old(pc.item.trid), sequenceId)] && sequenceId == old(pc.sequenceId)
    {
      hide Inv, BookOf, Erase, AfterDeliver, Distinct, Drop;
      ghost var s := Now();
      CommitCompleted(s);
      var trid := pc.item.trid;
      sequenceId := pc.sequenceId;
      EraseSubmitted(trid);
      acks := acks + [Ack(trid, sequenceId)];
      Free(trid);
    }

    /** A driver has applied its oldest item. */
    method RefDecrement(d: nat)
      requires Inv(Now()) && d < |pending| && pending[d] != []
      modifies this`pending, this`refs
      ensures old(refs[pending[d][0]]) > 0
      ensures Inv(Now()) && Now() == AfterComplete(old(Now()), d)
    {
      hide Inv;
      CompleteInv(Now(), d);
      refs := refs - multiset{pending[d][0]};
      pending := pending[d := pending[d][1..]];
    }

    // Recovery -----------------------------------------------------------------

    /** A replay closure over the log. It throws where a commit has no submission, which no
        reachable log has. */
    method Replay() returns (b: Book)
      ensures b == BookOf(log)
    {
      b := NewBook();
      var i := 0;
      while i < |log|
        invariant 0 <= i <= |log| && b == BookOf(log[..i])
      {
        assert log[..i + 1][..i] == log[..i];
        b := Enter(b, log[i]);
        i := i + 1;
      }
      assert log[..|log|] == log;
    }

    /** `onSubmitted` for the transactions that are left, in the order of the closure's map. */
    method RestoreSubmitted(b: Book, order: seq<int>)
      requires Permutes(order, b.open.Keys)
      modifies this`active, this`submitted, this`refs, this`leaked
      ensures active == RecoveredActive(b) && submitted == order
      ensures refs == Holds(b.open.Keys) + Holds(b.open.Keys) && leaked == Holds(b.open.Keys)
    {
      hide Holds, RecoveredOf, RecoveredActive;
      HoldsNothing();
      RecoveredEnds(b);
      active, submitted, refs := map[], [], multiset{};
      ghost var done: set<int> := {};
      for i := 0 to |order|
        invariant done <= b.open.Keys && done == set t | t in order[..i]
        invariant active == RecoveredOf(b, done)
        invariant submitted == order[..i] && refs == Holds(done) + Holds(done)
      {
        var t := order[i];
        assert order[..i + 1] == order[..i] + [t];
        HoldsMore(done, t);
        RecoveredMore(b, done, t);
        done := done + {t};
        active := active[t := Recovered(b.open[t])];
        submitted := submitted + [t];
        refs := refs + multiset{Live(t)} + multiset{Live(t)};
      }
      assert order[..|order|] == order;
      assert forall t :: t in done <==> t in b.open.Keys;
      assert done == b.open.Keys;
      leaked := Holds(b.open.Keys);
    }

    method ReplayMeta(b: Book, order: seq<int>)
      requires Permutes(order, b.open.Keys)
      modifies this`nextTransactId, this`currentSequenceId, this`active, this`submitted, this`queue, this`pc,
               this`refs, this`leaked
      ensures Now() == AfterMeta(old(Now()), b, order)
    {
      hide Holds, RecoveredActive, Permutes;
      nextTransactId, currentSequenceId := b.nextTransactId, b.currentSequenceId;
      queue, pc := [], Idle;
      RestoreSubmitted(b, order);
    }

    method ReplayData(b: Book)
      modifies this`lastDocument, this`delivered, this`pending, this`refs
      ensures Now() == AfterData(old(Now()), b)
    {
      hide AllReplayed, Repeat, CountAll, Outstanding;
      lastDocument := Repeat(|lastDocument|, b.lastDocumentId);
      pending := AllReplayed(|delivered|, |b.commits|);
      delivered := Repeat(|delivered|, b.commits);
      refs := refs + CountAll(pending);
    }

    /** A start from the log: the meta replay, and one data replay per driver. `order` is the
        order in which replay comes across the transactions that are left. */
    method LoadConfig(order: seq<int>)
      requires Inv(Now()) && Enabled(Now(), Restart(order))
      modifies this
      ensures Inv(Now()) && Now() == AfterRestart(old(Now()), order) && pc == Idle
    {
      hide Inv, BookOf, AfterMeta, AfterData, Permutes;
      ghost var s := Now();
      var b := Replay();
      ReplayMeta(b, order);
      ReplayData(b);
      InvBookOk(s);
      RestartInv(s, order);
      RestartIdle(s, order);
    }
  }

  function CountAll(pending: seq<seq<Object>>): (r: multiset<Object>)
    ensures r == Outstanding(pending)
  {
    if pending == [] then multiset{} else CountAll(pending[..|pending| - 1]) + multiset(pending[|pending| - 1])
  }

  lemma {:induction false} EraseAt(s: seq<int>, t: int, i: nat)
    requires i < |s| && s[i] == t && t !in s[..i]
    ensures Erase(s, t) == s[..i] + s[i + 1..]
  {
    if i > 0 {
      assert s[0] in s[..i] && s[..i] == [s[0]] + s[1..][..i - 1];
      EraseAt(s[1..], t, i - 1);
      assert s[1..][i..] == s[i + 1..];
    }
  }

  lemma HoldsNothing()
    ensures Holds({}) == multiset{}
  {
    assert (set t: int | t in {} :: Live(t)) == {};
  }

  ghost function RecoveredOf(b: Book, done: set<int>): map<int, Transaction>
    requires done <= b.open.Keys
  {
    map t | t in done :: Recovered(b.open[t])
  }

  lemma RecoveredMore(b: Book, done: set<int>, t: int)
    requires done <= b.open.Keys && t in b.open
    ensures RecoveredOf(b, done + {t}) == RecoveredOf(b, done)[t := Recovered(b.open[t])]
  {
  }

  lemma RecoveredEnds(b: Book)
    ensures RecoveredOf(b, {}) == map[] && RecoveredOf(b, b.open.Keys) == RecoveredActive(b)
  {
  }

  lemma HasTransaction(s: State)
    requires Inv(s) && s.pc.At?
    ensures s.pc.item.trid in s.active && |s.pending| == |s.delivered| && Proper(s.pc)
  {
    Working(s);
  }

  lemma DeliveredNext(s: State)
    requires s.pc.At? && s.pc.item.trid in s.active && s.pc.index < |s.pending| == |s.delivered|
    ensures var t, d := s.pc.item.trid, s.pc.index;
            AfterDeliver(s) == s.(delivered := s.delivered[d := s.delivered[d]
                                                           + [Committed(t, s.pc.sequenceId, s.active[t].mutations)]],
                                  pending := s.pending[d := s.pending[d] + [Live(t)]],
                                  refs := s.refs + multiset{Live(t)}, pc := s.pc.(index := d + 1))
  {
  }

  lemma CommitCompleted(s: State)
    requires Inv(s) && s.pc.At? && s.pc.phase == Delivering && s.pc.index >= |s.delivered|
    ensures var t := s.pc.item.trid;
            && t in s.active && t in s.submitted && |s.pending| == |s.delivered| && Inv(AfterDeliver(s))
            && AfterDeliver(s) ==
                Drop(s.(submitted := Erase(s.submitted, t), acks := s.acks + [Ack(t, s.pc.sequenceId)]), t)
  {
    hide Inv, BookOf;
    Sizes(s);
    Working(s);
    CommitCompleteInv(s);
  }

  lemma RolledBack(s: State)
    requires Inv(s) && s.pc.At? && s.pc.phase == Taken && s.pc.item.kind == Rollback
    ensures var t := s.pc.item.trid;
            && t in s.active && (s.active[t].state == Submitted ==> t in s.submitted) && Inv(AfterProcessRollback(s))
            && AfterProcessRollback(s) ==
                Drop(s.(submitted := if TakesBack(s, t) then Erase(s.submitted, t) else s.submitted), t)
            && AfterProcessRollback(s).pc == Idle
  {
    hide ConflictFree, Passed, LogAgrees, Delivered, Counted, Documents, Durable, BookOf, Erase;
    Working(s);
    RollbackInv(s);
  }

  lemma RestartIdle(s: State, order: seq<int>)
    requires BookOf(s.log).ok
    ensures AfterRestart(s, order).pc == Idle
  {
    hide BookOf;
  }

  lemma Sizes(s: State)
    requires Inv(s)
    ensures |s.pending| == |s.delivered|
  {
  }

  lemma InvBookOk(s: State)
    requires Inv(s)
    ensures BookOf(s.log).ok
  {
    hide BookOf, Queueing, ConflictFree, Passed, Delivered, Counted, Documents, Durable;
  }

  lemma AfterLoggedInv(s: State)
    requires Inv(s) && s.pc.At? && s.pc.phase == AfterLog
    ensures s.pc.item.trid in s.active && Inv(AfterLogged(s))
  {
    ProperLogging(s);
    match s.pc.item.kind {
      case Submit => SubmittedInv(s);
      case SubmitCommit => MergedInv(s);
      case _ => CommitLoggedInv(s);
    }
  }
}
