/** Every step keeps every part of the engine's invariant. */
module EngineProofs {
  import opened DbTypes
  import opened EngineLogs
  import opened EngineSteps
  import opened EngineInvariants

  // ------------------------------------------------------------------
  // Client calls
  // ------------------------------------------------------------------

  lemma FreshId(s: State)
    requires Inv(s)
    ensures s.nextTransactId !in s.active && s.nextTransactId !in s.submitted
    ensures var b := BookOf(s.log);
            && s.nextTransactId !in b.open
            && forall i | 0 <= i < |b.commits| :: b.commits[i].trid != s.nextTransactId
    ensures forall i | 0 <= i < |s.acks| :: s.acks[i].trid != s.nextTransactId
  {
    hide BookOf;
    BookBeyond(s.log);
    forall i | 0 <= i < |s.acks| ensures s.acks[i].trid != s.nextTransactId {
      assert IsCommit(BookOf(s.log).commits, s.acks[i]);
    }
  }

  lemma BeginQueueing(s: State)
    requires Queueing(s.active, s.submitted, s.queue, s.pc, s.nextTransactId, s.repaired)
    ensures var t := AfterBegin(s); Queueing(t.active, t.submitted, t.queue, t.pc, t.nextTransactId, t.repaired)
  {
    hide Items;
    var t := AfterBegin(s);
    var items := Items(s.pc, s.queue);
    forall i | 0 <= i < |items| ensures Waiting(t.active, t.submitted, items[i]) {
      assert Waiting(s.active, s.submitted, items[i]);
    }
    forall u | u in t.submitted ensures u < t.nextTransactId && Listed(t.active, t.pc, t.repaired, u) {
      assert Listed(s.active, s.pc, s.repaired, u);
    }
  }

  lemma BeginInv(s: State)
    requires Inv(s)
    ensures Inv(AfterBegin(s))
  {
    hide Queueing, Delivered, Durable, Holds, Outstanding, BookOf;
    FreshId(s);
    var t := AfterBegin(s);
    BeginQueueing(s);
    HoldsMore(s.active.Keys, s.nextTransactId);
    assert t.active.Keys == s.active.Keys + {s.nextTransactId};
  }

  lemma HoldsMore(ids: set<int>, t: int)
    requires t !in ids
    ensures Holds(ids + {t}) == Holds(ids) + multiset{Live(t)}
  {
    assert (set u | u in ids + {t} :: Live(u)) == (set u | u in ids :: Live(u)) + {Live(t)};
  }

  lemma HoldsLess(ids: set<int>, t: int)
    requires t in ids
    ensures Holds(ids) == Holds(ids - {t}) + multiset{Live(t)}
  {
    HoldsMore(ids - {t}, t);
    assert ids - {t} + {t} == ids;
  }

  /** An open transaction is neither queued nor submitted nor logged. */
  lemma OpenIsApart(s: State, trid: int)
    requires Inv(s) && trid in s.active && s.active[trid].state == Open
    ensures trid !in s.submitted && trid !in BookOf(s.log).open
    ensures forall i | 0 <= i < |Items(s.pc, s.queue)| :: Items(s.pc, s.queue)[i].trid != trid
    ensures s.pc.At? ==> s.pc.item.trid != trid
  {
    var items := Items(s.pc, s.queue);
    forall i | 0 <= i < |items| ensures items[i].trid != trid {
      assert Waiting(s.active, s.submitted, items[i]);
    }
    if s.pc.At? {
      assert items[0] == s.pc.item;
    }
    assert trid in s.submitted ==> Listed(s.active, s.pc, s.repaired, trid);
  }

  lemma UpdateQueueing(s: State, trid: int, x: Transaction)
    requires Queueing(s.active, s.submitted, s.queue, s.pc, s.nextTransactId, s.repaired)
    requires trid in s.active && s.active[trid].state == x.state == Open && trid !in s.submitted
    ensures Queueing(s.active[trid := x], s.submitted, s.queue, s.pc, s.nextTransactId, s.repaired)
  {
    hide Items;
    var items := Items(s.pc, s.queue);
    forall i | 0 <= i < |items| ensures Waiting(s.active[trid := x], s.submitted, items[i]) {
      assert Waiting(s.active, s.submitted, items[i]);
    }
    forall u | u in s.submitted ensures Listed(s.active[trid := x], s.pc, s.repaired, u) {
      assert Listed(s.active, s.pc, s.repaired, u);
    }
  }

  /** Changes of an open transaction keep everything but the documents. */
  lemma UpdateInv(s: State, trid: int, x: Transaction, lastDocument: seq<int>)
    requires Inv(s) && trid in s.active && s.active[trid].state == x.state == Open
    requires |lastDocument| == |s.lastDocument|
    requires Documents(s.active[trid := x], s.log, lastDocument)
    ensures Inv(s.(active := s.active[trid := x], lastDocument := lastDocument))
  {
    hide Queueing, Delivered, Durable, Holds, Outstanding, BookOf, Documents;
    OpenIsApart(s, trid);
    UpdateQueueing(s, trid, x);
    assert s.active[trid := x].Keys == s.active.Keys;
  }

  /** Counters only grow. */
  lemma AllocatedGrows(ms: seq<Mutation>, last: seq<int>, last': seq<int>)
    requires Allocated(ms, last) && Stored(ms, last)
    requires |last| == |last'| && forall x | 0 <= x < |last| :: last[x] <= last'[x]
    ensures Allocated(ms, last') && Stored(ms, last')
  {
  }

  lemma DocumentsGrow(active: map<int, Transaction>, log: seq<LogEntry>, last: seq<int>, last': seq<int>)
    requires Documents(active, log, last)
    requires |last| == |last'| && forall x | 0 <= x < |last| :: last[x] <= last'[x]
    ensures Documents(active, log, last')
  {
    hide Allocated, Stored;
    forall t | t in active ensures Allocated(active[t].mutations, last') && Stored(active[t].mutations, last') {
      AllocatedGrows(active[t].mutations, last, last');
    }
    forall i | 0 <= i < |log| ensures Allocated(MutationsIn(log[i]), last') && Stored(MutationsIn(log[i]), last') {
      AllocatedGrows(MutationsIn(log[i]), last, last');
    }
  }

  lemma NewMutation(ms: seq<Mutation>, m: Mutation, last: seq<int>)
    requires Allocated(ms, last) && Stored(ms, last)
    requires 0 <= m.storageIndex < |last| && (m.kind == MutationType.Insert ==> m.documentId <= last[m.storageIndex])
    ensures Allocated(ms + [m], last) && Stored(ms + [m], last)
  {
  }

  lemma UpdateMutationInv(s: State, trid: int, m: Mutation)
    requires Inv(s) && Enabled(s, UpdateMutation(trid, m))
    ensures Inv(AfterUpdateMutation(s, trid, m))
  {
    hide Queueing, ConflictFree, Passed, LogAgrees, Delivered, Counted, Durable, Allocated, Stored;
    if trid in s.active {
      var t := AfterUpdateMutation(s, trid, m);
      DocumentsGrow(s.active, s.log, s.lastDocument, t.lastDocument);
      var n := if m.kind == MutationType.Insert then m.(documentId := s.lastDocument[m.storageIndex] + 1) else m;
      NewMutation(s.active[trid].mutations, n, t.lastDocument);
      UpdateInv(s, trid, t.active[trid], t.lastDocument);
    }
  }

  lemma UpdateConstraintInv(s: State, trid: int, c: Constraint)
    requires Inv(s) && Enabled(s, UpdateConstraint(trid, c))
    ensures Inv(AfterUpdateConstraint(s, trid, c))
  {
    if trid in s.active {
      var t := AfterUpdateConstraint(s, trid, c);
      assert Documents(t.active, t.log, t.lastDocument) by {
        hide Allocated, Stored;
      }
      UpdateInv(s, trid, t.active[trid], t.lastDocument);
    }
  }

  /** A transaction that can still be queued is not queued. */
  lemma NotQueued(s: State, trid: int)
    requires Inv(s) && trid in s.active && s.active[trid].state in {Open, Submitted}
    ensures forall i | 0 <= i < |Items(s.pc, s.queue)| :: Items(s.pc, s.queue)[i].trid != trid
    ensures s.pc.At? ==> s.pc.item.trid != trid
    ensures s.active[trid].state == Submitted <==> trid in s.submitted
  {
    var items := Items(s.pc, s.queue);
    forall i | 0 <= i < |items| ensures items[i].trid != trid {
      assert Waiting(s.active, s.submitted, items[i]);
    }
    if s.pc.At? {
      assert items[0] == s.pc.item;
    }
    assert trid in s.submitted ==> Listed(s.active, s.pc, s.repaired, trid);
  }

  function Restated(active: map<int, Transaction>, trid: int, state: TxState): map<int, Transaction>
    requires trid in active
  {
    active[trid := active[trid].(state := state)]
  }

  lemma ItemsMore(pc: Processor, queue: seq<QueueItem>, item: QueueItem)
    ensures Items(pc, queue + [item]) == Items(pc, queue) + [item]
  {
  }

  lemma WaitingOn(active: map<int, Transaction>, submitted: seq<int>, item: QueueItem, trid: int, state: TxState)
    requires Waiting(active, submitted, item) && trid in active && item.trid != trid
    ensures Waiting(Restated(active, trid, state), submitted, item)
  {
  }

  lemma ListedStill(active: map<int, Transaction>, pc: Processor, repaired: bool, t: int, trid: int, state: TxState)
    requires Listed(active, pc, repaired, t) && trid in active && (t == trid ==> state == InCommitOrRollback)
    ensures Listed(Restated(active, trid, state), pc, repaired, t)
  {
  }

  lemma EnqueueQueueing(s: State, item: QueueItem)
    requires Inv(s) && Enabled(s, Enqueue(item)) && item.trid in s.active
    ensures var t := AfterEnqueue(s, item); Queueing(t.active, t.submitted, t.queue, t.pc, t.nextTransactId, t.repaired)
  {
    hide Items, Listed, Distinct, ConflictFree, Passed, LogAgrees, Delivered, Counted, Documents, Durable, BookOf;
    var trid, state := item.trid, QueuedState(item.kind);
    NotQueued(s, trid);
    ItemsMore(s.pc, s.queue, item);
    var items := Items(s.pc, s.queue);
    forall i | 0 <= i < |items| ensures Waiting(Restated(s.active, trid, state), s.submitted, items[i]) {
      WaitingOn(s.active, s.submitted, items[i], trid, state);
    }
    forall u | u in s.submitted ensures Listed(Restated(s.active, trid, state), s.pc, s.repaired, u) {
      ListedStill(s.active, s.pc, s.repaired, u, trid, state);
    }
  }

  lemma RestateAgree(active: map<int, Transaction>, submitted: seq<int>, pc: Processor, trid: int, state: TxState)
    requires trid in active
    ensures ConflictFree(active, submitted) ==> ConflictFree(Restated(active, trid, state), submitted)
    ensures Passed(active, submitted, pc) ==> Passed(Restated(active, trid, state), submitted, pc)
  {
    hide AllCompatible;
  }

  lemma RestateDocuments(active: map<int, Transaction>, log: seq<LogEntry>, last: seq<int>, trid: int, state: TxState)
    requires trid in active && Documents(active, log, last)
    ensures Documents(Restated(active, trid, state), log, last)
  {
    hide Allocated, Stored, MutationsIn;
  }

  /** A queued commit or rollback is allowed for what the log says was submitted; a queued
      submission is not in the log. */
  lemma RestateLog(active: map<int, Transaction>, submitted: seq<int>, pc: Processor, b: Book, current: int, next: int,
                   trid: int, state: TxState)
    requires trid in active && LogAgrees(active, submitted, pc, b, current, next)
    requires state in {Submitted, InCommitOrRollback} || trid !in b.open
    ensures LogAgrees(Restated(active, trid, state), submitted, pc, b, current, next)
  {
    hide Increasing, AsInserts;
  }

  lemma EnqueueInv(s: State, item: QueueItem)
    requires Inv(s) && Enabled(s, Enqueue(item))
    ensures Inv(AfterEnqueue(s, item))
  {
    hide Queueing, Delivered, Durable, Holds, Outstanding, BookOf, Documents, LogAgrees, ConflictFree, Passed;
    if item.trid in s.active {
      var state := QueuedState(item.kind);
      EnqueueQueueing(s, item);
      assert Restated(s.active, item.trid, state).Keys == s.active.Keys;
      if item.kind == Submit || item.kind == SubmitCommit {
        OpenIsApart(s, item.trid);
      }
      RestateAgree(s.active, s.submitted, s.pc, item.trid, state);
      RestateDocuments(s.active, s.log, s.lastDocument, item.trid, state);
      RestateLog(s.active, s.submitted, s.pc, BookOf(s.log), s.currentSequenceId, s.nextTransactId, item.trid, state);
    }
  }

  // ------------------------------------------------------------------
  // The processor
  // ------------------------------------------------------------------

  lemma TakenQueueing(s: State)
    requires Queueing(s.active, s.submitted, s.queue, Idle, s.nextTransactId, s.repaired) && s.queue != []
    ensures Queueing(s.active, s.submitted, s.queue[1..], At(Taken, s.queue[0], 0, 0), s.nextTransactId, s.repaired)
  {
    var pc := At(Taken, s.queue[0], 0, 0);
    assert Items(pc, s.queue[1..]) == s.queue == Items(Idle, s.queue);
    forall u | u in s.submitted ensures Listed(s.active, pc, s.repaired, u) {
      assert Listed(s.active, Idle, s.repaired, u);
    }
  }

  lemma TakenLog(s: State, item: QueueItem)
    requires LogAgrees(s.active, s.submitted, Idle, BookOf(s.log), s.currentSequenceId, s.nextTransactId)
    ensures LogAgrees(s.active, s.submitted, At(Taken, item, 0, 0), BookOf(s.log), s.currentSequenceId,
                      s.nextTransactId)
  {
    hide BookOf, Increasing, LogTells;
  }

  lemma ProcessInv(s: State)
    requires Inv(s) && Enabled(s, Process)
    ensures Inv(Step(s, Process))
  {
    hide Queueing, ConflictFree, LogAgrees, Delivered, Durable, Counted, BookOf, Documents;
    TakenQueueing(s);
    TakenLog(s, s.queue[0]);
    GivenSame(s, At(Taken, s.queue[0], 0, 0));
  }

  /** The processor's item stays first while it is worked on. */
  lemma ItemsKept(pc: Processor, pc': Processor, queue: seq<QueueItem>)
    requires pc.At? && pc'.At? && pc.item == pc'.item
    ensures Items(pc, queue) == Items(pc', queue)
  {
  }

  lemma ItemsDone(pc: Processor, queue: seq<QueueItem>)
    requires pc.At?
    ensures Items(pc, queue)[0] == pc.item && Items(Idle, queue) == Items(Thrown, queue) == queue
    ensures |Items(pc, queue)| == |queue| + 1 && forall i | 0 <= i < |queue| :: Items(pc, queue)[i + 1] == queue[i]
  {
  }

  /** No two items are about the same transaction. */
  lemma QueueApart(s: State)
    requires Queueing(s.active, s.submitted, s.queue, s.pc, s.nextTransactId, s.repaired) && s.pc.At?
    ensures forall i | 0 <= i < |s.queue| :: s.queue[i].trid != s.pc.item.trid
    ensures s.pc.item.kind == Rollback ==> s.pc.phase == Taken
  {
    ItemsDone(s.pc, s.queue);
    var items := Items(s.pc, s.queue);
    forall i | 0 <= i < |s.queue| ensures s.queue[i].trid != s.pc.item.trid {
      assert items[i + 1] == s.queue[i] && items[0] == s.pc.item;
    }
  }

  /** The processor's transaction, as its queue item says. */
  lemma Working(s: State)
    requires Inv(s) && s.pc.At?
    ensures var t := s.pc.item.trid;
            && Waiting(s.active, s.submitted, s.pc.item)
            && t < s.nextTransactId
            && (t in s.submitted && QueuedState(s.pc.item.kind) == InSubmit ==> Merging(s.pc, t))
            && (s.pc.phase != Delivering && QueuedState(s.pc.item.kind) == InSubmit ==> t !in s.submitted)
  {
    ItemsDone(s.pc, s.queue);
    assert s.pc.item.trid in s.submitted ==> Listed(s.active, s.pc, s.repaired, s.pc.item.trid);
  }

  /** The processor goes on with the same item and leaves the lists alone. */
  lemma PhaseQueueing(s: State, pc: Processor)
    requires Inv(s) && s.pc.At? && pc.At? && s.pc.item == pc.item && s.pc.phase != Delivering && pc.phase != Delivering
    requires Proper(pc)
    ensures Queueing(s.active, s.submitted, s.queue, pc, s.nextTransactId, s.repaired)
  {
    hide Items, ConflictFree, Passed, LogAgrees, Delivered, Counted, Documents, Durable, Waiting;
    ItemsKept(s.pc, pc, s.queue);
    forall u | u in s.submitted ensures Listed(s.active, pc, s.repaired, u) {
      assert Listed(s.active, s.pc, s.repaired, u);
    }
  }

  lemma GivenSame(s: State, pc: Processor)
    requires Delivered(s.delivered, s.pc, BookOf(s.log).commits)
    requires forall d | 0 <= d < |s.delivered| ::
               Given(pc, |BookOf(s.log).commits|, d) == Given(s.pc, |BookOf(s.log).commits|, d)
    ensures Delivered(s.delivered, pc, BookOf(s.log).commits)
  {
    hide BookOf, Norms, Given;
    forall d | 0 <= d < |s.delivered| ensures DeliveredTo(s.delivered[d], pc, BookOf(s.log).commits, d) {
      assert DeliveredTo(s.delivered[d], s.pc, BookOf(s.log).commits, d);
    }
  }

  // The end of a transaction ------------------------------------------------

  /** `left` is the submitted list, possibly without `trid`. */
  ghost predicate Leaves(submitted: seq<int>, left: seq<int>, trid: int) {
    && Distinct(left)
    && (forall t | t in left :: t in submitted)
    && (forall t | t in submitted && t != trid :: t in left)
  }

  lemma {:induction false} Erased(s: seq<int>, t: int)
    requires Distinct(s)
    ensures Distinct(Erase(s, t)) && forall u :: u in Erase(s, t) <==> u in s && u != t
  {
    if s != [] {
      var e := Erase(s[1..], t);
      Erased(s[1..], t);
      assert s == [s[0]] + s[1..];
      forall i, j | 0 <= i < j < |[s[0]] + e| ensures s[0] != t ==> ([s[0]] + e)[i] != ([s[0]] + e)[j] {
        assert e[j - 1] in e;
      }
      assert forall u | u in s[1..] :: u != s[0];
    }
  }

  /** The queue without the processor's item. */
  lemma RestWaiting(s: State, left: seq<int>)
    requires Queueing(s.active, s.submitted, s.queue, s.pc, s.nextTransactId, s.repaired)
    requires s.pc.At? && Leaves(s.submitted, left, s.pc.item.trid)
    ensures forall i | 0 <= i < |s.queue| :: Waiting(s.active - {s.pc.item.trid}, left, s.queue[i])
    ensures forall i, j | 0 <= i < j < |s.queue| :: s.queue[i].trid != s.queue[j].trid
  {
    hide Items, Listed, Distinct;
    ItemsDone(s.pc, s.queue);
    var items := Items(s.pc, s.queue);
    forall i | 0 <= i < |s.queue| ensures Waiting(s.active - {s.pc.item.trid}, left, s.queue[i]) {
      assert s.queue[i] == items[i + 1];
      assert Waiting(s.active, s.submitted, items[i + 1]) && items[0].trid != items[i + 1].trid;
    }
    forall i, j | 0 <= i < j < |s.queue| ensures s.queue[i].trid != s.queue[j].trid {
      assert s.queue[i] == items[i + 1] && s.queue[j] == items[j + 1];
    }
  }

  lemma EndQueueing(s: State, left: seq<int>)
    requires Queueing(s.active, s.submitted, s.queue, s.pc, s.nextTransactId, s.repaired)
    requires s.pc.At? && s.pc.item.trid in s.active && Leaves(s.submitted, left, s.pc.item.trid)
    requires s.pc.item.trid in left ==> !s.repaired
    ensures Queueing(s.active - {s.pc.item.trid}, left, s.queue, Idle, s.nextTransactId, s.repaired)
  {
    hide Items, Waiting;
    var active := s.active - {s.pc.item.trid};
    ItemsDone(s.pc, s.queue);
    RestWaiting(s, left);
    forall u | u in left ensures u < s.nextTransactId && Listed(active, Idle, s.repaired, u) {
      assert u in s.submitted && Listed(s.active, s.pc, s.repaired, u);
    }
  }

  lemma EndAgree(s: State, left: seq<int>)
    requires ConflictFree(s.active, s.submitted) && s.pc.At? && Leaves(s.submitted, left, s.pc.item.trid)
    ensures ConflictFree(s.active - {s.pc.item.trid}, left) && Passed(s.active - {s.pc.item.trid}, left, Idle)
  {
    hide Agree;
  }

  lemma EndLog(s: State, left: seq<int>)
    requires s.pc.At? && Leaves(s.submitted, left, s.pc.item.trid)
    requires LogAgrees(s.active, s.submitted, s.pc, BookOf(s.log), s.currentSequenceId, s.nextTransactId)
    ensures LogAgrees(s.active - {s.pc.item.trid}, left, Idle, BookOf(s.log), s.currentSequenceId, s.nextTransactId)
  {
    hide BookOf, Increasing, AsInserts;
  }

  lemma EndDocuments(active: map<int, Transaction>, log: seq<LogEntry>, last: seq<int>, t: int)
    requires Documents(active, log, last)
    ensures Documents(active - {t}, log, last)
  {
    hide Allocated, Stored, MutationsIn;
  }

  /** A transaction ends: all drivers have what was committed, and the engine gives up its hold. */
  lemma DropInv(s: State, left: seq<int>, acks: seq<Ack>)
    requires Inv(s) && s.pc.At? && s.pc.item.trid in s.active && Leaves(s.submitted, left, s.pc.item.trid)
    requires s.pc.item.trid in left ==> !s.repaired
    requires PastCommit(s.pc) ==> s.pc.phase == Delivering && s.pc.index >= |s.delivered|
    requires Durable(acks, BookOf(s.log).commits) && Finished(acks, s.active - {s.pc.item.trid})
    ensures Inv(Drop(s, s.pc.item.trid).(submitted := left, acks := acks))
  {
    hide Queueing, ConflictFree, Passed, LogAgrees, Delivered, Documents, Durable, Holds, Outstanding, BookOf, Leaves;
    var t := s.pc.item.trid;
    EndQueueing(s, left);
    EndAgree(s, left);
    EndLog(s, left);
    EndDocuments(s.active, s.log, s.lastDocument, t);
    GivenSame(s, Idle);
    HoldsLess(s.active.Keys, t);
    assert (s.active - {t}).Keys == s.active.Keys - {t};
  }

  lemma FailureInv(s: State)
    requires Inv(s) && s.pc.At? && s.pc.phase in {Taken, Checking} && QueuedState(s.pc.item.kind) == InSubmit
    ensures Inv(Drop(s, s.pc.item.trid))
  {
    hide ConflictFree, Passed, LogAgrees, Delivered, Counted, Documents, BookOf;
    Working(s);
    assert Leaves(s.submitted, s.submitted, s.pc.item.trid);
    DropInv(s, s.submitted, s.acks);
    assert Drop(s, s.pc.item.trid) == Drop(s, s.pc.item.trid).(submitted := s.submitted, acks := s.acks);
  }

  lemma RollbackInv(s: State)
    requires Inv(s) && s.pc.At? && s.pc.phase == Taken && s.pc.item.kind == Rollback
    ensures Inv(AfterProcessRollback(s))
  {
    hide ConflictFree, Passed, LogAgrees, Delivered, Counted, Documents, BookOf;
    Working(s);
    var t := s.pc.item.trid;
    var left := if TakesBack(s, t) then Erase(s.submitted, t) else s.submitted;
    Erased(s.submitted, t);
    assert Leaves(s.submitted, left, t);
    DropInv(s, left, s.acks);
    assert AfterProcessRollback(s) == Drop(s, t).(submitted := left, acks := s.acks);
  }

  // Submission -------------------------------------------------------------

  /** The scan passes exactly when all submitted transactions are active and agree; it throws
      exactly when it comes to one that is not active before any conflict. */
  lemma {:induction false} JudgeMeans(active: map<int, Transaction>, submitted: seq<int>, t: Transaction)
    ensures Judge(active, submitted, t) == Pass <==> forall u | u in submitted :: u in active && Agree(active[u], t)
    ensures Judge(active, submitted, t) == IllegalAt <==>
            exists i :: 0 <= i < |submitted| && ThrowsAt(active, submitted, t, i)
  {
    if submitted != [] {
      var u, rest := submitted[0], submitted[1..];
      JudgeMeans(active, rest, t);
      assert forall v :: v in submitted <==> v == u || v in rest;
      if u !in active {
        assert ThrowsAt(active, submitted, t, 0);
      } else if Agree(active[u], t) {
        forall i | 0 < i < |submitted| ensures ThrowsAt(active, rest, t, i - 1) <==> ThrowsAt(active, submitted, t, i) {
          ThrowsLater(active, submitted, t, i - 1);
        }
        forall i | 0 <= i < |rest| && ThrowsAt(active, rest, t, i) ensures ThrowsAt(active, submitted, t, i + 1) {
          ThrowsLater(active, submitted, t, i);
        }
        assert !ThrowsAt(active, submitted, t, 0);
      } else {
        assert forall i | 0 <= i < |submitted| :: !ThrowsAt(active, submitted, t, i);
      }
    }
  }

  /** The scan reaches entry `i`, and that transaction is not active. */
  ghost predicate ThrowsAt(active: map<int, Transaction>, submitted: seq<int>, t: Transaction, i: int)
    requires 0 <= i < |submitted|
  {
    submitted[i] !in active && forall j | 0 <= j < i :: submitted[j] in active && Agree(active[submitted[j]], t)
  }

  lemma ThrowsLater(active: map<int, Transaction>, submitted: seq<int>, t: Transaction, i: int)
    requires 0 <= i < |submitted| - 1 && submitted[0] in active && Agree(active[submitted[0]], t)
    ensures ThrowsAt(active, submitted[1..], t, i) <==> ThrowsAt(active, submitted, t, i + 1)
  {
    hide Agree;
    var rest := submitted[1..];
    if ThrowsAt(active, submitted, t, i + 1) {
      forall j | 0 <= j < i ensures rest[j] in active && Agree(active[rest[j]], t) {
        assert rest[j] == submitted[j + 1];
      }
    }
    if ThrowsAt(active, rest, t, i) {
      forall j | 0 <= j < i + 1 ensures submitted[j] in active && Agree(active[submitted[j]], t) {
        assert j > 0 ==> submitted[j] == rest[j - 1];
      }
    }
  }

  /** The log is not concerned while the processor works on an item it has not logged. */
  lemma UnloggedPhase(s: State, pc: Processor, current: int)
    requires LogAgrees(s.active, s.submitted, s.pc, BookOf(s.log), s.currentSequenceId, s.nextTransactId)
    requires s.currentSequenceId >= 0
    requires !PastCommit(s.pc) && !PastSubmit(s.pc) && !PastCommit(pc) && !PastSubmit(pc)
             && current >= s.currentSequenceId
    requires pc.At? && pc.phase == Logging ==> pc.sequenceId == current > s.currentSequenceId
    requires pc.At? ==> pc.phase in {Taken, Checking, Logging}
    ensures LogAgrees(s.active, s.submitted, pc, BookOf(s.log), current, s.nextTransactId)
  {
    hide BookOf, LogTells;
  }

  /** The processor goes on with an item it has not logged. */
  lemma UnloggedInv(s: State, pc: Processor, current: int)
    requires Inv(s) && s.pc.At? && pc.At? && pc.item == s.pc.item
    requires s.pc.phase in {Taken, Checking} && pc.phase in {Taken, Checking, Logging}
    requires Proper(pc)
    requires current >= s.currentSequenceId && (pc.phase == Logging ==> pc.sequenceId == current > s.currentSequenceId)
    requires Passed(s.active, s.submitted, pc)
    ensures Inv(s.(pc := pc, currentSequenceId := current))
  {
    hide ConflictFree, Passed, Counted, Documents, Durable, BookOf, Queueing, LogAgrees, Delivered;
    PhaseQueueing(s, pc);
    UnloggedPhase(s, pc, current);
    GivenSame(s, pc);
  }

  /** The scan throws only on a transaction that is no longer active, which the repaired guard
      does not leave behind. */
  lemma ThrownInv(s: State)
    requires Inv(s) && s.pc.At? && s.pc.phase == Taken && s.pc.item.trid in s.active
    requires Judge(s.active, s.submitted, s.active[s.pc.item.trid]) == IllegalAt
    ensures !s.repaired && Inv(s.(pc := Thrown))
  {
    hide ConflictFree, Counted, Documents, Durable, BookOf, LogAgrees, Delivered, Agree;
    JudgeMeans(s.active, s.submitted, s.active[s.pc.item.trid]);
    var i :| 0 <= i < |s.submitted| && ThrowsAt(s.active, s.submitted, s.active[s.pc.item.trid], i);
    assert Listed(s.active, s.pc, s.repaired, s.submitted[i]);
    ThrownQueueing(s);
    UnloggedPhase(s, Thrown, s.currentSequenceId);
    GivenSame(s, Thrown);
  }

  lemma ThrownQueueing(s: State)
    requires Queueing(s.active, s.submitted, s.queue, s.pc, s.nextTransactId, s.repaired) && s.pc.At?
             && s.pc.phase == Taken
    ensures Queueing(s.active, s.submitted, s.queue, Thrown, s.nextTransactId, s.repaired)
  {
    hide Items, Waiting, Distinct;
    ItemsDone(s.pc, s.queue);
    var items := Items(s.pc, s.queue);
    forall i | 0 <= i < |s.queue| ensures Waiting(s.active, s.submitted, s.queue[i]) {
      assert s.queue[i] == items[i + 1];
    }
    forall i, j | 0 <= i < j < |s.queue| ensures s.queue[i].trid != s.queue[j].trid {
      assert s.queue[i] == items[i + 1] && s.queue[j] == items[j + 1];
    }
    forall u | u in s.submitted ensures Listed(s.active, Thrown, s.repaired, u) {
      assert Listed(s.active, s.pc, s.repaired, u);
    }
  }

  lemma ProcessSubmitInv(s: State)
    requires Inv(s) && s.pc.At? && s.pc.phase == Taken && QueuedState(s.pc.item.kind) == InSubmit
    ensures Inv(AfterProcessSubmit(s))
  {
    hide Inv, Agree;
    Working(s);
    var t := s.active[s.pc.item.trid];
    JudgeMeans(s.active, s.submitted, t);
    match Judge(s.active, s.submitted, t) {
      case IllegalAt => ThrownInv(s);
      case Pass =>
        var pc := s.pc.(phase := Checking, index := 0);
        CurrentKept(s);
        UnloggedInv(s, pc, s.currentSequenceId);
        assert AfterProcessSubmit(s) == s.(pc := pc, currentSequenceId := s.currentSequenceId);
      case _ => FailureInv(s);
    }
  }

  lemma CurrentKept(s: State)
    ensures s == s.(currentSequenceId := s.currentSequenceId)
  {
  }

  lemma ProcessCommitInv(s: State)
    requires Inv(s) && s.pc.At? && s.pc.phase == Taken && s.pc.item.kind == Commit
    ensures Inv(AfterProcessCommit(s))
  {
    hide LogAgrees, ConflictFree, Delivered, Counted, Documents, Durable, BookOf, Queueing;
    Working(s);
    UnloggedInv(s, s.pc.(phase := Logging, sequenceId := s.currentSequenceId + 1), s.currentSequenceId + 1);
  }

  lemma CheckConstraintInv(s: State, found: bool)
    requires Inv(s) && s.pc.At? && s.pc.phase == Checking && s.pc.item.trid in s.active
    ensures Inv(AfterCheckConstraint(s, found))
  {
    hide Agree, ConflictFree, LogAgrees, Delivered, Counted, Documents, Durable, BookOf;
    Working(s);
    var cs := s.active[s.pc.item.trid].constraints;
    assert Proper(s.pc);
    if s.pc.index >= |cs| {
      UnloggedInv(s, s.pc.(phase := Logging, sequenceId := s.currentSequenceId + 1), s.currentSequenceId + 1);
    } else if !found && cs[s.pc.index].mustExist {
      FailureInv(s);
    } else {
      UnloggedInv(s, s.pc.(index := s.pc.index + 1), s.currentSequenceId);
    }
  }

  // Write-ahead --------------------------------------------------------------

  lemma LogSubmission(active: map<int, Transaction>, submitted: seq<int>, pc: Processor, b: Book, current: int,
                      next: int,
                      pc': Processor)
    requires LogAgrees(active, submitted, pc, b, current, next)
    requires pc.At? && pc.phase == Logging && pc.item.kind == Submit && pc' == pc.(phase := AfterLog)
    requires pc.item.trid in active && pc.item.trid !in submitted && active[pc.item.trid].state == InSubmit
    requires pc.item.trid < next
    ensures LogAgrees(active, submitted, pc', Enter(b, SubmitEntry(pc.item.trid, active[pc.item.trid].mutations)),
                      current, next)
  {
    hide AsInserts, Reinspected;
  }

  lemma LogMerged(active: map<int, Transaction>, submitted: seq<int>, pc: Processor, b: Book, current: int, next: int,
                  pc': Processor)
    requires LogAgrees(active, submitted, pc, b, current, next)
    requires pc.At? && pc.phase == Logging && pc.item.kind == SubmitCommit && pc' == pc.(phase := AfterLog)
    requires pc.item.trid in active && pc.item.trid !in submitted && active[pc.item.trid].state == InSubmit
    requires pc.item.trid < next
    ensures LogAgrees(active, submitted, pc',
                      Enter(b, SubmitCommitEntry(pc.item.trid, current, active[pc.item.trid].mutations)),
                      current, next)
  {
    hide AsInserts, Reinspected;
  }

  lemma LogCommit(active: map<int, Transaction>, submitted: seq<int>, pc: Processor, b: Book, current: int, next: int,
                  pc': Processor)
    requires LogAgrees(active, submitted, pc, b, current, next)
    requires pc.At? && pc.phase == Logging && pc.item.kind == Commit && pc' == pc.(phase := AfterLog)
    requires pc.item.trid in active && pc.item.trid in submitted && active[pc.item.trid].state == InCommitOrRollback
    ensures LogAgrees(active, submitted, pc', Enter(b, CommitEntry(pc.item.trid, current)), current, next)
  {
    hide AsInserts, Reinspected;
  }

  lemma WriteAheadLog(s: State)
    requires Inv(s) && s.pc.At? && s.pc.phase == Logging && s.pc.item.trid in s.active
    ensures var t := AfterWriteAhead(s);
            LogAgrees(t.active, t.submitted, t.pc, BookOf(t.log), t.currentSequenceId, t.nextTransactId)
  {
    hide LogAgrees, ConflictFree, Passed, Delivered, Counted, Documents, Durable, BookOf, Enter;
    Working(s);
    BookGrows(s.log, EntryFor(s));
    var pc := s.pc.(phase := AfterLog);
    match s.pc.item.kind {
      case Submit => LogSubmission(s.active, s.submitted, s.pc, BookOf(s.log), s.currentSequenceId, s.nextTransactId,
                                   pc);
      case SubmitCommit => LogMerged(s.active, s.submitted, s.pc, BookOf(s.log), s.currentSequenceId,
                                     s.nextTransactId, pc);
      case _ => LogCommit(s.active, s.submitted, s.pc, BookOf(s.log), s.currentSequenceId, s.nextTransactId, pc);
    }
  }

  /** Logging a commit adds it behind the commits that the drivers have. */
  lemma WriteAheadCommits(s: State)
    requires Inv(s) && s.pc.At? && s.pc.phase == Logging && s.pc.item.trid in s.active
    ensures BookOf(s.log).commits <= BookOf(AfterWriteAhead(s).log).commits
    ensures |BookOf(AfterWriteAhead(s).log).commits| ==
            |BookOf(s.log).commits| + (if s.pc.item.kind == Submit then 0 else 1)
  {
    hide BookOf, Reinspected, ConflictFree, Passed, Delivered, Counted, Documents, Durable;
    Working(s);
    WriteAheadLog(s);
    BookGrows(s.log, EntryFor(s));
  }

  lemma WriteAheadDelivered(s: State)
    requires Inv(s) && s.pc.At? && s.pc.phase == Logging && s.pc.item.trid in s.active
    ensures var t := AfterWriteAhead(s); Delivered(t.delivered, t.pc, BookOf(t.log).commits)
  {
    hide BookOf, Norms, Queueing, LogAgrees, ConflictFree, Passed, Counted, Documents, Durable;
    WriteAheadCommits(s);
    var t := AfterWriteAhead(s);
    forall d | 0 <= d < |s.delivered| ensures DeliveredTo(t.delivered[d], t.pc, BookOf(t.log).commits, d) {
      assert DeliveredTo(s.delivered[d], s.pc, BookOf(s.log).commits, d);
    }
  }

  lemma DurableGrows(acks: seq<Ack>, commits: seq<Committed>, commits': seq<Committed>)
    requires Durable(acks, commits) && commits <= commits'
    ensures Durable(acks, commits')
  {
    forall i | 0 <= i < |acks| ensures IsCommit(commits', acks[i]) {
      assert IsCommit(commits, acks[i]);
      var k :| 0 <= k < |commits| && commits[k].trid == acks[i].trid && commits[k].sequenceId == acks[i].sequenceId;
      assert commits'[k] == commits[k];
    }
  }

  lemma WriteAheadDocuments(s: State)
    requires Documents(s.active, s.log, s.lastDocument) && s.pc.At? && s.pc.item.trid in s.active
    ensures Documents(s.active, AfterWriteAhead(s).log, s.lastDocument)
  {
    hide Allocated, Stored;
    var log := AfterWriteAhead(s).log;
    var e := EntryFor(s);
    forall i | 0 <= i < |log|
      ensures Allocated(MutationsIn(log[i]), s.lastDocument) && Stored(MutationsIn(log[i]), s.lastDocument)
    {
      if i == |s.log| && MutationsIn(e) == [] {
        NothingAllocated(s.lastDocument);
      }
    }
  }

  lemma NothingAllocated(last: seq<int>)
    ensures Allocated([], last) && Stored([], last)
  {
  }

  lemma WriteAheadInv(s: State)
    requires Inv(s) && s.pc.At? && s.pc.phase == Logging && s.pc.item.trid in s.active
    ensures Inv(AfterWriteAhead(s))
  {
    hide LogAgrees, ConflictFree, Delivered, Counted, Documents, Durable, BookOf, Queueing;
    WriteAheadLog(s);
    WriteAheadCommits(s);
    WriteAheadDelivered(s);
    WriteAheadDocuments(s);
    var t := AfterWriteAhead(s);
    DurableGrows(s.acks, BookOf(s.log).commits, BookOf(t.log).commits);
    ProperLogging(s);
    PhaseQueueing(s, t.pc);
  }

  lemma ProperLogging(s: State)
    requires Queueing(s.active, s.submitted, s.queue, s.pc, s.nextTransactId, s.repaired) && s.pc.At?
    ensures Proper(s.pc)
  {
  }

  // After the log ------------------------------------------------------------

  lemma SubmittedLast(submitted: seq<int>, t: int)
    requires Distinct(submitted) && t !in submitted
    ensures Distinct(submitted + [t]) && forall u :: u in submitted + [t] <==> u in submitted || u == t
  {
  }

  lemma SubmittedQueueing(s: State)
    requires Inv(s) && s.pc.At? && s.pc.phase == AfterLog && s.pc.item.kind == Submit
    ensures var t := s.pc.item.trid;
            t in s.active &&
            Queueing(Restated(s.active, t, Submitted), s.submitted + [t], s.queue, Idle, s.nextTransactId, s.repaired)
  {
    hide Listed, Distinct, Items, ConflictFree, Passed, LogAgrees, Delivered, Counted, Documents, Durable, BookOf;
    Working(s);
    var t := s.pc.item.trid;
    var active, submitted := Restated(s.active, t, Submitted), s.submitted + [t];
    ItemsDone(s.pc, s.queue);
    SubmittedLast(s.submitted, t);
    RestWaiting(s, s.submitted);
    forall i | 0 <= i < |s.queue| ensures Waiting(active, submitted, s.queue[i]) {
      assert Waiting(s.active - {t}, s.submitted, s.queue[i]);
    }
    forall u | u in submitted ensures u < s.nextTransactId && Listed(active, Idle, s.repaired, u) {
      assert u in s.submitted ==> Listed(s.active, s.pc, s.repaired, u);
      ListedSubmitted(s.active, s.pc, s.repaired, t, u);
    }
  }

  lemma ListedSubmitted(active: map<int, Transaction>, pc: Processor, repaired: bool, t: int, u: int)
    requires t in active && pc.At? && pc.phase == AfterLog && (u == t || Listed(active, pc, repaired, u))
    ensures Listed(Restated(active, t, Submitted), Idle, repaired, u)
  {
  }

  lemma SubmittedAgree(s: State, state: TxState)
    requires ConflictFree(s.active, s.submitted) && Passed(s.active, s.submitted, s.pc)
    requires s.pc.At? && s.pc.phase == AfterLog && QueuedState(s.pc.item.kind) == InSubmit && s.pc.item.trid in s.active
    ensures ConflictFree(Restated(s.active, s.pc.item.trid, state), s.submitted + [s.pc.item.trid])
  {
    hide AllCompatible;
    var t := s.pc.item.trid;
    var active, submitted := Restated(s.active, t, state), s.submitted + [t];
    forall a, b | a in submitted && b in submitted && a != b && a in active && b in active
      ensures Agree(active[a], active[b])
    {
      assert Agree(s.active[a], s.active[b]) || Agree(s.active[b], s.active[a]);
    }
  }

  lemma SubmittedLog(s: State)
    requires LogAgrees(s.active, s.submitted, s.pc, BookOf(s.log), s.currentSequenceId, s.nextTransactId)
    requires s.pc.At? && s.pc.phase == AfterLog && s.pc.item.kind == Submit && s.pc.item.trid in s.active
    ensures LogAgrees(Restated(s.active, s.pc.item.trid, Submitted), s.submitted + [s.pc.item.trid], Idle,
                      BookOf(s.log),
                      s.currentSequenceId, s.nextTransactId)
  {
    hide BookOf, Increasing, AsInserts;
  }

  lemma SubmittedInv(s: State)
    requires Inv(s) && s.pc.At? && s.pc.phase == AfterLog && s.pc.item.kind == Submit
    ensures s.pc.item.trid in s.active && Inv(AfterLogged(s))
  {
    hide LogAgrees, ConflictFree, Delivered, Documents, Durable, BookOf, Queueing;
    Working(s);
    var t := s.pc.item.trid;
    SubmittedQueueing(s);
    SubmittedAgree(s, Submitted);
    SubmittedLog(s);
    RestateDocuments(s.active, s.log, s.lastDocument, t, Submitted);
    GivenSame(s, Idle);
    assert Restated(s.active, t, Submitted).Keys == s.active.Keys;
  }

  lemma WaitingMore(active: map<int, Transaction>, submitted: seq<int>, item: QueueItem, t: int)
    requires Waiting(active, submitted, item)
    ensures Waiting(active, submitted + [t], item)
  {
  }

  lemma ListedMerging(active: map<int, Transaction>, pc: Processor, repaired: bool, t: int)
    requires pc.At? && pc.phase == AfterLog && pc.item.kind == SubmitCommit && pc.item.trid in active
    requires t == pc.item.trid || Listed(active, pc, repaired, t)
    ensures Listed(active, pc.(phase := Delivering, index := 0), repaired, t)
  {
  }

  lemma MergedQueueing(s: State)
    requires Inv(s) && s.pc.At? && s.pc.phase == AfterLog && s.pc.item.kind == SubmitCommit
    ensures Queueing(s.active, s.submitted + [s.pc.item.trid], s.queue, s.pc.(phase := Delivering, index := 0),
                     s.nextTransactId, s.repaired)
  {
    hide Items, Listed, Distinct, ConflictFree, Passed, LogAgrees, Delivered, Counted, Documents, Durable, BookOf;
    Working(s);
    var t := s.pc.item.trid;
    var pc, submitted := s.pc.(phase := Delivering, index := 0), s.submitted + [t];
    ItemsKept(s.pc, pc, s.queue);
    SubmittedLast(s.submitted, t);
    var items := Items(s.pc, s.queue);
    forall i | 0 <= i < |items| ensures Waiting(s.active, submitted, items[i]) {
      WaitingMore(s.active, s.submitted, items[i], t);
    }
    forall u | u in submitted ensures u < s.nextTransactId && Listed(s.active, pc, s.repaired, u) {
      ListedMerging(s.active, s.pc, s.repaired, u);
    }
  }

  lemma CommitQueueing(s: State)
    requires Inv(s) && s.pc.At? && s.pc.phase == AfterLog && s.pc.item.kind == Commit
    ensures Queueing(s.active, s.submitted, s.queue, s.pc.(phase := Delivering, index := 0), s.nextTransactId,
                     s.repaired)
  {
    hide Distinct, ConflictFree, Passed, LogAgrees, Delivered, Counted, Documents, Durable, BookOf, Waiting;
    hide Items;
    Working(s);
    var pc := s.pc.(phase := Delivering, index := 0);
    ItemsKept(s.pc, pc, s.queue);
    forall u | u in s.submitted ensures Listed(s.active, pc, s.repaired, u) {
      assert Listed(s.active, s.pc, s.repaired, u);
    }
  }

  /** A logged commit is delivered next; it may have just been submitted. */
  lemma DeliveringLog(s: State, submitted: seq<int>)
    requires LogAgrees(s.active, s.submitted, s.pc, BookOf(s.log), s.currentSequenceId, s.nextTransactId)
    requires s.pc.At? && s.pc.phase == AfterLog && s.pc.item.kind != Submit
    requires submitted == s.submitted || submitted == s.submitted + [s.pc.item.trid]
    ensures LogAgrees(s.active, submitted, s.pc.(phase := Delivering, index := 0), BookOf(s.log),
                      s.currentSequenceId, s.nextTransactId)
  {
    hide BookOf, Increasing, AsInserts;
  }

  lemma MergedInv(s: State)
    requires Inv(s) && s.pc.At? && s.pc.phase == AfterLog && s.pc.item.kind == SubmitCommit
    ensures s.pc.item.trid in s.active && Inv(AfterLogged(s))
  {
    hide LogAgrees, ConflictFree, Delivered, Counted, Documents, Durable, BookOf, Queueing;
    Working(s);
    var t := s.pc.item.trid;
    MergedQueueing(s);
    SubmittedAgree(s, s.active[t].state);
    assert Restated(s.active, t, s.active[t].state) == s.active;
    DeliveringLog(s, s.submitted + [t]);
    GivenSame(s, s.pc.(phase := Delivering, index := 0));
  }

  lemma CommitLoggedInv(s: State)
    requires Inv(s) && s.pc.At? && s.pc.phase == AfterLog && s.pc.item.kind == Commit
    ensures s.pc.item.trid in s.active && Inv(AfterLogged(s))
  {
    hide LogAgrees, ConflictFree, Delivered, Counted, Documents, Durable, BookOf, Queueing;
    Working(s);
    CommitQueueing(s);
    DeliveringLog(s, s.submitted);
    GivenSame(s, s.pc.(phase := Delivering, index := 0));
  }

  // Delivery -----------------------------------------------------------------

  lemma NormsAppend(cs: seq<Committed>, c: Committed)
    ensures Norms(cs + [c]) == Norms(cs) + [Norm(c)]
  {
  }

  lemma {:induction false} OutstandingAppend(pending: seq<seq<Object>>, d: nat, o: Object)
    requires d < |pending|
    ensures Outstanding(pending[d := pending[d] + [o]]) == Outstanding(pending) + multiset{o}
  {
    var n := |pending| - 1;
    var q := pending[d := pending[d] + [o]];
    if d == n {
      assert q[..n] == pending[..n];
    } else {
      OutstandingAppend(pending[..n], d, o);
      assert q[..n] == pending[..n][d := pending[..n][d] + [o]];
    }
  }

  lemma {:induction false} OutstandingRemove(pending: seq<seq<Object>>, d: nat)
    requires d < |pending| && pending[d] != []
    ensures Outstanding(pending) == Outstanding(pending[d := pending[d][1..]]) + multiset{pending[d][0]}
  {
    var n := |pending| - 1;
    var q := pending[d := pending[d][1..]];
    if d == n {
      assert q[..n] == pending[..n];
      assert pending[d] == [pending[d][0]] + pending[d][1..];
    } else {
      OutstandingRemove(pending[..n], d);
      assert q[..n] == pending[..n][d := pending[..n][d][1..]];
    }
  }

  lemma DeliverQueueing(s: State, pc: Processor)
    requires Queueing(s.active, s.submitted, s.queue, s.pc, s.nextTransactId, s.repaired)
    requires s.pc.At? && pc.At? && pc.item == s.pc.item && pc.phase == s.pc.phase == Delivering
    ensures Queueing(s.active, s.submitted, s.queue, pc, s.nextTransactId, s.repaired)
  {
    hide Items, Waiting;
    ItemsKept(s.pc, pc, s.queue);
    forall u | u in s.submitted ensures Listed(s.active, pc, s.repaired, u) {
      assert Listed(s.active, s.pc, s.repaired, u);
    }
  }

  /** What the processor delivers is the last commit of the log. */
  lemma DeliversLast(s: State)
    requires Inv(s) && s.pc.At? && s.pc.phase == Delivering
    ensures var cs := BookOf(s.log).commits;
            && s.pc.item.trid in s.active && PastCommit(s.pc) && cs != []
            && cs[|cs| - 1] == Norm(Committed(s.pc.item.trid, s.pc.sequenceId, s.active[s.pc.item.trid].mutations))
  {
    hide BookOf, ConflictFree, Passed, Delivered, Counted, Documents, Durable;
    ProperLogging(s);
  }

  lemma DeliverOne(s: State)
    requires Inv(s) && s.pc.At? && s.pc.phase == Delivering && s.pc.index < |s.delivered| && s.pc.item.trid in s.active
    ensures var t := AfterDeliver(s); Delivered(t.delivered, t.pc, BookOf(t.log).commits)
  {
    hide BookOf, Norms, LogAgrees, Queueing, ConflictFree, Passed, Counted, Documents, Durable;
    DeliversLast(s);
    var t := AfterDeliver(s);
    var c := Committed(s.pc.item.trid, s.pc.sequenceId, s.active[s.pc.item.trid].mutations);
    NormsAppend(s.delivered[s.pc.index], c);
    forall d | 0 <= d < |t.delivered| ensures DeliveredTo(t.delivered[d], t.pc, BookOf(t.log).commits, d) {
      assert DeliveredTo(s.delivered[d], s.pc, BookOf(s.log).commits, d);
    }
  }

  lemma DeliverIndexLog(s: State, pc: Processor)
    requires LogAgrees(s.active, s.submitted, s.pc, BookOf(s.log), s.currentSequenceId, s.nextTransactId)
    requires s.pc.At? && s.pc.phase == Delivering && pc.At? && pc == s.pc.(index := pc.index)
    ensures LogAgrees(s.active, s.submitted, pc, BookOf(s.log), s.currentSequenceId, s.nextTransactId)
  {
    hide BookOf, Increasing, LogTells;
  }

  lemma DeliverInv(s: State)
    requires Inv(s) && s.pc.At? && s.pc.phase == Delivering && s.pc.item.trid in s.active && s.pc.index < |s.delivered|
    ensures Inv(AfterDeliver(s))
  {
    hide LogAgrees, ConflictFree, Delivered, Documents, Durable, BookOf, Queueing, Outstanding, Holds;
    var t := AfterDeliver(s);
    DeliverOne(s);
    DeliverQueueing(s, t.pc);
    DeliverIndexLog(s, t.pc);
    OutstandingAppend(s.pending, s.pc.index, Live(s.pc.item.trid));
  }

  lemma AckDurable(acks: seq<Ack>, commits: seq<Committed>, a: Ack)
    requires Durable(acks, commits) && commits != []
    requires commits[|commits| - 1].trid == a.trid && commits[|commits| - 1].sequenceId == a.sequenceId
    ensures Durable(acks + [a], commits)
  {
    assert IsCommit(commits, a);
  }

  lemma DeliveringListed(s: State)
    requires Queueing(s.active, s.submitted, s.queue, s.pc, s.nextTransactId, s.repaired)
    requires s.pc.At? && s.pc.phase == Delivering
    ensures s.pc.item.trid in s.submitted && Distinct(s.submitted)
  {
  }

  lemma CommitCompleteInv(s: State)
    requires Inv(s) && s.pc.At? && s.pc.phase == Delivering && s.pc.item.trid in s.active && s.pc.index >= |s.delivered|
    ensures s.pc.item.trid in s.submitted && Inv(AfterDeliver(s))
  {
    hide Queueing, LogAgrees, ConflictFree, Passed, Delivered, Counted, Documents, Durable, BookOf, Distinct;
    DeliversLast(s);
    DeliveringListed(s);
    var t := s.pc.item.trid;
    var left, acks := Erase(s.submitted, t), s.acks + [Ack(t, s.pc.sequenceId)];
    Erased(s.submitted, t);
    assert Leaves(s.submitted, left, t);
    AckDurable(s.acks, BookOf(s.log).commits, Ack(t, s.pc.sequenceId));
    DropInv(s, left, acks);
  }

  // Drivers ------------------------------------------------------------------

  lemma CompleteInv(s: State, d: nat)
    requires Inv(s) && d < |s.pending| && s.pending[d] != []
    ensures Inv(AfterComplete(s, d))
    ensures s.pending[d][0] in s.refs
  {
    hide LogAgrees, ConflictFree, Passed, Delivered, Documents, Durable, BookOf, Queueing, Outstanding, Holds;
    OutstandingRemove(s.pending, d);
  }

  // Restart ------------------------------------------------------------------

  lemma RestartLog(s: State, order: seq<int>)
    requires Inv(s) && Enabled(s, Restart(order))
    ensures BookOf(s.log).ok
    ensures var t := AfterRestart(s, order);
            LogAgrees(t.active, t.submitted, t.pc, BookOf(t.log), t.currentSequenceId, t.nextTransactId)
  {
    hide BookOf, ConflictFree, Passed, Delivered, Counted, Documents, Durable, Queueing;
    BookBeyond(s.log);
    var t, b := AfterRestart(s, order), BookOf(s.log);
    forall u | u in t.active && u in t.submitted ensures LogTells(t.active, b, u) {
      InsertsTwice(s, u);
    }
  }

  /** Replayed mutations are insertions already. */
  lemma InsertsTwice(s: State, t: int)
    requires BookOf(s.log).ok && t in BookOf(s.log).open
    ensures AsInserts(BookOf(s.log).open[t]) == BookOf(s.log).open[t]
  {
    hide BookOf;
    CommitsAreLogged(s.log);
    var ms := BookOf(s.log).open[t];
    assert EngineLogs.Logged(s.log, t, ms);
    forall i | 0 <= i < |ms| ensures AsInsert(ms[i]) == ms[i] {
    }
  }

  lemma RestartQueueing(s: State, order: seq<int>)
    requires Inv(s) && Enabled(s, Restart(order)) && BookOf(s.log).ok
    ensures var t := AfterRestart(s, order);
            Queueing(t.active, t.submitted, t.queue, t.pc, t.nextTransactId, t.repaired)
  {
    hide BookOf, ConflictFree, Passed, Delivered, Counted, Documents, Durable, Queueing, LogAgrees;
    BookBeyond(s.log);
    var t := AfterRestart(s, order);
    assert Items(t.pc, t.queue) == [];
    assert Queueing(t.active, t.submitted, t.queue, t.pc, t.nextTransactId, t.repaired) by {
      RestartLists(BookOf(s.log), order, s.repaired);
    }
  }

  lemma RestartLists(b: Book, order: seq<int>, repaired: bool)
    requires Permutes(order, b.open.Keys) && forall t | t in b.open :: t < b.nextTransactId
    ensures Queueing(RecoveredActive(b), order, [], Idle, b.nextTransactId, repaired)
  {
  }

  lemma RestartDelivered(s: State, order: seq<int>)
    requires Inv(s) && BookOf(s.log).ok
    ensures var t := AfterRestart(s, order); Delivered(t.delivered, t.pc, BookOf(t.log).commits)
  {
    hide BookOf, ConflictFree, Passed, Counted, Documents, Durable, Queueing, LogAgrees;
    var cs := BookOf(s.log).commits;
    CommitsAreLogged(s.log);
    forall k | 0 <= k < |cs| ensures Norm(cs[k]) == cs[k] {
      assert EngineLogs.Logged(s.log, cs[k].trid, cs[k].mutations);
      assert AsInserts(cs[k].mutations) == cs[k].mutations;
    }
    assert Norms(cs) == cs;
    var t := AfterRestart(s, order);
    forall d | 0 <= d < |t.delivered| ensures DeliveredTo(t.delivered[d], Idle, cs, d) {
      assert t.delivered[d] == cs;
    }
  }

  /** Counters that start beyond all ids of the log cover everything that is recovered. */
  lemma Covered(ms: seq<Mutation>, last: seq<int>, n: nat, id: int)
    requires Stored(ms, last) && |last| == n && forall j | 0 <= j < |ms| :: ms[j].documentId <= id
    ensures Allocated(ms, Repeat(n, id)) && Stored(ms, Repeat(n, id))
    ensures Allocated(AsInserts(ms), Repeat(n, id)) && Stored(AsInserts(ms), Repeat(n, id))
  {
  }

  lemma RestartDocuments(s: State, order: seq<int>)
    requires Inv(s) && BookOf(s.log).ok
    ensures var t := AfterRestart(s, order); Documents(t.active, t.log, t.lastDocument)
  {
    hide BookOf, ConflictFree, Passed, Delivered, Counted, Durable, Queueing, LogAgrees, Allocated, Stored, AsInserts;
    BookBeyond(s.log);
    CommitsAreLogged(s.log);
    var t, b := AfterRestart(s, order), BookOf(s.log);
    forall i | 0 <= i < |s.log| ensures Covers(s.log[i], t.lastDocument) {
      Covered(MutationsIn(s.log[i]), s.lastDocument, |s.lastDocument|, b.lastDocumentId);
    }
    forall u | u in t.active
      ensures Allocated(t.active[u].mutations, t.lastDocument) && Stored(t.active[u].mutations, t.lastDocument)
    {
      assert EngineLogs.Logged(s.log, u, b.open[u]);
      var i :| 0 <= i < |s.log| && !s.log[i].CommitEntry? && s.log[i].trid == u
          && AsInserts(s.log[i].mutations) == b.open[u];
      assert Covers(s.log[i], t.lastDocument);
    }
  }

  ghost predicate Covers(e: LogEntry, last: seq<int>) {
    && Allocated(MutationsIn(e), last) && Stored(MutationsIn(e), last)
    && Allocated(AsInserts(MutationsIn(e)), last) && Stored(AsInserts(MutationsIn(e)), last)
  }

  lemma NoConstraintsAgree(b: Book, order: seq<int>)
    ensures ConflictFree(RecoveredActive(b), order)
  {
  }

  /** What the parts do not say: the sizes, the counts, and that acknowledged commits are done. */
  lemma RestartRest(s: State, order: seq<int>)
    requires Inv(s) && BookOf(s.log).ok
    ensures var t := AfterRestart(s, order);
            && |t.pending| == |t.delivered| >= |t.lastDocument| && t.nextTransactId >= 1 && t.currentSequenceId >= 0
            && t.pc == Idle && t.log == s.log && t.acks == s.acks
            && t.active == RecoveredActive(BookOf(s.log)) && t.submitted == order
            && Counted(t.active, t.pending, t.refs, t.leaked)
  {
    hide BookOf, Queueing, ConflictFree, Passed, LogAgrees, Delivered, Documents, Durable, Outstanding, Holds;
    BookBeyond(s.log);
    assert RecoveredActive(BookOf(s.log)).Keys == BookOf(s.log).open.Keys;
  }

  lemma AcknowledgedClosed(s: State)
    requires Inv(s)
    ensures forall i | 0 <= i < |s.acks| :: s.acks[i].trid !in BookOf(s.log).open
  {
    hide BookOf, Queueing, ConflictFree, Passed, Delivered, Counted, Documents;
    forall i | 0 <= i < |s.acks| ensures s.acks[i].trid !in BookOf(s.log).open {
      assert IsCommit(BookOf(s.log).commits, s.acks[i]);
    }
  }

  lemma RestartInv(s: State, order: seq<int>)
    requires Inv(s) && Enabled(s, Restart(order))
    ensures Inv(AfterRestart(s, order))
  {
    hide BookOf, Delivered, Documents, Durable, Queueing, LogAgrees, ConflictFree, Counted, AfterRestart;
    RestartLog(s, order);
    RestartQueueing(s, order);
    RestartDelivered(s, order);
    RestartDocuments(s, order);
    RestartRest(s, order);
    NoConstraintsAgree(BookOf(s.log), order);
    AcknowledgedClosed(s);
  }

  // ------------------------------------------------------------------
  // All steps
  // ------------------------------------------------------------------

  lemma WorkInv(s: State, found: bool)
    requires Inv(s) && Enabled(s, Work(found)) && Known(s)
    ensures Inv(AfterWork(s, found))
  {
    hide LogAgrees, ConflictFree, Passed, Delivered, Counted, Documents, Durable, BookOf;
    match s.pc.phase {
      case Taken =>
        match s.pc.item.kind {
          case Submit => ProcessSubmitInv(s);
          case SubmitCommit => ProcessSubmitInv(s);
          case Commit => ProcessCommitInv(s);
          case Rollback => RollbackInv(s);
        }
      case Checking => CheckConstraintInv(s, found);
      case Logging => WriteAheadInv(s);
      case AfterLog =>
        ProperLogging(s);
        match s.pc.item.kind {
          case Submit => SubmittedInv(s);
          case SubmitCommit => MergedInv(s);
          case _ => CommitLoggedInv(s);
        }
      case Delivering =>
        if s.pc.index < |s.delivered| {
          DeliverInv(s);
        } else {
          CommitCompleteInv(s);
        }
    }
  }

  lemma StepInv(s: State, e: Event)
    requires Inv(s) && Enabled(s, e)
    ensures Known(s) && Inv(Step(s, e))
  {
    hide Inv, BookOf;
    InvKnown(s);
    match e {
      case Begin => BeginInv(s);
      case UpdateMutation(t, m) => UpdateMutationInv(s, t, m);
      case UpdateConstraint(t, c) => UpdateConstraintInv(s, t, c);
      case Enqueue(item) => EnqueueInv(s, item);
      case Process => ProcessInv(s);
      case Work(found) => WorkInv(s, found);
      case Complete(d) => CompleteInv(s, d);
      case Restart(order) => RestartInv(s, order);
    }
  }

  lemma InvKnown(s: State)
    requires Inv(s)
    ensures Known(s)
  {
    if s.pc.At? {
      Working(s);
    }
  }

  lemma {:induction false} NothingOutstanding(n: nat)
    ensures Outstanding(Repeat(n, [])) == multiset{}
  {
    var pending: seq<seq<Object>> := Repeat(n, []);
    if n > 0 {
      NothingOutstanding(n - 1);
      assert pending[..n - 1] == Repeat(n - 1, []);
    }
  }

  lemma InitialInv(repaired: bool, storages: nat, drivers: nat)
    requires storages <= drivers
    ensures Inv(Initial(repaired, storages, drivers))
  {
    hide Outstanding, Agree, Allocated, Stored, LogTells, Listed, Waiting;
    NothingOutstanding(drivers);
    var s := Initial(repaired, storages, drivers);
    assert Items(s.pc, s.queue) == [];
    assert forall d | 0 <= d < drivers :: DeliveredTo(s.delivered[d], s.pc, [], d);
  }

  /** In every state of every run, across any number of restarts, the invariant holds. */
  lemma {:induction false} RunInv(s: State, es: seq<Event>)
    requires Inv(s)
    ensures Inv(Run(s, es)) && Known(Run(s, es))
  {
    hide Inv, Step, Enabled;
    if es == [] {
      InvKnown(s);
    } else {
      RunInv(s, es[..|es| - 1]);
      var p := Run(s, es[..|es| - 1]);
      if Happens(p, es[|es| - 1]) {
        StepInv(p, es[|es| - 1]);
        InvKnown(Step(p, es[|es| - 1]));
      }
    }
  }
}
