/** Queue items from the queue to the client's answer: what the processor makes of each of them when
    nothing else happens meanwhile, step after step, stated on the fields of the engine. */
module EndToEnd {
  import opened DbTypes
  import opened EngineLogs
  import opened EngineSteps
  import opened EngineInvariants
  import opened EngineProofs
  import opened EngineTheorems

  /** Steps of the processor that ask no storage. */
  function Works(n: nat): seq<Event> {
    Repeat(n, Work(true))
  }

  /** The constraint checks, with what the storages found. */
  function Checks(found: seq<bool>): seq<Event> {
    seq(|found|, i requires 0 <= i < |found| => Work(found[i]))
  }

  lemma {:induction false} RunTwice(s: State, es: seq<Event>, more: seq<Event>)
    ensures Run(s, es + more) == Run(Run(s, es), more)
  {
    hide Step, Happens;
    if more == [] {
      assert es + more == es;
    } else {
      var n := |more| - 1;
      RunTwice(s, es, more[..n]);
      assert (es + more)[..|es| + n] == es + more[..n];
    }
  }

  lemma RunOne(s: State, e: Event)
    ensures Run(s, [e]) == if Happens(s, e) then Step(s, e) else s
  {
    hide Step, Happens;
    assert [e][..0] == [];
  }

  lemma RunMore(s: State, es: seq<Event>, e: Event)
    ensures Run(s, es + [e]) == if Happens(Run(s, es), e) then Step(Run(s, es), e) else Run(s, es)
  {
    hide Step, Happens;
    assert (es + [e])[..|es|] == es;
  }

  // ------------------------------------------------------------------
  // Where an item stands
  // ------------------------------------------------------------------

  /** The next item of an idle processor. */
  ghost predicate IsNext(s: State, kind: QueueType, t: int) {
    s.pc == Idle && s.queue != [] && s.queue[0] == QueueItem(kind, t)
  }

  /** The item has been taken from the queue, and nothing else has changed since `s`. */
  ghost predicate AtWork(s: State, u: State, pc: Processor)
    requires s.queue != []
  {
    u == s.(queue := s.queue[1..], pc := pc)
  }

  /** The transaction is gone, without a trace. */
  ghost predicate Refused(s: State, u: State, t: int)
    requires s.queue != []
  {
    && u.pc == Idle && u.queue == s.queue[1..] && u.active == s.active - {t} && u.submitted == s.submitted
    && u.log == s.log && u.delivered == s.delivered && u.pending == s.pending && u.acks == s.acks
    && u.currentSequenceId == s.currentSequenceId
  }

  lemma TakeItem(s: State, kind: QueueType, t: int)
    requires Inv(s) && IsNext(s, kind, t)
    ensures Known(s) && t in s.active && Happens(s, Event.Process)
    ensures AtWork(s, Step(s, Event.Process), At(Taken, QueueItem(kind, t), 0, 0))
    ensures kind == Commit ==> t in s.submitted
    ensures kind == Rollback ==> s.active[t].state == InCommitOrRollback
  {
    hide ConflictFree, Passed, LogAgrees, Delivered, Counted, Documents, Durable, BookOf;
    assert Items(s.pc, s.queue)[0] == s.queue[0];
  }

  // ------------------------------------------------------------------
  // Submissions
  // ------------------------------------------------------------------

  /** A modification of one transaction hits a document that the other one wants unchanged. */
  ghost predicate Clash(a: Transaction, b: Transaction) {
    exists i, j :: 0 <= i < |a.mutations| && 0 <= j < |b.constraints| && Hits(a.mutations[i], b.constraints[j])
  }

  ghost predicate Hits(m: Mutation, c: Constraint) {
    m.kind == MutationType.Modify && c.matchSequenceId && m.documentId == c.documentId
  }

  /** Submitted transaction `i` is active and does not clash with the new one, in either direction. */
  ghost predicate ClearOf(s: State, t: int, i: nat)
    requires t in s.active && i < |s.submitted|
  {
    var u := s.submitted[i];
    u in s.active && !Clash(s.active[u], s.active[t]) && !Clash(s.active[t], s.active[u])
  }

  ghost predicate Clear(s: State, t: int)
    requires t in s.active
  {
    forall i: nat | i < |s.submitted| :: ClearOf(s, t, i)
  }

  /** Submitted transaction `i` is the first that is in the way of the new one. */
  ghost predicate InTheWay(s: State, t: int, i: nat)
    requires t in s.active
  {
    i < |s.submitted| && !ClearOf(s, t, i) && forall j: nat | j < i :: ClearOf(s, t, j)
  }

  /** Every document that must exist was found. */
  predicate AllFound(cs: seq<Constraint>, found: seq<bool>)
    requires |found| <= |cs|
  {
    forall i | 0 <= i < |found| :: found[i] || !cs[i].mustExist
  }

  lemma ClashMeans(a: Transaction, b: Transaction)
    ensures Clash(a, b) <==> !AllCompatible(a.mutations, b.constraints)
  {
    if !AllCompatible(a.mutations, b.constraints) {
      var i, j :| 0 <= i < |a.mutations| && 0 <= j < |b.constraints| && !Compatible(a.mutations[i], b.constraints[j]);
      assert Hits(a.mutations[i], b.constraints[j]);
    }
    if Clash(a, b) {
      var i, j :| 0 <= i < |a.mutations| && 0 <= j < |b.constraints| && Hits(a.mutations[i], b.constraints[j]);
      assert !Compatible(a.mutations[i], b.constraints[j]);
    }
  }

  lemma ClearMeans(s: State, t: int, i: nat)
    requires t in s.active && i < |s.submitted|
    ensures ClearOf(s, t, i) <==> s.submitted[i] in s.active && Agree(s.active[s.submitted[i]], s.active[t])
  {
    hide Clash, AllCompatible;
    if s.submitted[i] in s.active {
      ClashMeans(s.active[s.submitted[i]], s.active[t]);
      ClashMeans(s.active[t], s.active[s.submitted[i]]);
    }
  }

  lemma {:induction false} AllAgree(active: map<int, Transaction>, submitted: seq<int>, x: Transaction)
    requires forall i | 0 <= i < |submitted| :: submitted[i] in active && Agree(active[submitted[i]], x)
    ensures Judge(active, submitted, x) == Pass
  {
    hide AllCompatible;
    if submitted != [] {
      assert submitted[0] in active && Agree(active[submitted[0]], x);
      AllAgree(active, submitted[1..], x);
    }
  }

  lemma {:induction false} FirstInTheWay(s: State, t: int, n: nat) returns (i: nat)
    requires t in s.active && n <= |s.submitted| && exists j: nat :: j < n && !ClearOf(s, t, j)
    ensures i < n && InTheWay(s, t, i)
  {
    hide ClearOf;
    if j: nat :| j < n - 1 && !ClearOf(s, t, j) {
      i := FirstInTheWay(s, t, n - 1);
    } else {
      i := n - 1;
    }
  }

  /** The verdict of the scan. */
  lemma JudgeFirst(s: State, t: int)
    requires t in s.active
    ensures Clear(s, t) ==> Judge(s.active, s.submitted, s.active[t]) == Pass
    ensures !Clear(s, t) ==>
              exists i: nat :: InTheWay(s, t, i)
                && if s.submitted[i] !in s.active then Judge(s.active, s.submitted, s.active[t]) == IllegalAt
                   else Judge(s.active, s.submitted, s.active[t]) in {ConstraintConflict, MutationConflict}
  {
    hide Judge, ClearOf, Agree;
    forall i: nat | i < |s.submitted|
      ensures ClearOf(s, t, i) <==> s.submitted[i] in s.active && Agree(s.active[s.submitted[i]], s.active[t])
    {
      ClearMeans(s, t, i);
    }
    if Clear(s, t) {
      AllAgree(s.active, s.submitted, s.active[t]);
    } else {
      var i := FirstInTheWay(s, t, |s.submitted|);
      FirstDecides(s.active, s.submitted, s.active[t], i);
    }
  }

  /** What the scan makes of a transaction that is not clear: one that is no longer active, in the
      way of it, makes the processor throw, a clash ends it. */
  ghost predicate Stopped(s: State, u: State, t: int)
    requires t in s.active && s.queue != []
  {
    exists i: nat :: InTheWay(s, t, i)
      && if s.submitted[i] !in s.active then AtWork(s, u, Thrown) else Refused(s, u, t)
  }

  lemma ScanItem(s: State, u: State, kind: QueueType, t: int)
    requires kind in {Submit, SubmitCommit} && s.queue != [] && t in s.active && Known(s)
    requires AtWork(s, u, At(Taken, QueueItem(kind, t), 0, 0))
    ensures Happens(u, Work(true))
    ensures if Clear(s, t) then AtWork(s, Step(u, Work(true)), At(Checking, QueueItem(kind, t), 0, 0))
            else Stopped(s, Step(u, Work(true)), t)
  {
    hide Judge, ClearOf, Clear;
    JudgeFirst(s, t);
    if !Clear(s, t) {
      var i: nat :| InTheWay(s, t, i)
                && if s.submitted[i] !in s.active then Judge(s.active, s.submitted, s.active[t]) == IllegalAt
                   else Judge(s.active, s.submitted, s.active[t]) in {ConstraintConflict, MutationConflict};
      assert if s.submitted[i] !in s.active then AtWork(s, Step(u, Work(true)), Thrown)
             else Refused(s, Step(u, Work(true)), t);
    }
  }

  /** After some checks the item waits for the next one, or it has failed. */
  lemma {:induction false} CheckItem(s: State, u: State, item: QueueItem, found: seq<bool>)
    requires s.queue != [] && item.trid in s.active && |s.pending| == |s.delivered| >= |s.lastDocument|
    requires |found| <= |s.active[item.trid].constraints|
    requires AtWork(s, u, At(Checking, item, 0, 0))
    ensures if AllFound(s.active[item.trid].constraints, found)
            then AtWork(s, Run(u, Checks(found)), At(Checking, item, 0, |found|))
            else Refused(s, Run(u, Checks(found)), item.trid)
  {
    hide AtWork, Refused, Step, Happens;
    if found != [] {
      var n := |found| - 1;
      CheckItem(s, u, item, found[..n]);
      assert Checks(found) == Checks(found[..n]) + [Work(found[n])];
      RunMore(u, Checks(found[..n]), Work(found[n]));
      CheckOne(s, Run(u, Checks(found[..n])), item, found);
    }
  }

  lemma CheckOne(s: State, u: State, item: QueueItem, found: seq<bool>)
    requires s.queue != [] && item.trid in s.active && |s.pending| == |s.delivered| >= |s.lastDocument|
    requires 0 < |found| <= |s.active[item.trid].constraints|
    requires var n := |found| - 1;
             if AllFound(s.active[item.trid].constraints, found[..n]) then AtWork(s, u, At(Checking, item, 0, n))
             else Refused(s, u, item.trid)
    ensures var e := Work(found[|found| - 1]);
            var v := if Happens(u, e) then Step(u, e) else u;
            if AllFound(s.active[item.trid].constraints, found) then AtWork(s, v, At(Checking, item, 0, |found|))
            else Refused(s, v, item.trid)
  {
    var n := |found| - 1;
    assert found == found[..n] + [found[n]];
  }

  lemma {:induction false} NoMoreWork(s: State, n: nat)
    requires !s.pc.At?
    ensures Run(s, Works(n)) == s
  {
    if n > 0 {
      assert Works(n) == Works(n - 1) + [Work(true)];
      NoMoreWork(s, n - 1);
      RunMore(s, Works(n - 1), Work(true));
    }
  }

  /** The scan and the checks of a submission. */
  ghost function Examined(found: seq<bool>): seq<Event> {
    [Event.Process, Work(true)] + Checks(found)
  }

  lemma ExamineItem(s: State, kind: QueueType, t: int, found: seq<bool>)
    requires Inv(s) && IsNext(s, kind, t) && kind in {Submit, SubmitCommit} && t in s.active
    requires |found| == |s.active[t].constraints|
    ensures var u := Run(s, Examined(found));
            if !Clear(s, t) then Stopped(s, u, t)
            else if AllFound(s.active[t].constraints, found)
            then AtWork(s, u, At(Checking, QueueItem(kind, t), 0, |found|))
            else Refused(s, u, t)
  {
    hide Inv, AtWork, Refused, Clear, Stopped, Step, Enabled, Checks, Known;
    TakeItem(s, kind, t);
    RunOne(s, Event.Process);
    var a := Step(s, Event.Process);
    ScanItem(s, a, kind, t);
    RunMore(s, [Event.Process], Work(true));
    var b := Step(a, Work(true));
    assert [Event.Process] + [Work(true)] == [Event.Process, Work(true)];
    RunTwice(s, [Event.Process, Work(true)], Checks(found));
    if Clear(s, t) {
      Sized(s);
      CheckItem(s, b, QueueItem(kind, t), found);
    } else {
      StoppedIsIdle(s, b, t);
      ChecksIdle(b, found);
    }
  }

  lemma Sized(s: State)
    requires Inv(s)
    ensures |s.pending| == |s.delivered| >= |s.lastDocument|
  {
  }

  lemma RefusedIsIdle(s: State, u: State, t: int)
    requires s.queue != [] && Refused(s, u, t)
    ensures u.pc == Idle
  {
  }

  lemma StoppedIsIdle(s: State, u: State, t: int)
    requires t in s.active && s.queue != [] && Stopped(s, u, t)
    ensures !u.pc.At?
  {
  }

  lemma {:induction false} ChecksIdle(s: State, found: seq<bool>)
    requires !s.pc.At?
    ensures Run(s, Checks(found)) == s
  {
    if found != [] {
      var n := |found| - 1;
      assert Checks(found) == Checks(found[..n]) + [Work(found[n])];
      ChecksIdle(s, found[..n]);
      RunMore(s, Checks(found[..n]), Work(found[n]));
    }
  }

  /** What a submission leaves behind. */
  ghost predicate Accepted(s: State, u: State, t: int)
    requires t in s.active && s.queue != []
  {
    && u.pc == Idle && u.queue == s.queue[1..]
    && u.active == s.active[t := s.active[t].(state := Submitted)] && u.submitted == s.submitted + [t]
    && u.log == s.log + [SubmitEntry(t, s.active[t].mutations)]
    && u.delivered == s.delivered && u.pending == s.pending && u.acks == s.acks
    && u.currentSequenceId == s.currentSequenceId + 1
  }

  lemma SubmitItem(s: State, u: State, t: int)
    requires s.queue != [] && t in s.active && |s.pending| == |s.delivered| >= |s.lastDocument|
    requires AtWork(s, u, At(Checking, QueueItem(Submit, t), 0, |s.active[t].constraints|))
    ensures Accepted(s, Run(u, Works(3)), t)
  {
    ThreeWorks(u);
  }

  lemma ThreeWorks(s: State)
    ensures var a := if Happens(s, Work(true)) then Step(s, Work(true)) else s;
            var b := if Happens(a, Work(true)) then Step(a, Work(true)) else a;
            Run(s, Works(3)) == if Happens(b, Work(true)) then Step(b, Work(true)) else b
  {
    hide Step, Happens;
    assert Works(3) == [Work(true), Work(true)] + [Work(true)];
    assert [Work(true), Work(true)] == [Work(true)] + [Work(true)];
    RunMore(s, [Work(true), Work(true)], Work(true));
    RunMore(s, [Work(true)], Work(true));
    RunOne(s, Work(true));
  }

  /** A submission is logged, and its transaction is submitted, exactly when every submitted transaction
      is active and does not clash with it, in either direction, and every document that must exist
      was found. Else the first submitted transaction in its way decides: if that one is not active
      the processor throws, if it clashes the transaction is gone; and it is gone if a document is
      missing. Nothing else changes then. */
  lemma SubmitRun(s: State, t: int, found: seq<bool>)
    requires Inv(s) && IsNext(s, Submit, t) && t in s.active
    requires |found| == |s.active[t].constraints|
    ensures var u := Run(s, Examined(found) + Works(3));
            if !Clear(s, t) then Stopped(s, u, t)
            else if AllFound(s.active[t].constraints, found) then Accepted(s, u, t)
            else Refused(s, u, t)
  {
    hide Inv, AtWork, Refused, Stopped, Clear, Run, Accepted, Examined, Works;
    ExamineItem(s, Submit, t, found);
    var u := Run(s, Examined(found));
    RunTwice(s, Examined(found), Works(3));
    Sized(s);
    if !Clear(s, t) {
      StoppedIsIdle(s, u, t);
      NoMoreWork(u, 3);
    } else if AllFound(s.active[t].constraints, found) {
      SubmitItem(s, u, t);
    } else {
      RefusedIsIdle(s, u, t);
      NoMoreWork(u, 3);
    }
  }

  // ------------------------------------------------------------------
  // Commits
  // ------------------------------------------------------------------

  /** The first `k` drivers have got the commit. */
  ghost predicate Delivering(s: State, u: State, c: Committed, k: nat) {
    && |u.delivered| == |u.pending| == |s.delivered| == |s.pending|
    && (forall d | 0 <= d < |s.delivered| ::
          && u.delivered[d] == (if d < k then s.delivered[d] + [c] else s.delivered[d])
          && u.pending[d] == (if d < k then s.pending[d] + [Live(c.trid)] else s.pending[d]))
  }

  /** The commit is logged as `e`, and it is being delivered. */
  ghost predicate IsLogged(s: State, u: State, item: QueueItem, c: Committed, e: LogEntry, k: nat)
    requires s.queue != []
  {
    && u.pc == At(EngineSteps.Delivering, item, c.sequenceId, k)
    && u.queue == s.queue[1..] && u.active == s.active && u.log == s.log + [e] && u.acks == s.acks
    && u.submitted == (if item.kind == SubmitCommit then s.submitted + [item.trid] else s.submitted)
    && u.currentSequenceId == c.sequenceId && |u.lastDocument| == |s.lastDocument|
    && Delivering(s, u, c, k)
  }

  lemma DeliverOnce(s: State, u: State, item: QueueItem, c: Committed, e: LogEntry, k: nat)
    requires item.trid in s.active && c.trid == item.trid && c.mutations == s.active[item.trid].mutations
    requires |s.pending| == |s.delivered| >= |s.lastDocument| && k < |s.delivered|
    requires s.queue != [] && IsLogged(s, u, item, c, e, k)
    ensures Happens(u, Work(true)) && IsLogged(s, Step(u, Work(true)), item, c, e, k + 1)
  {
  }

  lemma {:induction false} DeliverAll(s: State, u: State, item: QueueItem, c: Committed, e: LogEntry, k: nat)
    requires item.trid in s.active && c.trid == item.trid && c.mutations == s.active[item.trid].mutations
    requires |s.pending| == |s.delivered| >= |s.lastDocument| && k <= |s.delivered|
    requires s.queue != [] && IsLogged(s, u, item, c, e, 0)
    ensures IsLogged(s, Run(u, Works(k)), item, c, e, k)
  {
    hide IsLogged, Step;
    if k > 0 {
      assert Works(k) == Works(k - 1) + [Work(true)];
      DeliverAll(s, u, item, c, e, k - 1);
      RunMore(u, Works(k - 1), Work(true));
      DeliverOnce(s, Run(u, Works(k - 1)), item, c, e, k - 1);
    }
  }

  /** What a commit leaves behind: it is in the log, every driver has got it as the last one, the
      client has its sequence id, and the engine is done with the transaction. */
  ghost predicate Done(s: State, u: State, c: Committed, e: LogEntry)
    requires s.queue != []
  {
    && u.pc == Idle && u.queue == s.queue[1..] && u.active == s.active - {c.trid} && u.log == s.log + [e]
    && |u.delivered| == |u.pending| == |s.delivered| == |s.pending|
    && (forall d | 0 <= d < |s.delivered| ::
          u.delivered[d] == s.delivered[d] + [c] && u.pending[d] == s.pending[d] + [Live(c.trid)])
    && u.acks == s.acks + [Ack(c.trid, c.sequenceId)] && u.currentSequenceId == c.sequenceId
    && (forall x :: x in u.submitted <==> x in s.submitted && x != c.trid)
  }

  lemma EndCommit(s: State, u: State, item: QueueItem, c: Committed, e: LogEntry)
    requires item.trid in s.active && c.trid == item.trid
    requires |s.pending| == |s.delivered| >= |s.lastDocument| && Distinct(s.submitted)
    requires if item.kind == SubmitCommit then item.trid !in s.submitted else item.trid in s.submitted
    requires s.queue != [] && IsLogged(s, u, item, c, e, |s.delivered|)
    ensures Happens(u, Work(true)) && Done(s, Step(u, Work(true)), c, e)
  {
    if item.kind == SubmitCommit {
      DistinctMore(s.submitted, item.trid);
    }
    Erased(u.submitted, item.trid);
  }

  lemma DistinctMore(xs: seq<int>, x: int)
    requires Distinct(xs) && x !in xs
    ensures Distinct(xs + [x])
  {
  }

  lemma CommitRest(s: State, u: State, item: QueueItem, c: Committed, e: LogEntry)
    requires item.trid in s.active && c.trid == item.trid && c.mutations == s.active[item.trid].mutations
    requires |s.pending| == |s.delivered| >= |s.lastDocument| && Distinct(s.submitted)
    requires if item.kind == SubmitCommit then item.trid !in s.submitted else item.trid in s.submitted
    requires s.queue != [] && IsLogged(s, u, item, c, e, 0)
    ensures Done(s, Run(u, Works(|s.delivered| + 1)), c, e)
  {
    hide IsLogged, Done, Step, Distinct;
    var n := |s.delivered|;
    DeliverAll(s, u, item, c, e, n);
    assert Works(n + 1) == Works(n) + [Work(true)];
    RunMore(u, Works(n), Work(true));
    EndCommit(s, Run(u, Works(n)), item, c, e);
  }

  lemma LogCommitted(s: State, u: State, t: int)
    requires s.queue != [] && t in s.active && |s.pending| == |s.delivered| >= |s.lastDocument|
    requires AtWork(s, u, At(Taken, QueueItem(Commit, t), 0, 0))
    ensures var id := s.currentSequenceId + 1;
            IsLogged(s, Run(u, Works(3)), QueueItem(Commit, t), Committed(t, id, s.active[t].mutations),
                     CommitEntry(t, id), 0)
  {
    hide AfterDeliver, AfterProcessSubmit, AfterCheckConstraint, AfterProcessRollback;
    ThreeWorks(u);
  }

  lemma LogMergedCommit(s: State, u: State, t: int)
    requires s.queue != [] && t in s.active && |s.pending| == |s.delivered| >= |s.lastDocument|
    requires AtWork(s, u, At(Checking, QueueItem(SubmitCommit, t), 0, |s.active[t].constraints|))
    ensures var id, ms := s.currentSequenceId + 1, s.active[t].mutations;
            IsLogged(s, Run(u, Works(3)), QueueItem(SubmitCommit, t), Committed(t, id, ms),
                     SubmitCommitEntry(t, id, ms), 0)
  {
    hide AfterDeliver, AfterProcessSubmit, AfterProcessCommit, AfterProcessRollback;
    ThreeWorks(u);
  }

  lemma SubmittedOnce(s: State)
    requires Inv(s)
    ensures Distinct(s.submitted)
  {
    hide ConflictFree, Passed, LogAgrees, Delivered, Counted, Documents, Durable, BookOf;
  }

  lemma NotYetSubmitted(s: State, t: int)
    requires Inv(s) && IsNext(s, SubmitCommit, t)
    ensures t in s.active && t !in s.submitted
  {
    hide ConflictFree, Passed, LogAgrees, Delivered, Counted, Documents, Durable, BookOf;
    assert Items(s.pc, s.queue)[0] == s.queue[0];
    assert t in s.submitted ==> Listed(s.active, s.pc, s.repaired, t);
  }

  /** A commit is logged under the next sequence id, given to every driver with the mutations of its
      transaction, and reported. */
  lemma CommitRun(s: State, t: int)
    requires Inv(s) && IsNext(s, Commit, t)
    ensures t in s.active && t in s.submitted
    ensures var id := s.currentSequenceId + 1;
            Done(s, Run(s, [Event.Process] + Works(3) + Works(|s.delivered| + 1)),
                 Committed(t, id, s.active[t].mutations), CommitEntry(t, id))
  {
    hide Inv, AtWork, IsLogged, Done, Step, Enabled, Works, Distinct, Known;
    TakeItem(s, Commit, t);
    Sized(s);
    SubmittedOnce(s);
    RunOne(s, Event.Process);
    var a := Step(s, Event.Process);
    RunTwice(s, [Event.Process], Works(3));
    LogCommitted(s, a, t);
    RunTwice(s, [Event.Process] + Works(3), Works(|s.delivered| + 1));
    var id := s.currentSequenceId + 1;
    CommitRest(s, Run(a, Works(3)), QueueItem(Commit, t), Committed(t, id, s.active[t].mutations),
               CommitEntry(t, id));
  }

  /** A combined submission and commit is done completely, exactly when the submission would be
      accepted; otherwise it ends as the submission would. */
  lemma SubmitCommitRun(s: State, t: int, found: seq<bool>)
    requires Inv(s) && IsNext(s, SubmitCommit, t) && t in s.active
    requires |found| == |s.active[t].constraints|
    ensures var id, ms := s.currentSequenceId + 1, s.active[t].mutations;
            var u := Run(s, Examined(found) + Works(3) + Works(|s.delivered| + 1));
            if !Clear(s, t) then Stopped(s, u, t)
            else if AllFound(s.active[t].constraints, found)
            then Done(s, u, Committed(t, id, ms), SubmitCommitEntry(t, id, ms))
            else Refused(s, u, t)
  {
    hide Inv, AtWork, Refused, Stopped, Clear, Run, Examined, Works, IsLogged, Done, Distinct;
    ExamineItem(s, SubmitCommit, t, found);
    NotYetSubmitted(s, t);
    var u := Run(s, Examined(found));
    var n := |s.delivered| + 1;
    RunTwice(s, Examined(found), Works(3));
    RunTwice(s, Examined(found) + Works(3), Works(n));
    Sized(s);
    if Clear(s, t) && AllFound(s.active[t].constraints, found) {
      SubmittedOnce(s);
      LogMergedCommit(s, u, t);
      var id, ms := s.currentSequenceId + 1, s.active[t].mutations;
      CommitRest(s, Run(u, Works(3)), QueueItem(SubmitCommit, t), Committed(t, id, ms), SubmitCommitEntry(t, id, ms));
    } else {
      if Clear(s, t) {
        RefusedIsIdle(s, u, t);
      } else {
        StoppedIsIdle(s, u, t);
      }
      NoMoreWork(u, 3);
      NoMoreWork(u, n);
    }
  }

  // ------------------------------------------------------------------
  // Rollbacks
  // ------------------------------------------------------------------

  /** A rollback ends the transaction and logs nothing. With the guard repaired it also takes the
      transaction off the submitted list; as the guard is written, it never does. */
  lemma RollbackRun(s: State, t: int)
    requires Inv(s) && IsNext(s, Rollback, t)
    ensures var u := Run(s, [Event.Process] + Works(1));
            && u.pc == Idle && u.queue == s.queue[1..] && u.active == s.active - {t} && u.log == s.log
            && u.delivered == s.delivered && u.pending == s.pending && u.acks == s.acks
            && u.currentSequenceId == s.currentSequenceId
            && (if s.repaired then forall x :: x in u.submitted <==> x in s.submitted && x != t
                else u.submitted == s.submitted)
  {
    hide Inv, Distinct;
    TakeItem(s, Rollback, t);
    SubmittedOnce(s);
    assert Works(1) == [Work(true)];
    RunOne(s, Event.Process);
    RunMore(s, [Event.Process], Work(true));
    if t in s.submitted {
      Erased(s.submitted, t);
    }
  }
}
