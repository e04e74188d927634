/** What every reachable state of the engine keeps, part by part. Each part mentions only the
    fields it is about. */
module EngineInvariants {
  import opened DbTypes
  import opened EngineLogs
  import opened EngineSteps

  // ------------------------------------------------------------------
  // The parts
  // ------------------------------------------------------------------

  ghost predicate Distinct(s: seq<int>) {
    forall i, j | 0 <= i < j < |s| :: s[i] != s[j]
  }

  /** Everything that is queued or being worked on. */
  function Items(pc: Processor, queue: seq<QueueItem>): seq<QueueItem> {
    (if pc.At? then [pc.item] else []) + queue
  }

  /** The queue item is what its transaction waits for. */
  ghost predicate Waiting(active: map<int, Transaction>, submitted: seq<int>, item: QueueItem) {
    && item.trid in active
    && active[item.trid].state == QueuedState(item.kind)
    && (item.kind == Commit ==> item.trid in submitted)
  }

  /** Whether the processor delivers the commit of a transaction that was not submitted apart. */
  predicate Merging(pc: Processor, t: int) {
    pc.At? && pc.phase == Delivering && pc.item == QueueItem(SubmitCommit, t)
  }

  /** A transaction in the submitted list was submitted, and is not open. */
  ghost predicate Listed(active: map<int, Transaction>, pc: Processor, repaired: bool, t: int) {
    if t in active then active[t].state in {Submitted, InCommitOrRollback} || Merging(pc, t) else !repaired
  }

  /** Which phases an item goes through. */
  predicate Proper(pc: Processor) {
    pc.At? ==>
      match pc.phase
      case Taken => true
      case Checking => QueuedState(pc.item.kind) == InSubmit
      case Delivering => pc.item.kind == SubmitCommit || pc.item.kind == Commit
      case _ => pc.item.kind != Rollback
  }

  ghost predicate Queueing(active: map<int, Transaction>, submitted: seq<int>, queue: seq<QueueItem>, pc: Processor,
                           nextTransactId: int, repaired: bool) {
    var items := Items(pc, queue);
    && (forall i, j | 0 <= i < j < |items| :: items[i].trid != items[j].trid)
    && (forall i | 0 <= i < |items| :: Waiting(active, submitted, items[i]))
    && Distinct(submitted)
    && (forall t | t in submitted :: t < nextTransactId && Listed(active, pc, repaired, t))
    && (forall t | t in active :: t < nextTransactId)
    && (forall t | t in active && active[t].state == Submitted :: t in submitted)
    && (pc.At? && pc.phase == Delivering ==> pc.item.trid in submitted)
    && Proper(pc)
  }

  /** No two submitted transactions conflict. */
  ghost predicate ConflictFree(active: map<int, Transaction>, submitted: seq<int>) {
    forall a, b | a in submitted && b in submitted && a != b && a in active && b in active ::
      Agree(active[a], active[b])
  }

  /** The transaction that passed the scan still agrees with all submitted ones. */
  ghost predicate Passed(active: map<int, Transaction>, submitted: seq<int>, pc: Processor) {
    pc.At? && pc.phase in {Checking, Logging, AfterLog} && QueuedState(pc.item.kind) == InSubmit
        && pc.item.trid in active ==>
      forall t | t in submitted && t in active :: Agree(active[t], active[pc.item.trid])
  }

  /** Whether the processor has logged the commit, or the submission, of a transaction and is
      not done with it. */
  predicate PastCommit(pc: Processor) {
    pc.At? && pc.phase in {AfterLog, Delivering} && pc.item.kind != Submit
  }

  predicate PastSubmit(pc: Processor) {
    pc.At? && pc.phase == AfterLog && pc.item.kind == Submit
  }

  /** Committed sequence ids increase along the log, and no transaction is committed twice. */
  ghost predicate Increasing(b: Book, currentSequenceId: int) {
    && (forall i, j | 0 <= i < j < |b.commits| ::
          b.commits[i].sequenceId < b.commits[j].sequenceId && b.commits[i].trid != b.commits[j].trid)
    && (forall i | 0 <= i < |b.commits| ::
        0 < b.commits[i].sequenceId <= currentSequenceId && b.commits[i].trid !in b.open)
  }

  ghost predicate LogTells(active: map<int, Transaction>, b: Book, t: int) {
    t in active && t in b.open && b.open[t] == AsInserts(active[t].mutations)
  }

  /** The log agrees with memory: replay would not throw, what is submitted and not committed
      can be committed from the log, and the ids of the log are used up. */
  ghost predicate LogAgrees(active: map<int, Transaction>, submitted: seq<int>, pc: Processor, b: Book,
                            currentSequenceId: int, nextTransactId: int) {
    && b.ok && b.nextTransactId <= nextTransactId && Increasing(b, currentSequenceId)
    && (forall t | t in b.open && t in active ::
          (t in submitted && active[t].state in {Submitted, InCommitOrRollback})
              || (PastSubmit(pc) && pc.item.trid == t))
    && (forall t | t in active && t in submitted :: (PastCommit(pc) && pc.item.trid == t) || LogTells(active, b, t))
    && (forall i | 0 <= i < |b.commits| && b.commits[i].trid in active ::
        PastCommit(pc) && pc.item.trid == b.commits[i].trid)
    && (PastSubmit(pc) ==> LogTells(active, b, pc.item.trid))
    && (PastCommit(pc) ==>
          && pc.item.trid in active && pc.item.trid !in b.open && b.commits != []
          && b.commits[|b.commits| - 1] == Committed(pc.item.trid, pc.sequenceId,
                                                     AsInserts(active[pc.item.trid].mutations)))
    && (pc.At? && pc.phase in {Logging, AfterLog, Delivering} ==> pc.sequenceId == currentSequenceId)
    && (pc.At? && pc.phase == Logging ==>
          0 < currentSequenceId && forall i | 0 <= i < |b.commits| :: b.commits[i].sequenceId < currentSequenceId)
  }

  function Norm(c: Committed): Committed {
    c.(mutations := AsInserts(c.mutations))
  }

  function Norms(cs: seq<Committed>): seq<Committed> {
    seq(|cs|, i requires 0 <= i < |cs| => Norm(cs[i]))
  }

  /** How many logged commits a driver has been given: all, but for the one being delivered. */
  function Given(pc: Processor, n: nat, d: nat): int {
    if PastCommit(pc) && (pc.phase == AfterLog || pc.index <= d) then n - 1 else n
  }

  ghost predicate DeliveredTo(delivered: seq<Committed>, pc: Processor, commits: seq<Committed>, d: nat) {
    var n := Given(pc, |commits|, d);
    0 <= n && Norms(delivered) == commits[..n]
  }

  /** What the drivers were given are the logged commits, in order. */
  ghost predicate Delivered(delivered: seq<seq<Committed>>, pc: Processor, commits: seq<Committed>) {
    forall d | 0 <= d < |delivered| :: DeliveredTo(delivered[d], pc, commits, d)
  }

  /** Reference counts: the engine's hold, the drivers' items, and what recovery leaked. */
  ghost predicate Counted(active: map<int, Transaction>, pending: seq<seq<Object>>, refs: multiset<Object>,
                          leaked: multiset<Object>) {
    refs == Holds(active.Keys) + Outstanding(pending) + leaked
  }

  /** The ids of insertions were allocated: a storage's counter is at or beyond them. */
  ghost predicate Allocated(ms: seq<Mutation>, lastDocument: seq<int>) {
    forall i | 0 <= i < |ms| && ms[i].kind == MutationType.Insert ::
      0 <= ms[i].storageIndex < |lastDocument| && ms[i].documentId <= lastDocument[ms[i].storageIndex]
  }

  ghost predicate Documents(active: map<int, Transaction>, log: seq<LogEntry>, lastDocument: seq<int>) {
    && (forall t | t in active ::
          Allocated(active[t].mutations, lastDocument) && Stored(active[t].mutations, lastDocument))
    && (forall i | 0 <= i < |log| ::
          Allocated(MutationsIn(log[i]), lastDocument) && Stored(MutationsIn(log[i]), lastDocument))
  }

  ghost predicate Stored(ms: seq<Mutation>, lastDocument: seq<int>) {
    forall i | 0 <= i < |ms| :: 0 <= ms[i].storageIndex < |lastDocument|
  }

  /** Every acknowledged commit is in the log, under the id that was returned. */
  ghost predicate Durable(acks: seq<Ack>, commits: seq<Committed>) {
    forall i | 0 <= i < |acks| :: IsCommit(commits, acks[i])
  }

  ghost predicate IsCommit(commits: seq<Committed>, a: Ack) {
    exists k :: 0 <= k < |commits| && commits[k].trid == a.trid && commits[k].sequenceId == a.sequenceId
  }

  /** Acknowledged transactions are done with. */
  ghost predicate Finished(acks: seq<Ack>, active: map<int, Transaction>) {
    forall i | 0 <= i < |acks| :: acks[i].trid !in active
  }

  ghost predicate Inv(s: State) {
    var b := BookOf(s.log);
    && |s.pending| == |s.delivered| >= |s.lastDocument|
    && s.nextTransactId >= 1 && s.currentSequenceId >= 0
    && (s.pc == Thrown ==> !s.repaired)
    && Queueing(s.active, s.submitted, s.queue, s.pc, s.nextTransactId, s.repaired)
    && ConflictFree(s.active, s.submitted) && Passed(s.active, s.submitted, s.pc)
    && LogAgrees(s.active, s.submitted, s.pc, b, s.currentSequenceId, s.nextTransactId)
    && Delivered(s.delivered, s.pc, b.commits)
    && Counted(s.active, s.pending, s.refs, s.leaked)
    && Documents(s.active, s.log, s.lastDocument)
    && Durable(s.acks, b.commits) && Finished(s.acks, s.active)
  }
}
