/** The transaction engine as a state machine: clients call it under its lock, one queue
    processor works on one queue item at a time, drivers finish what they were given, and the
    process may stop at any moment and start again from the log. */
module EngineSteps {
  import opened DbTypes
  import opened EngineLogs

  datatype TxState = Open | InSubmit | Submitted | InCommitOrRollback

  datatype Transaction = Transaction(state: TxState, mutations: seq<Mutation>, constraints: seq<Constraint>)

  datatype QueueType = Submit | SubmitCommit | Commit | Rollback

  datatype QueueItem = QueueItem(kind: QueueType, trid: int)

  /** What the processor does next with its item. */
  datatype Phase = Taken | Checking | Logging | AfterLog | Delivering

  /** `index` is the next constraint to check, or the next driver to deliver to. */
  datatype Processor =
    | Idle
    | Thrown
    | At(phase: Phase, item: QueueItem, sequenceId: int, index: nat)

  /** A counted transaction object: one of the engine's, or one that replay made for the k-th
      commit it handed to a driver. */
  datatype Object = Live(trid: int) | Replayed(driver: nat, k: nat)

  /** A commit as it was reported to the client. */
  datatype Ack = Ack(trid: int, sequenceId: int)

  datatype State = State(
    // whether the processor's rollback guard is as intended
    repaired: bool,
    nextTransactId: int,
    currentSequenceId: int,
    active: map<int, Transaction>,
    submitted: seq<int>,
    queue: seq<QueueItem>,
    pc: Processor,
    log: seq<LogEntry>,
    // per storage: the last allocated document id
    lastDocument: seq<int>,
    // per driver: what it was given since the start, and the objects it still holds
    delivered: seq<seq<Committed>>,
    pending: seq<seq<Object>>,
    // reference counts, and the references nobody will give back
    refs: multiset<Object>,
    leaked: multiset<Object>,
    acks: seq<Ack>)

  function Repeat<T>(n: nat, x: T): (r: seq<T>)
    ensures |r| == n && forall i | 0 <= i < n :: r[i] == x
  {
    seq(n, _ => x)
  }

  function Initial(repaired: bool, storages: nat, drivers: nat): State {
    State(repaired, 1, 0, map[], [], [], Idle, [], Repeat(storages, 0), Repeat(drivers, []), Repeat(drivers, []),
          multiset{}, multiset{}, [])
  }

  // ------------------------------------------------------------------
  // Conflicts
  // ------------------------------------------------------------------

  predicate Compatible(m: Mutation, c: Constraint) {
    !(c.matchSequenceId && m.kind == MutationType.Modify && m.documentId == c.documentId)
  }

  predicate AllCompatible(ms: seq<Mutation>, cs: seq<Constraint>) {
    forall i, j | 0 <= i < |ms| && 0 <= j < |cs| :: Compatible(ms[i], cs[j])
  }

  predicate Agree(a: Transaction, b: Transaction) {
    AllCompatible(a.mutations, b.constraints) && AllCompatible(b.mutations, a.constraints)
  }

  datatype Verdict = Pass | ConstraintConflict | MutationConflict | IllegalAt

  /** The scan over the submitted transactions: the first that does not pass decides, and
      looking up one that is no longer active throws. */
  function Judge(active: map<int, Transaction>, submitted: seq<int>, t: Transaction): Verdict {
    if submitted == [] then Pass
    else if submitted[0] !in active then IllegalAt
    else
      var other := active[submitted[0]];
      if !AllCompatible(other.mutations, t.constraints) then ConstraintConflict
      else if !AllCompatible(t.mutations, other.constraints) then MutationConflict
      else Judge(active, submitted[1..], t)
  }

  // ------------------------------------------------------------------
  // Steps
  // ------------------------------------------------------------------

  datatype Event =
    | Begin
    | UpdateMutation(trid: int, mutation: Mutation)
    | UpdateConstraint(trid: int, constraint: Constraint)
    | Enqueue(item: QueueItem)
    | Process
    | Work(found: bool)
    | Complete(d: nat)
    | Restart(order: seq<int>)

  /** The state that a call demands of its transaction. */
  predicate Admits(kind: QueueType, state: TxState) {
    match kind
    case Submit => state == Open
    case SubmitCommit => state == Open
    case Commit => state == Submitted
    case Rollback => state == Open || state == Submitted
  }

  function QueuedState(kind: QueueType): TxState {
    if kind == Submit || kind == SubmitCommit then InSubmit else InCommitOrRollback
  }

  ghost predicate Permutes(order: seq<int>, keys: set<int>) {
    && (forall t :: t in order <==> t in keys)
    && (forall i, j | 0 <= i < j < |order| :: order[i] != order[j])
  }

  /** When a step can happen. For calls it is what they assert of the transaction, if there is
      one; a restart may meet the open transactions in any order. */
  ghost predicate Enabled(s: State, e: Event) {
    match e
    case Begin => s.pc != Thrown
    case UpdateMutation(t, m) =>
      s.pc != Thrown && (t in s.active ==> s.active[t].state == Open) && 0 <= m.storageIndex < |s.lastDocument|
    case UpdateConstraint(t, _) => s.pc != Thrown && (t in s.active ==> s.active[t].state == Open)
    case Enqueue(item) => s.pc != Thrown && (item.trid in s.active ==> Admits(item.kind, s.active[item.trid].state))
    case Process => s.pc == Idle && s.queue != []
    case Work(_) => s.pc.At?
    case Complete(d) => s.pc != Thrown && d < |s.pending| && s.pending[d] != []
    case Restart(order) => Permutes(order, BookOf(s.log).open.Keys)
  }

  /** The processor holds a transaction once it has found it. */
  ghost predicate Known(s: State) {
    && |s.pending| == |s.delivered| >= |s.lastDocument|
    && (s.pc.At? && s.pc.phase != Taken ==> s.pc.item.trid in s.active)
  }

  function AfterBegin(s: State): State {
    var id := s.nextTransactId;
    s.(nextTransactId := id + 1, active := s.active[id := Transaction(Open, [], [])],
       refs := s.refs + multiset{Live(id)})
  }

  function AfterUpdateMutation(s: State, trid: int, m: Mutation): State
    requires 0 <= m.storageIndex < |s.lastDocument|
  {
    if trid !in s.active then s
    else
      var x, t := m.storageIndex, s.active[trid];
      if m.kind == MutationType.Insert then
        var id := s.lastDocument[x] + 1;
        s.(lastDocument := s.lastDocument[x := id],
           active := s.active[trid := t.(mutations := t.mutations + [m.(documentId := id)])])
      else s.(active := s.active[trid := t.(mutations := t.mutations + [m])])
  }

  function AfterUpdateConstraint(s: State, trid: int, c: Constraint): State {
    if trid !in s.active then s
    else
      var t := s.active[trid];
      s.(active := s.active[trid := t.(constraints := t.constraints + [c])])
  }

  function AfterEnqueue(s: State, item: QueueItem): State {
    if item.trid !in s.active then s
    else
      s.(active := s.active[item.trid := s.active[item.trid].(state := QueuedState(item.kind))],
         queue := s.queue + [item])
  }

  /** Without its first occurrence of `t`. */
  function Erase(s: seq<int>, t: int): seq<int> {
    if s == [] then [] else if s[0] == t then s[1..] else [s[0]] + Erase(s[1..], t)
  }

  /** The engine gives up its transaction. */
  function Drop(s: State, trid: int): State {
    s.(active := s.active - {trid}, refs := s.refs - multiset{Live(trid)}, pc := Idle)
  }

  function AfterProcessSubmit(s: State): State
    requires s.pc.At?
  {
    var trid := s.pc.item.trid;
    if trid !in s.active then s.(pc := Thrown)
    else match Judge(s.active, s.submitted, s.active[trid])
      case IllegalAt => s.(pc := Thrown)
      case Pass => s.(pc := s.pc.(phase := Checking, index := 0))
      case _ => Drop(s, trid)
  }

  function AfterProcessCommit(s: State): State
    requires s.pc.At?
  {
    if s.pc.item.trid !in s.active then s.(pc := Thrown)
    else s.(currentSequenceId := s.currentSequenceId + 1,
            pc := s.pc.(phase := Logging, sequenceId := s.currentSequenceId + 1))
  }

  /** The guard tests the state that `rollback` has overwritten; repaired, it tests whether the
      transaction was submitted. */
  predicate TakesBack(s: State, trid: int)
    requires trid in s.active
  {
    if s.repaired then trid in s.submitted else s.active[trid].state == Submitted
  }

  function AfterProcessRollback(s: State): State
    requires s.pc.At?
  {
    var trid := s.pc.item.trid;
    if trid !in s.active then s.(pc := Thrown)
    else Drop(s, trid).(submitted := if TakesBack(s, trid) then Erase(s.submitted, trid) else s.submitted)
  }

  function AfterCheckConstraint(s: State, found: bool): State
    requires s.pc.At? && s.pc.item.trid in s.active
  {
    var cs := s.active[s.pc.item.trid].constraints;
    if s.pc.index >= |cs| then
      s.(currentSequenceId := s.currentSequenceId + 1,
         pc := s.pc.(phase := Logging, sequenceId := s.currentSequenceId + 1))
    else if !found && cs[s.pc.index].mustExist then Drop(s, s.pc.item.trid)
    else s.(pc := s.pc.(index := s.pc.index + 1))
  }

  function EntryFor(s: State): LogEntry
    requires s.pc.At? && s.pc.item.trid in s.active
  {
    var trid := s.pc.item.trid;
    match s.pc.item.kind
    case Submit => SubmitEntry(trid, s.active[trid].mutations)
    case SubmitCommit => SubmitCommitEntry(trid, s.currentSequenceId, s.active[trid].mutations)
    case _ => CommitEntry(trid, s.currentSequenceId)
  }

  function AfterWriteAhead(s: State): State
    requires s.pc.At? && s.pc.item.trid in s.active
  {
    s.(log := s.log + [EntryFor(s)], pc := s.pc.(phase := AfterLog))
  }

  /** `afterWriteAhead`, with `submitComplete`. */
  function AfterLogged(s: State): State
    requires s.pc.At? && s.pc.item.trid in s.active
  {
    var trid := s.pc.item.trid;
    match s.pc.item.kind
    case Submit =>
      s.(submitted := s.submitted + [trid], active := s.active[trid := s.active[trid].(state := Submitted)], pc := Idle)
    case SubmitCommit => s.(submitted := s.submitted + [trid], pc := s.pc.(phase := Delivering, index := 0))
    case _ => s.(pc := s.pc.(phase := Delivering, index := 0))
  }

  /** `commitComplete`: one driver after the other, and then the end of the transaction. */
  function AfterDeliver(s: State): State
    requires s.pc.At? && s.pc.item.trid in s.active && |s.pending| == |s.delivered|
  {
    var trid, d := s.pc.item.trid, s.pc.index;
    if d < |s.delivered| then
      s.(delivered := s.delivered[d := s.delivered[d] + [Committed(trid, s.pc.sequenceId, s.active[trid].mutations)]],
         pending := s.pending[d := s.pending[d] + [Live(trid)]],
         refs := s.refs + multiset{Live(trid)},
         pc := s.pc.(index := d + 1))
    else if trid !in s.submitted then s.(pc := Thrown)
    else Drop(s, trid).(submitted := Erase(s.submitted, trid), acks := s.acks + [Ack(trid, s.pc.sequenceId)])
  }

  function AfterWork(s: State, found: bool): State
    requires s.pc.At? && (s.pc.phase != Taken ==> s.pc.item.trid in s.active) && |s.pending| == |s.delivered|
  {
    match s.pc.phase
    case Taken =>
      (match s.pc.item.kind
       case Submit => AfterProcessSubmit(s)
       case SubmitCommit => AfterProcessSubmit(s)
       case Commit => AfterProcessCommit(s)
       case Rollback => AfterProcessRollback(s))
    case Checking => AfterCheckConstraint(s, found)
    case Logging => AfterWriteAhead(s)
    case AfterLog => AfterLogged(s)
    case Delivering => AfterDeliver(s)
  }

  /** A driver has applied its oldest item and calls `refDecrement`. */
  function AfterComplete(s: State, d: nat): State
    requires d < |s.pending| && s.pending[d] != []
  {
    s.(pending := s.pending[d := s.pending[d][1..]], refs := s.refs - multiset{s.pending[d][0]})
  }

  // ------------------------------------------------------------------
  // Restart
  // ------------------------------------------------------------------

  function Recovered(ms: seq<Mutation>): Transaction {
    Transaction(Submitted, ms, [])
  }

  function RecoveredActive(b: Book): map<int, Transaction> {
    map t | t in b.open :: Recovered(b.open[t])
  }

  function ReplayedObjects(d: nat, n: nat): seq<Object> {
    seq(n, k requires 0 <= k < n => Replayed(d, k))
  }

  /** The objects that replay hands out, per driver. */
  function AllReplayed(drivers: nat, commits: nat): (r: seq<seq<Object>>)
    ensures |r| == drivers
  {
    seq(drivers, d requires 0 <= d < drivers => ReplayedObjects(d, commits))
  }

  function Holds(ids: set<int>): multiset<Object> {
    multiset(set t | t in ids :: Live(t))
  }

  ghost function Outstanding(pending: seq<seq<Object>>): multiset<Object> {
    if pending == [] then multiset{} else Outstanding(pending[..|pending| - 1]) + multiset(pending[|pending| - 1])
  }

  /** The meta replay: the counters, and the submitted transactions with one reference each
      that is never given back. */
  function AfterMeta(s: State, b: Book, order: seq<int>): State {
    s.(nextTransactId := b.nextTransactId, currentSequenceId := b.currentSequenceId,
       active := RecoveredActive(b), submitted := order, queue := [], pc := Idle,
       refs := Holds(b.open.Keys) + Holds(b.open.Keys), leaked := Holds(b.open.Keys))
  }

  /** The data replays: every driver is given the commits, and reinspects all mutations. */
  ghost function AfterData(s: State, b: Book): State {
    var pending := AllReplayed(|s.delivered|, |b.commits|);
    s.(lastDocument := Repeat(|s.lastDocument|, b.lastDocumentId), delivered := Repeat(|s.delivered|, b.commits),
       pending := pending, refs := s.refs + Outstanding(pending))
  }

  /** All volatile state is gone, and replay brings back what the log tells. */
  ghost function AfterRestart(s: State, order: seq<int>): State {
    var b := BookOf(s.log);
    if !b.ok then s.(pc := Thrown) else AfterData(AfterMeta(s, b, order), b)
  }

  ghost function Step(s: State, e: Event): State
    requires Enabled(s, e) && Known(s)
  {
    match e
    case Begin => AfterBegin(s)
    case UpdateMutation(t, m) => AfterUpdateMutation(s, t, m)
    case UpdateConstraint(t, c) => AfterUpdateConstraint(s, t, c)
    case Enqueue(item) => AfterEnqueue(s, item)
    case Process => s.(queue := s.queue[1..], pc := At(Taken, s.queue[0], 0, 0))
    case Work(found) => AfterWork(s, found)
    case Complete(d) => AfterComplete(s, d)
    case Restart(order) => AfterRestart(s, order)
  }

  ghost predicate Happens(s: State, e: Event) {
    Known(s) && Enabled(s, e)
  }

  /** A run: which steps happened, in order. Steps that are not enabled do not happen. */
  ghost function Run(s: State, es: seq<Event>): State {
    if es == [] then s
    else
      var p := Run(s, es[..|es| - 1]);
      if Happens(p, es[|es| - 1]) then Step(p, es[|es| - 1]) else p
  }
}
