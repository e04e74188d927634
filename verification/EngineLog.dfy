/** What the engine writes ahead, and what a restart makes of it. */
module EngineLogs {
  import opened DbTypes

  datatype LogEntry =
    | SubmitEntry(trid: int, mutations: seq<Mutation>)
    | SubmitCommitEntry(trid: int, sequenceId: int, mutations: seq<Mutation>)
    | CommitEntry(trid: int, sequenceId: int)

  /** A commit as a driver gets it. */
  datatype Committed = Committed(trid: int, sequenceId: int, mutations: seq<Mutation>)

  /** Replay builds insertions from logged insertions and logged modifications alike. */
  function AsInsert(m: Mutation): Mutation {
    m.(kind := MutationType.Insert)
  }

  function AsInserts(ms: seq<Mutation>): (r: seq<Mutation>)
    ensures |r| == |ms| && forall i | 0 <= i < |ms| :: r[i] == AsInsert(ms[i])
  {
    seq(|ms|, i requires 0 <= i < |ms| => AsInsert(ms[i]))
  }

  function Max(a: int, b: int): int {
    if a < b then b else a
  }

  /** The greatest document id that a storage has seen after it reinspected replayed mutations. */
  function Reinspected(last: int, ms: seq<Mutation>): (r: int)
    ensures r >= last && forall i | 0 <= i < |ms| :: ms[i].documentId <= r
  {
    if ms == [] then last else Max(Reinspected(last, ms[..|ms| - 1]), ms[|ms| - 1].documentId)
  }

  /** What the replay closures have collected after some entries: the transactions submitted
      and not committed, the commits, and the counters. `ok` fails with `Illegal transaction`. */
  datatype Book = Book(
    ok: bool,
    open: map<int, seq<Mutation>>,
    commits: seq<Committed>,
    nextTransactId: int,
    currentSequenceId: int,
    lastDocumentId: int)

  function NewBook(): Book {
    Book(true, map[], [], 1, 0, 0)
  }

  function Enter(b: Book, e: LogEntry): Book {
    if !b.ok then b
    else match e
      case SubmitEntry(t, ms) =>
        b.(open := if t in b.open then b.open else b.open[t := AsInserts(ms)],
           nextTransactId := Max(b.nextTransactId, t + 1), lastDocumentId := Reinspected(b.lastDocumentId, ms))
      case SubmitCommitEntry(t, s, ms) =>
        b.(commits := b.commits + [Committed(t, s, AsInserts(ms))],
           nextTransactId := Max(b.nextTransactId, t + 1), currentSequenceId := Max(b.currentSequenceId, s),
           lastDocumentId := Reinspected(b.lastDocumentId, ms))
      case CommitEntry(t, s) =>
        if t !in b.open then b.(ok := false)
        else b.(open := b.open - {t}, commits := b.commits + [Committed(t, s, b.open[t])],
                currentSequenceId := Max(b.currentSequenceId, s))
  }

  function BookOf(log: seq<LogEntry>): Book {
    if log == [] then NewBook() else Enter(BookOf(log[..|log| - 1]), log[|log| - 1])
  }

  lemma BookGrows(log: seq<LogEntry>, e: LogEntry)
    ensures BookOf(log + [e]) == Enter(BookOf(log), e)
  {
    assert (log + [e])[..|log|] == log;
  }

  /** The mutations that an entry carries. */
  function MutationsIn(e: LogEntry): seq<Mutation> {
    if e.CommitEntry? then [] else e.mutations
  }

  /** The counters are beyond everything that was logged. */
  ghost predicate Beyond(b: Book, log: seq<LogEntry>) {
    && b.nextTransactId >= 1 && b.currentSequenceId >= 0
    && (forall t | t in b.open :: t < b.nextTransactId)
    && (forall k | 0 <= k < |b.commits| ::
        b.commits[k].trid < b.nextTransactId && b.commits[k].sequenceId <= b.currentSequenceId)
    && (forall i, j | 0 <= i < |log| && 0 <= j < |MutationsIn(log[i])| ::
        MutationsIn(log[i])[j].documentId <= b.lastDocumentId)
    && (forall t, j | t in b.open && 0 <= j < |b.open[t]| :: b.open[t][j].documentId <= b.lastDocumentId)
  }

  lemma EnteredBeyond(b: Book, log: seq<LogEntry>, e: LogEntry)
    requires Beyond(b, log) && b.ok && Enter(b, e).ok
    ensures Beyond(Enter(b, e), log + [e])
  {
    hide Reinspected, MutationsIn;
    EntryCovered(b, e);
    var c, l := Enter(b, e), log + [e];
    forall i, j | 0 <= i < |l| && 0 <= j < |MutationsIn(l[i])|
      ensures MutationsIn(l[i])[j].documentId <= c.lastDocumentId
    {
      assert i < |log| ==> l[i] == log[i];
    }
  }

  lemma EntryCovered(b: Book, e: LogEntry)
    requires b.ok
    ensures Enter(b, e).lastDocumentId >= b.lastDocumentId
    ensures forall j | 0 <= j < |MutationsIn(e)| :: MutationsIn(e)[j].documentId <= Enter(b, e).lastDocumentId
    ensures !e.CommitEntry? ==> MutationsIn(e) == e.mutations
  {
  }

  lemma {:induction false} BookBeyond(log: seq<LogEntry>)
    requires BookOf(log).ok
    ensures Beyond(BookOf(log), log)
  {
    hide Enter, Beyond;
    if log == [] {
      NothingBeyond();
    } else {
      var n := |log| - 1;
      NeverOkAgain(BookOf(log[..n]), log[n]);
      BookBeyond(log[..n]);
      EnteredBeyond(BookOf(log[..n]), log[..n], log[n]);
      assert log == log[..n] + [log[n]];
    }
  }

  lemma NothingBeyond()
    ensures Beyond(NewBook(), [])
  {
  }

  lemma NeverOkAgain(b: Book, e: LogEntry)
    requires Enter(b, e).ok
    ensures b.ok
  {
  }

  ghost predicate NamesTransaction(log: seq<LogEntry>, id: int) {
    exists i :: 0 <= i < |log| && log[i].trid == id
  }

  ghost predicate NamesDocument(log: seq<LogEntry>, id: int) {
    exists i, j :: 0 <= i < |log| && 0 <= j < |MutationsIn(log[i])| && MutationsIn(log[i])[j].documentId == id
  }

  lemma NamesMore(log: seq<LogEntry>, e: LogEntry)
    ensures NamesTransaction(log + [e], e.trid)
    ensures forall id :: NamesTransaction(log, id) ==> NamesTransaction(log + [e], id)
    ensures forall j | 0 <= j < |MutationsIn(e)| :: NamesDocument(log + [e], MutationsIn(e)[j].documentId)
    ensures forall id :: NamesDocument(log, id) ==> NamesDocument(log + [e], id)
  {
    hide MutationsIn;
    var l := log + [e];
    assert l[|log|] == e;
    forall id | NamesTransaction(log, id) ensures NamesTransaction(l, id) {
      var i :| 0 <= i < |log| && log[i].trid == id;
      assert l[i] == log[i];
    }
    forall id | NamesDocument(log, id) ensures NamesDocument(l, id) {
      var i, j :| 0 <= i < |log| && 0 <= j < |MutationsIn(log[i])| && MutationsIn(log[i])[j].documentId == id;
      assert l[i] == log[i];
    }
  }

  lemma {:induction false} ReinspectedIs(last: int, ms: seq<Mutation>)
    ensures Reinspected(last, ms) == last || exists i :: 0 <= i < |ms| && ms[i].documentId == Reinspected(last, ms)
  {
    if ms != [] {
      var n := |ms| - 1;
      ReinspectedIs(last, ms[..n]);
      if i :| 0 <= i < n && ms[..n][i].documentId == Reinspected(last, ms[..n]) {
        assert ms[i].documentId == Reinspected(last, ms[..n]);
      }
      assert ms[n].documentId == Reinspected(last, ms) || Reinspected(last, ms) == Reinspected(last, ms[..n]);
    }
  }

  lemma EnteredIds(b: Book, e: LogEntry)
    ensures var c := Enter(b, e);
            && (c.nextTransactId == b.nextTransactId || c.nextTransactId == e.trid + 1)
            && (c.lastDocumentId == b.lastDocumentId
                || exists j :: 0 <= j < |MutationsIn(e)| && MutationsIn(e)[j].documentId == c.lastDocumentId)
  {
    if b.ok && !e.CommitEntry? {
      ReinspectedIs(b.lastDocumentId, e.mutations);
      assert MutationsIn(e) == e.mutations;
    }
  }

  /** The counters start where the log ends: they are no further than needed. */
  lemma {:induction false} CountersAreLogged(log: seq<LogEntry>)
    ensures BookOf(log).nextTransactId == 1 || NamesTransaction(log, BookOf(log).nextTransactId - 1)
    ensures BookOf(log).lastDocumentId == 0 || NamesDocument(log, BookOf(log).lastDocumentId)
  {
    hide Enter, NamesTransaction, NamesDocument, MutationsIn;
    if log != [] {
      var n := |log| - 1;
      CountersAreLogged(log[..n]);
      EnteredIds(BookOf(log[..n]), log[n]);
      NamesMore(log[..n], log[n]);
      assert log == log[..n] + [log[n]];
    }
  }

  /** Transaction and sequence id of every commit in the log, in order. */
  function CommitPoints(log: seq<LogEntry>): seq<(int, int)> {
    if log == [] then []
    else
      var e := log[|log| - 1];
      CommitPoints(log[..|log| - 1]) + (if e.SubmitEntry? then [] else [(e.trid, e.sequenceId)])
  }

  /** The mutations are insertions of the logged documents, with the logged contents, in the storages
      for which they were logged. */
  ghost predicate Restates(logged: seq<Mutation>, ms: seq<Mutation>) {
    && |ms| == |logged|
    && (forall i | 0 <= i < |ms| ::
          && ms[i].kind == MutationType.Insert && ms[i].storageIndex == logged[i].storageIndex
          && ms[i].documentId == logged[i].documentId && ms[i].buffer == logged[i].buffer)
  }

  /** The mutations are those of an entry of the same transaction. */
  ghost predicate Logged(log: seq<LogEntry>, trid: int, ms: seq<Mutation>) {
    exists i :: 0 <= i < |log| && !log[i].CommitEntry? && log[i].trid == trid && Restates(log[i].mutations, ms)
  }

  lemma LoggedGrows(log: seq<LogEntry>, e: LogEntry, trid: int, ms: seq<Mutation>)
    requires Logged(log, trid, ms) || (!e.CommitEntry? && e.trid == trid && AsInserts(e.mutations) == ms)
    ensures Logged(log + [e], trid, ms)
  {
    var l := log + [e];
    if Logged(log, trid, ms) {
      var i :| 0 <= i < |log| && !log[i].CommitEntry? && log[i].trid == trid && Restates(log[i].mutations, ms);
      assert l[i] == log[i];
    } else {
      assert l[|log|] == e;
    }
  }

  /** Replay finds exactly the logged commits, in order, each with the mutations that were
      logged for its transaction. */
  lemma {:induction false} CommitsAreLogged(log: seq<LogEntry>)
    requires BookOf(log).ok
    ensures |BookOf(log).commits| == |CommitPoints(log)|
    ensures forall k | 0 <= k < |BookOf(log).commits| ::
              var c := BookOf(log).commits[k];
              (c.trid, c.sequenceId) == CommitPoints(log)[k] && Logged(log, c.trid, c.mutations)
    ensures forall t | t in BookOf(log).open :: Logged(log, t, BookOf(log).open[t])
  {
    hide Enter, Logged;
    if log != [] {
      var n := |log| - 1;
      var e, b := log[n], BookOf(log[..n]);
      NeverOkAgain(b, e);
      CommitsAreLogged(log[..n]);
      assert log == log[..n] + [e];
      EnteredLogged(log[..n], b, e);
    }
  }

  lemma EnteredLogged(log: seq<LogEntry>, b: Book, e: LogEntry)
    requires b.ok && Enter(b, e).ok
    requires forall k | 0 <= k < |b.commits| :: Logged(log, b.commits[k].trid, b.commits[k].mutations)
    requires forall t | t in b.open :: Logged(log, t, b.open[t])
    ensures var c := Enter(b, e);
            && |c.commits| == |b.commits| + (if e.SubmitEntry? then 0 else 1) && b.commits <= c.commits
            && (!e.SubmitEntry? ==>
                  c.commits[|b.commits|].trid == e.trid && c.commits[|b.commits|].sequenceId == e.sequenceId)
            && (forall k | 0 <= k < |c.commits| :: Logged(log + [e], c.commits[k].trid, c.commits[k].mutations))
            && (forall t | t in c.open :: Logged(log + [e], t, c.open[t]))
  {
    hide Logged, AsInserts, Reinspected;
    var c := Enter(b, e);
    forall t | t in c.open ensures Logged(log + [e], t, c.open[t]) {
      LoggedGrows(log, e, t, c.open[t]);
    }
    forall k | 0 <= k < |c.commits| ensures Logged(log + [e], c.commits[k].trid, c.commits[k].mutations) {
      LoggedGrows(log, e, c.commits[k].trid, c.commits[k].mutations);
    }
  }
}
