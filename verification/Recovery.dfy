/** Recovery: what a restart from the log gives back to clients, drivers and readers. */
module Recoveries {
  import opened DbTypes
  import Q = QueuedDrivers
  import StorageMasks
  import opened EngineLogs
  import opened EngineSteps
  import opened EngineInvariants
  import opened EngineProofs
  import opened EngineTheorems

  /** The items that a driver was given. */
  function ItemsOf(cs: seq<Committed>): seq<Q.Item> {
    seq(|cs|, i requires 0 <= i < |cs| => Q.Item(cs[i].sequenceId, cs[i].mutations))
  }

  /** What a storage has stored once it has applied these commits. */
  ghost function Stored(cs: seq<Committed>): seq<Version> {
    Q.Versions(Q.AllOf(ItemsOf(cs)))
  }

  lemma ItemsOfTake(cs: seq<Committed>, n: nat)
    requires n <= |cs|
    ensures ItemsOf(cs[..n]) == ItemsOf(cs)[..n]
  {
  }

  /** Whether mutations are logged as insertions or as modifications, a storage stores the same. */
  lemma {:induction false} StoredNorms(cs: seq<Committed>)
    ensures Stored(Norms(cs)) == Stored(cs)
  {
    if cs != [] {
      var n := |cs| - 1;
      StoredNorms(cs[..n]);
      assert Norms(cs)[..n] == Norms(cs[..n]);
      ItemsOfTake(cs, n);
      ItemsOfTake(Norms(cs), n);
      StoredLast(cs);
      StoredLast(Norms(cs));
      NormLast(cs);
    }
  }

  ghost function StoredBy(c: Committed): seq<Version> {
    seq(|c.mutations|, i requires 0 <= i < |c.mutations| =>
      Version(c.mutations[i].documentId, c.sequenceId, c.mutations[i].buffer))
  }

  lemma NormLast(cs: seq<Committed>)
    requires cs != []
    ensures |Norms(cs)| == |cs| && StoredBy(Norms(cs)[|cs| - 1]) == StoredBy(cs[|cs| - 1])
  {
  }

  lemma StoredLast(cs: seq<Committed>)
    requires cs != []
    ensures Stored(cs) == Stored(cs[..|cs| - 1]) + StoredBy(cs[|cs| - 1])
  {
    ItemsOfTake(cs, |cs| - 1);
  }

  lemma {:induction false} StoredLater(cs: seq<Committed>, n: nat, s: int)
    requires n <= |cs| && forall k | n <= k < |cs| :: cs[k].sequenceId > s
    ensures Stored(cs[..n]) <= Stored(cs)
    ensures forall j | |Stored(cs[..n])| <= j < |Stored(cs)| :: Stored(cs)[j].sequenceId > s
  {
    if n == |cs| {
      assert cs[..n] == cs;
    } else {
      hide Stored;
      var m := |cs| - 1;
      StoredLater(cs[..m], n, s);
      assert cs[..m][..n] == cs[..n];
      StoredLast(cs);
    }
  }

  /** A reader at `s` gets the same answer from the first commits as from all, when the later
      ones have greater ids. */
  lemma LaterCommitsInvisible(cs: seq<Committed>, n: nat, doc: int, s: int)
    requires n <= |cs| && forall k | n <= k < |cs| :: cs[k].sequenceId > s
    ensures Lookup(Stored(cs), doc, s) == Lookup(Stored(cs[..n]), doc, s)
  {
    hide Stored, Lookup;
    StoredLater(cs, n, s);
    var a, t := Stored(cs[..n]), Stored(cs)[|Stored(cs[..n])|..];
    assert Stored(cs) == a + t;
    LaterIsInvisible(a, t, doc, s);
  }

  /** After any run the engine can restart: replay does not throw, whatever the processor, the
      clients and the drivers were doing. Every driver is given exactly the logged commits, in
      order and with their ids; what it was given before is a prefix of them, up to the kinds
      of the mutations; and at most one commit, the one that was being delivered, is added. */
  lemma Recovery(repaired: bool, storages: nat, drivers: nat, es: seq<Event>, order: seq<int>, d: nat)
    requires storages <= drivers && d < drivers
    requires Enabled(Reached(repaired, storages, drivers, es), Restart(order))
    ensures var s := Reached(repaired, storages, drivers, es);
            var t := AfterRestart(s, order);
            && BookOf(s.log).ok && t.pc == Idle && t.log == s.log && t.acks == s.acks
            && |s.delivered| == |t.delivered| == drivers
            && t.delivered[d] == BookOf(s.log).commits
            && Norms(s.delivered[d]) <= t.delivered[d]
            && |t.delivered[d]| <= |s.delivered[d]| + 1
            && (s.pc == Idle ==> Norms(s.delivered[d]) == t.delivered[d])
  {
    hide BookOf, Queueing, ConflictFree, Passed, LogAgrees, Counted, Documents, Durable;
    ReachedInv(repaired, storages, drivers, es);
    RunKeepsSize(Initial(repaired, storages, drivers), es);
    var s := Reached(repaired, storages, drivers, es);
    RestartLog(s, order);
    assert DeliveredTo(s.delivered[d], s.pc, BookOf(s.log).commits, d);
  }

  lemma {:induction false} SomeOrder(keys: set<int>) returns (order: seq<int>)
    ensures Permutes(order, keys)
    decreases keys
  {
    order := [];
    if k: int :| k in keys {
      var rest := SomeOrder(keys - {k});
      order := [k] + rest;
    }
  }

  /** The engine can always be stopped and started again. */
  lemma CanRestart(repaired: bool, storages: nat, drivers: nat, es: seq<Event>) returns (order: seq<int>)
    requires storages <= drivers
    ensures Happens(Reached(repaired, storages, drivers, es), Restart(order))
  {
    hide BookOf, Queueing, ConflictFree, Passed, LogAgrees, Delivered, Counted, Documents, Durable, Run;
    ReachedInv(repaired, storages, drivers, es);
    order := SomeOrder(BookOf(Reached(repaired, storages, drivers, es).log).open.Keys);
    Restartable(Reached(repaired, storages, drivers, es));
  }

  lemma Restartable(s: State)
    requires Inv(s)
    ensures Known(s)
  {
    hide BookOf, ConflictFree, Passed, LogAgrees, Delivered, Counted, Documents, Durable;
    if s.pc.At? {
      Working(s);
    }
  }

  lemma StepKeepsSize(s: State, e: Event)
    requires Happens(s, e)
    ensures |Step(s, e).delivered| == |s.delivered|
  {
    hide Judge, EntryFor, BookOf, Outstanding, Holds;
  }

  lemma {:induction false} RunKeepsSize(s: State, es: seq<Event>)
    ensures |Run(s, es).delivered| == |s.delivered|
  {
    hide Enabled, Step;
    if es != [] {
      RunKeepsSize(s, es[..|es| - 1]);
      var p := Run(s, es[..|es| - 1]);
      if Happens(p, es[|es| - 1]) {
        StepKeepsSize(p, es[|es| - 1]);
      }
    }
  }

  /** Every commit that was reported to a client is given to every driver again. */
  lemma AcknowledgedSurvive(repaired: bool, storages: nat, drivers: nat, es: seq<Event>, order: seq<int>, d: nat,
                            k: nat)
    requires storages <= drivers && d < drivers
    requires Enabled(Reached(repaired, storages, drivers, es), Restart(order))
    requires k < |Reached(repaired, storages, drivers, es).acks|
    ensures var s := Reached(repaired, storages, drivers, es);
            var t := AfterRestart(s, order);
            d < |t.delivered| && IsCommit(t.delivered[d], s.acks[k])
  {
    Recovery(repaired, storages, drivers, es, order, d);
    ReachedInv(repaired, storages, drivers, es);
  }

  /** A storage that has applied everything answers a fetch after the restart as before, when
      no logged commit that the reader may see was still to be delivered to it. */
  lemma FetchSurvives(repaired: bool, storages: nat, drivers: nat, es: seq<Event>, order: seq<int>, d: nat, doc: int,
                      id: int)
    requires storages <= drivers && d < drivers
    requires Enabled(Reached(repaired, storages, drivers, es), Restart(order))
    requires var s := Reached(repaired, storages, drivers, es);
             |s.delivered| == drivers &&
             forall k | |s.delivered[d]| <= k < |BookOf(s.log).commits| :: BookOf(s.log).commits[k].sequenceId > id
    ensures var s := Reached(repaired, storages, drivers, es);
            var t := AfterRestart(s, order);
            && |t.delivered| == drivers
            && Lookup(Stored(t.delivered[d]), doc, id) == Lookup(Stored(s.delivered[d]), doc, id)
  {
    hide Stored, Lookup, Step, Enabled, BookOf;
    Recovery(repaired, storages, drivers, es, order, d);
    var s := Reached(repaired, storages, drivers, es);
    var cs, n := BookOf(s.log).commits, |s.delivered[d]|;
    LaterCommitsInvisible(cs, n, doc, id);
    assert cs[..n] == Norms(s.delivered[d]);
    StoredNorms(s.delivered[d]);
  }

  // ------------------------------------------------------------------
  // Views
  // ------------------------------------------------------------------

  /** What the view of storage `x` has indexed once it was given these commits. */
  ghost function ViewOf(cs: seq<Committed>, x: int): seq<Version> {
    StorageMasks.VersionsIn(Q.AllOf(ItemsOf(cs)), x)
  }

  /** The same documents in the same storages with the same contents and ids. */
  ghost predicate Alike(a: seq<Q.Applied>, b: seq<Q.Applied>) {
    && |a| == |b|
    && (forall i | 0 <= i < |a| ::
          a[i].mutation.storageIndex == b[i].mutation.storageIndex && Q.VersionOf(a[i]) == Q.VersionOf(b[i]))
  }

  lemma {:induction false} AlikeVersions(a: seq<Q.Applied>, b: seq<Q.Applied>, x: int)
    requires Alike(a, b)
    ensures StorageMasks.VersionsIn(a, x) == StorageMasks.VersionsIn(b, x)
  {
    if a != [] {
      AlikeVersions(a[..|a| - 1], b[..|b| - 1], x);
    }
  }

  lemma {:induction false} NormsAlike(cs: seq<Committed>)
    ensures Alike(Q.AllOf(ItemsOf(Norms(cs))), Q.AllOf(ItemsOf(cs)))
  {
    if cs != [] {
      var n := |cs| - 1;
      NormsAlike(cs[..n]);
      assert Norms(cs)[..n] == Norms(cs[..n]);
      ItemsOfTake(cs, n);
      ItemsOfTake(Norms(cs), n);
    }
  }

  lemma {:induction false} VersionsInAppend(a: seq<Q.Applied>, b: seq<Q.Applied>, x: int)
    ensures StorageMasks.VersionsIn(a + b, x) == StorageMasks.VersionsIn(a, x) + StorageMasks.VersionsIn(b, x)
  {
    if b == [] {
      assert a + b == a;
    } else {
      var n := |b| - 1;
      VersionsInAppend(a, b[..n], x);
      assert (a + b)[..|a| + n] == a + b[..n];
    }
  }

  lemma {:induction false} AllOfAppend(a: seq<Q.Item>, b: seq<Q.Item>)
    ensures Q.AllOf(a + b) == Q.AllOf(a) + Q.AllOf(b)
  {
    hide Q.MutationsOf;
    if b == [] {
      assert a + b == a;
    } else {
      var n := |b| - 1;
      var last := Q.MutationsOf(b[n], |b[n].mutations|);
      AllOfAppend(a, b[..n]);
      assert (a + b)[..|a| + n] == a + b[..n];
      assert Q.AllOf(a + b) == Q.AllOf(a + b[..n]) + last;
      assert Q.AllOf(b) == Q.AllOf(b[..n]) + last;
      assert (Q.AllOf(a) + Q.AllOf(b[..n])) + last == Q.AllOf(a) + (Q.AllOf(b[..n]) + last);
    }
  }

  lemma ViewOfAppend(cs: seq<Committed>, more: seq<Committed>, x: int)
    ensures ViewOf(cs + more, x) == ViewOf(cs, x) + ViewOf(more, x)
  {
    hide Q.AllOf, StorageMasks.VersionsIn;
    assert ItemsOf(cs + more) == ItemsOf(cs) + ItemsOf(more);
    AllOfAppend(ItemsOf(cs), ItemsOf(more));
    VersionsInAppend(Q.AllOf(ItemsOf(cs)), Q.AllOf(ItemsOf(more)), x);
  }

  /** After a restart the view of every storage is given what it had indexed before, document for
      document, and behind it no more than the one commit that was being delivered. */
  lemma ViewSurvives(repaired: bool, storages: nat, drivers: nat, es: seq<Event>, order: seq<int>, d: nat, x: int)
    requires storages <= drivers && d < drivers
    requires Enabled(Reached(repaired, storages, drivers, es), Restart(order))
    ensures var s := Reached(repaired, storages, drivers, es);
            var t := AfterRestart(s, order);
            && |s.delivered| == |t.delivered| == drivers && |s.delivered[d]| <= |t.delivered[d]|
            && var late := t.delivered[d][|s.delivered[d]|..];
               && |late| <= 1 && (s.pc == Idle ==> late == [])
               && StorageMasks.VersionsIn(Q.AllOf(ItemsOf(t.delivered[d])), x)
                  == StorageMasks.VersionsIn(Q.AllOf(ItemsOf(s.delivered[d])), x)
                     + StorageMasks.VersionsIn(Q.AllOf(ItemsOf(late)), x)
  {
    hide Inv, BookOf, Enabled, AfterRestart, Q.AllOf, StorageMasks.VersionsIn, ItemsOf, Norms, Run;
    Recovery(repaired, storages, drivers, es, order, d);
    var s := Reached(repaired, storages, drivers, es);
    var before, after := s.delivered[d], AfterRestart(s, order).delivered[d];
    NormsLength(before);
    assert after == Norms(before) + after[|before|..];
    ViewOfAppend(Norms(before), after[|before|..], x);
    NormsAlike(before);
    AlikeVersions(Q.AllOf(ItemsOf(Norms(before))), Q.AllOf(ItemsOf(before)), x);
  }

  lemma NormsLength(cs: seq<Committed>)
    ensures |Norms(cs)| == |cs|
  {
  }

  // ------------------------------------------------------------------
  // Sequence ids
  // ------------------------------------------------------------------

  /** What a driver still has to be given is later than everything that was acknowledged. */
  lemma UndeliveredIsLater(s: State, d: nat, k: nat, j: nat)
    requires Inv(s) && d < |s.delivered| && k < |s.acks| && |s.delivered[d]| <= j < |BookOf(s.log).commits|
    ensures BookOf(s.log).commits[j].sequenceId > s.acks[k].sequenceId
  {
    hide BookOf, Queueing, ConflictFree, Passed, Counted, Documents;
    var cs := BookOf(s.log).commits;
    assert DeliveredTo(s.delivered[d], s.pc, cs, d);
    assert PastCommit(s.pc) && j == |cs| - 1 && cs[j].trid in s.active;
    assert IsCommit(cs, s.acks[k]);
    var i :| 0 <= i < |cs| && cs[i].trid == s.acks[k].trid && cs[i].sequenceId == s.acks[k].sequenceId;
    assert cs[i].trid !in s.active;
  }

  /** Up to any acknowledged sequence id, every storage answers every fetch after the restart as
      it would have answered before it. */
  lemma AcknowledgedFetchSurvives(repaired: bool, storages: nat, drivers: nat, es: seq<Event>, order: seq<int>, d: nat,
                                  k: nat, doc: int, id: int)
    requires storages <= drivers && d < drivers
    requires Enabled(Reached(repaired, storages, drivers, es), Restart(order))
    requires k < |Reached(repaired, storages, drivers, es).acks|
    requires id <= Reached(repaired, storages, drivers, es).acks[k].sequenceId
    ensures var s := Reached(repaired, storages, drivers, es);
            var t := AfterRestart(s, order);
            |s.delivered| == |t.delivered| == drivers
            && Lookup(Stored(t.delivered[d]), doc, id) == Lookup(Stored(s.delivered[d]), doc, id)
  {
    hide Inv, BookOf, Stored, Lookup, AfterRestart, Enabled;
    var s := Reached(repaired, storages, drivers, es);
    ReachedInv(repaired, storages, drivers, es);
    Recovery(repaired, storages, drivers, es, order, d);
    forall j | |s.delivered[d]| <= j < |BookOf(s.log).commits| ensures BookOf(s.log).commits[j].sequenceId > id {
      UndeliveredIsLater(s, d, k, j);
    }
    FetchSurvives(repaired, storages, drivers, es, order, d, doc, id);
  }

  /** The engine starts again at the greatest committed sequence id; the greater ids that
      submissions had used are forgotten. */
  lemma SequenceIdRestarts(repaired: bool, storages: nat, drivers: nat, es: seq<Event>, order: seq<int>)
    requires storages <= drivers && Enabled(Reached(repaired, storages, drivers, es), Restart(order))
    ensures var s := Reached(repaired, storages, drivers, es);
            var t, points := AfterRestart(s, order), CommitPoints(s.log);
            && t.currentSequenceId == (if points == [] then 0 else points[|points| - 1].1)
            && t.currentSequenceId <= s.currentSequenceId
  {
    hide Inv, BookOf, Run, Increasing, CommitPoints;
    ReachedInv(repaired, storages, drivers, es);
    var s := Reached(repaired, storages, drivers, es);
    LogIncreases(s);
    CommitsAreLogged(s.log);
    GreatestIsLast(s.log, s.currentSequenceId);
  }

  /** The counters for transactions and documents restart where the log ends. */
  lemma CountersRestart(repaired: bool, storages: nat, drivers: nat, es: seq<Event>, order: seq<int>, x: nat)
    requires storages <= drivers && Enabled(Reached(repaired, storages, drivers, es), Restart(order))
    ensures var s := Reached(repaired, storages, drivers, es);
            var t := AfterRestart(s, order);
            && (t.nextTransactId == 1 || NamesTransaction(s.log, t.nextTransactId - 1))
            && |t.lastDocument| == |s.lastDocument|
            && (x < |t.lastDocument| ==> t.lastDocument[x] == 0 || NamesDocument(s.log, t.lastDocument[x]))
  {
    hide Inv, BookOf, Run, NamesTransaction, NamesDocument;
    ReachedInv(repaired, storages, drivers, es);
    var s := Reached(repaired, storages, drivers, es);
    LogIncreases(s);
    CountersAreLogged(s.log);
  }

  lemma LogIncreases(s: State)
    requires Inv(s)
    ensures BookOf(s.log).ok && Increasing(BookOf(s.log), s.currentSequenceId) && s.currentSequenceId >= 0
  {
  }

  lemma GreatestIsLast(log: seq<LogEntry>, current: int)
    requires BookOf(log).ok && Increasing(BookOf(log), current) && current >= 0
    ensures var b := BookOf(log);
            b.currentSequenceId == (if b.commits == [] then 0 else b.commits[|b.commits| - 1].sequenceId) <= current
  {
    hide BookOf;
    BookBeyond(log);
    CurrentIsLast(log);
    var b := BookOf(log);
    if b.commits != [] {
      var last := |b.commits| - 1;
      assert forall k | 0 <= k < last :: b.commits[k].sequenceId < b.commits[last].sequenceId;
    }
  }

  lemma {:induction false} CurrentIsLast(log: seq<LogEntry>)
    ensures BookOf(log).currentSequenceId == 0
            || exists k :: 0 <= k < |BookOf(log).commits|
                && BookOf(log).commits[k].sequenceId == BookOf(log).currentSequenceId
  {
    if log != [] {
      var n := |log| - 1;
      CurrentIsLast(log[..n]);
      var b, c := BookOf(log[..n]), BookOf(log);
      if c.currentSequenceId == b.currentSequenceId && b.currentSequenceId != 0 {
        var k :| 0 <= k < |b.commits| && b.commits[k].sequenceId == b.currentSequenceId;
        assert c.commits[k] == b.commits[k];
      } else if c.currentSequenceId != 0 {
        assert c.commits[|b.commits|].sequenceId == c.currentSequenceId;
      }
    }
  }

  /** Submit a transaction and roll it back: after a restart it is submitted again, because a
      rollback is not logged. */
  lemma RollbackForgotten() returns (es: seq<Event>)
    ensures var s := Reached(true, 1, 1, es);
            && s.active == map[] && s.submitted == []
            && Enabled(s, Restart([1]))
            && AfterRestart(s, [1]).submitted == [1]
  {
    var s := Initial(true, 1, 1);
    es := ThroughRollbackTaken(s);
    Extends(s, es, Work(true));
    es := es + [Work(true)];
    assert Run(s, es).log == [SubmitEntry(1, [])];
    assert BookOf([SubmitEntry(1, [])]).open.Keys == {1};
  }
}
