/** Reads: what clients tell the engine, what it delivers, how a driver applies it, and what a fetch
    answers, taken together. */
module RepeatableReads {
  import opened DbTypes
  import Q = QueuedDrivers
  import E = EngineSteps
  import L = EngineLogs
  import T = EngineTheorems
  import C = ClientAccounts
  import opened Recoveries

  /** Items are only added, and complete ones stay complete. */
  lemma StepGrows<R>(d: Q.Driver<R>, e: Q.Event<R>)
    requires Q.Inv(d) && Q.Enabled(d, e)
    ensures d.sequenced <= Q.Step(d, e).sequenced && Q.Completed(d) <= Q.Completed(Q.Step(d, e))
  {
    hide Q.InOrder;
  }

  lemma RunLast<R>(ds: seq<Q.Event<R>>, e: Q.Event<R>)
    ensures var p := Q.Run(Q.Initial<R>(), ds);
            Q.Run(Q.Initial<R>(), ds + [e]) == if Q.Enabled(p, e) then Q.Step(p, e) else p
  {
    hide Q.Step, Q.Enabled;
    assert (ds + [e])[..|ds|] == ds;
  }

  lemma {:induction false} RunGrows<R>(ds: seq<Q.Event<R>>, more: seq<Q.Event<R>>)
    ensures Q.Run(Q.Initial<R>(), ds).sequenced <= Q.Run(Q.Initial<R>(), ds + more).sequenced
    ensures Q.Completed(Q.Run(Q.Initial<R>(), ds)) <= Q.Completed(Q.Run(Q.Initial<R>(), ds + more))
  {
    hide Q.Step, Q.Enabled, Q.Completed, Q.Run, Q.Inv;
    if more == [] {
      assert ds + more == ds;
    } else {
      var n := |more| - 1;
      var before := ds + more[..n];
      assert ds + more == before + [more[n]];
      RunGrows(ds, more[..n]);
      Q.RunInv(before);
      RunLast(before, more[n]);
      if Q.Enabled(Q.Run(Q.Initial<R>(), before), more[n]) {
        StepGrows(Q.Run(Q.Initial<R>(), before), more[n]);
      }
    }
  }

  /** The ids of commits increase. */
  ghost predicate Ascending(cs: seq<L.Committed>) {
    forall i, j | 0 <= i < j < |cs| :: cs[i].sequenceId < cs[j].sequenceId
  }

  lemma DeliveredAscend(repaired: bool, storages: nat, drivers: nat, es: seq<E.Event>, d: nat)
    requires storages <= drivers && d < |T.Reached(repaired, storages, drivers, es).delivered|
    ensures Ascending(T.Reached(repaired, storages, drivers, es).delivered[d])
  {
    hide T.Reached;
    var cs := T.Reached(repaired, storages, drivers, es).delivered[d];
    forall i, j | 0 <= i < j < |cs| ensures cs[i].sequenceId < cs[j].sequenceId {
      T.IdsIncrease(repaired, storages, drivers, es, d, i, j);
    }
  }

  /** Once a commit with an id of at least `id` is there, more commits do not matter to a reader
      at `id`. */
  lemma EnoughCommits(cs: seq<L.Committed>, n: nat, k: nat, doc: int, id: int)
    requires k < n <= |cs| && Ascending(cs) && cs[k].sequenceId >= id
    ensures Lookup(Stored(cs[..n]), doc, id) == Lookup(Stored(cs[..k + 1]), doc, id)
  {
    hide Stored, Lookup;
    assert cs[..n][..k + 1] == cs[..k + 1];
    LaterCommitsInvisible(cs[..n], k + 1, doc, id);
  }

  /** A running fetch sees the first complete commits that the driver was given. */
  lemma SnapshotIs<R>(ds: seq<Q.Event<R>>, r: Q.Running<R>, cs: seq<L.Committed>)
    requires r in Q.Run(Q.Initial<R>(), ds).running
    requires Q.SequencedIn(ds) <= ItemsOf(cs)
    ensures var n := Q.Completed(Q.Run(Q.Initial<R>(), ds));
            0 <= n <= |cs| && Q.Versions(r.start) == Stored(cs[..n])
  {
    hide Q.Run, Q.Completed, Q.SequencedIn;
    Q.ReaderSnapshot(ds, r);
    var n := Q.Completed(Q.Run(Q.Initial<R>(), ds));
    ItemsOfTake(cs, n);
    assert Q.SequencedIn(ds)[..n] == ItemsOf(cs)[..n];
  }

  /** Repeatable reads. A driver is given commits as the engine delivers them. Two fetches of the
      same document at the same id get the same answer, whatever is sequenced and applied between
      them, once a commit with an id of at least this one was completely applied when the first
      one ran. */
  lemma SameAnswer<R>(repaired: bool, storages: nat, drivers: nat, es: seq<E.Event>, d: nat, ds: seq<Q.Event<R>>,
                      more: seq<Q.Event<R>>, first: Q.Running<R>, second: Q.Running<R>, k: nat, doc: int, id: int)
    requires storages <= drivers && d < |T.Reached(repaired, storages, drivers, es).delivered|
    requires var cs := T.Reached(repaired, storages, drivers, es).delivered[d];
             Q.SequencedIn(ds + more) <= ItemsOf(cs)
    requires first in Q.Run(Q.Initial<R>(), ds).running && second in Q.Run(Q.Initial<R>(), ds + more).running
    requires k < Q.Completed(Q.Run(Q.Initial<R>(), ds)) <= |Q.SequencedIn(ds)|
    requires Q.SequencedIn(ds)[k].sequenceId >= id
    ensures Lookup(Q.Versions(first.start), doc, id) == Lookup(Q.Versions(second.start), doc, id)
  {
    hide Q.Run, Q.Completed, Q.SequencedIn, T.Reached, Lookup, Stored, Ascending;
    Q.EverythingSequenced(ds);
    Q.EverythingSequenced(ds + more);
    var cs := T.Reached(repaired, storages, drivers, es).delivered[d];
    DeliveredAscend(repaired, storages, drivers, es, d);
    RunGrows(ds, more);
    SnapshotIs(ds, first, cs);
    SnapshotIs(ds + more, second, cs);
    assert ItemsOf(cs)[k].sequenceId == cs[k].sequenceId;
    EnoughCommits(cs, Q.Completed(Q.Run(Q.Initial<R>(), ds)), k, doc, id);
    EnoughCommits(cs, Q.Completed(Q.Run(Q.Initial<R>(), ds + more)), k, doc, id);
  }

  // ------------------------------------------------------------------
  // What was committed is read
  // ------------------------------------------------------------------

  lemma {:induction false} StoredBelow(cs: seq<L.Committed>, id: int)
    requires forall k | 0 <= k < |cs| :: cs[k].sequenceId < id
    ensures forall j | 0 <= j < |Stored(cs)| :: Stored(cs)[j].sequenceId < id
  {
    if cs == [] {
      StoredNothing();
    } else {
      hide Stored;
      var n := |cs| - 1;
      StoredBelow(cs[..n], id);
      StoredLast(cs);
    }
  }

  lemma StoredNothing()
    ensures Stored([]) == []
  {
    assert ItemsOf([]) == [];
  }

  /** Mutation `m` is the last one of its document. */
  ghost predicate LastOfDocument(ms: seq<Mutation>, m: nat) {
    m < |ms| && forall j | m < j < |ms| :: ms[j].documentId != ms[m].documentId
  }

  /** The newest version behind versions of smaller ids is the last one of its document. */
  lemma LastIsNewest(before: seq<Version>, c: L.Committed, m: nat)
    requires LastOfDocument(c.mutations, m)
    requires forall j | 0 <= j < |before| :: before[j].sequenceId < c.sequenceId
    ensures Lookup(before + StoredBy(c), c.mutations[m].documentId, c.sequenceId)
            == Found(c.sequenceId, c.mutations[m].buffer)
  {
    var h, i, doc := before + StoredBy(c), |before| + m, c.mutations[m].documentId;
    assert h[i] == StoredBy(c)[m];
    assert forall j | |before| <= j < |h| :: h[j] == StoredBy(c)[j - |before|];
    assert IsNewest(h, doc, c.sequenceId, i);
    NewestUnique(h, doc, c.sequenceId, i);
  }

  /** What is delivered last is read. */
  lemma DeliveredIsRead(cs: seq<L.Committed>, n: nat, k: nat, m: nat)
    requires k < n <= |cs| && Ascending(cs) && LastOfDocument(cs[k].mutations, m)
    ensures Lookup(Stored(cs[..n]), cs[k].mutations[m].documentId, cs[k].sequenceId)
            == Found(cs[k].sequenceId, cs[k].mutations[m].buffer)
  {
    hide Stored, Lookup;
    EnoughCommits(cs, n, k, cs[k].mutations[m].documentId, cs[k].sequenceId);
    var before := cs[..k];
    assert cs[..k + 1][..k] == before;
    StoredLast(cs[..k + 1]);
    StoredBelow(before, cs[k].sequenceId);
    LastIsNewest(Stored(before), cs[k], m);
  }

  /** What a client commits is what readers get. When a driver has applied commit `k`, a fetch at its
      sequence id of a document that the client's transaction wrote answers with the contents that the
      client passed in last for it, whatever else was committed and applied before or since. */
  lemma CommitIsRead<R>(repaired: bool, storages: nat, drivers: nat, es: seq<E.Event>, d: nat, ds: seq<Q.Event<R>>,
                        r: Q.Running<R>, k: nat, m: nat)
    requires storages <= drivers && d < |T.Reached(repaired, storages, drivers, es).delivered|
    requires var cs := T.Reached(repaired, storages, drivers, es).delivered[d];
             && Q.SequencedIn(ds) <= ItemsOf(cs) && k < |cs|
             && LastOfDocument(C.ToldIn(E.Initial(repaired, storages, drivers), es, cs[k].trid), m)
    requires r in Q.Run(Q.Initial<R>(), ds).running && k < Q.Completed(Q.Run(Q.Initial<R>(), ds))
    ensures var c := T.Reached(repaired, storages, drivers, es).delivered[d][k];
            var told := C.ToldIn(E.Initial(repaired, storages, drivers), es, c.trid);
            Lookup(Q.Versions(r.start), told[m].documentId, c.sequenceId) == Found(c.sequenceId, told[m].buffer)
  {
    hide Q.Run, Q.Completed, Q.SequencedIn, T.Reached, Lookup, Stored, Ascending, C.ToldIn;
    var cs := T.Reached(repaired, storages, drivers, es).delivered[d];
    C.MutationsAreTold(repaired, storages, drivers, es, cs[k].trid, d, k, 0);
    DeliveredAscend(repaired, storages, drivers, es, d);
    SnapshotIs(ds, r, cs);
    DeliveredIsRead(cs, Q.Completed(Q.Run(Q.Initial<R>(), ds)), k, m);
  }
}
