/** A view behind its driver: the same phase protocol as a storage's, with queries as requests. */
module ViewDrivers {
  import opened DbTypes
  import opened QueuedDrivers
  import opened StorageMasks
  import opened FlexStorages
  import opened JsViews
  import opened ViewQueries
  import opened BtreeShape

  datatype QueryRequest = QueryRequest(fromKey: Option<Bytes>, sequenceId: int)

  class ViewDriver<D(!new), K(!new)> {
    const driver: QueuedDriver<QueryRequest>
    const view: JsView<D, K>

    /** The view has indexed exactly what the driver has applied of its storage. */
    ghost predicate Valid()
      reads this, driver, view, view.keyFile, view.orderTree
    {
      && QueuedDrivers.Inv(driver.Now()) && view.Valid()
      && view.history == VersionsIn(driver.applied, view.storageIndex)
    }

    constructor (hooks: Hooks<D, K>, storageIndex: int, caps: Caps)
      requires Lawful(hooks) && CapsOk(caps)
      ensures Valid() && driver.Now() == Initial<QueryRequest>()
    {
      driver := new QueuedDriver<QueryRequest>();
      view := new JsView<D, K>(hooks, storageIndex, caps);
    }

    method Sequence(item: Item)
      requires Valid()
      modifies driver
      ensures Valid() && driver.Now() == Step(old(driver.Now()), Event.Sequence(item))
    {
      driver.Sequence(item);
    }

    method Request(q: QueryRequest)
      requires Valid()
      modifies driver
      ensures Valid() && driver.Now() == Step(old(driver.Now()), Event.Request(q))
    {
      driver.Request(q);
    }

    method ProcessSequence(c: nat)
      requires Valid() && c < |driver.controllers| && driver.controllers[c].ProcessSequence?
      modifies driver, view, view.keyFile, view.orderTree
      ensures Valid() && driver.Now() == Step(old(driver.Now()), Control(c))
    {
      hide JsView.Valid;
      var ProcessSequence(item, index) := driver.controllers[c];
      ghost var applied := driver.applied;
      driver.ProcessSequenceStep(c);
      if index < |item.mutations| {
        var m := item.mutations[index];
        assert driver.applied[..|applied|] == applied;
        view.Apply(item.sequenceId, m);
      }
    }

    /** The answer to a query that runs, while the storage goes on: each entry is answered by the
        storage as it is then. If all that is applied meanwhile has greater ids, the rows are those
        of the versions shown at the start. If, besides, the storage had then applied what the view
        had applied when the query started, and perhaps more with greater ids, these are the
        versions with the ids of current ones that no other storage outdates; each row is built from
        the current version, unless another storage masks it. */
    method Answer(r: nat, storage: FlexStorage, meanwhile: Schedule, ghost t: seq<Version>)
      returns (batches: seq<seq<Bytes>>, ok: bool, ghost w: seq<nat>, ghost start: nat)
      requires Valid() && r < |driver.running| && storage.Valid() && storage.dataFile != view.keyFile
      modifies view.orderTree`pins, view.keyFile`pins, view.keyFile`unmarked
      modifies storage`dataPointer, storage`history, storage`order, storage.indexTree, storage.dataFile
      ensures Valid() && storage.Valid()
      ensures view.history == VersionsIn(driver.running[r].start, view.storageIndex)
      ensures OrderOf(view.history, view.order) && start <= |view.order| == |view.orderTree.Contents()|
      ensures driver.running[r].request.fromKey.None? ==> start == 0
      ensures driver.running[r].request.fromKey.Some? ==>
                forall i | 0 <= i < |view.order| ::
                  var v := view.history[view.order[i]];
                  i < start <==> view.hooks.compare(view.hooks.keyOf(view.hooks.extractDoc(v.documentId, v.buffer)),
                                                    view.hooks.extractKey(driver.running[r].request.fromKey.value)) < 0
      ensures var q := driver.running[r].request;
              ok <==> NoneMissingDuring(old(storage.history), meanwhile, q.sequenceId,
                                        view.orderTree.Contents()[start..])
      ensures ok ==> Batched(batches, RowsDuring(view.hooks, old(storage.history), meanwhile,
                                                 driver.running[r].request.sequenceId,
                                                     view.orderTree.Contents()[start..]))
      ensures var q := driver.running[r].request;
              Answers(view.hooks, old(storage.history), view.history, q.sequenceId, q.fromKey, w)
      ensures forall i | 0 <= i < |w| ::
                Shown(old(storage.history), view.history, driver.running[r].request.sequenceId, w[i])
      ensures var s := driver.running[r].request.sequenceId;
              Quiet(meanwhile, s) ==> (ok <==> AllPresent(old(storage.history), view.history, s, view.order[start..]))
      ensures Quiet(meanwhile, driver.running[r].request.sequenceId) && ok ==>
                Batched(batches, Reports(view.hooks, old(storage.history), view.history,
                                         driver.running[r].request.sequenceId, w))
      ensures Caught(old(storage.history), driver.running[r], t) ==>
                forall k: nat | k < |view.history| ::
                  ShowsOwn(view.hooks, old(storage.history), driver.running[r], view.storageIndex, k)
    {
      hide JsView.Valid, FlexStorage.Valid, Answers, Reports, Batched, Newest, Shown, AllPresent, ShowsOwn, Caught,
           RowsDuring, NoneMissingDuring, Quiet;
      assert driver.running[r] in driver.Now().running;
      var q := driver.running[r].request;
      ghost var h := storage.history;
      batches, ok, w, start := QueryShown(view, storage, q.fromKey, q.sequenceId, meanwhile);
      AllShowOwn(view.hooks, h, driver.running[r], view.storageIndex, t);
    }
  }

  /** The storage has applied what had been applied when the query started, and then `t`, with
      greater ids. */
  ghost predicate Caught(h: seq<Version>, r: Running<QueryRequest>, t: seq<Version>) {
    h == Versions(r.start) + t && forall j | 0 <= j < |t| :: t[j].sequenceId > r.request.sequenceId
  }

  /** Version `k` is shown exactly when it has the id of the current version of its document and
      this is not outdated; if it is not masked the row is that version's own. */
  ghost predicate ShowsOwn<D, K>(hooks: Hooks<D, K>, h: seq<Version>, r: Running<QueryRequest>, x: int, k: nat)
    requires k < |VersionsIn(r.start, x)|
  {
    var g, s := VersionsIn(r.start, x), r.request.sequenceId;
    var doc := g[k].documentId;
    && (Shown(h, g, s, k) <==> doc != 0 && Standing(g, s, k) && !Outdated(r.start, x, doc, s))
    && (Shown(h, g, s, k) && !Masked(r.start, x, doc, s) ==> RowAt(hooks, h, g, s, k) == OwnReport(hooks, g, s, k))
  }

  lemma AllShowOwn<D, K>(hooks: Hooks<D, K>, h: seq<Version>, r: Running<QueryRequest>, x: int, t: seq<Version>)
    ensures Caught(h, r, t) ==>
              forall k: nat | k < |VersionsIn(r.start, x)| :: ShowsOwn(hooks, h, r, x, k)
  {
    hide Versions, VersionsIn, Outdated, Masked, Shown, Standing, RowAt;
    if Caught(h, r, t) {
      forall k: nat | k < |VersionsIn(r.start, x)| ensures ShowsOwn(hooks, h, r, x, k) {
        ShownExactly(hooks, r.start, t, x, r.request.sequenceId, k);
      }
    }
  }
}
