/** A document storage behind its driver: the phase protocol decides when the storage applies a
    mutation and when it answers a fetch. */
module StorageDrivers {
  import opened DbTypes
  import opened QueuedDrivers
  import opened FlexStorages
  import opened BtreeShape

  datatype FetchRequest = FetchRequest(documentId: int, sequenceId: int)

  class StorageDriver {
    const driver: QueuedDriver<FetchRequest>
    const storage: FlexStorage

    /** The storage has stored exactly what the driver has applied. */
    ghost predicate Valid()
      reads this, driver, storage, storage.indexTree, storage.dataFile
    {
      && QueuedDrivers.Inv(driver.Now()) && storage.Valid()
      && storage.history == Versions(driver.applied)
    }

    constructor (caps: Caps)
      requires CapsOk(caps)
      ensures Valid() && fresh(driver) && fresh(storage) && fresh(storage.indexTree) && fresh(storage.dataFile)
      ensures driver.Now() == Initial<FetchRequest>()
    {
      driver := new QueuedDriver<FetchRequest>();
      storage := new FlexStorage(caps);
    }

    method Sequence(item: Item)
      requires Valid()
      modifies driver
      ensures Valid() && driver.Now() == Step(old(driver.Now()), Event.Sequence(item))
    {
      driver.Sequence(item);
    }

    method Fetch(q: FetchRequest)
      requires Valid()
      modifies driver
      ensures Valid() && driver.Now() == Step(old(driver.Now()), Event.Request(q))
    {
      driver.Request(q);
    }

    /** `processSequence`: the next mutation of the item is applied to the storage, or the item
        is done. */
    method ProcessSequence(c: nat)
      requires Valid() && c < |driver.controllers| && driver.controllers[c].ProcessSequence?
      modifies driver, storage, storage.indexTree, storage.dataFile
      ensures Valid() && driver.Now() == Step(old(driver.Now()), Control(c))
    {
      hide FlexStorage.Valid, QueuedDrivers.Inv, Versions;
      var ProcessSequence(item, index) := driver.controllers[c];
      ghost var applied := driver.applied;
      driver.ProcessSequenceStep(c);
      if index < |item.mutations| {
        VersionsGrow(applied, Applied(item.sequenceId, item.mutations[index]));
        storage.Apply(item.sequenceId, item.mutations[index]);
      }
    }

    /** The answer to a fetch that runs: whenever the storage computes it, it is the newest
        version among what had been applied when the fetch started, and that is a number of
        complete transactions. */
    method Answer(r: nat) returns (result: FetchResult)
      requires Valid() && r < |driver.running|
      modifies storage.indexTree, storage.dataFile
      ensures Valid()
      ensures var q := driver.running[r].request;
              result == Lookup(Versions(driver.running[r].start), q.documentId, q.sequenceId)
      ensures 0 <= Completed(driver.Now()) <= |driver.sequenced|
      ensures driver.running[r].start == AllOf(driver.sequenced[..Completed(driver.Now())])
    {
      var q := driver.running[r].request;
      result := storage.Fetch(q.documentId, q.sequenceId);
      assert driver.running[r] in driver.Now().running;
    }

    method FinishRequest(r: nat)
      requires Valid() && r < |driver.running|
      modifies driver
      ensures Valid() && driver.Now() == Step(old(driver.Now()), Event.FinishRequest(r))
    {
      driver.FinishRequest(r);
    }
  }

  lemma VersionsGrow(applied: seq<Applied>, a: Applied)
    ensures Versions(applied + [a]) == Versions(applied) + [VersionOf(a)]
  {
  }
}
