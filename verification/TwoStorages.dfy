/** Two storages that allocate the same document id: an input at which a document storage does
    not answer with the version of its own storage, and a view does not report its document. */
module TwoStorages {
  import opened DbTypes
  import E = EngineSteps
  import opened QueuedDrivers
  import opened StorageMasks
  import JsViews
  import opened ViewQueries

  function InsertInto(x: int, b: Bytes): Mutation {
    Mutation(MutationType.Insert, x, 0, b)
  }

  /** Ids are allocated per storage, so first documents of two storages have the same id. */
  lemma SameDocumentId(b: Bytes, c: Bytes)
    ensures var s := E.AfterBegin(E.AfterBegin(E.Initial(true, 2, 2)));
            var t := E.AfterUpdateMutation(E.AfterUpdateMutation(s, 1, InsertInto(0, b)), 2, InsertInto(1, c));
            && t.active.Keys == {1, 2}
            && t.active[1].mutations == [Mutation(MutationType.Insert, 0, 1, b)]
            && t.active[2].mutations == [Mutation(MutationType.Insert, 1, 1, c)]
  {
    var s := E.AfterBegin(E.AfterBegin(E.Initial(true, 2, 2)));
    assert s.lastDocument == [0, 0];
    assert s.active.Keys == {1, 2};
    var u := E.AfterUpdateMutation(s, 1, InsertInto(0, b));
    assert u.lastDocument == [1, 0];
  }

  /** The first document of each storage. */
  function First(x: int, b: Bytes): Mutation {
    Mutation(MutationType.Insert, x, 1, b)
  }

  /** Two transactions as the engine delivers them. */
  function TwoItems(b: Bytes, c: Bytes): seq<Item> {
    [Item(1, [First(0, b)]), Item(2, [First(1, c)])]
  }

  /** One transaction with both mutations. */
  function OneItem(b: Bytes, c: Bytes): seq<Item> {
    [Item(1, [First(0, b), First(1, c)])]
  }

  function Both(i: int, j: int, b: Bytes, c: Bytes): seq<Applied> {
    [Applied(i, First(0, b)), Applied(j, First(1, c))]
  }

  lemma ItemsAre(b: Bytes, c: Bytes)
    ensures AllOf(TwoItems(b, c)) == Both(1, 2, b, c)
    ensures AllOf(OneItem(b, c)) == Both(1, 1, b, c)
  {
    var two, one := TwoItems(b, c), OneItem(b, c);
    assert two[..1][..0] == [] && one[..0] == [];
    assert AllOf(two[..1]) == [Applied(1, First(0, b))];
  }

  lemma BothAre(i: int, j: int, b: Bytes, c: Bytes)
    ensures VersionsIn(Both(i, j, b, c), 0) == [Version(1, i, b)]
    ensures Versions(Both(i, j, b, c)) == [Version(1, i, b), Version(1, j, c)]
  {
    var a := Both(i, j, b, c);
    assert a[..1][..0] == [];
    assert VersionsIn(a[..1], 0) == [Version(1, i, b)];
  }

  /** A reader of the first storage gets the second storage's document, and the view of the first
      storage, which has its document indexed and current, does not show it. What the document
      storage holds is not what the view holds, whatever is cut off behind it. */
  lemma OtherStorageMasks(b: Bytes, c: Bytes)
    ensures var a := AllOf(TwoItems(b, c));
            var g, h := VersionsIn(a, 0), Versions(a);
            && Lookup(g, 1, 2) == Found(1, b) && Lookup(h, 1, 2) == Found(2, c)
            && Masked(a, 0, 1, 2) && Outdated(a, 0, 1, 2)
            && Current(g, 2, 0) && !Shown(h, g, 2, 0)
            && forall t: seq<Version> :: h == g + t ==> exists k :: 0 <= k < |t| && t[k].sequenceId <= 2
  {
    var a := Both(1, 2, b, c);
    var g, h := VersionsIn(a, 0), Versions(a);
    ItemsAre(b, c);
    BothAre(1, 2, b, c);
    OwnFirst(a, 2, 1, 2, b, c);
    assert IsNewest(h, 1, 2, 1);
    NewestUnique(h, 1, 2, 1);
    assert Foreign(a, 0, 1, 2, 1);
    forall t: seq<Version> | h == g + t ensures exists k :: 0 <= k < |t| && t[k].sequenceId <= 2 {
      assert t[0] == h[1];
    }
  }

  lemma OwnFirst(a: seq<Applied>, s: int, i: int, j: int, b: Bytes, c: Bytes)
    requires a == Both(i, j, b, c) && i <= s
    ensures Newest(VersionsIn(a, 0), 1, s) == 0 && OwnPlace(a, 0, 1, s) == 0
  {
    BothAre(i, j, b, c);
    var g := VersionsIn(a, 0);
    assert IsNewest(g, 1, s, 0);
    NewestUnique(g, 1, s, 0);
    assert a[..1][..0] == [] && PlacesOf(a[..1], 0) == [0];
  }

  /** In one transaction both documents have the same sequence id: the view shows its document,
      with the contents of the other storage's. */
  lemma OneTransactionTwoStorages<D, K>(hooks: JsViews.Hooks<D, K>, b: Bytes, c: Bytes)
    ensures var a := AllOf(OneItem(b, c));
            var g, h := VersionsIn(a, 0), Versions(a);
            && Current(g, 1, 0) && Masked(a, 0, 1, 1) && !Outdated(a, 0, 1, 1)
            && Shown(h, g, 1, 0) && RowAt(hooks, h, g, 1, 0) == hooks.report(hooks.extractDoc(1, c))
  {
    var a := Both(1, 1, b, c);
    var g, h := VersionsIn(a, 0), Versions(a);
    ItemsAre(b, c);
    BothAre(1, 1, b, c);
    OwnFirst(a, 1, 1, 1, b, c);
    assert IsNewest(h, 1, 1, 1);
    NewestUnique(h, 1, 1, 1);
    assert Foreign(a, 0, 1, 1, 1);
  }
}
