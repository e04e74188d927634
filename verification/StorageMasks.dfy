/** One storage among several. Every driver is given the mutations of all storages; a view
    indexes those of its own storage only, a document storage stores them all. */
module StorageMasks {
  import opened DbTypes
  import opened QueuedDrivers

  /** The versions that belong to storage `x`. */
  ghost function VersionsIn(applied: seq<Applied>, x: int): seq<Version> {
    if applied == [] then []
    else
      var n := |applied| - 1;
      VersionsIn(applied[..n], x) + (if applied[n].mutation.storageIndex == x then [VersionOf(applied[n])] else [])
  }

  /** Where they are among all applied mutations. */
  ghost function PlacesOf(applied: seq<Applied>, x: int): seq<nat> {
    if applied == [] then []
    else
      var n := |applied| - 1;
      PlacesOf(applied[..n], x) + (if applied[n].mutation.storageIndex == x then [n] else [])
  }

  ghost predicate Own(applied: seq<Applied>, x: int, i: int) {
    0 <= i < |applied| && applied[i].mutation.storageIndex == x
  }

  /** Version `k` of storage `x` is mutation `i`. */
  ghost predicate At(applied: seq<Applied>, x: int, k: nat, i: nat) {
    k < |PlacesOf(applied, x)| == |VersionsIn(applied, x)| && PlacesOf(applied, x)[k] == i && Own(applied, x, i)
    && VersionsIn(applied, x)[k] == VersionOf(applied[i])
  }

  lemma VersionsAt(applied: seq<Applied>, i: nat)
    requires i < |applied|
    ensures |Versions(applied)| == |applied| && Versions(applied)[i] == VersionOf(applied[i])
  {
  }

  lemma {:induction false} EveryVersionAt(applied: seq<Applied>, x: int)
    ensures |PlacesOf(applied, x)| == |VersionsIn(applied, x)|
    ensures forall k: nat | k < |PlacesOf(applied, x)| :: At(applied, x, k, PlacesOf(applied, x)[k])
  {
    if applied != [] {
      var n := |applied| - 1;
      EveryVersionAt(applied[..n], x);
      forall k: nat | k < |PlacesOf(applied, x)| ensures At(applied, x, k, PlacesOf(applied, x)[k]) {
        if k < |PlacesOf(applied[..n], x)| {
          assert At(applied[..n], x, k, PlacesOf(applied[..n], x)[k]);
        }
      }
    }
  }

  lemma {:induction false} PlacesGrow(applied: seq<Applied>, x: int, j: nat, k: nat)
    requires j < k < |PlacesOf(applied, x)|
    ensures PlacesOf(applied, x)[j] < PlacesOf(applied, x)[k]
  {
    var n := |applied| - 1;
    EveryVersionAt(applied[..n], x);
    var p := PlacesOf(applied[..n], x);
    if k < |p| {
      PlacesGrow(applied[..n], x, j, k);
    } else {
      assert At(applied[..n], x, j, p[j]);
    }
  }

  lemma {:induction false} OwnIsPlaced(applied: seq<Applied>, x: int, i: nat) returns (k: nat)
    requires Own(applied, x, i)
    ensures At(applied, x, k, i)
  {
    var n := |applied| - 1;
    EveryVersionAt(applied, x);
    if i == n {
      k := |PlacesOf(applied, x)| - 1;
    } else {
      k := OwnIsPlaced(applied[..n], x, i);
      assert PlacesOf(applied, x)[k] == i;
      assert At(applied, x, k, PlacesOf(applied, x)[k]);
    }
  }

  // ------------------------------------------------------------------
  // Masks
  // ------------------------------------------------------------------

  /** Mutation `j` comes after mutation `i`: it has a greater id, or the same and was applied later. */
  ghost predicate Newer(applied: seq<Applied>, j: nat, i: nat)
    requires j < |applied| && i < |applied|
  {
    applied[j].sequenceId > applied[i].sequenceId || (applied[j].sequenceId == applied[i].sequenceId && j > i)
  }

  /** A mutation of another storage on the same document, visible at `s`. */
  ghost predicate Foreign(applied: seq<Applied>, x: int, doc: int, s: int, j: int) {
    Visible(Versions(applied), doc, s, j) && applied[j].mutation.storageIndex != x
  }

  /** Mutation `i` of storage `x` is the newest that a reader of this storage at `s` should see. */
  ghost predicate OwnNewest(applied: seq<Applied>, x: int, doc: int, s: int, i: int) {
    && Own(applied, x, i) && Visible(Versions(applied), doc, s, i)
    && forall j | Visible(Versions(applied), doc, s, j) && Own(applied, x, j) && j != i :: Newer(applied, i, j)
  }

  /** The place of the newest own version, or -1. */
  ghost function OwnPlace(applied: seq<Applied>, x: int, doc: int, s: int): (i: int)
    ensures i == -1 || 0 <= i < |applied|
  {
    var k := Newest(VersionsIn(applied, x), doc, s);
    EveryVersionAt(applied, x);
    if k == -1 then -1
    else
      assert Visible(VersionsIn(applied, x), doc, s, k);
      assert At(applied, x, k, PlacesOf(applied, x)[k]);
      PlacesOf(applied, x)[k]
  }

  lemma VisibleAt(applied: seq<Applied>, x: int, doc: int, s: int, k: nat, i: nat)
    requires At(applied, x, k, i)
    ensures Visible(VersionsIn(applied, x), doc, s, k) <==> Visible(Versions(applied), doc, s, i)
  {
    VersionsAt(applied, i);
  }

  /** The own place is that of the version that a lookup over the own versions selects, and this
      is the newest own mutation that is visible. */
  lemma OwnPlaceIs(applied: seq<Applied>, x: int, doc: int, s: int)
    ensures var i := OwnPlace(applied, x, doc, s);
            if i == -1 then forall j :: Own(applied, x, j) ==> !Visible(Versions(applied), doc, s, j)
            else OwnNewest(applied, x, doc, s, i)
    ensures OwnPlace(applied, x, doc, s) == -1 <==> Newest(VersionsIn(applied, x), doc, s) == -1
    ensures OwnPlace(applied, x, doc, s) != -1 ==>
              At(applied, x, Newest(VersionsIn(applied, x), doc, s), OwnPlace(applied, x, doc, s))
  {
    var g := VersionsIn(applied, x);
    var k, i := Newest(g, doc, s), OwnPlace(applied, x, doc, s);
    EveryVersionAt(applied, x);
    if k != -1 {
      assert Visible(g, doc, s, k);
      assert At(applied, x, k, i);
      VisibleAt(applied, x, doc, s, k, i);
    }
    forall j | Visible(Versions(applied), doc, s, j) && Own(applied, x, j)
      ensures k != -1 && (j != i ==> Newer(applied, i, j))
    {
      var q := OwnIsPlaced(applied, x, j);
      VisibleAt(applied, x, doc, s, q, j);
      assert Visible(g, doc, s, q);
      if q < k {
        PlacesGrow(applied, x, q, k);
      }
    }
  }

  /** Another storage hides what a reader of storage `x` should see of a document: it has a
      visible mutation of a document of the same id that is newer, or the only visible one. */
  ghost predicate Masked(applied: seq<Applied>, x: int, doc: int, s: int) {
    var i := OwnPlace(applied, x, doc, s);
    exists j :: Foreign(applied, x, doc, s, j) && (i == -1 || Newer(applied, j, i))
  }

  /** One with a greater sequence id. */
  ghost predicate Outdated(applied: seq<Applied>, x: int, doc: int, s: int) {
    var i := OwnPlace(applied, x, doc, s);
    i != -1 && exists j :: Foreign(applied, x, doc, s, j) && applied[j].sequenceId > applied[i].sequenceId
  }

  lemma VersionsLength(applied: seq<Applied>)
    ensures |Versions(applied)| == |applied|
  {
  }

  lemma NewestIsNewer(applied: seq<Applied>, doc: int, s: int, i: int)
    requires 0 <= i < |applied|
    ensures Newest(Versions(applied), doc, s) == i <==>
            && Visible(Versions(applied), doc, s, i)
            && forall j | Visible(Versions(applied), doc, s, j) && j != i :: Newer(applied, i, j)
  {
    var v := Versions(applied);
    VersionsLength(applied);
    if Visible(v, doc, s, i) && forall j | Visible(v, doc, s, j) && j != i :: Newer(applied, i, j) {
      assert IsNewest(v, doc, s, i);
      NewestUnique(v, doc, s, i);
    }
  }

  /** A document storage, which stores the mutations of all storages, selects the own version of
      a document if and only if no other storage masks it. */
  lemma SelectsOwnExactly(applied: seq<Applied>, x: int, doc: int, s: int)
    ensures Newest(Versions(applied), doc, s) == OwnPlace(applied, x, doc, s) <==> !Masked(applied, x, doc, s)
  {
    hide OwnPlace, Versions;
    var i, n := OwnPlace(applied, x, doc, s), Newest(Versions(applied), doc, s);
    OwnPlaceIs(applied, x, doc, s);
    VersionsLength(applied);
    if i == -1 {
      NoneNewest(applied, x, doc, s);
    } else {
      NewestIsNewer(applied, doc, s, i);
      if !Masked(applied, x, doc, s) {
        forall j | Visible(Versions(applied), doc, s, j) && j != i ensures Newer(applied, i, j) {
          InRange(applied, doc, s, j);
          assert !Own(applied, x, j) ==> Foreign(applied, x, doc, s, j);
        }
      } else {
        var j :| Foreign(applied, x, doc, s, j) && Newer(applied, j, i);
        assert !Newer(applied, i, j);
      }
    }
  }

  lemma InRange(applied: seq<Applied>, doc: int, s: int, j: int)
    requires Visible(Versions(applied), doc, s, j)
    ensures 0 <= j < |applied|
  {
  }

  lemma NoneNewest(applied: seq<Applied>, x: int, doc: int, s: int)
    requires forall j :: Own(applied, x, j) ==> !Visible(Versions(applied), doc, s, j)
    ensures Newest(Versions(applied), doc, s) == -1 <==> forall j :: !Foreign(applied, x, doc, s, j)
  {
    var n := Newest(Versions(applied), doc, s);
    if n != -1 {
      assert Visible(Versions(applied), doc, s, n);
      InRange(applied, doc, s, n);
      assert Foreign(applied, x, doc, s, n);
    }
  }

  /** What is not masked is answered as the storage alone would answer it. */
  lemma UnmaskedLookup(applied: seq<Applied>, x: int, doc: int, s: int)
    requires !Masked(applied, x, doc, s)
    ensures Lookup(Versions(applied), doc, s) == Lookup(VersionsIn(applied, x), doc, s)
  {
    hide Masked, OwnPlace;
    SelectsOwnExactly(applied, x, doc, s);
    OwnPlaceIs(applied, x, doc, s);
    var i := OwnPlace(applied, x, doc, s);
    if i != -1 {
      VersionsAt(applied, i);
    }
  }

  /** The storage finds a version with the sequence id of version `k` of storage `x` exactly when
      this is the id of the current one and no other storage has a greater id. */
  lemma FoundExactly(applied: seq<Applied>, x: int, s: int, k: nat)
    requires k < |VersionsIn(applied, x)|
    ensures var g := VersionsIn(applied, x);
            var r := Lookup(Versions(applied), g[k].documentId, s);
            (r.Found? && r.sequenceId == g[k].sequenceId)
            <==> Standing(g, s, k) && !Outdated(applied, x, g[k].documentId, s)
  {
    hide VersionsIn, PlacesOf, OwnPlace, Versions;
    var g := VersionsIn(applied, x);
    var doc := g[k].documentId;
    var m, i, n := Newest(g, doc, s), OwnPlace(applied, x, doc, s), Newest(Versions(applied), doc, s);
    OwnPlaceIs(applied, x, doc, s);
    EveryVersionAt(applied, x);
    VersionsLength(applied);
    assert At(applied, x, k, PlacesOf(applied, x)[k]);
    VisibleAt(applied, x, doc, s, k, PlacesOf(applied, x)[k]);
    if n != -1 {
      VersionsAt(applied, n);
      NewestIsNewer(applied, doc, s, n);
    }
    if i != -1 {
      assert Visible(g, doc, s, m);
      VisibleAt(applied, x, doc, s, m, i);
      OutdatedOrEqual(applied, x, doc, s, i, n);
    }
  }

  /** The newest version of all has the own newest id, or the own one is outdated. */
  lemma OutdatedOrEqual(applied: seq<Applied>, x: int, doc: int, s: int, i: nat, n: int)
    requires i == OwnPlace(applied, x, doc, s) && OwnNewest(applied, x, doc, s, i)
             && n == Newest(Versions(applied), doc, s)
    ensures 0 <= n < |applied| && applied[n].sequenceId >= applied[i].sequenceId
    ensures Outdated(applied, x, doc, s) <==> applied[n].sequenceId > applied[i].sequenceId
  {
    hide OwnPlace, Versions;
    VersionsLength(applied);
    assert Visible(Versions(applied), doc, s, n);
    NewestIsNewer(applied, doc, s, n);
    if applied[n].sequenceId > applied[i].sequenceId {
      assert Foreign(applied, x, doc, s, n);
    }
    if Outdated(applied, x, doc, s) {
      var j :| Foreign(applied, x, doc, s, j) && applied[j].sequenceId > applied[i].sequenceId;
      assert Visible(Versions(applied), doc, s, j);
    }
  }

  /** With a single storage nothing is masked, and its versions are all versions. */
  lemma {:induction false} SingleStorage(applied: seq<Applied>, x: int)
    requires forall i | 0 <= i < |applied| :: applied[i].mutation.storageIndex == x
    ensures VersionsIn(applied, x) == Versions(applied)
    ensures forall doc, s :: !Masked(applied, x, doc, s) && !Outdated(applied, x, doc, s)
  {
    if applied != [] {
      var n := |applied| - 1;
      SingleStorage(applied[..n], x);
      assert Versions(applied)[..n] == Versions(applied[..n]);
      VersionsAt(applied, n);
    }
  }
}
