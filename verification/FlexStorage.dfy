/** The document storage: an index of (document, sequence id) over an append-only data file. */
module FlexStorages {
  import opened BtreeShape
  import opened BtreeZipper
  import opened BtreePages
  import opened BtreeSearch
  import opened Btrees
  import opened BtreeOrder
  import opened BtreeIterators
  import opened RandomAccessFiles
  import opened DbTypes

  datatype Index = Index(documentId: int, sequenceId: int)
  datatype Reference = Reference(offset: nat, length: nat)

  predicate IndexLe(a: Index, b: Index) {
    a.documentId < b.documentId || (a.documentId == b.documentId && a.sequenceId <= b.sequenceId)
  }

  /** The comparison of both closures: how an index entry compares with `k`. */
  function Compare(other: Index, k: Index): int {
    if other.documentId < k.documentId then -1
    else if other.documentId > k.documentId then 1
    else if other.sequenceId < k.sequenceId then -1
    else if other.sequenceId > k.sequenceId then 1
    else 0
  }

  function CompareWith(k: Index): Index -> int {
    (other: Index) => Compare(other, k)
  }

  lemma CompareIsOrder(k: Index)
    ensures TotalPreorder(IndexLe) && ComparesTo(CompareWith(k), k, IndexLe)
  {
  }

  // ------------------------------------------------------------------
  // The index and the data file, as they follow from the history
  // ------------------------------------------------------------------

  /** Where the data of the next version goes. */
  ghost function Size(h: seq<Version>): nat {
    if h == [] then 0 else Size(h[..|h| - 1]) + |h[|h| - 1].buffer|
  }

  ghost function Offset(h: seq<Version>, k: nat): nat
    requires k <= |h|
  {
    Size(h[..k])
  }

  ghost function KeyOf(v: Version): Index {
    Index(v.documentId, v.sequenceId)
  }

  ghost function EntryOf(h: seq<Version>, k: nat): Entry<Index, Reference>
    requires k < |h|
  {
    Entry(KeyOf(h[k]), Reference(Offset(h, k), |h[k].buffer|))
  }

  /** `order` lists all versions of `h`, by key and, among equal keys, by application. */
  ghost predicate Arranged(h: seq<Version>, order: seq<nat>, s: seq<Entry<Index, Reference>>) {
    && |s| == |order|
    && (forall i | 0 <= i < |order| :: order[i] < |h| && s[i] == EntryOf(h, order[i]))
    && (forall k: nat | k < |h| :: k in order)
    && (forall i, j | 0 <= i < j < |order| :: Follows(order[i], s[i].key, order[j], s[j].key))
  }

  ghost predicate Follows(i: nat, a: Index, j: nat, b: Index) {
    IndexLe(a, b) && (a == b ==> i < j)
  }

  lemma {:induction false} OffsetsGrow(h: seq<Version>, k: nat, n: nat)
    requires k < n <= |h|
    ensures Offset(h, k) + |h[k].buffer| <= Offset(h, n)
  {
    assert h[..n][..n - 1] == h[..n - 1];
    if k < n - 1 {
      OffsetsGrow(h, k, n - 1);
    }
  }

  lemma EntryOfPrefix(h: seq<Version>, v: Version, k: nat)
    requires k < |h|
    ensures EntryOf(h + [v], k) == EntryOf(h, k)
  {
    assert (h + [v])[..k] == h[..k];
  }

  lemma ArrangedSorted(h: seq<Version>, order: seq<nat>, s: seq<Entry<Index, Reference>>)
    requires Arranged(h, order, s)
    ensures Sorted(s, IndexLe)
  {
  }

  function InsertAt<T>(s: seq<T>, n: nat, x: T): (t: seq<T>)
    requires n <= |s|
    ensures |t| == |s| + 1 && t[n] == x
    ensures forall i | 0 <= i < n :: t[i] == s[i]
    ensures forall i | n < i < |t| :: t[i] == s[i - 1]
  {
    s[..n] + [x] + s[n..]
  }

  lemma InsertAtKeeps<T>(s: seq<T>, n: nat, x: T)
    requires n <= |s|
    ensures x in InsertAt(s, n, x) && forall y | y in s :: y in InsertAt(s, n, x)
  {
    var t := InsertAt(s, n, x);
    assert t[n] == x;
    forall y | y in s ensures y in t {
      var i :| 0 <= i < |s| && s[i] == y;
      assert t[if i < n then i else i + 1] == y;
    }
  }

  /** What comes before a new entry, and what comes after it. */
  lemma FollowsNew(order: seq<nat>, s: seq<Entry<Index, Reference>>, k: nat, e: Entry<Index, Reference>, n: nat)
    requires |s| == |order| && PlacedAt(s, n, e, IndexLe) && forall i | 0 <= i < |order| :: order[i] < k
    ensures forall i | 0 <= i < n :: Follows(order[i], s[i].key, k, e.key)
    ensures forall j | n <= j < |order| :: Follows(k, e.key, order[j], s[j].key)
  {
  }

  lemma ArrangedAt(h: seq<Version>, order: seq<nat>, s: seq<Entry<Index, Reference>>, v: Version, n: nat)
    requires Arranged(h, order, s)
    requires PlacedAt(s, n, EntryOf(h + [v], |h|), IndexLe)
    ensures n <= |order|
    ensures Arranged(h + [v], InsertAt(order, n, |h|), InsertAt(s, n, EntryOf(h + [v], |h|)))
  {
    hide EntryOf, Follows;
    var e := EntryOf(h + [v], |h|);
    var order', t := InsertAt(order, n, |h|), InsertAt(s, n, e);
    forall i | 0 <= i < |order'| ensures order'[i] < |h| + 1 && t[i] == EntryOf(h + [v], order'[i]) {
      if i != n {
        EntryOfPrefix(h, v, order[if i < n then i else i - 1]);
      }
    }
    InsertAtKeeps(order, n, |h|);
    FollowsNew(order, s, |h|, e, n);
    forall i, j | 0 <= i < j < |order'| ensures Follows(order'[i], t[i].key, order'[j], t[j].key) {
      if i != n && j != n {
        var i0, j0 := if i < n then i else i - 1, if j < n then j else j - 1;
        assert Follows(order[i0], s[i0].key, order[j0], s[j0].key);
      }
    }
  }

  /** Inserting the entry of a new version keeps the arrangement. */
  lemma ArrangedInsert(h: seq<Version>, order: seq<nat>, s: seq<Entry<Index, Reference>>, v: Version)
    returns (order': seq<nat>)
    requires Arranged(h, order, s)
    ensures Arranged(h + [v], order', Inserted(s, EntryOf(h + [v], |h|), CompareWith(KeyOf(v))))
  {
    hide Arranged, Inserted, EntryOf;
    var e := EntryOf(h + [v], |h|);
    KeyOfEntry(h, v);
    CompareIsOrder(KeyOf(v));
    ArrangedSorted(h, order, s);
    var n := InsertedIsSorted(s, e, CompareWith(KeyOf(v)), IndexLe);
    ArrangedAt(h, order, s, v, n);
    order' := InsertAt(order, n, |h|);
  }

  lemma KeyOfEntry(h: seq<Version>, v: Version)
    ensures EntryOf(h + [v], |h|) == Entry(KeyOf(v), Reference(Size(h), |v.buffer|))
  {
    assert (h + [v])[..|h|] == h;
  }

  lemma WhereIs(order: seq<nat>, k: nat) returns (i: nat)
    requires k in order
    ensures i < |order| && order[i] == k
  {
    i :| i < |order| && order[i] == k;
  }

  /** A visible version has an index entry, which compares `<= 0`. */
  lemma EntryOfVisible(h: seq<Version>, order: seq<nat>, s: seq<Entry<Index, Reference>>, doc: int, seqId: int, j: int)
    returns (i: nat)
    requires Arranged(h, order, s) && Visible(h, doc, seqId, j)
    ensures i < |s| == |order| && order[i] == j && s[i] == EntryOf(h, j)
    ensures CompareWith(Index(doc, seqId))(s[i].key) <= 0
  {
    i := WhereIs(order, j);
  }

  /** The last index entry at most (doc, s) is the newest visible version, if there is one. */
  lemma FoundIsNewest(h: seq<Version>, order: seq<nat>, s: seq<Entry<Index, Reference>>, doc: int, seqId: int, pos: int)
    requires Arranged(h, order, s) && IsLastLe(s, pos, CompareWith(Index(doc, seqId)))
    ensures if s[pos].key.documentId == doc then Newest(h, doc, seqId) == order[pos]
            else Newest(h, doc, seqId) == -1
  {
    forall j | Visible(h, doc, seqId, j)
      ensures IndexLe(KeyOf(h[j]), s[pos].key) && (KeyOf(h[j]) == s[pos].key ==> j <= order[pos])
    {
      var i := EntryOfVisible(h, order, s, doc, seqId, j);
      assert i < pos ==> Follows(order[i], s[i].key, order[pos], s[pos].key);
    }
    if s[pos].key.documentId == doc {
      assert Visible(h, doc, seqId, order[pos]);
      assert IsNewest(h, doc, seqId, order[pos]);
      NewestUnique(h, doc, seqId, order[pos]);
    }
  }

  lemma NoneIsNone(h: seq<Version>, order: seq<nat>, s: seq<Entry<Index, Reference>>, doc: int, seqId: int)
    requires Arranged(h, order, s) && AllGt(s, CompareWith(Index(doc, seqId)))
    ensures Newest(h, doc, seqId) == -1
  {
    var k := Newest(h, doc, seqId);
    if k != -1 {
      var i := EntryOfVisible(h, order, s, doc, seqId, k);
      assert false;
    }
  }

  lemma IndexIsCut(h: seq<Version>, order: seq<nat>, s: seq<Entry<Index, Reference>>, k: Index)
    requires Arranged(h, order, s)
    ensures SplitsAbove(s, CompareWith(k))
  {
    CompareIsOrder(k);
    ArrangedSorted(h, order, s);
    SortedIsCut(s, CompareWith(k), k, IndexLe);
  }

  class FlexStorage {
    var lastDocumentId: int
    var dataPointer: nat
    const indexTree: Btree<Index, Reference>
    const dataFile: RandomAccessFile

    /** The versions applied so far, in order, and how the index arranges them. */
    ghost var history: seq<Version>
    ghost var order: seq<nat>

    ghost predicate Valid()
      reads this, indexTree, dataFile
    {
      && indexTree.Valid() && dataFile.Valid()
      && dataPointer == Size(history)
      && Arranged(history, order, indexTree.Contents())
      && Stored()
    }

    /** The data of every version lies where its index entry says. */
    ghost predicate Stored()
      requires dataFile.Valid()
      reads this`history, dataFile
    {
      forall k | 0 <= k < |history| :: dataFile.Range(Offset(history, k), |history[k].buffer|) == history[k].buffer
    }

    constructor (caps: Caps)
      requires CapsOk(caps)
      ensures Valid() && history == [] && lastDocumentId == 0 && fresh(indexTree) && fresh(dataFile)
      ensures indexTree.pins == multiset{} && dataFile.pins == multiset{}
    {
      lastDocumentId, dataPointer := 0, 0;
      indexTree := new Btree<Index, Reference>(caps);
      dataFile := new RandomAccessFile();
      history, order := [], [];
    }

    method Allocate() returns (id: int)
      requires Valid()
      modifies this`lastDocumentId
      ensures Valid() && id == lastDocumentId == old(lastDocumentId) + 1
    {
      lastDocumentId := lastDocumentId + 1;
      id := lastDocumentId;
    }

    /** Ids of replayed insertions are never allocated again. */
    method Reinspect(m: Mutation)
      requires Valid()
      modifies this`lastDocumentId
      ensures Valid() && lastDocumentId >= old(lastDocumentId)
      ensures m.kind == MutationType.Insert ==> lastDocumentId >= m.documentId
      ensures lastDocumentId == old(lastDocumentId) || (m.kind == MutationType.Insert && lastDocumentId == m.documentId)
    {
      if m.kind == MutationType.Insert {
        if lastDocumentId < m.documentId {
          lastDocumentId := m.documentId;
        }
      }
    }

    /** Applies one mutation: insertions and modifications alike add a version. */
    method Apply(sequenceId: int, m: Mutation)
      requires Valid()
      modifies this`dataPointer, this`history, this`order, indexTree, dataFile
      ensures Valid()
      ensures history == old(history) + [Version(m.documentId, sequenceId, m.buffer)]
      ensures indexTree.pins == old(indexTree.pins) && dataFile.pins == old(dataFile.pins)
    {
      hide Arranged, Stored;
      ghost var v := Version(m.documentId, sequenceId, m.buffer);
      var pointer := dataPointer;
      dataPointer := dataPointer + |m.buffer|;
      WriteData(pointer, m.buffer);
      InsertIndex(Index(m.documentId, sequenceId), Reference(pointer, |m.buffer|), v);
      AppendHistory(v);
    }

    ghost method AppendHistory(v: Version)
      requires dataFile.Valid() && Stored() && dataFile.Range(Size(history), |v.buffer|) == v.buffer
      modifies this`history
      ensures history == old(history) + [v] && Stored() && Size(history) == Size(old(history)) + |v.buffer|
    {
      assert (history + [v])[..|history|] == history;
      forall k | 0 <= k < |history + [v]|
        ensures dataFile.Range(Offset(history + [v], k), |(history + [v])[k].buffer|) == (history + [v])[k].buffer
      {
        assert (history + [v])[..k] == history[..k];
        assert history[..|history|] == history;
      }
      history := history + [v];
    }

    /** Adds the index entry of the next version. */
    method InsertIndex(index: Index, reference: Reference, ghost v: Version)
      requires indexTree.Valid() && Arranged(history, order, indexTree.Contents())
      requires index == KeyOf(v) && reference == Reference(Size(history), |v.buffer|)
      modifies this`order, indexTree
      ensures indexTree.Valid() && Arranged(history + [v], order, indexTree.Contents())
      ensures indexTree.pins == old(indexTree.pins)
    {
      hide Arranged, EntryOf, Inserted;
      KeyOfEntry(history, v);
      IndexIsCut(history, order, indexTree.Contents(), index);
      indexTree.Insert(index, reference, CompareWith(index));
      order := ArrangedInsert(history, order, old(indexTree.Contents()), v);
    }

    /** Appends the data of a new version; what was stored before stays. */
    method WriteData(pointer: nat, buffer: Bytes)
      requires dataFile.Valid() && Stored() && pointer == Size(history)
      modifies dataFile
      ensures dataFile.Valid() && Stored() && dataFile.pins == old(dataFile.pins)
      ensures dataFile.Range(pointer, |buffer|) == buffer
    {
      dataFile.Write(pointer, |buffer|, buffer);
      forall k | 0 <= k < |history|
        ensures dataFile.Range(Offset(history, k), |history[k].buffer|) == history[k].buffer
      {
        OffsetsGrow(history, k, |history|);
        assert history[..|history|] == history;
        assert old(dataFile.Range(Offset(history, k), |history[k].buffer|)) == history[k].buffer;
      }
    }

    /** The version of `doc` that a reader at `s` sees. */
    method Fetch(doc: int, s: int) returns (r: FetchResult)
      requires Valid()
      modifies indexTree`pins, dataFile`pins, dataFile`unmarked
      ensures Valid() && indexTree.pins == old(indexTree.pins) && dataFile.pins == old(dataFile.pins)
      ensures r == Lookup(history, doc, s)
      ensures r.Found? ==>
                exists i :: 0 <= i < |history| && history[i] == Version(doc, r.sequenceId, r.buffer)
                            && r.sequenceId <= s
                            && forall j | 0 <= j < |history| && history[j].documentId == doc
                                          && history[j].sequenceId <= s ::
                                 history[j].sequenceId < r.sequenceId
                                 || (history[j].sequenceId == r.sequenceId && j <= i)
      ensures r == NotFound ==> forall j | 0 <= j < |history| && history[j].documentId == doc ::
              history[j].sequenceId > s
    {
      hide Arranged, Stored, Newest, Btree.Valid, Btree.Contents;
      LookupMeans(history, doc, s);
      ghost var k;
      var found, e;
      found, e, k := FindIndex(doc, s);
      if !found || e.key.documentId != doc {
        return NotFound;
      }
      var buffer := ReadData(e.value, k);
      r := Found(e.key.sequenceId, buffer);
    }

    /** The last index entry at most (doc, s). */
    method FindIndex(doc: int, s: int) returns (found: bool, e: Entry<Index, Reference>, ghost k: int)
      requires indexTree.Valid() && Arranged(history, order, indexTree.Contents())
      modifies indexTree`pins
      ensures indexTree.Valid() && indexTree.pins == old(indexTree.pins)
      ensures if found && e.key.documentId == doc then 0 <= k < |history| && k == Newest(history, doc, s)
              && e == EntryOf(history, k)
              else Newest(history, doc, s) == -1
    {
      hide Holds, PosAt, EntryOf;
      var index := Index(doc, s);
      e := Entry(index, Reference(0, 0));
      IndexIsCut(history, order, indexTree.Contents(), index);
      var ref, pos := indexTree.FindPrev(CompareWith(index));
      if ref == NO_REF {
        NoneIsNone(history, order, indexTree.Contents(), doc, s);
        return false, e, -1;
      }
      FoundIsNewest(history, order, indexTree.Contents(), doc, s, pos);
      found, k := true, order[pos];
      e := ReadEntry(ref, pos);
    }

    method ReadEntry(ref: Ref, ghost pos: int) returns (e: Entry<Index, Reference>)
      requires indexTree.Valid() && ref != NO_REF && indexTree.At(ref, pos)
      modifies indexTree`pins
      ensures indexTree.Valid() && indexTree.pins == old(indexTree.pins)
      ensures 0 <= pos < |indexTree.Contents()| && e == indexTree.Contents()[pos]
    {
      hide Holds, PosAt;
      var iterate := new Iterator(indexTree);
      iterate.Seek(ref, pos, indexTree.pins);
      e := iterate.GetEntry(pos);
      iterate.Close(old(indexTree.pins));
    }

    method ReadData(reference: Reference, ghost k: int) returns (data: Bytes)
      requires dataFile.Valid() && Stored() && 0 <= k < |history| && reference == EntryOf(history, k).value
      modifies dataFile`pins, dataFile`unmarked
      ensures dataFile.Valid() && dataFile.pins == old(dataFile.pins) && Stored()
      ensures data == history[k].buffer
    {
      var buffer := new byte[reference.length];
      dataFile.Read(reference.offset, reference.length, buffer);
      data := buffer[..];
    }
  }
}
