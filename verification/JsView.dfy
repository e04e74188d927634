/** The ordered view: an index from keys to versions, and queries that report, in key order, the
    documents a reader sees. */
module JsViews {
  import opened BtreeShape
  import opened BtreeZipper
  import opened BtreePages
  import opened BtreeSearch
  import opened Btrees
  import opened BtreeOrder
  import opened BtreeIterators
  import opened RandomAccessFiles
  import opened DbTypes
  import opened FlexStorages
  import Q = QueuedDrivers

  /** The hooks of a view's script. */
  datatype Hooks<!D, !K> = Hooks(
    extractDoc: (int, Bytes) -> D,
    keyOf: D -> K,
    serializeKey: K -> Bytes,
    deserializeKey: Bytes -> K,
    extractKey: Bytes -> K,
    compare: (K, K) -> int,
    report: D -> Bytes)

  /** Keys survive serialization, and `compare` orders them. */
  ghost predicate Lawful<D(!new), K(!new)>(hooks: Hooks<D, K>) {
    && (forall k :: hooks.deserializeKey(hooks.serializeKey(k)) == k)
    && (forall x, y :: hooks.compare(x, y) <= 0 <==> hooks.compare(y, x) >= 0)
    && (forall x, y, z :: hooks.compare(x, y) <= 0 && hooks.compare(y, z) <= 0 ==> hooks.compare(x, z) <= 0)
  }

  datatype KeyRef = KeyRef(offset: nat, length: nat)
  datatype Link = Link(documentId: int, sequenceId: int)

  function Extract<D, K>(hooks: Hooks<D, K>, v: Version): D {
    hooks.extractDoc(v.documentId, v.buffer)
  }

  function KeyFor<D, K>(hooks: Hooks<D, K>, v: Version): K {
    hooks.keyOf(Extract(hooks, v))
  }

  /** The versions with their serialized keys: what the key file stores. */
  ghost function Keyed<D, K>(hooks: Hooks<D, K>, h: seq<Version>): (r: seq<Version>)
    ensures |r| == |h|
    ensures forall k | 0 <= k < |h| :: r[k] == h[k].(buffer := hooks.serializeKey(KeyFor(hooks, h[k])))
  {
    seq(|h|, k requires 0 <= k < |h| => h[k].(buffer := hooks.serializeKey(KeyFor(hooks, h[k]))))
  }

  lemma KeyedAppend<D, K>(hooks: Hooks<D, K>, h: seq<Version>, v: Version)
    ensures Keyed(hooks, h + [v]) == Keyed(hooks, h) + [v.(buffer := hooks.serializeKey(KeyFor(hooks, v)))]
  {
  }

  ghost function ViewEntry<D, K>(hooks: Hooks<D, K>, h: seq<Version>, k: nat): Entry<KeyRef, Link>
    requires k < |h|
  {
    Entry(KeyRef(Offset(Keyed(hooks, h), k), |Keyed(hooks, h)[k].buffer|), Link(h[k].documentId, h[k].sequenceId))
  }

  // ------------------------------------------------------------------
  // The arrangement of the order tree
  // ------------------------------------------------------------------

  /** Version `i` stands before version `j`: by key, and among equal keys by application. */
  ghost predicate Before<D, K>(hooks: Hooks<D, K>, h: seq<Version>, i: nat, j: nat)
    requires i < |h| && j < |h|
  {
    && hooks.compare(KeyFor(hooks, h[i]), KeyFor(hooks, h[j])) <= 0
    && (hooks.compare(KeyFor(hooks, h[i]), KeyFor(hooks, h[j])) >= 0 ==> i < j)
  }

  ghost predicate OrderOf(h: seq<Version>, order: seq<nat>) {
    (forall i | 0 <= i < |order| :: order[i] < |h|) && (forall k: nat | k < |h| :: k in order)
  }

  ghost predicate InKeyOrder<D, K>(hooks: Hooks<D, K>, h: seq<Version>, order: seq<nat>)
    requires OrderOf(h, order)
  {
    forall i, j | 0 <= i < j < |order| :: Before(hooks, h, order[i], order[j])
  }

  ghost predicate Entered<D, K>(hooks: Hooks<D, K>, h: seq<Version>, order: seq<nat>, s: seq<Entry<KeyRef, Link>>)
    requires OrderOf(h, order)
  {
    |s| == |order| && forall i | 0 <= i < |order| :: s[i] == ViewEntry(hooks, h, order[i])
  }

  /** The tree holds one entry per version, in key order. */
  ghost predicate Indexed<D, K>(hooks: Hooks<D, K>, h: seq<Version>, order: seq<nat>, s: seq<Entry<KeyRef, Link>>) {
    OrderOf(h, order) && InKeyOrder(hooks, h, order) && Entered(hooks, h, order, s)
  }

  /** The comparison closures: the key that a reference means, against a given key. */
  function Comparator<D, K>(hooks: Hooks<D, K>, keys: Bytes, key: K): KeyRef -> int {
    (r: KeyRef) => hooks.compare(hooks.deserializeKey(Slice(keys, r)), key)
  }

  function Slice(keys: Bytes, r: KeyRef): Bytes {
    if r.offset + r.length <= |keys| then keys[r.offset..r.offset + r.length] else []
  }

  /** `keys` is the content of the key file. */
  ghost predicate KeysStored<D, K>(hooks: Hooks<D, K>, h: seq<Version>, keys: Bytes) {
    forall k: nat | k < |h| :: Slice(keys, ViewEntry(hooks, h, k).key) == Keyed(hooks, h)[k].buffer
  }

  lemma ComparesKeys<D(!new), K(!new)>(hooks: Hooks<D, K>, h: seq<Version>, keys: Bytes, key: K, k: nat)
    requires Lawful(hooks) && KeysStored(hooks, h, keys) && k < |h|
    ensures Comparator(hooks, keys, key)(ViewEntry(hooks, h, k).key) == hooks.compare(KeyFor(hooks, h[k]), key)
  {
  }

  lemma IsCut<D(!new), K(!new)>(hooks: Hooks<D, K>, h: seq<Version>, order: seq<nat>, s: seq<Entry<KeyRef, Link>>,
                                keys: Bytes, key: K)
    requires Lawful(hooks) && KeysStored(hooks, h, keys) && Indexed(hooks, h, order, s)
    ensures SplitsAbove(s, Comparator(hooks, keys, key)) && SplitsBelow(s, Comparator(hooks, keys, key))
  {
    hide KeysStored, ViewEntry, KeyFor, Comparator;
    var cmp := Comparator(hooks, keys, key);
    forall i | 0 <= i < |s| ensures cmp(s[i].key) == hooks.compare(KeyFor(hooks, h[order[i]]), key) {
      ComparesKeys(hooks, h, keys, key, order[i]);
    }
    forall i, j | 0 <= i < j < |s|
      ensures cmp(s[j].key) <= 0 ==> cmp(s[i].key) <= 0
      ensures cmp(s[j].key) < 0 ==> cmp(s[i].key) < 0
    {
      assert Before(hooks, h, order[i], order[j]);
      Transitive(hooks, KeyFor(hooks, h[order[i]]), KeyFor(hooks, h[order[j]]), key);
    }
  }

  lemma Transitive<D(!new), K(!new)>(hooks: Hooks<D, K>, x: K, y: K, z: K)
    requires Lawful(hooks) && hooks.compare(x, y) <= 0
    ensures hooks.compare(y, z) <= 0 ==> hooks.compare(x, z) <= 0
    ensures hooks.compare(y, z) < 0 ==> hooks.compare(x, z) < 0
  {
    assert hooks.compare(x, z) >= 0 ==> hooks.compare(z, x) <= 0;
    assert hooks.compare(z, x) <= 0 ==> hooks.compare(z, y) <= 0;
    assert hooks.compare(z, y) <= 0 ==> hooks.compare(y, z) >= 0;
  }

  lemma ViewEntryPrefix<D, K>(hooks: Hooks<D, K>, h: seq<Version>, v: Version, k: nat)
    requires k < |h|
    ensures ViewEntry(hooks, h + [v], k) == ViewEntry(hooks, h, k)
  {
    KeyedAppend(hooks, h, v);
    assert Keyed(hooks, h + [v])[..k] == Keyed(hooks, h)[..k];
  }

  lemma OrderInserted(h: seq<Version>, order: seq<nat>, v: Version, n: nat)
    requires OrderOf(h, order) && n <= |order|
    ensures OrderOf(h + [v], InsertAt(order, n, |h|))
  {
    InsertAtKeeps(order, n, |h|);
  }

  lemma KeyOrderInserted<D(!new), K(!new)>(hooks: Hooks<D, K>, h: seq<Version>, order: seq<nat>, v: Version, n: nat)
    requires Lawful(hooks) && OrderOf(h, order) && InKeyOrder(hooks, h, order) && n <= |order|
    requires forall i | 0 <= i < n :: hooks.compare(KeyFor(hooks, h[order[i]]), KeyFor(hooks, v)) <= 0
    requires forall i | n <= i < |order| :: hooks.compare(KeyFor(hooks, h[order[i]]), KeyFor(hooks, v)) > 0
    ensures OrderOf(h + [v], InsertAt(order, n, |h|)) && InKeyOrder(hooks, h + [v], InsertAt(order, n, |h|))
  {
    hide KeyFor;
    OrderInserted(h, order, v, n);
    var order' := InsertAt(order, n, |h|);
    forall i, j | 0 <= i < j < |order'| ensures Before(hooks, h + [v], order'[i], order'[j]) {
      if i == n {
        assert hooks.compare(KeyFor(hooks, h[order[j - 1]]), KeyFor(hooks, v)) > 0;
      } else if j != n {
        var i0, j0 := if i < n then i else i - 1, if j < n then j else j - 1;
        assert Before(hooks, h, order[i0], order[j0]);
      }
    }
  }

  /** Inserting the entry of a new version keeps the index. */
  lemma IndexedInsert<D(!new), K(!new)>(hooks: Hooks<D, K>, h: seq<Version>, order: seq<nat>,
                                        s: seq<Entry<KeyRef, Link>>,
                                        v: Version, keys: Bytes)
    returns (order': seq<nat>)
    requires Lawful(hooks) && KeysStored(hooks, h, keys) && Indexed(hooks, h, order, s)
    ensures Indexed(hooks, h + [v], order',
                    Inserted(s, ViewEntry(hooks, h + [v], |h|), Comparator(hooks, keys, KeyFor(hooks, v))))
  {
    hide KeysStored, ViewEntry, KeyFor, Comparator, InKeyOrder, UpTo, Beyond;
    var cmp, e := Comparator(hooks, keys, KeyFor(hooks, v)), ViewEntry(hooks, h + [v], |h|);
    IsCut(hooks, h, order, s, keys, KeyFor(hooks, v));
    var n := CutParts(s, cmp);
    order' := InsertAt(order, n, |h|);
    forall i | 0 <= i < |s|
      ensures cmp(s[i].key) == hooks.compare(KeyFor(hooks, h[order[i]]), KeyFor(hooks, v))
      ensures i < n <==> cmp(s[i].key) <= 0
    {
      ComparesKeys(hooks, h, keys, KeyFor(hooks, v), order[i]);
      assert i < n ==> s[..n][i] == s[i];
      assert i >= n ==> s[n..][i - n] == s[i];
    }
    KeyOrderInserted(hooks, h, order, v, n);
    var t := InsertAt(s, n, e);
    assert Inserted(s, e, cmp) == t;
    forall i | 0 <= i < |order'| ensures t[i] == ViewEntry(hooks, h + [v], order'[i]) {
      if i != n {
        ViewEntryPrefix(hooks, h, v, order[if i < n then i else i - 1]);
      }
    }
  }

  // ------------------------------------------------------------------
  // What a query reports
  // ------------------------------------------------------------------

  /** The row of one index entry: there is one when the storage answers with the version that
      the entry stands for. Entries of document 0 are skipped. */
  ghost function RowsOf<D, K>(hooks: Hooks<D, K>, h: seq<Version>, s: int, e: Link): seq<Bytes> {
    if e.documentId == 0 then []
    else match Lookup(h, e.documentId, s)
      case NotFound => []
      case Found(sequenceId, buffer) =>
        if sequenceId == e.sequenceId then [hooks.report(hooks.extractDoc(e.documentId, buffer))] else []
  }

  ghost function Rows<D, K>(hooks: Hooks<D, K>, h: seq<Version>, s: int, es: seq<Entry<KeyRef, Link>>): seq<Bytes> {
    if es == [] then [] else Rows(hooks, h, s, es[..|es| - 1]) + RowsOf(hooks, h, s, es[|es| - 1].value)
  }

  /** The storage has no version of the entry's document at `s`: the query throws. */
  ghost predicate Missing(h: seq<Version>, s: int, e: Link) {
    e.documentId != 0 && Lookup(h, e.documentId, s) == NotFound
  }

  // Every entry is a fetch of its own, and between two of them the storage may apply mutations.
  // `meanwhile[i]` is what it applies before it is asked for entry `i` of the query.

  type Schedule = seq<seq<Q.Applied>>

  /** What the storage has stored, from `h` on, when it has been asked `n` times. */
  ghost function HistoryAt(h: seq<Version>, meanwhile: Schedule, n: nat): seq<Version> {
    if n == 0 then h
    else HistoryAt(h, meanwhile, n - 1) + (if n <= |meanwhile| then Q.Versions(meanwhile[n - 1]) else [])
  }

  /** All that was applied before the storage was asked `n` times. */
  function AppliedMeanwhile(meanwhile: Schedule, n: nat): seq<Q.Applied> {
    if n == 0 then [] else AppliedMeanwhile(meanwhile, n - 1) + (if n <= |meanwhile| then meanwhile[n - 1] else [])
  }

  /** The storage's history during a query is what it was, and everything applied since. */
  lemma {:induction false} HistoryIsApplied(h: seq<Version>, meanwhile: Schedule, n: nat)
    ensures HistoryAt(h, meanwhile, n) == h + Q.Versions(AppliedMeanwhile(meanwhile, n))
  {
    if n > 0 {
      HistoryIsApplied(h, meanwhile, n - 1);
    }
  }

  /** The rows of a query during which the storage goes on. */
  ghost function RowsDuring<D, K>(hooks: Hooks<D, K>, h: seq<Version>, meanwhile: Schedule, s: int,
                                  es: seq<Entry<KeyRef, Link>>): seq<Bytes> {
    if es == [] then []
    else
      var n := |es|;
      RowsDuring(hooks, h, meanwhile, s, es[..n - 1]) + RowsOf(hooks, HistoryAt(h, meanwhile, n), s, es[n - 1].value)
  }

  ghost predicate NoneMissingDuring(h: seq<Version>, meanwhile: Schedule, s: int, es: seq<Entry<KeyRef, Link>>) {
    forall i: nat | i < |es| :: !Missing(HistoryAt(h, meanwhile, i + 1), s, es[i].value)
  }

  /** All that is applied during the query has greater ids than its reader's. */
  ghost predicate Quiet(meanwhile: Schedule, s: int) {
    forall i, j | 0 <= i < |meanwhile| && 0 <= j < |meanwhile[i]| :: meanwhile[i][j].sequenceId > s
  }

  lemma {:induction false} QuietHistory(h: seq<Version>, meanwhile: Schedule, n: nat, s: int) returns (t: seq<Version>)
    requires Quiet(meanwhile, s)
    ensures HistoryAt(h, meanwhile, n) == h + t && forall j | 0 <= j < |t| :: t[j].sequenceId > s
  {
    hide Q.Versions;
    t := [];
    if n > 0 {
      var u := QuietHistory(h, meanwhile, n - 1, s);
      var v: seq<Version> := if n <= |meanwhile| then Q.Versions(meanwhile[n - 1]) else [];
      if n <= |meanwhile| {
        VersionsAbove(meanwhile[n - 1], s);
      }
      t := u + v;
      assert (h + u) + v == h + t;
    }
  }

  lemma VersionsAbove(ms: seq<Q.Applied>, s: int)
    requires forall j | 0 <= j < |ms| :: ms[j].sequenceId > s
    ensures forall j | 0 <= j < |Q.Versions(ms)| :: Q.Versions(ms)[j].sequenceId > s
  {
  }

  lemma QuietEntry<D, K>(hooks: Hooks<D, K>, h: seq<Version>, meanwhile: Schedule, n: nat, s: int, e: Link)
    requires Quiet(meanwhile, s)
    ensures RowsOf(hooks, HistoryAt(h, meanwhile, n), s, e) == RowsOf(hooks, h, s, e)
    ensures Missing(HistoryAt(h, meanwhile, n), s, e) <==> Missing(h, s, e)
  {
    hide HistoryAt, Lookup;
    var t := QuietHistory(h, meanwhile, n, s);
    LaterIsInvisible(h, t, e.documentId, s);
  }

  /** What is applied with greater ids while a query runs does not change what it reports. */
  lemma {:induction false} QuietRows<D, K>(hooks: Hooks<D, K>, h: seq<Version>, meanwhile: Schedule, s: int,
                                           es: seq<Entry<KeyRef, Link>>)
    requires Quiet(meanwhile, s)
    ensures RowsDuring(hooks, h, meanwhile, s, es) == Rows(hooks, h, s, es)
    ensures NoneMissingDuring(h, meanwhile, s, es) <==> NoneMissing(h, s, es)
  {
    hide RowsOf, Missing, HistoryAt;
    if es != [] {
      QuietRows(hooks, h, meanwhile, s, es[..|es| - 1]);
      QuietEntry(hooks, h, meanwhile, |es|, s, es[|es| - 1].value);
    }
    forall i: nat | i < |es|
      ensures Missing(HistoryAt(h, meanwhile, i + 1), s, es[i].value) <==> Missing(h, s, es[i].value)
    {
      QuietEntry(hooks, h, meanwhile, i + 1, s, es[i].value);
    }
  }

  function Concat(batches: seq<seq<Bytes>>): seq<Bytes> {
    if batches == [] then [] else Concat(batches[..|batches| - 1]) + batches[|batches| - 1]
  }

  const BATCH := 1000

  /** The batches of a query: full ones, and then what is left. */
  ghost predicate Batched(batches: seq<seq<Bytes>>, rows: seq<Bytes>) {
    && Concat(batches) == rows
    && (forall i | 0 <= i < |batches| - 1 :: |batches[i]| == 1000)
    && (batches != [] ==> 0 < |batches[|batches| - 1]| <= 1000)
  }

  /** Where a query starts: at the first key that is at least the from-key. */
  ghost predicate StartsAt<D, K>(hooks: Hooks<D, K>, h: seq<Version>, order: seq<nat>, from: Option<K>, start: nat)
    requires OrderOf(h, order)
  {
    && start <= |order|
    && (from.None? ==> start == 0)
    && (from.Some? ==>
          && (forall i | 0 <= i < start :: hooks.compare(KeyFor(hooks, h[order[i]]), from.value) < 0)
          && (forall i | start <= i < |order| :: hooks.compare(KeyFor(hooks, h[order[i]]), from.value) >= 0))
  }

  class JsView<D(!new), K(!new)> {
    const hooks: Hooks<D, K>
    const storageIndex: int
    var keyPointer: nat
    const keyFile: RandomAccessFile
    const orderTree: Btree<KeyRef, Link>

    /** The versions of the base storage that were applied, and how the index arranges them. */
    ghost var history: seq<Version>
    ghost var order: seq<nat>

    ghost predicate Valid()
      reads this, keyFile, orderTree
    {
      && Lawful(hooks) && orderTree.Valid() && keyFile.Valid()
      && keyPointer == Size(Keyed(hooks, history))
      && Indexed(hooks, history, order, orderTree.Contents())
      && Stored()
    }

    ghost predicate Stored()
      requires keyFile.Valid()
      reads this`history, keyFile
    {
      forall k | 0 <= k < |history| ::
        keyFile.Range(Offset(Keyed(hooks, history), k), |Keyed(hooks, history)[k].buffer|)
        == Keyed(hooks, history)[k].buffer
    }

    constructor (hooks: Hooks<D, K>, storageIndex: int, caps: Caps)
      requires Lawful(hooks) && CapsOk(caps)
      ensures Valid() && history == [] && this.hooks == hooks && this.storageIndex == storageIndex
      ensures fresh(keyFile) && fresh(orderTree)
    {
      this.hooks, this.storageIndex, keyPointer := hooks, storageIndex, 0;
      keyFile := new RandomAccessFile();
      orderTree := new Btree<KeyRef, Link>(caps);
      history, order := [], [];
      new;
      assert Keyed(hooks, []) == [];
    }

    /** `processInsert` and `processModify`: mutations of other storages are ignored. */
    method Apply(sequenceId: int, m: Mutation)
      requires Valid()
      modifies this`keyPointer, this`history, this`order, keyFile, orderTree
      ensures Valid()
      ensures history == if m.storageIndex == storageIndex then
              old(history) + [Version(m.documentId, sequenceId, m.buffer)]
                         else old(history)
      ensures orderTree.pins == old(orderTree.pins) && keyFile.pins == old(keyFile.pins)
    {
      if m.storageIndex == storageIndex {
        InsertVersion(sequenceId, m);
      }
    }

    /** The insert closure: the key goes to the key file, and a link to the version into the tree. */
    method InsertVersion(sequenceId: int, m: Mutation)
      requires Valid()
      modifies this`keyPointer, this`history, this`order, keyFile, orderTree
      ensures Valid() && history == old(history) + [Version(m.documentId, sequenceId, m.buffer)]
      ensures orderTree.pins == old(orderTree.pins) && keyFile.pins == old(keyFile.pins)
    {
      hide Indexed, Stored, Keyed, KeyFor, Lawful, Size, Btree.Valid, Btree.Contents;
      ghost var v := Version(m.documentId, sequenceId, m.buffer);
      var key := KeyFor(hooks, Version(m.documentId, sequenceId, m.buffer));
      var ser := hooks.serializeKey(key);
      var insertKey := KeyRef(keyPointer, |ser|);
      keyPointer := keyPointer + |ser|;
      NewViewEntry(hooks, history, v);
      WriteKey(insertKey.offset, ser);
      InsertLink(insertKey, Link(m.documentId, sequenceId), key, v);
      AppendHistory(v, ser);
    }

    /** Appends the key of a new version; the keys before it stay. */
    method WriteKey(pointer: nat, ser: Bytes)
      requires keyFile.Valid() && Stored() && pointer == Size(Keyed(hooks, history))
      modifies keyFile
      ensures keyFile.Valid() && Stored() && keyFile.pins == old(keyFile.pins)
      ensures keyFile.Range(pointer, |ser|) == ser
    {
      hide Keyed;
      keyFile.Write(pointer, |ser|, ser);
      ghost var ks := Keyed(hooks, history);
      forall k | 0 <= k < |history|
        ensures keyFile.Range(Offset(ks, k), |ks[k].buffer|) == ks[k].buffer
      {
        OffsetsGrow(ks, k, |ks|);
        assert ks[..|ks|] == ks;
        assert old(keyFile.Range(Offset(ks, k), |ks[k].buffer|)) == ks[k].buffer;
      }
    }

    ghost method AppendHistory(v: Version, ser: Bytes)
      requires keyFile.Valid() && Stored() && ser == hooks.serializeKey(KeyFor(hooks, v))
      requires keyFile.Range(Size(Keyed(hooks, history)), |ser|) == ser
      modifies this`history
      ensures history == old(history) + [v] && Stored()
      ensures Size(Keyed(hooks, history)) == Size(Keyed(hooks, old(history))) + |ser|
    {
      hide Keyed;
      ghost var ks, n := Keyed(hooks, history), |history|;
      ghost var ls := Keyed(hooks, history + [v]);
      KeyedAppend(hooks, history, v);
      assert ls[..n] == ks;
      forall k | 0 <= k < n + 1
        ensures keyFile.Range(Offset(ls, k), |ls[k].buffer|) == ls[k].buffer
      {
        if k < n {
          assert ls[..k] == ks[..k];
        }
      }
      history := history + [v];
    }

    /** What the comparison closures read from the key file. */
    method Snapshot() returns (keys: Bytes)
      requires keyFile.Valid() && Stored() && keyPointer >= Size(Keyed(hooks, history))
      modifies keyFile`pins, keyFile`unmarked
      ensures keyFile.Valid() && Stored() && keyFile.pins == old(keyFile.pins)
      ensures keyFile.pages == old(keyFile.pages)
      ensures KeysStored(hooks, history, keys)
    {
      var buffer := new byte[keyPointer];
      keyFile.Read(0, keyPointer, buffer);
      keys := buffer[..];
      SnapshotStored(keys);
    }

    lemma SnapshotStored(keys: Bytes)
      requires keyFile.Valid() && Stored() && Size(Keyed(hooks, history)) <= |keys| && keys == keyFile.Range(0, |keys|)
      ensures KeysStored(hooks, history, keys)
    {
      hide Keyed;
      ghost var ks := Keyed(hooks, history);
      forall k: nat | k < |history| ensures Slice(keys, ViewEntry(hooks, history, k).key) == ks[k].buffer {
        OffsetsGrow(ks, k, |ks|);
        assert ks[..|ks|] == ks;
        SliceOfRange(keys, ViewEntry(hooks, history, k).key);
      }
    }

    lemma SliceOfRange(keys: Bytes, r: KeyRef)
      requires keyFile.Valid() && keys == keyFile.Range(0, |keys|) && r.offset + r.length <= |keys|
      ensures Slice(keys, r) == keyFile.Range(r.offset, r.length)
    {
    }

    /** Adds the index entry of the next version. */
    method InsertLink(insertKey: KeyRef, link: Link, key: K, ghost v: Version)
      requires Lawful(hooks) && orderTree.Valid() && Indexed(hooks, history, order, orderTree.Contents())
      requires keyFile.Valid() && Stored() && keyPointer >= Size(Keyed(hooks, history)) && key == KeyFor(hooks, v)
      requires Entry(insertKey, link) == ViewEntry(hooks, history + [v], |history|)
      modifies this`order, orderTree, keyFile`pins, keyFile`unmarked
      ensures orderTree.Valid() && Indexed(hooks, history + [v], order, orderTree.Contents())
      ensures orderTree.pins == old(orderTree.pins)
      ensures keyFile.Valid() && Stored() && keyFile.pins == old(keyFile.pins) && keyFile.pages == old(keyFile.pages)
    {
      hide Indexed, Stored, KeyFor, ViewEntry, KeysStored, Inserted, Keyed;
      var keys := Snapshot();
      IsCut(hooks, history, order, orderTree.Contents(), keys, key);
      orderTree.Insert(insertKey, link, Comparator(hooks, keys, key));
      order := IndexedInsert(hooks, history, order, old(orderTree.Contents()), v, keys);
    }

    // Queries ------------------------------------------------------------------

    /** The first entry of a query. */
    method FindBegin(from: Option<K>) returns (ref: Ref, ghost start: nat)
      requires Valid()
      modifies orderTree`pins, keyFile`pins, keyFile`unmarked
      ensures Valid() && StartsAt(hooks, history, order, from, start) && start <= |orderTree.Contents()|
      ensures if start < |orderTree.Contents()| then ref != NO_REF && orderTree.At(ref, start) else ref == NO_REF
      ensures keyFile.pins == old(keyFile.pins) && (from.None? ==> orderTree.pins == old(orderTree.pins))
    {
      start := 0;
      if from.Some? {
        ref, start := FindFrom(from.value);
      } else {
        hide Indexed, Stored;
        ref := orderTree.FindFirst();
        if ref != NO_REF {
          PosInside(Leaves(orderTree.tree), ref, 0);
        }
        SameLength(hooks, history, order, orderTree.Contents());
      }
    }

    /** `findNext` with the comparison against the from-key. */
    method FindFrom(key: K) returns (ref: Ref, ghost start: nat)
      requires Valid()
      modifies orderTree`pins, keyFile`pins, keyFile`unmarked
      ensures Valid() && StartsAt(hooks, history, order, Some(key), start)
      ensures if start < |orderTree.Contents()| then ref != NO_REF && orderTree.At(ref, start) else ref == NO_REF
      ensures keyFile.pins == old(keyFile.pins)
    {
      hide Indexed, Stored, KeyFor, ViewEntry, KeysStored, Keyed, StartsAt, IsFirstGe, AllLt, PosAt;
      var keys := Snapshot();
      ghost var s := orderTree.Contents();
      ghost var pos;
      IsCut(hooks, history, order, s, keys, key);
      ref, pos := orderTree.FindNext(Comparator(hooks, keys, key));
      start := if ref == NO_REF then |s| else FirstOf(s, pos, Comparator(hooks, keys, key));
      FromStarts(hooks, history, order, s, keys, key, start);
    }
  }

  /** A query at `s`: its iterator, the rows collected, and the batches handed out; and what the
      storage does meanwhile. */
  class QueryClosure<D(!new), K(!new)> {
    const view: JsView<D, K>
    const storage: FlexStorage
    const s: int
    const iterate: Iterator<KeyRef, Link>
    var items: seq<Bytes>
    var batches: seq<seq<Bytes>>

    /** How often the storage was asked, and what it does before each time. */
    const meanwhile: Schedule
    var round: nat

    /** The storage's versions at the start, the first entry of the query, the current one, and the
        pages that others hold. */
    ghost var first: seq<Version>
    ghost var start: nat
    ghost var pos: nat
    ghost var rest: multiset<int>

    ghost predicate Valid()
      reads this, view, view.keyFile, view.orderTree, iterate, storage, storage.indexTree, storage.dataFile
    {
      && Ready()
      && round == pos - start && storage.history == HistoryAt(first, meanwhile, round)
      && Progress(view.hooks, first, meanwhile, s, view.orderTree.Contents(), start, pos, batches, items)
    }

    /** View, storage and iterator are in order, whatever was collected. */
    ghost predicate Ready()
      reads this`start, this`pos, this`rest, view, view.keyFile, view.orderTree, iterate
      reads storage, storage.indexTree, storage.dataFile
    {
      && view.Valid() && storage.Valid() && storage.dataFile != view.keyFile
      && iterate.tree == view.orderTree && view.orderTree.pins == rest + iterate.Held()
      && OnEntry()
    }

    ghost predicate OnEntry()
      reads this`start, this`pos, view.orderTree, iterate, iterate.tree
    {
      && start <= pos <= |view.orderTree.Contents()|
      && (if pos < |view.orderTree.Contents()| then iterate.On(pos) && !iterate.AtEnd() else iterate.AtEnd())
    }

    constructor (view: JsView<D, K>, storage: FlexStorage, s: int, meanwhile: Schedule)
      requires view.Valid() && storage.Valid()
      ensures this.view == view && this.storage == storage && this.s == s && this.meanwhile == meanwhile
      ensures items == [] && batches == [] && round == 0 && first == storage.history
      ensures iterate.tree == view.orderTree && iterate.Held() == multiset{} && fresh(iterate)
    {
      this.view, this.storage, this.s, this.meanwhile := view, storage, s, meanwhile;
      iterate := new Iterator(view.orderTree);
      items, batches, round, first := [], [], 0, storage.history;
    }

    /** The first entry: `findNext` for a from-key, else `findFirst`. */
    method Process(from: Option<K>)
      requires view.Valid() && storage.Valid() && storage.dataFile != view.keyFile
      requires iterate.tree == view.orderTree && iterate.Held() == multiset{} && items == [] && batches == []
      requires round == 0 && first == storage.history
      modifies this`start, this`pos, this`rest, iterate
      modifies view.orderTree`pins, view.keyFile`pins, view.keyFile`unmarked
      ensures Valid() && StartsAt(view.hooks, view.history, view.order, from, start)
      ensures view.keyFile.pins == old(view.keyFile.pins) && (from.None? ==> rest == old(view.orderTree.pins))
    {
      hide StartsAt, Progress, Ready, HistoryAt, JsView.Valid, FlexStorage.Valid, Btree.Valid, Btree.Contents, Btree.At;
      var ref;
      ref, start := view.FindBegin(from);
      pos, rest := start, view.orderTree.pins;
      SeekFirst(ref);
      NotAsked(first, meanwhile);
      ProgressFirst(view.hooks, first, meanwhile, s, view.orderTree.Contents(), start);
    }

    /** `seek` to where the query starts. */
    method SeekFirst(ref: Ref)
      requires view.Valid() && storage.Valid() && storage.dataFile != view.keyFile
      requires iterate.tree == view.orderTree && iterate.Held() == multiset{} && view.orderTree.pins == rest
      requires start == pos <= |view.orderTree.Contents()|
      requires if start < |view.orderTree.Contents()| then ref != NO_REF && view.orderTree.At(ref, start)
               else ref == NO_REF
      modifies iterate, view.orderTree`pins
      ensures Ready() && view.orderTree.Contents() == old(view.orderTree.Contents())
    {
      hide Indexed, PosAt, Keyed, Holds, JsView.Stored, FlexStorage.Valid;
      iterate.Seek(ref, start, rest);
    }

    /** `fetchItem` with its callbacks: what an entry adds to the rows. */
    method Fetch(link: Link) returns (found: bool, rows: seq<Bytes>)
      requires Ready()
      modifies storage.indexTree`pins, storage.dataFile`pins, storage.dataFile`unmarked
      ensures Ready() && view.orderTree.Contents() == old(view.orderTree.Contents())
      ensures storage.indexTree.pins == old(storage.indexTree.pins)
              && storage.dataFile.pins == old(storage.dataFile.pins)
      ensures found <==> !Missing(storage.history, s, link)
      ensures rows == RowsOf(view.hooks, storage.history, s, link) && |rows| <= 1
    {
      hide JsView.Valid, OnEntry, FlexStorage.Valid, Lookup;
      found, rows := true, [];
      if link.documentId == 0 {
        return;
      }
      var result := storage.Fetch(link.documentId, s);
      match result {
        case NotFound => found := false;
        case Found(sequenceId, buffer) =>
          if sequenceId == link.sequenceId {
            rows := [view.hooks.report(view.hooks.extractDoc(link.documentId, buffer))];
          }
      }
    }

    /** The rows of an entry are collected; a full batch is handed out. */
    method Collect(rows: seq<Bytes>)
      requires |items| < BATCH && |rows| <= 1
      modifies this`items, this`batches
      ensures Concat(batches) + items == Concat(old(batches)) + old(items) + rows && |items| < BATCH
      ensures Flushed(old(batches)) ==> Flushed(batches)
    {
      ConcatMore(batches, items, rows);
      items := items + rows;
      if |items| >= BATCH {
        batches, items := batches + [items], [];
      }
    }

    /** `forward`. */
    method Advance()
      requires Ready() && pos < |view.orderTree.Contents()|
      modifies this`pos, iterate, view.orderTree`pins
      ensures Ready() && view.orderTree.Contents() == old(view.orderTree.Contents()) && pos == old(pos) + 1
    {
      hide Indexed, Arranged, PosAt, Holds, JsView.Stored, FlexStorage.Valid;
      iterate.Forward(pos, rest);
      pos := pos + 1;
    }

    method Current() returns (link: Link)
      requires Ready() && pos < |view.orderTree.Contents()|
      ensures link == view.orderTree.Contents()[pos].value
    {
      hide Indexed, Arranged, PosAt, Holds, JsView.Stored, FlexStorage.Valid;
      var e := iterate.GetEntry(pos);
      link := e.value;
    }

    /** What the storage's driver does before the storage is asked the next time. */
    method Elapse()
      requires Ready() && storage.history == HistoryAt(first, meanwhile, round)
      modifies this`round, storage`dataPointer, storage`history, storage`order, storage.indexTree, storage.dataFile
      ensures Ready() && view.orderTree.Contents() == old(view.orderTree.Contents())
      ensures round == old(round) + 1 && storage.history == HistoryAt(first, meanwhile, round)
      ensures storage.indexTree.pins == old(storage.indexTree.pins)
              && storage.dataFile.pins == old(storage.dataFile.pins)
    {
      hide FlexStorage.Valid, JsView.Valid, OnEntry, Q.Versions, HistoryAt, Btree.Contents;
      HistoryNext(first, meanwhile, round);
      if round < |meanwhile| {
        ApplyAll(meanwhile[round]);
      } else {
        assert storage.history + [] == storage.history;
      }
      round := round + 1;
    }

    method ApplyAll(ms: seq<Q.Applied>)
      requires Ready()
      modifies storage`dataPointer, storage`history, storage`order, storage.indexTree, storage.dataFile
      ensures Ready() && view.orderTree.Contents() == old(view.orderTree.Contents())
      ensures storage.history == old(storage.history) + Q.Versions(ms)
      ensures storage.indexTree.pins == old(storage.indexTree.pins)
              && storage.dataFile.pins == old(storage.dataFile.pins)
    {
      hide FlexStorage.Valid, JsView.Valid, OnEntry, Q.Versions, Btree.Contents;
      ghost var h := storage.history;
      VersionsOfNothing();
      assert ms[..0] == [] && h + [] == h;
      for i := 0 to |ms|
        invariant Ready() && view.orderTree.Contents() == old(view.orderTree.Contents())
        invariant storage.history == h + Q.Versions(ms[..i])
        invariant storage.indexTree.pins == old(storage.indexTree.pins)
                  && storage.dataFile.pins == old(storage.dataFile.pins)
      {
        VersionsNext(h, ms, i);
        storage.Apply(ms[i].sequenceId, ms[i].mutation);
      }
      assert ms[..|ms|] == ms;
    }

    /** The current entry, and on to the next one. */
    method Next() returns (found: bool)
      requires Valid() && pos < |view.orderTree.Contents()|
      modifies this`items, this`batches, this`pos, this`round, iterate, view.orderTree`pins
      modifies storage`dataPointer, storage`history, storage`order, storage.indexTree, storage.dataFile
      ensures storage.indexTree.pins == old(storage.indexTree.pins)
              && storage.dataFile.pins == old(storage.dataFile.pins)
      ensures found ==> Valid() && pos == old(pos) + 1
      ensures !found ==> Ready() && pos == old(pos)
      ensures view.orderTree.Contents() == old(view.orderTree.Contents()) && start <= old(pos)
      ensures found <==> !Missing(HistoryAt(first, meanwhile, old(pos) - start + 1), s,
                                  view.orderTree.Contents()[old(pos)].value)
    {
      hide Ready, Progress, Missing, RowsOf, Flushed, Concat, HistoryAt, Btree.Contents;
      ghost var c, pos0, batches0, items0 := view.orderTree.Contents(), pos, batches, items;
      ProgressBound(view.hooks, first, meanwhile, s, c, start, pos, batches, items);
      Elapse();
      var link := Current();
      var rows;
      found, rows := Fetch(link);
      if found {
        Collect(rows);
        Advance();
        ProgressStep(view.hooks, first, meanwhile, s, c, start, pos0, batches0, items0, batches, items);
      }
    }

    /** All entries, up to the end or to the first that is missing. */
    method FetchLoop() returns (ok: bool)
      requires Valid()
      modifies this`items, this`batches, this`pos, this`round, iterate, view.orderTree`pins
      modifies storage`dataPointer, storage`history, storage`order, storage.indexTree, storage.dataFile
      ensures storage.indexTree.pins == old(storage.indexTree.pins)
              && storage.dataFile.pins == old(storage.dataFile.pins)
      ensures view.Valid() && storage.Valid() && view.orderTree.Contents() == old(view.orderTree.Contents())
      ensures start <= |view.orderTree.Contents()|
      ensures ok ==> storage.history == HistoryAt(first, meanwhile, |view.orderTree.Contents()| - start)
      ensures ok ==> Valid() && pos == |view.orderTree.Contents()|
      ensures ok <==> NoneMissingDuring(first, meanwhile, s, view.orderTree.Contents()[start..])
    {
      hide Progress, Missing, NoneMissingDuring, HistoryAt, JsView.Valid, FlexStorage.Valid, Btree.Valid,
           Btree.Contents, Btree.At, Iterator.On;
      ghost var c := view.orderTree.Contents();
      ok := true;
      while ok && !iterate.AtEnd()
        invariant ok ==> Valid()
        invariant Ready() && view.orderTree.Contents() == c
        invariant !ok ==> pos < |c| && Missing(HistoryAt(first, meanwhile, pos - start + 1), s, c[pos].value)
        invariant storage.indexTree.pins == old(storage.indexTree.pins)
                  && storage.dataFile.pins == old(storage.dataFile.pins)
        decreases ok, |c| - pos
      {
        ok := Next();
      }
      if ok {
        NoneLeft(view.hooks, first, meanwhile, s, c, start, batches, items);
      } else {
        SomeMissing(first, meanwhile, s, c, start, pos);
      }
    }

    /** The end of the query. */
    method Complete()
      requires Valid() && pos == |view.orderTree.Contents()|
      modifies this`items, this`batches, view.orderTree`pins
      ensures view.Valid() && storage.Valid() && view.orderTree.pins == rest
      ensures Batched(batches, RowsDuring(view.hooks, first, meanwhile, s, view.orderTree.Contents()[start..]))
    {
      hide Indexed, Keyed, Arranged, Holds, RowsDuring, HistoryAt, Progress, Batched, OnEntry, FlexStorage.Valid,
           JsView.Stored;
      LastBatch(view.hooks, first, meanwhile, s, view.orderTree.Contents(), start, batches, items);
      if |items| > 0 {
        batches := batches + [items];
      }
      iterate.Close(rest);
    }
  }

  lemma NotAsked(h: seq<Version>, meanwhile: Schedule)
    ensures HistoryAt(h, meanwhile, 0) == h
  {
  }

  lemma HistoryNext(h: seq<Version>, meanwhile: Schedule, n: nat)
    ensures HistoryAt(h, meanwhile, n + 1) ==
            HistoryAt(h, meanwhile, n) + (if n < |meanwhile| then Q.Versions(meanwhile[n]) else [])
  {
  }

  lemma VersionsOfNothing()
    ensures Q.Versions([]) == []
  {
  }

  lemma VersionsNext(h: seq<Version>, ms: seq<Q.Applied>, i: nat)
    requires i < |ms|
    ensures h + Q.Versions(ms[..i + 1]) == h + Q.Versions(ms[..i]) + [Q.VersionOf(ms[i])]
  {
    assert Q.Versions(ms[..i + 1]) == Q.Versions(ms[..i]) + [Q.VersionOf(ms[i])];
  }

  /** What a query has done when it comes to entry `pos`. */
  ghost predicate Progress<D, K>(hooks: Hooks<D, K>, h: seq<Version>, meanwhile: Schedule, s: int,
                                 c: seq<Entry<KeyRef, Link>>,
                                 start: nat, pos: nat, batches: seq<seq<Bytes>>, items: seq<Bytes>) {
    && start <= pos <= |c| && Flushed(batches) && |items| < BATCH
    && Concat(batches) + items == RowsDuring(hooks, h, meanwhile, s, c[start..pos])
    && NoneMissingDuring(h, meanwhile, s, c[start..pos])
  }

  lemma ProgressFirst<D, K>(hooks: Hooks<D, K>, h: seq<Version>, meanwhile: Schedule, s: int,
                            c: seq<Entry<KeyRef, Link>>,
                            start: nat)
    requires start <= |c|
    ensures Progress(hooks, h, meanwhile, s, c, start, start, [], [])
  {
    assert c[start..start] == [];
  }

  lemma ProgressBound<D, K>(hooks: Hooks<D, K>, h: seq<Version>, meanwhile: Schedule, s: int,
                            c: seq<Entry<KeyRef, Link>>,
                            start: nat, pos: nat, batches: seq<seq<Bytes>>, items: seq<Bytes>)
    requires Progress(hooks, h, meanwhile, s, c, start, pos, batches, items)
    ensures |items| < BATCH && Flushed(batches)
  {
  }

  lemma ProgressStep<D, K>(hooks: Hooks<D, K>, h: seq<Version>, meanwhile: Schedule, s: int,
                           c: seq<Entry<KeyRef, Link>>,
                           start: nat, pos: nat, batches: seq<seq<Bytes>>, items: seq<Bytes>,
                           batches': seq<seq<Bytes>>, items': seq<Bytes>)
    requires Progress(hooks, h, meanwhile, s, c, start, pos, batches, items) && pos < |c|
    requires !Missing(HistoryAt(h, meanwhile, pos - start + 1), s, c[pos].value)
    requires Concat(batches') + items' ==
             Concat(batches) + items + RowsOf(hooks, HistoryAt(h, meanwhile, pos - start + 1), s, c[pos].value)
    requires |items'| < BATCH && Flushed(batches')
    ensures Progress(hooks, h, meanwhile, s, c, start, pos + 1, batches', items')
  {
    hide RowsDuring, RowsOf, Missing, Flushed, HistoryAt;
    RowsStep(hooks, h, meanwhile, s, c, start, pos);
  }

  lemma LastBatch<D, K>(hooks: Hooks<D, K>, h: seq<Version>, meanwhile: Schedule, s: int, c: seq<Entry<KeyRef, Link>>,
                        start: nat, batches: seq<seq<Bytes>>, items: seq<Bytes>)
    requires Progress(hooks, h, meanwhile, s, c, start, |c|, batches, items)
    ensures start <= |c|
    ensures Batched(if |items| > 0 then batches + [items] else batches, RowsDuring(hooks, h, meanwhile, s, c[start..]))
  {
    hide RowsDuring, NoneMissingDuring;
    assert c[start..|c|] == c[start..];
    ConcatMore(batches, items, []);
    assert items + [] == items;
  }

  /** A query at `s` from a key on, while the storage goes on: it ends at the first entry whose
      document the storage does not have when it is asked for it, and otherwise hands out the rows of
      all entries from its start on, each as the storage answers it then, in batches. */
  method QueryFrom<D(!new), K(!new)>(view: JsView<D, K>, storage: FlexStorage, from: Option<K>, s: int,
                                     meanwhile: Schedule)
    returns (batches: seq<seq<Bytes>>, ok: bool, ghost start: nat)
    requires view.Valid() && storage.Valid() && storage.dataFile != view.keyFile
    modifies view.orderTree`pins, view.keyFile`pins, view.keyFile`unmarked
    modifies storage`dataPointer, storage`history, storage`order, storage.indexTree, storage.dataFile
    ensures view.Valid() && storage.Valid() && view.orderTree.Contents() == old(view.orderTree.Contents())
    ensures StartsAt(view.hooks, view.history, view.order, from, start) && start <= |view.orderTree.Contents()|
    ensures ok <==> NoneMissingDuring(old(storage.history), meanwhile, s, view.orderTree.Contents()[start..])
    ensures ok ==> Batched(batches, RowsDuring(view.hooks, old(storage.history), meanwhile, s,
                                               view.orderTree.Contents()[start..]))
    ensures ok ==> storage.history == HistoryAt(old(storage.history), meanwhile, |view.orderTree.Contents()| - start)
    ensures ok && from.None? ==> view.orderTree.pins == old(view.orderTree.pins)
    ensures view.keyFile.pins == old(view.keyFile.pins)
    ensures storage.indexTree.pins == old(storage.indexTree.pins) && storage.dataFile.pins == old(storage.dataFile.pins)
  {
    hide StartsAt, Batched, NoneMissingDuring, HistoryAt, JsView.Valid, FlexStorage.Valid, Btree.Valid, Btree.Contents,
         RowsDuring, QueryClosure.Valid, Iterator.Held;
    var q := new QueryClosure(view, storage, s, meanwhile);
    q.Process(from);
    start := q.start;
    ok := q.FetchLoop();
    if ok {
      q.Complete();
    }
    batches := q.batches;
  }

  /** A query as it is requested. It starts at the first entry whose key is at least the one that the
      request's from-key means, or at the first of all. */
  method Query<D(!new), K(!new)>(view: JsView<D, K>, storage: FlexStorage, fromKey: Option<Bytes>, s: int,
                                 meanwhile: Schedule)
    returns (batches: seq<seq<Bytes>>, ok: bool, ghost start: nat)
    requires view.Valid() && storage.Valid() && storage.dataFile != view.keyFile
    modifies view.orderTree`pins, view.keyFile`pins, view.keyFile`unmarked
    modifies storage`dataPointer, storage`history, storage`order, storage.indexTree, storage.dataFile
    ensures view.Valid() && storage.Valid() && view.orderTree.Contents() == old(view.orderTree.Contents())
    ensures OrderOf(view.history, view.order) && start <= |view.order| == |view.orderTree.Contents()|
    ensures fromKey.None? ==> start == 0
    ensures fromKey.Some? ==>
              forall i | 0 <= i < |view.order| ::
                var v := view.history[view.order[i]];
                i < start <==> view.hooks.compare(view.hooks.keyOf(view.hooks.extractDoc(v.documentId, v.buffer)),
                                                  view.hooks.extractKey(fromKey.value)) < 0
    ensures ok <==> NoneMissingDuring(old(storage.history), meanwhile, s, view.orderTree.Contents()[start..])
    ensures ok ==> Batched(batches, RowsDuring(view.hooks, old(storage.history), meanwhile, s,
                                               view.orderTree.Contents()[start..]))
    ensures ok ==> storage.history == HistoryAt(old(storage.history), meanwhile, |view.orderTree.Contents()| - start)
    ensures ok && fromKey.None? ==> view.orderTree.pins == old(view.orderTree.pins)
    ensures view.keyFile.pins == old(view.keyFile.pins)
    ensures storage.indexTree.pins == old(storage.indexTree.pins) && storage.dataFile.pins == old(storage.dataFile.pins)
  {
    hide StartsAt, Batched, NoneMissingDuring, HistoryAt, JsView.Valid, FlexStorage.Valid, Btree.Valid, Btree.Contents,
         RowsDuring;
    var from := if fromKey.Some? then Some(view.hooks.extractKey(fromKey.value)) else None;
    batches, ok, start := QueryFrom(view, storage, from, s, meanwhile);
    OrderKnown(view);
    StartMeans(view.hooks, view.history, view.order, fromKey, from, start);
  }

  lemma SomeMissing(h: seq<Version>, meanwhile: Schedule, s: int, c: seq<Entry<KeyRef, Link>>, start: nat, pos: nat)
    requires start <= pos < |c| && Missing(HistoryAt(h, meanwhile, pos - start + 1), s, c[pos].value)
    ensures !NoneMissingDuring(h, meanwhile, s, c[start..])
  {
    hide HistoryAt, Missing;
    assert c[start..][pos - start] == c[pos];
  }

  lemma NoneLeft<D, K>(hooks: Hooks<D, K>, h: seq<Version>, meanwhile: Schedule, s: int, c: seq<Entry<KeyRef, Link>>,
                       start: nat,
                       batches: seq<seq<Bytes>>, items: seq<Bytes>)
    requires Progress(hooks, h, meanwhile, s, c, start, |c|, batches, items)
    ensures NoneMissingDuring(h, meanwhile, s, c[start..])
  {
    assert c[start..|c|] == c[start..];
  }

  /** The start of a query, in terms of its request. */
  lemma StartMeans<D, K>(hooks: Hooks<D, K>, h: seq<Version>, order: seq<nat>, fromKey: Option<Bytes>,
                         from: Option<K>, start: nat)
    requires OrderOf(h, order)
    requires from == if fromKey.Some? then Some(hooks.extractKey(fromKey.value)) else None
    ensures StartsAt(hooks, h, order, from, start) <==>
              && start <= |order| && (fromKey.None? ==> start == 0)
              && (fromKey.Some? ==>
                    forall i | 0 <= i < |order| ::
                      var v := h[order[i]];
                      i < start <==> hooks.compare(hooks.keyOf(hooks.extractDoc(v.documentId, v.buffer)),
                                                   hooks.extractKey(fromKey.value)) < 0)
  {
  }

  lemma OrderKnown<D(!new), K(!new)>(view: JsView<D, K>)
    requires view.Valid()
    ensures OrderOf(view.history, view.order) && |view.order| == |view.orderTree.Contents()|
  {
    hide Btree.Contents;
  }

  ghost predicate NoneMissing(h: seq<Version>, s: int, es: seq<Entry<KeyRef, Link>>) {
    forall i | 0 <= i < |es| :: !Missing(h, s, es[i].value)
  }

  ghost predicate Flushed(batches: seq<seq<Bytes>>) {
    forall i | 0 <= i < |batches| :: |batches[i]| == BATCH
  }

  lemma RowsStep<D, K>(hooks: Hooks<D, K>, h: seq<Version>, meanwhile: Schedule, s: int, c: seq<Entry<KeyRef, Link>>,
                       start: nat, pos: nat)
    requires start <= pos < |c|
    ensures RowsDuring(hooks, h, meanwhile, s, c[start..pos + 1]) ==
            RowsDuring(hooks, h, meanwhile, s, c[start..pos])
            + RowsOf(hooks, HistoryAt(h, meanwhile, pos - start + 1), s, c[pos].value)
    ensures NoneMissingDuring(h, meanwhile, s, c[start..pos])
            && !Missing(HistoryAt(h, meanwhile, pos - start + 1), s, c[pos].value) ==>
              NoneMissingDuring(h, meanwhile, s, c[start..pos + 1])
  {
    hide RowsOf, Missing, HistoryAt;
    var es := c[start..pos + 1];
    assert es == c[start..pos] + [c[pos]] && es[..pos - start] == c[start..pos] && es[pos - start] == c[pos];
  }

  lemma ConcatMore(batches: seq<seq<Bytes>>, items: seq<Bytes>, rows: seq<Bytes>)
    ensures Concat(batches) + (items + rows) == Concat(batches) + items + rows
    ensures Concat(batches + [items + rows]) == Concat(batches) + items + rows
  {
    assert (batches + [items + rows])[..|batches|] == batches;
  }

  lemma NewViewEntry<D, K>(hooks: Hooks<D, K>, h: seq<Version>, v: Version)
    ensures ViewEntry(hooks, h + [v], |h|)
            == Entry(KeyRef(Size(Keyed(hooks, h)), |hooks.serializeKey(KeyFor(hooks, v))|),
                     Link(v.documentId, v.sequenceId))
  {
    KeyedAppend(hooks, h, v);
    assert Keyed(hooks, h + [v])[..|h|] == Keyed(hooks, h);
  }

  lemma SameLength<D, K>(hooks: Hooks<D, K>, h: seq<Version>, order: seq<nat>, s: seq<Entry<KeyRef, Link>>)
    requires Indexed(hooks, h, order, s)
    ensures |s| == |order| && OrderOf(h, order)
  {
  }

  /** The position of a first entry, as a natural number. */
  ghost function FirstOf(s: seq<Entry<KeyRef, Link>>, pos: int, cmp: KeyRef -> int): (n: nat)
    requires IsFirstGe(s, pos, cmp)
    ensures n == pos && n < |s|
  {
    pos
  }

  lemma FromStarts<D(!new), K(!new)>(hooks: Hooks<D, K>, h: seq<Version>, order: seq<nat>, s: seq<Entry<KeyRef, Link>>,
                                     keys: Bytes, key: K, start: nat)
    requires Lawful(hooks) && KeysStored(hooks, h, keys) && Indexed(hooks, h, order, s)
    requires if start == |s| then AllLt(s, Comparator(hooks, keys, key))
             else IsFirstGe(s, start, Comparator(hooks, keys, key))
    ensures StartsAt(hooks, h, order, Some(key), start)
  {
    hide KeysStored, ViewEntry, KeyFor, Comparator, InKeyOrder;
    var cmp := Comparator(hooks, keys, key);
    IsCut(hooks, h, order, s, keys, key);
    forall i | 0 <= i < |s| ensures cmp(s[i].key) == hooks.compare(KeyFor(hooks, h[order[i]]), key) {
      ComparesKeys(hooks, h, keys, key, order[i]);
    }
  }
}
