/** What a view query means: which rows it reports, for any state of the document storage, and
    what this is when storage and view have been given the same commits. */
module ViewQueries {
  import opened BtreeShape
  import opened DbTypes
  import opened QueuedDrivers
  import opened StorageMasks
  import opened FlexStorages
  import opened JsViews

  /** The storage, with history `h`, answers a fetch of version `k`'s document with a version of
      the same sequence id. Document 0 is never fetched. */
  ghost predicate Shown(h: seq<Version>, g: seq<Version>, s: int, k: nat) {
    && k < |g| && g[k].documentId != 0
    && var r := Lookup(h, g[k].documentId, s);
       r.Found? && r.sequenceId == g[k].sequenceId
  }

  /** The shown versions among those listed, in the order of the list. */
  ghost function ShownAmong(h: seq<Version>, g: seq<Version>, s: int, order: seq<nat>): seq<nat> {
    if order == [] then []
    else
      var n := |order| - 1;
      ShownAmong(h, g, s, order[..n]) + (if Shown(h, g, s, order[n]) then [order[n]] else [])
  }

  /** The row of a shown version is built from what the storage answers. */
  ghost function RowAt<D, K>(hooks: Hooks<D, K>, h: seq<Version>, g: seq<Version>, s: int, k: nat): Bytes
    requires Shown(h, g, s, k)
  {
    hooks.report(hooks.extractDoc(g[k].documentId, Lookup(h, g[k].documentId, s).buffer))
  }

  ghost function Reports<D, K>(hooks: Hooks<D, K>, h: seq<Version>, g: seq<Version>, s: int, ks: seq<nat>): seq<Bytes>
    requires forall i | 0 <= i < |ks| :: Shown(h, g, s, ks[i])
  {
    seq(|ks|, i requires 0 <= i < |ks| => RowAt(hooks, h, g, s, ks[i]))
  }

  lemma {:induction false} ShownAmongAre(h: seq<Version>, g: seq<Version>, s: int, order: seq<nat>)
    ensures forall k: nat :: k in ShownAmong(h, g, s, order) <==> k in order && Shown(h, g, s, k)
    ensures forall i | 0 <= i < |ShownAmong(h, g, s, order)| :: Shown(h, g, s, ShownAmong(h, g, s, order)[i])
  {
    if order != [] {
      var n := |order| - 1;
      ShownAmongAre(h, g, s, order[..n]);
      assert order == order[..n] + [order[n]];
    }
  }

  lemma {:induction false} ShownInOrder<D, K>(hooks: Hooks<D, K>, h: seq<Version>, g: seq<Version>, s: int,
                                              order: seq<nat>)
    requires forall i | 0 <= i < |order| :: order[i] < |g|
    requires forall i, j | 0 <= i < j < |order| :: Before(hooks, g, order[i], order[j])
    ensures forall i | 0 <= i < |ShownAmong(h, g, s, order)| :: ShownAmong(h, g, s, order)[i] < |g|
    ensures forall i, j | 0 <= i < j < |ShownAmong(h, g, s, order)| ::
              Before(hooks, g, ShownAmong(h, g, s, order)[i], ShownAmong(h, g, s, order)[j])
  {
    hide Before, Shown;
    var w := ShownAmong(h, g, s, order);
    ShownAmongAre(h, g, s, order);
    forall i | 0 <= i < |w| ensures w[i] < |g| {
      assert w[i] in w;
    }
    if order != [] {
      var n := |order| - 1;
      ShownInOrder(hooks, h, g, s, order[..n]);
      ShownAmongAre(h, g, s, order[..n]);
      var v := ShownAmong(h, g, s, order[..n]);
      assert w == v + (if Shown(h, g, s, order[n]) then [order[n]] else []);
      forall i, j | 0 <= i < j < |w| ensures Before(hooks, g, w[i], w[j]) {
        if j == |v| {
          assert w[i] == v[i] && v[i] in v && v[i] in order[..n];
        } else {
          assert Before(hooks, g, v[i], v[j]);
        }
      }
    }
  }

  /** An entry has a row exactly when the version it stands for is shown. */
  lemma RowOfShown<D, K>(hooks: Hooks<D, K>, h: seq<Version>, g: seq<Version>, s: int, k: nat)
    requires k < |g|
    ensures RowsOf(hooks, h, s, Link(g[k].documentId, g[k].sequenceId))
            == if Shown(h, g, s, k) then [RowAt(hooks, h, g, s, k)] else []
  {
    hide Lookup;
  }

  lemma ReportsAppend<D, K>(hooks: Hooks<D, K>, h: seq<Version>, g: seq<Version>, s: int, ks: seq<nat>, k: nat)
    requires Shown(h, g, s, k) && forall i | 0 <= i < |ks| :: Shown(h, g, s, ks[i])
    ensures forall i | 0 <= i < |ks + [k]| :: Shown(h, g, s, (ks + [k])[i])
    ensures Reports(hooks, h, g, s, ks + [k]) == Reports(hooks, h, g, s, ks) + [RowAt(hooks, h, g, s, k)]
  {
    hide Shown, RowAt;
  }

  lemma {:induction false} RowsAreReports<D, K>(hooks: Hooks<D, K>, h: seq<Version>, g: seq<Version>, s: int,
                                                order: seq<nat>,
                                                c: seq<Entry<KeyRef, Link>>)
    requires |c| == |order|
    requires forall i | 0 <= i < |order| ::
             order[i] < |g| && c[i].value == Link(g[order[i]].documentId, g[order[i]].sequenceId)
    ensures forall i | 0 <= i < |ShownAmong(h, g, s, order)| :: Shown(h, g, s, ShownAmong(h, g, s, order)[i])
    ensures Rows(hooks, h, s, c) == Reports(hooks, h, g, s, ShownAmong(h, g, s, order))
  {
    hide RowsOf, Shown, RowAt;
    ShownAmongAre(h, g, s, order);
    if order == [] {
      assert ShownAmong(h, g, s, order) == [] && c == [];
    } else {
      var n := |order| - 1;
      RowsAreReports(hooks, h, g, s, order[..n], c[..n]);
      RowOfShown(hooks, h, g, s, order[n]);
      if Shown(h, g, s, order[n]) {
        ReportsAppend(hooks, h, g, s, ShownAmong(h, g, s, order[..n]), order[n]);
      }
    }
  }

  /** The key of version `v` is at least the one that the request's from-key means. */
  ghost predicate InRequest<D, K>(hooks: Hooks<D, K>, v: Version, fromKey: Option<Bytes>) {
    fromKey.Some? ==>
      hooks.compare(hooks.keyOf(hooks.extractDoc(v.documentId, v.buffer)), hooks.extractKey(fromKey.value)) >= 0
  }

  /** Version `a` has the smaller key, or the same and is not version `b`. */
  ghost predicate KeyBefore<D, K>(hooks: Hooks<D, K>, a: Version, b: Version, earlier: bool) {
    var c := hooks.compare(hooks.keyOf(hooks.extractDoc(a.documentId, a.buffer)),
                           hooks.keyOf(hooks.extractDoc(b.documentId, b.buffer)));
    c <= 0 && (c >= 0 ==> earlier)
  }

  /** `w` lists the shown versions whose key is at least the from-key, by key and then in the order of
      application; if no transaction touches a document twice, each document is listed at most once. */
  ghost predicate Answers<D, K>(hooks: Hooks<D, K>, h: seq<Version>, g: seq<Version>, s: int, fromKey: Option<Bytes>,
                                w: seq<nat>) {
    && (forall i | 0 <= i < |w| :: Shown(h, g, s, w[i]))
    && (forall k: nat :: k in w <==> Shown(h, g, s, k) && InRequest(hooks, g[k], fromKey))
    && (forall i, j | 0 <= i < j < |w| :: w[i] != w[j] && KeyBefore(hooks, g[w[i]], g[w[j]], w[i] < w[j]))
    && (OncePerTransaction(g) ==> forall i, j | 0 <= i < j < |w| :: g[w[i]].documentId != g[w[j]].documentId)
  }

  /** A query at `s` against a storage with any history: it throws exactly when some document in
      its range has no version at `s`; otherwise its rows are the reports of the shown versions,
      in the order of their keys, and from the from-key on. */
  lemma QueryExact<D(!new), K(!new)>(hooks: Hooks<D, K>, h: seq<Version>, g: seq<Version>, order: seq<nat>,
                                     c: seq<Entry<KeyRef, Link>>, s: int, fromKey: Option<Bytes>, start: nat)
    requires Lawful(hooks) && Indexed(hooks, g, order, c) && start <= |order| && (fromKey.None? ==> start == 0)
    requires forall i | 0 <= i < |order| && fromKey.Some? :: i < start <==> !InRequest(hooks, g[order[i]], fromKey)
    ensures NoneMissing(h, s, c[start..]) <==> AllPresent(h, g, s, order[start..])
    ensures var w := ShownAmong(h, g, s, order[start..]);
            Answers(hooks, h, g, s, fromKey, w) && Rows(hooks, h, s, c[start..]) == Reports(hooks, h, g, s, w)
  {
    hide NoneMissing, AllPresent, ShownAmong, Rows, Reports, KeyFor, Shown, InKeyOrder, Lawful, InRequest, KeyBefore;
    RangeMissing(hooks, h, g, order, c, s, start);
    RangeRows(hooks, h, g, order, c, s, start);
    ShownInRange(hooks, h, g, order, s, fromKey, start);
    ShownApart(hooks, h, g, order, s, start);
  }

  lemma BeforeByKey<D, K>(hooks: Hooks<D, K>, g: seq<Version>, i: nat, j: nat)
    requires i < |g| && j < |g|
    ensures Before(hooks, g, i, j) <==> KeyBefore(hooks, g[i], g[j], i < j)
  {
  }

  /** Every document listed, but for document 0, has a version at `s` in the storage. */
  ghost predicate AllPresent(h: seq<Version>, g: seq<Version>, s: int, ks: seq<nat>) {
    forall i | 0 <= i < |ks| && ks[i] < |g| && g[ks[i]].documentId != 0 :: Newest(h, g[ks[i]].documentId, s) != -1
  }

  lemma MissingMeans(h: seq<Version>, s: int, e: Link)
    ensures Missing(h, s, e) <==> e.documentId != 0 && Newest(h, e.documentId, s) == -1
  {
  }

  lemma RangeMissing<D, K>(hooks: Hooks<D, K>, h: seq<Version>, g: seq<Version>, order: seq<nat>,
                           c: seq<Entry<KeyRef, Link>>, s: int,
                           start: nat)
    requires Indexed(hooks, g, order, c) && start <= |order|
    ensures NoneMissing(h, s, c[start..]) <==> AllPresent(h, g, s, order[start..])
  {
    hide InKeyOrder, Missing, Newest;
    var ks, es := order[start..], c[start..];
    forall i | 0 <= i < |ks|
      ensures ks[i] < |g|
      ensures Missing(h, s, es[i].value) <==> g[ks[i]].documentId != 0 && Newest(h, g[ks[i]].documentId, s) == -1
    {
      assert es[i] == c[start + i] == ViewEntry(hooks, g, order[start + i]);
      MissingMeans(h, s, es[i].value);
    }
  }

  lemma RangeRows<D, K>(hooks: Hooks<D, K>, h: seq<Version>, g: seq<Version>, order: seq<nat>,
                        c: seq<Entry<KeyRef, Link>>, s: int,
                        start: nat)
    requires Indexed(hooks, g, order, c) && start <= |order|
    ensures forall i | 0 <= i < |ShownAmong(h, g, s, order[start..])| ::
            Shown(h, g, s, ShownAmong(h, g, s, order[start..])[i])
    ensures Rows(hooks, h, s, c[start..]) == Reports(hooks, h, g, s, ShownAmong(h, g, s, order[start..]))
  {
    hide Rows, Reports, ShownAmong, InKeyOrder, Shown;
    assert forall i | start <= i < |order| :: c[i] == ViewEntry(hooks, g, order[i]);
    RowsAreReports(hooks, h, g, s, order[start..], c[start..]);
  }

  lemma ShownInRange<D, K>(hooks: Hooks<D, K>, h: seq<Version>, g: seq<Version>, order: seq<nat>, s: int,
                           fromKey: Option<Bytes>, start: nat)
    requires OrderOf(g, order) && start <= |order| && (fromKey.None? ==> start == 0)
    requires forall i | 0 <= i < |order| && fromKey.Some? :: i < start <==> !InRequest(hooks, g[order[i]], fromKey)
    ensures forall k: nat :: k in ShownAmong(h, g, s, order[start..]) <==>
                        Shown(h, g, s, k) && InRequest(hooks, g[k], fromKey)
  {
    hide ShownAmong, Lookup;
    ShownAmongAre(h, g, s, order[start..]);
    forall k: nat | k < |g| ensures k in order[start..] <==> InRequest(hooks, g[k], fromKey) {
      assert k in order;
      var i :| 0 <= i < |order| && order[i] == k;
      if i >= start {
        assert order[start..][i - start] == k;
      }
      if k in order[start..] {
        var j :| 0 <= j < |order[start..]| && order[start..][j] == k;
        assert order[start + j] == k;
      }
    }
  }

  lemma ShownApart<D(!new), K(!new)>(hooks: Hooks<D, K>, h: seq<Version>, g: seq<Version>, order: seq<nat>, s: int,
                                     start: nat)
    requires Lawful(hooks) && OrderOf(g, order) && InKeyOrder(hooks, g, order) && start <= |order|
    ensures forall i | 0 <= i < |ShownAmong(h, g, s, order[start..])| :: ShownAmong(h, g, s, order[start..])[i] < |g|
    ensures forall i | 0 <= i < |ShownAmong(h, g, s, order[start..])| ::
            Shown(h, g, s, ShownAmong(h, g, s, order[start..])[i])
    ensures forall i, j | 0 <= i < j < |ShownAmong(h, g, s, order[start..])| ::
              var a, b := ShownAmong(h, g, s, order[start..])[i], ShownAmong(h, g, s, order[start..])[j];
              a != b && KeyBefore(hooks, g[a], g[b], a < b)
    ensures OncePerTransaction(g) ==>
              forall i, j | 0 <= i < j < |ShownAmong(h, g, s, order[start..])| ::
                g[ShownAmong(h, g, s, order[start..])[i]].documentId
                != g[ShownAmong(h, g, s, order[start..])[j]].documentId
  {
    hide KeyFor, Lookup, KeyBefore;
    var w := ShownAmong(h, g, s, order[start..]);
    ShownInOrder(hooks, h, g, s, order[start..]);
    ShownAmongAre(h, g, s, order[start..]);
    forall i, j | 0 <= i < j < |w| ensures w[i] != w[j] && KeyBefore(hooks, g[w[i]], g[w[j]], w[i] < w[j]) {
      assert Before(hooks, g, w[i], w[j]);
      BeforeByKey(hooks, g, w[i], w[j]);
    }
    forall i, j | 0 <= i < j < |w| && OncePerTransaction(g) ensures g[w[i]].documentId != g[w[j]].documentId {
      assert Before(hooks, g, w[i], w[j]) && Shown(h, g, s, w[i]) && Shown(h, g, s, w[j]);
      assert w[i] != w[j];
    }
  }

  // ------------------------------------------------------------------
  // View and storage with the same commits
  // ------------------------------------------------------------------

  /** Mutations that were applied later, with greater ids, do not change what is shown. */
  lemma ShownIgnoresLater(h: seq<Version>, t: seq<Version>, g: seq<Version>, s: int, k: nat)
    requires forall j | 0 <= j < |t| :: t[j].sequenceId > s
    ensures Shown(h + t, g, s, k) <==> Shown(h, g, s, k)
    ensures k < |g| ==> Lookup(h + t, g[k].documentId, s) == Lookup(h, g[k].documentId, s)
  {
    if k < |g| {
      LaterIsInvisible(h, t, g[k].documentId, s);
    }
  }

  /** The report of the current version of `k`'s document. */
  ghost function OwnReport<D, K>(hooks: Hooks<D, K>, g: seq<Version>, s: int, k: nat): Bytes
    requires Standing(g, s, k)
  {
    hooks.report(Extract(hooks, g[Newest(g, g[k].documentId, s)]))
  }

  /** The view has indexed its own storage's part of what was applied, the storage has applied all
      of it and perhaps more with greater ids. A version is shown exactly when it has the sequence
      id of the current one of its document and no other storage has a mutation of a document with
      this id and a greater visible sequence id; the row is the report of the current version if
      no other storage masks it. */
  lemma ShownExactly<D, K>(hooks: Hooks<D, K>, applied: seq<Applied>, t: seq<Version>, x: int, s: int, k: nat)
    requires k < |VersionsIn(applied, x)| && forall j | 0 <= j < |t| :: t[j].sequenceId > s
    ensures var g, h := VersionsIn(applied, x), Versions(applied) + t;
            var doc := g[k].documentId;
            && (Shown(h, g, s, k) <==> doc != 0 && Standing(g, s, k) && !Outdated(applied, x, doc, s))
            && (Shown(h, g, s, k) && !Masked(applied, x, doc, s) ==>
                  RowAt(hooks, h, g, s, k) == OwnReport(hooks, g, s, k))
  {
    hide Versions, VersionsIn, Outdated, Masked;
    var g := VersionsIn(applied, x);
    var doc := g[k].documentId;
    ShownIgnoresLater(Versions(applied), t, g, s, k);
    FoundExactly(applied, x, s, k);
    if !Masked(applied, x, doc, s) {
      UnmaskedLookup(applied, x, doc, s);
    }
  }

  /** What is masked by a mutation of the same transaction is reported with the contents of the
      other storage's document. */
  lemma TiedShowsForeign(applied: seq<Applied>, x: int, doc: int, s: int)
    requires Masked(applied, x, doc, s) && !Outdated(applied, x, doc, s) && OwnPlace(applied, x, doc, s) != -1
    ensures var n, i := Newest(Versions(applied), doc, s), OwnPlace(applied, x, doc, s);
            Foreign(applied, x, doc, s, n) && applied[n].sequenceId == applied[i].sequenceId && n > i
  {
    hide OwnPlace, Versions;
    var n, i := Newest(Versions(applied), doc, s), OwnPlace(applied, x, doc, s);
    OwnPlaceIs(applied, x, doc, s);
    SelectsOwnExactly(applied, x, doc, s);
    OutdatedOrEqual(applied, x, doc, s, i, n);
    VersionsLength(applied);
    NewestIsNewer(applied, doc, s, n);
  }

  /** Nothing that the view has indexed is masked at `s`. */
  ghost predicate Unmasked(applied: seq<Applied>, x: int, s: int) {
    forall k | 0 <= k < |VersionsIn(applied, x)| :: !Masked(applied, x, VersionsIn(applied, x)[k].documentId, s)
  }

  lemma OutdatedIsMasked(applied: seq<Applied>, x: int, doc: int, s: int)
    ensures Outdated(applied, x, doc, s) ==> Masked(applied, x, doc, s)
  {
    hide OwnPlace, Versions;
  }

  /** Without masks, the rows are the own reports of exactly the current versions. */
  lemma UnmaskedAnswers<D, K>(hooks: Hooks<D, K>, applied: seq<Applied>, t: seq<Version>, x: int, s: int,
                              fromKey: Option<Bytes>, w: seq<nat>)
    requires forall j | 0 <= j < |t| :: t[j].sequenceId > s
    requires Unmasked(applied, x, s) && Answers(hooks, Versions(applied) + t, VersionsIn(applied, x), s, fromKey, w)
    ensures forall k: nat :: k in w <==>
                        && Standing(VersionsIn(applied, x), s, k) && VersionsIn(applied, x)[k].documentId != 0
                        && InRequest(hooks, VersionsIn(applied, x)[k], fromKey)
    ensures forall i | 0 <= i < |w| ::
              && Shown(Versions(applied) + t, VersionsIn(applied, x), s, w[i])
              && Standing(VersionsIn(applied, x), s, w[i])
              && Reports(hooks, Versions(applied) + t, VersionsIn(applied, x), s, w)[i]
                 == OwnReport(hooks, VersionsIn(applied, x), s, w[i])
  {
    hide Versions, VersionsIn, Outdated, Masked, InRequest, KeyBefore, OwnReport;
    var g, h := VersionsIn(applied, x), Versions(applied) + t;
    forall k: nat | k < |g|
      ensures Shown(h, g, s, k) <==> g[k].documentId != 0 && Standing(g, s, k)
      ensures Shown(h, g, s, k) ==> RowAt(hooks, h, g, s, k) == OwnReport(hooks, g, s, k)
    {
      ShownExactly(hooks, applied, t, x, s, k);
      OutdatedIsMasked(applied, x, g[k].documentId, s);
    }
  }

  /** With a single storage there are no masks. */
  lemma SingleStorageUnmasked(applied: seq<Applied>, x: int, s: int)
    requires forall i | 0 <= i < |applied| :: applied[i].mutation.storageIndex == x
    ensures Unmasked(applied, x, s) && VersionsIn(applied, x) == Versions(applied)
  {
    hide Masked, Outdated;
    SingleStorage(applied, x);
  }

  /** Two versions of `doc` have the sequence id of its current one: a transaction touched it twice. */
  ghost predicate StandsTwice(g: seq<Version>, s: int, doc: int) {
    exists p, q :: p != q && StandsFor(g, s, doc, p) && StandsFor(g, s, doc, q)
  }

  ghost predicate StandsFor(g: seq<Version>, s: int, doc: int, p: int) {
    0 <= p < |g| && g[p].documentId == doc && Standing(g, s, p)
  }

  /** Entry `i` of the answer is one of `doc`. */
  ghost predicate Lists(g: seq<Version>, w: seq<nat>, doc: int, i: int) {
    0 <= i < |w| && w[i] < |g| && g[w[i]].documentId == doc
  }

  /** Every document whose current version no other storage outdates is reported by a query
      without from-key. It has more than one row if and only if the transaction of its current
      version touched it more than once. */
  lemma EveryDocumentOnce<D, K>(hooks: Hooks<D, K>, applied: seq<Applied>, t: seq<Version>, x: int, s: int, doc: int,
                                w: seq<nat>)
    returns (i: nat)
    requires forall j | 0 <= j < |t| :: t[j].sequenceId > s
    requires Answers(hooks, Versions(applied) + t, VersionsIn(applied, x), s, None, w)
    requires doc != 0 && Newest(VersionsIn(applied, x), doc, s) != -1 && !Outdated(applied, x, doc, s)
    ensures i < |w| && w[i] == Newest(VersionsIn(applied, x), doc, s) < |VersionsIn(applied, x)|
    ensures Lists(VersionsIn(applied, x), w, doc, i)
    ensures (exists j :: j != i && Lists(VersionsIn(applied, x), w, doc, j))
            <==> StandsTwice(VersionsIn(applied, x), s, doc)
  {
    hide Versions, VersionsIn, Outdated, KeyBefore, Standing;
    var g, h := VersionsIn(applied, x), Versions(applied) + t;
    var k := Newest(g, doc, s);
    assert Visible(g, doc, s, k);
    CurrentStands(g, s, doc);
    forall p: nat | p < |g| && g[p].documentId == doc ensures p in w <==> Standing(g, s, p) {
      ShownExactly(hooks, applied, t, x, s, p);
    }
    i :| 0 <= i < |w| && w[i] == k;
    if StandsTwice(g, s, doc) {
      var p, q :| p != q && StandsFor(g, s, doc, p) && StandsFor(g, s, doc, q);
      var o: nat := if p == k then q else p;
      assert o in w;
      var j :| 0 <= j < |w| && w[j] == o;
      assert Lists(g, w, doc, j);
    }
    forall j | j != i && Lists(g, w, doc, j) ensures StandsTwice(g, s, doc) {
      assert w[i] != w[j];
      assert w[j] in w && StandsFor(g, s, doc, w[j]) && StandsFor(g, s, doc, k);
    }
  }

  lemma CurrentStands(g: seq<Version>, s: int, doc: int)
    requires Newest(g, doc, s) != -1
    ensures StandsFor(g, s, doc, Newest(g, doc, s))
  {
    assert Visible(g, doc, s, Newest(g, doc, s));
  }

  /** If no transaction touches a document twice, every document has one row. */
  lemma NoneStandsTwice(g: seq<Version>, s: int, doc: int)
    requires OncePerTransaction(g)
    ensures !StandsTwice(g, s, doc)
  {
    forall p, q | StandsFor(g, s, doc, p) && StandsFor(g, s, doc, q) ensures p == q {
      StandingIsCurrent(g, s, p);
      StandingIsCurrent(g, s, q);
    }
  }

  // ------------------------------------------------------------------
  // The query
  // ------------------------------------------------------------------

  /** The query end to end, while the storage goes on. It throws exactly when a document in its
      range has no version when the storage is asked for it, and otherwise its batches hold the
      rows of the entries in its range, each as the storage answers it then. If what is applied
      meanwhile has greater ids, these are the reports of exactly the versions that were shown at
      the start. */
  method QueryShown<D(!new), K(!new)>(view: JsView<D, K>, storage: FlexStorage, fromKey: Option<Bytes>, s: int,
                                      meanwhile: Schedule)
    returns (batches: seq<seq<Bytes>>, ok: bool, ghost w: seq<nat>, ghost start: nat)
    requires view.Valid() && storage.Valid() && storage.dataFile != view.keyFile
    modifies view.orderTree`pins, view.keyFile`pins, view.keyFile`unmarked
    modifies storage`dataPointer, storage`history, storage`order, storage.indexTree, storage.dataFile
    ensures view.Valid() && storage.Valid()
    ensures OrderOf(view.history, view.order) && start <= |view.order| == |view.orderTree.Contents()|
    ensures fromKey.None? ==> start == 0
    ensures fromKey.Some? ==>
              forall i | 0 <= i < |view.order| ::
                var v := view.history[view.order[i]];
                i < start <==> view.hooks.compare(view.hooks.keyOf(view.hooks.extractDoc(v.documentId, v.buffer)),
                                                  view.hooks.extractKey(fromKey.value)) < 0
    ensures ok <==> NoneMissingDuring(old(storage.history), meanwhile, s, view.orderTree.Contents()[start..])
    ensures ok ==> Batched(batches, RowsDuring(view.hooks, old(storage.history), meanwhile, s,
                                               view.orderTree.Contents()[start..]))
    ensures Answers(view.hooks, old(storage.history), view.history, s, fromKey, w)
    ensures forall i | 0 <= i < |w| :: Shown(old(storage.history), view.history, s, w[i])
    ensures Quiet(meanwhile, s) ==> (ok <==> AllPresent(old(storage.history), view.history, s, view.order[start..]))
    ensures Quiet(meanwhile, s) && ok ==>
            Batched(batches, Reports(view.hooks, old(storage.history), view.history, s, w))
  {
    hide Answers, ShownAmong, Reports, Rows, RowsDuring, NoneMissing, NoneMissingDuring, AllPresent,
         Batched, Shown, FlexStorage.Valid, Quiet;
    ghost var h := storage.history;
    batches, ok, start := Query(view, storage, fromKey, s, meanwhile);
    w := ShownAmong(h, view.history, s, view.order[start..]);
    ghost var c := view.orderTree.Contents();
    QueryExact(view.hooks, h, view.history, view.order, c, s, fromKey, start);
    AllShown(view.hooks, h, view.history, s, fromKey, w);
    if Quiet(meanwhile, s) {
      QuietRows(view.hooks, h, meanwhile, s, c[start..]);
    }
  }

  lemma AllShown<D, K>(hooks: Hooks<D, K>, h: seq<Version>, g: seq<Version>, s: int, fromKey: Option<Bytes>,
                       w: seq<nat>)
    requires Answers(hooks, h, g, s, fromKey, w)
    ensures forall i | 0 <= i < |w| :: Shown(h, g, s, w[i])
  {
  }

  /** A document first written at id 5, and a query at 4: the query throws. */
  lemma EarlyQueryThrows(b: Bytes)
    ensures !AllPresent([Version(1, 5, b)], [Version(1, 5, b)], 4, [0])
  {
    var h := [Version(1, 5, b)];
    assert forall j :: !Visible(h, 1, 4, j);
    assert Newest(h, 1, 4) == -1;
    assert [0][0] == 0 && h[0].documentId == 1;
  }

  /** A document written twice by one transaction: both entries are shown, both with the second
      contents. */
  lemma TwiceInOneTransaction<D, K>(hooks: Hooks<D, K>, b: Bytes, c: Bytes)
    ensures var g := [Version(1, 1, b), Version(1, 1, c)];
            && !OncePerTransaction(g) && Shown(g, g, 1, 0) && Shown(g, g, 1, 1)
            && RowAt(hooks, g, g, 1, 0) == RowAt(hooks, g, g, 1, 1) == hooks.report(hooks.extractDoc(1, c))
  {
    var g := [Version(1, 1, b), Version(1, 1, c)];
    assert IsNewest(g, 1, 1, 1);
    NewestUnique(g, 1, 1, 1);
    assert g[0].documentId == g[1].documentId;
  }
}
