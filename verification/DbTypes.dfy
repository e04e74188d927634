/** The values that the engine hands to its storages and views. */
module DbTypes {
  import opened RandomAccessFiles

  type Bytes = seq<byte>

  datatype Option<T> = Some(value: T) | None

  /** 32-bit numbers in little-endian bytes. */
  function ToLe(n: nat): (r: Bytes)
    requires n < 0x1_0000_0000
    ensures |r| == 4
  {
    [(n % 256) as byte, (n / 256 % 256) as byte, (n / 65536 % 256) as byte, (n / 16777216) as byte]
  }

  function FromLe(b: Bytes): nat
    requires |b| == 4
  {
    b[0] as int + 256 * (b[1] as int) + 65536 * (b[2] as int) + 16777216 * (b[3] as int)
  }

  lemma LeRoundTrip(n: nat)
    requires n < 0x1_0000_0000
    ensures FromLe(ToLe(n)) == n
  {
    var a, b, c := n / 256, n / 65536, n / 16777216;
    assert a / 256 == b && b / 256 == c;
  }

  datatype MutationType = Insert | Modify

  datatype Mutation = Mutation(kind: MutationType, storageIndex: int, documentId: int, buffer: Bytes)

  /** A document-state constraint. */
  datatype Constraint = Constraint(storageIndex: int, documentId: int, sequenceId: int, mustExist: bool,
                                   matchSequenceId: bool)

  datatype FetchResult = Found(sequenceId: int, buffer: Bytes) | NotFound

  // ------------------------------------------------------------------
  // The versions of a document
  // ------------------------------------------------------------------

  /** One version, as a storage applied it. */
  datatype Version = Version(documentId: int, sequenceId: int, buffer: Bytes)

  /** Version `i` is a version of `doc` that a reader at `s` may see. */
  ghost predicate Visible(h: seq<Version>, doc: int, s: int, i: int) {
    0 <= i < |h| && h[i].documentId == doc && h[i].sequenceId <= s
  }

  /** Version `i` is what a reader at `s` sees: no visible version has a greater sequence id,
      and none with the same id was applied later. */
  ghost predicate IsNewest(h: seq<Version>, doc: int, s: int, i: int) {
    && Visible(h, doc, s, i)
    && forall j | Visible(h, doc, s, j) ::
         h[j].sequenceId < h[i].sequenceId || (h[j].sequenceId == h[i].sequenceId && j <= i)
  }

  /** The index of the newest version, or -1. */
  ghost function Newest(h: seq<Version>, doc: int, s: int): (i: int)
    ensures i == -1 ==> forall j :: !Visible(h, doc, s, j)
    ensures i != -1 ==> IsNewest(h, doc, s, i)
  {
    if h == [] then -1
    else
      var n := |h| - 1;
      var i := Newest(h[..n], doc, s);
      assert forall j | 0 <= j < n :: h[..n][j] == h[j];
      assert forall j | Visible(h, doc, s, j) && j != n :: Visible(h[..n], doc, s, j);
      if Visible(h, doc, s, n) && (i == -1 || h[i].sequenceId <= h[n].sequenceId) then n else i
  }

  /** What `fetch(doc, s)` should answer after the versions `h` were applied. */
  ghost function Lookup(h: seq<Version>, doc: int, s: int): FetchResult {
    var i := Newest(h, doc, s);
    if i == -1 then NotFound else Found(h[i].sequenceId, h[i].buffer)
  }

  /** What an answer says of the versions that were applied. */
  lemma LookupMeans(h: seq<Version>, doc: int, s: int)
    ensures var r := Lookup(h, doc, s);
            && (r.Found? ==>
                  exists i :: 0 <= i < |h| && h[i] == Version(doc, r.sequenceId, r.buffer) && r.sequenceId <= s
                              && forall j | 0 <= j < |h| && h[j].documentId == doc && h[j].sequenceId <= s ::
                                   h[j].sequenceId < r.sequenceId || (h[j].sequenceId == r.sequenceId && j <= i))
            && (r == NotFound ==> forall j | 0 <= j < |h| && h[j].documentId == doc :: h[j].sequenceId > s)
  {
    hide Newest, IsNewest;
    var i := Newest(h, doc, s);
    if i == -1 {
      forall j | 0 <= j < |h| && h[j].documentId == doc ensures h[j].sequenceId > s {
        assert !Visible(h, doc, s, j);
      }
    } else {
      NewestSees(h, doc, s, i);
      assert h[i] == Version(doc, h[i].sequenceId, h[i].buffer);
    }
  }

  lemma NewestSees(h: seq<Version>, doc: int, s: int, i: int)
    requires IsNewest(h, doc, s, i)
    ensures 0 <= i < |h| && h[i].documentId == doc && h[i].sequenceId <= s
    ensures forall j | 0 <= j < |h| && h[j].documentId == doc && h[j].sequenceId <= s ::
              h[j].sequenceId < h[i].sequenceId || (h[j].sequenceId == h[i].sequenceId && j <= i)
  {
    forall j | 0 <= j < |h| && h[j].documentId == doc && h[j].sequenceId <= s
      ensures h[j].sequenceId < h[i].sequenceId || (h[j].sequenceId == h[i].sequenceId && j <= i)
    {
      assert Visible(h, doc, s, j);
    }
  }

  /** Version `k` is what a reader at `s` sees of its document. */
  ghost predicate Current(h: seq<Version>, s: int, k: nat) {
    k < |h| && k == Newest(h, h[k].documentId, s)
  }

  /** Version `k` has the sequence id of what a reader at `s` sees of its document. */
  ghost predicate Standing(h: seq<Version>, s: int, k: nat) {
    && k < |h|
    && Newest(h, h[k].documentId, s) != -1
    && h[Newest(h, h[k].documentId, s)].sequenceId == h[k].sequenceId
  }

  /** No transaction touches a document twice. */
  ghost predicate OncePerTransaction(h: seq<Version>) {
    forall i, j | 0 <= i < j < |h| && h[i].documentId == h[j].documentId :: h[i].sequenceId != h[j].sequenceId
  }

  lemma StandingIsCurrent(h: seq<Version>, s: int, k: nat)
    requires OncePerTransaction(h)
    ensures Standing(h, s, k) <==> Current(h, s, k)
  {
    if k < |h| && Newest(h, h[k].documentId, s) != -1 {
      assert IsNewest(h, h[k].documentId, s, Newest(h, h[k].documentId, s));
    }
  }

  lemma NewestUnique(h: seq<Version>, doc: int, s: int, i: int)
    requires IsNewest(h, doc, s, i)
    ensures Newest(h, doc, s) == i
  {
    assert Visible(h, doc, s, i);
  }

  /** Versions that a reader cannot see do not change its answer: later commits, and versions
      of other documents. */
  lemma {:induction false} InvisibleTail(h: seq<Version>, t: seq<Version>, doc: int, s: int)
    requires forall j :: !Visible(t, doc, s, j)
    ensures Lookup(h + t, doc, s) == Lookup(h, doc, s)
  {
    if t == [] {
      assert h + t == h;
    } else {
      var n := |t| - 1;
      forall j ensures !Visible(t[..n], doc, s, j) {
        assert Visible(t[..n], doc, s, j) ==> Visible(t, doc, s, j);
      }
      InvisibleTail(h, t[..n], doc, s);
      assert (h + t)[..|h| + n] == h + t[..n];
      assert (h + t)[|h| + n] == t[n] && !Visible(t, doc, s, n);
    }
  }

  /** A reader at `s` never notices what is sequenced with greater ids. */
  lemma LaterIsInvisible(h: seq<Version>, t: seq<Version>, doc: int, s: int)
    requires forall j | 0 <= j < |t| :: t[j].sequenceId > s
    ensures Lookup(h + t, doc, s) == Lookup(h, doc, s)
  {
    InvisibleTail(h, t, doc, s);
  }
}
