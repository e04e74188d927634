/** What insertion and search mean under an order of the keys, and how high a tree can be. */
module BtreeOrder {
  import opened BtreeShape
  import opened BtreeZipper
  import opened Btrees

  ghost predicate TotalPreorder<K(!new)>(le: (K, K) -> bool) {
    && (forall x, y :: le(x, y) || le(y, x))
    && (forall x, y, z :: le(x, y) && le(y, z) ==> le(x, z))
  }

  ghost predicate Sorted<K, V>(s: seq<Entry<K, V>>, le: (K, K) -> bool) {
    forall i, j | 0 <= i < j < |s| :: le(s[i].key, s[j].key)
  }

  /** `cmp` compares keys with `k`, as the comparison closures of the callers do. */
  ghost predicate ComparesTo<K(!new)>(cmp: K -> int, k: K, le: (K, K) -> bool) {
    forall x :: (cmp(x) <= 0 <==> le(x, k)) && (cmp(x) >= 0 <==> le(k, x))
  }

  /** A sorted sequence is cut by any comparison, on both sides. */
  lemma SortedIsCut<K(!new), V>(s: seq<Entry<K, V>>, cmp: K -> int, k: K, le: (K, K) -> bool)
    requires TotalPreorder(le) && Sorted(s, le) && ComparesTo(cmp, k, le)
    ensures SplitsAbove(s, cmp) && SplitsBelow(s, cmp)
  {
    forall i, j | 0 <= i < j < |s|
      ensures cmp(s[j].key) <= 0 ==> cmp(s[i].key) <= 0
      ensures cmp(s[j].key) < 0 ==> cmp(s[i].key) < 0
    {
      assert le(s[i].key, s[j].key);
      assert cmp(s[j].key) < 0 ==> !le(k, s[j].key);
    }
  }

  lemma {:induction false} CutParts<K, V>(s: seq<Entry<K, V>>, cmp: K -> int) returns (n: nat)
    requires SplitsAbove(s, cmp)
    ensures n <= |s| && AllLe(s[..n], cmp) && AllGt(s[n..], cmp)
    ensures UpTo(s, cmp) == s[..n] && Beyond(s, cmp) == s[n..]
  {
    n := 0;
    while n < |s| && cmp(s[n].key) <= 0
      invariant n <= |s| && AllLe(s[..n], cmp)
    {
      assert s[..n + 1] == s[..n] + [s[n]];
      n := n + 1;
    }
    assert AllGt(s[n..], cmp) by {
      assert n < |s| ==> cmp(s[n].key) > 0;
    }
    assert s[..n] + s[n..] == s;
    FilterSplit(s[..n], s[n..], cmp);
  }

  /** `e` stands in `s` after its first `n` entries: those that are at most `e`. */
  ghost predicate PlacedAt<K, V>(s: seq<Entry<K, V>>, n: nat, e: Entry<K, V>, le: (K, K) -> bool) {
    && n <= |s|
    && (forall i | 0 <= i < n :: le(s[i].key, e.key))
    && (forall i | n <= i < |s| :: !le(s[i].key, e.key))
  }

  lemma PlacedSorted<K(!new), V>(s: seq<Entry<K, V>>, n: nat, e: Entry<K, V>, le: (K, K) -> bool)
    requires TotalPreorder(le) && Sorted(s, le) && PlacedAt(s, n, e, le)
    ensures Sorted(s[..n] + [e] + s[n..], le)
  {
    var t := s[..n] + [e] + s[n..];
    forall i, j | 0 <= i < j < |t| ensures le(t[i].key, t[j].key) {
      assert t[i] == if i < n then s[i] else if i == n then e else s[i - 1];
      assert t[j] == if j < n then s[j] else if j == n then e else s[j - 1];
    }
  }

  lemma PlacedMultiset<T>(s: seq<T>, n: nat, e: T)
    requires n <= |s|
    ensures multiset(s[..n] + [e] + s[n..]) == multiset(s) + multiset{e}
  {
    assert s == s[..n] + s[n..];
  }

  /** Inserting keeps the order, adds exactly the new entry, and places it after its equals. */
  lemma InsertedIsSorted<K(!new), V>(s: seq<Entry<K, V>>, e: Entry<K, V>, cmp: K -> int, le: (K, K) -> bool)
    returns (n: nat)
    requires TotalPreorder(le) && Sorted(s, le) && ComparesTo(cmp, e.key, le)
    ensures Sorted(Inserted(s, e, cmp), le)
    ensures multiset(Inserted(s, e, cmp)) == multiset(s) + multiset{e}
    ensures PlacedAt(s, n, e, le) && Inserted(s, e, cmp) == s[..n] + [e] + s[n..]
  {
    hide UpTo, Beyond;
    SortedIsCut(s, cmp, e.key, le);
    n := CutParts(s, cmp);
    assert forall i | 0 <= i < n :: s[..n][i] == s[i];
    assert forall i | n <= i < |s| :: s[n..][i - n] == s[i];
    PlacedSorted(s, n, e, le);
    PlacedMultiset(s, n, e);
  }

  // ------------------------------------------------------------------
  // Height
  // ------------------------------------------------------------------

  function Pow(b: nat, n: nat): nat {
    if n == 0 then 1 else b * Pow(b, n - 1)
  }

  /** The fewest entries below a block that is not the root. */
  lemma {:induction false} EntriesBelow<K, V>(t: Tree<K, V>, h: nat, c: Caps)
    requires WF(t, h, false, c) && CapsOk(c)
    ensures |Contents(t)| >= Pow(c.inner / 2, h) * ((c.leaf - 1) / 2)
    decreases t, 1
  {
    if t.Leaf? {
      ContentsLeaf(t);
    } else {
      EntriesBelowAll(t.kids, h - 1, c);
      var m := (c.leaf - 1) / 2;
      var q := Pow(c.inner / 2, h - 1) * m;
      MulMono(c.inner / 2, |t.kids|, q);
      assert Pow(c.inner / 2, h) * m == c.inner / 2 * q by {
        MulAssoc(c.inner / 2, Pow(c.inner / 2, h - 1), m);
      }
    }
  }

  lemma MulAssoc(a: nat, b: nat, c: nat)
    ensures a * b * c == a * (b * c)
  {
  }

  lemma MulMono(a: nat, b: nat, q: nat)
    requires a <= b
    ensures a * q <= b * q
  {
  }

  lemma {:induction false} EntriesBelowAll<K, V>(ts: seq<Tree<K, V>>, h: nat, c: Caps)
    requires CapsOk(c) && forall i | 0 <= i < |ts| :: WF(ts[i], h, false, c)
    ensures |ContentsOf(ts)| >= |ts| * (Pow(c.inner / 2, h) * ((c.leaf - 1) / 2))
    decreases ts, 0
  {
    if ts != [] {
      EntriesBelow(ts[0], h, c);
      EntriesBelowAll(ts[1..], h, c);
      Split(ts, 0);
      assert ts[..0] == [] && ts[1..] == ts[0 + 1..];
      var q := Pow(c.inner / 2, h) * ((c.leaf - 1) / 2);
      MulStep(|ts|, q);
    }
  }

  lemma MulStep(n: nat, q: nat)
    requires n > 0
    ensures n * q == q + (n - 1) * q
  {
  }

  /** A tree of depth `d >= 2` holds at least `2 * c^(d-2) * m` entries, where `c` is the least
      number of children of an inner block and `m` the least number of entries of a leaf. */
  lemma HeightBound<K, V>(t: Tree<K, V>, d: nat, c: Caps)
    requires d >= 2 && WF(t, d - 1, true, c) && CapsOk(c)
    ensures |Contents(t)| >= 2 * (Pow(c.inner / 2, d - 2) * ((c.leaf - 1) / 2))
  {
    EntriesBelowAll(t.kids, d - 2, c);
    MulMono(2, |t.kids|, Pow(c.inner / 2, d - 2) * ((c.leaf - 1) / 2));
  }
}
