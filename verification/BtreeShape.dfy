/** The abstract shape of a B+-tree: block numbers, leaf entries, separators, and the
    well-formedness that every operation of the block-level tree preserves.
    Trees are ghost values; module Btree ties them to numbered blocks. */
module BtreeShape {

  datatype Entry<K, V> = Entry(key: K, value: V)

  datatype Tree<K, V> =
    | Leaf(id: int, ents: seq<Entry<K, V>>)
    | Inner(id: int, kids: seq<Tree<K, V>>, seps: seq<K>)

  /** How many entries fit into a leaf and into an inner block. */
  datatype Caps = Caps(leaf: nat, inner: nat)

  ghost predicate CapsOk(c: Caps) {
    c.leaf >= 4 && c.inner >= 4
  }

  // ------------------------------------------------------------------
  // Leaves, contents and block numbers
  // ------------------------------------------------------------------

  ghost function Leaves<K, V>(t: Tree<K, V>): seq<Tree<K, V>>
    decreases t, 1
  {
    match t
    case Leaf(_, _) => [t]
    case Inner(_, kids, _) => LeavesOf(kids)
  }

  ghost function LeavesOf<K, V>(ts: seq<Tree<K, V>>): seq<Tree<K, V>>
    decreases ts, 0
  {
    if ts == [] then [] else Leaves(ts[0]) + LeavesOf(ts[1..])
  }

  ghost function Ids<K, V>(t: Tree<K, V>): multiset<int>
    decreases t, 1
  {
    match t
    case Leaf(id, _) => multiset{id}
    case Inner(id, kids, _) => multiset{id} + IdsOf(kids)
  }

  ghost function IdsOf<K, V>(ts: seq<Tree<K, V>>): multiset<int>
    decreases ts, 0
  {
    if ts == [] then multiset{} else Ids(ts[0]) + IdsOf(ts[1..])
  }

  ghost function Entries<K, V>(t: Tree<K, V>): seq<Entry<K, V>> {
    if t.Leaf? then t.ents else []
  }

  /** The entries of a list of leaves, left to right. */
  ghost function Flat<K, V>(leaves: seq<Tree<K, V>>): seq<Entry<K, V>> {
    if leaves == [] then [] else Entries(leaves[0]) + Flat(leaves[1..])
  }

  /** The in-order contents of a tree. */
  ghost function Contents<K, V>(t: Tree<K, V>): seq<Entry<K, V>> {
    Flat(Leaves(t))
  }

  ghost function ContentsOf<K, V>(ts: seq<Tree<K, V>>): seq<Entry<K, V>> {
    Flat(LeavesOf(ts))
  }

  ghost function Last<T>(s: seq<T>): T
    requires s != []
  {
    s[|s| - 1]
  }

  // ------------------------------------------------------------------
  // Well-formedness
  // ------------------------------------------------------------------

  /** `sep` is the key of the last entry below `t`. */
  ghost predicate IsMaxOf<K, V>(sep: K, t: Tree<K, V>) {
    Contents(t) != [] && Last(Contents(t)).key == sep
  }

  /** `t` has uniform height `h`, respects the capacities, and each separator equals the
      last key of the subtree to its left. Only a root may be less than half full. */
  ghost predicate WF<K, V>(t: Tree<K, V>, h: nat, root: bool, c: Caps)
    decreases t
  {
    match t
    case Leaf(_, ents) =>
      h == 0 && |ents| <= c.leaf - 1 && (root || (c.leaf - 1) / 2 <= |ents|)
    case Inner(_, kids, seps) =>
      && h > 0
      && |kids| == |seps| + 1
      && 1 <= |seps| <= c.inner - 1
      && (root || c.inner / 2 <= |kids|)
      && (forall i | 0 <= i < |kids| :: WF(kids[i], h - 1, false, c))
      && (forall i | 0 <= i < |seps| :: IsMaxOf(seps[i], kids[i]))
  }

  /** The blocks that `insert` splits before it descends into them. */
  ghost predicate Full<K, V>(t: Tree<K, V>, c: Caps) {
    match t
    case Leaf(_, ents) => |ents| >= c.leaf - 1
    case Inner(_, _, seps) => |seps| >= c.inner - 1
  }

  /** An inner block none of whose children is full. */
  ghost predicate Roomy<K, V>(t: Tree<K, V>, c: Caps) {
    t.Inner? && forall i | 0 <= i < |t.kids| :: !Full(t.kids[i], c)
  }

  ghost predicate Distinct(ids: multiset<int>) {
    forall x | x in ids :: ids[x] == 1
  }

  // ------------------------------------------------------------------
  // Concatenation lemmas
  // ------------------------------------------------------------------

  lemma {:induction false} LeavesOfAppend<K, V>(a: seq<Tree<K, V>>, b: seq<Tree<K, V>>)
    ensures LeavesOf(a + b) == LeavesOf(a) + LeavesOf(b)
  {
    if a == [] {
      assert a + b == b;
    } else {
      assert (a + b)[1..] == a[1..] + b;
      LeavesOfAppend(a[1..], b);
    }
  }

  lemma {:induction false} IdsOfAppend<K, V>(a: seq<Tree<K, V>>, b: seq<Tree<K, V>>)
    ensures IdsOf(a + b) == IdsOf(a) + IdsOf(b)
  {
    if a == [] {
      assert a + b == b;
    } else {
      assert (a + b)[1..] == a[1..] + b;
      IdsOfAppend(a[1..], b);
    }
  }

  lemma {:induction false} FlatAppend<K, V>(a: seq<Tree<K, V>>, b: seq<Tree<K, V>>)
    ensures Flat(a + b) == Flat(a) + Flat(b)
  {
    if a == [] {
      assert a + b == b;
    } else {
      assert (a + b)[1..] == a[1..] + b;
      FlatAppend(a[1..], b);
    }
  }

  lemma ContentsOfAppend<K, V>(a: seq<Tree<K, V>>, b: seq<Tree<K, V>>)
    ensures ContentsOf(a + b) == ContentsOf(a) + ContentsOf(b)
  {
    LeavesOfAppend(a, b);
    FlatAppend(LeavesOf(a), LeavesOf(b));
  }

  lemma Middle<K, V>(a: seq<Tree<K, V>>, m: seq<Tree<K, V>>, b: seq<Tree<K, V>>)
    ensures LeavesOf(a + m + b) == LeavesOf(a) + LeavesOf(m) + LeavesOf(b)
    ensures ContentsOf(a + m + b) == ContentsOf(a) + ContentsOf(m) + ContentsOf(b)
    ensures IdsOf(a + m + b) == IdsOf(a) + IdsOf(m) + IdsOf(b)
  {
    LeavesOfAppend(a + m, b);
    LeavesOfAppend(a, m);
    ContentsOfAppend(a + m, b);
    ContentsOfAppend(a, m);
    IdsOfAppend(a + m, b);
    IdsOfAppend(a, m);
  }

  lemma Single<K, V>(t: Tree<K, V>)
    ensures LeavesOf([t]) == Leaves(t)
    ensures ContentsOf([t]) == Contents(t)
    ensures IdsOf([t]) == Ids(t)
  {
    assert [t][1..] == [];
  }

  lemma Pair<K, V>(l: Tree<K, V>, r: Tree<K, V>)
    ensures LeavesOf([l, r]) == Leaves(l) + Leaves(r)
    ensures ContentsOf([l, r]) == Contents(l) + Contents(r)
    ensures IdsOf([l, r]) == Ids(l) + Ids(r)
  {
    assert [l, r] == [l] + [r];
    Single(l);
    Single(r);
    LeavesOfAppend([l], [r]);
    ContentsOfAppend([l], [r]);
    IdsOfAppend([l], [r]);
  }

  /** A list of subtrees, taken apart around one of them. */
  lemma Around<K, V>(a: seq<Tree<K, V>>, t: Tree<K, V>, b: seq<Tree<K, V>>)
    ensures LeavesOf(a + [t] + b) == LeavesOf(a) + Leaves(t) + LeavesOf(b)
    ensures ContentsOf(a + [t] + b) == ContentsOf(a) + Contents(t) + ContentsOf(b)
    ensures IdsOf(a + [t] + b) == IdsOf(a) + Ids(t) + IdsOf(b)
  {
    Middle(a, [t], b);
    Single(t);
  }

  lemma Rejoin<T>(s: seq<T>, i: nat)
    requires i < |s|
    ensures s == s[..i] + [s[i]] + s[i + 1..]
  {
  }

  lemma Split<K, V>(ts: seq<Tree<K, V>>, i: nat)
    requires i < |ts|
    ensures ts == ts[..i] + [ts[i]] + ts[i + 1..]
    ensures LeavesOf(ts) == LeavesOf(ts[..i]) + Leaves(ts[i]) + LeavesOf(ts[i + 1..])
    ensures ContentsOf(ts) == ContentsOf(ts[..i]) + Contents(ts[i]) + ContentsOf(ts[i + 1..])
    ensures IdsOf(ts) == IdsOf(ts[..i]) + Ids(ts[i]) + IdsOf(ts[i + 1..])
  {
    hide *;
    Rejoin(ts, i);
    Around(ts[..i], ts[i], ts[i + 1..]);
  }

  lemma ContentsLeaf<K, V>(t: Tree<K, V>)
    requires t.Leaf?
    ensures Contents(t) == t.ents
  {
    assert [t][1..] == [];
    assert Flat([t]) == t.ents + [];
  }

  // ------------------------------------------------------------------
  // Non-root subtrees are never empty
  // ------------------------------------------------------------------

  lemma {:induction false} NonEmpty<K, V>(t: Tree<K, V>, h: nat, c: Caps)
    requires WF(t, h, false, c) && CapsOk(c)
    ensures Contents(t) != []
    ensures forall x | x in Leaves(t) :: x.Leaf? && x.ents != []
    decreases t, 1
  {
    if t.Leaf? {
      ContentsLeaf(t);
    } else {
      NonEmptyAll(t.kids, h - 1, c);
    }
  }

  lemma {:induction false} NonEmptyAll<K, V>(ts: seq<Tree<K, V>>, h: nat, c: Caps)
    requires CapsOk(c)
    requires forall i | 0 <= i < |ts| :: WF(ts[i], h, false, c)
    ensures ts != [] ==> ContentsOf(ts) != [] && Contents(ts[|ts| - 1]) != []
    ensures ts != [] ==> Last(ContentsOf(ts)) == Last(Contents(ts[|ts| - 1]))
    ensures forall x | x in LeavesOf(ts) :: x.Leaf? && x.ents != []
    decreases ts, 0
  {
    hide WF, Leaves, IdsOf;
    if ts != [] {
      NonEmpty(ts[0], h, c);
      NonEmptyAll(ts[1..], h, c);
      Split(ts, 0);
      assert ts[..0] == [];
      if |ts| > 1 {
        assert ts[1..][|ts| - 2] == ts[|ts| - 1];
      }
    }
  }

  /** The last key of an inner block is the last key of its last child. */
  lemma LastOfInner<K, V>(t: Tree<K, V>, h: nat, root: bool, c: Caps)
    requires WF(t, h, root, c) && CapsOk(c) && t.Inner?
    ensures Contents(t) != [] && Contents(Last(t.kids)) != []
    ensures Last(Contents(t)) == Last(Contents(Last(t.kids)))
  {
    hide LeavesOf, Flat;
    NonEmptyAll(t.kids, h - 1, c);
  }

  // ------------------------------------------------------------------
  // Splitting a full block
  // ------------------------------------------------------------------

  ghost predicate Splittable<K, V>(t: Tree<K, V>) {
    match t
    case Leaf(_, ents) => |ents| >= 2
    case Inner(_, kids, seps) => |kids| == |seps| + 1 && |seps| >= 1
  }

  /** The two halves of a full block and the key between them. */
  ghost function LeftHalf<K, V>(t: Tree<K, V>): Tree<K, V>
    requires Splittable(t)
  {
    match t
    case Leaf(id, ents) => Leaf(id, ents[..|ents| / 2])
    case Inner(id, kids, seps) => Inner(id, kids[..|seps| / 2 + 1], seps[..|seps| / 2])
  }

  ghost function RightHalf<K, V>(t: Tree<K, V>, newId: int): Tree<K, V>
    requires Splittable(t)
  {
    match t
    case Leaf(_, ents) => Leaf(newId, ents[|ents| / 2..])
    case Inner(_, kids, seps) => Inner(newId, kids[|seps| / 2 + 1..], seps[|seps| / 2 + 1..])
  }

  ghost function MiddleKey<K, V>(t: Tree<K, V>): K
    requires Splittable(t)
  {
    match t
    case Leaf(_, ents) => ents[|ents| / 2 - 1].key
    case Inner(_, _, seps) => seps[|seps| / 2]
  }

  lemma HalvesOfLeaf<K, V>(t: Tree<K, V>, root: bool, newId: int, c: Caps)
    requires WF(t, 0, root, c) && CapsOk(c) && Full(t, c) && t.Leaf?
    ensures Splittable(t)
    ensures WF(LeftHalf(t), 0, false, c) && WF(RightHalf(t, newId), 0, false, c)
    ensures Contents(LeftHalf(t)) + Contents(RightHalf(t, newId)) == Contents(t)
    ensures IsMaxOf(MiddleKey(t), LeftHalf(t))
  {
    ContentsLeaf(t);
    ContentsLeaf(LeftHalf(t));
    ContentsLeaf(RightHalf(t, newId));
  }

  lemma HalvesOfInner<K, V>(t: Tree<K, V>, newId: int)
    requires t.Inner? && Splittable(t)
    ensures Leaves(LeftHalf(t)) + Leaves(RightHalf(t, newId)) == Leaves(t)
    ensures Contents(LeftHalf(t)) + Contents(RightHalf(t, newId)) == Contents(t)
    ensures Ids(LeftHalf(t)) + Ids(RightHalf(t, newId)) == Ids(t) + multiset{newId}
  {
    var l, r := LeftHalf(t), RightHalf(t, newId);
    assert t.kids == l.kids + r.kids;
    LeavesOfAppend(l.kids, r.kids);
    ContentsOfAppend(l.kids, r.kids);
    IdsOfAppend(l.kids, r.kids);
  }

  lemma HalvesOfInnerWF<K, V>(t: Tree<K, V>, h: nat, root: bool, newId: int, c: Caps)
    requires WF(t, h, root, c) && CapsOk(c) && Full(t, c) && t.Inner?
    ensures Splittable(t)
    ensures WF(LeftHalf(t), h, false, c) && WF(RightHalf(t, newId), h, false, c)
    ensures IsMaxOf(MiddleKey(t), LeftHalf(t))
  {
    hide Leaves, LeavesOf, Flat;
    var l, r := LeftHalf(t), RightHalf(t, newId);
    var m := |t.seps| / 2;
    forall i | 0 <= i < |r.kids| ensures WF(r.kids[i], h - 1, false, c) {
      assert r.kids[i] == t.kids[m + 1 + i];
    }
    forall i | 0 <= i < |r.seps| ensures IsMaxOf(r.seps[i], r.kids[i]) {
      assert r.kids[i] == t.kids[m + 1 + i] && r.seps[i] == t.seps[m + 1 + i];
    }
    assert WF(l, h, false, c);
    LastOfInner(l, h, false, c);
    assert Last(l.kids) == t.kids[m];
    assert IsMaxOf(t.seps[m], t.kids[m]);
  }

  /** Both halves of a full block are well formed, no longer full, and hold what it held. */
  lemma Halves<K, V>(t: Tree<K, V>, h: nat, root: bool, newId: int, c: Caps)
    requires WF(t, h, root, c) && CapsOk(c) && Full(t, c)
    ensures Splittable(t)
    ensures WF(LeftHalf(t), h, false, c) && WF(RightHalf(t, newId), h, false, c)
    ensures !Full(LeftHalf(t), c) && !Full(RightHalf(t, newId), c)
    ensures Contents(LeftHalf(t)) + Contents(RightHalf(t, newId)) == Contents(t)
    ensures t.Inner? ==> Leaves(LeftHalf(t)) + Leaves(RightHalf(t, newId)) == Leaves(t)
    ensures Ids(LeftHalf(t)) + Ids(RightHalf(t, newId)) == Ids(t) + multiset{newId}
    ensures IsMaxOf(MiddleKey(t), LeftHalf(t))
  {
    if t.Leaf? {
      HalvesOfLeaf(t, root, newId, c);
    } else {
      HalvesOfInnerWF(t, h, root, newId, c);
      HalvesOfInner(t, newId);
    }
  }

  /** The parent `p` after its child `i` was split. */
  ghost function SplitKid<K, V>(p: Tree<K, V>, i: nat, newId: int): Tree<K, V>
    requires p.Inner? && i < |p.kids| == |p.seps| + 1 && Splittable(p.kids[i])
  {
    var t := p.kids[i];
    Inner(p.id,
          p.kids[..i] + [LeftHalf(t), RightHalf(t, newId)] + p.kids[i + 1..],
          p.seps[..i] + [MiddleKey(t)] + p.seps[i..])
  }

  lemma SplitKidWF<K, V>(p: Tree<K, V>, h: nat, root: bool, i: nat, newId: int, c: Caps)
    requires WF(p, h, root, c) && CapsOk(c) && p.Inner? && !Full(p, c)
    requires i < |p.kids| && Full(p.kids[i], c) && Splittable(p.kids[i])
    ensures WF(SplitKid(p, i, newId), h, root, c)
  {
    hide Leaves, Flat, LeavesOf, Ids, IdsOf;
    var t := p.kids[i];
    var l, r := LeftHalf(t), RightHalf(t, newId);
    var q := SplitKid(p, i, newId);
    Halves(t, h - 1, false, newId, c);
    NonEmpty(r, h - 1, c);
    forall j | 0 <= j < |q.kids| ensures WF(q.kids[j], h - 1, false, c) {
      assert q.kids[j] == if j < i then p.kids[j] else if j == i then l else if j == i + 1 then r else p.kids[j - 1];
    }
    forall j | 0 <= j < |q.seps| ensures IsMaxOf(q.seps[j], q.kids[j]) {
      if j < i {
        assert q.seps[j] == p.seps[j] && q.kids[j] == p.kids[j];
      } else if j == i {
        assert q.seps[j] == MiddleKey(t) && q.kids[j] == l;
      } else if j == i + 1 {
        assert q.seps[j] == p.seps[i] && q.kids[j] == r;
        assert IsMaxOf(p.seps[i], t);
      } else {
        assert q.seps[j] == p.seps[j - 1] && q.kids[j] == p.kids[j - 1];
      }
    }
  }

  /** What a split of child `i` keeps: the contents; and what it changes: one more block,
      and, when the child is a leaf, one leaf becoming two neighbours. */
  lemma SplitKidContents<K, V>(p: Tree<K, V>, h: nat, i: nat, newId: int, c: Caps)
    requires CapsOk(c) && p.Inner? && i < |p.kids| == |p.seps| + 1
    requires WF(p.kids[i], h, false, c) && Full(p.kids[i], c) && Splittable(p.kids[i])
    ensures Contents(SplitKid(p, i, newId)) == Contents(p)
    ensures Ids(SplitKid(p, i, newId)) == Ids(p) + multiset{newId}
    ensures Leaves(p) == LeavesOf(p.kids[..i]) + Leaves(p.kids[i]) + LeavesOf(p.kids[i + 1..])
    ensures Leaves(SplitKid(p, i, newId))
            == LeavesOf(p.kids[..i])
               + (Leaves(LeftHalf(p.kids[i])) + Leaves(RightHalf(p.kids[i], newId)))
               + LeavesOf(p.kids[i + 1..])
  {
    hide WF, LeavesOf, IdsOf, Flat, IsMaxOf, LeftHalf, RightHalf, MiddleKey;
    var t := p.kids[i];
    Halves(t, h, false, newId, c);
    Split(p.kids, i);
    Middle(p.kids[..i], [LeftHalf(t), RightHalf(t, newId)], p.kids[i + 1..]);
    Pair(LeftHalf(t), RightHalf(t, newId));
  }
}
