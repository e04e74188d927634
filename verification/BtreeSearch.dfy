/** Positions in the chain of leaves, and what the searches descend by. */
module BtreeSearch {
  import opened BtreeShape
  import opened BtreeZipper
  import opened BtreePages
  import opened BtreeSteps

  /** A position in a leaf; block -1 is the invalid position. */
  datatype Ref = Ref(block: int, entry: int)

  const NO_REF := Ref(-1, -1)

  /** Reference `r` is entry `pos` of the contents, in leaf number `i`. */
  ghost predicate InLeaf<K, V>(ls: seq<Tree<K, V>>, i: nat, r: Ref, pos: int) {
    && i < |ls| && ls[i].Leaf? && ls[i].id == r.block
    && 0 <= r.entry < |ls[i].ents|
    && pos == |Flat(ls[..i])| + r.entry
  }

  ghost predicate PosAt<K, V>(ls: seq<Tree<K, V>>, r: Ref, pos: int) {
    exists i: nat :: InLeaf(ls, i, r, pos)
  }

  lemma FlatAt<K, V>(ls: seq<Tree<K, V>>, i: nat, k: nat)
    requires i < |ls| && ls[i].Leaf? && k < |ls[i].ents|
    ensures |Flat(ls[..i])| + k < |Flat(ls)|
    ensures Flat(ls)[|Flat(ls[..i])| + k] == ls[i].ents[k]
  {
    FlatAround(ls, i);
  }

  lemma FlatThree<K, V>(a: seq<Tree<K, V>>, t: Tree<K, V>, b: seq<Tree<K, V>>)
    ensures Flat(a + [t] + b) == Flat(a) + Entries(t) + Flat(b)
  {
    hide Flat, Entries;
    FlatAppend(a + [t], b);
    FlatAppend(a, [t]);
    FlatSingle(t);
  }

  lemma FlatAround<K, V>(ls: seq<Tree<K, V>>, i: nat)
    requires i < |ls|
    ensures Flat(ls) == Flat(ls[..i]) + Entries(ls[i]) + Flat(ls[i + 1..])
  {
    hide Flat, Entries;
    Apart(ls, i);
    FlatThree(ls[..i], ls[i], ls[i + 1..]);
  }

  lemma Apart<T>(s: seq<T>, i: nat)
    requires i < |s|
    ensures s == s[..i] + [s[i]] + s[i + 1..]
  {
  }

  lemma FlatSingle<K, V>(t: Tree<K, V>)
    ensures Flat([t]) == Entries(t)
  {
    assert [t][1..] == [];
  }

  /** A reference means one position, and the entry there. */
  lemma PosEntry<K, V>(ls: seq<Tree<K, V>>, i: nat, r: Ref, pos: int)
    requires InLeaf(ls, i, r, pos)
    ensures 0 <= pos < |Flat(ls)| && Flat(ls)[pos] == ls[i].ents[r.entry]
  {
    FlatAt(ls, i, r.entry);
  }

  /** A position is a real reference, and inside the contents. */
  lemma PosInside<K, V>(ls: seq<Tree<K, V>>, r: Ref, pos: int)
    requires PosAt(ls, r, pos)
    ensures r != NO_REF && 0 <= pos < |Flat(ls)|
  {
    var i: nat :| InLeaf(ls, i, r, pos);
    PosEntry(ls, i, r, pos);
  }

  /** A tree of more than one leaf has no empty leaf. */
  lemma LeavesNotEmpty<K, V>(t: Tree<K, V>, h: nat, c: Caps)
    requires WF(t, h, true, c) && CapsOk(c)
    ensures |Leaves(t)| >= 1
    ensures forall x | x in Leaves(t) :: x.Leaf?
    ensures t.Leaf? ==> Leaves(t) == [t]
    ensures |Leaves(t)| > 1 ==> forall x | x in Leaves(t) :: x.ents != []
  {
    if t.Inner? {
      NonEmptyAll(t.kids, h - 1, c);
    }
  }

  /** `pos` is the last entry that compares `<= 0`. */
  ghost predicate IsLastLe<K, V>(s: seq<Entry<K, V>>, pos: int, cmp: K -> int) {
    0 <= pos < |s| && cmp(s[pos].key) <= 0 && forall j | pos < j < |s| :: cmp(s[j].key) > 0
  }

  /** `pos` is the first entry that compares `>= 0`. */
  ghost predicate IsFirstGe<K, V>(s: seq<Entry<K, V>>, pos: int, cmp: K -> int) {
    0 <= pos < |s| && cmp(s[pos].key) >= 0 && forall j | 0 <= j < pos :: cmp(s[j].key) < 0
  }

  // ------------------------------------------------------------------
  // findNext: the descent, and the pages it forgets
  // ------------------------------------------------------------------

  /** The first separator that compares `>= 0`, or their number. */
  ghost function FirstGe<K>(seps: seq<K>, cmp: K -> int): (i: nat)
    ensures i <= |seps|
    ensures forall j | 0 <= j < i :: cmp(seps[j]) < 0
    ensures i < |seps| ==> cmp(seps[i]) >= 0
  {
    if seps == [] || cmp(seps[0]) >= 0 then 0 else 1 + FirstGe(seps[1..], cmp)
  }

  lemma FirstGeIs<K>(seps: seq<K>, i: nat, cmp: K -> int)
    requires i <= |seps| && forall j | 0 <= j < i :: cmp(seps[j]) < 0
    requires i < |seps| ==> cmp(seps[i]) >= 0
    ensures FirstGe(seps, cmp) == i
  {
  }

  /** The inner blocks that `findNext` leaves pinned: those where it enters a child that is
      neither the first nor the last. */
  ghost function Forgotten<K, V>(t: Tree<K, V>, cmp: K -> int): multiset<int>
    decreases t
  {
    match t
    case Leaf(_, _) => multiset{}
    case Inner(id, kids, seps) =>
      var i := FirstGe(seps, cmp);
      (if 0 < i < |seps| then multiset{id} else multiset{})
      + (if i < |kids| then Forgotten(kids[i], cmp) else multiset{})
  }

  /** On its way down `findNext` only enters first and last children. */
  ghost predicate OuterPath<K, V>(t: Tree<K, V>, cmp: K -> int)
    decreases t
  {
    match t
    case Leaf(_, _) => true
    case Inner(_, kids, seps) =>
      var i := FirstGe(seps, cmp);
      (i == 0 || i == |seps|) && (i < |kids| ==> OuterPath(kids[i], cmp))
  }

  /** `findNext` releases every page exactly when its path is an outer path. */
  lemma {:induction false} BalancedIffOuter<K, V>(t: Tree<K, V>, cmp: K -> int)
    ensures Forgotten(t, cmp) == multiset{} <==> OuterPath(t, cmp)
    decreases t
  {
    if t.Inner? {
      var i := FirstGe(t.seps, cmp);
      if i < |t.kids| {
        BalancedIffOuter(t.kids[i], cmp);
      }
      if 0 < i < |t.seps| {
        assert t.id in Forgotten(t, cmp);
      }
    }
  }

  lemma MaxOfLeaf<K, V>(id: int, e: Entry<K, V>)
    ensures IsMaxOf(e.key, Leaf(id, [e]))
  {
    ContentsLeaf(Leaf(id, [e]));
  }

  // A tree that `findNext` leaves pinned, as five insertions build it.

  function Nth(k: int): Entry<int, int> {
    Entry(k, 0)
  }

  const SMALL := Caps(4, 4)

  /** What `insert` makes of the empty tree for the keys 1 to 5, one after the other. */
  ghost function SmallTree(): Tree<int, int> {
    Inner(3, [Leaf(1, [Nth(1)]), Leaf(2, [Nth(2)]), Leaf(4, [Nth(3), Nth(4), Nth(5)])], [1, 2])
  }

  /** The entry goes to the end of child `i`. */
  ghost function IntoChild(t: Tree<int, int>, i: nat, e: Entry<int, int>): Tree<int, int>
    requires t.Inner? && i < |t.kids| == |t.seps| + 1 && t.kids[i].Leaf?
  {
    Plug(Down(Top, t, i), Grown(t.kids[i], |t.kids[i].ents|, e))
  }

  /** The leaf that the first three insertions leave; it is full. */
  ghost function FullLeaf(): Tree<int, int> {
    Grown(Grown(Grown(Leaf(1, []), 0, Nth(1)), 1, Nth(2)), 2, Nth(3))
  }

  lemma FullLeafIs()
    ensures FullLeaf() == Leaf(1, [Nth(1), Nth(2), Nth(3)]) && Full(FullLeaf(), SMALL)
    ensures !Full(Grown(Grown(Leaf(1, []), 0, Nth(1)), 1, Nth(2)), SMALL)
  {
    assert Grown(Leaf(1, []), 0, Nth(1)) == Leaf(1, [Nth(1)]);
    assert Grown(Leaf(1, [Nth(1)]), 1, Nth(2)) == Leaf(1, [Nth(1), Nth(2)]);
    assert Grown(Leaf(1, [Nth(1), Nth(2)]), 2, Nth(3)) == Leaf(1, [Nth(1), Nth(2), Nth(3)]);
  }

  /** The fourth insertion splits the root and enters the right half. */
  ghost function SmallRoot(): Tree<int, int> {
    Inner(3, [Leaf(1, [Nth(1)]), Leaf(2, [Nth(2), Nth(3)])], [1])
  }

  lemma SmallRootIs()
    ensures Splittable(Leaf(1, [Nth(1), Nth(2), Nth(3)]))
            && GrownRoot(Leaf(1, [Nth(1), Nth(2), Nth(3)]), 2) == SmallRoot()
  {
    var l := Leaf(1, [Nth(1), Nth(2), Nth(3)]);
    assert LeftHalf(l) == Leaf(1, [Nth(1)]) && RightHalf(l, 2) == Leaf(2, [Nth(2), Nth(3)]);
  }

  lemma IntoLastChild(t: Tree<int, int>, i: nat, e: Entry<int, int>)
    requires t.Inner? && i < |t.kids| == |t.seps| + 1 && t.kids[i].Leaf? && i == |t.seps|
    ensures IntoChild(t, i, e) == Inner(t.id, t.kids[..i] + [Leaf(t.kids[i].id, t.kids[i].ents + [e])], t.seps)
  {
    var kid := t.kids[i];
    assert kid.ents[..|kid.ents|] + [e] + kid.ents[|kid.ents|..] == kid.ents + [e];
    var f := Frame(Down(Top, t, i), Grown(kid, |kid.ents|, e));
    assert f.kids == t.kids[..i] + [Grown(kid, |kid.ents|, e)];
    assert t.seps[..i] + t.seps[i..] == t.seps;
    assert Plug(Top, f) == f;
  }

  /** The fifth splits that half and enters its right half. */
  ghost function SmallFour(): Tree<int, int> {
    Inner(3, [Leaf(1, [Nth(1)]), Leaf(2, [Nth(2), Nth(3), Nth(4)])], [1])
  }

  lemma SmallSplitIs()
    ensures Splittable(SmallFour().kids[1])
    ensures SplitKid(SmallFour(), 1, 4) ==
            Inner(3, [Leaf(1, [Nth(1)]), Leaf(2, [Nth(2)]), Leaf(4, [Nth(3), Nth(4)])], [1, 2])
  {
    var t := SmallFour();
    assert LeftHalf(t.kids[1]) == Leaf(2, [Nth(2)]) && RightHalf(t.kids[1], 4) == Leaf(4, [Nth(3), Nth(4)]);
    assert t.kids[..1] == [Leaf(1, [Nth(1)])] && t.kids[2..] == [];
    assert t.seps[..1] == [1] && t.seps[1..] == [];
  }

  /** The whole way: root split, entry into a child with room, split of the full child, entry into
      a child with room. The keys are always greater than all separators. */
  lemma SmallTreeReached()
    ensures Full(FullLeaf(), SMALL) && Splittable(FullLeaf()) && GrownRoot(FullLeaf(), 2) == SmallRoot()
    ensures !Full(SmallRoot().kids[1], SMALL) && IntoChild(SmallRoot(), 1, Nth(4)) == SmallFour()
    ensures !Full(SmallFour(), SMALL) && Full(SmallFour().kids[1], SMALL) && Splittable(SmallFour().kids[1])
    ensures var t := SplitKid(SmallFour(), 1, 4);
            && |t.kids| == |t.seps| + 1 == 3 && t.seps[1] < 5 && t.kids[2].Leaf? && !Full(t.kids[2], SMALL)
            && IntoChild(t, 2, Nth(5)) == SmallTree()
  {
    hide IntoChild, FullLeaf, GrownRoot, SplitKid;
    FullLeafIs();
    SmallRootIs();
    IntoLastChild(SmallRoot(), 1, Nth(4));
    SmallSplitIs();
    var t := SplitKid(SmallFour(), 1, 4);
    IntoLastChild(t, 2, Nth(5));
    assert SmallRoot().kids[..1] == [Leaf(1, [Nth(1)])] && t.kids[..2] == [Leaf(1, [Nth(1)]), Leaf(2, [Nth(2)])];
    assert [Nth(2), Nth(3)] + [Nth(4)] == [Nth(2), Nth(3), Nth(4)];
    assert [Nth(3), Nth(4)] + [Nth(5)] == [Nth(3), Nth(4), Nth(5)];
    assert IntoChild(SmallRoot(), 1, Nth(4)).kids == SmallFour().kids;
    assert IntoChild(t, 2, Nth(5)).kids == SmallTree().kids;
  }

  lemma SmallTreeWF()
    ensures WF(SmallTree(), 1, true, SMALL)
  {
    hide IsMaxOf;
    var kids := SmallTree().kids;
    MaxOfLeaf(1, Nth(1));
    MaxOfLeaf(2, Nth(2));
    assert forall i | 0 <= i < 3 :: WF(kids[i], 0, false, SMALL);
  }

  /** Looking up the key 2 in it leaves the root pinned. */
  lemma FindNextForgets()
    ensures WF(SmallTree(), 1, true, SMALL) && Forgotten(SmallTree(), (k: int) => k - 2) == multiset{3}
  {
    hide WF, IsMaxOf;
    SmallTreeWF();
    var cmp := (k: int) => k - 2;
    FirstGeIs(SmallTree().seps, 1, cmp);
    assert Forgotten(SmallTree().kids[1], cmp) == multiset{};
  }
}
