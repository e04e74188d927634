/** The three ways in which `insert` changes the stored tree: it splits the root, it splits
    a child of a block that has room, and it adds an entry to a leaf that has room. Each
    keeps `Holds`; the splits keep the contents. */
module BtreeSteps {
  import opened BtreeShape
  import opened BtreeZipper
  import opened BtreePages

  /** A chain survives the split of any subtree `t` of its tree. */
  lemma SplitChain<K, V>(p: Pages<K, V>, a: seq<Tree<K, V>>, t: Tree<K, V>, b: seq<Tree<K, V>>,
                         h: nat, root: bool, m: int, c: Caps)
    requires WF(t, h, root, c) && CapsOk(c) && Full(t, c) && Splittable(t)
    requires t.id in p && Encodes(p[t.id], t)
    requires Chain(p, a + Leaves(t) + b) && DistinctLeaves(a + Leaves(t) + b)
    requires m !in p && 0 !in p
    ensures CanSplit(p, t.id)
    ensures Chain(SplitPages(p, t.id, m), a + (Leaves(LeftHalf(t)) + Leaves(RightHalf(t, m))) + b)
  {
    if t.Leaf? {
      LeafSplitChain(p, a, t, b, m);
      assert [LeftHalf(t)] + [RightHalf(t, m)] == [LeftHalf(t), RightHalf(t, m)];
    } else {
      HalvesOfInner(t, m);
      var ls := a + Leaves(t) + b;
      forall i | 0 <= i < |ls| ensures SameLinks(p, SplitPages(p, t.id, m), ls[i].id) {
        assert Linked(p, ls, i);
        SplitPagesOthers(p, t.id, m, ls[i].id);
      }
      ChainFrame(p, SplitPages(p, t.id, m), ls, ls);
    }
  }

  /** Writing an inner block does not touch the chain. */
  lemma InnerWriteChain<K, V>(p: Pages<K, V>, n: int, b: Block<K, V>, ls: seq<Tree<K, V>>)
    requires Chain(p, ls) && (n in p ==> p[n].InnerBlock?)
    ensures Chain(p[n := b], ls)
  {
    forall i | 0 <= i < |ls| ensures SameLinks(p, p[n := b], ls[i].id) {
      assert Linked(p, ls, i);
    }
    ChainFrame(p, p[n := b], ls, ls);
  }

  // ------------------------------------------------------------------
  // The root
  // ------------------------------------------------------------------

  ghost function RootPages<K, V>(p: Pages<K, V>, n: int, m: int): Pages<K, V>
    requires CanSplit(p, n)
  {
    SplitPages(p, n, m)[m + 1 := InnerBlock(n, [Child(SplitKey(p[n]), m)])]
  }

  ghost function GrownRoot<K, V>(t: Tree<K, V>, m: int): Tree<K, V>
    requires Splittable(t)
  {
    Inner(m + 1, [LeftHalf(t), RightHalf(t, m)], [MiddleKey(t)])
  }

  lemma RootSplitChain<K, V>(p: Pages<K, V>, t: Tree<K, V>, h: nat, num: int, c: Caps)
    requires Holds(p, t, h, num, c) && Full(t, c) && Splittable(t)
    ensures CanSplit(p, t.id)
    ensures Chain(RootPages(p, t.id, num), Leaves(GrownRoot(t, num)))
  {
    hide WF, Ids, LeftHalf, RightHalf, Chain, Distinct, DistinctLeaves;
    var u := GrownRoot(t, num);
    assert [] + Leaves(t) + [] == Leaves(t);
    LeavesAreDistinct(t);
    SplitChain(p, [], t, [], h, true, num, c);
    Pair(LeftHalf(t), RightHalf(t, num));
    assert Leaves(u) == [] + (Leaves(LeftHalf(t)) + Leaves(RightHalf(t, num))) + [];
    InnerWriteChain(SplitPages(p, t.id, num), num + 1, InnerBlock(t.id, [Child(SplitKey(p[t.id]), num)]), Leaves(u));
  }

  lemma ReprWrite<K, V>(p: Pages<K, V>, n: int, b: Block<K, V>, t: Tree<K, V>)
    requires Repr(p, t) && n !in Ids(t)
    ensures Repr(p[n := b], t)
  {
    ReprIds(p, t);
    ReprFrame(p, p[n := b], t);
  }

  lemma RootSplitRepr<K, V>(p: Pages<K, V>, t: Tree<K, V>, h: nat, num: int, c: Caps)
    requires WF(t, h, true, c) && CapsOk(c) && Full(t, c) && Splittable(t) && CanSplit(p, t.id)
    requires Repr(p, t) && Distinct(Ids(t)) && num !in p && num + 1 !in p
    ensures Repr(RootPages(p, t.id, num), GrownRoot(t, num))
  {
    hide WF, Full, Ids, IsMaxOf, Distinct, SplitKey, SplitPages, LeavesOf, Leaves, Flat;
    ReprIds(p, t);
    IdInIds(t);
    HalvesRepr(p, t, h, true, num, c);
    var b := InnerBlock(t.id, [Child(SplitKey(p[t.id]), num)]);
    var q := SplitPages(p, t.id, num);
    Halves(t, h, true, num, c);
    assert num + 1 !in Ids(t) + multiset{num};
    ReprWrite(q, num + 1, b, LeftHalf(t));
    ReprWrite(q, num + 1, b, RightHalf(t, num));
    assert LeftHalf(t).id == t.id;
  }

  lemma RootSplitShape<K, V>(t: Tree<K, V>, h: nat, num: int, c: Caps)
    requires WF(t, h, true, c) && CapsOk(c) && Full(t, c)
    ensures Splittable(t)
    ensures WF(GrownRoot(t, num), h + 1, true, c)
    ensures Contents(GrownRoot(t, num)) == Contents(t)
    ensures Ids(GrownRoot(t, num)) == Ids(t) + multiset{num, num + 1}
  {
    Halves(t, h, true, num, c);
    GrownRootWF(LeftHalf(t), RightHalf(t, num), MiddleKey(t), h, num + 1, c);
    Pair(LeftHalf(t), RightHalf(t, num));
  }

  lemma GrownRootWF<K, V>(l: Tree<K, V>, r: Tree<K, V>, key: K, h: nat, id: int, c: Caps)
    requires CapsOk(c) && WF(l, h, false, c) && WF(r, h, false, c) && IsMaxOf(key, l)
    ensures WF(Inner(id, [l, r], [key]), h + 1, true, c)
  {
  }

  lemma DistinctAdd(ids: multiset<int>, m: int)
    requires Distinct(ids) && m !in ids
    ensures Distinct(ids + multiset{m})
  {
  }

  /** Splitting a full root makes the tree one level higher. */
  lemma RootSplitHolds<K, V>(p: Pages<K, V>, t: Tree<K, V>, h: nat, num: int, c: Caps)
    requires Holds(p, t, h, num, c) && Full(t, c)
    ensures Splittable(t) && CanSplit(p, t.id)
    ensures Holds(RootPages(p, t.id, num), GrownRoot(t, num), h + 1, num + 2, c)
    ensures Contents(GrownRoot(t, num)) == Contents(t)
  {
    hide WF, Full, Repr, Chain, Leaves, Flat, Ids, RootPages, GrownRoot;
    RootSplitShape(t, h, num, c);
    RootSplitChain(p, t, h, num, c);
    ReprIds(p, t);
    RootSplitRepr(p, t, h, num, c);
    DistinctAdd(Ids(t), num);
    DistinctAdd(Ids(t) + multiset{num}, num + 1);
    assert Ids(GrownRoot(t, num)) == Ids(t) + multiset{num} + multiset{num + 1};
    RootPagesBounded(p, t.id, num);
  }

  lemma RootPagesBounded<K, V>(p: Pages<K, V>, n: int, num: int)
    requires CanSplit(p, n) && forall x | x in p :: 1 <= x < num
    ensures forall x | x in RootPages(p, n, num) :: 1 <= x < num + 2
  {
  }

  // ------------------------------------------------------------------
  // A child of a block with room
  // ------------------------------------------------------------------

  ghost predicate CanInsertChild<K, V>(p: Pages<K, V>, n: int, i: nat) {
    n in p && p[n].InnerBlock? && i <= |p[n].children|
  }

  ghost function InsertChild<K, V>(p: Pages<K, V>, n: int, i: nat, key: K, m: int): Pages<K, V>
    requires CanInsertChild(p, n, i)
  {
    p[n := InnerBlock(p[n].lref, p[n].children[..i] + [Child(key, m)] + p[n].children[i..])]
  }

  /** The store after child `i` of block `n` was split into itself and block `m`. */
  ghost predicate CanSplitKid<K, V>(p: Pages<K, V>, n: int, i: nat, kid: int) {
    && CanSplit(p, kid) && CanInsertChild(p, n, i) && n != kid
  }

  ghost function KidPages<K, V>(p: Pages<K, V>, n: int, i: nat, kid: int, m: int): Pages<K, V>
    requires CanSplitKid(p, n, i, kid) && m != n
  {
    InsertChild(SplitPages(p, kid, m), n, i, SplitKey(p[kid]), m)
  }

  lemma FiveParts(a: multiset<int>, id: int, l: multiset<int>, k: multiset<int>, r: multiset<int>)
    requires Distinct(a + (multiset{id} + l + k + r))
    ensures id !in a && id !in l && id !in k && id !in r
    ensures forall x | x in k :: x !in a && x !in l && x !in r
    ensures Distinct(k)
  {
    var s := a + (multiset{id} + l + k + r);
    assert id in s;
    assert forall x | x in k :: x in s;
  }

  lemma KidsIds<K, V>(t: Tree<K, V>, i: nat)
    requires t.Inner? && i < |t.kids|
    ensures Ids(t) == multiset{t.id} + IdsOf(t.kids[..i]) + Ids(t.kids[i]) + IdsOf(t.kids[i + 1..])
    ensures t.kids[i].id in Ids(t.kids[i])
  {
    Split(t.kids, i);
    IdInIds(t.kids[i]);
  }

  /** What distinct block numbers mean around one child. */
  lemma Separate<K, V>(ctx: Ctx<K, V>, t: Tree<K, V>, i: nat)
    requires t.Inner? && i < |t.kids| && Distinct(Ids(Plug(ctx, t)))
    ensures t.id != t.kids[i].id
    ensures t.id !in CtxIds(ctx) && t.kids[i].id !in CtxIds(ctx)
    ensures forall j | 0 <= j < |t.kids| :: t.id !in Ids(t.kids[j]) && (j != i ==> t.kids[i].id !in Ids(t.kids[j]))
    ensures Distinct(Ids(t.kids[i]))
  {
    hide Ids, IdsOf, CtxIds, Distinct, Plug;
    PlugIds(ctx, t);
    KidsIds(t, i);
    FiveParts(CtxIds(ctx), t.id, IdsOf(t.kids[..i]), Ids(t.kids[i]), IdsOf(t.kids[i + 1..]));
    forall j | 0 <= j < |t.kids|
      ensures t.id !in Ids(t.kids[j]) && (j != i ==> t.kids[i].id !in Ids(t.kids[j]))
    {
      SiblingIds(t.kids, i, j);
    }
  }

  lemma SiblingIds<K, V>(ts: seq<Tree<K, V>>, i: nat, j: nat)
    requires i < |ts| && j < |ts|
    ensures if j < i then Ids(ts[j]) <= IdsOf(ts[..i]) else if j > i then Ids(ts[j]) <= IdsOf(ts[i + 1..]) else true
  {
    if j < i {
      assert ts[..i][j] == ts[j];
      KidIds(ts[..i], j);
    } else if j > i {
      assert ts[i + 1..][j - i - 1] == ts[j];
      KidIds(ts[i + 1..], j - i - 1);
    }
  }

  // The pieces of `KidSplitHolds`: blocks, chain, shape.

  lemma SplitKidEncodes<K, V>(b: Block<K, V>, t: Tree<K, V>, i: nat, m: int)
    requires t.Inner? && i < |t.kids| == |t.seps| + 1 && Splittable(t.kids[i]) && Encodes(b, t)
    ensures Encodes(InnerBlock(b.lref, b.children[..i] + [Child(MiddleKey(t.kids[i]), m)] + b.children[i..]),
                    SplitKid(t, i, m))
  {
    var u := SplitKid(t, i, m);
    var ch := b.children[..i] + [Child(MiddleKey(t.kids[i]), m)] + b.children[i..];
    assert u.kids[0].id == t.kids[0].id;
    forall j | 0 <= j < |u.seps| ensures ch[j] == Child(u.seps[j], u.kids[j + 1].id) {
      if j < i {
        assert u.kids[j + 1].id == t.kids[j + 1].id;
        assert b.children[j] == Child(t.seps[j], t.kids[j + 1].id);
      } else if j > i {
        assert u.kids[j + 1] == t.kids[j];
        assert b.children[j - 1] == Child(t.seps[j - 1], t.kids[j].id);
      }
    }
  }

  lemma SplitInnerOthers<K, V>(p: Pages<K, V>, n: int, m: int, x: int)
    requires CanSplit(p, n) && x != n && x != m && x in p && p[x].InnerBlock?
    ensures x in SplitPages(p, n, m) && SplitPages(p, n, m)[x] == p[x]
  {
  }

  /** The two halves, after the parent was written. */
  lemma KidHalvesRepr<K, V>(p: Pages<K, V>, k: Tree<K, V>, h: nat, n: int, b: Block<K, V>, m: int, c: Caps)
    requires CapsOk(c) && WF(k, h, false, c) && Full(k, c) && Splittable(k) && CanSplit(p, k.id)
    requires Repr(p, k) && Distinct(Ids(k)) && m !in p && n in p && n !in Ids(k)
    ensures Repr(SplitPages(p, k.id, m)[n := b], LeftHalf(k))
    ensures Repr(SplitPages(p, k.id, m)[n := b], RightHalf(k, m))
    ensures SplitKey(p[k.id]) == MiddleKey(k)
  {
    ReprIds(p, k);
    HalvesRepr(p, k, h, false, m, c);
    Halves(k, h, false, m, c);
    assert n !in Ids(k) + multiset{m};
    ReprWrite(SplitPages(p, k.id, m), n, b, LeftHalf(k));
    ReprWrite(SplitPages(p, k.id, m), n, b, RightHalf(k, m));
  }

  lemma UntouchedRepr<K, V>(p: Pages<K, V>, kid: int, n: int, b: Block<K, V>, m: int, t: Tree<K, V>)
    requires CanSplit(p, kid) && m !in p && Repr(p, t) && kid !in Ids(t) && n !in Ids(t)
    ensures Repr(SplitPages(p, kid, m)[n := b], t)
  {
    ReprIds(p, t);
    SplitPagesFrame(p, kid, m, Ids(t));
    ReprFrame(p, SplitPages(p, kid, m), t);
    ReprWrite(SplitPages(p, kid, m), n, b, t);
  }

  lemma InnerRepr<K, V>(p: Pages<K, V>, t: Tree<K, V>)
    requires t.Inner?
    ensures Repr(p, t) <==> t.id in p && Encodes(p[t.id], t) && AllRepr(p, t.kids)
  {
  }

  lemma SplitKidsRepr<K, V>(q: Pages<K, V>, t: Tree<K, V>, i: nat, m: int)
    requires t.Inner? && i < |t.kids| == |t.seps| + 1 && Splittable(t.kids[i])
    requires Repr(q, LeftHalf(t.kids[i])) && Repr(q, RightHalf(t.kids[i], m))
    requires forall j | 0 <= j < |t.kids| && j != i :: Repr(q, t.kids[j])
    ensures AllRepr(q, SplitKid(t, i, m).kids)
  {
    hide Repr, LeftHalf, RightHalf, MiddleKey, Splittable;
    var k, us := t.kids[i], SplitKid(t, i, m).kids;
    forall j | 0 <= j < |us| ensures Repr(q, us[j]) {
      assert us[j] == if j < i then t.kids[j] else if j == i then LeftHalf(k)
                      else if j == i + 1 then RightHalf(k, m) else t.kids[j - 1];
    }
  }

  lemma KidSplitReprBelow<K, V>(p: Pages<K, V>, t: Tree<K, V>, h: nat, i: nat, m: int, c: Caps)
    requires t.Inner? && i < |t.kids| == |t.seps| + 1 && CapsOk(c)
    requires WF(t.kids[i], h, false, c) && Full(t.kids[i], c) && Splittable(t.kids[i]) && CanSplit(p, t.kids[i].id)
    requires Repr(p, t) && m !in p && Distinct(Ids(t.kids[i])) && t.id != t.kids[i].id
    requires forall j | 0 <= j < |t.kids| :: t.id !in Ids(t.kids[j]) && (j != i ==> t.kids[i].id !in Ids(t.kids[j]))
    ensures CanSplitKid(p, t.id, i, t.kids[i].id) && m != t.id
    ensures Repr(KidPages(p, t.id, i, t.kids[i].id, m), SplitKid(t, i, m))
  {
    hide WF, Full, Ids, Repr, LeftHalf, RightHalf, Distinct, SplitKey, SplitPages;
    var k := t.kids[i];
    InnerRepr(p, t);
    SplitInnerOthers(p, k.id, m, t.id);
    SplitKidEncodes(p[t.id], t, i, m);
    var b := InnerBlock(p[t.id].lref, p[t.id].children[..i] + [Child(MiddleKey(k), m)] + p[t.id].children[i..]);
    KidHalvesRepr(p, k, h, t.id, b, m, c);
    var q := SplitPages(p, k.id, m)[t.id := b];
    assert q == KidPages(p, t.id, i, k.id, m);
    forall j | 0 <= j < |t.kids| && j != i ensures Repr(q, t.kids[j]) {
      UntouchedRepr(p, k.id, t.id, b, m, t.kids[j]);
    }
    SplitKidsRepr(q, t, i, m);
    InnerRepr(q, SplitKid(t, i, m));
  }

  lemma KidSplitRepr<K, V>(p: Pages<K, V>, ctx: Ctx<K, V>, t: Tree<K, V>, h: nat, i: nat, m: int, c: Caps)
    requires t.Inner? && i < |t.kids| == |t.seps| + 1 && CapsOk(c)
    requires WF(t.kids[i], h, false, c) && Full(t.kids[i], c) && Splittable(t.kids[i]) && CanSplit(p, t.kids[i].id)
    requires Repr(p, Plug(ctx, t)) && Distinct(Ids(Plug(ctx, t))) && m !in p
    ensures CanSplitKid(p, t.id, i, t.kids[i].id) && m != t.id
    ensures Repr(KidPages(p, t.id, i, t.kids[i].id, m), Plug(ctx, SplitKid(t, i, m)))
  {
    hide WF, Full, Repr, CtxRepr, Leaves, Plug, Ids, IdsOf, CtxIds, Distinct, SplitPages;
    PlugRepr(p, ctx, t);
    Separate(ctx, t, i);
    KidSplitReprBelow(p, t, h, i, m, c);
    ReprIds(p, Plug(ctx, t));
    PlugIds(ctx, t);
    SplitPagesFrame(p, t.kids[i].id, m, CtxIds(ctx));
    var q := KidPages(p, t.id, i, t.kids[i].id, m);
    CtxReprFrame(p, q, ctx, t, SplitKid(t, i, m));
    PlugRepr(q, ctx, SplitKid(t, i, m));
  }

  lemma KidSplitChain<K, V>(p: Pages<K, V>, ctx: Ctx<K, V>, t: Tree<K, V>, h: nat, i: nat, m: int, c: Caps)
    requires t.Inner? && i < |t.kids| == |t.seps| + 1 && CapsOk(c)
    requires WF(t.kids[i], h, false, c) && Full(t.kids[i], c) && Splittable(t.kids[i])
    requires Repr(p, Plug(ctx, t)) && Distinct(Ids(Plug(ctx, t))) && m !in p && 0 !in p
    requires Chain(p, Leaves(Plug(ctx, t)))
    ensures CanSplitKid(p, t.id, i, t.kids[i].id) && m != t.id
    ensures Chain(KidPages(p, t.id, i, t.kids[i].id, m), Leaves(Plug(ctx, SplitKid(t, i, m))))
  {
    var k := t.kids[i];
    var u := SplitKid(t, i, m);
    PlugRepr(p, ctx, t);
    Separate(ctx, t, i);
    SplitKidContents(t, h, i, m, c);
    PlugLeaves(ctx, t);
    PlugLeaves(ctx, u);
    var a, b := LeavesOf(t.kids[..i]), LeavesOf(t.kids[i + 1..]);
    Regroup(LeavesBefore(ctx), a, Leaves(k), b, LeavesAfter(ctx));
    Regroup(LeavesBefore(ctx), a, Leaves(LeftHalf(k)) + Leaves(RightHalf(k, m)), b, LeavesAfter(ctx));
    LeavesAreDistinct(Plug(ctx, t));
    SplitChain(p, LeavesBefore(ctx) + a, k, b + LeavesAfter(ctx), h, false, m, c);
    SplitInnerOthers(p, k.id, m, t.id);
    var q := SplitPages(p, k.id, m);
    InnerWriteChain(q, t.id, KidPages(p, t.id, i, k.id, m)[t.id], Leaves(Plug(ctx, u)));
  }

  lemma KidSplitShape<K, V>(ctx: Ctx<K, V>, t: Tree<K, V>, h: nat, i: nat, num: int, c: Caps)
    requires WF(Plug(ctx, t), h + Depth(ctx), true, c) && CtxShape(ctx) && CapsOk(c)
    requires t.Inner? && !Full(t, c) && i < |t.kids| && Full(t.kids[i], c)
    ensures h > 0 && |t.kids| == |t.seps| + 1 && Splittable(t.kids[i]) && WF(t.kids[i], h - 1, false, c)
    ensures WF(Plug(ctx, SplitKid(t, i, num)), h + Depth(ctx), true, c)
    ensures Contents(SplitKid(t, i, num)) == Contents(t) && Contents(t) != []
    ensures Ids(SplitKid(t, i, num)) == Ids(t) + multiset{num}
  {
    hide Plug, CtxShape, Ids, Leaves, Flat, LeftHalf, RightHalf, IsMaxOf;
    PlugSub(ctx, t, h, c);
    Halves(t.kids[i], h - 1, false, num, c);
    SplitKidContents(t, h - 1, i, num, c);
    SplitKidWF(t, h, ctx.Top?, i, num, c);
    LastOfInner(t, h, ctx.Top?, c);
    PlugWF(ctx, t, SplitKid(t, i, num), h, c);
  }

  lemma KidPagesBounded<K, V>(p: Pages<K, V>, n: int, i: nat, kid: int, num: int)
    requires CanSplitKid(p, n, i, kid) && num != n && forall x | x in p :: 1 <= x < num
    ensures forall x | x in KidPages(p, n, i, kid, num) :: 1 <= x < num + 1
  {
  }

  lemma KidSplitIds<K, V>(p: Pages<K, V>, ctx: Ctx<K, V>, t: Tree<K, V>, u: Tree<K, V>, num: int)
    requires Repr(p, Plug(ctx, t)) && Distinct(Ids(Plug(ctx, t))) && num !in p
    requires Ids(u) == Ids(t) + multiset{num}
    ensures Distinct(Ids(Plug(ctx, u)))
  {
    ReprIds(p, Plug(ctx, t));
    PlugIds(ctx, t);
    PlugIds(ctx, u);
    DistinctAdd(Ids(Plug(ctx, t)), num);
    assert Ids(Plug(ctx, u)) == Ids(Plug(ctx, t)) + multiset{num};
  }

  lemma PlugSameContents<K, V>(ctx: Ctx<K, V>, t: Tree<K, V>, u: Tree<K, V>)
    requires Contents(t) == Contents(u)
    ensures Contents(Plug(ctx, t)) == Contents(Plug(ctx, u))
  {
    PlugContents(ctx, t);
    PlugContents(ctx, u);
  }

  /** Splitting a full child of a block with room keeps the tree stored, and its contents. */
  lemma KidSplitHolds<K, V>(p: Pages<K, V>, ctx: Ctx<K, V>, t: Tree<K, V>, h: nat, i: nat, num: int, c: Caps)
    requires Holds(p, Plug(ctx, t), h + Depth(ctx), num, c) && CtxShape(ctx)
    requires t.Inner? && !Full(t, c) && i < |t.kids| && Full(t.kids[i], c)
    ensures |t.kids| == |t.seps| + 1 && Splittable(t.kids[i]) && CanSplitKid(p, t.id, i, t.kids[i].id) && num != t.id
    ensures Holds(KidPages(p, t.id, i, t.kids[i].id, num), Plug(ctx, SplitKid(t, i, num)), h + Depth(ctx), num + 1, c)
    ensures Contents(Plug(ctx, SplitKid(t, i, num))) == Contents(Plug(ctx, t))
    ensures Contents(SplitKid(t, i, num)) == Contents(t)
  {
    hide Plug, Ids, WF, Full, Repr, Chain, Leaves, Flat, Distinct, SplitKid, SplitPages, CtxShape, Splittable;
    KidSplitShape(ctx, t, h, i, num, c);
    KidSplitChain(p, ctx, t, h - 1, i, num, c);
    KidSplitRepr(p, ctx, t, h - 1, i, num, c);
    PlugSameContents(ctx, t, SplitKid(t, i, num));
    KidSplitIds(p, ctx, t, SplitKid(t, i, num), num);
    KidPagesBounded(p, t.id, i, t.kids[i].id, num);
  }

  /** The same, for a tree of height `top`; what the caller needs about the two blocks. */
  lemma KidSplitAt<K, V>(p: Pages<K, V>, ctx: Ctx<K, V>, t: Tree<K, V>, top: nat, i: nat, num: int, c: Caps)
    requires Holds(p, Plug(ctx, t), top, num, c) && CtxShape(ctx) && top >= Depth(ctx)
    requires t.Inner? && !Full(t, c) && i < |t.kids| && Full(t.kids[i], c)
    ensures |t.kids| == |t.seps| + 1 && Splittable(t.kids[i]) && CanSplitKid(p, t.id, i, t.kids[i].id) && num != t.id
    ensures JustFull(p[t.kids[i].id], c) && |p[t.id].children| < c.inner && num !in p
    ensures Holds(KidPages(p, t.id, i, t.kids[i].id, num), Plug(ctx, SplitKid(t, i, num)), top, num + 1, c)
    ensures Plug(ctx, SplitKid(t, i, num)).id == Plug(ctx, t).id
    ensures Contents(Plug(ctx, SplitKid(t, i, num))) == Contents(Plug(ctx, t))
    ensures Contents(SplitKid(t, i, num)) == Contents(t)
  {
    hide WF, Repr, Chain, Leaves, Flat, Ids, Plug, SplitPages;
    var h := top - Depth(ctx);
    KidSplitHolds(p, ctx, t, h, i, num, c);
    KidBlocks(p, ctx, t, h, i, num, c);
    PlugRoot(ctx, t, SplitKid(t, i, num));
  }

  ghost predicate JustFull<K, V>(b: Block<K, V>, c: Caps) {
    match b
    case LeafBlock(ents, _, _) => |ents| == c.leaf - 1
    case InnerBlock(_, children) => |children| == c.inner - 1
  }

  /** A full node of a well-formed tree has exactly one free slot. */
  lemma FullBlock<K, V>(p: Pages<K, V>, t: Tree<K, V>, h: nat, root: bool, c: Caps)
    requires WF(t, h, root, c) && CapsOk(c) && Repr(p, t)
    ensures t.id in p && (Full(t, c) <==> JustFull(p[t.id], c))
    ensures match p[t.id]
            case LeafBlock(ents, _, _) => |ents| <= c.leaf - 1
            case InnerBlock(_, children) => |children| <= c.inner - 1
  {
  }

  lemma KidBlocks<K, V>(p: Pages<K, V>, ctx: Ctx<K, V>, t: Tree<K, V>, h: nat, i: nat, num: int, c: Caps)
    requires Holds(p, Plug(ctx, t), h + Depth(ctx), num, c) && CtxShape(ctx)
    requires t.Inner? && !Full(t, c) && i < |t.kids| && Full(t.kids[i], c)
    ensures t.kids[i].id in p && JustFull(p[t.kids[i].id], c)
    ensures t.id in p && p[t.id].InnerBlock? && i <= |p[t.id].children| < c.inner
    ensures num !in p
  {
    PlugRepr(p, ctx, t);
    PlugSub(ctx, t, h, c);
    FullBlock(p, t.kids[i], h - 1, false, c);
  }

  // ------------------------------------------------------------------
  // A new entry in a leaf
  // ------------------------------------------------------------------

  ghost function LeafPages<K, V>(p: Pages<K, V>, n: int, i: nat, e: Entry<K, V>): Pages<K, V>
    requires n in p && p[n].LeafBlock? && i <= |p[n].ents|
  {
    p[n := LeafBlock(p[n].ents[..i] + [e] + p[n].ents[i..], p[n].left, p[n].right)]
  }

  ghost function Grown<K, V>(t: Tree<K, V>, i: nat, e: Entry<K, V>): Tree<K, V>
    requires t.Leaf? && i <= |t.ents|
  {
    Leaf(t.id, t.ents[..i] + [e] + t.ents[i..])
  }

  lemma LeafInsertChain<K, V>(p: Pages<K, V>, ctx: Ctx<K, V>, t: Tree<K, V>, i: nat, e: Entry<K, V>)
    requires t.Leaf? && i <= |t.ents| && Chain(p, Leaves(Plug(ctx, t)))
    requires t.id in p && Encodes(p[t.id], t)
    ensures Chain(LeafPages(p, t.id, i, e), Leaves(Plug(ctx, Grown(t, i, e))))
  {
    var u := Grown(t, i, e);
    PlugLeaves(ctx, t);
    PlugLeaves(ctx, u);
    var ls, ms := Leaves(Plug(ctx, t)), Leaves(Plug(ctx, u));
    var q := LeafPages(p, t.id, i, e);
    ThreeParts(LeavesBefore(ctx), t, LeavesAfter(ctx));
    ThreeParts(LeavesBefore(ctx), u, LeavesAfter(ctx));
    forall j | 0 <= j < |ls| ensures ls[j].id == ms[j].id && SameLinks(p, q, ls[j].id) {
      assert Linked(p, ls, j);
      assert j != |LeavesBefore(ctx)| ==> ms[j] == ls[j];
    }
    ChainFrame(p, q, ls, ms);
  }

  lemma LeafInsertShape<K, V>(ctx: Ctx<K, V>, t: Tree<K, V>, i: nat, e: Entry<K, V>, c: Caps)
    requires WF(Plug(ctx, t), Depth(ctx), true, c) && CtxShape(ctx) && CapsOk(c)
    requires t.Leaf? && !Full(t, c) && i <= |t.ents|
    requires OpenRight(ctx) || i < |t.ents|
    ensures WF(Plug(ctx, Grown(t, i, e)), Depth(ctx), true, c)
  {
    hide Plug, CtxShape, Ids, Leaves, Flat, OpenRight;
    PlugSub(ctx, t, 0, c);
    ContentsLeaf(t);
    ContentsLeaf(Grown(t, i, e));
    PlugWF(ctx, t, Grown(t, i, e), 0, c);
  }

  lemma LeafInsertRepr<K, V>(p: Pages<K, V>, ctx: Ctx<K, V>, t: Tree<K, V>, i: nat, e: Entry<K, V>)
    requires t.Leaf? && i <= |t.ents| && Repr(p, Plug(ctx, t)) && Distinct(Ids(Plug(ctx, t)))
    ensures t.id in p && Encodes(p[t.id], t)
    ensures Repr(LeafPages(p, t.id, i, e), Plug(ctx, Grown(t, i, e)))
  {
    hide Plug, CtxIds, Repr, CtxRepr;
    PlugRepr(p, ctx, t);
    LeafRepr(p, t);
    PlugIds(ctx, t);
    ReprIds(p, Plug(ctx, t));
    var q, u := LeafPages(p, t.id, i, e), Grown(t, i, e);
    NotInContext(CtxIds(ctx), t.id);
    CtxReprFrame(p, q, ctx, t, u);
    LeafRepr(q, u);
    PlugRepr(q, ctx, u);
  }

  lemma LeafRepr<K, V>(p: Pages<K, V>, t: Tree<K, V>)
    requires t.Leaf?
    ensures Repr(p, t) <==> t.id in p && Encodes(p[t.id], t)
  {
  }

  lemma NotInContext(a: multiset<int>, id: int)
    requires Distinct(a + multiset{id})
    ensures id !in a
  {
    assert id in a + multiset{id};
  }

  lemma RegroupAround<T>(a: seq<T>, s: seq<T>, i: nat, e: T, b: seq<T>)
    requires i <= |s|
    ensures a + s + b == (a + s[..i]) + (s[i..] + b)
    ensures a + (s[..i] + [e] + s[i..]) + b == (a + s[..i]) + [e] + (s[i..] + b)
  {
    assert s == s[..i] + s[i..];
  }

  lemma LeafInsertContents<K, V>(ctx: Ctx<K, V>, t: Tree<K, V>, i: nat, e: Entry<K, V>)
    requires t.Leaf? && i <= |t.ents|
    ensures Contents(Plug(ctx, t)) ==
            (Flat(LeavesBefore(ctx)) + t.ents[..i]) + (t.ents[i..] + Flat(LeavesAfter(ctx)))
    ensures Contents(Plug(ctx, Grown(t, i, e))) ==
            (Flat(LeavesBefore(ctx)) + t.ents[..i]) + [e] + (t.ents[i..] + Flat(LeavesAfter(ctx)))
  {
    PlugContents(ctx, t);
    PlugContents(ctx, Grown(t, i, e));
    ContentsLeaf(t);
    ContentsLeaf(Grown(t, i, e));
    RegroupAround(Flat(LeavesBefore(ctx)), t.ents, i, e, Flat(LeavesAfter(ctx)));
  }

  /** Adding an entry to a leaf with room keeps the tree stored. */
  lemma LeafInsertHolds<K, V>(p: Pages<K, V>, ctx: Ctx<K, V>, t: Tree<K, V>, i: nat, e: Entry<K, V>, num: int, c: Caps)
    requires Holds(p, Plug(ctx, t), Depth(ctx), num, c) && CtxShape(ctx)
    requires t.Leaf? && !Full(t, c) && i <= |t.ents|
    requires OpenRight(ctx) || i < |t.ents|
    ensures t.id in p && Encodes(p[t.id], t)
    ensures Holds(LeafPages(p, t.id, i, e), Plug(ctx, Grown(t, i, e)), Depth(ctx), num, c)
  {
    hide WF, Repr, Leaves, Flat, Distinct, Plug, CtxIds, CtxShape;
    LeafInsertShape(ctx, t, i, e, c);
    LeafInsertRepr(p, ctx, t, i, e);
    LeafInsertChain(p, ctx, t, i, e);
    PlugIds(ctx, t);
    PlugIds(ctx, Grown(t, i, e));
  }
}
