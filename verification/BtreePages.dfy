/** How a tree lies in numbered blocks: every block encodes one node, and the leaves form a
    doubly linked list in order. */
module BtreePages {
  import opened BtreeShape
  import opened BtreeZipper

  datatype Child<K> = Child(key: K, ref: int)

  /** One block: a leaf with its entries and neighbours, or an inner block with its leftmost
      child and (key, child) entries. Link 0 means no neighbour. */
  datatype Block<K, V> =
    | LeafBlock(ents: seq<Entry<K, V>>, left: int, right: int)
    | InnerBlock(lref: int, children: seq<Child<K>>)

  type Pages<K, V> = map<int, Block<K, V>>

  ghost predicate Encodes<K, V>(b: Block<K, V>, t: Tree<K, V>) {
    match t
    case Leaf(_, ents) => b.LeafBlock? && b.ents == ents
    case Inner(_, kids, seps) =>
      && |kids| == |seps| + 1
      && b.InnerBlock?
      && b.lref == kids[0].id
      && |b.children| == |seps|
      && forall i | 0 <= i < |seps| :: b.children[i] == Child(seps[i], kids[i + 1].id)
  }

  ghost predicate Repr<K, V>(p: Pages<K, V>, t: Tree<K, V>)
    decreases t
  {
    && t.id in p
    && Encodes(p[t.id], t)
    && (t.Inner? ==> forall i | 0 <= i < |t.kids| :: Repr(p, t.kids[i]))
  }

  ghost predicate AllRepr<K, V>(p: Pages<K, V>, ts: seq<Tree<K, V>>) {
    forall i | 0 <= i < |ts| :: Repr(p, ts[i])
  }

  ghost predicate CtxRepr<K, V>(p: Pages<K, V>, ctx: Ctx<K, V>, t: Tree<K, V>) {
    ctx.Step? ==>
      && ctx.id in p
      && Encodes(p[ctx.id], Frame(ctx, t))
      && AllRepr(p, ctx.lk)
      && AllRepr(p, ctx.rk)
      && CtxRepr(p, ctx.up, Frame(ctx, t))
  }

  /** Two blocks that differ at most in their leaf links. */
  ghost predicate SameNode<K, V>(b: Block<K, V>, d: Block<K, V>) {
    match b
    case LeafBlock(ents, _, _) => d.LeafBlock? && d.ents == ents
    case InnerBlock(_, _) => b == d
  }

  ghost predicate SameNodes<K, V>(p: Pages<K, V>, q: Pages<K, V>, ids: multiset<int>) {
    forall x | x in ids :: x in p && x in q && SameNode(p[x], q[x])
  }

  lemma IdInIds<K, V>(t: Tree<K, V>)
    ensures t.id in Ids(t)
  {
  }

  lemma KidIds<K, V>(ts: seq<Tree<K, V>>, i: nat)
    requires i < |ts|
    ensures Ids(ts[i]) <= IdsOf(ts)
  {
    Split(ts, i);
  }

  lemma {:induction false} ReprFrame<K, V>(p: Pages<K, V>, q: Pages<K, V>, t: Tree<K, V>)
    requires Repr(p, t) && SameNodes(p, q, Ids(t))
    ensures Repr(q, t)
    decreases t
  {
    IdInIds(t);
    if t.Inner? {
      forall i | 0 <= i < |t.kids| ensures Repr(q, t.kids[i]) {
        KidIds(t.kids, i);
        ReprFrame(p, q, t.kids[i]);
      }
    }
  }

  lemma AllReprFrame<K, V>(p: Pages<K, V>, q: Pages<K, V>, ts: seq<Tree<K, V>>)
    requires AllRepr(p, ts) && SameNodes(p, q, IdsOf(ts))
    ensures AllRepr(q, ts)
  {
    forall i | 0 <= i < |ts| ensures Repr(q, ts[i]) {
      KidIds(ts, i);
      ReprFrame(p, q, ts[i]);
    }
  }

  lemma FrameEncodes<K, V>(b: Block<K, V>, ctx: Ctx<K, V>, t: Tree<K, V>, u: Tree<K, V>)
    requires ctx.Step? && t.id == u.id && Encodes(b, Frame(ctx, t))
    ensures Encodes(b, Frame(ctx, u)) && b.InnerBlock?
  {
    var f, g := Frame(ctx, t), Frame(ctx, u);
    assert f.kids[0].id == g.kids[0].id;
    forall i | 0 <= i < |g.seps| ensures b.children[i] == Child(g.seps[i], g.kids[i + 1].id) {
      assert f.kids[i + 1].id == g.kids[i + 1].id;
    }
  }

  /** The blocks of the context do not notice a change below the hole. */
  lemma {:induction false} CtxReprFrame<K, V>(p: Pages<K, V>, q: Pages<K, V>, ctx: Ctx<K, V>, t: Tree<K, V>,
                                              u: Tree<K, V>)
    requires CtxRepr(p, ctx, t) && t.id == u.id
    requires SameNodes(p, q, CtxIds(ctx))
    ensures CtxRepr(q, ctx, u)
  {
    hide AllRepr, Encodes, IdsOf;
    if ctx.Step? {
      FrameEncodes(p[ctx.id], ctx, t, u);
      assert ctx.id in CtxIds(ctx);
      AllReprFrame(p, q, ctx.lk);
      AllReprFrame(p, q, ctx.rk);
      CtxReprFrame(p, q, ctx.up, Frame(ctx, t), Frame(ctx, u));
    }
  }

  lemma {:induction false} PlugRepr<K, V>(p: Pages<K, V>, ctx: Ctx<K, V>, t: Tree<K, V>)
    ensures Repr(p, Plug(ctx, t)) <==> CtxRepr(p, ctx, t) && Repr(p, t)
  {
    if ctx.Step? {
      PlugRepr(p, ctx.up, Frame(ctx, t));
      var f := Frame(ctx, t);
      if Repr(p, f) {
        assert f.kids[|ctx.lk|] == t;
        forall i | 0 <= i < |ctx.lk| ensures Repr(p, ctx.lk[i]) {
          assert f.kids[i] == ctx.lk[i];
        }
        forall i | 0 <= i < |ctx.rk| ensures Repr(p, ctx.rk[i]) {
          assert f.kids[|ctx.lk| + 1 + i] == ctx.rk[i];
        }
      }
    }
  }

  // ------------------------------------------------------------------
  // The chain of leaves
  // ------------------------------------------------------------------

  /** The links of leaf `i` name its neighbours. */
  ghost predicate Linked<K, V>(p: Pages<K, V>, ls: seq<Tree<K, V>>, i: nat)
    requires i < |ls|
  {
    && ls[i].id in p
    && p[ls[i].id].LeafBlock?
    && p[ls[i].id].left == (if i == 0 then 0 else ls[i - 1].id)
    && p[ls[i].id].right == (if i == |ls| - 1 then 0 else ls[i + 1].id)
  }

  ghost predicate Chain<K, V>(p: Pages<K, V>, ls: seq<Tree<K, V>>) {
    forall i | 0 <= i < |ls| :: Linked(p, ls, i)
  }

  ghost function LeafIds<K, V>(ls: seq<Tree<K, V>>): multiset<int> {
    if ls == [] then multiset{} else multiset{ls[0].id} + LeafIds(ls[1..])
  }

  lemma {:induction false} LeafIdsAppend<K, V>(a: seq<Tree<K, V>>, b: seq<Tree<K, V>>)
    ensures LeafIds(a + b) == LeafIds(a) + LeafIds(b)
  {
    if a == [] {
      assert a + b == b;
    } else {
      assert (a + b)[1..] == a[1..] + b;
      LeafIdsAppend(a[1..], b);
    }
  }

  lemma {:induction false} LeafIdsBelow<K, V>(t: Tree<K, V>)
    ensures LeafIds(Leaves(t)) <= Ids(t)
    decreases t, 1
  {
    if t.Leaf? {
      assert [t][1..] == [];
    } else {
      LeafIdsBelowAll(t.kids);
    }
  }

  lemma {:induction false} LeafIdsBelowAll<K, V>(ts: seq<Tree<K, V>>)
    ensures LeafIds(LeavesOf(ts)) <= IdsOf(ts)
    decreases ts, 0
  {
    if ts != [] {
      LeafIdsBelow(ts[0]);
      LeafIdsBelowAll(ts[1..]);
      LeafIdsAppend(Leaves(ts[0]), LeavesOf(ts[1..]));
    }
  }

  lemma {:induction false} LeafIdAt<K, V>(ls: seq<Tree<K, V>>, i: nat)
    requires i < |ls|
    ensures ls[i].id in LeafIds(ls)
  {
    if i > 0 {
      LeafIdAt(ls[1..], i - 1);
    }
  }

  lemma {:induction false} TwiceIn<K, V>(ls: seq<Tree<K, V>>, i: nat, j: nat)
    requires i < j < |ls| && ls[i].id == ls[j].id
    ensures LeafIds(ls)[ls[i].id] >= 2
  {
    if i == 0 {
      LeafIdAt(ls[1..], j - 1);
    } else {
      TwiceIn(ls[1..], i - 1, j - 1);
    }
  }

  ghost predicate DistinctLeaves<K, V>(ls: seq<Tree<K, V>>) {
    forall i, j | 0 <= i < j < |ls| :: ls[i].id != ls[j].id
  }

  lemma LeavesAreDistinct<K, V>(t: Tree<K, V>)
    requires Distinct(Ids(t))
    ensures DistinctLeaves(Leaves(t))
  {
    LeafIdsBelow(t);
    forall i, j | 0 <= i < j < |Leaves(t)| ensures Leaves(t)[i].id != Leaves(t)[j].id {
      if Leaves(t)[i].id == Leaves(t)[j].id {
        TwiceIn(Leaves(t), i, j);
      }
    }
  }

  ghost predicate SameLinks<K, V>(p: Pages<K, V>, q: Pages<K, V>, n: int) {
    && n in p && n in q
    && (p[n].LeafBlock? ==> q[n].LeafBlock? && q[n].left == p[n].left && q[n].right == p[n].right)
  }

  /** The chain only reads the links of the leaves. */
  lemma ChainFrame<K, V>(p: Pages<K, V>, q: Pages<K, V>, ls: seq<Tree<K, V>>, ms: seq<Tree<K, V>>)
    requires Chain(p, ls) && |ls| == |ms| && forall i | 0 <= i < |ls| :: ls[i].id == ms[i].id
    requires forall i | 0 <= i < |ls| :: SameLinks(p, q, ls[i].id)
    ensures Chain(q, ms)
  {
    forall i | 0 <= i < |ms| ensures Linked(q, ms, i) {
      assert Linked(p, ls, i) && ls[i].id == ms[i].id;
    }
  }

  /** Splitting one leaf of the chain into two neighbours. */
  lemma ChainSplit<K, V>(p: Pages<K, V>, q: Pages<K, V>, a: seq<Tree<K, V>>, x: Tree<K, V>,
                         l: Tree<K, V>, r: Tree<K, V>, b: seq<Tree<K, V>>)
    requires Chain(p, a + [x] + b)
    requires l.id == x.id && x.id in p && p[x.id].LeafBlock?
    requires x.id in q && q[x.id].LeafBlock? && q[x.id].left == p[x.id].left && q[x.id].right == r.id
    requires r.id in q && q[r.id].LeafBlock? && q[r.id].left == x.id && q[r.id].right == p[x.id].right
    requires forall i | 0 <= i < |a| :: SameLinks(p, q, a[i].id)
    requires forall i | 1 <= i < |b| :: SameLinks(p, q, b[i].id)
    requires b != [] ==>
               && b[0].id in p && b[0].id in q && p[b[0].id].LeafBlock?
               && q[b[0].id] == p[b[0].id].(left := r.id)
    ensures Chain(q, a + [l, r] + b)
  {
    var before, after := a + [x] + b, a + [l, r] + b;
    var n := |a|;
    assert before[n] == x;
    forall i | 0 <= i < |after| ensures Linked(q, after, i) {
      if i <= n {
        assert Linked(p, before, i);
        assert after[i].id == before[i].id;
        assert i > 0 ==> after[i - 1] == before[i - 1];
        assert i < n ==> after[i] == a[i] && after[i + 1].id == before[i + 1].id;
        assert i == n ==> after[i + 1] == r;
      } else if i == n + 1 {
        assert Linked(p, before, n);
        assert after[i] == r && after[i - 1] == l;
        assert i + 1 < |after| ==> after[i + 1] == before[n + 1];
      } else {
        assert Linked(p, before, i - 1);
        assert after[i] == before[i - 1] == b[i - n - 2];
        assert i + 1 < |after| ==> after[i + 1] == before[i];
        assert i == n + 2 ==> after[i - 1] == r;
        assert i > n + 2 ==> after[i - 1] == before[i - 2];
      }
    }
  }

  // ------------------------------------------------------------------
  // The whole store
  // ------------------------------------------------------------------

  /** The blocks `p` hold the tree `t`: this is what every operation of the tree keeps. */
  ghost predicate Holds<K, V>(p: Pages<K, V>, t: Tree<K, V>, h: nat, num: int, c: Caps) {
    && CapsOk(c)
    && WF(t, h, true, c)
    && Repr(p, t)
    && Chain(p, Leaves(t))
    && Distinct(Ids(t))
    && forall x | x in p :: 1 <= x < num
  }

  // ------------------------------------------------------------------
  // Splitting a block
  // ------------------------------------------------------------------

  ghost predicate CanSplit<K, V>(p: Pages<K, V>, n: int) {
    && n in p
    && match p[n]
       case LeafBlock(ents, _, right) => |ents| >= 2 && (right != 0 ==> right in p && right != n && p[right].LeafBlock?)
       case InnerBlock(_, children) => |children| >= 1
  }

  /** The store after block `n` was split and its right half put into block `m`. */
  ghost function SplitPages<K, V>(p: Pages<K, V>, n: int, m: int): Pages<K, V>
    requires CanSplit(p, n)
  {
    match p[n]
    case LeafBlock(ents, left, right) =>
      var q := p[n := LeafBlock(ents[..|ents| / 2], left, m)][m := LeafBlock(ents[|ents| / 2..], n, right)];
      if right != 0 then q[right := LeafBlock(p[right].ents, m, p[right].right)] else q
    case InnerBlock(lref, children) =>
      p[n := InnerBlock(lref, children[..|children| / 2])]
       [m := InnerBlock(children[|children| / 2].ref, children[|children| / 2 + 1..])]
  }

  ghost function SplitKey<K, V>(b: Block<K, V>): K
    requires match b case LeafBlock(ents, _, _) => |ents| >= 2 case InnerBlock(_, ch) => |ch| >= 1
  {
    match b
    case LeafBlock(ents, _, _) => ents[|ents| / 2 - 1].key
    case InnerBlock(_, ch) => ch[|ch| / 2].key
  }

  lemma SplitPagesFrame<K, V>(p: Pages<K, V>, n: int, m: int, ids: multiset<int>)
    requires CanSplit(p, n) && n !in ids && m !in ids && m !in p
    requires forall x | x in ids :: x in p
    ensures SameNodes(p, SplitPages(p, n, m), ids)
  {
  }

  lemma NotBelow<K, V>(t: Tree<K, V>, i: nat)
    requires t.Inner? && i < |t.kids| && Distinct(Ids(t))
    ensures t.id !in Ids(t.kids[i])
  {
    KidIds(t.kids, i);
    assert t.id in Ids(t);
  }

  lemma KidsAfterSplit<K, V>(p: Pages<K, V>, t: Tree<K, V>, m: int)
    requires t.Inner? && Repr(p, t) && Distinct(Ids(t)) && CanSplit(p, t.id) && m !in p
    ensures AllRepr(SplitPages(p, t.id, m), t.kids)
  {
    hide SplitPages, Distinct, Ids, Encodes;
    forall i | 0 <= i < |t.kids| ensures Repr(SplitPages(p, t.id, m), t.kids[i]) {
      NotBelow(t, i);
      ReprIds(p, t.kids[i]);
      SplitPagesFrame(p, t.id, m, Ids(t.kids[i]));
      ReprFrame(p, SplitPages(p, t.id, m), t.kids[i]);
    }
  }

  lemma InnerHalvesRepr<K, V>(p: Pages<K, V>, t: Tree<K, V>, m: int)
    requires t.Inner? && Splittable(t) && t.id in p && Encodes(p[t.id], t) && m != t.id
    requires AllRepr(SplitPages(p, t.id, m), t.kids)
    ensures Repr(SplitPages(p, t.id, m), LeftHalf(t))
    ensures Repr(SplitPages(p, t.id, m), RightHalf(t, m))
  {
    InnerHalvesEncode(p, t, m);
    var q, l, r := SplitPages(p, t.id, m), LeftHalf(t), RightHalf(t, m);
    forall i | 0 <= i < |l.kids| ensures Repr(q, l.kids[i]) {
      assert l.kids[i] == t.kids[i];
    }
    forall i | 0 <= i < |r.kids| ensures Repr(q, r.kids[i]) {
      assert r.kids[i] == t.kids[|t.seps| / 2 + 1 + i];
    }
  }

  /** Both halves of a split node are stored where the split puts them. */
  lemma HalvesRepr<K, V>(p: Pages<K, V>, t: Tree<K, V>, h: nat, root: bool, m: int, c: Caps)
    requires WF(t, h, root, c) && CapsOk(c) && Full(t, c) && Splittable(t)
    requires Repr(p, t) && Distinct(Ids(t)) && CanSplit(p, t.id)
    requires m !in p && m !in Ids(t)
    ensures Repr(SplitPages(p, t.id, m), LeftHalf(t))
    ensures Repr(SplitPages(p, t.id, m), RightHalf(t, m))
    ensures SplitKey(p[t.id]) == MiddleKey(t)
  {
    if t.Inner? {
      KidsAfterSplit(p, t, m);
      InnerHalvesRepr(p, t, m);
    }
  }

  lemma InnerHalvesEncode<K, V>(p: Pages<K, V>, t: Tree<K, V>, m: int)
    requires t.Inner? && Splittable(t) && t.id in p && Encodes(p[t.id], t) && m != t.id
    ensures Encodes(SplitPages(p, t.id, m)[t.id], LeftHalf(t))
    ensures Encodes(SplitPages(p, t.id, m)[m], RightHalf(t, m))
  {
    var k := |t.seps| / 2;
    var r := RightHalf(t, m);
    var b := SplitPages(p, t.id, m)[m];
    assert p[t.id].children[k] == Child(t.seps[k], t.kids[k + 1].id);
    forall i | 0 <= i < |r.seps| ensures b.children[i] == Child(r.seps[i], r.kids[i + 1].id) {
      assert b.children[i] == p[t.id].children[k + 1 + i];
    }
  }

  lemma {:induction false} ReprIds<K, V>(p: Pages<K, V>, t: Tree<K, V>)
    requires Repr(p, t)
    ensures forall x | x in Ids(t) :: x in p
    decreases t, 1
  {
    if t.Inner? {
      ReprIdsAll(p, t.kids);
    }
  }

  lemma {:induction false} ReprIdsAll<K, V>(p: Pages<K, V>, ts: seq<Tree<K, V>>)
    requires AllRepr(p, ts)
    ensures forall x | x in IdsOf(ts) :: x in p
    decreases ts, 0
  {
    if ts != [] {
      ReprIds(p, ts[0]);
      ReprIdsAll(p, ts[1..]);
    }
  }

  lemma {:induction false} LeafStored<K, V>(p: Pages<K, V>, t: Tree<K, V>, x: Tree<K, V>)
    requires Repr(p, t) && x in Leaves(t)
    ensures x.id in p && Encodes(p[x.id], x)
    decreases t, 1
  {
    if t.Inner? {
      LeafStoredAll(p, t.kids, x);
    }
  }

  lemma {:induction false} LeafStoredAll<K, V>(p: Pages<K, V>, ts: seq<Tree<K, V>>, x: Tree<K, V>)
    requires AllRepr(p, ts) && x in LeavesOf(ts)
    ensures x.id in p && Encodes(p[x.id], x)
    decreases ts, 0
  {
    if x in Leaves(ts[0]) {
      LeafStored(p, ts[0], x);
    } else {
      LeafStoredAll(p, ts[1..], x);
    }
  }

  lemma ThreeParts<T>(a: seq<T>, x: T, b: seq<T>)
    ensures forall i | 0 <= i < |a| :: (a + [x] + b)[i] == a[i]
    ensures (a + [x] + b)[|a|] == x
    ensures forall i | 0 <= i < |b| :: (a + [x] + b)[|a| + 1 + i] == b[i]
  {
  }

  lemma SplitPagesOthers<K, V>(p: Pages<K, V>, n: int, m: int, x: int)
    requires CanSplit(p, n) && x != n && x != m && x in p
    requires p[n].LeafBlock? ==> x != p[n].right || x == 0
    ensures SameLinks(p, SplitPages(p, n, m), x)
  {
  }

  lemma LeafCanSplit<K, V>(p: Pages<K, V>, a: seq<Tree<K, V>>, t: Tree<K, V>, b: seq<Tree<K, V>>)
    requires t.Leaf? && Splittable(t) && t.id in p && Encodes(p[t.id], t)
    requires Chain(p, a + [t] + b) && DistinctLeaves(a + [t] + b)
    ensures CanSplit(p, t.id)
    ensures p[t.id].right == if b == [] then 0 else b[0].id
    ensures forall i | 0 <= i < |a| :: a[i].id in p && a[i].id != t.id && (b != [] ==> a[i].id != b[0].id)
    ensures forall i | 0 <= i < |b| :: b[i].id in p && b[i].id != t.id && (i > 0 ==> b[i].id != b[0].id)
    ensures b != [] ==> p[b[0].id].LeafBlock?
  {
    var ls := a + [t] + b;
    var n := |a|;
    ThreeParts(a, t, b);
    assert Linked(p, ls, n);
    if b != [] {
      assert b[0] == ls[n + 1];
      assert Linked(p, ls, n + 1);
    }
    forall i | 0 <= i < |a| ensures a[i].id in p && a[i].id != t.id && (b != [] ==> a[i].id != b[0].id) {
      assert Linked(p, ls, i) && ls[i] == a[i] && ls[i].id != ls[n].id;
      assert b != [] ==> ls[i].id != ls[n + 1].id;
    }
    forall i | 0 <= i < |b| ensures b[i].id in p && b[i].id != t.id && (i > 0 ==> b[i].id != b[0].id) {
      assert ls[n + 1 + i] == b[i] && Linked(p, ls, n + 1 + i);
      assert ls[n].id != ls[n + 1 + i].id;
      assert i > 0 ==> ls[n + 1].id != ls[n + 1 + i].id;
    }
  }

  /** The chain after a split of a leaf. */
  lemma LeafSplitChain<K, V>(p: Pages<K, V>, a: seq<Tree<K, V>>, t: Tree<K, V>, b: seq<Tree<K, V>>, m: int)
    requires t.Leaf? && Splittable(t) && t.id in p && Encodes(p[t.id], t)
    requires Chain(p, a + [t] + b) && DistinctLeaves(a + [t] + b)
    requires m !in p && 0 !in p
    ensures CanSplit(p, t.id)
    ensures Chain(SplitPages(p, t.id, m), a + [LeftHalf(t), RightHalf(t, m)] + b)
  {
    LeafCanSplit(p, a, t, b);
    var q := SplitPages(p, t.id, m);
    forall i | 0 <= i < |a| ensures SameLinks(p, q, a[i].id) {
      SplitPagesOthers(p, t.id, m, a[i].id);
    }
    forall i | 1 <= i < |b| ensures SameLinks(p, q, b[i].id) {
      SplitPagesOthers(p, t.id, m, b[i].id);
    }
    ChainSplit(p, q, a, t, LeftHalf(t), RightHalf(t, m), b);
  }
}
