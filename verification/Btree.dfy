/** The B+-tree of the index and order files: numbered blocks behind a page cache, insertion
    with pre-emptive splitting, the three searches and forward iteration. */
module Btrees {
  import opened BtreeShape
  import opened BtreeZipper
  import opened BtreePages
  import opened BtreeSteps
  import opened BtreeSearch

  // ------------------------------------------------------------------
  // What insertion means
  // ------------------------------------------------------------------

  ghost function UpTo<K, V>(s: seq<Entry<K, V>>, cmp: K -> int): seq<Entry<K, V>> {
    if s == [] then [] else (if cmp(s[0].key) <= 0 then [s[0]] else []) + UpTo(s[1..], cmp)
  }

  ghost function Beyond<K, V>(s: seq<Entry<K, V>>, cmp: K -> int): seq<Entry<K, V>> {
    if s == [] then [] else (if cmp(s[0].key) > 0 then [s[0]] else []) + Beyond(s[1..], cmp)
  }

  /** `e` placed after all entries that compare `<= 0` and before all that compare `> 0`. */
  ghost function Inserted<K, V>(s: seq<Entry<K, V>>, e: Entry<K, V>, cmp: K -> int): seq<Entry<K, V>> {
    UpTo(s, cmp) + [e] + Beyond(s, cmp)
  }

  lemma {:induction false} FilterSplit<K, V>(a: seq<Entry<K, V>>, b: seq<Entry<K, V>>, cmp: K -> int)
    requires AllLe(a, cmp) && AllGt(b, cmp)
    ensures UpTo(a + b, cmp) == a && Beyond(a + b, cmp) == b
  {
    if a != [] {
      assert (a + b)[1..] == a[1..] + b;
      assert cmp(a[0].key) <= 0;
      FilterSplit(a[1..], b, cmp);
    } else if b != [] {
      assert a + b == b;
      assert cmp(b[0].key) > 0;
      assert [] + b[1..] == b[1..];
      FilterSplit([], b[1..], cmp);
    }
  }

  // ------------------------------------------------------------------
  // The focus of a descent
  // ------------------------------------------------------------------

  /** `t` is a subtree of `tree`, `h` above the leaves, and its entries surround the place
      where `cmp` turns positive. */
  ghost predicate Focused<K, V>(tree: Tree<K, V>, top: nat, c: Caps, ctx: Ctx<K, V>, t: Tree<K, V>, h: nat,
                                cmp: K -> int) {
    && Placed(tree, top, c, ctx, t, h)
    && Surrounds(ctx, t, cmp)
  }

  ghost predicate Placed<K, V>(tree: Tree<K, V>, top: nat, c: Caps, ctx: Ctx<K, V>, t: Tree<K, V>, h: nat) {
    && tree == Plug(ctx, t) && CtxShape(ctx) && top == h + Depth(ctx)
    && WF(t, h, ctx.Top?, c)
  }

  ghost predicate Surrounds<K, V>(ctx: Ctx<K, V>, t: Tree<K, V>, cmp: K -> int) {
    && AllLe(Flat(LeavesBefore(ctx)), cmp) && AllGt(Flat(LeavesAfter(ctx)), cmp)
    && (OpenRight(ctx) || (Contents(t) != [] && cmp(Last(Contents(t)).key) > 0))
  }

  /** Child `i` is where `cmp` turns positive among the separators of `t`. */
  ghost predicate Turns<K, V>(t: Tree<K, V>, i: int, cmp: K -> int) {
    && t.Inner? && 0 <= i < |t.kids| == |t.seps| + 1
    && (i > 0 ==> cmp(t.seps[i - 1]) <= 0)
    && forall j | i <= j < |t.seps| :: cmp(t.seps[j]) > 0
  }

  lemma PlacedDown<K, V>(tree: Tree<K, V>, top: nat, c: Caps, ctx: Ctx<K, V>, t: Tree<K, V>, h: nat, i: nat)
    requires Placed(tree, top, c, ctx, t, h) && t.Inner? && i < |t.kids| == |t.seps| + 1
    ensures h > 0 && Placed(tree, top, c, Down(ctx, t, i), t.kids[i], h - 1)
  {
    DownPlug(ctx, t, i);
  }

  lemma SurroundsDown<K, V>(tree: Tree<K, V>, top: nat, c: Caps, ctx: Ctx<K, V>, t: Tree<K, V>, h: nat, i: nat,
                            cmp: K -> int)
    requires CapsOk(c) && WF(tree, top, true, c) && SplitsAbove(Contents(tree), cmp)
    requires Placed(tree, top, c, ctx, t, h) && Surrounds(ctx, t, cmp) && Turns(t, i, cmp)
    ensures Surrounds(Down(ctx, t, i), t.kids[i], cmp)
  {
    hide WF, Plug, Leaves, Flat, AllLe, AllGt, SplitsAbove, Down;
    DownAbove(ctx, t, h, i, cmp, c);
  }

  /** Descending into the child where `cmp` turns positive keeps the focus. */
  lemma FocusDown<K, V>(p: Pages<K, V>, tree: Tree<K, V>, top: nat, num: int, c: Caps, ctx: Ctx<K, V>, t: Tree<K, V>,
                        h: nat, i: nat, cmp: K -> int)
    requires Holds(p, tree, top, num, c) && SplitsAbove(Contents(tree), cmp)
    requires Focused(tree, top, c, ctx, t, h, cmp) && Turns(t, i, cmp)
    ensures h > 0 && Focused(tree, top, c, Down(ctx, t, i), t.kids[i], h - 1, cmp)
  {
    PlacedDown(tree, top, c, ctx, t, h, i);
    SurroundsDown(tree, top, c, ctx, t, h, i, cmp);
  }

  lemma FocusRoot<K, V>(p: Pages<K, V>, tree: Tree<K, V>, top: nat, num: int, c: Caps, cmp: K -> int)
    requires Holds(p, tree, top, num, c)
    ensures Focused(tree, top, c, Top, tree, top, cmp)
  {
    assert LeavesBefore<K, V>(Top) == [] && LeavesAfter<K, V>(Top) == [];
  }

  /** What the search among the separators of an inner block finds. */
  ghost predicate LowerBound<K>(children: seq<Child<K>>, r: int, cmp: K -> int) {
    && -1 <= r < |children|
    && (r >= 0 ==> cmp(children[r].key) <= 0)
    && forall j | r < j < |children| :: cmp(children[j].key) > 0
  }

  lemma LowerBoundTurns<K, V>(b: Block<K, V>, t: Tree<K, V>, r: int, cmp: K -> int)
    requires t.Inner? && Encodes(b, t) && LowerBound(b.children, r, cmp)
    ensures Turns(t, r + 1, cmp)
    ensures t.kids[r + 1].id == if r >= 0 then b.children[r].ref else b.lref
  {
    assert forall j | 0 <= j < |t.seps| :: b.children[j] == Child(t.seps[j], t.kids[j + 1].id);
  }

  /** The block of the focused node. */
  lemma FocusBlock<K, V>(p: Pages<K, V>, tree: Tree<K, V>, top: nat, num: int, c: Caps, ctx: Ctx<K, V>, t: Tree<K, V>,
                         h: nat, cmp: K -> int)
    requires Holds(p, tree, top, num, c) && Focused(tree, top, c, ctx, t, h, cmp)
    ensures t.id in p && Encodes(p[t.id], t)
  {
    PlugRepr(p, ctx, t);
  }

  /** The block of the child to descend into. */
  lemma KidFull<K, V>(p: Pages<K, V>, tree: Tree<K, V>, top: nat, num: int, c: Caps, ctx: Ctx<K, V>, t: Tree<K, V>,
                      h: nat, i: nat, cmp: K -> int)
    requires Holds(p, tree, top, num, c) && Focused(tree, top, c, ctx, t, h, cmp) && Turns(t, i, cmp)
    ensures t.kids[i].id in p && 1 <= t.kids[i].id < num && t.kids[i].id != t.id
    ensures Full(t.kids[i], c) <==> JustFull(p[t.kids[i].id], c)
    ensures match p[t.kids[i].id]
            case LeafBlock(ents, _, _) => |ents| <= c.leaf - 1
            case InnerBlock(_, children) => |children| <= c.inner - 1
  {
    PlugRepr(p, ctx, t);
    KidWF(t, h, ctx.Top?, c, i);
    FullBlock(p, t.kids[i], h - 1, false, c);
    Separate(ctx, t, i);
  }

  /** A split below the focus keeps the focus. */
  lemma FocusAfterSplit<K, V>(tree: Tree<K, V>, top: nat, c: Caps, ctx: Ctx<K, V>, t: Tree<K, V>, u: Tree<K, V>,
                              h: nat, cmp: K -> int)
    requires Focused(tree, top, c, ctx, t, h, cmp) && Contents(u) == Contents(t)
    requires WF(Plug(ctx, u), top, true, c)
    ensures Focused(Plug(ctx, u), top, c, ctx, u, h, cmp)
  {
    PlugSub(ctx, u, h, c);
  }

  lemma KidWF<K, V>(t: Tree<K, V>, h: nat, root: bool, c: Caps, i: nat)
    requires WF(t, h, root, c) && t.Inner? && i < |t.kids|
    ensures h > 0 && WF(t.kids[i], h - 1, false, c)
  {
  }

  lemma TurnsAfterSplit<K, V>(t: Tree<K, V>, i: nat, m: int, j: int, cmp: K -> int)
    requires Turns(t, i, cmp) && Splittable(t.kids[i])
    requires Turns(SplitKid(t, i, m), j, cmp)
    ensures i <= j <= i + 1
    ensures SplitKid(t, i, m).kids[j] == if j == i then LeftHalf(t.kids[i]) else RightHalf(t.kids[i], m)
  {
    var u := SplitKid(t, i, m);
    assert i > 0 ==> u.seps[i - 1] == t.seps[i - 1];
    assert forall k | i < k < |u.seps| :: u.seps[k] == t.seps[k - 1];
  }

  /** After a split the descent continues into one of the two halves, which are not full. */
  lemma HalfIsNext<K, V>(tree: Tree<K, V>, top: nat, c: Caps, ctx: Ctx<K, V>, t: Tree<K, V>, h: nat, i: nat, m: int,
                         j: int, cmp: K -> int)
    requires Focused(tree, top, c, ctx, t, h, cmp) && CapsOk(c)
    requires Turns(t, i, cmp) && Full(t.kids[i], c) && Splittable(t.kids[i])
    requires Turns(SplitKid(t, i, m), j, cmp)
    ensures i <= j <= i + 1
    ensures !Full(SplitKid(t, i, m).kids[j], c)
  {
    hide SplitKid, LeftHalf, RightHalf, Plug, Surrounds, Leaves, Flat, Ids, WF;
    TurnsAfterSplit(t, i, m, j, cmp);
    KidWF(t, h, ctx.Top?, c, i);
    Halves(t.kids[i], h - 1, false, m, c);
  }

  lemma HalvesAreNext<K, V>(tree: Tree<K, V>, top: nat, c: Caps, ctx: Ctx<K, V>, t: Tree<K, V>, h: nat, i: nat, m: int,
                            cmp: K -> int)
    requires Focused(tree, top, c, ctx, t, h, cmp) && CapsOk(c)
    requires Turns(t, i, cmp) && Full(t.kids[i], c) && Splittable(t.kids[i])
    ensures SplitKid(t, i, m).Inner? && SplitKid(t, i, m).id == t.id
    ensures forall j: nat | j < |SplitKid(t, i, m).kids| && Turns(SplitKid(t, i, m), j, cmp) ::
              !Full(SplitKid(t, i, m).kids[j], c)
  {
    hide Focused, Full;
    forall j: nat | j < |SplitKid(t, i, m).kids| && Turns(SplitKid(t, i, m), j, cmp)
      ensures !Full(SplitKid(t, i, m).kids[j], c)
    {
      HalfIsNext(tree, top, c, ctx, t, h, i, m, j, cmp);
    }
  }

  lemma RootBlock<K, V>(p: Pages<K, V>, t: Tree<K, V>, top: nat, num: int, c: Caps)
    requires Holds(p, t, top, num, c)
    ensures t.id in p && 1 <= t.id < num && Encodes(p[t.id], t)
    ensures Full(t, c) <==> JustFull(p[t.id], c)
    ensures match p[t.id]
            case LeafBlock(ents, _, _) => |ents| <= c.leaf - 1
            case InnerBlock(_, children) => |children| <= c.inner - 1
  {
    FullBlock(p, t, top, true, c);
  }

  /** A child that is sure not to be split. */
  ghost function Spare<K, V>(t: Tree<K, V>, c: Caps): (n: nat)
    ensures n <= 1 && (t.Leaf? ==> n == 0)
  {
    if Roomy(t, c) then 1 else 0
  }

  lemma NothingSpare<K, V>(t: Tree<K, V>, i: nat, c: Caps)
    requires t.Inner? && i < |t.kids| && Full(t.kids[i], c)
    ensures Spare(t, c) == 0
  {
  }

  lemma RootSplits<K, V>(p: Pages<K, V>, t: Tree<K, V>, top: nat, num: int, c: Caps)
    requires Holds(p, t, top, num, c) && Full(t, c)
    ensures Splittable(t) && CanSplit(p, t.id) && JustFull(p[t.id], c)
    ensures forall x | x in p :: 1 <= x < num
    ensures Holds(RootPages(p, t.id, num), GrownRoot(t, num), top + 1, num + 2, c)
    ensures Contents(GrownRoot(t, num)) == Contents(t) && Roomy(GrownRoot(t, num), c)
  {
    RootSplitHolds(p, t, top, num, c);
    FullBlock(p, t, top, true, c);
    Halves(t, top, true, num, c);
  }

  /** Splitting the full child that the descent is about to enter. */
  lemma FocusSplit<K, V>(p: Pages<K, V>, tree: Tree<K, V>, top: nat, num: int, c: Caps, ctx: Ctx<K, V>, t: Tree<K, V>,
                         h: nat, i: nat, cmp: K -> int)
    requires Holds(p, tree, top, num, c) && Focused(tree, top, c, ctx, t, h, cmp) && Turns(t, i, cmp)
    requires !Full(t, c) && Full(t.kids[i], c)
    ensures Splittable(t.kids[i]) && CanSplitKid(p, t.id, i, t.kids[i].id) && num != t.id && num !in p
    ensures JustFull(p[t.kids[i].id], c) && |p[t.id].children| < c.inner
    ensures forall x | x in p :: 1 <= x < num
    ensures Holds(KidPages(p, t.id, i, t.kids[i].id, num), Plug(ctx, SplitKid(t, i, num)), top, num + 1, c)
    ensures Plug(ctx, SplitKid(t, i, num)).id == tree.id
    ensures Contents(Plug(ctx, SplitKid(t, i, num))) == Contents(tree)
    ensures Focused(Plug(ctx, SplitKid(t, i, num)), top, c, ctx, SplitKid(t, i, num), h, cmp)
  {
    KidSplitAt(p, ctx, t, top, i, num, c);
    FocusAfterSplit(tree, top, c, ctx, t, SplitKid(t, i, num), h, cmp);
  }

  ghost predicate LowerBoundIn<K, V>(ents: seq<Entry<K, V>>, r: int, cmp: K -> int) {
    && -1 <= r < |ents|
    && (r >= 0 ==> cmp(ents[r].key) <= 0)
    && forall j | r < j < |ents| :: cmp(ents[j].key) > 0
  }

  /** Around the place that the search in the leaf finds, everything is on its side of `cmp`. */
  lemma LeafSides<K, V>(a: seq<Entry<K, V>>, s: seq<Entry<K, V>>, b: seq<Entry<K, V>>, r: int, cmp: K -> int)
    requires SplitsAbove(a + s + b, cmp) && AllLe(a, cmp) && AllGt(b, cmp) && LowerBoundIn(s, r, cmp)
    ensures AllLe(a + s[..r + 1], cmp) && AllGt(s[r + 1..] + b, cmp)
  {
    var all := a + s + b;
    forall j | 0 <= j <= r ensures cmp(s[j].key) <= 0 {
      assert all[|a| + j] == s[j] && all[|a| + r] == s[r];
    }
  }

  lemma FocusSides<K, V>(tree: Tree<K, V>, ctx: Ctx<K, V>, t: Tree<K, V>, r: int, cmp: K -> int)
    requires tree == Plug(ctx, t) && t.Leaf? && SplitsAbove(Contents(tree), cmp) && LowerBoundIn(t.ents, r, cmp)
    requires AllLe(Flat(LeavesBefore(ctx)), cmp) && AllGt(Flat(LeavesAfter(ctx)), cmp)
    ensures AllLe(Flat(LeavesBefore(ctx)) + t.ents[..r + 1], cmp)
    ensures AllGt(t.ents[r + 1..] + Flat(LeavesAfter(ctx)), cmp)
  {
    PlugContents(ctx, t);
    ContentsLeaf(t);
    LeafSides(Flat(LeavesBefore(ctx)), t.ents, Flat(LeavesAfter(ctx)), r, cmp);
  }

  /** The new entry goes where the search in the leaf says. */
  lemma FocusInsertContents<K, V>(tree: Tree<K, V>, ctx: Ctx<K, V>, t: Tree<K, V>, r: int, e: Entry<K, V>,
                                  cmp: K -> int)
    requires tree == Plug(ctx, t) && t.Leaf? && SplitsAbove(Contents(tree), cmp) && LowerBoundIn(t.ents, r, cmp)
    requires AllLe(Flat(LeavesBefore(ctx)), cmp) && AllGt(Flat(LeavesAfter(ctx)), cmp)
    ensures Contents(Plug(ctx, Grown(t, r + 1, e))) == Inserted(Contents(tree), e, cmp)
  {
    LeafInsertContents(ctx, t, r + 1, e);
    FocusSides(tree, ctx, t, r, cmp);
    FilterSplit(Flat(LeavesBefore(ctx)) + t.ents[..r + 1], t.ents[r + 1..] + Flat(LeavesAfter(ctx)), cmp);
  }

  lemma LeafHasRoom<K, V>(ctx: Ctx<K, V>, t: Tree<K, V>, h: nat, r: int, cmp: K -> int, c: Caps)
    requires Surrounds(ctx, t, cmp) && t.Leaf? && WF(t, h, ctx.Top?, c) && LowerBoundIn(t.ents, r, cmp)
    ensures h == 0 && (OpenRight(ctx) || r + 1 < |t.ents|)
  {
    ContentsLeaf(t);
  }

  lemma FocusInsert<K, V>(p: Pages<K, V>, tree: Tree<K, V>, top: nat, num: int, c: Caps, ctx: Ctx<K, V>, t: Tree<K, V>,
                          h: nat, r: int, e: Entry<K, V>, cmp: K -> int)
    requires Holds(p, tree, top, num, c) && Focused(tree, top, c, ctx, t, h, cmp) && SplitsAbove(Contents(tree), cmp)
    requires t.Leaf? && !Full(t, c) && LowerBoundIn(t.ents, r, cmp)
    ensures t.id in p && p[t.id].LeafBlock? && p[t.id].ents == t.ents && 0 <= r + 1 <= |t.ents|
    ensures Holds(LeafPages(p, t.id, r + 1, e), Plug(ctx, Grown(t, r + 1, e)), top, num, c)
    ensures Plug(ctx, Grown(t, r + 1, e)).id == tree.id
    ensures Contents(Plug(ctx, Grown(t, r + 1, e))) == Inserted(Contents(tree), e, cmp)
  {
    hide Repr, Chain, Plug, Leaves, Flat, Ids, Inserted;
    LeafHasRoom(ctx, t, h, r, cmp, c);
    assert top == Depth(ctx);
    LeafInsertHolds(p, ctx, t, r + 1, e, num, c);
    PlugRoot(ctx, t, Grown(t, r + 1, e));
    FocusInsertContents(tree, ctx, t, r, e, cmp);
  }

  lemma FocusStored<K, V>(p: Pages<K, V>, tree: Tree<K, V>, top: nat, num: int, c: Caps, ctx: Ctx<K, V>, t: Tree<K, V>,
                          h: nat, cmp: K -> int)
    requires Holds(p, tree, top, num, c) && Focused(tree, top, c, ctx, t, h, cmp)
    ensures t.id in p && 1 <= t.id < num && Encodes(p[t.id], t)
    ensures p[t.id].LeafBlock? <==> t.Leaf?
  {
    PlugRepr(p, ctx, t);
  }

  // ------------------------------------------------------------------
  // The searches
  // ------------------------------------------------------------------

  lemma PlacedRoot<K, V>(p: Pages<K, V>, tree: Tree<K, V>, top: nat, num: int, c: Caps)
    requires Holds(p, tree, top, num, c)
    ensures Placed(tree, top, c, Top, tree, top)
    ensures LeavesBefore<K, V>(Top) == [] && LeavesAfter<K, V>(Top) == []
  {
  }

  lemma PlacedBlock<K, V>(p: Pages<K, V>, tree: Tree<K, V>, top: nat, num: int, c: Caps, ctx: Ctx<K, V>,
                          t: Tree<K, V>, h: nat)
    requires Holds(p, tree, top, num, c) && Placed(tree, top, c, ctx, t, h)
    ensures t.id in p && 1 <= t.id < num
    ensures t.Leaf? ==> p[t.id].LeafBlock? && p[t.id].ents == t.ents
    ensures t.Inner? ==> h > 0 && 0 < |t.kids| == |t.seps| + 1 && p[t.id].InnerBlock? && p[t.id].lref == t.kids[0].id
  {
    PlugRepr(p, ctx, t);
  }

  lemma FirstKid<K, V>(ctx: Ctx<K, V>, t: Tree<K, V>)
    requires LeavesBefore(ctx) == [] && t.Inner? && 0 < |t.kids| == |t.seps| + 1
    ensures LeavesBefore(Down(ctx, t, 0)) == []
  {
    assert t.kids[..0] == [];
  }

  /** What a leaf says about the whole contents. */
  lemma PlacedLeaf<K, V>(p: Pages<K, V>, tree: Tree<K, V>, top: nat, num: int, c: Caps, ctx: Ctx<K, V>, t: Tree<K, V>,
                         h: nat)
    requires Holds(p, tree, top, num, c) && Placed(tree, top, c, ctx, t, h) && t.Leaf?
    ensures Contents(tree) == Flat(LeavesBefore(ctx)) + t.ents + Flat(LeavesAfter(ctx))
    ensures Leaves(tree) == LeavesBefore(ctx) + [t] + LeavesAfter(ctx)
    ensures Linked(p, Leaves(tree), |LeavesBefore(ctx)|)
    ensures forall k | 0 <= k < |t.ents| ::
              InLeaf(Leaves(tree), |LeavesBefore(ctx)|, Ref(t.id, k), |Flat(LeavesBefore(ctx))| + k)
  {
    hide WF, Repr, Linked, Flat, Leaves, LeavesBefore, LeavesAfter, Plug;
    PlugLeaves(ctx, t);
    PlugContents(ctx, t);
    ContentsLeaf(t);
    LeafIsThere(t);
    var a, b := LeavesBefore(ctx), LeavesAfter(ctx);
    assert (a + [t] + b)[|a|] == t && (a + [t] + b)[..|a|] == a;
  }

  lemma LeafIsThere<K, V>(t: Tree<K, V>)
    requires t.Leaf?
    ensures Leaves(t) == [t]
  {
  }

  lemma FirstLeaf<K, V>(p: Pages<K, V>, tree: Tree<K, V>, top: nat, num: int, c: Caps, ctx: Ctx<K, V>, t: Tree<K, V>,
                        h: nat)
    requires Holds(p, tree, top, num, c) && Placed(tree, top, c, ctx, t, h) && t.Leaf? && LeavesBefore(ctx) == []
    ensures if t.ents == [] then Contents(tree) == [] else PosAt(Leaves(tree), Ref(t.id, 0), 0) && Contents(tree) != []
  {
    PlacedLeaf(p, tree, top, num, c, ctx, t, h);
    if t.ents == [] {
      LeavesNotEmpty(tree, top, c);
      ThreeParts(LeavesBefore(ctx), t, LeavesAfter(ctx));
    } else {
      assert InLeaf(Leaves(tree), |LeavesBefore(ctx)|, Ref(t.id, 0), |Flat(LeavesBefore(ctx))| + 0);
    }
  }

  lemma LastLeHere<K, V>(a: seq<Entry<K, V>>, s: seq<Entry<K, V>>, b: seq<Entry<K, V>>, r: nat, cmp: K -> int)
    requires AllGt(b, cmp) && LowerBoundIn(s, r, cmp)
    ensures IsLastLe(a + s + b, |a| + r, cmp)
  {
    var all := a + s + b;
    assert all[|a| + r] == s[r];
    forall j | |a| + r < j < |all| ensures cmp(all[j].key) > 0 {
      assert all[j] == if j < |a| + |s| then s[j - |a|] else b[j - |a| - |s|];
    }
  }

  lemma LastLeLeft<K, V>(a: seq<Entry<K, V>>, s: seq<Entry<K, V>>, b: seq<Entry<K, V>>, cmp: K -> int)
    requires AllLe(a, cmp) && AllGt(b, cmp) && LowerBoundIn(s, -1, cmp)
    ensures a == [] ==> AllGt(a + s + b, cmp)
    ensures a != [] ==> IsLastLe(a + s + b, |a| - 1, cmp)
  {
    var all := a + s + b;
    forall j | |a| <= j < |all| ensures cmp(all[j].key) > 0 {
      assert all[j] == if j < |a| + |s| then s[j - |a|] else b[j - |a| - |s|];
    }
  }

  /** The leaf to the left: it exists unless nothing precedes, and it is never empty. */
  lemma LeftLeaf<K, V>(p: Pages<K, V>, tree: Tree<K, V>, top: nat, num: int, c: Caps, ctx: Ctx<K, V>, t: Tree<K, V>,
                       h: nat, cmp: K -> int)
    requires Holds(p, tree, top, num, c) && Focused(tree, top, c, ctx, t, h, cmp) && t.Leaf?
    ensures t.id in p && p[t.id].LeafBlock?
    ensures p[t.id].left == 0 ==> Flat(LeavesBefore(ctx)) == []
    ensures p[t.id].left != 0 ==>
              && Flat(LeavesBefore(ctx)) != []
              && p[t.id].left in p && 1 <= p[t.id].left < num
              && p[p[t.id].left].LeafBlock? && p[p[t.id].left].ents != []
              && PosAt(Leaves(tree), Ref(p[t.id].left, |p[p[t.id].left].ents| - 1), |Flat(LeavesBefore(ctx))| - 1)
  {
    hide WF, Repr, Flat, Leaves, LeavesBefore, LeavesAfter, Plug;
    PlacedLeaf(p, tree, top, num, c, ctx, t, h);
    var a, b := LeavesBefore(ctx), LeavesAfter(ctx);
    assert (a + [t] + b)[|a|] == t;
    if a != [] {
      var k := |a| - 1;
      var u := a[k];
      assert Leaves(tree)[k] == u && Leaves(tree)[..k] == a[..k];
      assert Linked(p, Leaves(tree), k);
      LeafStored(p, tree, u);
      LeavesNotEmpty(tree, top, c);
      assert u in Leaves(tree);
      assert a == a[..k] + [u] + [];
      FlatThree(a[..k], u, []);
      EmptyFlat<K, V>();
      assert InLeaf(Leaves(tree), k, Ref(u.id, |u.ents| - 1), |Flat(a)| - 1);
    } else {
      EmptyFlat<K, V>();
    }
  }

  lemma EmptyFlat<K, V>()
    ensures Flat<K, V>([]) == []
  {
  }

  lemma PrevInLeaf<K, V>(p: Pages<K, V>, tree: Tree<K, V>, top: nat, num: int, c: Caps, ctx: Ctx<K, V>, t: Tree<K, V>,
                         h: nat, r: int, cmp: K -> int)
    requires Holds(p, tree, top, num, c) && Focused(tree, top, c, ctx, t, h, cmp) && t.Leaf?
    requires LowerBoundIn(t.ents, r, cmp)
    ensures r >= 0 ==> PosAt(Leaves(tree), Ref(t.id, r), |Flat(LeavesBefore(ctx))| + r)
                       && IsLastLe(Contents(tree), |Flat(LeavesBefore(ctx))| + r, cmp)
    ensures r == -1 && Flat(LeavesBefore(ctx)) == [] ==> AllGt(Contents(tree), cmp)
    ensures r == -1 && Flat(LeavesBefore(ctx)) != [] ==> IsLastLe(Contents(tree), |Flat(LeavesBefore(ctx))| - 1, cmp)
  {
    hide WF, Repr, Flat, Leaves, LeavesBefore, LeavesAfter, Plug, Linked, Holds;
    PlacedLeaf(p, tree, top, num, c, ctx, t, h);
    if r >= 0 {
      assert InLeaf(Leaves(tree), |LeavesBefore(ctx)|, Ref(t.id, r), |Flat(LeavesBefore(ctx))| + r);
      LastLeHere(Flat(LeavesBefore(ctx)), t.ents, Flat(LeavesAfter(ctx)), r, cmp);
    } else {
      LastLeLeft(Flat(LeavesBefore(ctx)), t.ents, Flat(LeavesAfter(ctx)), cmp);
    }
  }

  // findNext descends by the other side of the comparison.

  ghost predicate FocusedBelow<K, V>(tree: Tree<K, V>, top: nat, c: Caps, ctx: Ctx<K, V>, t: Tree<K, V>, h: nat,
                                     cmp: K -> int) {
    && Placed(tree, top, c, ctx, t, h)
    && AllLt(Flat(LeavesBefore(ctx)), cmp)
    && (OpenRight(ctx) || (Contents(t) != [] && cmp(Last(Contents(t)).key) >= 0))
  }

  lemma BelowRoot<K, V>(p: Pages<K, V>, tree: Tree<K, V>, top: nat, num: int, c: Caps, cmp: K -> int)
    requires Holds(p, tree, top, num, c)
    ensures FocusedBelow(tree, top, c, Top, tree, top, cmp)
  {
    assert LeavesBefore<K, V>(Top) == [];
  }

  lemma BelowStored<K, V>(p: Pages<K, V>, tree: Tree<K, V>, top: nat, num: int, c: Caps, ctx: Ctx<K, V>, t: Tree<K, V>,
                          h: nat, cmp: K -> int)
    requires Holds(p, tree, top, num, c) && FocusedBelow(tree, top, c, ctx, t, h, cmp)
    ensures t.id in p && 1 <= t.id < num && Encodes(p[t.id], t)
    ensures p[t.id].LeafBlock? <==> t.Leaf?
    ensures t.Inner? ==> |t.seps| >= 1
  {
    PlugRepr(p, ctx, t);
  }

  /** The pages lost on the way down to `t`, with those still to be lost below, are all. */
  ghost predicate Loses<K, V>(lost: multiset<int>, t: Tree<K, V>, tree: Tree<K, V>, cmp: K -> int) {
    lost + Forgotten(t, cmp) == Forgotten(tree, cmp)
  }

  lemma LosesNothing<K, V>(tree: Tree<K, V>, cmp: K -> int)
    ensures Loses(multiset{}, tree, tree, cmp)
  {
  }

  lemma LosesAll<K, V>(lost: multiset<int>, t: Tree<K, V>, tree: Tree<K, V>, cmp: K -> int)
    requires Loses(lost, t, tree, cmp) && t.Leaf?
    ensures lost == Forgotten(tree, cmp)
  {
  }

  /** The child that `findNext` enters. */
  lemma NextKid<K, V>(b: Block<K, V>, t: Tree<K, V>, r: int, cmp: K -> int) returns (i: nat)
    requires t.Inner? && Encodes(b, t) && -1 <= r < |b.children| && |b.children| >= 1
    requires r >= 0 ==> cmp(b.children[r].key) >= 0
    requires forall j | 0 <= j < (if r == -1 then |b.children| else r) :: cmp(b.children[j].key) < 0
    ensures i == FirstGe(t.seps, cmp) == if r == -1 then |t.seps| else r
    ensures i < |t.kids| == |t.seps| + 1
    ensures t.kids[i].id == if i == 0 then b.lref else b.children[i - 1].ref
  {
    i := if r == -1 then |t.seps| else r;
    assert forall j | 0 <= j < |t.seps| :: b.children[j] == Child(t.seps[j], t.kids[j + 1].id);
    FirstGeIs(t.seps, i, cmp);
  }

  /** One step down: the block is lost unless the first or the last child is entered. */
  lemma LosesStep<K, V>(lost: multiset<int>, t: Tree<K, V>, i: nat, tree: Tree<K, V>, cmp: K -> int)
    returns (lost': multiset<int>)
    requires Loses(lost, t, tree, cmp) && t.Inner? && i == FirstGe(t.seps, cmp) && i < |t.kids|
    ensures lost' == if 0 < i < |t.seps| then lost + multiset{t.id} else lost
    ensures Loses(lost', t.kids[i], tree, cmp)
  {
    lost' := if 0 < i < |t.seps| then lost + multiset{t.id} else lost;
  }

  lemma BelowDown<K, V>(p: Pages<K, V>, tree: Tree<K, V>, top: nat, num: int, c: Caps, ctx: Ctx<K, V>, t: Tree<K, V>,
                        h: nat, i: nat, cmp: K -> int)
    requires Holds(p, tree, top, num, c) && FocusedBelow(tree, top, c, ctx, t, h, cmp)
    requires SplitsBelow(Contents(tree), cmp)
    requires t.Inner? && i == FirstGe(t.seps, cmp) && i < |t.kids| == |t.seps| + 1
    ensures h > 0 && FocusedBelow(tree, top, c, Down(ctx, t, i), t.kids[i], h - 1, cmp)
  {
    hide WF, Repr, Chain, Plug, Leaves, Flat, AllLt, SplitsBelow, Down;
    PlacedDown(tree, top, c, ctx, t, h, i);
    DownBelow(ctx, t, h, i, cmp, c);
  }

  lemma FirstGeHere<K, V>(a: seq<Entry<K, V>>, s: seq<Entry<K, V>>, b: seq<Entry<K, V>>, r: nat, cmp: K -> int)
    requires AllLt(a, cmp) && r < |s| && cmp(s[r].key) >= 0 && forall j | 0 <= j < r :: cmp(s[j].key) < 0
    ensures IsFirstGe(a + s + b, |a| + r, cmp)
  {
    var all := a + s + b;
    assert all[|a| + r] == s[r];
    forall j | 0 <= j < |a| + r ensures cmp(all[j].key) < 0 {
      assert all[j] == if j < |a| then a[j] else s[j - |a|];
    }
  }

  lemma NextInLeafFound<K, V>(p: Pages<K, V>, tree: Tree<K, V>, top: nat, num: int, c: Caps, ctx: Ctx<K, V>,
                              t: Tree<K, V>,
                              h: nat, r: int, cmp: K -> int)
    requires Holds(p, tree, top, num, c) && FocusedBelow(tree, top, c, ctx, t, h, cmp) && t.Leaf?
    requires -1 <= r < |t.ents| && (r >= 0 ==> cmp(t.ents[r].key) >= 0)
    requires forall j | 0 <= j < (if r == -1 then |t.ents| else r) :: cmp(t.ents[j].key) < 0
    ensures r >= 0 ==> PosAt(Leaves(tree), Ref(t.id, r), |Flat(LeavesBefore(ctx))| + r)
                       && IsFirstGe(Contents(tree), |Flat(LeavesBefore(ctx))| + r, cmp)
    ensures r == -1 ==> AllLt(Contents(tree), cmp) && Forgotten(t, cmp) == multiset{}
    ensures Forgotten(t, cmp) == multiset{}
  {
    hide WF, Repr, Flat, Leaves, LeavesBefore, LeavesAfter, Plug, Linked, Holds;
    PlacedLeaf(p, tree, top, num, c, ctx, t, h);
    if r >= 0 {
      assert InLeaf(Leaves(tree), |LeavesBefore(ctx)|, Ref(t.id, r), |Flat(LeavesBefore(ctx))| + r);
      FirstGeHere(Flat(LeavesBefore(ctx)), t.ents, Flat(LeavesAfter(ctx)), r, cmp);
    } else {
      ContentsLeaf(t);
      OpenRightEnds(ctx);
      EmptyFlat<K, V>();
    }
  }

  class Btree<K, V> {
    /** Entries per leaf and per inner block. */
    const caps: Caps

    // The pages as the cache hands them out, how often each is pinned, and the pinned pages
    // that were changed and not yet passed to `writePage`.
    var pages: Pages<K, V>
    var pins: multiset<int>
    ghost var unmarked: set<int>

    // The file head.
    var rootBlock: int
    var numBlocks: int
    var depth: int

    ghost var tree: Tree<K, V>

    ghost predicate Sound()
      reads this
    {
      && depth >= 1 && CapsOk(caps)
      && tree.id == rootBlock
      && Holds(pages, tree, depth - 1, numBlocks, caps)
      && PinsKnown()
    }

    /** Only blocks that were allocated are pinned. */
    ghost predicate PinsKnown()
      reads this`pins, this`numBlocks
    {
      forall x | x in pins :: 1 <= x < numBlocks
    }

    ghost predicate Valid()
      reads this
    {
      Sound() && unmarked == {}
    }

    ghost function Contents(): seq<Entry<K, V>>
      reads this`tree
    {
      BtreeShape.Contents(tree)
    }

    // ------------------------------------------------------------------
    // Pages
    // ------------------------------------------------------------------

    method ReadPage(n: int) returns (b: Block<K, V>)
      requires n in pages
      modifies this`pins
      ensures pins == old(pins) + multiset{n}
      ensures old(PinsKnown()) && 1 <= n < numBlocks ==> PinsKnown()
      ensures b == pages[n]
    {
      pins := pins + multiset{n};
      b := pages[n];
    }

    /** A page nobody holds is handed out for writing. */
    method InitializePage(n: int)
      requires n !in pins
      modifies this`pins
      ensures pins == old(pins) + multiset{n}
    {
      pins := pins + multiset{n};
    }

    /** A change of a pinned buffer. */
    method Store(n: int, b: Block<K, V>)
      requires n in pins
      modifies this`pages, this`unmarked
      ensures pages == old(pages)[n := b] && unmarked == old(unmarked) + {n}
    {
      pages := pages[n := b];
      unmarked := unmarked + {n};
    }

    method WritePage(n: int)
      requires n in pins
      modifies this`unmarked
      ensures unmarked == old(unmarked) - {n}
    {
      unmarked := unmarked - {n};
    }

    method ReleasePage(n: int)
      requires n in pins && n !in unmarked
      modifies this`pins
      ensures pins == old(pins) - multiset{n}
      ensures old(PinsKnown()) ==> PinsKnown()
    {
      pins := pins - multiset{n};
    }

    /** A new page is handed out, filled, marked and let go of. */
    method FillPage(n: int, b: Block<K, V>)
      requires n !in pins && n !in unmarked
      modifies this`pages, this`pins, this`unmarked
      ensures pages == old(pages)[n := b] && pins == old(pins) && unmarked == old(unmarked)
    {
      InitializePage(n);
      Store(n, b);
      WritePage(n);
      ReleasePage(n);
    }

    // ------------------------------------------------------------------
    // Creation
    // ------------------------------------------------------------------

    constructor (caps: Caps)
      requires CapsOk(caps)
      ensures Valid() && Contents() == [] && pins == multiset{} && this.caps == caps
      ensures rootBlock == 1 && numBlocks == 2 && depth == 1 && pages == map[1 := LeafBlock([], 0, 0)]
    {
      this.caps := caps;
      rootBlock, numBlocks, depth := 1, 2, 1;
      pages := map[];
      pins := multiset{};
      unmarked := {};
      tree := Leaf(1, []);
      new;
      FillPage(1, LeafBlock([], 0, 0));
      assert Leaves(tree) == [tree];
      ContentsLeaf(tree);
      assert Linked(pages, Leaves(tree), 0);
    }

    method AllocBlock() returns (number: int)
      modifies this`numBlocks
      ensures number == old(numBlocks) && numBlocks == old(numBlocks) + 1
    {
      number := numBlocks;
      numBlocks := numBlocks + 1;
    }

    predicate BlockIsFull(b: Block<K, V>) {
      match b
      case LeafBlock(ents, _, _) => |ents| >= caps.leaf - 1
      case InnerBlock(_, children) => |children| >= caps.inner - 1
    }

    // ------------------------------------------------------------------
    // Searching inside one block
    // ------------------------------------------------------------------

    static method LowerBoundInner(children: seq<Child<K>>, cmp: K -> int) returns (r: int)
      ensures LowerBound(children, r, cmp)
    {
      var index := |children|;
      while index > 0 && cmp(children[index - 1].key) > 0
        invariant 0 <= index <= |children|
        invariant forall j | index <= j < |children| :: cmp(children[j].key) > 0
      {
        index := index - 1;
      }
      return index - 1;
    }

    static method LowerBoundLeaf(ents: seq<Entry<K, V>>, cmp: K -> int) returns (r: int)
      ensures LowerBoundIn(ents, r, cmp)
    {
      var index := |ents|;
      while index > 0 && cmp(ents[index - 1].key) > 0
        invariant 0 <= index <= |ents|
        invariant forall j | index <= j < |ents| :: cmp(ents[j].key) > 0
      {
        index := index - 1;
      }
      return index - 1;
    }

    static method NextInLeaf(ents: seq<Entry<K, V>>, cmp: K -> int) returns (r: int)
      ensures -1 <= r < |ents|
      ensures r >= 0 ==> cmp(ents[r].key) >= 0
      ensures forall j | 0 <= j < (if r == -1 then |ents| else r) :: cmp(ents[j].key) < 0
    {
      var index := 0;
      while index < |ents|
        invariant 0 <= index <= |ents|
        invariant forall j | 0 <= j < index :: cmp(ents[j].key) < 0
      {
        if cmp(ents[index].key) >= 0 {
          return index;
        }
        index := index + 1;
      }
      return -1;
    }

    static method NextInInner(children: seq<Child<K>>, cmp: K -> int) returns (r: int)
      ensures -1 <= r < |children|
      ensures r >= 0 ==> cmp(children[r].key) >= 0
      ensures forall j | 0 <= j < (if r == -1 then |children| else r) :: cmp(children[j].key) < 0
    {
      var index := 0;
      while index < |children|
        invariant 0 <= index <= |children|
        invariant forall j | 0 <= j < index :: cmp(children[j].key) < 0
      {
        if cmp(children[index].key) >= 0 {
          return index;
        }
        index := index + 1;
      }
      return -1;
    }

    // ------------------------------------------------------------------
    // Splitting
    // ------------------------------------------------------------------

    /** What a split relies on: the block is pinned, the numbers below `numBlocks` are used. */
    ghost predicate SplitReady(current: int)
      reads this
    {
      && CapsOk(caps)
      && CanSplit(pages, current) && JustFull(pages[current], caps)
      && current in pins && unmarked == {}
      && PinsKnown()
      && (forall x | x in pages :: 1 <= x < numBlocks)
    }

    method SplitLeaf(current: int) returns (splitNumber: int, splitKey: K)
      requires SplitReady(current) && pages[current].LeafBlock?
      modifies this`pages, this`pins, this`unmarked, this`numBlocks
      ensures splitNumber == old(numBlocks) && numBlocks == old(numBlocks) + 1
      ensures pages == SplitPages(old(pages), current, splitNumber)
      ensures splitKey == SplitKey(old(pages)[current])
      ensures var b, n := old(pages)[current], |old(pages)[current].ents| / 2;
              && current in pages && splitNumber in pages && splitKey == b.ents[n - 1].key
              && pages[current] == LeafBlock(b.ents[..n], b.left, splitNumber)
              && pages[splitNumber] == LeafBlock(b.ents[n..], current, b.right)
              && (b.right != 0 ==> b.right in pages && pages[b.right] == old(pages)[b.right].(left := splitNumber))
      ensures pins == old(pins) && unmarked == {current}
    {
      splitNumber := AllocBlock();
      var leaf := pages[current];
      var entCount := |leaf.ents|;
      var leftSize := entCount / 2;
      var rightSize := entCount - leftSize;
      assert leftSize > 0 && rightSize > 0 && leftSize < caps.leaf - 1 && rightSize < caps.leaf - 1;
      Store(current, LeafBlock(leaf.ents[..leftSize], leaf.left, splitNumber));

      splitKey := leaf.ents[leftSize - 1].key;
      FillPage(splitNumber, LeafBlock(leaf.ents[leftSize..], current, leaf.right));
      if leaf.right != 0 {
        FixRightLink(leaf.right, splitNumber);
      }
    }

    /** The leaf to the right of a split leaf gets the new leaf as its left neighbour. */
    method FixRightLink(n: int, splitNumber: int)
      requires n in pages && pages[n].LeafBlock? && n !in unmarked
      modifies this`pages, this`pins, this`unmarked
      ensures pages == old(pages)[n := LeafBlock(old(pages)[n].ents, splitNumber, old(pages)[n].right)]
      ensures pins == old(pins) && unmarked == old(unmarked)
    {
      var link := ReadPage(n);
      Store(n, LeafBlock(link.ents, splitNumber, link.right));
      WritePage(n);
      ReleasePage(n);
    }

    method SplitInner(current: int) returns (splitNumber: int, splitKey: K)
      requires SplitReady(current) && pages[current].InnerBlock?
      modifies this`pages, this`pins, this`unmarked, this`numBlocks
      ensures splitNumber == old(numBlocks) && numBlocks == old(numBlocks) + 1
      ensures pages == SplitPages(old(pages), current, splitNumber)
      ensures splitKey == SplitKey(old(pages)[current])
      ensures var b, n := old(pages)[current], |old(pages)[current].children| / 2;
              && current in pages && splitNumber in pages && splitKey == b.children[n].key
              && pages[current] == InnerBlock(b.lref, b.children[..n])
              && pages[splitNumber] == InnerBlock(b.children[n].ref, b.children[n + 1..])
      ensures pins == old(pins) && unmarked == {current}
    {
      splitNumber := AllocBlock();
      var inner := pages[current];
      // one of the keys moves to the parent
      var entCount := |inner.children|;
      var leftSize := entCount / 2;
      var rightSize := entCount - leftSize - 1;
      assert leftSize > 0 && rightSize > 0 && leftSize < caps.inner - 2 && rightSize < caps.inner - 1;
      Store(current, InnerBlock(inner.lref, inner.children[..leftSize]));

      splitKey := inner.children[leftSize].key;
      FillPage(splitNumber, InnerBlock(inner.children[leftSize].ref, inner.children[leftSize + 1..]));
    }

    /** Puts the new right half into the parent, which has room. */
    method FixParent(parent: int, index: int, splitNumber: int, splitKey: K)
      requires parent in pins && parent in pages && pages[parent].InnerBlock?
      requires -1 <= index < |pages[parent].children| < caps.inner
      modifies this`pages, this`unmarked
      ensures pages == InsertChild(old(pages), parent, index + 1, splitKey, splitNumber)
      ensures unmarked == old(unmarked) + {parent}
    {
      var b := pages[parent];
      Store(parent, InnerBlock(b.lref, b.children[..index + 1] + [Child(splitKey, splitNumber)]
                               + b.children[index + 1..]));
    }

    /** Grows the tree by a new root above the two halves of the old one. */
    method FixRoot(current: int, splitNumber: int, splitKey: K)
      requires numBlocks !in pins && numBlocks !in unmarked
      modifies this`pages, this`pins, this`unmarked, this`numBlocks, this`rootBlock, this`depth
      ensures numBlocks == old(numBlocks) + 1 && rootBlock == old(numBlocks) && depth == old(depth) + 1
      ensures pages == old(pages)[rootBlock := InnerBlock(current, [Child(splitKey, splitNumber)])]
      ensures pins == old(pins) && unmarked == old(unmarked)
    {
      var newRoot := AllocBlock();
      rootBlock := newRoot;
      depth := depth + 1;
      FillPage(newRoot, InnerBlock(current, [Child(splitKey, splitNumber)]));
    }

    /** Splits the full block `current`: the root, or child `index` of `parent`. */
    method SplitBlock(current: int) returns (splitNumber: int, splitKey: K)
      requires SplitReady(current)
      modifies this`pages, this`pins, this`unmarked, this`numBlocks
      ensures splitNumber == old(numBlocks) && numBlocks == old(numBlocks) + 1
      ensures pages == SplitPages(old(pages), current, splitNumber)
      ensures splitKey == SplitKey(old(pages)[current])
      ensures pins == old(pins) && unmarked == {current}
    {
      if pages[current].LeafBlock? {
        splitNumber, splitKey := SplitLeaf(current);
      } else {
        splitNumber, splitKey := SplitInner(current);
      }
    }

    method SplitRoot()
      requires Sound() && Full(tree, caps) && rootBlock in pins && unmarked == {}
      modifies this`pages, this`pins, this`unmarked, this`numBlocks, this`rootBlock, this`depth, this`tree
      ensures Sound() && !Full(tree, caps) && Roomy(tree, caps) && depth == old(depth) + 1
      ensures Contents() == old(Contents()) && numBlocks == old(numBlocks) + 2
      ensures pins == old(pins) && unmarked == {old(rootBlock)}
    {
      hide Holds;
      ghost var m := numBlocks;
      RootSplits(pages, tree, depth - 1, numBlocks, caps);
      var current := rootBlock;
      var splitNumber, splitKey := SplitBlock(current);
      FixRoot(current, splitNumber, splitKey);
      tree := GrownRoot(tree, m);
    }

    /** Splits `current` and puts its right half into `parent`. */
    method SplitIntoParent(parent: int, index: int, current: int)
      requires SplitReady(current) && parent in pins && index >= -1
      requires CanSplitKid(pages, parent, index + 1, current) && |pages[parent].children| < caps.inner
      modifies this`pages, this`pins, this`unmarked, this`numBlocks
      ensures numBlocks == old(numBlocks) + 1 && old(numBlocks) != parent
      ensures pages == KidPages(old(pages), parent, index + 1, current, old(numBlocks))
      ensures pins == old(pins) && unmarked == {parent, current}
    {
      SplitInnerOthers(pages, current, numBlocks, parent);
      var splitNumber, splitKey := SplitBlock(current);
      FixParent(parent, index, splitNumber, splitKey);
    }

    /** Splits the full child of `parent` that the descent is about to enter. */
    method SplitKidOf(parent: int, index: int, current: int, ghost ctx: Ctx<K, V>, ghost sub: Tree<K, V>, ghost h: nat,
                      cmp: K -> int)
      returns (ghost sub': Tree<K, V>)
      requires Sound() && Focused(tree, depth - 1, caps, ctx, sub, h, cmp) && Turns(sub, index + 1, cmp)
      requires sub.id == parent && !Full(sub, caps)
      requires sub.kids[index + 1].id == current && Full(sub.kids[index + 1], caps)
      requires parent in pins && current in pins && unmarked == {}
      modifies this`pages, this`pins, this`unmarked, this`numBlocks, this`tree
      ensures Sound() && Contents() == old(Contents()) && numBlocks == old(numBlocks) + 1
      ensures Splittable(sub.kids[index + 1]) && sub' == SplitKid(sub, index + 1, old(numBlocks))
      ensures Focused(tree, depth - 1, caps, ctx, sub', h, cmp)
      ensures pins == old(pins) && unmarked == {parent, current}
    {
      hide Holds, Focused;
      ghost var m := numBlocks;
      FocusSplit(pages, tree, depth - 1, numBlocks, caps, ctx, sub, h, index + 1, cmp);
      sub' := SplitKid(sub, index + 1, m);
      SplitIntoParent(parent, index, current);
      tree := Plug(ctx, sub');
      assert Holds(pages, tree, old(depth) - 1, numBlocks, caps);
    }

    // ------------------------------------------------------------------
    // Insertion
    // ------------------------------------------------------------------

    /** The child of `parent` to descend into. */
    method Locate(parent: int, cmp: K -> int, ghost ctx: Ctx<K, V>, ghost sub: Tree<K, V>, ghost h: nat)
      returns (index: int, current: int)
      requires Sound() && Focused(tree, depth - 1, caps, ctx, sub, h, cmp) && sub.Inner? && sub.id == parent
      ensures index >= -1 && Turns(sub, index + 1, cmp)
      ensures current == sub.kids[index + 1].id
    {
      FocusBlock(pages, tree, depth - 1, numBlocks, caps, ctx, sub, h, cmp);
      index := LowerBoundInner(pages[parent].children, cmp);
      LowerBoundTurns(pages[parent], sub, index, cmp);
      current := if index >= 0 then pages[parent].children[index].ref else pages[parent].lref;
    }

    /** Splits the full root, marks what changed and lets go of it. */
    method SplitRootAndMark()
      requires Valid() && Full(tree, caps) && rootBlock in pins
      modifies this
      ensures Valid() && !Full(tree, caps) && Roomy(tree, caps) && depth == old(depth) + 1
      ensures Contents() == old(Contents()) && numBlocks == old(numBlocks) + 2
      ensures pins == old(pins) - multiset{old(rootBlock)}
    {
      hide Holds, Full, Roomy, BtreeShape.Contents;
      var current := rootBlock;
      SplitRoot();
      WritePage(current);
      ReleasePage(current);
      assert unmarked == {};
    }

    /** Reads the root, after splitting it if it is full. */
    method ReadRoot(cmp: K -> int) returns (current: int)
      requires Valid()
      modifies this
      ensures Valid() && Contents() == old(Contents())
      ensures current == tree.id && !Full(tree, caps)
      ensures if depth == old(depth) then numBlocks == old(numBlocks)
              else depth == old(depth) + 1 && numBlocks == old(numBlocks) + 2 && Roomy(tree, caps)
      ensures old(rootBlock) in old(pages)
              && (depth == old(depth) + 1 <==>
                    match old(pages)[old(rootBlock)]
                    case LeafBlock(ents, _, _) => |ents| >= caps.leaf - 1
                    case InnerBlock(_, children) => |children| >= caps.inner - 1)
      ensures pins == old(pins) + multiset{current}
    {
      hide Holds, Full, Roomy, Encodes, BtreeShape.Contents, PinsKnown;
      current := rootBlock;
      RootBlock(pages, tree, depth - 1, numBlocks, caps);
      var b := ReadPage(current);
      if BlockIsFull(b) {
        SplitRootAndMark();
        assert pins == old(pins);
        RootBlock(pages, tree, depth - 1, numBlocks, caps);
        current := rootBlock;
        b := ReadPage(current);
        assert !BlockIsFull(b);
      }
    }

    /** Splits the child, marks what changed and lets go of it. */
    method SplitAndMark(parent: int, index: int, current: int, ghost ctx: Ctx<K, V>, ghost sub: Tree<K, V>,
                        ghost h: nat,
                        cmp: K -> int)
      returns (ghost sub': Tree<K, V>)
      requires Valid() && Focused(tree, depth - 1, caps, ctx, sub, h, cmp) && Turns(sub, index + 1, cmp)
      requires sub.id == parent && !Full(sub, caps)
      requires sub.kids[index + 1].id == current && Full(sub.kids[index + 1], caps)
      requires index >= -1 && parent in pins && current in pins
      modifies this`pages, this`pins, this`unmarked, this`numBlocks, this`tree
      ensures Valid() && Contents() == old(Contents()) && numBlocks == old(numBlocks) + 1
      ensures Splittable(sub.kids[index + 1]) && sub' == SplitKid(sub, index + 1, old(numBlocks))
      ensures sub'.Inner? && sub'.id == parent
      ensures Focused(tree, depth - 1, caps, ctx, sub', h, cmp)
      ensures forall j: nat | j < |sub'.kids| && Turns(sub', j, cmp) :: !Full(sub'.kids[j], caps)
      ensures pins == old(pins) - multiset{current}
    {
      hide Holds, Focused, Turns, Full, SplitKid, PinsKnown, BtreeShape.Contents, Splittable;
      sub' := SplitKidOf(parent, index, current, ctx, sub, h, cmp);
      HalvesAreNext(old(tree), depth - 1, caps, ctx, sub, h, index + 1, old(numBlocks), cmp);
      WritePage(parent);
      WritePage(current);
      ReleasePage(current);
      assert unmarked == {};
    }

    /** Locates the child of `parent` to descend into, and reads it. */
    method ReadLocated(parent: int, cmp: K -> int, ghost ctx: Ctx<K, V>, ghost sub: Tree<K, V>, ghost h: nat)
      returns (index: int, current: int, full: bool)
      requires Valid() && Focused(tree, depth - 1, caps, ctx, sub, h, cmp) && sub.Inner? && sub.id == parent
      modifies this`pins
      ensures Valid() && index >= -1 && Turns(sub, index + 1, cmp)
      ensures 0 <= index + 1 < |sub.kids| && current == sub.kids[index + 1].id && current != parent
      ensures full <==> Full(sub.kids[index + 1], caps)
      ensures pins == old(pins) + multiset{current}
    {
      hide Holds, Focused, PinsKnown, Full, Encodes;
      index, current := Locate(parent, cmp, ctx, sub, h);
      KidFull(pages, tree, depth - 1, numBlocks, caps, ctx, sub, h, index + 1, cmp);
      var b := ReadPage(current);
      full := BlockIsFull(b);
    }

    /** Reads the child of `parent` to descend into, after splitting it if it is full. */
    method ReadChild(parent: int, cmp: K -> int, ghost ctx: Ctx<K, V>, ghost sub: Tree<K, V>, ghost h: nat)
      returns (current: int, ghost sub': Tree<K, V>, ghost i: nat)
      requires Valid() && Focused(tree, depth - 1, caps, ctx, sub, h, cmp)
      requires sub.Inner? && sub.id == parent && !Full(sub, caps) && parent in pins
      modifies this
      ensures Valid() && Contents() == old(Contents()) && depth == old(depth)
      ensures old(numBlocks) <= numBlocks <= old(numBlocks) + 1 - Spare(sub, caps)
      ensures pins == old(pins) + multiset{current}
      ensures Focused(tree, depth - 1, caps, ctx, sub', h, cmp) && Turns(sub', i, cmp)
      ensures sub'.kids[i].id == current && !Full(sub'.kids[i], caps) && current != parent
    {
      hide Holds, Focused, SplitKid, PinsKnown, Full, Encodes, Spare, BtreeShape.Contents, Turns;
      var index, full;
      index, current, full := ReadLocated(parent, cmp, ctx, sub, h);
      sub', i := sub, index + 1;
      if full {
        NothingSpare(sub, i, caps);
        sub' := SplitAndMark(parent, index, current, ctx, sub, h, cmp);
        // the right block may have changed: locate and read it again
        index, current, full := ReadLocated(parent, cmp, ctx, sub', h);
        i := index + 1;
      }
    }

    method InsertAtLeaf(n: int, i: int, key: K, value: V)
      requires n in pins && n in pages && pages[n].LeafBlock? && 0 <= i <= |pages[n].ents|
      modifies this`pages, this`unmarked
      ensures pages == LeafPages(old(pages), n, i, Entry(key, value))
      ensures unmarked == old(unmarked) + {n}
    {
      var b := pages[n];
      Store(n, LeafBlock(b.ents[..i] + [Entry(key, value)] + b.ents[i..], b.left, b.right));
    }

    /** Puts the entry into the leaf that was reached. */
    method PutEntry(current: int, key: K, value: V, cmp: K -> int, ghost ctx: Ctx<K, V>, ghost t: Tree<K, V>,
                    ghost h: nat)
      requires Valid() && SplitsAbove(Contents(), cmp) && Focused(tree, depth - 1, caps, ctx, t, h, cmp)
      requires t.id == current && t.Leaf? && !Full(t, caps) && current in pins
      modifies this`pages, this`unmarked, this`tree
      ensures Sound() && unmarked == {current}
      ensures Contents() == Inserted(old(Contents()), Entry(key, value), cmp)
    {
      hide Holds, Focused, LowerBoundIn, LeafPages, Grown, Inserted;
      ghost var e := Entry(key, value);
      FocusBlock(pages, tree, depth - 1, numBlocks, caps, ctx, t, h, cmp);
      var index := LowerBoundLeaf(pages[current].ents, cmp);
      FocusInsert(pages, tree, depth - 1, numBlocks, caps, ctx, t, h, index, e, cmp);
      InsertAtLeaf(current, index + 1, key, value);
      tree := Plug(ctx, Grown(t, index + 1, e));
    }

    /** `parent` is an inner block on the way down, with room for one more entry. */
    ghost predicate Descending(parent: int, cmp: K -> int, ctx: Ctx<K, V>, t: Tree<K, V>, h: nat)
      requires depth >= 1
      reads this`tree, this`depth
    {
      Focused(tree, depth - 1, caps, ctx, t, h, cmp) && t.Inner? && t.id == parent && !Full(t, caps)
    }

    /** The next block on the way down, with room for one more entry. */
    method NextBlock(parent: int, cmp: K -> int, ghost ctx: Ctx<K, V>, ghost t: Tree<K, V>, ghost h: nat)
      returns (current: int, ghost kctx: Ctx<K, V>, ghost kid: Tree<K, V>, ghost kh: nat)
      requires Valid() && SplitsAbove(Contents(), cmp)
      requires parent != -1 ==> Descending(parent, cmp, ctx, t, h) && parent in pins
      modifies this
      ensures Valid() && Contents() == old(Contents())
      ensures pins == old(pins) + multiset{current}
      ensures Focused(tree, depth - 1, caps, kctx, kid, kh, cmp)
      ensures kid.Inner? ==> Descending(current, cmp, kctx, kid, kh)
      ensures kid.id == current && !Full(kid, caps) && current != parent
      ensures current in pages && current >= 1 && (pages[current].LeafBlock? <==> kid.Leaf?)
      ensures if parent == -1 then
                && kh == depth - 1 && old(depth) <= depth <= old(depth) + 1
                && numBlocks + kh <= old(numBlocks) + old(depth) + 1 + Spare(kid, caps)
              else depth == old(depth) && kh == h - 1 && numBlocks <= old(numBlocks) + 1 - Spare(t, caps)
      ensures old(numBlocks) <= numBlocks
    {
      hide Holds, Focused, Down, SplitsAbove;
      if parent == -1 {
        current := ReadRoot(cmp);
        kctx, kid, kh := Top, tree, depth - 1;
        FocusRoot(pages, tree, depth - 1, numBlocks, caps, cmp);
      } else {
        ghost var i, t';
        current, t', i := ReadChild(parent, cmp, ctx, t, h);
        FocusDown(pages, tree, depth - 1, numBlocks, caps, ctx, t', h, i, cmp);
        kctx, kid, kh := Down(ctx, t', i), t'.kids[i], h - 1;
      }
      FocusStored(pages, tree, depth - 1, numBlocks, caps, kctx, kid, kh, cmp);
    }

    /** Lets go of the parent, if there is one. */
    method ReleaseParent(parent: int, ghost rest: multiset<int>)
      requires pins == if parent == -1 then rest else rest + multiset{parent}
      requires parent != -1 ==> parent !in unmarked
      modifies this`pins
      ensures pins == rest
      ensures old(Sound()) ==> Sound()
    {
      hide Holds;
      if parent != -1 {
        ReleasePage(parent);
      }
    }

    /** Marks the one changed page and lets go of it. */
    method WriteAndRelease(current: int, ghost rest: multiset<int>)
      requires pins == rest + multiset{current} && unmarked == {current}
      modifies this`pins, this`unmarked
      ensures pins == rest && unmarked == {}
      ensures old(PinsKnown()) ==> PinsKnown()
    {
      WritePage(current);
      ReleasePage(current);
    }

    /** The end of `Insert`: `current` is the leaf, pinned, and `parent` is pinned if there is one. */
    method InsertInto(parent: int, current: int, key: K, value: V, cmp: K -> int, ghost ctx: Ctx<K, V>,
                      ghost t: Tree<K, V>, ghost h: nat, ghost rest: multiset<int>)
      requires Valid() && SplitsAbove(Contents(), cmp) && Focused(tree, depth - 1, caps, ctx, t, h, cmp)
      requires t.id == current && t.Leaf? && !Full(t, caps) && current != parent
      requires pins == (if parent == -1 then rest else rest + multiset{parent}) + multiset{current}
      modifies this`pages, this`pins, this`unmarked, this`tree
      ensures Valid() && pins == rest
      ensures Contents() == Inserted(old(Contents()), Entry(key, value), cmp)
    {
      hide Holds, Focused, Inserted, SplitsAbove, PinsKnown, Full, BtreeShape.Contents;
      PutEntry(current, key, value, cmp, ctx, t, h);
      ReleaseParent(parent, rest + multiset{current});
      WriteAndRelease(current, rest);
    }

    /** Inserts an entry, after all entries that compare equal to it. Each level is split at most
        once, and the tree grows by at most one level. */
    method Insert(key: K, value: V, cmp: K -> int)
      requires Valid() && SplitsAbove(Contents(), cmp)
      modifies this
      ensures Valid() && pins == old(pins)
      ensures Contents() == Inserted(old(Contents()), Entry(key, value), cmp)
      ensures old(depth) <= depth <= old(depth) + 1
      ensures old(numBlocks) <= numBlocks <= old(numBlocks) + old(depth) + 1
    {
      hide Holds, Focused, Inserted, SplitsAbove, PinsKnown, CapsOk, Spare, Full, BtreeShape.Contents, Descending;
      var parent, done := -1, false;
      ghost var ctx: Ctx<K, V>, t, h: nat := Top, tree, depth + 1;
      ghost var limit := numBlocks + depth + 1;
      while !done
        invariant Valid()
        invariant !done ==> Contents() == old(Contents())
        invariant !done && parent == -1 ==> pins == old(pins)
        invariant !done && parent != -1 ==> pins == old(pins) + multiset{parent}
        invariant !done && parent == -1 ==> h == depth + 1
        invariant !done && parent != -1 ==> Descending(parent, cmp, ctx, t, h)
        invariant old(depth) <= depth <= old(depth) + 1 && old(numBlocks) <= numBlocks
        invariant parent == -1 && !done ==> depth == old(depth) && numBlocks == old(numBlocks)
        invariant parent != -1 && !done ==> numBlocks + h <= limit + Spare(t, caps)
        invariant done ==> numBlocks <= limit
        invariant done ==> pins == old(pins) && Contents() == Inserted(old(Contents()), Entry(key, value), cmp)
        decreases !done, h
      {
        var current;
        current, ctx, t, h := NextBlock(parent, cmp, ctx, t, h);
        if pages[current].LeafBlock? {
          InsertInto(parent, current, key, value, cmp, ctx, t, h, old(pins));
          done := true;
        } else {
          ReleaseParent(parent, old(pins) + multiset{current});
          parent := current;
        }
      }
    }

    // ------------------------------------------------------------------
    // Searches
    // ------------------------------------------------------------------

    /** Reference `r` is entry `pos` of the contents. */
    ghost predicate At(r: Ref, pos: int)
      reads this`tree
    {
      PosAt(Leaves(tree), r, pos)
    }

    /** Reads a page and lets go of it. */
    method ReadOnce(n: int) returns (b: Block<K, V>)
      requires Valid() && n in pages && 1 <= n < numBlocks
      modifies this`pins
      ensures Valid() && pins == old(pins) && b == pages[n]
    {
      hide Holds, PinsKnown;
      b := ReadPage(n);
      ReleasePage(n);
    }

    /** The first entry. */
    method FindFirst() returns (r: Ref)
      requires Valid()
      modifies this`pins
      ensures Valid() && pins == old(pins)
      ensures if Contents() == [] then r == NO_REF else At(r, 0)
    {
      hide Holds, Placed, PinsKnown, PosAt, Leaves, Flat, LeavesBefore, Down, BtreeShape.Contents;
      var blockNumber := rootBlock;
      ghost var ctx: Ctx<K, V>, t, h: nat := Top, tree, depth - 1;
      PlacedRoot(pages, tree, depth - 1, numBlocks, caps);
      while true
        invariant Valid() && pins == old(pins)
        invariant Placed(tree, depth - 1, caps, ctx, t, h) && LeavesBefore(ctx) == [] && t.id == blockNumber
        decreases h
      {
        PlacedBlock(pages, tree, depth - 1, numBlocks, caps, ctx, t, h);
        var b := ReadOnce(blockNumber);
        if b.LeafBlock? {
          FirstLeaf(pages, tree, depth - 1, numBlocks, caps, ctx, t, h);
          return if |b.ents| != 0 then Ref(blockNumber, 0) else NO_REF;
        }
        PlacedDown(tree, depth - 1, caps, ctx, t, h, 0);
        FirstKid(ctx, t);
        blockNumber := b.lref;
        ctx, t, h := Down(ctx, t, 0), t.kids[0], h - 1;
      }
    }

    /** The last entry that compares `<= 0`; at most one link to the left is followed. */
    method FindPrev(cmp: K -> int) returns (r: Ref, ghost pos: int)
      requires Valid() && SplitsAbove(Contents(), cmp)
      modifies this`pins
      ensures Valid() && pins == old(pins)
      ensures if r == NO_REF then AllGt(Contents(), cmp) else At(r, pos) && IsLastLe(Contents(), pos, cmp)
    {
      hide Holds, Focused, SplitsAbove, PinsKnown, PosAt, IsLastLe, Leaves, Flat, Encodes, Down, BtreeShape.Contents;
      var blockNumber := rootBlock;
      ghost var ctx: Ctx<K, V>, t, h: nat := Top, tree, depth - 1;
      FocusRoot(pages, tree, depth - 1, numBlocks, caps, cmp);
      while true
        invariant Valid() && pins == old(pins)
        invariant Focused(tree, depth - 1, caps, ctx, t, h, cmp) && t.id == blockNumber
        decreases h
      {
        FocusStored(pages, tree, depth - 1, numBlocks, caps, ctx, t, h, cmp);
        var b := ReadPage(blockNumber);
        if b.LeafBlock? {
          r, pos := FindPrevInLeaf(blockNumber, cmp, ctx, t, h, old(pins));
          return;
        }
        ghost var i;
        blockNumber, i := FindPrevChild(blockNumber, cmp, t, old(pins));
        FocusDown(pages, tree, depth - 1, numBlocks, caps, ctx, t, h, i, cmp);
        ctx, t, h := Down(ctx, t, i), t.kids[i], h - 1;
      }
    }

    /** The child behind the last separator that compares `<= 0`. */
    method FindPrevChild(blockNumber: int, cmp: K -> int, ghost t: Tree<K, V>, ghost rest: multiset<int>)
      returns (child: int, ghost i: nat)
      requires blockNumber in pages && Encodes(pages[blockNumber], t) && t.Inner?
      requires pins == rest + multiset{blockNumber} && blockNumber !in unmarked
      modifies this`pins
      ensures Turns(t, i, cmp) && child == t.kids[i].id && pins == rest
      ensures old(PinsKnown()) ==> PinsKnown()
    {
      hide PinsKnown;
      var b := pages[blockNumber];
      var index := LowerBoundInner(b.children, cmp);
      LowerBoundTurns(b, t, index, cmp);
      ReleasePage(blockNumber);
      child := if index == -1 then b.lref else b.children[index].ref;
      i := index + 1;
    }

    /** The end of `FindPrev`: the block is a pinned leaf. */
    method FindPrevInLeaf(blockNumber: int, cmp: K -> int, ghost ctx: Ctx<K, V>, ghost t: Tree<K, V>, ghost h: nat,
                          ghost rest: multiset<int>)
      returns (r: Ref, ghost pos: int)
      requires Valid() && Focused(tree, depth - 1, caps, ctx, t, h, cmp) && t.Leaf? && t.id == blockNumber
      requires pins == rest + multiset{blockNumber}
      modifies this`pins
      ensures Valid() && pins == rest
      ensures if r == NO_REF then AllGt(Contents(), cmp) else At(r, pos) && IsLastLe(Contents(), pos, cmp)
    {
      hide Holds, Focused, PinsKnown, IsLastLe, AllGt, PosAt, Plug, Flat, Leaves;
      FocusStored(pages, tree, depth - 1, numBlocks, caps, ctx, t, h, cmp);
      var index := LowerBoundLeaf(pages[blockNumber].ents, cmp);
      pos := |Flat(LeavesBefore(ctx))| + index;
      PrevInLeaf(pages, tree, depth - 1, numBlocks, caps, ctx, t, h, index, cmp);
      LeftLeaf(pages, tree, depth - 1, numBlocks, caps, ctx, t, h, cmp);
      if index == -1 {
        var leftLink := pages[blockNumber].left;
        ReleasePage(blockNumber);
        if leftLink != 0 {
          r := LastOfLeaf(leftLink);
        } else {
          r := NO_REF;
        }
      } else {
        ReleasePage(blockNumber);
        r := Ref(blockNumber, index);
      }
    }

    /** The last entry of a leaf that is not empty. */
    method LastOfLeaf(n: int) returns (r: Ref)
      requires n in pages && 1 <= n < numBlocks && pages[n].LeafBlock? && pages[n].ents != [] && n !in unmarked
      modifies this`pins
      ensures pins == old(pins) && (old(PinsKnown()) ==> PinsKnown())
      ensures r == Ref(n, |pages[n].ents| - 1)
    {
      var b := ReadPage(n);
      var entCount := |b.ents|;
      assert entCount > 0;
      ReleasePage(n);
      r := Ref(n, entCount - 1);
    }

    /** `FindNext` is at a block that is the root of subtree `t`, and has left `lost` pinned. */
    ghost predicate Below(blockNumber: int, cmp: K -> int, ctx: Ctx<K, V>, t: Tree<K, V>, h: nat, lost: multiset<int>)
      requires depth >= 1
      reads this`tree, this`depth
    {
      FocusedBelow(tree, depth - 1, caps, ctx, t, h, cmp) && t.id == blockNumber && Loses(lost, t, tree, cmp)
    }

    /** The first entry that compares `>= 0`; no link to the right is followed. The inner blocks
        in `Forgotten` stay pinned. */
    method FindNext(cmp: K -> int) returns (r: Ref, ghost pos: int)
      requires Valid() && SplitsBelow(Contents(), cmp)
      modifies this`pins
      ensures Valid() && pins == old(pins) + Forgotten(tree, cmp)
      ensures if r == NO_REF then AllLt(Contents(), cmp) else At(r, pos) && IsFirstGe(Contents(), pos, cmp)
    {
      hide Holds, Below, SplitsBelow, PinsKnown, PosAt, IsFirstGe, AllLt, Forgotten, CapsOk, BtreeShape.Contents;
      var blockNumber := rootBlock;
      ghost var ctx: Ctx<K, V>, t, h: nat := Top, tree, depth - 1;
      ghost var lost := multiset{};
      StartsBelow(cmp);
      while true
        invariant Valid() && pins == old(pins) + lost && Below(blockNumber, cmp, ctx, t, h, lost)
        decreases h
      {
        var b := ReadBelow(blockNumber, cmp, ctx, t, h, lost);
        if b.LeafBlock? {
          r, pos := FindNextInLeaf(blockNumber, cmp, ctx, t, h, old(pins), lost);
          return;
        }
        blockNumber, ctx, t, h, lost := FindNextDown(blockNumber, cmp, ctx, t, h, old(pins), lost);
      }
    }

    lemma StartsBelow(cmp: K -> int)
      requires Valid()
      ensures Below(rootBlock, cmp, Top, tree, depth - 1, multiset{})
    {
      hide Holds, FocusedBelow, Loses;
      LosesNothing(tree, cmp);
      BelowRoot(pages, tree, depth - 1, numBlocks, caps, cmp);
    }

    /** Reads the block that the search has come to. */
    method ReadBelow(blockNumber: int, cmp: K -> int, ghost ctx: Ctx<K, V>, ghost t: Tree<K, V>, ghost h: nat,
                     ghost lost: multiset<int>)
      returns (b: Block<K, V>)
      requires Valid() && Below(blockNumber, cmp, ctx, t, h, lost)
      modifies this`pins
      ensures Valid() && pins == old(pins) + multiset{blockNumber}
      ensures blockNumber in pages && b == pages[blockNumber] && (b.LeafBlock? <==> t.Leaf?)
    {
      hide Holds, FocusedBelow, Loses, PinsKnown, Encodes;
      BelowStored(pages, tree, depth - 1, numBlocks, caps, ctx, t, h, cmp);
      b := ReadPage(blockNumber);
    }

    /** From a pinned inner block to the child that the search enters. */
    method FindNextDown(blockNumber: int, cmp: K -> int, ghost ctx: Ctx<K, V>, ghost t: Tree<K, V>, ghost h: nat,
                        ghost rest: multiset<int>, ghost lost: multiset<int>)
      returns (child: int, ghost ctx': Ctx<K, V>, ghost t': Tree<K, V>, ghost h': nat, ghost lost': multiset<int>)
      requires Valid() && SplitsBelow(Contents(), cmp) && Below(blockNumber, cmp, ctx, t, h, lost) && t.Inner?
      requires pins == rest + lost + multiset{blockNumber}
      modifies this`pins
      ensures Valid() && Below(child, cmp, ctx', t', h', lost') && pins == rest + lost' && h' < h
    {
      hide Holds, FocusedBelow, SplitsBelow, PinsKnown, FirstGe, Loses, Encodes, Down;
      BelowStored(pages, tree, depth - 1, numBlocks, caps, ctx, t, h, cmp);
      ghost var i;
      child, i := FindNextChild(blockNumber, cmp, t);
      lost' := LosesStep(lost, t, i, tree, cmp);
      BelowDown(pages, tree, depth - 1, numBlocks, caps, ctx, t, h, i, cmp);
      ctx', t', h' := Down(ctx, t, i), t.kids[i], h - 1;
    }

    /** The child that `FindNext` enters; in one of the three cases the block stays pinned. */
    method FindNextChild(blockNumber: int, cmp: K -> int, ghost t: Tree<K, V>) returns (child: int, ghost i: nat)
      requires blockNumber in pages && Encodes(pages[blockNumber], t) && t.Inner? && |t.seps| >= 1
      requires blockNumber in pins && blockNumber !in unmarked
      modifies this`pins
      ensures i == FirstGe(t.seps, cmp) && i < |t.kids| == |t.seps| + 1 && child == t.kids[i].id
      ensures pins == if 0 < i < |t.seps| then old(pins) else old(pins) - multiset{blockNumber}
      ensures old(PinsKnown()) ==> PinsKnown()
    {
      hide PinsKnown, FirstGe;
      var b := pages[blockNumber];
      var index := NextInInner(b.children, cmp);
      i := NextKid(b, t, index, cmp);
      if index == -1 {
        child := b.children[|b.children| - 1].ref;
        ReleasePage(blockNumber);
      } else if index == 0 {
        child := b.lref;
        ReleasePage(blockNumber);
      } else {
        child := b.children[index - 1].ref;
      }
    }

    /** The end of `FindNext`: the block is a pinned leaf. */
    method FindNextInLeaf(blockNumber: int, cmp: K -> int, ghost ctx: Ctx<K, V>, ghost t: Tree<K, V>, ghost h: nat,
                          ghost rest: multiset<int>, ghost lost: multiset<int>)
      returns (r: Ref, ghost pos: int)
      requires Valid() && Below(blockNumber, cmp, ctx, t, h, lost) && t.Leaf?
      requires pins == rest + lost + multiset{blockNumber}
      modifies this`pins
      ensures Valid() && pins == rest + Forgotten(tree, cmp)
      ensures if r == NO_REF then AllLt(Contents(), cmp) else At(r, pos) && IsFirstGe(Contents(), pos, cmp)
    {
      hide Holds, FocusedBelow, PinsKnown, IsFirstGe, AllLt, PosAt, Plug, Flat, Leaves, Forgotten, Loses;
      LosesAll(lost, t, tree, cmp);
      BelowStored(pages, tree, depth - 1, numBlocks, caps, ctx, t, h, cmp);
      var index := NextInLeaf(pages[blockNumber].ents, cmp);
      NextInLeafFound(pages, tree, depth - 1, numBlocks, caps, ctx, t, h, index, cmp);
      pos := |Flat(LeavesBefore(ctx))| + index;
      ReleasePage(blockNumber);
      r := if index >= 0 then Ref(blockNumber, index) else NO_REF;
    }
  }
}
