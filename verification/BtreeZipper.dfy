/** A tree seen from one of its blocks: the block's subtree and the context around it.
    `insert` and the searches descend by moving this focus; replacing the focused subtree
    is the only way the tree changes. */
module BtreeZipper {
  import opened BtreeShape

  /** The path from a subtree up to the root. A frame holds the siblings to the left and
      right of the hole: `ls[i]` follows `lk[i]`, `rs[i]` precedes `rk[i]`. */
  datatype Ctx<K, V> =
    | Top
    | Step(up: Ctx<K, V>, id: int, lk: seq<Tree<K, V>>, ls: seq<K>, rk: seq<Tree<K, V>>, rs: seq<K>)

  ghost function Frame<K, V>(ctx: Ctx<K, V>, t: Tree<K, V>): Tree<K, V>
    requires ctx.Step?
  {
    Inner(ctx.id, ctx.lk + [t] + ctx.rk, ctx.ls + ctx.rs)
  }

  ghost function Plug<K, V>(ctx: Ctx<K, V>, t: Tree<K, V>): Tree<K, V> {
    if ctx.Top? then t else Plug(ctx.up, Frame(ctx, t))
  }

  ghost function Depth<K, V>(ctx: Ctx<K, V>): nat {
    if ctx.Top? then 0 else 1 + Depth(ctx.up)
  }

  ghost predicate CtxShape<K, V>(ctx: Ctx<K, V>) {
    ctx.Step? ==> |ctx.lk| == |ctx.ls| && |ctx.rk| == |ctx.rs| && CtxShape(ctx.up)
  }

  ghost function LeavesBefore<K, V>(ctx: Ctx<K, V>): seq<Tree<K, V>> {
    if ctx.Top? then [] else LeavesBefore(ctx.up) + LeavesOf(ctx.lk)
  }

  ghost function LeavesAfter<K, V>(ctx: Ctx<K, V>): seq<Tree<K, V>> {
    if ctx.Top? then [] else LeavesOf(ctx.rk) + LeavesAfter(ctx.up)
  }

  ghost function CtxIds<K, V>(ctx: Ctx<K, V>): multiset<int> {
    if ctx.Top? then multiset{} else multiset{ctx.id} + IdsOf(ctx.lk) + IdsOf(ctx.rk) + CtxIds(ctx.up)
  }

  /** No separator lies to the right of the hole. */
  ghost predicate OpenRight<K, V>(ctx: Ctx<K, V>) {
    ctx.Step? ==> ctx.rk == [] && OpenRight(ctx.up)
  }

  /** The context of child `i` of the focused subtree. */
  ghost function Down<K, V>(ctx: Ctx<K, V>, t: Tree<K, V>, i: nat): Ctx<K, V>
    requires t.Inner? && i < |t.kids| == |t.seps| + 1
  {
    Step(ctx, t.id, t.kids[..i], t.seps[..i], t.kids[i + 1..], t.seps[i..])
  }

  lemma DownPlug<K, V>(ctx: Ctx<K, V>, t: Tree<K, V>, i: nat)
    requires t.Inner? && i < |t.kids| == |t.seps| + 1 && CtxShape(ctx)
    ensures CtxShape(Down(ctx, t, i))
    ensures Plug(Down(ctx, t, i), t.kids[i]) == Plug(ctx, t)
    ensures Frame(Down(ctx, t, i), t.kids[i]) == t
  {
    assert t.kids[..i] + [t.kids[i]] + t.kids[i + 1..] == t.kids;
    assert t.seps[..i] + t.seps[i..] == t.seps;
  }

  lemma Regroup<T>(a: seq<T>, b: seq<T>, c: seq<T>, d: seq<T>, e: seq<T>)
    ensures a + (b + c + d) + e == (a + b) + c + (d + e)
  {
  }

  lemma {:induction false} PlugLeaves<K, V>(ctx: Ctx<K, V>, t: Tree<K, V>)
    ensures Leaves(Plug(ctx, t)) == LeavesBefore(ctx) + Leaves(t) + LeavesAfter(ctx)
  {
    if ctx.Step? {
      PlugLeaves(ctx.up, Frame(ctx, t));
      Around(ctx.lk, t, ctx.rk);
      Regroup(LeavesBefore(ctx.up), LeavesOf(ctx.lk), Leaves(t), LeavesOf(ctx.rk), LeavesAfter(ctx.up));
    }
  }

  lemma {:induction false} PlugIds<K, V>(ctx: Ctx<K, V>, t: Tree<K, V>)
    ensures Ids(Plug(ctx, t)) == CtxIds(ctx) + Ids(t)
  {
    if ctx.Step? {
      PlugIds(ctx.up, Frame(ctx, t));
      Around(ctx.lk, t, ctx.rk);
    }
  }

  lemma PlugContents<K, V>(ctx: Ctx<K, V>, t: Tree<K, V>)
    ensures Contents(Plug(ctx, t)) == Flat(LeavesBefore(ctx)) + Contents(t) + Flat(LeavesAfter(ctx))
  {
    PlugLeaves(ctx, t);
    FlatAppend(LeavesBefore(ctx) + Leaves(t), LeavesAfter(ctx));
    FlatAppend(LeavesBefore(ctx), Leaves(t));
  }

  lemma {:induction false} PlugRoot<K, V>(ctx: Ctx<K, V>, t: Tree<K, V>, u: Tree<K, V>)
    requires t.id == u.id
    ensures Plug(ctx, t).id == Plug(ctx, u).id
  {
    if ctx.Step? {
      PlugRoot(ctx.up, Frame(ctx, t), Frame(ctx, u));
    }
  }

  ghost predicate SameLast<K, V>(t: Tree<K, V>, u: Tree<K, V>) {
    Contents(t) != [] && Contents(u) != [] && Last(Contents(t)).key == Last(Contents(u)).key
  }

  lemma {:induction false} PlugSub<K, V>(ctx: Ctx<K, V>, t: Tree<K, V>, h: nat, c: Caps)
    requires WF(Plug(ctx, t), h + Depth(ctx), true, c) && CtxShape(ctx)
    ensures WF(t, h, ctx.Top?, c)
    ensures ctx.Step? ==> WF(Frame(ctx, t), h + 1, ctx.up.Top?, c)
  {
    if ctx.Step? {
      PlugSub(ctx.up, Frame(ctx, t), h + 1, c);
      assert Frame(ctx, t).kids[|ctx.lk|] == t;
    }
  }

  lemma FrameWF<K, V>(ctx: Ctx<K, V>, t: Tree<K, V>, u: Tree<K, V>, h: nat, root: bool, c: Caps)
    requires ctx.Step? && CtxShape(ctx) && CapsOk(c)
    requires WF(Frame(ctx, t), h + 1, root, c) && WF(u, h, false, c)
    requires ctx.rk == [] || SameLast(t, u)
    ensures WF(Frame(ctx, u), h + 1, root, c)
  {
    hide Leaves, Flat, LeavesOf, Ids, IdsOf;
    var p, q := Frame(ctx, t), Frame(ctx, u);
    var n := |ctx.lk|;
    assert p.kids[n] == t && q.kids[n] == u;
    assert forall i | 0 <= i < |q.kids| && i != n :: q.kids[i] == p.kids[i];
    forall i | 0 <= i < |q.seps| ensures IsMaxOf(q.seps[i], q.kids[i]) {
      assert IsMaxOf(p.seps[i], p.kids[i]);
    }
  }

  lemma FrameLast<K, V>(ctx: Ctx<K, V>, t: Tree<K, V>, u: Tree<K, V>, h: nat, root: bool, c: Caps)
    requires ctx.Step? && CtxShape(ctx) && CapsOk(c)
    requires WF(Frame(ctx, t), h + 1, root, c) && WF(Frame(ctx, u), h + 1, root, c)
    ensures ctx.rk != [] || SameLast(t, u) ==> SameLast(Frame(ctx, t), Frame(ctx, u))
  {
    hide Leaves, Flat, LeavesOf, Ids, IdsOf, WF;
    var p, q := Frame(ctx, t), Frame(ctx, u);
    LastOfInner(p, h + 1, root, c);
    LastOfInner(q, h + 1, root, c);
    if ctx.rk != [] {
      assert Last(p.kids) == Last(q.kids);
    } else {
      assert Last(p.kids) == t && Last(q.kids) == u;
    }
  }

  /** Replacing the focused subtree by one of the same height keeps the tree well formed, as
      long as the last key stays what the separator to the right says. */
  lemma {:induction false} PlugWF<K, V>(ctx: Ctx<K, V>, t: Tree<K, V>, u: Tree<K, V>, h: nat, c: Caps)
    requires CtxShape(ctx) && CapsOk(c)
    requires WF(Plug(ctx, t), h + Depth(ctx), true, c) && WF(u, h, ctx.Top?, c)
    requires OpenRight(ctx) || SameLast(t, u)
    ensures WF(Plug(ctx, u), h + Depth(ctx), true, c)
  {
    if ctx.Step? {
      PlugSub(ctx, t, h, c);
      FrameWF(ctx, t, u, h, ctx.up.Top?, c);
      FrameLast(ctx, t, u, h, ctx.up.Top?, c);
      PlugWF(ctx.up, Frame(ctx, t), Frame(ctx, u), h + 1, c);
    }
  }

  // ------------------------------------------------------------------
  // Searching: where a comparison changes sign
  // ------------------------------------------------------------------

  ghost predicate AllLe<K, V>(s: seq<Entry<K, V>>, cmp: K -> int) {
    forall i | 0 <= i < |s| :: cmp(s[i].key) <= 0
  }

  ghost predicate AllGt<K, V>(s: seq<Entry<K, V>>, cmp: K -> int) {
    forall i | 0 <= i < |s| :: cmp(s[i].key) > 0
  }

  ghost predicate AllLt<K, V>(s: seq<Entry<K, V>>, cmp: K -> int) {
    forall i | 0 <= i < |s| :: cmp(s[i].key) < 0
  }

  ghost predicate AllGe<K, V>(s: seq<Entry<K, V>>, cmp: K -> int) {
    forall i | 0 <= i < |s| :: cmp(s[i].key) >= 0
  }

  /** Entries that compare `<= 0` come before those that compare `> 0`. */
  ghost predicate SplitsAbove<K, V>(s: seq<Entry<K, V>>, cmp: K -> int) {
    forall i, j | 0 <= i < j < |s| :: cmp(s[j].key) <= 0 ==> cmp(s[i].key) <= 0
  }

  /** Entries that compare `< 0` come before those that compare `>= 0`. */
  ghost predicate SplitsBelow<K, V>(s: seq<Entry<K, V>>, cmp: K -> int) {
    forall i, j | 0 <= i < j < |s| :: cmp(s[j].key) < 0 ==> cmp(s[i].key) < 0
  }

  lemma CutAbove<K, V>(s: seq<Entry<K, V>>, a: seq<Entry<K, V>>, b: seq<Entry<K, V>>, cmp: K -> int)
    requires SplitsAbove(s, cmp) && s == a + b && a != []
    ensures cmp(Last(a).key) <= 0 ==> AllLe(a, cmp)
    ensures cmp(Last(a).key) > 0 ==> AllGt(b, cmp)
  {
    var m := |a| - 1;
    assert s[m] == a[m];
    forall i | 0 <= i < |a| && cmp(a[m].key) <= 0 ensures cmp(a[i].key) <= 0 {
      assert s[i] == a[i];
    }
    forall i | 0 <= i < |b| && cmp(a[m].key) > 0 ensures cmp(b[i].key) > 0 {
      assert s[|a| + i] == b[i];
    }
  }

  lemma CutBelow<K, V>(s: seq<Entry<K, V>>, a: seq<Entry<K, V>>, b: seq<Entry<K, V>>, cmp: K -> int)
    requires SplitsBelow(s, cmp) && s == a + b && a != []
    ensures cmp(Last(a).key) < 0 ==> AllLt(a, cmp)
    ensures cmp(Last(a).key) >= 0 ==> AllGe(b, cmp)
  {
    var m := |a| - 1;
    assert s[m] == a[m];
    forall i | 0 <= i < |a| && cmp(a[m].key) < 0 ensures cmp(a[i].key) < 0 {
      assert s[i] == a[i];
    }
    forall i | 0 <= i < |b| && cmp(a[m].key) >= 0 ensures cmp(b[i].key) >= 0 {
      assert s[|a| + i] == b[i];
    }
  }

  lemma DownSides<K, V>(ctx: Ctx<K, V>, t: Tree<K, V>, i: nat)
    requires t.Inner? && i < |t.kids| == |t.seps| + 1 && CtxShape(ctx)
    ensures Flat(LeavesBefore(Down(ctx, t, i))) == Flat(LeavesBefore(ctx)) + ContentsOf(t.kids[..i])
    ensures Flat(LeavesAfter(Down(ctx, t, i))) == ContentsOf(t.kids[i + 1..]) + Flat(LeavesAfter(ctx))
    ensures Contents(Plug(ctx, t)) ==
            Flat(LeavesBefore(Down(ctx, t, i))) + Contents(t.kids[i]) + Flat(LeavesAfter(Down(ctx, t, i)))
  {
    FlatAppend(LeavesBefore(ctx), LeavesOf(t.kids[..i]));
    FlatAppend(LeavesOf(t.kids[i + 1..]), LeavesAfter(ctx));
    DownPlug(ctx, t, i);
    PlugContents(Down(ctx, t, i), t.kids[i]);
  }

  /** Separators name the last keys around child `i`. */
  lemma KidKeys<K, V>(t: Tree<K, V>, h: nat, root: bool, i: nat, c: Caps)
    requires WF(t, h, root, c) && CapsOk(c) && t.Inner? && i < |t.kids|
    ensures Contents(t.kids[i]) != []
    ensures i < |t.seps| ==> Last(Contents(t.kids[i])).key == t.seps[i]
    ensures i == |t.seps| ==> Contents(t) != [] && Last(Contents(t.kids[i])) == Last(Contents(t))
  {
    NonEmpty(t.kids[i], h - 1, c);
    if i < |t.seps| {
      assert IsMaxOf(t.seps[i], t.kids[i]);
    } else {
      LastOfInner(t, h, root, c);
    }
  }

  lemma KeyBefore<K, V>(t: Tree<K, V>, h: nat, root: bool, i: nat, c: Caps)
    requires WF(t, h, root, c) && CapsOk(c) && t.Inner? && 0 < i < |t.kids|
    ensures ContentsOf(t.kids[..i]) != [] && Last(ContentsOf(t.kids[..i])).key == t.seps[i - 1]
  {
    hide Leaves, Flat, LeavesOf, ContentsOf;
    var ks := t.kids[..i];
    assert forall j | 0 <= j < |ks| :: ks[j] == t.kids[j];
    NonEmptyAll(ks, h - 1, c);
    assert ks[i - 1] == t.kids[i - 1];
    assert IsMaxOf(t.seps[i - 1], t.kids[i - 1]);
  }

  /** The contents around child `i` of the focused subtree, with the separators' meaning. */
  lemma DownContents<K, V>(ctx: Ctx<K, V>, t: Tree<K, V>, h: nat, i: nat, c: Caps)
    requires CtxShape(ctx) && CapsOk(c) && t.Inner? && i < |t.kids|
    requires WF(Plug(ctx, t), h + Depth(ctx), true, c)
    ensures WF(t, h, ctx.Top?, c)
    ensures Flat(LeavesBefore(Down(ctx, t, i))) == Flat(LeavesBefore(ctx)) + ContentsOf(t.kids[..i])
    ensures Flat(LeavesAfter(Down(ctx, t, i))) == ContentsOf(t.kids[i + 1..]) + Flat(LeavesAfter(ctx))
    ensures i > 0 ==> ContentsOf(t.kids[..i]) != [] && Last(ContentsOf(t.kids[..i])).key == t.seps[i - 1]
    ensures Contents(t.kids[i]) != []
    ensures i < |t.seps| ==> Last(Contents(t.kids[i])).key == t.seps[i]
    ensures i == |t.seps| ==> Contents(t) != [] && Last(Contents(t.kids[i])) == Last(Contents(t))
    ensures Contents(Plug(ctx, t)) ==
            Flat(LeavesBefore(Down(ctx, t, i))) + Contents(t.kids[i]) + Flat(LeavesAfter(Down(ctx, t, i)))
  {
    hide Leaves, Flat, LeavesOf, Ids, IdsOf;
    PlugSub(ctx, t, h, c);
    DownSides(ctx, t, i);
    KidKeys(t, h, ctx.Top?, i, c);
    if i > 0 {
      KeyBefore(t, h, ctx.Top?, i, c);
    }
  }

  /** The descent of `insert` and `findPrev`: child `i` lies between the last separator that
      compares `<= 0` and the first that compares `> 0`. */
  lemma DownAbove<K, V>(ctx: Ctx<K, V>, t: Tree<K, V>, h: nat, i: nat, cmp: K -> int, c: Caps)
    requires CtxShape(ctx) && CapsOk(c) && t.Inner? && i < |t.kids| == |t.seps| + 1
    requires WF(Plug(ctx, t), h + Depth(ctx), true, c)
    requires SplitsAbove(Contents(Plug(ctx, t)), cmp)
    requires AllLe(Flat(LeavesBefore(ctx)), cmp) && AllGt(Flat(LeavesAfter(ctx)), cmp)
    requires OpenRight(ctx) || (Contents(t) != [] && cmp(Last(Contents(t)).key) > 0)
    requires i > 0 ==> cmp(t.seps[i - 1]) <= 0
    requires i < |t.seps| ==> cmp(t.seps[i]) > 0
    ensures AllLe(Flat(LeavesBefore(Down(ctx, t, i))), cmp)
    ensures AllGt(Flat(LeavesAfter(Down(ctx, t, i))), cmp)
    ensures Contents(t.kids[i]) != []
    ensures OpenRight(Down(ctx, t, i)) || cmp(Last(Contents(t.kids[i])).key) > 0
  {
    hide WF, Leaves, Flat, LeavesOf, Plug, ContentsOf, LeavesBefore, LeavesAfter, SplitsAbove, AllLe, AllGt;
    DownContents(ctx, t, h, i, c);
    NoneLeftOrRight(t.kids, i);
    CutTwice(Contents(Plug(ctx, t)), Flat(LeavesBefore(ctx)), ContentsOf(t.kids[..i]), Contents(t.kids[i]),
             ContentsOf(t.kids[i + 1..]), Flat(LeavesAfter(ctx)), cmp);
  }

  lemma NoneLeftOrRight<K, V>(ts: seq<Tree<K, V>>, i: nat)
    requires i < |ts|
    ensures i == 0 ==> ContentsOf(ts[..i]) == []
    ensures i + 1 == |ts| ==> ts[i + 1..] == [] && ContentsOf(ts[i + 1..]) == []
  {
  }

  lemma CutTwice<K, V>(s: seq<Entry<K, V>>, a: seq<Entry<K, V>>, l: seq<Entry<K, V>>, k: seq<Entry<K, V>>,
                       r: seq<Entry<K, V>>, b: seq<Entry<K, V>>, cmp: K -> int)
    requires SplitsAbove(s, cmp) && s == (a + l) + k + (r + b) && k != []
    requires AllLe(a, cmp) && AllGt(b, cmp)
    requires l == [] || cmp(Last(l).key) <= 0
    requires r == [] || cmp(Last(k).key) > 0
    ensures AllLe(a + l, cmp) && AllGt(r + b, cmp)
  {
    if l != [] {
      assert Last(a + l) == Last(l) && s == (a + l) + (k + (r + b));
      CutAbove(s, a + l, k + (r + b), cmp);
    } else {
      assert a + l == a;
    }
    if r != [] {
      assert Last(a + l + k) == Last(k);
      CutAbove(s, a + l + k, r + b, cmp);
    } else {
      assert r + b == b;
    }
  }

  /** The descent of `findNext`: child `i` is the first whose last key compares `>= 0`,
      or the last child. */
  lemma DownBelow<K, V>(ctx: Ctx<K, V>, t: Tree<K, V>, h: nat, i: nat, cmp: K -> int, c: Caps)
    requires CtxShape(ctx) && CapsOk(c) && t.Inner? && i < |t.kids| == |t.seps| + 1
    requires WF(Plug(ctx, t), h + Depth(ctx), true, c)
    requires SplitsBelow(Contents(Plug(ctx, t)), cmp)
    requires AllLt(Flat(LeavesBefore(ctx)), cmp)
    requires OpenRight(ctx) || (Contents(t) != [] && cmp(Last(Contents(t)).key) >= 0)
    requires i > 0 ==> cmp(t.seps[i - 1]) < 0
    requires i < |t.seps| ==> cmp(t.seps[i]) >= 0
    ensures AllLt(Flat(LeavesBefore(Down(ctx, t, i))), cmp)
    ensures Contents(t.kids[i]) != []
    ensures OpenRight(Down(ctx, t, i)) || cmp(Last(Contents(t.kids[i])).key) >= 0
  {
    hide WF, Leaves, Flat, LeavesOf, Plug, ContentsOf, LeavesBefore, LeavesAfter, SplitsBelow, AllLt;
    DownContents(ctx, t, h, i, c);
    NoneLeftOrRight(t.kids, i);
    CutLeft(Contents(Plug(ctx, t)), Flat(LeavesBefore(ctx)), ContentsOf(t.kids[..i]),
            Contents(t.kids[i]), Flat(LeavesAfter(Down(ctx, t, i))), cmp);
  }

  lemma CutLeft<K, V>(s: seq<Entry<K, V>>, a: seq<Entry<K, V>>, l: seq<Entry<K, V>>,
                      k: seq<Entry<K, V>>, b: seq<Entry<K, V>>, cmp: K -> int)
    requires SplitsBelow(s, cmp) && s == (a + l) + k + b
    requires AllLt(a, cmp)
    requires l == [] || cmp(Last(l).key) < 0
    ensures AllLt(a + l, cmp)
  {
    if l != [] {
      assert Last(a + l) == Last(l) && s == (a + l) + (k + b);
      CutBelow(s, a + l, k + b, cmp);
    } else {
      assert a + l == a;
    }
  }

  lemma {:induction false} OpenRightEnds<K, V>(ctx: Ctx<K, V>)
    requires OpenRight(ctx)
    ensures LeavesAfter(ctx) == []
  {
    if ctx.Step? {
      OpenRightEnds(ctx.up);
    }
  }
}
