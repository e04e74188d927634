/** Forward iteration over a tree: a pinned leaf and an entry number. */
module BtreeIterators {
  import opened BtreeShape
  import opened BtreeZipper
  import opened BtreePages
  import opened BtreeSearch
  import opened Btrees

  /** The position after `pos`: the next entry of the same leaf, or the first of the leaf to
      the right, which is never empty; the last position has no right neighbour. */
  lemma NextPosition<K, V>(p: Pages<K, V>, t: Tree<K, V>, top: nat, num: int, c: Caps, r: Ref, pos: int)
    requires Holds(p, t, top, num, c) && PosAt(Leaves(t), r, pos)
    ensures r.block in p && 1 <= r.block < num && p[r.block].LeafBlock? && 0 <= r.entry < |p[r.block].ents|
    ensures 0 <= pos < |Contents(t)| && p[r.block].ents[r.entry] == Contents(t)[pos]
    ensures r.entry + 1 < |p[r.block].ents| ==>
              PosAt(Leaves(t), Ref(r.block, r.entry + 1), pos + 1) && pos + 1 < |Contents(t)|
    ensures r.entry + 1 == |p[r.block].ents| && p[r.block].right != 0 ==>
              && p[r.block].right in p && 1 <= p[r.block].right < num && p[p[r.block].right].LeafBlock?
              && PosAt(Leaves(t), Ref(p[r.block].right, 0), pos + 1) && pos + 1 < |Contents(t)|
    ensures r.entry + 1 == |p[r.block].ents| && p[r.block].right == 0 ==> pos + 1 == |Contents(t)|
  {
    hide WF, Repr, Flat, Leaves;
    var ls := Leaves(t);
    var i: nat :| InLeaf(ls, i, r, pos);
    PosEntry(ls, i, r, pos);
    LeafStored(p, t, ls[i]);
    assert Linked(p, ls, i);
    if r.entry + 1 < |ls[i].ents| {
      assert InLeaf(ls, i, Ref(r.block, r.entry + 1), pos + 1);
      PosEntry(ls, i, Ref(r.block, r.entry + 1), pos + 1);
    } else if i + 1 < |ls| {
      assert Linked(p, ls, i + 1);
      LeavesNotEmpty(t, top, c);
      assert ls[i + 1] in ls;
      assert ls[..i + 1] == ls[..i] + [ls[i]] + [];
      FlatThree(ls[..i], ls[i], []);
      EmptyFlat<K, V>();
      assert InLeaf(ls, i + 1, Ref(ls[i + 1].id, 0), pos + 1);
      PosEntry(ls, i + 1, Ref(ls[i + 1].id, 0), pos + 1);
    } else {
      FlatAround(ls, i);
      assert ls[i + 1..] == [];
      EmptyFlat<K, V>();
    }
  }

  class Iterator<K, V> {
    const tree: Btree<K, V>
    var block: int
    var entry: int

    constructor (tree: Btree<K, V>)
      ensures this.tree == tree && block == 0 && entry == 0 && Held() == multiset{}
    {
      this.tree := tree;
      block, entry := 0, 0;
    }

    predicate AtEnd()
      reads this
    {
      block <= 0 || entry < 0
    }

    /** The iterator stands on entry `pos` and holds the page of its leaf. */
    ghost predicate On(pos: int)
      reads this, tree
    {
      && tree.At(Ref(block, entry), pos)
      && block > 0 && entry >= 0
      && block in tree.pins
    }

    /** The page the iterator holds. */
    ghost function Held(): multiset<int>
      reads this
    {
      if block > 0 then multiset{block} else multiset{}
    }

    /** Lets go of the page, before a move and at the end of the iterator's life. */
    method Close(ghost rest: multiset<int>)
      requires tree.Valid() && tree.pins == rest + Held()
      modifies tree`pins
      ensures tree.Valid() && tree.pins == rest
    {
      hide Holds, Btree.PinsKnown;
      if block > 0 {
        tree.ReleasePage(block);
      }
    }

    /** Moves to `r`; `rest` are the pages that others hold. */
    method Seek(r: Ref, ghost pos: int, ghost rest: multiset<int>)
      requires tree.Valid() && tree.pins == rest + Held()
      requires r == NO_REF || tree.At(r, pos)
      modifies this, tree`pins
      ensures tree.Valid() && tree.pins == rest + Held()
      ensures if r == NO_REF then AtEnd() else On(pos) && !AtEnd()
    {
      hide Holds, PosAt, Leaves, Btree.PinsKnown, Flat;
      Close(rest);
      block, entry := r.block, r.entry;
      if r != NO_REF {
        NextPosition(tree.pages, tree.tree, tree.depth - 1, tree.numBlocks, tree.caps, r, pos);
      }
      if r.block > 0 {
        var _ := tree.ReadPage(r.block);
      }
    }

    /** Moves to the next entry. */
    method Forward(ghost pos: int, ghost rest: multiset<int>)
      requires tree.Valid() && tree.pins == rest + Held() && On(pos)
      modifies this, tree`pins
      ensures tree.Valid() && tree.pins == rest + Held()
      ensures if pos + 1 < |tree.Contents()| then On(pos + 1) && !AtEnd() else AtEnd()
    {
      hide Holds, PosAt, Leaves, Flat, Btree.PinsKnown;
      NextPosition(tree.pages, tree.tree, tree.depth - 1, tree.numBlocks, tree.caps, Ref(block, entry), pos);
      var b := tree.pages[block];
      entry := entry + 1;
      if entry == |b.ents| {
        Close(rest);
        if b.right != 0 {
          block, entry := b.right, 0;
          var _ := tree.ReadPage(block);
        } else {
          block, entry := -1, -1;
        }
      }
    }

    method GetEntry(ghost pos: int) returns (e: Entry<K, V>)
      requires tree.Valid() && On(pos)
      ensures 0 <= pos < |tree.Contents()| && e == tree.Contents()[pos]
    {
      hide Holds, PosAt;
      NextPosition(tree.pages, tree.tree, tree.depth - 1, tree.numBlocks, tree.caps, Ref(block, entry), pos);
      e := tree.pages[block].ents[entry];
    }
  }

  /** Iterating from entry `start` on yields exactly the entries from there to the end, in order. */
  method Enumerate<K, V>(tree: Btree<K, V>, r: Ref, ghost start: nat) returns (seen: seq<Entry<K, V>>)
    requires tree.Valid() && start <= |tree.Contents()|
    requires if start < |tree.Contents()| then r != NO_REF && tree.At(r, start) else r == NO_REF
    modifies tree`pins
    ensures tree.Valid() && tree.pins == old(tree.pins) && seen == tree.Contents()[start..]
  {
    hide Holds, PosAt, Leaves, Flat, Btree.Contents, Btree.Valid, Btree.At, Iterator.On, Iterator.Held;
    ghost var c, rest, pos := tree.Contents(), tree.pins, start;
    var iterate := new Iterator(tree);
    iterate.Seek(r, start, rest);
    seen := [];
    while !iterate.AtEnd()
      invariant tree.Valid() && tree.pins == rest + iterate.Held() && tree.Contents() == c
      invariant start <= pos <= |c| && seen == c[start..pos]
      invariant if pos < |c| then iterate.On(pos) && !iterate.AtEnd() else iterate.AtEnd()
      decreases |c| - pos
    {
      var e := iterate.GetEntry(pos);
      seen := seen + [e];
      iterate.Forward(pos, rest);
      pos := pos + 1;
    }
    iterate.Close(rest);
  }

  /** From `findFirst` on: the whole tree. */
  method EnumerateAll<K, V>(tree: Btree<K, V>) returns (seen: seq<Entry<K, V>>)
    requires tree.Valid()
    modifies tree`pins
    ensures tree.Valid() && tree.pins == old(tree.pins) && seen == tree.Contents()
  {
    hide Holds, PosAt, Leaves, Flat;
    var r := tree.FindFirst();
    if tree.Contents() != [] {
      PosInside(Leaves(tree.tree), r, 0);
    }
    seen := Enumerate(tree, r, 0);
  }

  /** From `findNext` on: exactly the entries that compare `>= 0`, in order. */
  method EnumerateFrom<K, V>(tree: Btree<K, V>, cmp: K -> int) returns (seen: seq<Entry<K, V>>, ghost start: nat)
    requires tree.Valid() && SplitsBelow(tree.Contents(), cmp)
    modifies tree`pins
    ensures tree.Valid() && tree.pins == old(tree.pins) + Forgotten(tree.tree, cmp)
    ensures start <= |tree.Contents()| && seen == tree.Contents()[start..]
    ensures AllLt(tree.Contents()[..start], cmp) && AllGe(tree.Contents()[start..], cmp)
  {
    hide Holds, PosAt, Leaves, Flat, Forgotten;
    var r;
    ghost var pos;
    r, pos := tree.FindNext(cmp);
    if r == NO_REF {
      start := |tree.Contents()|;
      assert tree.Contents()[..start] == tree.Contents();
    } else {
      start := pos;
    }
    seen := Enumerate(tree, r, start);
  }
}
