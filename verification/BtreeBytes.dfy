/** The bytes of a block: heads, entries at fixed offsets, and the moves inside and between
    page buffers that insert an entry and split a block. */
module BtreeBytes {
  import opened BtreeShape
  import opened BtreePages
  import opened RandomAccessFiles
  import opened DbTypes

  const LEAF_HEAD := 16
  const INNER_HEAD := 8
  const REF_SIZE := 4
  const FLAG_IS_LEAF := 1

  datatype Layout = Layout(blockSize: nat, keySize: nat, valSize: nat)

  function EntSizeLeaf(l: Layout): nat {
    l.valSize + l.keySize
  }

  function EntSizeInner(l: Layout): nat {
    l.keySize + REF_SIZE
  }

  /** Where entry `i` starts, behind a head of `head` bytes. */
  function EntOff(head: nat, size: nat, i: nat): nat {
    head + AreaSize(size, i)
  }

  function AreaSize(size: nat, n: nat): nat {
    size * n
  }

  function EntsPerLeaf(l: Layout): int
    requires EntSizeLeaf(l) > 0
  {
    (l.blockSize - LEAF_HEAD) / EntSizeLeaf(l)
  }

  function EntsPerInner(l: Layout): int {
    (l.blockSize - INNER_HEAD - REF_SIZE) / EntSizeInner(l)
  }

  /** As many entries as the capacity fit into a block. */
  lemma Fits(head: nat, size: nat, n: nat, length: nat)
    requires size > 0 && length >= head && n <= (length - head) / size
    ensures EntOff(head, size, n) <= length
  {
    var q := (length - head) / size;
    assert size * n <= size * q by {
      MulMonotonic(size, n, q);
    }
    assert size * q <= length - head;
  }

  /** The computed capacities are exact: so many entries fit into a block, and no more. */
  lemma Capacities(l: Layout, n: nat)
    requires EntSizeLeaf(l) > 0 && l.blockSize >= LEAF_HEAD
    ensures n <= EntsPerLeaf(l) <==> 16 + (l.valSize + l.keySize) * n <= l.blockSize
    ensures n <= EntsPerInner(l) <==> 12 + (l.keySize + 4) * n <= l.blockSize
  {
    FitsExactly(l.valSize + l.keySize, n, l.blockSize - 16);
    FitsExactly(l.keySize + 4, n, l.blockSize - 12);
  }

  lemma FitsExactly(size: nat, n: nat, room: nat)
    requires size > 0
    ensures n <= room / size <==> size * n <= room
  {
    var q := room / size;
    assert size * q <= room < size * (q + 1);
    if n <= q {
      MulMonotonic(size, n, q);
    } else {
      MulMonotonic(size, q + 1, n);
    }
  }

  lemma MulMonotonic(a: nat, b: nat, c: nat)
    requires b <= c
    ensures a * b <= a * c
  {
  }

  // ------------------------------------------------------------------
  // Entries, one after the other
  // ------------------------------------------------------------------

  ghost function Joined(slots: seq<Bytes>): Bytes {
    if slots == [] then [] else Joined(slots[..|slots| - 1]) + slots[|slots| - 1]
  }

  ghost predicate Sized(slots: seq<Bytes>, size: nat) {
    forall i | 0 <= i < |slots| :: |slots[i]| == size
  }

  lemma {:induction false} JoinedLength(slots: seq<Bytes>, size: nat)
    requires Sized(slots, size)
    ensures |Joined(slots)| == size * |slots|
  {
    if slots != [] {
      var n := |slots| - 1;
      JoinedLength(slots[..n], size);
      assert size * |slots| == size * n + size;
    }
  }

  lemma {:induction false} JoinedAppend(a: seq<Bytes>, b: seq<Bytes>)
    ensures Joined(a + b) == Joined(a) + Joined(b)
  {
    if b == [] {
      assert a + b == a;
    } else {
      var n := |b| - 1;
      JoinedAppend(a, b[..n]);
      assert (a + b)[..|a + b| - 1] == a + b[..n];
    }
  }

  /** The entries behind the head are `slots`, each of `size` bytes. */
  ghost predicate Holds(b: Bytes, head: nat, size: nat, slots: seq<Bytes>) {
    Sized(slots, size) && head + |Joined(slots)| <= |b| && b[head..head + |Joined(slots)|] == Joined(slots)
  }

  ghost function InsertedAt(slots: seq<Bytes>, i: nat, slot: Bytes): seq<Bytes>
    requires i <= |slots|
  {
    slots[..i] + [slot] + slots[i..]
  }

  lemma JoinedSplit(slots: seq<Bytes>, i: nat)
    requires i <= |slots|
    ensures Joined(slots) == Joined(slots[..i]) + Joined(slots[i..])
  {
    assert slots == slots[..i] + slots[i..];
    JoinedAppend(slots[..i], slots[i..]);
  }

  lemma JoinedInserted(slots: seq<Bytes>, i: nat, slot: Bytes)
    requires i <= |slots|
    ensures Joined(InsertedAt(slots, i, slot)) == Joined(slots[..i]) + slot + Joined(slots[i..])
  {
    JoinedAppend(slots[..i] + [slot], slots[i..]);
    JoinedAppend(slots[..i], [slot]);
    assert [slot][..0] == [];
    assert Joined([slot]) == slot;
  }

  /** A 32-bit field at offset `o`. */
  function Field(b: Bytes, o: nat): nat
    requires o + 4 <= |b|
  {
    FromLe(b[o..o + 4])
  }

  // ------------------------------------------------------------------
  // Moves
  // ------------------------------------------------------------------

  /** `memmove` inside one buffer. */
  method Move(block: array<byte>, to: nat, from: nat, n: nat)
    requires to + n <= block.Length && from + n <= block.Length
    modifies block
    ensures block[..] == old(block[..])[..to] + old(block[..])[from..from + n] + old(block[..])[to + n..]
  {
    forall k | to <= k < to + n {
      block[k] := block[k - to + from];
    }
    assert block[to..to + n] == old(block[..])[from..from + n];
    assert block[..] == block[..to] + block[to..to + n] + block[to + n..];
  }

  /** `memcpy` of some bytes into a buffer. */
  method Put(block: array<byte>, o: nat, bytes: Bytes)
    requires o + |bytes| <= block.Length
    modifies block
    ensures block[..] == old(block[..])[..o] + bytes + old(block[..])[o + |bytes|..]
  {
    forall k | o <= k < o + |bytes| {
      block[k] := bytes[k - o];
    }
    assert block[o..o + |bytes|] == bytes;
    assert block[..] == block[..o] + block[o..o + |bytes|] + block[o + |bytes|..];
  }

  /** Sets a 32-bit field; all other bytes stay. */
  method PutField(block: array<byte>, o: nat, n: nat)
    requires o + 4 <= block.Length && n < 0x8000_0000
    modifies block
    ensures Field(block[..], o) == n
    ensures block[..o] == old(block[..o]) && block[o + 4..] == old(block[o + 4..])
  {
    ghost var before := block[..];
    Put(block, o, ToLe(n));
    assert block[..][o..o + 4] == ToLe(n);
    LeRoundTrip(n);
    assert block[..o] == before[..o];
    assert block[o + 4..] == before[o + 4..];
  }

  /** Opens a gap at entry `i` and puts `slot` there: the entries behind it move up by one. */
  method InsertSlot(block: array<byte>, head: nat, size: nat, n: nat, i: nat, slot: Bytes, ghost slots: seq<Bytes>)
    requires Holds(block[..], head, size, slots) && n == |slots| && i <= n
    requires EntOff(head, size, n + 1) <= block.Length && |slot| == size
    modifies block
    ensures Holds(block[..], head, size, InsertedAt(slots, i, slot))
    ensures block[..head] == old(block[..head])
  {
    hide Holds, Joined, Sized, InsertedAt, EntOff, AreaSize;
    ghost var a, b := Joined(slots[..i]), Joined(slots[i..]);
    Decomposed(block[..], head, size, slots, i);
    Places(head, size, n, i);
    var from, to := EntOff(head, size, i), EntOff(head, size, i + 1);
    var length := AreaSize(size, n - i);
    ghost var h, r := block[..head], block[head + |a| + |b|..];
    ghost var before := block[..];
    Move(block, to, from, length);
    ghost var moved := block[..];
    Put(block, from, slot);
    MoveThenPut(before, moved, block[..], h, a, b, r, slot, from, to, length);
    Refilled(block[..], h, slots, i, slot, r[size..], size);
  }

  lemma MoveThenPut(before: Bytes, moved: Bytes, after: Bytes, h: Bytes, a: Bytes, b: Bytes, r: Bytes, slot: Bytes,
                    from: nat, to: nat, length: nat)
    requires before == h + a + b + r && |slot| <= |r| && from == |h| + |a| && to == from + |slot| && length == |b|
    requires moved == before[..to] + before[from..from + length] + before[to + length..]
    requires after == moved[..from] + slot + moved[from + |slot|..]
    ensures after == h + a + slot + (b + r[|slot|..])
  {
    MovedParts(h, a, b, r, |slot|);
  }

  lemma Decomposed(block: Bytes, head: nat, size: nat, slots: seq<Bytes>, i: nat)
    requires Holds(block, head, size, slots) && i <= |slots|
    ensures var a, b := Joined(slots[..i]), Joined(slots[i..]);
            && |a| == AreaSize(size, i) && |b| == AreaSize(size, |slots| - i) && head + |a| + |b| <= |block|
            && block == block[..head] + a + b + block[head + |a| + |b|..]
    ensures Sized(slots, size)
  {
    hide Joined;
    JoinedSplit(slots, i);
    JoinedLength(slots[..i], size);
    JoinedLength(slots[i..], size);
    var n := head + |Joined(slots)|;
    assert block == block[..head] + block[head..n] + block[n..];
  }

  /** Bytes `h a b r`, after `b` was moved up by `size`. */
  lemma MovedParts(h: Bytes, a: Bytes, b: Bytes, r: Bytes, size: nat)
    requires |r| >= size
    ensures var before, from := h + a + b + r, |h + a|;
            var moved := before[..from + size] + before[from..from + |b|] + before[from + size + |b|..];
            moved[..from] == h + a && moved[from + size..] == b + r[size..]
  {
    var before, from := h + a + b + r, |h + a|;
    assert before[from..from + |b|] == b;
    assert before[from + size + |b|..] == r[size..];
    assert before[..from + size][..from] == h + a;
  }

  lemma Refilled(block: Bytes, h: Bytes, slots: seq<Bytes>, i: nat, slot: Bytes, r: Bytes, size: nat)
    requires Sized(slots, size) && |slot| == size && i <= |slots|
    requires block == h + Joined(slots[..i]) + slot + (Joined(slots[i..]) + r)
    ensures Holds(block, |h|, size, InsertedAt(slots, i, slot)) && block[..|h|] == h
  {
    hide Joined;
    JoinedInserted(slots, i, slot);
    var x := Joined(slots[..i]) + slot + Joined(slots[i..]);
    assert block == h + x + r;
    assert block[|h|..|h| + |x|] == x;
  }

  lemma Places(head: nat, size: nat, n: nat, i: nat)
    requires i <= n
    ensures EntOff(head, size, i) == head + AreaSize(size, i)
    ensures EntOff(head, size, i + 1) == EntOff(head, size, i) + size
    ensures EntOff(head, size, n + 1) == EntOff(head, size, i + 1) + AreaSize(size, n - i)
  {
  }

  // ------------------------------------------------------------------
  // Blocks
  // ------------------------------------------------------------------

  /** A leaf entry is a value and then a key; an inner entry a key and then a reference. */
  ghost function LeafSlots(ents: seq<Entry<Bytes, Bytes>>): seq<Bytes> {
    seq(|ents|, i requires 0 <= i < |ents| => ents[i].value + ents[i].key)
  }

  ghost function InnerSlots(children: seq<Child<Bytes>>): seq<Bytes>
    requires forall i | 0 <= i < |children| :: IsRef(children[i].ref)
  {
    seq(|children|, i requires 0 <= i < |children| && IsRef(children[i].ref) => children[i].key + ToLe(children[i].ref))
  }

  ghost predicate IsRef(n: int) {
    0 <= n < 0x8000_0000
  }

  ghost predicate LeafSizes(l: Layout, ents: seq<Entry<Bytes, Bytes>>) {
    |ents| < 0x8000_0000 && forall i | 0 <= i < |ents| :: |ents[i].key| == l.keySize && |ents[i].value| == l.valSize
  }

  ghost predicate InnerSizes(l: Layout, children: seq<Child<Bytes>>) {
    |children| < 0x8000_0000 && forall i | 0 <= i < |children| ::
        |children[i].key| == l.keySize && IsRef(children[i].ref)
  }

  /** The bytes of a page show a block. */
  ghost predicate Shows(b: Bytes, l: Layout, block: Block<Bytes, Bytes>) {
    match block
    case LeafBlock(ents, left, right) =>
      && |b| == l.blockSize >= LEAF_HEAD && LeafSizes(l, ents) && IsRef(left) && IsRef(right)
      && Field(b, 0) == FLAG_IS_LEAF && Field(b, 4) == |ents| && Field(b, 8) == left && Field(b, 12) == right
      && Holds(b, LEAF_HEAD, EntSizeLeaf(l), LeafSlots(ents))
    case InnerBlock(lref, children) =>
      && |b| == l.blockSize >= INNER_HEAD + REF_SIZE && InnerSizes(l, children) && IsRef(lref)
      && Field(b, 0) == 0 && Field(b, 4) == |children| && Field(b, INNER_HEAD) == lref
      && Holds(b, INNER_HEAD + REF_SIZE, EntSizeInner(l), InnerSlots(children))
  }

  /** Entries and fields behind offset `o` stay when the bytes behind it do. */
  lemma TailKeeps(a: Bytes, b: Bytes, o: nat, head: nat, size: nat, slots: seq<Bytes>)
    requires o <= head <= |a| == |b| && a[o..] == b[o..] && Holds(a, head, size, slots)
    ensures Holds(b, head, size, slots)
  {
    var n := head + |Joined(slots)|;
    assert a[head..n] == a[o..][head - o..n - o];
    assert b[head..n] == b[o..][head - o..n - o];
  }

  lemma FieldKept(a: Bytes, b: Bytes, o: nat, f: nat)
    requires |a| == |b| && f + 4 <= |a| && ((f + 4 <= o <= |a| && a[..o] == b[..o]) || (o <= f && a[o..] == b[o..]))
    ensures Field(a, f) == Field(b, f)
  {
    if f + 4 <= o {
      assert a[f..f + 4] == a[..o][f..f + 4] && b[f..f + 4] == b[..o][f..f + 4];
    } else {
      assert a[f..f + 4] == a[o..][f - o..f + 4 - o] && b[f..f + 4] == b[o..][f - o..f + 4 - o];
    }
  }

  method PutCount(block: array<byte>, n: nat)
    requires block.Length >= 8 && n < 0x8000_0000
    modifies block
    ensures Field(block[..], 0) == old(Field(block[..], 0)) && Field(block[..], 4) == n
    ensures block[8..] == old(block[8..])
  {
    ghost var before := block[..];
    PutField(block, 4, n);
    FieldKept(before, block[..], 4, 0);
  }

  lemma LeafSlotsInserted(l: Layout, ents: seq<Entry<Bytes, Bytes>>, i: nat, e: Entry<Bytes, Bytes>)
    requires i <= |ents|
    ensures InsertedAt(LeafSlots(ents), i, e.value + e.key) == LeafSlots(ents[..i] + [e] + ents[i..])
  {
  }

  /** `p_insertAtLeaf`: the bytes show the block with the entry inserted, as the tree's own
      insertion puts it there. */
  method InsertAtLeaf(block: array<byte>, l: Layout, i: nat, key: Bytes, value: Bytes, ghost b: Block<Bytes, Bytes>)
    requires b.LeafBlock? && Shows(block[..], l, b) && i <= |b.ents|
    requires |key| == l.keySize && |value| == l.valSize && EntSizeLeaf(l) > 0
    requires |b.ents| < EntsPerLeaf(l) < 0x8000_0000
    modifies block
    ensures Shows(block[..], l, LeafBlock(b.ents[..i] + [Entry(key, value)] + b.ents[i..], b.left, b.right))
  {
    hide Holds, EntOff, LeafSlots, InsertedAt;
    var entCount := Field(block[..], 4);
    ghost var before := block[..];
    Fits(LEAF_HEAD, EntSizeLeaf(l), entCount + 1, block.Length);
    LeafSlotsInserted(l, b.ents, i, Entry(key, value));
    SlotsCount(b.ents);
    InsertSlot(block, LEAF_HEAD, EntSizeLeaf(l), entCount, i, value + key, LeafSlots(b.ents));
    ghost var mid := block[..];
    PutCount(block, entCount + 1);
    FieldKept(before, mid, LEAF_HEAD, 0);
    FieldKept(before, mid, LEAF_HEAD, 8);
    FieldKept(before, mid, LEAF_HEAD, 12);
    FieldKept(mid, block[..], 8, 8);
    FieldKept(mid, block[..], 8, 12);
    TailKeeps(mid, block[..], 8, LEAF_HEAD, EntSizeLeaf(l), LeafSlots(b.ents[..i] + [Entry(key, value)] + b.ents[i..]));
  }

  lemma SlotsCount(ents: seq<Entry<Bytes, Bytes>>)
    ensures |LeafSlots(ents)| == |ents|
  {
  }

  lemma InnerSlotsInserted(children: seq<Child<Bytes>>, i: nat, c: Child<Bytes>)
    requires i <= |children| && IsRef(c.ref) && forall k | 0 <= k < |children| :: IsRef(children[k].ref)
    ensures InsertedAt(InnerSlots(children), i, c.key + ToLe(c.ref)) == InnerSlots(children[..i] + [c] + children[i..])
    ensures |InnerSlots(children)| == |children|
  {
  }

  /** `p_insertAtInnerR`. */
  method InsertAtInner(block: array<byte>, l: Layout, i: nat, key: Bytes, ref: nat, ghost b: Block<Bytes, Bytes>)
    requires b.InnerBlock? && Shows(block[..], l, b) && i <= |b.children|
    requires |key| == l.keySize && IsRef(ref) && |b.children| < EntsPerInner(l) < 0x8000_0000
    modifies block
    ensures Shows(block[..], l, InnerBlock(b.lref, b.children[..i] + [Child(key, ref)] + b.children[i..]))
  {
    hide Holds, EntOff, InsertedAt;
    var entCount := Field(block[..], 4);
    ghost var before, head := block[..], INNER_HEAD + REF_SIZE;
    Fits(INNER_HEAD + REF_SIZE, EntSizeInner(l), entCount + 1, block.Length);
    InnerSlotsInserted(b.children, i, Child(key, ref));
    InsertSlot(block, INNER_HEAD + REF_SIZE, EntSizeInner(l), entCount, i, key + ToLe(ref), InnerSlots(b.children));
    ghost var mid := block[..];
    PutCount(block, entCount + 1);
    FieldKept(before, mid, head, 0);
    FieldKept(before, mid, head, INNER_HEAD);
    FieldKept(mid, block[..], 8, INNER_HEAD);
    TailKeeps(mid, block[..], 8, head, EntSizeInner(l),
              InnerSlots(b.children[..i] + [Child(key, ref)] + b.children[i..]));
  }

  // ------------------------------------------------------------------
  // Splits
  // ------------------------------------------------------------------

  /** The bytes of the entries from `k` on. */
  lemma BackBytes(block: Bytes, head: nat, size: nat, slots: seq<Bytes>, k: nat)
    requires Holds(block, head, size, slots) && k <= |slots|
    ensures EntOff(head, size, k) + AreaSize(size, |slots| - k) <= |block|
    ensures block[EntOff(head, size, k)..EntOff(head, size, k) + AreaSize(size, |slots| - k)] == Joined(slots[k..])
    ensures |Joined(slots[k..])| == AreaSize(size, |slots| - k) && Sized(slots[k..], size)
  {
    hide Joined, AreaSize;
    Decomposed(block, head, size, slots, k);
    var h, a, b := block[..head], Joined(slots[..k]), Joined(slots[k..]);
    var r := block[head + |a| + |b|..];
    assert (h + a + b + r)[|h + a|..|h + a| + |b|] == b;
  }

  lemma PutShows(before: Bytes, after: Bytes, head: nat, size: nat, slots: seq<Bytes>)
    requires Sized(slots, size) && head + |Joined(slots)| <= |before|
    requires after == before[..head] + Joined(slots) + before[head + |Joined(slots)|..]
    ensures Holds(after, head, size, slots) && after[..head] == before[..head]
  {
    hide Joined;
    assert after[head..head + |Joined(slots)|] == Joined(slots);
  }

  lemma FrontShows(before: Bytes, after: Bytes, head: nat, size: nat, slots: seq<Bytes>, k: nat)
    requires Holds(before, head, size, slots) && k <= |slots| && |after| == |before|
    requires EntOff(head, size, k) <= |before| && after[..EntOff(head, size, k)] == before[..EntOff(head, size, k)]
    ensures Holds(after, head, size, slots[..k]) && after[..head] == before[..head]
  {
    hide Joined, AreaSize;
    Decomposed(before, head, size, slots, k);
    var h, a, b := before[..head], Joined(slots[..k]), Joined(slots[k..]);
    var r, n := before[head + |a| + |b|..], EntOff(head, size, k);
    assert before[..n] == h + a by {
      assert (h + a + b + r)[..|h + a|] == h + a;
    }
    assert after[head..n] == after[..n][head..] == a;
    assert after[..head] == after[..n][..head];
  }

  /** The bytes of entry `k`. */
  lemma SlotBytes(block: Bytes, head: nat, size: nat, slots: seq<Bytes>, k: nat)
    requires Holds(block, head, size, slots) && k < |slots|
    ensures EntOff(head, size, k) + size <= |block|
    ensures block[EntOff(head, size, k)..EntOff(head, size, k) + size] == slots[k]
  {
    BackBytes(block, head, size, slots, k);
    var o, rest := EntOff(head, size, k), slots[k..];
    JoinedSplit(rest, 1);
    assert rest[..1] == [slots[k]] && [slots[k]][..0] == [];
    assert Joined(rest[..1]) == slots[k];
    AreaStep(size, |rest|);
    var n := AreaSize(size, |slots| - k);
    assert block[o..o + n][..size] == block[o..o + size];
  }

  lemma AreaStep(size: nat, n: nat)
    requires n > 0
    ensures AreaSize(size, n) == size + AreaSize(size, n - 1)
  {
  }

  /** Copies the entries from `k` on to the start of another block's entries. */
  method CopySlots(block: array<byte>, split: array<byte>, head: nat, size: nat, n: nat, k: nat,
                   ghost slots: seq<Bytes>)
    requires block != split && Holds(block[..], head, size, slots) && n == |slots| && k <= n
             && split.Length == block.Length
    modifies split
    ensures Holds(split[..], head, size, slots[k..]) && split[..head] == old(split[..head])
  {
    hide Joined, Sized, AreaSize;
    BackBytes(block[..], head, size, slots, k);
    ghost var before := split[..];
    Put(split, head, block[..][EntOff(head, size, k)..EntOff(head, size, k) + AreaSize(size, n - k)]);
    PutShows(before, split[..], head, size, slots[k..]);
  }

  /** Clears the entries from `k` on. */
  method ClearSlots(block: array<byte>, head: nat, size: nat, n: nat, k: nat, ghost slots: seq<Bytes>)
    requires Holds(block[..], head, size, slots) && n == |slots| && k <= n
    modifies block
    ensures Holds(block[..], head, size, slots[..k]) && block[..head] == old(block[..head])
  {
    hide Joined, Sized, AreaSize;
    BackBytes(block[..], head, size, slots, k);
    ghost var before := block[..];
    var o := EntOff(head, size, k);
    Put(block, o, seq(AreaSize(size, n - k), _ => 0));
    assert block[..][..o] == before[..o];
    FrontShows(before, block[..], head, size, slots, k);
  }

  /** The head of a leaf: flag, number of entries and links. */
  method PutLeafHead(block: array<byte>, n: nat, left: nat, right: nat)
    requires block.Length >= LEAF_HEAD && IsRef(n) && IsRef(left) && IsRef(right)
    modifies block
    ensures Field(block[..], 0) == FLAG_IS_LEAF && Field(block[..], 4) == n
    ensures Field(block[..], 8) == left && Field(block[..], 12) == right
  {
    PutField(block, 0, FLAG_IS_LEAF);
    ghost var a := block[..];
    PutField(block, 4, n);
    ghost var b := block[..];
    FieldKept(a, b, 4, 0);
    PutField(block, 8, left);
    ghost var c := block[..];
    FieldKept(b, c, 8, 0);
    FieldKept(b, c, 8, 4);
    PutField(block, 12, right);
    FieldKept(c, block[..], 12, 0);
    FieldKept(c, block[..], 12, 4);
    FieldKept(c, block[..], 12, 8);
  }

  lemma LeafHeadKept(a: Bytes, b: Bytes)
    requires |a| == |b| >= LEAF_HEAD && a[..LEAF_HEAD] == b[..LEAF_HEAD]
    ensures Field(a, 0) == Field(b, 0) && Field(a, 4) == Field(b, 4) && Field(a, 8) == Field(b, 8)
            && Field(a, 12) == Field(b, 12)
  {
    FieldKept(a, b, LEAF_HEAD, 0);
    FieldKept(a, b, LEAF_HEAD, 4);
    FieldKept(a, b, LEAF_HEAD, 8);
    FieldKept(a, b, LEAF_HEAD, 12);
  }

  /** The new head of the left half: fewer entries, and the new right neighbour. */
  method ShrinkLeaf(block: array<byte>, n: nat, right: nat, size: nat, ghost slots: seq<Bytes>)
    requires block.Length >= LEAF_HEAD && IsRef(n) && IsRef(right) && Holds(block[..], LEAF_HEAD, size, slots)
    modifies block
    ensures Field(block[..], 0) == old(Field(block[..], 0)) && Field(block[..], 4) == n
    ensures Field(block[..], 8) == old(Field(block[..], 8)) && Field(block[..], 12) == right
    ensures Holds(block[..], LEAF_HEAD, size, slots)
  {
    hide Holds;
    ghost var a := block[..];
    PutCount(block, n);
    ghost var b := block[..];
    FieldKept(a, b, 8, 8);
    TailKeeps(a, b, 8, LEAF_HEAD, size, slots);
    PutField(block, 12, right);
    FieldKept(b, block[..], 12, 0);
    FieldKept(b, block[..], 12, 4);
    FieldKept(b, block[..], 12, 8);
    TailKeeps(b, block[..], 16, LEAF_HEAD, size, slots);
  }

  /** What a leaf looks like: flag, number of entries and links, and where it keeps entry `i`: its
      value, and behind it its key. */
  lemma LeafEntryAt(b: Bytes, l: Layout, block: Block<Bytes, Bytes>, i: nat)
    requires block.LeafBlock? && Shows(b, l, block) && i < |block.ents|
    ensures |b| >= 16 && Field(b, 0) == 1 && Field(b, 4) == |block.ents|
    ensures Field(b, 8) == block.left && Field(b, 12) == block.right
    ensures var o := 16 + (l.valSize + l.keySize) * i;
            && o + l.valSize + l.keySize <= |b|
            && b[o..o + l.valSize] == block.ents[i].value
            && b[o + l.valSize..o + l.valSize + l.keySize] == block.ents[i].key
  {
    hide Holds;
    var size := l.valSize + l.keySize;
    SlotBytes(b, LEAF_HEAD, size, LeafSlots(block.ents), i);
    var o := 16 + size * i;
    var slot := b[o..o + size];
    assert slot == block.ents[i].value + block.ents[i].key;
    assert b[o..o + l.valSize] == slot[..l.valSize];
    assert b[o + l.valSize..o + size] == slot[l.valSize..];
  }

  /** What an inner block looks like: flag, number of entries and leftmost reference, and where it
      keeps entry `i`: its key, and behind it the reference. */
  lemma InnerEntryAt(b: Bytes, l: Layout, block: Block<Bytes, Bytes>, i: nat)
    requires block.InnerBlock? && Shows(b, l, block) && i < |block.children|
    ensures |b| >= 12 && Field(b, 0) == 0 && Field(b, 4) == |block.children| && Field(b, 8) == block.lref
    ensures var o := 12 + (l.keySize + 4) * i;
            && o + l.keySize + 4 <= |b|
            && b[o..o + l.keySize] == block.children[i].key
            && Field(b, o + l.keySize) == block.children[i].ref
  {
    hide Holds;
    var size := l.keySize + 4;
    SlotBytes(b, INNER_HEAD + REF_SIZE, size, InnerSlots(block.children), i);
    var o := 12 + size * i;
    var slot := b[o..o + size];
    assert slot == block.children[i].key + ToLe(block.children[i].ref);
    assert b[o..o + l.keySize] == slot[..l.keySize];
    assert b[o + l.keySize..o + l.keySize + 4] == slot[l.keySize..];
    LeRoundTrip(block.children[i].ref);
  }

  lemma LeafSlotsCut(ents: seq<Entry<Bytes, Bytes>>, k: nat)
    requires k <= |ents|
    ensures LeafSlots(ents)[..k] == LeafSlots(ents[..k]) && LeafSlots(ents)[k..] == LeafSlots(ents[k..])
    ensures |LeafSlots(ents)| == |ents|
  {
  }

  /** `p_readKey` at the key of a leaf entry. */
  method ReadLeafKey(block: array<byte>, l: Layout, i: nat, ghost ents: seq<Entry<Bytes, Bytes>>) returns (key: Bytes)
    requires LeafSizes(l, ents) && Holds(block[..], LEAF_HEAD, EntSizeLeaf(l), LeafSlots(ents)) && i < |ents|
    ensures key == ents[i].key
  {
    hide Holds, EntOff;
    SlotBytes(block[..], LEAF_HEAD, EntSizeLeaf(l), LeafSlots(ents), i);
    var o := EntOff(LEAF_HEAD, EntSizeLeaf(l), i);
    ghost var slot := block[..][o..o + EntSizeLeaf(l)];
    key := block[..][o + l.valSize..o + l.valSize + l.keySize];
    assert key == slot[l.valSize..];
  }

  /** `splitLeaf`: the back half of the entries moves to the new block, which is linked in
      between the block and its right neighbour. */
  method SplitLeaf(block: array<byte>, split: array<byte>, l: Layout, blockNumber: nat, splitNumber: nat,
                   ghost b: Block<Bytes, Bytes>)
    returns (splitKey: Bytes)
    requires block != split && b.LeafBlock? && Shows(block[..], l, b) && split.Length == l.blockSize
    requires IsRef(blockNumber) && IsRef(splitNumber) && |b.ents| >= 2
    modifies block, split
    ensures splitKey == b.ents[|b.ents| / 2 - 1].key
    ensures Shows(block[..], l, LeafBlock(b.ents[..|b.ents| / 2], b.left, splitNumber))
    ensures Shows(split[..], l, LeafBlock(b.ents[|b.ents| / 2..], blockNumber, b.right))
  {
    hide Holds, LeafSlots, EntOff;
    var entCount, rightLink := Field(block[..], 4), Field(block[..], 12);
    var leftSize := entCount / 2;
    var rightSize := entCount - leftSize;
    LeafSlotsCut(b.ents, leftSize);
    splitKey := ReadLeafKey(block, l, leftSize - 1, b.ents);
    ShrinkLeaf(block, leftSize, splitNumber, EntSizeLeaf(l), LeafSlots(b.ents));
    PutLeafHead(split, rightSize, blockNumber, rightLink);
    ghost var blockHead, splitHead := block[..], split[..];
    CopySlots(block, split, LEAF_HEAD, EntSizeLeaf(l), entCount, leftSize, LeafSlots(b.ents));
    LeafHeadKept(splitHead, split[..]);
    ClearSlots(block, LEAF_HEAD, EntSizeLeaf(l), entCount, leftSize, LeafSlots(b.ents));
    LeafHeadKept(blockHead, block[..]);
  }

  method ReadInnerEntry(block: array<byte>, l: Layout, i: nat, ghost children: seq<Child<Bytes>>)
    returns (key: Bytes, ref: nat)
    requires InnerSizes(l, children) && i < |children|
    requires Holds(block[..], INNER_HEAD + REF_SIZE, EntSizeInner(l), InnerSlots(children))
    ensures key == children[i].key && ref == children[i].ref
  {
    hide Holds, EntOff;
    SlotBytes(block[..], INNER_HEAD + REF_SIZE, EntSizeInner(l), InnerSlots(children), i);
    var o := EntOff(INNER_HEAD + REF_SIZE, EntSizeInner(l), i);
    ghost var slot := block[..][o..o + EntSizeInner(l)];
    key := block[..][o..o + l.keySize];
    ref := Field(block[..], o + l.keySize);
    assert key == slot[..l.keySize];
    assert block[..][o + l.keySize..o + l.keySize + 4] == slot[l.keySize..];
    LeRoundTrip(children[i].ref);
  }

  lemma InnerSlotsCut(children: seq<Child<Bytes>>, k: nat)
    requires k <= |children| && forall i | 0 <= i < |children| :: IsRef(children[i].ref)
    ensures InnerSlots(children)[..k] == InnerSlots(children[..k])
            && InnerSlots(children)[k..] == InnerSlots(children[k..])
    ensures |InnerSlots(children)| == |children|
  {
  }

  /** The head of an inner block, with its leftmost reference. */
  method PutInnerHead(block: array<byte>, n: nat, lref: nat)
    requires block.Length >= INNER_HEAD + REF_SIZE && IsRef(n) && IsRef(lref)
    modifies block
    ensures Field(block[..], 0) == 0 && Field(block[..], 4) == n && Field(block[..], INNER_HEAD) == lref
  {
    PutField(block, 0, 0);
    PutCount(block, n);
    ghost var a := block[..];
    PutField(block, INNER_HEAD, lref);
    FieldKept(a, block[..], INNER_HEAD, 0);
    FieldKept(a, block[..], INNER_HEAD, 4);
  }

  lemma InnerHeadKept(a: Bytes, b: Bytes)
    requires |a| == |b| >= INNER_HEAD + REF_SIZE && a[..INNER_HEAD + REF_SIZE] == b[..INNER_HEAD + REF_SIZE]
    ensures Field(a, 0) == Field(b, 0) && Field(a, 4) == Field(b, 4) && Field(a, INNER_HEAD) == Field(b, INNER_HEAD)
  {
    FieldKept(a, b, INNER_HEAD + REF_SIZE, 0);
    FieldKept(a, b, INNER_HEAD + REF_SIZE, 4);
    FieldKept(a, b, INNER_HEAD + REF_SIZE, INNER_HEAD);
  }

  /** `splitInner`: the middle entry leaves the block; its key goes up, and its reference becomes
      the leftmost one of the new block, which gets the entries behind it. */
  method SplitInner(block: array<byte>, split: array<byte>, l: Layout, ghost b: Block<Bytes, Bytes>)
    returns (splitKey: Bytes)
    requires block != split && b.InnerBlock? && Shows(block[..], l, b) && split.Length == l.blockSize
             && |b.children| >= 1
    modifies block, split
    ensures splitKey == b.children[|b.children| / 2].key
    ensures Shows(block[..], l, InnerBlock(b.lref, b.children[..|b.children| / 2]))
    ensures Shows(split[..], l, InnerBlock(b.children[|b.children| / 2].ref, b.children[|b.children| / 2 + 1..]))
  {
    hide Holds, InnerSlots, EntOff;
    var entCount, head, size := Field(block[..], 4), INNER_HEAD + REF_SIZE, EntSizeInner(l);
    var leftSize := entCount / 2;
    var rightSize := entCount - leftSize - 1;
    InnerSlotsCut(b.children, leftSize);
    InnerSlotsCut(b.children, leftSize + 1);
    var ref;
    splitKey, ref := ReadInnerEntry(block, l, leftSize, b.children);
    ghost var before := block[..];
    PutCount(block, leftSize);
    FieldKept(before, block[..], 8, INNER_HEAD);
    TailKeeps(before, block[..], 8, head, size, InnerSlots(b.children));
    PutInnerHead(split, rightSize, ref);
    ghost var blockHead, splitHead := block[..], split[..];
    CopySlots(block, split, head, size, entCount, leftSize + 1, InnerSlots(b.children));
    InnerHeadKept(splitHead, split[..]);
    ClearSlots(block, head, size, entCount, leftSize, InnerSlots(b.children));
    InnerHeadKept(blockHead, block[..]);
  }
}
