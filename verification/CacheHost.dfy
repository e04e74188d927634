/** The cache host's list of alive items: a ring of nodes around a sentinel, least recently
    acquired item first. */
module CacheHosts {

  class Cacheable {
    var moreRecentlyUsed: Cacheable?
    var lessRecentlyUsed: Cacheable?
    var alive: bool
    const footprint: nat

    constructor (footprint: nat)
      ensures !alive && this.footprint == footprint
    {
      moreRecentlyUsed, lessRecentlyUsed, alive := null, null, false;
      this.footprint := footprint;
    }
  }

  function Total(items: seq<Cacheable>): nat {
    if items == [] then 0 else Total(items[..|items| - 1]) + items[|items| - 1].footprint
  }

  lemma {:induction false} TotalWithout(items: seq<Cacheable>, k: nat)
    requires k < |items|
    ensures Total(items) == Total(items[..k] + items[k + 1..]) + items[k].footprint
  {
    var n := |items| - 1;
    if k == n {
      assert items[..k] + items[k + 1..] == items[..n];
    } else {
      var before, last := items[..n], items[n];
      TotalWithout(before, k);
      assert items == before + [last];
      TotalAppend(before, last);
      TotalAppend(before[..k] + before[k + 1..], last);
      assert items[..k] + items[k + 1..] == before[..k] + before[k + 1..] + [last];
    }
  }

  lemma TotalAppend(items: seq<Cacheable>, item: Cacheable)
    ensures Total(items + [item]) == Total(items) + item.footprint
  {
    assert (items + [item])[..|items|] == items;
  }

  lemma TotalTail(items: seq<Cacheable>)
    requires items != []
    ensures Total(items) == Total(items[1..]) + items[0].footprint
  {
    TotalWithout(items, 0);
    assert items[..0] + items[0 + 1..] == items[1..];
  }

  lemma SomethingAlive(items: seq<Cacheable>)
    requires Total(items) > 0
    ensures items != []
  {
  }

  ghost predicate Distinct(ring: seq<Cacheable>) {
    forall i, j | 0 <= i < j < |ring| :: ring[i] != ring[j]
  }

  /** Neighbour `i` and neighbour `i + 1` of a chain know each other. */
  ghost predicate Linked(chain: seq<Cacheable>, i: int)
    requires 0 <= i < |chain| - 1
    reads chain
  {
    chain[i].moreRecentlyUsed == chain[i + 1] && chain[i + 1].lessRecentlyUsed == chain[i]
  }

  ghost predicate AllLinked(chain: seq<Cacheable>)
    reads chain
  {
    forall i | 0 <= i < |chain| - 1 :: Linked(chain, i)
  }

  class CacheHost {
    const sentinel: Cacheable
    var activeFootprint: int
    var limit: int

    /** The alive items, least recently acquired or accessed first. */
    ghost var items: seq<Cacheable>

    /** The ring, cut open at the sentinel. */
    ghost function Chain(): seq<Cacheable>
      reads this
    {
      [sentinel] + items + [sentinel]
    }

    ghost predicate Valid()
      reads this, sentinel, items
    {
      && Distinct([sentinel] + items)
      && AllLinked(Chain())
      && (forall x | x in items :: x.alive)
      && activeFootprint == Total(items)
    }

    constructor (limit: int)
      ensures Valid() && items == [] && this.limit == limit && fresh(sentinel)
    {
      sentinel := new Cacheable(0);
      activeFootprint, this.limit, items := 0, limit, [];
      new;
      sentinel.moreRecentlyUsed := sentinel;
      sentinel.lessRecentlyUsed := sentinel;
      ghost var c := Chain();
      assert c == [sentinel, sentinel] && [sentinel] + items == [sentinel];
      assert Linked(c, 0);
    }

    /** Takes an item out of the ring: its neighbours become neighbours. */
    method Unlink(item: Cacheable, ghost k: nat)
      requires Distinct([sentinel] + items) && AllLinked(Chain()) && k < |items| && items[k] == item
      modifies this`items, sentinel, items
      ensures items == old(items[..k] + items[k + 1..]) && Distinct([sentinel] + items) && AllLinked(Chain())
      ensures forall x | x in old(items) :: x.alive == old(x.alive)
      ensures forall x | x in items :: x in old(items) && x != item
    {
      UnlinkedDistinct(items, k);
      ghost var c, rest := Chain(), items[..k] + items[k + 1..];
      assert c[k] == ([sentinel] + items)[k] && c[k + 1] == item && Linked(c, k) && Linked(c, k + 1);
      var less, more := item.lessRecentlyUsed, item.moreRecentlyUsed;
      less.moreRecentlyUsed := more;
      more.lessRecentlyUsed := less;
      items := rest;
      ghost var d := Chain();
      assert d == c[..k + 1] + c[k + 2..];
      forall i | 0 <= i < |d| - 1 ensures Linked(d, i) {
        assert old(Linked(c, if i <= k then i else i + 1));
      }
    }

    lemma UnlinkedDistinct(before: seq<Cacheable>, k: nat)
      requires Distinct([sentinel] + before) && k < |before|
      ensures Distinct([sentinel] + (before[..k] + before[k + 1..]))
      ensures forall x | x in before[..k] + before[k + 1..] :: x in before && x != before[k]
    {
      var a, b := [sentinel] + before, [sentinel] + (before[..k] + before[k + 1..]);
      forall i | 0 <= i < |b| ensures b[i] == a[if i <= k then i else i + 1] {
      }
      forall x | x in before[..k] + before[k + 1..] ensures x in before && x != before[k] {
        var rest := before[..k] + before[k + 1..];
        var i :| 0 <= i < |rest| && rest[i] == x;
        assert b[i + 1] == x && a[k + 1] == before[k];
        assert a[if i < k then i + 1 else i + 2] == x;
      }
    }

    lemma LinkedDistinct(before: seq<Cacheable>, item: Cacheable)
      requires Distinct([sentinel] + before) && item !in before && item != sentinel
      ensures Distinct([sentinel] + (before + [item]))
    {
      var a, b := [sentinel] + before, [sentinel] + (before + [item]);
      forall i, j | 0 <= i < j < |b| ensures b[i] != b[j] {
        assert b[i] == a[i];
        assert j < |a| ==> b[j] == a[j];
      }
    }

    /** Puts an item at the end of the ring: it is the most recently used. */
    method LinkLast(item: Cacheable)
      requires Distinct([sentinel] + items) && AllLinked(Chain()) && item !in items && item != sentinel
      modifies this`items, sentinel, items, item
      ensures items == old(items) + [item] && Distinct([sentinel] + items) && AllLinked(Chain())
      ensures forall x | x in items :: x.alive == old(x.alive)
    {
      ghost var c, n := Chain(), |items|;
      assert Linked(c, n);
      item.moreRecentlyUsed := sentinel;
      item.lessRecentlyUsed := sentinel.lessRecentlyUsed;
      sentinel.lessRecentlyUsed.moreRecentlyUsed := item;
      sentinel.lessRecentlyUsed := item;
      items := items + [item];
      LinkedDistinct(old(items), item);
      ghost var d := Chain();
      assert d == c[..n + 1] + [item, sentinel];
      forall i | 0 <= i < |d| - 1 ensures Linked(d, i) {
        assert i < n ==> old(Linked(c, i));
      }
    }

    /** The item after the sentinel is the least recently used one. */
    lemma LeastIsFirst()
      requires Distinct([sentinel] + items) && AllLinked(Chain()) && items != []
      ensures sentinel.moreRecentlyUsed == items[0] && items[0] != sentinel
    {
      assert Linked(Chain(), 0);
      assert ([sentinel] + items)[1] == items[0] && ([sentinel] + items)[0] == sentinel;
    }

    /** The item no longer counts; it is still in the ring. */
    method Retire(item: Cacheable)
      requires AllLinked(Chain()) && item in items
      modifies this`activeFootprint, item`alive
      ensures AllLinked(Chain()) && !item.alive && activeFootprint == old(activeFootprint) - item.footprint
    {
      item.alive := false;
      activeFootprint := activeFootprint - item.footprint;
      ghost var chain := Chain();
      assert forall i | 0 <= i < |chain| - 1 :: old(Linked(chain, i)) ==> Linked(chain, i);
    }

    /** `releaseItem(leastRecently())`. There is an item, so the sentinel is never released. */
    method ReleaseLeast() returns (item: Cacheable)
      requires Valid() && activeFootprint > limit >= 0
      modifies this`items, this`activeFootprint, sentinel, items
      ensures Valid() && old(items) != [] && item == old(items)[0] && items == old(items)[1..] && !item.alive
      ensures item != sentinel && item !in items
    {
      hide AllLinked, Linked, Distinct, Total, Chain;
      SomethingAlive(items);
      LeastIsFirst();
      TotalTail(items);
      assert items[..0] + items[0 + 1..] == items[1..];
      item := sentinel.moreRecentlyUsed;
      Retire(item);
      Unlink(item, 0);
    }

    /** The eviction loop: while the footprint exceeds the limit the least recently used item is
        released. What is released is the shortest front of the list that makes room. The loop runs
        here without a break: the source gives up the list lock while an item is released, so this
        holds as long as no other thread acquires an item between two releases. */
    method ReleaseItems() returns (ghost n: nat)
      requires Valid() && limit >= 0
      modifies this`items, this`activeFootprint, sentinel, items
      ensures Valid() && n <= |old(items)| && items == old(items)[n..] && activeFootprint <= limit
      ensures n > 0 ==> Total(old(items)[n - 1..]) > limit
      ensures forall i | 0 <= i < n :: !old(items)[i].alive
    {
      hide Valid, Total;
      ghost var all := items;
      ValidFacts();
      n := 0;
      while activeFootprint > limit
        invariant Valid() && n <= |all| && items == all[n..] && activeFootprint == Total(items)
        invariant n > 0 ==> Total(all[n - 1..]) > limit
        invariant forall i | 0 <= i < n :: !all[i].alive
        decreases |all| - n
      {
        assert forall i | 0 <= i < |items| :: items[i] == all[n + i];
        ReleasedApart(all, n);
        var least := ReleaseLeast();
        ValidFacts();
        n := n + 1;
      }
    }

    lemma ValidFacts()
      requires Valid()
      ensures Distinct([sentinel] + items) && activeFootprint == Total(items)
    {
    }

    lemma ReleasedApart(all: seq<Cacheable>, n: nat)
      requires Distinct([sentinel] + all) && n <= |all|
      ensures forall i | 0 <= i < n :: all[i] != sentinel && all[i] !in all[n..]
    {
      var c, t := [sentinel] + all, all[n..];
      forall i | 0 <= i < n ensures all[i] != sentinel && all[i] !in t {
        assert c[i + 1] == all[i] && c[0] == sentinel && c[0] != c[i + 1];
        forall j | 0 <= j < |t| ensures t[j] != all[i] {
          assert c[n + j + 1] == t[j];
        }
      }
    }

    /** The list's part of `requestAcquire`: the item becomes the most recently used one, and
        then there is made room, as long as no other thread acquires an item meanwhile. */
    method RequestAcquire(item: Cacheable) returns (ghost n: nat)
      requires Valid() && item !in items && item != sentinel && !item.alive && limit >= 0
      modifies this`items, this`activeFootprint, sentinel, items, item
      ensures Valid() && n <= |old(items)| + 1 && items == (old(items) + [item])[n..] && activeFootprint <= limit
      ensures n > 0 ==> Total((old(items) + [item])[n - 1..]) > limit
      ensures forall i | 0 <= i < n :: !(old(items) + [item])[i].alive
    {
      item.alive := true;
      activeFootprint := activeFootprint + item.footprint;
      TotalAppend(items, item);
      LinkLast(item);
      assert forall i | 0 <= i < |items| :: items[i] == if i < |old(items)| then old(items)[i] else item;
      n := ReleaseItems();
    }

    /** An accessed item becomes the most recently used one; others keep their order. */
    method OnAccess(item: Cacheable, ghost k: nat)
      requires Valid() && item != sentinel && (item.alive <==> item in items)
               && (item.alive ==> k < |items| && items[k] == item)
      modifies this`items, sentinel, items, item
      ensures Valid()
      ensures items == if old(item.alive) then old(items[..k] + items[k + 1..]) + [item] else old(items)
    {
      if !item.alive {
        return;
      }
      TotalWithout(items, k);
      Unlink(item, k);
      TotalAppend(items, item);
      LinkLast(item);
    }
  }
}
