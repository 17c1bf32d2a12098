/** One area of the server's allocator as it runs: free lists and the cached
    highest order are changed in place. */
module BuddyAreas {
  import opened Basics
  import opened BuddySizes
  import opened BuddySpec
  import opened BuddyProofs
  import opened BuddyTheorems

  /** The highest non-empty order below n, or -1 */
  function Highest(free: Lists, n: nat): (h: int)
    requires n <= |free|
    ensures -1 <= h < n
    ensures forall i :: h < i < n ==> free[i] == []
    ensures h >= 0 ==> free[h] != []
  {
    if n == 0 then -1 else if free[n - 1] != [] then n - 1 else Highest(free, n - 1)
  }

  lemma HighestIs(free: Lists, h: int)
    requires -1 <= h < |free| && (h >= 0 ==> free[h] != [])
    requires forall i :: h < i < |free| ==> free[i] == []
    ensures Highest(free, |free|) == h
  {
    var m := Highest(free, |free|);
    assert m >= 0 ==> free[m] != [];
    assert h >= 0 ==> free[h] != [];
  }

  /** Some order at or above index has a free block iff the highest one does */
  lemma HighestDecides(free: Lists, index: nat)
    requires index < |free|
    ensures Highest(free, |free|) >= index <==> FirstNonEmpty(free, index) < |free|
  {
    var h, j := Highest(free, |free|), FirstNonEmpty(free, index);
    assert j < |free| ==> free[j] != [];
    assert h >= index ==> free[h] != [];
  }

  lemma {:induction false} ReleaseFillsSomeList(free: Lists, off: nat, i: nat)
    requires i < |free|
    ensures exists j :: i <= j < |free| && Release(free, off, i)[j] != []
    decreases |free| - i
  {
    var r := Release(free, off, i);
    if free[i] != [] && i < |free| - 1 {
      var p := FindBuddy(free[i], off, i, 0);
      if p < |free[i]| {
        ReleaseFillsSomeList(free[i := Without(free[i], p)], Min(off, free[i][p]), i + 1);
      } else {
        assert r[i] != [];
      }
    } else {
      assert r[i] != [];
    }
  }

  /** A registered memory region divided by the buddy system */
  class Area {
    const key: nat
    var free: seq<seq<nat>>
    var maxIndex: int
    ghost var live: set<Block>

    ghost predicate Valid()
      reads this
    {
      Inv(free, live) && maxIndex == Highest(free, |free|)
    }

    /** dhmp_buddy_system_build on a region with no live block; maxIndex is set
        to the top order, as dhmp_area_create and dhmp_free_one_area do */
    constructor (key: nat, orders: nat)
      requires orders > 0
      ensures Valid() && this.key == key && free == Initial(orders) && live == {} && maxIndex == orders - 1
    {
      this.key := key;
      var lists: seq<seq<nat>> := [];
      var i, size, total := 0, BASE, 0;
      while i < orders
        invariant i <= orders && size == Size(i) && |lists| == i
        invariant total == if i == 0 then 0 else Size(i)
        invariant forall k :: 0 <= k < i ==> lists[k] == Initial(orders)[k]
      {
        var num := if i == 0 then 2 else 1;
        var list: seq<nat> := [];
        for j := 0 to num
          invariant total == (if i == 0 then 0 else Size(i)) + j * size
          invariant list == seq(j, k requires 0 <= k < j => (if i == 0 then 0 else Size(i)) + k * size)
        {
          list := list + [total];
          total := total + size;
        }
        assert list == Initial(orders)[i];
        lists := lists + [list];
        size := size * 2;
        i := i + 1;
      }
      assert lists == Initial(orders);
      InitialInv(orders);
      HighestIs(lists, orders - 1);
      free := lists;
      maxIndex := orders - 1;
      live := {};
    }

    /** The split step of dhmp_get_free_block */
    method SplitFirst(i: nat)
      requires 0 < i < |free| && free[i] != []
      modifies this`free
      ensures free == Split(old(free), i)
    {
      var left := free[i][0];
      var half := Size(i) / 2;
      var right := left + half;
      free := free[i := free[i][1..]];
      free := free[i - 1 := [right] + free[i - 1]];
      free := free[i - 1 := [left] + free[i - 1]];
      assert free[i - 1] == [left, right] + old(free)[i - 1];
    }

    /** The scan that ends dhmp_get_free_block */
    method LowerMaxIndex()
      requires -1 <= maxIndex < |free| && forall k :: maxIndex < k < |free| ==> free[k] == []
      modifies this`maxIndex
      ensures maxIndex == Highest(free, |free|)
    {
      var i := maxIndex;
      while i >= 0 && free[i] == []
        invariant -1 <= i < |free|
        invariant forall k :: i < k < |free| ==> free[k] == []
      {
        i := i - 1;
      }
      maxIndex := i;
      HighestIs(free, i);
    }

    /** dhmp_get_free_block */
    method GetFreeBlock(index: nat) returns (r: Option<nat>)
      requires Valid() && index < |free|
      modifies this
      ensures Valid() && |free| == |old(free)|
      ensures (r, free) == Take(old(free), index)
      ensures r.Some? <==> old(maxIndex) >= index
      ensures r.None? ==> live == old(live)
      ensures r.Some? ==> Block(index, r.value) !in old(live) && live == old(live) + {Block(index, r.value)}
    {
      HighestDecides(free, index);
      GrantKeeps(free, live, index);
      TakeShape(free, index);
      var i := index;
      while true
        invariant |free| == |old(free)| && index <= i
        invariant live == old(live) && maxIndex == old(maxIndex)
        invariant Take(free, index) == Take(old(free), index)
        invariant free == old(free) || FirstNonEmpty(free, index) < |free|
        decreases FirstNonEmpty(free, index)
      {
        i := index;
        while i < |free| && free[i] == []
          invariant index <= i <= |free|
          invariant FirstNonEmpty(free, i) == FirstNonEmpty(free, index)
        {
          i := i + 1;
        }
        if i == |free| {
          return None;
        }
        if i == index {
          break;
        }
        FirstIs(Split(free, i), index, i - 1);
        SplitFirst(i);
      }
      r := Some(free[index][0]);
      free := free[index := free[index][1..]];
      LowerMaxIndex();
      live := live + {Block(index, r.value)};
    }

    /** dhmp_recycle_free_block: one step of giving a block back. Either the
        buddy was free, and the merged block's offset is returned, or the block
        has been put in its list. */
    method RecycleFreeBlock(addr: nat, index: nat) returns (merged: bool, addr': nat)
      requires index < |free|
      modifies this`free
      ensures |free| == |old(free)|
      ensures !merged ==> free == Release(old(free), addr, index)
      ensures merged ==> index + 1 < |free| && Release(free, addr', index + 1) == Release(old(free), addr, index)
    {
      addr' := addr;
      var list := free[index];
      if list == [] {
        free := free[index := [addr] + list];
        assert free[index] == [addr];
        return false, addr;
      }
      if index != |free| - 1 {
        var leftDir := addr % Size(index + 1) == 0;
        var t := 0;
        while t < |list|
          invariant t <= |list|
          invariant FindBuddy(list, addr, index, t) == FindBuddy(list, addr, index, 0)
        {
          if (leftDir && addr + Size(index) == list[t]) || (!leftDir && list[t] + Size(index) == addr) {
            free := free[index := list[..t] + list[t + 1..]];
            return true, Min(addr, list[t]);
          }
          t := t + 1;
        }
      }
      var p := 0;
      while p < |list| && addr >= list[p]
        invariant p <= |list|
        invariant InsertPos(list, addr, p) == InsertPos(list, addr, 0)
      {
        p := p + 1;
      }
      free := free[index := list[..p] + [addr] + list[p..]];
      merged := false;
    }

    /** The part of dhmp_free_one_block that follows the lookup of the area */
    method FreeBlock(addr: nat, length: nat, ghost order: nat)
      requires Valid()
      requires order < |free| && length == Size(order) && Block(order, addr) in live
      modifies this
      ensures Valid() && |free| == |old(free)|
      ensures free == Release(old(free), addr, order)
      ensures live == old(live) - {Block(order, addr)}
    {
      ghost var was := free;
      FreeKeeps(free, live, Block(order, addr));
      ReleaseFillsSomeList(free, addr, order);
      var index := 0;
      while index < |free| && length != Size(index)
        invariant index <= order
      {
        index := index + 1;
      }
      SizeInjective(index, order);
      var merged, at := RecycleFreeBlock(addr, index);
      while merged && index != |free| - 1
        invariant |free| == |was| && index < |free| && live == old(live)
        invariant merged ==> index + 1 < |free| && Release(free, at, index + 1) == Release(was, addr, order)
        invariant !merged ==> free == Release(was, addr, order)
        decreases |free| - index
      {
        index := index + 1;
        merged, at := RecycleFreeBlock(at, index);
      }
      var i := |free| - 1;
      while i >= 0
        invariant -1 <= i < |free| && |free| == |was|
        invariant forall k :: i < k < |free| ==> free[k] == []
        invariant free == Release(was, addr, order) && live == old(live)
      {
        if free[i] != [] {
          maxIndex := i;
          break;
        }
        i := i - 1;
      }
      HighestIs(free, i);
      live := live - {Block(order, addr)};
    }
  }

  lemma SizeInjective(i: nat, j: nat)
    requires Size(i) == Size(j)
    ensures i == j
  {
    if i < j {
      SizeMonotone(i, j);
    } else {
      SizeMonotone(j, i);
    }
  }
}
