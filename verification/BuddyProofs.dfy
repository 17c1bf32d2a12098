/** What every run of the buddy allocator keeps on one area. */
module BuddyProofs {
  import opened Basics
  import opened BuddySizes
  import opened BuddySpec

  // ----- tilings -----

  /** Exchanging some blocks of a tiling for others over the same bytes */
  lemma ReplaceTiles(all: set<Block>, k: nat, out: set<Block>, into: set<Block>)
    requires Tiles(all, k) && out <= all
    requires forall b :: b in into ==> InArea(b, k)
    requires forall b, c :: b in into && c in into && b != c ==> Apart(b, c)
    requires forall b, c :: b in into && c in all - out ==> Apart(b, c) && Apart(c, b)
    requires forall u: nat :: Occupied(out, u) ==> Occupied(into, u)
    ensures Tiles(all - out + into, k)
  {
    var all' := all - out + into;
    forall u: nat | u < Size(k) ensures Occupied(all', u) {
      assert Occupied(all, u);
      var c :| c in all && Covers(c, u);
      if c in out {
        assert Occupied(out, u);
        var d :| d in into && Covers(d, u);
        assert d in all';
      } else {
        assert c in all';
      }
    }
  }

  /** Replacing a block by its two halves keeps a tiling */
  lemma SplitTiles(all: set<Block>, k: nat, b: Block)
    requires Tiles(all, k) && b in all && b.order > 0
    ensures var l, r := Block(b.order - 1, b.off), Block(b.order - 1, b.off + Size(b.order - 1));
            l !in all && r !in all && Tiles(all - {b} + {l, r}, k)
  {
    var i := b.order - 1;
    var l, r := Block(i, b.off), Block(i, b.off + Size(i));
    Halves(b.off, i);
    assert !Apart(l, b) && !Apart(r, b);
    forall n, c | n in {l, r} && c in all - {b} ensures Apart(n, c) && Apart(c, n) {
      assert Apart(b, c);
    }
    forall u: nat | Occupied({b}, u) ensures Occupied({l, r}, u) {
      assert l in {l, r} && r in {l, r};
      assert Covers(l, u) || Covers(r, u);
    }
    ReplaceTiles(all, k, {b}, {l, r});
  }

  /** Replacing two buddies by their parent keeps a tiling */
  lemma MergeTiles(all: set<Block>, k: nat, i: nat, a: nat)
    requires Tiles(all, k) && i + 1 < k && Aligned(a, i + 1)
    requires Block(i, a) in all && Block(i, a + Size(i)) in all
    ensures var p := Block(i + 1, a);
            p !in all && Tiles(all - {Block(i, a), Block(i, a + Size(i))} + {p}, k)
  {
    var l, r, p := Block(i, a), Block(i, a + Size(i)), Block(i + 1, a);
    assert !Apart(l, p);
    forall c | c in all - {l, r} ensures Apart(p, c) && Apart(c, p) {
      assert Apart(c, l) && Apart(c, r);
    }
    forall u: nat | Occupied({l, r}, u) ensures Occupied({p}, u) {
      assert p in {p} && Covers(p, u);
    }
    ReplaceTiles(all, k, {l, r}, {p});
  }

  lemma InFree(free: Lists, i: nat, a: nat)
    requires i < |free|
    ensures Block(i, a) in FreeBlocks(free) <==> a in free[i]
  {
  }

  // ----- taking -----

  lemma SplitKeeps(free: Lists, live: set<Block>, j: nat)
    requires Partition(free, live) && 0 < j < |free| && free[j] != [] && free[j - 1] == []
    ensures Partition(Split(free, j), live)
  {
    var b := Block(j, free[j][0]);
    var l, r := Block(j - 1, b.off), Block(j - 1, b.off + Size(j - 1));
    var free' := Split(free, j);
    InFree(free, j, b.off);
    SplitTiles(FreeBlocks(free) + live, |free|, b);
    assert free'[j] == free[j][1..];
    assert free'[j - 1] == [l.off, r.off];
    assert free[j] == [b.off] + free'[j];
    assert b.off !in free'[j] by {
      assert Sorted(free[j]);
    }
    assert FreeBlocks(free') == FreeBlocks(free) - {b} + {l, r} by {
      forall c ensures c in FreeBlocks(free') <==> c in FreeBlocks(free) - {b} + {l, r} {
        if c.order < |free| {
          InFree(free, c.order, c.off);
          InFree(free', c.order, c.off);
        }
      }
    }
    assert FreeBlocks(free') + live == FreeBlocks(free) + live - {b} + {l, r};
  }

  /** Closed form of Take: the lowest non-empty order j at or above the wanted
      one loses its first block, that block's start is what is granted, and
      every order from the wanted one up to j - 1 holds one right half */
  lemma {:induction false} TakeShape(free: Lists, index: nat)
    requires index < |free|
    ensures var j := FirstNonEmpty(free, index);
            var (r, free') := Take(free, index);
            if j == |free| then r == None && free' == free
            else r == Some(free[j][0])
                 && |free'| == |free|
                 && free'[j] == free[j][1..]
                 && (forall i :: index <= i < j ==> free'[i] == [free[j][0] + Size(i)])
                 && (forall i :: 0 <= i < |free| && !(index <= i <= j) ==> free'[i] == free[i])
    decreases FirstNonEmpty(free, index) - index
  {
    var j := FirstNonEmpty(free, index);
    if index < j < |free| {
      var mid := Split(free, j);
      FirstIs(mid, index, j - 1);
      TakeShape(mid, index);
      assert mid[j - 1] == [free[j][0], free[j][0] + Size(j - 1)];
    }
  }

  lemma {:induction false} TakePartition(free: Lists, live: set<Block>, index: nat)
    requires Partition(free, live) && index < |free|
    ensures var (r, free') := Take(free, index);
            r.Some? ==> Block(index, r.value) !in live
                        && Block(index, r.value) !in FreeBlocks(free')
                        && Partition(free', live + {Block(index, r.value)})
    decreases FirstNonEmpty(free, index) - index
  {
    var j := FirstNonEmpty(free, index);
    if j == index {
      var b := Block(index, free[index][0]);
      var free' := Take(free, index).1;
      assert free[index] == [b.off] + free'[index];
      InFree(free, index, b.off);
      assert FreeBlocks(free') == FreeBlocks(free) - {b} by {
        assert Sorted(free[index]);
        forall c ensures c in FreeBlocks(free') <==> c in FreeBlocks(free) - {b} {
          if c.order < |free| {
            InFree(free, c.order, c.off);
            InFree(free', c.order, c.off);
          }
        }
      }
      assert FreeBlocks(free') + (live + {b}) == FreeBlocks(free) + live;
    } else if j < |free| {
      SplitKeeps(free, live, j);
      FirstIs(Split(free, j), index, j - 1);
      TakePartition(Split(free, j), live, index);
    }
  }

  lemma TakeCoalesced(free: Lists, live: set<Block>, index: nat)
    requires Inv(free, live) && index < |free|
    ensures Coalesced(Take(free, index).1)
    ensures InitialPair(Take(free, index).1) ==> InitialPair(free)
  {
    TakeShape(free, index);
    var free' := Take(free, index).1;
    forall i, a | 0 <= i < |free| - 1 && 0 <= a && Pair(free', i, a) ensures i == 0 && a == 0 {
      assert Pair(free, i, a);
    }
  }

  // ----- giving back -----

  lemma InsertSorted(list: seq<nat>, off: nat)
    requires Sorted(list) && off !in list
    ensures Sorted(Insert(list, off))
  {
    var p := InsertPos(list, off, 0);
    var r := Insert(list, off);
    forall k | 0 <= k < p ensures r[k] < off && r[k] == list[k] {
      assert list[k] in list;
    }
    forall k | p < k < |r| ensures off < r[k] && r[k] == list[k - 1] {
      assert list[p] <= list[k - 1];
    }
    forall i, j | 0 <= i < j < |r| ensures r[i] < r[j] {
      if i < p && p < j {
        assert r[i] < off < r[j];
      }
    }
  }

  lemma InsertShape(list: seq<nat>, off: nat)
    requires Sorted(list) && off !in list
    ensures Sorted(Insert(list, off))
    ensures forall x :: x in Insert(list, off) <==> x in list || x == off
  {
    InsertSorted(list, off);
    var p := InsertPos(list, off, 0);
    assert list == list[..p] + list[p..];
  }

  lemma WithoutShape(list: seq<nat>, p: nat)
    requires Sorted(list) && p < |list|
    ensures Sorted(Without(list, p))
    ensures forall x :: x in Without(list, p) <==> x in list && x != list[p]
  {
    var r := Without(list, p);
    assert forall k :: 0 <= k < p ==> r[k] == list[k];
    assert forall k :: p <= k < |r| ==> r[k] == list[k + 1];
    forall x | x in list && x != list[p] ensures x in r {
      var k :| 0 <= k < |list| && list[k] == x;
      assert r[if k < p then k else k - 1] == x;
    }
  }

  lemma BlocksAfterUpdate(free: Lists, i: nat, list: seq<nat>)
    requires i < |free|
    ensures forall c :: c in FreeBlocks(free[i := list]) <==>
              if c.order == i then c.off in list else c in FreeBlocks(free)
  {
    var free' := free[i := list];
    forall c ensures c in FreeBlocks(free') <==> if c.order == i then c.off in list else c in FreeBlocks(free) {
      if c.order < |free| {
        InFree(free, c.order, c.off);
        InFree(free', c.order, c.off);
      }
    }
  }

  /** The state while a block travels up: everything but the block in hand tiles
      the area together with it */
  ghost predicate InHand(free: Lists, live: set<Block>, cur: Block) {
    && AllSorted(free)
    && cur.order < |free|
    && FreeBlocks(free) !! live
    && cur !in FreeBlocks(free) + live
    && Tiles(FreeBlocks(free) + live + {cur}, |free|)
    && Coalesced(free)
  }

  lemma InsertKeeps(free: Lists, live: set<Block>, off: nat, i: nat)
    requires InHand(free, live, Block(i, off))
    requires i == |free| - 1 || FindBuddy(free[i], off, i, 0) == |free[i]|
    ensures Inv(free[i := Insert(free[i], off)], live)
    ensures InitialPair(free[i := Insert(free[i], off)]) ==> InitialPair(free)
  {
    var free' := free[i := Insert(free[i], off)];
    InFree(free, i, off);
    InsertShape(free[i], off);
    BlocksAfterUpdate(free, i, free'[i]);
    assert FreeBlocks(free') == FreeBlocks(free) + {Block(i, off)} by {
      forall c: Block | c.order == i ensures c in FreeBlocks(free) <==> c.off in free[i] {
        InFree(free, i, c.off);
      }
    }
    assert FreeBlocks(free') + live == FreeBlocks(free) + live + {Block(i, off)};
    assert Aligned(off, i) by {
      assert InArea(Block(i, off), |free|);
    }
    if i + 1 < |free| {
      forall a: nat | Pair(free', i, a) ensures Pair(free, i, a) {
        Halves(a, i);
      }
    }
    forall j, a | 0 <= j < |free'| - 1 && 0 <= a && Pair(free', j, a) ensures j == 0 && a == 0 {
      assert Pair(free, j, a);
    }
    if InitialPair(free') && i == 0 {
      assert Pair(free', 0, 0);
    }
  }

  lemma MergeKeeps(free: Lists, live: set<Block>, off: nat, i: nat, p: nat)
    requires InHand(free, live, Block(i, off)) && i + 1 < |free|
    requires p < |free[i]| && Matches(off, i, free[i][p])
    ensures var free' := free[i := Without(free[i], p)];
            InHand(free', live, Block(i + 1, Min(off, free[i][p])))
            && (InitialPair(free') ==> InitialPair(free))
  {
    var t := free[i][p];
    var a := Min(off, t);
    var free' := free[i := Without(free[i], p)];
    var all := FreeBlocks(free) + live + {Block(i, off)};
    InFree(free, i, t);
    assert InArea(Block(i, off), |free|) && Block(i, off) in all;
    if !IsLeft(off, i) {
      RightHalf(off, i);
    }
    MergeTiles(all, |free|, i, a);
    WithoutShape(free[i], p);
    BlocksAfterUpdate(free, i, free'[i]);
    assert FreeBlocks(free') == FreeBlocks(free) - {Block(i, t)} by {
      forall c: Block | c.order == i ensures c in FreeBlocks(free) <==> c.off in free[i] {
        InFree(free, i, c.off);
      }
    }
    assert all - {Block(i, a), Block(i, a + Size(i))} + {Block(i + 1, a)}
        == FreeBlocks(free') + live + {Block(i + 1, a)};
    forall j, b | 0 <= j < |free'| - 1 && 0 <= b && Pair(free', j, b) ensures j == 0 && b == 0 {
      assert Pair(free, j, b);
    }
  }

  lemma {:induction false} ReleaseKeeps(free: Lists, live: set<Block>, off: nat, i: nat)
    requires InHand(free, live, Block(i, off))
    ensures Inv(Release(free, off, i), live)
    ensures InitialPair(Release(free, off, i)) ==> InitialPair(free)
    decreases |free| - i
  {
    if free[i] == [] {
      assert Insert(free[i], off) == [off];
      InsertKeeps(free, live, off, i);
    } else if i == |free| - 1 {
      InsertKeeps(free, live, off, i);
    } else {
      var p := FindBuddy(free[i], off, i, 0);
      if p < |free[i]| {
        MergeKeeps(free, live, off, i, p);
        ReleaseKeeps(free[i := Without(free[i], p)], live, Min(off, free[i][p]), i + 1);
      } else {
        InsertKeeps(free, live, off, i);
      }
    }
  }

  /** Giving back a live block */
  lemma FreeKeeps(free: Lists, live: set<Block>, b: Block)
    requires Inv(free, live) && b in live
    ensures b.order < |free|
    ensures Inv(Release(free, b.off, b.order), live - {b})
    ensures InitialPair(Release(free, b.off, b.order)) ==> InitialPair(free)
  {
    assert b in FreeBlocks(free) + live && InArea(b, |free|);
    assert FreeBlocks(free) + (live - {b}) + {b} == FreeBlocks(free) + live;
    ReleaseKeeps(free, live - {b}, b.off, b.order);
  }

  /** Granting a block */
  lemma GrantKeeps(free: Lists, live: set<Block>, index: nat)
    requires Inv(free, live) && index < |free|
    ensures var (r, free') := Take(free, index);
            match r
            case None => free' == free
            case Some(a) => Block(index, a) !in live && Inv(free', live + {Block(index, a)})
    ensures InitialPair(Take(free, index).1) ==> InitialPair(free)
  {
    TakeShape(free, index);
    TakePartition(free, live, index);
    TakeCoalesced(free, live, index);
  }
}
