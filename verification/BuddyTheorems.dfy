/** Main results about the buddy allocator on one area: it starts in the
    invariant, it never fragments a free region, an idle area has one of two
    layouts, and giving back what was just granted restores the free lists. */
module BuddyTheorems {
  import opened Basics
  import opened BuddySizes
  import opened BuddySpec
  import opened BuddyProofs

  // ----- the initial layout -----

  /** The order whose initial block covers byte u */
  lemma Level(u: nat, k: nat) returns (i: nat)
    requires BASE <= u < Size(k)
    ensures i < k && Size(i) <= u < Size(i) + Size(i)
    decreases k
  {
    if u < Size(k - 1) {
      i := Level(u, k - 1);
    } else {
      i := k - 1;
    }
  }

  lemma InitialMember(k: nat, b: Block)
    requires k > 0
    ensures b in FreeBlocks(Initial(k)) <==> b == Block(0, 0) || (b.order < k && b.off == Size(b.order))
  {
    if b.order < k {
      InFree(Initial(k), b.order, b.off);
    }
  }

  lemma InitialApart(k: nat, b: Block, c: Block)
    requires k > 0 && b != c
    requires b in FreeBlocks(Initial(k)) && c in FreeBlocks(Initial(k))
    ensures Apart(b, c)
  {
    InitialMember(k, b);
    InitialMember(k, c);
    if b.order < c.order {
      SizeMonotone(b.order, c.order);
    } else {
      SizeMonotone(c.order, b.order);
    }
  }

  /** The layout dhmp_buddy_system_build fills in satisfies the invariant */
  lemma InitialInv(k: nat)
    requires k > 0
    ensures Inv(Initial(k), {})
  {
    var free := Initial(k);
    var all := FreeBlocks(free);
    forall b | b in all ensures InArea(b, k) {
      InitialMember(k, b);
      MultipleOf(1, Size(b.order));
      SizeMonotone(b.order + 1, k);
    }
    forall b, c | b in all && c in all && b != c ensures Apart(b, c) {
      InitialApart(k, b, c);
    }
    forall u: nat | u < Size(k) ensures Occupied(all, u) {
      if u < BASE {
        InitialMember(k, Block(0, 0));
        assert Covers(Block(0, 0), u);
      } else {
        var i := Level(u, k);
        InitialMember(k, Block(i, Size(i)));
        assert Covers(Block(i, Size(i)), u);
      }
    }
    assert all + {} == all;
    forall i, a | 0 <= i < k - 1 && 0 <= a && Pair(free, i, a) ensures i == 0 && a == 0 {
    }
  }

  // ----- no fragmentation -----

  /** An aligned range all of whose bytes are free */
  ghost predicate FreeRegion(free: Lists, a: nat, k: nat) {
    && Aligned(a, k)
    && k < |free|
    && forall u: nat :: a <= u < a + Size(k) ==> Occupied(FreeBlocks(free), u)
  }

  lemma SameOrApart(free: Lists, live: set<Block>, b: Block, c: Block)
    requires Partition(free, live)
    requires b in FreeBlocks(free) && c in FreeBlocks(free)
    ensures b == c || Apart(b, c)
  {
    assert b in FreeBlocks(free) + live && c in FreeBlocks(free) + live;
  }

  lemma FreeInArea(free: Lists, live: set<Block>, b: Block)
    requires Partition(free, live) && b in FreeBlocks(free)
    ensures InArea(b, |free|)
  {
    assert b in FreeBlocks(free) + live;
  }

  /** A free block that reaches into an aligned range of no greater order holds it */
  lemma Holds(free: Lists, live: set<Block>, b: Block, u: nat, a: nat, k: nat)
    requires Partition(free, live) && b in FreeBlocks(free) && Covers(b, u)
    requires Aligned(a, k) && k <= b.order && a <= u < a + Size(k)
    ensures b.off <= a && a + Size(k) <= b.off + Size(b.order)
  {
    FreeInArea(free, live, b);
    NestedOrDisjoint(a, k, b.off, b.order);
  }

  lemma HalfRegions(free: Lists, a: nat, k: nat)
    requires FreeRegion(free, a, k) && k > 0
    ensures FreeRegion(free, a, k - 1) && FreeRegion(free, a + Size(k - 1), k - 1)
  {
    Halves(a, k - 1);
  }

  /** In a coalesced area every free aligned range lies in one free block, the
      ranges that start with the initial pair aside */
  lemma {:induction false} RegionInBlock(free: Lists, live: set<Block>, a: nat, k: nat) returns (b: Block)
    requires Inv(free, live) && FreeRegion(free, a, k)
    requires a != 0 || k == 0 || !InitialPair(free)
    ensures b in FreeBlocks(free) && b.order >= k
    ensures b.off <= a && a + Size(k) <= b.off + Size(b.order)
    decreases k
  {
    if k == 0 {
      assert Occupied(FreeBlocks(free), a);
      b :| b in FreeBlocks(free) && Covers(b, a);
      Holds(free, live, b, a, a, 0);
    } else {
      var m := a + Size(k - 1);
      HalfRegions(free, a, k);
      var l := RegionInBlock(free, live, a, k - 1);
      var r := RegionInBlock(free, live, m, k - 1);
      if l.order >= k {
        Holds(free, live, l, a, a, k);
        b := l;
      } else {
        Holds(free, live, r, m, m, k - 1);
        BothHalves(free, live, a, k, l, r);
        Holds(free, live, r, m, a, k);
        b := r;
      }
    }
  }

  /** Two free halves cannot both stop at their own order */
  lemma BothHalves(free: Lists, live: set<Block>, a: nat, k: nat, l: Block, r: Block)
    requires Inv(free, live) && 0 < k < |free| && Aligned(a, k)
    requires a != 0 || !InitialPair(free)
    requires l in FreeBlocks(free) && l.order == k - 1 && l.off == a
    requires r in FreeBlocks(free) && r.order >= k - 1
    requires r.off <= a + Size(k - 1) && a + Size(k) <= r.off + Size(r.order)
    ensures r.order >= k
  {
    if r.order == k - 1 {
      InFree(free, k - 1, l.off);
      InFree(free, k - 1, r.off);
      assert Pair(free, k - 1, a);
    }
  }

  lemma HighestFirst(free: Lists, k: nat, b: Block)
    requires k <= b.order && b in FreeBlocks(free)
    ensures FirstNonEmpty(free, k) < |free|
  {
    InFree(free, b.order, b.off);
  }

  lemma AlignedDown(a: nat, k: nat, m: nat)
    requires k <= m && Aligned(a, m)
    ensures Aligned(a, k)
    decreases m - k
  {
    if k < m {
      Halves(a, m - 1);
      AlignedDown(a, k, m - 1);
    }
  }

  /** Completeness: a block of order k is granted exactly when some aligned
      range of that size is entirely free. Only a range that starts with the
      two never merged blocks of the initial layout does not count. */
  lemma GrantedIffRoom(free: Lists, live: set<Block>, k: nat)
    requires Inv(free, live) && k < |free|
    ensures Take(free, k).0.Some? <==>
              exists a: nat :: FreeRegion(free, a, k) && (a != 0 || k == 0 || !InitialPair(free))
  {
    TakeShape(free, k);
    var j := FirstNonEmpty(free, k);
    if j < |free| {
      var a := free[j][0];
      var b := Block(j, a);
      InFree(free, j, a);
      assert b in FreeBlocks(free) + live;
      AlignedDown(a, k, j);
      SizeMonotone(k, j);
      forall u: nat | a <= u < a + Size(k) ensures Occupied(FreeBlocks(free), u) {
        assert Covers(b, u);
      }
      assert FreeRegion(free, a, k);
      if InitialPair(free) {
        InFree(free, 0, 0);
        SameOrApart(free, live, Block(0, 0), b);
      }
    }
    if a: nat :| FreeRegion(free, a, k) && (a != 0 || k == 0 || !InitialPair(free)) {
      var b := RegionInBlock(free, live, a, k);
      HighestFirst(free, k, b);
    }
  }

  // ----- the two quiescent layouts -----

  lemma SortedOne(s: seq<nat>, x: nat)
    requires Sorted(s) && forall y: nat :: y in s <==> y == x
    ensures s == [x]
  {
    assert x in s;
    assert s[0] in s && s[|s| - 1] in s;
  }

  lemma SortedTwo(s: seq<nat>, x: nat, y: nat)
    requires Sorted(s) && x < y && forall z: nat :: z in s <==> z == x || z == y
    ensures s == [x, y]
  {
    assert x in s && y in s;
    var i :| 0 <= i < |s| && s[i] == x;
    var j :| 0 <= j < |s| && s[j] == y;
    assert s[0] in s && s[1] in s && s[|s| - 1] in s;
  }

  lemma IdleRegion(free: Lists, a: nat, k: nat)
    requires Inv(free, {}) && Aligned(a, k) && k < |free| && a + Size(k) <= Size(|free|)
    ensures FreeRegion(free, a, k)
  {
    assert FreeBlocks(free) + {} == FreeBlocks(free);
  }

  lemma IdleMerged(free: Lists)
    requires Inv(free, {}) && !InitialPair(free)
    ensures free == Merged(|free|)
  {
    var k := |free| - 1;
    var s := Size(k);
    var all := FreeBlocks(free);
    assert all + {} == all;
    MultipleOf(1, s);
    IdleRegion(free, 0, k);
    IdleRegion(free, s, k);
    var l := RegionInBlock(free, {}, 0, k);
    var r := RegionInBlock(free, {}, s, k);
    assert l == Block(k, 0) && r == Block(k, s);
    forall b | b in all ensures b == l || b == r {
      assert InArea(b, |free|);
      SameOrApart(free, {}, b, l);
      SameOrApart(free, {}, b, r);
    }
    forall i | 0 <= i < |free| ensures free[i] == Merged(|free|)[i] {
      if i < k {
        if free[i] != [] {
          InFree(free, i, free[i][0]);
        }
      } else {
        forall y: nat ensures y in free[k] <==> y == 0 || y == s {
          InFree(free, k, y);
        }
        SortedTwo(free[k], 0, s);
      }
    }
  }

  /** A block that reaches Size(k) without holding offset 0 starts there */
  lemma StartsAt(b: Block, k: nat)
    requires Aligned(b.off, b.order) && b.order >= k
    requires 0 < b.off <= Size(k)
    ensures b.order == k && b.off == Size(k)
  {
    SizeMonotone(k, b.order);
    var q := Quotient(b.off, Size(b.order));
    MulMonotone(0, q, Size(b.order));
  }

  lemma IdleRightHalf(free: Lists, k: nat)
    requires Inv(free, {}) && InitialPair(free) && k < |free|
    ensures Block(k, Size(k)) in FreeBlocks(free)
  {
    InFree(free, 0, 0);
    InFree(free, 0, BASE);
    if k > 0 {
      MultipleOf(1, Size(k));
      SizeMonotone(k + 1, |free|);
      IdleRegion(free, Size(k), k);
      var b := RegionInBlock(free, {}, Size(k), k);
      FreeInArea(free, {}, b);
      SameOrApart(free, {}, Block(0, 0), b);
      StartsAt(b, k);
    }
  }

  lemma IdleInitial(free: Lists)
    requires Inv(free, {}) && InitialPair(free)
    ensures free == Initial(|free|)
  {
    var k := |free|;
    var all := FreeBlocks(free);
    assert all + {} == all;
    InFree(free, 0, 0);
    forall b | b in all ensures b in FreeBlocks(Initial(k)) {
      InitialMember(k, b);
      assert InArea(b, k);
      SameOrApart(free, {}, b, Block(0, 0));
      if b.off >= BASE {
        var i := Level(b.off, k);
        IdleRightHalf(free, i);
        SameOrApart(free, {}, b, Block(i, Size(i)));
      }
    }
    forall i | 0 <= i < k ensures free[i] == Initial(k)[i] {
      IdleRightHalf(free, i);
      forall y: nat ensures y in free[i] <==> y == Size(i) || (i == 0 && y == 0) {
        InFree(free, i, y);
        InitialMember(k, Block(i, y));
      }
      if i == 0 {
        SortedTwo(free[0], 0, BASE);
      } else {
        SortedOne(free[i], Size(i));
      }
    }
  }

  /** With nothing granted, an area has exactly one of two layouts: the one it
      started with, or the fully merged one */
  lemma Quiescent(free: Lists)
    requires Inv(free, {})
    ensures free == if InitialPair(free) then Initial(|free|) else Merged(|free|)
  {
    if InitialPair(free) {
      IdleInitial(free);
    } else {
      IdleMerged(free);
    }
  }

  // ----- giving back undoes granting -----

  lemma {:induction false} ReleaseLeavesBelow(free: Lists, off: nat, i: nat, k: nat)
    requires k < i < |free|
    ensures Release(free, off, i)[k] == free[k]
    decreases |free| - i
  {
    if free[i] != [] && i < |free| - 1 {
      var p := FindBuddy(free[i], off, i, 0);
      if p < |free[i]| {
        ReleaseLeavesBelow(free[i := Without(free[i], p)], Min(off, free[i][p]), i + 1, k);
      }
    }
  }

  /** Right halves left by the splits are merged again on the way up */
  lemma {:induction false} ReleaseReachesSource(free: Lists, live: set<Block>, index: nat)
    requires Partition(free, live) && index < |free| && Take(free, index).0.Some?
    ensures var j := FirstNonEmpty(free, index);
            Release(Take(free, index).1, free[j][0], index)
            == Release(free[j := free[j][1..]], free[j][0], j)
    decreases FirstNonEmpty(free, index) - index
  {
    var j := FirstNonEmpty(free, index);
    if index < j {
      hide Release, Partition;
      var a, h := free[j][0], Size(j - 1);
      var mid := Split(free, j);
      FirstIs(mid, index, j - 1);
      SplitKeeps(free, live, j);
      ReleaseReachesSource(mid, live, index);
      assert mid[j - 1] == [a, a + h];
      var rest := mid[j - 1 := [a + h]];
      assert Aligned(a, j) by {
        InFree(free, j, a);
        FreeInArea(free, live, Block(j, a));
      }
      RightHalfMerges(rest, a, j);
      assert rest[j - 1 := []] == free[j := free[j][1..]];
    }
  }

  /** With only its right half free, a left half merges with it */
  lemma RightHalfMerges(free: Lists, a: nat, j: nat)
    requires 0 < j < |free| && Aligned(a, j) && free[j - 1] == [a + Size(j - 1)]
    ensures Release(free, a, j - 1) == Release(free[j - 1 := []], a, j)
  {
    assert Matches(a, j - 1, free[j - 1][0]);
    assert FindBuddy(free[j - 1], a, j - 1, 0) == 0;
    assert Without(free[j - 1], 0) == [];
  }

  lemma HeadHasNoBuddy(free: Lists, j: nat)
    requires AllSorted(free) && Coalesced(free) && j < |free| - 1 && free[j] != []
    requires !(j == 0 && InitialPair(free))
    ensures FindBuddy(free[j][1..], free[j][0], j, 0) == |free[j]| - 1
  {
    var a, tail := free[j][0], free[j][1..];
    var p := FindBuddy(tail, a, j, 0);
    if p < |tail| {
      assert Sorted(free[j]) && free[j][p + 1] == tail[p] && tail[p] in free[j];
      assert Pair(free, j, a);
    }
  }

  lemma PutBackHead(free: Lists, j: nat)
    requires AllSorted(free) && Coalesced(free) && j < |free| && free[j] != []
    requires !(j == 0 && InitialPair(free))
    ensures Release(free[j := free[j][1..]], free[j][0], j) == free
  {
    var a, tail := free[j][0], free[j][1..];
    assert free[j] == [a] + tail;
    assert Insert(tail, a) == free[j] by {
      assert Sorted(free[j]);
      assert InsertPos(tail, a, 0) == 0;
    }
    if j < |free| - 1 {
      HeadHasNoBuddy(free, j);
    }
    var rest := free[j := tail];
    assert rest[j := free[j]] == free;
    assert rest[j] == tail && (tail == [] ==> free[j] == [a]);
  }

  /** Freeing a block right after it was granted gives back exactly the free
      lists there were before, unless the block is one of the two order-0 blocks
      that the initial layout leaves unmerged */
  lemma FreeUndoesGrant(free: Lists, live: set<Block>, index: nat)
    requires Inv(free, live) && index < |free| && Take(free, index).0.Some?
    ensures Release(Take(free, index).1, Take(free, index).0.value, index) == free
            <==> !(index == 0 && InitialPair(free))
  {
    TakeShape(free, index);
    var j := FirstNonEmpty(free, index);
    ReleaseReachesSource(free, live, index);
    if index == 0 && InitialPair(free) {
      assert Sorted(free[0]) && free[0] == [free[0][0]] + free[0][1..];
      var tail := free[0][1..];
      var rest := free[0 := tail];
      assert free[0][0] == 0 && BASE in tail;
      var p := FindBuddy(tail, 0, 0, 0);
      assert Matches(0, 0, BASE);
      WithoutShape(tail, p);
      ReleaseLeavesBelow(rest[0 := Without(tail, p)], Min(0, tail[p]), 1, 0);
    } else {
      PutBackHead(free, j);
    }
  }

  // ----- whole runs -----

  datatype Area = Area(free: Lists, live: set<Block>)

  ghost predicate Step(s: Area, t: Area) {
    || (exists index: nat :: index < |s.free| && Granted(s, index, t))
    || (exists b :: b in s.live && GivenBack(s, b, t))
  }

  ghost predicate Granted(s: Area, index: nat, t: Area)
    requires index < |s.free|
  {
    var (r, free') := Take(s.free, index);
    match r
    case None => t == s
    case Some(a) => t == Area(free', s.live + {Block(index, a)})
  }

  ghost predicate GivenBack(s: Area, b: Block, t: Area) {
    b.order < |s.free| && t == Area(Release(s.free, b.off, b.order), s.live - {b})
  }

  ghost predicate Run(states: seq<Area>, k: nat)
    requires k > 0
  {
    && |states| > 0
    && states[0] == Area(Initial(k), {})
    && forall i :: 0 <= i < |states| - 1 ==> Step(states[i], states[i + 1])
  }

  /** Every state of every run is a partition of the area into sorted free lists
      and live blocks, with no free buddies left unmerged */
  lemma {:induction false} RunKeepsInv(states: seq<Area>, k: nat, n: nat)
    requires k > 0 && Run(states, k) && n < |states|
    ensures Inv(states[n].free, states[n].live) && |states[n].free| == k
    ensures n > 0 && InitialPair(states[n].free) ==> InitialPair(states[n - 1].free)
    decreases n
  {
    if n == 0 {
      InitialInv(k);
    } else {
      RunKeepsInv(states, k, n - 1);
      var s, t := states[n - 1], states[n];
      assert Step(states[n - 1], states[n - 1 + 1]);
      if index: nat :| index < |s.free| && Granted(s, index, t) {
        GrantKeeps(s.free, s.live, index);
        TakeShape(s.free, index);
      } else {
        var b :| b in s.live && GivenBack(s, b, t);
        FreeKeeps(s.free, s.live, b);
      }
    }
  }

  /** Whenever a run has given everything back, the area looks as it did at the
      start or is fully merged, and once merged it never shows the initial
      layout again */
  lemma {:induction false} RunIdleLayouts(states: seq<Area>, k: nat, m: nat, n: nat)
    requires k > 0 && Run(states, k) && m <= n < |states| && states[n].live == {}
    ensures states[n].free == Initial(k) || states[n].free == Merged(k)
    ensures states[m].free == Merged(k) && k > 1 ==> states[n].free == Merged(k)
  {
    RunKeepsInv(states, k, n);
    RunKeepsInv(states, k, m);
    Quiescent(states[n].free);
    if states[m].free == Merged(k) && k > 1 {
      assert !InitialPair(states[m].free);
      PairStaysGone(states, k, m, n);
    }
  }

  lemma {:induction false} PairStaysGone(states: seq<Area>, k: nat, m: nat, n: nat)
    requires k > 0 && Run(states, k) && m <= n < |states| && !InitialPair(states[m].free)
    ensures !InitialPair(states[n].free)
    decreases n - m
  {
    if m < n {
      PairStaysGone(states, k, m, n - 1);
      RunKeepsInv(states, k, n);
    }
  }
}
