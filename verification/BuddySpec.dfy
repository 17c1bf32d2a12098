/** What the server's buddy allocator computes on one area, as functions of the
    area's free lists, and the invariant every run of it keeps.

    free[i] is the free list of order i: the offsets of its blocks, in list
    order. The number of orders is |free|; the area is Size(|free|) bytes. */
module BuddySpec {
  import opened Basics
  import opened BuddySizes

  datatype Block = Block(order: nat, off: nat)

  type Lists = seq<seq<nat>>

  // ----- taking a block -----

  /** The lowest order from i up with a free block, or |free| */
  function FirstNonEmpty(free: Lists, i: nat): (j: nat)
    requires i <= |free|
    ensures i <= j <= |free|
    ensures forall k :: i <= k < j ==> free[k] == []
    ensures j < |free| ==> free[j] != []
    decreases |free| - i
  {
    if i == |free| || free[i] != [] then i else FirstNonEmpty(free, i + 1)
  }

  /** Split the first block of order j and put both halves in front of list j-1 */
  function Split(free: Lists, j: nat): Lists
    requires 0 < j < |free| && free[j] != []
  {
    var a := free[j][0];
    free[j := free[j][1..]][j - 1 := [a, a + Size(j - 1)] + free[j - 1]]
  }

  /** Take a block of the given order, splitting larger ones until one is there */
  function Take(free: Lists, index: nat): (r: (Option<nat>, Lists))
    requires index <= |free|
    ensures |r.1| == |free|
    decreases FirstNonEmpty(free, index) - index
  {
    var j := FirstNonEmpty(free, index);
    if j == |free| then (None, free)
    else if j == index then (Some(free[j][0]), free[j := free[j][1..]])
    else
      assert FirstNonEmpty(Split(free, j), index) == j - 1 by {
        FirstIs(Split(free, j), index, j - 1);
      }
      Take(Split(free, j), index)
  }

  lemma FirstIs(free: Lists, i: nat, j: nat)
    requires i <= j < |free| && free[j] != []
    requires forall k :: i <= k < j ==> free[k] == []
    ensures FirstNonEmpty(free, i) == j
  {
    var m := FirstNonEmpty(free, i);
    assert m <= j;
  }

  // ----- giving a block back -----

  predicate IsLeft(off: nat, i: nat) {
    off % Size(i + 1) == 0
  }

  predicate Matches(off: nat, i: nat, t: nat) {
    (IsLeft(off, i) && off + Size(i) == t) || (!IsLeft(off, i) && t + Size(i) == off)
  }

  /** Position of the first list entry that is off's buddy, or |list| */
  function FindBuddy(list: seq<nat>, off: nat, i: nat, from: nat): (p: nat)
    requires from <= |list|
    ensures from <= p <= |list|
    ensures forall k :: from <= k < p ==> !Matches(off, i, list[k])
    ensures p < |list| ==> Matches(off, i, list[p])
    decreases |list| - from
  {
    if from == |list| || Matches(off, i, list[from]) then from else FindBuddy(list, off, i, from + 1)
  }

  /** Position of the first list entry above off, or |list| */
  function InsertPos(list: seq<nat>, off: nat, from: nat): (p: nat)
    requires from <= |list|
    ensures from <= p <= |list|
    ensures forall k :: from <= k < p ==> list[k] <= off
    ensures p < |list| ==> off < list[p]
    decreases |list| - from
  {
    if from == |list| || off < list[from] then from else InsertPos(list, off, from + 1)
  }

  function Insert(list: seq<nat>, off: nat): seq<nat> {
    var p := InsertPos(list, off, 0);
    list[..p] + [off] + list[p..]
  }

  function Without(list: seq<nat>, p: nat): seq<nat>
    requires p < |list|
  {
    list[..p] + list[p + 1..]
  }

  function Min(a: nat, b: nat): nat {
    if a > b then b else a
  }

  /** Put a block back, merging it with its buddy as long as the buddy is free */
  function Release(free: Lists, off: nat, i: nat): (r: Lists)
    requires i < |free|
    ensures |r| == |free|
    decreases |free| - i
  {
    if free[i] == [] then free[i := [off]]
    else if i == |free| - 1 then free[i := Insert(free[i], off)]
    else
      var p := FindBuddy(free[i], off, i, 0);
      if p < |free[i]| then
        Release(free[i := Without(free[i], p)], Min(off, free[i][p]), i + 1)
      else free[i := Insert(free[i], off)]
  }

  // ----- the two quiescent layouts -----

  /** One block of each order at offset Size(i), and a second one of order 0 at
      offset 0: buddy_num = {2,1,1,..} */
  function Initial(k: nat): Lists
    requires k > 0
  {
    seq(k, i requires 0 <= i < k => if i == 0 then [0, BASE] else [Size(i)])
  }

  function Merged(k: nat): Lists
    requires k > 0
  {
    seq(k, i requires 0 <= i < k => if i == k - 1 then [0, Size(i)] else [])
  }

  // ----- the invariant -----

  ghost predicate Covers(b: Block, u: nat) {
    b.off <= u < b.off + Size(b.order)
  }

  ghost predicate Apart(b: Block, c: Block) {
    b.off + Size(b.order) <= c.off || c.off + Size(c.order) <= b.off
  }

  ghost predicate InArea(b: Block, k: nat) {
    b.order < k && Aligned(b.off, b.order) && b.off + Size(b.order) <= Size(k)
  }

  ghost predicate Occupied(all: set<Block>, u: nat) {
    exists b :: b in all && Covers(b, u)
  }

  /** The blocks are aligned, pairwise disjoint, and leave no byte of the area out */
  ghost predicate Tiles(all: set<Block>, k: nat) {
    && (forall b :: b in all ==> InArea(b, k))
    && (forall b, c :: b in all && c in all && b != c ==> Apart(b, c))
    && (forall u: nat :: u < Size(k) ==> Occupied(all, u))
  }

  ghost function FreeBlocks(free: Lists): set<Block> {
    set i, a | 0 <= i < |free| && a in free[i] :: Block(i, a)
  }

  ghost predicate Sorted(s: seq<nat>) {
    forall i, j :: 0 <= i < j < |s| ==> s[i] < s[j]
  }

  ghost predicate AllSorted(free: Lists) {
    forall i :: 0 <= i < |free| ==> Sorted(free[i])
  }

  /** The only two free buddies below the top order that the initial layout
      leaves unmerged */
  predicate InitialPair(free: Lists) {
    |free| > 1 && 0 in free[0] && BASE in free[0]
  }

  ghost predicate Pair(free: Lists, i: nat, a: nat)
    requires i < |free|
  {
    a in free[i] && Aligned(a, i + 1) && a + Size(i) in free[i]
  }

  /** No unmerged free buddies below the top order, the initial pair aside */
  ghost predicate Coalesced(free: Lists) {
    forall i, a {:trigger Pair(free, i, a)} ::
      0 <= i < |free| - 1 && 0 <= a && Pair(free, i, a) ==> i == 0 && a == 0
  }

  ghost predicate Partition(free: Lists, live: set<Block>) {
    && |free| > 0
    && AllSorted(free)
    && FreeBlocks(free) !! live
    && Tiles(FreeBlocks(free) + live, |free|)
  }

  ghost predicate Inv(free: Lists, live: set<Block>) {
    Partition(free, live) && Coalesced(free)
  }
}
