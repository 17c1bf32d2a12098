/** When a write has room: the exact condition, in terms of the bitmap and the
    index before the call. */
module FileRoom {
  import opened Basics
  import opened FileIndex
  import opened BankCache
  import opened FileSpec
  import opened FileProofs
  import opened FileTheorems

  /** Chunks not marked in the bitmap */
  function Free(bitmap: seq<bool>): nat {
    if bitmap == [] then 0 else Free(bitmap[..|bitmap| - 1]) + if bitmap[|bitmap| - 1] then 0 else 1
  }

  lemma {:induction false} FreeTaken(bitmap: seq<bool>, c: nat)
    requires c < |bitmap| && !bitmap[c]
    ensures Free(bitmap[c := true]) == Free(bitmap) - 1
  {
    var n := |bitmap| - 1;
    if c < n {
      FreeTaken(bitmap[..n], c);
      assert bitmap[c := true][..n] == bitmap[..n][c := true];
    } else {
      assert bitmap[c := true][..n] == bitmap[..n];
    }
  }

  lemma {:induction false} NoneFree(bitmap: seq<bool>)
    ensures Free(bitmap) == 0 <==> forall c :: 0 <= c < |bitmap| ==> bitmap[c]
  {
    if bitmap != [] {
      NoneFree(bitmap[..|bitmap| - 1]);
    }
  }

  /** How many of the chunks lo..hi-1 the file does not have yet */
  ghost function Absent(g: Geometry, fs: Fs, i: nat, lo: nat, hi: nat): nat
    requires g.Ok() && i in fs.inodes
    decreases hi - lo
  {
    if lo >= hi then 0 else (if HasSlot(g, fs, i, lo) then 0 else 1) + Absent(g, fs, i, lo + 1, hi)
  }

  lemma {:induction false} AbsentSame(g: Geometry, fs: Fs, fs': Fs, i: nat, lo: nat, hi: nat)
    requires g.Ok() && i in fs.inodes && i in fs'.inodes
    requires forall n: nat :: lo <= n ==> HasSlot(g, fs', i, n) == HasSlot(g, fs, i, n)
    ensures Absent(g, fs', i, lo, hi) == Absent(g, fs, i, lo, hi)
    decreases hi - lo
  {
    if lo < hi {
      AbsentSame(g, fs, fs', i, lo + 1, hi);
    }
  }

  /** One chunk looked up or allocated */
  lemma IndexRoom(g: Geometry, fs: Fs, i: nat, o: nat)
    requires FsOk(g, fs) && i in fs.inodes && i !in fs.slab
    ensures var k, r := Div(o, g.chunk), IndexForWrite(g, fs, i, o);
            && (r.Some? <==> k < g.MaxChunks() && (HasSlot(g, fs, i, k) || Free(fs.bitmap) > 0))
            && (r.Some? ==>
                  && r.value.2 == Mod(o, g.chunk) && i in r.value.0.inodes
                  && Free(r.value.0.bitmap) == Free(fs.bitmap) - (if HasSlot(g, fs, i, k) then 0 else 1)
                  && forall n: nat :: n > k ==> HasSlot(g, r.value.0, i, n) == HasSlot(g, fs, i, n))
  {
    hide Owned, Sized, SlabOk, StoreOk, SlotOf, Skipped;
    LocateIsChunk(g, o);
    var k := Div(o, g.chunk);
    if k < g.MaxChunks() {
      var s := SlotOf(g, k);
      if !HasSlot(g, fs, i, k) {
        AllocatesIffFree(g, fs, i, s);
        NoneFree(fs.bitmap);
        if Free(fs.bitmap) > 0 {
          var (fs1, c) := Allocate(fs, i, s).value;
          SlotIsOk(g, k);
          AllocateLinks(g, fs, i, s);
          FreeTaken(fs.bitmap, c);
          forall n: nat | n > k ensures HasSlot(g, fs1, i, n) == HasSlot(g, fs, i, n) {
            if n < g.MaxChunks() {
              OtherSlot(g, k, n);
            }
          }
        }
      }
    }
  }

  lemma SlotIsOk(g: Geometry, n: nat)
    requires g.Ok() && n < g.MaxChunks()
    ensures SlotOk(g, SlotOf(g, n))
  {
    SlotOfIsOneToOne(g, n);
  }

  lemma OtherSlot(g: Geometry, m: nat, n: nat)
    requires g.Ok() && m < n < g.MaxChunks()
    ensures SlotOf(g, m) != SlotOf(g, n)
  {
    SlotOfIsOneToOne(g, m);
    SlotOfIsOneToOne(g, n);
  }

  /** Number of the last chunk a write touches */
  function LastChunk(g: Geometry, o: nat, n: nat): nat
    requires g.Ok() && n > 0
  {
    Div(o + n - 1, g.chunk)
  }

  lemma LastInFirst(g: Geometry, o: nat, n: nat)
    requires g.Ok() && n > 0
    ensures var k, m := Div(o, g.chunk), Smaller(n, g.chunk - Mod(o, g.chunk));
            && m > 0
            && (m == n ==> LastChunk(g, o, n) == k)
            && (m < n ==> Div(o + m, g.chunk) == k + 1 <= LastChunk(g, o, n)
                          && LastChunk(g, o + m, n - m) == LastChunk(g, o, n))
  {
    var k, r := Div(o, g.chunk), Mod(o, g.chunk);
    Divide(o, g.chunk);
    if n <= g.chunk - r {
      DivideUnique(o + n - 1, k, r + n - 1, g.chunk);
    } else {
      var m := g.chunk - r;
      assert o + m == (k + 1) * g.chunk + 0;
      DivideUnique(o + m, k + 1, 0, g.chunk);
      var l := LastChunk(g, o, n);
      Divide(o + n - 1, g.chunk);
      if l <= k {
        MulMonotone(l, k + 1, g.chunk);
      }
    }
  }

  /** A write goes through exactly when it ends inside the largest file and there
      are as many free chunks as it needs new ones */
  lemma {:induction false} PlannedIff(g: Geometry, fs: Fs, i: nat, o: nat, n: nat)
    requires FsOk(g, fs) && i in fs.inodes && i !in fs.slab && n > 0
    ensures Plan(g, fs, i, o, n).Some? <==>
              && LastChunk(g, o, n) < g.MaxChunks()
              && Absent(g, fs, i, Div(o, g.chunk), LastChunk(g, o, n) + 1) <= Free(fs.bitmap)
    decreases n
  {
    hide Owned, Sized, SlabOk, StoreOk, IndexForWrite, BankOf, HasSlot, Free, LastChunk;
    var k, last := Div(o, g.chunk), LastChunk(g, o, n);
    IndexRoom(g, fs, i, o);
    LastInFirst(g, o, n);
    if IndexForWrite(g, fs, i, o).Some? {
      IndexedOk(g, fs, i, o);
      var (fs1, c, r) := IndexForWrite(g, fs, i, o).value;
      var m := Smaller(n, g.chunk - r);
      AbsentSame(g, fs, fs1, i, k + 1, last + 1);
      if m < n {
        PlannedIff(g, fs1, i, o + m, n - m);
      }
    }
  }
}
