/** What writing and reading a file asks of the servers: the cache's log has every
    remote call of the loops, in order, with the outcome it used. */
module FileTraffic {
  import opened Basics
  import opened FileIndex
  import opened BankCache
  import opened FileSpec
  import opened FileProofs
  import opened FileTheorems
  import opened FileRuns

  lemma RoundRan(g: Geometry, fs: Fs, i: nat, o: nat, seg: Bytes, again: Visit)
    requires FsOk(g, fs) && i in fs.inodes && i !in fs.slab
    requires IndexForWrite(g, fs, i, o).Some? && Mod(o, g.chunk) + |seg| <= g.chunk
    ensures Ran(fs.store, Round(g, fs, i, o, seg, again).store)
  {
    hide Owned, Sized, SlabOk, StoreOk, IndexForWrite, Round, Access, Ran;
    FsHasStore(g, fs);
    RoundStore(g, fs, i, o, seg, again);
    var (_, c, r) := IndexForWrite(g, fs, i, o).value;
    AccessRan(g, fs.store, BankOf(g, c), seg, StartOf(g, c) + r, Write, again);
  }

  lemma {:induction false} WriteRan(g: Geometry, fs: Fs, i: nat, o: nat, data: Bytes, again: Visit)
    requires FsOk(g, fs) && i in fs.inodes && i !in fs.slab && WriteLoop(g, fs, i, o, data, again).Some?
    ensures Ran(fs.store, WriteLoop(g, fs, i, o, data, again).value.store)
    decreases |data|
  {
    hide Owned, Sized, SlabOk, StoreOk, IndexForWrite, Round, WriteLoop, Plan, Ran;
    if data == [] {
      NothingToWrite(g, fs, i, o, again);
      RanNothing(fs.store, fs.store);
    } else {
      var m := FirstSegment(g, o, |data|);
      Unfold(g, fs, i, o, data, again);
      var fs1 := Next(g, fs, i, o, data, again);
      RoundRan(g, fs, i, o, data[..m], again);
      WriteRan(g, fs1, i, o + m, data[m..], again);
      RanOn(fs.store, fs1.store, WriteLoop(g, fs, i, o, data, again).value.store);
    }
  }

  lemma ReadChunkRan(g: Geometry, fs: Fs, c: nat, r: nat, m: nat)
    requires FsOk(g, fs) && c < g.Chunks() && r + m <= g.chunk
    ensures Ran(fs.store, ReadChunk(g, fs, c, r, m).0.store)
  {
    hide Owned, Sized, SlabOk, StoreOk, Access, Ran;
    FsHasStore(g, fs);
    ChunkInBank(g, c);
    AccessRan(g, fs.store, BankOf(g, c), seq(m, k => 0), StartOf(g, c) + r, Read, Read);
  }

  lemma {:induction false} ReadRan(g: Geometry, fs: Fs, i: nat, o: nat, n: nat)
    requires FsOk(g, fs) && i in fs.inodes
    ensures Ran(fs.store, ReadLoop(g, fs, i, o, n).0.store)
    decreases n
  {
    hide Owned, Sized, SlabOk, StoreOk, ReadChunk, Ran, IndexForRead;
    RanNothing(fs.store, fs.store);
    if n > 0 && IndexForRead(g, fs, i, o).Some? {
      var (c, r) := IndexForRead(g, fs, i, o).value;
      ReadIndexOk(g, fs, i, o);
      ReadSizeOk(g, fs, c);
      var m := if r > fs.sizes[c] then 0 else Smaller(n, fs.sizes[c] - r);
      ReadChunkRan(g, fs, c, r, m);
      if m > 0 {
        var fs1 := ReadChunk(g, fs, c, r, m).0;
        ReadRan(g, fs1, i, o + m, n - m);
        RanOn(fs.store, fs1.store, ReadLoop(g, fs, i, o, n).0.store);
      }
    }
  }
}
