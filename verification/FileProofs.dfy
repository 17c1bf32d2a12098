/** Files written without holes are byte sequences: what writing and reading them
    does, down to the cache. */
module FileProofs {
  import opened Basics
  import opened FileIndex
  import opened BankCache
  import opened FileSpec

  /** Overwrite f from offset o on, growing it if needed */
  function Overlay(f: Bytes, o: nat, d: Bytes): (r: Bytes)
    requires o <= |f|
    ensures |r| == Larger(|f|, o + |d|)
    ensures forall p :: 0 <= p < |r| ==> r[p] == if o <= p < o + |d| then d[p - o] else f[p]
  {
    f[..o] + d + (if o + |d| < |f| then f[o + |d|..] else [])
  }

  function Larger(a: nat, b: nat): nat {
    if a < b then b else a
  }

  /** First byte of chunk number n */
  function From(g: Geometry, n: nat): nat {
    n * g.chunk
  }

  lemma FromMonotone(g: Geometry, m: nat, n: nat)
    requires m < n
    ensures From(g, m) + g.chunk <= From(g, n)
  {
    MulMonotone(m, n, g.chunk);
  }

  lemma InChunk(g: Geometry, p: nat)
    requires g.Ok()
    ensures p == From(g, Div(p, g.chunk)) + Mod(p, g.chunk)
  {
    Divide(p, g.chunk);
  }

  // ----- a file without holes -----

  ghost predicate HasSlot(g: Geometry, fs: Fs, i: nat, n: nat)
    requires g.Ok() && i in fs.inodes
  {
    n < g.MaxChunks() && SlotOf(g, n) in fs.inodes[i].index
  }

  ghost function ChunkOf(g: Geometry, fs: Fs, i: nat, n: nat): nat
    requires g.Ok() && i in fs.inodes && HasSlot(g, fs, i, n)
  {
    fs.inodes[i].index[SlotOf(g, n)]
  }

  /** Byte p of the file is v: its chunk is there and every reader of its bank
      sees v in its place */
  ghost predicate ByteIs(g: Geometry, fs: Fs, i: nat, p: nat, v: bv8)
    requires g.Ok() && i in fs.inodes
  {
    var n := Div(p, g.chunk);
    HasSlot(g, fs, i, n) && var c := ChunkOf(g, fs, i, n);
    Has(g, fs.store, BankOf(g, c), StartOf(g, c) + Mod(p, g.chunk), v)
  }

  /** The chunks there are exactly those below the file's length, each filled up
      to the file's end */
  ghost predicate NoHoles(g: Geometry, fs: Fs, i: nat, length: nat)
    requires g.Ok() && i in fs.inodes
  {
    && fs.inodes[i].size == length
    && length <= From(g, g.MaxChunks())
    && (forall n: nat :: n < g.MaxChunks() ==> (HasSlot(g, fs, i, n) <==> From(g, n) < length))
    && (forall n: nat :: HasSlot(g, fs, i, n) ==> ChunkFilled(g, fs, i, n, length))
  }

  ghost predicate ChunkFilled(g: Geometry, fs: Fs, i: nat, n: nat, length: nat)
    requires g.Ok() && i in fs.inodes && HasSlot(g, fs, i, n)
  {
    && From(g, n) < length
    && ChunkOf(g, fs, i, n) < |fs.sizes|
    && fs.sizes[ChunkOf(g, fs, i, n)] == Smaller(g.chunk, length - From(g, n))
  }

  ghost predicate BytesAre(g: Geometry, fs: Fs, i: nat, f: Bytes)
    requires g.Ok() && i in fs.inodes
  {
    forall p: nat :: p < |f| ==> ByteIs(g, fs, i, p, f[p])
  }

  /** Inode i holds the byte sequence f */
  ghost predicate FileIs(g: Geometry, fs: Fs, i: nat, f: Bytes) {
    g.Ok() && i in fs.inodes && NoHoles(g, fs, i, |f|) && BytesAre(g, fs, i, f)
  }

  // ----- one round of the write loop: lengths -----

  /** The chunk number a write at offset o <= length falls into: there already, or
      the next one, and then the write starts at its first byte */
  lemma NextChunk(g: Geometry, fs: Fs, i: nat, length: nat, o: nat)
    requires FsOk(g, fs) && i in fs.inodes && NoHoles(g, fs, i, length) && o <= length
    requires Div(o, g.chunk) < g.MaxChunks()
    ensures !HasSlot(g, fs, i, Div(o, g.chunk)) ==> o == length == From(g, Div(o, g.chunk))
  {
    InChunk(g, o);
  }

  /** Allocation for a write within a file without holes */
  lemma IndexedSlots(g: Geometry, fs: Fs, i: nat, o: nat, n: nat)
    requires FsOk(g, fs) && i in fs.inodes && i !in fs.slab && IndexForWrite(g, fs, i, o).Some?
    ensures var fs1 := IndexForWrite(g, fs, i, o).value.0;
            && i in fs1.inodes
            && (HasSlot(g, fs1, i, n) <==> HasSlot(g, fs, i, n) || n == Div(o, g.chunk))
            && (HasSlot(g, fs, i, n) ==> ChunkOf(g, fs1, i, n) == ChunkOf(g, fs, i, n))
            && fs1.sizes == fs.sizes && fs1.inodes[i].size == fs.inodes[i].size
            && (!HasSlot(g, fs, i, Div(o, g.chunk)) ==> fs.sizes[IndexForWrite(g, fs, i, o).value.1] == 0)
            && (HasSlot(g, fs, i, Div(o, g.chunk)) ==> fs1 == fs)
            && HasSlot(g, fs1, i, Div(o, g.chunk))
            && ChunkOf(g, fs1, i, Div(o, g.chunk)) == IndexForWrite(g, fs, i, o).value.1
  {
    IndexedOk(g, fs, i, o);
    LocateIsChunk(g, o);
    var m := Div(o, g.chunk);
    SlotOfIsOneToOne(g, m);
    if n < g.MaxChunks() {
      SlotOfIsOneToOne(g, n);
    }
    if SlotOf(g, m) !in fs.inodes[i].index {
      AllocateLinks(g, fs, i, SlotOf(g, m));
    }
  }

  /** Different chunk numbers of a file have different chunks */
  lemma ChunksDiffer(g: Geometry, fs: Fs, i: nat, m: nat, k: nat, n: nat)
    requires FsOk(g, fs) && i in fs.inodes && k in fs.inodes
    requires HasSlot(g, fs, i, m) && HasSlot(g, fs, k, n) && (i != k || m != n)
    ensures ChunkOf(g, fs, i, m) < g.Chunks() && ChunkOf(g, fs, k, n) < g.Chunks()
    ensures ChunkOf(g, fs, i, m) != ChunkOf(g, fs, k, n)
  {
    assert SlotOwned(g, fs, i, SlotOf(g, m)) && SlotOwned(g, fs, k, SlotOf(g, n));
    SlotOfIsOneToOne(g, m);
    SlotOfIsOneToOne(g, n);
  }

  lemma WriteChunkFrame(g: Geometry, fs: Fs, i: nat, c: nat, r: nat, seg: Bytes, again: Visit)
    requires FsOk(g, fs) && i in fs.inodes && c < g.Chunks() && r + |seg| <= g.chunk
    ensures var fs' := WriteChunk(g, fs, i, c, r, seg, again);
            && fs'.inodes.Keys == fs.inodes.Keys && fs'.bitmap == fs.bitmap && fs'.backs == fs.backs
            && fs'.cursor == fs.cursor && fs'.slab == fs.slab
            && (forall k :: k in fs.inodes ==> fs'.inodes[k].index == fs.inodes[k].index
                                               && fs'.inodes[k].contexts == fs.inodes[k].contexts)
            && (forall k :: k in fs.inodes && k != i ==> fs'.inodes[k] == fs.inodes[k])
            && fs'.inodes[i].size == fs.inodes[i].size + Larger(fs.sizes[c], r + |seg|) - fs.sizes[c]
            && fs'.sizes == fs.sizes[c := Larger(fs.sizes[c], r + |seg|)]
  {
    var fs' := WriteChunk(g, fs, i, c, r, seg, again);
    assert fs.inodes.Keys + {i} == fs.inodes.Keys;
    assert fs.sizes[c := fs.sizes[c]] == fs.sizes;
  }

  /** After one round the file still has no holes and reaches to the end of the
      write, whether the bytes were stored or not */
  lemma RoundNoHoles(g: Geometry, fs: Fs, i: nat, length: nat, o: nat, seg: Bytes, again: Visit)
    requires FsOk(g, fs) && i in fs.inodes && i !in fs.slab && NoHoles(g, fs, i, length) && o <= length
    requires IndexForWrite(g, fs, i, o).Some? && 0 < |seg| && Mod(o, g.chunk) + |seg| <= g.chunk
    ensures var (fs1, c, r) := IndexForWrite(g, fs, i, o).value;
            && FsOk(g, fs1) && i in fs1.inodes && c < g.Chunks() && r == Mod(o, g.chunk)
            && var fs' := WriteChunk(g, fs1, i, c, r, seg, again);
               i in fs'.inodes && NoHoles(g, fs', i, Larger(length, o + |seg|))
  {
    hide Owned, Sized, SlabOk, StoreOk, WriteChunk;
    IndexedOk(g, fs, i, o);
    var (fs1, c, r) := IndexForWrite(g, fs, i, o).value;
    var m := Div(o, g.chunk);
    var fs' := WriteChunk(g, fs1, i, c, r, seg, again);
    var length' := Larger(length, o + |seg|);
    WriteChunkFrame(g, fs1, i, c, r, seg, again);
    IndexedSlots(g, fs, i, o, m);
    NextChunk(g, fs, i, length, o);
    InChunk(g, o);
    FromMonotone(g, m, g.MaxChunks());
    if HasSlot(g, fs, i, m) {
      assert ChunkFilled(g, fs, i, m, length);
    }
    assert fs'.inodes[i].size == length';
    forall n: nat | n < g.MaxChunks()
      ensures HasSlot(g, fs', i, n) <==> From(g, n) < length'
      ensures HasSlot(g, fs', i, n) ==> ChunkFilled(g, fs', i, n, length')
    {
      IndexedSlots(g, fs, i, o, n);
      if n < m {
        FromMonotone(g, n, m);
      } else if n > m {
        FromMonotone(g, m, n);
      }
      if HasSlot(g, fs', i, n) && n != m {
        assert ChunkFilled(g, fs, i, n, length);
        ChunksDiffer(g, fs1, i, m, i, n);
      }
    }
  }

  // ----- one round of the write loop: bytes -----

  /** A byte of one chunk never lies among bytes of another */
  lemma PlacesApart(g: Geometry, c: nat, d: nat, r: nat, n: nat, y: nat)
    requires g.Ok() && c < g.Chunks() && d < g.Chunks() && c != d && r + n <= g.chunk && y < g.chunk
    ensures !(BankOf(g, d) == BankOf(g, c) && StartOf(g, c) + r <= StartOf(g, d) + y < StartOf(g, c) + r + n)
  {
    if BankOf(g, c) == BankOf(g, d) {
      ChunksDisjoint(g, c, d);
    }
  }

  lemma IndexedOther(g: Geometry, fs: Fs, i: nat, o: nat, k: nat)
    requires FsOk(g, fs) && i in fs.inodes && i !in fs.slab && IndexForWrite(g, fs, i, o).Some?
    requires k in fs.inodes && k != i
    ensures k in IndexForWrite(g, fs, i, o).value.0.inodes
    ensures IndexForWrite(g, fs, i, o).value.0.inodes[k] == fs.inodes[k]
  {
  }

  /** The state after one round */
  ghost function Round(g: Geometry, fs: Fs, i: nat, o: nat, seg: Bytes, again: Visit): (fs': Fs)
    requires FsOk(g, fs) && i in fs.inodes && i !in fs.slab
    requires IndexForWrite(g, fs, i, o).Some? && Mod(o, g.chunk) + |seg| <= g.chunk
    ensures FsOk(g, fs') && i in fs'.inodes && fs'.slab == fs.slab && fs'.inodes.Keys == fs.inodes.Keys
    ensures Healthy(fs.store) ==> Healthy(fs'.store)
  {
    IndexedOk(g, fs, i, o);
    var (fs1, c, r) := IndexForWrite(g, fs, i, o).value;
    WriteChunkKeeps(g, fs1, i, c, r, seg, again);
    WriteChunkFrame(g, fs1, i, c, r, seg, again);
    WriteChunk(g, fs1, i, c, r, seg, again)
  }

  /** The bank that a write at offset o goes to */
  ghost function TargetBank(g: Geometry, fs: Fs, i: nat, o: nat): nat
    requires g.Ok() && i in fs.inodes && |fs.bitmap| == |fs.backs| && IndexForWrite(g, fs, i, o).Some?
  {
    BankOf(g, IndexForWrite(g, fs, i, o).value.1)
  }

  /** A write at offset o loses nothing of other banks when it loads its own */
  ghost predicate SafeTarget(g: Geometry, fs: Fs, i: nat, o: nat)
    requires FsOk(g, fs) && i in fs.inodes && IndexForWrite(g, fs, i, o).Some?
  {
    SafeToLoad(g, fs.store, TargetBank(g, fs, i, o))
  }

  lemma RoundStore(g: Geometry, fs: Fs, i: nat, o: nat, seg: Bytes, again: Visit)
    requires FsOk(g, fs) && i in fs.inodes && i !in fs.slab
    requires IndexForWrite(g, fs, i, o).Some? && Mod(o, g.chunk) + |seg| <= g.chunk
    ensures var (fs1, c, r) := IndexForWrite(g, fs, i, o).value;
            && c < g.Chunks() && BankOf(g, c) < g.banks
            && StartOf(g, c) + r + |seg| <= g.Bank()
            && Round(g, fs, i, o, seg, again).store
               == Access(g, fs.store, BankOf(g, c), seg, StartOf(g, c) + r, Write, again).0
  {
    IndexedOk(g, fs, i, o);
    ChunkInBank(g, IndexForWrite(g, fs, i, o).value.1);
  }

  /** The place of byte p of file k is not among those a round at offset o of
      file i writes */
  lemma PlaceOutside(g: Geometry, fs: Fs, i: nat, o: nat, n: nat, k: nat, p: nat)
    requires FsOk(g, fs) && i in fs.inodes && i !in fs.slab
    requires IndexForWrite(g, fs, i, o).Some? && Mod(o, g.chunk) + n <= g.chunk
    requires k in fs.inodes && HasSlot(g, fs, k, Div(p, g.chunk))
    requires k != i || p < o || o + n <= p
    ensures var (fs1, c, r) := IndexForWrite(g, fs, i, o).value;
            var d := ChunkOf(g, fs, k, Div(p, g.chunk));
            && k in fs1.inodes && HasSlot(g, fs1, k, Div(p, g.chunk)) && ChunkOf(g, fs1, k, Div(p, g.chunk)) == d
            && !(BankOf(g, d) == BankOf(g, c)
                 && StartOf(g, c) + r <= StartOf(g, d) + Mod(p, g.chunk) < StartOf(g, c) + r + n)
  {
    IndexedOk(g, fs, i, o);
    var (fs1, c, r) := IndexForWrite(g, fs, i, o).value;
    var m, q := Div(o, g.chunk), Div(p, g.chunk);
    IndexedSlots(g, fs, i, o, m);
    if k == i {
      IndexedSlots(g, fs, i, o, q);
    } else {
      IndexedOther(g, fs, i, o, k);
    }
    if k != i || q != m {
      ChunksDiffer(g, fs1, i, m, k, q);
      PlacesApart(g, c, ChunkOf(g, fs, k, q), r, n, Mod(p, g.chunk));
    } else {
      InChunk(g, o);
      InChunk(g, p);
    }
  }

  lemma RoundStoreKeeps(g: Geometry, fs: Fs, i: nat, o: nat, seg: Bytes, again: Visit, b: nat, x: nat, v: bv8)
    requires FsOk(g, fs) && i in fs.inodes && i !in fs.slab
    requires IndexForWrite(g, fs, i, o).Some? && Mod(o, g.chunk) + |seg| <= g.chunk
    requires SafeTarget(g, fs, i, o)
    requires Has(g, fs.store, b, x, v)
    requires var (_, c, r) := IndexForWrite(g, fs, i, o).value;
             !(b == BankOf(g, c) && StartOf(g, c) + r <= x < StartOf(g, c) + r + |seg|)
    ensures Has(g, Round(g, fs, i, o, seg, again).store, b, x, v)
  {
    hide FsOk, StoreOk, Has, Access, IndexForWrite, Round;
    FsHasStore(g, fs);
    RoundStore(g, fs, i, o, seg, again);
    var (_, c, r) := IndexForWrite(g, fs, i, o).value;
    WriteExact(g, fs.store, BankOf(g, c), seg, StartOf(g, c) + r, again);
  }

  lemma RoundIndex(g: Geometry, fs: Fs, i: nat, o: nat, seg: Bytes, again: Visit, k: nat)
    requires FsOk(g, fs) && i in fs.inodes && i !in fs.slab
    requires IndexForWrite(g, fs, i, o).Some? && Mod(o, g.chunk) + |seg| <= g.chunk
    requires k in fs.inodes
    ensures var fs1, fs' := IndexForWrite(g, fs, i, o).value.0, Round(g, fs, i, o, seg, again);
            k in fs1.inodes && k in fs'.inodes && fs'.inodes[k].index == fs1.inodes[k].index
  {
    IndexedOk(g, fs, i, o);
    var (fs1, c, r) := IndexForWrite(g, fs, i, o).value;
    WriteChunkFrame(g, fs1, i, c, r, seg, again);
  }

  /** A round changes no byte outside its segment, of this or any other file */
  lemma RoundKeepsByte(g: Geometry, fs: Fs, i: nat, o: nat, seg: Bytes, again: Visit, k: nat, p: nat, v: bv8)
    requires FsOk(g, fs) && i in fs.inodes && i !in fs.slab
    requires IndexForWrite(g, fs, i, o).Some? && Mod(o, g.chunk) + |seg| <= g.chunk
    requires SafeTarget(g, fs, i, o)
    requires k in fs.inodes && ByteIs(g, fs, k, p, v)
    requires k != i || p < o || o + |seg| <= p
    ensures ByteIs(g, Round(g, fs, i, o, seg, again), k, p, v)
  {
    hide Owned, Sized, SlabOk, StoreOk, Has, IndexForWrite, Round;
    PlaceOutside(g, fs, i, o, |seg|, k, p);
    var d := ChunkOf(g, fs, k, Div(p, g.chunk));
    RoundStoreKeeps(g, fs, i, o, seg, again, BankOf(g, d), StartOf(g, d) + Mod(p, g.chunk), v);
    RoundIndex(g, fs, i, o, seg, again, k);
  }

  lemma FsHasStore(g: Geometry, fs: Fs)
    requires FsOk(g, fs)
    ensures StoreOk(g, fs.store) && g.Ok() && Arrays(g, fs)
    ensures |fs.store.lines| == g.lines
  {
  }

  /** A round over a resident bank stores its segment */
  lemma RoundStoresByte(g: Geometry, fs: Fs, i: nat, o: nat, seg: Bytes, again: Visit, p: nat)
    requires FsOk(g, fs) && i in fs.inodes && i !in fs.slab
    requires IndexForWrite(g, fs, i, o).Some? && Mod(o, g.chunk) + |seg| <= g.chunk
    requires again == Write || Hit(g, fs.store, TargetBank(g, fs, i, o))
    requires o <= p < o + |seg|
    ensures ByteIs(g, Round(g, fs, i, o, seg, again), i, p, seg[p - o])
  {
    hide Owned, Sized, SlabOk, StoreOk, Has, IndexForWrite, Round, Access;
    IndexedOk(g, fs, i, o);
    var (fs1, c, r) := IndexForWrite(g, fs, i, o).value;
    var m := Div(o, g.chunk);
    IndexedSlots(g, fs, i, o, m);
    RoundStore(g, fs, i, o, seg, again);
    FsHasStore(g, fs);
    WriteExact(g, fs.store, BankOf(g, c), seg, StartOf(g, c) + r, again);
    RoundIndex(g, fs, i, o, seg, again, i);
    InChunk(g, o);
    DivideUnique(p, m, r + (p - o), g.chunk);
    assert StartOf(g, c) + r + (p - o) == StartOf(g, c) + Mod(p, g.chunk);
    assert Has(g, Round(g, fs, i, o, seg, again).store, BankOf(g, c), StartOf(g, c) + r + (p - o), seg[p - o]);
  }

  /** One round overlays its segment on the file */
  lemma RoundFile(g: Geometry, fs: Fs, i: nat, f: Bytes, o: nat, seg: Bytes, again: Visit)
    requires FsOk(g, fs) && i !in fs.slab && FileIs(g, fs, i, f) && o <= |f|
    requires IndexForWrite(g, fs, i, o).Some? && 0 < |seg| && Mod(o, g.chunk) + |seg| <= g.chunk
    requires SafeTarget(g, fs, i, o)
    requires again == Write || Hit(g, fs.store, TargetBank(g, fs, i, o))
    ensures FileIs(g, Round(g, fs, i, o, seg, again), i, Overlay(f, o, seg))
  {
    RoundNoHoles(g, fs, i, |f|, o, seg, again);
    var h := Overlay(f, o, seg);
    forall p: nat | p < |h| ensures ByteIs(g, Round(g, fs, i, o, seg, again), i, p, h[p]) {
      if o <= p < o + |seg| {
        RoundStoresByte(g, fs, i, o, seg, again, p);
      } else {
        RoundKeepsByte(g, fs, i, o, seg, again, i, p, f[p]);
      }
    }
  }

  /** One round leaves every other file alone */
  lemma RoundOther(g: Geometry, fs: Fs, i: nat, o: nat, seg: Bytes, again: Visit, k: nat, f: Bytes)
    requires FsOk(g, fs) && i in fs.inodes && i !in fs.slab
    requires IndexForWrite(g, fs, i, o).Some? && Mod(o, g.chunk) + |seg| <= g.chunk
    requires SafeTarget(g, fs, i, o)
    requires k != i && FileIs(g, fs, k, f)
    ensures FileIs(g, Round(g, fs, i, o, seg, again), k, f)
  {
    IndexedOk(g, fs, i, o);
    var (fs1, c, r) := IndexForWrite(g, fs, i, o).value;
    var fs' := Round(g, fs, i, o, seg, again);
    IndexedOther(g, fs, i, o, k);
    IndexedSlots(g, fs, i, o, Div(o, g.chunk));
    WriteChunkFrame(g, fs1, i, c, r, seg, again);
    forall n: nat | HasSlot(g, fs', k, n) ensures ChunkFilled(g, fs', k, n, |f|) {
      assert HasSlot(g, fs, k, n) && ChunkFilled(g, fs, k, n, |f|);
      ChunksDiffer(g, fs1, i, Div(o, g.chunk), k, n);
    }
    forall n: nat | n < g.MaxChunks() ensures HasSlot(g, fs', k, n) <==> From(g, n) < |f| {
      assert HasSlot(g, fs', k, n) <==> HasSlot(g, fs, k, n);
    }
    forall p: nat | p < |f| ensures ByteIs(g, fs', k, p, f[p]) {
      RoundKeepsByte(g, fs, i, o, seg, again, k, p, f[p]);
    }
  }
}
