/** Reading, creating and removing files without holes. Their whole runs are in
    module FileHistory. */
module FileRuns {
  import opened Basics
  import opened FileIndex
  import opened BankCache
  import opened FileSpec
  import opened FileProofs

  // ----- reading -----

  lemma StoreKeepsShape(g: Geometry, fs: Fs, store: Store, i: nat, length: nat)
    requires g.Ok() && i in fs.inodes && NoHoles(g, fs, i, length)
    ensures NoHoles(g, fs.(store := store), i, length)
  {
    var fs' := fs.(store := store);
    forall n: nat | HasSlot(g, fs', i, n) ensures ChunkFilled(g, fs', i, n, length) {
      assert ChunkFilled(g, fs, i, n, length);
    }
    forall n: nat | n < g.MaxChunks() ensures HasSlot(g, fs', i, n) <==> From(g, n) < length {
      assert HasSlot(g, fs', i, n) <==> HasSlot(g, fs, i, n);
    }
  }

  /** A store that has every byte the old one had keeps every file */
  lemma StoreKeepsFile(g: Geometry, fs: Fs, store: Store, k: nat, h: Bytes)
    requires g.Ok() && FileIs(g, fs, k, h) && KeepsOthers(g, fs.store, store, 0, 0, 0)
    ensures FileIs(g, fs.(store := store), k, h)
  {
    var fs' := fs.(store := store);
    StoreKeepsShape(g, fs, store, k, |h|);
    forall p: nat | p < |h| ensures ByteIs(g, fs', k, p, h[p]) {
      assert ByteIs(g, fs, k, p, h[p]);
    }
  }

  lemma FacedFile(g: Geometry, fs: Fs, net: seq<Outcome>, k: nat, h: Bytes)
    requires g.Ok() && FileIs(g, fs, k, h) && NetOk(g, net)
    ensures FileIs(g, Faced(fs, net), k, h)
  {
    StoreKeepsFile(g, fs, Facing(fs.store, net), k, h);
  }

  lemma ReadChunkKeeps(g: Geometry, fs: Fs, c: nat, r: nat, m: nat)
    requires FsOk(g, fs) && c < g.Chunks() && r + m <= g.chunk && Healthy(fs.store)
    ensures KeepsOthers(g, fs.store, ReadChunk(g, fs, c, r, m).0.store, 0, 0, 0)
  {
    hide Owned, Sized, SlabOk, StoreOk, Has;
    FsHasStore(g, fs);
    ChunkInBank(g, c);
    HealthyIsSafe(g, fs.store, BankOf(g, c));
    ReadExact(g, fs.store, BankOf(g, c), seq(m, k => 0), StartOf(g, c) + r);
  }

  /** A read whose remote calls come out well, even one past the written end,
      changes no file */
  lemma {:induction false} ReadKeeps(g: Geometry, fs: Fs, i: nat, o: nat, n: nat, k: nat, h: Bytes)
    requires FsOk(g, fs) && i in fs.inodes && FileIs(g, fs, k, h) && Healthy(fs.store)
    ensures FileIs(g, ReadLoop(g, fs, i, o, n).0, k, h)
    decreases n
  {
    hide Owned, Sized, SlabOk, StoreOk, NoHoles, BytesAre, ReadChunk, KeepsOthers;
    if n > 0 && IndexForRead(g, fs, i, o).Some? {
      var (c, r) := IndexForRead(g, fs, i, o).value;
      ReadIndexOk(g, fs, i, o);
      ReadSizeOk(g, fs, c);
      var m := if r > fs.sizes[c] then 0 else Smaller(n, fs.sizes[c] - r);
      ReadChunkKeeps(g, fs, c, r, m);
      var fs1 := ReadChunk(g, fs, c, r, m).0;
      StoreKeepsFile(g, fs, fs1.store, k, h);
      if m > 0 {
        ReadKeeps(g, fs1, i, o + m, n - m, k, h);
      }
    }
  }

  lemma ReadSizeOk(g: Geometry, fs: Fs, c: nat)
    requires FsOk(g, fs) && c < g.Chunks()
    ensures c < |fs.sizes| && fs.sizes[c] <= g.chunk
  {
  }

  /** What the read loop finds at an offset of a file without holes */
  lemma ReadIndexed(g: Geometry, fs: Fs, i: nat, length: nat, o: nat)
    requires FsOk(g, fs) && i in fs.inodes && NoHoles(g, fs, i, length)
    ensures IndexForRead(g, fs, i, o).Some? <==> From(g, Div(o, g.chunk)) < length
    ensures IndexForRead(g, fs, i, o).Some? ==>
              var (c, r) := IndexForRead(g, fs, i, o).value;
              && c < |fs.sizes| && r == Mod(o, g.chunk)
              && HasSlot(g, fs, i, Div(o, g.chunk)) && c == ChunkOf(g, fs, i, Div(o, g.chunk))
              && fs.sizes[c] == Smaller(g.chunk, length - From(g, Div(o, g.chunk)))
  {
    LocateIsChunk(g, o);
    ReadIndexOk(g, fs, i, o);
    var n := Div(o, g.chunk);
    if n >= g.MaxChunks() && n > g.MaxChunks() {
      FromMonotone(g, g.MaxChunks(), n);
    }
    if HasSlot(g, fs, i, n) {
      assert ChunkFilled(g, fs, i, n, length);
    }
  }

  /** The bytes one round of the read loop returns */
  lemma ReadChunkBytes(g: Geometry, fs: Fs, i: nat, f: Bytes, o: nat, m: nat)
    requires FsOk(g, fs) && FileIs(g, fs, i, f) && o + m <= |f| && Healthy(fs.store)
    requires HasSlot(g, fs, i, Div(o, g.chunk)) && Mod(o, g.chunk) + m <= g.chunk
    requires ChunkOf(g, fs, i, Div(o, g.chunk)) < g.Chunks()
    ensures ReadChunk(g, fs, ChunkOf(g, fs, i, Div(o, g.chunk)), Mod(o, g.chunk), m).1 == f[o..o + m]
  {
    hide Owned, Sized, SlabOk, StoreOk, Has, NoHoles, Access;
    FsHasStore(g, fs);
    var c, r := ChunkOf(g, fs, i, Div(o, g.chunk)), Mod(o, g.chunk);
    ChunkInBank(g, c);
    HealthyIsSafe(g, fs.store, BankOf(g, c));
    var seg := f[o..o + m];
    forall k: nat, x: nat | k < |seg| && x == StartOf(g, c) + r + k ensures Has(g, fs.store, BankOf(g, c), x, seg[k]) {
      InChunk(g, o);
      DivideUnique(o + k, Div(o, g.chunk), r + k, g.chunk);
      assert ByteIs(g, fs, i, o + k, f[o + k]);
    }
    assert HasAll(g, fs.store, BankOf(g, c), StartOf(g, c) + r, seg);
    ReadExact(g, fs.store, BankOf(g, c), seq(m, k => 0), StartOf(g, c) + r);
  }

  lemma ReadAtEnd(g: Geometry, fs: Fs, i: nat, length: nat, n: nat)
    requires FsOk(g, fs) && i in fs.inodes && NoHoles(g, fs, i, length)
    ensures ReadLoop(g, fs, i, length, n).1 == Some([])
  {
    hide Owned, Sized, SlabOk, StoreOk, NoHoles, BytesAre, ReadChunk, IndexForRead;
    ReadIndexed(g, fs, i, length, length);
    InChunk(g, length);
  }

  /** One round of a read inside the file: the bytes of one segment, and then a
      read from where it stopped */
  lemma ReadRound(g: Geometry, fs: Fs, i: nat, length: nat, o: nat, n: nat)
    returns (c: nat, r: nat, m: nat)
    requires FsOk(g, fs) && i in fs.inodes && NoHoles(g, fs, i, length) && o < length && n > 0
    ensures 0 < m <= n && o + m <= length && c < g.Chunks() && r == Mod(o, g.chunk) && r + m <= g.chunk
    ensures HasSlot(g, fs, i, Div(o, g.chunk)) && c == ChunkOf(g, fs, i, Div(o, g.chunk))
    ensures var (fs1, seg) := ReadChunk(g, fs, c, r, m);
            ReadLoop(g, fs, i, o, n).1 ==
              match ReadLoop(g, fs1, i, o + m, n - m).1
              case None => None
              case Some(rest) => Some(seg + rest)
  {
    hide Owned, Sized, SlabOk, StoreOk, NoHoles, BytesAre, ReadChunk, IndexForRead, KeepsOthers;
    ReadIndexed(g, fs, i, length, o);
    InChunk(g, o);
    ReadIndexOk(g, fs, i, o);
    var (c', r') := IndexForRead(g, fs, i, o).value;
    c, r := c', r';
    m := Smaller(n, fs.sizes[c] - r);
  }

  /** dhmp_fs_read, when its remote calls come out well, returns exactly the bytes of
      the file from the offset on, up to the count asked for and the file's end */
  lemma {:induction false} ReadFile(g: Geometry, fs: Fs, i: nat, f: Bytes, o: nat, n: nat)
    requires FsOk(g, fs) && FileIs(g, fs, i, f) && o <= |f| && Healthy(fs.store)
    ensures ReadLoop(g, fs, i, o, n).1 == Some(f[o..Smaller(o + n, |f|)])
    decreases n
  {
    hide Owned, Sized, SlabOk, StoreOk, NoHoles, BytesAre, ReadChunk, IndexForRead, ReadLoop, KeepsOthers;
    if o == |f| {
      ReadAtEnd(g, fs, i, |f|, n);
    } else if n == 0 {
      ReadNothing(g, fs, i, o);
      assert f[o..Smaller(o + n, |f|)] == [];
    } else {
      var c, r, m := ReadRound(g, fs, i, |f|, o, n);
      ReadChunkBytes(g, fs, i, f, o, m);
      ReadChunkKeeps(g, fs, c, r, m);
      var fs1 := ReadChunk(g, fs, c, r, m).0;
      StoreKeepsFile(g, fs, fs1.store, i, f);
      ReadFile(g, fs1, i, f, o + m, n - m);
      assert f[o..o + m] + f[o + m..Smaller(o + n, |f|)] == f[o..Smaller(o + n, |f|)];
    }
  }

  lemma ReadNothing(g: Geometry, fs: Fs, i: nat, o: nat)
    requires FsOk(g, fs) && i in fs.inodes
    ensures ReadLoop(g, fs, i, o, 0) == (fs, Some([]))
  {
  }

  /** A read that starts inside the file ends there, however its remote calls come
      out */
  lemma {:induction false} ReadEnds(g: Geometry, fs: Fs, i: nat, length: nat, o: nat, n: nat)
    requires FsOk(g, fs) && i in fs.inodes && NoHoles(g, fs, i, length) && o <= length
    ensures ReadLoop(g, fs, i, o, n).1.Some?
    decreases n
  {
    hide Owned, Sized, SlabOk, StoreOk, ReadChunk, IndexForRead, ReadLoop;
    if o == length {
      ReadAtEnd(g, fs, i, length, n);
    } else if n == 0 {
      ReadNothing(g, fs, i, o);
    } else {
      var c, r, m := ReadRound(g, fs, i, length, o, n);
      var fs1 := ReadChunk(g, fs, c, r, m).0;
      StoreKeepsShape(g, fs, fs1.store, i, length);
      ReadEnds(g, fs1, i, length, o + m, n - m);
    }
  }

  /** A read of a file without holes runs past the written end of its last chunk
      exactly when it starts past the file's end and its offset still falls into
      that chunk; it has brought the chunk's bank into the cache by then */
  lemma ReadOverruns(g: Geometry, fs: Fs, i: nat, length: nat, o: nat, n: nat)
    requires FsOk(g, fs) && i in fs.inodes && NoHoles(g, fs, i, length) && n > 0
    ensures ReadLoop(g, fs, i, o, n).1.None? <==> length < o && From(g, Div(o, g.chunk)) < length
    ensures ReadLoop(g, fs, i, o, n).1.None? ==>
              HasSlot(g, fs, i, Div(o, g.chunk))
              && var b := BankOf(g, ChunkOf(g, fs, i, Div(o, g.chunk)));
                 |fs.store.lines| == g.lines
                 && ReadLoop(g, fs, i, o, n).0
                    == fs.(store := if Hit(g, fs.store, b) then fs.store else Expel(g, fs.store, b))
    ensures o > length && From(g, Div(o, g.chunk)) >= length ==> ReadLoop(g, fs, i, o, n).1 == Some([])
  {
    hide Owned, Sized, SlabOk, StoreOk, NoHoles, BytesAre, ReadChunk, IndexForRead, KeepsOthers;
    ReadIndexed(g, fs, i, length, o);
    InChunk(g, o);
    if o <= length {
      ReadEnds(g, fs, i, length, o, n);
    } else if IndexForRead(g, fs, i, o).Some? {
      var (c, r) := IndexForRead(g, fs, i, o).value;
      ReadIndexOk(g, fs, i, o);
      VisitForNothing(g, fs, c, r);
      assert r > fs.sizes[c];
    }
  }

  lemma VisitForNothing(g: Geometry, fs: Fs, c: nat, r: nat)
    requires FsOk(g, fs) && c < g.Chunks() && r <= g.chunk
    ensures |fs.store.lines| == g.lines
    ensures ReadChunk(g, fs, c, r, 0).0
         == fs.(store := if Hit(g, fs.store, BankOf(g, c)) then fs.store else Expel(g, fs.store, BankOf(g, c)))
  {
    hide Owned, Sized, SlabOk;
  }

  // ----- creating and removing -----

  /** get_free_inode: the first inode of the slab, or a new one at an address not
      in use */
  function GetFreeInode(fs: Fs, addr: nat): (Fs, nat) {
    if fs.slab != [] then (fs.(slab := fs.slab[1..]), fs.slab[0])
    else (fs.(inodes := fs.inodes[addr := Inode(0, map[], [])]), addr)
  }

  lemma CreateKeeps(g: Geometry, fs: Fs, addr: nat)
    requires FsOk(g, fs) && addr !in fs.inodes
    ensures var (fs', i) := GetFreeInode(fs, addr);
            && FsOk(g, fs') && i in fs'.inodes && i !in fs'.slab && (i in fs.slab || i == addr)
            && fs'.inodes[i] == Inode(0, map[], []) && fs'.store == fs.store && fs'.sizes == fs.sizes
            && (forall k :: k in fs.inodes ==> k in fs'.inodes && fs'.inodes[k] == fs.inodes[k])
            && (forall k :: k in fs'.slab ==> k in fs.slab)
  {
    var (fs', i) := GetFreeInode(fs, addr);
    forall d | 0 <= d < g.Chunks() ensures ChunkOwned(fs', d) {
      assert ChunkOwned(fs, d);
    }
    forall k, t | k in fs'.inodes && t in fs'.inodes[k].index ensures SlotOwned(g, fs', k, t) {
      assert SlotOwned(g, fs, k, t);
    }
    forall k | k in fs'.inodes ensures ListOwned(g, fs', k) {
      if k in fs.inodes {
        assert ListOwned(g, fs, k);
      }
    }
    if fs.slab != [] {
      assert fs.slab == [i] + fs'.slab;
    }
  }

  lemma NewFileEmpty(g: Geometry, fs: Fs, i: nat)
    requires g.Ok() && i in fs.inodes && fs.inodes[i] == Inode(0, map[], [])
    ensures FileIs(g, fs, i, [])
  {
  }

  lemma SameFile(g: Geometry, fs: Fs, fs': Fs, k: nat, h: Bytes)
    requires FileIs(g, fs, k, h) && k in fs'.inodes && fs'.inodes[k] == fs.inodes[k] && fs'.store == fs.store
    requires |fs'.sizes| == |fs.sizes|
    requires forall n: nat :: HasSlot(g, fs, k, n) && ChunkOf(g, fs, k, n) < |fs.sizes| ==>
      fs'.sizes[ChunkOf(g, fs, k, n)] == fs.sizes[ChunkOf(g, fs, k, n)]
    ensures FileIs(g, fs', k, h)
  {
    forall n: nat | HasSlot(g, fs', k, n) ensures ChunkFilled(g, fs', k, n, |h|) {
      assert HasSlot(g, fs, k, n) && ChunkFilled(g, fs, k, n, |h|);
    }
    forall n: nat | n < g.MaxChunks() ensures HasSlot(g, fs', k, n) <==> From(g, n) < |h| {
      assert HasSlot(g, fs', k, n) <==> HasSlot(g, fs, k, n);
    }
    forall p: nat | p < |h| ensures ByteIs(g, fs', k, p, h[p]) {
      assert ByteIs(g, fs, k, p, h[p]);
    }
  }

  /** One round of the loop of reset_indoe: the slot the back pointer names is
      emptied and the chunk given back */
  function Release(fs: Fs, c: nat): Fs
    requires c < |fs.bitmap| == |fs.sizes| == |fs.backs| && fs.backs[c].Some? && fs.backs[c].value.ino in fs.inodes
  {
    var o := fs.backs[c].value;
    var ind := fs.inodes[o.ino];
    fs.(inodes := fs.inodes[o.ino := ind.(index := ind.index - {o.slot})],
        backs := fs.backs[c := None], sizes := fs.sizes[c := 0], bitmap := fs.bitmap[c := false])
  }

  ghost predicate Releasable(g: Geometry, fs: Fs, i: nat, l: seq<nat>) {
    && |fs.bitmap| == |fs.sizes| == |fs.backs| == g.Chunks()
    && i in fs.inodes && Distinct(l) && Below(l, g.Chunks())
    && forall k :: 0 <= k < |l| ==> fs.backs[l[k]].Some? && fs.backs[l[k]].value.ino == i
  }

  lemma ReleaseOne(g: Geometry, fs: Fs, i: nat, l: seq<nat>)
    requires Releasable(g, fs, i, l) && l != []
    ensures Releasable(g, Release(fs, l[0]), i, l[1..])
  {
  }

  function ReleaseAll(g: Geometry, fs: Fs, i: nat, l: seq<nat>): Fs
    requires Releasable(g, fs, i, l)
    decreases |l|
  {
    if l == [] then fs
    else
      ReleaseOne(g, fs, i, l);
      ReleaseAll(g, Release(fs, l[0]), i, l[1..])
  }

  /** reset_indoe for a file */
  function Reset(g: Geometry, fs: Fs, i: nat): Fs
    requires FsOk(g, fs) && i in fs.inodes
  {
    assert ListOwned(g, fs, i);
    var ind := fs.inodes[i];
    var fs1 := ReleaseAll(g, fs.(inodes := fs.inodes[i := ind.(size := 0, contexts := [])]), i, ind.contexts);
    fs1.(slab := fs1.slab + [i])
  }

  /** Closed form of the reset loop: exactly the listed chunks are given back */
  lemma {:induction false} ReleaseAllChunks(g: Geometry, fs: Fs, i: nat, l: seq<nat>)
    requires Releasable(g, fs, i, l)
    ensures var fs' := ReleaseAll(g, fs, i, l);
            && |fs'.bitmap| == |fs'.sizes| == |fs'.backs| == g.Chunks()
            && (forall c :: 0 <= c < g.Chunks() ==>
                  if c in l then !fs'.bitmap[c] && fs'.sizes[c] == 0 && fs'.backs[c] == None
                  else fs'.bitmap[c] == fs.bitmap[c] && fs'.sizes[c] == fs.sizes[c] && fs'.backs[c] == fs.backs[c])
            && fs'.slab == fs.slab && fs'.cursor == fs.cursor && fs'.store == fs.store
    decreases |l|
  {
    if l != [] {
      ReleaseOne(g, fs, i, l);
      ReleaseAllChunks(g, Release(fs, l[0]), i, l[1..]);
      assert forall c :: c in l <==> c == l[0] || c in l[1..];
    }
  }

  /** The inode keeps exactly the slots of the other chunks; no other inode changes */
  lemma {:induction false} ReleaseAllSlots(g: Geometry, fs: Fs, i: nat, l: seq<nat>)
    requires Releasable(g, fs, i, l)
    ensures var fs' := ReleaseAll(g, fs, i, l);
            && fs'.inodes.Keys == fs.inodes.Keys
            && (forall k :: k in fs.inodes && k != i ==> fs'.inodes[k] == fs.inodes[k])
            && fs'.inodes[i].size == fs.inodes[i].size && fs'.inodes[i].contexts == fs.inodes[i].contexts
            && (forall s :: s in fs'.inodes[i].index <==> s in fs.inodes[i].index && !Listed(fs, i, s, l))
            && (forall s :: s in fs'.inodes[i].index ==> fs'.inodes[i].index[s] == fs.inodes[i].index[s])
    decreases |l|
  {
    if l != [] {
      var fs1 := Release(fs, l[0]);
      ReleaseOne(g, fs, i, l);
      ReleaseAllSlots(g, fs1, i, l[1..]);
      assert fs1.inodes.Keys == fs.inodes.Keys + {i};
      forall s ensures Listed(fs, i, s, l) <==> fs.backs[l[0]] == Some(Owner(i, s)) || Listed(fs1, i, s, l[1..]) {
        assert forall k :: 0 <= k < |l| - 1 ==> l[1..][k] == l[k + 1] && fs1.backs[l[k + 1]] == fs.backs[l[k + 1]];
      }
    }
  }

  /** Some listed chunk points back to slot s of inode i */
  ghost predicate Listed(fs: Fs, i: nat, s: Slot, l: seq<nat>)
    requires Below(l, |fs.backs|)
  {
    exists k :: 0 <= k < |l| && fs.backs[l[k]] == Some(Owner(i, s))
  }

  lemma {:induction false} SumSame(contexts: seq<nat>, sizes: seq<nat>, sizes': seq<nat>)
    requires Below(contexts, |sizes|) && |sizes'| == |sizes|
    requires forall k :: 0 <= k < |contexts| ==> sizes'[contexts[k]] == sizes[contexts[k]]
    ensures SumSizes(contexts, sizes') == SumSizes(contexts, sizes)
    decreases |contexts|
  {
    if contexts != [] {
      SumSame(contexts[1..], sizes, sizes');
    }
  }

  /** The chunks of another inode's list are not in this one's */
  lemma ListsApart(g: Geometry, fs: Fs, i: nat, k: nat, c: nat)
    requires Owned(g, fs) && i in fs.inodes && k in fs.inodes && i != k && c in fs.inodes[k].contexts
    ensures c < g.Chunks() && c !in fs.inodes[i].contexts
  {
    assert ListOwned(g, fs, i) && ListOwned(g, fs, k);
  }

  /** The state after the loop of reset_indoe, before the inode joins the slab */
  ghost function Emptied(g: Geometry, fs: Fs, i: nat): Fs
    requires FsOk(g, fs) && i in fs.inodes
  {
    assert ListOwned(g, fs, i);
    ReleaseAll(g, fs.(inodes := fs.inodes[i := fs.inodes[i].(size := 0, contexts := [])]), i, fs.inodes[i].contexts)
  }

  lemma EmptiedShape(g: Geometry, fs: Fs, i: nat)
    requires FsOk(g, fs) && i in fs.inodes
    ensures var fs', l := Emptied(g, fs, i), fs.inodes[i].contexts;
            && Arrays(g, fs') && fs'.store == fs.store && fs'.slab == fs.slab
            && fs'.inodes.Keys == fs.inodes.Keys
            && fs'.inodes[i] == Inode(0, map[], [])
            && (forall k :: k in fs.inodes && k != i ==> fs'.inodes[k] == fs.inodes[k])
            && (forall c :: 0 <= c < g.Chunks() ==>
                  if c in l then !fs'.bitmap[c] && fs'.sizes[c] == 0 && fs'.backs[c] == None
                  else fs'.bitmap[c] == fs.bitmap[c] && fs'.sizes[c] == fs.sizes[c] && fs'.backs[c] == fs.backs[c])
  {
    assert ListOwned(g, fs, i);
    var l := fs.inodes[i].contexts;
    var fs1 := fs.(inodes := fs.inodes[i := fs.inodes[i].(size := 0, contexts := [])]);
    ReleaseAllChunks(g, fs1, i, l);
    ReleaseAllSlots(g, fs1, i, l);
    var fs' := Emptied(g, fs, i);
    assert fs1.inodes.Keys == fs.inodes.Keys + {i};
    forall s | s in fs.inodes[i].index ensures s !in fs'.inodes[i].index {
      var c := fs.inodes[i].index[s];
      assert SlotOwned(g, fs, i, s) && ChunkOwned(fs, c);
      var k :| 0 <= k < |l| && l[k] == c;
      assert fs1.backs[l[k]] == Some(Owner(i, s));
    }
    assert fs'.inodes[i].index.Keys == {};
  }

  lemma ResetChunk(g: Geometry, fs: Fs, i: nat, c: nat)
    requires FsOk(g, fs) && i in fs.inodes && c < g.Chunks()
    ensures Arrays(g, Reset(g, fs, i)) && ChunkOwned(Reset(g, fs, i), c)
  {
    EmptiedShape(g, fs, i);
    assert ChunkOwned(fs, c);
  }

  lemma ResetSlot(g: Geometry, fs: Fs, i: nat, k: nat, t: Slot)
    requires FsOk(g, fs) && i in fs.inodes
    requires k in Reset(g, fs, i).inodes && t in Reset(g, fs, i).inodes[k].index
    ensures SlotOwned(g, Reset(g, fs, i), k, t)
  {
    EmptiedShape(g, fs, i);
    assert SlotOwned(g, fs, k, t);
    assert ChunkOwned(fs, fs.inodes[k].index[t]);
    ListsApart(g, fs, i, k, fs.inodes[k].index[t]);
  }

  lemma ResetList(g: Geometry, fs: Fs, i: nat, k: nat)
    requires FsOk(g, fs) && i in fs.inodes && k in fs.inodes
    ensures k in Reset(g, fs, i).inodes && ListOwned(g, Reset(g, fs, i), k)
  {
    EmptiedShape(g, fs, i);
    assert ListOwned(g, fs, k);
    var l := fs.inodes[k].contexts;
    if k != i {
      forall j | 0 <= j < |l| ensures l[j] !in fs.inodes[i].contexts {
        ListsApart(g, fs, i, k, l[j]);
      }
    }
  }

  lemma ResetOwned(g: Geometry, fs: Fs, i: nat)
    requires FsOk(g, fs) && i in fs.inodes
    ensures Owned(g, Reset(g, fs, i))
  {
    hide FsOk, Reset, ChunkOwned, SlotOwned, ListOwned;
    var fs' := Reset(g, fs, i);
    ResetKeys(g, fs, i);
    forall c | 0 <= c < g.Chunks() ensures ChunkOwned(fs', c) {
      ResetChunk(g, fs, i, c);
    }
    forall k, t | k in fs'.inodes && t in fs'.inodes[k].index ensures SlotOwned(g, fs', k, t) {
      ResetSlot(g, fs, i, k, t);
    }
    forall k | k in fs'.inodes ensures ListOwned(g, fs', k) {
      ResetList(g, fs, i, k);
    }
  }

  lemma ResetKeys(g: Geometry, fs: Fs, i: nat)
    requires FsOk(g, fs) && i in fs.inodes
    ensures Reset(g, fs, i).inodes.Keys == fs.inodes.Keys && Arrays(g, Reset(g, fs, i))
  {
    EmptiedShape(g, fs, i);
  }

  /** A reset empties every slot of the inode, gives exactly its chunks back to the
      bitmap and puts it into the slab; ownership and sizes stay right */
  lemma ResetKeeps(g: Geometry, fs: Fs, i: nat)
    requires FsOk(g, fs) && i in fs.inodes && i !in fs.slab
    ensures var fs' := Reset(g, fs, i);
            && FsOk(g, fs') && i in fs'.inodes && fs'.inodes[i] == Inode(0, map[], []) && fs'.slab == fs.slab + [i]
            && (forall c :: 0 <= c < g.Chunks() ==>
                  (fs'.bitmap[c] <==> fs.bitmap[c] && c !in fs.inodes[i].contexts))
  {
    hide Owned, StoreOk;
    ResetOwned(g, fs, i);
    ResetSized(g, fs, i);
    EmptiedShape(g, fs, i);
  }

  lemma ResetSized(g: Geometry, fs: Fs, i: nat)
    requires FsOk(g, fs) && i in fs.inodes && Owned(g, Reset(g, fs, i))
    ensures Sized(g, Reset(g, fs, i))
  {
    EmptiedShape(g, fs, i);
    var fs' := Reset(g, fs, i);
    forall k | k in fs'.inodes ensures fs'.inodes[k].size == SumSizes(fs'.inodes[k].contexts, fs'.sizes) {
      if k != i {
        assert ListOwned(g, fs, k);
        forall j | 0 <= j < |fs.inodes[k].contexts| ensures fs.inodes[k].contexts[j] !in fs.inodes[i].contexts {
          ListsApart(g, fs, i, k, fs.inodes[k].contexts[j]);
        }
        SumSame(fs.inodes[k].contexts, fs.sizes, fs'.sizes);
      }
    }
  }
}
