/** What the file layer computes, as functions of its state: chunk allocation,
    the inode index, writing, reading and resetting a file. */
module FileSpec {
  import opened Basics
  import opened FileIndex
  import opened BankCache

  /** Where a chunk's back pointer points: an index slot of an inode */
  datatype Owner = Owner(ino: nat, slot: Slot)

  /** index holds the slots that are not NULL, contexts the inode's context list */
  datatype Inode = Inode(size: int, index: map<Slot, nat>, contexts: seq<nat>)

  /** Context c describes chunk c: sizes[c] is its size, backs[c] its back pointer.
      slab is the list of free inodes. */
  datatype Fs = Fs(inodes: map<nat, Inode>, slab: seq<nat>,
                   bitmap: seq<bool>, sizes: seq<nat>, backs: seq<Option<Owner>>, cursor: nat,
                   store: Store)

  // ----- the invariant -----

  ghost function SumSizes(contexts: seq<nat>, sizes: seq<nat>): nat
    requires Below(contexts, |sizes|)
  {
    if contexts == [] then 0 else sizes[contexts[0]] + SumSizes(contexts[1..], sizes)
  }

  ghost predicate Arrays(g: Geometry, fs: Fs) {
    && |fs.bitmap| == |fs.sizes| == |fs.backs| == g.Chunks()
    && fs.cursor < g.Chunks()
  }

  /** A chunk is marked in the bitmap exactly when it has a back pointer, and the
      back pointer names the one slot that points to it, in the inode whose list
      it is in */
  ghost predicate ChunkOwned(fs: Fs, c: nat)
    requires c < |fs.bitmap| == |fs.sizes| == |fs.backs|
  {
    match fs.backs[c]
    case None => !fs.bitmap[c] && fs.sizes[c] == 0
    case Some(o) =>
      && fs.bitmap[c]
      && o.ino in fs.inodes
      && o.slot in fs.inodes[o.ino].index && fs.inodes[o.ino].index[o.slot] == c
      && c in fs.inodes[o.ino].contexts
  }

  ghost predicate SlotOwned(g: Geometry, fs: Fs, i: nat, s: Slot)
    requires i in fs.inodes && s in fs.inodes[i].index
  {
    var c := fs.inodes[i].index[s];
    SlotOk(g, s) && c < |fs.backs| && fs.backs[c] == Some(Owner(i, s))
  }

  ghost predicate ListOwned(g: Geometry, fs: Fs, i: nat)
    requires i in fs.inodes
  {
    var l := fs.inodes[i].contexts;
    && Distinct(l)
    && Below(l, |fs.backs|)
    && (forall k :: 0 <= k < |l| ==> fs.backs[l[k]].Some? && fs.backs[l[k]].value.ino == i)
  }

  ghost predicate Owned(g: Geometry, fs: Fs) {
    && Arrays(g, fs)
    && (forall c :: 0 <= c < g.Chunks() ==> ChunkOwned(fs, c))
    && (forall i, s :: i in fs.inodes && s in fs.inodes[i].index ==> SlotOwned(g, fs, i, s))
    && (forall i :: i in fs.inodes ==> ListOwned(g, fs, i))
  }

  /** Sizes stay within chunks and add up to the inode's size */
  ghost predicate Sized(g: Geometry, fs: Fs)
    requires Owned(g, fs)
  {
    && (forall c :: 0 <= c < g.Chunks() ==> fs.sizes[c] <= g.chunk)
    && (forall i :: i in fs.inodes ==> fs.inodes[i].size == SumSizes(fs.inodes[i].contexts, fs.sizes))
  }

  ghost predicate SlabOk(fs: Fs) {
    && Distinct(fs.slab)
    && (forall i :: i in fs.slab ==> i in fs.inodes && fs.inodes[i] == Inode(0, map[], []))
  }

  ghost predicate FsOk(g: Geometry, fs: Fs) {
    g.Ok() && Arrays(g, fs) && Owned(g, fs) && Sized(g, fs) && SlabOk(fs) && StoreOk(g, fs.store)
  }

  // ----- chunk allocation -----

  /** The chunk looked at after passing over i chunks, going around */
  function Probe(cursor: nat, i: nat, n: nat): (c: nat)
    requires n > 0
    ensures c < n
  {
    Mod(cursor + i, n)
  }

  /** How many chunks getFreeChunk passes over, from the cursor on and around, or
      all of them */
  function Skipped(bitmap: seq<bool>, cursor: nat, k: nat): (j: nat)
    requires k <= |bitmap|
    ensures k <= j <= |bitmap|
    ensures forall i :: k <= i < j ==> bitmap[Probe(cursor, i, |bitmap|)]
    ensures j < |bitmap| ==> !bitmap[Probe(cursor, j, |bitmap|)]
    decreases |bitmap| - k
  {
    if k == |bitmap| || !bitmap[Probe(cursor, k, |bitmap|)] then k else Skipped(bitmap, cursor, k + 1)
  }

  /** get_free_context and the linking that follows it in level3_local_index */
  function Allocate(fs: Fs, i: nat, s: Slot): Option<(Fs, nat)>
    requires i in fs.inodes && |fs.bitmap| == |fs.backs|
  {
    var n := |fs.bitmap|;
    var j := Skipped(fs.bitmap, fs.cursor, 0);
    if j == n then None
    else
      var c := Probe(fs.cursor, j, n);
      var ind := fs.inodes[i];
      Some((fs.(bitmap := fs.bitmap[c := true],
                backs := fs.backs[c := Some(Owner(i, s))],
                cursor := c,
                inodes := fs.inodes[i := ind.(index := ind.index[s := c], contexts := [c] + ind.contexts)]), c))
  }

  /** level3_local_index for writing: the context of a file offset, allocated if
      its slot is empty; nothing on a full disk or past the largest file, where
      the program dereferences a null pointer */
  function IndexForWrite(g: Geometry, fs: Fs, i: nat, offset: nat): Option<(Fs, nat, nat)>
    requires g.Ok() && i in fs.inodes && |fs.bitmap| == |fs.backs|
  {
    match Locate(g, offset)
    case None => None
    case Some((s, r)) =>
      if s in fs.inodes[i].index then Some((fs, fs.inodes[i].index[s], r))
      else
        match Allocate(fs, i, s)
        case None => None
        case Some((fs', c)) => Some((fs', c, r))
  }

  function IndexForRead(g: Geometry, fs: Fs, i: nat, offset: nat): Option<(nat, nat)>
    requires g.Ok() && i in fs.inodes
  {
    match Locate(g, offset)
    case None => None
    case Some((s, r)) => if s in fs.inodes[i].index then Some((fs.inodes[i].index[s], r)) else None
  }

  lemma EveryChunkVisited(n: nat, cursor: nat, c: nat)
    requires cursor < n && c < n
    ensures exists j :: 0 <= j < n && Probe(cursor, j, n) == c
  {
    var j := if c >= cursor then c - cursor else c + n - cursor;
    DivideUnique(cursor + j, if c >= cursor then 0 else 1, c, n);
    assert Probe(cursor, j, n) == c;
  }

  /** Allocation fails exactly when no chunk is free */
  lemma AllocatesIffFree(g: Geometry, fs: Fs, i: nat, s: Slot)
    requires Arrays(g, fs) && i in fs.inodes
    ensures Allocate(fs, i, s).None? <==> forall c :: 0 <= c < g.Chunks() ==> fs.bitmap[c]
  {
    var n := g.Chunks();
    var j := Skipped(fs.bitmap, fs.cursor, 0);
    if j == n {
      forall c | 0 <= c < n ensures fs.bitmap[c] {
        EveryChunkVisited(n, fs.cursor, c);
      }
    }
  }

  /** The chunk taken is the first free one from the cursor on, going around once;
      it is marked, the cursor stays on it, and it becomes the first context of the
      inode and the chunk of the slot */
  lemma AllocatesFirstFree(g: Geometry, fs: Fs, i: nat, s: Slot)
    requires Arrays(g, fs) && fs.cursor < g.Chunks() && i in fs.inodes && Allocate(fs, i, s).Some?
    ensures var n, (fs', c) := g.Chunks(), Allocate(fs, i, s).value;
            && c < n && !fs.bitmap[c] && fs'.bitmap == fs.bitmap[c := true] && fs'.cursor == c
            && (forall d :: fs.cursor <= d < n && (d < c || c < fs.cursor) ==> fs.bitmap[d])
            && (forall d :: 0 <= d < c < fs.cursor ==> fs.bitmap[d])
            && i in fs'.inodes && fs'.inodes[i].contexts == [c] + fs.inodes[i].contexts
            && fs'.inodes[i].index == fs.inodes[i].index[s := c] && fs'.inodes[i].size == fs.inodes[i].size
            && fs' == fs.(bitmap := fs'.bitmap, cursor := c, inodes := fs.inodes[i := fs'.inodes[i]],
                          backs := fs.backs[c := Some(Owner(i, s))])
  {
    var n, c := g.Chunks(), Allocate(fs, i, s).value.1;
    var j := Skipped(fs.bitmap, fs.cursor, 0);
    WhereProbed(n, fs.cursor, j);
    forall d | 0 <= d < n && (if c < fs.cursor then fs.cursor <= d || d < c else fs.cursor <= d < c)
      ensures fs.bitmap[d]
    {
      var i := if d >= fs.cursor then d - fs.cursor else d + n - fs.cursor;
      DivideUnique(fs.cursor + i, if d >= fs.cursor then 0 else 1, d, n);
      assert Probe(fs.cursor, i, n) == d;
    }
  }

  lemma WhereProbed(n: nat, cursor: nat, j: nat)
    requires cursor < n && j < n
    ensures Probe(cursor, j, n) == if cursor + j < n then cursor + j else cursor + j - n
  {
    var once := if cursor + j < n then 0 else 1;
    DivideUnique(cursor + j, once, cursor + j - once * n, n);
  }

  // ----- allocation keeps the invariant -----

  lemma {:induction false} SumUntouched(contexts: seq<nat>, sizes: seq<nat>, c: nat, v: nat)
    requires c < |sizes| && c !in contexts && Below(contexts, |sizes|)
    ensures SumSizes(contexts, sizes[c := v]) == SumSizes(contexts, sizes)
  {
    if contexts != [] {
      SumUntouched(contexts[1..], sizes, c, v);
    }
  }

  lemma {:induction false} SumTouched(contexts: seq<nat>, sizes: seq<nat>, c: nat, v: nat)
    requires c in contexts && Distinct(contexts) && Below(contexts, |sizes|)
    ensures SumSizes(contexts, sizes[c := v]) == SumSizes(contexts, sizes) - sizes[c] + v
  {
    if contexts[0] == c {
      assert c !in contexts[1..];
      SumUntouched(contexts[1..], sizes, c, v);
    } else {
      SumTouched(contexts[1..], sizes, c, v);
    }
  }

  lemma AllocateLinks(g: Geometry, fs: Fs, i: nat, s: Slot)
    requires Owned(g, fs) && i in fs.inodes && SlotOk(g, s) && s !in fs.inodes[i].index
    requires Allocate(fs, i, s).Some?
    ensures var (fs', c) := Allocate(fs, i, s).value;
            && c < g.Chunks() && fs.backs[c].None? && !fs.bitmap[c] && fs.sizes[c] == 0
            && c !in fs.inodes[i].contexts
            && Owned(g, fs')
  {
    var (fs', c) := Allocate(fs, i, s).value;
    hide Skipped, Probe;
    assert ChunkOwned(fs, c);
    assert ListOwned(g, fs, i);
    forall d | 0 <= d < g.Chunks() ensures ChunkOwned(fs', d) {
      assert ChunkOwned(fs, d);
    }
    forall k, t | k in fs'.inodes && t in fs'.inodes[k].index ensures SlotOwned(g, fs', k, t) {
      assert !(k == i && t == s) ==> SlotOwned(g, fs, k, t);
    }
    forall k | k in fs'.inodes ensures ListOwned(g, fs', k) {
      assert ListOwned(g, fs, k);
    }
  }

  /** Linking a free chunk into an empty slot keeps ownership and sizes */
  lemma AllocateKeeps(g: Geometry, fs: Fs, i: nat, s: Slot)
    requires FsOk(g, fs) && i in fs.inodes && i !in fs.slab && SlotOk(g, s) && s !in fs.inodes[i].index
    requires Allocate(fs, i, s).Some?
    ensures FsOk(g, Allocate(fs, i, s).value.0)
  {
    AllocateLinks(g, fs, i, s);
    var (fs', c) := Allocate(fs, i, s).value;
    assert fs'.inodes[i].contexts[1..] == fs.inodes[i].contexts;
    assert ListOwned(g, fs, i) && ListOwned(g, fs', i);
  }

  // ----- writing -----

  /** The bank of chunk c and where the chunk starts in it */
  function BankOf(g: Geometry, c: nat): (b: nat)
    requires g.Ok()
  {
    MulPositive(g.chunk, g.perBank);
    Div(c * g.chunk, g.Bank())
  }

  function StartOf(g: Geometry, c: nat): nat
    requires g.Ok()
  {
    MulPositive(g.chunk, g.perBank);
    Mod(c * g.chunk, g.Bank())
  }

  /** Raise a context's size, and the inode's with it */
  function GrowTo(fs: Fs, i: nat, c: nat, size: nat): Fs
    requires i in fs.inodes && c < |fs.sizes|
  {
    if size <= fs.sizes[c] then fs
    else
      var ind := fs.inodes[i];
      fs.(sizes := fs.sizes[c := size], inodes := fs.inodes[i := ind.(size := ind.size + size - fs.sizes[c])])
  }

  lemma GrowKeeps(g: Geometry, fs: Fs, i: nat, c: nat, size: nat)
    requires FsOk(g, fs) && i in fs.inodes && i !in fs.slab
    requires c < g.Chunks() && fs.backs[c].Some? && fs.backs[c].value.ino == i && size <= g.chunk
    ensures FsOk(g, GrowTo(fs, i, c, size))
  {
    if size > fs.sizes[c] {
      var fs' := GrowTo(fs, i, c, size);
      assert ChunkOwned(fs, c) && ListOwned(g, fs, i);
      forall d | 0 <= d < g.Chunks() ensures ChunkOwned(fs', d) {
        assert ChunkOwned(fs, d);
      }
      forall k, t | k in fs'.inodes && t in fs'.inodes[k].index ensures SlotOwned(g, fs', k, t) {
        assert SlotOwned(g, fs, k, t);
      }
      forall k | k in fs'.inodes ensures ListOwned(g, fs', k) {
        assert ListOwned(g, fs, k);
      }
      SumTouched(fs.inodes[i].contexts, fs.sizes, c, size);
      forall k | k in fs'.inodes && k != i
        ensures fs'.inodes[k].size == SumSizes(fs'.inodes[k].contexts, fs'.sizes)
      {
        assert ListOwned(g, fs, k);
        SumUntouched(fs.inodes[k].contexts, fs.sizes, c, size);
      }
    }
  }

  /** One round of the loop of dhmp_fs_write: store the segment, then raise sizes */
  function WriteChunk(g: Geometry, fs: Fs, i: nat, c: nat, r: nat, seg: Bytes, again: Visit): Fs
    requires FsOk(g, fs) && i in fs.inodes && c < g.Chunks() && r + |seg| <= g.chunk
  {
    ChunkInBank(g, c);
    var store := Access(g, fs.store, BankOf(g, c), seg, StartOf(g, c) + r, Write, again).0;
    GrowTo(fs.(store := store), i, c, r + |seg|)
  }

  lemma WriteChunkKeeps(g: Geometry, fs: Fs, i: nat, c: nat, r: nat, seg: Bytes, again: Visit)
    requires FsOk(g, fs) && i in fs.inodes && i !in fs.slab && r + |seg| <= g.chunk
    requires c < g.Chunks() && fs.backs[c].Some? && fs.backs[c].value.ino == i
    ensures FsOk(g, WriteChunk(g, fs, i, c, r, seg, again))
    ensures Healthy(fs.store) ==> Healthy(WriteChunk(g, fs, i, c, r, seg, again).store)
  {
    ChunkInBank(g, c);
    WriteExact(g, fs.store, BankOf(g, c), seg, StartOf(g, c) + r, again);
    hide Access;
    var fs1 := fs.(store := Access(g, fs.store, BankOf(g, c), seg, StartOf(g, c) + r, Write, again).0);
    StoreChange(g, fs, fs1.store);
    hide FsOk, GrowTo;
    assert WriteChunk(g, fs, i, c, r, seg, again) == GrowTo(fs1, i, c, r + |seg|);
    GrowKeeps(g, fs1, i, c, r + |seg|);
  }

  lemma StoreChange(g: Geometry, fs: Fs, store: Store)
    requires FsOk(g, fs) && StoreOk(g, store)
    ensures FsOk(g, fs.(store := store))
  {
    var fs' := fs.(store := store);
    forall d | 0 <= d < g.Chunks() ensures ChunkOwned(fs', d) {
      assert ChunkOwned(fs, d);
    }
    forall k, t | k in fs'.inodes && t in fs'.inodes[k].index ensures SlotOwned(g, fs', k, t) {
      assert SlotOwned(g, fs, k, t);
    }
    forall k | k in fs'.inodes ensures ListOwned(g, fs', k) {
      assert ListOwned(g, fs, k);
    }
  }

  /** The same files, facing these outcomes of the remote calls to come */
  function Faced(fs: Fs, net: seq<Outcome>): Fs {
    fs.(store := Facing(fs.store, net))
  }

  lemma FacedOk(g: Geometry, fs: Fs, net: seq<Outcome>)
    requires FsOk(g, fs) && NetOk(g, net)
    ensures FsOk(g, Faced(fs, net)) && (AllWell(net) ==> Healthy(Faced(fs, net).store))
  {
    StoreChange(g, fs, Facing(fs.store, net));
  }

  /** What level3_local_index hands to the write loop */
  lemma IndexedOk(g: Geometry, fs: Fs, i: nat, offset: nat)
    requires FsOk(g, fs) && i in fs.inodes && i !in fs.slab && IndexForWrite(g, fs, i, offset).Some?
    ensures var (fs1, c, r) := IndexForWrite(g, fs, i, offset).value;
            && FsOk(g, fs1) && i in fs1.inodes && fs1.slab == fs.slab && fs1.store == fs.store
            && Div(offset, g.chunk) < g.MaxChunks()
            && r == Mod(offset, g.chunk)
            && c < g.Chunks()
            && fs1.backs[c] == Some(Owner(i, SlotOf(g, Div(offset, g.chunk))))
            && fs1.inodes.Keys == fs.inodes.Keys
  {
    LocateIsChunk(g, offset);
    var s := SlotOf(g, Div(offset, g.chunk));
    SlotOfIsOneToOne(g, Div(offset, g.chunk));
    if s in fs.inodes[i].index {
      assert SlotOwned(g, fs, i, s);
    } else {
      AllocateLinks(g, fs, i, s);
      AllocateKeeps(g, fs, i, s);
      assert fs.inodes.Keys + {i} == fs.inodes.Keys;
    }
  }

  function Smaller(a: nat, b: nat): nat {
    if a < b then a else b
  }

  /** The loop of dhmp_fs_write, chunk by chunk; nothing where it crashes. again
      is the type of the second cache visit after a miss. */
  function WriteLoop(g: Geometry, fs: Fs, i: nat, offset: nat, data: Bytes, again: Visit): (r: Option<Fs>)
    requires FsOk(g, fs) && i in fs.inodes && i !in fs.slab
    ensures r.Some? ==> FsOk(g, r.value) && i in r.value.inodes && r.value.slab == fs.slab
    ensures r.Some? && Healthy(fs.store) ==> Healthy(r.value.store)
    decreases |data|
  {
    if data == [] then Some(fs)
    else
      match IndexForWrite(g, fs, i, offset)
      case None => None
      case Some((fs1, c, r)) =>
        IndexedOk(g, fs, i, offset);
        var n := Smaller(|data|, g.chunk - r);
        WriteChunkKeeps(g, fs1, i, c, r, data[..n], again);
        WriteLoop(g, WriteChunk(g, fs1, i, c, r, data[..n], again), i, offset + n, data[n..], again)
  }

  // ----- reading -----

  /** The loop of dhmp_fs_read. Its size comparison is unsigned: where it reads past
      the written end of a chunk the bank is visited, and what is read is nothing
      the model knows. */
  function ReadLoop(g: Geometry, fs: Fs, i: nat, offset: nat, n: nat): (r: (Fs, Option<Bytes>))
    requires FsOk(g, fs) && i in fs.inodes
    ensures FsOk(g, r.0) && r.0 == fs.(store := r.0.store)
    ensures Healthy(fs.store) ==> Healthy(r.0.store)
    decreases n
  {
    if n == 0 then (fs, Some([]))
    else
      match IndexForRead(g, fs, i, offset)
      case None => (fs, Some([]))
      case Some((c, r)) =>
        ReadIndexOk(g, fs, i, offset);
        if r > fs.sizes[c] then (ReadChunk(g, fs, c, r, 0).0, None)
        else
          var m := Smaller(n, fs.sizes[c] - r);
          if m == 0 then (fs, Some([]))
          else
            var (fs1, seg) := ReadChunk(g, fs, c, r, m);
            var (fs2, rest) := ReadLoop(g, fs1, i, offset + m, n - m);
            (fs2, if rest.Some? then Some(seg + rest.value) else None)
  }

  lemma ReadIndexOk(g: Geometry, fs: Fs, i: nat, offset: nat)
    requires FsOk(g, fs) && i in fs.inodes
    ensures match IndexForRead(g, fs, i, offset)
            case None => Div(offset, g.chunk) < g.MaxChunks() ==>
              SlotOf(g, Div(offset, g.chunk)) !in fs.inodes[i].index
            case Some((c, r)) =>
              && Div(offset, g.chunk) < g.MaxChunks()
              && r == Mod(offset, g.chunk)
              && c < g.Chunks()
              && fs.backs[c] == Some(Owner(i, SlotOf(g, Div(offset, g.chunk))))
  {
    LocateIsChunk(g, offset);
    if Div(offset, g.chunk) < g.MaxChunks() {
      var s := SlotOf(g, Div(offset, g.chunk));
      assert s in fs.inodes[i].index ==> SlotOwned(g, fs, i, s);
    }
  }

  function ReadChunk(g: Geometry, fs: Fs, c: nat, r: nat, m: nat): (o: (Fs, Bytes))
    requires FsOk(g, fs) && c < g.Chunks() && r + m <= g.chunk
    ensures FsOk(g, o.0) && o.0 == fs.(store := o.0.store)
    ensures Healthy(fs.store) ==> Healthy(o.0.store)
  {
    ChunkInBank(g, c);
    var buf: Bytes := seq(m, k => 0);
    ReadExact(g, fs.store, BankOf(g, c), buf, StartOf(g, c) + r);
    var (store, bytes) := Access(g, fs.store, BankOf(g, c), buf, StartOf(g, c) + r, Read, Read);
    StoreChange(g, fs, store);
    (fs.(store := store), bytes)
  }
}
