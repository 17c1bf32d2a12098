/** The file layer as it runs: bitmap, contexts, index and cache are changed in
    place by loops. */
module FileClient {
  import opened Basics
  import opened FileIndex
  import opened BankCache
  import opened FileSpec
  import opened FileProofs
  import opened FileTheorems
  import opened FileRuns
  import opened FileHistory
  import opened CacheClient

  class FileSystem {
    const g: Geometry
    /** the type of a write's second cache visit, Read as shipped */
    const again: Visit
    const bitmap: array<bool>
    const sizes: array<nat>
    const backs: array<Option<Owner>>
    const cache: Cache
    var inodes: map<nat, Inode>
    var slab: seq<nat>
    var cursor: nat

    ghost function State(): Fs
      reads this, bitmap, sizes, backs, cache, cache.lines
    {
      Fs(inodes, slab, bitmap[..], sizes[..], backs[..], cursor, cache.State())
    }

    ghost predicate Valid()
      reads this, bitmap, sizes, backs, cache, cache.lines
    {
      cache.g == g && FsOk(g, State())
    }

    ghost function Repr(): set<object> {
      {this, bitmap, sizes, backs, cache, cache.lines}
    }

    /** The file layer after dhmp_init, with slabSize free inodes */
    constructor (g: Geometry, again: Visit, slabSize: nat)
      requires g.Ok()
      ensures Valid() && State() == InitialFs(g, slabSize) && this.again == again
      ensures fresh(Repr())
    {
      hide FsOk, InitialStore, StoreOk;
      this.g := g;
      this.again := again;
      MulPositive(g.perBank, g.banks);
      bitmap := new bool[g.Chunks()](_ => false);
      sizes := new nat[g.Chunks()](_ => 0);
      backs := new Option<Owner>[g.Chunks()](_ => None);
      cache := new Cache(g);
      var ids: seq<nat> := seq(slabSize, i requires 0 <= i < slabSize => i);
      slab := ids;
      inodes := map i | i in ids :: Inode(0, map[], []);
      cursor := 0;
      new;
      InitialHolds(g, slabSize);
      assert bitmap[..] == seq(g.Chunks(), _ => false);
      assert sizes[..] == seq(g.Chunks(), _ => 0);
      assert backs[..] == seq(g.Chunks(), _ => None);
    }

    /** getFreeChunk */
    method GetFreeChunk() returns (i: int)
      requires g.Ok() && bitmap.Length == g.Chunks() && cursor < g.Chunks()
      modifies bitmap, this`cursor
      ensures var j := Skipped(old(bitmap[..]), old(cursor), 0);
              if j == g.Chunks() then i == -1 && bitmap[..] == old(bitmap[..]) && cursor == old(cursor)
              else i == Probe(old(cursor), j, g.Chunks()) == cursor && bitmap[..] == old(bitmap[..])[cursor := true]
    {
      var n := bitmap.Length;
      var count := 0;
      DivideUnique(cursor, 0, cursor, n);
      while count < n && bitmap[cursor]
        invariant count <= n && bitmap[..] == old(bitmap[..])
        invariant cursor == Probe(old(cursor), count, n)
        invariant Skipped(bitmap[..], old(cursor), count) == Skipped(bitmap[..], old(cursor), 0)
      {
        NextProbe(old(cursor), count, n);
        cursor := Mod(cursor + 1, n);
        count := count + 1;
      }
      if count == n {
        WholeTurn(old(cursor), n);
        return -1;
      }
      bitmap[cursor] := true;
      i := cursor;
    }

    /** get_free_context and the linking of the context into slot s */
    method Link(i: nat, s: Slot) returns (c: Option<nat>)
      requires Valid() && i in inodes && i !in slab && SlotOk(g, s) && s !in inodes[i].index
      modifies bitmap, backs, this`cursor, this`inodes
      ensures Valid()
      ensures match Allocate(old(State()), i, s)
              case None => c == None && State() == old(State())
              case Some((fs, k)) => c == Some(k) && State() == fs
    {
      if Allocate(State(), i, s).Some? {
        AllocateKeeps(g, State(), i, s);
      }
      var k := GetFreeChunk();
      if k == -1 {
        return None;
      }
      backs[k] := Some(Owner(i, s));
      var ind := inodes[i];
      inodes := inodes[i := ind.(index := ind.index[s := k], contexts := [k] + ind.contexts)];
      c := Some(k);
    }

    /** level3_local_index: the slot by level, then its context, allocated on
        writing if the slot is empty; off' is the offset left in the chunk */
    method Level3LocalIndex(offset: nat, i: nat, onlyRead: bool) returns (c: Option<nat>, off': nat)
      requires Valid() && i in inodes && (!onlyRead ==> i !in slab)
      modifies bitmap, backs, this`cursor, this`inodes
      ensures Valid() && (onlyRead ==> State() == old(State()))
      ensures onlyRead ==>
                match IndexForRead(g, old(State()), i, offset)
                case None => c == None
                case Some((k, r)) => c == Some(k) && off' == r
      ensures !onlyRead ==>
                match IndexForWrite(g, old(State()), i, offset)
                case None => c == None
                case Some((fs, k, r)) => c == Some(k) && off' == r && State() == fs
    {
      LocatedOk(g, offset);
      off' := offset;
      var s: Slot;
      if off' < g.DirectEnd() {
        s := Direct(Div(off', g.chunk));
        off' := Mod(off', g.chunk);
      } else if off' < g.FirstEnd() {
        off' := off' - g.DirectEnd();
        s := First(Div(off', g.chunk));
        off' := Mod(off', g.chunk);
      } else if off' < g.SecondEnd() {
        off' := off' - g.FirstEnd();
        var j := Div(off', g.SecondUnit());
        off' := Mod(off', g.SecondUnit());
        s := Second(j, Div(off', g.chunk));
        off' := Mod(off', g.chunk);
      } else if off' < g.ThirdEnd() {
        off' := off' - g.SecondEnd();
        var k := Div(off', g.ThirdUnit());
        off' := Mod(off', g.ThirdUnit());
        var j := Div(off', g.SecondUnit());
        off' := Mod(off', g.SecondUnit());
        s := Third(k, j, Div(off', g.chunk));
        off' := Mod(off', g.chunk);
      } else {
        return None, off';
      }
      assert Locate(g, offset) == Some((s, off'));
      if s in inodes[i].index {
        c := Some(inodes[i].index[s]);
      } else if onlyRead {
        c := None;
      } else {
        c := Link(i, s);
      }
    }

    /** Raise the size of context c and of inode i by the same amount */
    method Grow(i: nat, c: nat, size: nat)
      requires Valid() && i in inodes && i !in slab && c < g.Chunks() && size <= g.chunk
      requires backs[c].Some? && backs[c].value.ino == i
      modifies sizes, this`inodes
      ensures Valid() && State() == GrowTo(old(State()), i, c, size)
    {
      GrowKeeps(g, State(), i, c, size);
      if size > sizes[c] {
        inodes := inodes[i := inodes[i].(size := inodes[i].size + (size - sizes[c]))];
        sizes[c] := size;
      }
    }

    /** One round of the loop of dhmp_fs_write once the context is known */
    method StoreSegment(i: nat, c: nat, r: nat, seg: Bytes)
      requires Valid() && i in inodes && i !in slab && c < g.Chunks() && r + |seg| <= g.chunk
      requires backs[c].Some? && backs[c].value.ino == i
      modifies sizes, this`inodes, cache`remote, cache`net, cache`log, cache.lines
      ensures Valid() && State() == WriteChunk(g, old(State()), i, c, r, seg, again)
    {
      hide Owned, Sized, SlabOk, Access;
      ChunkInBank(g, c);
      StoreOf(g, State());
      var bank := Div(c * g.chunk, g.Bank());
      var bankOffset := Mod(c * g.chunk, g.Bank());
      ghost var before := State();
      var _ := cache.WriteToCache(bank, seg, bankOffset + r, again);
      StoreChange(g, before, cache.State());
      Grow(i, c, r + |seg|);
    }

    /** One round of the loop of dhmp_fs_write: n bytes of rest go to the chunk at
        offset at */
    method WriteRound(i: nat, rest: Bytes, at: nat) returns (crashed: bool, n: nat)
      requires Valid() && i in inodes && i !in slab && rest != []
      modifies bitmap, sizes, backs, this`cursor, this`inodes, cache`remote, cache`net, cache`log, cache.lines
      ensures Valid()
      ensures if crashed then WriteLoop(g, old(State()), i, at, rest, again) == None
              else i in inodes && slab == old(slab) && 0 < n <= |rest|
                   && WriteLoop(g, old(State()), i, at, rest, again)
                      == WriteLoop(g, State(), i, at + n, rest[n..], again)
    {
      hide Owned, Sized, SlabOk, StoreOk, WriteChunk;
      n := 0;
      var c, r := Level3LocalIndex(at, i, false);
      if c == None {
        return true, 0;
      }
      IndexedOk(g, old(State()), i, at);
      var left := |rest|;
      if left >= g.chunk - r {
        n := g.chunk - r;
      } else {
        n := left;
      }
      WriteChunkFrame(g, State(), i, c.value, r, rest[..n], again);
      StoreSegment(i, c.value, r, rest[..n]);
      crashed := false;
    }

    /** dhmp_fs_write on an open file. A file without holes gets the bytes overlaid
        if every bank to be visited is resident, or if the second visit is a write and
        the remote calls come out well;
        the program crashes exactly where the loop of FileSpec has no result. */
    method Write(i: nat, buf: Bytes, offset: nat, net: seq<Outcome>) returns (crashed: bool)
      requires Valid() && i in inodes && i !in slab && NetOk(g, net)
      modifies bitmap, sizes, backs, this`cursor, this`inodes, cache`remote, cache`net, cache`log, cache.lines
      ensures Valid()
      ensures FsOk(g, Faced(old(State()), net))
      ensures match WriteLoop(g, Faced(old(State()), net), i, offset, buf, again)
              case None => crashed
              case Some(fs) => !crashed && State() == fs
      ensures forall f: Bytes ::
                FileIs(g, old(State()), i, f) && Writable(g, Faced(old(State()), net), i, f, offset, |buf|, again)
                ==> !crashed && FileIs(g, State(), i, Overlay(f, offset, buf))
    {
      hide FsOk, FileIs, Writable, WriteLoop;
      FacedFiles(g, State(), net);
      cache.Face(net);
      ghost var start := State();
      var at: nat, written: nat := offset, 0;
      crashed := false;
      assert buf[0..] == buf;
      while written < |buf|
        invariant written <= |buf| && Valid() && i in inodes && i !in slab
        invariant WriteLoop(g, State(), i, at, buf[written..], again) == WriteLoop(g, start, i, offset, buf, again)
      {
        var rest := buf[written..];
        var n: nat;
        crashed, n := WriteRound(i, rest, at);
        if crashed {
          break;
        }
        assert rest[n..] == buf[written + n..];
        written := written + n;
        at := at + n;
      }
      if !crashed {
        assert buf[written..] == [];
        WriteNothing(g, State(), i, at, again);
      }
      WriteOnAnyFile(g, start, i, offset, buf, again);
    }

    /** The part of a round of dhmp_fs_read that goes to the cache */
    method FetchSegment(c: nat, r: nat, m: nat) returns (seg: Bytes)
      requires Valid() && c < g.Chunks() && r + m <= g.chunk
      modifies cache`remote, cache`net, cache`log, cache.lines
      ensures Valid() && (State(), seg) == ReadChunk(g, old(State()), c, r, m)
    {
      ChunkInBank(g, c);
      StoreOf(g, State());
      ghost var before := State();
      var bank := Div(c * g.chunk, g.Bank());
      var bankOffset := Mod(c * g.chunk, g.Bank());
      seg := cache.ReadFromCache(bank, seq(m, k => 0), bankOffset + r);
      StoreChange(g, before, cache.State());
    }

    /** One round of the loop of dhmp_fs_read, with the test that ends it: no bytes
        at the end of the file, or over when it would read past the written end */
    method ReadRound(i: nat, left: nat, at: nat) returns (over: bool, seg: Bytes)
      requires Valid() && i in inodes
      modifies bitmap, backs, this`cursor, this`inodes, cache`remote, cache`net, cache`log, cache.lines
      ensures Valid() && i in inodes && |seg| <= left
      ensures over ==> ReadLoop(g, old(State()), i, at, left) == (State(), None)
      ensures !over && seg == [] ==> ReadLoop(g, old(State()), i, at, left) == (State(), Some([]))
      ensures !over && seg != [] ==>
        ReadLoop(g, old(State()), i, at, left) == Joined(seg, ReadLoop(g, State(), i, at + |seg|, left - |seg|))
    {
      hide Owned, Sized, SlabOk, StoreOk, ReadChunk;
      over, seg := false, [];
      if left == 0 {
        return;
      }
      var c, r := Level3LocalIndex(at, i, true);
      if c == None {
        return;
      }
      ReadIndexOk(g, old(State()), i, at);
      ReadSizeOk(g, old(State()), c.value);
      if r > sizes[c.value] {
        seg := FetchSegment(c.value, r, 0);
        return true, [];
      }
      var m := if left >= sizes[c.value] - r then sizes[c.value] - r else left;
      if m != 0 {
        ReadChunkLength(g, State(), c.value, r, m);
        seg := FetchSegment(c.value, r, m);
      }
    }

    /** dhmp_fs_read on an open file: if the remote calls come out well, exactly the
        bytes of a file without holes from the offset to the count asked for or the
        file's end, and no file changes.
        Nothing stands for a read past the written end of a chunk. */
    method ReadAt(i: nat, size: nat, offset: nat, net: seq<Outcome>) returns (r: Option<Bytes>)
      requires Valid() && i in inodes && NetOk(g, net)
      modifies bitmap, backs, this`cursor, this`inodes, cache`remote, cache`net, cache`log, cache.lines
      ensures FsOk(g, Faced(old(State()), net))
      ensures Valid() && (State(), r) == ReadLoop(g, Faced(old(State()), net), i, offset, size)
      ensures AllWell(net) ==> forall f: Bytes :: FileIs(g, old(State()), i, f) && offset <= |f| ==>
                r == Some(f[offset..Smaller(offset + size, |f|)])
      ensures AllWell(net) ==>
                forall k: nat, f: Bytes :: FileIs(g, old(State()), k, f) ==> FileIs(g, State(), k, f)
    {
      hide FsOk, FileIs, ReadLoop;
      FacedFiles(g, State(), net);
      cache.Face(net);
      ghost var start := State();
      var at: nat, left: nat := offset, size;
      var got: Bytes := [];
      var more := true;
      r := None;
      JoinedNothing(ReadLoop(g, start, i, at, left));
      while more
        invariant Valid() && i in inodes
        invariant more ==> Joined(got, ReadLoop(g, State(), i, at, left)) == ReadLoop(g, start, i, offset, size)
        invariant !more ==> (State(), r) == ReadLoop(g, start, i, offset, size)
        decreases more, left
      {
        ghost var now := State();
        var over, seg := ReadRound(i, left, at);
        if over {
          r := None;
          more := false;
        } else if seg == [] {
          assert got + [] == got;
          r := Some(got);
          more := false;
        } else {
          JoinedStep(got, seg, ReadLoop(g, State(), i, at + |seg|, left - |seg|));
          got := got + seg;
          left := left - |seg|;
          at := at + |seg|;
        }
      }
      ReadOfAnyFile(g, start, i, offset, size);
    }

    /** get_free_inode */
    method TakeInode(addr: nat) returns (i: nat)
      requires Valid() && addr !in inodes
      modifies this`inodes, this`slab
      ensures Valid() && (State(), i) == GetFreeInode(old(State()), addr)
      ensures i in inodes && i !in slab && FileIs(g, State(), i, [])
    {
      CreateKeeps(g, State(), addr);
      if slab != [] {
        i := slab[0];
        slab := slab[1..];
      } else {
        i := addr;
        inodes := inodes[addr := Inode(0, map[], [])];
      }
      NewFileEmpty(g, State(), i);
    }

    /** reset_indoe on a file */
    method ResetInode(i: nat)
      requires Valid() && i in inodes && i !in slab
      modifies bitmap, sizes, backs, this`inodes, this`slab
      ensures Valid() && State() == Reset(g, old(State()), i)
      ensures i in inodes && inodes[i] == Inode(0, map[], []) && slab == old(slab) + [i]
      ensures forall c :: 0 <= c < g.Chunks() ==> (bitmap[c] <==> old(bitmap[c]) && c !in old(inodes)[i].contexts)
    {
      ghost var start := State();
      ResetKeeps(g, start, i);
      assert ListOwned(g, start, i);
      var rest := inodes[i].contexts;
      inodes := inodes[i := inodes[i].(size := 0, contexts := [])];
      ghost var first := State();
      while rest != []
        invariant cache.g == g && Releasable(g, State(), i, rest)
        invariant ReleaseAll(g, State(), i, rest) == ReleaseAll(g, first, i, start.inodes[i].contexts)
        decreases |rest|
      {
        ReleaseOne(g, State(), i, rest);
        ghost var next := Release(State(), rest[0]);
        var c := rest[0];
        var o := backs[c].value;
        inodes := inodes[o.ino := inodes[o.ino].(index := inodes[o.ino].index - {o.slot})];
        backs[c] := None;
        sizes[c] := 0;
        bitmap[c] := false;
        assert State() == next;
        rest := rest[1..];
      }
      slab := slab + [i];
    }
  }

  ghost function Joined(got: Bytes, r: (Fs, Option<Bytes>)): (Fs, Option<Bytes>) {
    (r.0, if r.1.Some? then Some(got + r.1.value) else None)
  }

  lemma JoinedStep(got: Bytes, seg: Bytes, r: (Fs, Option<Bytes>))
    ensures Joined(got, Joined(seg, r)) == Joined(got + seg, r)
  {
    if r.1.Some? {
      assert got + (seg + r.1.value) == got + seg + r.1.value;
    }
  }

  lemma FacedFiles(g: Geometry, fs: Fs, net: seq<Outcome>)
    requires FsOk(g, fs) && NetOk(g, net)
    ensures FsOk(g, Faced(fs, net)) && (AllWell(net) ==> Healthy(Faced(fs, net).store))
    ensures forall k: nat, f: Bytes :: FileIs(g, fs, k, f) ==> FileIs(g, Faced(fs, net), k, f)
    ensures StoreOk(g, fs.store)
  {
    FacedOk(g, fs, net);
    forall k: nat, f: Bytes | FileIs(g, fs, k, f) ensures FileIs(g, Faced(fs, net), k, f) {
      FacedFile(g, fs, net, k, f);
    }
  }

  lemma StoreOf(g: Geometry, fs: Fs)
    requires FsOk(g, fs)
    ensures StoreOk(g, fs.store)
  {
  }

  lemma WriteNothing(g: Geometry, fs: Fs, i: nat, o: nat, again: Visit)
    requires FsOk(g, fs) && i in fs.inodes && i !in fs.slab
    ensures WriteLoop(g, fs, i, o, [], again) == Some(fs)
  {
  }

  lemma JoinedNothing(r: (Fs, Option<Bytes>))
    ensures Joined([], r) == r
  {
    if r.1.Some? {
      assert [] + r.1.value == r.1.value;
    }
  }

  lemma ReadChunkLength(g: Geometry, fs: Fs, c: nat, r: nat, m: nat)
    requires FsOk(g, fs) && c < g.Chunks() && r + m <= g.chunk
    ensures |ReadChunk(g, fs, c, r, m).1| == m
  {
    ChunkInBank(g, c);
    ReadExact(g, fs.store, BankOf(g, c), seq(m, k => 0), StartOf(g, c) + r);
  }

  lemma WriteOnAnyFile(g: Geometry, fs: Fs, i: nat, o: nat, data: Bytes, again: Visit)
    requires FsOk(g, fs) && i in fs.inodes && i !in fs.slab
    ensures forall f: Bytes :: FileIs(g, fs, i, f) && Writable(g, fs, i, f, o, |data|, again) ==>
              var r := WriteLoop(g, fs, i, o, data, again);
              r.Some? && FileIs(g, r.value, i, Overlay(f, o, data))
  {
    forall f: Bytes | FileIs(g, fs, i, f) && Writable(g, fs, i, f, o, |data|, again)
      ensures var r := WriteLoop(g, fs, i, o, data, again);
              r.Some? && FileIs(g, r.value, i, Overlay(f, o, data))
    {
      WriteFile(g, fs, i, f, o, data, again);
    }
  }

  lemma ReadOfAnyFile(g: Geometry, fs: Fs, i: nat, o: nat, n: nat)
    requires FsOk(g, fs) && i in fs.inodes
    ensures Healthy(fs.store) ==> forall f: Bytes :: FileIs(g, fs, i, f) && o <= |f| ==>
              ReadLoop(g, fs, i, o, n).1 == Some(f[o..Smaller(o + n, |f|)])
    ensures Healthy(fs.store) ==>
              forall k: nat, f: Bytes :: FileIs(g, fs, k, f) ==> FileIs(g, ReadLoop(g, fs, i, o, n).0, k, f)
  {
    hide FsOk, FileIs, ReadLoop;
    if Healthy(fs.store) {
      forall f: Bytes | FileIs(g, fs, i, f) && o <= |f|
        ensures ReadLoop(g, fs, i, o, n).1 == Some(f[o..Smaller(o + n, |f|)])
      {
        ReadFile(g, fs, i, f, o, n);
      }
      forall k: nat, f: Bytes | FileIs(g, fs, k, f) ensures FileIs(g, ReadLoop(g, fs, i, o, n).0, k, f) {
        ReadKeeps(g, fs, i, o, n, k, f);
      }
    }
  }

  /** When a write of n bytes does what it should */
  ghost predicate Writable(g: Geometry, fs: Fs, i: nat, f: Bytes, o: nat, n: nat, again: Visit) {
    && FsOk(g, fs) && i in fs.inodes && i !in fs.slab && o <= |f|
    && Plan(g, fs, i, o, n).Some?
    && ((again == Write && Healthy(fs.store)) || AllResident(g, fs.store, Plan(g, fs, i, o, n).value))
  }

  lemma LocatedOk(g: Geometry, offset: nat)
    requires g.Ok()
    ensures Locate(g, offset).Some? ==> SlotOk(g, Locate(g, offset).value.0)
  {
    LocateIsChunk(g, offset);
    if Div(offset, g.chunk) < g.MaxChunks() {
      SlotOfIsOneToOne(g, Div(offset, g.chunk));
    }
  }

  lemma NextProbe(cursor: nat, i: nat, n: nat)
    requires n > 0
    ensures Mod(Probe(cursor, i, n) + 1, n) == Probe(cursor, i + 1, n)
  {
    var q, r := Div(cursor + i, n), Mod(cursor + i, n);
    Divide(cursor + i, n);
    if r + 1 < n {
      DivideUnique(cursor + i + 1, q, r + 1, n);
      DivideUnique(r + 1, 0, r + 1, n);
    } else {
      DivideUnique(cursor + i + 1, q + 1, 0, n);
      DivideUnique(n, 1, 0, n);
    }
  }

  lemma WholeTurn(cursor: nat, n: nat)
    requires cursor < n
    ensures Probe(cursor, n, n) == cursor
  {
    DivideUnique(cursor + n, 1, cursor, n);
  }
}
