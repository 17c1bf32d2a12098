/** Whole runs of the file layer against their specification, one byte sequence per
    file: whatever is created, written, read back, removed and flushed, every file
    is the byte sequence that was written to it. */
module FileHistory {
  import opened Basics
  import opened FileIndex
  import opened BankCache
  import opened FileSpec
  import opened FileProofs
  import opened FileTheorems
  import opened FileRuns

  /** The calls; net has the outcomes of the remote calls that one makes */
  datatype Event =
    | Created(addr: nat)
    | Written(file: nat, offset: nat, data: Bytes, net: seq<Outcome>)
    | ReadBack(file: nat, offset: nat, count: nat, result: Bytes, net: seq<Outcome>)
    | Removed(file: nat)
    | Flushed(line: nat, net: seq<Outcome>)

  /** The files facing the outcomes of this call */
  function FacingCall(fs: Fs, e: Event): Fs {
    match e
    case Written(_, _, _, net) => Faced(fs, net)
    case ReadBack(_, _, _, _, net) => Faced(fs, net)
    case Flushed(_, net) => Faced(fs, net)
    case _ => fs
  }

  ghost predicate Possible(g: Geometry, fs: Fs, e: Event) {
    FsOk(g, fs) && FsOk(g, FacingCall(fs, e))
  }

  /** What the program does; again is the type of a write's second cache visit */
  ghost predicate Does(g: Geometry, again: Visit, fs: Fs, e: Event, fs': Fs)
    requires Possible(g, fs, e)
  {
    var now := FacingCall(fs, e);
    match e
    case Created(addr) => fs' == GetFreeInode(now, addr).0
    case Written(i, o, data, _) =>
      i in fs.inodes && i !in fs.slab && WriteLoop(g, now, i, o, data, again) == Some(fs')
    case ReadBack(i, o, n, result, _) => i in fs.inodes && ReadLoop(g, now, i, o, n) == (fs', Some(result))
    case Removed(i) => i in fs.inodes && fs' == Reset(g, now, i)
    case Flushed(k, _) => k < g.lines && fs' == now.(store := FlushLine(g, now.store, k))
  }

  /** What callers keep to: open files only, no holes, room on the disk, and for
      the program as shipped only writes to resident banks. And what the network
      must do: no write-back may be stored by nobody, no load may come out as
      anything but what was stored. */
  ghost predicate Legal(g: Geometry, again: Visit, fs: Fs, files: map<nat, Bytes>, e: Event)
    requires Possible(g, fs, e)
  {
    var now := FacingCall(fs, e);
    match e
    case Created(addr) => addr !in fs.inodes
    case Written(i, o, data, net) =>
      && i in files && i in fs.inodes && i !in fs.slab && o <= |files[i]|
      && Plan(g, now, i, o, |data|).Some?
      && ((again == Write && AllWell(net)) || AllResident(g, now.store, Plan(g, now, i, o, |data|).value))
    case ReadBack(i, o, n, _, net) => i in files && o <= |files[i]| && AllWell(net)
    case Removed(i) => i in files
    case Flushed(k, net) => k < g.lines && (fs.store.lines[k].dirty ==> NextOutcome(g, net).stored)
  }

  /** The specification */
  function Effect(fs: Fs, files: map<nat, Bytes>, e: Event): map<nat, Bytes> {
    match e
    case Created(addr) => files[GetFreeInode(fs, addr).1 := []]
    case Written(i, o, data, _) =>
      if i in files && o <= |files[i]| then files[i := Overlay(files[i], o, data)] else files
    case Removed(i) => files - {i}
    case _ => files
  }

  ghost predicate Holds(g: Geometry, fs: Fs, files: map<nat, Bytes>) {
    && FsOk(g, fs)
    && forall k :: k in files ==> k !in fs.slab && FileIs(g, fs, k, files[k])
  }

  lemma FacedHolds(g: Geometry, fs: Fs, files: map<nat, Bytes>, net: seq<Outcome>)
    requires Holds(g, fs, files) && NetOk(g, net)
    ensures Holds(g, Faced(fs, net), files) && FsOk(g, fs) && FsOk(g, Faced(fs, net))
    ensures AllWell(net) ==> Healthy(Faced(fs, net).store)
  {
    FacedOk(g, fs, net);
    forall k | k in files ensures FileIs(g, Faced(fs, net), k, files[k]) {
      FacedFile(g, fs, net, k, files[k]);
    }
  }

  lemma FacingHolds(g: Geometry, fs: Fs, files: map<nat, Bytes>, e: Event)
    requires Holds(g, fs, files) && Possible(g, fs, e)
    ensures Holds(g, FacingCall(fs, e), files)
  {
    FacedHolds(g, fs, files, FacingCall(fs, e).store.net);
  }

  lemma CreatedHolds(g: Geometry, fs: Fs, files: map<nat, Bytes>, addr: nat)
    requires Holds(g, fs, files) && addr !in fs.inodes
    ensures Holds(g, GetFreeInode(fs, addr).0, files[GetFreeInode(fs, addr).1 := []])
  {
    hide Owned, Sized, StoreOk, NoHoles, BytesAre;
    CreateKeeps(g, fs, addr);
    var (fs', i) := GetFreeInode(fs, addr);
    NewFileEmpty(g, fs', i);
    forall k | k in files ensures k !in fs'.slab && k != i && FileIs(g, fs', k, files[k]) {
      SameFile(g, fs, fs', k, files[k]);
    }
  }

  lemma WrittenHolds(g: Geometry, again: Visit, fs: Fs, files: map<nat, Bytes>, e: Event)
    requires Holds(g, fs, files) && Possible(g, fs, e) && e.Written? && Legal(g, again, fs, files, e)
    ensures var r := WriteLoop(g, FacingCall(fs, e), e.file, e.offset, e.data, again);
            r.Some? && Holds(g, r.value, Effect(fs, files, e))
  {
    hide Owned, Sized, SlabOk, StoreOk, NoHoles, BytesAre, WriteLoop, Plan, AllResident;
    var i, now := e.file, FacingCall(fs, e);
    FacingHolds(g, fs, files, e);
    WriteFile(g, now, i, files[i], e.offset, e.data, again);
    forall k | k in files && k != i
      ensures FileIs(g, WriteLoop(g, now, i, e.offset, e.data, again).value, k, files[k])
    {
      WriteOther(g, now, i, e.offset, e.data, again, k, files[k]);
    }
  }

  lemma RemovedHolds(g: Geometry, fs: Fs, files: map<nat, Bytes>, i: nat)
    requires Holds(g, fs, files) && i in files
    ensures Holds(g, Reset(g, fs, i), files - {i})
  {
    hide Owned, Sized, SlabOk, StoreOk, NoHoles, BytesAre;
    ResetKeeps(g, fs, i);
    EmptiedShape(g, fs, i);
    var fs' := Reset(g, fs, i);
    forall k | k in files && k != i ensures FileIs(g, fs', k, files[k]) {
      RemovedOther(g, fs, i, k, files[k]);
    }
  }

  /** Removing one file leaves every other as it was */
  lemma RemovedOther(g: Geometry, fs: Fs, i: nat, k: nat, h: Bytes)
    requires FsOk(g, fs) && i in fs.inodes && k != i && FileIs(g, fs, k, h)
    ensures FileIs(g, Reset(g, fs, i), k, h)
  {
    hide Owned, Sized, SlabOk, StoreOk, NoHoles, BytesAre;
    EmptiedShape(g, fs, i);
    var fs' := Reset(g, fs, i);
    forall n: nat | HasSlot(g, fs, k, n)
      ensures ChunkOf(g, fs, k, n) < |fs.sizes| && fs'.sizes[ChunkOf(g, fs, k, n)] == fs.sizes[ChunkOf(g, fs, k, n)]
    {
      OwnSlot(g, fs, k, SlotOf(g, n));
      ListsApart(g, fs, i, k, ChunkOf(g, fs, k, n));
    }
    SameFile(g, fs, fs', k, h);
  }

  lemma OwnSlot(g: Geometry, fs: Fs, k: nat, s: Slot)
    requires FsOk(g, fs) && k in fs.inodes && s in fs.inodes[k].index
    ensures fs.inodes[k].index[s] in fs.inodes[k].contexts && fs.inodes[k].index[s] < g.Chunks()
    ensures Owned(g, fs)
  {
    assert SlotOwned(g, fs, k, s);
    assert ChunkOwned(fs, fs.inodes[k].index[s]);
  }

  lemma FlushedHolds(g: Geometry, fs: Fs, files: map<nat, Bytes>, k: nat)
    requires Holds(g, fs, files) && k < g.lines
    requires fs.store.lines[k].dirty ==> NextOutcome(g, fs.store.net).stored
    ensures Holds(g, fs.(store := FlushLine(g, fs.store, k)), files)
  {
    FlushKeeps(g, fs.store, k);
    StoreChange(g, fs, FlushLine(g, fs.store, k));
    forall j | j in files ensures FileIs(g, fs.(store := FlushLine(g, fs.store, k)), j, files[j]) {
      StoreKeepsFile(g, fs, FlushLine(g, fs.store, k), j, files[j]);
    }
  }

  lemma ReadHolds(g: Geometry, fs: Fs, files: map<nat, Bytes>, i: nat, o: nat, n: nat)
    requires Holds(g, fs, files) && i in files && o <= |files[i]| && Healthy(fs.store)
    ensures Holds(g, ReadLoop(g, fs, i, o, n).0, files)
    ensures ReadLoop(g, fs, i, o, n).1 == Some(files[i][o..Smaller(o + n, |files[i]|)])
  {
    hide Owned, Sized, SlabOk, StoreOk, NoHoles, BytesAre, ReadLoop;
    ReadFile(g, fs, i, files[i], o, n);
    forall k | k in files ensures FileIs(g, ReadLoop(g, fs, i, o, n).0, k, files[k]) {
      ReadKeeps(g, fs, i, o, n, k, files[k]);
    }
  }

  /** One step of the program does what the specification says */
  lemma StepHolds(g: Geometry, again: Visit, fs: Fs, files: map<nat, Bytes>, e: Event, fs': Fs)
    requires Holds(g, fs, files) && Possible(g, fs, e)
    requires Legal(g, again, fs, files, e) && Does(g, again, fs, e, fs')
    ensures Holds(g, fs', Effect(fs, files, e))
    ensures e.ReadBack? ==>
              e.result == files[e.file][e.offset..Smaller(e.offset + e.count, |files[e.file]|)]
  {
    hide FsOk, Plan, WriteLoop, ReadLoop, Reset, AllResident, FileIs;
    FacingHolds(g, fs, files, e);
    var now := FacingCall(fs, e);
    match e
    case Created(addr) => CreatedHolds(g, now, files, addr);
    case Written(_, _, _, _) => WrittenHolds(g, again, fs, files, e);
    case ReadBack(i, o, n, _, _) => ReadHolds(g, now, files, i, o, n);
    case Removed(i) => RemovedHolds(g, now, files, i);
    case Flushed(k, _) => FlushedHolds(g, now, files, k);
  }

  ghost predicate Run(g: Geometry, again: Visit, states: seq<Fs>, specs: seq<map<nat, Bytes>>, events: seq<Event>) {
    && |states| == |specs| == |events| + 1
    && Holds(g, states[0], specs[0])
    && forall n :: 0 <= n < |events| ==> RunStep(g, again, states[n], specs[n], events[n], states[n + 1], specs[n + 1])
  }

  ghost predicate RunStep(g: Geometry, again: Visit, fs: Fs, files: map<nat, Bytes>, e: Event,
                          fs': Fs, files': map<nat, Bytes>)
  {
    FsOk(g, fs) ==>
      && Possible(g, fs, e)
      && Legal(g, again, fs, files, e) && Does(g, again, fs, e, fs') && files' == Effect(fs, files, e)
  }

  /** End to end: after any run of creates, writes, reads, removals and cache
      flushes every file is the byte sequence the specification gives it, and
      every read returned the bytes of its time */
  lemma {:induction false} RunRefines(g: Geometry, again: Visit, states: seq<Fs>, specs: seq<map<nat, Bytes>>,
                                      events: seq<Event>, n: nat)
    requires Run(g, again, states, specs, events) && n < |states|
    ensures Holds(g, states[n], specs[n])
    ensures n > 0 && events[n - 1].ReadBack? ==>
              var e := events[n - 1];
              && e.file in specs[n - 1] && e.offset <= |specs[n - 1][e.file]|
              && e.result == specs[n - 1][e.file][e.offset..Smaller(e.offset + e.count, |specs[n - 1][e.file]|)]
    decreases n
  {
    hide Legal, Does, FsOk, FileIs, Possible;
    if n > 0 {
      RunRefines(g, again, states, specs, events, n - 1);
      assert RunStep(g, again, states[n - 1], specs[n - 1], events[n - 1], states[n - 1 + 1], specs[n - 1 + 1]);
      HoldsOk(g, states[n - 1], specs[n - 1]);
      StepHolds(g, again, states[n - 1], specs[n - 1], events[n - 1], states[n]);
      ReadIsOpen(g, again, states[n - 1], specs[n - 1], events[n - 1]);
    }
  }

  lemma HoldsOk(g: Geometry, fs: Fs, files: map<nat, Bytes>)
    requires Holds(g, fs, files)
    ensures FsOk(g, fs)
  {
  }

  lemma ReadIsOpen(g: Geometry, again: Visit, fs: Fs, files: map<nat, Bytes>, e: Event)
    requires Possible(g, fs, e) && Legal(g, again, fs, files, e)
    ensures e.ReadBack? ==> e.file in files && e.offset <= |files[e.file]|
  {
  }

  // ----- the start -----

  /** The state dhmp_init sets up: empty inodes in the slab, every chunk free, the
      first banks in the cache as zeros, nothing stored yet */
  function InitialFs(g: Geometry, slab: nat): Fs
    requires g.Ok()
  {
    var ids: seq<nat> := seq(slab, i requires 0 <= i < slab => i);
    Fs(map i | i in ids :: Inode(0, map[], []), ids,
       seq(g.Chunks(), _ => false), seq(g.Chunks(), _ => 0), seq(g.Chunks(), _ => None), 0,
       InitialStore(g))
  }

  /** Every inode is in the slab, in order, every chunk free, and every line has its bank
      as clean zeros */
  lemma InitialExact(g: Geometry, slab: nat)
    requires g.Ok()
    ensures var fs := InitialFs(g, slab);
            && |fs.slab| == slab && (forall i :: 0 <= i < slab ==> fs.slab[i] == i)
            && (forall i: nat :: i in fs.inodes <==> i < slab)
            && (forall i :: i in fs.inodes ==> fs.inodes[i] == Inode(0, map[], []))
            && |fs.bitmap| == |fs.sizes| == |fs.backs| == g.Chunks() && fs.cursor == 0
            && (forall c :: 0 <= c < g.Chunks() ==> !fs.bitmap[c] && fs.sizes[c] == 0 && fs.backs[c] == None)
            && |fs.store.lines| == g.lines && fs.store.remote == map[]
            && (forall k :: 0 <= k < g.lines ==> fs.store.lines[k] == Line(k, k, seq(g.Bank(), _ => 0), false))
  {
    var ids: seq<nat> := seq(slab, i requires 0 <= i < slab => i);
    forall i: nat | i < slab ensures i in ids {
      assert ids[i] == i;
    }
  }

  lemma InitialHolds(g: Geometry, slab: nat)
    requires g.Ok()
    ensures Holds(g, InitialFs(g, slab), map[])
  {
    var fs := InitialFs(g, slab);
    MulPositive(g.perBank, g.banks);
    InitialStoreOk(g);
    forall i, j | 0 <= i < j < |fs.slab| ensures fs.slab[i] != fs.slab[j] {
    }
  }
}
