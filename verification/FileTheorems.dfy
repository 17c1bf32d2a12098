/** Main results about files: a write overlays its bytes on the file and touches
    no other, a read returns exactly the file's bytes, and when the program as
    shipped loses a write. */
module FileTheorems {
  import opened Basics
  import opened FileIndex
  import opened BankCache
  import opened FileSpec
  import opened FileProofs

  // ----- the plan of a write -----

  /** The banks that a write of n bytes at offset o visits, in order; nothing if
      it runs out of chunks or past the largest file. It depends neither on the
      bytes written nor on the cache. */
  function Plan(g: Geometry, fs: Fs, i: nat, o: nat, n: nat): Option<seq<nat>>
    requires FsOk(g, fs) && i in fs.inodes && i !in fs.slab
    decreases n
  {
    if n == 0 then Some([])
    else
      match IndexForWrite(g, fs, i, o)
      case None => None
      case Some((fs1, c, r)) =>
        IndexedOk(g, fs, i, o);
        var m := Smaller(n, g.chunk - r);
        match Plan(g, fs1, i, o + m, n - m)
        case None => None
        case Some(rest) => Some([BankOf(g, c)] + rest)
  }

  ghost predicate SameMap(fs: Fs, fs': Fs) {
    && fs.inodes.Keys == fs'.inodes.Keys
    && (forall k :: k in fs.inodes ==> fs.inodes[k].index == fs'.inodes[k].index)
    && fs.bitmap == fs'.bitmap && fs.backs == fs'.backs && fs.cursor == fs'.cursor && fs.slab == fs'.slab
  }

  lemma IndexSame(g: Geometry, fs: Fs, fs': Fs, i: nat, o: nat)
    requires g.Ok() && SameMap(fs, fs') && i in fs.inodes && |fs.bitmap| == |fs.backs|
    ensures match IndexForWrite(g, fs, i, o)
            case None => IndexForWrite(g, fs', i, o).None?
            case Some((a, c, r)) =>
              match IndexForWrite(g, fs', i, o)
              case None => false
              case Some((a', c', r')) => SameMap(a, a') && c == c' && r == r'
  {
  }

  lemma {:induction false} PlanSame(g: Geometry, fs: Fs, fs': Fs, i: nat, o: nat, n: nat)
    requires FsOk(g, fs) && FsOk(g, fs') && SameMap(fs, fs') && i in fs.inodes && i !in fs.slab
    ensures Plan(g, fs, i, o, n) == Plan(g, fs', i, o, n)
    decreases n
  {
    hide Owned, Sized, SlabOk, StoreOk, IndexForWrite, BankOf;
    if n > 0 {
      IndexSame(g, fs, fs', i, o);
      if IndexForWrite(g, fs, i, o).Some? {
        IndexedOk(g, fs, i, o);
        IndexedOk(g, fs', i, o);
        var (a, c, r) := IndexForWrite(g, fs, i, o).value;
        var a' := IndexForWrite(g, fs', i, o).value.0;
        var m := Smaller(n, g.chunk - r);
        PlanSame(g, a, a', i, o + m, n - m);
      }
    }
  }

  /** Length of the first segment of a write at offset o */
  function FirstSegment(g: Geometry, o: nat, n: nat): (m: nat)
    requires g.Ok()
    ensures m <= n && Mod(o, g.chunk) + m <= g.chunk && (n > 0 ==> m > 0)
  {
    Smaller(n, g.chunk - Mod(o, g.chunk))
  }

  lemma RoundIsWriteChunk(g: Geometry, fs: Fs, i: nat, o: nat, seg: Bytes, again: Visit)
    requires FsOk(g, fs) && i in fs.inodes && i !in fs.slab
    requires IndexForWrite(g, fs, i, o).Some? && Mod(o, g.chunk) + |seg| <= g.chunk
    ensures var (fs1, c, r) := IndexForWrite(g, fs, i, o).value;
            && r == Mod(o, g.chunk) && c < g.Chunks() && i in fs1.inodes && FsOk(g, fs1)
            && i !in fs1.slab
            && Round(g, fs, i, o, seg, again) == WriteChunk(g, fs1, i, c, r, seg, again)
            && SameMap(fs1, Round(g, fs, i, o, seg, again))
  {
    IndexedOk(g, fs, i, o);
    var (fs1, c, r) := IndexForWrite(g, fs, i, o).value;
    WriteChunkFrame(g, fs1, i, c, r, seg, again);
  }

  /** The state after the first round of a write */
  ghost function Next(g: Geometry, fs: Fs, i: nat, o: nat, data: Bytes, again: Visit): (fs': Fs)
    requires FsOk(g, fs) && i in fs.inodes && i !in fs.slab && IndexForWrite(g, fs, i, o).Some?
    ensures FsOk(g, fs') && i in fs'.inodes && i !in fs'.slab
  {
    Round(g, fs, i, o, data[..FirstSegment(g, o, |data|)], again)
  }

  /** The plan of what is left after the first round */
  ghost function RestPlan(g: Geometry, fs: Fs, i: nat, o: nat, data: Bytes, again: Visit): Option<seq<nat>>
    requires FsOk(g, fs) && i in fs.inodes && i !in fs.slab && IndexForWrite(g, fs, i, o).Some?
  {
    var m := FirstSegment(g, o, |data|);
    Plan(g, Next(g, fs, i, o, data, again), i, o + m, |data| - m)
  }

  ghost function RestOfLoop(g: Geometry, fs: Fs, i: nat, o: nat, data: Bytes, again: Visit): Option<Fs>
    requires FsOk(g, fs) && i in fs.inodes && i !in fs.slab && IndexForWrite(g, fs, i, o).Some?
  {
    var m := FirstSegment(g, o, |data|);
    WriteLoop(g, Next(g, fs, i, o, data, again), i, o + m, data[m..], again)
  }

  /** One unfolding of the write loop and of its plan */
  lemma Unfold(g: Geometry, fs: Fs, i: nat, o: nat, data: Bytes, again: Visit)
    requires FsOk(g, fs) && i in fs.inodes && i !in fs.slab && data != []
    ensures match IndexForWrite(g, fs, i, o)
            case None => WriteLoop(g, fs, i, o, data, again) == None && Plan(g, fs, i, o, |data|) == None
            case Some(_) =>
              && WriteLoop(g, fs, i, o, data, again) == RestOfLoop(g, fs, i, o, data, again)
              && Plan(g, fs, i, o, |data|) ==
                   match RestPlan(g, fs, i, o, data, again)
                   case None => None
                   case Some(rest) => Some([TargetBank(g, fs, i, o)] + rest)
  {
    hide Owned, Sized, SlabOk, StoreOk, IndexForWrite, Round, WriteChunk, SameMap;
    var m := FirstSegment(g, o, |data|);
    if IndexForWrite(g, fs, i, o).Some? {
      RoundIsWriteChunk(g, fs, i, o, data[..m], again);
      var fs1 := IndexForWrite(g, fs, i, o).value.0;
      PlanSame(g, fs1, Round(g, fs, i, o, data[..m], again), i, o + m, |data| - m);
    }
  }

  lemma NothingToWrite(g: Geometry, fs: Fs, i: nat, o: nat, again: Visit)
    requires FsOk(g, fs) && i in fs.inodes && i !in fs.slab
    ensures WriteLoop(g, fs, i, o, [], again) == Some(fs) && Plan(g, fs, i, o, 0) == Some([])
  {
  }

  /** The write loop gets through exactly when its plan does */
  lemma {:induction false} RunsIffPlanned(g: Geometry, fs: Fs, i: nat, o: nat, data: Bytes, again: Visit)
    requires FsOk(g, fs) && i in fs.inodes && i !in fs.slab
    ensures WriteLoop(g, fs, i, o, data, again).Some? <==> Plan(g, fs, i, o, |data|).Some?
    decreases |data|
  {
    hide Owned, Sized, SlabOk, StoreOk, IndexForWrite, Round, WriteLoop, Plan;
    if data == [] {
      NothingToWrite(g, fs, i, o, again);
    } else {
      Unfold(g, fs, i, o, data, again);
      if IndexForWrite(g, fs, i, o).Some? {
        var m := FirstSegment(g, o, |data|);
        RunsIffPlanned(g, Round(g, fs, i, o, data[..m], again), i, o + m, data[m..], again);
      }
    }
  }

  // ----- residency along the plan -----

  ghost predicate AllResident(g: Geometry, s: Store, banks: seq<nat>) {
    StoreOk(g, s) && forall j :: 0 <= j < |banks| ==> Hit(g, s, banks[j])
  }

  lemma ResidentAfterRound(g: Geometry, fs: Fs, i: nat, o: nat, seg: Bytes, again: Visit, b: nat)
    requires FsOk(g, fs) && i in fs.inodes && i !in fs.slab
    requires IndexForWrite(g, fs, i, o).Some? && Mod(o, g.chunk) + |seg| <= g.chunk
    requires Hit(g, fs.store, TargetBank(g, fs, i, o)) && b < g.banks
    ensures Hit(g, Round(g, fs, i, o, seg, again).store, b) == Hit(g, fs.store, b)
  {
    RoundStore(g, fs, i, o, seg, again);
    var (_, c, r) := IndexForWrite(g, fs, i, o).value;
    WriteExact(g, fs.store, BankOf(g, c), seg, StartOf(g, c) + r, again);
  }

  lemma BankBelow(g: Geometry, fs: Fs, i: nat, o: nat)
    requires FsOk(g, fs) && i in fs.inodes && i !in fs.slab && IndexForWrite(g, fs, i, o).Some?
    ensures TargetBank(g, fs, i, o) < g.banks
  {
    IndexedOk(g, fs, i, o);
    ChunkInBank(g, IndexForWrite(g, fs, i, o).value.1);
  }

  lemma {:induction false} PlanBelow(g: Geometry, fs: Fs, i: nat, o: nat, n: nat)
    requires FsOk(g, fs) && i in fs.inodes && i !in fs.slab && Plan(g, fs, i, o, n).Some?
    ensures Below(Plan(g, fs, i, o, n).value, g.banks)
    decreases n
  {
    hide Owned, Sized, SlabOk, StoreOk, IndexForWrite, BankOf;
    if n > 0 {
      IndexedOk(g, fs, i, o);
      BankBelow(g, fs, i, o);
      var (fs1, c, r) := IndexForWrite(g, fs, i, o).value;
      var m := Smaller(n, g.chunk - r);
      PlanBelow(g, fs1, i, o + m, n - m);
      ConsBelow(BankOf(g, c), Plan(g, fs1, i, o + m, n - m).value, g.banks);
    }
  }

  lemma ConsBelow(b: nat, rest: seq<nat>, n: nat)
    requires b < n && Below(rest, n)
    ensures Below([b] + rest, n)
  {
  }

  lemma ResidentCons(g: Geometry, s: Store, s': Store, b: nat, rest: seq<nat>)
    requires StoreOk(g, s) && StoreOk(g, s') && Hit(g, s, b)
    requires forall j :: 0 <= j < |rest| ==> Hit(g, s', rest[j]) == Hit(g, s, rest[j])
    ensures AllResident(g, s', rest) <==> AllResident(g, s, [b] + rest)
  {
    var all := [b] + rest;
    assert forall j :: 0 <= j < |rest| ==> rest[j] == all[j + 1];
    assert forall j :: 0 < j < |all| ==> all[j] == rest[j - 1];
  }

  lemma PlanRest(g: Geometry, fs: Fs, i: nat, o: nat, data: Bytes, again: Visit)
    requires FsOk(g, fs) && i in fs.inodes && i !in fs.slab && data != []
    requires Plan(g, fs, i, o, |data|).Some?
    ensures IndexForWrite(g, fs, i, o).Some? && RestPlan(g, fs, i, o, data, again).Some?
    ensures Plan(g, fs, i, o, |data|).value == [TargetBank(g, fs, i, o)] + RestPlan(g, fs, i, o, data, again).value
  {
    hide Owned, Sized, SlabOk, StoreOk, IndexForWrite, Next, TargetBank, Plan, WriteLoop, RestPlan, RestOfLoop;
    Unfold(g, fs, i, o, data, again);
  }

  lemma RestPlanBelow(g: Geometry, fs: Fs, i: nat, o: nat, data: Bytes, again: Visit)
    requires FsOk(g, fs) && i in fs.inodes && i !in fs.slab && data != []
    requires IndexForWrite(g, fs, i, o).Some? && RestPlan(g, fs, i, o, data, again).Some?
    ensures Below(RestPlan(g, fs, i, o, data, again).value, g.banks)
  {
    hide Owned, Sized, SlabOk, StoreOk, IndexForWrite, Next, TargetBank, Plan, WriteLoop;
    var m := FirstSegment(g, o, |data|);
    PlanBelow(g, Next(g, fs, i, o, data, again), i, o + m, |data| - m);
  }

  lemma HitsAfterRound(g: Geometry, fs: Fs, i: nat, o: nat, seg: Bytes, again: Visit, banks: seq<nat>)
    requires FsOk(g, fs) && i in fs.inodes && i !in fs.slab
    requires IndexForWrite(g, fs, i, o).Some? && Mod(o, g.chunk) + |seg| <= g.chunk
    requires Hit(g, fs.store, TargetBank(g, fs, i, o)) && Below(banks, g.banks)
    ensures AllResident(g, Round(g, fs, i, o, seg, again).store, banks)
            <==> AllResident(g, fs.store, [TargetBank(g, fs, i, o)] + banks)
  {
    hide Owned, Sized, SlabOk, IndexForWrite, Round, Hit, TargetBank, AllResident, StoreOk;
    var fs' := Round(g, fs, i, o, seg, again);
    FsHasStore(g, fs);
    FsHasStore(g, fs');
    forall j | 0 <= j < |banks| ensures Hit(g, fs'.store, banks[j]) == Hit(g, fs.store, banks[j]) {
      ResidentAfterRound(g, fs, i, o, seg, again, banks[j]);
    }
    ResidentCons(g, fs.store, fs'.store, TargetBank(g, fs, i, o), banks);
  }

  /** After a first round that hits, the rest of the plan is as resident as before */
  lemma RestResident(g: Geometry, fs: Fs, i: nat, o: nat, data: Bytes, again: Visit)
    requires FsOk(g, fs) && i in fs.inodes && i !in fs.slab && data != []
    requires Plan(g, fs, i, o, |data|).Some? && IndexForWrite(g, fs, i, o).Some?
    requires Hit(g, fs.store, TargetBank(g, fs, i, o))
    ensures RestPlan(g, fs, i, o, data, again).Some?
    ensures AllResident(g, Next(g, fs, i, o, data, again).store, RestPlan(g, fs, i, o, data, again).value)
            <==> AllResident(g, fs.store, Plan(g, fs, i, o, |data|).value)
  {
    hide Owned, Sized, SlabOk, StoreOk, IndexForWrite, Round, Hit, TargetBank, Plan, AllResident, RestPlan;
    PlanRest(g, fs, i, o, data, again);
    RestPlanBelow(g, fs, i, o, data, again);
    var m := FirstSegment(g, o, |data|);
    HitsAfterRound(g, fs, i, o, data[..m], again, RestPlan(g, fs, i, o, data, again).value);
  }

  lemma FirstResident(g: Geometry, fs: Fs, i: nat, o: nat, n: nat)
    requires FsOk(g, fs) && i in fs.inodes && i !in fs.slab && n > 0
    requires Plan(g, fs, i, o, n).Some? && AllResident(g, fs.store, Plan(g, fs, i, o, n).value)
    ensures IndexForWrite(g, fs, i, o).Some? && Hit(g, fs.store, TargetBank(g, fs, i, o))
  {
    hide Owned, Sized, SlabOk, IndexForWrite, Round, Hit, TargetBank, Plan, WriteLoop;
    PlanRest(g, fs, i, o, seq(n, _ => 0), Read);
    assert Plan(g, fs, i, o, n).value[0] == TargetBank(g, fs, i, o);
  }

  /** A write that can go through and whose remote calls, if it makes any, come out
      well */
  ghost predicate Smooth(g: Geometry, fs: Fs, i: nat, o: nat, n: nat)
    requires FsOk(g, fs) && i in fs.inodes && i !in fs.slab
  {
    && Plan(g, fs, i, o, n).Some?
    && (Healthy(fs.store) || AllResident(g, fs.store, Plan(g, fs, i, o, n).value))
  }

  lemma SmoothRest(g: Geometry, fs: Fs, i: nat, o: nat, data: Bytes, again: Visit)
    requires FsOk(g, fs) && i in fs.inodes && i !in fs.slab && data != [] && Smooth(g, fs, i, o, |data|)
    ensures IndexForWrite(g, fs, i, o).Some? && SafeTarget(g, fs, i, o)
    ensures Smooth(g, Next(g, fs, i, o, data, again), i, o + FirstSegment(g, o, |data|),
                   |data| - FirstSegment(g, o, |data|))
  {
    hide Owned, Sized, SlabOk, StoreOk, IndexForWrite, Round, TargetBank, Plan, AllResident, Hit, Healthy;
    FsHasStore(g, fs);
    PlanRest(g, fs, i, o, data, again);
    if AllResident(g, fs.store, Plan(g, fs, i, o, |data|).value) {
      FirstResident(g, fs, i, o, |data|);
      RestResident(g, fs, i, o, data, again);
    } else {
      HealthyIsSafe(g, fs.store, TargetBank(g, fs, i, o));
    }
  }

  // ----- what a write does to files -----

  lemma {:induction false} WriteKeepsByte(g: Geometry, fs: Fs, i: nat, o: nat, data: Bytes, again: Visit,
                                          k: nat, p: nat, v: bv8)
    requires FsOk(g, fs) && i in fs.inodes && i !in fs.slab && Smooth(g, fs, i, o, |data|)
    requires k in fs.inodes && ByteIs(g, fs, k, p, v) && (k != i || p < o || o + |data| <= p)
    ensures WriteLoop(g, fs, i, o, data, again).Some?
    ensures k in WriteLoop(g, fs, i, o, data, again).value.inodes
    ensures ByteIs(g, WriteLoop(g, fs, i, o, data, again).value, k, p, v)
    decreases |data|
  {
    hide Owned, Sized, SlabOk, StoreOk, IndexForWrite, Round, ByteIs, Plan, SafeTarget, Smooth, WriteLoop;
    if data == [] {
      NothingToWrite(g, fs, i, o, again);
    } else {
      var m := FirstSegment(g, o, |data|);
      SmoothRest(g, fs, i, o, data, again);
      Unfold(g, fs, i, o, data, again);
      RoundKeepsByte(g, fs, i, o, data[..m], again, k, p, v);
      WriteKeepsByte(g, Next(g, fs, i, o, data, again), i, o + m, data[m..], again, k, p, v);
    }
  }

  /** A write to one file changes no byte of any other, nor its length */
  lemma {:induction false} WriteOther(g: Geometry, fs: Fs, i: nat, o: nat, data: Bytes, again: Visit, k: nat, h: Bytes)
    requires FsOk(g, fs) && i in fs.inodes && i !in fs.slab && Smooth(g, fs, i, o, |data|)
    requires k != i && FileIs(g, fs, k, h)
    ensures WriteLoop(g, fs, i, o, data, again).Some?
    ensures FileIs(g, WriteLoop(g, fs, i, o, data, again).value, k, h)
    decreases |data|
  {
    hide Owned, Sized, SlabOk, StoreOk, IndexForWrite, Round, FileIs, Plan, SafeTarget, Smooth, WriteLoop;
    if data == [] {
      NothingToWrite(g, fs, i, o, again);
    } else {
      var m := FirstSegment(g, o, |data|);
      SmoothRest(g, fs, i, o, data, again);
      Unfold(g, fs, i, o, data, again);
      RoundOther(g, fs, i, o, data[..m], again, k, h);
      WriteOther(g, Next(g, fs, i, o, data, again), i, o + m, data[m..], again, k, h);
    }
  }

  lemma OverlayNothing(f: Bytes, o: nat)
    requires o <= |f|
    ensures Overlay(f, o, []) == f
  {
  }

  lemma OverlayTwice(f: Bytes, o: nat, d: Bytes, m: nat)
    requires o <= |f| && m <= |d|
    ensures |Overlay(f, o, d[..m])| >= o + m
    ensures Overlay(Overlay(f, o, d[..m]), o + m, d[m..]) == Overlay(f, o, d)
  {
  }

  /** A write overlays its bytes on the file if all its banks are resident, or if
      its second cache visit is a write and its remote calls come out well */
  lemma {:induction false} WriteFile(g: Geometry, fs: Fs, i: nat, f: Bytes, o: nat, data: Bytes, again: Visit)
    requires FsOk(g, fs) && i !in fs.slab && FileIs(g, fs, i, f) && o <= |f|
    requires Plan(g, fs, i, o, |data|).Some?
    requires (again == Write && Healthy(fs.store)) || AllResident(g, fs.store, Plan(g, fs, i, o, |data|).value)
    ensures WriteLoop(g, fs, i, o, data, again).Some?
    ensures FileIs(g, WriteLoop(g, fs, i, o, data, again).value, i, Overlay(f, o, data))
    decreases |data|
  {
    hide Owned, Sized, SlabOk, StoreOk, IndexForWrite, Round, NoHoles, BytesAre, Hit, TargetBank, Overlay,
      WriteLoop, Plan, AllResident, SafeTarget, Healthy;
    if data == [] {
      NothingToWrite(g, fs, i, o, again);
      OverlayNothing(f, o);
    } else {
      var m := FirstSegment(g, o, |data|);
      FsHasStore(g, fs);
      SmoothRest(g, fs, i, o, data, again);
      Unfold(g, fs, i, o, data, again);
      if AllResident(g, fs.store, Plan(g, fs, i, o, |data|).value) {
        FirstResident(g, fs, i, o, |data|);
        RestResident(g, fs, i, o, data, again);
      }
      RoundFile(g, fs, i, f, o, data[..m], again);
      OverlayTwice(f, o, data, m);
      WriteFile(g, Next(g, fs, i, o, data, again), i, Overlay(f, o, data[..m]), o + m, data[m..], again);
    }
  }

  // ----- the write as shipped -----

  /** After a miss the shipped round leaves the same state, whatever its bytes */
  lemma MissedRound(g: Geometry, fs: Fs, i: nat, o: nat, seg: Bytes, seg': Bytes)
    requires FsOk(g, fs) && i in fs.inodes && i !in fs.slab
    requires IndexForWrite(g, fs, i, o).Some? && Mod(o, g.chunk) + |seg| <= g.chunk && |seg'| == |seg|
    requires !Hit(g, fs.store, TargetBank(g, fs, i, o))
    ensures Round(g, fs, i, o, seg, Read) == Round(g, fs, i, o, seg', Read)
  {
    hide Owned, Sized, SlabOk, StoreOk, IndexForWrite, Round, Access, Hit;
    RoundStore(g, fs, i, o, seg, Read);
    IndexedOk(g, fs, i, o);
    RoundIsWriteChunk(g, fs, i, o, seg, Read);
    RoundIsWriteChunk(g, fs, i, o, seg', Read);
    var (_, c, r) := IndexForWrite(g, fs, i, o).value;
    ShippedMissForgets(g, fs.store, BankOf(g, c), seg, seg', StartOf(g, c) + r);
  }

  /** If some bank of the plan is not resident, two contents that differ leave the
      very same state, so that nothing can tell afterwards which one was written */
  lemma {:induction false} LostContent(g: Geometry, fs: Fs, i: nat, o: nat, n: nat)
    returns (a: Bytes, b: Bytes, p: nat)
    requires FsOk(g, fs) && i in fs.inodes && i !in fs.slab && Plan(g, fs, i, o, n).Some?
    requires !AllResident(g, fs.store, Plan(g, fs, i, o, n).value)
    ensures |a| == |b| == n && p < n && a[p] != b[p]
    ensures WriteLoop(g, fs, i, o, a, Read).Some?
    ensures WriteLoop(g, fs, i, o, a, Read) == WriteLoop(g, fs, i, o, b, Read)
    decreases n
  {
    hide Owned, Sized, SlabOk, StoreOk, IndexForWrite, Round, Hit, TargetBank, WriteLoop, Plan;
    var zeros: Bytes := seq(n, _ => 0);
    FsHasStore(g, fs);
    NothingToWrite(g, fs, i, o, Read);
    assert n > 0;
    var m := FirstSegment(g, o, n);
    PlanRest(g, fs, i, o, zeros, Read);
    if Hit(g, fs.store, TargetBank(g, fs, i, o)) {
      RestResident(g, fs, i, o, zeros, Read);
      a, b, p := LostContent(g, Next(g, fs, i, o, zeros, Read), i, o + m, n - m);
      assert (zeros[..m] + a)[..m] == (zeros[..m] + b)[..m] == zeros[..m];
      assert (zeros[..m] + a)[m..] == a && (zeros[..m] + b)[m..] == b;
      a, b, p := zeros[..m] + a, zeros[..m] + b, m + p;
    } else {
      a, b, p := zeros, zeros[0 := 1], 0;
      assert a[m..] == b[m..];
      MissedRound(g, fs, i, o, a[..m], b[..m]);
    }
    Unfold(g, fs, i, o, a, Read);
    Unfold(g, fs, i, o, b, Read);
    RunsIffPlanned(g, fs, i, o, a, Read);
  }

  lemma OneFile(g: Geometry, fs: Fs, i: nat, f: Bytes, h: Bytes)
    requires FileIs(g, fs, i, f) && FileIs(g, fs, i, h)
    ensures f == h
  {
    forall p | 0 <= p < |f| ensures f[p] == h[p] {
      assert ByteIs(g, fs, i, p, f[p]) && ByteIs(g, fs, i, p, h[p]);
    }
  }

  lemma OverlaysDiffer(f: Bytes, o: nat, a: Bytes, b: Bytes, p: nat)
    requires o <= |f| && p < |a| == |b| && a[p] != b[p]
    ensures Overlay(f, o, a) != Overlay(f, o, b)
  {
    assert Overlay(f, o, a)[o + p] != Overlay(f, o, b)[o + p];
  }

  /** dhmp_fs_write as shipped overlays every content of a given length on the file
      exactly when every bank it will visit is resident before the call, however
      the remote calls come out */
  lemma ShippedWriteExactly(g: Geometry, fs: Fs, i: nat, f: Bytes, o: nat, n: nat)
    requires FsOk(g, fs) && i !in fs.slab && FileIs(g, fs, i, f) && o <= |f|
    requires Plan(g, fs, i, o, n).Some?
    ensures (forall data: Bytes :: |data| == n ==> Overlays(g, fs, i, f, o, data))
            <==> AllResident(g, fs.store, Plan(g, fs, i, o, n).value)
  {
    hide Owned, Sized, SlabOk, StoreOk, IndexForWrite, Plan, WriteLoop, AllResident, NoHoles;
    if AllResident(g, fs.store, Plan(g, fs, i, o, n).value) {
      forall data: Bytes | |data| == n ensures Overlays(g, fs, i, f, o, data) {
        WriteFile(g, fs, i, f, o, data, Read);
      }
    } else {
      var a, b, p := LostContent(g, fs, i, o, n);
      OverlaysDiffer(f, o, a, b, p);
      if Overlays(g, fs, i, f, o, a) && Overlays(g, fs, i, f, o, b) {
        OneFile(g, WriteLoop(g, fs, i, o, a, Read).value, i, Overlay(f, o, a), Overlay(f, o, b));
      }
    }
  }

  ghost predicate Overlays(g: Geometry, fs: Fs, i: nat, f: Bytes, o: nat, data: Bytes)
    requires FsOk(g, fs) && i in fs.inodes && i !in fs.slab && o <= |f|
  {
    var r := WriteLoop(g, fs, i, o, data, Read);
    r.Some? && FileIs(g, r.value, i, Overlay(f, o, data))
  }
}
