/** Whole runs of the file system, seen from its paths: a finite map from the path
    of every file to its bytes. */
module SystemHistory {
  import opened Basics
  import opened FileIndex
  import opened BankCache
  import F = FileSpec
  import opened FileProofs
  import T = FileTheorems
  import R = FileRuns
  import H = FileHistory
  import opened TreeSpec
  import opened TreeProofs
  import opened TreeDelete
  import opened TreeTheorems
  import opened SystemSpec

  type Path = seq<string>
  type Contents = map<Path, Bytes>

  /** What reading the path would give, if it names a file */
  ghost function Content(y: System, q: Path): Option<Bytes> {
    var r := WalkFrom(y.d, y.d.root, q);
    if r.Found? && r.ino in y.files then Some(y.files[r.ino]) else None
  }

  function At(m: Contents, q: Path): Option<Bytes> {
    if q in m then Some(m[q]) else None
  }

  /** The system holds, under every path, what the map says */
  ghost predicate Abs(y: System, m: Contents) {
    forall q: Path :: Content(y, q) == At(m, q)
  }

  /** Calls on paths. A directory's path is given with the name in it; net has the
      outcomes of the remote calls that one makes. */
  datatype Call =
    | Make(dir: Path, name: string, asDir: bool, addr: nat)
    | Remove(dir: Path, name: string)
    | Move(dir: Path, name: string, to: string)
    | WriteTo(path: Path, offset: nat, data: Bytes, net: seq<Outcome>)
    | ReadOf(path: Path, offset: nat, count: nat, net: seq<Outcome>)
    | Flush(line: nat, net: seq<Outcome>)

  ghost predicate IsDir(y: System, q: Path) {
    var r := WalkFrom(y.d, y.d.root, q);
    r.Found? && r.ino in y.d.nodes && y.d.nodes[r.ino].isDir
  }

  ghost predicate IsFile(y: System, q: Path) {
    var r := WalkFrom(y.d, y.d.root, q);
    r.Found? && r.ino in y.files
  }

  function InoAt(y: System, q: Path): nat {
    var r := WalkFrom(y.d, y.d.root, q);
    if r.Found? then r.ino else y.d.root
  }

  ghost predicate HasEntry(y: System, q: Path, name: string) {
    IsDir(y, q) && name in y.d.nodes[InoAt(y, q)].hash
  }

  /** What callers keep to: directories that are there, names that are free or
      taken as needed, no holes, room on the disk, and for the program as shipped
      only writes to resident banks. And what the network must do: no write-back
      may be stored by nobody, no load may come out as anything but what was
      stored. again is the type of a write's second cache visit. */
  ghost predicate Legal(g: Geometry, again: Visit, y: System, w: Shape, c: Call)
    requires SystemOk(g, y, w)
  {
    match c
    case Make(q, name, _, addr) => IsDir(y, q) && !HasEntry(y, q, name) && addr !in y.d.nodes
    case Remove(q, name) => HasEntry(y, q, name)
    case Move(q, name, to) => HasEntry(y, q, name) && (to == name || !HasEntry(y, q, to))
    case WriteTo(q, o, data, net) => MayWrite(g, again, y, w, q, o, data, net)
    case ReadOf(q, o, _, net) =>
      IsFile(y, q) && o <= |y.files[InoAt(y, q)]| && NetOk(g, net) && AllWell(net)
    case Flush(k, net) =>
      k < g.lines && NetOk(g, net) && (Dirty(y, k) ==> NextOutcome(g, net).stored)
  }

  predicate Dirty(y: System, k: nat) {
    k < |y.fs.store.lines| && y.fs.store.lines[k].dirty
  }

  lemma DirFacts(g: Geometry, y: System, w: Shape, q: Path)
    requires SystemOk(g, y, w) && IsDir(y, q)
    ensures WalkFrom(y.d, y.d.root, q) == Found(InoAt(y, q)) && Live(y.d, InoAt(y, q))
    ensures F.FsOk(g, y.fs)
  {
    RootLive(y.d, w);
    WalkLive(y.d, w, y.d.root, q);
  }

  lemma EntryInTree(d: Dirs, w: Shape, f: nat, name: string)
    requires TreeOk(d, w) && Live(d, f) && name in d.nodes[f].hash
    ensures var x := d.nodes[f].hash[name];
            && Live(d, x) && x in w.rank
            && Distinct(Subtree(d, w, x)) && forall i :: i in Subtree(d, w, x) ==> Live(d, i)
  {
    EntryFacts(d, w, f, name);
    NodeFacts(d, w, d.nodes[f].hash[name]);
    hide TreeOk, Subtree, Under, Distinct;
    SubtreeOnce(d, w, d.nodes[f].hash[name]);
  }

  lemma EntryLive(g: Geometry, y: System, w: Shape, q: Path, name: string)
    requires SystemOk(g, y, w) && HasEntry(y, q, name)
    ensures Live(y.d, InoAt(y, q)) && Live(y.d, y.d.nodes[InoAt(y, q)].hash[name])
    ensures y.d.nodes[InoAt(y, q)].hash[name] in w.rank
    ensures Removable(g, y.fs, Subtree(y.d, w, y.d.nodes[InoAt(y, q)].hash[name]))
  {
    DirFacts(g, y, w, q);
    hide TreeOk, F.FsOk, H.Holds, Subtree, Distinct, WalkFrom, Linked, Covered, Removable;
    EntryInTree(y.d, w, InoAt(y, q), name);
    LiveRemovable(g, y.d, y.fs, Subtree(y.d, w, y.d.nodes[InoAt(y, q)].hash[name]));
  }

  lemma LiveRemovable(g: Geometry, d: Dirs, fs: F.Fs, l: seq<nat>)
    requires Linked(d, fs) && F.FsOk(g, fs) && Distinct(l) && forall i :: i in l ==> Live(d, i)
    ensures Removable(g, fs, l)
  {
    hide F.FsOk, Distinct;
  }

  // ----- the program's steps -----

  function Made(y: System, q: Path, name: string, dir: bool, addr: nat): System
    requires InoAt(y, q) in y.d.nodes
  {
    var (d, i) := Create(y.d, InoAt(y, q), name, dir, addr);
    System(d, R.GetFreeInode(y.fs, addr).0, if dir then y.files else y.files[i := []])
  }

  ghost function Removed(g: Geometry, y: System, w: Shape, q: Path, name: string): System
    requires SystemOk(g, y, w) && HasEntry(y, q, name)
  {
    EntryLive(g, y, w, q, name);
    var f := InoAt(y, q);
    var l := Subtree(y.d, w, y.d.nodes[f].hash[name]);
    System(Delete(y.d, w, f, name), ResetFiles(g, y.fs, l), y.files - Members(l))
  }

  function Members(l: seq<nat>): set<nat> {
    set i | i in l
  }

  ghost function Moved(g: Geometry, y: System, w: Shape, q: Path, name: string, to: string): System
    requires SystemOk(g, y, w) && HasEntry(y, q, name)
  {
    EntryLive(g, y, w, q, name);
    y.(d := Rename(y.d, InoAt(y, q), name, to))
  }

  ghost predicate MayWrite(g: Geometry, again: Visit, y: System, w: Shape, q: Path, o: nat, data: Bytes,
                           net: seq<Outcome>)
  {
    var e := H.Written(InoAt(y, q), o, data, net);
    SystemOk(g, y, w) && IsFile(y, q) && H.Possible(g, y.fs, e) && H.Legal(g, again, y.fs, y.files, e)
  }

  ghost function Wrote(g: Geometry, again: Visit, y: System, w: Shape, q: Path, o: nat, data: Bytes,
                       net: seq<Outcome>): System
    requires MayWrite(g, again, y, w, q, o, data, net)
  {
    H.WrittenHolds(g, again, y.fs, y.files, H.Written(InoAt(y, q), o, data, net));
    y.(fs := F.WriteLoop(g, F.Faced(y.fs, net), InoAt(y, q), o, data, again).value,
       files := y.files[InoAt(y, q) := Overlay(y.files[InoAt(y, q)], o, data)])
  }

  /** The state a call leaves */
  ghost function Step(g: Geometry, again: Visit, y: System, w: Shape, c: Call): System
    requires SystemOk(g, y, w) && Legal(g, again, y, w, c)
  {
    match c
    case Make(q, name, dir, addr) =>
      DirFacts(g, y, w, q);
      Made(y, q, name, dir, addr)
    case Remove(q, name) => Removed(g, y, w, q, name)
    case Move(q, name, to) => Moved(g, y, w, q, name, to)
    case WriteTo(q, o, data, net) => Wrote(g, again, y, w, q, o, data, net)
    case ReadOf(q, o, n, net) =>
      FileOpen(g, y, w, InoAt(y, q));
      F.FacedOk(g, y.fs, net);
      y.(fs := F.ReadLoop(g, F.Faced(y.fs, net), InoAt(y, q), o, n).0)
    case Flush(k, net) =>
      StoreReady(g, y, w);
      y.(fs := y.fs.(store := FlushLine(g, Facing(y.fs.store, net), k)))
  }

  lemma StoreReady(g: Geometry, y: System, w: Shape)
    requires SystemOk(g, y, w)
    ensures StoreOk(g, y.fs.store)
  {
    hide TreeOk, F.Owned, F.Sized, F.SlabOk, StoreOk;
  }

  /** What a read returns */
  ghost function Returned(g: Geometry, y: System, c: Call): Option<Bytes>
    requires F.FsOk(g, y.fs) && c.ReadOf? && NetOk(g, c.net) && InoAt(y, c.path) in y.fs.inodes
  {
    F.FacedOk(g, y.fs, c.net);
    F.ReadLoop(g, F.Faced(y.fs, c.net), InoAt(y, c.path), c.offset, c.count).1
  }

  ghost function NextShape(y: System, w: Shape, c: Call): Shape {
    if c.Make? && InoAt(y, c.dir) in y.d.nodes then
      Grown(w, InoAt(y, c.dir), Create(y.d, InoAt(y, c.dir), c.name, c.asDir, c.addr).1)
    else w
  }

  // ----- the specification -----

  /** A path with the entry a of directory p replaced by b */
  function Redirect(p: Path, a: string, b: string, q: Path): Path {
    if p + [a] <= q then p + [b] + q[|p| + 1..] else q
  }

  function Renamed(m: Contents, p: Path, a: string, b: string): Contents {
    var keys := set q | q in m.Keys :: Redirect(p, a, b, q);
    map q | q in keys && Redirect(p, b, a, q) in m :: m[Redirect(p, b, a, q)]
  }

  function Cleared(m: Contents, p: Path): Contents {
    map q | q in m && !(p <= q) :: m[q]
  }

  function Effect(m: Contents, c: Call): Contents {
    match c
    case Make(p, name, dir, _) => if dir then m else m[p + [name] := []]
    case Remove(p, name) => Cleared(m, p + [name])
    case Move(p, name, to) => Renamed(m, p, name, to)
    case WriteTo(p, o, data, _) => if p in m && o <= |m[p]| then m[p := Overlay(m[p], o, data)] else m
    case ReadOf(_, _, _, _) => m
    case Flush(_, _) => m
  }

  // ----- every step keeps the invariant -----

  lemma MadeSame(g: Geometry, y: System, w: Shape, f: nat, name: string, dir: bool, addr: nat)
    requires SystemOk(g, y, w) && Live(y.d, f) && addr !in y.d.nodes
    ensures addr !in y.fs.inodes && F.FsOk(g, y.fs)
    ensures Create(y.d, f, name, dir, addr).1 == R.GetFreeInode(y.fs, addr).1
    ensures Linked(Create(y.d, f, name, dir, addr).0, R.GetFreeInode(y.fs, addr).0)
  {
    if y.d.slab != [] {
      assert y.d.slab[0] in y.d.slab;
      assert SlabFree(y.d);
      assert y.d.slab[0] in y.d.nodes;
      assert Create(y.d, f, name, dir, addr).0.nodes.Keys == y.d.nodes.Keys;
    } else {
      assert Create(y.d, f, name, dir, addr).0.nodes.Keys == y.d.nodes.Keys + {addr};
    }
  }

  lemma MadeHolds(g: Geometry, y: System, w: Shape, i: nat, dir: bool, addr: nat)
    requires SystemOk(g, y, w) && addr !in y.d.nodes && i == R.GetFreeInode(y.fs, addr).1
    ensures H.Holds(g, R.GetFreeInode(y.fs, addr).0, y.files[i := []]) && i !in y.files
    ensures H.Holds(g, R.GetFreeInode(y.fs, addr).0, y.files)
  {
    hide F.FsOk, TreeOk, FileIs;
    H.CreatedHolds(g, y.fs, y.files, addr);
    assert i !in y.files by {
      assert y.fs.slab != [] ==> i in y.d.slab;
    }
    hide R.GetFreeInode;
    forall k | k in y.files ensures k in y.files[i := []] && y.files[i := []][k] == y.files[k] {
    }
  }

  lemma MadeCovered(d: Dirs, d': Dirs, i: nat, dir: bool, files: Files)
    requires Covered(d, files) && !Live(d, i) && Live(d', i) && d'.nodes[i].isDir == dir
    requires forall k :: Live(d', k) <==> Live(d, k) || k == i
    requires forall k :: Live(d, k) ==> Live(d', k) && d'.nodes[k].isDir == d.nodes[k].isDir
    ensures Covered(d', if dir then files else files[i := []])
  {
  }

  lemma MadeOk(g: Geometry, y: System, w: Shape, q: Path, name: string, dir: bool, addr: nat)
    requires SystemOk(g, y, w) && IsDir(y, q) && !HasEntry(y, q, name) && addr !in y.d.nodes
    ensures Live(y.d, InoAt(y, q))
    ensures SystemOk(g, Made(y, q, name, dir, addr),
                     Grown(w, InoAt(y, q), Create(y.d, InoAt(y, q), name, dir, addr).1))
  {
    hide H.Holds, R.GetFreeInode, WalkFrom, ListsAgree, SonsBelow, HasFather, SlabFree;
    DirFacts(g, y, w, q);
    var f := InoAt(y, q);
    var (d, i) := Create(y.d, f, name, dir, addr);
    hide TreeOk, Create, Linked, Covered;
    MadeSame(g, y, w, f, name, dir, addr);
    MadeHolds(g, y, w, i, dir, addr);
    CreateKeeps(y.d, w, f, name, dir, addr);
    CreateFrame(y.d, w, f, name, dir, addr);
    MadeCovered(y.d, d, i, dir, y.files);
  }

  lemma RemovedHolds(g: Geometry, y: System, w: Shape, l: seq<nat>)
    requires SystemOk(g, y, w) && Removable(g, y.fs, l)
    ensures H.Holds(g, ResetFiles(g, y.fs, l), y.files - Members(l))
    ensures Linked(y.d.(slab := y.d.slab + l), ResetFiles(g, y.fs, l))
  {
    ResetFilesKeeps(g, y.fs, l);
    hide F.FsOk, TreeOk, FileIs, Removable;
    forall k | k in y.files - Members(l)
      ensures k !in ResetFiles(g, y.fs, l).slab && FileIs(g, ResetFiles(g, y.fs, l), k, y.files[k])
    {
      assert k !in l;
      ResetFilesOther(g, y.fs, l, k, y.files[k]);
    }
  }

  lemma RemovedCovered(d: Dirs, d': Dirs, l: seq<nat>, files: Files)
    requires Covered(d, files)
    requires forall k :: Live(d', k) <==> Live(d, k) && k !in l
    requires forall k :: Live(d', k) ==> d'.nodes[k].isDir == d.nodes[k].isDir
    ensures Covered(d', files - Members(l))
  {
  }

  lemma DeletedCovered(d: Dirs, w: Shape, f: nat, name: string, files: Files)
    requires TreeOk(d, w) && Live(d, f) && name in d.nodes[f].hash && Covered(d, files)
    requires Live(d, d.nodes[f].hash[name])
    ensures Covered(Delete(d, w, f, name), files - Members(Subtree(d, w, d.nodes[f].hash[name])))
    ensures Delete(d, w, f, name).slab == d.slab + Subtree(d, w, d.nodes[f].hash[name])
    ensures Delete(d, w, f, name).nodes.Keys == d.nodes.Keys
  {
    hide TreeOk, Delete, Subtree, Under, Distinct, Covered, Unlink;
    var x := d.nodes[f].hash[name];
    DeleteFrame(d, w, f, name);
    SubtreeOnce(d, w, x);
    UnlinkKind(d, f, x, name);
    RemovedCovered(d, Delete(d, w, f, name), Subtree(d, w, x), files);
  }

  lemma RemovedOk(g: Geometry, y: System, w: Shape, q: Path, name: string)
    requires SystemOk(g, y, w) && HasEntry(y, q, name)
    ensures SystemOk(g, Removed(g, y, w, q, name), w)
  {
    EntryLive(g, y, w, q, name);
    hide TreeOk, Delete, H.Holds, ResetFiles, Subtree, Under, Distinct, Removable, Covered, WalkFrom, Unlink;
    var f := InoAt(y, q);
    RemovedHolds(g, y, w, Subtree(y.d, w, y.d.nodes[f].hash[name]));
    DeleteKeeps(y.d, w, f, name);
    DeletedCovered(y.d, w, f, name, y.files);
  }

  lemma UnlinkKind(d: Dirs, f: nat, x: nat, name: string)
    requires f in d.nodes
    ensures f in Unlink(d, f, x, name).nodes && Unlink(d, f, x, name).nodes[f].isDir == d.nodes[f].isDir
  {
  }

  lemma MovedOk(g: Geometry, y: System, w: Shape, q: Path, name: string, to: string)
    requires SystemOk(g, y, w) && HasEntry(y, q, name) && (to == name || !HasEntry(y, q, to))
    ensures SystemOk(g, Moved(g, y, w, q, name, to), w)
  {
    hide H.Holds, WalkFrom, ListsAgree, SonsBelow, HasFather, Rename, Removable, Subtree;
    EntryLive(g, y, w, q, name);
    RenameKeeps(y.d, w, InoAt(y, q), name, to);
    RenameFrame(y.d, InoAt(y, q), name, to);
    hide TreeOk, Rename, H.Holds;
  }

  lemma DataOk(g: Geometry, again: Visit, y: System, w: Shape, c: Call)
    requires SystemOk(g, y, w) && Legal(g, again, y, w, c) && (c.WriteTo? || c.ReadOf? || c.Flush?)
    ensures SystemOk(g, Step(g, again, y, w, c), w)
  {
    hide TreeOk, F.FsOk, F.WriteLoop, F.ReadLoop, FileIs, T.Plan;
    match c
    case WriteTo(q, o, data, net) =>
      H.WrittenHolds(g, again, y.fs, y.files, H.Written(InoAt(y, q), o, data, net));
      WriteLinked(g, F.Faced(y.fs, net), InoAt(y, q), o, data, again);
    case ReadOf(q, o, n, net) =>
      H.FacedHolds(g, y.fs, y.files, net);
      H.ReadHolds(g, F.Faced(y.fs, net), y.files, InoAt(y, q), o, n);
    case Flush(k, net) =>
      StoreReady(g, y, w);
      H.FacedHolds(g, y.fs, y.files, net);
      H.FlushedHolds(g, F.Faced(y.fs, net), y.files, k);
  }

  /** Writing allocates chunks, never inodes */
  lemma {:induction false} WriteLinked(g: Geometry, fs: F.Fs, i: nat, o: nat, data: Bytes, again: Visit)
    requires F.FsOk(g, fs) && i in fs.inodes && i !in fs.slab
    ensures var r := F.WriteLoop(g, fs, i, o, data, again);
            r.Some? ==> r.value.inodes.Keys == fs.inodes.Keys && r.value.slab == fs.slab
    decreases |data|
  {
    hide F.Owned, F.Sized, F.SlabOk, StoreOk, F.IndexForWrite, Round, F.WriteLoop, T.Plan;
    if data == [] {
      T.NothingToWrite(g, fs, i, o, again);
    } else {
      T.Unfold(g, fs, i, o, data, again);
      if F.IndexForWrite(g, fs, i, o).Some? {
        var m := T.FirstSegment(g, o, |data|);
        WriteLinked(g, Round(g, fs, i, o, data[..m], again), i, o + m, data[m..], again);
      }
    }
  }

  /** Every legal call keeps the whole system's invariant */
  lemma StepOk(g: Geometry, again: Visit, y: System, w: Shape, c: Call)
    requires SystemOk(g, y, w) && Legal(g, again, y, w, c)
    ensures SystemOk(g, Step(g, again, y, w, c), NextShape(y, w, c))
  {
    hide SystemOk, Made, Removed, Moved, F.WriteLoop, F.ReadLoop, H.Legal, Create, Grown;
    match c
    case Make(q, name, dir, addr) => MadeOk(g, y, w, q, name, dir, addr);
    case Remove(q, name) => RemovedOk(g, y, w, q, name);
    case Move(q, name, to) => MovedOk(g, y, w, q, name, to);
    case WriteTo(_, _, _, _) => DataOk(g, again, y, w, c);
    case ReadOf(_, _, _, _) => DataOk(g, again, y, w, c);
    case Flush(_, _) => DataOk(g, again, y, w, c);
  }

  // ----- every step does to the paths what the specification says -----

  /** A path goes through an entry of a directory, or is clear of it */
  lemma ThroughOrClear(p: Path, name: string, q: Path) returns (s: Path)
    ensures if Clear(p, {name}, q) then !(p + [name] <= q) else q == p + [name] + s
    ensures p + [name] <= q ==> s == q[|p| + 1..]
  {
    if Clear(p, {name}, q) {
      s := [];
      if p + [name] <= q {
        ThroughNotClear(p, name, q);
      }
    } else {
      s := q[|p| + 1..];
      assert q == q[..|p|] + [q[|p|]] + q[|p| + 1..];
    }
  }

  lemma MadeAbs(g: Geometry, y: System, w: Shape, p: Path, name: string, dir: bool, addr: nat, m: Contents)
    requires SystemOk(g, y, w) && IsDir(y, p) && !HasEntry(y, p, name) && addr !in y.d.nodes && Abs(y, m)
    requires InoAt(y, p) in y.d.nodes
    ensures Abs(Made(y, p, name, dir, addr), if dir then m else m[p + [name] := []])
  {
    hide SystemOk, IsDir, HasEntry, Content, Made;
    forall q: Path
      ensures Content(Made(y, p, name, dir, addr), q) == At(if dir then m else m[p + [name] := []], q)
    {
      MadeContent(g, y, w, p, name, dir, addr, q);
      assert Content(y, q) == At(m, q);
    }
  }

  /** The new file's bytes are seen at paths that lead to it only */
  lemma SameContent(y: System, y': System, q: Path)
    requires WalkFrom(y'.d, y'.d.root, q) == WalkFrom(y.d, y.d.root, q)
    requires WalkFrom(y.d, y.d.root, q).Found? ==>
               var i := WalkFrom(y.d, y.d.root, q).ino;
               (i in y'.files <==> i in y.files) && (i in y.files ==> y'.files[i] == y.files[i])
    ensures Content(y', q) == Content(y, q)
  {
    hide WalkFrom;
  }

  lemma NoContent(y: System, q: Path)
    requires var r := WalkFrom(y.d, y.d.root, q); r.Found? ==> r.ino !in y.files
    ensures Content(y, q) == None
  {
  }

  lemma MadeFiles(g: Geometry, y: System, w: Shape, p: Path, name: string, dir: bool, addr: nat)
    requires SystemOk(g, y, w) && IsDir(y, p) && !HasEntry(y, p, name) && addr !in y.d.nodes
    requires InoAt(y, p) in y.d.nodes
    ensures var f := InoAt(y, p);
            && TreeOk(y.d, w) && WalkFrom(y.d, y.d.root, p) == Found(f) && Live(y.d, f)
            && y.d.nodes[f].isDir && name !in y.d.nodes[f].hash
    ensures var y', i := Made(y, p, name, dir, addr), Create(y.d, InoAt(y, p), name, dir, addr).1;
            && y'.d == Create(y.d, InoAt(y, p), name, dir, addr).0 && y'.d.root == y.d.root
            && !Live(y.d, i) && i !in y.files && y'.files == if dir then y.files else y.files[i := []]
  {
    hide H.Holds, R.GetFreeInode, ListsAgree, SonsBelow, HasFather, SlabFree;
    DirFacts(g, y, w, p);
    CreateFrame(y.d, w, InoAt(y, p), name, dir, addr);
    hide TreeOk, Create;
  }

  lemma MadeElsewhere(g: Geometry, y: System, w: Shape, p: Path, name: string, dir: bool, addr: nat, q: Path)
    requires SystemOk(g, y, w) && IsDir(y, p) && !HasEntry(y, p, name) && addr !in y.d.nodes
    requires InoAt(y, p) in y.d.nodes && Clear(p, {name}, q)
    ensures Content(Made(y, p, name, dir, addr), q) == Content(y, q)
  {
    var f := InoAt(y, p);
    MadeFiles(g, y, w, p, name, dir, addr);
    hide TreeOk, SystemOk, IsDir, HasEntry, Made, Create, WalkFrom, Clear, Content;
    CreateOthers(y.d, w, p, f, name, dir, addr, q);
    WalkedLive(y.d, w, q);
    var i := Create(y.d, f, name, dir, addr).1;
    SameContent(y, Made(y, p, name, dir, addr), q);
  }

  lemma MadeThere(g: Geometry, y: System, w: Shape, p: Path, name: string, dir: bool, addr: nat, s: Path)
    requires SystemOk(g, y, w) && IsDir(y, p) && !HasEntry(y, p, name) && addr !in y.d.nodes
    requires InoAt(y, p) in y.d.nodes
    ensures Content(y, p + [name] + s) == None
    ensures Content(Made(y, p, name, dir, addr), p + [name] + s) == if s == [] && !dir then Some([]) else None
  {
    var f := InoAt(y, p);
    MadeFiles(g, y, w, p, name, dir, addr);
    hide TreeOk, SystemOk, IsDir, HasEntry, Made, Create, WalkFrom, Clear;
    CreateResolves(y.d, w, p, f, name, dir, addr);
    WalkPast(y.d, p, f, name, s);
    var y' := Made(y, p, name, dir, addr);
    hide Content;
    NoContent(y, p + [name] + s);
    if s == [] {
      assert p + [name] + s == p + [name];
    }
    if s == [] && !dir {
      ContentThere(y', p + [name], Create(y.d, f, name, dir, addr).1);
    } else {
      NoContent(y', p + [name] + s);
    }
  }

  lemma MadeContent(g: Geometry, y: System, w: Shape, p: Path, name: string, dir: bool, addr: nat, q: Path)
    requires SystemOk(g, y, w) && IsDir(y, p) && !HasEntry(y, p, name) && addr !in y.d.nodes
    requires InoAt(y, p) in y.d.nodes
    ensures Content(Made(y, p, name, dir, addr), q)
         == if q == p + [name] && !dir then Some([]) else Content(y, q)
  {
    hide SystemOk, IsDir, HasEntry, Content, Made, Clear;
    var s := ThroughOrClear(p, name, q);
    if Clear(p, {name}, q) {
      MadeElsewhere(g, y, w, p, name, dir, addr, q);
    } else {
      MadeThere(g, y, w, p, name, dir, addr, s);
      assert p + [name] + [] == p + [name];
      assert s != [] ==> |q| > |p| + 1;
    }
  }

  lemma WalkedLive(d: Dirs, w: Shape, q: Path)
    requires TreeOk(d, w)
    ensures var r := WalkFrom(d, d.root, q); r.Found? ==> Live(d, r.ino)
  {
    RootLive(d, w);
    if WalkFrom(d, d.root, q).Found? {
      WalkLive(d, w, d.root, q);
    }
  }

  lemma RemovedFiles(g: Geometry, y: System, w: Shape, p: Path, name: string)
    requires SystemOk(g, y, w) && HasEntry(y, p, name)
    ensures var f, y' := InoAt(y, p), Removed(g, y, w, p, name);
            && TreeOk(y.d, w) && WalkFrom(y.d, y.d.root, p) == Found(f) && Live(y.d, f)
            && name in y.d.nodes[f].hash && y'.d == Delete(y.d, w, f, name) && y'.d.root == y.d.root
            && y.d.nodes[f].hash[name] in w.rank
            && (forall k :: Live(y.d, k) && !Under(w, k, y.d.nodes[f].hash[name]) ==>
                  (k in y'.files <==> k in y.files))
            && (forall k :: k in y'.files && k in y.files ==> y'.files[k] == y.files[k])
  {
    EntryLive(g, y, w, p, name);
    DirFacts(g, y, w, p);
    var f := InoAt(y, p);
    var x := y.d.nodes[f].hash[name];
    SubtreeOnce(y.d, w, x);
    DeleteFrame(y.d, w, f, name);
    hide TreeOk, Delete, H.Holds, ResetFiles, Subtree, Under, Distinct, Removable, Covered, WalkFrom, Unlink;
    assert forall k :: k in Members(Subtree(y.d, w, x)) <==> k in Subtree(y.d, w, x);
  }

  lemma RemovedElsewhere(g: Geometry, y: System, w: Shape, p: Path, name: string, q: Path)
    requires SystemOk(g, y, w) && HasEntry(y, p, name) && Clear(p, {name}, q)
    ensures Content(Removed(g, y, w, p, name), q) == Content(y, q)
  {
    RemovedFiles(g, y, w, p, name);
    var f := InoAt(y, p);
    hide SystemOk, TreeOk, IsDir, HasEntry, Clear, WalkFrom, Delete, Removed, Under, Content, InoAt;
    DeleteOthers(y.d, w, p, f, name, q);
    if WalkFrom(y.d, y.d.root, q).Found? {
      ClearOutside(y.d, w, p, f, name, q);
    }
    SameContent(y, Removed(g, y, w, p, name), q);
  }

  lemma RemovedThere(g: Geometry, y: System, w: Shape, p: Path, name: string, s: Path)
    requires SystemOk(g, y, w) && HasEntry(y, p, name)
    ensures Content(Removed(g, y, w, p, name), p + [name] + s) == None
  {
    RemovedFiles(g, y, w, p, name);
    hide SystemOk, TreeOk, IsDir, HasEntry, Clear, WalkFrom, Delete, Removed, Under;
    DeleteResolves(y.d, w, p, InoAt(y, p), name);
  }

  lemma RemovedContent(g: Geometry, y: System, w: Shape, p: Path, name: string, q: Path)
    requires SystemOk(g, y, w) && HasEntry(y, p, name)
    ensures Content(Removed(g, y, w, p, name), q) == if p + [name] <= q then None else Content(y, q)
  {
    hide SystemOk, HasEntry, Content, Removed, Clear;
    var s := ThroughOrClear(p, name, q);
    if Clear(p, {name}, q) {
      RemovedElsewhere(g, y, w, p, name, q);
    } else {
      RemovedThere(g, y, w, p, name, s);
      assert p + [name] <= p + [name] + s;
    }
  }

  lemma RemovedAbs(g: Geometry, y: System, w: Shape, p: Path, name: string, m: Contents)
    requires SystemOk(g, y, w) && HasEntry(y, p, name) && Abs(y, m)
    ensures Abs(Removed(g, y, w, p, name), Cleared(m, p + [name]))
  {
    hide SystemOk, HasEntry, Content, Removed;
    forall q: Path ensures Content(Removed(g, y, w, p, name), q) == At(Cleared(m, p + [name]), q) {
      RemovedContent(g, y, w, p, name, q);
      assert Content(y, q) == At(m, q);
    }
  }

  lemma RedirectBack(p: Path, a: string, b: string, q: Path)
    requires p + [b] <= q
    ensures Redirect(p, b, a, q) == p + [a] + q[|p| + 1..] && p + [a] <= Redirect(p, b, a, q)
    ensures Redirect(p, a, b, Redirect(p, b, a, q)) == q
  {
    var s := q[|p| + 1..];
    assert q == p + [b] + s;
    var r := p + [a] + s;
    assert r[..|p| + 1] == p + [a] && r[|p| + 1..] == s;
  }

  /** The renamed map, path by path, when nothing is under the new name */
  lemma RenamedAt(m: Contents, p: Path, a: string, b: string, q: Path)
    requires b == a || forall r: Path :: r in m ==> !(p + [b] <= r)
    ensures At(Renamed(m, p, a, b), q)
         == if p + [b] <= q then At(m, p + [a] + q[|p| + 1..])
            else if p + [a] <= q then None
            else At(m, q)
  {
    if p + [b] <= q {
      RedirectBack(p, a, b, q);
    } else {
      assert Redirect(p, b, a, q) == q;
      forall r: Path | r in m && Redirect(p, a, b, r) == q ensures r == q && !(p + [a] <= q) {
        if p + [a] <= r {
          RedirectBack(p, b, a, r);
        }
      }
    }
  }

  lemma MovedFiles(g: Geometry, y: System, w: Shape, p: Path, name: string, to: string)
    requires SystemOk(g, y, w) && HasEntry(y, p, name)
    ensures var f, y' := InoAt(y, p), Moved(g, y, w, p, name, to);
            && TreeOk(y.d, w) && WalkFrom(y.d, y.d.root, p) == Found(f) && Live(y.d, f)
            && name in y.d.nodes[f].hash && y.d.nodes[f].hash[name] in y.d.nodes
            && y'.d == Rename(y.d, f, name, to) && y'.files == y.files && y'.d.root == y.d.root
  {
    EntryLive(g, y, w, p, name);
    DirFacts(g, y, w, p);
  }

  lemma MovedWalk(g: Geometry, y: System, w: Shape, p: Path, name: string, to: string, q: Path, r: Path)
    requires SystemOk(g, y, w) && HasEntry(y, p, name)
    requires y.d.nodes[InoAt(y, p)].hash[name] in y.d.nodes
    requires WalkFrom(Rename(y.d, InoAt(y, p), name, to), y.d.root, q) == WalkFrom(y.d, y.d.root, r)
    ensures Content(Moved(g, y, w, p, name, to), q) == Content(y, r)
  {
    MovedFiles(g, y, w, p, name, to);
    hide SystemOk, TreeOk, IsDir, HasEntry, WalkFrom, Rename, Moved;
  }

  lemma MovedMissing(g: Geometry, y: System, w: Shape, p: Path, name: string, to: string, q: Path)
    requires SystemOk(g, y, w) && HasEntry(y, p, name)
    requires y.d.nodes[InoAt(y, p)].hash[name] in y.d.nodes
    requires WalkFrom(Rename(y.d, InoAt(y, p), name, to), y.d.root, q) == Missing
    ensures Content(Moved(g, y, w, p, name, to), q) == None
  {
    MovedFiles(g, y, w, p, name, to);
    hide SystemOk, TreeOk, IsDir, HasEntry, WalkFrom, Rename, Moved;
  }

  lemma NeitherIsClear(p: Path, name: string, to: string, q: Path)
    requires !(p + [to] <= q) && !(p + [name] <= q)
    ensures Clear(p, {name, to}, q)
  {
    var s := ThroughOrClear(p, to, q);
    var t := ThroughOrClear(p, name, q);
    if Clear(p, {to}, q) && Clear(p, {name}, q) {
      ClearBoth(p, name, to, q);
    }
  }

  /** Everything below the entry is found below its new name, nothing below the old */
  lemma MovedBelow(g: Geometry, y: System, w: Shape, p: Path, name: string, to: string, s: Path)
    requires SystemOk(g, y, w) && HasEntry(y, p, name)
    ensures Content(Moved(g, y, w, p, name, to), p + [to] + s) == Content(y, p + [name] + s)
    ensures to != name ==> Content(Moved(g, y, w, p, name, to), p + [name] + s) == None
  {
    MovedFiles(g, y, w, p, name, to);
    hide SystemOk, TreeOk, IsDir, HasEntry, WalkFrom, Rename, Moved, Content;
    RenameBelow(y.d, w, p, InoAt(y, p), name, to, s);
    MovedWalk(g, y, w, p, name, to, p + [to] + s, p + [name] + s);
    if to != name {
      MovedMissing(g, y, w, p, name, to, p + [name] + s);
    }
  }

  lemma MovedElsewhere(g: Geometry, y: System, w: Shape, p: Path, name: string, to: string, q: Path)
    requires SystemOk(g, y, w) && HasEntry(y, p, name) && Clear(p, {name, to}, q)
    ensures Content(Moved(g, y, w, p, name, to), q) == Content(y, q)
  {
    MovedFiles(g, y, w, p, name, to);
    hide SystemOk, TreeOk, IsDir, HasEntry, WalkFrom, Rename, Moved, Content, Clear;
    RenameOthers(y.d, w, p, InoAt(y, p), name, to, q);
    MovedWalk(g, y, w, p, name, to, q, q);
  }

  lemma Through(p: Path, name: string, q: Path)
    requires p + [name] <= q
    ensures q == p + [name] + q[|p| + 1..]
  {
  }

  lemma MovedContent(g: Geometry, y: System, w: Shape, p: Path, name: string, to: string, q: Path)
    requires SystemOk(g, y, w) && HasEntry(y, p, name)
    ensures Content(Moved(g, y, w, p, name, to), q)
         == if p + [to] <= q then Content(y, p + [name] + q[|p| + 1..])
            else if p + [name] <= q then None
            else Content(y, q)
  {
    hide SystemOk, HasEntry, Clear, Moved, Content;
    if p + [to] <= q {
      Through(p, to, q);
      MovedBelow(g, y, w, p, name, to, q[|p| + 1..]);
    } else if p + [name] <= q {
      Through(p, name, q);
      MovedBelow(g, y, w, p, name, to, q[|p| + 1..]);
    } else {
      NeitherIsClear(p, name, to, q);
      MovedElsewhere(g, y, w, p, name, to, q);
    }
  }

  lemma ClearBoth(p: Path, a: string, b: string, q: Path)
    requires Clear(p, {a}, q) && Clear(p, {b}, q)
    ensures Clear(p, {a, b}, q)
  {
  }

  lemma MovedAbs(g: Geometry, y: System, w: Shape, p: Path, name: string, to: string, m: Contents)
    requires SystemOk(g, y, w) && HasEntry(y, p, name) && (to == name || !HasEntry(y, p, to)) && Abs(y, m)
    ensures Abs(Moved(g, y, w, p, name, to), Renamed(m, p, name, to))
  {
    NewNameUnused(g, y, w, p, name, to, m);
    hide SystemOk, HasEntry, Content, Moved, Renamed;
    forall q: Path ensures Content(Moved(g, y, w, p, name, to), q) == At(Renamed(m, p, name, to), q) {
      MovedContent(g, y, w, p, name, to, q);
      RenamedAt(m, p, name, to, q);
      AbsAt(y, m, q);
      if p + [to] <= q {
        AbsAt(y, m, p + [name] + q[|p| + 1..]);
      }
    }
  }

  lemma AbsAt(y: System, m: Contents, q: Path)
    requires Abs(y, m)
    ensures Content(y, q) == At(m, q)
  {
  }

  lemma NewNameUnused(g: Geometry, y: System, w: Shape, p: Path, name: string, to: string, m: Contents)
    requires SystemOk(g, y, w) && IsDir(y, p) && (to == name || !HasEntry(y, p, to)) && Abs(y, m)
    ensures to == name || forall r: Path :: r in m ==> !(p + [to] <= r)
  {
    hide SystemOk, HasEntry, Content, IsDir;
    if to != name {
      forall r: Path | r in m ensures !(p + [to] <= r) {
        AbsAt(y, m, r);
        if p + [to] <= r {
          NothingThere(g, y, w, p, to, r);
        }
      }
    }
  }

  lemma NothingThere(g: Geometry, y: System, w: Shape, p: Path, to: string, r: Path)
    requires SystemOk(g, y, w) && IsDir(y, p) && !HasEntry(y, p, to) && p + [to] <= r
    ensures Content(y, r) == None
  {
    DirFacts(g, y, w, p);
    assert r == p + [to] + r[|p| + 1..];
    WalkPast(y.d, p, InoAt(y, p), to, r[|p| + 1..]);
  }

  lemma WriteContent(g: Geometry, y: System, w: Shape, p: Path, i: nat, h: Bytes, q: Path)
    requires SystemOk(g, y, w) && WalkFrom(y.d, y.d.root, p) == Found(i)
    ensures Content(y.(files := y.files[i := h]), q) == if q == p then Some(h) else Content(y, q)
  {
    hide TreeOk, H.Holds, WalkFrom;
    if WalkFrom(y.d, y.d.root, q) == Found(i) {
      SamePath(y.d, w, p, q);
    }
  }

  lemma SameContents(y: System, y': System, q: Path)
    requires y'.d == y.d && y'.files == y.files
    ensures Content(y', q) == Content(y, q)
  {
  }

  lemma WroteFiles(g: Geometry, again: Visit, y: System, w: Shape, p: Path, o: nat, data: Bytes, net: seq<Outcome>)
    requires MayWrite(g, again, y, w, p, o, data, net)
    ensures var y', i := Wrote(g, again, y, w, p, o, data, net), InoAt(y, p);
            && i in y.files && o <= |y.files[i]| && WalkFrom(y.d, y.d.root, p) == Found(i)
            && y'.d == y.d && y'.files == y.files[i := Overlay(y.files[i], o, data)]
  {
    hide SystemOk, F.WriteLoop, T.Plan, WalkFrom;
  }

  lemma WriteAbs(g: Geometry, again: Visit, y: System, w: Shape, p: Path, o: nat, data: Bytes, net: seq<Outcome>,
                 m: Contents)
    requires MayWrite(g, again, y, w, p, o, data, net) && Abs(y, m)
    ensures Abs(Wrote(g, again, y, w, p, o, data, net), Effect(m, WriteTo(p, o, data, net)))
  {
    WroteFiles(g, again, y, w, p, o, data, net);
    var i := InoAt(y, p);
    var h := Overlay(y.files[i], o, data);
    var y', m' := Wrote(g, again, y, w, p, o, data, net), Effect(m, WriteTo(p, o, data, net));
    hide SystemOk, H.Legal, WalkFrom, Abs, Wrote, MayWrite, Effect, Overlay, Content, At;
    ContentThere(y, p, i);
    forall q: Path ensures Content(y', q) == At(m', q) {
      AbsAt(y, m, p);
      AbsAt(y, m, q);
      WriteContent(g, y, w, p, i, h, q);
      SameContents(y.(files := y.files[i := h]), y', q);
      WriteEffect(m, p, o, data, net, y.files[i], q);
    }
    AbsFrom(y', m');
  }

  lemma ContentThere(y: System, p: Path, i: nat)
    requires WalkFrom(y.d, y.d.root, p) == Found(i) && i in y.files
    ensures Content(y, p) == Some(y.files[i])
  {
  }

  lemma WriteEffect(m: Contents, p: Path, o: nat, data: Bytes, net: seq<Outcome>, f: Bytes, q: Path)
    requires At(m, p) == Some(f) && o <= |f|
    ensures At(Effect(m, WriteTo(p, o, data, net)), q) == if q == p then Some(Overlay(f, o, data)) else At(m, q)
  {
  }

  lemma AbsFrom(y: System, m: Contents)
    requires forall q: Path :: Content(y, q) == At(m, q)
    ensures Abs(y, m)
  {
  }

  /** Every legal call changes the contents of the paths as specified */
  lemma StepAbs(g: Geometry, again: Visit, y: System, w: Shape, c: Call, m: Contents)
    requires SystemOk(g, y, w) && Legal(g, again, y, w, c) && Abs(y, m)
    ensures Abs(Step(g, again, y, w, c), Effect(m, c))
  {
    match c
    case Make(q, name, dir, addr) =>
      DirFacts(g, y, w, q);
      MadeAbs(g, y, w, q, name, dir, addr, m);
    case Remove(q, name) => RemovedAbs(g, y, w, q, name, m);
    case Move(q, name, to) => MovedAbs(g, y, w, q, name, to, m);
    case WriteTo(q, o, data, net) => WriteAbs(g, again, y, w, q, o, data, net, m);
    case ReadOf(_, _, _, _) => OnlyStore(y, Step(g, again, y, w, c), m);
    case Flush(_, _) => OnlyStore(y, Step(g, again, y, w, c), m);
  }

  lemma OnlyStore(y: System, y': System, m: Contents)
    requires Abs(y, m) && y'.d == y.d && y'.files == y.files
    ensures Abs(y', m)
  {
    forall q: Path ensures Content(y', q) == At(m, q) {
      AbsAt(y, m, q);
    }
  }

  /** A read returns the bytes the map has at the path */
  lemma ReadReturns(g: Geometry, again: Visit, y: System, w: Shape, c: Call, m: Contents)
    requires SystemOk(g, y, w) && c.ReadOf? && Legal(g, again, y, w, c) && Abs(y, m)
    ensures F.FsOk(g, y.fs) && NetOk(g, c.net) && InoAt(y, c.path) in y.fs.inodes
    ensures c.path in m && c.offset <= |m[c.path]|
    ensures Returned(g, y, c) == Some(m[c.path][c.offset..F.Smaller(c.offset + c.count, |m[c.path]|)])
  {
    hide SystemOk, F.ReadLoop, WalkFrom, Abs, H.Legal;
    AbsAt(y, m, c.path);
    ReadInode(g, y, w, InoAt(y, c.path), c.offset, c.count, c.net);
  }

  lemma ReadInode(g: Geometry, y: System, w: Shape, i: nat, o: nat, n: nat, net: seq<Outcome>)
    requires SystemOk(g, y, w) && i in y.files && o <= |y.files[i]| && NetOk(g, net) && AllWell(net)
    ensures F.FsOk(g, y.fs) && F.FsOk(g, F.Faced(y.fs, net)) && i in y.fs.inodes
    ensures F.ReadLoop(g, F.Faced(y.fs, net), i, o, n).1 == Some(y.files[i][o..F.Smaller(o + n, |y.files[i]|)])
  {
    hide TreeOk, F.FsOk, FileIs, F.ReadLoop, H.Holds, NetOk, Healthy;
    FileOpen(g, y, w, i);
    hide Covered, Linked;
    H.FacedHolds(g, y.fs, y.files, net);
    H.ReadHolds(g, F.Faced(y.fs, net), y.files, i, o, n);
  }

  lemma FileOpen(g: Geometry, y: System, w: Shape, i: nat)
    requires SystemOk(g, y, w) && i in y.files
    ensures F.FsOk(g, y.fs) && i in y.fs.inodes
  {
    hide TreeOk, F.FsOk, FileIs;
  }

  // ----- whole runs -----

  ghost predicate RunStep(g: Geometry, again: Visit, y: System, w: Shape, c: Call, y': System, w': Shape) {
    SystemOk(g, y, w) ==>
      Legal(g, again, y, w, c) && y' == Step(g, again, y, w, c) && w' == NextShape(y, w, c)
  }

  ghost predicate Run(g: Geometry, again: Visit, states: seq<System>, shapes: seq<Shape>, calls: seq<Call>) {
    && |states| == |shapes| == |calls| + 1
    && SystemOk(g, states[0], shapes[0])
    && forall n :: 0 <= n < |calls| ==> RunStep(g, again, states[n], shapes[n], calls[n], states[n + 1], shapes[n + 1])
  }

  /** The specification's state after the first n calls */
  function After(m: Contents, calls: seq<Call>, n: nat): Contents
    requires n <= |calls|
  {
    if n == 0 then m else Effect(After(m, calls, n - 1), calls[n - 1])
  }

  /** The file system is a map from paths to bytes: after any run of legal calls
      every path has the contents the map gives it, and every read returned the
      bytes of its time */
  lemma {:induction false} RunRefines(g: Geometry, again: Visit, states: seq<System>, shapes: seq<Shape>,
                                      calls: seq<Call>, m: Contents, n: nat)
    requires Run(g, again, states, shapes, calls) && Abs(states[0], m) && n < |states|
    ensures SystemOk(g, states[n], shapes[n]) && Abs(states[n], After(m, calls, n))
    ensures n < |calls| && calls[n].ReadOf? ==>
              var c, now := calls[n], After(m, calls, n);
              && F.FsOk(g, states[n].fs) && NetOk(g, c.net) && InoAt(states[n], c.path) in states[n].fs.inodes
              && c.path in now && c.offset <= |now[c.path]|
              && Returned(g, states[n], c)
                 == Some(now[c.path][c.offset..F.Smaller(c.offset + c.count, |now[c.path]|)])
    decreases n
  {
    hide SystemOk, Legal, Step, Abs, Effect, Returned, NextShape;
    if n > 0 {
      RunRefines(g, again, states, shapes, calls, m, n - 1);
      assert RunStep(g, again, states[n - 1], shapes[n - 1], calls[n - 1], states[n - 1 + 1], shapes[n - 1 + 1]);
      StepOk(g, again, states[n - 1], shapes[n - 1], calls[n - 1]);
      StepAbs(g, again, states[n - 1], shapes[n - 1], calls[n - 1], After(m, calls, n - 1));
    }
    if n < |calls| && calls[n].ReadOf? {
      assert RunStep(g, again, states[n], shapes[n], calls[n], states[n + 1], shapes[n + 1]);
      ReadReturns(g, again, states[n], shapes[n], calls[n], After(m, calls, n));
    }
  }

  // ----- the start -----

  /** The state after dhmp_init: an empty root directory beside the free inodes */
  function InitialSystem(g: Geometry, slab: nat): System
    requires g.Ok()
  {
    var fs := H.InitialFs(g, slab);
    var nodes := map i | i in fs.inodes :: Node("", false, map[], [], 0);
    System(Dirs(nodes[slab := Node("/", true, map[], [], 0)], fs.slab, slab),
           fs.(inodes := fs.inodes[slab := F.Inode(0, map[], [])]), map[])
  }

  lemma InitialSlots(g: Geometry, slab: nat)
    requires g.Ok()
    ensures F.FsOk(g, InitialSystem(g, slab).fs)
  {
    var fs, fs' := H.InitialFs(g, slab), InitialSystem(g, slab).fs;
    H.InitialHolds(g, slab);
    hide StoreOk;
    assert forall i :: i in fs'.inodes ==> fs'.inodes[i] == F.Inode(0, map[], []);
    assert forall d :: 0 <= d < g.Chunks() ==> F.ChunkOwned(fs', d);
    assert F.SlabOk(fs');
  }

  lemma InitialTree(g: Geometry, slab: nat)
    requires g.Ok()
    ensures TreeOk(InitialSystem(g, slab).d, Shape(map[], map[slab := 0]))
    ensures forall i :: Live(InitialSystem(g, slab).d, i) <==> i == slab
    ensures Linked(InitialSystem(g, slab).d, InitialSystem(g, slab).fs)
  {
    var y := InitialSystem(g, slab);
    forall i: nat | i < slab ensures i in y.d.slab {
      assert y.d.slab[i] == i;
    }
    assert forall i, j :: 0 <= i < j < slab ==> y.d.slab[i] != y.d.slab[j];
  }

  lemma InitialOk(g: Geometry, slab: nat)
    requires g.Ok()
    ensures SystemOk(g, InitialSystem(g, slab), Shape(map[], map[slab := 0]))
    ensures Abs(InitialSystem(g, slab), map[])
  {
    InitialSlots(g, slab);
    InitialTree(g, slab);
    hide TreeOk, F.FsOk, Linked, WalkFrom;
  }
}
