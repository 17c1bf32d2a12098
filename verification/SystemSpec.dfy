/** The directory tree and the file layer together: one inode table, one slab, and
    what a path's content is. */
module SystemSpec {
  import opened Basics
  import opened FileIndex
  import opened BankCache
  import F = FileSpec
  import opened FileProofs
  import R = FileRuns
  import H = FileHistory
  import opened TreeSpec

  type Files = map<nat, Bytes>

  /** files gives the bytes of every live inode that is no directory */
  datatype System = System(d: Dirs, fs: F.Fs, files: Files)

  ghost predicate Linked(d: Dirs, fs: F.Fs) {
    d.slab == fs.slab && d.nodes.Keys == fs.inodes.Keys
  }

  ghost predicate Covered(d: Dirs, files: Files) {
    forall i :: i in files <==> Live(d, i) && !d.nodes[i].isDir
  }

  ghost predicate SystemOk(g: Geometry, y: System, w: Shape) {
    TreeOk(y.d, w) && Linked(y.d, y.fs) && Covered(y.d, y.files) && H.Holds(g, y.fs, y.files)
  }

  // ----- removing a subtree from the file layer -----

  ghost predicate Removable(g: Geometry, fs: F.Fs, l: seq<nat>) {
    F.FsOk(g, fs) && Distinct(l) && forall i :: i in l ==> i in fs.inodes && i !in fs.slab
  }

  lemma RemoveOne(g: Geometry, fs: F.Fs, l: seq<nat>)
    requires Removable(g, fs, l) && l != []
    ensures l[0] in l && Removable(g, R.Reset(g, fs, l[0]), l[1..])
    ensures R.Reset(g, fs, l[0]).inodes.Keys == fs.inodes.Keys
  {
    hide F.FsOk, R.Reset;
    R.ResetKeeps(g, fs, l[0]);
    R.ResetKeys(g, fs, l[0]);
  }

  /** reset_indoe for one inode after the other */
  ghost function ResetFiles(g: Geometry, fs: F.Fs, l: seq<nat>): F.Fs
    requires Removable(g, fs, l)
    decreases |l|
  {
    if l == [] then fs
    else
      RemoveOne(g, fs, l);
      ResetFiles(g, R.Reset(g, fs, l[0]), l[1..])
  }

  /** Which chunks are in the context lists of the inodes */
  ghost predicate Held(fs: F.Fs, l: seq<nat>, c: nat) {
    exists i :: i in l && i in fs.inodes && c in fs.inodes[i].contexts
  }

  lemma HeldNext(g: Geometry, fs: F.Fs, l: seq<nat>, c: nat)
    requires Removable(g, fs, l) && l != []
    ensures l[0] in fs.inodes
    ensures Held(fs, l, c) <==> c in fs.inodes[l[0]].contexts || Held(R.Reset(g, fs, l[0]), l[1..], c)
  {
    R.EmptiedShape(g, fs, l[0]);
    assert l == [l[0]] + l[1..];
    assert forall i :: i in l[1..] ==> i != l[0];
    hide F.FsOk, Distinct;
  }

  /** A recursive delete empties every inode it reaches, appends them to the slab in
      its order, and gives exactly their chunks back to the bitmap */
  lemma {:induction false} ResetFilesKeeps(g: Geometry, fs: F.Fs, l: seq<nat>)
    requires Removable(g, fs, l)
    ensures var fs' := ResetFiles(g, fs, l);
            && F.FsOk(g, fs') && fs'.slab == fs.slab + l && fs'.inodes.Keys == fs.inodes.Keys
            && |fs.bitmap| == |fs'.bitmap| == g.Chunks()
            && (forall c :: 0 <= c < g.Chunks() ==> (fs'.bitmap[c] <==> fs.bitmap[c] && !Held(fs, l, c)))
    decreases |l|
  {
    hide F.FsOk, R.Reset, Held, Distinct;
    if l == [] {
      BitmapSize(g, fs);
      forall c ensures !Held(fs, l, c) {
        NoneHeld(fs, c);
      }
    } else {
      var fs1 := R.Reset(g, fs, l[0]);
      RemoveOne(g, fs, l);
      R.ResetKeeps(g, fs, l[0]);
      BitmapSize(g, fs);
      BitmapSize(g, fs1);
      ResetFilesKeeps(g, fs1, l[1..]);
      forall c | 0 <= c < g.Chunks()
        ensures Held(fs, l, c) <==> c in fs.inodes[l[0]].contexts || Held(fs1, l[1..], c)
      {
        HeldNext(g, fs, l, c);
      }
      assert fs.slab + [l[0]] + l[1..] == fs.slab + l;
    }
  }

  lemma NoneHeld(fs: F.Fs, c: nat)
    ensures !Held(fs, [], c)
  {
  }

  lemma BitmapSize(g: Geometry, fs: F.Fs)
    requires F.FsOk(g, fs)
    ensures |fs.bitmap| == g.Chunks()
  {
  }

  lemma {:induction false} ResetFilesEmpties(g: Geometry, fs: F.Fs, l: seq<nat>, i: nat)
    requires Removable(g, fs, l) && i in fs.inodes
    ensures i in ResetFiles(g, fs, l).inodes
    ensures ResetFiles(g, fs, l).inodes[i] == if i in l then F.Inode(0, map[], []) else fs.inodes[i]
    decreases |l|
  {
    hide F.FsOk, R.Reset, Distinct;
    if l != [] {
      RemoveOne(g, fs, l);
      ResetOthersKept(g, fs, l[0], i);
      R.ResetKeeps(g, fs, l[0]);
      ResetFilesEmpties(g, R.Reset(g, fs, l[0]), l[1..], i);
      assert l == [l[0]] + l[1..];
    }
  }

  lemma ResetOthersKept(g: Geometry, fs: F.Fs, x: nat, i: nat)
    requires F.FsOk(g, fs) && x in fs.inodes && i in fs.inodes
    ensures i in R.Reset(g, fs, x).inodes
    ensures i != x ==> R.Reset(g, fs, x).inodes[i] == fs.inodes[i]
  {
    R.EmptiedShape(g, fs, x);
  }

  /** and the other files are as they were */
  lemma {:induction false} ResetFilesOther(g: Geometry, fs: F.Fs, l: seq<nat>, k: nat, h: Bytes)
    requires Removable(g, fs, l) && k !in l && FileIs(g, fs, k, h)
    ensures FileIs(g, ResetFiles(g, fs, l), k, h)
    decreases |l|
  {
    hide F.FsOk, R.Reset, Distinct, FileIs;
    if l != [] {
      RemoveOne(g, fs, l);
      H.RemovedOther(g, fs, l[0], k, h);
      ResetFilesOther(g, R.Reset(g, fs, l[0]), l[1..], k, h);
    }
  }
}
