/** What the operations do to the resolution of paths: only the named path and
    those below it change. */
module TreeTheorems {
  import opened TreeSpec
  import opened TreeProofs
  import opened TreeDelete

  // ----- walks in a tree -----

  /** A walk along two stretches is the walk along the second from where the first
      ends */
  lemma {:induction false} WalkAppend(d: Dirs, i: nat, a: seq<string>, b: seq<string>)
    ensures WalkFrom(d, i, a + b) ==
              var m := WalkFrom(d, i, a); if m.Found? then WalkFrom(d, m.ino, b) else m
    decreases |a|
  {
    if a == [] {
      assert a + b == b;
    } else {
      assert (a + b)[0] == a[0] && (a + b)[1..] == a[1..] + b;
      var next := Lookup(d, i, a[0]);
      if next.Found? {
        WalkAppend(d, next.ino, a[1..], b);
      }
    }
  }

  lemma WalkOne(d: Dirs, i: nat, name: string)
    ensures WalkFrom(d, i, [name]) == Lookup(d, i, name)
  {
    var next := Lookup(d, i, name);
    if next.Found? {
      assert WalkFrom(d, next.ino, [name][1..]) == next;
    }
  }

  lemma {:induction false} WalkLive(d: Dirs, w: Shape, i: nat, segs: seq<string>)
    requires TreeOk(d, w) && Live(d, i) && WalkFrom(d, i, segs).Found?
    ensures Live(d, WalkFrom(d, i, segs).ino)
    decreases |segs|
  {
    hide TreeOk;
    if segs != [] {
      EntryFacts(d, w, i, segs[0]);
      WalkLive(d, w, Lookup(d, i, segs[0]).ino, segs[1..]);
    }
  }

  /** The last step of a walk comes from the father, by the name of the inode */
  lemma LastStep(d: Dirs, w: Shape, i: nat, segs: seq<string>) returns (p: nat)
    requires TreeOk(d, w) && Live(d, i) && WalkFrom(d, i, segs).Found? && segs != []
    ensures var n, j := |segs| - 1, WalkFrom(d, i, segs).ino;
            && WalkFrom(d, i, segs[..n]) == Found(p) && Live(d, p) && Lookup(d, p, segs[n]) == Found(j)
            && Live(d, j) && j != d.root && j in w.parent && w.parent[j] == p && d.nodes[j].name == segs[n]
  {
    hide TreeOk, WalkFrom, Lookup;
    var n := |segs| - 1;
    assert segs == segs[..n] + [segs[n]];
    WalkAppend(d, i, segs[..n], [segs[n]]);
    p := WalkFrom(d, i, segs[..n]).ino;
    WalkOne(d, p, segs[n]);
    WalkLive(d, w, i, segs[..n]);
    StepDown(d, w, p, segs[n]);
  }

  lemma StepDown(d: Dirs, w: Shape, p: nat, name: string)
    requires TreeOk(d, w) && Live(d, p) && Lookup(d, p, name).Found?
    ensures var j := Lookup(d, p, name).ino;
            Live(d, j) && j != d.root && j in w.parent && w.parent[j] == p && d.nodes[j].name == name
  {
    EntryFacts(d, w, p, name);
    SonFacts(d, w, p, d.nodes[p].hash[name]);
  }

  /** Every inode has one path from the root */
  lemma {:induction false} SamePath(d: Dirs, w: Shape, a: seq<string>, b: seq<string>)
    requires TreeOk(d, w) && WalkFrom(d, d.root, a).Found? && WalkFrom(d, d.root, a) == WalkFrom(d, d.root, b)
    ensures a == b
    decreases |a|
  {
    RootLive(d, w);
    WalkNone(d);
    hide TreeOk, WalkFrom, Lookup;
    if a == [] {
      if b != [] {
        var q := LastStep(d, w, d.root, b);
      }
    } else {
      var p := LastStep(d, w, d.root, a);
      if b != [] {
        var q := LastStep(d, w, d.root, b);
        SamePath(d, w, a[..|a| - 1], b[..|b| - 1]);
        SameEnds(a, b);
      }
    }
  }

  lemma SameEnds(a: seq<string>, b: seq<string>)
    requires a != [] && b != [] && a[..|a| - 1] == b[..|b| - 1] && a[|a| - 1] == b[|b| - 1]
    ensures a == b
  {
    assert a == a[..|a| - 1] + [a[|a| - 1]];
    assert b == b[..|b| - 1] + [b[|b| - 1]];
  }

  lemma WalkNone(d: Dirs)
    ensures WalkFrom(d, d.root, []) == Found(d.root)
  {
  }

  lemma RootLive(d: Dirs, w: Shape)
    requires TreeOk(d, w)
    ensures Live(d, d.root) && d.root in w.rank && d.root !in w.parent && d.nodes[d.root].isDir
  {
  }

  /** Whatever lies under x is reached through x */
  lemma {:induction false} UnderThrough(d: Dirs, w: Shape, p: seq<string>, r: seq<string>)
    requires TreeOk(d, w) && WalkFrom(d, d.root, p).Found? && WalkFrom(d, d.root, r).Found?
    requires p != [] && WalkFrom(d, d.root, p).ino in w.rank
    requires Under(w, WalkFrom(d, d.root, r).ino, WalkFrom(d, d.root, p).ino)
    ensures p <= r
    decreases |r|
  {
    RootLive(d, w);
    var x, j := WalkFrom(d, d.root, p).ino, WalkFrom(d, d.root, r).ino;
    hide TreeOk;
    if j == x {
      SamePath(d, w, p, r);
    } else {
      if r == [] {
        assert false;
      } else {
        var q := LastStep(d, w, d.root, r);
        UnderThrough(d, w, p, r[..|r| - 1]);
      }
    }
  }

  // ----- paths left alone -----

  /** The paths that do not go through f by one of the names */
  predicate Clear(pf: seq<string>, names: set<string>, q: seq<string>) {
    |q| <= |pf| || q[..|pf|] != pf || q[|pf|] !in names
  }

  /** Both states look a name up alike */
  ghost predicate SameStep(d: Dirs, d': Dirs, j: nat, name: string) {
    Lookup(d', j, name) == Lookup(d, j, name)
  }

  lemma {:induction false} WalkSame(d: Dirs, d': Dirs, i: nat, q: seq<string>)
    requires forall k: nat :: k < |q| && WalkFrom(d, i, q[..k]).Found? ==>
               SameStep(d, d', WalkFrom(d, i, q[..k]).ino, q[k])
    ensures WalkFrom(d', i, q) == WalkFrom(d, i, q)
    decreases |q|
  {
    if q != [] {
      var next := Lookup(d, i, q[0]);
      assert WalkFrom(d, i, q[..0]) == Found(i);
      assert SameStep(d, d', i, q[0]);
      if next.Found? {
        forall k: nat | k < |q[1..]| && WalkFrom(d, next.ino, q[1..][..k]).Found?
          ensures SameStep(d, d', WalkFrom(d, next.ino, q[1..][..k]).ino, q[1..][k])
        {
          assert q[..k + 1][1..] == q[1..][..k] && q[..k + 1][0] == q[0];
          assert WalkFrom(d, i, q[..k + 1]) == WalkFrom(d, next.ino, q[1..][..k]);
        }
        WalkSame(d, d', next.ino, q[1..]);
      }
    }
  }

  /** Only f's entries under some names may have changed */
  ghost predicate Untouched(d: Dirs, d': Dirs, f: nat, names: set<string>, j: nat) {
    forall n: string :: j != f || n !in names ==> SameStep(d, d', j, n)
  }

  lemma ClearPrefix(pf: seq<string>, names: set<string>, q: seq<string>, k: nat)
    requires Clear(pf, names, q) && k < |q|
    ensures Clear(pf, names, q[..k]) && (q[..k] == pf ==> q[k] !in names)
  {
    if |pf| < k {
      assert q[..k][..|pf|] == q[..|pf|];
    }
  }

  /** A change that touches only f's entries under some names, and inodes reached
      through them, leaves every other path as it was */
  lemma ClearSame(d: Dirs, w: Shape, d': Dirs, f: nat, pf: seq<string>, names: set<string>, q: seq<string>)
    requires TreeOk(d, w) && d'.root == d.root && WalkFrom(d, d.root, pf) == Found(f) && Clear(pf, names, q)
    requires forall r: seq<string> :: Clear(pf, names, r) && WalkFrom(d, d.root, r).Found?
               ==> Untouched(d, d', f, names, WalkFrom(d, d.root, r).ino)
    ensures WalkFrom(d', d.root, q) == WalkFrom(d, d.root, q)
  {
    hide TreeOk, WalkFrom, SameStep, Clear;
    forall k: nat | k < |q| && WalkFrom(d, d.root, q[..k]).Found?
      ensures SameStep(d, d', WalkFrom(d, d.root, q[..k]).ino, q[k])
    {
      ClearPrefix(pf, names, q, k);
      if WalkFrom(d, d.root, q[..k]).ino == f {
        SamePath(d, w, q[..k], pf);
      }
    }
    WalkSame(d, d', d.root, q);
  }

  /** The walk on from the father by one name */
  lemma WalkPast(d: Dirs, pf: seq<string>, f: nat, name: string, s: seq<string>)
    requires WalkFrom(d, d.root, pf) == Found(f)
    ensures var next := Lookup(d, f, name);
            WalkFrom(d, d.root, pf + [name] + s) == if next.Found? then WalkFrom(d, next.ino, s) else next
  {
    hide Lookup, WalkFrom;
    WalkAppend(d, d.root, pf, [name]);
    WalkOne(d, f, name);
    WalkAppend(d, d.root, pf + [name], s);
  }

  /** f itself is reached as before */
  lemma FatherClear(pf: seq<string>, names: set<string>)
    ensures Clear(pf, names, pf)
  {
  }

  lemma CreateUntouched(d: Dirs, w: Shape, f: nat, name: string, dir: bool, addr: nat, j: nat)
    requires TreeOk(d, w) && Live(d, f) && addr !in d.nodes && Live(d, j)
    ensures Untouched(d, Create(d, f, name, dir, addr).0, f, {name}, j)
  {
    hide TreeOk, Create;
    CreateFrame(d, w, f, name, dir, addr);
  }

  lemma CreateOthers(d: Dirs, w: Shape, pf: seq<string>, f: nat, name: string, dir: bool, addr: nat, q: seq<string>)
    requires TreeOk(d, w) && WalkFrom(d, d.root, pf) == Found(f) && Live(d, f)
    requires d.nodes[f].isDir && name !in d.nodes[f].hash && addr !in d.nodes && Clear(pf, {name}, q)
    ensures WalkFrom(Create(d, f, name, dir, addr).0, d.root, q) == WalkFrom(d, d.root, q)
  {
    RootLive(d, w);
    hide TreeOk, Create, WalkFrom, Clear, Untouched;
    var d' := Create(d, f, name, dir, addr).0;
    assert d'.root == d.root by {
      CreateFrame(d, w, f, name, dir, addr);
    }
    forall r: seq<string> | WalkFrom(d, d.root, r).Found?
      ensures Untouched(d, d', f, {name}, WalkFrom(d, d.root, r).ino)
    {
      WalkLive(d, w, d.root, r);
      CreateUntouched(d, w, f, name, dir, addr, WalkFrom(d, d.root, r).ino);
    }
    ClearSame(d, w, d', f, pf, {name}, q);
  }

  /** Creating: the new path resolves to the new inode, nothing is below it, and
      every other path is as before */
  lemma CreateResolves(d: Dirs, w: Shape, pf: seq<string>, f: nat, name: string, dir: bool, addr: nat)
    requires TreeOk(d, w) && WalkFrom(d, d.root, pf) == Found(f) && Live(d, f)
    requires d.nodes[f].isDir && name !in d.nodes[f].hash && addr !in d.nodes
    ensures var (d', i) := Create(d, f, name, dir, addr);
            && WalkFrom(d, d.root, pf + [name]) == Missing && WalkFrom(d', d.root, pf + [name]) == Found(i)
            && (forall s: seq<string> :: s != [] ==>
                  WalkFrom(d', d.root, pf + [name] + s) == if dir then Missing else Fault)
            && (forall q :: Clear(pf, {name}, q) ==> WalkFrom(d', d.root, q) == WalkFrom(d, d.root, q))
  {
    hide TreeOk, Create, WalkFrom, Clear;
    var (d', i) := Create(d, f, name, dir, addr);
    CreateFrame(d, w, f, name, dir, addr);
    forall q | Clear(pf, {name}, q) ensures WalkFrom(d', d.root, q) == WalkFrom(d, d.root, q) {
      CreateOthers(d, w, pf, f, name, dir, addr, q);
    }
    FatherClear(pf, {name});
    WalkPast(d, pf, f, name, []);
    WalkPast(d', pf, f, name, []);
    assert pf + [name] + [] == pf + [name];
    NewHere(d', i);
    forall s: seq<string> | s != [] ensures WalkFrom(d', d.root, pf + [name] + s) == if dir then Missing else Fault {
      WalkPast(d', pf, f, name, s);
      NothingBelow(d', i, s);
    }
  }

  lemma NewHere(d: Dirs, i: nat)
    ensures WalkFrom(d, i, []) == Found(i)
  {
  }

  lemma NothingBelow(d: Dirs, i: nat, s: seq<string>)
    requires i in d.nodes && d.nodes[i].hash == map[] && s != []
    ensures WalkFrom(d, i, s) == if d.nodes[i].isDir then Missing else Fault
  {
  }

  /** A path that does not go through the deleted entry ends outside its subtree */
  lemma ClearOutside(d: Dirs, w: Shape, pf: seq<string>, f: nat, name: string, r: seq<string>)
    requires TreeOk(d, w) && WalkFrom(d, d.root, pf) == Found(f) && Live(d, f) && name in d.nodes[f].hash
    requires Clear(pf, {name}, r) && WalkFrom(d, d.root, r).Found? && d.nodes[f].hash[name] in w.rank
    ensures Live(d, WalkFrom(d, d.root, r).ino) && !Under(w, WalkFrom(d, d.root, r).ino, d.nodes[f].hash[name])
  {
    RootLive(d, w);
    EntryFacts(d, w, f, name);
    hide TreeOk, WalkFrom, Under, Clear;
    var x := d.nodes[f].hash[name];
    WalkLive(d, w, d.root, r);
    WalkPast(d, pf, f, name, []);
    NewHere(d, x);
    assert pf + [name] + [] == pf + [name];
    if Under(w, WalkFrom(d, d.root, r).ino, x) {
      UnderThrough(d, w, pf + [name], r);
      ThroughNotClear(pf, name, r);
    }
  }

  lemma ThroughNotClear(pf: seq<string>, name: string, r: seq<string>)
    requires pf + [name] <= r
    ensures !Clear(pf, {name}, r)
  {
    var p := pf + [name];
    assert r[..|pf|] == p[..|pf|] == pf && r[|pf|] == p[|pf|];
  }

  lemma DeleteOthers(d: Dirs, w: Shape, pf: seq<string>, f: nat, name: string, q: seq<string>)
    requires TreeOk(d, w) && WalkFrom(d, d.root, pf) == Found(f) && Live(d, f) && name in d.nodes[f].hash
    requires Clear(pf, {name}, q)
    ensures WalkFrom(Delete(d, w, f, name), d.root, q) == WalkFrom(d, d.root, q)
  {
    hide TreeOk, Delete, WalkFrom, Under, Without, Clear;
    var d' := Delete(d, w, f, name);
    DeleteFrame(d, w, f, name);
    forall r: seq<string> | Clear(pf, {name}, r) && WalkFrom(d, d.root, r).Found?
      ensures Untouched(d, d', f, {name}, WalkFrom(d, d.root, r).ino)
    {
      ClearOutside(d, w, pf, f, name, r);
    }
    ClearSame(d, w, d', f, pf, {name}, q);
  }

  lemma DeleteGone(d: Dirs, w: Shape, pf: seq<string>, f: nat, name: string, s: seq<string>)
    requires TreeOk(d, w) && WalkFrom(d, d.root, pf) == Found(f) && Live(d, f) && name in d.nodes[f].hash
    ensures WalkFrom(Delete(d, w, f, name), d.root, pf + [name] + s) == Missing
  {
    var d' := Delete(d, w, f, name);
    DeleteFrame(d, w, f, name);
    EntryFacts(d, w, f, name);
    assert Lookup(d', f, name) == Missing;
    hide TreeOk, Delete, WalkFrom, Under, Clear, Lookup;
    FatherClear(pf, {name});
    DeleteOthers(d, w, pf, f, name, pf);
    WalkPast(d', pf, f, name, s);
  }

  /** Deleting: the path and all below it are gone, every other is as before */
  lemma DeleteResolves(d: Dirs, w: Shape, pf: seq<string>, f: nat, name: string)
    requires TreeOk(d, w) && WalkFrom(d, d.root, pf) == Found(f) && Live(d, f) && name in d.nodes[f].hash
    ensures var d' := Delete(d, w, f, name);
            && (forall s: seq<string> :: WalkFrom(d', d.root, pf + [name] + s) == Missing)
            && (forall q :: Clear(pf, {name}, q) ==> WalkFrom(d', d.root, q) == WalkFrom(d, d.root, q))
  {
    hide TreeOk, Delete, WalkFrom, Clear;
    var d' := Delete(d, w, f, name);
    forall q | Clear(pf, {name}, q) ensures WalkFrom(d', d.root, q) == WalkFrom(d, d.root, q) {
      DeleteOthers(d, w, pf, f, name, q);
    }
    forall s: seq<string> ensures WalkFrom(d', d.root, pf + [name] + s) == Missing {
      DeleteGone(d, w, pf, f, name, s);
    }
  }

  /** From an inode that f is not under, a change at f's entries is never seen */
  lemma {:induction false} BelowSame(d: Dirs, w: Shape, d': Dirs, f: nat, names: set<string>, x: nat, i: nat,
                                     s: seq<string>)
    requires TreeOk(d, w) && Live(d, i) && x in w.rank && i in w.rank && Under(w, i, x) && !Under(w, f, x)
    requires forall j :: Live(d, j) ==> Untouched(d, d', f, names, j)
    ensures WalkFrom(d', i, s) == WalkFrom(d, i, s)
    decreases |s|
  {
    hide TreeOk;
    if s != [] {
      assert Untouched(d, d', f, names, i) && SameStep(d, d', i, s[0]);
      var next := Lookup(d, i, s[0]);
      if next.Found? {
        StepDown(d, w, i, s[0]);
        EntryFacts(d, w, i, s[0]);
        SonFacts(d, w, i, next.ino);
        NodeFacts(d, w, i);
        UnderRank(w, i, x);
        assert Under(w, next.ino, x);
        BelowSame(d, w, d', f, names, x, next.ino, s[1..]);
      }
    }
  }

  lemma RenameUntouched(d: Dirs, f: nat, name: string, to: string, j: nat)
    requires f in d.nodes && name in d.nodes[f].hash && d.nodes[f].hash[name] in d.nodes
    requires j in d.nodes
    ensures Untouched(d, Rename(d, f, name, to), f, {name, to}, j)
  {
  }

  lemma RenameOthers(d: Dirs, w: Shape, pf: seq<string>, f: nat, name: string, to: string, q: seq<string>)
    requires TreeOk(d, w) && WalkFrom(d, d.root, pf) == Found(f) && Live(d, f) && name in d.nodes[f].hash
    requires Live(d, d.nodes[f].hash[name]) && Clear(pf, {name, to}, q)
    ensures WalkFrom(Rename(d, f, name, to), d.root, q) == WalkFrom(d, d.root, q)
  {
    RootLive(d, w);
    RenameFrame(d, f, name, to);
    hide TreeOk, Rename, WalkFrom, Clear, Untouched;
    forall r: seq<string> | WalkFrom(d, d.root, r).Found?
      ensures Untouched(d, Rename(d, f, name, to), f, {name, to}, WalkFrom(d, d.root, r).ino)
    {
      WalkLive(d, w, d.root, r);
      RenameUntouched(d, f, name, to, WalkFrom(d, d.root, r).ino);
    }
    ClearSame(d, w, Rename(d, f, name, to), f, pf, {name, to}, q);
  }

  lemma RenameMoves(d: Dirs, w: Shape, f: nat, name: string, to: string, s: seq<string>)
    requires TreeOk(d, w) && Live(d, f) && name in d.nodes[f].hash && Live(d, d.nodes[f].hash[name])
    ensures WalkFrom(Rename(d, f, name, to), d.nodes[f].hash[name], s) == WalkFrom(d, d.nodes[f].hash[name], s)
  {
    var x := d.nodes[f].hash[name];
    EntryFacts(d, w, f, name);
    SonFacts(d, w, f, x);
    NodeFacts(d, w, f);
    NodeFacts(d, w, x);
    hide TreeOk, Rename, WalkFrom, Untouched, Under;
    NotAboveItself(w, f, x);
    UnderItself(w, x);
    forall j | Live(d, j) ensures Untouched(d, Rename(d, f, name, to), f, {name, to}, j) {
      RenameUntouched(d, f, name, to, j);
    }
    BelowSame(d, w, Rename(d, f, name, to), f, {name, to}, x, x, s);
  }

  lemma RenameLookups(d: Dirs, w: Shape, f: nat, name: string, to: string)
    requires TreeOk(d, w) && Live(d, f) && name in d.nodes[f].hash
    ensures Live(d, d.nodes[f].hash[name])
    ensures Lookup(d, f, name) == Found(d.nodes[f].hash[name])
    ensures Lookup(Rename(d, f, name, to), f, to) == Found(d.nodes[f].hash[name])
    ensures to != name ==> Lookup(Rename(d, f, name, to), f, name) == Missing
  {
    EntryFacts(d, w, f, name);
    RenameFrame(d, f, name, to);
  }

  lemma RenameBelow(d: Dirs, w: Shape, pf: seq<string>, f: nat, name: string, to: string, s: seq<string>)
    requires TreeOk(d, w) && WalkFrom(d, d.root, pf) == Found(f) && Live(d, f) && name in d.nodes[f].hash
    requires d.nodes[f].hash[name] in d.nodes
    ensures var d' := Rename(d, f, name, to);
            && WalkFrom(d', d.root, pf + [to] + s) == WalkFrom(d, d.root, pf + [name] + s)
            && (to != name ==> WalkFrom(d', d.root, pf + [name] + s) == Missing)
  {
    RenameLookups(d, w, f, name, to);
    RenameFrame(d, f, name, to);
    hide TreeOk, Rename, WalkFrom, Clear, Lookup;
    var d' := Rename(d, f, name, to);
    FatherClear(pf, {name, to});
    RenameOthers(d, w, pf, f, name, to, pf);
    WalkPast(d', pf, f, to, s);
    WalkPast(d, pf, f, name, s);
    WalkPast(d', pf, f, name, s);
    RenameMoves(d, w, f, name, to, s);
  }

  /** Renaming: all that was found below the old path is found below the new one,
      nothing below the old one, and every other path is as before */
  lemma RenameResolves(d: Dirs, w: Shape, pf: seq<string>, f: nat, name: string, to: string)
    requires TreeOk(d, w) && WalkFrom(d, d.root, pf) == Found(f) && Live(d, f) && name in d.nodes[f].hash
    requires d.nodes[f].hash[name] in d.nodes
    ensures var d' := Rename(d, f, name, to);
            && (forall s: seq<string> :: WalkFrom(d', d.root, pf + [to] + s) == WalkFrom(d, d.root, pf + [name] + s))
            && (to != name ==> forall s: seq<string> :: WalkFrom(d', d.root, pf + [name] + s) == Missing)
            && (forall q :: Clear(pf, {name, to}, q) ==> WalkFrom(d', d.root, q) == WalkFrom(d, d.root, q))
  {
    RenameLookups(d, w, f, name, to);
    hide TreeOk, Rename, WalkFrom, Clear, Lookup;
    var d' := Rename(d, f, name, to);
    forall q | Clear(pf, {name, to}, q) ensures WalkFrom(d', d.root, q) == WalkFrom(d, d.root, q) {
      RenameOthers(d, w, pf, f, name, to, q);
    }
    forall s: seq<string> ensures WalkFrom(d', d.root, pf + [to] + s) == WalkFrom(d, d.root, pf + [name] + s) {
      RenameBelow(d, w, pf, f, name, to, s);
    }
    if to != name {
      forall s: seq<string> ensures WalkFrom(d', d.root, pf + [name] + s) == Missing {
        RenameBelow(d, w, pf, f, name, to, s);
      }
    }
  }

  /** The code puts the inode back into its own directory: the path asked for
      resolves to it exactly when it names that directory */
  lemma RenameArrivesIff(d: Dirs, w: Shape, pf: seq<string>, f: nat, name: string, pt: seq<string>, to: string)
    requires TreeOk(d, w) && WalkFrom(d, d.root, pf) == Found(f) && Live(d, f) && name in d.nodes[f].hash
    requires d.nodes[f].hash[name] in d.nodes && (to == name || to !in d.nodes[f].hash)
    ensures WalkFrom(Rename(d, f, name, to), d.root, pt + [to]) == Found(d.nodes[f].hash[name]) <==> pt == pf
  {
    hide TreeOk, Rename, WalkFrom, Clear, Lookup;
    var d', x := Rename(d, f, name, to), d.nodes[f].hash[name];
    RenameKeeps(d, w, f, name, to);
    RenameBelow(d, w, pf, f, name, to, []);
    RenameLookups(d, w, f, name, to);
    RenameFrame(d, f, name, to);
    assert pf + [to] + [] == pf + [to] && pf + [name] + [] == pf + [name];
    WalkPast(d, pf, f, name, []);
    NewHere(d, x);
    assert WalkFrom(d', d'.root, pf + [to]) == Found(x);
    if WalkFrom(d', d.root, pt + [to]) == Found(x) {
      SamePath(d', w, pf + [to], pt + [to]);
      assert (pf + [to])[..|pf|] == pf && (pt + [to])[..|pt|] == pt;
    }
  }
}
