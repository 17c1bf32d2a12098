/** The calls on paths as the program makes them: splitting and walking a path
    character by character, and changing the inode records in place. */
module TreeClient {
  import opened Basics
  import opened PathSpec
  import opened TreeSpec
  import opened TreeProofs
  import opened TreeDelete
  import opened TreeTheorems

  /** A return code, or the fault of looking something up in what is no directory */
  datatype Status = Done(code: int) | Crash

  // ----- the calls as functions of the tree -----

  function Search(d: Dirs, path: string): Walk {
    WalkFrom(d, d.root, Segments(path))
  }

  /** dhmpMknod and dhmpCreateDirectory: only the second checks that the father is
      a directory */
  function MakeCall(d: Dirs, path: string, asDir: bool, addr: nat): (Dirs, Status)
    requires |path| > 0
  {
    if |path| == 1 then (d, Done(0))
    else
      match Search(d, DirName(path))
      case Fault => (d, Crash)
      case Missing => (d, Done(-1))
      case Found(f) =>
        if f !in d.nodes || !d.nodes[f].isDir then (d, if asDir then Done(-1) else Crash)
        else if FileName(path) in d.nodes[f].hash then (d, Done(-1))
        else (Create(d, f, FileName(path), asDir, addr).0, Done(1))
  }

  /** dhmpDelete */
  ghost function DeleteCall(d: Dirs, w: Shape, path: string): (Dirs, Status)
    requires TreeOk(d, w) && |path| > 0
  {
    if |path| == 1 then (d, Done(0))
    else
      match Search(d, DirName(path))
      case Fault => (d, Crash)
      case Missing => (d, Done(-1))
      case Found(f) =>
        RootLive(d, w);
        WalkLive(d, w, d.root, Segments(DirName(path)));
        if !d.nodes[f].isDir || FileName(path) !in d.nodes[f].hash then (d, Done(-1))
        else (Delete(d, w, f, FileName(path)), Done(1))
  }

  /** dhmp_fs_rename: whatever directory the second path names */
  ghost function RenameCall(d: Dirs, w: Shape, from: string, to: string): (Dirs, Status)
    requires TreeOk(d, w) && |from| > 1 && |to| > 1
  {
    match Search(d, DirName(from))
    case Fault => (d, Crash)
    case Missing => (d, Crash)
    case Found(f) =>
      RootLive(d, w);
      WalkLive(d, w, d.root, Segments(DirName(from)));
      if !d.nodes[f].isDir then (d, Crash)
      else if FileName(from) !in d.nodes[f].hash then (d, Done(-17))
      else
        EntryFacts(d, w, f, FileName(from));
        (Rename(d, f, FileName(from), FileName(to)), Done(0))
  }

  /** A path of the file system's root is found where its directory's entry is */
  lemma SearchByDeal(d: Dirs, path: string)
    requires |path| > 1 && path[0] == '/'
    ensures Search(d, path) ==
              var r := Search(d, DirName(path)); if r.Found? then Lookup(d, r.ino, FileName(path)) else r
  {
    hide Segments, DirName, FileName, WalkFrom, Lookup;
    DealAgreesWithWalk(path);
    WalkAppend(d, d.root, Segments(DirName(path)), [FileName(path)]);
    if Search(d, DirName(path)).Found? {
      WalkOne(d, Search(d, DirName(path)).ino, FileName(path));
    }
  }

  /** Paths that do not go through the named one */
  ghost predicate Elsewhere(path: string, q: string) {
    !(Segments(path) <= Segments(q))
  }

  lemma NotThroughClear(pf: seq<string>, name: string, q: seq<string>)
    requires !(pf + [name] <= q)
    ensures Clear(pf, {name}, q)
  {
  }

  lemma ElsewhereClear(path: string, q: string)
    requires |path| > 1 && path[0] == '/' && Elsewhere(path, q)
    ensures Clear(Segments(DirName(path)), {FileName(path)}, Segments(q))
  {
    hide Segments, DirName, FileName;
    DealAgreesWithWalk(path);
    NotThroughClear(Segments(DirName(path)), FileName(path), Segments(q));
  }

  /** mknod and mkdir answer 1 exactly when the path does not resolve but its directory
      does; -1 when the path resolves or its directory does not, and for mkdir
      below a file; they crash on a file on the way, mknod on one as directory;
      and answer 0 for the root alone */
  lemma MakeCallAnswers(d: Dirs, w: Shape, path: string, asDir: bool, addr: nat)
    requires TreeOk(d, w) && |path| > 0 && path[0] == '/' && addr !in d.nodes
    ensures var (d', s) := MakeCall(d, path, asDir, addr);
            && (s == Done(0) <==> |path| == 1)
            && (|path| > 1 ==>
                  var r, dir := Search(d, path), Search(d, DirName(path));
                  && (s == Done(1) <==> r == Missing && dir.Found?)
                  && (s == Crash <==> r == Fault && (dir == Fault || !asDir))
                  && (s == Done(-1) <==> r.Found? || dir == Missing || (r == Fault && dir.Found? && asDir)))
            && (s != Done(1) ==> d' == d)
  {
    if |path| > 1 {
      SearchByDeal(d, path);
      RootLive(d, w);
      if Search(d, DirName(path)).Found? {
        WalkLive(d, w, d.root, Segments(DirName(path)));
      }
    }
  }

  /** When they answer 1 the path resolves to an inode that was not in use, the first of
      the slab or a new one, a directory for mkdir and a file for mknod, with the
      son count it had; nothing is below it, and no other path outside it changes */
  lemma MakeCallExact(d: Dirs, w: Shape, path: string, asDir: bool, addr: nat)
    requires TreeOk(d, w) && |path| > 1 && path[0] == '/' && addr !in d.nodes
    ensures var (d', s) := MakeCall(d, path, asDir, addr);
            && (s == Done(1) <==> Search(d, path) == Missing && Search(d, DirName(path)).Found?)
            && (s == Done(1) ==>
                  && Search(d', path).Found?
                  && var i := Search(d', path).ino;
                     && !Live(d, i) && Live(d', i) && d'.nodes[i].isDir == asDir
                     && i == (if d.slab == [] then addr else d.slab[0])
                     && d'.slab == (if d.slab == [] then [] else d.slab[1..])
                     && d'.nodes[i] == Node(FileName(path), asDir, map[], [],
                                            if i in d.nodes then d.nodes[i].sonNums else 0)
                     && d'.root == d.root
                     && (forall s: seq<string> :: s != [] ==>
                           WalkFrom(d', d.root, Segments(path) + s) == if asDir then Missing else Fault)
                     && (forall q: string :: Elsewhere(path, q) ==> Search(d', q) == Search(d, q)))
            && (s != Done(1) ==> d' == d)
  {
    hide TreeOk, Create, WalkFrom, DirName, FileName, Segments, Clear, Elsewhere;
    SearchByDeal(d, path);
    RootLive(d, w);
    var (d', s) := MakeCall(d, path, asDir, addr);
    var r := Search(d, DirName(path));
    if r.Found? {
      WalkLive(d, w, d.root, Segments(DirName(path)));
      if s == Done(1) {
        CreateResolves(d, w, Segments(DirName(path)), r.ino, FileName(path), asDir, addr);
        CreateFrame(d, w, r.ino, FileName(path), asDir, addr);
        DealAgreesWithWalk(path);
        forall q: string | Elsewhere(path, q) ensures Search(d', q) == Search(d, q) {
          ElsewhereClear(path, q);
        }
      }
    }
  }

  lemma DeleteCallDone(d: Dirs, w: Shape, path: string, f: nat)
    requires TreeOk(d, w) && |path| > 1 && path[0] == '/'
    requires Search(d, DirName(path)) == Found(f) && Live(d, f) && FileName(path) in d.nodes[f].hash
    ensures var d' := Delete(d, w, f, FileName(path));
            Search(d', path) == Missing
            && forall q: string :: Elsewhere(path, q) ==> Search(d', q) == Search(d, q)
  {
    hide TreeOk, Delete, WalkFrom, DirName, FileName, Segments, Clear, Elsewhere;
    var pf, name := Segments(DirName(path)), FileName(path);
    DeleteGone(d, w, pf, f, name, []);
    DeleteRoot(d, w, f, name);
    DealAgreesWithWalk(path);
    assert pf + [name] + [] == pf + [name];
    forall q: string | Elsewhere(path, q)
      ensures Search(Delete(d, w, f, name), q) == Search(d, q)
    {
      ElsewhereClear(path, q);
      DeleteOthers(d, w, pf, f, name, Segments(q));
    }
  }

  lemma DeleteRoot(d: Dirs, w: Shape, f: nat, name: string)
    requires TreeOk(d, w) && Live(d, f) && name in d.nodes[f].hash
    ensures Delete(d, w, f, name).root == d.root
  {
    DeleteFrame(d, w, f, name);
  }

  /** unlink and rmdir succeed exactly when the path resolves; then it does not any
      more, and no other path outside it changes. They crash on a file on the way
      to the directory, and answer -1 otherwise. */
  lemma DeleteCallExact(d: Dirs, w: Shape, path: string)
    requires TreeOk(d, w) && |path| > 0 && path[0] == '/'
    ensures var (d', s) := DeleteCall(d, w, path);
            && (s == Done(0) <==> |path| == 1)
            && (s == Done(1) <==> |path| > 1 && Search(d, path).Found?)
            && (s == Crash <==> |path| > 1 && Search(d, DirName(path)) == Fault)
            && (s == Done(-1) <==> |path| > 1 && !Search(d, path).Found? && Search(d, DirName(path)) != Fault)
            && (s == Done(1) ==> Search(d', path) == Missing
                                 && forall q: string :: Elsewhere(path, q) ==> Search(d', q) == Search(d, q))
            && (s != Done(1) ==> d' == d)
  {
    hide Delete, WalkFrom, DirName, FileName, Segments, Elsewhere;
    if |path| == 1 {
      return;
    }
    SearchByDeal(d, path);
    RootLive(d, w);
    var r := Search(d, DirName(path));
    if r.Found? {
      WalkLive(d, w, d.root, Segments(DirName(path)));
      hide TreeOk;
      if FileName(path) in d.nodes[r.ino].hash && d.nodes[r.ino].isDir {
        DeleteCallDone(d, w, path, r.ino);
      }
    }
  }

  /** Where a rename puts the entry: under the new name, in the old directory */
  function Arrival(from: string, to: string): seq<string>
    requires |from| > 1 && |to| > 1
  {
    Segments(DirName(from)) + [FileName(to)]
  }

  ghost predicate NameFree(d: Dirs, from: string, to: string)
    requires |from| > 1 && |to| > 1
  {
    FileName(to) == FileName(from) || WalkFrom(d, d.root, Arrival(from, to)) == Missing
  }

  lemma NameFreeIs(d: Dirs, f: nat, from: string, to: string)
    requires |from| > 1 && |to| > 1
    requires Search(d, DirName(from)) == Found(f) && f in d.nodes && d.nodes[f].isDir
    ensures NameFree(d, from, to) <==> FileName(to) == FileName(from) || FileName(to) !in d.nodes[f].hash
  {
    hide WalkFrom, DirName, FileName, Segments;
    WalkAppend(d, d.root, Segments(DirName(from)), [FileName(to)]);
    WalkOne(d, f, FileName(to));
  }

  lemma BothClear(pf: seq<string>, a: string, b: string, q: seq<string>)
    requires !(pf + [a] <= q) && !(pf + [b] <= q)
    ensures Clear(pf, {a, b}, q)
  {
  }

  /** The answers of rename: 0 exactly when the old path resolves, -17 when only its
      directory does, and a crash otherwise */
  lemma RenameCallAnswers(d: Dirs, w: Shape, from: string, to: string)
    requires TreeOk(d, w) && |from| > 1 && |to| > 1 && from[0] == '/'
    ensures var (d', s) := RenameCall(d, w, from, to);
            && (s == Done(0) <==> Search(d, from).Found?)
            && (s == Done(-17) <==> Search(d, from) == Missing && Search(d, DirName(from)).Found?)
            && (s == Crash <==> Search(d, from) == Fault || Search(d, DirName(from)) == Missing)
            && (s != Done(0) ==> d' == d)
  {
    hide Rename, WalkFrom, DirName, FileName, Segments;
    SearchByDeal(d, from);
    RootLive(d, w);
    if Search(d, DirName(from)).Found? {
      WalkLive(d, w, d.root, Segments(DirName(from)));
      hide TreeOk;
    }
  }

  /** What a rename that answers 0 works on */
  lemma RenameCallDone(d: Dirs, w: Shape, from: string, to: string) returns (f: nat)
    requires TreeOk(d, w) && |from| > 1 && |to| > 1 && from[0] == '/' && Search(d, from).Found?
    ensures WalkFrom(d, d.root, Segments(DirName(from))) == Found(f) && Live(d, f) && d.nodes[f].isDir
    ensures FileName(from) in d.nodes[f].hash && d.nodes[f].hash[FileName(from)] in d.nodes
    ensures RenameCall(d, w, from, to).0 == Rename(d, f, FileName(from), FileName(to))
    ensures Search(d, from) == Found(d.nodes[f].hash[FileName(from)])
    ensures NameFree(d, from, to) <==> FileName(to) == FileName(from) || FileName(to) !in d.nodes[f].hash
  {
    hide Rename, WalkFrom, DirName, FileName, Segments;
    SearchByDeal(d, from);
    RootLive(d, w);
    f := Search(d, DirName(from)).ino;
    WalkLive(d, w, d.root, Segments(DirName(from)));
    EntryFacts(d, w, f, FileName(from));
    hide TreeOk;
    NameFreeIs(d, f, from, to);
  }

  /** A rename that answers 0 keeps the tree exactly when the new name is free in the
      old path's directory. Everything at and below the old path is then found at
      and below the new name there, so under the path asked for exactly if that
      names the same directory, and no path clear of the two names changes. */
  lemma RenameCallExact(d: Dirs, w: Shape, from: string, to: string)
    requires TreeOk(d, w) && |from| > 1 && |to| > 1 && from[0] == '/' && to[0] == '/' && Search(d, from).Found?
    ensures var d', there := RenameCall(d, w, from, to).0, Arrival(from, to);
            && (NameFree(d, from, to) ==> TreeOk(d', w))
            && (!NameFree(d, from, to) ==> forall v: Shape :: !TreeOk(d', v))
            && d'.root == d.root
            && (forall s: seq<string> :: WalkFrom(d', d.root, there + s) == WalkFrom(d, d.root, Segments(from) + s))
            && (forall q: string :: Elsewhere(from, q) && !(there <= Segments(q)) ==> Search(d', q) == Search(d, q))
            && (NameFree(d, from, to) ==>
                  (Search(d', to) == Search(d, from) <==> Segments(DirName(to)) == Segments(DirName(from))))
  {
    var f := RenameCallDone(d, w, from, to);
    var pf, name, name' := Segments(DirName(from)), FileName(from), FileName(to);
    DealAgreesWithWalk(from);
    DealAgreesWithWalk(to);
    hide TreeOk, Rename, RenameCall, WalkFrom, DirName, FileName, Segments, Clear;
    RenameFrame(d, f, name, name');
    RenameKeepsIff(d, w, f, name, name');
    RenameResolves(d, w, pf, f, name, name');
    if NameFree(d, from, to) {
      RenameArrivesIff(d, w, pf, f, name, Segments(DirName(to)), name');
    }
    forall q: string | Elsewhere(from, q) && !(Arrival(from, to) <= Segments(q))
      ensures Clear(pf, {name, name'}, Segments(q))
    {
      BothClear(pf, name, name', Segments(q));
    }
  }

  // ----- resets in two stretches -----

  lemma {:induction false} ResetNodesAppend(d: Dirs, a: seq<nat>, b: seq<nat>)
    ensures ResetNodes(d, a + b) == ResetNodes(ResetNodes(d, a), b)
    decreases |a|
  {
    if a == [] {
      assert a + b == b;
    } else {
      assert (a + b)[0] == a[0] && (a + b)[1..] == a[1..] + b;
      ResetNodesAppend(ResetNode(d, a[0]), a[1..], b);
    }
  }

  lemma {:induction false} ResetNodesOthers(d: Dirs, l: seq<nat>, k: nat)
    requires k !in l && k in d.nodes
    ensures k in ResetNodes(d, l).nodes && ResetNodes(d, l).nodes[k] == d.nodes[k]
    decreases |l|
  {
    if l != [] {
      ResetNodesOthers(ResetNode(d, l[0]), l[1..], k);
    }
  }

  /** What is reset for the first of some siblings */
  ghost function Head(d: Dirs, w: Shape, l: seq<nat>): seq<nat>
    requires TreeOk(d, w) && l != [] && Live(d, l[0])
  {
    var s := l[0];
    assert SonsBelow(d, w, s);
    (if d.nodes[s].isDir && d.nodes[s].sonNums != 0 then Order(d, w, d.nodes[s].sons, w.rank[s]) else []) + [s]
  }

  lemma OrderHead(d: Dirs, w: Shape, l: seq<nat>, bound: nat)
    requires TreeOk(d, w) && BelowBound(d, w, l, bound) && l != []
    ensures Live(d, l[0]) && BelowBound(d, w, l[1..], bound)
    ensures Order(d, w, l, bound) == Head(d, w, l) + Order(d, w, l[1..], bound)
  {
    assert l[0] in l;
    assert forall s :: s in l[1..] ==> s in l;
  }

  /** The records below the given siblings are those of d */
  ghost predicate Intact(d: Dirs, w: Shape, l: seq<nat>, bound: nat, nodes: map<nat, Node>)
    requires TreeOk(d, w) && BelowBound(d, w, l, bound)
  {
    forall j :: j in Order(d, w, l, bound) ==> j in d.nodes && j in nodes && nodes[j] == d.nodes[j]
  }

  /** The state of a visit to the sons of father: those in done and below are
      reset, those in l are still to come */
  ghost predicate Visiting(d: Dirs, w: Shape, father: nat, before: Dirs, done: seq<nat>, l: seq<nat>, now: Dirs)
    requires TreeOk(d, w) && Live(d, father)
  {
    && father in w.rank && BelowBound(d, w, l, w.rank[father]) && Siblings(w, l, father)
    && now == ResetNodes(before, done) && Intact(d, w, l, w.rank[father], now.nodes)
    && BelowBound(d, w, d.nodes[father].sons, w.rank[father])
    && Order(d, w, d.nodes[father].sons, w.rank[father]) == done + Order(d, w, l, w.rank[father])
  }

  lemma VisitFirst(d: Dirs, w: Shape, father: nat, before: Dirs)
    requires TreeOk(d, w) && Live(d, father) && father in w.rank
    requires BelowBound(d, w, d.nodes[father].sons, w.rank[father])
    requires Intact(d, w, d.nodes[father].sons, w.rank[father], before.nodes)
    ensures Visiting(d, w, father, before, [], d.nodes[father].sons, before)
  {
    PrunedIsEmpty(d, w, father);
    NothingReset(before);
    hide TreeOk, Order, ResetNodes, Intact;
    assert [] + Order(d, w, d.nodes[father].sons, w.rank[father]) == Order(d, w, d.nodes[father].sons, w.rank[father]);
  }

  lemma VisitLast(d: Dirs, w: Shape, father: nat, before: Dirs, done: seq<nat>, now: Dirs)
    requires TreeOk(d, w) && Live(d, father) && Visiting(d, w, father, before, done, [], now)
    ensures father in w.rank && BelowBound(d, w, d.nodes[father].sons, w.rank[father])
    ensures now == ResetNodes(before, Order(d, w, d.nodes[father].sons, w.rank[father]))
  {
    NothingToVisit(d, w, w.rank[father]);
    hide TreeOk, Order, ResetNodes, Intact;
    assert done + [] == done;
  }

  lemma NothingToVisit(d: Dirs, w: Shape, bound: nat)
    requires TreeOk(d, w)
    ensures BelowBound(d, w, [], bound) && Order(d, w, [], bound) == []
  {
  }

  /** The first sibling's record and those below it are still to be visited */
  lemma SonsReady(d: Dirs, w: Shape, father: nat, before: Dirs, done: seq<nat>, l: seq<nat>, now: Dirs)
    requires TreeOk(d, w) && Live(d, father) && Visiting(d, w, father, before, done, l, now) && l != []
    ensures father in w.rank && Live(d, l[0]) && l[0] in w.rank && w.rank[l[0]] < w.rank[father]
    ensures l[0] in now.nodes && now.nodes[l[0]] == d.nodes[l[0]]
    ensures BelowBound(d, w, d.nodes[l[0]].sons, w.rank[l[0]])
    ensures d.nodes[l[0]].isDir && d.nodes[l[0]].sonNums != 0 ==>
              Intact(d, w, d.nodes[l[0]].sons, w.rank[l[0]], now.nodes)
  {
    hide TreeOk;
    var s, bound := l[0], w.rank[father];
    OrderHead(d, w, l, bound);
    PrunedIsEmpty(d, w, s);
    hide Order;
    assert s in Head(d, w, l);
  }

  /** Resetting the first sibling and all below it leaves the others to be visited */
  lemma TailIntact(d: Dirs, w: Shape, l: seq<nat>, bound: nat, p: nat, nodes: map<nat, Node>, nodes': map<nat, Node>)
    requires TreeOk(d, w) && BelowBound(d, w, l, bound) && l != [] && Siblings(w, l, p)
    requires Intact(d, w, l, bound, nodes) && Live(d, l[0])
    requires forall k :: k in nodes && k !in Head(d, w, l) ==> k in nodes' && nodes'[k] == nodes[k]
    ensures BelowBound(d, w, l[1..], bound) && Intact(d, w, l[1..], bound, nodes')
  {
    OrderHead(d, w, l, bound);
    OrderOnce(d, w, l, bound, p);
    hide TreeOk, Order, Head;
    PartsApart(Head(d, w, l), Order(d, w, l[1..], bound));
  }

  lemma PartsApart(a: seq<nat>, b: seq<nat>)
    requires Distinct(a + b)
    ensures forall j :: j in b ==> j !in a
  {
    var c := a + b;
    forall x, y | 0 <= x < |a| && 0 <= y < |b| ensures a[x] != b[y] {
      assert c[x] == a[x] && c[|a| + y] == b[y];
    }
  }

  lemma ResetHead(d0: Dirs, inner: seq<nat>, s: nat)
    ensures ResetNodes(d0, inner + [s]) == ResetNode(ResetNodes(d0, inner), s)
  {
    ResetNodesAppend(d0, inner, [s]);
    assert [s][1..] == [];
  }

  lemma {:induction false} WithoutAt(s: seq<nat>, x: nat, k: nat)
    requires k <= |s| && (forall i :: 0 <= i < k ==> s[i] != x) && (k < |s| ==> s[k] == x)
    ensures if k < |s| then x in s && Without(s, x) == s[..k] + s[k + 1..] else x !in s && Without(s, x) == s
  {
    if k > 0 {
      WithoutAt(s[1..], x, k - 1);
    }
  }

  lemma AfterHead(d: Dirs, w: Shape, l: seq<nat>, bound: nat, p: nat, mid: Dirs, now: Dirs)
    requires TreeOk(d, w) && BelowBound(d, w, l, bound) && l != [] && Siblings(w, l, p)
    requires Intact(d, w, l, bound, mid.nodes) && Live(d, l[0]) && now == ResetNodes(mid, Head(d, w, l))
    ensures BelowBound(d, w, l[1..], bound) && Siblings(w, l[1..], p)
    ensures Intact(d, w, l[1..], bound, now.nodes)
  {
    forall k | k in mid.nodes && k !in Head(d, w, l) ensures k in now.nodes && now.nodes[k] == mid.nodes[k] {
      ResetNodesOthers(mid, Head(d, w, l), k);
    }
    hide TreeOk, Head;
    TailSiblings(w, l, p);
    TailIntact(d, w, l, bound, p, mid.nodes, now.nodes);
  }

  lemma HeadIs(d: Dirs, w: Shape, l: seq<nat>, mid: Dirs)
    requires TreeOk(d, w) && l != [] && Live(d, l[0]) && l[0] in w.rank
    requires BelowBound(d, w, d.nodes[l[0]].sons, w.rank[l[0]])
    ensures var s, visit := l[0], d.nodes[l[0]].isDir && d.nodes[l[0]].sonNums != 0;
            && (visit ==> ResetNodes(mid, Head(d, w, l))
                          == ResetNode(ResetNodes(mid, Order(d, w, d.nodes[s].sons, w.rank[s])), s))
            && (!visit ==> ResetNodes(mid, Head(d, w, l)) == ResetNode(mid, s))
  {
    var s := l[0];
    var inner := if d.nodes[s].isDir && d.nodes[s].sonNums != 0 then Order(d, w, d.nodes[s].sons, w.rank[s]) else [];
    assert Head(d, w, l) == inner + [s];
    ResetHead(mid, inner, s);
  }

  /** One son visited: what has been reset, and what is still to be visited */
  lemma VisitNext(d: Dirs, w: Shape, father: nat, before: Dirs, done: seq<nat>, l: seq<nat>, mid: Dirs)
    requires TreeOk(d, w) && Live(d, father) && Visiting(d, w, father, before, done, l, mid) && l != []
    ensures Live(d, l[0])
    ensures Visiting(d, w, father, before, done + Head(d, w, l), l[1..], ResetNodes(mid, Head(d, w, l)))
  {
    hide TreeOk, Order, Head, Siblings, BelowBound, ResetNodes, Intact;
    var bound := w.rank[father];
    OrderHead(d, w, l, bound);
    Associates(done, Head(d, w, l), Order(d, w, l[1..], bound));
    AfterHead(d, w, l, bound, father, mid, ResetNodes(mid, Head(d, w, l)));
    ResetNodesAppend(before, done, Head(d, w, l));
  }

  lemma Associates(a: seq<nat>, b: seq<nat>, c: seq<nat>)
    ensures a + (b + c) == a + b + c
  {
  }

  lemma {:induction false} ResetNodesKeep(d: Dirs, l: seq<nat>, k: nat)
    requires k in d.nodes
    ensures k in ResetNodes(d, l).nodes
    decreases |l|
  {
    if l != [] {
      ResetNodesKeep(ResetNode(d, l[0]), l[1..], k);
    }
  }

  lemma UnlinkedBelow(d: Dirs, w: Shape, f: nat, x: nat, name: string)
    requires TreeOk(d, w) && Live(d, f) && x in d.nodes[f].sons && d.nodes[x].isDir
    requires x in w.rank && BelowBound(d, w, d.nodes[x].sons, w.rank[x])
    ensures Intact(d, w, d.nodes[x].sons, w.rank[x], Unlink(d, f, x, name).nodes)
  {
    hide Under, Order, Distinct, ListsAgree, Unlink;
    NodeFacts(d, w, f);
    SonFacts(d, w, f, x);
    NotAboveItself(w, f, x);
    UnlinkFrame(d, f, x, name);
    SubtreeOnce(d, w, x);
    var inner := Order(d, w, d.nodes[x].sons, w.rank[x]);
    assert Subtree(d, w, x) == inner + [x];
    forall j | j in inner ensures j in Subtree(d, w, x) {
      assert j in inner + [x];
    }
  }

  lemma DeleteInSteps(d: Dirs, w: Shape, f: nat, name: string)
    requires TreeOk(d, w) && Live(d, f) && name in d.nodes[f].hash
    requires var x := d.nodes[f].hash[name];
             Live(d, x) && x in w.rank && BelowBound(d, w, d.nodes[x].sons, w.rank[x])
    ensures var x := d.nodes[f].hash[name];
            var d1 := Unlink(d, f, x, name);
            Delete(d, w, f, name)
            == if d.nodes[x].isDir then ResetNode(ResetNodes(d1, Order(d, w, d.nodes[x].sons, w.rank[x])), x)
               else ResetNode(d1, x)
  {
    hide TreeOk, Unlink, ResetNodes, Order, ResetNode, BelowBound;
    var x := d.nodes[f].hash[name];
    var d1 := Unlink(d, f, x, name);
    var inner := if d.nodes[x].isDir then Order(d, w, d.nodes[x].sons, w.rank[x]) else [];
    ResetHead(d1, inner, x);
    NothingReset(d1);
  }

  lemma NothingReset(d: Dirs)
    ensures ResetNodes(d, []) == d
  {
  }

  /** Taking the entry out of its father leaves everything under it to be reset */
  lemma DeleteBegins(d: Dirs, w: Shape, f: nat, name: string)
    requires TreeOk(d, w) && Live(d, f) && name in d.nodes[f].hash
    ensures var x := d.nodes[f].hash[name];
            var d1 := Unlink(d, f, x, name);
            && Live(d, x) && x in w.rank && x in d1.nodes && d1.nodes[x] == d.nodes[x]
            && BelowBound(d, w, d.nodes[x].sons, w.rank[x])
            && (d.nodes[x].isDir ==> Intact(d, w, d.nodes[x].sons, w.rank[x], d1.nodes))
            && Delete(d, w, f, name)
               == if d.nodes[x].isDir then ResetNode(ResetNodes(d1, Order(d, w, d.nodes[x].sons, w.rank[x])), x)
                  else ResetNode(d1, x)
  {
    var x := d.nodes[f].hash[name];
    EntryFacts(d, w, f, name);
    NodeFacts(d, w, x);
    SonFacts(d, w, f, x);
    UnlinkFrame(d, f, x, name);
    hide TreeOk, Unlink, ResetNodes, Order, ResetNode, Delete, Intact, ListsAgree;
    DeleteInSteps(d, w, f, name);
    if d.nodes[x].isDir {
      UnlinkedBelow(d, w, f, x, name);
    }
  }

  lemma SplitNext(path: string, i: nat, name: string)
    requires i < |path| && (path[i] == '/' || i == |path| - 1)
    ensures Split(path[i..], name) == [if path[i] == '/' then name else name + [path[i]]] + Split(path[i + 1..], "")
  {
    assert path[i..][1..] == path[i + 1..];
    if path[i] != '/' {
      assert path[i..] == [path[i]] && path[i + 1..] == "";
    }
  }

  class Namespace {
    var nodes: map<nat, Node>
    var slab: seq<nat>
    var root: nat
    ghost var shape: Shape

    function State(): Dirs
      reads this
    {
      Dirs(nodes, slab, root)
    }

    ghost predicate Valid()
      reads this
    {
      TreeOk(State(), shape)
    }

    /** The first loop of deal: the path copied, and its last slash */
    method CopyPath(path: string) returns (dirname: string, j: nat)
      ensures dirname == path && j == LastSlash(path, |path|)
    {
      var i := 0;
      dirname, j := "", 0;
      while i < |path|
        invariant i <= |path| && dirname == path[..i] && j == LastSlash(path, i)
      {
        dirname := dirname + [path[i]];
        if path[i] == '/' && i + 1 < |path| {
          j := i;
        }
        i := i + 1;
      }
    }

    /** The second loop of deal */
    method CopyRest(path: string, from: nat) returns (filename: string)
      requires from <= |path|
      ensures filename == path[from..]
    {
      var j := from;
      filename := "";
      while j < |path|
        invariant from <= j <= |path| && filename + path[j..] == path[from..]
      {
        assert path[j..] == [path[j]] + path[j + 1..];
        filename := filename + [path[j]];
        j := j + 1;
      }
    }

    /** deal */
    method Deal(path: string) returns (dirname: string, filename: string)
      requires |path| > 1
      ensures dirname == DirName(path) && filename == FileName(path)
    {
      var copy, m := CopyPath(path);
      filename := CopyRest(path, m + 1);
      dirname := copy[..m + 1];
      if filename[|filename| - 1] == '/' {
        filename := filename[..|filename| - 1];
      }
    }

    /** search_d_hash */
    method SearchHash(path: string) returns (r: Walk)
      ensures r == Search(State(), path)
    {
      var now, name, i := root, "", 0;
      if |path| == 1 {
        return Found(now);
      }
      ghost var d := State();
      while i < |path|
        invariant i <= |path| && State() == d
        invariant i == 0 ==> now == root && name == ""
        invariant i == 0 || WalkFrom(d, now, Split(path[i..], name)) == Search(d, path)
      {
        if path[i] == '/' || i == |path| - 1 {
          if i != 0 {
            var full := if path[i] == '/' then name else name + [path[i]];
            SplitNext(path, i, name);
            if now !in nodes || !nodes[now].isDir {
              return Fault;
            }
            if full !in nodes[now].hash {
              return Missing;
            }
            now := nodes[now].hash[full];
            name := "";
          }
        } else {
          assert path[i..][1..] == path[i + 1..];
          name := name + [path[i]];
        }
        i := i + 1;
      }
      r := Found(now);
    }

    /** add_to_father and the put into the father's hash map */
    method AddToFather(f: nat, name: string, i: nat)
      requires f in nodes
      modifies `nodes
      ensures State() == Link(old(State()), f, name, i)
    {
      var n := nodes[f];
      nodes := nodes[f := n.(sons := [i] + n.sons, sonNums := n.sonNums + 1)];
      nodes := nodes[f := nodes[f].(hash := nodes[f].hash[name := i])];
    }

    /** get_free_inode, then the name and kind */
    method TakeInode(name: string, asDir: bool, addr: nat) returns (i: nat)
      requires Valid()
      modifies `nodes, `slab
      ensures (State(), i) == NewNode(old(State()), name, asDir, addr)
    {
      if slab != [] {
        i := slab[0];
        assert i in slab;
        slab := slab[1..];
      } else {
        i := addr;
        nodes := nodes[i := Node("", false, map[], [], 0)];
      }
      nodes := nodes[i := nodes[i].(name := name, isDir := asDir)];
      assert nodes == old(nodes)[i := nodes[i]];
    }

    /** dhmpMknod, and dhmpCreateDirectory for asDir */
    method Make(path: string, asDir: bool, addr: nat) returns (s: Status)
      requires Valid() && |path| > 0 && addr !in nodes
      modifies `nodes, `slab, `shape
      ensures Valid() && (State(), s) == MakeCall(old(State()), path, asDir, addr)
    {
      if |path| == 1 {
        return Done(0);
      }
      var dirname, filename := Deal(path);
      var father := SearchHash(dirname);
      if father == Fault {
        return Crash;
      }
      if father == Missing {
        return Done(-1);
      }
      var f := father.ino;
      if f !in nodes || !nodes[f].isDir {
        return if asDir then Done(-1) else Crash;
      }
      if filename in nodes[f].hash {
        return Done(-1);
      }
      ghost var d := State();
      RootLive(d, shape);
      WalkLive(d, shape, root, Segments(dirname));
      CreateKeeps(d, shape, f, filename, asDir, addr);
      CreateFrame(d, shape, f, filename, asDir, addr);
      hide TreeOk, Grown, WalkFrom;
      var i := TakeInode(filename, asDir, addr);
      AddToFather(f, filename, i);
      shape := Grown(shape, f, i);
      s := Done(1);
    }

    /** del_from_father and the removal from the father's hash map */
    method DelFromFather(f: nat, x: nat, name: string)
      requires f in nodes
      modifies `nodes
      ensures State() == Unlink(old(State()), f, x, name)
    {
      var n := nodes[f];
      var sons, count := n.sons, n.sonNums;
      var k := 0;
      while k < |n.sons| && n.sons[k] != x
        invariant k <= |n.sons| && forall i :: 0 <= i < k ==> n.sons[i] != x
      {
        k := k + 1;
      }
      WithoutAt(n.sons, x, k);
      if k < |n.sons| {
        sons, count := n.sons[..k] + n.sons[k + 1..], n.sonNums - 1;
      }
      nodes := nodes[f := n.(sons := sons, sonNums := count)];
      nodes := nodes[f := nodes[f].(hash := nodes[f].hash - {name})];
      assert nodes == old(nodes)[f := nodes[f]];
    }

    /** reset_indoe, as far as the tree is concerned */
    method ResetInode(x: nat)
      requires x in nodes
      modifies `nodes, `slab
      ensures State() == ResetNode(old(State()), x)
    {
      var n := nodes[x];
      if n.isDir {
        n := n.(hash := map[]);
      }
      n := n.(isDir := false, sons := [], name := "", hash := map[]);
      nodes := nodes[x := n];
      slab := slab + [x];
    }

    /** dhmpDeleteALL: terminates because the sons rank below their father, and
        resets everything below exactly in the order given */
    method DeleteAll(father: nat, ghost d: Dirs)
      requires TreeOk(d, shape) && Live(d, father) && father in shape.rank
      requires BelowBound(d, shape, d.nodes[father].sons, shape.rank[father])
      requires father in nodes && nodes[father] == d.nodes[father]
      requires Intact(d, shape, d.nodes[father].sons, shape.rank[father], nodes)
      modifies `nodes, `slab
      ensures State() == ResetNodes(old(State()), Order(d, shape, d.nodes[father].sons, shape.rank[father]))
      decreases shape.rank[father]
    {
      ghost var before := State();
      var rest := nodes[father].sons;
      ghost var done: seq<nat> := [];
      VisitFirst(d, shape, father, before);
      hide TreeOk, Order, Head, Visiting, ResetNodes, ResetNode, Intact, BelowBound;
      while rest != []
        invariant Visiting(d, shape, father, before, done, rest, State())
        decreases |rest|
      {
        var son := rest[0];
        ghost var mid := State();
        SonsReady(d, shape, father, before, done, rest, mid);
        if nodes[son].isDir && nodes[son].sonNums != 0 {
          DeleteAll(son, d);
          ResetNodesKeep(mid, Order(d, shape, d.nodes[son].sons, shape.rank[son]), son);
        }
        var next := rest[1..];
        ResetInode(son);
        HeadIs(d, shape, rest, mid);
        VisitNext(d, shape, father, before, done, rest, mid);
        done := done + Head(d, shape, rest);
        rest := next;
      }
      VisitLast(d, shape, father, before, done, State());
    }

    /** dhmpDelFromInode */
    method DelFromInode(f: nat, name: string) returns (s: Status)
      requires Valid() && Live(State(), f)
      modifies `nodes, `slab
      ensures Valid()
      ensures old(!nodes[f].isDir || name !in nodes[f].hash) ==> s == Done(-1) && State() == old(State())
      ensures old(nodes[f].isDir && name in nodes[f].hash) ==>
                s == Done(1) && State() == old(Delete(State(), shape, f, name))
    {
      if !nodes[f].isDir || name !in nodes[f].hash {
        return Done(-1);
      }
      ghost var d := State();
      var x := nodes[f].hash[name];
      DeleteKeeps(d, shape, f, name);
      DeleteBegins(d, shape, f, name);
      hide TreeOk, Delete, Unlink, Order, Subtree, Intact, ResetNodes;
      DelFromFather(f, x, name);
      ghost var d1 := State();
      if nodes[x].isDir {
        DeleteAll(x, d);
        ResetNodesKeep(d1, Order(d, shape, d.nodes[x].sons, shape.rank[x]), x);
      }
      ResetInode(x);
      s := Done(1);
    }

    /** dhmpDelete */
    method DeletePath(path: string) returns (s: Status)
      requires Valid() && |path| > 0
      modifies `nodes, `slab
      ensures Valid() && (State(), s) == old(DeleteCall(State(), shape, path))
    {
      if |path| == 1 {
        return Done(0);
      }
      var dirname, filename := Deal(path);
      var father := SearchHash(dirname);
      if father == Fault {
        return Crash;
      }
      if father == Missing {
        return Done(-1);
      }
      RootLive(State(), shape);
      WalkLive(State(), shape, root, Segments(dirname));
      s := DelFromInode(father.ino, filename);
    }

    /** dhmp_fs_rename: the new name goes into the inode between the removal of the
        old key and the put of the new one. Onto a used name the tree is damaged,
        otherwise it is kept. */
    method RenamePath(from: string, to: string) returns (s: Status)
      requires Valid() && |from| > 1 && |to| > 1
      modifies `nodes
      ensures (State(), s) == old(RenameCall(State(), shape, from, to))
      ensures s != Done(0) || old(NameFree(State(), from, to)) ==> Valid()
    {
      var dirname, filename := Deal(from);
      var father := SearchHash(dirname);
      if father.Fault? || father.Missing? {
        return Crash;
      }
      var f := father.ino;
      RootLive(State(), shape);
      WalkLive(State(), shape, root, Segments(dirname));
      if !nodes[f].isDir {
        return Crash;
      }
      if filename !in nodes[f].hash {
        return Done(-17);
      }
      EntryFacts(State(), shape, f, filename);
      SonFacts(State(), shape, f, nodes[f].hash[filename]);
      RenameKeepsIff(State(), shape, f, filename, FileName(to));
      NameFreeIs(State(), f, from, to);
      hide TreeOk, Rename, WalkFrom, Segments, DirName, FileName;
      var _, toname := Deal(to);
      Rekey(f, filename, toname);
      s := Done(0);
    }

    /** The removal of the old key, the copy of the new name into the inode, and
        the put under it */
    method Rekey(f: nat, name: string, to: string)
      requires f in nodes && name in nodes[f].hash
      requires nodes[f].hash[name] in nodes && nodes[f].hash[name] != f
      modifies `nodes
      ensures State() == old(Rename(State(), f, name, to))
    {
      var x := nodes[f].hash[name];
      nodes := nodes[f := nodes[f].(hash := nodes[f].hash - {name})];
      nodes := nodes[x := nodes[x].(name := to)];
      nodes := nodes[f := nodes[f].(hash := nodes[f].hash[to := x])];
      assert nodes == old(Rename(State(), f, name, to)).nodes;
    }
  }
}
