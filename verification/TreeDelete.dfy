/** The recursive delete: what it gives back, and that the rest of the tree keeps
    its shape. */
module TreeDelete {
  import opened Basics
  import opened TreeSpec
  import opened TreeProofs

  // ----- climbing -----

  lemma {:induction false} UnderRank(w: Shape, j: nat, a: nat)
    requires a in w.rank && Under(w, j, a)
    ensures j in w.rank && w.rank[j] <= w.rank[a]
  {
  }

  /** What is under a son is under its father */
  lemma {:induction false} UnderUp(w: Shape, j: nat, t: nat)
    requires t in w.rank && Under(w, j, t)
    requires t in w.parent && w.parent[t] in w.rank && w.rank[t] < w.rank[w.parent[t]]
    ensures Under(w, j, w.parent[t])
    decreases w.rank[t] - if j in w.rank then w.rank[j] else 0
  {
    UnderRank(w, j, t);
    if j == t {
      assert Under(w, w.parent[t], w.parent[t]);
    } else {
      UnderUp(w, w.parent[j], t);
    }
  }

  /** What is strictly under a live inode is under one of its sons */
  lemma {:induction false} UnderSon(d: Dirs, w: Shape, j: nat, a: nat) returns (t: nat)
    requires TreeOk(d, w) && Live(d, a) && a in w.rank && Live(d, j) && Under(w, j, a) && j != a
    ensures t in d.nodes[a].sons && t in w.rank && Under(w, j, t)
    decreases w.rank[a] - if j in w.rank then w.rank[j] else 0
  {
    hide ListsAgree, SlabFree;
    UnderRank(w, j, a);
    assert j != d.root;
    var p := w.parent[j];
    assert HasFather(d, w, j);
    if p == a {
      t := j;
      NodeFacts(d, w, j);
    } else {
      t := UnderSon(d, w, p, a);
      UnderRank(w, p, t);
    }
  }

  /** Nothing is under two siblings */
  lemma {:induction false} SiblingsApart(w: Shape, j: nat, s: nat, t: nat)
    requires s in w.rank && t in w.rank && Under(w, j, s) && Under(w, j, t)
    requires s in w.parent && t in w.parent && w.parent[s] == w.parent[t] && w.parent[s] in w.rank
    requires w.rank[s] < w.rank[w.parent[s]] && w.rank[t] < w.rank[w.parent[s]]
    ensures s == t
    decreases w.rank[s] - if j in w.rank then w.rank[j] else 0
  {
    UnderRank(w, j, s);
    if j != s && j != t {
      SiblingsApart(w, w.parent[j], s, t);
    }
  }

  // ----- the order of the resets -----

  ghost predicate UnderAny(w: Shape, j: nat, l: seq<nat>) {
    exists s :: s in l && s in w.rank && Under(w, j, s)
  }

  ghost predicate Siblings(w: Shape, l: seq<nat>, p: nat) {
    && Distinct(l) && p in w.rank
    && (forall s :: s in l ==> s in w.parent && w.parent[s] == p && s in w.rank && w.rank[s] < w.rank[p])
  }

  /** Sons not visited are none: pruning by the son count leaves nothing behind */
  lemma PrunedIsEmpty(d: Dirs, w: Shape, s: nat)
    requires TreeOk(d, w) && Live(d, s)
    ensures !(d.nodes[s].isDir && d.nodes[s].sonNums != 0) ==> d.nodes[s].sons == []
    ensures s in w.rank && SonsBelow(d, w, s) && Siblings(w, d.nodes[s].sons, s)
  {
    NodeFacts(d, w, s);
  }

  lemma UnderHead(w: Shape, j: nat, l: seq<nat>)
    requires l != []
    ensures UnderAny(w, j, l) <==> (l[0] in w.rank && Under(w, j, l[0])) || UnderAny(w, j, l[1..])
  {
    assert forall s :: s in l <==> s == l[0] || s in l[1..];
  }

  lemma UnderOne(d: Dirs, w: Shape, j: nat, s: nat)
    requires TreeOk(d, w) && Live(d, s) && Live(d, j) && s in w.rank
    ensures Under(w, j, s) <==> j == s || UnderAny(w, j, d.nodes[s].sons)
  {
    hide SlabFree, ListsAgree;
    if Under(w, j, s) && j != s {
      var t := UnderSon(d, w, j, s);
    }
    if UnderAny(w, j, d.nodes[s].sons) {
      var t :| t in d.nodes[s].sons && t in w.rank && Under(w, j, t);
      NodeFacts(d, w, s);
      UnderUp(w, j, t);
    }
  }

  /** The resets cover exactly what is under the siblings */
  lemma {:induction false} OrderHas(d: Dirs, w: Shape, l: seq<nat>, bound: nat, j: nat)
    requires TreeOk(d, w) && BelowBound(d, w, l, bound)
    ensures j in Order(d, w, l, bound) <==> Live(d, j) && UnderAny(w, j, l)
    decreases bound, |l|
  {
    hide TreeOk, Under, UnderAny;
    if l == [] {
      NoneUnder(w, j);
    } else {
      var s := l[0];
      assert s in l;
      PrunedIsEmpty(d, w, s);
      var below := d.nodes[s].sons;
      var inner := if d.nodes[s].isDir && d.nodes[s].sonNums != 0 then Order(d, w, below, w.rank[s]) else [];
      if d.nodes[s].isDir && d.nodes[s].sonNums != 0 {
        OrderHas(d, w, below, w.rank[s], j);
      } else {
        NoneUnder(w, j);
      }
      OrderHas(d, w, l[1..], bound, j);
      UnderHead(w, j, l);
      if Live(d, j) {
        UnderOne(d, w, j, s);
      }
      assert j in Order(d, w, l, bound) <==> j in inner || j == s || j in Order(d, w, l[1..], bound);
    }
  }

  lemma NoneUnder(w: Shape, j: nat)
    ensures !UnderAny(w, j, [])
  {
  }

  lemma DistinctParts(a: seq<nat>, s: nat, b: seq<nat>)
    requires Distinct(a) && Distinct(b) && s !in a && s !in b && forall j :: j in a ==> j !in b
    ensures Distinct(a + [s] + b)
  {
    var c := a + [s] + b;
    forall x, y | 0 <= x < y < |c| ensures c[x] != c[y] {
      if x < |a| {
        assert c[x] in a;
      }
      if y > |a| {
        assert c[y] in b;
      }
    }
  }

  lemma TailSiblings(w: Shape, l: seq<nat>, p: nat)
    requires Siblings(w, l, p) && l != []
    ensures Siblings(w, l[1..], p) && l[0] in l && l[0] !in l[1..]
  {
    assert forall s :: s in l[1..] ==> s in l;
  }

  /** What is under a sibling is not under one of the others */
  lemma OthersApart(w: Shape, l: seq<nat>, p: nat, j: nat)
    requires Siblings(w, l, p) && l != []
    requires l[0] in w.rank && Under(w, j, l[0])
    ensures !UnderAny(w, j, l[1..])
  {
    TailSiblings(w, l, p);
    if UnderAny(w, j, l[1..]) {
      var t :| t in l[1..] && t in w.rank && Under(w, j, t);
      SiblingsApart(w, j, l[0], t);
    }
  }

  lemma NotUnderOwnSons(d: Dirs, w: Shape, s: nat)
    requires TreeOk(d, w) && Live(d, s)
    ensures !UnderAny(w, s, d.nodes[s].sons)
  {
    NodeFacts(d, w, s);
  }

  /** and each of them once */
  lemma {:induction false} OrderOnce(d: Dirs, w: Shape, l: seq<nat>, bound: nat, p: nat)
    requires TreeOk(d, w) && Siblings(w, l, p)
    requires BelowBound(d, w, l, bound)
    ensures Distinct(Order(d, w, l, bound))
    decreases bound, |l|
  {
    if l != [] {
      hide TreeOk, Under, UnderAny, Distinct;
      var s := l[0];
      TailSiblings(w, l, p);
      PrunedIsEmpty(d, w, s);
      var below, rest := d.nodes[s].sons, Order(d, w, l[1..], bound);
      OrderOnce(d, w, l[1..], bound, p);
      NotUnderOwnSons(d, w, s);
      forall j ensures j in rest <==> Live(d, j) && UnderAny(w, j, l[1..]) {
        OrderHas(d, w, l[1..], bound, j);
      }
      UnderItself(w, s);
      OthersApart(w, l, p, s);
      if d.nodes[s].isDir && d.nodes[s].sonNums != 0 {
        var inner := Order(d, w, below, w.rank[s]);
        OrderOnce(d, w, below, w.rank[s], s);
        forall j | j in inner ensures j !in rest && j != s {
          OrderHas(d, w, below, w.rank[s], j);
          UnderOne(d, w, j, s);
          OthersApart(w, l, p, j);
        }
        DistinctParts(inner, s, rest);
      } else {
        NothingDistinct();
        DistinctParts([], s, rest);
      }
    }
  }

  lemma NothingDistinct()
    ensures Distinct([])
  {
  }

  lemma UnderItself(w: Shape, s: nat)
    requires s in w.rank
    ensures Under(w, s, s)
  {
  }

  /** dhmpDelFromInode gives back every inode under the deleted one, each once, and
      the deleted one last */
  lemma SubtreeOnce(d: Dirs, w: Shape, x: nat)
    requires TreeOk(d, w) && Live(d, x) && x in w.rank
    ensures Distinct(Subtree(d, w, x)) && Subtree(d, w, x)[|Subtree(d, w, x)| - 1] == x
    ensures forall j :: j in Subtree(d, w, x) <==> Live(d, j) && Under(w, j, x)
  {
    hide TreeOk, Under, UnderAny, Distinct;
    PrunedIsEmpty(d, w, x);
    UnderItself(w, x);
    NotUnderOwnSons(d, w, x);
    NothingDistinct();
    var below := if d.nodes[x].isDir then Order(d, w, d.nodes[x].sons, w.rank[x]) else [];
    forall j ensures j in below <==> Live(d, j) && UnderAny(w, j, d.nodes[x].sons) {
      if d.nodes[x].isDir {
        OrderHas(d, w, d.nodes[x].sons, w.rank[x], j);
      } else {
        NoneUnder(w, j);
      }
    }
    forall j ensures j in Subtree(d, w, x) <==> Live(d, j) && Under(w, j, x) {
      if Live(d, j) {
        UnderOne(d, w, j, x);
      }
    }
    if d.nodes[x].isDir {
      OrderOnce(d, w, d.nodes[x].sons, w.rank[x], x);
    }
    DistinctParts(below, x, []);
    assert below + [x] + [] == Subtree(d, w, x);
  }

  // ----- the state after it -----

  /** Resetting inodes one after the other blanks exactly them and puts them into
      the slab in that order */
  lemma {:induction false} ResetAll(d: Dirs, l: seq<nat>)
    requires Distinct(l) && forall x :: x in l ==> x in d.nodes
    ensures var d' := ResetNodes(d, l);
            && d'.root == d.root && d'.slab == d.slab + l && d'.nodes.Keys == d.nodes.Keys
            && (forall k :: k in d.nodes && k !in l ==> d'.nodes[k] == d.nodes[k])
            && (forall k :: k in l ==> d'.nodes[k] == Node("", false, map[], [], d.nodes[k].sonNums))
    decreases |l|
  {
    if l != [] {
      var d1 := ResetNode(d, l[0]);
      assert d1.nodes.Keys == d.nodes.Keys + {l[0]};
      ResetAll(d1, l[1..]);
      assert l == [l[0]] + l[1..];
      assert d.slab + [l[0]] + l[1..] == d.slab + l;
    }
  }

  lemma {:induction false} WithoutHas(s: seq<nat>, x: nat)
    requires Distinct(s)
    ensures Distinct(Without(s, x)) && forall k :: k in Without(s, x) <==> k in s && k != x
    ensures x in s ==> |Without(s, x)| == |s| - 1
  {
    if s != [] {
      assert s == [s[0]] + s[1..];
      WithoutHas(s[1..], x);
      if s[0] != x {
        NothingDistinct();
        DistinctParts([], s[0], Without(s[1..], x));
        assert [] + [s[0]] + Without(s[1..], x) == Without(s, x);
      }
    }
  }

  /** The whole state a delete leaves */
  lemma DeleteFrame(d: Dirs, w: Shape, f: nat, name: string)
    requires TreeOk(d, w) && Live(d, f) && name in d.nodes[f].hash
    ensures var x, d' := d.nodes[f].hash[name], Delete(d, w, f, name);
            && Live(d, x) && x in w.rank && x in d.nodes[f].sons && !Under(w, f, x)
            && d'.root == d.root && d'.slab == d.slab + Subtree(d, w, x) && d'.nodes.Keys == d.nodes.Keys
            && (forall k :: Live(d', k) <==> Live(d, k) && !Under(w, k, x))
            && (forall k :: Live(d, k) && k != f && !Under(w, k, x) ==> d'.nodes[k] == d.nodes[k])
            && (forall k :: Live(d, k) && Under(w, k, x) ==>
                  d'.nodes[k] == Node("", false, map[], [], d.nodes[k].sonNums))
            && (forall k :: k in d.slab ==> d'.nodes[k] == d.nodes[k])
            && d'.nodes[f] == Unlink(d, f, x, name).nodes[f]
  {
    hide Under, Distinct, ListsAgree, SonsBelow, Without, Subtree, ResetNodes;
    var x := d.nodes[f].hash[name];
    EntryFacts(d, w, f, name);
    SonFacts(d, w, f, x);
    NodeFacts(d, w, f);
    NodeFacts(d, w, x);
    assert forall k :: k in d.slab ==> k in d.nodes;
    hide TreeOk, SlabFree;
    SubtreeOnce(d, w, x);
    NotAboveItself(w, f, x);
    var d1 := Unlink(d, f, x, name);
    UnlinkFrame(d, f, x, name);
    ResetAll(d1, Subtree(d, w, x));
    hide Unlink;
  }

  lemma UnlinkFrame(d: Dirs, f: nat, x: nat, name: string)
    requires f in d.nodes
    ensures var d1 := Unlink(d, f, x, name);
            && d1.root == d.root && d1.slab == d.slab && d1.nodes.Keys == d.nodes.Keys
            && (forall k :: k in d.nodes && k != f ==> d1.nodes[k] == d.nodes[k])
            && d1.nodes[f].sonNums == if x in d.nodes[f].sons then d.nodes[f].sonNums - 1 else d.nodes[f].sonNums
  {
    assert Unlink(d, f, x, name).nodes.Keys == d.nodes.Keys + {f};
  }

  lemma NotAboveItself(w: Shape, f: nat, x: nat)
    requires x in w.rank && f in w.rank && w.rank[x] < w.rank[f]
    ensures !Under(w, f, x)
  {
  }

  lemma JoinDistinct(a: seq<nat>, b: seq<nat>)
    requires Distinct(a) && Distinct(b) && forall j :: j in a ==> j !in b
    ensures Distinct(a + b)
  {
    var c := a + b;
    forall x, y | 0 <= x < y < |c| ensures c[x] != c[y] {
      if x < |a| <= y {
        assert c[x] in a && c[y] in b;
      }
    }
  }

  lemma DeleteSlab(d: Dirs, w: Shape, f: nat, name: string)
    requires TreeOk(d, w) && Live(d, f) && name in d.nodes[f].hash
    ensures SlabFree(Delete(d, w, f, name))
  {
    hide Under, ListsAgree, SonsBelow, Delete, Subtree;
    var x, d' := d.nodes[f].hash[name], Delete(d, w, f, name);
    DeleteFrame(d, w, f, name);
    SubtreeOnce(d, w, x);
    JoinDistinct(d.slab, Subtree(d, w, x));
    forall i | i in d'.slab ensures i in d'.nodes && Blank(d'.nodes[i]) {
      if i !in d.slab {
        CountNotNegative(d, w, i);
      }
    }
  }

  lemma CountNotNegative(d: Dirs, w: Shape, i: nat)
    requires TreeOk(d, w) && Live(d, i)
    ensures d.nodes[i].sonNums >= 0
  {
    NodeFacts(d, w, i);
  }

  /** The sons that stay: all but the deleted one, none of them under it */
  lemma StayingSons(d: Dirs, w: Shape, f: nat, name: string, k: nat)
    requires TreeOk(d, w) && Live(d, f) && name in d.nodes[f].hash
    requires Live(d, k) && d.nodes[f].hash[name] in w.rank && !Under(w, k, d.nodes[f].hash[name])
    ensures var x, d' := d.nodes[f].hash[name], Delete(d, w, f, name);
            && k in d'.nodes && Distinct(d'.nodes[k].sons)
            && (forall s :: s in d'.nodes[k].sons <==> s in d.nodes[k].sons && s != x)
            && (k == f || x !in d.nodes[k].sons)
            && (forall s :: s in d'.nodes[k].sons ==>
                  Live(d, s) && !Under(w, s, x) && Live(d', s) && d'.nodes[s].name == d.nodes[s].name)
  {
    var x, d' := d.nodes[f].hash[name], Delete(d, w, f, name);
    DeleteFrame(d, w, f, name);
    NodeFacts(d, w, k);
    hide Delete, SlabFree, SonsBelow;
    WithoutHas(d.nodes[f].sons, x);
    assert Distinct(d.nodes[k].sons);
    hide ListsAgree, Distinct, Without;
    forall s | s in d.nodes[k].sons
      ensures Live(d, s) && (s == x ==> k == f) && (s != x ==> !Under(w, s, x))
    {
      SonFacts(d, w, k, s);
      SonFacts(d, w, f, x);
    }
    hide TreeOk, Under;
  }

  lemma DeleteLists(d: Dirs, w: Shape, f: nat, name: string, k: nat)
    requires TreeOk(d, w) && Live(d, f) && name in d.nodes[f].hash
    requires Live(Delete(d, w, f, name), k)
    ensures ListsAgree(Delete(d, w, f, name), k)
  {
    hide Under, SlabFree, SonsBelow, Delete;
    var x, d' := d.nodes[f].hash[name], Delete(d, w, f, name);
    DeleteFrame(d, w, f, name);
    StayingSons(d, w, f, name, k);
    NodeFacts(d, w, k);
    if k != f {
      hide TreeOk, ListsAgree;
      assert d'.nodes[k] == d.nodes[k];
      SameLists(d, d', k);
    } else {
      hide TreeOk;
      WithoutHas(d.nodes[f].sons, x);
      UnlinkedFather(d, d', f, x, name);
    }
  }

  lemma UnlinkedFather(d: Dirs, d': Dirs, f: nat, x: nat, name: string)
    requires f in d.nodes && f in d'.nodes && ListsAgree(d, f)
    requires name in d.nodes[f].hash && d.nodes[f].hash[name] == x && Distinct(d'.nodes[f].sons)
    requires d'.nodes[f].hash == d.nodes[f].hash - {name} && d'.nodes[f].isDir == d.nodes[f].isDir
    requires d'.nodes[f].sonNums == d.nodes[f].sonNums - 1 && |d'.nodes[f].sons| == |d.nodes[f].sons| - 1
    requires forall s :: s in d'.nodes[f].sons <==> s in d.nodes[f].sons && s != x
    requires forall s :: s in d'.nodes[f].sons ==> s in d'.nodes && d'.nodes[s].name == d.nodes[s].name
    ensures ListsAgree(d', f)
  {
    hide Distinct;
  }

  /** dhmpDelFromInode keeps the tree: exactly the named inode and all under it are
      gone, and each went into the slab once */
  lemma DeleteKeeps(d: Dirs, w: Shape, f: nat, name: string)
    requires TreeOk(d, w) && Live(d, f) && name in d.nodes[f].hash
    ensures TreeOk(Delete(d, w, f, name), w)
  {
    hide ListsAgree, SonsBelow, SlabFree, Delete, Distinct;
    var x, d' := d.nodes[f].hash[name], Delete(d, w, f, name);
    DeleteFrame(d, w, f, name);
    DeleteSlab(d, w, f, name);
    SonFacts(d, w, f, x);
    forall k | Live(d', k) ensures k in w.rank && ListsAgree(d', k) && SonsBelow(d', w, k) {
      NodeFacts(d, w, k);
      DeleteLists(d, w, f, name, k);
      StayingBelow(d, w, f, name, k);
    }
    forall k | Live(d', k) && k != d'.root ensures HasFather(d', w, k) {
      StayingFather(d, w, f, name, k);
    }
  }

  lemma StayingBelow(d: Dirs, w: Shape, f: nat, name: string, k: nat)
    requires TreeOk(d, w) && Live(d, f) && name in d.nodes[f].hash && Live(Delete(d, w, f, name), k)
    ensures k in w.rank && SonsBelow(Delete(d, w, f, name), w, k)
  {
    hide Under, SlabFree, ListsAgree, Delete;
    DeleteFrame(d, w, f, name);
    StayingSons(d, w, f, name, k);
    NodeFacts(d, w, k);
    hide TreeOk;
  }

  lemma StayingFather(d: Dirs, w: Shape, f: nat, name: string, k: nat)
    requires TreeOk(d, w) && Live(d, f) && name in d.nodes[f].hash && Live(Delete(d, w, f, name), k) && k != d.root
    ensures HasFather(Delete(d, w, f, name), w, k)
  {
    hide SlabFree, ListsAgree, Delete;
    var x, d' := d.nodes[f].hash[name], Delete(d, w, f, name);
    DeleteFrame(d, w, f, name);
    NodeFacts(d, w, k);
    var p := w.parent[k];
    NodeFacts(d, w, p);
    NodeFacts(d, w, x);
    if Under(w, p, x) {
      UnderRank(w, p, x);
    }
    assert !Under(w, p, x);
    StayingSons(d, w, f, name, p);
    hide TreeOk;
    UnderItself(w, x);
  }
}
