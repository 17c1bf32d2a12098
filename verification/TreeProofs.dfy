/** What every operation on the directory tree keeps, and what a recursive delete
    gives back. */
module TreeProofs {
  import opened Basics
  import opened TreeSpec

  lemma NodeFacts(d: Dirs, w: Shape, i: nat)
    requires TreeOk(d, w) && Live(d, i)
    ensures i in w.rank && ListsAgree(d, i) && SonsBelow(d, w, i)
    ensures i != d.root ==> HasFather(d, w, i)
  {
  }

  lemma SonFacts(d: Dirs, w: Shape, i: nat, s: nat)
    requires TreeOk(d, w) && Live(d, i) && s in d.nodes[i].sons
    ensures Live(d, s) && s != d.root && s in w.parent && w.parent[s] == i && w.rank[s] < w.rank[i]
    ensures d.nodes[i].isDir && d.nodes[s].name in d.nodes[i].hash && d.nodes[i].hash[d.nodes[s].name] == s
  {
    NodeFacts(d, w, i);
  }

  lemma EntryFacts(d: Dirs, w: Shape, i: nat, k: string)
    requires TreeOk(d, w) && Live(d, i) && k in d.nodes[i].hash
    ensures d.nodes[i].isDir && d.nodes[i].hash[k] in d.nodes[i].sons
    ensures Live(d, d.nodes[i].hash[k]) && d.nodes[d.nodes[i].hash[k]].name == k
  {
    NodeFacts(d, w, i);
    SonFacts(d, w, i, d.nodes[i].hash[k]);
  }

  // ----- creating -----

  /** The shape with a new leaf below f */
  function Grown(w: Shape, f: nat, i: nat): Shape {
    Shape(w.parent[i := f], (map k | k in w.rank :: w.rank[k] + 1)[i := 0])
  }

  lemma CreateFrame(d: Dirs, w: Shape, f: nat, name: string, dir: bool, addr: nat)
    requires TreeOk(d, w) && Live(d, f) && addr !in d.nodes
    ensures var (d', i) := Create(d, f, name, dir, addr);
            && !Live(d, i) && i != f && Live(d', i) && d'.root == d.root
            && (forall k :: Live(d', k) <==> Live(d, k) || k == i)
            && (forall k :: Live(d, k) && k != f ==> d'.nodes[k] == d.nodes[k])
            && d'.nodes[f] == d.nodes[f].(hash := d.nodes[f].hash[name := i], sons := [i] + d.nodes[f].sons,
                                          sonNums := d.nodes[f].sonNums + 1)
            && i == (if d.slab == [] then addr else d.slab[0]) && d'.slab == (if d.slab == [] then [] else d.slab[1..])
            && d'.nodes[i] == Node(name, dir, map[], [], if i in d.nodes then d.nodes[i].sonNums else 0)
            && d'.nodes[i].sonNums >= 0
            && SlabFree(d')
  {
    hide ListsAgree, SonsBelow, HasFather;
    if d.slab != [] {
      SlabHead(d);
      hide Distinct;
    }
  }

  lemma SlabHead(d: Dirs)
    requires SlabFree(d) && d.slab != []
    ensures d.slab[0] in d.slab && d.slab[0] !in d.slab[1..] && Distinct(d.slab[1..])
    ensures forall k :: k in d.slab <==> k == d.slab[0] || k in d.slab[1..]
  {
    assert d.slab == [d.slab[0]] + d.slab[1..];
  }

  lemma SameLists(d: Dirs, d': Dirs, k: nat)
    requires k in d.nodes && k in d'.nodes && ListsAgree(d, k)
    requires d'.nodes[k].(name := "", sonNums := 0) == d.nodes[k].(name := "", sonNums := 0)
    requires d'.nodes[k].sonNums >= d.nodes[k].sonNums
    requires forall s :: s in d.nodes[k].sons ==> s in d'.nodes && s in d.nodes && d'.nodes[s].name == d.nodes[s].name
    ensures ListsAgree(d', k)
  {
  }

  lemma ConsDistinct(i: nat, l: seq<nat>)
    requires Distinct(l) && i !in l
    ensures Distinct([i] + l)
  {
  }

  lemma FatherLists(d: Dirs, d': Dirs, f: nat, name: string, i: nat)
    requires f in d.nodes && ListsAgree(d, f) && d.nodes[f].isDir && name !in d.nodes[f].hash && i !in d.nodes[f].sons
    requires f in d'.nodes && i in d'.nodes && d'.nodes[i].name == name
    requires d'.nodes[f] == d.nodes[f].(hash := d.nodes[f].hash[name := i], sons := [i] + d.nodes[f].sons,
                                        sonNums := d.nodes[f].sonNums + 1)
    requires forall s :: s in d.nodes[f].sons ==> s in d'.nodes && s in d.nodes && d'.nodes[s].name == d.nodes[s].name
    ensures ListsAgree(d', f)
  {
    ConsDistinct(i, d.nodes[f].sons);
    hide Distinct;
    var n := d'.nodes[f];
    forall k | k in n.hash ensures n.hash[k] in n.sons && n.hash[k] in d'.nodes && d'.nodes[n.hash[k]].name == k {
    }
  }

  lemma SonsNamed(d: Dirs, w: Shape, f: nat, name: string, dir: bool, addr: nat, k: nat)
    requires TreeOk(d, w) && Live(d, f) && addr !in d.nodes && Live(d, k)
    ensures var (d', i) := Create(d, f, name, dir, addr);
            i !in d.nodes[k].sons
            && forall s :: s in d.nodes[k].sons ==> s in d'.nodes && s in d.nodes && d'.nodes[s].name == d.nodes[s].name
  {
    hide Create, SlabFree;
    CreateFrame(d, w, f, name, dir, addr);
    forall s | s in d.nodes[k].sons ensures Live(d, s) {
      SonFacts(d, w, k, s);
    }
  }

  lemma GrownLists(d: Dirs, w: Shape, f: nat, name: string, dir: bool, addr: nat, k: nat)
    requires TreeOk(d, w) && Live(d, f) && d.nodes[f].isDir && name !in d.nodes[f].hash && addr !in d.nodes
    requires Live(Create(d, f, name, dir, addr).0, k)
    ensures ListsAgree(Create(d, f, name, dir, addr).0, k)
  {
    CreateFrame(d, w, f, name, dir, addr);
    var (d', i) := Create(d, f, name, dir, addr);
    hide Create, SlabFree;
    if k != i {
      hide ListsAgree;
      NodeFacts(d, w, k);
      SonsNamed(d, w, f, name, dir, addr, k);
      if k == f {
        FatherLists(d, d', f, name, i);
      } else {
        SameLists(d, d', k);
      }
    }
  }

  lemma OneMoreBelow(d: Dirs, d': Dirs, w: Shape, f: nat, i: nat, k: nat)
    requires k in d.nodes && k in d'.nodes && k in w.rank && SonsBelow(d, w, k) && k != i && Live(d', i)
    requires d'.nodes[k].sons == if k == f then [i] + d.nodes[k].sons else d.nodes[k].sons
    requires forall s :: Live(d, s) ==> Live(d', s) && s != i
    ensures k in Grown(w, f, i).rank && SonsBelow(d', Grown(w, f, i), k)
  {
    hide Live;
    assert forall s :: s in d'.nodes[k].sons ==> s in d.nodes[k].sons || (k == f && s == i);
  }

  lemma GrownBelow(d: Dirs, w: Shape, f: nat, name: string, dir: bool, addr: nat, k: nat)
    requires TreeOk(d, w) && Live(d, f) && d.nodes[f].isDir && name !in d.nodes[f].hash && addr !in d.nodes
    requires Live(Create(d, f, name, dir, addr).0, k)
    ensures var (d', i) := Create(d, f, name, dir, addr);
            k in Grown(w, f, i).rank && SonsBelow(d', Grown(w, f, i), k)
  {
    hide Create, SlabFree, ListsAgree, HasFather;
    CreateFrame(d, w, f, name, dir, addr);
    var (d', i) := Create(d, f, name, dir, addr);
    if k != i {
      NodeFacts(d, w, k);
      hide TreeOk, SonsBelow, Grown;
      OneMoreBelow(d, d', w, f, i, k);
    }
  }

  lemma GrownFather(d: Dirs, w: Shape, f: nat, name: string, dir: bool, addr: nat, k: nat)
    requires TreeOk(d, w) && Live(d, f) && d.nodes[f].isDir && name !in d.nodes[f].hash && addr !in d.nodes
    requires Live(Create(d, f, name, dir, addr).0, k) && k != d.root
    ensures var (d', i) := Create(d, f, name, dir, addr);
            HasFather(d', Grown(w, f, i), k)
  {
    hide Create, SlabFree, ListsAgree, SonsBelow;
    CreateFrame(d, w, f, name, dir, addr);
    var (d', i) := Create(d, f, name, dir, addr);
    if k != i {
      NodeFacts(d, w, k);
    }
  }

  /** dhmpMknod and dhmpCreateDirectory keep the tree, for a name not yet used */
  lemma CreateKeeps(d: Dirs, w: Shape, f: nat, name: string, dir: bool, addr: nat)
    requires TreeOk(d, w) && Live(d, f) && d.nodes[f].isDir && name !in d.nodes[f].hash && addr !in d.nodes
    ensures var (d', i) := Create(d, f, name, dir, addr);
            TreeOk(d', Grown(w, f, i))
  {
    hide Create, SlabFree, ListsAgree, SonsBelow, HasFather;
    CreateFrame(d, w, f, name, dir, addr);
    var (d', i) := Create(d, f, name, dir, addr);
    var w' := Grown(w, f, i);
    forall k | Live(d', k) ensures k in w'.rank && ListsAgree(d', k) && SonsBelow(d', w', k) {
      GrownLists(d, w, f, name, dir, addr, k);
      GrownBelow(d, w, f, name, dir, addr, k);
    }
    forall k | Live(d', k) && k != d'.root ensures HasFather(d', w', k) {
      GrownFather(d, w, f, name, dir, addr, k);
    }
  }

  // ----- renaming -----

  /** A rename keeps the tree exactly when the new name is free: over a used name
      the hash map loses an inode that stays in the sibling list, and what is left
      is no tree of any shape */
  lemma RenameKeepsIff(d: Dirs, w: Shape, f: nat, name: string, to: string)
    requires TreeOk(d, w) && Live(d, f) && name in d.nodes[f].hash
    requires d.nodes[f].hash[name] in d.nodes
    ensures to == name || to !in d.nodes[f].hash ==> TreeOk(Rename(d, f, name, to), w)
    ensures to != name && to in d.nodes[f].hash ==> forall v: Shape :: !TreeOk(Rename(d, f, name, to), v)
  {
    hide SlabFree;
    EntryFacts(d, w, f, name);
    SonFacts(d, w, f, d.nodes[f].hash[name]);
    if to == name || to !in d.nodes[f].hash {
      RenameKeeps(d, w, f, name, to);
    } else {
      var y := d.nodes[f].hash[to];
      EntryFacts(d, w, f, to);
      var d' := Rename(d, f, name, to);
      assert d'.nodes[y].name == to && y in d'.nodes[f].sons && d'.nodes[f].hash[to] != y;
      assert !ListsAgree(d', f) && Live(d', f);
    }
  }

  lemma RenameSlab(d: Dirs, w: Shape, f: nat, name: string, to: string)
    requires TreeOk(d, w) && Live(d, f) && name in d.nodes[f].hash && Live(d, d.nodes[f].hash[name])
    ensures SlabFree(Rename(d, f, name, to))
  {
  }

  lemma RenamedFather(d: Dirs, d': Dirs, f: nat, name: string, to: string)
    requires f in d.nodes && ListsAgree(d, f) && name in d.nodes[f].hash
    requires to == name || to !in d.nodes[f].hash
    requires f in d'.nodes && d'.nodes[f].sonNums == d.nodes[f].sonNums && d'.nodes[f].sons == d.nodes[f].sons
    requires d'.nodes[f].isDir == d.nodes[f].isDir
    requires d'.nodes[f].hash == (d.nodes[f].hash - {name})[to := d.nodes[f].hash[name]]
    requires forall s :: s in d.nodes[f].sons ==> s in d'.nodes && s in d.nodes
    requires forall s :: s in d.nodes[f].sons ==>
      d'.nodes[s].name == if s == d.nodes[f].hash[name] then to else d.nodes[s].name
    ensures ListsAgree(d', f)
  {
    hide Distinct;
  }

  lemma RenameLists(d: Dirs, w: Shape, f: nat, name: string, to: string, k: nat)
    requires TreeOk(d, w) && Live(d, f) && name in d.nodes[f].hash && d.nodes[f].hash[name] in d.nodes
    requires (to == name || to !in d.nodes[f].hash) && Live(d, k)
    ensures ListsAgree(Rename(d, f, name, to), k)
  {
    hide SlabFree, ListsAgree;
    var x := d.nodes[f].hash[name];
    var d' := Rename(d, f, name, to);
    EntryFacts(d, w, f, name);
    SonFacts(d, w, f, x);
    NodeFacts(d, w, k);
    forall s | s in d.nodes[k].sons
      ensures s in d.nodes && s in d'.nodes && d'.nodes[s].name == if s == x then to else d.nodes[s].name
      ensures k != f ==> s != x
    {
      SonFacts(d, w, k, s);
    }
    if k == f {
      RenamedFather(d, d', f, name, to);
    } else {
      SameLists(d, d', k);
    }
  }

  lemma RenameKeeps(d: Dirs, w: Shape, f: nat, name: string, to: string)
    requires TreeOk(d, w) && Live(d, f) && name in d.nodes[f].hash && d.nodes[f].hash[name] in d.nodes
    requires to == name || to !in d.nodes[f].hash
    ensures TreeOk(Rename(d, f, name, to), w)
  {
    hide SlabFree, ListsAgree;
    var d' := Rename(d, f, name, to);
    EntryFacts(d, w, f, name);
    RenameSlab(d, w, f, name, to);
    RenameFrame(d, f, name, to);
    hide Rename;
    forall k | Live(d', k) ensures k in w.rank && ListsAgree(d', k) && SonsBelow(d', w, k) {
      NodeFacts(d, w, k);
      RenameLists(d, w, f, name, to, k);
    }
    forall k | Live(d', k) && k != d'.root ensures HasFather(d', w, k) {
      NodeFacts(d, w, k);
    }
  }

  lemma RenameFrame(d: Dirs, f: nat, name: string, to: string)
    requires f in d.nodes && name in d.nodes[f].hash && d.nodes[f].hash[name] in d.nodes
    ensures var d' := Rename(d, f, name, to);
            && d'.root == d.root && d'.slab == d.slab && d'.nodes.Keys == d.nodes.Keys
            && (forall k :: k in d.nodes ==>
                  d'.nodes[k].sons == d.nodes[k].sons && d'.nodes[k].isDir == d.nodes[k].isDir)
            && (forall k :: k in d.nodes && k != f ==> d'.nodes[k].hash == d.nodes[k].hash)
  {
  }
}
