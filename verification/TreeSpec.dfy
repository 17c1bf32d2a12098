/** The directory tree as inodes with a hash map and a sibling list each, the walk
    along a path, and the operations that change the tree. */
module TreeSpec {
  import opened Basics

  /** hash is the finite map the directory's hash map stands for, sons the sibling
      list from its head. sonNums is never set back when an inode is reset. */
  datatype Node = Node(name: string, isDir: bool, hash: map<string, nat>, sons: seq<nat>, sonNums: int)

  /** slab is the list of free inodes */
  datatype Dirs = Dirs(nodes: map<nat, Node>, slab: seq<nat>, root: nat)

  /** Looking up a name in something that is no directory is no lookup but a fault:
      a file has no hash map */
  datatype Walk = Found(ino: nat) | Missing | Fault

  /** Why every tree is one: each inode's only father, and a rank that falls from
      father to son */
  datatype Shape = Shape(parent: map<nat, nat>, rank: map<nat, nat>)

  predicate Live(d: Dirs, i: nat) {
    i in d.nodes && i !in d.slab
  }

  // ----- the invariant -----

  /** Hash map and sibling list hold the same inodes, each under its own name;
      the son count is not below the number of sons */
  ghost predicate ListsAgree(d: Dirs, i: nat)
    requires i in d.nodes
  {
    var n := d.nodes[i];
    && Distinct(n.sons)
    && n.sonNums >= |n.sons|
    && (forall s :: s in n.sons ==> s in d.nodes && d.nodes[s].name in n.hash && n.hash[d.nodes[s].name] == s)
    && (forall k :: k in n.hash ==> n.hash[k] in n.sons && n.hash[k] in d.nodes && d.nodes[n.hash[k]].name == k)
    && (!n.isDir ==> n.sons == [] && n.hash == map[])
  }

  ghost predicate SonsBelow(d: Dirs, w: Shape, i: nat)
    requires i in d.nodes && i in w.rank
  {
    forall s :: s in d.nodes[i].sons ==>
      Live(d, s) && s in w.parent && w.parent[s] == i && s in w.rank && w.rank[s] < w.rank[i]
  }

  ghost predicate HasFather(d: Dirs, w: Shape, i: nat) {
    i in w.parent && Live(d, w.parent[i]) && i in d.nodes[w.parent[i]].sons
  }

  predicate Blank(n: Node) {
    n.name == "" && !n.isDir && n.hash == map[] && n.sons == [] && n.sonNums >= 0
  }

  ghost predicate SlabFree(d: Dirs) {
    Distinct(d.slab) && forall i :: i in d.slab ==> i in d.nodes && Blank(d.nodes[i])
  }

  ghost predicate TreeOk(d: Dirs, w: Shape) {
    && SlabFree(d)
    && Live(d, d.root) && d.nodes[d.root].isDir && d.root !in w.parent
    && (forall i :: Live(d, i) ==> i in w.rank && ListsAgree(d, i) && SonsBelow(d, w, i))
    && (forall i :: Live(d, i) && i != d.root ==> HasFather(d, w, i))
  }

  // ----- walking -----

  function Lookup(d: Dirs, i: nat, name: string): Walk {
    if i !in d.nodes || !d.nodes[i].isDir then Fault
    else if name !in d.nodes[i].hash then Missing
    else Found(d.nodes[i].hash[name])
  }

  function WalkFrom(d: Dirs, i: nat, segs: seq<string>): Walk
    decreases |segs|
  {
    if segs == [] then Found(i)
    else
      var next := Lookup(d, i, segs[0]);
      if next.Found? then WalkFrom(d, next.ino, segs[1..]) else next
  }

  // ----- operations -----

  /** add_to_father and the put into the father's hash map */
  function Link(d: Dirs, f: nat, name: string, i: nat): Dirs
    requires f in d.nodes
  {
    var n := d.nodes[f];
    d.(nodes := d.nodes[f := n.(hash := n.hash[name := i], sons := [i] + n.sons, sonNums := n.sonNums + 1)])
  }

  /** get_free_inode and the filling in of its name and kind */
  function NewNode(d: Dirs, name: string, dir: bool, addr: nat): (Dirs, nat) {
    if d.slab != [] then
      var i := d.slab[0];
      var n := if i in d.nodes then d.nodes[i] else Node("", false, map[], [], 0);
      (d.(slab := d.slab[1..], nodes := d.nodes[i := n.(name := name, isDir := dir)]), i)
    else (d.(nodes := d.nodes[addr := Node(name, dir, map[], [], 0)]), addr)
  }

  function Create(d: Dirs, f: nat, name: string, dir: bool, addr: nat): (Dirs, nat)
    requires f in d.nodes
  {
    var (d1, i) := NewNode(d, name, dir, addr);
    (Link(d1, f, name, i), i)
  }

  function Without(s: seq<nat>, x: nat): (r: seq<nat>)
    ensures |r| <= |s|
  {
    if s == [] then []
    else if s[0] == x then s[1..]
    else [s[0]] + Without(s[1..], x)
  }

  /** del_from_father and the removal from the father's hash map */
  function Unlink(d: Dirs, f: nat, x: nat, name: string): Dirs
    requires f in d.nodes
  {
    var n := d.nodes[f];
    d.(nodes := d.nodes[f := n.(hash := n.hash - {name}, sons := Without(n.sons, x),
                                 sonNums := if x in n.sons then n.sonNums - 1 else n.sonNums)])
  }

  /** reset_indoe as far as the tree is concerned */
  function ResetNode(d: Dirs, x: nat): Dirs {
    var count := if x in d.nodes then d.nodes[x].sonNums else 0;
    d.(nodes := d.nodes[x := Node("", false, map[], [], count)], slab := d.slab + [x])
  }

  function ResetNodes(d: Dirs, l: seq<nat>): Dirs
    decreases |l|
  {
    if l == [] then d else ResetNodes(ResetNode(d, l[0]), l[1..])
  }

  ghost predicate BelowBound(d: Dirs, w: Shape, l: seq<nat>, bound: nat) {
    forall s :: s in l ==> Live(d, s) && s in w.rank && w.rank[s] < bound
  }

  /** The order in which dhmpDeleteALL resets the given siblings and everything
      below: sons first, but only those of a directory whose son count is not 0 */
  ghost function Order(d: Dirs, w: Shape, l: seq<nat>, bound: nat): seq<nat>
    requires TreeOk(d, w) && BelowBound(d, w, l, bound)
    decreases bound, |l|
  {
    if l == [] then []
    else
      var s := l[0];
      assert s in l;
      var n := d.nodes[s];
      assert SonsBelow(d, w, s);
      (if n.isDir && n.sonNums != 0 then Order(d, w, n.sons, w.rank[s]) else []) + [s] + Order(d, w, l[1..], bound)
  }

  /** Everything dhmpDelFromInode gives back for x */
  ghost function Subtree(d: Dirs, w: Shape, x: nat): seq<nat>
    requires TreeOk(d, w) && Live(d, x)
  {
    assert SonsBelow(d, w, x);
    (if d.nodes[x].isDir then Order(d, w, d.nodes[x].sons, w.rank[x]) else []) + [x]
  }

  ghost function Delete(d: Dirs, w: Shape, f: nat, name: string): Dirs
    requires TreeOk(d, w) && Live(d, f) && name in d.nodes[f].hash
  {
    assert ListsAgree(d, f) && SonsBelow(d, w, f);
    var x := d.nodes[f].hash[name];
    ResetNodes(Unlink(d, f, x, name), Subtree(d, w, x))
  }

  /** Rename within one directory */
  function Rename(d: Dirs, f: nat, name: string, to: string): Dirs
    requires f in d.nodes && name in d.nodes[f].hash && d.nodes[f].hash[name] in d.nodes
  {
    var x := d.nodes[f].hash[name];
    var nodes := d.nodes[x := d.nodes[x].(name := to)];
    d.(nodes := nodes[f := nodes[f].(hash := (nodes[f].hash - {name})[to := x])])
  }

  // ----- below -----

  /** Climbing from j leads to a */
  ghost predicate Under(w: Shape, j: nat, a: nat)
    requires a in w.rank
    decreases if j in w.rank && w.rank[j] <= w.rank[a] then w.rank[a] - w.rank[j] else 0
  {
    j == a ||
    (j in w.rank && j in w.parent && w.parent[j] in w.rank
     && w.rank[j] < w.rank[w.parent[j]] <= w.rank[a] && Under(w, w.parent[j], a))
  }
}
