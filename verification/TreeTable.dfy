/** The tree over its hash tables: every directory's map is kept by a table of
    buckets, walking a path looks names up in the tables, and what a call does to
    them keeps them the tables of the tree it leaves. */
module TreeTable {
  import opened Basics
  import opened HashSpec
  import opened HashClient
  import opened TreeSpec

  type Table = seq<Bucket<string, nat>>

  /** Each directory has a table that stands for its map */
  ghost predicate Indexed(d: Dirs, ts: map<nat, Table>, h: string -> nat) {
    forall i :: i in d.nodes && d.nodes[i].isDir ==> i in ts && Represents(ts[i], h, d.nodes[i].hash)
  }

  // ----- walking -----

  /** d_hash->get on the table of inode i */
  function LookupIn(d: Dirs, ts: map<nat, Table>, h: string -> nat, i: nat, name: string): Walk {
    if i !in d.nodes || !d.nodes[i].isDir || i !in ts || ts[i] == [] then Fault
    else
      match BucketGet(ts[i][Index(h, name, |ts[i]|)], name)
      case None => Missing
      case Some(x) => Found(x)
  }

  function WalkIn(d: Dirs, ts: map<nat, Table>, h: string -> nat, i: nat, segs: seq<string>): Walk
    decreases |segs|
  {
    if segs == [] then Found(i)
    else
      var next := LookupIn(d, ts, h, i, segs[0]);
      if next.Found? then WalkIn(d, ts, h, next.ino, segs[1..]) else next
  }

  /** Walking through the tables ends where walking through the maps does */
  lemma {:induction false} WalkThroughTables(d: Dirs, ts: map<nat, Table>, h: string -> nat, i: nat, segs: seq<string>)
    requires Indexed(d, ts, h)
    ensures WalkIn(d, ts, h, i, segs) == WalkFrom(d, i, segs)
    decreases |segs|
  {
    if segs != [] {
      LookupThroughTable(d, ts, h, i, segs[0]);
      var next := Lookup(d, i, segs[0]);
      if next.Found? {
        WalkThroughTables(d, ts, h, next.ino, segs[1..]);
      }
    }
  }

  lemma LookupThroughTable(d: Dirs, ts: map<nat, Table>, h: string -> nat, i: nat, name: string)
    requires Indexed(d, ts, h)
    ensures LookupIn(d, ts, h, i, name) == Lookup(d, i, name)
  {
    if i in d.nodes && d.nodes[i].isDir {
      GetRepresents(ts[i], h, d.nodes[i].hash, name);
    }
  }

  // ----- the calls -----

  function Put(t: Table, h: string -> nat, k: string, v: nat): Table
    requires t != []
  {
    var i := Index(h, k, |t|);
    t[i := BucketPut(t[i], k, v)]
  }

  function Dropped(t: Table, h: string -> nat, k: string): Table
    requires t != []
  {
    var i := Index(h, k, |t|);
    t[i := BucketRemove(t[i], k)]
  }

  function Empty(n: nat): Table {
    seq(n, _ => Bucket(None, []))
  }

  /** mknod and mkdir: a put into the father's table and, for a directory, an empty
      table of its own */
  lemma CreateIndexed(d: Dirs, ts: map<nat, Table>, h: string -> nat, f: nat, name: string, dir: bool, addr: nat)
    requires Indexed(d, ts, h) && SlabFree(d) && Live(d, f) && d.nodes[f].isDir && addr !in d.nodes
    ensures var (d', i) := Create(d, f, name, dir, addr);
            var made := if dir then ts[i := Empty(DEFAULT_SIZE)] else ts;
            && ts[f] != []
            && Indexed(d', made[f := Put(ts[f], h, name, i)], h)
  {
    var (d', i) := Create(d, f, name, dir, addr);
    assert d.slab != [] ==> i in d.slab;
    PutRepresents(ts[f], h, d.nodes[f].hash, name, i);
    EmptyRepresents<string, nat>(Empty(DEFAULT_SIZE), h);
    hide Represents;
  }

  /** What del_from_father does, and the resets after it, which leave no table in
      use that was not */
  lemma UnlinkIndexed(d: Dirs, ts: map<nat, Table>, h: string -> nat, f: nat, x: nat, name: string)
    requires Indexed(d, ts, h) && f in d.nodes && d.nodes[f].isDir
    ensures ts[f] != [] && Indexed(Unlink(d, f, x, name), ts[f := Dropped(ts[f], h, name)], h)
  {
    RemoveRepresents(ts[f], h, d.nodes[f].hash, name);
    hide Represents;
  }

  lemma {:induction false} ResetIndexed(d: Dirs, ts: map<nat, Table>, h: string -> nat, l: seq<nat>)
    requires Indexed(d, ts, h)
    ensures Indexed(ResetNodes(d, l), ts, h)
    decreases |l|
  {
    hide Represents;
    if l != [] {
      ResetIndexed(ResetNode(d, l[0]), ts, h, l[1..]);
    }
  }

  lemma DeleteIndexed(d: Dirs, w: Shape, ts: map<nat, Table>, h: string -> nat, f: nat, name: string)
    requires Indexed(d, ts, h) && TreeOk(d, w) && Live(d, f) && d.nodes[f].isDir && name in d.nodes[f].hash
    ensures ts[f] != [] && Indexed(Delete(d, w, f, name), ts[f := Dropped(ts[f], h, name)], h)
  {
    var x := d.nodes[f].hash[name];
    assert ListsAgree(d, f) && SonsBelow(d, w, f);
    UnlinkIndexed(d, ts, h, f, x, name);
    ResetIndexed(Unlink(d, f, x, name), ts[f := Dropped(ts[f], h, name)], h, Subtree(d, w, x));
  }

  /** A rename takes the old key out of the table and puts the new one in */
  lemma RenameIndexed(d: Dirs, ts: map<nat, Table>, h: string -> nat, f: nat, name: string, to: string)
    requires Indexed(d, ts, h) && f in d.nodes && d.nodes[f].isDir
    requires name in d.nodes[f].hash && d.nodes[f].hash[name] in d.nodes
    ensures ts[f] != []
    ensures Indexed(Rename(d, f, name, to),
                    ts[f := Put(Dropped(ts[f], h, name), h, to, d.nodes[f].hash[name])], h)
  {
    var x := d.nodes[f].hash[name];
    RemoveRepresents(ts[f], h, d.nodes[f].hash, name);
    PutRepresents(Dropped(ts[f], h, name), h, d.nodes[f].hash - {name}, to, x);
    hide Represents;
  }

  // ----- the tables as objects -----

  /** The table part of mknod and mkdir on the hash map of directory f: -1 for a name
      taken, else the put */
  method MakeEntry(t: HashMap<string, nat>, ghost d: Dirs, f: nat, name: string, i: nat) returns (code: int)
    requires t.Valid() && f in d.nodes && t.Contents == d.nodes[f].hash
    modifies t`size, t`Contents, t`buckets, t.buckets
    ensures t.Valid() && code == if name in d.nodes[f].hash then -1 else 1
    ensures t.Contents == if code == 1 then Link(d, f, name, i).nodes[f].hash else d.nodes[f].hash
  {
    var found := t.Get(name);
    if found != None {
      return -1;
    }
    t.Put(name, i);
    code := 1;
  }

  /** The table part of unlink and rmdir: the inode to delete, taken out of the map,
      or -1 for a name that is not there */
  method DropEntry(t: HashMap<string, nat>, ghost d: Dirs, f: nat, name: string) returns (code: int, x: Option<nat>)
    requires t.Valid() && f in d.nodes && t.Contents == d.nodes[f].hash
    modifies t`size, t`Contents, t`buckets, t.buckets
    ensures t.Valid() && code == if name in d.nodes[f].hash then 1 else -1
    ensures match x
            case None => code == -1 && t.Contents == d.nodes[f].hash
            case Some(i) =>
              name in d.nodes[f].hash && i == d.nodes[f].hash[name]
              && t.Contents == Unlink(d, f, i, name).nodes[f].hash
  {
    x := t.Get(name);
    if x == None {
      return -1, None;
    }
    t.Remove(name);
    code := 1;
  }

  /** The table part of a rename: -17 for a name that is not there, else the two
      calls */
  method RekeyEntry(t: HashMap<string, nat>, ghost d: Dirs, f: nat, name: string, to: string) returns (code: int)
    requires t.Valid() && f in d.nodes && t.Contents == d.nodes[f].hash
    requires forall k :: k in d.nodes[f].hash ==> d.nodes[f].hash[k] in d.nodes
    modifies t`size, t`Contents, t`buckets, t.buckets
    ensures t.Valid() && code == if name in d.nodes[f].hash then 0 else -17
    ensures t.Contents == if code == 0 then Rename(d, f, name, to).nodes[f].hash else d.nodes[f].hash
    ensures Represents(t.buckets[..], t.hash, t.Contents)
  {
    var x := t.Get(name);
    if x == None {
      return -17;
    }
    t.Remove(name);
    t.Put(to, x.value);
    code := 0;
  }
}
