/** The server's request handlers: they route a request by its size, choose,
    create and return areas, and count the memory handed out. */
module BuddyServer {
  import opened Basics
  import opened BuddySizes
  import opened BuddySpec
  import opened BuddyAreas

  /** A region registered whole, outside the buddy system (more_area_list) */
  datatype Whole = Whole(key: nat, length: nat)

  /** The memory region a client gets and later sends back: its key names the
      registered region, off is its start inside that region */
  datatype Grant = Grant(key: nat, off: nat, length: nat)

  function GrantOf(key: nat, b: Block): Grant {
    Grant(key, b.off, Size(b.order))
  }

  ghost predicate Disjoint(g: Grant, h: Grant) {
    g.key != h.key || g.off + g.length <= h.off || h.off + h.length <= g.off
  }

  // ----- accounts -----

  ghost function TotalLength(grants: seq<Grant>): nat {
    if grants == [] then 0 else grants[0].length + TotalLength(grants[1..])
  }

  lemma {:induction false} TotalOfConcat(a: seq<Grant>, b: seq<Grant>)
    ensures TotalLength(a + b) == TotalLength(a) + TotalLength(b)
  {
    if a == [] {
      assert a + b == b;
    } else {
      TotalOfConcat(a[1..], b);
      assert (a + b)[1..] == a[1..] + b;
    }
  }

  ghost function Sum(used: seq<int>): int {
    if used == [] then 0 else used[0] + Sum(used[1..])
  }

  lemma {:induction false} SumOfUpdate(used: seq<int>, c: nat, v: int)
    requires c < |used|
    ensures Sum(used[c := v]) == Sum(used) - used[c] + v
  {
    if c > 0 {
      assert used[c := v][1..] == used[1..][c - 1 := v];
      SumOfUpdate(used[1..], c - 1, v);
    } else {
      assert used[c := v][1..] == used[1..];
    }
  }

  lemma {:induction false} SumOfNew(used: seq<int>)
    ensures Sum(used + [0]) == Sum(used)
  {
    if used != [] {
      assert (used + [0])[1..] == used[1..] + [0];
      SumOfNew(used[1..]);
    }
  }

  lemma GrantCounted(grants: seq<Grant>, g: Grant, used: seq<int>, conn: nat)
    requires conn < |used|
    ensures TotalLength(grants + [g]) == TotalLength(grants) + g.length
    ensures Sum(used[conn := used[conn] + g.length]) == Sum(used) + g.length
  {
    TotalOfConcat(grants, [g]);
    SumOfUpdate(used, conn, used[conn] + g.length);
  }

  function Drop(grants: seq<Grant>, i: nat): seq<Grant>
    requires i < |grants|
  {
    grants[..i] + grants[i + 1..]
  }

  lemma TotalOfDrop(grants: seq<Grant>, i: nat)
    requires i < |grants|
    ensures TotalLength(Drop(grants, i)) == TotalLength(grants) - grants[i].length
  {
    var head, tail := grants[..i], grants[i..];
    assert grants == head + tail && tail[0] == grants[i] && tail[1..] == grants[i + 1..];
    TotalOfConcat(head, tail);
    TotalOfConcat(head, tail[1..]);
  }

  ghost predicate DistinctGrants(grants: seq<Grant>) {
    forall i, j :: 0 <= i < j < |grants| ==> grants[i] != grants[j]
  }

  lemma DropRemoves(grants: seq<Grant>, i: nat)
    requires DistinctGrants(grants) && i < |grants|
    ensures DistinctGrants(Drop(grants, i))
    ensures forall g :: g in Drop(grants, i) <==> g in grants && g != grants[i]
  {
    var r := Drop(grants, i);
    assert forall k :: 0 <= k < i ==> r[k] == grants[k];
    assert forall k :: i <= k < |r| ==> r[k] == grants[k + 1];
    forall g | g in grants && g != grants[i] ensures g in r {
      var k :| 0 <= k < |grants| && grants[k] == g;
      assert r[if k < i then k else k - 1] == g;
    }
  }

  ghost predicate IsLive(live: map<nat, set<Block>>, g: Grant, b: Block) {
    g.key in live && b in live[g.key] && g == GrantOf(g.key, b)
  }

  /** The grants out are exactly the live blocks of the areas and the whole
      regions, each once; a length up to the largest block says it is a block */
  ghost predicate Books(top: nat, live: map<nat, set<Block>>, wholes: seq<Whole>, grants: seq<Grant>) {
    && (forall k, b :: k in live && b in live[k] ==> b.order <= top && GrantOf(k, b) in grants)
    && (forall w :: w in wholes ==> w.key !in live && w.length >= Size(top + 1) && Grant(w.key, 0, w.length) in grants)
    && (forall g: Grant :: g in grants && g.length <= Size(top) ==> exists b :: IsLive(live, g, b))
    && (forall g: Grant :: g in grants && g.length > Size(top) ==> g.off == 0 && Whole(g.key, g.length) in wholes)
    && DistinctGrants(grants)
    && (forall i, j :: 0 <= i < j < |wholes| ==> wholes[i].key != wholes[j].key)
  }

  lemma BlockGranted(top: nat, live: map<nat, set<Block>>, wholes: seq<Whole>, grants: seq<Grant>, key: nat, b: Block)
    requires Books(top, live, wholes, grants)
    requires key in live && b.order <= top && b !in live[key]
    ensures GrantOf(key, b) !in grants
    ensures Books(top, live[key := live[key] + {b}], wholes, grants + [GrantOf(key, b)])
  {
    var g := GrantOf(key, b);
    var live' := live[key := live[key] + {b}];
    SizeMonotone(b.order, top);
    if g in grants {
      var c :| IsLive(live, g, c);
      SizeInjective(b.order, c.order);
    }
    assert IsLive(live', g, b);
    forall h: Grant | h in grants + [g] && h.length <= Size(top) ensures exists c :: IsLive(live', h, c) {
      if h in grants {
        var c :| IsLive(live, h, c);
        assert IsLive(live', h, c);
      }
    }
  }

  lemma BlockReturned(top: nat, live: map<nat, set<Block>>, wholes: seq<Whole>, grants: seq<Grant>, i: nat, b: Block)
    requires Books(top, live, wholes, grants)
    requires i < |grants| && IsLive(live, grants[i], b)
    ensures var key := grants[i].key;
            Books(top, live[key := live[key] - {b}], wholes, Drop(grants, i))
  {
    var g := grants[i];
    var live' := live[g.key := live[g.key] - {b}];
    DropRemoves(grants, i);
    SizeMonotone(b.order, top);
    forall h: Grant | h in Drop(grants, i) && h.length <= Size(top) ensures exists c :: IsLive(live', h, c) {
      var c :| IsLive(live, h, c);
      assert IsLive(live', h, c);
    }
    forall k, c | k in live' && c in live'[k] ensures GrantOf(k, c) in Drop(grants, i) {
      if k == g.key && GrantOf(k, c) == g {
        SizeInjective(b.order, c.order);
      }
    }
  }

  lemma AreaAdded(top: nat, live: map<nat, set<Block>>, wholes: seq<Whole>, grants: seq<Grant>, key: nat)
    requires Books(top, live, wholes, grants)
    requires key !in live && forall w :: w in wholes ==> w.key != key
    ensures Books(top, live[key := {}], wholes, grants)
  {
    var live' := live[key := {}];
    forall h: Grant | h in grants && h.length <= Size(top) ensures exists c :: IsLive(live', h, c) {
      var c :| IsLive(live, h, c);
      assert IsLive(live', h, c);
    }
  }

  lemma WholeGranted(top: nat, live: map<nat, set<Block>>, wholes: seq<Whole>, grants: seq<Grant>,
                     key: nat, length: nat)
    requires Books(top, live, wholes, grants) && length >= Size(top + 1)
    requires key !in live && forall w :: w in wholes ==> w.key != key
    ensures Grant(key, 0, length) !in grants
    ensures Books(top, live, [Whole(key, length)] + wholes, grants + [Grant(key, 0, length)])
  {
    var wholes' := [Whole(key, length)] + wholes;
    assert Whole(key, length) == wholes'[0];
    assert forall w :: w in wholes' <==> w == Whole(key, length) || w in wholes;
  }

  function DropWhole(wholes: seq<Whole>, p: nat): seq<Whole>
    requires p < |wholes|
  {
    wholes[..p] + wholes[p + 1..]
  }

  lemma DropWholeRemoves(wholes: seq<Whole>, p: nat)
    requires p < |wholes| && forall i, j :: 0 <= i < j < |wholes| ==> wholes[i].key != wholes[j].key
    ensures forall w :: w in DropWhole(wholes, p) <==> w in wholes && w.key != wholes[p].key
    ensures forall i, j :: 0 <= i < j < |wholes| - 1 ==> DropWhole(wholes, p)[i].key != DropWhole(wholes, p)[j].key
  {
    var rest := DropWhole(wholes, p);
    assert forall k :: 0 <= k < p ==> rest[k] == wholes[k];
    assert forall k :: p <= k < |rest| ==> rest[k] == wholes[k + 1];
    forall w | w in wholes && w.key != wholes[p].key ensures w in rest {
      var k :| 0 <= k < |wholes| && wholes[k] == w;
      assert rest[if k < p then k else k - 1] == w;
    }
  }

  lemma WholeKeys(top: nat, live: map<nat, set<Block>>, wholes: seq<Whole>, grants: seq<Grant>)
    requires Books(top, live, wholes, grants)
    ensures forall i, j :: 0 <= i < j < |wholes| ==> wholes[i].key != wholes[j].key
    ensures forall w :: w in wholes ==> w.key !in live
  {
  }

  lemma WholeReturned(top: nat, live: map<nat, set<Block>>, wholes: seq<Whole>, grants: seq<Grant>, i: nat, p: nat)
    requires Books(top, live, wholes, grants)
    requires i < |grants| && grants[i].length > Size(top)
    requires p < |wholes| && wholes[p].key == grants[i].key
    ensures wholes[p] == Whole(grants[i].key, grants[i].length)
    ensures Books(top, live, DropWhole(wholes, p), Drop(grants, i))
  {
    var g := grants[i];
    assert Whole(g.key, g.length) in wholes;
    DropRemoves(grants, i);
    DropWholeRemoves(wholes, p);
    hide Drop, DropWhole, DistinctGrants;
    forall k, c | k in live && c in live[k] ensures GrantOf(k, c) in Drop(grants, i) {
      SizeMonotone(c.order, top);
    }
  }

  /** The block behind a grant that is out */
  lemma LiveBlock(top: nat, live: map<nat, set<Block>>, wholes: seq<Whole>, grants: seq<Grant>, i: nat)
    returns (b: Block)
    requires Books(top, live, wholes, grants) && i < |grants| && grants[i].length <= Size(top)
    ensures IsLive(live, grants[i], b) && b.order <= top
  {
    assert grants[i] in grants;
    b :| IsLive(live, grants[i], b);
  }

  /** The smallest order up to top whose blocks hold the request */
  function OrderOf(top: nat, request: nat): (i: nat)
    requires request <= Size(top)
    ensures i <= top && request <= Size(i) && (i > 0 ==> Size(i - 1) < request)
  {
    if top > 0 && request <= Size(top - 1) then OrderOf(top - 1, request) else top
  }

  /** The length a request is answered with */
  function LengthFor(top: nat, request: nat): (n: nat)
    ensures request <= n
    ensures n == BASE || n < 2 * request
    ensures request > Size(top + 1) ==> n == request
    ensures request <= Size(top + 1) ==> n == Size(OrderOf(top + 1, request))
  {
    if request <= Size(top) then Size(OrderOf(top, request))
    else if request <= Size(top + 1) then Size(top + 1)
    else request
  }

  // ----- the server -----

  class Server {
    /** MAX_ORDER - 1 */
    const top: nat
    var areas: seq<Area>
    var wholes: seq<Whole>
    var cur: Area
    /** nvm_used_size of every connection */
    var used: seq<int>
    var nextKey: nat
    /** every region granted and not yet given back, and the live blocks by area */
    ghost var grants: seq<Grant>
    ghost var live: map<nat, set<Block>>

    ghost predicate Keyed()
      reads this`live, this`wholes, this`areas, this`nextKey
    {
      && (forall k :: k in live ==> k < nextKey)
      && (forall w :: w in wholes ==> w.key < nextKey)
      && (forall a, b :: a in areas && b in areas && a.key == b.key ==> a == b)
      && (forall k :: k in live ==> exists a :: a in areas && a.key == k)
    }

    ghost predicate AreasValid()
      reads this`live, this`areas, areas
    {
      forall a :: a in areas ==>
        a.Valid() && |a.free| == top + 1 && a.key in live && live[a.key] == a.live
    }

    ghost predicate Consistent()
      reads this, areas
    {
      && cur in areas
      && Keyed()
      && AreasValid()
      && Books(top, live, wholes, grants)
    }

    ghost predicate Valid()
      reads this, areas
    {
      Consistent() && Sum(used) == TotalLength(grants)
    }

    constructor (top: nat)
      ensures Valid() && this.top == top && grants == [] && wholes == [] && used == [] && fresh(areas)
      ensures areas == [cur] && cur.free == Initial(top + 1) && cur.maxIndex == top
    {
      hide Inv, Partition, Tiles, Coalesced, AllSorted, Highest;
      var first := new Area(0, top + 1);
      this.top := top;
      areas := [first];
      wholes := [];
      cur := first;
      used := [];
      nextKey := 1;
      grants := [];
      live := map[0 := {}];
    }

    /** A client connects */
    method Accept() returns (conn: nat)
      requires Valid()
      modifies this`used
      ensures Valid() && conn == |old(used)| && used == old(used) + [0]
    {
      hide Inv, Partition, Tiles, Coalesced, AllSorted, Highest, Books;
      SumOfNew(used);
      conn := |used|;
      used := used + [0];
    }

    /** No two regions out at the same time share a byte */
    lemma GrantsDisjoint(g: Grant, h: Grant)
      requires Valid() && g in grants && h in grants && g != h
      ensures Disjoint(g, h)
    {
      if g.key == h.key && g.length <= Size(top) && h.length <= Size(top) {
        var b :| IsLive(live, g, b);
        var c :| IsLive(live, h, c);
        var a :| a in areas && a.key == g.key;
        assert b in FreeBlocks(a.free) + a.live && c in FreeBlocks(a.free) + a.live;
      }
    }

    /** Put an area built over region key in front of area_list */
    method AddArea(key: nat) returns (a: Area)
      requires Keyed() && AreasValid()
      requires key <= nextKey && key !in live && forall w :: w in wholes ==> w.key != key
      modifies this`areas, this`live, this`nextKey
      ensures fresh(a) && a.key == key && areas == [a] + old(areas) && live == old(live)[key := {}]
      ensures a.free == Initial(top + 1) && a.maxIndex == top
      ensures Keyed() && AreasValid()
    {
      hide Inv, Partition, Tiles, Coalesced, AllSorted, Highest;
      a := new Area(key, top + 1);
      assert areas == ([a] + areas)[1..];
      areas := [a] + areas;
      live := live[key := {}];
      nextKey := if key == nextKey then key + 1 else nextKey;
    }

    /** What a handler's answer to connection conn does to the accounts: nothing on
        failure, one new region on success, counted for that connection alone */
    ghost predicate Booked(oldGrants: seq<Grant>, oldUsed: seq<int>, conn: nat, r: Option<Grant>)
      requires conn < |oldUsed|
      reads this
    {
      match r
      case None => grants == oldGrants && used == oldUsed
      case Some(g) =>
        g !in oldGrants && grants == oldGrants + [g] && used == oldUsed[conn := oldUsed[conn] + g.length]
    }

    /** The lookup of buddy_size that starts dhmp_malloc_one_block */
    method OrderFor(request: nat) returns (index: nat)
      requires request <= Size(top)
      ensures index == OrderOf(top, request)
    {
      index := 0;
      while request > Size(index)
        invariant index <= OrderOf(top, request)
        decreases top - index
      {
        if index + 1 > OrderOf(top, request) {
          SizeMonotone(OrderOf(top, request), index);
        }
        index := index + 1;
      }
      if index < OrderOf(top, request) {
        SizeMonotone(index, OrderOf(top, request) - 1);
      }
    }

    /** a is the first area in the list with a block of the wanted order or above */
    ghost predicate FirstAble(index: nat, a: Area)
      reads this`areas, areas
    {
      exists p :: 0 <= p < |areas| && areas[p] == a && a.maxIndex >= index
                  && forall q :: 0 <= q < p ==> areas[q].maxIndex < index
    }

    method FindArea(index: nat) returns (area: Area?)
      ensures area == null ==> forall a :: a in areas ==> a.maxIndex < index
      ensures area != null ==> area in areas && FirstAble(index, area)
    {
      var i := 0;
      while i < |areas|
        invariant i <= |areas|
        invariant forall k :: 0 <= k < i ==> areas[k].maxIndex < index
      {
        if areas[i].maxIndex >= index {
          return areas[i];
        }
        i := i + 1;
      }
      area := null;
    }

    /** A new area over fresh memory becomes the current one */
    method NewCurrent() returns (area: Area)
      requires Valid()
      modifies this`areas, this`live, this`cur, this`nextKey
      ensures Valid() && fresh(area) && areas == [area] + old(areas) && cur == area && area.maxIndex == top
      ensures area.free == Initial(top + 1)
    {
      hide Inv, Partition, Tiles, Coalesced, AllSorted, Highest, Books;
      AreaAdded(top, live, wholes, grants, nextKey);
      area := AddArea(nextKey);
      cur := area;
    }

    /** The choice of an area with a block of the wanted order: the current one,
        else the first in the list, else a new one */
    method ChooseArea(index: nat, memOk: bool) returns (area: Area?)
      requires Valid() && index <= top
      modifies this`areas, this`live, this`cur, this`nextKey
      ensures Valid()
      ensures area != null ==> area in areas && area.maxIndex >= index && cur == area
      ensures area == null ==> cur == old(cur)
      ensures old(cur.maxIndex) >= index ==> area == old(cur) && areas == old(areas)
      ensures old(cur.maxIndex) < index && area != null && area in old(areas) ==> old(FirstAble(index, area))
      ensures if (exists a :: a in old(areas) && a.maxIndex >= index)
              then area != null && areas == old(areas) && live == old(live)
              else if memOk then area != null && fresh(area) && areas == [area] + old(areas)
                                 && area.free == Initial(top + 1)
              else area == null && areas == old(areas) && live == old(live)
    {
      hide Inv, Partition, Tiles, Coalesced, AllSorted, Highest, Books;
      if cur.maxIndex >= index {
        return cur;
      }
      area := FindArea(index);
      if area != null {
        cur := area;
      } else if memOk {
        area := NewCurrent();
      }
    }

    /** Take the block from the chosen area */
    method TakeBlock(area: Area, index: nat) returns (off: nat)
      requires Consistent() && index <= top && area in areas && area.maxIndex >= index
      modifies this`live, area
      ensures Keyed() && AreasValid() && area.key in old(live)
      ensures Block(index, off) !in old(live)[area.key]
      ensures live == old(live)[area.key := old(live)[area.key] + {Block(index, off)}]
      ensures (Some(off), area.free) == Take(old(area.free), index)
    {
      hide Inv, Partition, Tiles, Coalesced, AllSorted, Highest, Books, Take, Size, FreeBlocks;
      var r := area.GetFreeBlock(index);
      off := r.value;
      live := live[area.key := live[area.key] + {Block(index, off)}];
    }

    /** Take the block and book it */
    method GrantBlock(area: Area, index: nat, conn: nat) returns (g: Grant)
      requires Valid() && index <= top && area in areas && area.maxIndex >= index && conn < |used|
      modifies this`used, this`grants, this`live, area
      ensures Valid()
      ensures g.length == Size(index) && g !in old(grants) && grants == old(grants) + [g]
      ensures used == old(used)[conn := old(used)[conn] + g.length]
      ensures g.key == area.key && (Some(g.off), area.free) == Take(old(area.free), index)
    {
      hide Inv, Partition, Tiles, Coalesced, AllSorted, Highest, Books, Take, Sum, TotalLength, Keyed, AreasValid;
      var off := TakeBlock(area, index);
      g := Grant(area.key, off, Size(index));
      BlockGranted(top, old(live), wholes, grants, area.key, Block(index, off));
      GrantCounted(grants, g, used, conn);
      grants := grants + [g];
      used := used[conn := used[conn] + g.length];
    }

    /** dhmp_malloc_one_block: a block of the smallest order that fits; it fails
        exactly when no area has one and there is no memory for a new area */
    method MallocOneBlock(request: nat, memOk: bool, conn: nat) returns (r: Option<Grant>)
      requires Valid() && request <= Size(top) && conn < |used|
      modifies this`areas, this`live, this`cur, this`nextKey, this`used, this`grants, areas
      ensures Valid() && Booked(old(grants), old(used), conn, r)
      ensures r.None? <==> !memOk && forall a :: a in old(areas) ==> old(a.maxIndex) < OrderOf(top, request)
      ensures r.Some? ==> r.value.length == Size(OrderOf(top, request))
      ensures r.None? ==> areas == old(areas) && cur == old(cur)
      ensures old(cur.maxIndex) >= OrderOf(top, request) ==> r.Some? && cur == old(cur)
      ensures r.Some? && old(cur.maxIndex) < OrderOf(top, request) && cur in old(areas) ==>
                forall a :: a in old(areas) && a == cur ==> old(FirstAble(OrderOf(top, request), a))
      ensures r.Some? ==> cur.key == r.value.key && (cur in old(areas) ==> areas == old(areas))
      ensures forall a :: r.Some? && a in old(areas) && a == cur && OrderOf(top, request) < |old(a.free)| ==>
                (Some(r.value.off), a.free) == Take(old(a.free), OrderOf(top, request))
      ensures r.Some? && cur !in old(areas) ==>
                areas == [cur] + old(areas)
                && (Some(r.value.off), cur.free) == Take(Initial(top + 1), OrderOf(top, request))
      ensures forall a :: a in old(areas) && (r.None? || a != cur) ==> a.free == old(a.free)
    {
      hide Consistent, Take, OrderOf, Sum, TotalLength, Initial;
      var index := OrderFor(request);
      var area := ChooseArea(index, memOk);
      if area == null {
        return None;
      }
      var g := GrantBlock(area, index, conn);
      return Some(g);
    }

    /** dhmp_malloc_more_area: a region registered whole */
    method MallocMoreArea(length: nat, memOk: bool, conn: nat) returns (r: Option<Grant>)
      requires Valid() && length >= Size(top + 1) && conn < |used|
      modifies this`wholes, this`nextKey, this`used, this`grants
      ensures Valid() && Booked(old(grants), old(used), conn, r)
      ensures r.Some? <==> memOk
      ensures r.None? ==> wholes == old(wholes)
      ensures r.Some? ==> r.value == Grant(old(nextKey), 0, length)
                          && wholes == [Whole(old(nextKey), length)] + old(wholes)
    {
      hide Inv, Partition, Tiles, Coalesced, AllSorted, Highest, Books, Sum, TotalLength;
      if !memOk {
        return None;
      }
      var g := Grant(nextKey, 0, length);
      WholeGranted(top, live, wholes, grants, nextKey, length);
      GrantCounted(grants, g, used, conn);
      wholes := [Whole(nextKey, length)] + wholes;
      nextKey := nextKey + 1;
      grants := grants + [g];
      used := used[conn := used[conn] + length];
      return Some(g);
    }

    /** dhmp_malloc_request_handler: a request up to the largest block goes to the
        buddy system, one up to an area gets an area whole, and a larger one a
        region of its own size */
    method MallocRequest(request: nat, memOk: bool, conn: nat) returns (r: Option<Grant>)
      requires Valid() && conn < |used|
      modifies this`areas, this`live, this`cur, this`nextKey, this`used, this`grants, this`wholes, areas
      ensures Valid() && Booked(old(grants), old(used), conn, r)
      ensures r.None? <==> !memOk && (request > Size(top)
                                      || forall a :: a in old(areas) ==> old(a.maxIndex) < OrderOf(top, request))
      ensures request <= Size(top) ==> wholes == old(wholes)
      ensures request > Size(top) ==>
                && areas == old(areas) && cur == old(cur) && (forall a :: a in areas ==> a.free == old(a.free))
                && wholes == match r
                             case None => old(wholes)
                             case Some(g) => [Whole(g.key, LengthFor(top, request))] + old(wholes)
      ensures r.Some? ==> r.value.length == LengthFor(top, request)
      ensures r.Some? ==> forall h :: h in old(grants) ==> Disjoint(r.value, h)
      ensures r.None? ==> areas == old(areas) && cur == old(cur)
      ensures r.Some? && request <= Size(top) ==> cur.key == r.value.key
      ensures request <= Size(top) ==> forall a :: a in old(areas) && (r.None? || a != cur) ==> a.free == old(a.free)
    {
      hide Consistent, Sum, TotalLength, Take, OrderOf, Size, Initial, Disjoint;
      if request <= Size(top) {
        r := MallocOneBlock(request, memOk, conn);
      } else if request <= Size(top + 1) {
        r := MallocMoreArea(Size(top + 1), memOk, conn);
      } else {
        r := MallocMoreArea(request, memOk, conn);
      }
      if r.Some? {
        forall h | h in old(grants) ensures Disjoint(r.value, h) {
          GrantsDisjoint(r.value, h);
        }
      }
    }

    method FindKey(key: nat) returns (area: Area)
      requires Keyed() && key in live
      ensures area in areas && area.key == key && forall a :: a in areas && a.key == key ==> a == area
    {
      var p := 0;
      ghost var home :| home in areas && home.key == key;
      ghost var q :| 0 <= q < |areas| && areas[q] == home;
      while areas[p].key != key
        invariant p <= q
        decreases q - p
      {
        p := p + 1;
      }
      area := areas[p];
    }

    /** Merge a block back into its area */
    method ReturnBlock(area: Area, g: Grant, ghost b: Block)
      requires Consistent() && area in areas && area.key == g.key && IsLive(live, g, b) && b.order <= top
      modifies this`live, area
      ensures Keyed() && AreasValid() && live == old(live)[g.key := old(live)[g.key] - {b}]
      ensures area.free == Release(old(area.free), g.off, b.order)
    {
      hide Inv, Partition, Tiles, Coalesced, AllSorted, Highest, Books, Release;
      area.FreeBlock(g.off, g.length, b.order);
      live := live[g.key := live[g.key] - {b}];
    }

    /** dhmp_free_one_block: the area is found by key, the block merged back */
    method FreeOneBlock(g: Grant, ghost i: nat)
      requires Consistent() && i < |grants| && grants[i] == g && g.length <= Size(top)
      modifies this`live, this`grants, areas
      ensures Consistent() && live.Keys == old(live).Keys
      ensures grants == Drop(old(grants), i)
      ensures forall a, j: nat :: a in areas && j <= top && Size(j) == g.length && j < |old(a.free)| ==>
                a.free == if a.key == g.key then Release(old(a.free), g.off, j) else old(a.free)
    {
      hide Books, Drop, Release, Size, Keyed, AreasValid, Disjoint, Inv;
      ghost var b := LiveBlock(top, live, wholes, grants, i);
      forall j: nat | Size(j) == g.length ensures j == b.order {
        SizeInjective(j, b.order);
      }
      var area := FindKey(g.key);
      BlockReturned(top, live, wholes, grants, i, b);
      ReturnBlock(area, g, b);
      grants := Drop(grants, i);
      assert live.Keys == old(live).Keys + {g.key};
    }

    /** dhmp_free_one_area: the region joins the buddy areas, or goes back to the
        system if its bookkeeping cannot be allocated */
    method FreeOneArea(g: Grant, buildOk: bool, ghost i: nat)
      requires Consistent() && i < |grants| && grants[i] == g && g.length > Size(top)
      modifies this`areas, this`live, this`nextKey, this`grants, this`wholes
      ensures Consistent()
      ensures grants == Drop(old(grants), i)
      ensures !buildOk ==> areas == old(areas)
      ensures buildOk ==>
                && |areas| == |old(areas)| + 1 && areas[1..] == old(areas)
                && areas[0].key == g.key && areas[0].free == Initial(top + 1) && areas[0].maxIndex == top
                && fresh(areas[0])
      ensures Whole(g.key, g.length) in old(wholes) && Whole(g.key, g.length) !in wholes
    {
      hide Inv, Partition, Tiles, Coalesced, AllSorted, Highest, Books, Drop, DropWhole, Initial, Size;
      var p := FindWhole(g);
      WholeKeys(top, live, wholes, grants);
      assert wholes[p] in wholes;
      WholeReturned(top, live, wholes, grants, i, p);
      DropWholeRemoves(wholes, p);
      wholes := DropWhole(wholes, p);
      grants := Drop(grants, i);
      if buildOk {
        AreaAdded(top, live, wholes, grants, g.key);
        var a := AddArea(g.key);
      }
    }

    method FindWhole(g: Grant) returns (p: nat)
      requires Consistent() && g in grants && g.length > Size(top)
      ensures p < |wholes| && wholes[p] == Whole(g.key, g.length)
    {
      ghost var q :| 0 <= q < |wholes| && wholes[q] == Whole(g.key, g.length);
      p := 0;
      while wholes[p].key != g.key
        invariant p <= q
        decreases q - p
      {
        p := p + 1;
      }
    }

    /** dhmp_free_more_area: the region goes back to the system */
    method FreeMoreArea(g: Grant, ghost i: nat)
      requires Consistent() && i < |grants| && grants[i] == g && g.length > Size(top)
      modifies this`grants, this`wholes
      ensures Consistent()
      ensures grants == Drop(old(grants), i)
      ensures Whole(g.key, g.length) in old(wholes) && Whole(g.key, g.length) !in wholes
    {
      var p := FindWhole(g);
      WholeReturned(top, live, wholes, grants, i, p);
      DropWholeRemoves(wholes, p);
      wholes := DropWhole(wholes, p);
      grants := Drop(grants, i);
    }

    /** dhmp_free_request_handler, for a region that is out: the length alone
        routes it back to where it came from, and the connection that sends it is
        counted down, whichever it was granted to */
    method FreeRequest(g: Grant, buildOk: bool, conn: nat, ghost i: nat)
      requires Valid() && i < |grants| && grants[i] == g && conn < |used|
      modifies this`areas, this`live, this`nextKey, this`used, this`grants, this`wholes, areas
      ensures Valid()
      ensures grants == Drop(old(grants), i) && used == old(used)[conn := old(used)[conn] - g.length]
      ensures g.length <= Size(top) ==> areas == old(areas) && wholes == old(wholes)
      ensures g.length <= Size(top) ==>
                forall a, j: nat :: a in areas && j <= top && Size(j) == g.length && j < |old(a.free)| ==>
                  a.free == if a.key == g.key then Release(old(a.free), g.off, j) else old(a.free)
      ensures g.length > Size(top) ==> Whole(g.key, g.length) in old(wholes) && Whole(g.key, g.length) !in wholes
      ensures Size(top) < g.length <= Size(top + 1) && buildOk ==>
                && |areas| == |old(areas)| + 1 && areas[1..] == old(areas)
                && areas[0].key == g.key && areas[0].free == Initial(top + 1) && areas[0].maxIndex == top
                && fresh(areas[0])
      ensures g.length > Size(top) && (g.length > Size(top + 1) || !buildOk) ==> areas == old(areas)
      ensures g.length > Size(top) ==> forall a :: a in old(areas) ==> a.free == old(a.free)
    {
      hide Inv, Partition, Tiles, Coalesced, AllSorted, Highest, Books, Drop, Size, Sum, TotalLength, Keyed,
        AreasValid, Release;
      TotalOfDrop(grants, i);
      SumOfUpdate(used, conn, used[conn] - g.length);
      used := used[conn := used[conn] - g.length];
      if g.length <= Size(top) {
        FreeOneBlock(g, i);
      } else if g.length <= Size(top + 1) {
        FreeOneArea(g, buildOk, i);
      } else {
        FreeMoreArea(g, i);
      }
    }

    /** A region as large as an area that was freed serves the next requests of up to
        the largest block, even with no other memory left */
    method FreeThenMalloc(g: Grant, request: nat, conn: nat, ghost i: nat) returns (r: Option<Grant>)
      requires Valid() && i < |grants| && grants[i] == g && conn < |used|
      requires Size(top) < g.length <= Size(top + 1) && request <= Size(top)
      modifies this`areas, this`live, this`cur, this`nextKey, this`used, this`grants, this`wholes, areas
      ensures Valid() && r.Some? && r.value.length == LengthFor(top, request)
    {
      hide Consistent, Sum, TotalLength, Drop, Initial;
      FreeRequest(g, true, conn, i);
      assert areas[0] in areas;
      r := MallocRequest(request, false, conn);
    }
  }
}
