/** Which regions the client asks to move into and out of DRAM, as functions of the
    count-sorted entries, and why that choice is the best one. */
module Placement {
  import opened Basics

  /** An entry of the sort array: a region, its access count, and whether it is
      cached in DRAM now */
  datatype Region = Region(addr: int, length: nat, rwcnt: int, inDram: bool)

  ghost predicate Sorted(sa: seq<Region>) {
    forall i, j :: 0 <= i < j < |sa| ==> sa[i].rwcnt <= sa[j].rwcnt
  }

  ghost predicate Ascending(ps: seq<nat>) {
    forall x, y :: 0 <= x < y < |ps| ==> ps[x] < ps[y]
  }

  ghost predicate Descending(ps: seq<nat>) {
    forall x, y :: 0 <= x < y < |ps| ==> ps[x] > ps[y]
  }

  /** Positions in [lo, hi) of the entries in DRAM, going up */
  function Cached(sa: seq<Region>, lo: nat, hi: nat): seq<nat>
    requires lo <= hi <= |sa|
    decreases hi
  {
    if lo == hi then []
    else Cached(sa, lo, hi - 1) + (if sa[hi - 1].inDram then [hi - 1] else [])
  }

  /** Positions in [lo, hi) of the entries not in DRAM, going down */
  function Uncached(sa: seq<Region>, lo: nat, hi: nat): seq<nat>
    requires lo <= hi <= |sa|
    decreases hi - lo
  {
    if lo == hi then []
    else Uncached(sa, lo + 1, hi) + (if !sa[lo].inDram then [lo] else [])
  }

  /** Where the suffix as long as the number of cached entries begins */
  function Cut(sa: seq<Region>): (b: nat)
    ensures b <= |sa|
  {
    CountsAddUp(sa, 0, |sa|);
    |sa| - |Cached(sa, 0, |sa|)|
  }

  /** The entry just below the cut is left out by both loops exactly when neither it
      nor the entry at the cut is in DRAM */
  predicate Missed(sa: seq<Region>) {
    var b := Cut(sa);
    b > 0 && !sa[b - 1].inDram && (b == |sa| || !sa[b].inDram)
  }

  /** The first entry that meets the threshold */
  function Reaches(sa: seq<Region>, threshold: int): (t: nat)
    ensures t <= |sa|
    ensures t < |sa| ==> sa[t].rwcnt >= threshold
    ensures forall i :: 0 <= i < t ==> sa[i].rwcnt < threshold
  {
    if sa == [] || sa[0].rwcnt >= threshold then 0 else 1 + Reaches(sa[1..], threshold)
  }

  /** What the exchange loop asks to drop: the cached entries below the cut */
  function Cold(sa: seq<Region>): seq<nat> {
    Cached(sa, 0, Cut(sa))
  }

  /** What it asks to fetch instead: the uncached entries from the cut on */
  function Swapped(sa: seq<Region>): seq<nat> {
    Uncached(sa, Cut(sa), |sa|)
  }

  /** What the second loop adds: the uncached entries below that meet the
      threshold, except a missed one */
  function Added(sa: seq<Region>, threshold: int): seq<nat> {
    var s := if Missed(sa) then Cut(sa) - 1 else Cut(sa);
    var t := Reaches(sa, threshold);
    if t < s then Uncached(sa, t, s) else []
  }

  function Hot(sa: seq<Region>, threshold: int): seq<nat> {
    Swapped(sa) + Added(sa, threshold)
  }

  /** Length of the entries at the positions, added up */
  function Lengths(sa: seq<Region>, ps: seq<nat>): nat
    requires Below(ps, |sa|)
  {
    if ps == [] then 0 else Lengths(sa, ps[..|ps| - 1]) + sa[ps[|ps| - 1]].length
  }

  /** The total is one entry's length for one entry, and adds up */
  lemma {:induction false} LengthsAddUp(sa: seq<Region>, a: seq<nat>, b: seq<nat>)
    requires Below(a, |sa|) && Below(b, |sa|)
    ensures Below(a + b, |sa|) && Lengths(sa, a + b) == Lengths(sa, a) + Lengths(sa, b)
    ensures forall p: nat :: p < |sa| ==> Lengths(sa, [p]) == sa[p].length
  {
    forall p: nat | p < |sa| ensures Lengths(sa, [p]) == sa[p].length {
      assert [p][..0] == [];
    }
    if b == [] {
      assert a + b == a;
    } else {
      var n := |b| - 1;
      LengthsAddUp(sa, a, b[..n]);
      assert (a + b)[..|a + b| - 1] == a + b[..n];
    }
  }

  // ----- counting -----

  lemma {:induction false} CountsAddUp(sa: seq<Region>, lo: nat, hi: nat)
    requires lo <= hi <= |sa|
    ensures |Cached(sa, lo, hi)| <= hi - lo
    decreases hi
  {
    if lo < hi {
      CountsAddUp(sa, lo, hi - 1);
    }
  }

  lemma {:induction false} CachedSplits(sa: seq<Region>, lo: nat, mid: nat, hi: nat)
    requires lo <= mid <= hi <= |sa|
    ensures Cached(sa, lo, hi) == Cached(sa, lo, mid) + Cached(sa, mid, hi)
    decreases hi
  {
    if mid < hi {
      CachedSplits(sa, lo, mid, hi - 1);
      assert Cached(sa, lo, mid) + (Cached(sa, mid, hi - 1) + (if sa[hi - 1].inDram then [hi - 1] else []))
          == Cached(sa, lo, mid) + Cached(sa, mid, hi - 1) + (if sa[hi - 1].inDram then [hi - 1] else []);
    }
  }

  lemma {:induction false} CachedNext(sa: seq<Region>, lo: nat, hi: nat)
    requires lo < hi <= |sa|
    ensures |Cached(sa, lo, hi)| == |Cached(sa, lo + 1, hi)| + if sa[lo].inDram then 1 else 0
    decreases hi
  {
    if lo + 1 == hi {
      assert Cached(sa, lo, lo) == [];
    } else {
      CachedNext(sa, lo, hi - 1);
    }
  }

  lemma UncachedNext(sa: seq<Region>, lo: nat, hi: nat)
    requires lo < hi <= |sa|
    ensures |Uncached(sa, lo, hi)| == |Uncached(sa, lo + 1, hi)| + if sa[lo].inDram then 0 else 1
  {
  }

  /** Cached and uncached entries of a range make up the range */
  lemma {:induction false} BothKinds(sa: seq<Region>, lo: nat, hi: nat)
    requires lo <= hi <= |sa|
    ensures |Cached(sa, lo, hi)| + |Uncached(sa, lo, hi)| == hi - lo
    decreases hi - lo
  {
    if lo < hi {
      BothKinds(sa, lo + 1, hi);
      CachedNext(sa, lo, hi);
      UncachedNext(sa, lo, hi);
    }
  }

  lemma {:induction false} CachedHas(sa: seq<Region>, lo: nat, hi: nat)
    requires lo <= hi <= |sa|
    ensures forall p :: p in Cached(sa, lo, hi) <==> lo <= p < hi && sa[p].inDram
    decreases hi
  {
    if lo < hi {
      CachedHas(sa, lo, hi - 1);
    }
  }

  lemma {:induction false} CachedOrder(sa: seq<Region>, lo: nat, hi: nat)
    requires lo <= hi <= |sa|
    ensures Below(Cached(sa, lo, hi), hi) && Ascending(Cached(sa, lo, hi))
    decreases hi
  {
    if lo < hi {
      CachedOrder(sa, lo, hi - 1);
    }
  }

  lemma CachedAre(sa: seq<Region>, lo: nat, hi: nat)
    requires lo <= hi <= |sa|
    ensures Ascending(Cached(sa, lo, hi))
    ensures forall p :: p in Cached(sa, lo, hi) <==> lo <= p < hi && sa[p].inDram
  {
    CachedOrder(sa, lo, hi);
    CachedHas(sa, lo, hi);
  }

  lemma {:induction false} UncachedHas(sa: seq<Region>, lo: nat, hi: nat)
    requires lo <= hi <= |sa|
    ensures forall p :: p in Uncached(sa, lo, hi) <==> lo <= p < hi && !sa[p].inDram
    decreases hi - lo
  {
    if lo < hi {
      UncachedHas(sa, lo + 1, hi);
    }
  }

  lemma {:induction false} UncachedOrder(sa: seq<Region>, lo: nat, hi: nat)
    requires lo <= hi <= |sa|
    ensures Below(Uncached(sa, lo, hi), hi) && Descending(Uncached(sa, lo, hi))
    ensures forall x :: 0 <= x < |Uncached(sa, lo, hi)| ==> Uncached(sa, lo, hi)[x] >= lo
    decreases hi - lo
  {
    if lo < hi {
      UncachedOrder(sa, lo + 1, hi);
    }
  }

  lemma UncachedAre(sa: seq<Region>, lo: nat, hi: nat)
    requires lo <= hi <= |sa|
    ensures Descending(Uncached(sa, lo, hi))
    ensures forall p :: p in Uncached(sa, lo, hi) <==> lo <= p < hi && !sa[p].inDram
  {
    UncachedOrder(sa, lo, hi);
    UncachedHas(sa, lo, hi);
  }

  /** As many entries are fetched as are dropped */
  lemma EvenSwap(sa: seq<Region>)
    ensures |Cold(sa)| == |Swapped(sa)|
  {
    CachedSplits(sa, 0, Cut(sa), |sa|);
    BothKinds(sa, Cut(sa), |sa|);
  }

  // ----- the exchange is the best one -----

  ghost function Residents(sa: seq<Region>): (r: set<nat>) {
    set p: nat | p < |sa| && sa[p].inDram
  }

  /** The last d of n positions */
  ghost function Suffix(n: nat, d: nat): set<nat>
    requires d <= n
  {
    if d == 0 then {} else Suffix(n - 1, d - 1) + {n - 1}
  }

  lemma {:induction false} SuffixHas(n: nat, d: nat)
    requires d <= n
    ensures |Suffix(n, d)| == d && forall p: nat :: p in Suffix(n, d) <==> n - d <= p < n
  {
    if d > 0 {
      SuffixHas(n - 1, d - 1);
    }
  }

  ghost function Positions(ps: seq<nat>): set<nat> {
    set p | p in ps
  }

  /** Access counts of the entries at the given positions below n, added up */
  ghost function Accesses(sa: seq<Region>, n: nat, at: set<nat>): int
    requires n <= |sa|
  {
    if n == 0 then 0 else Accesses(sa, n - 1, at) + if n - 1 in at then sa[n - 1].rwcnt else 0
  }

  lemma {:induction false} PositionsDistinct(ps: seq<nat>)
    requires Ascending(ps)
    ensures |Positions(ps)| == |ps|
  {
    if ps != [] {
      var n := |ps| - 1;
      var init := ps[..n];
      PositionsDistinct(init);
      assert forall p :: p in ps <==> p in init || p == ps[n];
      assert Positions(ps) == Positions(init) + {ps[n]};
      assert ps[n] !in init;
    }
  }

  /** Dropping the cold entries and fetching the swapped ones leaves exactly the
      suffix of the sorted entries with as many members as before */
  lemma ExchangeLeavesSuffix(sa: seq<Region>)
    ensures |Residents(sa)| <= |sa| && |Suffix(|sa|, |Residents(sa)|)| == |Residents(sa)|
    ensures Positions(Cold(sa)) <= Residents(sa) && Positions(Swapped(sa)) !! Residents(sa)
    ensures Residents(sa) - Positions(Cold(sa)) + Positions(Swapped(sa)) == Suffix(|sa|, |Residents(sa)|)
  {
    hide Cached, Uncached, Suffix, Ascending, Descending;
    CutCounts(sa);
    CachedAre(sa, 0, Cut(sa));
    UncachedAre(sa, Cut(sa), |sa|);
    SuffixHas(|sa|, |Residents(sa)|);
    hide Cut;
  }

  lemma CutCounts(sa: seq<Region>)
    ensures Cut(sa) == |sa| - |Residents(sa)|
  {
    hide Cached, Ascending;
    CachedAre(sa, 0, |sa|);
    PositionsDistinct(Cached(sa, 0, |sa|));
    assert Positions(Cached(sa, 0, |sa|)) == Residents(sa);
    CountsAddUp(sa, 0, |sa|);
  }

  lemma {:induction false} SameBelow(sa: seq<Region>, n: nat, a: set<nat>, b: set<nat>)
    requires n <= |sa| && forall p: nat :: p < n ==> (p in a <==> p in b)
    ensures Accesses(sa, n, a) == Accesses(sa, n, b)
  {
    if n > 0 {
      SameBelow(sa, n - 1, a, b);
    }
  }

  /** Access counts of the last d of the first n entries, added up */
  ghost function LastAccesses(sa: seq<Region>, n: nat, d: nat): int
    requires d <= n <= |sa|
  {
    if d == 0 then 0 else LastAccesses(sa, n - 1, d - 1) + sa[n - 1].rwcnt
  }

  lemma SuffixStep(sa: seq<Region>, n: nat, d: nat)
    requires 0 < d <= n <= |sa|
    ensures Accesses(sa, n, Suffix(n, d)) == Accesses(sa, n - 1, Suffix(n - 1, d - 1)) + sa[n - 1].rwcnt
  {
    SameBelow(sa, n - 1, Suffix(n, d), Suffix(n - 1, d - 1));
  }

  lemma {:induction false} SuffixAccesses(sa: seq<Region>, n: nat, d: nat)
    requires d <= n <= |sa|
    ensures Accesses(sa, n, Suffix(n, d)) == LastAccesses(sa, n, d)
  {
    if d == 0 {
      NoAccesses(sa, n);
    } else {
      hide Suffix, Accesses;
      SuffixStep(sa, n, d);
      SuffixAccesses(sa, n - 1, d - 1);
    }
  }

  lemma {:induction false} NoAccesses(sa: seq<Region>, n: nat)
    requires n <= |sa|
    ensures Accesses(sa, n, {}) == 0
  {
    if n > 0 {
      NoAccesses(sa, n - 1);
    }
  }

  /** Moving the window up by one does not lose accesses */
  lemma {:induction false} LaterIsMore(sa: seq<Region>, n: nat, d: nat)
    requires Sorted(sa) && d < n <= |sa|
    ensures LastAccesses(sa, n - 1, d) <= LastAccesses(sa, n, d)
    decreases d
  {
    if d > 0 {
      LaterIsMore(sa, n - 1, d - 1);
    }
  }

  lemma WithoutLast(sa: seq<Region>, n: nat, choice: set<nat>)
    requires n < |sa| && n in choice
    ensures Accesses(sa, n + 1, choice) == Accesses(sa, n, choice - {n}) + sa[n].rwcnt
    ensures |choice| == |choice - {n}| + 1
  {
    SameBelow(sa, n, choice, choice - {n});
  }

  /** No choice among the first n entries has more accesses than as many of the
      last ones */
  lemma {:induction false} LastIsBest(sa: seq<Region>, n: nat, choice: set<nat>)
    requires Sorted(sa) && n <= |sa| && forall p :: p in choice ==> p < n
    ensures |choice| <= n
    ensures Accesses(sa, n, choice) <= LastAccesses(sa, n, |choice|)
  {
    if n == 0 {
      assert choice == {};
    } else if n - 1 in choice {
      var rest := choice - {n - 1};
      LastIsBest(sa, n - 1, rest);
      WithoutLast(sa, n - 1, choice);
    } else {
      assert forall p :: p in choice ==> p < n - 1;
      LastIsBest(sa, n - 1, choice);
      LaterIsMore(sa, n, |choice|);
    }
  }

  /** After the exchange no other set of as many regions in DRAM would have served
      more accesses */
  lemma PlacementIsBest(sa: seq<Region>, choice: set<nat>)
    requires Sorted(sa) && forall p :: p in choice ==> p < |sa|
    requires |choice| == |Residents(sa)|
    ensures Accesses(sa, |sa|, choice)
         <= Accesses(sa, |sa|, Residents(sa) - Positions(Cold(sa)) + Positions(Swapped(sa)))
  {
    hide Cold, Swapped;
    LastIsBest(sa, |sa|, choice);
    SuffixAccesses(sa, |sa|, |choice|);
    ExchangeLeavesSuffix(sa);
  }

  // ----- what is requested -----

  lemma HotAre(sa: seq<Region>, threshold: int)
    ensures Descending(Hot(sa, threshold))
    ensures forall p :: p in Hot(sa, threshold) <==>
              && 0 <= p < |sa| && !sa[p].inDram
              && (p < Cut(sa) ==> p >= Reaches(sa, threshold) && !(Missed(sa) && p == Cut(sa) - 1))
  {
    hide Cached, Uncached, Cut, Missed;
    var s, a := Swapped(sa), Added(sa, threshold);
    UncachedAre(sa, Cut(sa), |sa|);
    var t, from := Reaches(sa, threshold), if Missed(sa) then Cut(sa) - 1 else Cut(sa);
    if t < from {
      UncachedAre(sa, t, from);
    }
    forall x, y | 0 <= x < |s| && 0 <= y < |a| ensures s[x] > a[y] {
      assert s[x] in s && a[y] in a;
    }
  }

  /** The requests name no entry twice, none that is to be dropped, and none that
      is in DRAM */
  lemma RequestsDistinct(sa: seq<Region>, threshold: int)
    ensures Ascending(Cold(sa)) && Descending(Hot(sa, threshold))
    ensures forall p :: p in Hot(sa, threshold) ==> p < |sa| && !sa[p].inDram && p !in Cold(sa)
  {
    HotAre(sa, threshold);
    CachedAre(sa, 0, Cut(sa));
  }

  /** Every uncached entry that meets the threshold is requested, unless the last
      entry below the cut meets it, is uncached, and has no cached one next to it */
  lemma AllRequestedIff(sa: seq<Region>, threshold: int)
    requires Sorted(sa)
    ensures (forall p: nat :: p < |sa| && !sa[p].inDram && sa[p].rwcnt >= threshold ==> p in Hot(sa, threshold))
       <==> var b := |sa| - |Residents(sa)|;
            0 <= b <= |sa|
            && !(b > 0 && !sa[b - 1].inDram && sa[b - 1].rwcnt >= threshold && (b == |sa| || !sa[b].inDram))
  {
    CutCounts(sa);
    HotAre(sa, threshold);
    var b, t := Cut(sa), Reaches(sa, threshold);
    if Missed(sa) {
      assert b - 1 !in Hot(sa, threshold);
    }
    forall p: nat | p < |sa| && !sa[p].inDram && sa[p].rwcnt >= threshold
      ensures p in Hot(sa, threshold) || (Missed(sa) && p == b - 1)
    {
      assert t <= p;
    }
  }

  /** The case the two loops leave out is real: a single hot entry is never asked for */
  lemma SingleEntryMissed(e: Region, threshold: int)
    requires !e.inDram && e.rwcnt >= threshold
    ensures Missed([e]) && Hot([e], threshold) == []
  {
    assert Cached([e], 0, 1) == [];
  }
}
