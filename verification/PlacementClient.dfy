/** One server node's share of the client's periodic poll: picking the entries that
    compete for DRAM and deciding which to drop and which to fetch. */
module PlacementClient {
  import opened Basics
  import opened Placement

  /** A region's record in the address hash table, with the counts since the last
      poll */
  datatype AddrInfo = AddrInfo(addr: int, length: nat, readCnt: nat, writeCnt: nat, inDram: bool)

  datatype NvmInfo = NvmInfo(addr: int, length: nat)

  function Count(a: AddrInfo): nat {
    a.readCnt + a.writeCnt
  }

  function AsRegion(a: AddrInfo): Region {
    Region(a.addr, a.length, Count(a), a.inDram)
  }

  /** Accessed regions that are hot or already in DRAM */
  predicate Competes(a: AddrInfo, threshold: int) {
    Count(a) != 0 && (Count(a) >= threshold || a.inDram)
  }

  function Selected(infos: seq<AddrInfo>, threshold: int): seq<Region> {
    if infos == [] then []
    else
      var n := |infos| - 1;
      Selected(infos[..n], threshold) + if Competes(infos[n], threshold) then [AsRegion(infos[n])] else []
  }

  /** The positions in the table of the records that enter */
  ghost function Picks(infos: seq<AddrInfo>, threshold: int): seq<nat> {
    if infos == [] then []
    else
      var n := |infos| - 1;
      Picks(infos[..n], threshold) + if Competes(infos[n], threshold) then [n] else []
  }

  lemma {:induction false} PicksAre(infos: seq<AddrInfo>, threshold: int)
    ensures var at := Picks(infos, threshold);
            && Ascending(at) && Below(at, |infos|)
            && forall i: nat :: i in at <==> i < |infos| && Competes(infos[i], threshold)
  {
    if infos != [] {
      var n := |infos| - 1;
      PicksAre(infos[..n], threshold);
      var init := Picks(infos[..n], threshold);
      hide Competes;
      assert forall i: nat :: i in init + [n] <==> i in init || i == n;
      assert Ascending(init + [n]) && Below(init + [n], n + 1);
    }
  }

  lemma {:induction false} PicksMatch(infos: seq<AddrInfo>, threshold: int)
    ensures var at, sel := Picks(infos, threshold), Selected(infos, threshold);
            && |at| == |sel| && Below(at, |infos|)
            && forall k :: 0 <= k < |at| ==> sel[k] == AsRegion(infos[at[k]])
  {
    if infos != [] {
      PicksMatch(infos[..|infos| - 1], threshold);
    }
  }

  /** What the walk enters, by the fields of the records: exactly the regions accessed
      since the last poll that meet the threshold or are in DRAM, each once, in
      the order of the table, with its address, length, count and place */
  lemma SelectedExact(infos: seq<AddrInfo>, threshold: int)
    ensures var at, sel := Picks(infos, threshold), Selected(infos, threshold);
            && |at| == |sel| && Ascending(at) && Below(at, |infos|)
            && (forall i :: 0 <= i < |infos| ==>
                  (i in at <==> infos[i].readCnt + infos[i].writeCnt != 0
                                && (infos[i].inDram || infos[i].readCnt + infos[i].writeCnt >= threshold)))
            && (forall k :: 0 <= k < |at| ==>
                  var r, a := sel[k], infos[at[k]];
                  && r.addr == a.addr && r.length == a.length
                  && r.rwcnt == a.readCnt + a.writeCnt && r.inDram == a.inDram)
  {
    PicksAre(infos, threshold);
    PicksMatch(infos, threshold);
    hide Picks, Selected;
  }

  /** The entry of a record that enters */
  lemma EntryOf(infos: seq<AddrInfo>, sa: seq<Region>, threshold: int, i: nat) returns (p: nat)
    requires multiset(sa) == multiset(Selected(infos, threshold)) && i < |infos| && Competes(infos[i], threshold)
    ensures p < |sa| && sa[p] == AsRegion(infos[i])
  {
    PicksAre(infos, threshold);
    PicksMatch(infos, threshold);
    hide Picks, Selected, AsRegion;
    var at := Picks(infos, threshold);
    var k :| 0 <= k < |at| && at[k] == i;
    assert Selected(infos, threshold)[k] in multiset(sa);
    p :| 0 <= p < |sa| && sa[p] == Selected(infos, threshold)[k];
  }

  /** The record of an entry */
  lemma RecordOf(infos: seq<AddrInfo>, sa: seq<Region>, threshold: int, p: nat) returns (i: nat)
    requires multiset(sa) == multiset(Selected(infos, threshold)) && p < |sa|
    ensures i < |infos| && Competes(infos[i], threshold) && sa[p] == AsRegion(infos[i])
  {
    PicksAre(infos, threshold);
    PicksMatch(infos, threshold);
    hide Picks, Selected, Competes, AsRegion;
    assert sa[p] in multiset(sa) && sa[p] in Selected(infos, threshold);
    var k :| 0 <= k < |Selected(infos, threshold)| && Selected(infos, threshold)[k] == sa[p];
    i := Picks(infos, threshold)[k];
    assert i in Picks(infos, threshold);
  }

  // ----- how many are in DRAM -----

  function InDram(sa: seq<Region>): nat {
    if sa == [] then 0 else InDram(sa[..|sa| - 1]) + if sa[|sa| - 1].inDram then 1 else 0
  }

  /** Accessed regions in DRAM */
  function AccessedInDram(infos: seq<AddrInfo>): nat {
    if infos == [] then 0
    else
      var a := infos[|infos| - 1];
      AccessedInDram(infos[..|infos| - 1]) + if a.readCnt + a.writeCnt != 0 && a.inDram then 1 else 0
  }

  lemma InDramWith(sa: seq<Region>, r: Region)
    ensures InDram(sa + [r]) == InDram(sa) + if r.inDram then 1 else 0
  {
    assert (sa + [r])[..|sa|] == sa;
  }

  lemma {:induction false} InDramSelected(infos: seq<AddrInfo>, threshold: int)
    ensures InDram(Selected(infos, threshold)) == AccessedInDram(infos)
  {
    if infos != [] {
      var n := |infos| - 1;
      InDramSelected(infos[..n], threshold);
      var init := Selected(infos[..n], threshold);
      InDramWith(init, AsRegion(infos[n]));
      hide InDram;
      assert init + [] == init;
    }
  }

  lemma {:induction false} InDramWithout(sa: seq<Region>, k: nat)
    requires k < |sa|
    ensures InDram(sa) == InDram(sa[..k] + sa[k + 1..]) + if sa[k].inDram then 1 else 0
    decreases |sa|
  {
    var n := |sa| - 1;
    var rest := sa[..k] + sa[k + 1..];
    if k == n {
      assert rest == sa[..n];
    } else {
      InDramWithout(sa[..n], k);
      assert rest[..|rest| - 1] == sa[..n][..k] + sa[..n][k + 1..];
      assert rest[|rest| - 1] == sa[n];
    }
  }

  lemma WithoutOne(s: seq<Region>, k: nat)
    requires k < |s|
    ensures multiset(s[..k] + s[k + 1..]) == multiset(s) - multiset{s[k]}
  {
    assert s == s[..k] + [s[k]] + s[k + 1..];
  }

  lemma {:induction false} InDramPermuted(a: seq<Region>, b: seq<Region>)
    requires multiset(a) == multiset(b)
    ensures InDram(a) == InDram(b) && |a| == |b|
    decreases |a|
  {
    assert |multiset(a)| == |multiset(b)|;
    if a != [] {
      var n := |a| - 1;
      assert a[n] in multiset(b);
      var k :| 0 <= k < |b| && b[k] == a[n];
      var rest := b[..k] + b[k + 1..];
      WithoutOne(a, n);
      WithoutOne(b, k);
      assert a[..n] + a[n + 1..] == a[..n];
      InDramPermuted(a[..n], rest);
      InDramWithout(b, k);
    }
  }

  lemma {:induction false} InDramCached(sa: seq<Region>, hi: nat)
    requires hi <= |sa|
    ensures |Cached(sa, 0, hi)| == InDram(sa[..hi])
    decreases hi
  {
    if hi > 0 {
      InDramCached(sa, hi - 1);
      assert sa[..hi][..hi - 1] == sa[..hi - 1];
    }
  }

  /** The cut is as far from the end as there are accessed regions in DRAM */
  lemma CutIs(infos: seq<AddrInfo>, sa: seq<Region>, threshold: int)
    requires multiset(sa) == multiset(Selected(infos, threshold))
    ensures Cut(sa) == |sa| - AccessedInDram(infos)
  {
    InDramSelected(infos, threshold);
    InDramPermuted(sa, Selected(infos, threshold));
    InDramCached(sa, |sa|);
    assert sa[..|sa|] == sa;
  }

  ghost predicate Dropped(sa: seq<Region>, r: Region) {
    exists p :: p in Cold(sa) && p < |sa| && sa[p] == r
  }

  /** For distinct regions: an accessed region in DRAM is asked to be dropped exactly
      when, from its place in the sorted entries on, there are more entries than
      accessed regions in DRAM. p is that place. */
  lemma PollDropsIff(infos: seq<AddrInfo>, sa: seq<Region>, threshold: int, i: nat) returns (p: nat)
    requires multiset(sa) == multiset(Selected(infos, threshold))
    requires forall x, y :: 0 <= x < y < |sa| ==> sa[x].addr != sa[y].addr
    requires i < |infos| && infos[i].inDram && infos[i].readCnt + infos[i].writeCnt != 0
    ensures p < |sa|
    ensures sa[p] == Region(infos[i].addr, infos[i].length, infos[i].readCnt + infos[i].writeCnt, true)
    ensures Dropped(sa, sa[p]) <==> |sa| - p > AccessedInDram(infos)
  {
    p := EntryOf(infos, sa, threshold, i);
    CutIs(infos, sa, threshold);
    CachedAre(sa, 0, Cut(sa));
    hide Cut, Cached, Selected;
  }

  /** and nothing else is: each region to be dropped was accessed and is in DRAM */
  lemma PollDropsOnly(infos: seq<AddrInfo>, sa: seq<Region>, threshold: int, p: nat) returns (i: nat)
    requires multiset(sa) == multiset(Selected(infos, threshold)) && p in Cold(sa)
    ensures i < |infos| && infos[i].inDram && infos[i].readCnt + infos[i].writeCnt != 0
    ensures p < |sa|
    ensures sa[p] == Region(infos[i].addr, infos[i].length, infos[i].readCnt + infos[i].writeCnt, true)
  {
    CachedAre(sa, 0, Cut(sa));
    hide Cut, Cached, Selected;
    i := RecordOf(infos, sa, threshold, p);
  }

  lemma RequestedIsHot(sa: seq<Region>, threshold: int, p: nat)
    requires p < |sa| && forall x, y :: 0 <= x < y < |sa| ==> sa[x].addr != sa[y].addr
    ensures Requested(sa, threshold, sa[p]) <==> p in Hot(sa, threshold)
  {
    hide Hot;
  }

  lemma HotUnlessMissed(sa: seq<Region>, threshold: int, p: nat)
    requires Sorted(sa) && p < |sa| && !sa[p].inDram && sa[p].rwcnt >= threshold
    ensures p in Hot(sa, threshold) <==> !(p + 1 == Cut(sa) && (p + 1 == |sa| || !sa[p + 1].inDram))
  {
    HotAre(sa, threshold);
    hide Cut, Hot;
    assert Reaches(sa, threshold) <= p;
  }

  /** The same for fetching: an accessed region outside DRAM that meets the threshold
      is asked for, unless it is the last entry below the cut and the one after it
      is uncached too, or there is none; p is its place */
  lemma PollAsksIff(infos: seq<AddrInfo>, sa: seq<Region>, threshold: int, i: nat) returns (p: nat)
    requires Sorted(sa) && multiset(sa) == multiset(Selected(infos, threshold))
    requires forall x, y :: 0 <= x < y < |sa| ==> sa[x].addr != sa[y].addr
    requires i < |infos| && !infos[i].inDram
    requires infos[i].readCnt + infos[i].writeCnt != 0 && infos[i].readCnt + infos[i].writeCnt >= threshold
    ensures p < |sa|
    ensures sa[p] == Region(infos[i].addr, infos[i].length, infos[i].readCnt + infos[i].writeCnt, false)
    ensures Requested(sa, threshold, sa[p]) <==>
              !(|sa| - p == AccessedInDram(infos) + 1 && (p + 1 == |sa| || !sa[p + 1].inDram))
  {
    p := EntryOf(infos, sa, threshold, i);
    CutIs(infos, sa, threshold);
    RequestedIsHot(sa, threshold, p);
    HotUnlessMissed(sa, threshold, p);
    hide Cut, Selected, Hot, Sorted, Requested;
  }

  /** Every region asked for meets the threshold */
  lemma RequestsMeetThreshold(infos: seq<AddrInfo>, sa: seq<Region>, threshold: int)
    requires multiset(sa) == multiset(Selected(infos, threshold))
    ensures forall p :: p in Hot(sa, threshold) ==> p < |sa| && sa[p].rwcnt >= threshold
  {
    HotAre(sa, threshold);
    forall p | p in Hot(sa, threshold) ensures sa[p].rwcnt >= threshold {
      var i := RecordOf(infos, sa, threshold, p);
    }
  }

  /** The region of some entry asked for */
  ghost predicate Requested(sa: seq<Region>, threshold: int, r: Region) {
    exists p :: p in Hot(sa, threshold) && p < |sa| && sa[p] == r
  }

  ghost predicate Wanted(a: AddrInfo, threshold: int) {
    !a.inDram && Count(a) != 0 && Count(a) >= threshold
  }

  /** For distinct regions: a poll asks for every accessed region outside DRAM that
      meets the threshold, unless the last entry below the cut is uncached and has no
      cached one next to it */
  lemma PollAsksForAllIff(infos: seq<AddrInfo>, sa: seq<Region>, threshold: int)
    requires Sorted(sa) && multiset(sa) == multiset(Selected(infos, threshold))
    requires forall x, y :: 0 <= x < y < |sa| ==> sa[x].addr != sa[y].addr
    ensures (forall i :: 0 <= i < |infos| && Wanted(infos[i], threshold) ==>
               Requested(sa, threshold, AsRegion(infos[i])))
       <==> var b := |sa| - AccessedInDram(infos);
            0 <= b <= |sa| && !(b > 0 && !sa[b - 1].inDram && (b == |sa| || !sa[b].inDram))
  {
    CutIs(infos, sa, threshold);
    CutCounts(sa);
    hide Hot, Selected, Sorted;
    AllRequestedIff(sa, threshold);
    HotAre(sa, threshold);
    if Missed(sa) {
      var q := Cut(sa) - 1;
      var i := RecordOf(infos, sa, threshold, q);
      assert !Requested(sa, threshold, AsRegion(infos[i]));
    } else {
      hide Missed, Cut;
      forall i | 0 <= i < |infos| && Wanted(infos[i], threshold) ensures Requested(sa, threshold, AsRegion(infos[i])) {
        var p := EntryOf(infos, sa, threshold, i);
        assert p in Hot(sa, threshold);
      }
    }
  }

  // ----- where the loops stop -----

  /** The list names the regions at the positions, in that order */
  ghost predicate Lists(list: seq<NvmInfo>, sa: seq<Region>, ps: seq<nat>) {
    |list| == |ps| && Below(ps, |sa|)
    && forall x :: 0 <= x < |ps| ==> list[x] == NvmInfo(sa[ps[x]].addr, sa[ps[x]].length)
  }

  /** Listed, and of that length together */
  ghost predicate Asked(list: seq<NvmInfo>, size: nat, sa: seq<Region>, ps: seq<nat>) {
    Lists(list, sa, ps) && size == Lengths(sa, ps)
  }

  /** What is known of the two indices whenever the exchange loop can end */
  ghost predicate Met(sa: seq<Region>, start: nat, end: int) {
    && 0 <= start <= end + 1 <= |sa|
    && |Cached(sa, 0, start)| == |Uncached(sa, end + 1, |sa|)|
    && (start == end ==> sa[start].inDram || end == |sa| - 1 || !sa[end + 1].inDram)
    && (start > end ==> start == 0 || sa[start - 1].inDram)
  }

  lemma MetAtFirst(sa: seq<Region>)
    ensures Met(sa, 0, |sa| - 1) && Cached(sa, 0, 0) == [] && Uncached(sa, |sa|, |sa|) == []
  {
  }

  /** Passing over entries keeps what is known */
  lemma MetSkipping(sa: seq<Region>, s: nat, e: nat, s': nat, e': nat)
    requires Met(sa, s, e) && s <= s' <= e' <= e < |sa|
    requires e == |sa| - 1 || !sa[e + 1].inDram
    requires s' < e ==> sa[s'].inDram
    requires Cached(sa, 0, s') == Cached(sa, 0, s) && Uncached(sa, e' + 1, |sa|) == Uncached(sa, e + 1, |sa|)
    ensures Met(sa, s', e')
  {
  }

  /** So does an exchange */
  lemma MetTrading(sa: seq<Region>, s: nat, e: nat)
    requires Met(sa, s, e) && s < e < |sa| && sa[s].inDram && !sa[e].inDram
    ensures |Cached(sa, 0, s)| == |Uncached(sa, e + 1, |sa|)| < |sa|
    ensures Cached(sa, 0, s + 1) == Cached(sa, 0, s) + [s]
    ensures Uncached(sa, e, |sa|) == Uncached(sa, e + 1, |sa|) + [e]
    ensures Met(sa, s + 1, e - 1)
  {
    CountsAddUp(sa, 0, s);
  }

  lemma ExchangeStops(sa: seq<Region>, start: nat, end: int)
    requires Met(sa, start, end) && start >= end
    ensures start == if Missed(sa) then Cut(sa) - 1 else Cut(sa)
    ensures Cached(sa, 0, start) == Cold(sa) && Uncached(sa, end + 1, |sa|) == Swapped(sa)
  {
    var n := |sa|;
    CachedSplits(sa, 0, start, n);
    BothKinds(sa, start, n);
    assert start == end ==> |Uncached(sa, start, n)| == |Uncached(sa, end + 1, n)| + if sa[start].inDram then 0 else 1;
  }

  lemma ReachesIs(sa: seq<Region>, threshold: int, x: nat)
    requires Sorted(sa) && x <= |sa| && (x > 0 ==> sa[x - 1].rwcnt < threshold)
    ensures x <= Reaches(sa, threshold)
    ensures x < |sa| && sa[x].rwcnt >= threshold ==> Reaches(sa, threshold) == x
  {
  }

  lemma AllFetched(sa: seq<Region>, threshold: int, x: nat, from: nat)
    requires Sorted(sa) && from == (if Missed(sa) then Cut(sa) - 1 else Cut(sa)) && x <= from
    requires x > 0 ==> sa[x - 1].rwcnt < threshold
    requires x < from ==> sa[x].rwcnt >= threshold
    ensures Hot(sa, threshold) == Swapped(sa) + Uncached(sa, x, from)
  {
    ReachesIs(sa, threshold, x);
  }

  lemma OneMore(sa: seq<Region>, ps: seq<nat>, p: nat)
    requires Below(ps, |sa|) && p < |sa|
    ensures Below(ps + [p], |sa|) && Lengths(sa, ps + [p]) == Lengths(sa, ps) + sa[p].length
  {
    assert (ps + [p])[..|ps|] == ps;
  }

  lemma FromInside(sa: seq<Region>)
    ensures var from := if Missed(sa) then Cut(sa) - 1 else Cut(sa);
            from <= Cut(sa) && from <= |sa| && Swapped(sa) + Uncached(sa, from, from) == Swapped(sa)
  {
  }

  lemma NextHot(sa: seq<Region>, lo: nat, from: nat)
    requires lo < from <= Cut(sa)
    ensures |Swapped(sa) + Uncached(sa, lo + 1, from)| < |sa|
    ensures var ps := Swapped(sa) + Uncached(sa, lo + 1, from);
            Swapped(sa) + Uncached(sa, lo, from) == if sa[lo].inDram then ps else ps + [lo]
  {
    BothKinds(sa, Cut(sa), |sa|);
    BothKinds(sa, lo + 1, from);
  }

  lemma NothingListed(sa: seq<Region>)
    ensures Lists([], sa, []) && Asked([], 0, sa, [])
  {
  }

  // ----- the poll -----

  class NodePoll {
    const infos: array<AddrInfo>
    const entries: array<Region>
    const hot: array<NvmInfo>
    const cold: array<NvmInfo>
    var hotCnt: nat
    var coldCnt: nat
    var reqDramSize: nat
    var threshold: int

    /** The arrays are large enough for every region */
    ghost predicate Valid()
      reads this
    {
      && infos.Length <= entries.Length
      && entries.Length <= hot.Length && entries.Length <= cold.Length
      && hot != cold
      && hotCnt <= hot.Length && coldCnt <= cold.Length
    }

    constructor (infos: array<AddrInfo>, capacity: nat, threshold: int)
      requires infos.Length <= capacity
      ensures Valid() && this.infos == infos && entries.Length == capacity && this.threshold == threshold
      ensures fresh(entries) && fresh(hot) && fresh(cold)
    {
      this.infos, this.threshold := infos, threshold;
      entries := new Region[capacity](_ => Region(0, 0, 0, false));
      hot := new NvmInfo[capacity](_ => NvmInfo(0, 0));
      cold := new NvmInfo[capacity](_ => NvmInfo(0, 0));
      hotCnt, coldCnt, reqDramSize := 0, 0, 0;
    }

    /** The walk over the address table that feeds the sort: it collects the
        competing regions and starts their counts again */
    method Collect() returns (length: nat)
      requires Valid()
      modifies infos, entries
      ensures length <= entries.Length && entries[..length] == Selected(old(infos[..]), threshold)
      ensures forall i :: length <= i < entries.Length ==> entries[i] == old(entries[i])
      ensures forall i :: 0 <= i < infos.Length ==>
                infos[i] == old(infos[i]).(readCnt := 0, writeCnt := 0)
    {
      ghost var was := infos[..];
      length := 0;
      var i := 0;
      while i < infos.Length
        invariant length <= i <= infos.Length && entries[..length] == Selected(was[..i], threshold)
        invariant forall x :: 0 <= x < i ==> infos[x] == was[x].(readCnt := 0, writeCnt := 0)
        invariant forall x :: i <= x < infos.Length ==> infos[x] == was[x]
        invariant forall x :: length <= x < entries.Length ==> entries[x] == old(entries[x])
      {
        var a := infos[i];
        assert was[..i + 1][..i] == was[..i];
        if Competes(a, threshold) {
          entries[length] := AsRegion(a);
          length := length + 1;
        }
        infos[i] := a.(readCnt := 0, writeCnt := 0);
        i := i + 1;
      }
      assert was[..i] == was;
    }

    /** Passes over entries that are where they belong, from below */
    method SkipUncached(length: nat, from: nat, end: nat) returns (start: nat)
      requires length <= entries.Length && from <= end < length
      ensures from <= start <= end && (start < end ==> entries[start].inDram)
      ensures Cached(entries[..length], 0, start) == Cached(entries[..length], 0, from)
    {
      start := from;
      while start < end && !entries[start].inDram
        invariant from <= start <= end
        invariant Cached(entries[..length], 0, start) == Cached(entries[..length], 0, from)
      {
        start := start + 1;
      }
    }

    /** The same from above */
    method SkipCached(length: nat, start: nat, from: nat) returns (end: nat)
      requires length <= entries.Length && start <= from < length
      ensures start <= end <= from && (start < end ==> !entries[end].inDram)
      ensures Uncached(entries[..length], end + 1, length) == Uncached(entries[..length], from + 1, length)
    {
      end := from;
      while end > start && entries[end].inDram
        invariant start <= end <= from
        invariant Uncached(entries[..length], end + 1, length) == Uncached(entries[..length], from + 1, length)
      {
        end := end - 1;
      }
    }

    /** Asks for one more region to be dropped */
    method Drop(p: nat, ghost sa: seq<Region>, ghost ps: seq<nat>)
      requires Valid() && p < |sa| <= entries.Length && sa == entries[..|sa|]
      requires |ps| < |sa| && Lists(cold[..coldCnt], sa, ps)
      modifies this`coldCnt, cold
      ensures Valid() && Lists(cold[..coldCnt], sa, ps + [p])
    {
      cold[coldCnt] := NvmInfo(entries[p].addr, entries[p].length);
      coldCnt := coldCnt + 1;
    }

    /** Asks for one more region to be fetched */
    method Fetch(p: nat, ghost sa: seq<Region>, ghost ps: seq<nat>)
      requires Valid() && p < |sa| <= entries.Length && sa == entries[..|sa|]
      requires |ps| < |sa| && Asked(hot[..hotCnt], reqDramSize, sa, ps)
      modifies this`hotCnt, this`reqDramSize, hot
      ensures Valid() && Asked(hot[..hotCnt], reqDramSize, sa, ps + [p])
    {
      OneMore(sa, ps, p);
      hot[hotCnt] := NvmInfo(entries[p].addr, entries[p].length);
      reqDramSize := reqDramSize + hot[hotCnt].length;
      hotCnt := hotCnt + 1;
    }

    /** The exchange loop of dhmp_handle_cache_model: a cached entry from below and
        an uncached one from above change places until the indices meet */
    method Exchange(length: nat) returns (start: nat)
      requires Valid() && length <= entries.Length
      modifies this`hotCnt, this`coldCnt, this`reqDramSize, hot, cold
      ensures Valid()
      ensures Lists(cold[..coldCnt], entries[..length], Cold(entries[..length]))
      ensures Asked(hot[..hotCnt], reqDramSize, entries[..length], Swapped(entries[..length]))
      ensures start == if Missed(entries[..length]) then Cut(entries[..length]) - 1 else Cut(entries[..length])
    {
      hide Lists, Asked, Met, Cached, Uncached, Missed, Cut, Cold, Swapped;
      ghost var sa := entries[..length];
      start := 0;
      var end: int := length - 1;
      coldCnt, hotCnt, reqDramSize := 0, 0, 0;
      NothingListed(sa);
      MetAtFirst(sa);
      while start < end
        invariant Valid() && start <= end + 1 <= length && Met(sa, start, end)
        invariant start < end ==> end == length - 1 || !sa[end + 1].inDram
        invariant Lists(cold[..coldCnt], sa, Cached(sa, 0, start))
        invariant Asked(hot[..hotCnt], reqDramSize, sa, Uncached(sa, end + 1, length))
        decreases end - start
      {
        ghost var s, e := start, end;
        start := SkipUncached(length, start, end);
        end := SkipCached(length, start, end);
        MetSkipping(sa, s, e, start, end);
        if start < end {
          MetTrading(sa, start, end);
          Drop(start, sa, Cached(sa, 0, start));
          Fetch(end, sa, Uncached(sa, end + 1, length));
          start, end := start + 1, end - 1;
        }
      }
      ExchangeStops(sa, start, end);
    }

    /** dhmp_handle_cache_model: the requests of both loops, written down in the
        order they are found, and their total length */
    method HandleCacheModel(length: nat)
      requires Valid() && length <= entries.Length && Sorted(entries[..length])
      modifies this`hotCnt, this`coldCnt, this`reqDramSize, hot, cold
      ensures Valid()
      ensures Lists(cold[..coldCnt], entries[..length], Cold(entries[..length]))
      ensures Asked(hot[..hotCnt], reqDramSize, entries[..length], Hot(entries[..length], threshold))
    {
      hide Sorted, Missed, Cut, Cached, Uncached, Lists, Asked, Cold, Swapped, Hot;
      ghost var sa := entries[..length];
      var from := Exchange(length);
      var start := from as int - 1;
      FromInside(sa);
      while start >= 0 && entries[start].rwcnt >= threshold
        invariant Valid() && -1 <= start < from
        invariant Lists(cold[..coldCnt], sa, Cold(sa))
        invariant Asked(hot[..hotCnt], reqDramSize, sa, Swapped(sa) + Uncached(sa, start + 1, from))
        invariant start + 1 < from ==> sa[start + 1].rwcnt >= threshold
      {
        NextHot(sa, start, from);
        if !entries[start].inDram {
          Fetch(start, sa, Swapped(sa) + Uncached(sa, start + 1, from));
        }
        start := start - 1;
      }
      AllFetched(sa, threshold, start + 1, from);
    }
  }
}
