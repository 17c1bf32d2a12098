/** The write-back cache between the file layer and the remote banks: one line
    per bank id modulo the number of lines. Module RemoteStore ties what remote
    calls do here to the servers behind them. */
module BankCache {
  import opened Basics
  import opened FileIndex

  type Bytes = seq<bv8>

  /** A cache line; tag is the bank id in the hash table, bank the one in the line
      itself */
  datatype Line = Line(tag: nat, bank: nat, data: Bytes, dirty: bool)

  /** What a remote read leaves in the buffer: the content last stored, or, of a
      bank never stored, what the fresh memory holds; some other content; nothing,
      when nobody answers, and the buffer is as it was */
  datatype Load = Latest(blank: Bytes) | Stale(bytes: Bytes) | Nothing

  /** How the remote calls come out where the cache makes them: did any server
      store the line written back, and what did the read load */
  datatype Outcome = Outcome(stored: bool, load: Load)

  /** A bank written back, and a bank loaded: what an eviction or a rewrite asks of
      the servers */
  datatype Traffic = Traffic(back: Option<Back>, load: Option<nat>)

  datatype Back = Back(bank: nat, data: Bytes)

  /** remote has the content of the banks stored so far. net holds the outcomes of
      the remote calls to come; past its end they come out well. log is a history
      variable: what this call has asked of the servers. */
  datatype Store = Store(lines: seq<Line>, remote: map<nat, Bytes>, net: seq<Outcome>, log: seq<Traffic>)

  /** The types 1 and 2 of try_visit_cache */
  datatype Visit = Read | Write

  ghost predicate StoreOk(g: Geometry, s: Store) {
    && g.Ok()
    && |s.lines| == g.lines
    && (forall b :: b in s.remote ==> b < g.banks && |s.remote[b]| == g.Bank())
    && (forall k :: 0 <= k < g.lines ==> LineOk(g, s.lines[k], k))
    && NetOk(g, s.net)
  }

  ghost predicate NetOk(g: Geometry, net: seq<Outcome>) {
    forall j :: 0 <= j < |net| ==> LoadOk(g, net[j].load)
  }

  ghost predicate LoadOk(g: Geometry, l: Load) {
    match l
    case Latest(blank) => |blank| == g.Bank()
    case Stale(bytes) => |bytes| == g.Bank()
    case Nothing => true
  }

  ghost predicate LineOk(g: Geometry, l: Line, k: nat)
    requires g.Ok()
  {
    l.tag == l.bank && l.bank < g.banks && Mod(l.bank, g.lines) == k && |l.data| == g.Bank()
  }

  /** As dhmp_init leaves it: line k holds bank k as zeros, clean, and nothing is
      stored yet */
  function InitialStore(g: Geometry): Store {
    var zeros: Bytes := seq(g.Bank(), _ => 0);
    Store(seq(g.lines, k requires 0 <= k < g.lines => Line(k, k, zeros, false)), map[], [], [])
  }

  lemma InitialStoreOk(g: Geometry)
    requires g.Ok()
    ensures StoreOk(g, InitialStore(g)) && Healthy(InitialStore(g))
  {
    forall k | 0 <= k < g.lines ensures LineOk(g, InitialStore(g).lines[k], k) {
      DivideUnique(k, 0, k, g.lines);
    }
  }

  // ----- remote calls -----

  /** A call that stores what it writes and loads what was stored */
  predicate Well(o: Outcome) {
    o.stored && o.load.Latest?
  }

  predicate AllWell(net: seq<Outcome>) {
    forall j :: 0 <= j < |net| ==> Well(net[j])
  }

  /** Every remote call to come comes out well */
  predicate Healthy(s: Store) {
    AllWell(s.net)
  }

  /** The store at the start of a call with these outcomes */
  function Facing(s: Store, net: seq<Outcome>): Store {
    s.(net := net, log := [])
  }

  function NextOutcome(g: Geometry, net: seq<Outcome>): Outcome {
    if net == [] then Outcome(true, Latest(seq(g.Bank(), _ => 0))) else net[0]
  }

  function RestOf(net: seq<Outcome>): seq<Outcome> {
    if net == [] then [] else net[1..]
  }

  /** What a read of bank b leaves in a buffer that held buf */
  function Loaded(remote: map<nat, Bytes>, b: nat, buf: Bytes, l: Load): Bytes {
    match l
    case Latest(blank) => if b in remote then remote[b] else blank
    case Stale(bytes) => bytes
    case Nothing => buf
  }

  /** The banks stored after a write of data to bank b */
  function Stored(remote: map<nat, Bytes>, b: nat, data: Bytes, stored: bool): map<nat, Bytes> {
    if stored then remote[b := data] else remote
  }

  // ----- operations -----

  predicate Fits(g: Geometry, s: Store, b: nat, n: nat, off: nat) {
    && g.Ok() && |s.lines| == g.lines
    && off + n <= |s.lines[Mod(b, g.lines)].data|
  }

  predicate Hit(g: Geometry, s: Store, b: nat)
    requires g.Ok() && |s.lines| == g.lines
  {
    s.lines[Mod(b, g.lines)].tag == b
  }

  function Patch(data: Bytes, off: nat, bytes: Bytes): (r: Bytes)
    requires off + |bytes| <= |data|
    ensures |r| == |data|
    ensures forall x :: 0 <= x < |r| ==> r[x] == if off <= x < off + |bytes| then bytes[x - off] else data[x]
  {
    data[..off] + bytes + data[off + |bytes|..]
  }

  /** try_visit_cache on the line of bank b: read fills the buffer, write stores it */
  function VisitLine(g: Geometry, s: Store, b: nat, buf: Bytes, off: nat, t: Visit): (Store, Bytes)
    requires Fits(g, s, b, |buf|, off)
  {
    var k := Mod(b, g.lines);
    var l := s.lines[k];
    match t
    case Read => (s, l.data[off..off + |buf|])
    case Write => (s.(lines := s.lines[k := l.(data := Patch(l.data, off, buf), dirty := true)]), buf)
  }

  function WrittenBack(l: Line): Option<Back> {
    if l.dirty then Some(Back(l.bank, l.data)) else None
  }

  /** expel_cache_rewrite: write the old bank back if dirty, retag the line, load
      the new bank, and call the line clean, whatever became of the two calls */
  function Expel(g: Geometry, s: Store, b: nat): Store
    requires g.Ok() && |s.lines| == g.lines
  {
    var k := Mod(b, g.lines);
    var l := s.lines[k];
    if l.bank == b then s
    else
      var o := NextOutcome(g, s.net);
      var remote := if l.dirty then Stored(s.remote, l.bank, l.data, o.stored) else s.remote;
      var retagged := s.lines[Mod(l.bank, g.lines) := s.lines[Mod(l.bank, g.lines)].(tag := b)];
      Store(retagged[k := Line(retagged[k].tag, b, Loaded(remote, b, l.data, o.load), false)],
            remote, RestOf(s.net), s.log + [Traffic(WrittenBack(l), Some(b))])
  }

  /** dhmp_fs_read_from_cache and dhmp_fs_write_to_cache: visit, and after a miss
      load the bank and visit again, with the type given for that second visit */
  function Access(g: Geometry, s: Store, b: nat, buf: Bytes, off: nat, first: Visit, again: Visit): (Store, Bytes)
    requires StoreOk(g, s) && b < g.banks && off + |buf| <= g.Bank()
  {
    if Hit(g, s, b) then VisitLine(g, s, b, buf, off, first)
    else
      ExpelLoads(g, s, b);
      VisitLine(g, Expel(g, s, b), b, buf, off, again)
  }

  /** One step of the pass of rewrite_dirty_cache: a dirty line is written and
      called clean, whether or not anybody stored it */
  function FlushLine(g: Geometry, s: Store, k: nat): Store
    requires k < |s.lines|
  {
    if s.lines[k].dirty then
      Store(s.lines[k := s.lines[k].(dirty := false)],
            Stored(s.remote, s.lines[k].bank, s.lines[k].data, NextOutcome(g, s.net).stored), RestOf(s.net),
            s.log + [Traffic(WrittenBack(s.lines[k]), None)])
    else s
  }

  // ----- what the cache keeps -----

  lemma NextOk(g: Geometry, net: seq<Outcome>)
    requires NetOk(g, net)
    ensures LoadOk(g, NextOutcome(g, net).load) && NetOk(g, RestOf(net))
    ensures AllWell(net) ==> Well(NextOutcome(g, net)) && AllWell(RestOf(net))
  {
  }

  /** Expelling keeps the shape of the store and makes the bank resident */
  lemma ExpelLoads(g: Geometry, s: Store, b: nat)
    requires StoreOk(g, s) && b < g.banks
    ensures StoreOk(g, Expel(g, s, b)) && Hit(g, Expel(g, s, b), b)
    ensures Healthy(s) ==> Healthy(Expel(g, s, b))
  {
    NextOk(g, s.net);
    hide NextOutcome, RestOf, NetOk;
  }

  /** What a miss on bank b loads now */
  function LoadNow(g: Geometry, s: Store, b: nat): Bytes
    requires g.Ok() && |s.lines| == g.lines
  {
    Loaded(s.remote, b, s.lines[Mod(b, g.lines)].data, NextOutcome(g, s.net).load)
  }

  lemma MissLoads(g: Geometry, s: Store, b: nat)
    requires StoreOk(g, s) && b < g.banks && !Hit(g, s, b)
    ensures |LoadNow(g, s, b)| == g.Bank()
    ensures |Expel(g, s, b).lines| == g.lines
    ensures Expel(g, s, b).lines[Mod(b, g.lines)] == Line(b, b, LoadNow(g, s, b), false)
    ensures (b in Expel(g, s, b).remote) == (b in s.remote)
    ensures b in s.remote ==> Expel(g, s, b).remote[b] == s.remote[b]
  {
    NextOk(g, s.net);
    hide NextOutcome, RestOf, NetOk;
  }

  /** Byte x of bank b is v for every reader, now and after any eviction whose
      remote calls come out well */
  ghost predicate Has(g: Geometry, s: Store, b: nat, x: nat, v: bv8) {
    && StoreOk(g, s) && b < g.banks && x < g.Bank()
    && (Hit(g, s, b) ==> s.lines[Mod(b, g.lines)].data[x] == v)
    && ((Hit(g, s, b) && s.lines[Mod(b, g.lines)].dirty) || (b in s.remote && s.remote[b][x] == v))
  }

  /** Loading bank b now loses nothing: a dirty line in its place gets stored, and
      what is loaded is what was stored */
  predicate SafeToLoad(g: Geometry, s: Store, b: nat)
    requires g.Ok() && |s.lines| == g.lines
  {
    var o := NextOutcome(g, s.net);
    Hit(g, s, b) || ((s.lines[Mod(b, g.lines)].dirty ==> o.stored) && (b in s.remote ==> o.load.Latest?))
  }

  lemma HealthyIsSafe(g: Geometry, s: Store, b: nat)
    requires StoreOk(g, s) && Healthy(s)
    ensures SafeToLoad(g, s, b)
  {
  }

  lemma ExpelKeeps(g: Geometry, s: Store, b: nat, c: nat, x: nat, v: bv8)
    requires Has(g, s, c, x, v) && b < g.banks && SafeToLoad(g, s, b)
    ensures Has(g, Expel(g, s, b), c, x, v)
  {
    ExpelLoads(g, s, b);
    hide NextOutcome, RestOf, NetOk;
  }

  lemma FlushKeeps(g: Geometry, s: Store, k: nat)
    requires StoreOk(g, s) && k < g.lines
    ensures StoreOk(g, FlushLine(g, s, k)) && (Healthy(s) ==> Healthy(FlushLine(g, s, k)))
    ensures (s.lines[k].dirty ==> NextOutcome(g, s.net).stored) ==>
              forall c: nat, x: nat, v: bv8 :: Has(g, s, c, x, v) ==> Has(g, FlushLine(g, s, k), c, x, v)
    ensures forall c: nat :: c < g.banks ==> Hit(g, FlushLine(g, s, k), c) == Hit(g, s, c)
  {
    NextOk(g, s.net);
    hide NextOutcome, RestOf, NetOk;
  }

  /** s' has every byte of s outside n bytes of bank b from off on */
  ghost predicate KeepsOthers(g: Geometry, s: Store, s': Store, b: nat, off: nat, n: nat) {
    forall c: nat, x: nat, v: bv8 ::
      Has(g, s, c, x, v) && !(c == b && off <= x < off + n) ==> Has(g, s', c, x, v)
  }

  ghost predicate HasAll(g: Geometry, s: Store, b: nat, off: nat, buf: Bytes) {
    forall k: nat, x: nat :: k < |buf| && x == off + k ==> Has(g, s, b, x, buf[k])
  }

  lemma ExpelKeepsAll(g: Geometry, s: Store, b: nat)
    requires StoreOk(g, s) && b < g.banks && SafeToLoad(g, s, b)
    ensures KeepsOthers(g, s, Expel(g, s, b), b, 0, 0)
  {
    forall c: nat, x: nat, v: bv8 | Has(g, s, c, x, v) ensures Has(g, Expel(g, s, b), c, x, v) {
      ExpelKeeps(g, s, b, c, x, v);
    }
  }

  /** A read returns what every byte has, hit or miss, and changes no byte, if the
      bank is resident or can be loaded safely */
  lemma ReadExact(g: Geometry, s: Store, b: nat, buf: Bytes, off: nat)
    requires StoreOk(g, s) && b < g.banks && off + |buf| <= g.Bank()
    ensures var (s', r) := Access(g, s, b, buf, off, Read, Read);
            && StoreOk(g, s') && |r| == |buf| && (Healthy(s) ==> Healthy(s'))
            && (SafeToLoad(g, s, b) ==>
                  && (forall bytes: Bytes :: |bytes| == |buf| && HasAll(g, s, b, off, bytes) ==> r == bytes)
                  && KeepsOthers(g, s, s', b, 0, 0))
  {
    ExpelLoads(g, s, b);
    var (s', r) := Access(g, s, b, buf, off, Read, Read);
    if SafeToLoad(g, s, b) {
      ExpelKeepsAll(g, s, b);
      forall bytes: Bytes | |bytes| == |buf| && HasAll(g, s, b, off, bytes) ensures r == bytes {
        forall k | 0 <= k < |r| ensures r[k] == bytes[k] {
          assert Has(g, s, b, off + k, bytes[k]);
          assert Has(g, s', b, off + k, bytes[k]);
        }
      }
    }
  }

  lemma WriteVisitOk(g: Geometry, s: Store, b: nat, buf: Bytes, off: nat)
    requires StoreOk(g, s) && Hit(g, s, b) && b < g.banks && off + |buf| <= g.Bank()
    ensures var s' := VisitLine(g, s, b, buf, off, Write).0;
            && StoreOk(g, s') && s'.net == s.net
            && (forall c: nat :: c < g.banks ==> Hit(g, s', c) == Hit(g, s, c))
  {
    var k := Mod(b, g.lines);
    var s' := VisitLine(g, s, b, buf, off, Write).0;
    assert forall i :: 0 <= i < g.lines && i != k ==> s'.lines[i] == s.lines[i];
  }

  lemma WriteVisitKeeps(g: Geometry, s: Store, b: nat, buf: Bytes, off: nat)
    requires StoreOk(g, s) && Hit(g, s, b) && b < g.banks && off + |buf| <= g.Bank()
    ensures var s' := VisitLine(g, s, b, buf, off, Write).0;
            HasAll(g, s', b, off, buf) && KeepsOthers(g, s, s', b, off, |buf|)
  {
    WriteVisitOk(g, s, b, buf, off);
    var s' := VisitLine(g, s, b, buf, off, Write).0;
    forall k: nat, x: nat | k < |buf| && x == off + k ensures Has(g, s', b, x, buf[k]) {
      assert s'.lines[Mod(b, g.lines)].data[x] == buf[x - off];
    }
    forall c: nat, x: nat, v: bv8 | Has(g, s, c, x, v) && !(c == b && off <= x < off + |buf|)
      ensures Has(g, s', c, x, v)
    {
      assert Mod(c, g.lines) != Mod(b, g.lines) ==> s'.lines[Mod(c, g.lines)] == s.lines[Mod(c, g.lines)];
    }
  }

  /** A write stores its own bytes if the bank is resident or if the second visit
      is a write; it changes no other byte if the bank is resident or can be
      loaded safely */
  lemma WriteExact(g: Geometry, s: Store, b: nat, buf: Bytes, off: nat, again: Visit)
    requires StoreOk(g, s) && b < g.banks && off + |buf| <= g.Bank()
    ensures var s' := Access(g, s, b, buf, off, Write, again).0;
            && StoreOk(g, s') && (Healthy(s) ==> Healthy(s'))
            && (Hit(g, s, b) || again == Write ==> HasAll(g, s', b, off, buf))
            && (SafeToLoad(g, s, b) ==> KeepsOthers(g, s, s', b, off, |buf|))
            && (Hit(g, s, b) ==> s'.net == s.net && forall c: nat :: c < g.banks ==> Hit(g, s', c) == Hit(g, s, c))
  {
    if Hit(g, s, b) {
      WriteVisitOk(g, s, b, buf, off);
      WriteVisitKeeps(g, s, b, buf, off);
    } else {
      ExpelLoads(g, s, b);
      if SafeToLoad(g, s, b) {
        ExpelKeepsAll(g, s, b);
      }
      if again == Write {
        WriteVisitOk(g, Expel(g, s, b), b, buf, off);
        WriteVisitKeeps(g, Expel(g, s, b), b, buf, off);
      }
    }
  }

  // ----- exactly when the remote calls matter -----

  /** The same store with other bytes in its lines and banks */
  ghost predicate SameShape(s: Store, t: Store) {
    && |t.lines| == |s.lines| && t.net == s.net && t.remote.Keys == s.remote.Keys
    && forall k :: 0 <= k < |s.lines| ==> t.lines[k] == s.lines[k].(data := t.lines[k].data)
  }

  ghost predicate Keeps(g: Geometry, s: Store, s': Store) {
    forall c: nat, x: nat, v: bv8 :: Has(g, s, c, x, v) ==> Has(g, s', c, x, v)
  }

  /** Some content of a length that differs from the given one in its first byte */
  function Unlike(bytes: Bytes): (r: Bytes)
    ensures |r| == |bytes| && (bytes != [] ==> r[0] != bytes[0])
  {
    if bytes == [] then [] else [bytes[0] ^ 1] + bytes[1..]
  }

  /** Loading a bank keeps every byte of every content exactly when it is safe */
  lemma ExpelKeepsIff(g: Geometry, s: Store, b: nat)
    requires StoreOk(g, s) && b < g.banks
    ensures (forall t :: StoreOk(g, t) && SameShape(s, t) ==> Keeps(g, t, Expel(g, t, b))) <==> SafeToLoad(g, s, b)
  {
    if SafeToLoad(g, s, b) {
      forall t | StoreOk(g, t) && SameShape(s, t) ensures Keeps(g, t, Expel(g, t, b)) {
        ExpelKeepsAll(g, t, b);
      }
    } else {
      var t := LosingContent(g, s, b);
      assert !Keeps(g, t, Expel(g, t, b));
    }
  }

  lemma LosingContent(g: Geometry, s: Store, b: nat) returns (t: Store)
    requires StoreOk(g, s) && b < g.banks && !SafeToLoad(g, s, b)
    ensures StoreOk(g, t) && SameShape(s, t) && !Keeps(g, t, Expel(g, t, b))
  {
    var k, o := Mod(b, g.lines), NextOutcome(g, s.net);
    var l := s.lines[k];
    NextOk(g, s.net);
    MulPositive(g.chunk, g.perBank);
    if l.dirty && !o.stored {
      var c := l.bank;
      t := if c in s.remote then s.(remote := s.remote[c := Unlike(l.data)]) else s;
      assert Has(g, t, c, 0, l.data[0]);
      assert !Has(g, Expel(g, t, b), c, 0, l.data[0]);
    } else {
      var now := match o.load case Stale(bytes) => bytes case _ => l.data;
      t := s.(remote := s.remote[b := Unlike(now)]);
      assert Has(g, t, b, 0, Unlike(now)[0]);
      assert !Has(g, Expel(g, t, b), b, 0, Unlike(now)[0]);
    }
    assert t.remote.Keys == s.remote.Keys;
  }

  /** The rewrite of a line keeps every byte of every content exactly when the
      line is clean or somebody stores it */
  lemma FlushKeepsIff(g: Geometry, s: Store, k: nat)
    requires StoreOk(g, s) && k < g.lines
    ensures (forall t :: StoreOk(g, t) && SameShape(s, t) ==> Keeps(g, t, FlushLine(g, t, k)))
       <==> (s.lines[k].dirty ==> NextOutcome(g, s.net).stored)
  {
    var l := s.lines[k];
    if l.dirty ==> NextOutcome(g, s.net).stored {
      forall t | StoreOk(g, t) && SameShape(s, t) ensures Keeps(g, t, FlushLine(g, t, k)) {
        FlushKeeps(g, t, k);
      }
    } else {
      MulPositive(g.chunk, g.perBank);
      var t := if l.bank in s.remote then s.(remote := s.remote[l.bank := Unlike(l.data)]) else s;
      assert t.remote.Keys == s.remote.Keys && LineOk(g, l, k);
      assert StoreOk(g, t) && SameShape(s, t);
      FlushKeeps(g, t, k);
      assert Has(g, t, l.bank, 0, l.data[0]);
      assert !Has(g, FlushLine(g, t, k), l.bank, 0, l.data[0]);
      assert !Keeps(g, t, FlushLine(g, t, k));
    }
  }

  ghost predicate ReadsRight(g: Geometry, s: Store, b: nat, n: nat, off: nat)
    requires StoreOk(g, s) && b < g.banks && off + n <= g.Bank()
  {
    forall bytes: Bytes :: |bytes| == n && HasAll(g, s, b, off, bytes) ==>
      Access(g, s, b, bytes, off, Read, Read).1 == bytes
  }

  lemma ReadRight(g: Geometry, s: Store, b: nat, n: nat, off: nat)
    requires StoreOk(g, s) && b < g.banks && off + n <= g.Bank() && b in s.remote
    requires Hit(g, s, b) || NextOutcome(g, s.net).load.Latest?
    ensures ReadsRight(g, s, b, n, off)
  {
    forall bytes: Bytes | |bytes| == n && HasAll(g, s, b, off, bytes)
      ensures Access(g, s, b, bytes, off, Read, Read).1 == bytes
    {
      ReadExact(g, s, b, bytes, off);
      var r := Access(g, s, b, bytes, off, Read, Read).1;
      forall k | 0 <= k < n ensures r[k] == bytes[k] {
        assert Has(g, s, b, off + k, bytes[k]);
      }
    }
  }

  /** A read of a stored bank is right for every content exactly when the bank is
      resident or the remote read loads what was stored */
  lemma ReadRightIff(g: Geometry, s: Store, b: nat, n: nat, off: nat)
    requires StoreOk(g, s) && b < g.banks && off + n <= g.Bank() && n > 0 && b in s.remote
    ensures (forall t :: StoreOk(g, t) && SameShape(s, t) ==> ReadsRight(g, t, b, n, off))
       <==> Hit(g, s, b) || NextOutcome(g, s.net).load.Latest?
  {
    hide ReadsRight;
    if Hit(g, s, b) || NextOutcome(g, s.net).load.Latest? {
      forall t | StoreOk(g, t) && SameShape(s, t) ensures ReadsRight(g, t, b, n, off) {
        ReadRight(g, t, b, n, off);
      }
    } else {
      var t := MisreadContent(g, s, b, n, off);
      assert !ReadsRight(g, t, b, n, off);
    }
  }

  lemma MisreadContent(g: Geometry, s: Store, b: nat, n: nat, off: nat) returns (t: Store)
    requires StoreOk(g, s) && b < g.banks && off + n <= g.Bank() && n > 0 && b in s.remote
    requires !Hit(g, s, b) && !NextOutcome(g, s.net).load.Latest?
    ensures StoreOk(g, t) && SameShape(s, t) && !ReadsRight(g, t, b, n, off)
  {
    MissLoads(g, s, b);
    var now := LoadNow(g, s, b);
    var other := now[..off] + Unlike(now[off..]);
    var bytes := other[off..off + n];
    assert bytes[0] != now[off..off + n][0];
    t := s.(remote := s.remote[b := other]);
    assert t.remote.Keys == s.remote.Keys;
    hide NextOutcome, RestOf, NetOk;
    MissLoads(g, t, b);
    ExpelLoads(g, t, b);
    hide Expel, LoadNow;
    MissHas(g, t, b, off, bytes);
    assert Access(g, t, b, bytes, off, Read, Read).1 == now[off..off + n];
  }

  /** A bank that is not resident has the bytes stored */
  lemma MissHas(g: Geometry, s: Store, b: nat, off: nat, bytes: Bytes)
    requires StoreOk(g, s) && b < g.banks && off + |bytes| <= g.Bank() && !Hit(g, s, b)
    requires b in s.remote && s.remote[b][off..off + |bytes|] == bytes
    ensures HasAll(g, s, b, off, bytes)
  {
    forall k: nat, x: nat | k < |bytes| && x == off + k ensures Has(g, s, b, x, bytes[k]) {
      assert s.remote[b][off..off + |bytes|][k] == s.remote[b][x];
    }
  }

  // ----- the write as shipped -----

  ghost predicate Stores(g: Geometry, s: Store, b: nat, buf: Bytes, off: nat)
    requires StoreOk(g, s) && b < g.banks && off + |buf| <= g.Bank()
  {
    HasAll(g, Access(g, s, b, buf, off, Write, Read).0, b, off, buf)
  }

  /** dhmp_fs_write_to_cache as shipped visits with type 1 after a miss. Its write
      takes effect exactly when the bank is resident or those bytes are both
      stored and loaded already; after a miss the caller's buffer is overwritten
      with what was loaded */
  lemma ShippedWriteExact(g: Geometry, s: Store, b: nat, buf: Bytes, off: nat)
    requires StoreOk(g, s) && b < g.banks && off + |buf| <= g.Bank()
    ensures |LoadNow(g, s, b)| == g.Bank()
    ensures Stores(g, s, b, buf, off) <==>
              || Hit(g, s, b) || buf == []
              || (b in s.remote && s.remote[b][off..off + |buf|] == buf && LoadNow(g, s, b)[off..off + |buf|] == buf)
    ensures !Hit(g, s, b) ==> Access(g, s, b, buf, off, Write, Read).1 == LoadNow(g, s, b)[off..off + |buf|]
  {
    NextOk(g, s.net);
    WriteExact(g, s, b, buf, off, Read);
    if !Hit(g, s, b) && buf != [] {
      ExpelLoads(g, s, b);
      MissLoads(g, s, b);
      var s', l := Expel(g, s, b), LoadNow(g, s, b);
      hide NextOutcome, RestOf, NetOk, Expel, LoadNow;
      if Stores(g, s, b, buf, off) {
        assert Has(g, s', b, off, buf[0]);
        forall k | 0 <= k < |buf| ensures s.remote[b][off..off + |buf|][k] == buf[k] == l[off..off + |buf|][k] {
          assert Has(g, s', b, off + k, buf[k]);
        }
      } else {
        var k: nat :| k < |buf| && !Has(g, s', b, off + k, buf[k]);
        assert b in s.remote ==> s.remote[b][off..off + |buf|][k] != buf[k] || l[off..off + |buf|][k] != buf[k];
      }
    }
  }

  /** So the shipped write is right for every content exactly on resident banks */
  lemma ShippedWriteIffResident(g: Geometry, s: Store, b: nat, n: nat, off: nat)
    requires StoreOk(g, s) && b < g.banks && off + n <= g.Bank() && n > 0
    ensures (forall buf: Bytes :: |buf| == n ==> Stores(g, s, b, buf, off)) <==> Hit(g, s, b)
  {
    if Hit(g, s, b) {
      forall buf: Bytes | |buf| == n ensures Stores(g, s, b, buf, off) {
        ShippedWriteExact(g, s, b, buf, off);
      }
    } else {
      ShippedWriteExact(g, s, b, [], off);
      var buf := Unlike(LoadNow(g, s, b)[off..off + n]);
      ShippedWriteExact(g, s, b, buf, off);
      assert !Stores(g, s, b, buf, off);
    }
  }

  /** After a miss the shipped write leaves the same store, whatever its bytes */
  lemma ShippedMissForgets(g: Geometry, s: Store, b: nat, buf: Bytes, buf': Bytes, off: nat)
    requires StoreOk(g, s) && b < g.banks && off + |buf| <= g.Bank() && |buf'| == |buf| && !Hit(g, s, b)
    ensures Access(g, s, b, buf, off, Write, Read).0 == Access(g, s, b, buf', off, Write, Read).0
  {
  }

  // ----- the log -----

  /** The banks stored after all of this was stored */
  function Applied(remote: map<nat, Bytes>, log: seq<Traffic>): map<nat, Bytes> {
    if log == [] then remote
    else
      var r := Applied(remote, log[..|log| - 1]);
      match log[|log| - 1].back
      case None => r
      case Some(w) => r[w.bank := w.data]
  }

  function Later(net: seq<Outcome>, k: nat): seq<Outcome> {
    if k <= |net| then net[k..] else []
  }

  /** The lines below n written back one after the other */
  function FlushBelow(g: Geometry, s: Store, n: nat): (r: Store)
    requires n <= |s.lines|
    ensures |r.lines| == |s.lines|
  {
    if n == 0 then s else FlushLine(g, FlushBelow(g, s, n - 1), n - 1)
  }

  /** The calls for them: one for each dirty line, in order */
  function Rewrites(lines: seq<Line>): seq<Traffic> {
    if lines == [] then []
    else
      var l := lines[|lines| - 1];
      Rewrites(lines[..|lines| - 1]) + if l.dirty then [Traffic(Some(Back(l.bank, l.data)), None)] else []
  }

  /** The lines stay what they were but for the dirty flags, and the calls made are
      those of the dirty lines */
  lemma {:induction false} FlushBelowExact(g: Geometry, s: Store, n: nat)
    requires n <= |s.lines|
    ensures var r := FlushBelow(g, s, n);
            && (forall k :: 0 <= k < |s.lines| ==>
                  r.lines[k] == if k < n then s.lines[k].(dirty := false) else s.lines[k])
            && r.log == s.log + Rewrites(s.lines[..n]) && r.net == Later(s.net, |Rewrites(s.lines[..n])|)
  {
    if n > 0 {
      FlushBelowExact(g, s, n - 1);
      assert s.lines[..n][..n - 1] == s.lines[..n - 1];
    }
  }

  /** s' has made the calls its log adds to that of s, one outcome each, and if they
      came out well it counts as stored what they wrote */
  ghost predicate Ran(s: Store, s': Store) {
    && s.log <= s'.log
    && s'.net == Later(s.net, |s'.log| - |s.log|)
    && (Healthy(s) ==> Healthy(s') && s'.remote == Applied(s.remote, s'.log[|s.log|..]))
  }

  lemma RanNothing(s: Store, s': Store)
    requires s'.log == s.log && s'.net == s.net && s'.remote == s.remote
    ensures Ran(s, s')
  {
  }

  lemma RanOne(g: Geometry, s: Store, s': Store, t: Traffic)
    requires s'.log == s.log + [t] && s'.net == RestOf(s.net)
    requires s'.remote == match t.back
                          case None => s.remote
                          case Some(w) => Stored(s.remote, w.bank, w.data, NextOutcome(g, s.net).stored)
    ensures Ran(s, s')
  {
    assert s'.log[|s.log|..] == [t];
    assert Applied(s.remote, [t][..0]) == s.remote;
  }

  lemma {:induction false} AppliedAppend(remote: map<nat, Bytes>, a: seq<Traffic>, b: seq<Traffic>)
    ensures Applied(remote, a + b) == Applied(Applied(remote, a), b)
    decreases |b|
  {
    if b == [] {
      assert a + b == a;
    } else {
      assert (a + b)[..|a + b| - 1] == a + b[..|b| - 1];
      AppliedAppend(remote, a, b[..|b| - 1]);
    }
  }

  lemma RanOn(s: Store, s1: Store, s2: Store)
    requires Ran(s, s1) && Ran(s1, s2)
    ensures Ran(s, s2)
  {
    assert s2.log[|s.log|..] == s1.log[|s.log|..] + s2.log[|s1.log|..];
    AppliedAppend(s.remote, s1.log[|s.log|..], s2.log[|s1.log|..]);
  }

  lemma ExpelRan(g: Geometry, s: Store, b: nat)
    requires StoreOk(g, s) && b < g.banks
    ensures Ran(s, Expel(g, s, b))
  {
    var l := s.lines[Mod(b, g.lines)];
    hide NextOutcome, Ran;
    if l.bank == b {
      RanNothing(s, s);
    } else {
      RanOne(g, s, Expel(g, s, b), Traffic(WrittenBack(l), Some(b)));
    }
  }

  lemma AccessRan(g: Geometry, s: Store, b: nat, buf: Bytes, off: nat, first: Visit, again: Visit)
    requires StoreOk(g, s) && b < g.banks && off + |buf| <= g.Bank()
    ensures Ran(s, Access(g, s, b, buf, off, first, again).0)
  {
    var s' := Access(g, s, b, buf, off, first, again).0;
    if Hit(g, s, b) {
      RanNothing(s, s');
    } else {
      ExpelLoads(g, s, b);
      ExpelRan(g, s, b);
      hide Expel;
      RanNothing(Expel(g, s, b), s');
      RanOn(s, Expel(g, s, b), s');
    }
  }

  lemma FlushRan(g: Geometry, s: Store, k: nat)
    requires StoreOk(g, s) && k < g.lines
    ensures Ran(s, FlushLine(g, s, k))
  {
    hide NextOutcome, Ran;
    if s.lines[k].dirty {
      RanOne(g, s, FlushLine(g, s, k), Traffic(WrittenBack(s.lines[k]), None));
    } else {
      RanNothing(s, s);
    }
  }
}
