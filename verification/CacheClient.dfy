/** The cache as it runs: lines are changed in place in the table of cache lines. */
module CacheClient {
  import opened Basics
  import opened FileIndex
  import opened BankCache

  class Cache {
    const g: Geometry
    const lines: array<Line>
    /** the banks stored so far, and how the remote calls to come will come out */
    var remote: map<nat, Bytes>
    var net: seq<Outcome>
    ghost var log: seq<Traffic>

    ghost function State(): Store
      reads this, lines
    {
      Store(lines[..], remote, net, log)
    }

    ghost predicate Valid()
      reads this, lines
    {
      lines.Length == g.lines && StoreOk(g, State())
    }

    /** The cache that dhmp_init sets up */
    constructor (g: Geometry)
      requires g.Ok()
      ensures Valid() && fresh(lines) && this.g == g && State() == InitialStore(g)
      ensures lines.Length == g.lines && remote == map[] && net == [] && log == []
      ensures forall k :: 0 <= k < g.lines ==> lines[k] == Line(k, k, seq(g.Bank(), _ => 0), false)
    {
      this.g := g;
      remote, net, log := map[], [], [];
      var zeros: Bytes := seq(g.Bank(), _ => 0);
      this.lines := new Line[g.lines](k => Line(k, k, zeros, false));
      new;
      InitialStoreOk(g);
      assert lines[..] == InitialStore(g).lines;
    }

    /** try_visit_cache */
    method TryVisitCache(b: nat, buf: Bytes, off: nat, t: Visit) returns (hit: bool, buf': Bytes)
      requires Valid() && b < g.banks && off + |buf| <= g.Bank()
      modifies lines
      ensures hit <==> Hit(g, old(State()), b)
      ensures !hit ==> State() == old(State()) && buf' == buf
      ensures hit ==> (State(), buf') == VisitLine(g, old(State()), b, buf, off, t)
      ensures hit && t == Read ==> State() == old(State()) && buf' == lines[Mod(b, g.lines)].data[off..off + |buf|]
      ensures hit && t == Write ==>
                var k := Mod(b, g.lines);
                var l, was := lines[k], old(lines[k]);
                && buf' == buf && l == Line(was.tag, was.bank, l.data, true) && |l.data| == g.Bank()
                && (forall x :: 0 <= x < g.Bank() ==>
                      l.data[x] == if off <= x < off + |buf| then buf[x - off] else was.data[x])
                && forall j :: 0 <= j < g.lines && j != k ==> lines[j] == old(lines[j])
    {
      var key := Mod(b, g.lines);
      assert lines[..][key] == lines[key];
      if lines[key].tag != b {
        return false, buf;
      }
      var line := lines[key];
      match t {
        case Read => buf' := line.data[off..off + |buf|];
        case Write =>
          lines[key] := line.(data := line.data[..off] + buf + line.data[off + |buf|..], dirty := true);
          buf' := buf;
      }
      hit := true;
      assert lines[..] == if t == Read then old(lines[..]) else old(lines[..])[key := lines[key]];
    }

    /** A call begins whose remote calls will come out so */
    method Face(outcomes: seq<Outcome>)
      requires Valid() && NetOk(g, outcomes)
      modifies this`net, this`log
      ensures Valid() && State() == Facing(old(State()), outcomes)
    {
      net := outcomes;
      log := [];
    }

    /** How the next remote calls come out */
    method NextCalls() returns (o: Outcome)
      requires Valid()
      modifies this`net
      ensures o == NextOutcome(g, old(net)) && net == RestOf(old(net))
    {
      if net == [] {
        o := Outcome(true, Latest(seq(g.Bank(), _ => 0)));
      } else {
        o := net[0];
        net := net[1..];
      }
    }

    /** dhmp_fs_write_to_remote on a whole bank: somebody stores it or nobody does */
    method WriteToRemote(b: nat, data: Bytes, o: Outcome)
      modifies this`remote
      ensures remote == Stored(old(remote), b, data, o.stored)
    {
      if o.stored {
        remote := remote[b := data];
      }
    }

    /** dhmp_fs_read_from_remote on a whole bank, into a buffer that holds buf */
    method ReadFromRemote(b: nat, buf: Bytes, o: Outcome) returns (buf': Bytes)
      ensures buf' == Loaded(remote, b, buf, o.load)
    {
      buf' := buf;
      match o.load {
        case Latest(blank) => buf' := if b in remote then remote[b] else blank;
        case Stale(bytes) => buf' := bytes;
        case Nothing =>
      }
    }

    /** expel_cache_rewrite */
    method ExpelCacheRewrite(b: nat)
      requires Valid() && b < g.banks
      modifies this`remote, this`net, this`log, lines
      ensures State() == Expel(g, old(State()), b) && Valid()
    {
      ExpelLoads(g, State(), b);
      NextOk(g, net);
      var key := Mod(b, g.lines);
      var line := lines[key];
      assert LineOk(g, lines[..][key], key);
      if line.bank == b {
        return;
      }
      var o := NextCalls();
      if line.dirty {
        WriteToRemote(line.bank, line.data, o);
      }
      var oldKey := Mod(line.bank, g.lines);
      lines[oldKey] := lines[oldKey].(tag := b);
      var data := ReadFromRemote(b, lines[key].data, o);
      lines[key] := Line(lines[key].tag, b, data, false);
      log := log + [Traffic(WrittenBack(line), Some(b))];
      assert lines[..] == old(lines[..])[oldKey := old(lines[oldKey]).(tag := b)][key := lines[key]];
    }

    /** dhmp_fs_read_from_cache */
    method ReadFromCache(b: nat, buf: Bytes, off: nat) returns (buf': Bytes)
      requires Valid() && b < g.banks && off + |buf| <= g.Bank()
      modifies this`remote, this`net, this`log, lines
      ensures (State(), buf') == Access(g, old(State()), b, buf, off, Read, Read) && Valid()
    {
      ReadExact(g, State(), b, buf, off);
      ExpelLoads(g, State(), b);
      var hit: bool;
      hit, buf' := TryVisitCache(b, buf, off, Read);
      if !hit {
        ExpelCacheRewrite(b);
        hit, buf' := TryVisitCache(b, buf, off, Read);
      }
    }

    /** dhmp_fs_write_to_cache; again is the type of the visit after a miss, Read
        as shipped */
    method WriteToCache(b: nat, buf: Bytes, off: nat, again: Visit) returns (buf': Bytes)
      requires Valid() && b < g.banks && off + |buf| <= g.Bank()
      modifies this`remote, this`net, this`log, lines
      ensures (State(), buf') == Access(g, old(State()), b, buf, off, Write, again) && Valid()
    {
      WriteExact(g, State(), b, buf, off, again);
      ExpelLoads(g, State(), b);
      var hit: bool;
      hit, buf' := TryVisitCache(b, buf, off, Write);
      if !hit {
        ExpelCacheRewrite(b);
        hit, buf' := TryVisitCache(b, buf, off, again);
      }
    }

    /** What a pass of rewrite_dirty_cache does with one line */
    method RewriteLine(i: nat)
      requires Valid() && i < g.lines
      modifies this`remote, this`net, this`log, lines
      ensures Valid() && State() == FlushLine(g, old(State()), i)
    {
      FlushKeeps(g, State(), i);
      assert LineOk(g, lines[..][i], i);
      if lines[i].dirty {
        var o := NextCalls();
        WriteToRemote(lines[i].bank, lines[i].data, o);
        log := log + [Traffic(WrittenBack(lines[i]), None)];
        lines[i] := lines[i].(dirty := false);
      }
      assert lines[..] == FlushLine(g, old(State()), i).lines;
    }

    /** One pass of rewrite_dirty_cache: no line is dirty afterwards, whatever became
        of the writes; if they all came out well every byte stays what it was */
    method RewriteDirtyCache(outcomes: seq<Outcome>)
      requires Valid() && NetOk(g, outcomes)
      modifies this`remote, this`net, this`log, lines
      ensures Valid() && (AllWell(outcomes) ==> KeepsOthers(g, old(State()), State(), 0, 0, 0))
      ensures forall k :: 0 <= k < g.lines ==> lines[k] == old(lines[k]).(dirty := false)
      ensures log == Rewrites(old(lines[..])) && State() == FlushBelow(g, Facing(old(State()), outcomes), g.lines)
    {
      hide StoreOk, Has, Healthy, KeepsOthers, FlushLine, Rewrites, Later;
      Face(outcomes);
      ghost var start := State();
      FacingKeeps(g, old(State()), outcomes);
      var i := 0;
      while i < lines.Length
        invariant i <= lines.Length == g.lines && Valid()
        invariant Healthy(start) ==> Healthy(State()) && KeepsOthers(g, old(State()), State(), 0, 0, 0)
        invariant State() == FlushBelow(g, start, i)
      {
        ghost var before := State();
        FlushOn(g, old(State()), before, i);
        RewriteLine(i);
        i := i + 1;
      }
      FlushBelowExact(g, start, g.lines);
      assert start.lines[..g.lines] == old(lines[..]);
      forall k | 0 <= k < g.lines ensures lines[k] == old(lines[k]).(dirty := false) {
        assert State().lines[k] == start.lines[k].(dirty := false);
      }
    }
  }

  lemma FacingKeeps(g: Geometry, s: Store, net: seq<Outcome>)
    requires StoreOk(g, s) && NetOk(g, net)
    ensures KeepsOthers(g, s, Facing(s, net), 0, 0, 0) && StoreOk(g, Facing(s, net))
    ensures AllWell(net) ==> Healthy(Facing(s, net))
  {
  }

  lemma FlushOn(g: Geometry, a: Store, s: Store, k: nat)
    requires StoreOk(g, s) && k < g.lines
    ensures Healthy(s) && KeepsOthers(g, a, s, 0, 0, 0) ==>
              Healthy(FlushLine(g, s, k)) && KeepsOthers(g, a, FlushLine(g, s, k), 0, 0, 0)
  {
    FlushKeeps(g, s, k);
    hide Has, FlushLine, StoreOk;
  }
}
