/** The cache over the servers: how the remote calls of BankCache come out follows
    from the states of the servers and from who answers. */
module RemoteStore {
  import opened Basics
  import opened FileIndex
  import opened BankCache
  import R = Replication
  import C = ReplicaClient

  type Servers = R.Cluster<Bytes>

  /** A write-back and the read after it: who answers each, and the server the read
      picks. Other threads may have changed the servers in between. */
  datatype Remote = Remote(before: Servers, upWrite: seq<bool>, after: Servers, pick: nat, upRead: seq<bool>)

  ghost predicate Fitting(g: Geometry, c: Servers) {
    R.Inv(c) && R.Banks(c) == g.banks && BanksSized(g, c.nodes)
  }

  ghost predicate BanksSized(g: Geometry, nodes: seq<R.Node<Bytes>>) {
    forall i, b :: 0 <= i < |nodes| && 0 <= b < |nodes[i].banks| ==> |nodes[i].banks[b]| == g.Bank()
  }

  ghost predicate Asked(g: Geometry, m: Remote) {
    && Fitting(g, m.before) && Fitting(g, m.after)
    && |m.upWrite| == |m.before.nodes| && |m.upRead| == |m.after.nodes| && m.pick < |m.after.nodes|
  }

  /** Some server marked CONNECTED answers */
  ghost predicate Answered(c: Servers, up: seq<bool>)
    requires |up| == |c.nodes|
  {
    exists i :: 0 <= i < |c.nodes| && c.nodes[i].state == R.CONNECTED && up[i]
  }

  ghost predicate NoneConnected(c: Servers) {
    forall i :: 0 <= i < |c.nodes| ==> c.nodes[i].state != R.CONNECTED
  }

  /** What the read of bank b gets, if anything */
  ghost function Got(g: Geometry, m: Remote, b: nat): Option<Bytes>
    requires Asked(g, m) && b < g.banks
  {
    C.ReadValue(m.after.nodes, b, m.pick, m.upRead)
  }

  ghost predicate FromConnected(g: Geometry, m: Remote)
    requires Asked(g, m)
  {
    C.EndsConnected(m.after.nodes, m.pick, m.upRead)
  }

  ghost function LoadOf(g: Geometry, m: Remote, b: nat): Load
    requires Asked(g, m) && b < g.banks
  {
    match Got(g, m, b)
    case None => Nothing
    case Some(v) => if FromConnected(g, m) then Latest(v) else Stale(v)
  }

  /** How the calls of this traffic come out. A write-back that is not asked for
      counts as stored, a read that is not as right. */
  ghost function OutcomeOf(g: Geometry, m: Remote, t: Traffic): Outcome
    requires Asked(g, m) && TrafficOk(g, t)
  {
    Outcome(t.back.None? || Answered(m.before, m.upWrite),
            if t.load.Some? then LoadOf(g, m, t.load.value) else Latest(seq(g.Bank(), _ => 0)))
  }

  predicate TrafficOk(g: Geometry, t: Traffic) {
    && (t.back.Some? ==> t.back.value.bank < g.banks && |t.back.value.data| == g.Bank())
    && (t.load.Some? ==> t.load.value < g.banks)
  }

  /** A connected server stores what is written back, and what is read comes from a
      connected one */
  ghost predicate ServedWell(g: Geometry, m: Remote, t: Traffic)
    requires Asked(g, m)
  {
    && (t.back.Some? ==> Answered(m.before, m.upWrite))
    && (t.load.Some? ==> FromConnected(g, m))
  }

  /** That is exactly when the calls come out well */
  lemma WellIff(g: Geometry, m: Remote, t: Traffic)
    requires Asked(g, m) && TrafficOk(g, t)
    ensures Well(OutcomeOf(g, m, t)) <==> ServedWell(g, m, t)
    ensures LoadOk(g, OutcomeOf(g, m, t).load)
  {
    hide R.Safe, C.Reader;
  }

  // ----- an eviction over the servers -----

  /** What an eviction for bank b asks */
  function EvictionOf(g: Geometry, s: Store, b: nat): Traffic
    requires g.Ok() && |s.lines| == g.lines
  {
    Traffic(WrittenBack(s.lines[Mod(b, g.lines)]), Some(b))
  }

  /** The servers hold what the cache takes for stored, and those asked by the read
      are the ones the write-back left: nobody else writes banks */
  ghost predicate Under(g: Geometry, s: Store, b: nat, m: Remote)
    requires StoreOk(g, s) && b < g.banks
  {
    && TrafficOk(g, EvictionOf(g, s, b))
    && Asked(g, m) && m.before.latest == s.remote
    && m.after.latest == Applied(s.remote, [EvictionOf(g, s, b)])
    && s.net != [] && s.net[0] == OutcomeOf(g, m, EvictionOf(g, s, b))
  }

  lemma AppliedOne(remote: map<nat, Bytes>, t: Traffic)
    ensures Applied(remote, [t]) == if t.back.Some? then remote[t.back.value.bank := t.back.value.data] else remote
  {
    assert [t][..0] == [];
    assert Applied(remote, [t][..0]) == remote;
  }

  lemma EvictionOk(g: Geometry, s: Store, b: nat)
    requires StoreOk(g, s) && b < g.banks
    ensures TrafficOk(g, EvictionOf(g, s, b))
  {
    assert LineOk(g, s.lines[Mod(b, g.lines)], Mod(b, g.lines));
  }

  lemma ReadFromConnected(g: Geometry, m: Remote, b: nat)
    requires Asked(g, m) && FromConnected(g, m) && b < g.banks
    ensures Got(g, m, b).Some?
    ensures b in m.after.latest ==> Got(g, m, b) == Some(m.after.latest[b])
  {
    hide R.Safe, C.Reader;
    if b in m.after.latest {
      C.ReadLatest(m.after, b, m.pick, m.upRead);
    }
  }

  /** An eviction over the servers. What is in the line afterwards is what the read
      got, or the old bank's bytes if it got nothing; what counts as stored is what
      the servers hold, if somebody stored the write-back. */
  lemma EvictionServed(g: Geometry, s: Store, b: nat, m: Remote)
    requires StoreOk(g, s) && b < g.banks && !Hit(g, s, b) && Under(g, s, b, m)
    ensures var s', k := Expel(g, s, b), Mod(b, g.lines);
            && |s'.lines| == g.lines && s'.lines[k].tag == b
            && s'.lines[k].data == (if Got(g, m, b).Some? then Got(g, m, b).value else s.lines[k].data)
            && ((s.lines[k].dirty ==> Answered(m.before, m.upWrite)) ==> s'.remote == m.after.latest)
  {
    MissLoads(g, s, b);
    AppliedOne(s.remote, EvictionOf(g, s, b));
    if FromConnected(g, m) {
      ReadFromConnected(g, m, b);
    }
    hide Asked, Got, FromConnected, Answered, Applied;
  }

  /** The exact condition, in terms of the servers: loading a bank keeps every byte
      of every content exactly when a connected server stores the line written
      back, if it is dirty, and the read of a stored bank ends at a connected one */
  lemma MissKeepsIff(g: Geometry, s: Store, b: nat, m: Remote)
    requires StoreOk(g, s) && b < g.banks && !Hit(g, s, b) && Under(g, s, b, m)
    ensures (forall t :: StoreOk(g, t) && SameShape(s, t) ==> Keeps(g, t, Expel(g, t, b)))
       <==> && (s.lines[Mod(b, g.lines)].dirty ==> Answered(m.before, m.upWrite))
            && (b in s.remote ==> FromConnected(g, m))
  {
    ExpelKeepsIff(g, s, b);
    if FromConnected(g, m) {
      ReadFromConnected(g, m, b);
    }
    hide Asked, Got, FromConnected, Answered, StoreOk, Keeps, Expel, SameShape, Applied;
  }

  // ----- what the servers do meanwhile -----

  /** A write-back leaves what it wrote with every connected server that answers, and
      nobody connected who does not hold it */
  lemma WriteBackHeld(g: Geometry, c: Servers, b: nat, v: Bytes, up: seq<bool>)
    requires Fitting(g, c) && b < g.banks && |v| == g.Bank() && |up| == |c.nodes|
    ensures var c' := R.Write(c, b, v, up);
            && Fitting(g, c') && c'.latest == c.latest[b := v] && |c'.nodes| == |c.nodes|
            && forall i :: 0 <= i < |c.nodes| ==>
                 && (c'.nodes[i].state == R.CONNECTED <==> c.nodes[i].state == R.CONNECTED && up[i])
                 && (c'.nodes[i].state == R.CONNECTED ==> b < |c'.nodes[i].banks| && c'.nodes[i].banks[b] == v)
  {
    R.WriteKeeps(c, b, v, up);
    hide R.Inv;
  }

  /** The outcome of the rewrite of a line */
  ghost function RewriteOf(g: Geometry, c: Servers, up: seq<bool>): Outcome
    requires |up| == |c.nodes|
  {
    Outcome(Answered(c, up), Latest(seq(g.Bank(), _ => 0)))
  }

  /** The rewrite of a dirty line over servers that hold what the cache takes for
      stored: it keeps every byte of every content exactly when a connected server
      answers; then what counts as stored is what the servers hold afterwards,
      the line's bytes at each connected one */
  lemma RewriteKeepsIff(g: Geometry, s: Store, k: nat, c: Servers, up: seq<bool>)
    requires StoreOk(g, s) && k < g.lines && s.lines[k].dirty
    requires Fitting(g, c) && c.latest == s.remote && |up| == |c.nodes|
    ensures s.lines[k].bank < g.banks && |s.lines[k].data| == g.Bank()
    ensures var s1, c' := Facing(s, [RewriteOf(g, c, up)]), R.Write(c, s.lines[k].bank, s.lines[k].data, up);
            && StoreOk(g, s1) && Fitting(g, c')
            && ((forall t :: StoreOk(g, t) && SameShape(s1, t) ==> Keeps(g, t, FlushLine(g, t, k)))
                <==> Answered(c, up))
            && (Answered(c, up) ==> FlushLine(g, s1, k).remote == c'.latest && !NoneConnected(c'))
            && forall i :: 0 <= i < |c'.nodes| && c'.nodes[i].state == R.CONNECTED ==>
                 s.lines[k].bank < |c'.nodes[i].banks| && c'.nodes[i].banks[s.lines[k].bank] == s.lines[k].data
  {
    var s1 := Facing(s, [RewriteOf(g, c, up)]);
    assert LineOk(g, s.lines[k], k);
    WriteBackHeld(g, c, s.lines[k].bank, s.lines[k].data, up);
    FlushKeepsIff(g, s1, k);
    hide Fitting, SameShape, Keeps, R.Write;
  }

  /** Servers in a run whose recoveries are careful */
  ghost predicate Ready(g: Geometry, c: Servers) {
    Fitting(g, c) && R.FullInv(c)
  }

  predicate EventOk(g: Geometry, e: R.Event<Bytes>) {
    match e
    case Written(_, v, _) => |v| == g.Bank()
    case Returned(_, blank, _, _) => forall b :: 0 <= b < |blank| ==> |blank[b]| == g.Bank()
    case Copied(_, _, junk) => |junk| == g.Bank()
    case _ => true
  }

  ghost predicate Allowed(g: Geometry, c: Servers, e: R.Event<Bytes>) {
    R.Enabled(c, e) && R.Careful(c, e) && EventOk(g, e)
  }

  lemma StoredSized(g: Geometry, nodes: seq<R.Node<Bytes>>, i: nat, b: nat, v: Bytes)
    requires BanksSized(g, nodes) && i < |nodes| && b < |nodes[i].banks| && |v| == g.Bank()
    ensures BanksSized(g, R.StoreBank(nodes, i, b, v))
  {
  }

  lemma StateSized(g: Geometry, nodes: seq<R.Node<Bytes>>, i: nat, state: R.ServerState)
    requires BanksSized(g, nodes) && i < |nodes|
    ensures BanksSized(g, R.SetState(nodes, i, state))
  {
  }

  lemma CopySized(g: Geometry, c: Servers, b: nat, o: R.Outcome, junk: Bytes)
    requires R.Shaped(c) && BanksSized(g, c.nodes) && |junk| == g.Bank() && R.ToCopy(c, b) && o != R.ThirdDown
    requires c.phase.target < |c.nodes| && c.phase.donor < |c.nodes|
    ensures BanksSized(g, R.Copy(c, b, o, junk).nodes)
  {
    var p := c.phase;
    StoredSized(g, c.nodes, p.target, b, junk);
    StoredSized(g, c.nodes, p.target, b, c.nodes[p.donor].banks[b]);
    StateSized(g, c.nodes, p.target, R.DISCONNECT);
    StateSized(g, c.nodes, p.donor, R.DISCONNECT);
    hide BanksSized, R.StoreBank, R.SetState;
  }

  lemma ReplaySized(g: Geometry, c: Servers, o: R.Outcome)
    requires R.Shaped(c) && BanksSized(g, c.nodes) && R.ToReplay(c)
    ensures BanksSized(g, R.Replay(c, o).nodes)
  {
    var p, third := c.phase, R.FindAlive(c.nodes, 0);
    var b := c.nodes[p.donor].queue[p.pos];
    var v := c.nodes[third].banks[b];
    StoredSized(g, c.nodes, p.donor, b, v);
    StoredSized(g, R.StoreBank(c.nodes, p.donor, b, v), p.target, b, v);
    StateSized(g, c.nodes, third, R.DISCONNECT);
    StateSized(g, c.nodes, p.donor, R.DISCONNECT);
    StateSized(g, R.StoreBank(c.nodes, p.donor, b, v), p.target, R.DISCONNECT);
    hide BanksSized, R.SetState;
  }

  lemma StartSized(g: Geometry, c: Servers, i: nat, blank: seq<Bytes>, full: bool, journal: seq<nat>)
    requires BanksSized(g, c.nodes) && i < |c.nodes| && forall b :: 0 <= b < |blank| ==> |blank[b]| == g.Bank()
    ensures BanksSized(g, R.Start(c, i, blank, full, journal).nodes)
  {
    var nodes := R.SetState(c.nodes, i, R.RECONNECT);
    R.AliveWhenCounted(nodes, 0);
    assert nodes[0..] == nodes;
  }

  lemma SizedStep(g: Geometry, c: Servers, e: R.Event<Bytes>)
    requires R.Shaped(c) && BanksSized(g, c.nodes) && R.Enabled(c, e) && EventOk(g, e)
    ensures BanksSized(g, R.Apply(c, e).nodes)
  {
    match e
    case Copied(b, o, junk) => CopySized(g, c, b, o, junk); hide R.Copy;
    case Replayed(o) => ReplaySized(g, c, o); hide R.Replay;
    case Returned(i, blank, full, journal) => StartSized(g, c, i, blank, full, journal); hide R.Start;
    case _ => hide R.Copy, R.Replay, R.Start;
  }

  lemma BanksStep(c: Servers, e: R.Event<Bytes>)
    requires R.Shaped(c) && R.Enabled(c, e) && |R.Apply(c, e).nodes| == |c.nodes|
    ensures R.Banks(R.Apply(c, e)) == R.Banks(c)
    ensures !e.Written? ==> R.Apply(c, e).latest == c.latest
  {
    hide R.CountAlive, R.LinksFreed, R.CopyOver;
    match e
    case Returned(i, blank, _, _) =>
      var nodes := R.SetState(c.nodes, i, R.RECONNECT);
      R.AliveWhenCounted(nodes, 0);
      assert nodes[0..] == nodes;
    case _ =>
  }

  /** Any careful step keeps the servers ready, and one that writes no bank keeps what
      they hold */
  lemma StepKeeps(g: Geometry, c: Servers, e: R.Event<Bytes>)
    requires Ready(g, c) && Allowed(g, c, e)
    ensures Ready(g, R.Apply(c, e)) && |R.Apply(c, e).nodes| == |c.nodes|
    ensures !e.Written? ==> R.Apply(c, e).latest == c.latest
  {
    hide R.Enabled, R.Careful, R.Apply, EventOk, BanksSized, R.Safe, R.Banks, R.FreedLast, R.Marked;
    R.CarefulStep(c, e);
    R.ServersStay(c, e);
    SizedStep(g, c, e);
    BanksStep(c, e);
  }

  /** Steps of other threads, recoveries and failed reads, that write no bank */
  ghost predicate Quiet(g: Geometry, c: Servers, es: seq<R.Event<Bytes>>)
    decreases |es|
  {
    es == [] || (Allowed(g, c, es[0]) && !es[0].Written? && Quiet(g, R.Apply(c, es[0]), es[1..]))
  }

  ghost function QuietEnd(g: Geometry, c: Servers, es: seq<R.Event<Bytes>>): Servers
    requires Quiet(g, c, es)
    decreases |es|
  {
    if es == [] then c else QuietEnd(g, R.Apply(c, es[0]), es[1..])
  }

  lemma {:induction false} QuietKeeps(g: Geometry, c: Servers, es: seq<R.Event<Bytes>>)
    requires Ready(g, c) && Quiet(g, c, es)
    ensures Ready(g, QuietEnd(g, c, es)) && QuietEnd(g, c, es).latest == c.latest
    ensures |QuietEnd(g, c, es).nodes| == |c.nodes|
    decreases |es|
  {
    hide Ready, Allowed, R.Apply;
    if es != [] {
      AllowedEnabled(g, c, es[0]);
      StepKeeps(g, c, es[0]);
      QuietKeeps(g, R.Apply(c, es[0]), es[1..]);
    }
  }

  lemma AllowedEnabled(g: Geometry, c: Servers, e: R.Event<Bytes>)
    requires Allowed(g, c, e)
    ensures R.Enabled(c, e)
  {
  }

  /** One eviction or rewrite among other threads: what they do before the write-back,
      who answers it, what they do before the read, and whom it picks and who
      answers. A server that the read finds silent fails among the next steps. */
  datatype Exchange = Exchange(
    first: seq<R.Event<Bytes>>, upWrite: seq<bool>, second: seq<R.Event<Bytes>>, pick: nat, upRead: seq<bool>)

  ghost function Wrote(c: Servers, t: Traffic, up: seq<bool>): Servers
    requires R.Shaped(c) && |up| == |c.nodes| && (t.back.Some? ==> t.back.value.bank < R.Banks(c))
  {
    if t.back.Some? then R.Write(c, t.back.value.bank, t.back.value.data, up) else c
  }

  ghost predicate Possible(g: Geometry, c: Servers, t: Traffic, x: Exchange) {
    && TrafficOk(g, t) && Quiet(g, c, x.first)
    && var before := QuietEnd(g, c, x.first);
       && R.Shaped(before) && R.Banks(before) == g.banks && |x.upWrite| == |before.nodes|
       && (t.back.Some? ==> !R.LinksFreed(before))
       && Quiet(g, Wrote(before, t, x.upWrite), x.second)
       && var after := QuietEnd(g, Wrote(before, t, x.upWrite), x.second);
          |x.upRead| == |after.nodes| && x.pick < |after.nodes|
  }

  ghost function RemoteOf(g: Geometry, c: Servers, t: Traffic, x: Exchange): Remote
    requires Possible(g, c, t, x)
  {
    var before := QuietEnd(g, c, x.first);
    Remote(before, x.upWrite, QuietEnd(g, Wrote(before, t, x.upWrite), x.second), x.pick, x.upRead)
  }

  /** An exchange asks ready servers and leaves ready servers, which hold what was
      written back, and a read that ends at a connected one gets the bytes last
      written */
  lemma ExchangeKeeps(g: Geometry, c: Servers, t: Traffic, x: Exchange)
    requires Ready(g, c) && Possible(g, c, t, x)
    ensures var m := RemoteOf(g, c, t, x);
            && Asked(g, m) && Ready(g, m.after)
            && m.before.latest == c.latest && m.after.latest == Applied(c.latest, [t])
            && (t.load.Some? && FromConnected(g, m) && t.load.value in m.after.latest ==>
                  t.load.value < g.banks && Got(g, m, t.load.value) == Some(m.after.latest[t.load.value]))
  {
    hide Ready, Quiet, QuietEnd, R.Write, Applied;
    QuietKeeps(g, c, x.first);
    var before := QuietEnd(g, c, x.first);
    AppliedOne(c.latest, t);
    WroteKeeps(g, before, t, x.upWrite);
    QuietKeeps(g, Wrote(before, t, x.upWrite), x.second);
    ReadyFits(g, before);
    ReadyFits(g, QuietEnd(g, Wrote(before, t, x.upWrite), x.second));
    var m := RemoteOf(g, c, t, x);
    if t.load.Some? && FromConnected(g, m) {
      ReadFromConnected(g, m, t.load.value);
    }
  }

  lemma ReadyFits(g: Geometry, c: Servers)
    requires Ready(g, c)
    ensures Fitting(g, c)
  {
  }

  lemma WroteKeeps(g: Geometry, c: Servers, t: Traffic, up: seq<bool>)
    requires Ready(g, c) && TrafficOk(g, t) && |up| == |c.nodes| && (t.back.Some? ==> !R.LinksFreed(c))
    ensures R.Shaped(c) && R.Banks(c) == g.banks && Ready(g, Wrote(c, t, up))
    ensures Wrote(c, t, up).latest
         == if t.back.Some? then c.latest[t.back.value.bank := t.back.value.data] else c.latest
  {
    if t.back.Some? {
      var e := R.Written(t.back.value.bank, t.back.value.data, up);
      assert R.Enabled(c, e);
      StepKeeps(g, c, e);
      assert R.Apply(c, e) == Wrote(c, t, up);
    }
    hide R.FullInv, R.LinksFreed;
  }

  /** One connected server that answers is enough */
  lemma ConnectedSuffices(g: Geometry, c: Servers, t: Traffic, i: nat)
    requires Ready(g, c) && TrafficOk(g, t) && i < |c.nodes| && c.nodes[i].state == R.CONNECTED
    requires t.back.Some? ==> !R.LinksFreed(c)
    ensures var up: seq<bool> := seq(|c.nodes|, _ => true);
            var x := Exchange([], up, [], i, up);
            && Possible(g, c, t, x)
            && Asked(g, RemoteOf(g, c, t, x)) && ServedWell(g, RemoteOf(g, c, t, x), t)
  {
    var up: seq<bool> := seq(|c.nodes|, _ => true);
    var x := Exchange([], up, [], i, up);
    WroteKeeps(g, c, t, up);
    hide R.FullInv, R.Inv, Applied, R.LinksFreed, BanksSized;
    assert |Wrote(c, t, up).nodes| == |c.nodes|;
    assert Wrote(c, t, up).nodes[i].state == R.CONNECTED;
    assert Possible(g, c, t, x);
    ExchangeKeeps(g, c, t, x);
    assert RemoteOf(g, c, t, x) == Remote(c, up, Wrote(c, t, up), i, up);
  }

  /** So over ready servers that hold what the cache takes for stored, an eviction
      among the careful steps of other threads meets the conditions above */
  lemma ExchangeUnder(g: Geometry, s: Store, b: nat, c: Servers, x: Exchange)
    requires StoreOk(g, s) && b < g.banks && Ready(g, c) && c.latest == s.remote
    requires Possible(g, c, EvictionOf(g, s, b), x) && Asked(g, RemoteOf(g, c, EvictionOf(g, s, b), x))
    requires s.net != [] && s.net[0] == OutcomeOf(g, RemoteOf(g, c, EvictionOf(g, s, b), x), EvictionOf(g, s, b))
    ensures Under(g, s, b, RemoteOf(g, c, EvictionOf(g, s, b), x))
  {
    EvictionOk(g, s, b);
    ExchangeKeeps(g, c, EvictionOf(g, s, b), x);
    hide Ready, Possible, Asked, OutcomeOf, RemoteOf, Applied;
  }

  // ----- a whole call over the servers -----

  /** The traffic of a call, one exchange each, with the outcomes they give */
  ghost predicate Served(g: Geometry, c: Servers, log: seq<Traffic>, net: seq<Outcome>, xs: seq<Exchange>, c': Servers)
    requires Ready(g, c)
    decreases |log|
  {
    && |log| == |net| == |xs|
    && if log == [] then c' == c
       else
         && Possible(g, c, log[0], xs[0])
         && (ExchangeKeeps(g, c, log[0], xs[0]); net[0] == OutcomeOf(g, RemoteOf(g, c, log[0], xs[0]), log[0]))
         && (ExchangeKeeps(g, c, log[0], xs[0]);
             Served(g, RemoteOf(g, c, log[0], xs[0]).after, log[1..], net[1..], xs[1..], c'))
  }

  /** Every exchange finds connected servers */
  ghost predicate AllServedWell(g: Geometry, c: Servers, log: seq<Traffic>, xs: seq<Exchange>)
    requires Ready(g, c) && |xs| == |log|
    decreases |log|
  {
    log == [] ||
    (Possible(g, c, log[0], xs[0])
     && (ExchangeKeeps(g, c, log[0], xs[0]);
         && ServedWell(g, RemoteOf(g, c, log[0], xs[0]), log[0])
         && AllServedWell(g, RemoteOf(g, c, log[0], xs[0]).after, log[1..], xs[1..])))
  }

  /** A call's remote calls all come out well exactly when each exchange finds
      connected servers; and its traffic leaves ready servers that hold what it
      wrote back */
  lemma {:induction false} ServedKeeps(
    g: Geometry, c: Servers, log: seq<Traffic>, net: seq<Outcome>, xs: seq<Exchange>, c': Servers)
    requires Ready(g, c) && Served(g, c, log, net, xs, c')
    ensures Ready(g, c') && c'.latest == Applied(c.latest, log)
    ensures AllWell(net) <==> AllServedWell(g, c, log, xs)
    ensures NetOk(g, net)
    decreases |log|
  {
    hide Ready, Possible, Asked, OutcomeOf, ServedWell, RemoteOf, Applied, Well, LoadOk;
    if log == [] {
      AppliedNothing(c.latest);
    } else {
      ExchangeKeeps(g, c, log[0], xs[0]);
      var m := RemoteOf(g, c, log[0], xs[0]);
      PossibleOk(g, c, log[0], xs[0]);
      WellIff(g, m, log[0]);
      ServedKeeps(g, m.after, log[1..], net[1..], xs[1..], c');
      AppliedAppend(c.latest, [log[0]], log[1..]);
      assert [log[0]] + log[1..] == log;
      assert net == [net[0]] + net[1..];
    }
  }

  lemma AppliedNothing(remote: map<nat, Bytes>)
    ensures Applied(remote, []) == remote
  {
  }

  lemma PossibleOk(g: Geometry, c: Servers, t: Traffic, x: Exchange)
    requires Possible(g, c, t, x)
    ensures TrafficOk(g, t)
  {
  }

  // ----- when nobody is connected -----

  /** Then no write-back is stored, and a read gets nothing or a stale bank */
  lemma NobodyServes(g: Geometry, m: Remote, t: Traffic)
    requires Asked(g, m) && TrafficOk(g, t)
    ensures NoneConnected(m.before) && t.back.Some? ==> !OutcomeOf(g, m, t).stored
    ensures NoneConnected(m.after) && t.load.Some? ==> !OutcomeOf(g, m, t).load.Latest?
  {
    hide R.Inv, R.Safe;
  }

  /** So it is all through a recovery from one survivor: its start leaves no server
      connected, and no step but a reconnection connects one */
  lemma SurvivorDisconnects(c: Servers, target: nat, blank: seq<Bytes>, full: bool, journal: seq<nat>)
    requires target < |c.nodes|
    ensures var c' := R.Start(c, target, blank, full, journal);
            c.phase == R.Idle && c'.phase.Copying? && c'.phase.single ==> NoneConnected(c')
  {
    var nodes := R.SetState(c.nodes, target, R.RECONNECT);
    if R.CountAlive(nodes) == 1 {
      R.AliveWhenCounted(nodes, 0);
      assert nodes[0..] == nodes;
      OneAlive(nodes, 0);
    }
  }

  lemma {:induction false} OneAlive(nodes: seq<R.Node<Bytes>>, from: nat)
    requires from <= |nodes| && R.CountAlive(nodes[from..]) == 1
    ensures forall i :: from <= i < |nodes| && nodes[i].state == R.CONNECTED ==> i == R.FindAlive(nodes, from)
    decreases |nodes| - from
  {
    assert nodes[from..][1..] == nodes[from + 1..];
    if nodes[from].state == R.CONNECTED {
      NoneAlive(nodes, from + 1);
    } else {
      OneAlive(nodes, from + 1);
    }
  }

  lemma {:induction false} NoneAlive(nodes: seq<R.Node<Bytes>>, from: nat)
    requires from <= |nodes| && R.CountAlive(nodes[from..]) == 0
    ensures forall i :: from <= i < |nodes| ==> nodes[i].state != R.CONNECTED
    decreases |nodes| - from
  {
    if from < |nodes| {
      assert nodes[from..][1..] == nodes[from + 1..];
      NoneAlive(nodes, from + 1);
    }
  }

  lemma StaysDisconnected(c: Servers, e: R.Event<Bytes>)
    requires NoneConnected(c) && R.Enabled(c, e) && !e.DonorReturned? && !e.Finished?
    ensures NoneConnected(R.Apply(c, e))
  {
    match e
    case Returned(i, _, _, _) =>
      var nodes := R.SetState(c.nodes, i, R.RECONNECT);
      R.AliveWhenCounted(nodes, 0);
      assert nodes[0..] == nodes;
    case _ =>
  }

  // ----- a loss -----

  function Small(): Geometry {
    Geometry(1, 1, 2, 1, 1, 1)
  }

  function BankPair(x: bv8, y: bv8): seq<Bytes> {
    [[x], [y]]
  }

  function Fresh(): Servers {
    R.Cluster([R.Node(R.CONNECTED, BankPair(0, 0), [], 0), R.Node(R.CONNECTED, BankPair(0, 0), [], 0)], map[], R.Idle)
  }

  /** Banks 0 and 1 hold 5 and 8 on the one server left */
  function Before(): Servers {
    R.Write(R.Write(Fresh(), 0, [5], [true, false]), 1, [8], [true, true])
  }

  /** The other server returns */
  function Recovering(): Servers {
    R.Start(Before(), 1, BankPair(0, 0), true, [])
  }

  lemma WritePair(c: Servers, b: nat, v: Bytes, up: seq<bool>)
    requires R.Shaped(c) && |c.nodes| == |up| == 2 && b < R.Banks(c)
    ensures R.Write(c, b, v, up).nodes
         == [R.WriteNode(c.nodes[0], b, v, up[0]), R.WriteNode(c.nodes[1], b, v, up[1])]
  {
  }

  lemma BeforeIs()
    ensures Before().nodes == [R.Node(R.CONNECTED, BankPair(5, 8), [], 0), R.Node(R.DISCONNECT, BankPair(0, 0), [], 0)]
    ensures Before().latest == map[0 := [5], 1 := [8]] && Before().phase == R.Idle && R.Inv(Before())
  {
    var c := R.Write(Fresh(), 0, [5], [true, false]);
    R.WriteKeeps(Fresh(), 0, [5], [true, false]);
    WritePair(Fresh(), 0, [5], [true, false]);
    assert BankPair(0, 0)[0 := [5]] == BankPair(5, 0);
    assert c.nodes == [R.Node(R.CONNECTED, BankPair(5, 0), [], 0), R.Node(R.DISCONNECT, BankPair(0, 0), [], 0)];
    hide R.Inv;
    R.WriteKeeps(c, 1, [8], [true, true]);
    WritePair(c, 1, [8], [true, true]);
    assert BankPair(5, 0)[1 := [8]] == BankPair(5, 8);
  }

  lemma RecoveringIs()
    ensures Recovering().nodes
         == [R.Node(R.RECOVERING, BankPair(5, 8), [], 0), R.Node(R.RECONNECT, BankPair(0, 0), [], 0)]
    ensures Recovering().latest == map[0 := [5], 1 := [8]]
    ensures Fitting(Small(), Recovering()) && R.FullInv(Recovering())
  {
    BeforeIs();
    var c := Before();
    hide Before, R.Inv;
    R.StartKeeps(c, 1, BankPair(0, 0), true, []);
    var nodes := R.SetState(c.nodes, 1, R.RECONNECT);
    assert nodes[0..] == nodes && nodes[1..][1..] == [];
    assert R.CountAlive(nodes[1..]) == 0;
    R.AliveWhenCounted(nodes, 0);
  }

  /** The calls of an eviction of bank 0, with byte 6 written to it, for bank 1 */
  function Calls(): Remote {
    var c := Recovering();
    Remote(c, [true, true], R.Write(c, 0, [6], [true, true]), 0, [true, true])
  }

  function Evicted(): Traffic {
    Traffic(Some(Back(0, [6])), Some(1))
  }

  lemma CallsAre()
    ensures Asked(Small(), Calls())
    ensures Calls().before.nodes
         == [R.Node(R.RECOVERING, BankPair(5, 8), [], 0), R.Node(R.RECONNECT, BankPair(0, 0), [], 0)]
    ensures Calls().after.nodes
         == [R.Node(R.RECOVERING, BankPair(5, 8), [0], 0), R.Node(R.RECONNECT, BankPair(0, 0), [], 0)]
    ensures Calls().before.latest == map[0 := [5], 1 := [8]] && Calls().after.latest == map[0 := [6], 1 := [8]]
  {
    RecoveringIs();
    var c := Recovering();
    WriteBackHeld(Small(), c, 0, [6], [true, true]);
    WritePair(c, 0, [6], [true, true]);
    assert c.nodes[0].queue + [0] == [0];
    hide R.Inv, R.FullInv, Recovering, R.Write, BankPair;
  }

  /** Nobody stores the write-back, and nobody may be asked by the read */
  lemma CallsFail()
    ensures Asked(Small(), Calls()) && OutcomeOf(Small(), Calls(), Evicted()) == Outcome(false, Nothing)
  {
    CallsAre();
    var m := Calls();
    hide Calls, BankPair, R.Inv;
    assert m.upRead == m.upWrite == [true, true] && m.pick == 0 by {
      CallsAnswer();
    }
    C.FirstAnsweringIs(m.after.nodes, m.upRead, 0, 2);
  }

  lemma CallsAnswer()
    ensures Calls().upRead == Calls().upWrite == [true, true] && Calls().pick == 0
  {
  }

  /** During a recovery from one survivor, with both servers answering, a read of
      bank 1 through the cache returns the byte of bank 0 that it evicts, and
      neither that byte nor the one asked for is left */
  lemma MissDuringRecovery()
    ensures Asked(Small(), Calls())
    ensures var net := [OutcomeOf(Small(), Calls(), Evicted())];
            var s := Store([Line(0, 0, [6], true)], Calls().before.latest, net, []);
            && StoreOk(Small(), s) && Under(Small(), s, 1, Calls())
            && Has(Small(), s, 0, 0, 6) && Has(Small(), s, 1, 0, 8)
            && var (s', r) := Access(Small(), s, 1, [0], 0, Read, Read);
               r == [6] && !Has(Small(), s', 0, 0, 6) && !Has(Small(), s', 1, 0, 8)
  {
    CallsAre();
    CallsFail();
    hide Calls, OutcomeOf, Asked;
    var s := Store([Line(0, 0, [6], true)], map[0 := [5], 1 := [8]], [Outcome(false, Nothing)], []);
    DivideUnique(0, 0, 0, 1);
    DivideUnique(1, 1, 0, 1);
    assert StoreOk(Small(), s);
    var s' := Expel(Small(), s, 1);
    assert s'.lines == [Line(1, 1, [6], false)] && s'.remote == s.remote;
  }
}
