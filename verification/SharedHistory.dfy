/** Whole runs of the file system over its servers: calls on paths, whose remote
    calls the servers answer, among the steps of recoveries and failures. */
module SharedHistory {
  import opened Basics
  import opened FileIndex
  import opened BankCache
  import F = FileSpec
  import P = FileProofs
  import T = FileTheorems
  import H = FileHistory
  import N = FileTraffic
  import R = Replication
  import FileRuns
  import opened TreeSpec
  import opened SystemSpec
  import opened SystemHistory
  import opened RemoteStore

  // ----- a call and its remote calls -----

  function NetOf(c: Call): seq<Outcome> {
    match c
    case WriteTo(_, _, _, net) => net
    case ReadOf(_, _, _, net) => net
    case Flush(_, net) => net
    case _ => []
  }

  /** The call with remote calls that all come out well */
  function Bare(c: Call): Call {
    match c
    case WriteTo(q, o, data, _) => WriteTo(q, o, data, [])
    case ReadOf(q, o, n, _) => ReadOf(q, o, n, [])
    case Flush(k, _) => Flush(k, [])
    case _ => c
  }

  /** What callers keep to, whatever the network does */
  ghost predicate Duties(g: Geometry, again: Visit, y: System, w: Shape, c: Call)
    requires SystemOk(g, y, w)
  {
    Legal(g, again, y, w, Bare(c))
  }

  lemma NoOutcomes(g: Geometry)
    ensures NetOk(g, []) && AllWell([])
  {
  }

  lemma PlansAlike(g: Geometry, fs: F.Fs, i: nat, o: nat, n: nat, a: seq<Outcome>, b: seq<Outcome>)
    requires F.FsOk(g, fs) && NetOk(g, a) && NetOk(g, b) && i in fs.inodes && i !in fs.slab
    ensures F.FsOk(g, F.Faced(fs, a)) && F.FsOk(g, F.Faced(fs, b))
    ensures T.Plan(g, F.Faced(fs, a), i, o, n) == T.Plan(g, F.Faced(fs, b), i, o, n)
  {
    F.FacedOk(g, fs, a);
    F.FacedOk(g, fs, b);
    hide F.FsOk, T.Plan;
    T.PlanSame(g, F.Faced(fs, a), F.Faced(fs, b), i, o, n);
  }

  lemma ResidentAlike(g: Geometry, s: Store, a: seq<Outcome>, b: seq<Outcome>, banks: seq<nat>)
    requires StoreOk(g, s) && NetOk(g, b) && T.AllResident(g, Facing(s, a), banks)
    ensures T.AllResident(g, Facing(s, b), banks)
  {
  }

  /** A write that meets its duties gets through */
  lemma WriteReady(g: Geometry, again: Visit, y: System, w: Shape, q: Path, o: nat, data: Bytes, net: seq<Outcome>)
    requires MayWrite(g, again, y, w, q, o, data, []) && NetOk(g, net)
    ensures var i := InoAt(y, q);
            && F.FsOk(g, y.fs) && F.FsOk(g, F.Faced(y.fs, net)) && i in y.fs.inodes && i !in y.fs.slab
            && F.WriteLoop(g, F.Faced(y.fs, net), i, o, data, again).Some?
            && (AllWell(net) ==> MayWrite(g, again, y, w, q, o, data, net))
  {
    var i := InoAt(y, q);
    NoOutcomes(g);
    hide TreeOk, F.Owned, F.Sized, F.SlabOk, F.WriteLoop, T.Plan, T.AllResident, P.NoHoles, P.BytesAre, WalkFrom,
      StoreOk;
    H.HoldsOk(g, y.fs, y.files);
    PlansAlike(g, y.fs, i, o, |data|, [], net);
    T.RunsIffPlanned(g, F.Faced(y.fs, net), i, o, data, again);
    if AllWell(net) && again != Write {
      ResidentAlike(g, y.fs.store, [], net, T.Plan(g, F.Faced(y.fs, []), i, o, |data|).value);
    }
  }

  lemma ReadReady(g: Geometry, again: Visit, y: System, w: Shape, c: Call)
    requires SystemOk(g, y, w) && c.ReadOf? && Duties(g, again, y, w, c) && NetOk(g, c.net)
    ensures F.FsOk(g, F.Faced(y.fs, c.net)) && InoAt(y, c.path) in y.fs.inodes
  {
    hide SystemOk, F.FsOk;
    FileOpen(g, y, w, InoAt(y, c.path));
    F.FacedOk(g, y.fs, c.net);
  }

  /** The file layer after the call, however its remote calls come out */
  ghost function FsAfter(g: Geometry, again: Visit, y: System, w: Shape, c: Call): F.Fs
    requires SystemOk(g, y, w) && Duties(g, again, y, w, c) && NetOk(g, NetOf(c))
  {
    match c
    case WriteTo(q, o, data, net) =>
      WriteReady(g, again, y, w, q, o, data, net);
      F.WriteLoop(g, F.Faced(y.fs, net), InoAt(y, q), o, data, again).value
    case ReadOf(q, o, n, net) =>
      ReadReady(g, again, y, w, c);
      F.ReadLoop(g, F.Faced(y.fs, net), InoAt(y, q), o, n).0
    case Flush(k, net) =>
      StoreReady(g, y, w);
      y.fs.(store := FlushLine(g, Facing(y.fs.store, net), k))
    case _ => F.Faced(y.fs, [])
  }

  /** What the call asks of the servers, in order */
  ghost function Asks(g: Geometry, again: Visit, y: System, w: Shape, c: Call): seq<Traffic>
    requires SystemOk(g, y, w) && Duties(g, again, y, w, c) && NetOk(g, NetOf(c))
  {
    FsAfter(g, again, y, w, c).store.log
  }

  lemma CallRan(g: Geometry, again: Visit, y: System, w: Shape, c: Call)
    requires SystemOk(g, y, w) && Duties(g, again, y, w, c) && NetOk(g, NetOf(c))
    ensures Ran(Facing(y.fs.store, NetOf(c)), FsAfter(g, again, y, w, c).store)
  {
    hide SystemOk, F.FsOk, F.WriteLoop, F.ReadLoop, Ran, StoreOk, NetOk;
    match c
    case WriteTo(q, o, data, net) =>
      WriteReady(g, again, y, w, q, o, data, net);
      N.WriteRan(g, F.Faced(y.fs, net), InoAt(y, q), o, data, again);
    case ReadOf(q, o, n, net) =>
      ReadReady(g, again, y, w, c);
      N.ReadRan(g, F.Faced(y.fs, net), InoAt(y, q), o, n);
    case Flush(k, net) =>
      StoreReady(g, y, w);
      FacingOk(g, y.fs.store, net);
      FlushRan(g, Facing(y.fs.store, net), k);
    case _ =>
      RanNothing(Facing(y.fs.store, []), Facing(y.fs.store, []));
  }

  lemma FacingOk(g: Geometry, s: Store, net: seq<Outcome>)
    requires StoreOk(g, s) && NetOk(g, net)
    ensures StoreOk(g, Facing(s, net))
  {
  }

  /** If its remote calls come out well the call is legal, and leaves this file layer */
  lemma WellIsLegal(g: Geometry, again: Visit, y: System, w: Shape, c: Call)
    requires SystemOk(g, y, w) && Duties(g, again, y, w, c) && NetOk(g, NetOf(c)) && AllWell(NetOf(c))
    ensures Legal(g, again, y, w, c)
    ensures c.WriteTo? || c.ReadOf? || c.Flush? ==>
              Step(g, again, y, w, c).fs == FsAfter(g, again, y, w, c)
  {
    hide SystemOk, F.FsOk, F.WriteLoop, F.ReadLoop, NetOk, H.Legal, MayWrite;
    if c.WriteTo? {
      WriteReady(g, again, y, w, c.path, c.offset, c.data, c.net);
    }
  }

  // ----- calls that ask nothing -----

  lemma {:induction false} ResetFilesStore(g: Geometry, fs: F.Fs, l: seq<nat>)
    requires Removable(g, fs, l)
    ensures ResetFiles(g, fs, l).store == fs.store
    decreases |l|
  {
    hide F.FsOk, FileRuns.Reset;
    if l != [] {
      RemoveOne(g, fs, l);
      FileRuns.EmptiedShape(g, fs, l[0]);
      ResetStore(g, fs, l[0]);
      ResetFilesStore(g, FileRuns.Reset(g, fs, l[0]), l[1..]);
    }
  }

  lemma ResetStore(g: Geometry, fs: F.Fs, i: nat)
    requires F.FsOk(g, fs) && i in fs.inodes
    ensures FileRuns.Reset(g, fs, i).store == fs.store
  {
    FileRuns.EmptiedShape(g, fs, i);
  }

  lemma StoreAlone(g: Geometry, again: Visit, y: System, w: Shape, c: Call)
    requires SystemOk(g, y, w) && Legal(g, again, y, w, c) && (c.Make? || c.Remove? || c.Move?)
    ensures Step(g, again, y, w, c).fs.store == y.fs.store
  {
    hide TreeOk, H.Holds, Linked, Covered, F.FsOk, ResetFiles, Removable;
    match c
    case Make(q, name, dir, addr) =>
      DirFacts(g, y, w, q);
    case Remove(q, name) =>
      EntryLive(g, y, w, q, name);
      ResetFilesStore(g, y.fs, Subtree(y.d, w, y.d.nodes[InoAt(y, q)].hash[name]));
    case Move(q, name, to) =>
  }

  // ----- the two together -----

  /** The servers hold what the cache takes for stored */
  ghost predicate Together(g: Geometry, y: System, w: Shape, c: Servers) {
    SystemOk(g, y, w) && Ready(g, c) && c.latest == y.fs.store.remote
  }

  /** The call meets its duties, its remote calls are those it asks, and each finds
      connected servers */
  ghost predicate Answers(
    g: Geometry, again: Visit, y: System, w: Shape, c: Servers, call: Call, xs: seq<Exchange>, c': Servers)
    requires Together(g, y, w, c)
  {
    && Duties(g, again, y, w, call) && NetOk(g, NetOf(call))
    && Served(g, c, Asks(g, again, y, w, call), NetOf(call), xs, c')
    && AllServedWell(g, c, Asks(g, again, y, w, call), xs)
  }

  /** Such a call is legal, and leaves servers that hold what the cache then takes for
      stored */
  lemma CallTogether(
    g: Geometry, again: Visit, y: System, w: Shape, c: Servers, call: Call, xs: seq<Exchange>, c': Servers)
    requires Together(g, y, w, c) && Answers(g, again, y, w, c, call, xs, c')
    ensures AllWell(NetOf(call)) && Legal(g, again, y, w, call)
    ensures Together(g, Step(g, again, y, w, call), NextShape(y, w, call), c')
  {
    hide SystemOk, Duties, Legal, Step, Served, AllServedWell, Ready, NextShape, FsAfter, NetOk, Bare;
    ServedKeeps(g, c, Asks(g, again, y, w, call), NetOf(call), xs, c');
    WellIsLegal(g, again, y, w, call);
    StepOk(g, again, y, w, call);
    CallRan(g, again, y, w, call);
    var s := Facing(y.fs.store, NetOf(call));
    assert FsAfter(g, again, y, w, call).store.log[|s.log|..] == Asks(g, again, y, w, call);
    if call.Make? || call.Remove? || call.Move? {
      StoreAlone(g, again, y, w, call);
      AsksNothing(g, again, y, w, call);
      AppliedNothing(c.latest);
    }
  }

  lemma AsksNothing(g: Geometry, again: Visit, y: System, w: Shape, c: Call)
    requires SystemOk(g, y, w) && Duties(g, again, y, w, c) && NetOk(g, NetOf(c))
    requires c.Make? || c.Remove? || c.Move?
    ensures Asks(g, again, y, w, c) == []
  {
  }

  // ----- whole runs -----

  /** A call with the exchanges that serve it, or a step of the servers apart from it:
      of a recovery, or a read that fails */
  datatype Event =
    | Called(call: Call, exchanges: seq<Exchange>)
    | Elsewhere(event: R.Event<Bytes>)

  ghost predicate StepTogether(g: Geometry, again: Visit, y: System, w: Shape, c: Servers, e: Event,
                               y': System, w': Shape, c': Servers)
    requires Together(g, y, w, c)
  {
    match e
    case Called(call, xs) =>
      && Answers(g, again, y, w, c, call, xs, c')
      && (CallTogether(g, again, y, w, c, call, xs, c'); y' == Step(g, again, y, w, call))
      && w' == NextShape(y, w, call)
    case Elsewhere(ev) => Allowed(g, c, ev) && !ev.Written? && y' == y && w' == w && c' == R.Apply(c, ev)
  }

  ghost predicate RunStepTogether(g: Geometry, again: Visit, y: System, w: Shape, c: Servers, e: Event,
                                  y': System, w': Shape, c': Servers)
  {
    Together(g, y, w, c) ==> StepTogether(g, again, y, w, c, e, y', w', c')
  }

  ghost predicate RunTogether(g: Geometry, again: Visit, states: seq<System>, shapes: seq<Shape>,
                              servers: seq<Servers>, events: seq<Event>)
  {
    && |states| == |shapes| == |servers| == |events| + 1
    && Together(g, states[0], shapes[0], servers[0])
    && forall n :: 0 <= n < |events| ==>
         RunStepTogether(g, again, states[n], shapes[n], servers[n], events[n],
                         states[n + 1], shapes[n + 1], servers[n + 1])
  }

  function Means(m: Contents, e: Event): Contents {
    if e.Called? then Effect(m, e.call) else m
  }

  function AfterAll(m: Contents, events: seq<Event>, n: nat): Contents
    requires n <= |events|
  {
    if n == 0 then m else Means(AfterAll(m, events, n - 1), events[n - 1])
  }

  lemma KeptTogether(g: Geometry, again: Visit, y: System, w: Shape, c: Servers, e: Event,
                     y': System, w': Shape, c': Servers, m: Contents)
    requires Together(g, y, w, c) && Abs(y, m) && StepTogether(g, again, y, w, c, e, y', w', c')
    ensures Together(g, y', w', c') && Abs(y', Means(m, e))
  {
    hide SystemOk, Ready, Answers, Step, Abs, Effect, NextShape, Allowed, R.Apply;
    match e
    case Called(call, xs) =>
      CallTogether(g, again, y, w, c, call, xs, c');
      StepAbs(g, again, y, w, call, m);
    case Elsewhere(ev) =>
      AllowedEnabled(g, c, ev);
      StepKeeps(g, c, ev);
  }

  /** The file system over its servers is a map from paths to bytes: in any run of
      calls among failures and careful recoveries, in which every remote call
      that a call makes finds connected servers, every path has the contents the
      map gives it, the servers hold what the cache takes for stored, and every
      read returns the bytes of its time */
  lemma {:induction false} RunRefinesTogether(
    g: Geometry, again: Visit, states: seq<System>, shapes: seq<Shape>, servers: seq<Servers>, events: seq<Event>,
    m: Contents, n: nat)
    requires RunTogether(g, again, states, shapes, servers, events) && Abs(states[0], m) && n < |states|
    ensures Together(g, states[n], shapes[n], servers[n]) && Abs(states[n], AfterAll(m, events, n))
    ensures n < |events| && events[n].Called? && events[n].call.ReadOf? ==>
              ReadsRight(g, states[n], events[n].call, AfterAll(m, events, n))
    decreases n
  {
    hide Together, StepTogether, Abs, Means;
    if n > 0 {
      RunRefinesTogether(g, again, states, shapes, servers, events, m, n - 1);
      assert RunStepTogether(g, again, states[n - 1], shapes[n - 1], servers[n - 1], events[n - 1],
                             states[n - 1 + 1], shapes[n - 1 + 1], servers[n - 1 + 1]);
      KeptTogether(g, again, states[n - 1], shapes[n - 1], servers[n - 1], events[n - 1],
                   states[n], shapes[n], servers[n], AfterAll(m, events, n - 1));
    }
    if n < |events| && events[n].Called? && events[n].call.ReadOf? {
      assert RunStepTogether(g, again, states[n], shapes[n], servers[n], events[n],
                             states[n + 1], shapes[n + 1], servers[n + 1]);
      ReadTogether(g, again, states[n], shapes[n], servers[n], events[n], states[n + 1], shapes[n + 1],
                   servers[n + 1], AfterAll(m, events, n));
    }
  }

  /** The read returns what the map has at the path */
  ghost predicate ReadsRight(g: Geometry, y: System, c: Call, m: Contents)
    requires c.ReadOf?
  {
    && F.FsOk(g, y.fs) && NetOk(g, c.net) && InoAt(y, c.path) in y.fs.inodes
    && c.path in m && c.offset <= |m[c.path]|
    && Returned(g, y, c) == Some(m[c.path][c.offset..F.Smaller(c.offset + c.count, |m[c.path]|)])
  }

  lemma ReadTogether(g: Geometry, again: Visit, y: System, w: Shape, c: Servers, e: Event,
                     y': System, w': Shape, c': Servers, m: Contents)
    requires Together(g, y, w, c) && Abs(y, m) && StepTogether(g, again, y, w, c, e, y', w', c')
    requires e.Called? && e.call.ReadOf?
    ensures ReadsRight(g, y, e.call, m)
  {
    hide SystemOk, Ready, Answers, Step, Abs, NextShape, Legal, Returned;
    CallTogether(g, again, y, w, c, e.call, e.exchanges, c');
    ReadReturns(g, again, y, w, e.call, m);
  }

  // ----- the start -----

  /** n connected servers with banks of zeros */
  function FreshServers(g: Geometry, n: nat): Servers {
    var zeros: Bytes := seq(g.Bank(), _ => 0);
    R.Cluster(seq(n, _ => R.Node(R.CONNECTED, seq(g.banks, _ => zeros), [], 0)), map[], R.Idle)
  }

  lemma InitialTogether(g: Geometry, slab: nat, n: nat)
    requires g.Ok() && n > 0
    ensures Together(g, InitialSystem(g, slab), Shape(map[], map[slab := 0]), FreshServers(g, n))
    ensures Abs(InitialSystem(g, slab), map[])
  {
    InitialOk(g, slab);
    var c := FreshServers(g, n);
    assert R.Shaped(c) && R.Safe(c);
    hide SystemOk, Abs;
  }
}
