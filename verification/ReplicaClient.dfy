/** The client's remote store as it runs: bank writes to all servers, bank reads
    from one of them, and the recovery thread, which other threads may interrupt
    between any two of its steps. */
module ReplicaClient {
  import opened Basics
  import opened Replication
  import opened ReplicationSteps

  // ----- what a read returns -----

  /** The first connected server that answers, or the number of servers */
  function FirstAnswering<V>(nodes: seq<Node<V>>, up: seq<bool>, from: nat): (i: nat)
    requires |up| == |nodes| && from <= |nodes|
    ensures from <= i <= |nodes|
    ensures i < |nodes| ==> nodes[i].state == CONNECTED && up[i]
    ensures forall k :: from <= k < i ==> !(nodes[k].state == CONNECTED && up[k])
    decreases |nodes| - from
  {
    if from == |nodes| || (nodes[from].state == CONNECTED && up[from]) then from
    else FirstAnswering(nodes, up, from + 1)
  }

  /** The server a read ends at: the picked one if it may be asked and answers,
      else the first connected one that answers */
  function Reader<V>(nodes: seq<Node<V>>, pick: nat, up: seq<bool>): nat
    requires |up| == |nodes| && pick < |nodes|
  {
    if nodes[pick].state != RECONNECT && nodes[pick].state != RECOVERING && up[pick] then pick
    else FirstAnswering(nodes, up, 0)
  }

  /** Does the read ask server k and get no answer? The picked one, if it may be asked
      and is silent; and if it did not answer, each silent connected server before
      the one that does */
  predicate AskedInVain<V>(nodes: seq<Node<V>>, pick: nat, up: seq<bool>, k: nat)
    requires |up| == |nodes| && pick < |nodes| && k < |nodes|
  {
    var mayAsk := nodes[pick].state != RECONNECT && nodes[pick].state != RECOVERING;
    && !up[k]
    && ((k == pick && mayAsk)
        || (!(mayAsk && up[pick]) && nodes[k].state == CONNECTED && k < FirstAnswering(nodes, up, 0)))
  }

  /** The servers after the read: exactly those are marked down */
  function AfterRead<V>(nodes: seq<Node<V>>, pick: nat, up: seq<bool>): seq<Node<V>>
    requires |up| == |nodes| && pick < |nodes|
  {
    seq(|nodes|, k requires 0 <= k < |nodes| =>
      if AskedInVain(nodes, pick, up, k) then nodes[k].(state := DISCONNECT) else nodes[k])
  }

  lemma FirstAnsweringIs<V>(nodes: seq<Node<V>>, up: seq<bool>, from: nat, i: nat)
    requires |up| == |nodes| && from <= i <= |nodes|
    requires i < |nodes| ==> nodes[i].state == CONNECTED && up[i]
    requires forall k :: from <= k < i ==> !(nodes[k].state == CONNECTED && up[k])
    ensures FirstAnswering(nodes, up, from) == i
  {
    var j := FirstAnswering(nodes, up, from);
    assert j <= i;
  }

  /** A read that ends at a connected server returns the latest value of a written
      bank, and a read gets nothing exactly when nobody that may be asked answers */
  lemma ReadLatest<V>(c: Cluster<V>, b: nat, pick: nat, up: seq<bool>)
    requires Inv(c) && b in c.latest && |up| == |c.nodes| && pick < |c.nodes|
    ensures var r := Reader(c.nodes, pick, up);
            && (r < |c.nodes| && !(c.nodes[pick].state == DISCONNECT && up[pick]) ==>
                  c.nodes[r].banks[b] == c.latest[b])
            && (r == |c.nodes| <==>
                  !(c.nodes[pick].state == DISCONNECT && up[pick])
                  && forall i :: 0 <= i < |c.nodes| && c.nodes[i].state == CONNECTED ==> !up[i])
  {
    var r := Reader(c.nodes, pick, up);
    if r < |c.nodes| && c.nodes[r].state == CONNECTED {
      assert Current(c, r, b);
    }
  }

  /** The same with only the servers below n looked at */
  function MarkedBelow<V>(nodes: seq<Node<V>>, pick: nat, up: seq<bool>, n: nat): seq<Node<V>>
    requires |up| == |nodes| && pick < |nodes|
  {
    seq(|nodes|, k requires 0 <= k < |nodes| =>
      if k < n && AskedInVain(nodes, pick, up, k) then nodes[k].(state := DISCONNECT) else nodes[k])
  }

  lemma MarkNext<V>(c: Cluster<V>, pick: nat, up: seq<bool>, n: nat)
    requires Shaped(c) && InRange(c) && |up| == |c.nodes| && pick < |c.nodes| && n < |c.nodes|
    ensures var m := c.(nodes := MarkedBelow(c.nodes, pick, up, n));
            var m' := c.(nodes := MarkedBelow(c.nodes, pick, up, n + 1));
            if AskedInVain(c.nodes, pick, up, n) then Enabled(m, ReadFailed(n)) && Apply(m, ReadFailed(n)) == m'
            else m' == m
  {
    var m := c.(nodes := MarkedBelow(c.nodes, pick, up, n));
    var now := MarkedBelow(c.nodes, pick, up, n + 1);
    if AskedInVain(c.nodes, pick, up, n) {
      assert FailRead(m, n).nodes == now;
    } else {
      assert now == m.nodes;
    }
  }

  /** What a read marks are failed reads of the protocol, of the servers asked in vain */
  lemma {:induction false} ReadAsEvents<V>(c: Cluster<V>, pick: nat, up: seq<bool>, n: nat) returns (es: seq<Event<V>>)
    requires Shaped(c) && InRange(c) && |up| == |c.nodes| && pick < |c.nodes| && n <= |c.nodes|
    ensures Leads(c, es, c.(nodes := MarkedBelow(c.nodes, pick, up, n)))
    ensures n == |c.nodes| ==> MarkedBelow(c.nodes, pick, up, n) == AfterRead(c.nodes, pick, up)
    ensures forall k :: 0 <= k < |es| ==>
              es[k].ReadFailed? && es[k].server < |c.nodes| && AskedInVain(c.nodes, pick, up, es[k].server)
  {
    if n == 0 {
      es := [];
      assert MarkedBelow(c.nodes, pick, up, 0) == c.nodes;
    } else {
      hide Leads, AskedInVain, Apply, Enabled;
      es := ReadAsEvents(c, pick, up, n - 1);
      MarkNext(c, pick, up, n - 1);
      var m := c.(nodes := MarkedBelow(c.nodes, pick, up, n - 1));
      if AskedInVain(c.nodes, pick, up, n - 1) {
        LeadsTo(c, es, m, ReadFailed(n - 1));
        es := es + [ReadFailed(n - 1)];
      }
    }
  }

  /** What a read gets, if anything */
  function ReadValue<V>(nodes: seq<Node<V>>, b: nat, pick: nat, up: seq<bool>): Option<V>
    requires |up| == |nodes| && pick < |nodes| && forall i :: 0 <= i < |nodes| ==> b < |nodes[i].banks|
  {
    var r := Reader(nodes, pick, up);
    if r < |nodes| then Some(nodes[r].banks[b]) else None
  }

  /** The read ends at a server marked CONNECTED */
  predicate EndsConnected<V>(nodes: seq<Node<V>>, pick: nat, up: seq<bool>)
    requires |up| == |nodes| && pick < |nodes|
  {
    Reader(nodes, pick, up) < |nodes| && !(nodes[pick].state == DISCONNECT && up[pick])
  }

  /** The servers with another value for the bank at the picked one, where it is
      down: the protocol promises nothing of what such a server holds */
  function DownHolding<V>(nodes: seq<Node<V>>, b: nat, pick: nat, x: V): seq<Node<V>>
    requires pick < |nodes| && b < |nodes[pick].banks|
  {
    if nodes[pick].state == DISCONNECT then StoreBank(nodes, pick, b, x) else nodes
  }

  lemma ReaderByState<V>(a: seq<Node<V>>, b: seq<Node<V>>, i: nat, up: seq<bool>)
    requires |a| == |b| == |up| && i < |a| && forall k :: 0 <= k < |a| ==> a[k].state == b[k].state
    ensures Reader(a, i, up) == Reader(b, i, up)
  {
    AnsweringByState(a, b, up, 0);
  }

  lemma {:induction false} AnsweringByState<V>(a: seq<Node<V>>, b: seq<Node<V>>, up: seq<bool>, from: nat)
    requires |a| == |b| == |up| && from <= |a| && forall k :: 0 <= k < |a| ==> a[k].state == b[k].state
    ensures FirstAnswering(a, up, from) == FirstAnswering(b, up, from)
    decreases |a| - from
  {
    if from < |a| {
      AnsweringByState(a, b, up, from + 1);
    }
  }

  /** The exact condition: a read of a written bank returns the latest value,
      whatever a picked server that is down may hold, exactly when it ends at a
      connected server. w is any other value. */
  lemma ReadLatestIff<V(!new)>(c: Cluster<V>, b: nat, pick: nat, up: seq<bool>, w: V)
    requires Inv(c) && b in c.latest && |up| == |c.nodes| && pick < |c.nodes| && w != c.latest[b]
    ensures b < Banks(c)
    ensures (forall x: V :: ReadValue(DownHolding(c.nodes, b, pick, x), b, pick, up) == Some(c.latest[b]))
       <==> EndsConnected(c.nodes, pick, up)
    ensures EndsConnected(c.nodes, pick, up) ==> ReadValue(c.nodes, b, pick, up) == Some(c.latest[b])
  {
    ReadLatest(c, b, pick, up);
    forall x: V ensures Reader(DownHolding(c.nodes, b, pick, x), pick, up) == Reader(c.nodes, pick, up) {
      ReaderByState(DownHolding(c.nodes, b, pick, x), c.nodes, pick, up);
    }
    if EndsConnected(c.nodes, pick, up) {
      forall x: V ensures ReadValue(DownHolding(c.nodes, b, pick, x), b, pick, up) == Some(c.latest[b]) {
        assert Reader(c.nodes, pick, up) != pick || c.nodes[pick].state != DISCONNECT;
      }
    } else {
      assert ReadValue(DownHolding(c.nodes, b, pick, w), b, pick, up) != Some(c.latest[b]);
    }
  }

  /** A server that missed a write and answers again before its recovery starts
      serves the old value */
  lemma StaleReader()
    ensures var c := Write(Write(TwoServers(), 0, 5, [true, true]), 0, 9, [true, false]);
            Reader(c.nodes, 1, [true, true]) == 1 && c.nodes[1].banks[0] == 5 && c.latest[0] == 9
  {
  }

  // ----- the client -----

  /** What other threads do before a step of the recovery, and how the step's own
      remote calls come out */
  datatype Tick<V> = Tick(others: seq<Event<V>>, outcome: Outcome, junk: V)

  datatype Result = AlreadyRunning | NoDonor | Aborted | Crashed | Recovered

  predicate IsOther<V>(e: Event<V>, servers: nat, banks: nat) {
    match e
    case Written(b, _, up) => b < banks && |up| == servers
    case ReadFailed(i) => i < servers
    case _ => false
  }

  predicate Interleaving<V>(env: seq<Tick<V>>, servers: nat, banks: nat) {
    forall t, k :: 0 <= t < |env| && 0 <= k < |env[t].others| ==> IsOther(env[t].others[k], servers, banks)
  }

  predicate AllOther<V>(events: seq<Event<V>>, servers: nat, banks: nat) {
    forall k :: 0 <= k < |events| ==> IsOther(events[k], servers, banks)
  }

  predicate NoneWritten<V>(events: seq<Event<V>>) {
    forall k :: 0 <= k < |events| ==> !events[k].Written?
  }

  predicate NoWrites<V>(env: seq<Tick<V>>) {
    forall t, k :: 0 <= t < |env| && 0 <= k < |env[t].others| ==> !env[t].others[k].Written?
  }

  /** Every remote call of the recovery itself comes out well */
  predicate NoFailures<V>(env: seq<Tick<V>>) {
    forall t :: 0 <= t < |env| ==> env[t].outcome == Done
  }

  /** What the copy loop makes of a failure it cannot have */
  function CopyOutcome(o: Outcome): Outcome {
    if o == ThirdDown then Done else o
  }

  /** What other threads do before a round of the recovery's loops, and how the
      round's own remote calls come out */
  function Theirs<V>(env: seq<Tick<V>>, k: nat): seq<Event<V>> {
    if k < |env| then env[k].others else []
  }

  function OutcomeAt<V>(env: seq<Tick<V>>, k: nat): Outcome {
    if k < |env| then env[k].outcome else Done
  }

  /** Rounds of the recovery's loops, the first of them its from-th, each after what
      other threads do before it */
  function Rounds<V>(env: seq<Tick<V>>, own: seq<Event<V>>, from: nat): seq<Event<V>> {
    if own == [] then []
    else
      var n := |own| - 1;
      Rounds(env, own[..n], from) + (Theirs(env, from + n) + [own[n]])
  }

  /** The reconnections, each after what other threads do before it */
  function Closes<V>(first: seq<Event<V>>, second: seq<Event<V>>): seq<Event<V>> {
    first + [DonorReturned] + second + [Finished]
  }

  /** A recovery from the end of its copy, with a third server alive: it ends in or
      after the rounds of its replay loop, or goes on to the end */
  function AfterCopy<V>(r: Result, env: seq<Tick<V>>, replays: seq<Event<V>>, from: nat,
                        zeroth: seq<Event<V>>, first: seq<Event<V>>, second: seq<Event<V>>): seq<Event<V>> {
    [CopyEnded] + Rounds(env, replays, from)
    + match r
      case Recovered => [ReplayEnded] + zeroth + [QueueFreed] + Closes(first, second)
      case Crashed => Theirs(env, from + |replays|)
      case _ => []
  }

  /** A whole recovery: the rounds of its copy loop, and with a third server alive
      those of its replay loop, unless it ends before */
  function RunOf<V>(r: Result, alone: bool, start: Event<V>, env: seq<Tick<V>>, copies: seq<Event<V>>,
                    replays: seq<Event<V>>, zeroth: seq<Event<V>>, first: seq<Event<V>>, second: seq<Event<V>>)
    : seq<Event<V>>
  {
    if r == AlreadyRunning then []
    else if r == NoDonor then [start]
    else
      [start] + Rounds(env, copies, 0)
      + if r == Recovered && alone then [CopyEnded] + Closes(first, second)
        else if r == Aborted && replays == [] then []
        else AfterCopy(r, env, replays, |copies|, zeroth, first, second)
  }

  lemma AfterCopyIs<V>(b: Cluster<V>, c: Cluster<V>, r: Result, env: seq<Tick<V>>, replays: seq<Event<V>>, from: nat,
                       zeroth: seq<Event<V>>, first: seq<Event<V>>, second: seq<Event<V>>, c': Cluster<V>)
    requires Leads(b, [] + [CopyEnded], c) && r != AlreadyRunning && r != NoDonor
    requires r == Recovered ==>
               Leads(c, Rounds(env, replays, from) + [] + [ReplayEnded]
                        + (zeroth + [QueueFreed] + Closes(first, second)), c')
    requires r != Recovered ==>
               Leads(c, Rounds(env, replays, from)
                        + (if r == Crashed then Theirs(env, from + |replays|) else []), c')
    ensures Leads(b, AfterCopy(r, env, replays, from, zeroth, first, second), c')
  {
    hide Leads, Rounds, Closes, Theirs;
    var rounds := Rounds(env, replays, from);
    if r == Recovered {
      var rest := zeroth + [QueueFreed] + Closes(first, second);
      LeadsOn(b, [] + [CopyEnded], c, rounds + [] + [ReplayEnded] + rest, c');
      assert [] + [CopyEnded] + (rounds + [] + [ReplayEnded] + rest)
          == [CopyEnded] + rounds + ([ReplayEnded] + zeroth + [QueueFreed] + Closes(first, second));
    } else {
      var rest := if r == Crashed then Theirs(env, from + |replays|) else [];
      LeadsOn(b, [] + [CopyEnded], c, rounds + rest, c');
      assert [] + [CopyEnded] + (rounds + rest) == [CopyEnded] + rounds + rest;
    }
  }

  lemma RanNothing<V>(c: Cluster<V>, start: Event<V>, env: seq<Tick<V>>, zeroth: seq<Event<V>>, first: seq<Event<V>>,
                      second: seq<Event<V>>)
    ensures forall alone :: Leads(c, RunOf(AlreadyRunning, alone, start, env, [], [], zeroth, first, second), c)
    ensures forall alone :: RunOf(NoDonor, alone, start, env, [], [], zeroth, first, second) == [start]
    ensures CopiesAs(env, []) && forall k: nat :: ReplaysAs(env, [], k)
  {
  }

  /** A run that got to its copy loop, put together */
  lemma RanOn<V>(before: Cluster<V>, start: Event<V>, c: Cluster<V>, env: seq<Tick<V>>, copies: seq<Event<V>>,
                 d: Cluster<V>, r: Result, alone: bool, replays: seq<Event<V>>,
                 zeroth: seq<Event<V>>, first: seq<Event<V>>, second: seq<Event<V>>, c': Cluster<V>)
    requires Leads(before, [start], c) && RanCopies(c, env, copies, d) && r != AlreadyRunning && r != NoDonor
    requires Leads(d, if r == Recovered && alone then [CopyEnded] + Closes(first, second)
                      else if r == Aborted && replays == [] then []
                      else AfterCopy(r, env, replays, |copies|, zeroth, first, second), c')
    ensures Leads(before, RunOf(r, alone, start, env, copies, replays, zeroth, first, second), c')
    ensures CopiesAs(env, copies)
  {
    hide Leads, Rounds, Closes, AfterCopy;
    LeadsOn(before, [start], c, Rounds(env, copies, 0), d);
    LeadsOn(before, [start] + Rounds(env, copies, 0), d,
            if r == Recovered && alone then [CopyEnded] + Closes(first, second)
            else if r == Aborted && replays == [] then []
            else AfterCopy(r, env, replays, |copies|, zeroth, first, second), c');
  }

  ghost predicate CopiesAs<V>(env: seq<Tick<V>>, copies: seq<Event<V>>) {
    forall k :: 0 <= k < |copies| ==> copies[k].Copied? && copies[k].outcome == CopyOutcome(OutcomeAt(env, k))
  }

  ghost predicate ReplaysAs<V>(env: seq<Tick<V>>, replays: seq<Event<V>>, from: nat) {
    forall k :: 0 <= k < |replays| ==> replays[k] == Replayed(OutcomeAt(env, from + k))
  }

  lemma RoundsNone<V>(env: seq<Tick<V>>, from: nat)
    ensures Rounds(env, [], from) == [] && CopiesAs(env, []) && ReplaysAs(env, [], from)
  {
  }

  /** From one state to the other the rounds of the replay loop ran, and if it is to
      end there, what other threads did before the next one */
  ghost predicate RanReplays<V>(c: Cluster<V>, env: seq<Tick<V>>, replays: seq<Event<V>>, from: nat, ends: bool,
                               c': Cluster<V>)
  {
    && ReplaysAs(env, replays, from)
    && Leads(c, Rounds(env, replays, from) + (if ends then Theirs(env, from + |replays|) else []), c')
  }

  /** From one state to the other the rounds of the copy loop ran */
  ghost predicate RanCopies<V>(c: Cluster<V>, env: seq<Tick<V>>, copies: seq<Event<V>>, c': Cluster<V>) {
    CopiesAs(env, copies) && Leads(c, Rounds(env, copies, 0), c')
  }

  lemma RanNoCopies<V>(c: Cluster<V>, env: seq<Tick<V>>)
    ensures RanCopies(c, env, [], c)
  {
    assert Rounds(env, [], 0) == [];
  }

  lemma RanCopiesOn<V>(c: Cluster<V>, env: seq<Tick<V>>, copies: seq<Event<V>>, m: Cluster<V>, t: Tick<V>, b: nat,
                       c': Cluster<V>)
    requires RanCopies(c, env, copies, m)
    requires if |copies| < |env| then t == env[|copies|] else t.others == [] && t.outcome == Done
    requires Leads(m, t.others + [Copied(b, CopyOutcome(t.outcome), t.junk)], c')
    ensures RanCopies(c, env, copies + [Copied(b, CopyOutcome(t.outcome), t.junk)], c')
  {
    hide Leads, Rounds;
    RoundAdded(c, env, copies, 0, m, Copied(b, CopyOutcome(t.outcome), t.junk), c');
  }

  lemma RanNoReplays<V>(c: Cluster<V>, env: seq<Tick<V>>, from: nat)
    ensures RanReplays(c, env, [], from, false, c)
  {
    assert Rounds(env, [], from) + [] == [];
  }

  lemma RanReplaysOn<V>(c: Cluster<V>, env: seq<Tick<V>>, replays: seq<Event<V>>, from: nat, m: Cluster<V>,
                       ends: bool, c': Cluster<V>)
    requires RanReplays(c, env, replays, from, false, m)
    requires var others, e := Theirs(env, from + |replays|), Replayed(OutcomeAt(env, from + |replays|));
             Leads(m, if ends then others else others + [e], c')
    ensures var e := Replayed(OutcomeAt(env, from + |replays|));
            RanReplays(c, env, if ends then replays else replays + [e], from, ends, c')
  {
    hide Leads, Theirs, OutcomeAt, Rounds;
    var rounds := Rounds(env, replays, from);
    assert rounds + [] == rounds;
    if ends {
      LeadsOn(c, rounds, m, Theirs(env, from + |replays|), c');
    } else {
      var e := Replayed(OutcomeAt(env, from + |replays|));
      RoundAdded(c, env, replays, from, m, e, c');
      assert Rounds(env, replays + [e], from) + [] == Rounds(env, replays + [e], from);
    }
  }

  lemma TickOf<V>(env: seq<Tick<V>>, k: nat, servers: nat, banks: nat)
    requires Interleaving(env, servers, banks)
    ensures AllOther(Theirs(env, k), servers, banks)
    ensures NoFailures(env) ==> OutcomeAt(env, k) == Done
    ensures k >= |env| ==> Theirs(env, k) == []
  {
  }

  lemma RoundAdded<V>(c: Cluster<V>, env: seq<Tick<V>>, own: seq<Event<V>>, from: nat, m: Cluster<V>, e: Event<V>,
                      c': Cluster<V>)
    requires Leads(c, Rounds(env, own, from), m) && Leads(m, Theirs(env, from + |own|) + [e], c')
    ensures Leads(c, Rounds(env, own + [e], from), c')
  {
    hide Leads;
    LeadsOn(c, Rounds(env, own, from), m, Theirs(env, from + |own|) + [e], c');
    assert (own + [e])[..|own|] == own;
  }

  lemma WriteStaysShaped<V>(c: Cluster<V>, e: Event<V>)
    requires Shaped(c) && IsOther(e, |c.nodes|, Banks(c))
    ensures e.Written? ==> Shaped(Write(c, e.bank, e.value, e.up)) && Banks(Write(c, e.bank, e.value, e.up)) == Banks(c)
    ensures e.ReadFailed? ==> Shaped(FailRead(c, e.server)) && Banks(FailRead(c, e.server)) == Banks(c)
  {
  }

  lemma AliveAfterDown<V>(nodes: seq<Node<V>>, i: nat)
    requires i < |nodes| && nodes[i].state == CONNECTED
    ensures CountAlive(SetState(nodes, i, DISCONNECT)) == CountAlive(nodes) - 1
    decreases i
  {
    var nodes' := SetState(nodes, i, DISCONNECT);
    if i > 0 {
      assert nodes'[1..] == SetState(nodes[1..], i - 1, DISCONNECT);
      AliveAfterDown(nodes[1..], i - 1);
    } else {
      assert nodes'[1..] == nodes[1..];
    }
  }

  /** How many of the first n writes handed out were answered */
  function HowMany(sent: seq<bool>, up: seq<bool>, n: nat): nat
    requires n <= |sent| == |up|
  {
    if n == 0 then 0 else HowMany(sent, up, n - 1) + if sent[n - 1] && up[n - 1] then 1 else 0
  }

  lemma {:induction false} HowManyAre(sent: seq<bool>, up: seq<bool>, n: nat)
    requires n <= |sent| == |up|
    ensures HowMany(sent, up, n) == |set k | 0 <= k < n && sent[k] && up[k]|
  {
    var all := set k | 0 <= k < n && sent[k] && up[k];
    if n == 0 {
      assert all == {};
    } else {
      HowManyAre(sent, up, n - 1);
      var before := set k | 0 <= k < n - 1 && sent[k] && up[k];
      assert all == if sent[n - 1] && up[n - 1] then before + {n - 1} else before;
    }
  }

  /** The servers that store a write: connected ones that answer */
  ghost function Storing<V>(nodes: seq<Node<V>>, up: seq<bool>): set<nat>
    requires |up| == |nodes|
  {
    set k: nat | k < |nodes| && nodes[k].state == CONNECTED && up[k]
  }

  lemma StoringAre<V>(nodes: seq<Node<V>>, sent: seq<bool>, up: seq<bool>)
    requires |sent| == |up| == |nodes| && forall k :: 0 <= k < |nodes| ==> sent[k] == (nodes[k].state == CONNECTED)
    ensures HowMany(sent, up, |sent|) == |Storing(nodes, up)|
  {
    HowManyAre(sent, up, |sent|);
    assert (set k | 0 <= k < |sent| && sent[k] && up[k]) == Storing(nodes, up);
  }

  class Client<V> {
    var nodes: seq<Node<V>>
    var recoveryInUse: bool
    ghost var latest: map<nat, V>
    ghost var phase: Phase

    ghost function State(): Cluster<V>
      reads this
    {
      Cluster(nodes, latest, phase)
    }

    ghost predicate Valid()
      reads this
    {
      Inv(State()) && (recoveryInUse <==> phase != Idle)
    }

    /** find_alive_server */
    method FindAliveServer() returns (i: nat)
      ensures i == FindAlive(nodes, 0)
    {
      i := 0;
      while i < |nodes| && nodes[i].state != CONNECTED
        invariant i <= |nodes| && FindAlive(nodes, i) == FindAlive(nodes, 0)
      {
        i := i + 1;
      }
    }

    /** First pass of dhmp_fs_write_to_remote: donors queue the write, connected
        servers are noted */
    method HandOut(b: nat) returns (sent: seq<bool>)
      modifies this`nodes
      ensures |nodes| == |old(nodes)| && |sent| == |nodes|
      ensures forall k :: 0 <= k < |nodes| ==> sent[k] == (old(nodes)[k].state == CONNECTED)
      ensures forall k :: 0 <= k < |nodes| ==> nodes[k] == Queued(old(nodes)[k], b)
    {
      sent := [];
      var i := 0;
      while i < |nodes|
        invariant i <= |nodes| == |old(nodes)| && |sent| == i
        invariant forall k :: 0 <= k < i ==> sent[k] == (old(nodes)[k].state == CONNECTED)
        invariant forall k :: 0 <= k < i ==> nodes[k] == Queued(old(nodes)[k], b)
        invariant forall k :: i <= k < |nodes| ==> nodes[k] == old(nodes)[k]
      {
        var n := nodes[i];
        if n.state == DISCONNECT || n.state == RECONNECT {
          sent := sent + [false];
        } else if n.state == RECOVERING {
          nodes := nodes[i := n.(queue := n.queue + [b])];
          sent := sent + [false];
        } else {
          sent := sent + [true];
        }
        i := i + 1;
      }
    }

    /** Second pass of dhmp_fs_write_to_remote: what became of each write handed out */
    method Collect(b: nat, v: V, up: seq<bool>, sent: seq<bool>) returns (successes: nat)
      requires |up| == |sent| == |nodes| && forall k :: 0 <= k < |nodes| ==> b < |nodes[k].banks|
      modifies this`nodes
      ensures |nodes| == |old(nodes)|
      ensures forall k :: 0 <= k < |nodes| ==> nodes[k] == Stored(old(nodes)[k], b, v, up[k], sent[k])
      ensures successes == HowMany(sent, up, |sent|)
    {
      var i := 0;
      successes := 0;
      while i < |nodes|
        invariant i <= |nodes| == |old(nodes)|
        invariant forall k :: 0 <= k < i ==> nodes[k] == Stored(old(nodes)[k], b, v, up[k], sent[k])
        invariant forall k :: i <= k < |nodes| ==> nodes[k] == old(nodes)[k]
        invariant successes == HowMany(sent, up, i)
      {
        if sent[i] {
          if !up[i] {
            nodes := nodes[i := nodes[i].(state := DISCONNECT)];
          } else {
            nodes := nodes[i := nodes[i].(banks := nodes[i].banks[b := v])];
            successes := successes + 1;
          }
        }
        i := i + 1;
      }
    }

    /** dhmp_fs_write_to_remote; the answer is the number of copies stored */
    method WriteToRemote(b: nat, v: V, up: seq<bool>) returns (successes: nat)
      requires Shaped(State()) && b < Banks(State()) && |up| == |nodes|
      modifies this`nodes, this`latest, this`phase
      ensures State() == Write(old(State()), b, v, up)
      ensures old(Inv(State())) ==> Inv(State())
      ensures successes == |Storing(old(nodes), up)|
      ensures recoveryInUse <==> old(recoveryInUse)
    {
      hide Inv, Storing;
      if Inv(State()) {
        WriteKeeps(State(), b, v, up);
      }
      var sent := HandOut(b);
      successes := Collect(b, v, up, sent);
      StoringAre(old(nodes), sent, up);
      latest := latest[b := v];
      phase := Missing(phase, b);
      assert nodes == WriteNodes(old(nodes), b, v, up);
    }

    /** dhmp_fs_read_from_remote for a server picked at random; a server that does
        not answer is marked down and the next connected one is asked */
    method ReadFromRemote(b: nat, pick: nat, up: seq<bool>) returns (r: Option<V>)
      requires Inv(State()) && b < Banks(State()) && |up| == |nodes| && pick < |nodes|
      modifies this`nodes
      ensures Inv(State()) && Dimmed(old(nodes), nodes, up)
      ensures nodes == AfterRead(old(nodes), pick, up)
      ensures var s := Reader(old(nodes), pick, up);
              r == if s < |nodes| then Some(old(nodes)[s].banks[b]) else None
    {
      ghost var c := State();
      assert forall k :: 0 <= k < |nodes| ==> b < |nodes[k].banks|;
      var i := pick;
      hide Inv, CountAlive, AfterRead;
      while i < |nodes|
        invariant 0 <= i <= |nodes| && Dimmed(c.nodes, nodes, up)
        invariant Reader(c.nodes, pick, up) == if i < |nodes| then Reader(nodes, i, up) else |nodes|
        invariant AfterRead(c.nodes, pick, up) == if i < |nodes| then AfterRead(nodes, i, up) else nodes
        decreases CountAlive(nodes), if i < |nodes| && nodes[i].state != CONNECTED then 1 else 0
      {
        if nodes[i].state == RECONNECT || nodes[i].state == RECOVERING {
          var j := FindAliveServer();
          ReaderMovesOn(nodes, i, j, up);
          MarksMoveOn(nodes, i, j, up);
          i := j;
        } else if !up[i] {
          ReaderIgnoresSilent(nodes, i, up);
          MarksSilent(nodes, i, up);
          DownCounts(nodes, i);
          nodes := nodes[i := nodes[i].(state := DISCONNECT)];
          var j := FindAliveServer();
          ReaderMovesOn(nodes, i, j, up);
          MarksMoveOn(nodes, i, j, up);
          i := j;
        } else {
          MarksNobody(nodes, i, up);
          DimmedKeeps(c, nodes, up);
          return Some(nodes[i].banks[b]);
        }
      }
      DimmedKeeps(c, nodes, up);
      r := None;
    }

    // ----- the recovery thread -----

    /** One step of another thread */
    method Other(e: Event<V>)
      requires Shaped(State()) && InRange(State()) && IsOther(e, |nodes|, Banks(State()))
      modifies this`nodes, this`latest, this`phase
      ensures Enabled(old(State()), e) && State() == Apply(old(State()), e)
      ensures Shaped(State()) && Banks(State()) == old(Banks(State()))
      ensures old(Inv(State())) ==> Inv(State())
      ensures SamePhase(old(phase), phase) && QueuesGrow(old(nodes), nodes)
      ensures !e.Written? ==> phase == old(phase) && latest == old(latest)
    {
      WriteStaysShaped(State(), e);
      if e.Written? {
        var n := WriteToRemote(e.bank, e.value, e.up);
      } else {
        if Inv(State()) {
          FailReadKeeps(State(), e.server);
        }
        if nodes[e.server].state == CONNECTED || nodes[e.server].state == DISCONNECT {
          nodes := nodes[e.server := nodes[e.server].(state := DISCONNECT)];
        }
      }
    }

    /** Other threads run */
    method Others(events: seq<Event<V>>)
      requires Shaped(State()) && InRange(State())
      requires AllOther(events, |nodes|, Banks(State()))
      modifies this`nodes, this`latest, this`phase
      ensures Leads(old(State()), events, State())
      ensures Shaped(State()) && Banks(State()) == old(Banks(State()))
      ensures old(Inv(State())) ==> Inv(State())
      ensures SamePhase(old(phase), phase) && QueuesGrow(old(nodes), nodes)
      ensures NoneWritten(events) ==> phase == old(phase) && latest == old(latest)
    {
      hide Inv, Leads, Apply, Enabled;
      var k := 0;
      LeadsNowhere(State());
      while k < |events|
        invariant k <= |events| && Shaped(State()) && Banks(State()) == old(Banks(State()))
        invariant InRange(State()) && Leads(old(State()), events[..k], State())
        invariant old(Inv(State())) ==> Inv(State())
        invariant SamePhase(old(phase), phase) && QueuesGrow(old(nodes), nodes)
        invariant NoneWritten(events) ==> phase == old(phase) && latest == old(latest)
      {
        ghost var c := State();
        Other(events[k]);
        LeadsTo(old(State()), events[..k], c, events[k]);
        assert events[..k + 1] == events[..k] + [events[k]];
        k := k + 1;
      }
      assert events[..k] == events;
    }

    /** The two remote calls of a round of the copy loop */
    method CopyStep(b: nat, o: Outcome, junk: V, target: nat, donor: nat, full: bool) returns (ok: bool)
      requires Shaped(State()) && ToCopy(State(), b) && o != ThirdDown
      requires phase.target == target < |nodes| && phase.donor == donor < |nodes| && phase.full == full
      modifies this`nodes, this`phase
      ensures State() == Copy(old(State()), b, o, junk) && ok == (o == Done || !full)
    {
      ok := true;
      if o == DonorDown && full {
        nodes := nodes[donor := nodes[donor].(state := DISCONNECT)];
        ok := false;
      } else if o == TargetDown && full {
        nodes := nodes[target := nodes[target].(state := DISCONNECT)];
        ok := false;
      } else {
        var content := if o == Done then nodes[donor].banks[b] else junk;
        nodes := nodes[target := nodes[target].(banks := nodes[target].banks[b := content])];
      }
      phase := if !ok then Idle
               else phase.(flagged := phase.flagged + {b},
                           copied := if o == Done then phase.copied + {b} else phase.copied);
    }

    /** One round of the copy loop. With every bank in use a failed call ends the
        recovery; copying from the journal ignores the results of both calls. */
    method CopyOne(b: nat, t: Tick<V>, target: nat, donor: nat, full: bool) returns (ok: bool)
      requires Inv(State()) && ToCopy(State(), b)
      requires phase.target == target && phase.donor == donor && phase.full == full
      requires Interleaving([t], |nodes|, Banks(State()))
      modifies this`nodes, this`latest, this`phase
      ensures Inv(State()) && |nodes| == |old(nodes)| && Banks(State()) == old(Banks(State()))
      ensures FreedStays(old(nodes), nodes)
      ensures if ok then SameRecovery(old(phase), phase) && phase.flagged == old(phase).flagged + {b}
              else full && phase == Idle
      ensures ok && NoWrites([t]) ==> phase.missed == old(phase).missed
      ensures !ok ==> t.outcome != Done && GaveUp(nodes, target, donor)
      ensures Leads(old(State()), t.others + [Copied(b, CopyOutcome(t.outcome), t.junk)], State())
    {
      assert [t][0] == t;
      hide Inv, Leads, Apply, Enabled;
      InvShaped(State());
      Others(t.others);
      var o := CopyOutcome(t.outcome);
      CopyKeeps(State(), b, o, t.junk);
      CopyShape(State(), b, o, t.junk);
      CopyAsEvent(State(), b, o, t.junk);
      LeadsTo(old(State()), t.others, State(), Copied(b, o, t.junk));
      hide Copy, ToCopy;
      ok := CopyStep(b, o, t.junk, target, donor, full);
    }

    /** The copy loops of fuse_recover: all banks, or those the journal names */
    method CopyBanks(target: nat, donor: nat, full: bool, journal: seq<nat>, env: seq<Tick<V>>)
      returns (ok: bool, k: nat, ghost copies: seq<Event<V>>)
      requires Inv(State()) && Interleaving(env, |nodes|, Banks(State()))
      requires exists single: bool :: phase == Copying(target, donor, single, full, journal, {}, {}, {})
      requires forall t :: 0 <= t < |journal| ==> journal[t] < Banks(State())
      modifies this`nodes, this`latest, this`phase
      ensures Inv(State()) && |nodes| == |old(nodes)| && Banks(State()) == old(Banks(State()))
      ensures FreedStays(old(nodes), nodes)
      ensures if ok then CopyOver(State()) && SameRecovery(old(phase), phase) else full && phase == Idle
      ensures ok && NoWrites(env) ==> phase.missed == {}
      ensures !ok ==> !NoFailures(env) && GaveUp(nodes, target, donor)
      ensures ok ==> forall b: nat :: b in phase.flagged <==> b < Banks(State()) && (full || b in journal)
      ensures |copies| == k && RanCopies(old(State()), env, copies, State())
    {
      hide Inv, RanCopies, GaveUp, CopyOutcome, Leads;
      copies := [];
      ghost var start := State();
      RanNoCopies(start, env);
      CopyBounds(State());
      var banks := |nodes[target].banks|;
      var work := if full then seq(banks, i requires 0 <= i < banks => i) else journal;
      var bankFlag: set<nat> := {};
      var i := 0;
      k := 0;
      ghost var n, m := |nodes|, Banks(State());
      while i < |work|
        invariant i <= |work| && Inv(State()) && |nodes| == n && Banks(State()) == m
        invariant SameRecovery(start.phase, phase) && FreedStays(start.nodes, nodes)
        invariant phase.flagged == bankFlag == set j | 0 <= j < i :: work[j]
        invariant NoWrites(env) ==> phase.missed == {}
        invariant |copies| == k && RanCopies(start, env, copies, State())
      {
        var b := work[i];
        CopyBounds(State());
        if b !in bankFlag {
          var t := if k < |env| then env[k] else Tick([], Done, nodes[donor].banks[b]);
          ghost var c := State();
          ok := CopyOne(b, t, target, donor, full);
          RanCopiesOn(start, env, copies, c, t, b, State());
          copies := copies + [Copied(b, CopyOutcome(t.outcome), t.junk)];
          k := k + 1;
          if !ok {
            return;
          }
          bankFlag := bankFlag + {b};
        }
        i := i + 1;
      }
      ok := true;
      forall b: nat ensures b in bankFlag <==> b < Banks(State()) && (full || b in journal) {
        if full && b < Banks(State()) {
          assert work[b] == b;
        }
      }
    }

    /** The three remote calls of a round of the replay loop */
    method ReplayStep(target: nat, donor: nat, third: nat, pos: nat, o: Outcome) returns (ok: bool)
      requires Shaped(State()) && ToReplay(State()) && third == FindAlive(nodes, 0)
      requires phase.target == target && phase.donor == donor && phase.pos == pos
      modifies this`nodes, this`phase
      ensures State() == Replay(old(State()), o) && ok == (o == Done)
    {
      var b := nodes[donor].queue[pos];
      if o == ThirdDown {
        nodes := nodes[third := nodes[third].(state := DISCONNECT)];
        phase := Idle;
        return false;
      }
      var content := nodes[third].banks[b];
      if o == DonorDown {
        nodes := nodes[donor := nodes[donor].(state := DISCONNECT)];
        phase := Idle;
        return false;
      }
      nodes := nodes[donor := nodes[donor].(banks := nodes[donor].banks[b := content])];
      if o == TargetDown {
        nodes := nodes[target := nodes[target].(state := DISCONNECT)];
        phase := Idle;
        return false;
      }
      nodes := nodes[target := nodes[target].(banks := nodes[target].banks[b := content])];
      phase := phase.(pos := pos + 1);
      ok := true;
    }

    /** One round of the replay loop; the program reads a freed node or, without a
        connected third server, dereferences a null pointer */
    method ReplayOne(target: nat, donor: nat, pos: nat, o: Outcome) returns (r: Result)
      requires Inv(State()) && phase.Replaying?
      requires phase.target == target && phase.donor == donor && phase.pos == pos < |nodes[donor].queue|
      modifies this`nodes, this`phase
      ensures r == Crashed ==> State() == old(State())
      ensures r != Crashed ==> ToReplay(old(State())) && State() == Replay(old(State()), o)
      ensures Inv(State()) && |nodes| == |old(nodes)| && Banks(State()) == old(Banks(State()))
      ensures r == if MeetsFreed(old(State())) || FindAlive(old(nodes), 0) == |nodes| then Crashed
                   else if o == Done then Recovered else Aborted
      ensures r == Aborted ==> phase == Idle && GaveUp(nodes, target, donor)
      ensures r == Recovered ==> phase == old(phase).(pos := pos + 1) && donor < |nodes|
                                 && nodes[donor].queue == old(nodes)[donor].queue
                                 && nodes[donor].freed == old(nodes)[donor].freed
    {
      if pos < nodes[donor].freed {
        return Crashed;
      }
      var third := FindAliveServer();
      if third == |nodes| {
        return Crashed;
      }
      ReplayReady(State());
      ReplayKeeps(State(), o);
      ReplayShape(State(), o);
      hide Inv, Replay, ToReplay, GaveUp, Banks;
      var ok := ReplayStep(target, donor, third, pos, o);
      r := if ok then Recovered else Aborted;
    }

    /** A round of the replay loop, after what other threads do before it */
    method ReplayTick(target: nat, donor: nat, pos: nat, others: seq<Event<V>>, o: Outcome) returns (r: Result)
      requires Inv(State()) && AllOther(others, |nodes|, Banks(State()))
      requires phase.Replaying? && phase.target == target < |nodes| && phase.donor == donor < |nodes|
      requires phase.pos == pos < |nodes[donor].queue|
      modifies this`nodes, this`latest, this`phase
      ensures Inv(State()) && |nodes| == |old(nodes)| && Banks(State()) == old(Banks(State()))
      ensures r == Recovered ==> phase == old(phase).(pos := pos + 1) && pos < |nodes[donor].queue|
                                 && nodes[donor].freed == old(nodes)[donor].freed
                                 && (others == [] ==> nodes[donor].queue == old(nodes)[donor].queue)
      ensures r != Crashed ==> old(nodes)[donor].freed <= pos
      ensures r == Aborted ==> phase == Idle && o != Done && GaveUp(nodes, target, donor)
      ensures r == Crashed ==> phase.Replaying? && (NobodyAnswers(nodes) || old(nodes)[donor].freed > pos)
      ensures r == Recovered || r == Aborted || r == Crashed
      ensures Leads(old(State()), if r == Crashed then others else others + [Replayed(o)], State())
    {
      hide Inv, GaveUp, Leads, Apply, Enabled, Replay, Banks, FindAlive;
      InvShaped(State());
      Others(others);
      if others == [] {
        NothingHappens(old(State()), State());
      }
      ghost var c := State();
      r := ReplayOne(target, donor, pos, o);
      if r != Crashed {
        InvShaped(c);
        ReplayAsEvent(c, o);
        LeadsTo(old(State()), others, c, Replayed(o));
      }
    }

    /** The replay loop of fuse_recover */
    method ReplayQueue(target: nat, donor: nat, env: seq<Tick<V>>, from: nat)
      returns (r: Result, ghost replays: seq<Event<V>>)
      requires Inv(State()) && Interleaving(env, |nodes|, Banks(State()))
      requires phase.Replaying? && phase.target == target && phase.donor == donor && phase.pos == 0
      requires target < |nodes| && donor < |nodes|
      modifies this`nodes, this`latest, this`phase
      ensures Inv(State()) && |nodes| == |old(nodes)| && Banks(State()) == old(Banks(State()))
      ensures r == Recovered ==> ReplayOver(State()) && phase == old(phase).(pos := phase.pos)
      ensures r == Aborted ==> phase == Idle && !NoFailures(env) && GaveUp(nodes, target, donor) && replays != []
      ensures r == Crashed ==> phase.Replaying? && (NobodyAnswers(nodes) || old(nodes)[donor].freed > 0)
      ensures old(nodes)[donor].freed > 0 ==> r == Crashed
      ensures r == Recovered || r == Aborted || r == Crashed
      ensures RanReplays(old(State()), env, replays, from, r == Crashed, State())
    {
      hide NobodyAnswers, Inv, Banks, FindAlive, GaveUp, RanReplays, Leads, Theirs, OutcomeAt, Interleaving, AllOther,
        NoFailures;
      replays := [];
      RanNoReplays(State(), env, from);
      var pos := 0;
      ghost var start := State();
      FreedBounds(State(), donor);
      ghost var n, m := |nodes|, Banks(State());
      while pos < |nodes[donor].queue|
        invariant Inv(State()) && |nodes| == n && Banks(State()) == m
        invariant target < n && donor < n && pos <= |nodes[donor].queue|
        invariant nodes[donor].freed == start.nodes[donor].freed <= |nodes[donor].queue|
        invariant nodes[donor].freed > 0 ==> pos == 0
        invariant phase == Replaying(target, donor, start.phase.copied, pos)
        invariant |replays| == pos && RanReplays(start, env, replays, from, false, State())
        decreases if from + pos < |env| then |env| - from - pos else 0, |nodes[donor].queue| - pos
      {
        ghost var c := State();
        var others, o := Theirs(env, from + pos), OutcomeAt(env, from + pos);
        TickOf(env, from + pos, n, m);
        r := ReplayTick(target, donor, pos, others, o);
        RanReplaysOn(start, env, replays, from, c, r == Crashed, State());
        replays := if r == Crashed then replays else replays + [Replayed(o)];
        if r != Recovered {
          return;
        }
        pos := pos + 1;
      }
      r := Recovered;
    }

    /** The count of connected servers that starts fuse_recover */
    method CountConnected() returns (alive: nat)
      ensures alive == CountAlive(nodes)
    {
      alive := 0;
      var i := 0;
      while i < |nodes|
        invariant i <= |nodes| && alive + CountAlive(nodes[i..]) == CountAlive(nodes)
      {
        assert nodes[i..][1..] == nodes[i + 1..];
        if nodes[i].state == CONNECTED {
          alive := alive + 1;
        }
        i := i + 1;
      }
    }

    /** fuse_recover up to the choice of the donor */
    method Begin(target: nat, blank: seq<V>, full: bool, journal: seq<nat>) returns (alive: nat, donor: nat)
      requires Valid() && phase == Idle && target < |nodes| && |blank| == Banks(State())
      modifies this
      ensures State() == Start(old(State()), target, blank, full, journal) && Valid()
      ensures alive == CountAlive(SetState(old(nodes), target, RECONNECT))
      ensures if alive == 0 then phase == Stuck
              else donor < |nodes| && phase == Copying(target, donor, alive == 1, full, journal, {}, {}, {})
      ensures Banks(State()) == old(Banks(State())) && |nodes| == |old(nodes)|
      ensures alive > 0 ==> donor == old(DonorFor(nodes, target))
      ensures alive > 0 ==> (nodes[donor].freed == 0 <==> old(FreshDonor(State(), target)))
    {
      StartKeeps(State(), target, blank, full, journal);
      donor := |nodes|;
      recoveryInUse := true;
      nodes := nodes[target := nodes[target].(state := RECONNECT)];
      alive := CountConnected();
      if alive == 0 {
        phase := Stuck;
        return;
      }
      ghost var counted := nodes;
      assert nodes[0..] == nodes;
      AliveWhenCounted(nodes, 0);
      nodes := nodes[target := nodes[target].(banks := blank)];
      FindAliveByState(counted, nodes);
      donor := FindAliveServer();
      nodes := nodes[donor := nodes[donor].(state := RECOVERING)];
      phase := Copying(target, donor, alive == 1, full, journal, {}, {}, {});
    }

    /** The nodes of the donor's queue are freed */
    method FreeNodes(donor: nat)
      requires ToFreeQueue(State()) && phase.donor == donor
      modifies this`nodes, this`phase
      ensures State() == FreeQueue(old(State()))
    {
      nodes := nodes[donor := nodes[donor].(freed := |nodes[donor].queue|)];
      phase := Closing(phase.target, donor, false, phase.done, phase.missed);
    }

    /** The donor is connected again */
    method ReturnDonor(donor: nat)
      requires ToClose(State()) && phase.donor == donor
      modifies this`nodes, this`phase
      ensures State() == DonorBack(old(State()))
    {
      nodes := nodes[donor := nodes[donor].(state := CONNECTED)];
      phase := Rejoining(phase.target, donor, phase.done, phase.missed);
    }

    /** The server that came back is connected, and the recovery over */
    method ReturnTarget(target: nat)
      requires ToFinish(State()) && phase.target == target
      modifies this`nodes, this`phase, this`recoveryInUse
      ensures State() == Finish(old(State())) && !recoveryInUse
      ensures |nodes| == |old(nodes)| && phase == Idle && target < |nodes| && nodes[target].state == CONNECTED
    {
      nodes := nodes[target := nodes[target].(state := CONNECTED)];
      phase := Idle;
      recoveryInUse := false;
    }

    /** The end of fuse_recover, with other threads running before each of the two
        reconnections. A recovery that has every bank by then ends well if none of
        them writes. */
    method Close(target: nat, donor: nat, first: seq<Event<V>>, second: seq<Event<V>>)
      requires Inv(State()) && recoveryInUse && ToClose(State())
      requires phase.target == target && phase.donor == donor
      requires AllOther(first, |nodes|, Banks(State())) && AllOther(second, |nodes|, Banks(State()))
      modifies this
      ensures |nodes| == |old(nodes)| && target < |nodes|
      ensures phase == Idle && !recoveryInUse && nodes[target].state == CONNECTED
      ensures old(Covered(State())) && NoneWritten(first) && NoneWritten(second) ==> Valid()
      ensures Leads(old(State()), Closes(first, second), State())
    {
      hide Inv, Covered, DonorBack, Finish, DonorHas, TargetHas, Safe, Leads, Apply, Enabled;
      CloseBounds(State());
      Others(first);
      CloseBounds(State());
      ghost var c := State();
      StepsAsEvents(c);
      LeadsTo(old(State()), first, c, DonorReturned);
      CoveredQuiet(old(State()), c);
      DonorBackExact(c);
      DonorBackShaped(c);
      ReturnDonor(donor);
      ghost var d := State();
      Others(second);
      StepsAsEvents(State());
      LeadsOn(old(State()), first + [DonorReturned], d, second, State());
      LeadsTo(old(State()), first + [DonorReturned] + second, State(), Finished);
      RejoinQuiet(d, State());
      if Inv(State()) {
        FinishExact(State());
      }
      ReturnTarget(target);
    }

    /** The same with the queue to be freed first, and other threads before that */
    method FreeAndClose(target: nat, donor: nat, zeroth: seq<Event<V>>, first: seq<Event<V>>, second: seq<Event<V>>)
      requires Inv(State()) && recoveryInUse && ToFreeQueue(State())
      requires phase.target == target && phase.donor == donor
      requires AllOther(zeroth, |nodes|, Banks(State()))
      requires AllOther(first, |nodes|, Banks(State())) && AllOther(second, |nodes|, Banks(State()))
      modifies this
      ensures |nodes| == |old(nodes)| && target < |nodes|
      ensures phase == Idle && !recoveryInUse && nodes[target].state == CONNECTED
      ensures old(Covered(State())) && NoneWritten(zeroth) && NoneWritten(first) && NoneWritten(second) ==> Valid()
      ensures Leads(old(State()), zeroth + [QueueFreed] + Closes(first, second), State())
    {
      hide Inv, Covered, FreeQueue, Leads, Apply, Enabled, Closes;
      FreeBounds(State());
      Others(zeroth);
      FreeBounds(State());
      ghost var c := State();
      StepsAsEvents(c);
      LeadsTo(old(State()), zeroth, c, QueueFreed);
      CoveredQuiet(old(State()), c);
      FreeQueueKeeps(c);
      FreeQueueShaped(c);
      FreeNodes(donor);
      ghost var d := State();
      Close(target, donor, first, second);
      LeadsOn(old(State()), zeroth + [QueueFreed], d, Closes(first, second), State());
    }

    /** fuse_recover after the copy with one server alive */
    method CloseAlone(target: nat, donor: nat, first: seq<Event<V>>, second: seq<Event<V>>)
      requires Inv(State()) && CopyOver(State()) && phase.single && recoveryInUse
      requires phase.target == target && phase.donor == donor
      requires AllOther(first, |nodes|, Banks(State())) && AllOther(second, |nodes|, Banks(State()))
      modifies this
      ensures |nodes| == |old(nodes)| && target < |nodes|
      ensures phase == Idle && !recoveryInUse && nodes[target].state == CONNECTED
      ensures NoneWritten(first) && NoneWritten(second) && old(phase).missed == {} ==>
                (forall b: nat :: b < old(Banks(State())) ==> b in old(phase).copied) ==> Valid()
      ensures Leads(old(State()), [CopyEnded] + Closes(first, second), State())
    {
      hide Leads, Apply, Enabled, Closes, NoneWritten;
      EndCopyToCloseKeeps(State());
      InvShaped(State());
      StepsAsEvents(State());
      LeadsNowhere(State());
      LeadsTo(State(), [], State(), CopyEnded);
      AllCovered(EndCopy(State()));
      phase := EndCopy(State()).phase;
      ghost var c := State();
      Close(target, donor, first, second);
      assert [] + [CopyEnded] + Closes(first, second) == [CopyEnded] + Closes(first, second);
      LeadsOn(old(State()), [] + [CopyEnded], c, Closes(first, second), State());
    }

    /** fuse_recover after the copy with a third server alive; it crashes in the first
        round of the replay loop if the donor's queue has freed nodes */
    method ReplayAndFinish(target: nat, donor: nat, env: seq<Tick<V>>, from: nat,
                           zeroth: seq<Event<V>>, first: seq<Event<V>>, second: seq<Event<V>>)
      returns (r: Result, ghost replays: seq<Event<V>>)
      requires Inv(State()) && CopyOver(State()) && !phase.single && recoveryInUse
      requires phase.target == target && phase.donor == donor && donor < |nodes|
      requires Interleaving(env, |nodes|, Banks(State()))
      requires AllOther(zeroth, |nodes|, Banks(State()))
      requires AllOther(first, |nodes|, Banks(State())) && AllOther(second, |nodes|, Banks(State()))
      modifies this
      ensures NoneWritten(zeroth) && NoneWritten(first) && NoneWritten(second) ==>
                (forall b: nat :: b < old(Banks(State())) ==> b in old(phase).copied) ==> Valid()
      ensures r != Recovered ==> Valid()
      ensures r == Recovered ==> !recoveryInUse && target < |nodes| && nodes[target].state == CONNECTED
      ensures r == Aborted ==> !recoveryInUse && !NoFailures(env) && GaveUp(nodes, target, donor) && replays != []
      ensures r == Crashed ==> recoveryInUse && (NobodyAnswers(nodes) || old(nodes)[donor].freed > 0)
      ensures old(nodes)[donor].freed > 0 ==> r == Crashed
      ensures r == Recovered || r == Aborted || r == Crashed
      ensures |nodes| == |old(nodes)|
      ensures ReplaysAs(env, replays, from)
      ensures Leads(old(State()), AfterCopy(r, env, replays, from, zeroth, first, second), State())
    {
      hide Leads, Apply, Enabled, Rounds, Closes, GaveUp;
      EndCopyToReplayKeeps(State());
      InvShaped(State());
      StepsAsEvents(State());
      LeadsNowhere(State());
      LeadsTo(State(), [], State(), CopyEnded);
      phase := Replaying(target, donor, phase.copied, 0);
      ghost var c := State();
      r, replays := ReplayQueue(target, donor, env, from);
      if r == Aborted {
        recoveryInUse := false;
      } else if r == Recovered {
        EndReplayKeeps(State());
        InvShaped(State());
        StepsAsEvents(State());
        LeadsTo(c, Rounds(env, replays, from) + [], State(), ReplayEnded);
        AllCovered(EndReplay(State()));
        phase := EndReplay(State()).phase;
        ghost var d := State();
        FreeAndClose(target, donor, zeroth, first, second);
        LeadsOn(c, Rounds(env, replays, from) + [] + [ReplayEnded], d,
                zeroth + [QueueFreed] + Closes(first, second), State());
      }
      AfterCopyIs(old(State()), c, r, env, replays, from, zeroth, first, second, State());
    }

    /** fuse_recover for a server that is back, with other threads running between
        its steps: before the freeing of the queue and each of the two
        reconnections too. A recovery that copies every bank, with no write before
        those, nor during the copy if only one server is alive, leaves every
        connected server with the latest value of every bank, whether it succeeds
        or not. It is given up only after a failed call. It gets stuck without a
        third server, or on freed nodes in the queue of a donor that served an
        earlier recovery, and surely on those if none of its calls fails. copies and
        replays are the rounds of its loops: what it does is the run that they make. */
    method FuseRecover(target: nat, blank: seq<V>, full: bool, journal: seq<nat>, env: seq<Tick<V>>,
                       zeroth: seq<Event<V>>, first: seq<Event<V>>, second: seq<Event<V>>)
      returns (r: Result, ghost copies: seq<Event<V>>, ghost replays: seq<Event<V>>)
      requires Valid() && target < |nodes| && |blank| == Banks(State())
      requires Interleaving(env, |nodes|, Banks(State()))
      requires AllOther(zeroth, |nodes|, Banks(State()))
      requires AllOther(first, |nodes|, Banks(State())) && AllOther(second, |nodes|, Banks(State()))
      requires forall t :: 0 <= t < |journal| ==> journal[t] < Banks(State())
      modifies this
      ensures r == AlreadyRunning <==> old(recoveryInUse)
      ensures r == AlreadyRunning ==> State() == old(State())
      ensures r == NoDonor <==> !old(recoveryInUse) && CountAlive(SetState(old(nodes), target, RECONNECT)) == 0
      ensures r == NoDonor ==> recoveryInUse && phase == Stuck
      ensures full && NoneWritten(zeroth) && NoneWritten(first) && NoneWritten(second) ==>
                (CountAlive(SetState(old(nodes), target, RECONNECT)) == 1 ==> NoWrites(env)) ==> Valid()
      ensures r != Recovered ==> Valid()
      ensures |nodes| == |old(nodes)|
      ensures r == Recovered ==> !recoveryInUse && nodes[target].state == CONNECTED
      ensures r == Aborted ==> !recoveryInUse && !NoFailures(env)
                               && GaveUp(nodes, target, old(DonorFor(nodes, target)))
      ensures r == Crashed ==> recoveryInUse && (NobodyAnswers(nodes) || !old(FreshDonor(State(), target)))
      ensures !old(recoveryInUse) && !old(FreshDonor(State(), target)) ==>
                CountAlive(SetState(old(nodes), target, RECONNECT)) > 1 ==> r == Crashed || r == Aborted
      ensures CopiesAs(env, copies) && ReplaysAs(env, replays, |copies|)
      ensures Leads(old(State()),
                    RunOf(r, CountAlive(SetState(old(nodes), target, RECONNECT)) == 1,
                          Returned(target, blank, full, journal), env, copies, replays, zeroth, first, second),
                    State())
    {
      hide Leads, RanCopies, Closes, AfterCopy, RunOf, CopiesAs, ReplaysAs, GaveUp, DonorFor, FreshDonor, FindAlive,
        CountAlive, SetState, Start, NoWrites, NoFailures, NoneWritten;
      copies, replays := [], [];
      ghost var before := State();
      ghost var start := Returned(target, blank, full, journal);
      RanNothing(before, start, env, zeroth, first, second);
      if recoveryInUse {
        return AlreadyRunning, [], [];
      }
      InvShaped(State());
      StartAsEvent(State(), target, blank, full, journal);
      var alive, donor := Begin(target, blank, full, journal);
      if alive == 0 {
        return NoDonor, [], [];
      }
      ghost var c := State();
      var ok: bool, k: nat;
      ok, k, copies := CopyBanks(target, donor, full, journal, env);
      ghost var d := State();
      if !ok {
        recoveryInUse := false;
        r := Aborted;
        LeadsNowhere(d);
      } else if alive == 1 {
        FullCopyCovers(State());
        CloseAlone(target, donor, first, second);
        r := Recovered;
      } else {
        FullCopyCovers(State());
        r, replays := ReplayAndFinish(target, donor, env, k, zeroth, first, second);
      }
      RanOn(before, start, c, env, copies, d, r, alive == 1, replays, zeroth, first, second, State());
    }
  }

  lemma InvShaped<V>(c: Cluster<V>)
    requires Inv(c)
    ensures Shaped(c)
  {
  }

  lemma FreedBounds<V>(c: Cluster<V>, i: nat)
    requires Inv(c) && i < |c.nodes|
    ensures c.nodes[i].freed <= |c.nodes[i].queue|
  {
  }

  lemma FreeBounds<V>(c: Cluster<V>)
    requires Inv(c) && c.phase.Closing? && c.phase.toFree
    ensures Shaped(c) && ToFreeQueue(c) && c.phase.target < |c.nodes|
  {
  }

  lemma FreeQueueShaped<V>(c: Cluster<V>)
    requires Shaped(c) && ToFreeQueue(c)
    ensures Shaped(FreeQueue(c)) && Banks(FreeQueue(c)) == Banks(c) && |FreeQueue(c).nodes| == |c.nodes|
    ensures FreeQueue(c).phase == Closing(c.phase.target, c.phase.donor, false, c.phase.done, c.phase.missed)
    ensures Covered(c) ==> Covered(FreeQueue(c))
  {
  }

  lemma CloseBounds<V>(c: Cluster<V>)
    requires Inv(c) && c.phase.Closing? && !c.phase.toFree
    ensures Shaped(c) && ToClose(c) && c.phase.target < |c.nodes|
  {
  }

  lemma CoveredQuiet<V>(c: Cluster<V>, c': Cluster<V>)
    requires c.phase.Closing? && SamePhase(c.phase, c'.phase)
    ensures Covered(c) && c'.phase == c.phase && c'.latest.Keys == c.latest.Keys ==> Covered(c')
  {
  }

  lemma RejoinQuiet<V>(d: Cluster<V>, e: Cluster<V>)
    requires d.phase.Rejoining? && SamePhase(d.phase, e.phase)
    ensures Covered(d) && e.phase == d.phase && e.latest.Keys == d.latest.Keys ==> Covered(e)
  {
  }

  lemma DonorBackShaped<V>(c: Cluster<V>)
    requires Shaped(c) && ToClose(c)
    ensures Shaped(DonorBack(c)) && Banks(DonorBack(c)) == Banks(c) && |DonorBack(c).nodes| == |c.nodes|
    ensures DonorBack(c).phase == Rejoining(c.phase.target, c.phase.donor, c.phase.done, c.phase.missed)
    ensures c.phase.missed == {} && Covered(c) ==> Covered(DonorBack(c))
  {
  }

  /** With every bank copied or replayed, only a later write is missing */
  lemma AllCovered<V>(c: Cluster<V>)
    requires Inv(c) && c.phase.Closing?
    ensures (forall b: nat :: b < Banks(c) ==> b in c.phase.done) && c.phase.missed == {} ==> Covered(c)
  {
  }

  lemma CopyBounds<V>(c: Cluster<V>)
    requires Inv(c) && c.phase.Copying?
    ensures Shaped(c) && c.phase.target < |c.nodes| && c.phase.donor < |c.nodes|
    ensures |c.nodes[c.phase.target].banks| == |c.nodes[c.phase.donor].banks| == Banks(c)
  {
  }

  lemma CopyShape<V>(c: Cluster<V>, b: nat, o: Outcome, junk: V)
    requires Inv(c) && ToCopy(c, b) && o != ThirdDown
    ensures Shaped(c) && c.phase.target < |c.nodes| && c.phase.donor < |c.nodes|
    ensures var c' := Copy(c, b, o, junk);
            && |c'.nodes| == |c.nodes| && Banks(c') == Banks(c) && FreedStays(c.nodes, c'.nodes)
            && (o != Done && c.phase.full ==> GaveUp(c'.nodes, c.phase.target, c.phase.donor))
            && if o == Done || !c.phase.full
               then SameRecovery(c.phase, c'.phase) && c'.phase.flagged == c.phase.flagged + {b}
                    && c'.phase.missed == c.phase.missed
               else c'.phase == Idle
  {
  }

  lemma ReplayReady<V>(c: Cluster<V>)
    requires Inv(c) && c.phase.Replaying? && c.phase.pos < |c.nodes[c.phase.donor].queue|
    requires !MeetsFreed(c) && FindAlive(c.nodes, 0) < |c.nodes|
    ensures Shaped(c) && ToReplay(c)
  {
    assert c.nodes[c.phase.donor].queue[c.phase.pos] in c.nodes[c.phase.donor].queue;
  }

  lemma ReplayShape<V>(c: Cluster<V>, o: Outcome)
    requires Inv(c) && ToReplay(c)
    ensures var p, c' := c.phase, Replay(c, o);
            && |c'.nodes| == |c.nodes| && Banks(c') == Banks(c)
            && (o != Done ==> c'.phase == Idle && GaveUp(c'.nodes, p.target, p.donor))
            && (o == Done ==> c'.phase == p.(pos := p.pos + 1)
                              && c'.nodes[p.donor].queue == c.nodes[p.donor].queue
                              && c'.nodes[p.donor].freed == c.nodes[p.donor].freed)
  {
    ReplayExact(c, o);
    if o == ThirdDown {
      assert Replay(c, o).nodes[FindAlive(c.nodes, 0)].state == DISCONNECT;
    }
  }

  predicate FreedStays<V>(before: seq<Node<V>>, after: seq<Node<V>>) {
    |before| == |after| && forall i :: 0 <= i < |before| ==> before[i].freed == after[i].freed
  }

  /** What a recovery leaves that gave up: the server that did not answer is marked
      down, the returning one, the donor or a third one */
  predicate GaveUp<V>(nodes: seq<Node<V>>, target: nat, donor: nat) {
    && target < |nodes| && donor < |nodes|
    && if nodes[target].state == DISCONNECT then nodes[donor].state == RECOVERING
       else
         && nodes[target].state == RECONNECT
         && (nodes[donor].state == DISCONNECT || (nodes[donor].state == RECOVERING && SomeoneDown(nodes)))
  }

  predicate NobodyAnswers<V>(nodes: seq<Node<V>>) {
    FindAlive(nodes, 0) == |nodes|
  }

  predicate SomeoneDown<V>(nodes: seq<Node<V>>) {
    exists i :: 0 <= i < |nodes| && nodes[i].state == DISCONNECT
  }

  /** Queues grow at their ends, and nothing in them is freed */
  predicate QueuesGrow<V>(before: seq<Node<V>>, after: seq<Node<V>>) {
    && |before| == |after|
    && forall i :: 0 <= i < |before| ==> before[i].queue <= after[i].queue && before[i].freed == after[i].freed
  }

  lemma FindAliveByState<V>(a: seq<Node<V>>, b: seq<Node<V>>)
    requires |a| == |b| && forall k :: 0 <= k < |a| ==> a[k].state == b[k].state
    ensures FindAlive(a, 0) == FindAlive(b, 0)
  {
    var i, j := FindAlive(a, 0), FindAlive(b, 0);
    assert i <= j && j <= i;
  }

  /** The same recovery, further on */
  predicate SameRecovery(before: Phase, after: Phase) {
    before.Copying? && after.Copying?
    && after == Copying(before.target, before.donor, before.single, before.full, before.journal,
                        after.flagged, after.copied, after.missed)
  }

  /** Other threads change a recovery's phase only by writing banks it missed */
  predicate SamePhase(before: Phase, after: Phase) {
    match before
    case Copying(t, d, single, full, journal, flagged, copied, missed) =>
      after.Copying? && missed <= after.missed
      && after == Copying(t, d, single, full, journal, flagged, copied, after.missed)
    case Closing(t, d, toFree, done, missed) =>
      after.Closing? && missed <= after.missed && after == Closing(t, d, toFree, done, after.missed)
    case Rejoining(t, d, done, missed) =>
      after.Rejoining? && missed <= after.missed && after == Rejoining(t, d, done, after.missed)
    case _ => after == before
  }

  function Queued<V>(n: Node<V>, b: nat): Node<V> {
    if n.state == RECOVERING then n.(queue := n.queue + [b]) else n
  }

  function Stored<V>(n: Node<V>, b: nat, v: V, up: bool, sent: bool): Node<V>
    requires b < |n.banks|
  {
    if !sent then n
    else if up then n.(banks := n.banks[b := v])
    else n.(state := DISCONNECT)
  }

  /** Some connected servers that do not answer have been marked down */
  ghost predicate Dimmed<V>(before: seq<Node<V>>, after: seq<Node<V>>, up: seq<bool>) {
    && |before| == |after| == |up|
    && forall k :: 0 <= k < |before| ==>
         || after[k] == before[k]
         || (!up[k] && before[k].state == CONNECTED && after[k] == before[k].(state := DISCONNECT))
  }

  lemma DimmedKeeps<V>(c: Cluster<V>, nodes: seq<Node<V>>, up: seq<bool>)
    requires Inv(c) && Dimmed(c.nodes, nodes, up)
    ensures Inv(c.(nodes := nodes))
  {
    var c' := c.(nodes := nodes);
    forall k, x | 0 <= k < |nodes| && nodes[k].state == CONNECTED && x in c.latest ensures Current(c', k, x) {
      assert Current(c, k, x);
    }
    if c.phase.Copying? {
      forall x | x in c.latest && x !in c.phase.missed ensures Current(c', c.phase.donor, x) {
        assert Current(c, c.phase.donor, x);
      }
    }
    if c.phase.Replaying? {
      var q := c.nodes[c.phase.donor].queue;
      forall x | x in c.latest && x !in q[c.phase.pos..]
        ensures Current(c', c.phase.donor, x)
        ensures x in c.phase.copied || x in q[..c.phase.pos] ==> Current(c', c.phase.target, x)
      {
        assert Current(c, c.phase.donor, x);
      }
    }
  }

  lemma DownCounts<V>(nodes: seq<Node<V>>, i: nat)
    requires i < |nodes|
    ensures nodes[i].state == CONNECTED ==> CountAlive(SetState(nodes, i, DISCONNECT)) < CountAlive(nodes)
    ensures nodes[i].state == DISCONNECT ==> SetState(nodes, i, DISCONNECT) == nodes
  {
    if nodes[i].state == CONNECTED {
      AliveAfterDown(nodes, i);
    }
  }

  lemma ReaderMovesOn<V>(nodes: seq<Node<V>>, i: nat, j: nat, up: seq<bool>)
    requires |up| == |nodes| && i < |nodes| && j == FindAlive(nodes, 0)
    requires nodes[i].state == RECONNECT || nodes[i].state == RECOVERING || !up[i]
    ensures Reader(nodes, i, up) == if j < |nodes| then Reader(nodes, j, up) else |nodes|
  {
    if j < |nodes| && up[j] {
      FirstAnsweringIs(nodes, up, 0, j);
    }
  }

  lemma ReaderIgnoresSilent<V>(nodes: seq<Node<V>>, i: nat, up: seq<bool>)
    requires |up| == |nodes| && i < |nodes| && !up[i]
    ensures Reader(SetState(nodes, i, DISCONNECT), i, up) == Reader(nodes, i, up)
  {
    FirstAnsweringIs(SetState(nodes, i, DISCONNECT), up, 0, FirstAnswering(nodes, up, 0));
  }

  lemma MarksMoveOn<V>(nodes: seq<Node<V>>, i: nat, j: nat, up: seq<bool>)
    requires |up| == |nodes| && i < |nodes| && j == FindAlive(nodes, 0)
    requires nodes[i].state == RECONNECT || nodes[i].state == RECOVERING || (nodes[i].state == DISCONNECT && !up[i])
    ensures AfterRead(nodes, i, up) == if j < |nodes| then AfterRead(nodes, j, up) else nodes
  {
    if j < |nodes| && up[j] {
      FirstAnsweringIs(nodes, up, 0, j);
    }
  }

  lemma MarksSilent<V>(nodes: seq<Node<V>>, i: nat, up: seq<bool>)
    requires |up| == |nodes| && i < |nodes| && !up[i]
    requires nodes[i].state == CONNECTED || nodes[i].state == DISCONNECT
    ensures AfterRead(SetState(nodes, i, DISCONNECT), i, up) == AfterRead(nodes, i, up)
  {
    FirstAnsweringIs(SetState(nodes, i, DISCONNECT), up, 0, FirstAnswering(nodes, up, 0));
  }

  lemma MarksNobody<V>(nodes: seq<Node<V>>, i: nat, up: seq<bool>)
    requires |up| == |nodes| && i < |nodes| && up[i]
    requires nodes[i].state == CONNECTED || nodes[i].state == DISCONNECT
    ensures AfterRead(nodes, i, up) == nodes
  {
  }

  /** Exactly who is marked down: the picked server if it is connected and silent; and
      if the picked one may not be asked or does not answer, every silent connected
      one before the server at which the read ends, or all of them if it ends
      nowhere. Nothing else changes. */
  lemma AfterReadExact<V>(nodes: seq<Node<V>>, pick: nat, up: seq<bool>, k: nat)
    requires |up| == |nodes| && pick < |nodes| && k < |nodes|
    ensures |AfterRead(nodes, pick, up)| == |nodes|
    ensures var answered := (nodes[pick].state == CONNECTED || nodes[pick].state == DISCONNECT) && up[pick];
            AfterRead(nodes, pick, up)[k]
            == if nodes[k].state == CONNECTED && !up[k] && (k == pick || (!answered && k < Reader(nodes, pick, up)))
               then Node(DISCONNECT, nodes[k].banks, nodes[k].queue, nodes[k].freed)
               else nodes[k]
  {
  }
}
