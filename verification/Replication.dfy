/** Replication of the file system's banks over several memory servers and the
    recovery of a server that comes back, as a state machine: any number of
    writers and readers may take steps between two steps of a recovery. */
module Replication {

  datatype ServerState = CONNECTED | DISCONNECT | RECOVERING | RECONNECT

  /** A server: its state, the content of its banks, and the banks written while
      it was the donor of a recovery (rw_task_head). Nodes of that list are never
      unlinked: its first freed ones are freed memory. */
  datatype Node<V> = Node(state: ServerState, banks: seq<V>, queue: seq<nat>, freed: nat)

  /** Where fuse_recover stands. copied holds the banks that reached the
      returning server, flagged those the code takes for copied (bank_flag).
      Closing is the time between the last loop and the donor's reconnection, with
      the queue to be freed first if toFree says so, Rejoining that between the two
      reconnections; done are the banks that both servers have then. missed is a
      history variable: the banks written since the copy began, or since the loop. */
  datatype Phase =
    | Idle
    | Stuck
    | Copying(target: nat, donor: nat, single: bool, full: bool, journal: seq<nat>,
              flagged: set<nat>, copied: set<nat>, missed: set<nat>)
    | Replaying(target: nat, donor: nat, copied: set<nat>, pos: nat)
    | Closing(target: nat, donor: nat, toFree: bool, done: set<nat>, missed: set<nat>)
    | Rejoining(target: nat, donor: nat, done: set<nat>, missed: set<nat>)

  /** latest is a history variable: the value last written to each bank */
  datatype Cluster<V> = Cluster(nodes: seq<Node<V>>, latest: map<nat, V>, phase: Phase)

  datatype Outcome = Done | ThirdDown | DonorDown | TargetDown

  // ----- the steps -----

  function Banks<V>(c: Cluster<V>): nat {
    if c.nodes == [] then 0 else |c.nodes[0].banks|
  }

  /** What one server makes of a bank write: a server that is connected stores it
      or is marked down, a donor queues it, the others are passed over */
  function WriteNode<V>(n: Node<V>, b: nat, v: V, up: bool): Node<V>
    requires b < |n.banks|
  {
    match n.state
    case CONNECTED => if up then n.(banks := n.banks[b := v]) else n.(state := DISCONNECT)
    case RECOVERING => n.(queue := n.queue + [b])
    case _ => n
  }

  function WriteNodes<V>(nodes: seq<Node<V>>, b: nat, v: V, up: seq<bool>): seq<Node<V>>
    requires |up| == |nodes| && forall i :: 0 <= i < |nodes| ==> b < |nodes[i].banks|
  {
    seq(|nodes|, i requires 0 <= i < |nodes| => WriteNode(nodes[i], b, v, up[i]))
  }

  predicate Shaped<V>(c: Cluster<V>) {
    forall i :: 0 <= i < |c.nodes| ==> |c.nodes[i].banks| == Banks(c)
  }

  function Write<V>(c: Cluster<V>, b: nat, v: V, up: seq<bool>): Cluster<V>
    requires Shaped(c) && b < Banks(c) && |up| == |c.nodes|
  {
    Cluster(WriteNodes(c.nodes, b, v, up), c.latest[b := v], Missing(c.phase, b))
  }

  function Missing(p: Phase, b: nat): Phase {
    match p
    case Copying(t, d, single, full, journal, flagged, copied, missed) =>
      Copying(t, d, single, full, journal, flagged, copied, missed + {b})
    case Closing(t, d, toFree, done, missed) => Closing(t, d, toFree, done, missed + {b})
    case Rejoining(t, d, done, missed) => Rejoining(t, d, done, missed + {b})
    case _ => p
  }

  function SetState<V>(nodes: seq<Node<V>>, i: nat, s: ServerState): seq<Node<V>>
    requires i < |nodes|
  {
    nodes[i := nodes[i].(state := s)]
  }

  function StoreBank<V>(nodes: seq<Node<V>>, i: nat, b: nat, v: V): seq<Node<V>>
    requires i < |nodes| && b < |nodes[i].banks|
  {
    nodes[i := nodes[i].(banks := nodes[i].banks[b := v])]
  }

  /** A failed read marks the server it went to as down */
  function FailRead<V>(c: Cluster<V>, i: nat): Cluster<V>
    requires i < |c.nodes|
  {
    if c.nodes[i].state == CONNECTED || c.nodes[i].state == DISCONNECT
    then c.(nodes := SetState(c.nodes, i, DISCONNECT)) else c
  }

  /** The first connected server, or the number of servers */
  function FindAlive<V>(nodes: seq<Node<V>>, from: nat): (i: nat)
    requires from <= |nodes|
    ensures from <= i <= |nodes|
    ensures forall k :: from <= k < i ==> nodes[k].state != CONNECTED
    ensures i < |nodes| ==> nodes[i].state == CONNECTED
    decreases |nodes| - from
  {
    if from == |nodes| || nodes[from].state == CONNECTED then from else FindAlive(nodes, from + 1)
  }

  function CountAlive<V>(nodes: seq<Node<V>>): nat {
    if nodes == [] then 0
    else (if nodes[0].state == CONNECTED then 1 else 0) + CountAlive(nodes[1..])
  }

  lemma {:induction false} AliveWhenCounted<V>(nodes: seq<Node<V>>, from: nat)
    requires from <= |nodes|
    ensures CountAlive(nodes[from..]) > 0 <==> FindAlive(nodes, from) < |nodes|
    decreases |nodes| - from
  {
    if from < |nodes| {
      assert nodes[from..][1..] == nodes[from + 1..];
      AliveWhenCounted(nodes, from + 1);
    }
  }

  /** fuse_recover up to the choice of the donor: the returning server gets fresh
      memory; with no connected server left, recovery_in_use stays set */
  function Start<V>(c: Cluster<V>, target: nat, blank: seq<V>, full: bool, journal: seq<nat>): Cluster<V>
    requires target < |c.nodes|
  {
    if c.phase != Idle then c
    else
      var nodes := SetState(c.nodes, target, RECONNECT);
      var alive := CountAlive(nodes);
      if alive == 0 then Cluster(nodes, c.latest, Stuck)
      else
        AliveWhenCounted(nodes, 0);
        assert nodes[0..] == nodes;
        var donor := FindAlive(nodes, 0);
        var nodes' := SetState(nodes[target := nodes[target].(banks := blank)], donor, RECOVERING);
        Cluster(nodes', c.latest, Copying(target, donor, alive == 1, full, journal, {}, {}, {}))
  }

  predicate ToCopy<V>(c: Cluster<V>, b: nat) {
    && c.phase.Copying?
    && b < Banks(c)
    && b !in c.phase.flagged
    && (!c.phase.full ==> b in c.phase.journal)
  }

  /** Copy one bank. With every bank in use a failure ends the recovery; from the
      journal results are ignored, and the bank is flagged whatever was stored. */
  function Copy<V>(c: Cluster<V>, b: nat, o: Outcome, junk: V): Cluster<V>
    requires Shaped(c) && ToCopy(c, b) && c.phase.target < |c.nodes| && c.phase.donor < |c.nodes|
    requires o != ThirdDown
  {
    var p := c.phase;
    if o == Done then
      c.(nodes := StoreBank(c.nodes, p.target, b, c.nodes[p.donor].banks[b]),
         phase := p.(flagged := p.flagged + {b}, copied := p.copied + {b}))
    else if p.full then
      c.(nodes := SetState(c.nodes, if o == DonorDown then p.donor else p.target, DISCONNECT), phase := Idle)
    else
      c.(nodes := StoreBank(c.nodes, p.target, b, junk), phase := p.(flagged := p.flagged + {b}))
  }

  predicate CopyOver<V>(c: Cluster<V>) {
    && c.phase.Copying?
    && forall b :: 0 <= b < Banks(c) ==> !ToCopy(c, b)
  }

  /** End of the copy: with one server alive only the reconnections are left,
      otherwise the queued writes are replayed */
  function EndCopy<V>(c: Cluster<V>): Cluster<V>
    requires CopyOver(c)
  {
    var p := c.phase;
    c.(phase := if p.single then Closing(p.target, p.donor, false, p.copied, p.missed)
                else Replaying(p.target, p.donor, p.copied, 0))
  }

  /** The next round of the replay loop reads a node that was freed */
  predicate MeetsFreed<V>(c: Cluster<V>) {
    && c.phase.Replaying?
    && c.phase.donor < |c.nodes|
    && c.phase.pos < c.nodes[c.phase.donor].freed
  }

  /** A write now links its node behind one that was freed */
  predicate LinksFreed<V>(c: Cluster<V>) {
    exists i :: 0 <= i < |c.nodes| && c.nodes[i].state == RECOVERING && c.nodes[i].freed > 0
  }

  predicate ToReplay<V>(c: Cluster<V>) {
    && c.phase.Replaying?
    && c.phase.donor < |c.nodes|
    && c.phase.target < |c.nodes|
    && c.nodes[c.phase.donor].freed <= c.phase.pos < |c.nodes[c.phase.donor].queue|
    && c.nodes[c.phase.donor].queue[c.phase.pos] < Banks(c)
    && FindAlive(c.nodes, 0) < |c.nodes|
  }

  /** Replay one queued write: the bank's content comes from a third server that
      is connected and goes to the donor and to the returning server */
  function Replay<V>(c: Cluster<V>, o: Outcome): Cluster<V>
    requires Shaped(c) && ToReplay(c)
  {
    var p := c.phase;
    var third := FindAlive(c.nodes, 0);
    var b := c.nodes[p.donor].queue[p.pos];
    var v := c.nodes[third].banks[b];
    var stored := StoreBank(c.nodes, p.donor, b, v);
    match o
    case ThirdDown => c.(nodes := SetState(c.nodes, third, DISCONNECT), phase := Idle)
    case DonorDown => c.(nodes := SetState(c.nodes, p.donor, DISCONNECT), phase := Idle)
    case TargetDown => c.(nodes := SetState(stored, p.target, DISCONNECT), phase := Idle)
    case Done => c.(nodes := StoreBank(stored, p.target, b, v), phase := p.(pos := p.pos + 1))
  }

  predicate ReplayOver<V>(c: Cluster<V>) {
    && c.phase.Replaying?
    && c.phase.donor < |c.nodes|
    && c.phase.target < |c.nodes|
    && c.phase.pos == |c.nodes[c.phase.donor].queue|
  }

  /** The test that ends the replay loop */
  function EndReplay<V>(c: Cluster<V>): Cluster<V>
    requires ReplayOver(c)
  {
    var p := c.phase;
    var replayed := set b | b in c.nodes[p.donor].queue;
    c.(phase := Closing(p.target, p.donor, true, p.copied + replayed, {}))
  }

  predicate ToFreeQueue<V>(c: Cluster<V>) {
    c.phase.Closing? && c.phase.toFree && c.phase.donor < |c.nodes|
  }

  /** The nodes of the donor's queue are freed, whatever it holds by now, and stay
      linked. With one server alive the queue is left alone. */
  function FreeQueue<V>(c: Cluster<V>): Cluster<V>
    requires ToFreeQueue(c)
  {
    var p := c.phase;
    var donor := c.nodes[p.donor];
    c.(nodes := c.nodes[p.donor := donor.(freed := |donor.queue|)],
       phase := Closing(p.target, p.donor, false, p.done, p.missed))
  }

  predicate ToClose<V>(c: Cluster<V>) {
    c.phase.Closing? && !c.phase.toFree && c.phase.donor < |c.nodes|
  }

  /** The donor is connected again */
  function DonorBack<V>(c: Cluster<V>): Cluster<V>
    requires ToClose(c)
  {
    var p := c.phase;
    c.(nodes := SetState(c.nodes, p.donor, CONNECTED), phase := Rejoining(p.target, p.donor, p.done, p.missed))
  }

  predicate ToFinish<V>(c: Cluster<V>) {
    c.phase.Rejoining? && c.phase.target < |c.nodes|
  }

  /** The returning server is connected as well */
  function Finish<V>(c: Cluster<V>): Cluster<V>
    requires ToFinish(c)
  {
    c.(nodes := SetState(c.nodes, c.phase.target, CONNECTED), phase := Idle)
  }

  // ----- what every run keeps -----

  /** The promise: a server that is connected holds the latest value of every
      bank ever written */
  ghost predicate Safe<V>(c: Cluster<V>) {
    forall i, b :: 0 <= i < |c.nodes| && c.nodes[i].state == CONNECTED && b in c.latest ==>
      Current(c, i, b)
  }

  ghost predicate Current<V>(c: Cluster<V>, i: nat, b: nat)
    requires i < |c.nodes|
  {
    b < |c.nodes[i].banks| && b in c.latest && c.nodes[i].banks[b] == c.latest[b]
  }

  ghost predicate Pair<V>(c: Cluster<V>, target: nat, donor: nat) {
    && target < |c.nodes| && donor < |c.nodes|
    && c.nodes[target].state == RECONNECT
    && c.nodes[donor].state == RECOVERING
  }

  /** While it copies, the donor is current on every bank that is not in its
      queue, and what reached the returning server is what the donor has */
  ghost predicate CopyInv<V>(c: Cluster<V>)
    requires c.phase.Copying?
  {
    var p := c.phase;
    && Pair(c, p.target, p.donor)
    && p.copied <= p.flagged
    && (p.full ==> p.copied == p.flagged)
    && (forall b :: b in p.missed ==> b in c.latest)
    && (forall b :: b in p.missed ==> b in c.nodes[p.donor].queue)
    && (forall b :: b in c.latest && b !in p.missed ==> Current(c, p.donor, b))
    && (forall b :: b in p.copied ==>
          b < |c.nodes[p.target].banks| == |c.nodes[p.donor].banks|
          && c.nodes[p.target].banks[b] == c.nodes[p.donor].banks[b])
  }

  /** While it replays, the donor is current on every bank that is not in the
      rest of its queue, and the returning server on every bank copied or
      replayed that is not in the rest of that queue */
  ghost predicate ReplayInv<V>(c: Cluster<V>)
    requires c.phase.Replaying?
  {
    var p := c.phase;
    && Pair(c, p.target, p.donor)
    && p.pos <= |c.nodes[p.donor].queue|
    && var done, rest := c.nodes[p.donor].queue[..p.pos], c.nodes[p.donor].queue[p.pos..];
       && (forall b :: b in c.latest && b !in rest ==> Current(c, p.donor, b))
       && (forall b :: b in c.latest && b !in rest && (b in p.copied || b in done) ==> Current(c, p.target, b))
  }

  /** Before the donor is connected, it is current on every bank not written
      since the loop ended, and the returning server on those of them in done */
  ghost predicate ClosingInv<V>(c: Cluster<V>)
    requires c.phase.Closing?
  {
    var p := c.phase;
    && Pair(c, p.target, p.donor)
    && (forall b :: b in p.missed ==> b in c.latest)
    && (forall b :: b in c.latest && b !in p.missed ==> Current(c, p.donor, b))
    && (forall b :: b in c.latest && b !in p.missed && b in p.done ==> Current(c, p.target, b))
  }

  ghost predicate RejoiningInv<V>(c: Cluster<V>)
    requires c.phase.Rejoining?
  {
    var p := c.phase;
    && p.target < |c.nodes| && c.nodes[p.target].state == RECONNECT
    && (forall b :: b in p.missed ==> b in c.latest)
    && (forall b :: b in c.latest && b !in p.missed && b in p.done ==> Current(c, p.target, b))
  }

  ghost predicate Inv<V>(c: Cluster<V>) {
    && Shaped(c)
    && Safe(c)
    && (forall b :: b in c.latest ==> b < Banks(c))
    && (forall i, b :: 0 <= i < |c.nodes| && b in c.nodes[i].queue ==> b < Banks(c))
    && (forall i :: 0 <= i < |c.nodes| ==> c.nodes[i].freed <= |c.nodes[i].queue|)
    && (c.phase.Copying? ==> CopyInv(c))
    && (c.phase.Replaying? ==> ReplayInv(c))
    && (c.phase.Closing? ==> ClosingInv(c))
    && (c.phase.Rejoining? ==> RejoiningInv(c))
  }

  // ----- the steps keep it -----

  lemma WriteShape<V>(c: Cluster<V>, b: nat, v: V, up: seq<bool>)
    requires Inv(c) && b < Banks(c) && |up| == |c.nodes|
    ensures var c' := Write(c, b, v, up);
            Shaped(c') && Banks(c') == Banks(c) && Safe(c')
            && (forall i, x :: 0 <= i < |c.nodes| && x in c'.nodes[i].queue ==> x < Banks(c))
  {
    var c' := Write(c, b, v, up);
    forall i, x | 0 <= i < |c'.nodes| && c'.nodes[i].state == CONNECTED && x in c'.latest ensures Current(c', i, x) {
      assert c.nodes[i].state == CONNECTED;
      if x != b {
        assert Current(c, i, x);
      }
    }
  }

  /** A write by any thread, at any moment of a recovery */
  lemma WriteKeeps<V>(c: Cluster<V>, b: nat, v: V, up: seq<bool>)
    requires Inv(c) && b < Banks(c) && |up| == |c.nodes|
    ensures Inv(Write(c, b, v, up))
  {
    WriteShape(c, b, v, up);
    var c' := Write(c, b, v, up);
    if c.phase.Copying? {
      var p := c.phase;
      forall x | x in c'.latest && x !in c'.phase.missed ensures Current(c', p.donor, x) {
        assert Current(c, p.donor, x);
      }
    } else if c.phase.Replaying? {
      var p := c.phase;
      var q, q' := c.nodes[p.donor].queue, c'.nodes[p.donor].queue;
      assert q'[..p.pos] == q[..p.pos] && q'[p.pos..] == q[p.pos..] + [b];
      forall x | x in c'.latest && x !in q'[p.pos..]
        ensures Current(c', p.donor, x)
        ensures x in p.copied || x in q[..p.pos] ==> Current(c', p.target, x)
      {
        assert b in q'[p.pos..];
        assert Current(c, p.donor, x);
      }
    } else if c.phase.Closing? || c.phase.Rejoining? {
      WriteClosingKeeps(c, b, v, up);
    }
  }

  lemma WriteClosingKeeps<V>(c: Cluster<V>, b: nat, v: V, up: seq<bool>)
    requires Inv(c) && b < Banks(c) && |up| == |c.nodes|
    ensures var c' := Write(c, b, v, up);
            (c'.phase.Closing? ==> ClosingInv(c')) && (c'.phase.Rejoining? ==> RejoiningInv(c'))
  {
    var p, c' := c.phase, Write(c, b, v, up);
    forall x | x in c.latest && x != b
      ensures forall i :: 0 <= i < |c.nodes| && Current(c, i, x) ==> Current(c', i, x)
    {
    }
  }

  lemma FailReadKeeps<V>(c: Cluster<V>, i: nat)
    requires Inv(c) && i < |c.nodes|
    ensures Inv(FailRead(c, i))
  {
    var c' := FailRead(c, i);
    forall k, x | 0 <= k < |c'.nodes| && c'.nodes[k].state == CONNECTED && x in c'.latest ensures Current(c', k, x) {
      assert Current(c, k, x);
    }
    if c.phase.Copying? {
      forall x | x in c.latest && x !in c.phase.missed ensures Current(c', c.phase.donor, x) {
        assert Current(c, c.phase.donor, x);
      }
    }
    if c.phase.Replaying? {
      var rest := c.nodes[c.phase.donor].queue[c.phase.pos..];
      forall x | x in c.latest && x !in rest
        ensures Current(c', c.phase.donor, x)
        ensures x in c.phase.copied || x in c.nodes[c.phase.donor].queue[..c.phase.pos] ==>
                  Current(c', c.phase.target, x)
      {
        assert Current(c, c.phase.donor, x);
      }
    }
    assert forall k, x :: 0 <= k < |c.nodes| && Current(c, k, x) ==> Current(c', k, x);
  }

  lemma StartKeeps<V>(c: Cluster<V>, target: nat, blank: seq<V>, full: bool, journal: seq<nat>)
    requires Inv(c) && target < |c.nodes| && |blank| == Banks(c)
    ensures Inv(Start(c, target, blank, full, journal))
  {
    var c' := Start(c, target, blank, full, journal);
    var nodes := SetState(c.nodes, target, RECONNECT);
    assert nodes[0..] == nodes;
    AliveWhenCounted(nodes, 0);
    forall k, x | 0 <= k < |c'.nodes| && c'.nodes[k].state == CONNECTED && x in c'.latest ensures Current(c', k, x) {
      assert Current(c, k, x);
    }
    if c'.phase.Copying? && c.phase == Idle {
      forall x | x in c.latest ensures Current(c', c'.phase.donor, x) {
        assert Current(c, c'.phase.donor, x);
      }
    }
  }

  lemma CopyKeeps<V>(c: Cluster<V>, b: nat, o: Outcome, junk: V)
    requires Inv(c) && ToCopy(c, b) && o != ThirdDown
    ensures Inv(Copy(c, b, o, junk))
  {
    var c' := Copy(c, b, o, junk);
    forall k, x | 0 <= k < |c'.nodes| && c'.nodes[k].state == CONNECTED && x in c'.latest ensures Current(c', k, x) {
      assert Current(c, k, x);
    }
    if c'.phase.Copying? {
      forall x | x in c.latest && x !in c.phase.missed ensures Current(c', c.phase.donor, x) {
        assert Current(c, c.phase.donor, x);
      }
    }
  }

  lemma ReplayKeeps<V>(c: Cluster<V>, o: Outcome)
    requires Inv(c) && ToReplay(c)
    ensures Inv(Replay(c, o))
  {
    var p := c.phase;
    var c' := Replay(c, o);
    forall k, x | 0 <= k < |c'.nodes| && c'.nodes[k].state == CONNECTED && x in c'.latest ensures Current(c', k, x) {
      assert Current(c, k, x);
    }
    if o == Done {
      var third := FindAlive(c.nodes, 0);
      var q := c.nodes[p.donor].queue;
      var b := q[p.pos];
      assert q[p.pos..] == [b] + q[p.pos + 1..];
      assert q[..p.pos + 1] == q[..p.pos] + [b];
      forall x | x in c.latest && x !in q[p.pos + 1..]
        ensures Current(c', p.donor, x)
        ensures x in p.copied || x in q[..p.pos + 1] ==> Current(c', p.target, x)
      {
        if x == b {
          assert Current(c, third, x);
        } else {
          assert Current(c, p.donor, x);
        }
      }
    }
  }

  // ----- what one step of a recovery does -----

  // ----- how a recovery ends -----

  lemma EndCopyToReplayKeeps<V>(c: Cluster<V>)
    requires Inv(c) && CopyOver(c) && !c.phase.single
    ensures Inv(EndCopy(c))
  {
    var p := c.phase;
    var c' := EndCopy(c);
    var q := c.nodes[p.donor].queue;
    assert q[0..] == q;
    forall k, x | 0 <= k < |c'.nodes| && c'.nodes[k].state == CONNECTED && x in c'.latest ensures Current(c', k, x) {
      assert Current(c, k, x);
    }
    forall x | x in c.latest && x !in q
      ensures Current(c', p.donor, x) && (x in p.copied ==> Current(c', p.target, x))
    {
      assert Current(c, p.donor, x);
    }
  }

  lemma EndCopyToCloseKeeps<V>(c: Cluster<V>)
    requires Inv(c) && CopyOver(c) && c.phase.single
    ensures Inv(EndCopy(c))
  {
    var p, c' := c.phase, EndCopy(c);
    forall k, x | 0 <= k < |c'.nodes| && c'.nodes[k].state == CONNECTED && x in c'.latest ensures Current(c', k, x) {
      assert Current(c, k, x);
    }
    forall x | x in c.latest && x !in p.missed
      ensures Current(c', p.donor, x) && (x in p.copied ==> Current(c', p.target, x))
    {
      assert Current(c, p.donor, x);
    }
  }

  lemma EndReplayKeeps<V>(c: Cluster<V>)
    requires Inv(c) && ReplayOver(c)
    ensures Inv(EndReplay(c))
  {
    var p, c' := c.phase, EndReplay(c);
    var q := c.nodes[p.donor].queue;
    assert q[..p.pos] == q && q[p.pos..] == [];
    forall k, x | 0 <= k < |c'.nodes| && c'.nodes[k].state == CONNECTED && x in c'.latest ensures Current(c', k, x) {
      assert Current(c, k, x);
    }
    forall x | x in c.latest ensures Current(c', p.donor, x) && (x in c'.phase.done ==> Current(c', p.target, x)) {
      assert Current(c, p.donor, x);
    }
  }

  lemma FreeQueueKeeps<V>(c: Cluster<V>)
    requires Inv(c) && ToFreeQueue(c)
    ensures Inv(FreeQueue(c)) && ToClose(FreeQueue(c))
  {
    var p, c' := c.phase, FreeQueue(c);
    forall k, x | 0 <= k < |c.nodes| && Current(c, k, x) ensures Current(c', k, x) {
    }
  }

  /** The donor has every bank written since the loop ended, or with one server
      alive since the copy began */
  ghost predicate DonorHas<V>(c: Cluster<V>)
    requires c.phase.Closing? && c.phase.donor < |c.nodes|
  {
    forall b :: b in c.phase.missed ==> Current(c, c.phase.donor, b)
  }

  /** Connecting the donor is right exactly when it has those banks, so surely when
      there are none */
  lemma DonorBackExact<V>(c: Cluster<V>)
    requires Inv(c) && ToClose(c)
    ensures Safe(DonorBack(c)) <==> DonorHas(c)
    ensures Safe(DonorBack(c)) <==> Inv(DonorBack(c))
    ensures c.phase.missed == {} ==> Inv(DonorBack(c))
  {
    var p, c' := c.phase, DonorBack(c);
    assert forall k, x :: 0 <= k < |c.nodes| && x in c.latest ==> Current(c', k, x) == Current(c, k, x);
    if DonorHas(c) {
      forall k, x | 0 <= k < |c'.nodes| && c'.nodes[k].state == CONNECTED && x in c'.latest ensures Current(c', k, x) {
        assert Current(c, k, x);
      }
    } else {
      var b :| b in p.missed && !Current(c, p.donor, b);
      assert !Current(c', p.donor, b);
    }
    forall x | x in c.latest && x !in p.missed && x in p.done ensures Current(c', p.target, x) {
      assert Current(c, p.target, x);
    }
  }

  /** The cluster with another value in one bank of one server */
  function Holding<V>(c: Cluster<V>, i: nat, b: nat, v: V): Cluster<V>
    requires i < |c.nodes| && b < |c.nodes[i].banks|
  {
    c.(nodes := StoreBank(c.nodes, i, b, v))
  }

  lemma HoldingInv<V>(c: Cluster<V>, b: nat, v: V)
    requires Inv(c) && c.phase.Closing? && b in c.phase.missed
    ensures c.phase.donor < |c.nodes| && b < |c.nodes[c.phase.donor].banks|
    ensures var c' := Holding(c, c.phase.donor, b, v);
            Inv(c') && (Current(c', c.phase.donor, b) <==> v == c.latest[b])
  {
    var p, c' := c.phase, Holding(c, c.phase.donor, b, v);
    assert forall k, x :: 0 <= k < |c.nodes| && (k != p.donor || x != b) && Current(c, k, x) ==> Current(c', k, x);
  }

  /** The exact condition: connecting the donor is right, whatever it may hold of the
      banks it missed, exactly when it missed none. x and y are two values. */
  lemma DonorBackIff<V(!new)>(c: Cluster<V>, x: V, y: V)
    requires Inv(c) && ToClose(c) && x != y
    ensures (forall b, v: V ::
               b in c.phase.missed && b < |c.nodes[c.phase.donor].banks| ==>
                 Safe(DonorBack(Holding(c, c.phase.donor, b, v))))
       <==> c.phase.missed == {}
  {
    if c.phase.missed != {} {
      var b :| b in c.phase.missed;
      assert b in c.latest;
      var v := if c.latest[b] == x then y else x;
      HoldingInv(c, b, v);
      DonorBackExact(Holding(c, c.phase.donor, b, v));
      assert !Safe(DonorBack(Holding(c, c.phase.donor, b, v)));
    }
  }

  /** The returning server has every bank that was neither copied nor replayed, or
      was written since */
  ghost predicate TargetHas<V>(c: Cluster<V>)
    requires (c.phase.Closing? || c.phase.Rejoining?) && c.phase.target < |c.nodes|
  {
    forall b :: b in c.latest && (b in c.phase.missed || b !in c.phase.done) ==> Current(c, c.phase.target, b)
  }

  /** Every written bank was copied or replayed, and none written since */
  ghost predicate Covered<V>(c: Cluster<V>)
    requires c.phase.Closing? || c.phase.Rejoining?
  {
    c.phase.missed == {} && forall b :: b in c.latest ==> b in c.phase.done
  }

  /** The recovery ends well exactly when the returning server has what was neither
      copied nor replayed, or was written since; so surely when there is no such
      bank */
  lemma FinishExact<V>(c: Cluster<V>)
    requires Inv(c) && ToFinish(c)
    ensures Safe(Finish(c)) <==> TargetHas(c)
    ensures Safe(Finish(c)) <==> Inv(Finish(c))
    ensures Covered(c) ==> Inv(Finish(c))
  {
    var p, c' := c.phase, Finish(c);
    assert forall k, x :: 0 <= k < |c.nodes| && x in c.latest ==> Current(c', k, x) == Current(c, k, x);
    if TargetHas(c) {
      forall k, x | 0 <= k < |c'.nodes| && c'.nodes[k].state == CONNECTED && x in c'.latest ensures Current(c', k, x) {
        assert Current(c, k, x);
      }
    } else {
      var b :| b in c.latest && (b in p.missed || b !in p.done) && !Current(c, p.target, b);
      assert !Current(c', p.target, b);
    }
  }

  lemma HoldingRejoins<V>(c: Cluster<V>, b: nat, v: V)
    requires Inv(c) && ToFinish(c) && b in c.latest && (b in c.phase.missed || b !in c.phase.done)
    ensures b < |c.nodes[c.phase.target].banks|
    ensures var c' := Holding(c, c.phase.target, b, v);
            Inv(c') && ToFinish(c') && (Current(c', c.phase.target, b) <==> v == c.latest[b])
  {
    var p, c' := c.phase, Holding(c, c.phase.target, b, v);
    assert forall k, x :: 0 <= k < |c.nodes| && (k != p.target || x != b) && Current(c, k, x) ==> Current(c', k, x);
  }

  /** The exact condition: connecting the returning server is right, whatever it may
      hold of the banks that did not reach it, exactly when every written bank
      was copied or replayed and none written since */
  lemma FinishIff<V(!new)>(c: Cluster<V>, x: V, y: V)
    requires Inv(c) && ToFinish(c) && x != y
    ensures (forall b, v: V ::
               b in c.latest && (b in c.phase.missed || b !in c.phase.done)
               && b < |c.nodes[c.phase.target].banks| ==>
                 Safe(Finish(Holding(c, c.phase.target, b, v))))
       <==> Covered(c)
  {
    if !Covered(c) {
      var b :| b in c.latest && (b in c.phase.missed || b !in c.phase.done);
      var v := if c.latest[b] == x then y else x;
      HoldingRejoins(c, b, v);
      FinishExact(Holding(c, c.phase.target, b, v));
      assert !Safe(Finish(Holding(c, c.phase.target, b, v)));
    }
  }

  /** Both reconnections without a write between them */
  lemma CloseExact<V>(c: Cluster<V>)
    requires Inv(c) && ToClose(c)
    ensures ToFinish(DonorBack(c)) && c.phase.target < |c.nodes|
    ensures Safe(Finish(DonorBack(c))) <==> DonorHas(c) && TargetHas(c)
    ensures Covered(c) ==> Inv(Finish(DonorBack(c)))
  {
    var p, c1 := c.phase, DonorBack(c);
    DonorBackExact(c);
    assert forall k, x :: 0 <= k < |c.nodes| && x in c.latest ==> Current(c1, k, x) == Current(c, k, x);
    if DonorHas(c) {
      FinishExact(c1);
    } else {
      var b :| b in p.missed && !Current(c, p.donor, b);
      assert !Current(Finish(c1), p.donor, b);
    }
  }

  /** From the end of the copy with one server alive: right exactly when the donor
      has every bank written meanwhile and the returning server besides those
      every one that was not copied */
  lemma SingleEndExact<V>(c: Cluster<V>)
    requires Inv(c) && CopyOver(c) && c.phase.single
    ensures ToClose(EndCopy(c)) && ToFinish(DonorBack(EndCopy(c))) && c.phase.target < |c.nodes|
    ensures var c' := Finish(DonorBack(EndCopy(c)));
            && (Safe(c') <==> DonorHas(EndCopy(c)) && TargetHas(EndCopy(c)))
            && (Covered(EndCopy(c)) ==> Inv(c'))
  {
    EndCopyToCloseKeeps(c);
    CloseExact(EndCopy(c));
  }

  /** From the end of the replay loop: right exactly when the returning server has
      every bank that was neither copied nor replayed */
  lemma ReplayEndExact<V>(c: Cluster<V>)
    requires Inv(c) && ReplayOver(c)
    ensures ToFreeQueue(EndReplay(c)) && ToClose(FreeQueue(EndReplay(c)))
    ensures ToFinish(DonorBack(FreeQueue(EndReplay(c))))
    ensures var c' := Finish(DonorBack(FreeQueue(EndReplay(c))));
            && (Safe(c') <==> TargetHas(EndReplay(c)))
            && (Covered(EndReplay(c)) ==> Inv(c'))
  {
    var c1 := EndReplay(c);
    EndReplayKeeps(c);
    FreeQueueKeeps(c1);
    CloseExact(FreeQueue(c1));
    assert forall k, x :: 0 <= k < |c1.nodes| && x in c1.latest ==> Current(FreeQueue(c1), k, x) == Current(c1, k, x);
  }

  // ----- whole runs -----

  datatype Event<V> =
    | Written(bank: nat, value: V, up: seq<bool>)
    | ReadFailed(server: nat)
    | Returned(server: nat, blank: seq<V>, full: bool, journal: seq<nat>)
    | Copied(bank: nat, outcome: Outcome, junk: V)
    | CopyEnded
    | Replayed(outcome: Outcome)
    | ReplayEnded
    | QueueFreed
    | DonorReturned
    | Finished

  predicate InRange<V>(c: Cluster<V>) {
    c.phase.Copying? ==> c.phase.target < |c.nodes| && c.phase.donor < |c.nodes|
  }

  /** The events that can happen next */
  predicate Enabled<V>(c: Cluster<V>, e: Event<V>) {
    && Shaped(c) && InRange(c)
    && match e
       case Written(b, v, up) => b < Banks(c) && |up| == |c.nodes|
       case ReadFailed(i) => i < |c.nodes|
       case Returned(i, blank, _, _) => i < |c.nodes| && |blank| == Banks(c)
       case Copied(b, o, _) => ToCopy(c, b) && o != ThirdDown
       case CopyEnded => CopyOver(c)
       case Replayed(_) => ToReplay(c)
       case ReplayEnded => ReplayOver(c)
       case QueueFreed => ToFreeQueue(c)
       case DonorReturned => ToClose(c)
       case Finished => ToFinish(c)
  }

  function Apply<V>(c: Cluster<V>, e: Event<V>): Cluster<V>
    requires Enabled(c, e)
  {
    match e
    case Written(b, v, up) => Write(c, b, v, up)
    case ReadFailed(i) => FailRead(c, i)
    case Returned(i, blank, full, journal) => Start(c, i, blank, full, journal)
    case Copied(b, o, junk) => Copy(c, b, o, junk)
    case CopyEnded => EndCopy(c)
    case Replayed(o) => Replay(c, o)
    case ReplayEnded => EndReplay(c)
    case QueueFreed => FreeQueue(c)
    case DonorReturned => DonorBack(c)
    case Finished => Finish(c)
  }

  /** The server a recovery of this one would copy from, if any is connected, has no
      freed nodes in its queue */
  predicate FreshDonor<V>(c: Cluster<V>, target: nat)
    requires target < |c.nodes|
  {
    var d := DonorFor(c.nodes, target);
    d < |c.nodes| ==> c.nodes[d].freed == 0
  }

  /** The server that a recovery of this one copies from, or the number of servers */
  function DonorFor<V>(nodes: seq<Node<V>>, target: nat): nat
    requires target < |nodes|
  {
    FindAlive(SetState(nodes, target, RECONNECT), 0)
  }

  /** Recovery is asked to copy every bank, from a donor without freed nodes in its
      queue, and nobody writes from the end of its last loop, or with one server
      alive from the start of its copy, until both servers are connected again */
  ghost predicate Careful<V>(c: Cluster<V>, e: Event<V>) {
    match e
    case Written(_, _, _) => !LinksFreed(c)
    case Returned(i, _, full, _) => full && (c.phase == Idle && i < |c.nodes| ==> FreshDonor(c, i))
    case DonorReturned => c.phase.Closing? && c.phase.missed == {}
    case Finished => c.phase.Rejoining? && c.phase.missed == {}
    case _ => true
  }

  ghost predicate FreedLast<V>(c: Cluster<V>) {
    forall i :: 0 <= i < |c.nodes| && c.nodes[i].state == RECOVERING && c.nodes[i].freed > 0 ==>
      c.phase.Closing? && !c.phase.toFree && c.phase.donor == i
  }

  ghost predicate Marked<V>(c: Cluster<V>) {
    && (c.phase.Copying? ==> c.phase.full)
    && (c.phase.Replaying? ==> forall b: nat :: b < Banks(c) ==> b in c.phase.copied)
    && (c.phase.Closing? || c.phase.Rejoining? ==> forall b: nat :: b < Banks(c) ==> b in c.phase.done)
  }

  /** A careful recovery copies every bank before it ends, and a donor has no freed
      nodes in its queue until it frees them */
  ghost predicate FullInv<V>(c: Cluster<V>) {
    && Inv(c)
    && FreedLast(c)
    && Marked(c)
  }

  /** A full copy that ran to its end reached every bank */
  lemma FullCopyCovers<V>(c: Cluster<V>)
    requires Inv(c) && CopyOver(c)
    ensures c.phase.full ==> forall b: nat :: b < Banks(c) ==> b in c.phase.copied
  {
    forall b: nat | c.phase.full && b < Banks(c) ensures b in c.phase.copied {
      assert !ToCopy(c, b);
    }
  }

  lemma FreedLastStep<V>(c: Cluster<V>, e: Event<V>)
    requires FreedLast(c) && Inv(c) && Enabled(c, e) && Careful(c, e)
    ensures FreedLast(Apply(c, e))
  {
    hide Safe, CopyInv, ReplayInv, ClosingInv, RejoiningInv, CountAlive;
    if e.Returned? && c.phase == Idle {
      var nodes := SetState(c.nodes, e.server, RECONNECT);
      AliveWhenCounted(nodes, 0);
      assert nodes[0..] == nodes;
    }
  }

  lemma InvStep<V>(c: Cluster<V>, e: Event<V>)
    requires FullInv(c) && Enabled(c, e) && Careful(c, e)
    ensures Inv(Apply(c, e))
  {
    hide FreedLast, Safe, CopyInv, ReplayInv, ClosingInv, RejoiningInv, FindAlive, CountAlive;
    match e
    case Written(b, v, up) => WriteKeeps(c, b, v, up);
    case ReadFailed(i) => FailReadKeeps(c, i);
    case Returned(i, blank, full, journal) => StartKeeps(c, i, blank, full, journal);
    case Copied(b, o, junk) => CopyKeeps(c, b, o, junk);
    case CopyEnded =>
      if c.phase.single {
        EndCopyToCloseKeeps(c);
      } else {
        EndCopyToReplayKeeps(c);
      }
    case Replayed(o) => ReplayKeeps(c, o);
    case ReplayEnded => EndReplayKeeps(c);
    case QueueFreed => FreeQueueKeeps(c);
    case DonorReturned => DonorBackExact(c);
    case Finished => FinishExact(c);
  }

  lemma MarkedStep<V>(c: Cluster<V>, e: Event<V>)
    requires FullInv(c) && Enabled(c, e) && Careful(c, e)
    ensures Marked(Apply(c, e))
  {
    if e.CopyEnded? {
      FullCopyCovers(c);
    } else if e.Written? {
      WriteShape(c, e.bank, e.value, e.up);
    }
    hide FreedLast, Safe, CopyInv, ReplayInv, ClosingInv, RejoiningInv, CountAlive, FindAlive;
  }

  lemma CarefulStep<V>(c: Cluster<V>, e: Event<V>)
    requires FullInv(c) && Enabled(c, e) && Careful(c, e)
    ensures FullInv(Apply(c, e))
  {
    hide Inv, FreedLast, Marked, Enabled, Careful, Apply;
    FreedLastStep(c, e);
    InvStep(c, e);
    MarkedStep(c, e);
  }

  /** Any run, careful or not */
  ghost predicate Trace<V>(states: seq<Cluster<V>>, events: seq<Event<V>>) {
    && |states| == |events| + 1
    && states[0].phase == Idle && states[0].latest == map[] && Shaped(states[0])
    && (forall i :: 0 <= i < |states[0].nodes| ==> states[0].nodes[i].queue == [] && states[0].nodes[i].freed == 0)
    && forall k :: 0 <= k < |events| ==> StepOf(states[k], events[k], states[k + 1])
  }

  ghost predicate StepOf<V>(c: Cluster<V>, e: Event<V>, c': Cluster<V>) {
    Enabled(c, e) && c' == Apply(c, e)
  }

  ghost predicate Run<V>(states: seq<Cluster<V>>, events: seq<Event<V>>) {
    Trace(states, events) && forall k :: 0 <= k < |events| ==> Careful(states[k], events[k])
  }

  /** Replication safety: in every state of every run with careful recoveries,
      whatever fails and whoever writes outside the closing of a recovery, each
      connected server holds the latest value of every bank ever written; no
      replay meets a freed node, and no write links one but between the freeing of
      a queue and the reconnection after it */
  lemma {:induction false} RunSafe<V>(states: seq<Cluster<V>>, events: seq<Event<V>>, n: nat)
    requires Run(states, events) && n < |states|
    ensures FullInv(states[n]) && Safe(states[n])
    ensures !MeetsFreed(states[n])
    ensures LinksFreed(states[n]) ==> states[n].phase.Closing? && !states[n].phase.toFree
    decreases n
  {
    hide Careful, Apply;
    if n > 0 {
      RunSafe(states, events, n - 1);
      assert StepOf(states[n - 1], events[n - 1], states[n - 1 + 1]);
      CarefulStep(states[n - 1], events[n - 1]);
    }
  }

  // ----- freed nodes -----

  /** Before state n server i ended the replay of an earlier recovery with nodes in
      its queue */
  ghost predicate FreedBefore<V>(states: seq<Cluster<V>>, events: seq<Event<V>>, n: nat, i: nat)
    requires |states| == |events| + 1 && n < |states|
  {
    exists k :: 0 <= k < n && FreesAt(states[k], events[k], i)
  }

  ghost predicate FreesAt<V>(c: Cluster<V>, e: Event<V>, i: nat) {
    e.QueueFreed? && c.phase.Closing? && c.phase.donor == i && i < |c.nodes| && c.nodes[i].queue != []
  }

  lemma FreedStep<V>(c: Cluster<V>, e: Event<V>, i: nat)
    requires Enabled(c, e) && i < |c.nodes| && c.nodes[i].freed <= |c.nodes[i].queue|
    ensures i < |Apply(c, e).nodes| && Apply(c, e).nodes[i].freed <= |Apply(c, e).nodes[i].queue|
    ensures Apply(c, e).nodes[i].freed > 0 <==> c.nodes[i].freed > 0 || FreesAt(c, e, i)
  {
    ServersStay(c, e);
    hide CountAlive, FindAlive, Shaped, CopyOver, ToCopy;
  }

  lemma ServersStay<V>(c: Cluster<V>, e: Event<V>)
    requires Enabled(c, e)
    ensures |Apply(c, e).nodes| == |c.nodes|
  {
    if e.Returned? {
      var nodes := SetState(c.nodes, e.server, RECONNECT);
      AliveWhenCounted(nodes, 0);
      assert nodes[0..] == nodes;
    }
    hide CountAlive;
  }

  lemma {:induction false} SameServers<V>(states: seq<Cluster<V>>, events: seq<Event<V>>, n: nat)
    requires Trace(states, events) && n < |states|
    ensures |states[n].nodes| == |states[0].nodes|
    decreases n
  {
    hide Apply, Enabled;
    if n > 0 {
      SameServers(states, events, n - 1);
      assert StepOf(states[n - 1], events[n - 1], states[n - 1 + 1]);
      ServersStay(states[n - 1], events[n - 1]);
    }
  }

  /** A server's queue has freed nodes exactly when it freed them so, and none is
      ever unlinked */
  lemma {:induction false} FreedIff<V>(states: seq<Cluster<V>>, events: seq<Event<V>>, n: nat, i: nat)
    requires Trace(states, events) && n < |states| && i < |states[0].nodes|
    ensures i < |states[n].nodes| && states[n].nodes[i].freed <= |states[n].nodes[i].queue|
    ensures states[n].nodes[i].freed > 0 <==> FreedBefore(states, events, n, i)
    decreases n
  {
    hide Apply, Enabled, FreesAt;
    if n > 0 {
      FreedIff(states, events, n - 1, i);
      assert StepOf(states[n - 1], events[n - 1], states[n - 1 + 1]);
      FreedStep(states[n - 1], events[n - 1], i);
    }
  }

  /** While it replays nothing, the donor's queue may have freed nodes; once it does,
      it has none */
  ghost predicate AtFirst<V>(c: Cluster<V>) {
    && (c.phase.Copying? ==> c.phase.donor < |c.nodes|)
    && (c.phase.Replaying? ==> c.phase.donor < |c.nodes| && (c.nodes[c.phase.donor].freed > 0 ==> c.phase.pos == 0))
  }

  lemma AtFirstStep<V>(c: Cluster<V>, e: Event<V>)
    requires AtFirst(c) && Enabled(c, e)
    ensures AtFirst(Apply(c, e))
  {
    if e.Returned? {
      var nodes := SetState(c.nodes, e.server, RECONNECT);
      AliveWhenCounted(nodes, 0);
      assert nodes[0..] == nodes;
    }
    hide CountAlive;
  }

  lemma {:induction false} AlwaysAtFirst<V>(states: seq<Cluster<V>>, events: seq<Event<V>>, n: nat)
    requires Trace(states, events) && n < |states|
    ensures AtFirst(states[n])
    decreases n
  {
    hide Apply, Enabled;
    if n > 0 {
      AlwaysAtFirst(states, events, n - 1);
      assert StepOf(states[n - 1], events[n - 1], states[n - 1 + 1]);
      AtFirstStep(states[n - 1], events[n - 1]);
    }
  }

  /** The exact condition, in every run: a replay meets a freed node, in its first
      round, exactly when its donor was the donor of an earlier recovery that ended
      its replay with nodes in the queue */
  lemma MeetsFreedIff<V>(states: seq<Cluster<V>>, events: seq<Event<V>>, n: nat)
    requires Trace(states, events) && n < |states| && states[n].phase.Replaying?
    ensures MeetsFreed(states[n]) <==> FreedBefore(states, events, n, states[n].phase.donor)
  {
    hide StepOf, FreedBefore;
    AlwaysAtFirst(states, events, n);
    SameServers(states, events, n);
    FreedIff(states, events, n, states[n].phase.donor);
  }

  /** and a write links its node behind a freed one exactly when some server that is
      still RECOVERING did so */
  lemma LinksFreedIff<V>(states: seq<Cluster<V>>, events: seq<Event<V>>, n: nat)
    requires Trace(states, events) && n < |states|
    ensures LinksFreed(states[n]) <==>
              exists i :: 0 <= i < |states[n].nodes| && states[n].nodes[i].state == RECOVERING
                          && FreedBefore(states, events, n, i)
  {
    hide StepOf, FreedBefore;
    SameServers(states, events, n);
    forall i | 0 <= i < |states[n].nodes| ensures states[n].nodes[i].freed > 0 <==> FreedBefore(states, events, n, i) {
      FreedIff(states, events, n, i);
    }
  }

  /** A recovery that found no connected server blocks every later one: whatever
      happens, recovery_in_use stays set */
  lemma StuckForever<V>(c: Cluster<V>, e: Event<V>)
    requires Inv(c) && c.phase == Stuck && Enabled(c, e)
    ensures Apply(c, e).phase == Stuck
    ensures e.Returned? ==> Apply(c, e) == c
  {
  }

  // ----- what the shipped configuration does -----

  function ThreeServers(): Cluster<int> {
    Cluster([Node(CONNECTED, [0], [], 0), Node(CONNECTED, [0], [], 0), Node(CONNECTED, [0], [], 0)], map[], Idle)
  }

  /** The start of a recovery of server 2 by server 0 */
  lemma StartOfThree(c: Cluster<int>, full: bool)
    requires c.phase == Idle && |c.nodes| == 3
    requires c.nodes[0].state == c.nodes[1].state == CONNECTED
    ensures Start(c, 2, [0], full, [])
            == Cluster([c.nodes[0].(state := RECOVERING), c.nodes[1], c.nodes[2].(state := RECONNECT, banks := [0])],
                       c.latest, Copying(2, 0, false, full, [], {}, {}, {}))
  {
    var nodes := SetState(c.nodes, 2, RECONNECT);
    assert nodes[0..] == nodes;
    assert nodes[1..][1..] == nodes[2..] && nodes[2..][1..] == [];
    assert CountAlive(nodes[2..]) == 0;
    assert CountAlive(nodes[1..]) == 1;
    assert CountAlive(nodes) == 2;
    assert Start(c, 2, [0], full, []).nodes
           == [c.nodes[0].(state := RECOVERING), c.nodes[1], c.nodes[2].(state := RECONNECT, banks := [0])];
  }

  /** A bank written while server 2 is down, and the start of its recovery */
  lemma Restarted(full: bool)
    ensures var c1 := Write(ThreeServers(), 0, 7, [true, true, false]);
            Start(c1, 2, [0], full, [])
            == Cluster([Node(RECOVERING, [7], [], 0), Node(CONNECTED, [7], [], 0), Node(RECONNECT, [0], [], 0)],
                       map[0 := 7], Copying(2, 0, false, full, [], {}, {}, {}))
  {
    var c1 := Write(ThreeServers(), 0, 7, [true, true, false]);
    assert [0][0 := 7] == [7];
    assert c1.nodes == [Node(CONNECTED, [7], [], 0), Node(CONNECTED, [7], [], 0), Node(DISCONNECT, [0], [], 0)];
    hide Start;
    StartOfThree(c1, full);
  }

  /** From there: copied, with a write on the way that the donor queues */
  function Midway(): Cluster<int> {
    Cluster([Node(RECOVERING, [7], [0], 0), Node(CONNECTED, [9], [], 0), Node(RECONNECT, [7], [], 0)], map[0 := 9],
            Replaying(2, 0, {0}, 0))
  }

  lemma CopiedOnce()
    ensures var c2 := Start(Write(ThreeServers(), 0, 7, [true, true, false]), 2, [0], true, []);
            ToCopy(c2, 0)
            && var c3 := Write(Copy(c2, 0, Done, 0), 0, 9, [true, true, true]);
               CopyOver(c3) && EndCopy(c3) == Midway()
  {
    Restarted(true);
    var c2 := Start(Write(ThreeServers(), 0, 7, [true, true, false]), 2, [0], true, []);
    hide Start, CountAlive;
    assert [7][0 := 9] == [9];
    var c3 := Write(Copy(c2, 0, Done, 0), 0, 9, [true, true, true]);
    assert c3.nodes[0] == Node(RECOVERING, [7], [0], 0) && c3.nodes[1] == Node(CONNECTED, [9], [], 0);
    assert c3.nodes == Midway().nodes && c3.phase == Copying(2, 0, false, true, [], {0}, {0}, {0});
    assert CopyOver(c3);
  }

  /** and replayed: every server is connected, and a freed node is left */
  function Served(): Cluster<int> {
    Cluster([Node(CONNECTED, [9], [0], 1), Node(CONNECTED, [9], [], 0), Node(CONNECTED, [9], [], 0)], map[0 := 9], Idle)
  }

  lemma RecoveredOnce()
    ensures ToReplay(Midway())
            && var c4 := Replay(Midway(), Done);
               ReplayOver(c4) && Finish(DonorBack(FreeQueue(EndReplay(c4)))) == Served()
  {
    var c4 := Replay(Midway(), Done);
    assert [7][0 := 9] == [9];
    assert c4.nodes[0] == Node(RECOVERING, [9], [0], 0) && c4.nodes[2] == Node(RECONNECT, [9], [], 0);
    assert Finish(DonorBack(FreeQueue(EndReplay(c4)))).nodes == Served().nodes;
  }

  /** Server 2 misses another write and returns */
  function Again(): Cluster<int> {
    Cluster([Node(RECOVERING, [5], [0], 1), Node(CONNECTED, [5], [], 0), Node(RECONNECT, [0], [], 0)], map[0 := 5],
            Copying(2, 0, false, true, [], {}, {}, {}))
  }

  lemma ServedSafe()
    ensures FullInv(Served()) && FullInv(Write(Served(), 0, 5, [true, true, false]))
  {
    WriteKeeps(Served(), 0, 5, [true, true, false]);
    var c := Write(Served(), 0, 5, [true, true, false]);
    hide Inv;
    assert FreedLast(Served()) && FreedLast(c);
  }

  lemma RestartedAgain()
    ensures var c := Write(Served(), 0, 5, [true, true, false]);
            !FreshDonor(c, 2) && Start(c, 2, [0], true, []) == Again()
  {
    var c := Write(Served(), 0, 5, [true, true, false]);
    assert [9][0 := 5] == [5];
    assert c.nodes == [Node(CONNECTED, [5], [0], 1), Node(CONNECTED, [5], [], 0), Node(DISCONNECT, [9], [], 0)];
    hide Start, CountAlive, WriteNodes;
    StartOfThree(c, true);
    assert FindAlive(SetState(c.nodes, 2, RECONNECT), 0) == 0;
  }

  /** A second recovery with the same donor, in a run that is careful up to its
      start: with a third server connected and nothing in its way the replay
      loop reads the node that the first one freed */
  lemma FreedNodeMet()
    ensures var c1 := Write(Served(), 0, 5, [true, true, false]);
            var c2 := Start(c1, 2, [0], true, []);
            FullInv(Served()) && FullInv(c1) && !FreshDonor(c1, 2) && ToCopy(c2, 0) && c2.phase.donor == 0
            && var c3 := Copy(c2, 0, Done, 0);
               CopyOver(c3)
               && var c4 := EndCopy(c3);
                  FindAlive(c4.nodes, 0) < |c4.nodes| && MeetsFreed(c4) && !ToReplay(c4) && !ReplayOver(c4)
  {
    ServedSafe();
    RestartedAgain();
    hide Start, FullInv, FreshDonor;
    var c4 := EndCopy(Copy(Again(), 0, Done, 0));
    assert c4.nodes[1].state == CONNECTED && c4.nodes[0] == Again().nodes[0];
  }

  /** use_bank_len is never raised and the journal never filled, so as shipped a
      recovery copies nothing: a bank written before the failure is lost on the
      server that comes back, which is marked connected all the same */
  lemma ShippedRecoveryCopiesNothing()
    ensures var c1 := Write(ThreeServers(), 0, 7, [true, true, false]);
            var c2 := Start(c1, 2, [0], false, []);
            CopyOver(c2) && Inv(c2)
            && ReplayOver(EndCopy(c2))
            && var c3 := Finish(DonorBack(FreeQueue(EndReplay(EndCopy(c2)))));
               c3.nodes[2].state == CONNECTED && !Safe(c3)
  {
    var c := ThreeServers();
    var c1 := Write(c, 0, 7, [true, true, false]);
    WriteKeeps(c, 0, 7, [true, true, false]);
    StartKeeps(c1, 2, [0], false, []);
    Restarted(false);
    var c2 := Start(c1, 2, [0], false, []);
    hide Start, Write, Inv;
    assert !Current(Finish(DonorBack(FreeQueue(EndReplay(EndCopy(c2))))), 2, 0);
  }

  function TwoServers(): Cluster<int> {
    Cluster([Node(CONNECTED, [0], [], 0), Node(CONNECTED, [0], [], 0)], map[], Idle)
  }

  /** With one server alive, a write during the copy is only queued, and the queue
      is not replayed: both servers end connected without it */
  lemma SingleCopyLosesWrite()
    ensures var c1 := Write(TwoServers(), 0, 5, [true, false]);
            var c2 := Start(c1, 1, [0], true, []);
            ToCopy(c2, 0)
            && var c3 := Write(Copy(c2, 0, Done, 0), 0, 9, [true, true]);
               CopyOver(c3) && c3.latest[0] == 9
               && var c4 := Finish(DonorBack(EndCopy(c3)));
                  c4.nodes[0] == Node(CONNECTED, [5], [0], 0) && c4.nodes[1] == Node(CONNECTED, [5], [], 0)
                  && !Safe(c4)
  {
    var c1 := Write(TwoServers(), 0, 5, [true, false]);
    var nodes := SetState(c1.nodes, 1, RECONNECT);
    assert nodes[0..] == nodes && nodes[1..][1..] == [];
    assert CountAlive(nodes[1..]) == 0;
    AliveWhenCounted(nodes, 0);
    var c2 := Start(c1, 1, [0], true, []);
    assert c2.nodes[0] == Node(RECOVERING, [5], [], 0) && c2.nodes[1] == Node(RECONNECT, [0], [], 0);
    assert c2.phase == Copying(1, 0, true, true, [], {}, {}, {});
    hide Start, CountAlive, FindAlive;
    var c3 := Write(Copy(c2, 0, Done, 0), 0, 9, [true, true]);
    assert c3.nodes[0] == Node(RECOVERING, [5], [0], 0) && c3.nodes[1] == Node(RECONNECT, [5], [], 0);
    assert !Current(Finish(DonorBack(EndCopy(c3))), 0, 0);
  }

  /** With a third server alive, a write after the last test of the replay loop is
      queued at the donor and freed with the queue: both servers end connected
      without it, the third one with it */
  lemma ClosingWriteLost()
    ensures var c1 := Write(ThreeServers(), 0, 7, [true, true, false]);
            var c2 := Start(c1, 2, [0], true, []);
            ToCopy(c2, 0)
            && var c3 := Copy(c2, 0, Done, 0);
               CopyOver(c3) && ReplayOver(EndCopy(c3))
               && var c4 := Write(EndReplay(EndCopy(c3)), 0, 9, [true, true, true]);
                  var c5 := Finish(DonorBack(FreeQueue(c4)));
                  c5.nodes == [Node(CONNECTED, [7], [0], 1), Node(CONNECTED, [9], [], 0), Node(CONNECTED, [7], [], 0)]
                  && !Safe(c5)
  {
    var c2 := Start(Write(ThreeServers(), 0, 7, [true, true, false]), 2, [0], true, []);
    Restarted(true);
    hide Start, CountAlive, FindAlive;
    var c3 := Copy(c2, 0, Done, 0);
    assert c3.nodes[2] == Node(RECONNECT, [7], [], 0);
    var c4 := Write(EndReplay(EndCopy(c3)), 0, 9, [true, true, true]);
    assert c4.nodes[0] == Node(RECOVERING, [7], [0], 0) && c4.nodes[1] == Node(CONNECTED, [9], [], 0);
    assert !Current(Finish(DonorBack(FreeQueue(c4))), 0, 0);
  }
}
