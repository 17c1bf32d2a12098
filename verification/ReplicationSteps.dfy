/** The steps of the replication protocol in plain terms: which servers each of them
    touches and what it leaves in them; and runs of steps. */
module ReplicationSteps {
  import opened Replication

  // ----- single steps -----

  /** One server is marked down, and nothing else changes */
  ghost predicate OnlyDown<V>(before: seq<Node<V>>, after: seq<Node<V>>, down: nat) {
    && |after| == |before| && down < |before|
    && after[down] == Node(DISCONNECT, before[down].banks, before[down].queue, before[down].freed)
    && forall i :: 0 <= i < |before| && i != down ==> after[i] == before[i]
  }

  /** A bank's content is set at some servers, and nothing else changes */
  ghost predicate OnlyBank<V>(before: seq<Node<V>>, after: seq<Node<V>>, b: nat, v: V, at: set<nat>) {
    && |after| == |before|
    && forall i :: 0 <= i < |before| ==>
         if i in at then b < |before[i].banks| && after[i] == before[i].(banks := before[i].banks[b := v])
         else after[i] == before[i]
  }

  /** A bank copied: the returning server gets the donor's content of it and nothing
      else changes. A failed call marks down exactly the server it went to and
      ends the recovery; from the journal it marks nobody and leaves junk. */
  lemma CopyExact<V>(c: Cluster<V>, b: nat, o: Outcome, junk: V)
    requires Inv(c) && ToCopy(c, b) && o != ThirdDown
    ensures var p, c' := c.phase, Copy(c, b, o, junk);
            && c'.latest == c.latest && p.target != p.donor
            && (o == Done ==>
                  && b < |c.nodes[p.donor].banks|
                  && OnlyBank(c.nodes, c'.nodes, b, c.nodes[p.donor].banks[b], {p.target})
                  && c'.phase.Copying? && c'.phase.flagged == p.flagged + {b} && c'.phase.copied == p.copied + {b}
                  && c'.phase.missed == p.missed)
            && (o != Done && p.full ==>
                  OnlyDown(c.nodes, c'.nodes, if o == DonorDown then p.donor else p.target) && c'.phase == Idle)
            && (o != Done && !p.full ==>
                  && OnlyBank(c.nodes, c'.nodes, b, junk, {p.target})
                  && c'.phase.Copying? && c'.phase.flagged == p.flagged + {b} && c'.phase.copied == p.copied
                  && c'.phase.missed == p.missed)
  {
    hide Safe;
  }

  /** A write replayed: the donor and the returning server get the content that the
      first connected server has, and nothing else changes. A failed call marks
      down exactly the server it went to and ends the recovery; the donor keeps
      what it got before the returning server failed. */
  lemma ReplayExact<V>(c: Cluster<V>, o: Outcome)
    requires Inv(c) && ToReplay(c)
    ensures var p, c', third := c.phase, Replay(c, o), FindAlive(c.nodes, 0);
            var b := c.nodes[p.donor].queue[p.pos];
            && c'.latest == c.latest && third != p.donor && third != p.target && p.target != p.donor
            && c.nodes[third].state == CONNECTED && b < |c.nodes[third].banks|
            && var v := c.nodes[third].banks[b];
               && (o == Done ==>
                     OnlyBank(c.nodes, c'.nodes, b, v, {p.donor, p.target})
                     && c'.phase == Replaying(p.target, p.donor, p.copied, p.pos + 1))
               && (o == ThirdDown ==> OnlyDown(c.nodes, c'.nodes, third))
               && (o == DonorDown ==> OnlyDown(c.nodes, c'.nodes, p.donor))
               && (o == TargetDown ==>
                     OnlyDown(StoreBank(c.nodes, p.donor, b, v), c'.nodes, p.target))
               && (o != Done ==> c'.phase == Idle)
  {
    hide Safe;
  }

  /** A bank write: a connected server stores the content if it answers and is marked
      down if not, a donor queues the bank, the others are passed over */
  lemma WriteExact<V>(c: Cluster<V>, b: nat, v: V, up: seq<bool>, i: nat)
    requires Shaped(c) && b < Banks(c) && |up| == |c.nodes| && i < |c.nodes|
    ensures var n, c' := c.nodes[i], Write(c, b, v, up);
            && |c'.nodes| == |c.nodes| && c'.latest == c.latest[b := v]
            && (n.state == CONNECTED && up[i] ==>
                  c'.nodes[i] == Node(CONNECTED, c'.nodes[i].banks, n.queue, n.freed)
                  && |c'.nodes[i].banks| == |n.banks|
                  && forall x :: 0 <= x < |n.banks| ==> c'.nodes[i].banks[x] == if x == b then v else n.banks[x])
            && (n.state == CONNECTED && !up[i] ==> c'.nodes[i] == Node(DISCONNECT, n.banks, n.queue, n.freed))
            && (n.state == RECOVERING ==> c'.nodes[i] == Node(RECOVERING, n.banks, n.queue + [b], n.freed))
            && (n.state == DISCONNECT || n.state == RECONNECT ==> c'.nodes[i] == n)
  {
  }

  /** A failed read marks down the server it went to, unless that one takes part in a
      recovery; then nothing happens */
  lemma FailReadExact<V>(c: Cluster<V>, i: nat)
    requires i < |c.nodes|
    ensures var c' := FailRead(c, i);
            && c'.latest == c.latest && c'.phase == c.phase
            && if c.nodes[i].state == RECOVERING || c.nodes[i].state == RECONNECT then c'.nodes == c.nodes
               else OnlyDown(c.nodes, c'.nodes, i)
  {
  }

  /** The start of a recovery: the donor is the first connected server but the
      returning one, which gets fresh memory if there is a donor; with nobody else
      connected the returning one is left waiting, and recovery stuck */
  lemma StartExact<V>(c: Cluster<V>, target: nat, blank: seq<V>, full: bool, journal: seq<nat>) returns (d: nat)
    requires c.phase == Idle && target < |c.nodes|
    ensures var c', n := Start(c, target, blank, full, journal), c.nodes[target];
            && |c'.nodes| == |c.nodes| && c'.latest == c.latest
            && (forall i :: 0 <= i < |c.nodes| && i != target && i != d ==> c'.nodes[i] == c.nodes[i])
            && if forall i :: 0 <= i < |c.nodes| && i != target ==> c.nodes[i].state != CONNECTED
               then d == target && c'.nodes[target] == Node(RECONNECT, n.banks, n.queue, n.freed) && c'.phase == Stuck
               else
                 && d < |c.nodes| && d != target && c.nodes[d].state == CONNECTED
                 && (forall i :: 0 <= i < d && i != target ==> c.nodes[i].state != CONNECTED)
                 && c'.nodes[target] == Node(RECONNECT, blank, n.queue, n.freed)
                 && c'.nodes[d] == Node(RECOVERING, c.nodes[d].banks, c.nodes[d].queue, c.nodes[d].freed)
                 && exists single: bool ::
                      c'.phase == Copying(target, d, single, full, journal, {}, {}, {})
                      && (single <==> forall i :: 0 <= i < |c.nodes| && i != target && i != d ==>
                                        c.nodes[i].state != CONNECTED)
  {
    var nodes := SetState(c.nodes, target, RECONNECT);
    assert nodes[0..] == nodes;
    AliveWhenCounted(nodes, 0);
    assert forall i :: 0 <= i < |nodes| && i != target ==> nodes[i] == c.nodes[i];
    d := FindAlive(nodes, 0);
    if d == |nodes| {
      d := target;
    } else {
      OnlyOneAlive(nodes, d);
      hide CountAlive;
      var c' := Start(c, target, blank, full, journal);
      assert c'.phase == Copying(target, d, CountAlive(nodes) == 1, full, journal, {}, {}, {});
    }
  }

  lemma {:induction false} NobodyAlive<V>(nodes: seq<Node<V>>)
    ensures CountAlive(nodes) == 0 <==> forall i :: 0 <= i < |nodes| ==> nodes[i].state != CONNECTED
  {
    if nodes != [] {
      NobodyAlive(nodes[1..]);
      assert forall i :: 0 < i < |nodes| ==> nodes[i] == nodes[1..][i - 1];
    }
  }

  lemma {:induction false} OnlyOneAlive<V>(nodes: seq<Node<V>>, d: nat)
    requires d < |nodes| && nodes[d].state == CONNECTED
    requires forall i :: 0 <= i < d ==> nodes[i].state != CONNECTED
    ensures CountAlive(nodes) == 1 <==> forall i :: 0 <= i < |nodes| && i != d ==> nodes[i].state != CONNECTED
    decreases d
  {
    assert forall i :: 0 < i < |nodes| ==> nodes[i] == nodes[1..][i - 1];
    if d == 0 {
      NobodyAlive(nodes[1..]);
    } else {
      OnlyOneAlive(nodes[1..], d - 1);
    }
  }

  /** The nodes of the donor's queue are all freed and stay linked */
  lemma FreeQueueExact<V>(c: Cluster<V>)
    requires ToFreeQueue(c)
    ensures var d, c' := c.phase.donor, FreeQueue(c);
            && |c'.nodes| == |c.nodes| && c'.latest == c.latest
            && c'.nodes[d] == Node(c.nodes[d].state, c.nodes[d].banks, c.nodes[d].queue, |c.nodes[d].queue|)
            && (forall i :: 0 <= i < |c.nodes| && i != d ==> c'.nodes[i] == c.nodes[i])
            && c'.phase == Closing(c.phase.target, d, false, c.phase.done, c.phase.missed)
  {
  }

  // ----- runs of steps -----

  /** These events can happen one after the other and lead to that state */
  ghost predicate Leads<V>(c: Cluster<V>, es: seq<Event<V>>, c': Cluster<V>)
    decreases |es|
  {
    if es == [] then c' == c else Enabled(c, es[0]) && Leads(Apply(c, es[0]), es[1..], c')
  }

  /** The steps of a recovery as events */
  lemma StepsAsEvents<V>(c: Cluster<V>)
    requires Shaped(c) && InRange(c)
    ensures CopyOver(c) ==> Enabled(c, CopyEnded) && Apply(c, CopyEnded) == EndCopy(c)
    ensures ReplayOver(c) ==> Enabled(c, ReplayEnded) && Apply(c, ReplayEnded) == EndReplay(c)
    ensures ToFreeQueue(c) ==> Enabled(c, QueueFreed) && Apply(c, QueueFreed) == FreeQueue(c)
    ensures ToClose(c) ==> Enabled(c, DonorReturned) && Apply(c, DonorReturned) == DonorBack(c)
    ensures ToFinish(c) ==> Enabled(c, Finished) && Apply(c, Finished) == Finish(c)
  {
  }

  lemma CopyAsEvent<V>(c: Cluster<V>, b: nat, o: Outcome, junk: V)
    requires Shaped(c) && InRange(c) && ToCopy(c, b) && o != ThirdDown
    ensures Enabled(c, Copied(b, o, junk)) && Apply(c, Copied(b, o, junk)) == Copy(c, b, o, junk)
  {
  }

  lemma ReplayAsEvent<V>(c: Cluster<V>, o: Outcome)
    requires Shaped(c) && ToReplay(c)
    ensures Enabled(c, Replayed(o)) && Apply(c, Replayed(o)) == Replay(c, o)
  {
  }

  lemma StartAsEvent<V>(c: Cluster<V>, target: nat, blank: seq<V>, full: bool, journal: seq<nat>)
    requires Shaped(c) && InRange(c) && target < |c.nodes| && |blank| == Banks(c)
    ensures Leads(c, [Returned(target, blank, full, journal)], Start(c, target, blank, full, journal))
  {
    var e := Returned(target, blank, full, journal);
    hide Start;
    assert [e][1..] == [] && Leads(Apply(c, e), [], Apply(c, e));
  }

  lemma LeadsNowhere<V>(c: Cluster<V>)
    ensures Leads(c, [], c)
  {
  }

  lemma NothingHappens<V>(c: Cluster<V>, c': Cluster<V>)
    requires Leads(c, [], c')
    ensures c' == c
  {
  }

  lemma {:induction false} LeadsOn<V>(c: Cluster<V>, a: seq<Event<V>>, m: Cluster<V>, b: seq<Event<V>>, c': Cluster<V>)
    requires Leads(c, a, m) && Leads(m, b, c')
    ensures Leads(c, a + b, c')
    decreases |a|
  {
    if a == [] {
      assert a + b == b;
    } else {
      LeadsOn(Apply(c, a[0]), a[1..], m, b, c');
      assert (a + b)[1..] == a[1..] + b;
    }
  }

  lemma LeadsTo<V>(c: Cluster<V>, a: seq<Event<V>>, m: Cluster<V>, e: Event<V>)
    requires Leads(c, a, m) && Enabled(m, e)
    ensures Leads(c, a + [e], Apply(m, e))
  {
    assert [e][1..] == [] && Leads(Apply(m, e), [], Apply(m, e));
    hide Apply, Enabled;
    LeadsOn(c, a, m, [e], Apply(m, e));
  }

  /** What happened since a run of the system reached a state makes a longer run */
  lemma {:induction false} LeadsOnward<V>(states: seq<Cluster<V>>, events: seq<Event<V>>, es: seq<Event<V>>,
                                          c': Cluster<V>) returns (longer: seq<Cluster<V>>)
    requires Trace(states, events) && Leads(states[|events|], es, c')
    ensures Trace(longer, events + es) && states <= longer && longer[|events + es|] == c'
    decreases |es|
  {
    hide Apply, Enabled;
    if es == [] {
      longer := states;
      assert events + es == events;
    } else {
      var next := Apply(states[|events|], es[0]);
      assert StepOf(states[|events|], es[0], next);
      hide StepOf;
      longer := LeadsOnward(states + [next], events + [es[0]], es[1..], c');
      assert events + [es[0]] + es[1..] == events + es;
    }
  }
}
