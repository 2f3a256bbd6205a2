/** The main results about runs of the network. */
module Theorems {
  import opened AntnetMath
  import opened PheromoneRow
  import opened Selection
  import opened AntMemory
  import opened Ants
  import opened Network
  import opened Runs

  // ---- Tables ----

  /** In every reachable state each table row is a probability distribution over exactly the node's links, and
      the rows present are those of all other nodes once the agent has started. */
  lemma RowsAreDistributions(topo: Topology, st: State, v: nat, d: nat)
    requires topo.WellFormed() && Reachable(topo, st) && v < |st.nodes|
    ensures |st.nodes| == topo.N()
    ensures d in st.nodes[v].table <==> st.nodes[v].started && topo.nbrs[v] != [] && d < topo.N() && d != v
    ensures d in st.nodes[v].table ==> Distribution(st.nodes[v].table[d], topo.nbrs[v])
  {
    ReachableSize(topo, st);
    ReachableNode(topo, st, v);
    NodeRows(topo, v, st.nodes[v], d);
  }

  /** In every reachable state each entry is given by the reinforcements its row received, in closed form,
      and with r < 1 it has not starved. */
  lemma PheromoneInClosedForm(topo: Topology, st: State, v: nat, d: nat, k: nat)
    requires topo.WellFormed() && Reachable(topo, st) && v < |st.nodes| == topo.N()
    requires k < |topo.nbrs[v]| && d in st.nodes[v].table
    ensures k < |st.nodes[v].table[d]|
    ensures InClosedForm(st.nodes[v].table[d][k], topo.nbrs[v][k], |topo.nbrs[v]|, topo.r[v],
                         History(st.nodes[v].calls, d))
  {
    ReachableNode(topo, st, v);
    NodeRows(topo, v, st.nodes[v], d);
    FromUniform(topo.nbrs[v], topo.r[v], History(st.nodes[v].calls, d), k);
  }

  /** `next` is the proportional choice for this draw: with x drawn below the total weight of the links other than the
      parent's, it is link k exactly for x in a half-open interval as wide as the weight of k. The weights of all links
      sum to 1, or to (1 + 0.45 n) / (1 + 0.45 (n - 1)) when all queues are empty. */
  ghost predicate ProportionalDraw(row: Row, nbrs: seq<nat>, parent: nat, qlen: LinkQueues, uniform: Draw, next: nat)
    requires |row| == |nbrs|
  {
    var n, w := |row|, Weights(row, qlen, |row|);
    var total := Cumulative(row, w, parent, n);
    && Sum(w) == (if QueueTotal(row, qlen) > 0 then 1.0 else (1.0 + 0.45 * n as real) / (1.0 + 0.45 * (n as real - 1.0)))
    && (forall k :: 0 <= k < n ==> WeighsExactly(w[k], row[k].phvalue, qlen(nbrs[k]), QueueTotal(row, qlen), n))
    && (if total <= 0.0 then next == parent else next != parent)
    && (total > 0.0 ==> forall k :: 0 <= k < n && nbrs[k] != parent ==>
         (next == nbrs[k] <==> Cumulative(row, w, parent, k) <= uniform(total) < Cumulative(row, w, parent, k) + w[k]))
  }

  /** In every reachable state calc_next is the proportional choice, from the row of its destination. */
  lemma DrawsAreProportional(topo: Topology, st: State, v: nat, d: nat, parent: nat, qlen: LinkQueues, uniform: Draw)
    requires topo.WellFormed() && Reachable(topo, st) && v < |st.nodes| == topo.N() && d in st.nodes[v].table
    requires IsDraw(uniform)
    ensures |st.nodes[v].table[d]| == |topo.nbrs[v]|
    ensures ProportionalDraw(st.nodes[v].table[d], topo.nbrs[v], parent, qlen, uniform,
                             CalcNext(st.nodes[v].table, d, parent, |topo.nbrs[v]|, qlen, uniform))
  {
    ReachableNode(topo, st, v);
    NodeRows(topo, v, st.nodes[v], d);
    RowDrawsProportionally(st.nodes[v].table[d], topo.nbrs[v], parent, qlen, uniform);
    hide ProportionalDraw;
  }

  lemma RowDrawsProportionally(row: Row, nbrs: seq<nat>, parent: nat, qlen: LinkQueues, uniform: Draw)
    requires Distribution(row, nbrs) && NoRepeats(nbrs) && IsDraw(uniform)
    ensures ProportionalDraw(row, nbrs, parent, qlen, uniform, CalcNextInRow(row, parent, |nbrs|, qlen, uniform))
  {
    var n := |nbrs|;
    var w := Weights(row, qlen, n);
    TotalWeight(row, qlen);
    forall i | 0 <= i < n
      ensures w[i] >= 0.0 && WeighsExactly(w[i], row[i].phvalue, qlen(nbrs[i]), QueueTotal(row, qlen), n)
    {
      WeightOf(row, qlen, n, i);
      WeightExactly(row, qlen, n, i);
      assert row[i].neighbor == nbrs[i];
    }
    hide Weights, Sum, WeighsExactly;
    var total := Cumulative(row, w, parent, n);
    if total > 0.0 {
      assert DistinctLinks(row);
      forall k | 0 <= k < n && nbrs[k] != parent
        ensures Pick(row, w, parent, uniform(total), 0, parent) == nbrs[k]
           <==> Cumulative(row, w, parent, k) <= uniform(total) < Cumulative(row, w, parent, k) + w[k]
        ensures Pick(row, w, parent, uniform(total), 0, parent) != parent
      {
        PickPartitions(row, w, parent, uniform(total), k);
      }
      var hit := PickLands(row, w, parent, uniform(total), 0, parent);
    }
  }

  // ---- Forward ants ----

  /** The memory of an ant in flight is a repeat-free path of real links, and it is the last-exit loop erasure of
      the walk so far: every erasure of that walk has the same nodes. */
  lemma MemoryIsLoopErasure(topo: Topology, st: State, id: nat)
    requires topo.WellFormed() && Reachable(topo, st) && id in st.flight
    ensures SimplePath(topo, st.flight[id].ant.mem)
    ensures LastExitErasure(st.flight[id].ant.mem, st.flight[id].walk)
    ensures forall m: seq<Entry> :: LastExitErasure(m, st.flight[id].walk) ==> SameNodes(m, st.flight[id].ant.mem)
  {
    ReachableFlight(topo, st, id);
    var f := st.flight[id];
    forall m: seq<Entry> | LastExitErasure(m, f.walk) ensures SameNodes(m, f.ant.mem) {
      ErasureUnique(m, f.ant.mem, f.walk);
    }
  }

  ghost predicate SameNodes(m1: seq<Entry>, m2: seq<Entry>) {
    |m1| == |m2| && forall k :: 0 <= k < |m1| ==> m1[k].node == m2[k].node
  }

  /** The time an ant has been under way splits into the first trip time (spent in erased loops) and the delays of
      the hops its memory keeps; with positive hop delays the trip times increase strictly. */
  lemma TripTimesSurviveErasure(topo: Topology, st: State, id: nat)
    requires topo.WellFormed() && Reachable(topo, st) && id in st.flight
    ensures var f := st.flight[id];
            var mem, walk := f.ant.mem, f.walk;
            && mem != [] && walk != []
            && mem[|mem| - 1].trip == walk[|walk| - 1].time - walk[0].time
            && mem[|mem| - 1].trip == mem[0].trip + HopDelays(mem, walk, |mem| - 1)
            && (forall k :: 0 <= k < |mem| - 1 ==> HopDelayKept(mem, walk, k))
            && (TimeAdvances(walk) ==> IncreasingTrips(mem))
  {
    ReachableFlight(topo, st, id);
    var f := st.flight[id];
    ElapsedTime(f.ant.mem, f.walk, f.ant.start);
    if TimeAdvances(f.walk) {
      TripsIncrease(f.ant.mem, f.walk, f.ant.start);
    }
  }

  /** Every ant in flight is a forward ant whose destination is not yet in memory, or a backward ant about to
      reach a non-last entry; either way it comes from a neighbour and keeps the type it was launched with. */
  lemma AntsAreWellFormed(topo: Topology, st: State, id: nat)
    requires topo.WellFormed() && Reachable(topo, st) && id in st.flight
    ensures var f := st.flight[id];
            && (f.ant.dir == Down ==> ForwardOk(topo, f))
            && (f.ant.dir == Up ==> BackwardAt(topo, f, FindNode(f.ant.mem, f.ant.nextHop)))
            && f.ant.dir != NoDirection && f.ant.pktType == FORWARD_ANT
            && topo.Linked(f.ant.saddr, f.ant.nextHop) && f.ant.nextHop != f.ant.saddr && f.ant.nextHop < topo.N()
  {
    ReachableFlight(topo, st, id);
    var ant := st.flight[id].ant;
    if ant.dir == Up {
      var k := FindNode(ant.mem, ant.nextHop);
      assert HopIsLink(topo, ant.mem, k);
      assert topo.Linked(ant.mem[k + 1].node, ant.mem[k].node);
    }
    assert topo.Linked(ant.nextHop, ant.saddr);
  }

  /** No run drops a packet as misrouted, leaks one, or reads outside an ant's memory, and a network of at most
      MAX_NUM_NODES nodes never drops one for a full memory. */
  lemma OnlyExpectedEndings(topo: Topology, st: State, id: nat)
    requires topo.WellFormed() && Reachable(topo, st) && id in st.done
    ensures st.done[id].why in {Completed, DeadEnd, MemoryFull, Lost}
    ensures st.done[id].why == MemoryFull ==> topo.N() > MAX_NUM_NODES
  {
    ReachableDone(topo, st, id);
  }

  /** Every delivery in a reachable state is defined: the receiver exists, update_table's search stops at a
      non-last entry, and neither early branch of recv nor the guard of backward_ant_pkt is ever taken. */
  lemma DeliveriesAreDefined(topo: Topology, st: State, step: Step)
    requires topo.WellFormed() && Reachable(topo, st) && step.Deliver? && Enabled(topo, st, step)
    ensures |st.nodes| == topo.N() && st.flight[step.id].ant.nextHop < topo.N()
    ensures ReplyTo(topo, st, step.id, step.numForwards, step.now, step.qlen, step.uniform).outcome
            !in {Ended(Undefined), Ended(NotOnPath), Ended(RouteLoop), Ended(Ignored), Ended(Lost)}
  {
    ReachableInv(topo, st);
    DeliveryOutcome(topo, st, step);
  }

  /** A backward ant at any node meets what update_traffic relies on, provided every hop took time. */
  lemma BackwardAntsFeedTraffic(topo: Topology, st: State, id: nat)
    requires topo.WellFormed() && Reachable(topo, st) && id in st.flight && st.flight[id].ant.dir == Up
    requires TimeAdvances(st.flight[id].walk)
    ensures var ant := st.flight[id].ant;
            && DistinctNodes(ant.mem) && IncreasingTrips(ant.mem) && FindNode(ant.mem, ant.nextHop) + 1 < |ant.mem|
            && TripTimes(ant.mem, st.flight[id].walk, ant.start)
  {
    ReachableFlight(topo, st, id);
    TripsIncrease(st.flight[id].ant.mem, st.flight[id].walk, st.flight[id].ant.start);
  }

  // ---- Dead ends ----

  lemma AllWeightlessIffNone(row: Row, nbrs: seq<nat>, parent: nat, qlen: LinkQueues)
    requires Distribution(row, nbrs) && forall k :: 0 <= k < |row| ==> row[k].phvalue > 0.0
    ensures (forall k :: 0 <= k < |row| && row[k].neighbor != parent ==> Weightless(row, qlen, k))
       <==> (forall k :: 0 <= k < |nbrs| ==> nbrs[k] == parent)
  {
    if k :| 0 <= k < |row| && row[k].neighbor != parent {
      assert nbrs[k] != parent && !Weightless(row, qlen, k);
    } else {
      forall k | 0 <= k < |nbrs| ensures nbrs[k] == parent {
        assert row[k].neighbor == parent;
      }
    }
  }

  /** Why a node with another neighbour can still be a dead end: r is 1, the last reinforcement of the row was that of
      the previous hop, and the one other link holds all the packets queued. */
  ghost predicate Starved(nbrs: seq<nat>, r: real, hist: seq<nat>, parent: nat, qlen: LinkQueues) {
    && r == 1.0 && hist != [] && hist[|hist| - 1] == parent
    && |nbrs| == 2 && qlen(parent) == 0
    && forall k :: 0 <= k < |nbrs| && nbrs[k] != parent ==> qlen(nbrs[k]) > 0
  }

  /** A delivery frees an ant as a dead end exactly when it is a forward ant short of its destination (with room in
      memory) and the receiver has no table yet, has no neighbour but the previous hop, or is starved. */
  lemma DeadEndsExactly(topo: Topology, st: State, step: Step)
    requires topo.WellFormed() && Reachable(topo, st) && step.Deliver? && Enabled(topo, st, step)
    ensures |st.nodes| == topo.N() && st.flight[step.id].ant.nextHop < topo.N()
    ensures var ant := st.flight[step.id].ant;
            var v := ant.nextHop;
            var reply := ReplyTo(topo, st, step.id, step.numForwards, step.now, step.qlen, step.uniform);
            var onward := ant.dir == Down && v != ant.dst && Memorize(ant.mem, v, step.now - ant.start).Some?;
            var hist := History(st.nodes[v].calls, ant.dst);
            var stuck := !st.nodes[v].started || topo.nbrs[v] == [ant.saddr]
                         || Starved(topo.nbrs[v], topo.r[v], hist, ant.saddr, step.qlen);
            reply.outcome == Ended(DeadEnd) <==> onward && stuck
  {
    AntsAreWellFormed(topo, st, step.id);
    var f := st.flight[step.id];
    ReachableNode(topo, st, f.ant.nextHop);
    DeadEndOfFlight(topo, f, st.nodes[f.ant.nextHop], step.numForwards, step.now, step.qlen, step.uniform);
    hide Starved, Memorize, NodeOk, History;
  }

  lemma DeadEndOfFlight(topo: Topology, f: Flight, node: Node, numForwards: int, now: real, qlen: LinkQueues,
                        uniform: Draw)
    requires topo.WellFormed() && FlightOk(topo, f) && f.ant.nextHop < topo.N() && IsDraw(uniform)
    requires NodeOk(topo, f.ant.nextHop, node)
    requires topo.Linked(f.ant.saddr, f.ant.nextHop) && f.ant.nextHop != f.ant.saddr
    ensures var ant, v := f.ant, f.ant.nextHop;
            var outcome := Recv(ant, v, numForwards, node.table, |topo.nbrs[v]|, now, qlen, uniform).outcome;
            var onward := ant.dir == Down && v != ant.dst && Memorize(ant.mem, v, now - ant.start).Some?;
            var stuck := !node.started || topo.nbrs[v] == [ant.saddr]
                         || Starved(topo.nbrs[v], topo.r[v], History(node.calls, ant.dst), ant.saddr, qlen);
            outcome == Ended(DeadEnd) <==> onward && stuck
  {
    var ant, v := f.ant, f.ant.nextHop;
    if ant.dir == Up {
      BackwardDelivery(topo, f, FindNode(ant.mem, v), node, numForwards, now, qlen, uniform);
    } else if v != ant.dst {
      assert topo.Linked(v, ant.saddr);
      OnwardDeadEnd(topo, v, node, ant.dst, ant.saddr, qlen, uniform);
      hide Starved, CalcNext, NodeOk;
    }
  }

  lemma OnwardDeadEnd(topo: Topology, v: nat, node: Node, dest: nat, parent: nat, qlen: LinkQueues, uniform: Draw)
    requires topo.WellFormed() && v < topo.N() && NodeOk(topo, v, node) && IsDraw(uniform)
    requires dest < topo.N() && dest != v && parent in topo.nbrs[v]
    ensures var next := CalcNext(node.table, dest, parent, |topo.nbrs[v]|, qlen, uniform);
            var stuck := !node.started || topo.nbrs[v] == [parent]
                         || Starved(topo.nbrs[v], topo.r[v], History(node.calls, dest), parent, qlen);
            (next == v || next == parent) <==> stuck
  {
    var nbrs := topo.nbrs[v];
    NodeRows(topo, v, node, dest);
    NextHopIsLink(topo, v, node, dest, parent, qlen, uniform);
    if node.started {
      HistoryLinks(node.calls, dest, nbrs);
      hide RowAfter, NodeOk, Starved, CalcNextInRow;
      RowDeadEnd(nbrs, topo.r[v], History(node.calls, dest), parent, qlen, uniform);
    }
  }

  /** The exact condition for a row with any history. */
  lemma RowDeadEnd(nbrs: seq<nat>, r: real, hist: seq<nat>, parent: nat, qlen: LinkQueues, uniform: Draw)
    requires NoRepeats(nbrs) && parent in nbrs && IsDraw(uniform) && 0.0 <= r <= 1.0
    requires forall t :: 0 <= t < |hist| ==> hist[t] in nbrs
    ensures CalcNextInRow(RowAfter(Uniform(nbrs), r, hist), parent, |nbrs|, qlen, uniform) == parent
       <==> nbrs == [parent] || Starved(nbrs, r, hist, parent, qlen)
  {
    var row := RowAfter(Uniform(nbrs), r, hist);
    UniformIsDistribution(nbrs);
    HistoryKeepsDistribution(Uniform(nbrs), nbrs, r, hist);
    if r < 1.0 {
      NoStarvation(nbrs, r, hist);
      hide RowAfter, CalcNextInRow;
      PositiveRowDeadEnd(row, nbrs, parent, qlen, uniform);
    } else if hist == [] {
      hide CalcNextInRow;
      PositiveRowDeadEnd(row, nbrs, parent, qlen, uniform);
    } else {
      forall k | 0 <= k < |nbrs| ensures row[k].phvalue == if nbrs[k] == hist[|hist| - 1] then 1.0 else 0.0 {
        LastReinforcementTakesAll(Uniform(nbrs), hist, k);
      }
      hide RowAfter;
      OneHotDeadEnd(row, nbrs, hist[|hist| - 1], parent, qlen, uniform);
    }
  }

  lemma OneHotDeadEnd(row: Row, nbrs: seq<nat>, hot: nat, parent: nat, qlen: LinkQueues, uniform: Draw)
    requires Distribution(row, nbrs) && NoRepeats(nbrs) && parent in nbrs && hot in nbrs && IsDraw(uniform)
    requires forall k :: 0 <= k < |row| ==> row[k].phvalue == if nbrs[k] == hot then 1.0 else 0.0
    ensures CalcNextInRow(row, parent, |nbrs|, qlen, uniform) == parent
       <==> nbrs == [parent] || Starved(nbrs, 1.0, [hot], parent, qlen)
  {
    CalcNextInRowDeadEnd(row, parent, |nbrs|, qlen, uniform);
    hide CalcNextInRow;
    if CalcNextInRow(row, parent, |nbrs|, qlen, uniform) == parent {
      OneHotStuck(row, nbrs, hot, parent, qlen);
    } else if Starved(nbrs, 1.0, [hot], parent, qlen) {
      OneHotStarves(row, nbrs, parent, qlen);
    }
  }

  lemma OneHotStuck(row: Row, nbrs: seq<nat>, hot: nat, parent: nat, qlen: LinkQueues)
    requires Distribution(row, nbrs) && NoRepeats(nbrs) && parent in nbrs && hot in nbrs
    requires forall k :: 0 <= k < |row| ==> row[k].phvalue == if nbrs[k] == hot then 1.0 else 0.0
    requires forall k :: 0 <= k < |row| && row[k].neighbor != parent ==> Weightless(row, qlen, k)
    ensures nbrs == [parent] || Starved(nbrs, 1.0, [hot], parent, qlen)
  {
    var h :| 0 <= h < |nbrs| && nbrs[h] == hot;
    var p :| 0 <= p < |nbrs| && nbrs[p] == parent;
    assert row[h].neighbor == nbrs[h] && row[p].neighbor == nbrs[p];
    assert hot == parent;
    if |nbrs| > 1 {
      var k := if p == 0 then 1 else 0;
      assert nbrs[k] != parent && row[k].neighbor == nbrs[k] && Weightless(row, qlen, k);
      TwoQueueBound(row, qlen, if p < k then p else k, if p < k then k else p);
      if |nbrs| > 2 {
        var l := if p <= 1 && k <= 1 then 2 else 1;
        assert nbrs[l] != parent && row[l].neighbor == nbrs[l] && Weightless(row, qlen, l);
        TwoQueueBound(row, qlen, if l < k then l else k, if l < k then k else l);
        assert false;
      }
    }
  }

  lemma OneHotStarves(row: Row, nbrs: seq<nat>, parent: nat, qlen: LinkQueues)
    requires Distribution(row, nbrs) && Starved(nbrs, 1.0, [parent], parent, qlen)
    requires NoRepeats(nbrs) && parent in nbrs
    requires forall k :: 0 <= k < |row| ==> row[k].phvalue == if nbrs[k] == parent then 1.0 else 0.0
    ensures forall k :: 0 <= k < |row| && row[k].neighbor != parent ==> Weightless(row, qlen, k)
  {
    assert row[..1][..0] == [] && row[..1][0] == row[0];
    assert QueueTotal(row[..1], qlen) == qlen(row[0].neighbor);
    assert QueueTotal(row, qlen) == qlen(row[0].neighbor) + qlen(row[1].neighbor);
    assert row[0].neighbor == nbrs[0] && row[1].neighbor == nbrs[1];
  }

  lemma PositiveRowDeadEnd(row: Row, nbrs: seq<nat>, parent: nat, qlen: LinkQueues, uniform: Draw)
    requires Distribution(row, nbrs) && NoRepeats(nbrs) && parent in nbrs && IsDraw(uniform)
    requires forall k :: 0 <= k < |row| ==> row[k].phvalue > 0.0
    ensures CalcNextInRow(row, parent, |nbrs|, qlen, uniform) == parent <==> nbrs == [parent]
  {
    CalcNextInRowDeadEnd(row, parent, |nbrs|, qlen, uniform);
    AllWeightlessIffNone(row, nbrs, parent, qlen);
    OnlyNeighbour(nbrs, parent);
  }

  lemma OnlyNeighbour(nbrs: seq<nat>, parent: nat)
    requires NoRepeats(nbrs) && parent in nbrs
    ensures (forall k :: 0 <= k < |nbrs| ==> nbrs[k] == parent) <==> nbrs == [parent]
  {
    if |nbrs| > 1 {
      assert nbrs[0] != nbrs[1];
    }
  }

  /** A launch is freed on the spot exactly at a node without neighbours, for every r from 0 to 1. */
  lemma LaunchDeadEndsExactly(topo: Topology, st: State, step: Step)
    requires topo.WellFormed() && Reachable(topo, st) && step.LaunchAnt? && Enabled(topo, st, step)
    ensures |st.nodes| == topo.N()
    ensures var v, node := step.v, st.nodes[step.v];
            var outcome := Launch(v, node.seqNum, step.dest, node.table, |topo.nbrs[v]|, step.now, step.qlen, step.uniform);
            outcome == Ended(DeadEnd) <==> topo.nbrs[v] == []
  {
    ReachableSize(topo, st);
    ReachableNode(topo, st, step.v);
    var v, node := step.v, st.nodes[step.v];
    NodeRows(topo, v, node, step.dest);
    if topo.nbrs[v] != [] {
      FullRowIsNoDeadEnd(node.table[step.dest], topo.nbrs[v], v, step.qlen, step.uniform);
    }
  }

  lemma FullRowIsNoDeadEnd(row: Row, nbrs: seq<nat>, v: nat, qlen: LinkQueues, uniform: Draw)
    requires Distribution(row, nbrs) && v !in nbrs && IsDraw(uniform)
    ensures CalcNextInRow(row, v, |nbrs|, qlen, uniform) != v
  {
    CalcNextInRowDeadEnd(row, v, |nbrs|, qlen, uniform);
    if forall k :: 0 <= k < |row| ==> row[k].phvalue == 0.0 {
      ConstantMass(row, 0.0);
      assert false;
    } else {
      var k :| 0 <= k < |row| && row[k].phvalue != 0.0;
      assert row[k].neighbor == nbrs[k] && !Weightless(row, qlen, k);
    }
  }

  // ---- Conservation ----

  function EndedAs(done: map<nat, Done>, why: Ending): set<nat> {
    set id | id in done && done[id].why == why
  }

  /** Every ant launched is in flight or ended, once, in one of four ways. */
  lemma AntsAreConserved(topo: Topology, st: State)
    requires topo.WellFormed() && Reachable(topo, st)
    ensures st.launched == |st.flight| + |EndedAs(st.done, Completed)| + |EndedAs(st.done, DeadEnd)|
                         + |EndedAs(st.done, MemoryFull)| + |EndedAs(st.done, Lost)|
  {
    forall id | id in st.done ensures st.done[id].why in {Completed, DeadEnd, MemoryFull, Lost} {
      ReachableDone(topo, st, id);
    }
    CountEndings(st.done);
    ReachableInv(topo, st);
    CountBelow(st.flight.Keys + st.done.Keys, st.launched);
    assert |st.flight.Keys + st.done.Keys| == |st.flight.Keys| + |st.done.Keys|;
    assert |st.flight| == |st.flight.Keys|;
  }

  lemma CountEndings(done: map<nat, Done>)
    requires forall id :: id in done ==> done[id].why in {Completed, DeadEnd, MemoryFull, Lost}
    ensures |done.Keys| == |EndedAs(done, Completed)| + |EndedAs(done, DeadEnd)| + |EndedAs(done, MemoryFull)|
                         + |EndedAs(done, Lost)|
  {
    var c, e, m, l := EndedAs(done, Completed), EndedAs(done, DeadEnd), EndedAs(done, MemoryFull), EndedAs(done, Lost);
    assert done.Keys == c + e + m + l;
    assert |c + e + m + l| == |c| + |e| + |m| + |l|;
  }

  lemma {:induction false} CountBelow(s: set<nat>, n: nat)
    requires forall id: nat :: id < n <==> id in s
    ensures |s| == n
  {
    if n == 0 {
      assert s == {};
    } else {
      CountBelow(s - {n - 1}, n - 1);
    }
  }
}
