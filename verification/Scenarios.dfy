/** Concrete runs: the pieces from which examples and counterexamples are built. */
module Scenarios {
  import opened AntnetMath
  import opened PheromoneRow
  import opened Selection
  import opened AntMemory
  import opened Wrappers
  import opened Ants
  import opened Network
  import opened Runs

  function NoQueues(): LinkQueues {
    x => 0
  }

  /** The random generator that always yields its smallest value. */
  function Lowest(): Draw {
    t => 0.0
  }

  function StartAll(n: nat): seq<Step> {
    if n == 0 then [] else StartAll(n - 1) + [Start(n - 1)]
  }

  lemma ExecAppend(topo: Topology, steps: seq<Step>, step: Step)
    requires |topo.r| == |topo.nbrs|
    ensures var st := Exec(topo, steps);
            Exec(topo, steps + [step]) == if Enabled(topo, st, step) then Apply(topo, st, step) else st
  {
    var all := steps + [step];
    assert all[..|all| - 1] == steps && all[|all| - 1] == step;
  }

  lemma IsReachable(topo: Topology, steps: seq<Step>)
    requires |topo.r| == |topo.nbrs|
    ensures Reachable(topo, Exec(topo, steps))
  {}

  /** All agents have been started and nothing else has happened. */
  ghost predicate Quiet(st: State, starts: nat) {
    && st.launched == 0 && st.flight == map[] && st.done == map[]
    && (forall v :: 0 <= v < |st.nodes| ==> st.nodes[v].started == (v < starts) && st.nodes[v].calls == [])
  }

  lemma {:induction false} AllStarted(topo: Topology, starts: nat)
    requires |topo.r| == |topo.nbrs| && starts <= topo.N()
    ensures Quiet(Exec(topo, StartAll(starts)), starts)
  {
    if starts > 0 {
      AllStarted(topo, starts - 1);
      ExecAppend(topo, StartAll(starts - 1), Start(starts - 1));
    }
  }

  lemma {:induction false} NothingQueued(row: Row)
    ensures QueueTotal(row, NoQueues()) == 0
  {
    if row != [] {
      NothingQueued(row[..|row| - 1]);
    }
  }

  lemma {:induction false} ParentsWeighNothing(row: Row, w: seq<real>, parent: nat, k: nat)
    requires k <= |row| == |w| && forall j :: 0 <= j < k ==> row[j].neighbor == parent
    ensures Cumulative(row, w, parent, k) == 0.0
  {
    if k > 0 {
      ParentsWeighNothing(row, w, parent, k - 1);
    }
  }

  /** With empty queues the lowest draw takes the first neighbour that is not the parent. */
  lemma LowestTakesFirst(row: Row, nbrs: seq<nat>, parent: nat, k: nat)
    requires Distribution(row, nbrs) && NoRepeats(nbrs)
    requires k < |nbrs| && nbrs[k] != parent && forall j :: 0 <= j < k ==> nbrs[j] == parent
    ensures CalcNextInRow(row, parent, |nbrs|, NoQueues(), Lowest()) == nbrs[k]
  {
    var n, qlen := |nbrs|, NoQueues();
    var w := Weights(row, qlen, n);
    NothingQueued(row);
    forall i | 0 <= i < n ensures w[i] > 0.0 {
      WeightOf(row, qlen, n, i);
    }
    ParentsWeighNothing(row, w, parent, k);
    CumulativeMonotone(row, w, parent, k + 1, n);
    hide Weights;
    PickPartitions(row, w, parent, 0.0, k);
  }

  lemma LowestHop(topo: Topology, st: State, v: nat, d: nat, parent: nat, k: nat)
    requires topo.WellFormed() && Reachable(topo, st) && v < |st.nodes| == |topo.nbrs| && st.nodes[v].started
    requires d < |topo.nbrs| && d != v && k < |topo.nbrs[v]|
    requires topo.nbrs[v][k] != parent && forall j :: 0 <= j < k ==> topo.nbrs[v][j] == parent
    ensures CalcNext(st.nodes[v].table, d, parent, |topo.nbrs[v]|, NoQueues(), Lowest()) == topo.nbrs[v][k]
  {
    ReachableNode(topo, st, v);
    NodeRows(topo, v, st.nodes[v], d);
    hide NodeOk, CalcNextInRow;
    LowestTakesFirst(st.nodes[v].table[d], topo.nbrs[v], parent, k);
  }

  // ---- What a step does, once the next hop is known ----

  /** Only the sequence number of an agent may have changed. */
  ghost predicate SameTables(st: State, st': State) {
    && |st'.nodes| == |st.nodes|
    && forall v :: 0 <= v < |st.nodes| ==> st'.nodes[v] == st.nodes[v].(seqNum := st'.nodes[v].seqNum)
  }

  function Fresh(v: nat, dest: nat, seqNum: nat, now: real, next: nat): Flight {
    Flight(Ant(FORWARD_ANT, v, dest, seqNum, now, [Entry(v, 0.0)], Down, v, next), Plan(v, dest, now, seqNum),
           [Visit(v, now)], [], [])
  }

  lemma LaunchTo(topo: Topology, st: State, v: nat, dest: nat, next: nat)
    requires |st.nodes| == |topo.nbrs| == |topo.r| && v < |st.nodes| && next != v
    requires CalcNext(st.nodes[v].table, dest, v, |topo.nbrs[v]|, NoQueues(), Lowest()) == next
    ensures var st' := Apply(topo, st, LaunchAnt(v, dest, 0.0, NoQueues(), Lowest()));
            && SameTables(st, st') && st'.launched == st.launched + 1 && st'.done == st.done
            && st'.flight == st.flight[st.launched := Fresh(v, dest, st.nodes[v].seqNum, 0.0, next)]
  {
    hide CalcNext;
  }

  lemma ForwardTo(topo: Topology, st: State, id: nat, mem: seq<Entry>, next: nat)
    requires |st.nodes| == |topo.nbrs| == |topo.r| && id in st.flight && st.flight[id].ant.nextHop < |st.nodes|
    requires var ant, v := st.flight[id].ant, st.flight[id].ant.nextHop;
             && ant.dir == Down && v != ant.saddr && v != ant.dst && next != v && next != ant.saddr
             && Memorize(ant.mem, v, 0.0 - ant.start) == Some(mem)
             && CalcNext(st.nodes[v].table, ant.dst, ant.saddr, |topo.nbrs[v]|, NoQueues(), Lowest()) == next
    ensures var f, st' := st.flight[id], Apply(topo, st, Deliver(id, 0, 0.0, NoQueues(), Lowest()));
            && SameTables(st, st') && st'.launched == st.launched && st'.done == st.done
            && st'.flight == st.flight[id := f.(ant := f.ant.(mem := mem, nextHop := next, saddr := f.ant.nextHop),
                                                walk := f.walk + [Visit(f.ant.nextHop, 0.0)])]
  {
    hide CalcNext, Memorize;
    var ant, v := st.flight[id].ant, st.flight[id].ant.nextHop;
    var reply := ReplyTo(topo, st, id, 0, 0.0, NoQueues(), Lowest());
    assert reply == Reply([], Sent(ant.(mem := mem, nextHop := next, saddr := v)));
    assert Called(st.nodes[v], [], topo.r[v]) == st.nodes[v];
  }

  lemma TurnBack(topo: Topology, st: State, id: nat, mem: seq<Entry>)
    requires |st.nodes| == |topo.nbrs| == |topo.r| && id in st.flight && st.flight[id].ant.nextHop < |st.nodes|
    requires var ant, v := st.flight[id].ant, st.flight[id].ant.nextHop;
             && ant.dir == Down && v != ant.saddr && v == ant.dst
             && Memorize(ant.mem, v, 0.0 - ant.start) == Some(mem) && |mem| >= 2
    ensures var f, st' := st.flight[id], Apply(topo, st, Deliver(id, 0, 0.0, NoQueues(), Lowest()));
            && SameTables(st, st') && st'.launched == st.launched && st'.done == st.done
            && st'.flight == st.flight[id := f.(ant := Turned(f.ant, mem), walk := f.walk + [Visit(f.ant.nextHop, 0.0)])]
  {
    hide Memorize;
    var ant, v := st.flight[id].ant, st.flight[id].ant.nextHop;
    var reply := ReplyTo(topo, st, id, 0, 0.0, NoQueues(), Lowest());
    assert reply == Reply([], Sent(Turned(ant, mem)));
    assert Called(st.nodes[v], [], topo.r[v]) == st.nodes[v];
  }

  /** A forward ant at its destination, with its final memory, on its way back. */
  function Turned(ant: Ant, mem: seq<Entry>): Ant
    requires |mem| >= 2
  {
    ant.(mem := mem, src := ant.dst, dst := ant.src, dir := Up, saddr := ant.dst, nextHop := mem[|mem| - 2].node)
  }

  /** The receiver's table gets the updates of entry k; the ant goes on to entry k-1 or has completed. */
  lemma BackwardTo(topo: Topology, st: State, id: nat, k: nat)
    requires topo.WellFormed() && |st.nodes| == |topo.nbrs| == |topo.r|
    requires id in st.flight && BackwardAt(topo, st.flight[id], k)
    ensures st.flight[id].ant.nextHop < |st.nodes|
    ensures var f, st' := st.flight[id], Apply(topo, st, Deliver(id, 0, 0.0, NoQueues(), Lowest()));
            var v := f.ant.nextHop;
            && |st'.nodes| == |st.nodes| && st'.launched == st.launched
            && (forall u :: 0 <= u < |st.nodes| ==> st'.nodes[u].started == st.nodes[u].started)
            && (forall u :: 0 <= u < |st.nodes| && u != v ==> st'.nodes[u] == st.nodes[u])
            && st'.nodes[v].calls == st.nodes[v].calls + CallsAt(f.ant.mem, k)
            && (k > 0 ==> && id in st'.flight && st'.flight[id].ant.mem == f.ant.mem
                          && BackwardAt(topo, st'.flight[id], k - 1))
  {
    var f := st.flight[id];
    var v := f.ant.nextHop;
    BackwardDelivery(topo, f, k, st.nodes[if v < |st.nodes| then v else 0], 0, 0.0, NoQueues(), Lowest());
    hide BackwardAt, Recv;
  }
}
