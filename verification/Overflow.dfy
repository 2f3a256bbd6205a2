/** The bound on ant memory: a full memory is impossible exactly in networks of at most MAX_NUM_NODES nodes. */
module Overflow {
  import opened Selection
  import opened AntMemory
  import opened Ants
  import opened Network
  import opened Runs
  import opened Scenarios
  import opened Theorems

  /** A line of n nodes, 0 - 1 - ... - n-1. */
  function LineNeighbours(n: nat, v: nat): seq<nat> {
    (if v > 0 then [v - 1] else []) + (if v + 1 < n then [v + 1] else [])
  }

  function Line(n: nat): (topo: Topology)
    ensures |topo.nbrs| == |topo.r| == n
  {
    Topology(seq(n, v requires 0 <= v < n => LineNeighbours(n, v)), seq(n, _ => 0.0))
  }

  lemma LineIsWellFormed(n: nat)
    ensures Line(n).WellFormed() && Line(n).N() == n
  {}

  /** Start every agent, launch one ant from node 0 to the far end, and deliver it k times. */
  function LineRun(n: nat, k: nat): seq<Step>
    requires n > 0
  {
    if k == 0 then StartAll(n) + [LaunchAnt(0, n - 1, 0.0, NoQueues(), Lowest())]
    else LineRun(n, k - 1) + [Hop()]
  }

  function Hop(): Step {
    Deliver(0, 0, 0.0, NoQueues(), Lowest())
  }

  /** The ant stands between nodes k and k+1 and remembers 0..k. */
  ghost predicate Marching(n: nat, st: State, k: nat) {
    && |st.nodes| == n && (forall v :: 0 <= v < n ==> st.nodes[v].started)
    && 0 in st.flight
    && var ant := st.flight[0].ant;
    && ant.dir == Down && ant.dst == n - 1 && ant.saddr == k && ant.nextHop == k + 1
    && |ant.mem| == k + 1 && (forall i :: 0 <= i <= k ==> ant.mem[i].node == i)
  }

  lemma FirstNextHop(n: nat, st: State)
    requires n >= 2 && Reachable(Line(n), st) && |st.nodes| == n && st.nodes[0].started
    ensures CalcNext(st.nodes[0].table, n - 1, 0, |Line(n).nbrs[0]|, NoQueues(), Lowest()) == 1
  {
    LineIsWellFormed(n);
    assert Line(n).nbrs[0] == [1];
    hide CalcNext, Reachable, Line;
    LowestHop(Line(n), st, 0, n - 1, 0, 0);
  }

  lemma FirstHop(n: nat, st: State)
    requires n >= 2 && Reachable(Line(n), st) && |st.nodes| == n && Quiet(st, n)
    ensures var step := LaunchAnt(0, n - 1, 0.0, NoQueues(), Lowest());
            Enabled(Line(n), st, step) && Marching(n, Apply(Line(n), st, step), 0)
  {
    hide CalcNext, Reachable, Apply, Line;
    FirstNextHop(n, st);
    LaunchTo(Line(n), st, 0, n - 1, 1);
  }

  /** Inside the line an ant that came from k goes on to k+2. */
  lemma NextStep(n: nat, st: State, k: nat)
    requires Reachable(Line(n), st) && Marching(n, st, k) && k + 2 < n && k + 1 < MAX_NUM_NODES
    ensures Enabled(Line(n), st, Hop()) && Marching(n, Apply(Line(n), st, Hop()), k + 1)
  {
    var v, ant := k + 1, st.flight[0].ant;
    LineIsWellFormed(n);
    assert Line(n).nbrs[v] == [k, v + 1];
    LowestHop(Line(n), st, v, n - 1, k, 1);
    hide CalcNext, Reachable, Apply, Line;
    assert FindNode(ant.mem, v) == |ant.mem|;
    ForwardTo(Line(n), st, 0, ant.mem + [Entry(v, 0.0 - ant.start)], v + 1);
  }

  lemma MarchStarts(n: nat)
    requires n >= 2
    ensures Marching(n, Exec(Line(n), LineRun(n, 0)), 0)
  {
    var topo := Line(n);
    AllStarted(topo, n);
    hide Apply, Enabled, Marching, Exec, Quiet;
    FirstHop(n, Exec(topo, StartAll(n)));
    ExecAppend(topo, StartAll(n), LaunchAnt(0, n - 1, 0.0, NoQueues(), Lowest()));
  }

  lemma LineRunGrows(n: nat, k: nat)
    requires n > 0
    ensures LineRun(n, k + 1) == LineRun(n, k) + [Hop()]
  {}

  lemma {:induction false} March(n: nat, k: nat)
    requires k + 1 < n && k < MAX_NUM_NODES
    ensures Marching(n, Exec(Line(n), LineRun(n, k)), k)
  {
    hide *;
    if k == 0 {
      MarchStarts(n);
    } else {
      March(n, k - 1);
      IsReachable(Line(n), LineRun(n, k - 1));
      NextStep(n, Exec(Line(n), LineRun(n, k - 1)), k - 1);
      ExecAppend(Line(n), LineRun(n, k - 1), Hop());
      LineRunGrows(n, k - 1);
    }
  }

  /** In a line of more than MAX_NUM_NODES nodes some run drops an ant for its full memory. */
  lemma LongLineFillsMemory(n: nat)
    requires n > MAX_NUM_NODES
    ensures var st := Exec(Line(n), LineRun(n, MAX_NUM_NODES));
            0 in st.done && st.done[0].why == MemoryFull
  {
    var k := MAX_NUM_NODES - 1;
    March(n, k);
    var st := Exec(Line(n), LineRun(n, k));
    assert FindNode(st.flight[0].ant.mem, k + 1) == |st.flight[0].ant.mem|;
    ExecAppend(Line(n), LineRun(n, k), Hop());
  }

  ghost predicate NeverFull(n: nat) {
    forall topo: Topology, st: State, id: nat ::
      topo.WellFormed() && topo.N() == n && Reachable(topo, st) && id in st.done ==> st.done[id].why != MemoryFull
  }

  /** The drop for a full memory is unreachable in all networks of n nodes exactly when n <= MAX_NUM_NODES:
      the condition that initialize_rtable warns about. */
  lemma MemoryBoundIsExact(n: nat)
    ensures NeverFull(n) <==> n <= 16
  {
    if n <= MAX_NUM_NODES {
      forall topo: Topology, st: State, id: nat |
        topo.WellFormed() && topo.N() == n && Reachable(topo, st) && id in st.done
        ensures st.done[id].why != MemoryFull
      {
        OnlyExpectedEndings(topo, st, id);
      }
    } else {
      LineIsWellFormed(n);
      LongLineFillsMemory(n);
      var st := Exec(Line(n), LineRun(n, MAX_NUM_NODES));
      assert Reachable(Line(n), st) && 0 in st.done;
    }
  }
}
