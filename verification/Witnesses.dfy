/** Runs that show what can happen: an ant that completes, and a dead end next to the destination. */
module Witnesses {
  import opened Selection
  import opened AntMemory
  import opened Ants
  import opened Network
  import opened Runs
  import opened Theorems
  import opened Retrace
  import opened Scenarios
  import opened Overflow

  // ---- In a line that ants can remember, an ant completes ----

  /** j further deliveries of the ant. */
  function Hops(j: nat): seq<Step> {
    if j == 0 then [] else Hops(j - 1) + [Hop()]
  }

  lemma {:induction false} HopsDeliver(j: nat)
    ensures Deliveries(Hops(j), 0) == j && Spares(Hops(j), 0)
  {
    if j > 0 {
      HopsDeliver(j - 1);
      assert Hops(j)[..|Hops(j)| - 1] == Hops(j - 1);
    }
  }

  lemma {:induction false} LineRunSplits(n: nat, k: nat, j: nat)
    requires n > 0
    ensures LineRun(n, k) + Hops(j) == LineRun(n, k + j)
  {
    if j == 0 {
      assert LineRun(n, k) + [] == LineRun(n, k);
    } else {
      LineRunSplits(n, k, j - 1);
      assert LineRun(n, k) + Hops(j) == (LineRun(n, k) + Hops(j - 1)) + [Hop()];
    }
  }

  /** The ant has turned round at the far end, with the whole line in its memory. */
  ghost predicate Returning(n: nat, st: State) {
    && 0 in st.flight
    && var ant := st.flight[0].ant;
    |ant.mem| == n && ant.dir == Up && FindNode(ant.mem, ant.nextHop) + 2 == n
  }

  lemma TurnsAtFarEnd(n: nat, st: State)
    requires 2 <= n <= MAX_NUM_NODES && Marching(n, st, n - 2)
    ensures Enabled(Line(n), st, Hop()) && Returning(n, Apply(Line(n), st, Hop()))
  {
    var ant := st.flight[0].ant;
    var mem := ant.mem + [Entry(n - 1, 0.0 - ant.start)];
    assert FindNode(ant.mem, n - 1) == |ant.mem|;
    hide Line, Apply;
    TurnBack(Line(n), st, 0, mem);
    hide FindNode;
    assert mem[n - 2].node == n - 2;
  }

  lemma ReachesFarEnd(n: nat)
    requires 2 <= n <= MAX_NUM_NODES
    ensures Returning(n, Exec(Line(n), LineRun(n, n - 1)))
  {
    hide *;
    March(n, n - 2);
    TurnsAtFarEnd(n, Exec(Line(n), LineRun(n, n - 2)));
    LineRunGrows(n, n - 2);
    ExecAppend(Line(n), LineRun(n, n - 2), Hop());
  }

  lemma ReturningIsBackward(n: nat, st: State)
    requires n >= 2 && Line(n).WellFormed() && Reachable(Line(n), st) && Returning(n, st)
    ensures 0 in st.flight && |st.flight[0].ant.mem| == n && BackwardAt(Line(n), st.flight[0], n - 2)
  {
    AntsAreWellFormed(Line(n), st, 0);
    hide BackwardAt, ForwardOk, Line, Reachable;
  }

  /** The ant is back at its origin. */
  ghost predicate Completes(n: nat, st: State) {
    && 0 in st.done && st.done[0].why == Completed
    && st.done[0].last.Some? && |st.done[0].last.value.ant.mem| == n
  }

  lemma HomeAgain(n: nat, st: State, mem: seq<Entry>)
    requires n >= 2 && Progress(Line(n), st, 0, mem, n - 2, n - 1) && |mem| == n
    ensures Completes(n, st)
  {}

  /** In a line of 2 <= n <= MAX_NUM_NODES nodes the ant completes after 2(n-1) deliveries, with all nodes in memory. */
  lemma LineCompletes(n: nat)
    requires 2 <= n <= MAX_NUM_NODES
    ensures Completes(n, Exec(Line(n), LineRun(n, 2 * (n - 1))))
  {
    hide *;
    var topo, before, more := Line(n), LineRun(n, n - 1), Hops(n - 1);
    LineIsWellFormed(n);
    ReachesFarEnd(n);
    IsReachable(topo, before);
    ReturningIsBackward(n, Exec(topo, before));
    HopsDeliver(n - 1);
    BackwardAntsArrive(topo, before, more, 0, n - 2);
    LineRunSplits(n, n - 1, n - 1);
    HomeAgain(n, Exec(topo, before + more), Exec(topo, before).flight[0].ant.mem);
  }

  // ---- With r = 1 an ant can be freed next to its destination ----

  function Triangle(): (topo: Topology)
    ensures |topo.nbrs| == |topo.r| == 3
  {
    Topology([[1, 2], [0, 2], [0, 1]], [1.0, 1.0, 1.0])
  }

  lemma TriangleIsWellFormed()
    ensures Triangle().WellFormed() && Triangle().N() == 3
    ensures Triangle().nbrs[0] == [1, 2] && Triangle().nbrs[1] == [0, 2] && Triangle().r[0] == 1.0
  {}

  /** Five packets wait at node 0 for the link to node 2. */
  function QueueToTwo(): LinkQueues {
    x => if x == 2 then 5 else 0
  }

  /** An ant goes 0 - 1 - 2 and back; then one is launched at 1 for 2, drawn towards 0, and delivered there. */
  function TriangleStep(k: nat): Step {
    if k == 0 then LaunchAnt(0, 2, 0.0, NoQueues(), Lowest())
    else if k < 5 then Hop()
    else if k == 5 then LaunchAnt(1, 2, 0.0, NoQueues(), Lowest())
    else Deliver(1, 0, 0.0, QueueToTwo(), Lowest())
  }

  function TriangleRun(k: nat): seq<Step> {
    if k == 0 then StartAll(3) else TriangleRun(k - 1) + [TriangleStep(k - 1)]
  }

  ghost function TriangleState(k: nat): State {
    Exec(Triangle(), TriangleRun(k))
  }

  lemma TriangleNext(k: nat)
    ensures |TriangleState(k).nodes| == 3 && Reachable(Triangle(), TriangleState(k))
    ensures Enabled(Triangle(), TriangleState(k), TriangleStep(k)) ==>
            TriangleState(k + 1) == Apply(Triangle(), TriangleState(k), TriangleStep(k))
  {
    hide Apply, Enabled, Exec, Reachable, Triangle;
    IsReachable(Triangle(), TriangleRun(k));
    ExecAppend(Triangle(), TriangleRun(k), TriangleStep(k));
  }

  /** All agents are started, and only ant 0 has been launched. */
  ghost predicate OneAnt(st: State) {
    && |st.nodes| == 3 && st.launched == 1 && 0 in st.flight
    && (forall v :: 0 <= v < 3 ==> st.nodes[v].started)
  }

  ghost predicate OnTheWay(st: State, mem: seq<nat>, next: nat) {
    && OneAnt(st) && mem != [] && st.nodes[0].calls == []
    && var ant := st.flight[0].ant;
    && ant.dir == Down && ant.dst == 2 && ant.nextHop == next && ant.saddr == mem[|mem| - 1]
    && |ant.mem| == |mem| && forall k :: 0 <= k < |mem| ==> ant.mem[k].node == mem[k]
  }

  lemma FirstLaunch()
    ensures OnTheWay(TriangleState(1), [0], 1)
  {
    var topo, st := Triangle(), TriangleState(0);
    TriangleIsWellFormed();
    AllStarted(topo, 3);
    TriangleNext(0);
    hide Exec, CalcNext, Apply, Reachable, Triangle, TriangleRun;
    LowestHop(topo, st, 0, 2, 0, 0);
    LaunchTo(topo, st, 0, 2, 1);
  }

  lemma SecondHopFrom(st: State)
    requires Reachable(Triangle(), st) && OnTheWay(st, [0], 1)
    ensures Enabled(Triangle(), st, Hop()) && OnTheWay(Apply(Triangle(), st, Hop()), [0, 1], 2)
  {
    var topo, ant := Triangle(), st.flight[0].ant;
    TriangleIsWellFormed();
    hide CalcNext, Apply, Reachable, Triangle;
    assert FindNode(ant.mem, 1) == |ant.mem|;
    LowestHop(topo, st, 1, 2, 0, 1);
    ForwardTo(topo, st, 0, ant.mem + [Entry(1, 0.0 - ant.start)], 2);
  }

  lemma SecondHop()
    ensures OnTheWay(TriangleState(2), [0, 1], 2)
  {
    assert TriangleStep(1) == Hop();
    hide *;
    FirstLaunch();
    TriangleNext(1);
    SecondHopFrom(TriangleState(1));
  }

  /** The ant has turned round: it remembers 0, 1, 2 and is about to reach node k again. */
  ghost predicate OnTheWayBack(st: State, k: nat) {
    && OneAnt(st) && st.nodes[0].calls == []
    && var ant := st.flight[0].ant;
    && ant.dir == Up && ant.nextHop == k
    && |ant.mem| == 3 && ant.mem[0].node == 0 && ant.mem[1].node == 1 && ant.mem[2].node == 2
  }

  lemma TurnsRoundFrom(st: State)
    requires OnTheWay(st, [0, 1], 2)
    ensures Enabled(Triangle(), st, Hop()) && OnTheWayBack(Apply(Triangle(), st, Hop()), 1)
  {
    var ant := st.flight[0].ant;
    hide Apply, Triangle;
    assert FindNode(ant.mem, 2) == |ant.mem|;
    TurnBack(Triangle(), st, 0, ant.mem + [Entry(2, 0.0 - ant.start)]);
  }

  lemma TurnsRound()
    ensures OnTheWayBack(TriangleState(3), 1)
  {
    assert TriangleStep(2) == Hop();
    hide *;
    SecondHop();
    TriangleNext(2);
    TurnsRoundFrom(TriangleState(2));
  }

  lemma BackwardAtEntry(st: State, k: nat)
    requires Triangle().WellFormed() && Reachable(Triangle(), st) && OnTheWayBack(st, k) && k < 3
    ensures BackwardAt(Triangle(), st.flight[0], k)
  {
    assert FindNode(st.flight[0].ant.mem, k) == k;
    hide BackwardAt, Reachable, ForwardOk, Triangle;
    AntsAreWellFormed(Triangle(), st, 0);
  }

  lemma NextReceiver(topo: Topology, f: Flight, k: nat)
    requires BackwardAt(topo, f, k)
    ensures k + 1 < |f.ant.mem| && f.ant.nextHop == f.ant.mem[k].node && f.ant.dir == Up
  {}

  lemma BackAtOneFrom(st: State)
    requires Reachable(Triangle(), st) && OnTheWayBack(st, 1)
    ensures Enabled(Triangle(), st, Hop()) && OnTheWayBack(Apply(Triangle(), st, Hop()), 0)
  {
    TriangleIsWellFormed();
    BackwardAtEntry(st, 1);
    hide Apply, Triangle, BackwardAt, Reachable;
    BackwardTo(Triangle(), st, 0, 1);
    NextReceiver(Triangle(), Apply(Triangle(), st, Hop()).flight[0], 0);
  }

  lemma BackAtOne()
    ensures OnTheWayBack(TriangleState(4), 0)
  {
    assert TriangleStep(3) == Hop();
    hide *;
    TurnsRound();
    TriangleNext(3);
    BackAtOneFrom(TriangleState(3));
  }

  /** Node 0 has reinforced the link to 1 for destination 2, and that is all it has done for it. */
  ghost predicate ReinforcedOnce(st: State) {
    && |st.nodes| == 3 && (forall v :: 0 <= v < 3 ==> st.nodes[v].started)
    && History(st.nodes[0].calls, 2) == [1]
  }

  lemma BackAtZeroFrom(st: State)
    requires Reachable(Triangle(), st) && OnTheWayBack(st, 0)
    ensures Enabled(Triangle(), st, Hop())
    ensures var st' := Apply(Triangle(), st, Hop()); ReinforcedOnce(st') && st'.launched == 1
  {
    TriangleIsWellFormed();
    BackwardAtEntry(st, 0);
    hide Apply, Triangle, BackwardAt, Reachable, History;
    BackwardTo(Triangle(), st, 0, 0);
    var c1, c2 := Call(0, 1, 1), Call(0, 2, 1);
    assert CallsAt(st.flight[0].ant.mem, 0) == [c1, c2];
    HistoryOfTwo(c1, c2);
  }

  lemma BackAtZero()
    ensures ReinforcedOnce(TriangleState(5)) && TriangleState(5).launched == 1
  {
    assert TriangleStep(4) == Hop();
    hide *;
    BackAtOne();
    TriangleNext(4);
    BackAtZeroFrom(TriangleState(4));
  }

  lemma HistoryOfTwo(c1: Call, c2: Call)
    requires c1.dest != c2.dest
    ensures History([] + [c1, c2], c2.dest) == [c2.next]
  {
    assert ([] + [c1, c2])[..1] == [c1] && [c1][..0] == [];
    assert History([c1], c2.dest) == [];
  }

  ghost predicate SecondAnt(st: State) {
    ReinforcedOnce(st) && 1 in st.flight && st.flight[1] == Fresh(1, 2, st.flight[1].ant.seqNum, 0.0, 0)
  }

  lemma SecondLaunchFrom(st: State)
    requires Reachable(Triangle(), st) && ReinforcedOnce(st) && st.launched == 1
    ensures Enabled(Triangle(), st, TriangleStep(5)) && SecondAnt(Apply(Triangle(), st, TriangleStep(5)))
  {
    TriangleIsWellFormed();
    hide CalcNext, Apply, Reachable, Triangle, History;
    LowestHop(Triangle(), st, 1, 2, 1, 0);
    LaunchTo(Triangle(), st, 1, 2, 0);
  }

  lemma SecondLaunch()
    ensures SecondAnt(TriangleState(6))
  {
    hide *;
    BackAtZero();
    TriangleNext(5);
    SecondLaunchFrom(TriangleState(5));
  }

  /** In this run ant 1, bound for 2, is freed as a dead end at node 0, a neighbour of 2 other than the one it
      came from. */
  lemma DeadEndWithFullReinforcement()
    ensures var st := Exec(Triangle(), TriangleRun(7));
            && 1 in st.done && st.done[1].why == DeadEnd && st.done[1].at == 0 && st.done[1].last.Some?
            && st.done[1].last.value.ant.dst == 2 && st.done[1].last.value.ant.saddr == 1
            && 2 in Triangle().nbrs[0]
  {
    var topo, st, step := Triangle(), TriangleState(6), TriangleStep(6);
    SecondLaunch();
    TriangleIsWellFormed();
    TriangleNext(6);
    assert Starved([1, 2], 1.0, [1], 1, QueueToTwo());
    assert Memorize(st.flight[1].ant.mem, 0, 0.0).Some?;
    DeadEndsExactly(topo, st, step);
    hide TriangleState, CalcNext, Reachable, Triangle, History, ReplyTo, Starved;
    assert ReplyTo(topo, st, 1, 0, 0.0, QueueToTwo(), Lowest()).outcome == Ended(DeadEnd);
  }
}
