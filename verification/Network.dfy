/** All agents of a network at once: ants in flight, steps in any interleaving, and what every run keeps. */
module Network {
  import opened PheromoneRow
  import opened Wrappers
  import opened Selection
  import opened AntMemory
  import opened Ants

  /** Node v has the neighbour list nbrs[v] and the reinforcement factor r[v]. */
  datatype Topology = Topology(nbrs: seq<seq<nat>>, r: seq<real>) {
    function N(): nat { |nbrs| }

    predicate Linked(v: nat, w: nat) { v < |nbrs| && w in nbrs[v] }

    /** Duplex links, no self-links, no repeats, factors between 0 and 1. */
    ghost predicate WellFormed() {
      && |r| == |nbrs|
      && (forall v :: 0 <= v < |r| ==> 0.0 <= r[v] <= 1.0)
      && (forall v :: 0 <= v < |nbrs| ==> NoRepeats(nbrs[v]) && v !in nbrs[v])
      && (forall v, w :: 0 <= v < |nbrs| && w in nbrs[v] ==> Linked(w, v))
    }
  }

  /** What an ant was launched for: from where, to the destination drawn, when, and as which of the node's ants. */
  datatype Plan = Plan(src: nat, dest: nat, start: real, seqNum: nat)

  /** An ant between two nodes, with its plan and its observed history: nodes walked while Down, nodes revisited
      while Up, and the table updates it made. */
  datatype Flight = Flight(ant: Ant, plan: Plan, walk: seq<Visit>, back: seq<nat>, log: seq<Call>)

  /** An agent, with the table updates made since its start. */
  datatype Node = Node(started: bool, table: Table, seqNum: nat, calls: seq<Call>)

  /** How and where a packet's life ended; an ant freed at launch never flew. */
  datatype Done = Done(why: Ending, at: nat, last: Option<Flight>)

  datatype State = State(nodes: seq<Node>, launched: nat, flight: map<nat, Flight>, done: map<nat, Done>)

  datatype Step =
    | Start(v: nat)
    | LaunchAnt(v: nat, dest: nat, now: real, qlen: LinkQueues, uniform: Draw)
    | Deliver(id: nat, numForwards: int, now: real, qlen: LinkQueues, uniform: Draw)
    | Lose(id: nat)

  function Init(topo: Topology): State {
    State(seq(topo.N(), _ => Node(false, map[], 0, [])), 0, map[], map[])
  }

  /** The node or packet that the step is about exists. */
  predicate Applicable(st: State, step: Step) {
    match step
    case Start(v) => v < |st.nodes|
    case LaunchAnt(v, _, _, _, _) => v < |st.nodes|
    case Deliver(id, _, _, _, _) => id in st.flight
    case Lose(id) => id in st.flight
  }

  ghost predicate Enabled(topo: Topology, st: State, step: Step): (enabled: bool)
    ensures enabled ==> Applicable(st, step)
  {
    match step
    case Start(v) => v < |st.nodes| && !st.nodes[v].started
    case LaunchAnt(v, dest, _, _, uniform) =>
      v < |st.nodes| && st.nodes[v].started && dest < topo.N() && dest != v && IsDraw(uniform)
    case Deliver(id, _, _, _, uniform) => id in st.flight && IsDraw(uniform)
    case Lose(id) => id in st.flight
  }

  /** Put the packet where the outcome says: back in flight, or among the ended ones. */
  function Settle(st: State, id: nat, f: Flight, at: nat, outcome: Outcome): State {
    match outcome
    case Sent(ant) => st.(flight := st.flight[id := f.(ant := ant)])
    case Ended(why) => st.(flight := st.flight - {id}, done := st.done[id := Done(why, at, Some(f))])
  }

  function ApplyLaunch(st: State, plan: Plan, outcome: Outcome): State
    requires plan.src < |st.nodes|
  {
    var id, v := st.launched, plan.src;
    var st' := st.(nodes := st.nodes[v := st.nodes[v].(seqNum := (st.nodes[v].seqNum + 1) % SEQ_NUM_MODULUS)],
                   launched := id + 1);
    match outcome
    case Sent(ant) => st'.(flight := st.flight[id := Flight(ant, plan, [Visit(v, plan.start)], [], [])])
    case Ended(why) => st'.(done := st.done[id := Done(why, v, None)])
  }

  /** The history of the flight after a delivery at v. */
  function WithHistory(f: Flight, v: nat, now: real, calls: seq<Call>): Flight {
    if f.ant.dir.Down? then f.(walk := f.walk + [Visit(v, now)])
    else f.(back := f.back + [v], log := f.log + calls)
  }

  function Called(node: Node, calls: seq<Call>, r: real): Node {
    node.(table := ApplyCalls(node.table, calls, r), calls := node.calls + calls)
  }

  function ApplyReply(topo: Topology, st: State, id: nat, reply: Reply, now: real): State
    requires |st.nodes| == |topo.r| && id in st.flight && st.flight[id].ant.nextHop < |st.nodes|
  {
    var f := st.flight[id];
    var v := f.ant.nextHop;
    Settle(st.(nodes := st.nodes[v := Called(st.nodes[v], reply.calls, topo.r[v])]),
           id, WithHistory(f, v, now, reply.calls), v, reply.outcome)
  }

  function ReplyTo(topo: Topology, st: State, id: nat, numForwards: int, now: real, qlen: LinkQueues, uniform: Draw): Reply
    requires |st.nodes| == |topo.nbrs| && id in st.flight && st.flight[id].ant.nextHop < |st.nodes|
  {
    var ant := st.flight[id].ant;
    var v := ant.nextHop;
    Recv(ant, v, numForwards, st.nodes[v].table, |topo.nbrs[v]|, now, qlen, uniform)
  }

  /** A delivery to an address outside the network counts as undefined behaviour. */
  function Apply(topo: Topology, st: State, step: Step): State
    requires |st.nodes| == |topo.nbrs| == |topo.r|
    requires Applicable(st, step)
  {
    match step
    case Start(v) =>
      st.(nodes := st.nodes[v := Node(true, Initialized(st.nodes[v].table, v, topo.N(), topo.nbrs[v]),
                                      st.nodes[v].seqNum, [])])
    case LaunchAnt(v, dest, now, qlen, uniform) =>
      var node := st.nodes[v];
      ApplyLaunch(st, Plan(v, dest, now, node.seqNum),
                  Launch(v, node.seqNum, dest, node.table, |topo.nbrs[v]|, now, qlen, uniform))
    case Deliver(id, numForwards, now, qlen, uniform) =>
      var f := st.flight[id];
      if f.ant.nextHop >= |st.nodes| then Settle(st, id, f, f.ant.nextHop, Ended(Undefined))
      else ApplyReply(topo, st, id, ReplyTo(topo, st, id, numForwards, now, qlen, uniform), now)
    case Lose(id) => Settle(st, id, st.flight[id], st.flight[id].ant.nextHop, Ended(Lost))
  }

  /** The state after a run; a step that is not enabled does nothing. */
  ghost function Exec(topo: Topology, steps: seq<Step>): (st: State)
    requires |topo.r| == |topo.nbrs|
    ensures |st.nodes| == |topo.nbrs|
  {
    if steps == [] then Init(topo)
    else
      var n := |steps| - 1;
      var st := Exec(topo, steps[..n]);
      if Enabled(topo, st, steps[n]) then Apply(topo, st, steps[n]) else st
  }

  // ---- The invariant ----

  /** A repeat-free path of real links. */
  ghost predicate SimplePath(topo: Topology, mem: seq<Entry>) {
    && mem != [] && DistinctNodes(mem)
    && (forall k :: 0 <= k < |mem| ==> mem[k].node < topo.N())
    && (forall k :: 0 <= k < |mem| - 1 ==> HopIsLink(topo, mem, k))
  }

  ghost predicate HopIsLink(topo: Topology, mem: seq<Entry>, k: nat)
    requires k + 1 < |mem|
  {
    topo.Linked(mem[k].node, mem[k + 1].node)
  }

  /** The nodes from the last but one back to entry k: the path in reverse. */
  function Retraced(mem: seq<Entry>, k: nat): seq<nat>
    decreases |mem| - k
  {
    if k + 1 >= |mem| then [] else Retraced(mem, k + 1) + [mem[k].node]
  }

  /** The table updates of a retrace down to entry k. */
  function JourneyLog(mem: seq<Entry>, k: nat): seq<Call>
    decreases |mem| - k
  {
    if k + 1 >= |mem| then [] else JourneyLog(mem, k + 1) + CallsAt(mem, k)
  }

  /** The ant still says what it was launched for; on its way back origin and destination have changed places. */
  ghost predicate FollowsPlan(f: Flight) {
    && f.ant.start == f.plan.start && f.ant.seqNum == f.plan.seqNum
    && (if f.ant.dir == Up then f.ant.src == f.plan.dest && f.ant.dst == f.plan.src
        else f.ant.src == f.plan.src && f.ant.dst == f.plan.dest)
  }

  ghost predicate Remembers(topo: Topology, f: Flight) {
    && FollowsPlan(f)
    && SimplePath(topo, f.ant.mem)
    && LastExitErasure(f.ant.mem, f.walk)
    && TripTimes(f.ant.mem, f.walk, f.ant.start)
    && f.walk[0].time == f.ant.start
    && f.ant.pktType == FORWARD_ANT
  }

  /** A forward ant: its memory runs from its origin to the previous hop and avoids its destination. */
  ghost predicate ForwardOk(topo: Topology, f: Flight) {
    && Remembers(topo, f)
    && var ant, mem := f.ant, f.ant.mem;
    && ant.dir == Down
    && mem[0].node == ant.src && mem[|mem| - 1].node == ant.saddr
    && ant.dst < topo.N() && FindNode(mem, ant.dst) == |mem|
    && ant.nextHop in topo.nbrs[ant.saddr]
    && f.back == [] && f.log == []
  }

  /** A backward ant about to reach entry k of its frozen memory, all later entries retraced. */
  ghost predicate BackwardAt(topo: Topology, f: Flight, k: nat) {
    && Remembers(topo, f)
    && var ant, mem := f.ant, f.ant.mem;
    && ant.dir == Up
    && k + 1 < |mem| && ant.nextHop == mem[k].node && ant.saddr == mem[k + 1].node
    && mem[0].node == ant.dst && mem[|mem| - 1].node == ant.src
    && f.back == Retraced(mem, k + 1) && f.log == JourneyLog(mem, k + 1)
  }

  ghost predicate FlightOk(topo: Topology, f: Flight) {
    ForwardOk(topo, f) || BackwardAt(topo, f, FindNode(f.ant.mem, f.ant.nextHop))
  }

  /** A completed ant went all the way back and made every update of the path exactly as prescribed. */
  ghost predicate JourneyComplete(topo: Topology, f: Flight, at: nat) {
    && Remembers(topo, f)
    && f.ant.dir == Up && |f.ant.mem| >= 2
    && at == f.ant.dst == f.ant.mem[0].node && f.ant.src == f.ant.mem[|f.ant.mem| - 1].node
    && f.back == Retraced(f.ant.mem, 0) && f.log == JourneyLog(f.ant.mem, 0)
  }

  ghost predicate DoneOk(topo: Topology, d: Done) {
    && d.why in {Completed, DeadEnd, MemoryFull, Lost}
    && (d.why == MemoryFull ==> topo.N() > MAX_NUM_NODES)
    && (d.why == Completed ==> d.last.Some? && JourneyComplete(topo, d.last.value, d.at))
  }

  /** A started agent's table is its initial table after the recorded updates, each along a real link. */
  ghost predicate NodeOk(topo: Topology, v: nat, node: Node)
    requires v < |topo.nbrs| == |topo.r|
  {
    && (forall i :: 0 <= i < |node.calls| ==> node.calls[i].next in topo.nbrs[v])
    && node.table == if node.started
                     then ApplyCalls(Initialized(map[], v, topo.N(), topo.nbrs[v]), node.calls, topo.r[v]) else map[]
  }

  ghost predicate Inv(topo: Topology, st: State)
    requires topo.WellFormed()
  {
    && |st.nodes| == topo.N()
    && (forall v :: 0 <= v < |st.nodes| ==> NodeOk(topo, v, st.nodes[v]))
    && (forall id :: id in st.flight ==> FlightOk(topo, st.flight[id]))
    && (forall id :: id in st.done ==> DoneOk(topo, st.done[id]))
    && st.flight.Keys !! st.done.Keys
    && (forall id: nat :: id < st.launched <==> id in st.flight || id in st.done)
  }

  // ---- Rows ----

  /** Every row of an agent is a probability distribution over exactly its links; a started agent with
      neighbours has a row for every other node, and no other agent has rows. */
  lemma NodeRows(topo: Topology, v: nat, node: Node, d: nat)
    requires topo.WellFormed() && v < topo.N() && NodeOk(topo, v, node)
    ensures d in node.table <==> node.started && topo.nbrs[v] != [] && d < topo.N() && d != v
    ensures d in node.table ==>
            && node.table[d] == RowAfter(Uniform(topo.nbrs[v]), topo.r[v], History(node.calls, d))
            && Distribution(node.table[d], topo.nbrs[v])
  {
    var nbrs := topo.nbrs[v];
    if node.started {
      RowsFollowHistory(Initialized(map[], v, topo.N(), nbrs), node.calls, topo.r[v], d);
      if nbrs != [] {
        InitializedRows(map[], v, topo.N(), nbrs, d);
        assert [] + Uniform(nbrs) == Uniform(nbrs);
        UniformIsDistribution(nbrs);
        HistoryLinks(node.calls, d, nbrs);
        HistoryKeepsDistribution(Uniform(nbrs), nbrs, topo.r[v], History(node.calls, d));
      }
    }
  }

  /** Unless it bounces the ant to its parent, calc_next picks a real link of the node. */
  lemma NextHopIsLink(topo: Topology, v: nat, node: Node, dest: nat, parent: nat, qlen: LinkQueues, uniform: Draw)
    requires topo.WellFormed() && v < topo.N() && NodeOk(topo, v, node) && IsDraw(uniform)
    ensures var next := CalcNext(node.table, dest, parent, |topo.nbrs[v]|, qlen, uniform);
            next == parent || next in topo.nbrs[v]
  {
    NodeRows(topo, v, node, dest);
    if dest in node.table {
      var row := node.table[dest];
      CalcNextInRowDeadEnd(row, parent, |topo.nbrs[v]|, qlen, uniform);
      var next := CalcNextInRow(row, parent, |topo.nbrs[v]|, qlen, uniform);
      if next != parent {
        var k :| 0 <= k < |row| && row[k].neighbor == next;
        assert topo.nbrs[v][k] == next;
      }
    }
  }

  // ---- One delivery ----

  lemma FindDistinct(mem: seq<Entry>, k: nat)
    requires DistinctNodes(mem) && k < |mem|
    ensures FindNode(mem, mem[k].node) == k && FindLast(mem, mem[k].node) == k
  {}

  lemma MemorizeKeepsPath(topo: Topology, mem: seq<Entry>, a: nat, elapsed: real, mem': seq<Entry>)
    requires SimplePath(topo, mem) && a < topo.N() && topo.Linked(mem[|mem| - 1].node, a)
    requires Memorize(mem, a, elapsed) == Some(mem')
    ensures SimplePath(topo, mem') && mem'[|mem'| - 1].node == a && mem'[0].node == mem[0].node
    ensures FindNode(mem, a) == |mem| ==> |mem'| == |mem| + 1
  {
    forall k | 0 <= k < |mem'| - 1 ensures HopIsLink(topo, mem', k) {
      assert k < |mem| - 1 ==> HopIsLink(topo, mem, k);
    }
  }

  lemma MemorizeAddsOnly(mem: seq<Entry>, a: nat, elapsed: real, mem': seq<Entry>, x: nat)
    requires Memorize(mem, a, elapsed) == Some(mem')
    requires FindNode(mem, x) == |mem| && x != a
    ensures FindNode(mem', x) == |mem'|
  {
    hide FindNode;
  }

  /** What may become of a forward ant: a well-formed ant again, a dead end, or a full memory in a large network. */
  ghost predicate ForwardOutcome(topo: Topology, f: Flight, outcome: Outcome) {
    match outcome
    case Sent(ant) => FlightOk(topo, f.(ant := ant))
    case Ended(why) => why == DeadEnd || (why == MemoryFull && topo.N() > MAX_NUM_NODES)
  }

  /** At its destination a forward ant turns round with at least two entries and heads for the last but one. */
  lemma Arrival(topo: Topology, f: Flight, now: real, mem: seq<Entry>)
    requires topo.WellFormed() && ForwardOk(topo, f) && f.ant.nextHop == f.ant.dst
    requires Memorize(f.ant.mem, f.ant.dst, now - f.ant.start) == Some(mem)
    ensures ForwardOutcome(topo, WithHistory(f, f.ant.dst, now, []), TurnRound(f.ant.(mem := mem), f.ant.dst))
  {
    var v := f.ant.dst;
    assert topo.Linked(v, f.ant.saddr);
    MemorizeErases(f.ant.mem, f.walk, f.ant.start, Visit(v, now), mem);
    MemorizeKeepsPath(topo, f.ant.mem, v, now - f.ant.start, mem);
    var k := |mem| - 2;
    FindDistinct(mem, k);
    assert Retraced(mem, k + 1) == [] && JourneyLog(mem, k + 1) == [];
  }

  /** Short of its destination a forward ant is sent along a real link or freed. */
  lemma Onward(topo: Topology, f: Flight, node: Node, now: real, qlen: LinkQueues, uniform: Draw, mem: seq<Entry>)
    requires topo.WellFormed() && ForwardOk(topo, f) && IsDraw(uniform)
    requires f.ant.nextHop < topo.N() && f.ant.nextHop != f.ant.dst && NodeOk(topo, f.ant.nextHop, node)
    requires Memorize(f.ant.mem, f.ant.nextHop, now - f.ant.start) == Some(mem)
    ensures var v := f.ant.nextHop;
            ForwardOutcome(topo, WithHistory(f, v, now, []),
                           ForwardHop(f.ant.(mem := mem), v, node.table, |topo.nbrs[v]|, qlen, uniform))
  {
    var v := f.ant.nextHop;
    assert topo.Linked(v, f.ant.saddr);
    MemorizeErases(f.ant.mem, f.walk, f.ant.start, Visit(v, now), mem);
    MemorizeKeepsPath(topo, f.ant.mem, v, now - f.ant.start, mem);
    MemorizeAddsOnly(f.ant.mem, v, now - f.ant.start, mem, f.ant.dst);
    NextHopIsLink(topo, v, node, f.ant.dst, f.ant.saddr, qlen, uniform);
  }

  /** A forward ant's delivery: never undefined, dropped only when the memory is full, and whatever
      is sent on is again a well-formed ant. */
  lemma ForwardDelivery(topo: Topology, f: Flight, node: Node, numForwards: int, now: real, qlen: LinkQueues, uniform: Draw)
    requires topo.WellFormed() && ForwardOk(topo, f) && IsDraw(uniform)
    requires f.ant.nextHop < topo.N() ==> NodeOk(topo, f.ant.nextHop, node)
    ensures f.ant.nextHop < topo.N()
    ensures var v := f.ant.nextHop;
            var reply := Recv(f.ant, v, numForwards, node.table, |topo.nbrs[v]|, now, qlen, uniform);
            reply.calls == [] && ForwardOutcome(topo, WithHistory(f, v, now, []), reply.outcome)
  {
    var ant, mem, v := f.ant, f.ant.mem, f.ant.nextHop;
    assert topo.Linked(v, ant.saddr) && v != ant.saddr;
    match Memorize(mem, v, now - ant.start) {
      case None =>
        if topo.N() <= MAX_NUM_NODES {
          MemorySuffices(mem, topo.N(), v, now - ant.start);
        }
      case Some(mem') =>
        var reply := Recv(ant, v, numForwards, node.table, |topo.nbrs[v]|, now, qlen, uniform);
        if v == ant.dst {
          assert reply.outcome == TurnRound(ant.(mem := mem'), v);
          Arrival(topo, f, now, mem');
        } else {
          assert reply.outcome == ForwardHop(ant.(mem := mem'), v, node.table, |topo.nbrs[v]|, qlen, uniform);
          Onward(topo, f, node, now, qlen, uniform, mem');
        }
    }
  }

  lemma CallsAlongLinks(topo: Topology, mem: seq<Entry>, k: nat)
    requires SimplePath(topo, mem) && k + 1 < |mem|
    ensures forall i :: 0 <= i < |CallsAt(mem, k)| ==> CallsAt(mem, k)[i].next in topo.nbrs[mem[k].node]
  {
    assert HopIsLink(topo, mem, k);
  }

  /** A backward ant's delivery: updates along a real link, then one entry further back or complete. */
  lemma BackwardDelivery(topo: Topology, f: Flight, k: nat, node: Node, numForwards: int, now: real,
                         qlen: LinkQueues, uniform: Draw)
    requires topo.WellFormed() && BackwardAt(topo, f, k)
    ensures f.ant.nextHop < topo.N()
    ensures var v := f.ant.nextHop;
            var reply := Recv(f.ant, v, numForwards, node.table, |topo.nbrs[v]|, now, qlen, uniform);
            && reply.calls == CallsAt(f.ant.mem, k)
            && (forall i :: 0 <= i < |reply.calls| ==> reply.calls[i].next in topo.nbrs[v])
            && var f' := WithHistory(f, v, now, reply.calls);
            match reply.outcome
               case Sent(ant) => k > 0 && ant.mem == f.ant.mem && BackwardAt(topo, f'.(ant := ant), k - 1)
               case Ended(why) => k == 0 && why == Completed && JourneyComplete(topo, f', v)
  {
    var mem := f.ant.mem;
    FindDistinct(mem, k);
    CallsAlongLinks(topo, mem, k);
    assert mem[k].node != mem[k + 1].node;
    if k > 0 {
      assert mem[k].node != mem[0].node;
      FindDistinct(mem, k - 1);
    }
  }
}
