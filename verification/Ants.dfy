/** What an agent does with one ant, as functions of the ant and of the agent's table (antnet.cc). */
module Ants {
  import opened PheromoneRow
  import opened Selection
  import opened RoutingTable
  import opened AntMemory

  const FORWARD_ANT: nat := 1
  const SEQ_NUM_MODULUS: nat := 256

  datatype Direction = Down | NoDirection | Up

  /** The header fields of an ant packet that the agent reads or writes. */
  datatype Ant = Ant(pktType: nat, src: nat, dst: nat, seqNum: nat, start: real, mem: seq<Entry>,
                     dir: Direction, saddr: nat, nextHop: nat)

  /** One call of the table's update at `node`. */
  datatype Call = Call(node: nat, dest: nat, next: nat)

  /** How a packet's life ends; Undefined stands for a read outside the memory. */
  datatype Ending = Completed | DeadEnd | MemoryFull | NotOnPath | RouteLoop | Ignored | Undefined | Lost

  datatype Outcome = Sent(ant: Ant) | Ended(why: Ending)

  /** What one delivery does: table updates, in order, and what becomes of the packet. */
  datatype Reply = Reply(calls: seq<Call>, outcome: Outcome)

  // ---- Building and updating the table ----

  /** The table after initialize_rtable at node `a` has gone through destinations 0..numNodes-1. */
  function Initialized(table: Table, a: nat, numNodes: nat, nbrs: seq<nat>): Table {
    if numNodes == 0 || nbrs == [] then table
    else
      var d, t := numNodes - 1, Initialized(table, a, numNodes - 1, nbrs);
      if d == a then t else t[d := (if d in t then t[d] else []) + Uniform(nbrs)]
  }

  /** Every other destination gets one more uniform row, appended to whatever it had; nothing else changes. */
  lemma {:induction false} InitializedRows(table: Table, a: nat, numNodes: nat, nbrs: seq<nat>, d: nat)
    requires nbrs != []
    ensures var t := Initialized(table, a, numNodes, nbrs);
            var other := d < numNodes && d != a;
            && (d in t <==> d in table || other)
            && (d in t ==> t[d] == (if d in table then table[d] else []) + (if other then Uniform(nbrs) else []))
  {
    if numNodes == 0 {
      assert d in table ==> table[d] + [] == table[d];
    } else {
      InitializedRows(table, a, numNodes - 1, nbrs, d);
    }
  }

  /** A second `start` appends: every row then carries each link twice and a mass of 2. */
  lemma SecondStartDoublesRows(a: nat, numNodes: nat, nbrs: seq<nat>, d: nat)
    requires nbrs != [] && d < numNodes && d != a
    ensures var twice := Initialized(Initialized(map[], a, numNodes, nbrs), a, numNodes, nbrs);
            d in twice && twice[d] == Uniform(nbrs) + Uniform(nbrs) && Mass(twice[d]) == 2.0
  {
    InitializedRows(map[], a, numNodes, nbrs, d);
    InitializedRows(Initialized(map[], a, numNodes, nbrs), a, numNodes, nbrs, d);
    assert [] + Uniform(nbrs) == Uniform(nbrs);
    MassOfConcat(Uniform(nbrs), Uniform(nbrs));
    UniformIsDistribution(nbrs);
  }

  function ApplyCalls(table: Table, calls: seq<Call>, r: real): Table {
    if calls == [] then table
    else
      var c := calls[|calls| - 1];
      Updated(ApplyCalls(table, calls[..|calls| - 1], r), c.dest, c.next, r)
  }

  /** The calls update_table makes at entry i: every later node is a destination, entry i+1 the link. */
  function CallsAt(mem: seq<Entry>, i: nat): (calls: seq<Call>)
    requires i + 1 < |mem|
    ensures |calls| == |mem| - 1 - i
  {
    seq(|mem| - 1 - i, t requires 0 <= t < |mem| - 1 - i => Call(mem[i].node, mem[i + 1 + t].node, mem[i + 1].node))
  }

  /** Index of the last entry for `a`, or -1. */
  function FindLast(mem: seq<Entry>, a: nat): (i: int)
    ensures -1 <= i < |mem|
    ensures i >= 0 ==> mem[i].node == a
    ensures forall j :: i < j < |mem| ==> mem[j].node != a
  {
    if mem == [] then -1
    else if mem[|mem| - 1].node == a then |mem| - 1
    else FindLast(mem[..|mem| - 1], a)
  }

  // ---- Handlers ----

  function Launch(a: nat, seqNum: nat, dest: nat, table: Table, numNb: nat, now: real, qlen: LinkQueues, uniform: Draw)
    : Outcome
  {
    var next := Selection.CalcNext(table, dest, a, numNb, qlen, uniform);
    if next == a then Ended(DeadEnd)
    else Sent(Ant(FORWARD_ANT, a, dest, seqNum, now, [Entry(a, 0.0)], Down, a, next))
  }

  function ForwardHop(ant: Ant, a: nat, table: Table, numNb: nat, qlen: LinkQueues, uniform: Draw): Outcome {
    var next := Selection.CalcNext(table, ant.dst, ant.saddr, numNb, qlen, uniform);
    if next == a || next == ant.saddr then Ended(DeadEnd)
    else Sent(ant.(nextHop := next, saddr := a))
  }

  function TurnRound(ant: Ant, a: nat): Outcome {
    if |ant.mem| < 2 then Ended(Undefined)
    else Sent(ant.(src := ant.dst, dst := ant.src, dir := Up, saddr := a, nextHop := ant.mem[|ant.mem| - 2].node))
  }

  function BackwardHop(ant: Ant, a: nat): Outcome {
    var i := FindLast(ant.mem, a);
    if i <= 0 then Ended(NotOnPath)
    else Sent(ant.(dir := Up, saddr := a, nextHop := ant.mem[i - 1].node))
  }

  function ForwardReply(ant: Ant, a: nat, table: Table, numNb: nat, now: real, qlen: LinkQueues, uniform: Draw): Outcome {
    match Memorize(ant.mem, a, now - ant.start)
    case None => Ended(MemoryFull)
    case Some(mem) =>
      var grown := ant.(mem := mem);
      if a == ant.dst then TurnRound(grown, a) else ForwardHop(grown, a, table, numNb, qlen, uniform)
  }

  function RecvAntPkt(ant: Ant, a: nat, table: Table, numNb: nat, now: real, qlen: LinkQueues, uniform: Draw): Reply {
    match ant.dir
    case Down => Reply([], ForwardReply(ant, a, table, numNb, now, qlen, uniform))
    case Up =>
      var i := FindNode(ant.mem, a);
      if i + 1 >= |ant.mem| then Reply([], Ended(Undefined))
      else Reply(CallsAt(ant.mem, i), if a == ant.dst then Ended(Completed) else BackwardHop(ant, a))
    case NoDirection => Reply([], Ended(Ignored))
  }

  /** A delivery to the agent at `a`; `numForwards` is the counter the routing layers keep in the packet. */
  function Recv(ant: Ant, a: nat, numForwards: int, table: Table, numNb: nat, now: real, qlen: LinkQueues, uniform: Draw)
    : Reply
  {
    if ant.saddr == a then Reply([], Ended(if numForwards > 0 then RouteLoop else Ignored))
    else RecvAntPkt(ant, a, table, numNb, now, qlen, uniform)
  }

  // ---- Tables after calls ----

  lemma {:induction false} ApplyCallsConcat(table: Table, c1: seq<Call>, c2: seq<Call>, r: real)
    ensures ApplyCalls(table, c1 + c2, r) == ApplyCalls(ApplyCalls(table, c1, r), c2, r)
  {
    if c2 == [] {
      assert c1 + c2 == c1;
    } else {
      var n := |c2| - 1;
      ApplyCallsConcat(table, c1, c2[..n], r);
      assert (c1 + c2)[..|c1 + c2| - 1] == c1 + c2[..n];
    }
  }

  /** The reinforcements that `calls` make in the row of destination d, oldest first. */
  function History(calls: seq<Call>, d: nat): seq<nat> {
    if calls == [] then []
    else
      var n := |calls| - 1;
      History(calls[..n], d) + if calls[n].dest == d then [calls[n].next] else []
  }

  lemma {:induction false} HistoryLinks(calls: seq<Call>, d: nat, nbrs: seq<nat>)
    requires forall i :: 0 <= i < |calls| ==> calls[i].next in nbrs
    ensures forall t :: 0 <= t < |History(calls, d)| ==> History(calls, d)[t] in nbrs
  {
    if calls != [] {
      HistoryLinks(calls[..|calls| - 1], d, nbrs);
    }
  }

  /** Every row is a function of the calls that named its destination, and calls never add rows. */
  lemma {:induction false} RowsFollowHistory(table: Table, calls: seq<Call>, r: real, d: nat)
    ensures ApplyCalls(table, calls, r).Keys == table.Keys
    ensures d in table ==> ApplyCalls(table, calls, r)[d] == RowAfter(table[d], r, History(calls, d))
  {
    if calls != [] {
      var n := |calls| - 1;
      RowsFollowHistory(table, calls[..n], r, d);
      if d in table && calls[n].dest == d {
        RowAfterAppend(table[d], r, History(calls[..n], d), calls[n].next);
      } else if d in table {
        assert History(calls, d) == History(calls[..n], d);
      }
    }
  }
}
