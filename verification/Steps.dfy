/** What one step of the network does in a reachable state, and what it leaves to the ants for the rest of the run. */
module Steps {
  import opened Wrappers
  import opened PheromoneRow
  import opened Selection
  import opened AntMemory
  import opened Ants
  import opened Agent
  import opened Network
  import opened Runs
  import opened Theorems
  import opened Ledger
  import opened Scenarios

  // ---- Launches ----

  /** The ant that a launch at v for `dest` sends out. */
  ghost predicate LaunchedFor(f: Flight, v: nat, dest: nat, now: real, seqNum: nat) {
    && f.ant.pktType == 0x01 && f.ant.dir == Down
    && f.ant.src == v && f.ant.dst == dest && f.ant.saddr == v
    && f.ant.start == now && f.ant.seqNum == seqNum && f.ant.mem == [Entry(v, 0.0)]
    && f.plan == Plan(v, dest, now, seqNum) && f.walk == [Visit(v, now)] && f.back == [] && f.log == []
  }

  /** In every reachable state a launch at a node with neighbours sends one ant, for the destination drawn, along the
      link drawn from the row of that destination; at an isolated node it is freed. */
  lemma LaunchSends(topo: Topology, st: State, step: Step)
    requires topo.WellFormed() && Reachable(topo, st) && step.LaunchAnt? && Enabled(topo, st, step)
    ensures |st.nodes| == topo.N()
    ensures var v, dest, id, st' := step.v, step.dest, st.launched, Apply(topo, st, step);
            && st'.launched == id + 1
            && (forall i :: i in st.flight ==> i in st'.flight && st'.flight[i] == st.flight[i])
            && (forall i :: i in st'.flight ==> i in st.flight || i == id)
            && (id in st'.flight <==> topo.nbrs[v] != [])
            && (id !in st'.flight ==> id in st'.done && st'.done[id] == Done(DeadEnd, v, None))
            && (id in st'.flight ==>
                 && LaunchedFor(st'.flight[id], v, dest, step.now, st.nodes[v].seqNum)
                 && dest in st.nodes[v].table && |st.nodes[v].table[dest]| == |topo.nbrs[v]|
                 && ProportionalDraw(st.nodes[v].table[dest], topo.nbrs[v], v, step.qlen, step.uniform,
                                     st'.flight[id].ant.nextHop))
  {
    var v, dest := step.v, step.dest;
    ReachableSize(topo, st);
    FreshId(topo, st);
    LaunchDeadEndsExactly(topo, st, step);
    RowsAreDistributions(topo, st, v, dest);
    if topo.nbrs[v] != [] {
      DrawsAreProportional(topo, st, v, dest, v, step.qlen, step.uniform);
    }
    hide ProportionalDraw, CalcNext, Reachable, Distribution;
  }

  lemma FreshId(topo: Topology, st: State)
    requires topo.WellFormed() && Reachable(topo, st)
    ensures st.launched !in st.flight && st.launched !in st.done
  {
    ReachableInv(topo, st);
  }

  // ---- Deliveries ----

  /** Sixteen other nodes are in memory already. */
  ghost predicate NoRoom(ant: Ant, v: nat) {
    |ant.mem| >= 16 && forall k :: 0 <= k < |ant.mem| ==> ant.mem[k].node != v
  }

  /** The node cannot send the ant on: it has not been started, or knows only the previous hop, or is starved. */
  ghost predicate Stuck(topo: Topology, v: nat, node: Node, ant: Ant, qlen: LinkQueues)
    requires v < |topo.nbrs| == |topo.r|
  {
    || !node.started || topo.nbrs[v] == [ant.saddr]
    || Starved(topo.nbrs[v], topo.r[v], History(node.calls, ant.dst), ant.saddr, qlen)
  }

  /** What becomes of any delivered packet. */
  ghost predicate FateIs(ant: Ant, action: Action, stuck: bool) {
    var v := ant.nextHop;
    && (action == Drop <==> ant.dir == Down && NoRoom(ant, v))
    && (action == Free <==> if ant.dir == Down then !NoRoom(ant, v) && v != ant.dst && stuck else v == ant.dst)
    && action != Leave
  }

  /** In every reachable state a delivery drops the packet exactly when it is a forward ant whose memory has no room,
      frees it exactly when it is a forward ant stuck short of its destination or a backward ant back home, and sends
      it on in all other cases. */
  lemma FateOfDelivery(topo: Topology, st: State, step: Step)
    requires topo.WellFormed() && Reachable(topo, st) && step.Deliver? && Enabled(topo, st, step)
    ensures |st.nodes| == |topo.nbrs| == |topo.r| && st.flight[step.id].ant.nextHop < |topo.nbrs|
    ensures var ant := st.flight[step.id].ant;
            var v := ant.nextHop;
            var outcome := ReplyTo(topo, st, step.id, step.numForwards, step.now, step.qlen, step.uniform).outcome;
            FateIs(ant, ActionOf(outcome), Stuck(topo, v, st.nodes[v], ant, step.qlen))
  {
    AntsAreWellFormed(topo, st, step.id);
    DeadEndsExactly(topo, st, step);
    var f := st.flight[step.id];
    var v := f.ant.nextHop;
    if f.ant.dir == Down {
      DeliveriesAreDefined(topo, st, step);
      RoomInMemory(f.ant, step.now - f.ant.start);
      hide Starved, Memorize, NodeOk, History, ForwardOk, CalcNext, Reachable;
    } else {
      var k := FindNode(f.ant.mem, v);
      BackwardDelivery(topo, f, k, st.nodes[v], step.numForwards, step.now, step.qlen, step.uniform);
      HomeIsFirst(f, k);
      hide Starved, Memorize, NodeOk, History, BackwardAt, Recv, Reachable;
    }
  }

  /** A packet that comes back to the agent that last sent it is dropped if it was forwarded and left alone otherwise;
      either way it is not handled as an ant. */
  lemma OwnPacketsAreNotHandled(ant: Ant, numForwards: int, table: Table, numNb: nat, now: real, qlen: LinkQueues,
                                uniform: Draw)
    ensures var reply := Recv(ant, ant.saddr, numForwards, table, numNb, now, qlen, uniform);
            reply.calls == [] && ActionOf(reply.outcome) == if numForwards > 0 then Drop else Leave
  {}

  /** The guard of backward_ant_pkt drops a packet exactly at a node that is no entry of its memory but the first;
      elsewhere, the path being free of repeats, the packet goes to the entry before. */
  lemma GuardIsExact(ant: Ant, a: nat)
    ensures ActionOf(BackwardHop(ant, a)) == (if exists k :: 1 <= k < |ant.mem| && ant.mem[k].node == a then Send else Drop)
    ensures DistinctNodes(ant.mem) ==> forall k :: 1 <= k < |ant.mem| && ant.mem[k].node == a ==>
              BackwardHop(ant, a) == Sent(ant.(dir := Up, saddr := a, nextHop := ant.mem[k - 1].node))
  {
    hide FindLast;
  }

  lemma RoomInMemory(ant: Ant, elapsed: real)
    ensures Memorize(ant.mem, ant.nextHop, elapsed).None? <==> NoRoom(ant, ant.nextHop)
  {}

  lemma HomeIsFirst(f: Flight, k: nat)
    requires DistinctNodes(f.ant.mem) && k < |f.ant.mem| && f.ant.nextHop == f.ant.mem[k].node
    requires f.ant.dst == f.ant.mem[0].node
    ensures k == 0 <==> f.ant.nextHop == f.ant.dst
  {}

  /** A forward ant short of its destination that is sent on takes the link drawn from the row of its destination,
      the previous hop left out. */
  lemma DeliveryDraws(topo: Topology, st: State, step: Step)
    requires topo.WellFormed() && Reachable(topo, st) && step.Deliver? && Enabled(topo, st, step)
    requires st.flight[step.id].ant.dir == Down && st.flight[step.id].ant.nextHop != st.flight[step.id].ant.dst
    ensures |st.nodes| == topo.N() && st.flight[step.id].ant.nextHop < topo.N()
    ensures var ant, st' := st.flight[step.id].ant, Apply(topo, st, step);
            var table, nbrs := st.nodes[ant.nextHop].table, topo.nbrs[ant.nextHop];
            step.id in st'.flight ==>
              && ant.dst in table && |table[ant.dst]| == |nbrs|
              && ProportionalDraw(table[ant.dst], nbrs, ant.saddr, step.qlen, step.uniform, st'.flight[step.id].ant.nextHop)
  {
    AntsAreWellFormed(topo, st, step.id);
    ReachableSize(topo, st);
    var ant := st.flight[step.id].ant;
    var v := ant.nextHop;
    if ant.dst in st.nodes[v].table {
      DrawsAreProportional(topo, st, v, ant.dst, ant.saddr, step.qlen, step.uniform);
    }
    hide ProportionalDraw, Memorize, NodeOk, History, ForwardOk, CalcNextInRow, Reachable;
  }

  // ---- Plans over whole runs ----

  ghost predicate HasPlan(st: State, id: nat, plan: Plan) {
    match FlightOf(st, id)
    case Some(f) => f.plan == plan
    case None => false
  }

  lemma SettleKeepsPlans(st: State, other: nat, f: Flight, at: nat, outcome: Outcome, id: nat, plan: Plan)
    requires other in st.flight && f.plan == st.flight[other].plan && HasPlan(st, id, plan)
    ensures HasPlan(Settle(st, other, f, at, outcome), id, plan)
  {}

  lemma StepKeepsPlans(topo: Topology, st: State, step: Step, id: nat, plan: Plan)
    requires |st.nodes| == |topo.nbrs| == |topo.r| && Enabled(topo, st, step)
    requires HasPlan(st, id, plan) && id != st.launched
    ensures HasPlan(Apply(topo, st, step), id, plan)
  {
    match step {
      case Start(_) =>
      case LaunchAnt(_, _, _, _, _) => hide CalcNext;
      case Lose(other) =>
        SettleKeepsPlans(st, other, st.flight[other], st.flight[other].ant.nextHop, Ended(Lost), id, plan);
      case Deliver(other, numForwards, now, qlen, uniform) =>
        var f := st.flight[other];
        var v := f.ant.nextHop;
        if v < |st.nodes| {
          var reply := ReplyTo(topo, st, other, numForwards, now, qlen, uniform);
          var st' := st.(nodes := st.nodes[v := Called(st.nodes[v], reply.calls, topo.r[v])]);
          hide Recv, HasPlan, Settle, ApplyCalls;
          assert HasPlan(st', id, plan) by {
            PlansInFlights(st, st', id, plan);
          }
          SettleKeepsPlans(st', other, WithHistory(f, v, now, reply.calls), v, reply.outcome, id, plan);
        } else {
          SettleKeepsPlans(st, other, f, v, Ended(Undefined), id, plan);
        }
    }
  }

  lemma PlansInFlights(st: State, st': State, id: nat, plan: Plan)
    requires HasPlan(st, id, plan) && st'.flight == st.flight && st'.done == st.done
    ensures HasPlan(st', id, plan)
  {}

  lemma PlannedIsOld(topo: Topology, st: State, id: nat, plan: Plan)
    requires topo.WellFormed() && Reachable(topo, st) && HasPlan(st, id, plan)
    ensures id != st.launched && |st.nodes| == |topo.nbrs| == |topo.r|
  {
    FreshId(topo, st);
    ReachableSize(topo, st);
    hide Reachable;
  }

  lemma {:induction false} RunKeepsPlans(topo: Topology, before: seq<Step>, more: seq<Step>, id: nat, plan: Plan)
    requires topo.WellFormed() && HasPlan(Exec(topo, before), id, plan)
    ensures HasPlan(Exec(topo, before + more), id, plan)
  {
    if more == [] {
      assert before + more == before;
    } else {
      var n := |more| - 1;
      var rest := before + more[..n];
      assert before + more == rest + [more[n]];
      hide HasPlan, Apply, Enabled, Exec, Reachable;
      RunKeepsPlans(topo, before, more[..n], id, plan);
      IsReachable(topo, rest);
      ExecAppend(topo, rest, more[n]);
      PlannedIsOld(topo, Exec(topo, rest), id, plan);
      if Enabled(topo, Exec(topo, rest), more[n]) {
        StepKeepsPlans(topo, Exec(topo, rest), more[n], id, plan);
      }
    }
  }

  /** The ant keeps to its plan, and if it has completed, it did so between the origin and destination planned. */
  ghost predicate KeepsToPlan(st: State, id: nat, plan: Plan) {
    && HasPlan(st, id, plan)
    && (id in st.flight ==> FollowsPlan(st.flight[id]))
    && (id in st.done && st.done[id].why == Completed ==>
         && st.done[id].last.Some? && st.done[id].at == plan.src
         && var f := st.done[id].last.value;
         && |f.ant.mem| >= 2 && f.ant.mem[0].node == plan.src && f.ant.mem[|f.ant.mem| - 1].node == plan.dest
         && f.walk != [] && f.walk[0] == Visit(plan.src, plan.start) && f.ant.seqNum == plan.seqNum)
  }

  lemma PlansAreKept(topo: Topology, st: State, id: nat, plan: Plan)
    requires topo.WellFormed() && Reachable(topo, st) && HasPlan(st, id, plan)
    ensures KeepsToPlan(st, id, plan)
  {
    ReachableInv(topo, st);
    hide Reachable, SimplePath, NodeOk;
  }

  /** An ant launched at v for the destination drawn is, in every later state of every run, an ant from v for that
      destination; if it completes, its memory runs from v to that destination, whatever else happened. */
  lemma AntsServeTheirDestination(topo: Topology, before: seq<Step>, step: Step, more: seq<Step>)
    requires topo.WellFormed() && step.LaunchAnt? && Enabled(topo, Exec(topo, before), step) && topo.nbrs[step.v] != []
    ensures var st, v := Exec(topo, before), step.v;
            KeepsToPlan(Exec(topo, before + [step] + more), st.launched, Plan(v, step.dest, step.now, st.nodes[v].seqNum))
  {
    var st := Exec(topo, before);
    var id, plan := st.launched, Plan(step.v, step.dest, step.now, st.nodes[step.v].seqNum);
    IsReachable(topo, before);
    LaunchSends(topo, st, step);
    ExecAppend(topo, before, step);
    assert HasPlan(Exec(topo, before + [step]), id, plan);
    hide HasPlan, Apply, Enabled, Exec, Reachable, KeepsToPlan;
    RunKeepsPlans(topo, before + [step], more, id, plan);
    IsReachable(topo, before + [step] + more);
    PlansAreKept(topo, Exec(topo, before + [step] + more), id, plan);
  }

  // ---- Sequence numbers ----

  /** How many ants node v has launched in the run, freed ones included. */
  ghost function LaunchesAt(topo: Topology, steps: seq<Step>, v: nat): nat
    requires |topo.r| == |topo.nbrs|
  {
    if steps == [] then 0
    else
      var n := |steps| - 1;
      var last := steps[n];
      LaunchesAt(topo, steps[..n], v)
      + if last.LaunchAnt? && last.v == v && Enabled(topo, Exec(topo, steps[..n]), last) then 1 else 0
  }

  lemma StepNumbers(topo: Topology, st: State, step: Step, v: nat)
    requires v < |st.nodes| == |topo.nbrs| == |topo.r| && Enabled(topo, st, step)
    ensures v < |Apply(topo, st, step).nodes|
    ensures Apply(topo, st, step).nodes[v].seqNum
         == if step.LaunchAnt? && step.v == v then (st.nodes[v].seqNum + 1) % 256 else st.nodes[v].seqNum
  {
    hide Initialized, ApplyCalls, CalcNext, Recv;
  }

  /** The sequence number of the next ant is the number of launches so far, modulo 256. */
  lemma {:induction false} SequenceNumbers(topo: Topology, steps: seq<Step>, v: nat)
    requires |topo.r| == |topo.nbrs| && v < topo.N()
    ensures Exec(topo, steps).nodes[v].seqNum == LaunchesAt(topo, steps, v) % 256
  {
    if steps != [] {
      var n := |steps| - 1;
      SequenceNumbers(topo, steps[..n], v);
      var st, seqNum, count := Exec(topo, steps[..n]), Exec(topo, steps[..n]).nodes[v].seqNum, LaunchesAt(topo, steps[..n], v);
      NextNumber(seqNum, count);
      hide Apply, Enabled;
      if Enabled(topo, st, steps[n]) {
        StepNumbers(topo, st, steps[n], v);
      }
    }
  }

  lemma NextNumber(seqNum: nat, count: nat)
    requires seqNum == count % 256
    ensures (seqNum + 1) % 256 == (count + 1) % 256
  {}
}
