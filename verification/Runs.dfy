/** What holds in every reachable state of the network, and along every run. */
module Runs {
  import opened Wrappers
  import opened Selection
  import opened AntMemory
  import opened Ants
  import opened Network

  // ---- Every step keeps the invariant ----

  lemma InitInv(topo: Topology)
    requires topo.WellFormed()
    ensures Inv(topo, Init(topo))
  {}

  lemma StartKeepsInv(topo: Topology, st: State, v: nat)
    requires topo.WellFormed() && Inv(topo, st) && Enabled(topo, st, Start(v))
    ensures Inv(topo, Apply(topo, st, Start(v)))
  {
    assert NodeOk(topo, v, Apply(topo, st, Start(v)).nodes[v]);
  }

  lemma LaunchedAnt(topo: Topology, v: nat, node: Node, dest: nat, now: real, qlen: LinkQueues, uniform: Draw)
    requires topo.WellFormed() && v < topo.N() && NodeOk(topo, v, node)
    requires dest < topo.N() && dest != v && IsDraw(uniform)
    ensures match Launch(v, node.seqNum, dest, node.table, |topo.nbrs[v]|, now, qlen, uniform)
            case Sent(ant) => ForwardOk(topo, Flight(ant, Plan(v, dest, now, node.seqNum), [Visit(v, now)], [], []))
            case Ended(why) => why == DeadEnd
  {
    NextHopIsLink(topo, v, node, dest, v, qlen, uniform);
    assert LastVisit([Visit(v, now)], v) == 0;
  }

  lemma LaunchKeepsInv(topo: Topology, st: State, step: Step)
    requires topo.WellFormed() && Inv(topo, st) && step.LaunchAnt? && Enabled(topo, st, step)
    ensures Inv(topo, Apply(topo, st, step))
  {
    var v, node := step.v, st.nodes[step.v];
    assert NodeOk(topo, v, node);
    LaunchedAnt(topo, v, node, step.dest, step.now, step.qlen, step.uniform);
    ApplyLaunchKeepsInv(topo, st, Plan(v, step.dest, step.now, node.seqNum),
      Launch(v, node.seqNum, step.dest, node.table, |topo.nbrs[v]|, step.now, step.qlen, step.uniform));
  }

  lemma ApplyLaunchKeepsInv(topo: Topology, st: State, plan: Plan, outcome: Outcome)
    requires topo.WellFormed() && Inv(topo, st) && plan.src < topo.N()
    requires outcome.Sent? ==> ForwardOk(topo, Flight(outcome.ant, plan, [Visit(plan.src, plan.start)], [], []))
    requires outcome.Ended? ==> outcome.why == DeadEnd
    ensures Inv(topo, ApplyLaunch(st, plan, outcome))
  {
    assert NodeOk(topo, plan.src, st.nodes[plan.src]);
    assert NodeOk(topo, plan.src, ApplyLaunch(st, plan, outcome).nodes[plan.src]);
  }

  lemma CalledKeepsNode(topo: Topology, v: nat, node: Node, calls: seq<Call>)
    requires topo.WellFormed() && v < topo.N() && NodeOk(topo, v, node)
    requires forall i :: 0 <= i < |calls| ==> calls[i].next in topo.nbrs[v]
    ensures NodeOk(topo, v, Called(node, calls, topo.r[v]))
  {
    ApplyCallsConcat(Initialized(map[], v, topo.N(), topo.nbrs[v]), node.calls, calls, topo.r[v]);
    if !node.started {
      RowsFollowHistory(map[], calls, topo.r[v], 0);
      assert ApplyCalls(map[], calls, topo.r[v]) == map[];
    }
  }

  /** The outcome of any delivery in a well-formed state. */
  lemma DeliveryOutcome(topo: Topology, st: State, step: Step)
    requires topo.WellFormed() && Inv(topo, st) && step.Deliver? && Enabled(topo, st, step)
    ensures st.flight[step.id].ant.nextHop < |st.nodes|
    ensures var f := st.flight[step.id];
            var v := f.ant.nextHop;
            var reply := ReplyTo(topo, st, step.id, step.numForwards, step.now, step.qlen, step.uniform);
            var f' := WithHistory(f, v, step.now, reply.calls);
            && (forall i :: 0 <= i < |reply.calls| ==> reply.calls[i].next in topo.nbrs[v])
            && match reply.outcome
               case Sent(ant) => FlightOk(topo, f'.(ant := ant))
               case Ended(why) => why != Lost && DoneOk(topo, Done(why, v, Some(f')))
  {
    var f := st.flight[step.id];
    var v := f.ant.nextHop;
    if ForwardOk(topo, f) {
      var node := if v < |st.nodes| then st.nodes[v] else Node(false, map[], 0, []);
      ForwardDelivery(topo, f, node, step.numForwards, step.now, step.qlen, step.uniform);
    } else {
      var k := FindNode(f.ant.mem, v);
      var node := if v < |st.nodes| then st.nodes[v] else Node(false, map[], 0, []);
      BackwardDelivery(topo, f, k, node, step.numForwards, step.now, step.qlen, step.uniform);
      if k > 0 {
        FindDistinct(f.ant.mem, k - 1);
      }
    }
  }

  lemma SettleKeepsInv(topo: Topology, st: State, id: nat, f: Flight, at: nat, outcome: Outcome)
    requires topo.WellFormed() && Inv(topo, st) && id in st.flight
    requires outcome.Sent? ==> FlightOk(topo, f.(ant := outcome.ant))
    requires outcome.Ended? ==> DoneOk(topo, Done(outcome.why, at, Some(f)))
    ensures Inv(topo, Settle(st, id, f, at, outcome))
  {}

  lemma CallsKeepInv(topo: Topology, st: State, v: nat, calls: seq<Call>)
    requires topo.WellFormed() && Inv(topo, st) && v < |st.nodes|
    requires forall i :: 0 <= i < |calls| ==> calls[i].next in topo.nbrs[v]
    ensures Inv(topo, st.(nodes := st.nodes[v := Called(st.nodes[v], calls, topo.r[v])]))
  {
    CalledKeepsNode(topo, v, st.nodes[v], calls);
  }

  lemma DeliverKeepsInv(topo: Topology, st: State, step: Step)
    requires topo.WellFormed() && Inv(topo, st) && step.Deliver? && Enabled(topo, st, step)
    ensures Inv(topo, Apply(topo, st, step))
  {
    DeliveryOutcome(topo, st, step);
    var f := st.flight[step.id];
    var v := f.ant.nextHop;
    var reply := ReplyTo(topo, st, step.id, step.numForwards, step.now, step.qlen, step.uniform);
    CallsKeepInv(topo, st, v, reply.calls);
    SettleKeepsInv(topo, st.(nodes := st.nodes[v := Called(st.nodes[v], reply.calls, topo.r[v])]),
                   step.id, WithHistory(f, v, step.now, reply.calls), v, reply.outcome);
  }

  lemma LoseKeepsInv(topo: Topology, st: State, id: nat)
    requires topo.WellFormed() && Inv(topo, st) && Enabled(topo, st, Lose(id))
    ensures Inv(topo, Apply(topo, st, Lose(id)))
  {
    hide FlightOk, NodeOk;
  }

  lemma StepKeepsInv(topo: Topology, st: State, step: Step)
    requires topo.WellFormed() && Inv(topo, st) && Enabled(topo, st, step)
    ensures Inv(topo, Apply(topo, st, step))
  {
    hide *;
    match step {
      case Start(v) => StartKeepsInv(topo, st, v);
      case LaunchAnt(_, _, _, _, _) => LaunchKeepsInv(topo, st, step);
      case Deliver(_, _, _, _, _) => DeliverKeepsInv(topo, st, step);
      case Lose(id) => LoseKeepsInv(topo, st, id);
    }
  }

  /** The invariant holds after every run, whatever the interleaving, the draws, the queues and the losses. */
  lemma {:induction false} EveryRun(topo: Topology, steps: seq<Step>)
    requires topo.WellFormed()
    ensures Inv(topo, Exec(topo, steps))
  {
    if steps == [] {
      InitInv(topo);
    } else {
      var n := |steps| - 1;
      EveryRun(topo, steps[..n]);
      if Enabled(topo, Exec(topo, steps[..n]), steps[n]) {
        StepKeepsInv(topo, Exec(topo, steps[..n]), steps[n]);
      }
    }
  }

  // ---- Reachable states ----

  ghost predicate Reachable(topo: Topology, st: State)
    requires |topo.r| == |topo.nbrs|
  {
    exists steps :: st == Exec(topo, steps)
  }

  lemma ReachableInv(topo: Topology, st: State)
    requires topo.WellFormed() && Reachable(topo, st)
    ensures Inv(topo, st)
  {
    var steps :| st == Exec(topo, steps);
    EveryRun(topo, steps);
  }

  lemma ReachableNode(topo: Topology, st: State, v: nat)
    requires topo.WellFormed() && Reachable(topo, st) && v < topo.N()
    ensures |st.nodes| == topo.N() && NodeOk(topo, v, st.nodes[v])
  {
    ReachableInv(topo, st);
  }

  lemma ReachableFlight(topo: Topology, st: State, id: nat)
    requires topo.WellFormed() && Reachable(topo, st) && id in st.flight
    ensures FlightOk(topo, st.flight[id])
  {
    ReachableInv(topo, st);
  }

  lemma ReachableDone(topo: Topology, st: State, id: nat)
    requires topo.WellFormed() && Reachable(topo, st) && id in st.done
    ensures DoneOk(topo, st.done[id])
  {
    ReachableInv(topo, st);
  }

  lemma ReachableSize(topo: Topology, st: State)
    requires topo.WellFormed() && Reachable(topo, st)
    ensures |st.nodes| == topo.N()
  {
    ReachableInv(topo, st);
  }
}
