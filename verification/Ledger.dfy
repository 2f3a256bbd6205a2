/** The books of the network: the updates in all tables are exactly the updates that the ants made. */
module Ledger {
  import opened Wrappers
  import opened Selection
  import opened AntMemory
  import opened Ants
  import opened Network
  import opened Runs
  import opened Retrace

  /** The updates made in all tables. */
  function AllCalls(nodes: seq<Node>): multiset<Call> {
    if nodes == [] then multiset{} else AllCalls(nodes[..|nodes| - 1]) + multiset(nodes[|nodes| - 1].calls)
  }

  /** What is known of ant `id`, under way or ended; nothing of an ant freed at launch. */
  function FlightOf(st: State, id: nat): Option<Flight> {
    if id in st.flight then Some(st.flight[id]) else if id in st.done then st.done[id].last else None
  }

  function LogOf(st: State, id: nat): seq<Call> {
    match FlightOf(st, id)
    case Some(f) => f.log
    case None => []
  }

  /** The updates made by the first n ants. */
  function AllLogs(st: State, n: nat): multiset<Call> {
    if n == 0 then multiset{} else AllLogs(st, n - 1) + multiset(LogOf(st, n - 1))
  }

  // ---- The invariant ----

  ghost predicate OwnCalls(node: Node, v: nat) {
    && (forall i :: 0 <= i < |node.calls| ==> node.calls[i].node == v)
    && (!node.started ==> node.calls == [])
  }

  predicate StartedAt(nodes: seq<Node>, v: nat) {
    v < |nodes| && nodes[v].started
  }

  ghost predicate StartedUpTo(nodes: seq<Node>, mem: seq<Entry>, n: int) {
    forall k :: 0 <= k < n && k < |mem| ==> StartedAt(nodes, mem[k].node)
  }

  /** Every agent that sent the ant on has been started. */
  ghost predicate StartedAlong(nodes: seq<Node>, f: Flight) {
    StartedUpTo(nodes, f.ant.mem, if f.ant.dir.Down? then |f.ant.mem| else |f.ant.mem| - 1)
  }

  /** The ant made the updates of a retrace of its path, down to some entry. */
  ghost predicate Retracing(topo: Topology, f: Flight) {
    SimplePath(topo, f.ant.mem) && exists k: nat :: k < |f.ant.mem| && f.log == JourneyLog(f.ant.mem, k)
  }

  ghost predicate NodesBooked(nodes: seq<Node>) {
    forall v :: 0 <= v < |nodes| ==> OwnCalls(nodes[v], v)
  }

  ghost predicate FlightsBooked(nodes: seq<Node>, flight: map<nat, Flight>) {
    forall id :: id in flight ==> StartedAlong(nodes, flight[id])
  }

  ghost predicate DoneBooked(topo: Topology, done: map<nat, Done>) {
    forall id :: id in done && done[id].last.Some? ==> Retracing(topo, done[id].last.value)
  }

  ghost predicate Balanced(st: State) {
    AllCalls(st.nodes) == AllLogs(st, st.launched)
  }

  ghost predicate Booked(topo: Topology, st: State) {
    NodesBooked(st.nodes) && FlightsBooked(st.nodes, st.flight) && DoneBooked(topo, st.done) && Balanced(st)
  }

  // ---- Sums ----

  lemma {:induction false} AllCallsAt(nodes: seq<Node>, v: nat, node: Node, more: multiset<Call>)
    requires v < |nodes| && multiset(node.calls) == multiset(nodes[v].calls) + more
    ensures AllCalls(nodes[v := node]) == AllCalls(nodes) + more
  {
    var n := |nodes| - 1;
    if v < n {
      AllCallsAt(nodes[..n], v, node, more);
      assert nodes[v := node][..n] == nodes[..n][v := node];
    } else {
      assert nodes[v := node][..n] == nodes[..n];
    }
  }

  lemma {:induction false} AllLogsAt(st: State, st': State, n: nat, id: nat, more: multiset<Call>)
    requires forall i: nat :: i < n && i != id ==> LogOf(st', i) == LogOf(st, i)
    requires multiset(LogOf(st', id)) == multiset(LogOf(st, id)) + more
    ensures AllLogs(st', n) == AllLogs(st, n) + if id < n then more else multiset{}
  {
    hide LogOf;
    if n > 0 {
      AllLogsAt(st, st', n - 1, id, more);
    }
  }

  // ---- Every step keeps the books ----

  lemma FlightRetracing(topo: Topology, f: Flight)
    requires FlightOk(topo, f)
    ensures Retracing(topo, f)
  {
    if ForwardOk(topo, f) {
      assert f.log == JourneyLog(f.ant.mem, |f.ant.mem| - 1);
    }
  }

  lemma NodeChanges(nodes: seq<Node>, v: nat, node: Node)
    requires v < |nodes| && NodesBooked(nodes) && OwnCalls(node, v)
    ensures NodesBooked(nodes[v := node])
  {
    hide OwnCalls;
  }

  lemma StartedStays(nodes: seq<Node>, v: nat, node: Node, mem: seq<Entry>, n: int)
    requires v < |nodes| && (nodes[v].started ==> node.started) && StartedUpTo(nodes, mem, n)
    ensures StartedUpTo(nodes[v := node], mem, n)
  {
    forall k | 0 <= k < n && k < |mem| ensures StartedAt(nodes[v := node], mem[k].node) {
      assert StartedAt(nodes, mem[k].node);
    }
  }

  lemma FlightsStay(nodes: seq<Node>, v: nat, node: Node, flight: map<nat, Flight>)
    requires v < |nodes| && (nodes[v].started ==> node.started) && FlightsBooked(nodes, flight)
    ensures FlightsBooked(nodes[v := node], flight)
  {
    forall id | id in flight ensures StartedAlong(nodes[v := node], flight[id]) {
      var mem := flight[id].ant.mem;
      StartedStays(nodes, v, node, mem, if flight[id].ant.dir.Down? then |mem| else |mem| - 1);
    }
  }

  /** At node v and in the log of ant id the same updates come in; a new ant has none. */
  lemma BalanceStays(st: State, st': State, v: nat, id: nat, more: seq<Call>)
    requires Balanced(st) && v < |st.nodes| == |st'.nodes| && st'.nodes == st.nodes[v := st'.nodes[v]]
    requires st'.nodes[v].calls == st.nodes[v].calls + more && LogOf(st', id) == LogOf(st, id) + more
    requires forall i: nat :: i < st.launched && i != id ==> LogOf(st', i) == LogOf(st, i)
    requires st'.launched == st.launched ==> id < st.launched || more == []
    requires st'.launched == st.launched || (st'.launched == st.launched + 1 == id + 1 && LogOf(st', id) == [])
    ensures Balanced(st')
  {
    hide LogOf, AllCalls;
    AllCallsAt(st.nodes, v, st'.nodes[v], multiset(more));
    AllLogsAt(st, st', st.launched, id, multiset(more));
  }

  lemma StartChanges(topo: Topology, st: State, v: nat)
    requires v < |st.nodes| == |topo.nbrs| == |topo.r| && NodesBooked(st.nodes) && !st.nodes[v].started
    ensures var st' := Apply(topo, st, Start(v));
            && |st'.nodes| == |st.nodes| && st' == st.(nodes := st.nodes[v := st'.nodes[v]])
            && st'.nodes[v].started && st'.nodes[v].calls == st.nodes[v].calls == [] && OwnCalls(st'.nodes[v], v)
            && forall i :: LogOf(st', i) == LogOf(st, i)
  {
    assert OwnCalls(st.nodes[v], v);
    hide Initialized;
  }

  lemma StartKeepsBooks(topo: Topology, st: State, v: nat)
    requires v < |st.nodes| == |topo.nbrs| == |topo.r| && !st.nodes[v].started
    requires NodesBooked(st.nodes) && FlightsBooked(st.nodes, st.flight) && DoneBooked(topo, st.done) && Balanced(st)
    ensures Applicable(st, Start(v))
    ensures var st' := Apply(topo, st, Start(v));
            NodesBooked(st'.nodes) && FlightsBooked(st'.nodes, st'.flight) && DoneBooked(topo, st'.done) && Balanced(st')
  {
    StartChanges(topo, st, v);
    assert Applicable(st, Start(v));
    hide *;
    var st' := Apply(topo, st, Start(v));
    NodeChanges(st.nodes, v, st'.nodes[v]);
    FlightsStay(st.nodes, v, st'.nodes[v], st.flight);
    BalanceStays(st, st', v, 0, []);
  }

  lemma LaunchChanges(topo: Topology, st: State, step: Step)
    requires |st.nodes| == |topo.nbrs| == |topo.r| && step.LaunchAnt? && Enabled(topo, st, step)
    requires NodesBooked(st.nodes)
    ensures var st', v, id := Apply(topo, st, step), step.v, st.launched;
            && |st'.nodes| == |st.nodes| && st'.nodes == st.nodes[v := st'.nodes[v]]
            && st'.nodes[v].started && st'.nodes[v].calls == st.nodes[v].calls && OwnCalls(st'.nodes[v], v)
            && st'.launched == id + 1
            && (st'.flight == st.flight || (st'.flight == st.flight[id := st'.flight[id]] && id in st'.flight
                                            && StartedAlong(st'.nodes, st'.flight[id])))
            && (st'.done == st.done || (id in st'.done && st'.done == st.done[id := st'.done[id]] && st'.done[id].last == None))
            && (forall i :: i != id ==> LogOf(st', i) == LogOf(st, i))
            && (id !in st.flight && id !in st.done ==> LogOf(st', id) == LogOf(st, id) == [])
  {
    assert OwnCalls(st.nodes[step.v], step.v);
    hide CalcNext;
  }

  lemma NewFlight(nodes: seq<Node>, flight: map<nat, Flight>, id: nat, f: Flight)
    requires FlightsBooked(nodes, flight) && StartedAlong(nodes, f)
    ensures FlightsBooked(nodes, flight[id := f])
  {
    hide StartedAlong;
  }

  lemma NewDone(topo: Topology, done: map<nat, Done>, id: nat, d: Done)
    requires DoneBooked(topo, done) && (d.last.Some? ==> Retracing(topo, d.last.value))
    ensures DoneBooked(topo, done[id := d])
  {
    hide Retracing;
  }

  lemma LaunchKeepsBooks(topo: Topology, st: State, step: Step)
    requires |st.nodes| == |topo.nbrs| == |topo.r| && step.LaunchAnt? && Enabled(topo, st, step)
    requires NodesBooked(st.nodes) && FlightsBooked(st.nodes, st.flight) && DoneBooked(topo, st.done) && Balanced(st)
    requires st.launched !in st.flight && st.launched !in st.done
    ensures var st' := Apply(topo, st, step);
            NodesBooked(st'.nodes) && FlightsBooked(st'.nodes, st'.flight) && DoneBooked(topo, st'.done) && Balanced(st')
  {
    LaunchChanges(topo, st, step);
    hide *;
    var st', v, id := Apply(topo, st, step), step.v, st.launched;
    NodeChanges(st.nodes, v, st'.nodes[v]);
    FlightsStay(st.nodes, v, st'.nodes[v], st.flight);
    if st'.flight != st.flight {
      NewFlight(st'.nodes, st.flight, id, st'.flight[id]);
    }
    if st'.done != st.done {
      NewDone(topo, st.done, id, st'.done[id]);
    }
    BalanceStays(st, st', v, id, []);
  }

  lemma FewerFlights(nodes: seq<Node>, flight: map<nat, Flight>, id: nat)
    requires FlightsBooked(nodes, flight)
    ensures FlightsBooked(nodes, flight - {id})
  {
    hide StartedAlong;
  }

  /** Settling an ant with the updates `more` added to its log and to the table of node v. */
  lemma SettleKeepsBooks(topo: Topology, st: State, v: nat, node: Node, id: nat, f: Flight, at: nat, outcome: Outcome,
                         more: seq<Call>)
    requires v < |st.nodes| && id in st.flight && id < st.launched
    requires NodesBooked(st.nodes) && FlightsBooked(st.nodes, st.flight) && DoneBooked(topo, st.done) && Balanced(st)
    requires OwnCalls(node, v) && node.started == st.nodes[v].started && node.calls == st.nodes[v].calls + more
    requires f.log == st.flight[id].log + more
    requires outcome.Sent? ==> StartedAlong(st.nodes[v := node], f.(ant := outcome.ant))
    requires outcome.Ended? ==> Retracing(topo, f)
    ensures var st' := Settle(st.(nodes := st.nodes[v := node]), id, f, at, outcome);
            NodesBooked(st'.nodes) && FlightsBooked(st'.nodes, st'.flight) && DoneBooked(topo, st'.done) && Balanced(st')
  {
    var nodes := st.nodes[v := node];
    var st' := Settle(st.(nodes := nodes), id, f, at, outcome);
    assert LogOf(st', id) == LogOf(st, id) + more && forall i :: i != id ==> LogOf(st', i) == LogOf(st, i);
    assert st'.nodes == nodes && st'.launched == st.launched;
    assert outcome.Sent? ==> st'.flight == st.flight[id := f.(ant := outcome.ant)] && st'.done == st.done;
    assert outcome.Ended? ==>
      st'.flight == st.flight - {id} && st'.done == st.done[id := Done(outcome.why, at, Some(f))];
    hide *;
    NodeChanges(st.nodes, v, node);
    FlightsStay(st.nodes, v, node, st.flight);
    BalanceStays(st, st', v, id, more);
    if outcome.Sent? {
      NewFlight(nodes, st.flight, id, f.(ant := outcome.ant));
    } else {
      FewerFlights(nodes, st.flight, id);
      NewDone(topo, st.done, id, Done(outcome.why, at, Some(f)));
    }
  }

  // ---- Deliveries ----

  /** Whoever chose a next hop other than the previous one has a table, and so has been started. */
  lemma ChoosersAreStarted(topo: Topology, v: nat, node: Node, dest: nat, parent: nat, qlen: LinkQueues, uniform: Draw)
    requires v < |topo.nbrs| == |topo.r| && NodeOk(topo, v, node)
    requires CalcNext(node.table, dest, parent, |topo.nbrs[v]|, qlen, uniform) != parent
    ensures node.started
  {
    hide CalcNextInRow;
  }

  lemma MemorizeStarted(nodes: seq<Node>, mem: seq<Entry>, v: nat, elapsed: real, mem': seq<Entry>)
    requires StartedUpTo(nodes, mem, |mem|) && Memorize(mem, v, elapsed) == Some(mem')
    ensures StartedUpTo(nodes, mem', |mem'| - 1)
    ensures StartedAt(nodes, v) ==> StartedUpTo(nodes, mem', |mem'|)
  {
    hide FindNode;
    forall k | 0 <= k < |mem'| && k < |mem| ensures StartedAt(nodes, mem'[k].node) {
      assert mem'[k].node == mem[k].node && StartedAt(nodes, mem[k].node);
    }
  }

  lemma ForwardKeepsStarted(topo: Topology, nodes: seq<Node>, f: Flight, now: real, qlen: LinkQueues, uniform: Draw)
    requires f.ant.nextHop < |nodes| == |topo.nbrs| == |topo.r| && NodeOk(topo, f.ant.nextHop, nodes[f.ant.nextHop])
    requires f.ant.dir == Down && StartedAlong(nodes, f)
    ensures var v := f.ant.nextHop;
            var outcome := ForwardReply(f.ant, v, nodes[v].table, |topo.nbrs[v]|, now, qlen, uniform);
            outcome.Sent? ==> StartedAlong(nodes, WithHistory(f, v, now, []).(ant := outcome.ant))
  {
    var v := f.ant.nextHop;
    match Memorize(f.ant.mem, v, now - f.ant.start) {
      case None =>
      case Some(mem) =>
        MemorizeStarted(nodes, f.ant.mem, v, now - f.ant.start, mem);
        hide StartedUpTo, Memorize, CalcNext, NodeOk;
        if v != f.ant.dst && CalcNext(nodes[v].table, f.ant.dst, f.ant.saddr, |topo.nbrs[v]|, qlen, uniform) != f.ant.saddr {
          ChoosersAreStarted(topo, v, nodes[v], f.ant.dst, f.ant.saddr, qlen, uniform);
        }
    }
  }

  /** The same updates enter the log of the ant and the table of its receiver. */
  ghost predicate BothBook(topo: Topology, nodes: seq<Node>, f: Flight, now: real, reply: Reply)
    requires f.ant.nextHop < |nodes| == |topo.r|
  {
    var v, f' := f.ant.nextHop, WithHistory(f, f.ant.nextHop, now, reply.calls);
    && OwnCalls(Called(nodes[v], reply.calls, topo.r[v]), v) && f'.log == f.log + reply.calls
    && (reply.outcome.Sent? ==> StartedAlong(nodes, f'.(ant := reply.outcome.ant)))
    && (reply.outcome.Ended? ==> Retracing(topo, f'))
  }

  lemma ForwardBooks(topo: Topology, nodes: seq<Node>, f: Flight, numForwards: int, now: real, qlen: LinkQueues,
                     uniform: Draw)
    requires topo.WellFormed() && ForwardOk(topo, f) && f.ant.nextHop < |nodes| == |topo.nbrs| && IsDraw(uniform)
    requires NodeOk(topo, f.ant.nextHop, nodes[f.ant.nextHop]) && OwnCalls(nodes[f.ant.nextHop], f.ant.nextHop)
    requires StartedAlong(nodes, f)
    ensures var v := f.ant.nextHop;
            BothBook(topo, nodes, f, now, Recv(f.ant, v, numForwards, nodes[v].table, |topo.nbrs[v]|, now, qlen, uniform))
  {
    var v := f.ant.nextHop;
    var reply := Recv(f.ant, v, numForwards, nodes[v].table, |topo.nbrs[v]|, now, qlen, uniform);
    assert topo.Linked(v, f.ant.saddr) && v != f.ant.saddr;
    assert reply == Reply([], ForwardReply(f.ant, v, nodes[v].table, |topo.nbrs[v]|, now, qlen, uniform));
    ForwardKeepsStarted(topo, nodes, f, now, qlen, uniform);
    FlightRetracing(topo, f);
    hide StartedAlong, ForwardReply, Recv, NodeOk, ForwardOk, SimplePath, JourneyLog;
    assert Called(nodes[v], [], topo.r[v]) == nodes[v];
  }

  lemma BackwardBooks(topo: Topology, nodes: seq<Node>, f: Flight, k: nat, numForwards: int, now: real, qlen: LinkQueues,
                      uniform: Draw)
    requires topo.WellFormed() && BackwardAt(topo, f, k) && f.ant.nextHop < |nodes| == |topo.nbrs|
    requires OwnCalls(nodes[f.ant.nextHop], f.ant.nextHop) && StartedAlong(nodes, f)
    ensures var v := f.ant.nextHop;
            BothBook(topo, nodes, f, now, Recv(f.ant, v, numForwards, nodes[v].table, |topo.nbrs[v]|, now, qlen, uniform))
  {
    var v := f.ant.nextHop;
    var reply := Recv(f.ant, v, numForwards, nodes[v].table, |topo.nbrs[v]|, now, qlen, uniform);
    BackwardDelivery(topo, f, k, nodes[v], numForwards, now, qlen, uniform);
    assert StartedAt(nodes, f.ant.mem[k].node);
    hide Recv, StartedUpTo, Remembers, Retraced, JourneyLog;
    if reply.outcome.Ended? {
      assert SimplePath(topo, f.ant.mem) && WithHistory(f, v, now, reply.calls).log == JourneyLog(f.ant.mem, 0);
    }
  }

  lemma DeliverKeepsBooks(topo: Topology, st: State, step: Step)
    requires topo.WellFormed() && Inv(topo, st) && step.Deliver? && Enabled(topo, st, step)
    requires NodesBooked(st.nodes) && FlightsBooked(st.nodes, st.flight) && DoneBooked(topo, st.done) && Balanced(st)
    ensures var st' := Apply(topo, st, step);
            NodesBooked(st'.nodes) && FlightsBooked(st'.nodes, st'.flight) && DoneBooked(topo, st'.done) && Balanced(st')
  {
    var id, f := step.id, st.flight[step.id];
    var v := f.ant.nextHop;
    DeliveryOutcome(topo, st, step);
    assert FlightOk(topo, f) && NodeOk(topo, v, st.nodes[v]) && id < st.launched;
    assert OwnCalls(st.nodes[v], v) && StartedAlong(st.nodes, f);
    assert IsDraw(step.uniform);
    hide Inv, Enabled, IsDraw, NodesBooked, FlightsBooked, DoneBooked, Balanced, NodeOk, OwnCalls, StartedAlong, ReplyTo;
    var reply := ReplyTo(topo, st, id, step.numForwards, step.now, step.qlen, step.uniform);
    DeliveryBooks(topo, st, id, step);
    var node, f' := Called(st.nodes[v], reply.calls, topo.r[v]), WithHistory(f, v, step.now, reply.calls);
    if reply.outcome.Sent? {
      SentAlong(st.nodes, v, node, f'.(ant := reply.outcome.ant));
    }
    SettleKeepsBooks(topo, st, v, node, id, f', v, reply.outcome, reply.calls);
  }

  lemma SentAlong(nodes: seq<Node>, v: nat, node: Node, f: Flight)
    requires v < |nodes| && (nodes[v].started ==> node.started) && StartedAlong(nodes, f)
    ensures StartedAlong(nodes[v := node], f)
  {
    StartedStays(nodes, v, node, f.ant.mem, if f.ant.dir.Down? then |f.ant.mem| else |f.ant.mem| - 1);
  }

  lemma DeliveryBooks(topo: Topology, st: State, id: nat, step: Step)
    requires topo.WellFormed() && |st.nodes| == topo.N() && id in st.flight && step.Deliver? && IsDraw(step.uniform)
    requires FlightOk(topo, st.flight[id]) && st.flight[id].ant.nextHop < |st.nodes|
    requires var v := st.flight[id].ant.nextHop; NodeOk(topo, v, st.nodes[v]) && OwnCalls(st.nodes[v], v)
    requires StartedAlong(st.nodes, st.flight[id])
    ensures |st.nodes| == |topo.nbrs| == |topo.r|
    ensures BothBook(topo, st.nodes, st.flight[id], step.now,
                     ReplyTo(topo, st, id, step.numForwards, step.now, step.qlen, step.uniform))
  {
    var f := st.flight[id];
    hide BothBook, NodeOk, OwnCalls, StartedAlong;
    if ForwardOk(topo, f) {
      ForwardBooks(topo, st.nodes, f, step.numForwards, step.now, step.qlen, step.uniform);
    } else {
      BackwardBooks(topo, st.nodes, f, FindNode(f.ant.mem, f.ant.nextHop), step.numForwards, step.now, step.qlen,
                    step.uniform);
    }
  }

  lemma LoseChanges(topo: Topology, st: State, id: nat)
    requires |st.nodes| == |topo.nbrs| == |topo.r| && id in st.flight
    ensures var st', f := Apply(topo, st, Lose(id)), st.flight[id];
            && st'.nodes == st.nodes && st'.launched == st.launched && st'.flight == st.flight - {id}
            && st'.done == st.done[id := Done(Lost, f.ant.nextHop, Some(f))]
            && forall i :: LogOf(st', i) == LogOf(st, i)
  {}

  lemma LoseKeepsBooks(topo: Topology, st: State, id: nat)
    requires |st.nodes| == |topo.nbrs| == |topo.r| && Applicable(st, Lose(id)) && id in st.flight
    requires st.flight[id].ant.nextHop < |st.nodes| && FlightOk(topo, st.flight[id])
    requires NodesBooked(st.nodes) && FlightsBooked(st.nodes, st.flight) && DoneBooked(topo, st.done) && Balanced(st)
    ensures var st' := Apply(topo, st, Lose(id));
            NodesBooked(st'.nodes) && FlightsBooked(st'.nodes, st'.flight) && DoneBooked(topo, st'.done) && Balanced(st')
  {
    LoseChanges(topo, st, id);
    hide *;
    var f := st.flight[id];
    FlightRetracing(topo, f);
    FewerFlights(st.nodes, st.flight, id);
    NewDone(topo, st.done, id, Done(Lost, f.ant.nextHop, Some(f)));
    BalanceStays(st, Apply(topo, st, Lose(id)), f.ant.nextHop, id, []);
  }

  lemma ReceiverExists(topo: Topology, f: Flight)
    requires topo.WellFormed() && FlightOk(topo, f)
    ensures f.ant.nextHop < topo.N()
  {
    if ForwardOk(topo, f) {
      assert topo.Linked(f.ant.nextHop, f.ant.saddr);
    }
  }

  lemma StepKeepsBooks(topo: Topology, st: State, step: Step)
    requires topo.WellFormed() && Inv(topo, st) && Booked(topo, st) && Enabled(topo, st, step)
    ensures Booked(topo, Apply(topo, st, step))
  {
    hide NodesBooked, FlightsBooked, DoneBooked, Balanced, Apply, FlightOk, DoneOk, NodeOk;
    match step {
      case Start(v) => StartKeepsBooks(topo, st, v);
      case LaunchAnt(_, _, _, _, _) => LaunchKeepsBooks(topo, st, step);
      case Deliver(_, _, _, _, _) => DeliverKeepsBooks(topo, st, step);
      case Lose(id) =>
        ReceiverExists(topo, st.flight[id]);
        LoseKeepsBooks(topo, st, id);
    }
  }

  lemma InitBooked(topo: Topology)
    ensures Booked(topo, Init(topo))
  {
    assert forall v :: 0 <= v < topo.N() ==> Init(topo).nodes[v].calls == [];
    NoCalls(Init(topo).nodes);
  }

  lemma {:induction false} NoCalls(nodes: seq<Node>)
    requires forall v :: 0 <= v < |nodes| ==> nodes[v].calls == []
    ensures AllCalls(nodes) == multiset{}
  {
    if nodes != [] {
      NoCalls(nodes[..|nodes| - 1]);
    }
  }

  /** After every run the updates in all tables are those in the logs of all ants, each as often. */
  lemma {:induction false} EveryRunIsBooked(topo: Topology, steps: seq<Step>)
    requires topo.WellFormed()
    ensures Booked(topo, Exec(topo, steps))
  {
    if steps == [] {
      InitBooked(topo);
    } else {
      var n := |steps| - 1;
      EveryRunIsBooked(topo, steps[..n]);
      EveryRun(topo, steps[..n]);
      hide Booked, Inv, Apply, Enabled;
      if Enabled(topo, Exec(topo, steps[..n]), steps[n]) {
        StepKeepsBooks(topo, Exec(topo, steps[..n]), steps[n]);
      }
    }
  }

  // ---- What the books say ----

  lemma ReachableBooked(topo: Topology, st: State)
    requires topo.WellFormed() && Reachable(topo, st)
    ensures Booked(topo, st)
  {
    hide Booked;
    var steps :| st == Exec(topo, steps);
    EveryRunIsBooked(topo, steps);
  }

  /** Calls labelled with a node occur in no other table. */
  lemma {:induction false} CallsAtOwnNode(nodes: seq<Node>, c: Call)
    requires NodesBooked(nodes)
    ensures AllCalls(nodes)[c] == if c.node < |nodes| then multiset(nodes[c.node].calls)[c] else 0
  {
    if nodes != [] {
      var n := |nodes| - 1;
      assert forall v :: 0 <= v < n ==> nodes[..n][v] == nodes[v];
      CallsAtOwnNode(nodes[..n], c);
      assert OwnCalls(nodes[n], n);
      assert c.node != n ==> c !in nodes[n].calls;
    }
  }

  /** The ants among the first n whose log holds the update c. */
  function Makers(st: State, n: nat, c: Call): set<nat> {
    set id: nat | id < n && c in LogOf(st, id)
  }

  lemma LogRetraces(topo: Topology, st: State, id: nat)
    requires topo.WellFormed() && Reachable(topo, st) && FlightOf(st, id).Some?
    ensures Retracing(topo, FlightOf(st, id).value)
  {
    if id in st.flight {
      ReachableFlight(topo, st, id);
      hide Reachable, FlightOk, Retracing;
      FlightRetracing(topo, st.flight[id]);
    } else {
      ReachableBooked(topo, st);
      hide Reachable, FlightOk, Retracing;
    }
  }

  lemma RetracedUpdate(topo: Topology, f: Flight, c: Call) returns (i: nat, l: nat)
    requires Retracing(topo, f) && c in f.log
    ensures SimplePath(topo, f.ant.mem) && i < l < |f.ant.mem| && c == Owed(f.ant.mem, i, l)
    ensures multiset(f.log)[c] == 1
  {
    var k: nat :| k < |f.ant.mem| && f.log == JourneyLog(f.ant.mem, k);
    i, l := OnlyOwed(f.ant.mem, k, c);
    OwedOnce(f.ant.mem, k, i, l);
  }

  ghost predicate OnceIn(log: seq<Call>, c: Call) {
    multiset(log)[c] == if c in log then 1 else 0
  }

  lemma OncePerAnt(topo: Topology, st: State, id: nat, c: Call)
    requires topo.WellFormed() && Reachable(topo, st)
    ensures OnceIn(LogOf(st, id), c)
  {
    hide Reachable, Retracing;
    if c in LogOf(st, id) {
      LogRetraces(topo, st, id);
      var _, _ := RetracedUpdate(topo, FlightOf(st, id).value, c);
    }
  }

  lemma MakersGrow(st: State, n: nat, c: Call)
    ensures |Makers(st, n + 1, c)| == |Makers(st, n, c)| + if c in LogOf(st, n) then 1 else 0
  {
    hide LogOf;
    if c in LogOf(st, n) {
      assert Makers(st, n + 1, c) == Makers(st, n, c) + {n};
    } else {
      assert Makers(st, n + 1, c) == Makers(st, n, c);
    }
  }

  lemma LogsGrow(st: State, n: nat, c: Call)
    ensures AllLogs(st, 0)[c] == |Makers(st, 0, c)|
    ensures OnceIn(LogOf(st, n), c) ==>
            AllLogs(st, n + 1)[c] == AllLogs(st, n)[c] + if c in LogOf(st, n) then 1 else 0
  {
    hide LogOf;
    assert Makers(st, 0, c) == {};
  }

  lemma {:induction false} LogsCountMakers(topo: Topology, st: State, n: nat, c: Call)
    requires topo.WellFormed() && Reachable(topo, st)
    ensures AllLogs(st, n)[c] == |Makers(st, n, c)|
  {
    hide *;
    if n == 0 {
      LogsGrow(st, 0, c);
    } else {
      OncePerAnt(topo, st, n - 1, c);
      LogsCountMakers(topo, st, n - 1, c);
      LogsGrow(st, n - 1, c);
      MakersGrow(st, n - 1, c);
    }
  }

  /** In every reachable state the table of node v received an update exactly as often as there are ants that made
      it, and updates of other nodes not at all. */
  lemma TablesMatchJourneys(topo: Topology, st: State, v: nat, c: Call)
    requires topo.WellFormed() && Reachable(topo, st) && v < |st.nodes|
    ensures multiset(st.nodes[v].calls)[c] == if c.node == v then |Makers(st, st.launched, c)| else 0
  {
    ReachableInv(topo, st);
    ReachableBooked(topo, st);
    assert OwnCalls(st.nodes[v], v);
    assert c.node != v ==> c !in st.nodes[v].calls;
    CallsAtOwnNode(st.nodes, c);
    LogsCountMakers(topo, st, st.launched, c);
  }

  /** Every update in a table was made by an ant whose memory runs from this node over the reinforced link to the
      destination. */
  lemma UpdatesComeFromAnts(topo: Topology, st: State, v: nat, c: Call) returns (id: nat, i: nat, l: nat)
    requires topo.WellFormed() && Reachable(topo, st) && v < |st.nodes| && c in st.nodes[v].calls
    ensures id < st.launched && FlightOf(st, id).Some? && c in LogOf(st, id)
    ensures var mem := FlightOf(st, id).value.ant.mem;
            && SimplePath(topo, mem) && i < l < |mem|
            && mem[i].node == v && mem[i + 1].node == c.next && mem[l].node == c.dest
  {
    TablesMatchJourneys(topo, st, v, c);
    ReachableBooked(topo, st);
    assert OwnCalls(st.nodes[v], v);
    assert Makers(st, st.launched, c) != {};
    id :| id in Makers(st, st.launched, c);
    hide Reachable, Booked, Retracing, SimplePath;
    LogRetraces(topo, st, id);
    i, l := RetracedUpdate(topo, FlightOf(st, id).value, c);
  }

  /** A completed ant has made each owed update in the table of the node where it was due. */
  lemma CompletedJourneyIsBooked(topo: Topology, st: State, id: nat, i: nat, l: nat)
    requires topo.WellFormed() && Reachable(topo, st)
    requires id in st.done && st.done[id].why == Completed && st.done[id].last.Some?
    requires i < l < |st.done[id].last.value.ant.mem|
    ensures var mem := st.done[id].last.value.ant.mem;
            && mem[i].node < |st.nodes|
            && Owed(mem, i, l) in st.nodes[mem[i].node].calls
            && id in Makers(st, st.launched, Owed(mem, i, l))
  {
    var mem := st.done[id].last.value.ant.mem;
    var c := Owed(mem, i, l);
    CompletedJourney(topo, st, id);
    assert multiset(st.done[id].last.value.log)[c] == 1;
    ReachableDone(topo, st, id);
    ReachableInv(topo, st);
    assert id in Makers(st, st.launched, c);
    assert |Makers(st, st.launched, c)| > 0;
    TablesMatchJourneys(topo, st, mem[i].node, c);
  }
}
