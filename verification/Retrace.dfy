/** The journey of a backward ant: where it goes, how long it takes, and which updates it makes. */
module Retrace {
  import opened Selection
  import opened AntMemory
  import opened Ants
  import opened Network
  import opened Runs

  // ---- The nodes revisited and the updates made, as closed forms of the memory ----

  /** The retrace down to entry k is the path in exact reverse, one visit to each entry but the last. */
  lemma {:induction false} RetracedInReverse(mem: seq<Entry>, k: nat)
    requires k < |mem|
    ensures |Retraced(mem, k)| == |mem| - 1 - k
    ensures forall i :: 0 <= i < |Retraced(mem, k)| ==> Retraced(mem, k)[i] == mem[|mem| - 2 - i].node
    decreases |mem| - k
  {
    if k + 1 < |mem| {
      RetracedInReverse(mem, k + 1);
    }
  }

  /** A path of m nodes gives m(m-1)/2 updates. */
  lemma {:induction false} JourneyLength(mem: seq<Entry>, k: nat)
    requires k < |mem|
    ensures 2 * |JourneyLog(mem, k)| == (|mem| - k) * (|mem| - k - 1)
    decreases |mem| - k
  {
    if k + 1 < |mem| {
      JourneyLength(mem, k + 1);
      var n := |mem| - k;
      assert (n - 1) * (n - 2) + 2 * (n - 1) == n * (n - 1);
    }
  }

  /** The update that an ant with this memory owes at entry i for destination entry l. */
  function Owed(mem: seq<Entry>, i: nat, l: nat): Call
    requires i < l < |mem|
  {
    Call(mem[i].node, mem[l].node, mem[i + 1].node)
  }

  lemma {:induction false} CountDistinct(s: seq<Call>, i: nat)
    requires i < |s| && forall a, b :: 0 <= a < b < |s| ==> s[a] != s[b]
    ensures multiset(s)[s[i]] == 1
  {
    var n := |s| - 1;
    assert s == s[..n] + [s[n]];
    if i < n {
      CountDistinct(s[..n], i);
    } else {
      assert s[n] !in s[..n];
    }
  }

  lemma OwedOnceAt(mem: seq<Entry>, k: nat, i: nat, l: nat)
    requires DistinctNodes(mem) && k + 1 < |mem| && i < l < |mem|
    ensures multiset(CallsAt(mem, k))[Owed(mem, i, l)] == if i == k then 1 else 0
  {
    var calls := CallsAt(mem, k);
    if i == k {
      CountDistinct(calls, l - k - 1);
    } else {
      assert mem[i].node != mem[k].node;
      assert Owed(mem, i, l) !in calls;
    }
  }

  lemma JourneySplits(mem: seq<Entry>, k: nat)
    requires k < |mem|
    ensures k + 1 == |mem| ==> multiset(JourneyLog(mem, k)) == multiset{}
    ensures k + 1 < |mem| ==>
            multiset(JourneyLog(mem, k)) == multiset(JourneyLog(mem, k + 1)) + multiset(CallsAt(mem, k))
  {}

  /** Over the journey each owed update is made exactly once. */
  lemma {:induction false} OwedOnce(mem: seq<Entry>, k: nat, i: nat, l: nat)
    requires DistinctNodes(mem) && k < |mem| && i < l < |mem|
    ensures multiset(JourneyLog(mem, k))[Owed(mem, i, l)] == if i >= k then 1 else 0
    decreases |mem| - k
  {
    hide *;
    JourneySplits(mem, k);
    if k + 1 < |mem| {
      OwedOnce(mem, k + 1, i, l);
      OwedOnceAt(mem, k, i, l);
    }
  }

  /** And nothing else is updated. */
  lemma {:induction false} OnlyOwed(mem: seq<Entry>, k: nat, c: Call) returns (i: nat, l: nat)
    requires k < |mem| && c in JourneyLog(mem, k)
    ensures k <= i < l < |mem| && c == Owed(mem, i, l)
    decreases |mem| - k
  {
    if c in JourneyLog(mem, k + 1) {
      i, l := OnlyOwed(mem, k + 1, c);
    } else {
      var t :| 0 <= t < |CallsAt(mem, k)| && c == CallsAt(mem, k)[t];
      i, l := k, k + 1 + t;
    }
  }

  /** A completed ant of m memory entries visited the path in exact reverse in m-1 hops and called update
      m(m-1)/2 times: for each i < l once at entry i, for destination entry l along entry i+1. */
  lemma CompletedJourney(topo: Topology, st: State, id: nat)
    requires topo.WellFormed() && Reachable(topo, st) && id in st.done && st.done[id].why == Completed
    ensures st.done[id].last.Some?
    ensures var f := st.done[id].last.value;
            var mem, m := f.ant.mem, |f.ant.mem|;
            && m >= 2 && LastExitErasure(mem, f.walk)
            && st.done[id].at == mem[0].node == f.walk[0].node == f.plan.src && mem[m - 1].node == f.plan.dest
            && |f.back| == m - 1 && (forall i :: 0 <= i < m - 1 ==> f.back[i] == mem[m - 2 - i].node)
            && 2 * |f.log| == m * (m - 1)
            && (forall i: nat, l: nat :: i < l < m ==> multiset(f.log)[Owed(mem, i, l)] == 1)
            && (forall c :: c in f.log ==> exists i: nat, l: nat :: i < l < m && c == Owed(mem, i, l))
  {
    ReachableDone(topo, st, id);
    var f := st.done[id].last.value;
    var mem := f.ant.mem;
    RetracedInReverse(mem, 0);
    JourneyLength(mem, 0);
    forall i: nat, l: nat | i < l < |mem| ensures multiset(f.log)[Owed(mem, i, l)] == 1 {
      OwedOnce(mem, 0, i, l);
    }
    forall c | c in f.log ensures exists i: nat, l: nat :: i < l < |mem| && c == Owed(mem, i, l) {
      var i, l := OnlyOwed(mem, 0, c);
    }
  }

  // ---- Progress under interleaving ----

  /** How many deliveries of packet `id` a stretch of a run holds. */
  function Deliveries(steps: seq<Step>, id: nat): nat {
    if steps == [] then 0
    else
      var n := |steps| - 1;
      Deliveries(steps[..n], id) + if steps[n].Deliver? && steps[n].id == id then 1 else 0
  }

  /** Nothing loses packet `id`, and its deliveries come with proper draws. */
  ghost predicate Spares(steps: seq<Step>, id: nat) {
    forall i :: 0 <= i < |steps| ==> SparesAt(steps[i], id)
  }

  ghost predicate SparesAt(step: Step, id: nat) {
    step != Lose(id) && (step.Deliver? && step.id == id ==> IsDraw(step.uniform))
  }

  /** Where a backward ant is that has k hops to go after the next delivery, j deliveries later. */
  ghost predicate Progress(topo: Topology, st: State, id: nat, mem: seq<Entry>, k: nat, j: nat) {
    if j <= k then id in st.flight && st.flight[id].ant.mem == mem && BackwardAt(topo, st.flight[id], k - j)
    else id in st.done && st.done[id].why == Completed && st.done[id].last.Some? && st.done[id].last.value.ant.mem == mem
  }

  lemma SettlingOthers(st: State, other: nat, f: Flight, at: nat, outcome: Outcome, id: nat)
    requires other != id
    ensures var st' := Settle(st, other, f, at, outcome);
            && (id in st.flight <==> id in st'.flight) && (id in st.flight ==> st'.flight[id] == st.flight[id])
            && (id in st.done <==> id in st'.done) && (id in st.done ==> st'.done[id] == st.done[id])
  {}

  lemma OtherStepsLeaveItAlone(topo: Topology, st: State, step: Step, id: nat)
    requires |st.nodes| == |topo.nbrs| == |topo.r| && Enabled(topo, st, step) && SparesAt(step, id)
    requires !(step.Deliver? && step.id == id) && id < st.launched
    ensures var st' := Apply(topo, st, step);
            && (id in st.flight <==> id in st'.flight) && (id in st.flight ==> st'.flight[id] == st.flight[id])
            && (id in st.done <==> id in st'.done) && (id in st.done ==> st'.done[id] == st.done[id])
  {
    match step {
      case Start(_) =>
      case LaunchAnt(_, _, _, _, _) =>
      case Lose(other) => SettlingOthers(st, other, st.flight[other], st.flight[other].ant.nextHop, Ended(Lost), id);
      case Deliver(other, numForwards, now, qlen, uniform) =>
        var f := st.flight[other];
        var v := f.ant.nextHop;
        if v < |st.nodes| {
          var reply := ReplyTo(topo, st, other, numForwards, now, qlen, uniform);
          SettlingOthers(st.(nodes := st.nodes[v := Called(st.nodes[v], reply.calls, topo.r[v])]), other,
                         WithHistory(f, v, now, reply.calls), v, reply.outcome, id);
        }
    }
  }

  lemma OneDeliveryAdvances(topo: Topology, st: State, step: Step, mem: seq<Entry>, k: nat)
    requires topo.WellFormed() && Inv(topo, st) && step.Deliver? && Enabled(topo, st, step)
    requires Progress(topo, st, step.id, mem, k, 0)
    ensures Progress(topo, Apply(topo, st, step), step.id, mem, k, 1)
  {
    var f := st.flight[step.id];
    var v := f.ant.nextHop;
    FindDistinct(mem, k);
    assert mem[k].node < topo.N();
    BackwardDelivery(topo, f, k, st.nodes[v], step.numForwards, step.now, step.qlen, step.uniform);
  }

  /** After j deliveries, i more take the ant as far as j + i do. */
  lemma ProgressAdds(topo: Topology, st: State, id: nat, mem: seq<Entry>, k: nat, j: nat, i: nat)
    requires j <= k
    ensures Progress(topo, st, id, mem, k - j, i) <==> Progress(topo, st, id, mem, k, j + i)
  {}

  lemma ProgressSeesOnly(topo: Topology, st: State, st': State, id: nat, mem: seq<Entry>, k: nat, j: nat)
    requires Progress(topo, st, id, mem, k, j)
    requires (id in st.flight <==> id in st'.flight) && (id in st.flight ==> st'.flight[id] == st.flight[id])
    requires (id in st.done <==> id in st'.done) && (id in st.done ==> st'.done[id] == st.done[id])
    ensures Progress(topo, st', id, mem, k, j)
  {
    hide BackwardAt;
  }

  lemma TrackedIsKnown(topo: Topology, st: State, id: nat, mem: seq<Entry>, k: nat, j: nat)
    requires topo.WellFormed() && Inv(topo, st) && Progress(topo, st, id, mem, k, j)
    ensures |st.nodes| == |topo.nbrs| == |topo.r| && id < st.launched
    ensures id in st.flight <==> j <= k
    ensures j > k ==> Progress(topo, st, id, mem, k, j + 1)
  {
    hide BackwardAt, NodeOk, FlightOk, DoneOk;
  }

  lemma OwnStep(topo: Topology, st: State, step: Step, mem: seq<Entry>, k: nat, j: nat)
    requires |st.nodes| == |topo.nbrs| == |topo.r| && step.Deliver? && step.id in st.flight
    requires topo.WellFormed() && Inv(topo, st) && Enabled(topo, st, step)
    requires Progress(topo, st, step.id, mem, k, j) && j <= k
    ensures Progress(topo, Apply(topo, st, step), step.id, mem, k, j + 1)
  {
    hide *;
    ProgressAdds(topo, st, step.id, mem, k, j, 0);
    OneDeliveryAdvances(topo, st, step, mem, k - j);
    ProgressAdds(topo, Apply(topo, st, step), step.id, mem, k, j, 1);
  }

  lemma DeliveryEnabled(topo: Topology, st: State, step: Step)
    requires step.Deliver? && SparesAt(step, step.id)
    ensures Enabled(topo, st, step) <==> step.id in st.flight
  {}

  lemma OneStep(topo: Topology, st: State, step: Step, id: nat, mem: seq<Entry>, k: nat, j: nat)
    requires |st.nodes| == |topo.nbrs| == |topo.r|
    requires topo.WellFormed() && Inv(topo, st) && SparesAt(step, id) && Progress(topo, st, id, mem, k, j)
    ensures Progress(topo, if Enabled(topo, st, step) then Apply(topo, st, step) else st, id, mem, k,
                     j + if step.Deliver? && step.id == id then 1 else 0)
  {
    hide *;
    TrackedIsKnown(topo, st, id, mem, k, j);
    if step.Deliver? && step.id == id {
      DeliveryEnabled(topo, st, step);
      if j <= k {
        OwnStep(topo, st, step, mem, k, j);
      }
    } else if Enabled(topo, st, step) {
      OtherStepsLeaveItAlone(topo, st, step, id);
      ProgressSeesOnly(topo, st, Apply(topo, st, step), id, mem, k, j);
    }
  }

  lemma SetOff(topo: Topology, st: State, id: nat, k: nat)
    requires id in st.flight && BackwardAt(topo, st.flight[id], k)
    ensures Progress(topo, st, id, st.flight[id].ant.mem, k, 0)
  {}

  lemma SparesPrefix(steps: seq<Step>, id: nat)
    requires Spares(steps, id) && steps != []
    ensures Spares(steps[..|steps| - 1], id) && SparesAt(steps[|steps| - 1], id)
  {
    hide SparesAt;
  }

  /** From any reachable state, whatever else happens in the network, a backward ant with receiver at entry k of
      its memory is at entry k-j after j of its deliveries, and has completed after k+1. */
  lemma {:induction false} BackwardAntsArrive(topo: Topology, before: seq<Step>, more: seq<Step>, id: nat, k: nat)
    requires topo.WellFormed() && Spares(more, id)
    requires id in Exec(topo, before).flight && BackwardAt(topo, Exec(topo, before).flight[id], k)
    ensures Progress(topo, Exec(topo, before + more), id, Exec(topo, before).flight[id].ant.mem, k, Deliveries(more, id))
  {
    hide Inv, Progress, Apply, Enabled, BackwardAt, SparesAt, Spares;
    var mem := Exec(topo, before).flight[id].ant.mem;
    if more == [] {
      assert before + more == before;
      SetOff(topo, Exec(topo, before), id, k);
    } else {
      var n := |more| - 1;
      var all, step := before + more, more[n];
      SparesPrefix(more, id);
      BackwardAntsArrive(topo, before, more[..n], id, k);
      assert all[..|all| - 1] == before + more[..n] && all[|all| - 1] == step;
      EveryRun(topo, before + more[..n]);
      OneStep(topo, Exec(topo, before + more[..n]), step, id, mem, k, Deliveries(more[..n], id));
    }
  }
}
