/** The memory of a forward ant: nodes and trip times, with loops cut out in place (memorize). */
module AntMemory {
  import opened Wrappers

  const MAX_NUM_NODES: nat := 16

  datatype Entry = Entry(node: nat, trip: real)

  /** One arrival of an ant, as an outside observer would log it. */
  datatype Visit = Visit(node: nat, time: real)

  /** Index of the first entry for node `a`, or |mem|. */
  function FindNode(mem: seq<Entry>, a: nat): (i: nat)
    ensures i <= |mem|
    ensures forall j :: 0 <= j < i ==> mem[j].node != a
    ensures i < |mem| ==> mem[i].node == a
  {
    if mem == [] then 0 else if mem[0].node == a then 0 else 1 + FindNode(mem[1..], a)
  }

  function Shift(mem: seq<Entry>, t: real): (s: seq<Entry>)
    ensures |s| == |mem|
  {
    seq(|mem|, k requires 0 <= k < |mem| => Entry(mem[k].node, mem[k].trip + t))
  }

  /** The memory after the ant reaches `a`, `elapsed` after its launch; None when the memory is full. */
  function Memorize(mem: seq<Entry>, a: nat, elapsed: real): Option<seq<Entry>> {
    var i := FindNode(mem, a);
    if i < |mem| then Some(Shift(mem[..i + 1], elapsed - mem[i].trip))
    else if |mem| >= MAX_NUM_NODES then None
    else Some(mem + [Entry(a, elapsed)])
  }

  /** Index of the last visit to `a`, or -1. */
  function LastVisit(walk: seq<Visit>, a: nat): (j: int)
    ensures -1 <= j < |walk|
    ensures j >= 0 ==> walk[j].node == a
    ensures forall i :: j < i < |walk| ==> walk[i].node != a
  {
    if walk == [] then -1
    else if walk[|walk| - 1].node == a then |walk| - 1
    else LastVisit(walk[..|walk| - 1], a)
  }

  /** The last-exit loop erasure of a walk: start at its first node; from each kept node
      go to the node entered right after the last visit to it; stop at the current node. */
  ghost predicate LastExitErasure(mem: seq<Entry>, walk: seq<Visit>) {
    && mem != [] && walk != []
    && mem[0].node == walk[0].node
    && mem[|mem| - 1].node == walk[|walk| - 1].node
    && forall k :: 0 <= k < |mem| - 1 ==> NextKept(mem, walk, k)
  }

  ghost predicate NextKept(mem: seq<Entry>, walk: seq<Visit>, k: nat)
    requires k + 1 < |mem|
  {
    var j := LastVisit(walk, mem[k].node);
    0 <= j < |walk| - 1 && mem[k + 1].node == walk[j + 1].node
  }

  /** Trip times: differences are the delays of the hops kept, the last one is the time since `start`. */
  ghost predicate TripTimes(mem: seq<Entry>, walk: seq<Visit>, start: real) {
    && mem != [] && walk != []
    && mem[|mem| - 1].trip == walk[|walk| - 1].time - start
    && forall k :: 0 <= k < |mem| - 1 ==> HopDelayKept(mem, walk, k)
  }

  ghost predicate HopDelayKept(mem: seq<Entry>, walk: seq<Visit>, k: nat)
    requires k + 1 < |mem|
  {
    var j := LastVisit(walk, mem[k].node);
    0 <= j < |walk| - 1 && mem[k + 1].trip - mem[k].trip == walk[j + 1].time - walk[j].time
  }

  ghost predicate DistinctNodes(mem: seq<Entry>) {
    forall i, j :: 0 <= i < j < |mem| ==> mem[i].node != mem[j].node
  }

  // ---- The erasure of a walk is unique and free of repeats ----

  /** Later entries of an erasure were last left later. */
  lemma {:induction false} ErasureProgress(mem: seq<Entry>, walk: seq<Visit>, i: nat, k: nat)
    requires LastExitErasure(mem, walk) && i < k < |mem|
    ensures LastVisit(walk, mem[i].node) < LastVisit(walk, mem[k].node)
  {
    assert NextKept(mem, walk, k - 1);
    if i < k - 1 {
      ErasureProgress(mem, walk, i, k - 1);
    }
  }

  lemma ErasureHasNoRepeats(mem: seq<Entry>, walk: seq<Visit>)
    requires LastExitErasure(mem, walk)
    ensures DistinctNodes(mem)
  {
    forall i, j | 0 <= i < j < |mem| ensures mem[i].node != mem[j].node {
      ErasureProgress(mem, walk, i, j);
    }
  }

  lemma {:induction false} ErasurePrefixUnique(m1: seq<Entry>, m2: seq<Entry>, walk: seq<Visit>, k: nat)
    requires LastExitErasure(m1, walk) && LastExitErasure(m2, walk)
    requires k < |m1| && k < |m2|
    ensures m1[k].node == m2[k].node
  {
    if k > 0 {
      ErasurePrefixUnique(m1, m2, walk, k - 1);
      assert NextKept(m1, walk, k - 1) && NextKept(m2, walk, k - 1);
    }
  }

  lemma ErasureNotLonger(m1: seq<Entry>, m2: seq<Entry>, walk: seq<Visit>)
    requires LastExitErasure(m1, walk) && LastExitErasure(m2, walk)
    ensures |m1| >= |m2|
  {
    if |m1| < |m2| {
      ErasurePrefixUnique(m1, m2, walk, |m1| - 1);
      ErasureProgress(m2, walk, |m1| - 1, |m1|);
    }
  }

  /** A walk has one erasure: the definition above leaves no choice of nodes. */
  lemma ErasureUnique(m1: seq<Entry>, m2: seq<Entry>, walk: seq<Visit>)
    requires LastExitErasure(m1, walk) && LastExitErasure(m2, walk)
    ensures |m1| == |m2| && forall k :: 0 <= k < |m1| ==> m1[k].node == m2[k].node
  {
    ErasureNotLonger(m1, m2, walk);
    ErasureNotLonger(m2, m1, walk);
    forall k | 0 <= k < |m1| ensures m1[k].node == m2[k].node {
      ErasurePrefixUnique(m1, m2, walk, k);
    }
  }

  // ---- memorize keeps the memory at the erasure of the walk ----

  lemma LastVisitAfter(walk: seq<Visit>, v: Visit, a: nat)
    ensures LastVisit(walk + [v], a) == if v.node == a then |walk| else LastVisit(walk, a)
  {
    assert (walk + [v])[..|walk|] == walk;
  }

  /** One call of memorize turns the erasure of a walk into the erasure of the longer walk,
      and the trip times follow. */
  lemma MemorizeErases(mem: seq<Entry>, walk: seq<Visit>, start: real, v: Visit, mem': seq<Entry>)
    requires LastExitErasure(mem, walk) && TripTimes(mem, walk, start)
    requires Memorize(mem, v.node, v.time - start) == Some(mem')
    ensures LastExitErasure(mem', walk + [v]) && TripTimes(mem', walk + [v], start)
  {
    ErasureHasNoRepeats(mem, walk);
    var longer, i := walk + [v], FindNode(mem, v.node);
    forall k | 0 <= k < |mem'| - 1
      ensures NextKept(mem', longer, k) && HopDelayKept(mem', longer, k)
    {
      LastVisitAfter(walk, v, mem[k].node);
      if k < |mem| - 1 {
        assert NextKept(mem, walk, k) && HopDelayKept(mem, walk, k);
      } else {
        assert LastVisit(walk, mem[k].node) == |walk| - 1;
      }
    }
  }

  // ---- Consequences for trip times ----

  function HopDelays(mem: seq<Entry>, walk: seq<Visit>, k: nat): real
    requires k < |mem|
  {
    if k == 0 then 0.0
    else
      var j := LastVisit(walk, mem[k - 1].node);
      HopDelays(mem, walk, k - 1) + if 0 <= j < |walk| - 1 then walk[j + 1].time - walk[j].time else 0.0
  }

  lemma {:induction false} TripTimesAddUp(mem: seq<Entry>, walk: seq<Visit>, start: real, k: nat)
    requires TripTimes(mem, walk, start) && k < |mem|
    ensures mem[k].trip == mem[0].trip + HopDelays(mem, walk, k)
  {
    if k > 0 {
      TripTimesAddUp(mem, walk, start, k - 1);
      assert HopDelayKept(mem, walk, k - 1);
    }
  }

  /** Elapsed time = the first trip time (spent in erased loops) + the delays of the hops kept. */
  lemma ElapsedTime(mem: seq<Entry>, walk: seq<Visit>, start: real)
    requires TripTimes(mem, walk, start)
    ensures walk[|walk| - 1].time - start == mem[0].trip + HopDelays(mem, walk, |mem| - 1)
  {
    TripTimesAddUp(mem, walk, start, |mem| - 1);
  }

  ghost predicate TimeAdvances(walk: seq<Visit>) {
    forall i :: 0 <= i < |walk| - 1 ==> walk[i].time < walk[i + 1].time
  }

  ghost predicate IncreasingTrips(mem: seq<Entry>) {
    forall i, j :: 0 <= i < j < |mem| ==> mem[i].trip < mem[j].trip
  }

  lemma {:induction false} TripsIncreaseTo(mem: seq<Entry>, walk: seq<Visit>, start: real, i: nat, j: nat)
    requires TripTimes(mem, walk, start) && TimeAdvances(walk) && i < j < |mem|
    ensures mem[i].trip < mem[j].trip
  {
    assert HopDelayKept(mem, walk, j - 1);
    if i < j - 1 {
      TripsIncreaseTo(mem, walk, start, i, j - 1);
    }
  }

  /** Positive hop delays make trip times strictly increasing, whatever loops were cut. */
  lemma TripsIncrease(mem: seq<Entry>, walk: seq<Visit>, start: real)
    requires TripTimes(mem, walk, start) && TimeAdvances(walk)
    ensures IncreasingTrips(mem)
  {
    forall i, j | 0 <= i < j < |mem| ensures mem[i].trip < mem[j].trip {
      TripsIncreaseTo(mem, walk, start, i, j);
    }
  }

  // ---- A full memory ----

  /** Distinct addresses below n fill at most n entries. */
  lemma {:induction false} Pigeonhole(mem: seq<Entry>, n: nat)
    requires DistinctNodes(mem) && forall k :: 0 <= k < |mem| ==> mem[k].node < n
    ensures |mem| <= n
  {
    if n > 0 {
      var i := FindNode(mem, n - 1);
      if i < |mem| {
        Pigeonhole(mem[..i] + mem[i + 1..], n - 1);
      } else {
        Pigeonhole(mem, n - 1);
      }
    }
  }

  /** In a network of at most MAX_NUM_NODES nodes a full memory already holds the receiving node. */
  lemma MemorySuffices(mem: seq<Entry>, n: nat, a: nat, elapsed: real)
    requires DistinctNodes(mem) && forall k :: 0 <= k < |mem| ==> mem[k].node < n
    requires a < n <= MAX_NUM_NODES
    ensures Memorize(mem, a, elapsed).Some?
  {
    if FindNode(mem, a) == |mem| {
      var longer := mem + [Entry(a, elapsed)];
      Pigeonhole(longer, n);
    }
  }
}
