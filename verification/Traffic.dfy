/** The local traffic model (update_traffic, get_win_size): trip-time windows, running statistics, and r. */
module Traffic {
  import opened AntnetMath
  import opened AntMemory
  import opened Agent

  const VARSIGMA: real := 0.005
  const C1: real := 0.7
  const C2: real := 0.3
  const ZEE: real := 1.7

  type Window = map<nat, seq<real>>

  datatype TrafficMatrix = TrafficMatrix(mean: real, variance: real, best: real)

  type Statistics = map<nat, TrafficMatrix>

  /** One trip time from this node to a later node on an ant's path. */
  datatype Trip = Trip(dest: nat, tt: real)

  function TripsFrom(mem: seq<Entry>, k: nat): (trips: seq<Trip>)
    requires k < |mem|
    ensures |trips| == |mem| - 1 - k
  {
    seq(|mem| - 1 - k, t requires 0 <= t < |mem| - 1 - k => Trip(mem[k + 1 + t].node, mem[k + 1 + t].trip - mem[k].trip))
  }

  lemma TripAt(mem: seq<Entry>, k: nat, t: nat)
    requires k + 1 + t < |mem|
    ensures TripsFrom(mem, k)[t].dest == mem[k + 1 + t].node
    ensures TripsFrom(mem, k)[t].tt == mem[k + 1 + t].trip - mem[k].trip
  {}

  /** Trip times measure travel: each exceeds the one before it by the delay of one hop, the one that the ant made when
      it last left the node in question. */
  lemma TripsMeasureTravel(mem: seq<Entry>, walk: seq<Visit>, start: real, k: nat, t: nat)
    requires TripTimes(mem, walk, start) && k + 1 + t < |mem|
    ensures TripsFrom(mem, k)[t].dest == mem[k + 1 + t].node
    ensures 0 <= LastVisit(walk, mem[k + t].node) < |walk| - 1
    ensures TripsFrom(mem, k)[t].tt - (if t == 0 then 0.0 else TripsFrom(mem, k)[t - 1].tt)
         == HopDelay(walk, LastVisit(walk, mem[k + t].node))
  {
    hide LastVisit, TripsFrom;
    TripAt(mem, k, t);
    if t > 0 {
      TripAt(mem, k, t - 1);
    }
    assert HopDelayKept(mem, walk, k + t);
  }

  /** The time between two arrivals in a row. */
  function HopDelay(walk: seq<Visit>, j: nat): real
    requires j + 1 < |walk|
  {
    walk[j + 1].time - walk[j].time
  }

  function Least(x: real, y: real): real { if y < x then y else x }
  function Most(x: real, y: real): real { if y > x then y else x }

  function Min(w: seq<real>): real
    requires w != []
  {
    if |w| == 1 then w[0] else Least(Min(w[..|w| - 1]), w[|w| - 1])
  }

  function Max(w: seq<real>): real
    requires w != []
  {
    if |w| == 1 then w[0] else Most(Max(w[..|w| - 1]), w[|w| - 1])
  }

  // ---- The two updates, as functions ----

  function WindowOf(window: Window, d: nat): seq<real> {
    if d in window then window[d] else []
  }

  function PushAll(window: Window, trips: seq<Trip>): Window {
    if trips == [] then window
    else
      var n := |trips| - 1;
      var before := PushAll(window, trips[..n]);
      before[trips[n].dest := WindowOf(before, trips[n].dest) + [trips[n].tt]]
  }

  function Refresh(was: TrafficMatrix, best: real, tt: real): TrafficMatrix {
    TrafficMatrix(was.mean + VARSIGMA * (tt - was.mean),
                  was.variance * was.variance
                    + VARSIGMA * ((tt - was.mean) * (tt - was.mean) - was.variance * was.variance),
                  best)
  }

  function Refreshed(state: Statistics, window: Window, t: Trip): TrafficMatrix {
    var best := if WindowOf(window, t.dest) == [] then t.tt else Min(window[t.dest]);
    if t.dest in state then Refresh(state[t.dest], best, t.tt) else TrafficMatrix(t.tt, t.tt, best)
  }

  function Digest(state: Statistics, window: Window, trips: seq<Trip>): Statistics {
    if trips == [] then state
    else
      var n := |trips| - 1;
      var before := Digest(state, window, trips[..n]);
      before[trips[n].dest := Refreshed(before, window, trips[n])]
  }

  lemma PushNext(window: Window, trips: seq<Trip>, k: nat)
    requires k < |trips|
    ensures var before := PushAll(window, trips[..k]);
            PushAll(window, trips[..k + 1]) == before[trips[k].dest := WindowOf(before, trips[k].dest) + [trips[k].tt]]
  {
    assert trips[..k + 1][..k] == trips[..k];
  }

  lemma DigestNext(state: Statistics, window: Window, trips: seq<Trip>, k: nat)
    requires k < |trips|
    ensures var before := Digest(state, window, trips[..k]);
            Digest(state, window, trips[..k + 1]) == before[trips[k].dest := Refreshed(before, window, trips[k])]
  {
    assert trips[..k + 1][..k] == trips[..k];
  }

  // ---- The invariant ----

  /** The statistics of a window recomputed from all its trip times, oldest first. */
  function Summary(w: seq<real>): TrafficMatrix
    requires w != []
  {
    var n := |w| - 1;
    if n == 0 then TrafficMatrix(w[0], w[0], w[0]) else Refresh(Summary(w[..n]), Min(w), w[n])
  }

  ghost predicate StatisticsFit(w: seq<real>, m: TrafficMatrix) {
    w != [] && (forall i :: 0 <= i < |w| ==> w[i] > 0.0) && m == Summary(w)
  }

  /** Each destination seen has a non-empty window of positive trip times, and its running statistics are the
      ones that the whole window gives. */
  ghost predicate TrafficOk(window: Window, state: Statistics) {
    && window.Keys == state.Keys
    && forall d :: d in window ==> StatisticsFit(window[d], state[d])
  }

  ghost predicate DistinctTrips(trips: seq<Trip>) {
    forall i, j :: 0 <= i < j < |trips| ==> trips[i].dest != trips[j].dest
  }

  ghost predicate PositiveTrips(trips: seq<Trip>) {
    forall i :: 0 <= i < |trips| ==> trips[i].tt > 0.0
  }

  /** The trip to d, if there is one. */
  function TripTo(trips: seq<Trip>, d: nat): (j: nat)
    ensures j <= |trips|
    ensures j < |trips| ==> trips[j].dest == d
    ensures j == |trips| ==> forall i :: 0 <= i < |trips| ==> trips[i].dest != d
  {
    if trips == [] then 0
    else if trips[|trips| - 1].dest == d then |trips| - 1
    else
      var j := TripTo(trips[..|trips| - 1], d);
      if j == |trips| - 1 then |trips| else j
  }

  lemma {:induction false} PushedAt(window: Window, trips: seq<Trip>, d: nat)
    requires DistinctTrips(trips)
    ensures var j := TripTo(trips, d);
            && (d in PushAll(window, trips) <==> d in window || j < |trips|)
            && WindowOf(PushAll(window, trips), d) == WindowOf(window, d) + if j < |trips| then [trips[j].tt] else []
  {
    if trips != [] {
      PushedAt(window, trips[..|trips| - 1], d);
    }
  }

  lemma {:induction false} DigestedAt(state: Statistics, window: Window, trips: seq<Trip>, d: nat)
    requires DistinctTrips(trips)
    ensures var after, j := Digest(state, window, trips), TripTo(trips, d);
            && (d in after <==> d in state || j < |trips|)
            && (d in after ==> after[d] == if j < |trips| then Refreshed(state, window, trips[j]) else state[d])
  {
    if trips != [] {
      DigestedAt(state, window, trips[..|trips| - 1], d);
    }
  }

  lemma {:induction false} MinMaxBound(w: seq<real>, i: nat)
    requires i < |w|
    ensures Min(w) <= w[i] <= Max(w)
  {
    var n := |w| - 1;
    if i < n {
      MinMaxBound(w[..n], i);
    }
  }

  lemma {:induction false} MinIsAnElement(w: seq<real>) returns (i: nat)
    requires w != []
    ensures i < |w| && w[i] == Min(w)
  {
    var n := |w| - 1;
    i := n;
    if n > 0 && !(w[n] < Min(w[..n])) {
      i := MinIsAnElement(w[..n]);
    }
  }

  lemma SquareNonNegative(x: real)
    ensures x * x >= 0.0
  {}

  lemma VarianceStaysNonNegative(v: real, d: real)
    ensures v * v + VARSIGMA * (d * d - v * v) >= 0.0
  {
    SquareNonNegative(v);
    SquareNonNegative(d);
  }

  /** The new mean lies between the old one and the new trip time; the variance stays non-negative. */
  lemma RefreshBounds(was: TrafficMatrix, best: real, tt: real)
    ensures var m := Refresh(was, best, tt);
            m.best == best && m.variance >= 0.0 && Least(was.mean, tt) <= m.mean <= Most(was.mean, tt)
  {
    VarianceStaysNonNegative(was.variance, tt - was.mean);
  }

  /** The best time is the minimum of the window, the mean lies between the minimum and the maximum, and the
      variance is not negative. */
  lemma {:induction false} SummaryBounds(w: seq<real>)
    requires w != [] && forall i :: 0 <= i < |w| ==> w[i] > 0.0
    ensures var m := Summary(w);
            m.best == Min(w) && Min(w) <= m.mean <= Max(w) && m.variance >= 0.0
  {
    var n := |w| - 1;
    if n > 0 {
      SummaryBounds(w[..n]);
      RefreshBounds(Summary(w[..n]), Min(w), w[n]);
      hide Refresh;
    }
  }

  /** What the invariant means for a destination: its best time is the minimum of its window, its mean lies between
      the minimum and the maximum of the window, and its variance is not negative. */
  lemma TrafficBounds(window: Window, state: Statistics, d: nat)
    requires TrafficOk(window, state) && d in window
    ensures d in state && window[d] != []
    ensures state[d].best == Min(window[d]) && Min(window[d]) <= state[d].mean <= Max(window[d])
    ensures state[d].variance >= 0.0
    ensures forall i :: 0 <= i < |window[d]| ==> state[d].best <= window[d][i]
  {
    assert StatisticsFit(window[d], state[d]);
    SummaryBounds(window[d]);
    forall i | 0 <= i < |window[d]| ensures Min(window[d]) <= window[d][i] {
      MinMaxBound(window[d], i);
    }
  }

  /** The trip times of w, each aged by keep for every later one, added up. */
  function AgedSum(w: seq<real>, keep: real): real {
    if w == [] then 0.0 else Times(Pow(keep, |w| - 1), w[0]) + AgedSum(w[1..], keep)
  }

  lemma {:induction false} AgedSumGrows(w: seq<real>, x: real, keep: real)
    ensures AgedSum(w + [x], keep) == Times(keep, AgedSum(w, keep)) + x
  {
    var longer := w + [x];
    hide Times;
    if w == [] {
      assert longer[1..] == [];
      TimesUnits(keep);
      TimesUnits(x);
    } else {
      AgedSumGrows(w[1..], x, keep);
      assert longer[1..] == w[1..] + [x];
      var p := Pow(keep, |w| - 1);
      assert Pow(keep, |w|) == Times(keep, p);
      TimesDistributes(keep, Times(p, w[0]), AgedSum(w[1..], keep));
      TimesReorders(keep, p, w[0]);
      TimesCommutes(keep, p);
    }
  }

  lemma MeanStep(mean: real, tt: real)
    ensures mean + VARSIGMA * (tt - mean) == Times(1.0 - VARSIGMA, mean) + Times(VARSIGMA, tt)
  {}

  /** A trip time x turns the variance v, at a mean of mu, into exactly 0.995 v^2 + 0.005 (x - mu)^2: into 0.995 v^2 if it
      is as long as the mean. */
  ghost predicate VarianceFollows(variance: real, v: real, mu: real, x: real) {
    && variance == 0.995 * (v * v) + 0.005 * ((x - mu) * (x - mu))
    && (x == mu ==> variance == 0.995 * (v * v))
  }

  /** The variance of a window: that of one trip time is the trip time, and each later one follows. */
  lemma VarianceExactly(w: seq<real>)
    requires w != []
    ensures |w| == 1 ==> Summary(w).variance == w[0]
    ensures |w| > 1 ==>
            var before, x := Summary(w[..|w| - 1]), w[|w| - 1];
            VarianceFollows(Summary(w).variance, before.variance, before.mean, x)
  {
    hide Refresh, VarianceFollows;
    if |w| > 1 {
      RefreshVariance(Summary(w[..|w| - 1]), Min(w), w[|w| - 1]);
    }
  }

  lemma RefreshVariance(was: TrafficMatrix, best: real, tt: real)
    ensures VarianceFollows(Refresh(was, best, tt).variance, was.variance, was.mean, tt)
  {}

  /** The running mean in closed form: the first trip time and all later ones, each with its share VARSIGMA,
      aged exponentially. */
  lemma {:induction false} MeanIsExponentialAverage(w: seq<real>)
    requires w != []
    ensures Summary(w).mean == Times(Pow(0.995, |w| - 1), w[0]) + Times(0.005, AgedSum(w[1..], 0.995))
  {
    var n, keep := |w| - 1, 1.0 - VARSIGMA;
    if n == 0 {
      TimesUnits(w[0]);
      TimesUnits(VARSIGMA);
    } else {
      hide Times;
      var p, aged := Pow(keep, n - 1), AgedSum(w[..n][1..], keep);
      MeanIsExponentialAverage(w[..n]);
      MeanStep(Summary(w[..n]).mean, w[n]);
      assert w[1..] == w[..n][1..] + [w[n]];
      AgedSumGrows(w[..n][1..], w[n], keep);
      assert Pow(keep, n) == Times(keep, p);
      TimesDistributes(keep, Times(p, w[0]), Times(VARSIGMA, aged));
      TimesReorders(keep, p, w[0]);
      TimesCommutes(keep, p);
      TimesReorders(keep, VARSIGMA, aged);
      TimesReorders(VARSIGMA, keep, aged);
      TimesCommutes(keep, VARSIGMA);
      TimesDistributes(VARSIGMA, Times(keep, aged), w[n]);
    }
  }

  lemma RefreshFits(w: seq<real>, was: TrafficMatrix, tt: real)
    requires StatisticsFit(w, was) && tt > 0.0
    ensures StatisticsFit(w + [tt], Refresh(was, Min(w + [tt]), tt))
  {
    var longer := w + [tt];
    assert longer[..|longer| - 1] == w;
    hide Refresh;
  }

  lemma FirstTripFits(tt: real)
    requires tt > 0.0
    ensures StatisticsFit([tt], TrafficMatrix(tt, tt, Min([tt])))
  {}

  /** update_traffic keeps the invariant, for any repeat-free path with positive trip times. */
  lemma UpdateKeepsTraffic(window: Window, state: Statistics, trips: seq<Trip>)
    requires TrafficOk(window, state) && DistinctTrips(trips) && PositiveTrips(trips)
    ensures TrafficOk(PushAll(window, trips), Digest(state, PushAll(window, trips), trips))
  {
    var w' := PushAll(window, trips);
    var s' := Digest(state, w', trips);
    forall d ensures d in w' <==> d in s' {
      PushedAt(window, trips, d);
      DigestedAt(state, w', trips, d);
    }
    forall d | d in w' ensures StatisticsFit(w'[d], s'[d]) {
      PushedAt(window, trips, d);
      DigestedAt(state, w', trips, d);
      var j := TripTo(trips, d);
      assert w'[d] == WindowOf(w', d);
      hide Refresh, Min, Max, PushAll, Digest;
      if d in window {
        assert StatisticsFit(window[d], state[d]);
        if j < |trips| {
          RefreshFits(window[d], state[d], trips[j].tt);
        } else {
          assert w'[d] == window[d];
        }
      } else {
        assert w'[d] == [trips[j].tt];
        FirstTripFits(trips[j].tt);
      }
    }
  }

  // ---- The reinforcement factor ----

  /** A non-negative root on the non-negative numbers. */
  ghost predicate IsSqrt(sqrt: real -> real) {
    forall x :: x >= 0.0 ==> sqrt(x) >= 0.0 && Times(sqrt(x), sqrt(x)) == x
  }

  lemma RootPositive(sqrt: real -> real, x: real)
    requires IsSqrt(sqrt) && x > 0.0
    ensures sqrt(x) > 0.0
  {
    TimesUnits(sqrt(x));
  }

  function UpperBound(m: TrafficMatrix, size: nat, sqrt: real -> real): real
    requires sqrt(size as real) != 0.0
  {
    m.mean + ZEE * (sqrt(m.variance) / sqrt(size as real))
  }

  /** r for one trip: zero in the one case where the second quotient has no denominator. */
  function Factor(best: real, upper: real, tt: real): real
    requires tt > 0.0 && best <= upper && best <= tt
  {
    if upper == best && best == tt then 0.0
    else C1 * (best / tt) + C2 * ((upper - best) / ((upper - best) + (tt - best)))
  }

  lemma QuotientInUnit(x: real, y: real)
    requires 0.0 <= x <= y && y > 0.0
    ensures 0.0 <= x / y <= 1.0
    ensures x > 0.0 ==> x / y > 0.0
  {}

  /** The test in the code catches exactly the zero denominator, and r is always a legal factor; it is 0 only there. */
  lemma FactorIsLegal(best: real, upper: real, tt: real)
    requires 0.0 < best <= tt && best <= upper
    ensures (upper - best) + (tt - best) == 0.0 <==> upper == best && best == tt
    ensures 0.0 <= Factor(best, upper, tt) <= 1.0
    ensures Factor(best, upper, tt) == 0.0 <==> upper == best && best == tt
  {
    QuotientInUnit(best, tt);
    if !(upper == best && best == tt) {
      QuotientInUnit(upper - best, (upper - best) + (tt - best));
    }
  }

  lemma CancelDivision(x: real, y: real)
    requires y != 0.0
    ensures x / y * y == x
  {}

  /** r without quotients: beside 0.7 best / tt, its second part times the denominator is 0.3 (upper - best). */
  lemma FactorExactly(best: real, upper: real, tt: real)
    requires 0.0 < best <= tt && best <= upper
    ensures var r := Factor(best, upper, tt);
            && (upper == best && best == tt ==> r == 0.0)
            && (upper == best && best < tt ==> r * tt == 0.7 * best)
            && (upper > best ==> (r - 0.7 * (best / tt)) * ((upper - best) + (tt - best)) == 0.3 * (upper - best))
  {
    CancelDivision(best, tt);
    if !(upper == best && best == tt) {
      var share, d := (upper - best) / ((upper - best) + (tt - best)), (upper - best) + (tt - best);
      CancelDivision(upper - best, d);
      assert Factor(best, upper, tt) - 0.7 * (best / tt) == 0.3 * share;
      assert 0.3 * share * d == 0.3 * (share * d);
    }
  }

  /** The upper bound lies above the mean by 1.7 standard errors: its excess squared, times the size of the window, is
      1.7^2 times the variance. */
  lemma UpperBoundExactly(m: TrafficMatrix, size: nat, sqrt: real -> real)
    requires IsSqrt(sqrt) && m.variance >= 0.0 && size > 0
    ensures sqrt(size as real) > 0.0
    ensures var excess := UpperBound(m, size, sqrt) - m.mean;
            excess >= 0.0 && excess * excess * size as real == 1.7 * 1.7 * m.variance
  {
    var s, v := sqrt(size as real), sqrt(m.variance);
    RootPositive(sqrt, size as real);
    assert s * s == size as real && v * v == m.variance && v >= 0.0;
    hide IsSqrt;
    SquaredExcess(v, s);
  }

  lemma SquaredExcess(v: real, s: real)
    requires v >= 0.0 && s > 0.0
    ensures var excess := ZEE * (v / s); excess >= 0.0 && excess * excess * (s * s) == 1.7 * 1.7 * (v * v)
  {
    var x := v / s;
    CancelDivision(v, s);
    assert (ZEE * x) * (ZEE * x) * (s * s) == ZEE * ZEE * ((x * s) * (x * s));
  }

  lemma UpperBoundAboveBest(w: seq<real>, m: TrafficMatrix, sqrt: real -> real)
    requires IsSqrt(sqrt) && StatisticsFit(w, m)
    ensures sqrt(|w| as real) > 0.0 && UpperBound(m, |w|, sqrt) >= m.best
  {
    SummaryBounds(w);
    RootPositive(sqrt, |w| as real);
    DivideNonNegative(sqrt(m.variance), sqrt(|w| as real));
  }

  lemma DivideNonNegative(x: real, y: real)
    requires x >= 0.0 && y > 0.0
    ensures x / y >= 0.0
  {}

  /** r is the prescribed factor for this trip, every division is defined, and the factor is legal. */
  ghost predicate FactorOk(window: Window, state: Statistics, t: Trip, r: real, sqrt: real -> real) {
    && t.dest in window && t.dest in state
    && var m, size := state[t.dest], |window[t.dest]|;
    && sqrt(size as real) > 0.0 && 0.0 < m.best <= t.tt && m.best <= UpperBound(m, size, sqrt)
    && r == Factor(m.best, UpperBound(m, size, sqrt), t.tt)
    && 0.0 <= r <= 1.0
  }

  /** The values that r takes are the right ones for the first |rs| trips. */
  ghost predicate FactorsOk(window: Window, state: Statistics, trips: seq<Trip>, rs: seq<real>, sqrt: real -> real) {
    |rs| <= |trips| && forall j :: 0 <= j < |rs| ==> FactorOk(window, state, trips[j], rs[j], sqrt)
  }

  lemma OneMoreFactor(window: Window, state: Statistics, trips: seq<Trip>, rs: seq<real>, r: real, sqrt: real -> real)
    requires FactorsOk(window, state, trips, rs, sqrt)
    requires |rs| < |trips| && FactorOk(window, state, trips[|rs|], r, sqrt)
    ensures FactorsOk(window, state, trips, rs + [r], sqrt)
  {}

  // ---- The component ----

  class TrafficModel {
    const addr: nat
    var window: Window
    var state: Statistics
    var r: real

    constructor (addr: nat)
      ensures this.addr == addr && window == map[] && state == map[] && TrafficOk(window, state)
    {
      this.addr := addr;
      window, state, r := map[], map[], 0.0;
    }

    method GetWinSize(dest: nat) returns (count: nat)
      ensures count == |WindowOf(window, dest)|
    {
      count := 0;
      if dest !in window {
        return;
      }
      for k := 0 to |window[dest]|
        invariant count == k
      {
        count := count + 1;
      }
    }

    method BestTripTime(dest: nat) returns (mintt: real)
      requires dest in window && window[dest] != []
      ensures mintt == Min(window[dest])
    {
      var w := window[dest];
      mintt := w[0];
      for k := 0 to |w|
        invariant mintt == if k == 0 then w[0] else Min(w[..k])
      {
        if w[k] < mintt {
          mintt := w[k];
        }
        assert w[..k + 1][..k] == w[..k];
      }
      assert w[..|w|] == w;
    }

    ghost predicate PathFrom(p: AntPacket, i: nat)
      reads p, p.memory
    {
      p.Valid() && 0 < i < p.memSize && DistinctNodes(p.Mem()) && IncreasingTrips(p.Mem())
    }

    ghost function Trips(p: AntPacket, i: nat): (trips: seq<Trip>)
      requires PathFrom(p, i)
      reads p, p.memory
      ensures |trips| == p.memSize - i > 0
    {
      TripsFrom(p.Mem(), i - 1)
    }

    /** What each loop reads at `index`: a later node and the trip time to it. */
    method ReadTrip(p: AntPacket, i: nat, initialtt: real, index: nat) returns (dest: nat, tt: real)
      requires PathFrom(p, i) && initialtt == p.Mem()[i - 1].trip && i <= index < p.memSize
      ensures Trips(p, i)[index - i] == Trip(dest, tt)
    {
      dest := p.memory[index].node;
      tt := p.memory[index].trip - initialtt;
    }

    /** update_traffic: its three loops in turn. `rs` are the values that r takes, one for each later node. */
    method UpdateTraffic(p: AntPacket, sqrt: real -> real) returns (rs: seq<real>)
      requires p.Valid() && IsSqrt(sqrt) && TrafficOk(window, state)
      requires DistinctNodes(p.Mem()) && IncreasingTrips(p.Mem()) && FindNode(p.Mem(), addr) + 1 < p.memSize
      modifies this
      ensures TrafficOk(window, state)
      ensures var trips := TripsFrom(p.Mem(), FindNode(p.Mem(), addr));
              && window == PushAll(old(window), trips)
              && state == Digest(old(state), window, trips)
              && |rs| == |trips| > 0 && r == rs[|rs| - 1]
              && FactorsOk(window, state, trips, rs, sqrt)
    {
      hide TrafficOk, FactorsOk, FactorOk, IsSqrt, PushAll, Digest, AllSeen;
      ghost var at := FindNode(p.Mem(), addr);
      var i := 0;
      while p.memory[i].node != addr
        invariant i <= at
        decreases at - i
      {
        assert p.Mem()[i].node != addr;
        i := i + 1;
      }
      assert p.Mem()[i].node == addr;
      var initialtt := p.memory[i].trip;
      i := i + 1;
      ghost var trips := Trips(p, i);
      TripsOfPath(p.Mem(), at);
      RecordTrips(p, i, initialtt);
      AllTripsSeen(old(window), trips);
      DigestTrips(p, i, initialtt);
      UpdateKeepsTraffic(old(window), old(state), trips);
      rs := ComputeFactors(p, i, initialtt, sqrt);
    }

    /** The body of the first loop. */
    method RecordTrip(dest: nat, tt: real)
      modifies this`window
      ensures window == old(window)[dest := WindowOf(old(window), dest) + [tt]]
    {
      if dest in window {
        window := window[dest := window[dest] + [tt]];
      } else {
        window := window[dest := [tt]];
        assert [] + [tt] == [tt];
      }
    }

    /** First loop: each trip time goes to the window of its destination. */
    method RecordTrips(p: AntPacket, i: nat, initialtt: real)
      requires PathFrom(p, i) && initialtt == p.Mem()[i - 1].trip
      modifies this`window
      ensures window == PushAll(old(window), Trips(p, i))
    {
      ghost var trips := Trips(p, i);
      assert PushAll(window, trips[..0]) == window;
      hide PushAll, WindowOf, Trips, PathFrom;
      for index := i to p.memSize
        invariant window == PushAll(old(window), trips[..index - i])
      {
        var dest, tt := ReadTrip(p, i, initialtt, index);
        ghost var k: nat := index - i;
        PushNext(old(window), trips, k);
        RecordTrip(dest, tt);
        assert trips[..k + 1] == trips[..index + 1 - i];
      }
      assert trips[..p.memSize - i] == trips;
    }

    /** The body of the second loop. */
    method DigestTrip(dest: nat, tt: real)
      requires dest in window && window[dest] != []
      modifies this`state
      ensures state == old(state)[dest := Refreshed(old(state), window, Trip(dest, tt))]
    {
      var mintt := BestTripTime(dest);
      if dest in state {
        state := state[dest := Refresh(state[dest], mintt, tt)];
      } else {
        state := state[dest := TrafficMatrix(tt, tt, mintt)];
      }
    }

    /** The statistics take in the first k trips. */
    ghost predicate DigestedUpTo(was: Statistics, trips: seq<Trip>, k: nat)
      reads this`state, this`window
    {
      k <= |trips| && state == Digest(was, window, trips[..k])
    }

    lemma DigestedNone(trips: seq<Trip>)
      ensures DigestedUpTo(state, trips, 0)
    {}

    lemma DigestedAll(was: Statistics, trips: seq<Trip>)
      requires DigestedUpTo(was, trips, |trips|)
      ensures state == Digest(was, window, trips)
    {
      assert trips[..|trips|] == trips;
    }

    method DigestOne(dest: nat, tt: real, ghost was: Statistics, ghost trips: seq<Trip>, ghost k: nat)
      requires DigestedUpTo(was, trips, k) && k < |trips| && trips[k] == Trip(dest, tt) && AllSeen(window, trips)
      modifies this`state
      ensures DigestedUpTo(was, trips, k + 1)
    {
      SeenAt(window, trips, k);
      DigestNext(was, window, trips, k);
      hide Digest, Refreshed, AllSeen;
      DigestTrip(dest, tt);
    }

    /** Second loop: mean, variance and best time of each destination. */
    method DigestTrips(p: AntPacket, i: nat, initialtt: real)
      requires PathFrom(p, i) && initialtt == p.Mem()[i - 1].trip
      requires AllSeen(window, Trips(p, i))
      modifies this`state
      ensures state == Digest(old(state), window, Trips(p, i))
    {
      ghost var trips := Trips(p, i);
      DigestedNone(trips);
      hide Digest, DigestedUpTo, AllSeen, Trips, PathFrom;
      for index := i to p.memSize
        invariant DigestedUpTo(old(state), trips, index - i)
      {
        var dest, tt := ReadTrip(p, i, initialtt, index);
        DigestOne(dest, tt, old(state), trips, index - i);
      }
      DigestedAll(old(state), trips);
    }

    /** Third loop: r for each destination. */
    method ComputeFactors(p: AntPacket, i: nat, initialtt: real, sqrt: real -> real)
      returns (rs: seq<real>)
      requires PathFrom(p, i) && initialtt == p.Mem()[i - 1].trip && IsSqrt(sqrt) && TrafficOk(window, state)
      requires AllSeen(window, Trips(p, i))
      modifies this`r
      ensures |rs| == |Trips(p, i)| > 0 && r == rs[|rs| - 1]
      ensures FactorsOk(window, state, Trips(p, i), rs, sqrt)
    {
      ghost var trips := Trips(p, i);
      rs := [];
      assert FactorsOk(window, state, trips, rs, sqrt);
      hide TrafficOk, FactorsOk, FactorOk, IsSqrt, AllSeen, Seen, Trips, PathFrom;
      for index := i to p.memSize
        invariant |rs| == index - i && (rs != [] ==> r == rs[|rs| - 1])
        invariant FactorsOk(window, state, trips, rs, sqrt)
      {
        var dest, tt := ReadTrip(p, i, initialtt, index);
        SeenAt(window, trips, index - i);
        r := ReinforcementFor(dest, tt, sqrt);
        OneMoreFactor(window, state, trips, rs, r, sqrt);
        rs := rs + [r];
      }
    }

    /** The body of the third loop. */
    method ReinforcementFor(dest: nat, tt: real, sqrt: real -> real) returns (r: real)
      requires IsSqrt(sqrt) && TrafficOk(window, state) && dest in window && tt in window[dest]
      ensures FactorOk(window, state, Trip(dest, tt), r, sqrt)
    {
      ghost var w := window[dest];
      assert StatisticsFit(w, state[dest]);
      ghost var k :| 0 <= k < |w| && w[k] == tt;
      MinMaxBound(w, k);
      SummaryBounds(w);
      ghost var l := MinIsAnElement(w);
      UpperBoundAboveBest(w, state[dest], sqrt);
      var size := GetWinSize(dest);
      var best := state[dest].best;
      var upper := UpperBound(state[dest], size, sqrt);
      FactorIsLegal(best, upper, tt);
      if upper == best && best == tt {
        r := 0.0;
      } else {
        r := C1 * (best / tt) + C2 * ((upper - best) / ((upper - best) + (tt - best)));
      }
    }
  }

  lemma TripsOfPath(mem: seq<Entry>, k: nat)
    requires DistinctNodes(mem) && IncreasingTrips(mem) && k < |mem|
    ensures DistinctTrips(TripsFrom(mem, k)) && PositiveTrips(TripsFrom(mem, k))
  {}

  ghost predicate Seen(window: Window, t: Trip) {
    t.dest in window && window[t.dest] != [] && t.tt in window[t.dest]
  }

  ghost predicate AllSeen(window: Window, trips: seq<Trip>) {
    forall j :: 0 <= j < |trips| ==> Seen(window, trips[j])
  }

  lemma SeenAt(window: Window, trips: seq<Trip>, j: nat)
    requires AllSeen(window, trips) && j < |trips|
    ensures var t := trips[j]; t.dest in window && window[t.dest] != [] && t.tt in window[t.dest]
  {
    assert Seen(window, trips[j]);
  }

  lemma AllTripsSeen(window: Window, trips: seq<Trip>)
    requires DistinctTrips(trips)
    ensures AllSeen(PushAll(window, trips), trips)
  {
    forall j | 0 <= j < |trips| ensures Seen(PushAll(window, trips), trips[j]) {
      SeenTrip(window, trips, j);
    }
  }

  /** After the first loop every trip time of the path is in the window of its destination. */
  lemma SeenTrip(window: Window, trips: seq<Trip>, j: nat)
    requires DistinctTrips(trips) && j < |trips|
    ensures Seen(PushAll(window, trips), trips[j])
  {
    PushedAt(window, trips, trips[j].dest);
    assert TripTo(trips, trips[j].dest) == j;
  }
}
