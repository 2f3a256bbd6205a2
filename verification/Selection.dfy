/** Choosing the next hop: the selection weights of a row and the draw among them (calc_next). */
module Selection {
  import opened AntnetMath
  import opened PheromoneRow

  /** The random generator: uniform(t) is some value in [0,t). */
  type Draw = real -> real

  ghost predicate IsDraw(uniform: Draw) {
    forall t :: t > 0.0 ==> 0.0 <= uniform(t) < t
  }

  /** Length of the queue on the link towards each neighbour, at the moment of the draw. */
  type LinkQueues = nat -> nat

  function QueueTotal(row: Row, qlen: LinkQueues): nat {
    if row == [] then 0 else QueueTotal(row[..|row| - 1], qlen) + qlen(row[|row| - 1].neighbor)
  }

  /** The queue total that the code divides by: 1 stands in for an empty total. */
  function Divisor(row: Row, qlen: LinkQueues): (d: real)
    ensures d >= 1.0
  {
    if QueueTotal(row, qlen) == 0 then 1.0 else QueueTotal(row, qlen) as real
  }

  /** The selection weight of every link of the row. */
  function Weights(row: Row, qlen: LinkQueues, numNeighbors: nat): (w: seq<real>)
    ensures |w| == |row|
  {
    seq(|row|, k requires 0 <= k < |row| =>
      LinkProbability(row[k].phvalue, ALPHA, qlen(row[k].neighbor) as real, Divisor(row, qlen), numNeighbors))
  }

  /** Total weight of the first k links, leaving out the link to the parent. */
  function Cumulative(row: Row, w: seq<real>, parent: nat, k: nat): real
    requires k <= |row| == |w|
  {
    if k == 0 then 0.0
    else Cumulative(row, w, parent, k - 1) + if row[k - 1].neighbor == parent then 0.0 else w[k - 1]
  }

  /** The first link from k on, other than the parent's, whose cumulative weight passes x. */
  function Pick(row: Row, w: seq<real>, parent: nat, x: real, k: nat, last: nat): nat
    requires k <= |row| == |w|
    decreases |row| - k
  {
    if k == |row| then last
    else if row[k].neighbor == parent then Pick(row, w, parent, x, k + 1, last)
    else if x < Cumulative(row, w, parent, k + 1) then row[k].neighbor
    else Pick(row, w, parent, x, k + 1, row[k].neighbor)
  }

  /** The choice among weighted links. */
  function Choice(row: Row, w: seq<real>, parent: nat, uniform: Draw): nat
    requires |w| == |row|
  {
    var total := Cumulative(row, w, parent, |row|);
    if total <= 0.0 then parent else Pick(row, w, parent, uniform(total), 0, parent)
  }

  function CalcNextInRow(row: Row, parent: nat, numNeighbors: nat, qlen: LinkQueues, uniform: Draw): nat {
    Choice(row, Weights(row, qlen, numNeighbors), parent, uniform)
  }

  type Table = map<nat, Row>

  function CalcNext(table: Table, dest: nat, parent: nat, numNeighbors: nat, qlen: LinkQueues, uniform: Draw): nat {
    if dest in table then CalcNextInRow(table[dest], parent, numNeighbors, qlen, uniform) else parent
  }

  // ---- The draw is proportional ----

  ghost predicate DistinctLinks(row: Row) {
    forall i, j :: 0 <= i < j < |row| ==> row[i].neighbor != row[j].neighbor
  }

  ghost predicate NonNegative(w: seq<real>) {
    forall k :: 0 <= k < |w| ==> w[k] >= 0.0
  }

  lemma {:induction false} CumulativeMonotone(row: Row, w: seq<real>, parent: nat, i: nat, j: nat)
    requires i <= j <= |row| == |w| && NonNegative(w)
    ensures Cumulative(row, w, parent, i) <= Cumulative(row, w, parent, j)
  {
    if i < j {
      CumulativeMonotone(row, w, parent, i, j - 1);
    }
  }

  /** From link k on, the draw x lands on the one link whose half-open interval holds x. */
  lemma {:induction false} PickLands(row: Row, w: seq<real>, parent: nat, x: real, k: nat, last: nat) returns (hit: nat)
    requires k <= |row| == |w| && NonNegative(w)
    requires Cumulative(row, w, parent, k) <= x < Cumulative(row, w, parent, |row|)
    ensures k <= hit < |row| && row[hit].neighbor != parent
    ensures Pick(row, w, parent, x, k, last) == row[hit].neighbor
    ensures Cumulative(row, w, parent, hit) <= x < Cumulative(row, w, parent, hit + 1)
    decreases |row| - k
  {
    if row[k].neighbor != parent && x < Cumulative(row, w, parent, k + 1) {
      hit := k;
    } else {
      hit := PickLands(row, w, parent, x, k + 1, if row[k].neighbor == parent then last else row[k].neighbor);
    }
  }

  /** Selection refines proportional choice: link k is drawn exactly on an interval of width w[k],
      and the fallback after the loop is never needed. */
  lemma PickPartitions(row: Row, w: seq<real>, parent: nat, x: real, k: nat)
    requires |row| == |w| && NonNegative(w) && DistinctLinks(row)
    requires 0.0 <= x < Cumulative(row, w, parent, |row|)
    requires k < |row| && row[k].neighbor != parent
    ensures Pick(row, w, parent, x, 0, parent) == row[k].neighbor
       <==> Cumulative(row, w, parent, k) <= x < Cumulative(row, w, parent, k) + w[k]
    ensures Pick(row, w, parent, x, 0, parent) != parent
  {
    var hit := PickLands(row, w, parent, x, 0, parent);
    if hit < k {
      CumulativeMonotone(row, w, parent, hit + 1, k);
    } else if k < hit {
      CumulativeMonotone(row, w, parent, k + 1, hit);
    }
  }

  // ---- The weights ----

  lemma {:induction false} QueueBound(row: Row, qlen: LinkQueues, k: nat)
    requires k < |row|
    ensures qlen(row[k].neighbor) <= QueueTotal(row, qlen)
  {
    var n := |row| - 1;
    if k < n {
      QueueBound(row[..n], qlen, k);
      assert row[..n][k] == row[k];
    }
  }

  lemma {:induction false} TwoQueueBound(row: Row, qlen: LinkQueues, i: nat, j: nat)
    requires i < j < |row|
    ensures qlen(row[i].neighbor) + qlen(row[j].neighbor) <= QueueTotal(row, qlen)
  {
    var n := |row| - 1;
    assert row[..n][i] == row[i];
    if j < n {
      TwoQueueBound(row[..n], qlen, i, j);
    } else {
      QueueBound(row[..n], qlen, i);
    }
  }

  lemma WeightSign(ph: real, q: real, total: real, numNeighbors: nat)
    requires ph >= 0.0 && 0.0 <= q <= total && total > 0.0
    ensures LinkProbability(ph, ALPHA, q, total, numNeighbors) >= 0.0
    ensures LinkProbability(ph, ALPHA, q, total, numNeighbors) == 0.0 <==> ph == 0.0 && q == total
  {
    var d := Denominator(ALPHA, numNeighbors);
    assert 0.0 <= q / total <= 1.0;
    assert q / total == 1.0 <==> q == total;
    var top := ph + ALPHA * (1.0 - q / total);
    assert top >= 0.0 && (top == 0.0 <==> ph == 0.0 && q == total);
    assert top / d >= 0.0 && (top / d == 0.0 <==> top == 0.0);
  }

  /** The links that carry no weight at all: no pheromone, and every queued packet of the node. */
  ghost predicate Weightless(row: Row, qlen: LinkQueues, k: nat)
    requires k < |row|
  {
    row[k].phvalue == 0.0 && qlen(row[k].neighbor) == QueueTotal(row, qlen) > 0
  }

  lemma WeightOf(row: Row, qlen: LinkQueues, numNeighbors: nat, k: nat)
    requires k < |row| && row[k].phvalue >= 0.0
    ensures Weights(row, qlen, numNeighbors)[k] >= 0.0
    ensures Weights(row, qlen, numNeighbors)[k] == 0.0 <==> Weightless(row, qlen, k)
  {
    QueueBound(row, qlen, k);
    WeightSign(row[k].phvalue, qlen(row[k].neighbor) as real, Divisor(row, qlen), numNeighbors);
  }

  /** The weight w of a link with pheromone ph and queue q, without quotients: (1 + 0.45 (N - 1)) Q w is
      ph Q + 0.45 (Q - q) for a queue total Q > 0, and (1 + 0.45 (N - 1)) w is ph + 0.45 when all queues are empty. */
  ghost predicate WeighsExactly(w: real, ph: real, q: nat, Q: nat, numNeighbors: nat) {
    var D := 1.0 + 0.45 * (numNeighbors as real - 1.0);
    if Q > 0 then w * D * Q as real == ph * Q as real + 0.45 * (Q as real - q as real) else w * D == ph + 0.45
  }

  lemma WeightExactly(row: Row, qlen: LinkQueues, numNeighbors: nat, k: nat)
    requires k < |row|
    ensures WeighsExactly(Weights(row, qlen, numNeighbors)[k], row[k].phvalue, qlen(row[k].neighbor),
                          QueueTotal(row, qlen), numNeighbors)
  {
    QueueBound(row, qlen, k);
    hide WeighsExactly, LinkProbability, QueueTotal;
    LinkWeighsExactly(row[k].phvalue, qlen(row[k].neighbor), QueueTotal(row, qlen), numNeighbors);
  }

  lemma LinkWeighsExactly(ph: real, q: nat, Q: nat, numNeighbors: nat)
    requires q <= Q
    ensures WeighsExactly(LinkProbability(ph, ALPHA, q as real, if Q == 0 then 1.0 else Q as real, numNeighbors),
                          ph, q, Q, numNeighbors)
  {
    var d, D := if Q == 0 then 1.0 else Q as real, Denominator(ALPHA, numNeighbors);
    var share := q as real / d;
    var top := ph + 0.45 * (1.0 - share);
    CancelDivision(top, D);
    CancelDivision(q as real, d);
    assert top * d == ph * d + 0.45 * (d - share * d);
  }

  lemma CancelDivision(x: real, y: real)
    requires y != 0.0
    ensures x / y * y == x
  {}

  lemma {:induction false} CumulativeZero(row: Row, w: seq<real>, parent: nat, n: nat)
    requires n <= |row| == |w| && NonNegative(w)
    ensures Cumulative(row, w, parent, n) >= 0.0
    ensures Cumulative(row, w, parent, n) == 0.0 <==>
            forall k :: 0 <= k < n && row[k].neighbor != parent ==> w[k] == 0.0
  {
    if n > 0 {
      CumulativeZero(row, w, parent, n - 1);
    }
  }

  ghost predicate HasLink(row: Row, a: nat) {
    exists k :: 0 <= k < |row| && row[k].neighbor == a
  }

  lemma ChoiceDeadEnd(row: Row, w: seq<real>, parent: nat, uniform: Draw)
    requires |w| == |row| && NonNegative(w) && IsDraw(uniform)
    ensures Choice(row, w, parent, uniform) == parent <==>
            forall k :: 0 <= k < |row| && row[k].neighbor != parent ==> w[k] == 0.0
    ensures Choice(row, w, parent, uniform) != parent ==> HasLink(row, Choice(row, w, parent, uniform))
  {
    CumulativeZero(row, w, parent, |row|);
    var total := Cumulative(row, w, parent, |row|);
    if total > 0.0 {
      var hit := PickLands(row, w, parent, uniform(total), 0, parent);
      assert HasLink(row, row[hit].neighbor);
    }
  }

  /** calc_next bounces to the parent exactly when every other link is weightless;
      otherwise it returns a link of the row other than the parent's. */
  lemma CalcNextInRowDeadEnd(row: Row, parent: nat, numNeighbors: nat, qlen: LinkQueues, uniform: Draw)
    requires forall k :: 0 <= k < |row| ==> row[k].phvalue >= 0.0
    requires IsDraw(uniform)
    ensures CalcNextInRow(row, parent, numNeighbors, qlen, uniform) == parent <==>
            forall k :: 0 <= k < |row| && row[k].neighbor != parent ==> Weightless(row, qlen, k)
    ensures CalcNextInRow(row, parent, numNeighbors, qlen, uniform) != parent ==>
            HasLink(row, CalcNextInRow(row, parent, numNeighbors, qlen, uniform))
  {
    var w := Weights(row, qlen, numNeighbors);
    forall k | 0 <= k < |row| ensures w[k] >= 0.0 && (w[k] == 0.0 <==> Weightless(row, qlen, k)) {
      WeightOf(row, qlen, numNeighbors, k);
    }
    ChoiceDeadEnd(row, w, parent, uniform);
  }

  function Sum(w: seq<real>): real {
    if w == [] then 0.0 else Sum(w[..|w| - 1]) + w[|w| - 1]
  }

  /** The common formula: (ph mass + alpha (n - queues / d)) / D. */
  function Quotient(mass: real, n: real, queued: real, d: real, D: real): real
    requires d > 0.0 && D > 0.0
  {
    (mass + ALPHA * (n - queued / d)) / D
  }

  lemma QuotientAdds(mass: real, n: real, queued: real, d: real, D: real, ph: real, q: real)
    requires d > 0.0 && D > 0.0
    ensures Quotient(mass, n, queued, d, D) + Quotient(ph, 1.0, q, d, D)
         == Quotient(mass + ph, n + 1.0, queued + q, d, D)
  {
    assert (queued + q) / d == queued / d + q / d;
    AddQuotients(mass + ALPHA * (n - queued / d), ph + ALPHA * (1.0 - q / d), D);
  }

  lemma AddQuotients(x: real, y: real, d: real)
    requires d > 0.0
    ensures x / d + y / d == (x + y) / d
  {}

  lemma {:induction false} SumOfWeights(row: Row, qlen: LinkQueues, d: real, numNeighbors: nat, w: seq<real>)
    requires d > 0.0 && |w| == |row|
    requires forall k :: 0 <= k < |row| ==>
      w[k] == LinkProbability(row[k].phvalue, ALPHA, qlen(row[k].neighbor) as real, d, numNeighbors)
    ensures Sum(w) == Quotient(MassFromBack(row), |row| as real, QueueTotal(row, qlen) as real, d,
                               Denominator(ALPHA, numNeighbors))
  {
    var D := Denominator(ALPHA, numNeighbors);
    if row == [] {
      assert Quotient(0.0, 0.0, 0.0, d, D) == 0.0;
    } else {
      var n := |row| - 1;
      SumOfWeights(row[..n], qlen, d, numNeighbors, w[..n]);
      QuotientAdds(MassFromBack(row[..n]), n as real, QueueTotal(row[..n], qlen) as real, d, D,
                   row[n].phvalue, qlen(row[n].neighbor) as real);
      assert w[n] == Quotient(row[n].phvalue, 1.0, qlen(row[n].neighbor) as real, d, D);
    }
  }

  function MassFromBack(row: Row): real {
    if row == [] then 0.0 else MassFromBack(row[..|row| - 1]) + row[|row| - 1].phvalue
  }

  lemma {:induction false} MassFromBackIsMass(row: Row)
    ensures MassFromBack(row) == Mass(row)
  {
    if row != [] {
      var n := |row| - 1;
      MassFromBackIsMass(row[..n]);
      MassOfConcat(row[..n], row[n..]);
      assert row == row[..n] + row[n..];
      assert Mass(row[n..]) == row[n].phvalue + Mass(row[n..][1..]);
    }
  }

  /** The weights of a normalised row sum to 1 exactly when some queue is non-empty;
      with all queues empty they sum to (1 + 0.45 n) / (1 + 0.45 (n - 1)). */
  lemma TotalWeight(row: Row, qlen: LinkQueues)
    requires Mass(row) == 1.0
    ensures Sum(Weights(row, qlen, |row|))
         == if QueueTotal(row, qlen) > 0 then 1.0
            else (1.0 + 0.45 * |row| as real) / (1.0 + 0.45 * (|row| as real - 1.0))
  {
    var w, d := Weights(row, qlen, |row|), Divisor(row, qlen);
    SumOfWeights(row, qlen, d, |row|, w);
    MassFromBackIsMass(row);
    TotalWeightStep(|row| as real, QueueTotal(row, qlen) as real, d, Denominator(ALPHA, |row|));
  }

  lemma TotalWeightStep(n: real, queued: real, d: real, D: real)
    requires queued >= 0.0 && d == (if queued == 0.0 then 1.0 else queued) && D > 0.0
    requires D == 1.0 + ALPHA * (n - 1.0)
    ensures Quotient(1.0, n, queued, d, D) == if queued > 0.0 then 1.0 else (1.0 + ALPHA * n) / D
  {
    if queued > 0.0 {
      assert queued / d == 1.0;
    }
  }

  lemma {:induction false} CumulativeWithoutParent(row: Row, w: seq<real>, parent: nat, n: nat)
    requires n <= |row| == |w| && forall k :: 0 <= k < |row| ==> row[k].neighbor != parent
    ensures Cumulative(row, w, parent, n) == Sum(w[..n])
  {
    if n > 0 {
      CumulativeWithoutParent(row, w, parent, n - 1);
      assert w[..n][..n - 1] == w[..n - 1];
    }
  }

  /** More pheromone and a queue that is no longer never make a link less likely. */
  lemma BetterLinkWeighsMore(row: Row, qlen: LinkQueues, numNeighbors: nat, a: nat, b: nat)
    requires a < |row| && b < |row|
    requires row[a].phvalue >= row[b].phvalue && qlen(row[a].neighbor) <= qlen(row[b].neighbor)
    ensures Weights(row, qlen, numNeighbors)[a] >= Weights(row, qlen, numNeighbors)[b]
  {
    var d, D := Divisor(row, qlen), Denominator(ALPHA, numNeighbors);
    var qa, qb := qlen(row[a].neighbor) as real, qlen(row[b].neighbor) as real;
    DivideMonotone(qa, qb, d);
    DivideMonotone(row[b].phvalue + ALPHA * (1.0 - qb / d), row[a].phvalue + ALPHA * (1.0 - qa / d), D);
  }

  lemma DivideMonotone(x: real, y: real, d: real)
    requires x <= y && d > 0.0
    ensures x / d <= y / d
  {}
}
