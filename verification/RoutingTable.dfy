/** The per-node routing table (antnet_rtable.cc), changed in place. */
module RoutingTable {
  import opened AntnetMath
  import opened PheromoneRow
  import opened Selection

  function WithEntry(table: Table, dest: nat, e: Pheromone): Table {
    table[dest := (if dest in table then table[dest] else []) + [e]]
  }

  function Updated(table: Table, dest: nat, next: nat, r: real): Table {
    if dest in table then table[dest := UpdateRow(table[dest], next, r)] else table
  }

  class AntnetRtable {
    var rt: Table

    constructor ()
      ensures rt == map[]
    {
      rt := map[];
    }

    method AddEntry(dest: nat, next: nat, phvalue: real)
      modifies this
      ensures rt == WithEntry(old(rt), dest, Pheromone(next, phvalue))
    {
      var entry := Pheromone(next, phvalue);
      if dest !in rt {
        assert [] + [entry] == [entry];
        rt := rt[dest := [entry]];
      } else {
        rt := rt[dest := rt[dest] + [entry]];
      }
    }

    method Update(dest: nat, next: nat, r: real)
      modifies this
      ensures rt == Updated(old(rt), dest, next, r)
    {
      if dest in rt {
        var k := 0;
        while k < |rt[dest]|
          invariant dest in rt && dest in old(rt) && rt == old(rt)[dest := rt[dest]]
          invariant k <= |rt[dest]| == |old(rt)[dest]|
          invariant forall i :: 0 <= i < k ==> rt[dest][i] == UpdateEntry(old(rt)[dest][i], next, r)
          invariant forall i :: k <= i < |rt[dest]| ==> rt[dest][i] == old(rt)[dest][i]
        {
          var e := rt[dest][k];
          if e.neighbor == next {
            rt := rt[dest := rt[dest][k := e.(phvalue := ReinforcePheromone(e.phvalue, r))]];
          } else {
            rt := rt[dest := rt[dest][k := e.(phvalue := EvaporatePheromone(e.phvalue, r))]];
          }
          k := k + 1;
        }
        assert rt[dest] == UpdateRow(old(rt)[dest], next, r);
      }
    }

    method CalcNext(dest: nat, parent: nat, numNeighbors: nat, qlen: LinkQueues, uniform: Draw) returns (next: nat)
      ensures next == Selection.CalcNext(rt, dest, parent, numNeighbors, qlen, uniform)
    {
      if dest !in rt {
        return parent;
      }
      var row := rt[dest];
      var queueLen, queued := QueueLengths(row, qlen);
      if queued == 0.0 {
        queued := 1.0;
      }
      var prob, total := LinkWeights(row, parent, numNeighbors, qlen, queueLen, queued);
      if total <= 0.0 {
        return parent;
      }
      next := Sample(row, prob, parent, uniform(total));
    }

    /** First loop of calc_next: look every queue up once. */
    static method QueueLengths(row: Row, qlen: LinkQueues) returns (queueLen: array<real>, queued: real)
      ensures fresh(queueLen) && queueLen.Length == |row|
      ensures forall i :: 0 <= i < |row| ==> queueLen[i] == qlen(row[i].neighbor) as real
      ensures queued == QueueTotal(row, qlen) as real
    {
      queueLen := new real[|row|];
      queued := 0.0;
      for k := 0 to |row|
        invariant forall i :: 0 <= i < k ==> queueLen[i] == qlen(row[i].neighbor) as real
        invariant queued == QueueTotal(row[..k], qlen) as real
      {
        queueLen[k] := qlen(row[k].neighbor) as real;
        queued := queued + queueLen[k];
        assert row[..k + 1][..k] == row[..k];
      }
      assert row[..|row|] == row;
    }

    /** Second loop of calc_next: the weight of every link, and the total without the parent. */
    static method LinkWeights(row: Row, parent: nat, numNeighbors: nat, qlen: LinkQueues,
                              queueLen: array<real>, queued: real)
      returns (prob: array<real>, total: real)
      requires queueLen.Length == |row| && queued == Divisor(row, qlen)
      requires forall i :: 0 <= i < |row| ==> queueLen[i] == qlen(row[i].neighbor) as real
      ensures fresh(prob) && prob.Length == |row| && prob[..] == Weights(row, qlen, numNeighbors)
      ensures total == Cumulative(row, prob[..], parent, |row|)
    {
      ghost var w := Weights(row, qlen, numNeighbors);
      prob := new real[|row|];
      total := 0.0;
      for k := 0 to |row|
        invariant forall i :: 0 <= i < k ==> prob[i] == w[i]
        invariant total == Cumulative(row, w, parent, k)
      {
        prob[k] := LinkProbability(row[k].phvalue, ALPHA, queueLen[k], queued, numNeighbors);
        if row[k].neighbor != parent {
          total := total + prob[k];
        }
      }
      assert prob[..] == w;
    }

    /** Third loop of calc_next: the first link whose cumulative weight passes x. */
    static method Sample(row: Row, prob: array<real>, parent: nat, x: real) returns (next: nat)
      requires prob.Length == |row|
      ensures next == Pick(row, prob[..], parent, x, 0, parent)
    {
      var cumulative := 0.0;
      next := parent;
      for k := 0 to |row|
        invariant cumulative == Cumulative(row, prob[..], parent, k)
        invariant Pick(row, prob[..], parent, x, 0, parent) == Pick(row, prob[..], parent, x, k, next)
      {
        if row[k].neighbor == parent {
          continue;
        }
        next := row[k].neighbor;
        cumulative := cumulative + prob[k];
        if x < cumulative {
          return;
        }
      }
    }
  }
}
