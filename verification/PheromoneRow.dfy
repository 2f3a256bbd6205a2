/** One row of the routing table: the pheromone on each link of a node, for one destination. */
module PheromoneRow {
  import opened AntnetMath

  datatype Pheromone = Pheromone(neighbor: nat, phvalue: real)

  type Row = seq<Pheromone>

  function UpdateEntry(e: Pheromone, next: nat, r: real): Pheromone {
    e.(phvalue := if e.neighbor == next then ReinforcePheromone(e.phvalue, r) else EvaporatePheromone(e.phvalue, r))
  }

  /** What `update` leaves in the row of its destination. */
  function UpdateRow(row: Row, next: nat, r: real): (u: Row)
    ensures |u| == |row|
  {
    seq(|row|, k requires 0 <= k < |row| => UpdateEntry(row[k], next, r))
  }

  /** The row that initialize_rtable builds: equal pheromone on every link. */
  function Uniform(nbrs: seq<nat>): (row: Row)
    ensures |row| == |nbrs|
  {
    seq(|nbrs|, k requires 0 <= k < |nbrs| => Pheromone(nbrs[k], 1.0 / |nbrs| as real))
  }

  function Mass(row: Row): real {
    if row == [] then 0.0 else row[0].phvalue + Mass(row[1..])
  }

  /** How many entries of the row belong to the link towards `next`. */
  function Links(row: Row, next: nat): nat {
    if row == [] then 0 else (if row[0].neighbor == next then 1 else 0) + Links(row[1..], next)
  }

  /** A probability distribution over exactly the links in `nbrs`, in their order. */
  ghost predicate Distribution(row: Row, nbrs: seq<nat>) {
    && |row| == |nbrs|
    && (forall k :: 0 <= k < |row| ==> row[k].neighbor == nbrs[k] && row[k].phvalue >= 0.0)
    && Mass(row) == 1.0
  }

  ghost predicate NoRepeats(s: seq<nat>) {
    forall i, j :: 0 <= i < j < |s| ==> s[i] != s[j]
  }

  // ---- One update ----

  /** Every entry keeps the share 1-r of its value; the link travelled also gains r. */
  lemma KeptShare(e: Pheromone, next: nat, r: real)
    ensures UpdateEntry(e, next, r).phvalue == Times(1.0 - r, e.phvalue) + if e.neighbor == next then r else 0.0
  {}

  /** What the reinforced links of a row gain together. */
  function Bonus(row: Row, next: nat, r: real): real {
    if row == [] then 0.0 else (if row[0].neighbor == next then r else 0.0) + Bonus(row[1..], next, r)
  }

  lemma {:induction false} BonusPerLink(row: Row, next: nat, r: real)
    ensures Bonus(row, next, r) == Times(r, Links(row, next) as real)
  {
    hide Times;
    if row == [] {
      TimesUnits(r);
    } else {
      var l := Links(row[1..], next) as real;
      BonusPerLink(row[1..], next, r);
      TimesDistributes(r, 1.0, l);
      TimesUnits(r);
    }
  }

  lemma {:induction false} MassAfterUpdate(row: Row, next: nat, r: real)
    ensures Mass(UpdateRow(row, next, r)) == Times(1.0 - r, Mass(row)) + Bonus(row, next, r)
  {
    hide Times, ReinforcePheromone, EvaporatePheromone;
    if row == [] {
      TimesUnits(1.0 - r);
    } else {
      MassAfterUpdate(row[1..], next, r);
      KeptShare(row[0], next, r);
      assert UpdateRow(row, next, r)[1..] == UpdateRow(row[1..], next, r);
      TimesDistributes(1.0 - r, row[0].phvalue, Mass(row[1..]));
    }
  }

  /** A normalised row stays normalised exactly when the reinforced link occurs in it once (or r is 0). */
  lemma UpdateKeepsMassIff(row: Row, next: nat, r: real)
    requires Mass(row) == 1.0
    ensures Mass(UpdateRow(row, next, r)) == 1.0 <==> r == 0.0 || Links(row, next) == 1
  {
    hide Times;
    var l := Links(row, next) as real;
    MassAfterUpdate(row, next, r);
    BonusPerLink(row, next, r);
    TimesUnits(1.0 - r);
    TimesDistributes(r, 1.0, l - 1.0);
    TimesUnits(r);
    TimesPositive(r, l - 1.0);
    TimesUnits(l - 1.0);
  }

  lemma {:induction false} LinksOfDistinct(row: Row, nbrs: seq<nat>, next: nat)
    requires |row| == |nbrs| && NoRepeats(nbrs)
    requires forall k :: 0 <= k < |row| ==> row[k].neighbor == nbrs[k]
    ensures Links(row, next) == if next in nbrs then 1 else 0
  {
    if row != [] {
      LinksOfDistinct(row[1..], nbrs[1..], next);
      assert nbrs == [nbrs[0]] + nbrs[1..];
    }
  }

  lemma UpdateKeepsDistribution(row: Row, nbrs: seq<nat>, next: nat, r: real)
    requires Distribution(row, nbrs) && NoRepeats(nbrs) && next in nbrs && 0.0 <= r <= 1.0
    ensures Distribution(UpdateRow(row, next, r), nbrs)
  {
    hide Times, ReinforcePheromone, EvaporatePheromone;
    LinksOfDistinct(row, nbrs, next);
    UpdateKeepsMassIff(row, next, r);
    forall k | 0 <= k < |row| ensures UpdateRow(row, next, r)[k].phvalue >= 0.0 {
      KeptShare(row[k], next, r);
      TimesPositive(1.0 - r, row[k].phvalue);
    }
  }

  lemma {:induction false} ConstantMass(row: Row, x: real)
    requires forall k :: 0 <= k < |row| ==> row[k].phvalue == x
    ensures Mass(row) == Times(x, |row| as real)
  {
    hide Times;
    if row == [] {
      TimesUnits(x);
    } else {
      ConstantMass(row[1..], x);
      TimesDistributes(x, 1.0, |row[1..]| as real);
      TimesUnits(x);
    }
  }

  lemma UniformIsDistribution(nbrs: seq<nat>)
    requires nbrs != []
    ensures Distribution(Uniform(nbrs), nbrs)
  {
    ConstantMass(Uniform(nbrs), 1.0 / |nbrs| as real);
  }

  lemma {:induction false} MassOfConcat(a: Row, b: Row)
    ensures Mass(a + b) == Mass(a) + Mass(b)
  {
    if a == [] {
      assert a + b == b;
    } else {
      MassOfConcat(a[1..], b);
      assert (a + b)[1..] == a[1..] + b;
    }
  }

  // ---- Whole histories of a row ----

  /** The row after the reinforcements in `hist`, oldest first. */
  function RowAfter(row: Row, r: real, hist: seq<nat>): (u: Row)
    ensures |u| == |row|
    decreases hist
  {
    if hist == [] then row else RowAfter(UpdateRow(row, hist[0], r), r, hist[1..])
  }

  lemma {:induction false} RowAfterAppend(row: Row, r: real, hist: seq<nat>, last: nat)
    ensures RowAfter(row, r, hist + [last]) == UpdateRow(RowAfter(row, r, hist), last, r)
    decreases hist
  {
    var longer := hist + [last];
    if hist == [] {
      assert longer[1..] == [];
    } else {
      RowAfterAppend(UpdateRow(row, hist[0], r), r, hist[1..], last);
      assert longer[1..] == hist[1..] + [last];
    }
  }

  lemma {:induction false} HistoryKeepsDistribution(row: Row, nbrs: seq<nat>, r: real, hist: seq<nat>)
    requires Distribution(row, nbrs) && NoRepeats(nbrs) && 0.0 <= r <= 1.0
    requires forall t :: 0 <= t < |hist| ==> hist[t] in nbrs
    ensures Distribution(RowAfter(row, r, hist), nbrs)
    decreases hist
  {
    if hist != [] {
      UpdateKeepsDistribution(row, nbrs, hist[0], r);
      HistoryKeepsDistribution(UpdateRow(row, hist[0], r), nbrs, r, hist[1..]);
    }
  }

  /** The sum, over the positions t of `hist` that name `link`, of keep^(|hist|-1-t). */
  function Gain(hist: seq<nat>, link: nat, keep: real): real {
    if hist == [] then 0.0
    else (if hist[0] == link then Pow(keep, |hist| - 1) else 0.0) + Gain(hist[1..], link, keep)
  }

  lemma {:induction false} GainNonNegative(hist: seq<nat>, link: nat, keep: real)
    requires keep >= 0.0
    ensures Gain(hist, link, keep) >= 0.0
  {
    hide Pow;
    if hist != [] {
      GainNonNegative(hist[1..], link, keep);
      PowPositive(keep, |hist| - 1);
    }
  }

  /** The value of an entry that started at x, in closed form: keep^n x + r (aged reinforcements). */
  function Closed(x: real, link: nat, r: real, hist: seq<nat>): real {
    Times(Pow(1.0 - r, |hist|), x) + Times(r, Gain(hist, link, 1.0 - r))
  }

  lemma ClosedStep(x: real, link: nat, r: real, hist: seq<nat>)
    requires hist != []
    ensures Closed(x, link, r, hist)
         == Closed(Times(1.0 - r, x) + if link == hist[0] then r else 0.0, link, r, hist[1..])
  {
    hide Times;
    var keep, gained := 1.0 - r, if link == hist[0] then r else 0.0;
    var p := Pow(keep, |hist| - 1);
    assert Pow(keep, |hist|) == Times(keep, p);
    TimesDistributes(p, Times(keep, x), gained);
    TimesReorders(p, keep, x);
    TimesDistributes(r, if link == hist[0] then p else 0.0, Gain(hist[1..], link, keep));
    TimesUnits(p);
    TimesUnits(r);
    TimesCommutes(p, r);
  }

  /** Every entry after any history of updates. */
  lemma {:induction false} ClosedForm(row: Row, r: real, hist: seq<nat>, k: nat)
    requires k < |row|
    ensures RowAfter(row, r, hist)[k]
         == Pheromone(row[k].neighbor, Closed(row[k].phvalue, row[k].neighbor, r, hist))
    decreases hist
  {
    if hist == [] {
      TimesUnits(row[k].phvalue);
      TimesUnits(r);
    } else {
      hide Times, ReinforcePheromone, EvaporatePheromone, Closed;
      ClosedForm(UpdateRow(row, hist[0], r), r, hist[1..], k);
      KeptShare(row[k], hist[0], r);
      ClosedStep(row[k].phvalue, row[k].neighbor, r, hist);
    }
  }

  lemma {:induction false} GainOfConstant(hist: seq<nat>, link: nat, keep: real)
    requires forall t :: 0 <= t < |hist| ==> hist[t] == link
    ensures Times(1.0 - keep, Gain(hist, link, keep)) == 1.0 - Pow(keep, |hist|)
  {
    hide Times;
    if hist == [] {
      TimesUnits(1.0 - keep);
    } else {
      var p := Pow(keep, |hist| - 1);
      GainOfConstant(hist[1..], link, keep);
      TimesDistributes(1.0 - keep, p, Gain(hist[1..], link, keep));
      Complement(keep, p);
    }
  }

  lemma Complement(q: real, x: real)
    ensures Times(1.0 - q, x) == x - Times(q, x)
  {}

  /** n reinforcements of one link in a row shrink its distance to 1 by exactly (1-r)^n. */
  lemma RepeatedReinforcement(row: Row, r: real, hist: seq<nat>, k: nat)
    requires k < |row| && forall t :: 0 <= t < |hist| ==> hist[t] == row[k].neighbor
    ensures 1.0 - RowAfter(row, r, hist)[k].phvalue == Pow(1.0 - r, |hist|) * (1.0 - row[k].phvalue)
  {
    var p, x := Pow(1.0 - r, |hist|), row[k].phvalue;
    assert RowAfter(row, r, hist)[k].phvalue == Times(p, x) + (1.0 - p) by {
      hide Times;
      ClosedForm(row, r, hist, k);
      GainOfConstant(hist, row[k].neighbor, 1.0 - r);
    }
    hide Pow, RowAfter;
  }

  /** With r = 1 only the last reinforcement of a row shows: all the pheromone is on its link. */
  lemma LastReinforcementTakesAll(row: Row, hist: seq<nat>, k: nat)
    requires k < |row| && hist != []
    ensures RowAfter(row, 1.0, hist)[k]
         == Pheromone(row[k].neighbor, if row[k].neighbor == hist[|hist| - 1] then 1.0 else 0.0)
  {
    var n := |hist| - 1;
    assert hist == hist[..n] + [hist[n]];
    RowAfterAppend(row, 1.0, hist[..n], hist[n]);
    ClosedForm(row, 1.0, hist[..n], k);
    hide RowAfter, Closed;
  }

  /** The entry for `link` among n links, uniform at first and then reinforced as in `hist`: its value in
      closed form, and, for r < 1, a positive bound below which it cannot be. */
  ghost predicate InClosedForm(e: Pheromone, link: nat, n: nat, r: real, hist: seq<nat>)
    requires n > 0
  {
    var share, keep := 1.0 / n as real, 1.0 - r;
    && e.neighbor == link
    && e.phvalue == Pow(keep, |hist|) * share + r * Gain(hist, link, keep)
    && (r < 1.0 ==> e.phvalue >= Pow(keep, |hist|) * share > 0.0)
  }

  lemma FromUniform(nbrs: seq<nat>, r: real, hist: seq<nat>, k: nat)
    requires k < |nbrs| && r >= 0.0
    ensures InClosedForm(RowAfter(Uniform(nbrs), r, hist)[k], nbrs[k], |nbrs|, r, hist)
  {
    var share, p, g := 1.0 / |nbrs| as real, Pow(1.0 - r, |hist|), Gain(hist, nbrs[k], 1.0 - r);
    assert Uniform(nbrs)[k] == Pheromone(nbrs[k], share);
    ClosedForm(Uniform(nbrs), r, hist, k);
    if r < 1.0 {
      GainNonNegative(hist, nbrs[k], 1.0 - r);
      PowPositive(1.0 - r, |hist|);
      TimesPositive(p, share);
      TimesPositive(r, g);
    }
    hide Pow, Gain, RowAfter, Uniform;
  }

  /** With r < 1 no link of such a row ever runs dry. */
  lemma NoStarvation(nbrs: seq<nat>, r: real, hist: seq<nat>)
    requires 0.0 <= r < 1.0
    ensures forall k :: 0 <= k < |nbrs| ==> RowAfter(Uniform(nbrs), r, hist)[k].phvalue > 0.0
  {
    forall k | 0 <= k < |nbrs| ensures RowAfter(Uniform(nbrs), r, hist)[k].phvalue > 0.0 {
      FromUniform(nbrs, r, hist, k);
    }
  }
}
