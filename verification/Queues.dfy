/** The interface queue as a value: what DropTail and PriQueue do with packets, and what every run keeps. */
module Queues {
  import opened Ants

  datatype PacketType = DSR | MESSAGE | TORA | AODV | ANT | AOMDV | OTHER

  datatype Pkt = Pkt(ptype: PacketType, dir: Direction, size: nat, nextHop: nat)

  datatype Config = Config(qlim: int, dropFront: bool, inBytes: bool, meanPktSize: int, prefer: bool)

  /** Packets are named by their arrival number, so `arrived` plays the part of the packet memory. The queue,
      the packets handed to the link, the dropped ones and those taken out by `filter` are lists of names. */
  datatype QueueState = QueueState(arrived: seq<Pkt>, q: seq<nat>, sent: seq<nat>, dropped: seq<nat>,
                                   removed: seq<nat>, blocked: bool)

  const EMPTY_QUEUE := QueueState([], [], [], [], [], false)

  /** Which packets PriQueue::recv puts at the front. The case labels before PT_ANT fall through to its test
      of the direction; only AOMDV is preferred whatever its direction. */
  predicate Preferred(c: Config, p: Pkt) {
    c.prefer && (p.ptype == AOMDV || (p.ptype in {DSR, MESSAGE, TORA, AODV, ANT} && p.dir == Up))
  }

  predicate High(c: Config, arrived: seq<Pkt>, n: nat) {
    n < |arrived| && Preferred(c, arrived[n])
  }

  function SizeOf(arrived: seq<Pkt>, n: nat): nat {
    if n < |arrived| then arrived[n].size else 0
  }

  function Bytes(arrived: seq<Pkt>, q: seq<nat>): nat {
    if q == [] then 0 else Bytes(arrived, q[..|q| - 1]) + SizeOf(arrived, q[|q| - 1])
  }

  // ---- The operations ----

  /** Would the queue overflow with packet n? */
  predicate Overflows(c: Config, s: QueueState, n: nat) {
    if c.inBytes then Bytes(s.arrived, s.q) + SizeOf(s.arrived, n) >= c.qlim * c.meanPktSize
    else |s.q| + 1 >= c.qlim
  }

  function Enqueued(c: Config, s: QueueState, n: nat): QueueState {
    var longer := s.q + [n];
    if !Overflows(c, s, n) then s.(q := longer)
    else if c.dropFront then s.(q := longer[1..], dropped := s.dropped + [longer[0]])
    else s.(dropped := s.dropped + [n])
  }

  /** Unless blocked, take the head off the queue and hand it to the link. */
  function SendIfFree(s: QueueState): QueueState {
    if s.blocked || s.q == [] then s
    else s.(q := s.q[1..], sent := s.sent + [s.q[0]], blocked := true)
  }

  function EnqueuedHead(c: Config, s: QueueState, n: nat): QueueState {
    var longer := [n] + s.q;
    if |longer| >= c.qlim then s.(q := longer[..|longer| - 1], dropped := s.dropped + [longer[|longer| - 1]])
    else s.(q := longer)
  }

  function Received(c: Config, s: QueueState, p: Pkt): QueueState {
    var n, s' := |s.arrived|, s.(arrived := s.arrived + [p]);
    SendIfFree(if Preferred(c, p) then EnqueuedHead(c, s', n) else Enqueued(c, s', n))
  }

  /** The link is free again. */
  function Resumed(s: QueueState): QueueState {
    SendIfFree(s.(blocked := false))
  }

  function Select(arrived: seq<Pkt>, q: seq<nat>, f: Pkt -> bool, want: bool): seq<nat> {
    if q == [] then []
    else
      var n := q[|q| - 1];
      Select(arrived, q[..|q| - 1], f, want) + if n < |arrived| && f(arrived[n]) == want then [n] else []
  }

  function Filtered(s: QueueState, f: Pkt -> bool): QueueState {
    s.(q := Select(s.arrived, s.q, f, false), removed := s.removed + Select(s.arrived, s.q, f, true))
  }

  /** Position of the first packet for next hop `id`, or |q|. */
  function FirstFor(arrived: seq<Pkt>, q: seq<nat>, id: nat): (i: nat)
    ensures i <= |q|
    ensures i < |q| ==> q[i] < |arrived| && arrived[q[i]].nextHop == id
    ensures forall j :: 0 <= j < i && q[j] < |arrived| ==> arrived[q[j]].nextHop != id
  {
    if q == [] then 0
    else if q[0] < |arrived| && arrived[q[0]].nextHop == id then 0
    else 1 + FirstFor(arrived, q[1..], id)
  }

  function TakenFor(s: QueueState, id: nat): QueueState {
    var i := FirstFor(s.arrived, s.q, id);
    if i == |s.q| then s else s.(q := s.q[..i] + s.q[i + 1..], removed := s.removed + [s.q[i]])
  }

  function Terminated(s: QueueState): QueueState {
    s.(q := [], dropped := s.dropped + s.q)
  }

  datatype Event = Arrive(p: Pkt) | Resume | Filter(f: Pkt -> bool) | FilterFor(id: nat) | Terminate

  function Handle(c: Config, s: QueueState, e: Event): QueueState {
    match e
    case Arrive(p) => Received(c, s, p)
    case Resume => Resumed(s)
    case Filter(f) => Filtered(s, f)
    case FilterFor(id) => TakenFor(s, id)
    case Terminate => Terminated(s)
  }

  function After(c: Config, events: seq<Event>): QueueState {
    if events == [] then EMPTY_QUEUE else Handle(c, After(c, events[..|events| - 1]), events[|events| - 1])
  }

  // ---- The invariant ----

  /** The order of service: preferred packets first, the latest of them foremost; then the others as they came. */
  ghost predicate Before(c: Config, arrived: seq<Pkt>, a: nat, b: nat) {
    if High(c, arrived, a) then (High(c, arrived, b) ==> a > b) else (!High(c, arrived, b) && a < b)
  }

  ghost predicate InOrder(c: Config, arrived: seq<Pkt>, q: seq<nat>) {
    forall i, j :: 0 <= i < j < |q| ==> Before(c, arrived, q[i], q[j])
  }

  /** Ordinary packets have left in arrival order, ahead of all ordinary packets still queued. */
  ghost predicate Fifo(c: Config, s: QueueState) {
    && (forall i, j :: 0 <= i < j < |s.sent| && !High(c, s.arrived, s.sent[i]) && !High(c, s.arrived, s.sent[j])
          ==> s.sent[i] < s.sent[j])
    && (forall i, j :: 0 <= i < |s.sent| && 0 <= j < |s.q| && !High(c, s.arrived, s.sent[i]) && !High(c, s.arrived, s.q[j])
          ==> s.sent[i] < s.q[j])
  }

  ghost predicate AllBelow(q: seq<nat>, n: nat) {
    forall i :: 0 <= i < |q| ==> q[i] < n
  }

  ghost predicate OrderOk(c: Config, s: QueueState) {
    && AllBelow(s.q, |s.arrived|) && AllBelow(s.sent, |s.arrived|)
    && InOrder(c, s.arrived, s.q) && Fifo(c, s)
  }

  function UpTo(n: nat): (all: seq<nat>)
    ensures |all| == n
  {
    seq(n, i requires 0 <= i < n => i)
  }

  function Placed(s: QueueState): multiset<nat> {
    multiset(s.q) + multiset(s.sent) + multiset(s.dropped) + multiset(s.removed)
  }

  /** Every packet that arrived is in exactly one place, once. */
  ghost predicate Conserved(s: QueueState) {
    Placed(s) == multiset(UpTo(|s.arrived|))
  }

  ghost predicate Bounded(c: Config, s: QueueState) {
    !c.inBytes ==> |s.q| <= if c.qlim > 1 then c.qlim - 1 else 0
  }

  /** The link is idle only when nothing is queued, and busy only with a packet that was sent. */
  ghost predicate WorkConserving(s: QueueState) {
    (!s.blocked ==> s.q == []) && (s.blocked ==> s.sent != [])
  }

  ghost predicate QueueOk(c: Config, s: QueueState) {
    OrderOk(c, s) && Conserved(s) && Bounded(c, s) && WorkConserving(s)
  }

  // ---- Order ----

  /** A shorter queue with the same order among its packets. */
  lemma ShorterKeepsOrder(c: Config, s: QueueState, q': seq<nat>)
    requires OrderOk(c, s) && InOrder(c, s.arrived, q') && forall i :: 0 <= i < |q'| ==> q'[i] in s.q
    ensures OrderOk(c, s.(q := q'))
  {}

  lemma SliceKeepsOrder(c: Config, s: QueueState, lo: nat, hi: nat)
    requires OrderOk(c, s) && lo <= hi <= |s.q|
    ensures OrderOk(c, s.(q := s.q[lo..hi]))
  {
    var q' := s.q[lo..hi];
    forall i | 0 <= i < |q'| ensures q'[i] in s.q {
      assert q'[i] == s.q[lo + i];
    }
    ShorterKeepsOrder(c, s, q');
  }

  lemma ArrivalKeepsOrder(c: Config, s: QueueState, p: Pkt)
    requires OrderOk(c, s)
    ensures OrderOk(c, s.(arrived := s.arrived + [p]))
  {
    var longer := s.arrived + [p];
    assert forall m: nat :: m < |s.arrived| ==> High(c, longer, m) == High(c, s.arrived, m);
    forall i, j | 0 <= i < j < |s.q| ensures Before(c, longer, s.q[i], s.q[j]) {
      assert Before(c, s.arrived, s.q[i], s.q[j]);
    }
  }

  lemma AppendKeepsOrder(c: Config, s: QueueState, n: nat)
    requires OrderOk(c, s) && n < |s.arrived| && !High(c, s.arrived, n)
    requires AllBelow(s.q, n) && AllBelow(s.sent, n)
    ensures OrderOk(c, s.(q := s.q + [n]))
  {
    forall i, j | 0 <= i < j < |s.q + [n]| ensures Before(c, s.arrived, (s.q + [n])[i], (s.q + [n])[j]) {
      assert j < |s.q| ==> Before(c, s.arrived, s.q[i], s.q[j]);
    }
  }

  lemma PrependKeepsOrder(c: Config, s: QueueState, n: nat)
    requires OrderOk(c, s) && n < |s.arrived| && High(c, s.arrived, n)
    requires AllBelow(s.q, n)
    ensures OrderOk(c, s.(q := [n] + s.q))
  {
    forall i, j | 0 <= i < j < |[n] + s.q| ensures Before(c, s.arrived, ([n] + s.q)[i], ([n] + s.q)[j]) {
      assert i > 0 ==> Before(c, s.arrived, s.q[i - 1], s.q[j - 1]);
    }
  }

  lemma SendKeepsOrder(c: Config, s: QueueState)
    requires OrderOk(c, s)
    ensures OrderOk(c, SendIfFree(s))
  {
    if !s.blocked && s.q != [] {
      var head, rest := s.q[0], s.q[1..];
      SliceKeepsOrder(c, s, 1, |s.q|);
      forall j | 0 <= j < |rest| ensures Before(c, s.arrived, head, rest[j]) {
        assert Before(c, s.arrived, s.q[0], s.q[j + 1]);
      }
    }
  }

  lemma {:induction false} SelectKeepsOrder(c: Config, arrived: seq<Pkt>, q: seq<nat>, f: Pkt -> bool, want: bool)
    requires InOrder(c, arrived, q)
    ensures InOrder(c, arrived, Select(arrived, q, f, want))
    ensures forall i :: 0 <= i < |Select(arrived, q, f, want)| ==> Select(arrived, q, f, want)[i] in q
  {
    if q != [] {
      var k := |q| - 1;
      SelectKeepsOrder(c, arrived, q[..k], f, want);
      var kept := Select(arrived, q[..k], f, want);
      forall i | 0 <= i < |kept| ensures Before(c, arrived, kept[i], q[k]) {
        assert kept[i] in q[..k];
      }
    }
  }

  lemma ReceiveKeepsOrder(c: Config, s: QueueState, p: Pkt)
    requires OrderOk(c, s)
    ensures OrderOk(c, Received(c, s, p))
  {
    var n, s' := |s.arrived|, s.(arrived := s.arrived + [p]);
    ArrivalKeepsOrder(c, s, p);
    if Preferred(c, p) {
      PrependKeepsOrder(c, s', n);
      var longer := [n] + s.q;
      SliceKeepsOrder(c, s'.(q := longer), 0, |longer| - 1);
      assert longer[0..|longer| - 1] == longer[..|longer| - 1];
      SendKeepsOrder(c, EnqueuedHead(c, s', n));
    } else {
      AppendKeepsOrder(c, s', n);
      var longer := s.q + [n];
      SliceKeepsOrder(c, s'.(q := longer), 1, |longer|);
      SendKeepsOrder(c, Enqueued(c, s', n));
    }
  }

  lemma FilterKeepsOrder(c: Config, s: QueueState, f: Pkt -> bool)
    requires OrderOk(c, s)
    ensures OrderOk(c, Filtered(s, f))
  {
    SelectKeepsOrder(c, s.arrived, s.q, f, false);
    ShorterKeepsOrder(c, s, Select(s.arrived, s.q, f, false));
  }

  lemma TakeKeepsOrder(c: Config, s: QueueState, id: nat)
    requires OrderOk(c, s)
    ensures OrderOk(c, TakenFor(s, id))
  {
    var i := FirstFor(s.arrived, s.q, id);
    if i < |s.q| {
      var q' := s.q[..i] + s.q[i + 1..];
      forall k | 0 <= k < |q'| ensures q'[k] in s.q {
        assert q'[k] == s.q[if k < i then k else k + 1];
      }
      forall k, l | 0 <= k < l < |q'| ensures Before(c, s.arrived, q'[k], q'[l]) {
        assert Before(c, s.arrived, s.q[if k < i then k else k + 1], s.q[if l < i then l else l + 1]);
      }
      ShorterKeepsOrder(c, s, q');
    }
  }

  lemma TerminateKeepsOrder(c: Config, s: QueueState)
    requires OrderOk(c, s)
    ensures OrderOk(c, Terminated(s))
  {
    ShorterKeepsOrder(c, s, []);
  }

  lemma ResumeKeepsOrder(c: Config, s: QueueState)
    requires OrderOk(c, s)
    ensures OrderOk(c, Resumed(s))
  {
    SendKeepsOrder(c, s.(blocked := false));
  }

  lemma EventKeepsOrder(c: Config, s: QueueState, e: Event)
    requires OrderOk(c, s)
    ensures OrderOk(c, Handle(c, s, e))
  {
    hide OrderOk, Received, Resumed, Filtered, TakenFor, Terminated;
    match e {
      case Arrive(p) => ReceiveKeepsOrder(c, s, p);
      case Resume => ResumeKeepsOrder(c, s);
      case Filter(f) => FilterKeepsOrder(c, s, f);
      case FilterFor(id) => TakeKeepsOrder(c, s, id);
      case Terminate => TerminateKeepsOrder(c, s);
    }
  }

  // ---- Conservation ----

  lemma SendPlaces(s: QueueState)
    ensures Placed(SendIfFree(s)) == Placed(s) && SendIfFree(s).arrived == s.arrived
  {
    if !s.blocked && s.q != [] {
      assert s.q == [s.q[0]] + s.q[1..];
    }
  }

  lemma MultisetOfConcat(a: seq<nat>, b: seq<nat>)
    ensures multiset(a + b) == multiset(a) + multiset(b)
  {}

  /** Moving the packet at one end of the queue to the dropped ones loses nothing. */
  lemma DropPlaces(s: QueueState, kept: seq<nat>, victim: nat)
    requires s.q == [victim] + kept || s.q == kept + [victim]
    ensures Placed(s.(q := kept, dropped := s.dropped + [victim])) == Placed(s)
  {
    MultisetOfConcat([victim], kept);
    MultisetOfConcat(kept, [victim]);
    MultisetOfConcat(s.dropped, [victim]);
  }

  lemma EnqueuePlaces(c: Config, s: QueueState, n: nat)
    ensures Placed(Enqueued(c, s, n)) == Placed(s) + multiset([n]) && Enqueued(c, s, n).arrived == s.arrived
  {
    var longer := s.q + [n];
    assert Placed(s.(q := longer)) == Placed(s) + multiset([n]) by {
      MultisetOfConcat(s.q, [n]);
    }
    assert longer == [longer[0]] + longer[1..];
    hide Placed, Overflows;
    DropPlaces(s.(q := longer), longer[1..], longer[0]);
    DropPlaces(s.(q := longer), s.q, n);
  }

  lemma EnqueueHeadPlaces(c: Config, s: QueueState, n: nat)
    ensures Placed(EnqueuedHead(c, s, n)) == Placed(s) + multiset([n]) && EnqueuedHead(c, s, n).arrived == s.arrived
  {
    var longer := [n] + s.q;
    var k := |longer| - 1;
    assert Placed(s.(q := longer)) == Placed(s) + multiset([n]) by {
      MultisetOfConcat([n], s.q);
    }
    assert longer == longer[..k] + [longer[k]];
    hide Placed;
    DropPlaces(s.(q := longer), longer[..k], longer[k]);
  }

  lemma {:induction false} SelectSplits(arrived: seq<Pkt>, q: seq<nat>, f: Pkt -> bool)
    requires AllBelow(q, |arrived|)
    ensures multiset(Select(arrived, q, f, true)) + multiset(Select(arrived, q, f, false)) == multiset(q)
  {
    if q != [] {
      var k := |q| - 1;
      var rest := q[..k];
      SelectSplits(arrived, rest, f);
      assert q == rest + [q[k]];
      assert multiset(q) == multiset(rest) + multiset([q[k]]);
      var yes, no := Select(arrived, rest, f, true), Select(arrived, rest, f, false);
      if f(arrived[q[k]]) {
        assert Select(arrived, q, f, true) == yes + [q[k]] && Select(arrived, q, f, false) == no;
      } else {
        assert Select(arrived, q, f, true) == yes && Select(arrived, q, f, false) == no + [q[k]];
      }
    }
  }

  lemma {:induction false} SelectNotLonger(arrived: seq<Pkt>, q: seq<nat>, f: Pkt -> bool, want: bool)
    ensures |Select(arrived, q, f, want)| <= |q|
  {
    if q != [] {
      SelectNotLonger(arrived, q[..|q| - 1], f, want);
    }
  }

  lemma ArrivalPlaces(c: Config, s: QueueState, p: Pkt)
    requires Conserved(s)
    ensures Conserved(Received(c, s, p))
  {
    var n: nat := |s.arrived|;
    var s' := s.(arrived := s.arrived + [p]);
    assert Placed(s') == Placed(s);
    hide Placed, Enqueued, EnqueuedHead, SendIfFree, UpTo;
    EnqueuePlaces(c, s', n);
    EnqueueHeadPlaces(c, s', n);
    SendPlaces(if Preferred(c, p) then EnqueuedHead(c, s', n) else Enqueued(c, s', n));
    UpToGrows(n);
  }

  lemma UpToGrows(n: nat)
    ensures multiset(UpTo(n + 1)) == multiset(UpTo(n)) + multiset([n])
  {
    assert UpTo(n + 1) == UpTo(n) + [n];
  }

  lemma FilterPlaces(s: QueueState, f: Pkt -> bool)
    requires AllBelow(s.q, |s.arrived|)
    ensures Placed(Filtered(s, f)) == Placed(s)
  {
    SelectSplits(s.arrived, s.q, f);
    var out := Select(s.arrived, s.q, f, true);
    assert multiset(s.removed + out) == multiset(s.removed) + multiset(out);
    hide Select;
  }

  lemma TakePlaces(s: QueueState, id: nat)
    ensures Placed(TakenFor(s, id)) == Placed(s)
  {
    var i := FirstFor(s.arrived, s.q, id);
    if i < |s.q| {
      var rest := s.q[..i] + s.q[i + 1..];
      assert s.q == s.q[..i] + [s.q[i]] + s.q[i + 1..];
      assert multiset(s.q) == multiset(s.q[..i]) + multiset([s.q[i]]) + multiset(s.q[i + 1..]);
      assert multiset(rest) == multiset(s.q[..i]) + multiset(s.q[i + 1..]);
      assert TakenFor(s, id) == s.(q := rest, removed := s.removed + [s.q[i]]);
    }
  }

  lemma EventConserves(c: Config, s: QueueState, e: Event)
    requires Conserved(s) && AllBelow(s.q, |s.arrived|)
    ensures Conserved(Handle(c, s, e))
  {
    match e {
      case Arrive(p) =>
        ArrivalPlaces(c, s, p);
        hide Conserved, Received;
      case Resume => SendPlaces(s.(blocked := false));
      case Filter(f) =>
        FilterPlaces(s, f);
        hide Placed;
      case FilterFor(id) =>
        TakePlaces(s, id);
        hide Placed;
      case Terminate =>
    }
  }

  lemma EventBounded(c: Config, s: QueueState, e: Event)
    requires Bounded(c, s)
    ensures Bounded(c, Handle(c, s, e))
  {
    if e.Filter? {
      SelectNotLonger(s.arrived, s.q, e.f, false);
    }
  }

  lemma SendsWhenFree(s: QueueState)
    requires s.blocked ==> s.sent != []
    ensures WorkConserving(SendIfFree(s))
  {}

  lemma EventConservesWork(c: Config, s: QueueState, e: Event)
    requires WorkConserving(s)
    ensures WorkConserving(Handle(c, s, e))
  {
    match e {
      case Arrive(p) =>
        var s' := s.(arrived := s.arrived + [p]);
        SendsWhenFree(EnqueuedHead(c, s', |s.arrived|));
        SendsWhenFree(Enqueued(c, s', |s.arrived|));
        hide SendIfFree, Preferred, Overflows;
      case Resume => SendsWhenFree(s.(blocked := false));
      case Filter(f) => SelectNotLonger(s.arrived, s.q, f, false);
      case FilterFor(id) =>
      case Terminate =>
    }
  }

  /** In every run: the queue stands in service order, ordinary packets leave in arrival order, every packet is in
      exactly one place, counting packets the length stays below the limit, and the link is never idle while
      something is queued. */
  lemma {:induction false} EveryQueueRun(c: Config, events: seq<Event>)
    ensures QueueOk(c, After(c, events))
  {
    if events != [] {
      EveryQueueRun(c, events[..|events| - 1]);
      var s, e := After(c, events[..|events| - 1]), events[|events| - 1];
      EventKeepsOrder(c, s, e);
      EventConserves(c, s, e);
      EventBounded(c, s, e);
      EventConservesWork(c, s, e);
    }
  }

  // ---- Consequences ----

  function Highs(c: Config, arrived: seq<Pkt>, q: seq<nat>): nat {
    if q != [] && High(c, arrived, q[0]) then 1 + Highs(c, arrived, q[1..]) else 0
  }

  lemma {:induction false} HighsLead(c: Config, arrived: seq<Pkt>, q: seq<nat>)
    requires InOrder(c, arrived, q)
    ensures Highs(c, arrived, q) <= |q|
    ensures forall i :: 0 <= i < |q| ==> (High(c, arrived, q[i]) <==> i < Highs(c, arrived, q))
  {
    if q != [] && High(c, arrived, q[0]) {
      forall i, j | 0 <= i < j < |q[1..]| ensures Before(c, arrived, q[1..][i], q[1..][j]) {
        assert Before(c, arrived, q[i + 1], q[j + 1]);
      }
      HighsLead(c, arrived, q[1..]);
      assert forall i :: 1 <= i < |q| ==> q[i] == q[1..][i - 1];
    }
  }

  /** In every run the queue is H ++ L: preferred packets, most recent first, then the others in arrival order. */
  lemma QueueShape(c: Config, events: seq<Event>)
    ensures var s := After(c, events);
            var h := Highs(c, s.arrived, s.q);
            && h <= |s.q|
            && (forall i :: 0 <= i < |s.q| ==> (High(c, s.arrived, s.q[i]) <==> i < h))
            && (forall i, j :: 0 <= i < j < h ==> s.q[i] > s.q[j])
            && (forall i, j :: h <= i < j < |s.q| ==> s.q[i] < s.q[j])
  {
    EveryQueueRun(c, events);
    var s := After(c, events);
    HighsLead(c, s.arrived, s.q);
  }

  lemma LastIsOrdinaryIfAny(c: Config, arrived: seq<Pkt>, q: seq<nat>)
    requires InOrder(c, arrived, q) && q != [] && High(c, arrived, q[|q| - 1])
    ensures forall i :: 0 <= i < |q| ==> High(c, arrived, q[i])
  {
    forall i | 0 <= i < |q| - 1 ensures High(c, arrived, q[i]) {
      assert Before(c, arrived, q[i], q[|q| - 1]);
    }
  }

  /** A preferred arrival evicts a preferred packet only when nothing ordinary is queued. */
  lemma EvictsOrdinaryFirst(c: Config, events: seq<Event>, p: Pkt)
    requires Preferred(c, p)
    ensures var s := After(c, events);
            var s' := s.(arrived := s.arrived + [p]);
            var t := EnqueuedHead(c, s', |s.arrived|);
            |t.dropped| > |s.dropped| && High(c, s'.arrived, t.dropped[|s.dropped|]) ==>
              forall i :: 0 <= i < |s.q| ==> High(c, s.arrived, s.q[i])
  {
    EveryQueueRun(c, events);
    var s := After(c, events);
    hide After;
    EvictsOrdinaryFirstAt(c, s, p);
  }

  lemma EvictsOrdinaryFirstAt(c: Config, s: QueueState, p: Pkt)
    requires OrderOk(c, s)
    ensures var s' := s.(arrived := s.arrived + [p]);
            var t := EnqueuedHead(c, s', |s.arrived|);
            |t.dropped| > |s.dropped| && High(c, s'.arrived, t.dropped[|s.dropped|]) ==>
              forall i :: 0 <= i < |s.q| ==> High(c, s.arrived, s.q[i])
  {
    if s.q != [] && High(c, s.arrived, s.q[|s.q| - 1]) {
      LastIsOrdinaryIfAny(c, s.arrived, s.q);
    }
  }

  ghost predicate OldestOf(q: seq<nat>, n: nat) {
    n in q && forall i :: 0 <= i < |q| ==> n <= q[i]
  }

  /** n is the most recent of the preferred packets in q. */
  ghost predicate NewestHigh(c: Config, arrived: seq<Pkt>, q: seq<nat>, n: nat) {
    n in q && High(c, arrived, n) && forall i :: 0 <= i < |q| && High(c, arrived, q[i]) ==> q[i] <= n
  }

  lemma WhatHeadDropTakesAt(c: Config, s: QueueState, p: Pkt)
    requires OrderOk(c, s) && !Preferred(c, p) && c.dropFront
    ensures var n, s' := |s.arrived|, s.(arrived := s.arrived + [p]);
            var t := Enqueued(c, s', n);
            Overflows(c, s', n) ==>
              && |t.dropped| == |s.dropped| + 1
              && var d := t.dropped[|s.dropped|];
              if exists i :: 0 <= i < |s.q| && High(c, s.arrived, s.q[i]) then NewestHigh(c, s.arrived, s.q, d)
              else OldestOf(s.q + [n], d)
  {
    if s.q != [] {
      assert forall j :: 0 < j < |s.q| ==> Before(c, s.arrived, s.q[0], s.q[j]);
    }
  }

  /** What an ordinary arrival costs a queue that is full. Without drop_front_ it is dropped itself. With it, the
      oldest packet goes as long as no preferred packet is queued; but if one is, then the most recent of the
      preferred packets goes, because those stand at the front. */
  lemma WhatOverflowDrops(c: Config, events: seq<Event>, p: Pkt)
    requires !Preferred(c, p)
    ensures var s, n := After(c, events), |After(c, events).arrived|;
            var s' := s.(arrived := s.arrived + [p]);
            var t := Enqueued(c, s', n);
            Overflows(c, s', n) ==>
              && |t.dropped| == |s.dropped| + 1
              && var d := t.dropped[|s.dropped|];
              if !c.dropFront then d == n && t.q == s.q
              else if exists i :: 0 <= i < |s.q| && High(c, s.arrived, s.q[i]) then NewestHigh(c, s.arrived, s.q, d)
              else OldestOf(s.q + [n], d)
  {
    EveryQueueRun(c, events);
    var s := After(c, events);
    hide After, Conserved, Bounded, WorkConserving;
    if c.dropFront {
      WhatHeadDropTakesAt(c, s, p);
    }
  }

  // ---- Each event, exactly ----

  /** Between s and t the queue took on `line`, dropped `lost`, and sent the head of what was left if the link was
      idle and anything was left. */
  ghost predicate Serves(s: QueueState, t: QueueState, left: seq<nat>, lost: seq<nat>) {
    && t.dropped == s.dropped + lost && t.removed == s.removed
    && if s.blocked || left == [] then t.q == left && t.sent == s.sent && t.blocked == s.blocked
       else t.q == left[1..] && t.sent == s.sent + [left[0]] && t.blocked
  }

  lemma {:induction false} BytesOfOld(arrived: seq<Pkt>, p: Pkt, q: seq<nat>)
    requires AllBelow(q, |arrived|)
    ensures Bytes(arrived + [p], q) == Bytes(arrived, q)
  {
    if q != [] {
      BytesOfOld(arrived, p, q[..|q| - 1]);
    }
  }

  /** Bytes is the sum of the sizes. */
  lemma {:induction false} BytesAddUp(arrived: seq<Pkt>, a: seq<nat>, b: seq<nat>)
    ensures Bytes(arrived, a + b) == Bytes(arrived, a) + Bytes(arrived, b)
    ensures |b| == 1 && b[0] < |arrived| ==> Bytes(arrived, b) == arrived[b[0]].size
  {
    if b == [] {
      assert a + b == a;
    } else {
      BytesAddUp(arrived, a, b[..|b| - 1]);
      assert (a + b)[..|a + b| - 1] == a + b[..|b| - 1];
    }
  }

  /** Is there no room for p? A preferred packet only counts packets. */
  predicate NoRoomFor(c: Config, s: QueueState, p: Pkt) {
    if c.inBytes && !Preferred(c, p) then Bytes(s.arrived, s.q) + p.size >= c.qlim * c.meanPktSize
    else |s.q| + 1 >= c.qlim
  }

  lemma ServesWhenFree(s: QueueState, mid: QueueState, left: seq<nat>, lost: seq<nat>)
    requires mid.q == left && mid.dropped == s.dropped + lost
    requires mid.sent == s.sent && mid.removed == s.removed && mid.blocked == s.blocked
    ensures Serves(s, SendIfFree(mid), left, lost) && SendIfFree(mid).arrived == mid.arrived
  {}

  /** A preferred packet joins at the front, any other at the back. Exactly if there is no room, one packet is lost: the
      last, or the first for an ordinary arrival under drop_front_. Then an idle link takes the head. */
  ghost predicate Takes(c: Config, s: QueueState, p: Pkt, t: QueueState) {
    var n, front := |s.arrived|, c.dropFront && !Preferred(c, p);
    var line := if Preferred(c, p) then [n] + s.q else s.q + [n];
    && t.arrived == s.arrived + [p]
    && if !NoRoomFor(c, s, p) then Serves(s, t, line, [])
       else if front then Serves(s, t, line[1..], [line[0]])
       else Serves(s, t, line[..|line| - 1], [line[|line| - 1]])
  }

  lemma PreferredTakes(c: Config, s: QueueState, p: Pkt)
    requires Preferred(c, p)
    ensures Takes(c, s, p, Received(c, s, p))
  {
    var n, s', line := |s.arrived|, s.(arrived := s.arrived + [p]), [|s.arrived|] + s.q;
    var mid := EnqueuedHead(c, s', n);
    hide SendIfFree, Serves, Preferred;
    if NoRoomFor(c, s, p) {
      ServesWhenFree(s, mid, line[..|line| - 1], [line[|line| - 1]]);
    } else {
      assert s.dropped + [] == s.dropped;
      ServesWhenFree(s, mid, line, []);
    }
  }

  lemma OrdinaryTakes(c: Config, s: QueueState, p: Pkt)
    requires !Preferred(c, p) && AllBelow(s.q, |s.arrived|)
    ensures Takes(c, s, p, Received(c, s, p))
  {
    var n, s', line := |s.arrived|, s.(arrived := s.arrived + [p]), s.q + [|s.arrived|];
    var mid := Enqueued(c, s', n);
    BytesOfOld(s.arrived, p, s.q);
    assert Overflows(c, s', n) == NoRoomFor(c, s, p);
    hide SendIfFree, Serves, Preferred, Overflows, NoRoomFor, Bytes;
    if !NoRoomFor(c, s, p) {
      assert s.dropped + [] == s.dropped;
      ServesWhenFree(s, mid, line, []);
    } else if c.dropFront {
      ServesWhenFree(s, mid, line[1..], [line[0]]);
    } else {
      assert line[..|line| - 1] == s.q;
      ServesWhenFree(s, mid, s.q, [n]);
    }
  }

  /** What an arrival does in any run. */
  lemma ArrivalExactly(c: Config, events: seq<Event>, p: Pkt)
    ensures Takes(c, After(c, events), p, After(c, events + [Arrive(p)]))
  {
    AfterOneMore(c, events, Arrive(p));
    EveryQueueRun(c, events);
    hide After, Conserved, Bounded, WorkConserving, Takes, Received, Preferred;
    if Preferred(c, p) {
      PreferredTakes(c, After(c, events), p);
    } else {
      OrdinaryTakes(c, After(c, events), p);
    }
  }

  lemma AfterOneMore(c: Config, events: seq<Event>, e: Event)
    ensures After(c, events + [e]) == Handle(c, After(c, events), e)
  {
    assert (events + [e])[..|events|] == events;
  }

  /** When the link is free again it takes the head of the queue if there is one, and is idle otherwise. */
  lemma ResumeExactly(c: Config, events: seq<Event>)
    ensures var s, t := After(c, events), After(c, events + [Resume]);
            && t.arrived == s.arrived && t.dropped == s.dropped && t.removed == s.removed
            && t.sent + t.q == s.sent + s.q && |t.sent| == |s.sent| + (if s.q == [] then 0 else 1)
            && t.blocked == (s.q != [])
  {
    AfterOneMore(c, events, Resume);
    hide After;
  }

  /** At the end of the simulation the queue is emptied, and its packets count as dropped in queue order. */
  lemma TerminateExactly(c: Config, events: seq<Event>)
    ensures var s, t := After(c, events), After(c, events + [Terminate]);
            t == s.(q := [], dropped := t.dropped) && t.dropped == s.dropped + s.q
  {
    AfterOneMore(c, events, Terminate);
    hide After;
  }

  lemma {:induction false} SelectExactly(arrived: seq<Pkt>, q: seq<nat>, f: Pkt -> bool, want: bool, n: nat)
    requires AllBelow(q, |arrived|)
    ensures n in Select(arrived, q, f, want) <==> n in q && f(arrived[n]) == want
  {
    if q != [] {
      var k := |q| - 1;
      SelectExactly(arrived, q[..k], f, want, n);
      assert q == q[..k] + [q[k]];
    }
  }

  /** filter takes out exactly the packets that its predicate accepts, and touches no others. */
  lemma FilterExactly(c: Config, events: seq<Event>, f: Pkt -> bool, n: nat)
    requires n < |After(c, events).arrived|
    ensures var s, t := After(c, events), After(c, events + [Filter(f)]);
            && t.arrived == s.arrived && t.sent == s.sent && t.dropped == s.dropped && t.blocked == s.blocked
            && (n in t.q <==> n in s.q && !f(s.arrived[n]))
            && s.removed <= t.removed && (n in t.removed[|s.removed|..] <==> n in s.q && f(s.arrived[n]))
  {
    var s := After(c, events);
    AfterOneMore(c, events, Filter(f));
    EveryQueueRun(c, events);
    SelectExactly(s.arrived, s.q, f, false, n);
    SelectExactly(s.arrived, s.q, f, true, n);
    hide After, Select;
  }

  /** An ant is preferred exactly on its way back; AOMDV packets always; all this only if the queue prefers routing
      protocols, and never any other packet. */
  lemma WhoIsPreferred(c: Config, p: Pkt)
    ensures p.ptype == ANT ==> (Preferred(c, p) <==> c.prefer && p.dir == Up)
    ensures p.ptype == AOMDV ==> (Preferred(c, p) <==> c.prefer)
    ensures p.ptype != OTHER && p.ptype != AOMDV ==> (Preferred(c, p) <==> c.prefer && p.dir == Up)
    ensures p.ptype == OTHER ==> !Preferred(c, p)
  {}

  /** Without preference the queue is plain first in, first out: sent and queued packets together stand in the order in
      which they came. */
  lemma PlainFifo(c: Config, events: seq<Event>)
    requires !c.prefer
    ensures var s := After(c, events);
            var all := s.sent + s.q;
            forall i, j :: 0 <= i < j < |all| ==> all[i] < all[j]
  {
    EveryQueueRun(c, events);
    var s := After(c, events);
    hide After, Conserved, Bounded, WorkConserving;
    forall i, j | 0 <= i < j < |s.q| ensures s.q[i] < s.q[j] {
      assert Before(c, s.arrived, s.q[i], s.q[j]);
    }
  }
}
