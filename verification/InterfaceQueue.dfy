/** PriQueue on top of DropTail (queue/priqueue.cc, queue/drop-tail.cc), changing the queue in place. */
module InterfaceQueue {
  import opened Ants
  import opened Wrappers
  import opened Queues

  /** Within the packet or byte limit. */
  predicate Fits(c: Config, arrived: seq<Pkt>, q: seq<nat>) {
    if c.inBytes then Bytes(arrived, q) <= c.qlim * c.meanPktSize else |q| <= c.qlim
  }

  function Reverse(q: seq<nat>): seq<nat> {
    if q == [] then [] else [q[|q| - 1]] + Reverse(q[..|q| - 1])
  }

  /** q' is the longest prefix of q that fits. */
  ghost predicate LongestPrefix(c: Config, arrived: seq<Pkt>, q: seq<nat>, q': seq<nat>) {
    q' <= q && Fits(c, arrived, q') && forall j :: |q'| < j <= |q| ==> !Fits(c, arrived, q[..j])
  }

  /** q' is the longest suffix of q that fits. */
  ghost predicate LongestSuffix(c: Config, arrived: seq<Pkt>, q: seq<nat>, q': seq<nat>) {
    && |q'| <= |q| && q' == q[|q| - |q'|..] && Fits(c, arrived, q')
    && forall j :: 0 <= j < |q| - |q'| ==> !Fits(c, arrived, q[j..])
  }

  /** What shrink_queue leaves, for both ways of counting. */
  lemma LongestPrefixExactly(c: Config, arrived: seq<Pkt>, q: seq<nat>, q': seq<nat>)
    requires c.qlim >= 0 && LongestPrefix(c, arrived, q, q')
    ensures !c.inBytes ==> q' == if |q| <= c.qlim then q else q[..c.qlim]
    ensures c.inBytes ==> Bytes(arrived, q') <= c.qlim * c.meanPktSize
    ensures c.inBytes && |q'| < |q| ==> Bytes(arrived, q[..|q'| + 1]) > c.qlim * c.meanPktSize
  {
    if |q'| < |q| {
      assert !Fits(c, arrived, q[..|q'| + 1]);
    } else {
      assert q' == q;
    }
    hide Bytes;
  }

  lemma LongestSuffixExactly(c: Config, arrived: seq<Pkt>, q: seq<nat>, q': seq<nat>)
    requires c.qlim >= 0 && LongestSuffix(c, arrived, q, q')
    ensures !c.inBytes ==> q' == if |q| <= c.qlim then q else q[|q| - c.qlim..]
    ensures c.inBytes ==> Bytes(arrived, q') <= c.qlim * c.meanPktSize
    ensures c.inBytes && |q'| < |q| ==> Bytes(arrived, q[|q| - |q'| - 1..]) > c.qlim * c.meanPktSize
  {
    if |q'| < |q| {
      assert !Fits(c, arrived, q[|q| - |q'| - 1..]);
    } else {
      assert q' == q;
    }
    hide Bytes;
  }

  class PriQueue {
    var config: Config
    var arrived: seq<Pkt>
    var q: seq<nat>
    var sent: seq<nat>
    var dropped: seq<nat>
    var removed: seq<nat>
    var blocked: bool

    // The packets that filter has asked its predicate about, in order.
    ghost var tested: seq<nat>

    ghost function Value(): QueueState
      reads this
    {
      QueueState(arrived, q, sent, dropped, removed, blocked)
    }

    constructor (config: Config)
      ensures this.config == config && Value() == EMPTY_QUEUE
    {
      this.config := config;
      arrived, q, sent, dropped, removed, blocked, tested := [], [], [], [], [], false, [];
    }

    method Drop(n: nat)
      modifies this`dropped
      ensures dropped == old(dropped) + [n]
    {
      dropped := dropped + [n];
    }

    method Enque(n: nat)
      requires n < |arrived|
      modifies this`q, this`dropped
      ensures Value() == Enqueued(config, old(Value()), n)
    {
      var qlimBytes := config.qlim * config.meanPktSize;
      if (!config.inBytes && |q| + 1 >= config.qlim)
         || (config.inBytes && Bytes(arrived, q) + arrived[n].size >= qlimBytes) {
        if config.dropFront {
          q := q + [n];
          var head := q[0];
          q := q[1..];
          Drop(head);
        } else {
          Drop(n);
        }
      } else {
        q := q + [n];
      }
    }

    method Deque() returns (p: Option<nat>)
      modifies this`q
      ensures p == if old(q) == [] then None else Some(old(q)[0])
      ensures q == if old(q) == [] then [] else old(q)[1..]
    {
      if q == [] {
        return None;
      }
      p := Some(q[0]);
      q := q[1..];
    }

    /** PacketQueue::remove, for the packet at position i. */
    method RemoveAt(i: nat)
      requires i < |q|
      modifies this`q
      ensures q == old(q)[..i] + old(q)[i + 1..]
    {
      q := q[..i] + q[i + 1..];
    }

    method GetLength() returns (n: nat)
      ensures n == |q|
    {
      n := |q|;
    }

    /** Shared tail of Queue::recv and recvHighPriority: unless blocked, send the head of the queue. */
    method SendNext()
      modifies this`q, this`sent, this`blocked
      ensures Value() == SendIfFree(old(Value()))
    {
      if !blocked {
        var p := Deque();
        if p.Some? {
          blocked := true;
          sent := sent + [p.value];
        }
      }
    }

    method RecvHighPriority(n: nat)
      modifies this`q, this`dropped, this`sent, this`blocked
      ensures Value() == SendIfFree(EnqueuedHead(config, old(Value()), n))
    {
      q := [n] + q;
      if |q| >= config.qlim {
        var toDrop := q[|q| - 1];
        q := q[..|q| - 1];
        Drop(toDrop);
      }
      SendNext();
    }

    /** Queue::recv as ns-2 defines it: enque, then send when not blocked. */
    method QueueRecv(n: nat)
      requires n < |arrived|
      modifies this`q, this`dropped, this`sent, this`blocked
      ensures Value() == SendIfFree(Enqueued(config, old(Value()), n))
    {
      Enque(n);
      SendNext();
    }

    method Recv(p: Pkt)
      modifies this`arrived, this`q, this`dropped, this`sent, this`blocked
      ensures Value() == Received(config, old(Value()), p)
    {
      var n := |arrived|;
      arrived := arrived + [p];
      if config.prefer {
        match p.ptype {
          case DSR | MESSAGE | TORA | AODV | ANT =>
            if p.dir == Up {
              RecvHighPriority(n);
            } else {
              QueueRecv(n);
            }
          case AOMDV =>
            RecvHighPriority(n);
          case OTHER =>
            QueueRecv(n);
        }
      } else {
        QueueRecv(n);
      }
    }

    /** The callback from the link: ready for the next packet. */
    method Resume()
      modifies this`q, this`sent, this`blocked
      ensures Value() == Resumed(old(Value()))
    {
      blocked := false;
      SendNext();
    }

    /** What filter has done after testing `seen` packets of the queue `was`; it stands at position i. */
    ghost predicate Sifted(was: seq<nat>, gone: seq<nat>, seen: nat, i: nat, f: Pkt -> bool)
      reads this
    {
      && seen <= |was| && AllBelow(was, |arrived|)
      && var kept := Select(arrived, was[..seen], f, false);
      && q == kept + was[seen..] && i == |kept|
      && removed == gone + Select(arrived, was[..seen], f, true)
    }

    lemma SiftedStart(f: Pkt -> bool)
      requires AllBelow(q, |arrived|)
      ensures Sifted(q, removed, 0, 0, f)
    {
      assert q[..0] == [];
    }

    lemma SiftedEnd(was: seq<nat>, gone: seq<nat>, seen: nat, i: nat, f: Pkt -> bool)
      requires Sifted(was, gone, seen, i, f) && i >= |q|
      ensures seen == |was|
      ensures q == Select(arrived, was, f, false) && removed == gone + Select(arrived, was, f, true)
    {
      assert was[..seen] == was;
    }

    lemma SiftedMore(was: seq<nat>, gone: seq<nat>, seen: nat, i: nat, f: Pkt -> bool)
      requires Sifted(was, gone, seen, i, f) && i < |q|
      ensures seen < |was|
    {}

    lemma SiftedHead(was: seq<nat>, gone: seq<nat>, seen: nat, i: nat, f: Pkt -> bool)
      requires Sifted(was, gone, seen, i, f) && seen < |was|
      ensures i < |q| && q[i] == was[seen] < |arrived|
      ensures !f(arrived[q[i]]) ==> Sifted(was, gone, seen + 1, i + 1, f)
    {
      SelectNext(arrived, was, seen, f);
      hide Select;
    }

    method TakeOut(i: nat, ghost was: seq<nat>, ghost gone: seq<nat>, ghost seen: nat, f: Pkt -> bool)
      requires Sifted(was, gone, seen, i, f) && seen < |was| && i < |q| && q[i] == was[seen] && f(arrived[q[i]])
      modifies this`q, this`removed
      ensures Sifted(was, gone, seen + 1, i, f)
    {
      SelectNext(arrived, was, seen, f);
      hide Select;
      var p := q[i];
      RemoveAt(i);
      removed := removed + [p];
    }

    /** The first `seen` packets of the queue `was` have been tested, in order and once each. */
    ghost predicate TestedUpTo(was: seq<nat>, before: seq<nat>, seen: nat)
      reads this`tested
    {
      seen <= |was| && tested == before + was[..seen]
    }

    lemma TestedNone(was: seq<nat>)
      ensures TestedUpTo(was, tested, 0)
    {}

    lemma TestedAll(was: seq<nat>, before: seq<nat>, seen: nat)
      requires TestedUpTo(was, before, seen) && seen >= |was|
      ensures tested == before + was
    {
      assert was[..seen] == was;
    }

    /** One call of the filter's predicate. */
    method Test(n: nat, f: Pkt -> bool, ghost was: seq<nat>, ghost before: seq<nat>, ghost seen: nat)
      returns (hit: bool)
      requires n < |arrived| && seen < |was| && n == was[seen] && TestedUpTo(was, before, seen)
      modifies this`tested
      ensures hit == f(arrived[n]) && TestedUpTo(was, before, seen + 1)
    {
      tested := tested + [n];
      hit := f(arrived[n]);
    }

    /** The in-place loop of filter(PacketFilter). */
    method Sift(f: Pkt -> bool)
      requires AllBelow(q, |arrived|)
      modifies this`q, this`removed, this`tested
      ensures q == Select(arrived, old(q), f, false) && removed == old(removed) + Select(arrived, old(q), f, true)
      ensures tested == old(tested) + old(q)
    {
      ghost var was, gone, before, seen := q, removed, tested, 0;
      SiftedStart(f);
      TestedNone(was);
      hide *;
      var i := 0;
      while i < |q|
        invariant Sifted(was, gone, seen, i, f) && seen <= |was| && TestedUpTo(was, before, seen)
        decreases |was| - seen
      {
        SiftedMore(was, gone, seen, i, f);
        SiftedHead(was, gone, seen, i, f);
        var hit := Test(q[i], f, was, before, seen);
        if hit {
          TakeOut(i, was, gone, seen, f);
        } else {
          i := i + 1;
        }
        seen := seen + 1;
      }
      SiftedEnd(was, gone, seen, i, f);
      TestedAll(was, before, seen);
    }

    /** filter(PacketFilter): each packet is tested once, in queue order. */
    method Filter(f: Pkt -> bool)
      requires AllBelow(q, |arrived|)
      modifies this`q, this`removed, this`tested
      ensures Value() == Filtered(old(Value()), f)
      ensures tested == old(tested) + old(q)
    {
      Sift(f);
    }

    /** filter(nsaddr_t): takes out the first packet for next hop `id`, if any. */
    method FilterFor(id: nat) returns (p: Option<nat>)
      requires AllBelow(q, |arrived|)
      modifies this`q, this`removed
      ensures Value() == TakenFor(old(Value()), id)
      ensures p.Some? <==> exists i :: 0 <= i < |old(q)| && arrived[old(q)[i]].nextHop == id
      ensures p.Some? ==> removed == old(removed) + [p.value]
    {
      var i := 0;
      while i < |q|
        invariant i <= |q|
        invariant forall j :: 0 <= j < i ==> arrived[q[j]].nextHop != id
      {
        if arrived[q[i]].nextHop == id {
          p := Some(q[i]);
          RemoveAt(i);
          removed := removed + [p.value];
          return;
        }
        i := i + 1;
      }
      p := None;
    }

    /** Purges the queue at the end of the simulation. */
    method Terminate()
      modifies this`q, this`dropped
      ensures Value() == Terminated(old(Value()))
    {
      var p := Deque();
      while p.Some?
        invariant dropped + (if p.Some? then [p.value] else []) + q == old(dropped + q)
        invariant p.None? ==> q == []
        decreases |q| + if p.Some? then 1 else 0
      {
        Drop(p.value);
        p := Deque();
      }
    }

    /** What shrink_queue has done so far, dropping from the tail. */
    ghost predicate TailCut(was: seq<nat>, gone: seq<nat>)
      reads this
    {
      && |q| <= |was| && q == was[..|q|] && dropped == gone + Reverse(was[|q|..])
      && forall j :: |q| < j <= |was| ==> !Fits(config, arrived, was[..j])
    }

    /** What shrink_queue has done so far, dropping from the front. */
    ghost predicate FrontCut(was: seq<nat>, gone: seq<nat>)
      reads this
    {
      && |q| <= |was| && q == was[|was| - |q|..] && dropped == gone + was[..|was| - |q|]
      && forall j :: 0 <= j < |was| - |q| ==> !Fits(config, arrived, was[j..])
    }

    method DropHead(ghost was: seq<nat>, ghost gone: seq<nat>)
      requires q != [] && !Fits(config, arrived, q) && FrontCut(was, gone)
      modifies this`q, this`dropped
      ensures |q| == |old(q)| - 1 && FrontCut(was, gone)
    {
      hide Fits;
      var head := Deque();
      Drop(head.value);
      assert was[..|was| - |q|] == was[..|was| - |q| - 1] + [head.value];
    }

    method DropTail(ghost was: seq<nat>, ghost gone: seq<nat>)
      requires q != [] && !Fits(config, arrived, q) && TailCut(was, gone)
      modifies this`q, this`dropped
      ensures |q| == |old(q)| - 1 && TailCut(was, gone)
    {
      hide Fits;
      var last := q[|q| - 1];
      ReverseGrows(last, was[|q|..]);
      assert was[|q| - 1..] == [last] + was[|q|..];
      hide Reverse;
      RemoveAt(|q| - 1);
      Drop(last);
    }

    /** After a smaller limit: drops from the configured end until the queue fits, and not further. */
    method ShrinkQueue()
      requires config.qlim >= 0 && config.meanPktSize >= 0
      modifies this`q, this`dropped
      ensures !config.dropFront ==> LongestPrefix(config, arrived, old(q), q)
      ensures !config.dropFront ==> dropped == old(dropped) + Reverse(old(q)[|q|..])
      ensures config.dropFront ==> LongestSuffix(config, arrived, old(q), q)
      ensures config.dropFront ==> dropped == old(dropped) + old(q)[..|old(q)| - |q|]
    {
      ghost var was, gone := q, dropped;
      while !Fits(config, arrived, q)
        invariant if config.dropFront then FrontCut(was, gone) else TailCut(was, gone)
        decreases |q|
      {
        NothingToShrink();
        if config.dropFront {
          DropHead(was, gone);
        } else {
          DropTail(was, gone);
        }
      }
    }

    lemma NothingToShrink()
      requires config.qlim >= 0 && config.meanPktSize >= 0
      ensures q == [] ==> Fits(config, arrived, q)
    {}
  }

  lemma SelectNext(arrived: seq<Pkt>, q: seq<nat>, k: nat, f: Pkt -> bool)
    requires k < |q| && AllBelow(q, |arrived|)
    ensures f(arrived[q[k]]) ==>
            && Select(arrived, q[..k + 1], f, true) == Select(arrived, q[..k], f, true) + [q[k]]
            && Select(arrived, q[..k + 1], f, false) == Select(arrived, q[..k], f, false)
    ensures !f(arrived[q[k]]) ==>
            && Select(arrived, q[..k + 1], f, true) == Select(arrived, q[..k], f, true)
            && Select(arrived, q[..k + 1], f, false) == Select(arrived, q[..k], f, false) + [q[k]]
  {
    assert q[..k + 1][..k] == q[..k];
  }

  lemma {:induction false} ReverseGrows(x: nat, q: seq<nat>)
    ensures Reverse([x] + q) == Reverse(q) + [x]
  {
    var longer := [x] + q;
    if q == [] {
      assert longer == [x] && longer[..0] == [];
    } else {
      var n := |q| - 1;
      ReverseGrows(x, q[..n]);
      assert longer[..|longer| - 1] == [x] + q[..n] && longer[|longer| - 1] == q[n];
      assert Reverse(longer) == [q[n]] + Reverse([x] + q[..n]);
      assert Reverse(q) == [q[n]] + Reverse(q[..n]);
      hide Reverse;
    }
  }
}
