/** The Antnet agent (antnet.cc) working in place on a packet and on its routing table. */
module Agent {
  import opened PheromoneRow
  import opened Selection
  import opened RoutingTable
  import opened AntMemory
  import opened Ants

  /** What the handler does with the packet at the end: hand it to the link, free it, drop it, or nothing. */
  datatype Action = Send | Free | Drop | Leave

  function ActionOf(o: Outcome): (action: Action)
    ensures action == Send <==> o.Sent?
    ensures action == Free <==> o in {Ended(Completed), Ended(DeadEnd)}
    ensures action == Leave <==> o == Ended(Ignored)
  {
    match o
    case Sent(_) => Send
    case Ended(why) =>
      if why == Completed || why == DeadEnd then Free
      else if why == Ignored then Leave
      else Drop
  }

  /** The packet as the handler of a delivery leaves it: an ant freed at a dead end has been memorized but not
      readdressed, and an ant that ends in any other way is as it came. */
  function AsLeft(ant: Ant, a: nat, now: real, outcome: Outcome): (left: Ant)
    ensures outcome.Sent? ==> left == outcome.ant
    ensures outcome.Ended? ==> left.(mem := ant.mem) == ant && (outcome.why != DeadEnd ==> left.mem == ant.mem)
  {
    match outcome
    case Sent(sent) => sent
    case Ended(why) =>
      var mem := AntMemory.Memorize(ant.mem, a, now - ant.start);
      if why == DeadEnd && mem.Some? then ant.(mem := mem.value) else ant
  }

  class AntPacket {
    var pktType: nat
    var src: nat
    var dst: nat
    var seqNum: nat
    var start: real
    var memSize: nat
    var dir: Direction
    var saddr: nat
    var nextHop: nat
    const memory: array<Entry>

    // Ownership: whether the packet is still its handler's, how it was given up so far, and as what.
    ghost var live: bool
    ghost var disposals: seq<Action>
    ghost var fate: Ant

    ghost predicate Valid()
      reads this
    {
      memory.Length == MAX_NUM_NODES && memSize <= MAX_NUM_NODES
    }

    ghost function Mem(): seq<Entry>
      requires Valid()
      reads this, memory
    {
      memory[..memSize]
    }

    /** The ant this packet stands for; array slots past memSize are not part of it. */
    ghost function Value(): Ant
      requires Valid()
      reads this, memory
    {
      Ant(pktType, src, dst, seqNum, start, Mem(), dir, saddr, nextHop)
    }

    /** The handler has given the packet up exactly once, by `action`, and has not touched it since: it still is
        what it was then. A packet that is left alone stays with the handler. */
    twostate predicate HandledBy(action: Action, left: Ant)
      requires Valid()
      reads this, memory
    {
      && Value() == left
      && if action == Leave then live && disposals == old(disposals)
         else !live && fate == left && disposals == old(disposals) + [action]
    }

    constructor ()
      ensures Valid() && fresh(memory) && dir == Down && memSize == 0 && live && disposals == []
    {
      live, disposals, fate := true, [], Ant(0, 0, 0, 0, 0.0, [], Down, 0, 0);
      pktType, src, dst, seqNum, start, memSize, dir, saddr, nextHop := 0, 0, 0, 0, 0.0, 0, Down, 0, 0;
      memory := new Entry[MAX_NUM_NODES](_ => Entry(0, 0.0));
    }

    /** Hand the packet to the link, free it, or drop it: only a live packet, which then no longer is. */
    method Dispose(how: Action) returns (action: Action)
      requires Valid() && live && how != Leave
      modifies this`live, this`disposals, this`fate
      ensures action == how && HandledBy(how, old(Value()))
    {
      live, disposals, fate := false, disposals + [how], Value();
      return how;
    }
  }

  class Antnet {
    const addr: nat
    const numNodes: nat
    const nbrs: seq<nat>
    const rFactor: real
    const rtable: AntnetRtable
    var antSeqNum: nat

    constructor (addr: nat, numNodes: nat, nbrs: seq<nat>, rFactor: real)
      ensures this.addr == addr && this.numNodes == numNodes && this.nbrs == nbrs && this.rFactor == rFactor
      ensures fresh(rtable) && rtable.rt == map[] && antSeqNum == 0
    {
      this.addr, this.numNodes, this.nbrs, this.rFactor := addr, numNodes, nbrs, rFactor;
      antSeqNum := 0;
      rtable := new AntnetRtable();
    }

    method InitializeRtable()
      modifies rtable
      ensures rtable.rt == Initialized(old(rtable.rt), addr, numNodes, nbrs)
    {
      if |nbrs| == 0 {
        return;
      }
      for i := 0 to numNodes
        invariant rtable.rt == Initialized(old(rtable.rt), addr, i, nbrs)
      {
        if addr != i {
          AddRow(i);
        }
      }
    }

    /** The inner loop of initialize_rtable: one entry for each neighbour, for destination i. */
    method AddRow(i: nat)
      requires nbrs != []
      modifies rtable
      ensures rtable.rt == old(rtable.rt)[i := (if i in old(rtable.rt) then old(rtable.rt)[i] else []) + Uniform(nbrs)]
    {
      ghost var row := if i in rtable.rt then rtable.rt[i] else [];
      assert row + Uniform(nbrs)[..0] == row;
      for k := 0 to |nbrs|
        invariant rtable.rt == if k == 0 then old(rtable.rt) else old(rtable.rt)[i := row + Uniform(nbrs)[..k]]
      {
        rtable.AddEntry(i, nbrs[k], 1.0 / |nbrs| as real);
        assert (row + Uniform(nbrs)[..k]) + [Uniform(nbrs)[k]] == row + Uniform(nbrs)[..k + 1];
      }
      assert Uniform(nbrs)[..|nbrs|] == Uniform(nbrs);
    }

    /** The part of send_ant_pkt that fills in the ant header. */
    method MakeForwardAnt(p: AntPacket, dest: nat, now: real)
      requires p.Valid()
      modifies p`pktType, p`src, p`dst, p`seqNum, p`start, p`memSize, p`dir, p.memory, this`antSeqNum
      ensures p.Valid() && antSeqNum == (old(antSeqNum) + 1) % SEQ_NUM_MODULUS
      ensures p.Value() == Ant(FORWARD_ANT, addr, dest, old(antSeqNum), now, [Entry(addr, 0.0)], Down,
                               old(p.saddr), old(p.nextHop))
    {
      p.pktType := FORWARD_ANT;
      p.src := addr;
      p.seqNum := antSeqNum;
      antSeqNum := (antSeqNum + 1) % SEQ_NUM_MODULUS;
      p.start := now;
      p.dst := dest;
      p.memSize := 0;
      p.memory[0] := Entry(addr, 0.0);
      p.memSize := p.memSize + 1;
      p.dir := Down;
      assert p.Mem() == [Entry(addr, 0.0)];
    }

    /** The part of send_ant_pkt after allocation; `dest` is what calc_destination drew. */
    method SendAntPkt(p: AntPacket, dest: nat, now: real, qlen: LinkQueues, uniform: Draw) returns (action: Action)
      requires p.Valid() && p.live
      modifies p, p.memory, this`antSeqNum
      ensures p.Valid() && antSeqNum == (old(antSeqNum) + 1) % SEQ_NUM_MODULUS
      ensures var outcome := Launch(addr, old(antSeqNum), dest, rtable.rt, |nbrs|, now, qlen, uniform);
              var unsent := Ant(FORWARD_ANT, addr, dest, old(antSeqNum), now, [Entry(addr, 0.0)], Down,
                                old(p.saddr), old(p.nextHop));
              action == ActionOf(outcome) && p.HandledBy(action, if outcome.Sent? then outcome.ant else unsent)
    {
      hide Selection.CalcNext;
      MakeForwardAnt(p, dest, now);
      var next := rtable.CalcNext(p.dst, addr, |nbrs|, qlen, uniform);
      if next == addr {
        action := p.Dispose(Free);
        return;
      }
      p.nextHop := next;
      p.saddr := addr;
      action := p.Dispose(Send);
    }

    /** Every delivery gives the packet up exactly once, except a packet that no branch handles. */
    method Recv(p: AntPacket, numForwards: int, now: real, qlen: LinkQueues, uniform: Draw) returns (action: Action)
      requires p.Valid() && p.live
      requires Ants.Recv(p.Value(), addr, numForwards, rtable.rt, |nbrs|, now, qlen, uniform).outcome
               != Ended(Undefined)
      modifies p, p.memory, rtable
      ensures p.Valid()
      ensures var ant := old(p.Value());
              var reply := Ants.Recv(ant, addr, numForwards, old(rtable.rt), |nbrs|, now, qlen, uniform);
              && rtable.rt == ApplyCalls(old(rtable.rt), reply.calls, rFactor)
              && action == ActionOf(reply.outcome) && p.HandledBy(action, AsLeft(ant, addr, now, reply.outcome))
    {
      if p.saddr == addr {
        if numForwards > 0 {
          action := p.Dispose(Drop);
        } else {
          action := Leave;
        }
      } else {
        action := RecvAntPkt(p, now, qlen, uniform);
      }
    }

    method RecvAntPkt(p: AntPacket, now: real, qlen: LinkQueues, uniform: Draw) returns (action: Action)
      requires p.Valid() && p.live
      requires Ants.RecvAntPkt(p.Value(), addr, rtable.rt, |nbrs|, now, qlen, uniform).outcome != Ended(Undefined)
      modifies p, p.memory, rtable
      ensures p.Valid()
      ensures var ant := old(p.Value());
              var reply := Ants.RecvAntPkt(ant, addr, old(rtable.rt), |nbrs|, now, qlen, uniform);
              && rtable.rt == ApplyCalls(old(rtable.rt), reply.calls, rFactor)
              && action == ActionOf(reply.outcome) && p.HandledBy(action, AsLeft(ant, addr, now, reply.outcome))
    {
      if p.dir == Down {
        action := RecvForwardAnt(p, now, qlen, uniform);
      } else if p.dir == Up {
        action := RecvBackwardAnt(p, now);
      } else {
        action := Leave;
      }
    }

    /** The branch of recv_ant_pkt for a forward ant. */
    method RecvForwardAnt(p: AntPacket, now: real, qlen: LinkQueues, uniform: Draw) returns (action: Action)
      requires p.Valid() && p.live && p.dir == Down
      requires ForwardReply(p.Value(), addr, rtable.rt, |nbrs|, now, qlen, uniform) != Ended(Undefined)
      modifies p, p.memory
      ensures p.Valid()
      ensures var ant := old(p.Value());
              var outcome := ForwardReply(ant, addr, rtable.rt, |nbrs|, now, qlen, uniform);
              action == ActionOf(outcome) && p.HandledBy(action, AsLeft(ant, addr, now, outcome))
    {
      hide FindNode, Selection.CalcNext, AntMemory.Memorize;
      var ok := Memorize(p, now);
      if !ok {
        return Drop;
      }
      if addr == p.dst {
        action := CreateBackwardAntPkt(p);
      } else {
        action := ForwardAntPkt(p, qlen, uniform);
      }
    }

    /** The branch of recv_ant_pkt for a backward ant. */
    method RecvBackwardAnt(p: AntPacket, ghost now: real) returns (action: Action)
      requires p.Valid() && p.live && FindNode(p.Mem(), addr) + 1 < p.memSize
      modifies p, rtable
      ensures p.Valid()
      ensures rtable.rt == ApplyCalls(old(rtable.rt), CallsAt(old(p.Mem()), FindNode(old(p.Mem()), addr)), rFactor)
      ensures var ant := old(p.Value());
              var outcome := if addr == ant.dst then Ended(Completed) else BackwardHop(ant, addr);
              action == ActionOf(outcome) && p.HandledBy(action, AsLeft(ant, addr, now, outcome))
    {
      UpdateTable(p);
      if addr == p.dst {
        action := p.Dispose(Free);
      } else {
        action := BackwardAntPkt(p);
      }
    }

    /** A full memory costs the packet, which the caller must then leave alone. */
    method Memorize(p: AntPacket, now: real) returns (ok: bool)
      requires p.Valid() && p.live
      modifies p`memSize, p.memory, p`live, p`disposals, p`fate
      ensures p.Valid()
      ensures match AntMemory.Memorize(old(p.Mem()), addr, now - p.start)
              case None => !ok && p.HandledBy(Drop, old(p.Value()))
              case Some(mem) => ok && p.Mem() == mem && p.live && p.disposals == old(p.disposals)
    {
      var time := now - p.start;
      ghost var mem := p.Mem();
      for i := 0 to p.memSize
        invariant p.Valid() && p.Mem() == mem && p.live
        invariant forall j :: 0 <= j < i ==> mem[j].node != addr
      {
        if p.memory[i].node == addr {
          assert i == FindNode(mem, addr);
          var t := time - p.memory[i].trip;
          p.memSize := i + 1;
          assert p.Mem() == mem[..i + 1];
          ShiftTripTimes(p, t);
          return true;
        }
      }
      assert FindNode(mem, addr) == |mem|;
      if p.memSize >= MAX_NUM_NODES {
        var _ := p.Dispose(Drop);
        return false;
      }
      p.memory[p.memSize] := Entry(addr, time);
      p.memSize := p.memSize + 1;
      assert p.Mem() == mem + [Entry(addr, time)];
      return true;
    }

    /** The inner loop of memorize. */
    method ShiftTripTimes(p: AntPacket, t: real)
      requires p.Valid()
      modifies p.memory
      ensures p.Mem() == Shift(old(p.Mem()), t)
    {
      ghost var mem := p.Mem();
      for j := 0 to p.memSize
        invariant forall k :: 0 <= k < j ==> p.memory[k] == Entry(mem[k].node, mem[k].trip + t)
        invariant forall k :: j <= k < p.memSize ==> p.memory[k] == mem[k]
      {
        p.memory[j] := p.memory[j].(trip := p.memory[j].trip + t);
      }
    }

    method ForwardAntPkt(p: AntPacket, qlen: LinkQueues, uniform: Draw) returns (action: Action)
      requires p.Valid() && p.live
      modifies p`nextHop, p`saddr, p`live, p`disposals, p`fate
      ensures p.Valid()
      ensures var outcome := ForwardHop(old(p.Value()), addr, rtable.rt, |nbrs|, qlen, uniform);
              && action == ActionOf(outcome)
              && p.HandledBy(action, if outcome.Sent? then outcome.ant else old(p.Value()))
    {
      var parent := p.saddr;
      var next := rtable.CalcNext(p.dst, parent, |nbrs|, qlen, uniform);
      if next == addr || next == parent {
        action := p.Dispose(Free);
        return;
      }
      p.nextHop := next;
      p.saddr := addr;
      action := p.Dispose(Send);
    }

    method CreateBackwardAntPkt(p: AntPacket) returns (action: Action)
      requires p.Valid() && p.live && p.memSize >= 2
      modifies p`src, p`dst, p`dir, p`nextHop, p`saddr, p`live, p`disposals, p`fate
      ensures p.Valid() && action == Send
      ensures var outcome := TurnRound(old(p.Value()), addr);
              outcome.Sent? && p.HandledBy(action, outcome.ant)
    {
      var temp := p.src;
      p.src := p.dst;
      p.dst := temp;
      var index := p.memSize - 2;
      p.dir := Up;
      p.nextHop := p.memory[index].node;
      p.saddr := addr;
      action := p.Dispose(Send);
    }

    method BackwardAntPkt(p: AntPacket) returns (action: Action)
      requires p.Valid() && p.live
      modifies p`dir, p`nextHop, p`saddr, p`live, p`disposals, p`fate
      ensures p.Valid()
      ensures var outcome := BackwardHop(old(p.Value()), addr);
              && action == ActionOf(outcome)
              && p.HandledBy(action, if outcome.Sent? then outcome.ant else old(p.Value()))
    {
      hide FindLast;
      var index := -1;
      var i: int := p.memSize - 1;
      while i >= 0
        invariant -1 <= i < p.memSize && index == -1
        invariant forall j :: i < j < p.memSize ==> p.Mem()[j].node != addr
      {
        if p.memory[i].node == addr {
          index := i - 1;
          assert i == FindLast(p.Mem(), addr);
          break;
        }
        i := i - 1;
      }
      if index < 0 {
        action := p.Dispose(Drop);
        return;
      }
      p.nextHop := p.memory[index].node;
      p.dir := Up;
      p.saddr := addr;
      action := p.Dispose(Send);
    }

    method UpdateTable(p: AntPacket)
      requires p.Valid() && FindNode(p.Mem(), addr) + 1 < p.memSize
      modifies rtable
      ensures rtable.rt == ApplyCalls(old(rtable.rt), CallsAt(p.Mem(), FindNode(p.Mem(), addr)), rFactor)
    {
      hide FindNode;
      ghost var at := FindNode(p.Mem(), addr);
      ghost var calls := CallsAt(p.Mem(), at);
      var i := 0;
      while p.memory[i].node != addr
        invariant i <= at
        decreases at - i
      {
        assert p.Mem()[i].node != addr;
        i := i + 1;
      }
      assert p.Mem()[i].node == addr;
      i := i + 1;
      var next := p.memory[i].node;
      for index := i to p.memSize
        invariant rtable.rt == ApplyCalls(old(rtable.rt), calls[..index - i], rFactor)
      {
        rtable.Update(p.memory[index].node, next, rFactor);
        assert calls[..index + 1 - i][..index - i] == calls[..index - i];
        assert calls[index - i] == Call(addr, p.memory[index].node, next);
      }
      assert calls[..p.memSize - i] == calls;
    }
  }
}
