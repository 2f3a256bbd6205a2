/** Packet allocation (common/packet.h): a free list threaded through the packets, and reference counts. */
module PacketPool {
  import opened Wrappers

  /** The header fields that alloc sets; `other` stands for all further header bytes ([] = zeroed). */
  datatype Header = Header(nextHop: int, lastHop: int, direction: int, other: seq<int>)

  const FRESH_HEADER: Header := Header(-2, -2, -1, [])

  class Packet {
    var hdr: Header
    var data: Option<seq<int>>
    var fflag: bool
    var refCount: int
    var uid: int
    var next: Packet?

    // How often the packet was passed to refcopy, and to free, since it was last allocated.
    ghost var refs: nat
    ghost var frees: nat

    constructor ()
      ensures data == None && refCount == 0 && next == null && uid == 0
    {
      hdr, data, fflag, refCount, uid, next, refs, frees := Header(0, 0, 0, []), None, false, 0, 0, null, 0, 1;
    }
  }

  /** The static part of class Packet. */
  class Pool {
    var free: Packet?
    ghost var chain: seq<Packet>     // the packets reached from `free` through `next`
    ghost var made: set<Packet>      // every packet ever created

    /** `free` leads through each packet of the chain once and ends; the chain holds exactly the packets that are
        not live, without data and with a zero count; a packet is live exactly while it has been freed at most as
        often as it was reference-copied, and its count is the difference. */
    ghost predicate Valid()
      reads this, made
    {
      && (forall p :: p in chain ==> p in made)
      && ChainOk()
      && (forall p :: p in made ==> (p in chain <==> !p.fflag))
      && (forall p :: p in made ==> PacketOk(p))
    }

    ghost predicate ChainOk()
      reads this, chain
    {
      && (forall i, j :: 0 <= i < j < |chain| ==> chain[i] != chain[j])
      && free == (if chain == [] then null else chain[0])
      && (forall i :: 0 <= i < |chain| ==> LeadsOn(i))
    }

    ghost predicate LeadsOn(i: nat)
      requires i < |chain|
      reads this, chain
    {
      chain[i].next == if i + 1 < |chain| then chain[i + 1] else null
    }

    ghost predicate PacketOk(p: Packet)
      reads p
    {
      && (p.fflag <==> p.frees <= p.refs)
      && (if p.fflag then p.refCount == p.refs - p.frees else p.refCount == 0 && p.data == None)
    }

    constructor ()
      ensures Valid() && chain == [] && made == {}
    {
      free, chain, made := null, [], {};
    }

    /** Hands out a packet that is not live (or new), and changes no other packet. */
    method Alloc() returns (p: Packet)
      requires Valid()
      modifies this, chain
      ensures Valid() && p in made && made == old(made) + {p}
      ensures p !in old(made) ==> fresh(p) && old(chain) == []
      ensures p in old(made) ==> !old(p.fflag) && old(chain) != [] && p == old(chain)[0]
      ensures chain == if old(chain) == [] then [] else old(chain)[1..]
      ensures p.fflag && p.refCount == 0 && p.data == None && p.next == null && p.uid == 0 && p.hdr == FRESH_HEADER
      ensures p.refs == 0 && p.frees == 0
      ensures forall q :: q in old(made) && q != p ==> unchanged(q)
    {
      if free != null {
        p := free;
        assert p == chain[0] && LeadsOn(0);
        assert p.fflag == false;
        assert p.data == None;
        free := p.next;
        p.uid := 0;
        chain := chain[1..];
      } else {
        p := new Packet();
        made := made + {p};
      }
      p.hdr := FRESH_HEADER;
      p.fflag := true;
      p.next := null;
      p.refs, p.frees := 0, 0;
      forall q | q in made ensures PacketOk(q) {
        assert q != p ==> old(PacketOk(q));
      }
      forall i | 0 <= i < |chain| ensures LeadsOn(i) {
        assert chain[i] == old(chain)[i + 1] && old(LeadsOn(i + 1));
      }
    }

    /** alloc(n): with a data buffer of n bytes when n is positive. */
    method AllocWithData(n: int) returns (p: Packet)
      requires Valid()
      modifies this, chain
      ensures Valid() && p in made && made == old(made) + {p}
      ensures p !in old(made) ==> fresh(p) && old(chain) == []
      ensures p in old(made) ==> !old(p.fflag) && old(chain) != [] && p == old(chain)[0]
      ensures p.fflag && p.refCount == 0 && p.next == null && p.uid == 0 && p.hdr == FRESH_HEADER
      ensures p.refs == 0 && p.frees == 0
      ensures chain == if old(chain) == [] then [] else old(chain)[1..]
      ensures p.data.Some? <==> n > 0
      ensures n > 0 ==> |p.data.value| == n
      ensures forall q :: q in old(made) && q != p ==> unchanged(q)
    {
      p := Alloc();
      if n > 0 {
        p.data := Some(seq(n, _ => 0));
      }
    }

    /** A second reference to a live packet. */
    method RefCopy(p: Packet) returns (q: Packet)
      requires Valid() && p in made && p.fflag
      modifies p`refCount, p`refs
      ensures Valid() && q == p && p.refCount == old(p.refCount) + 1 && p.refs == old(p.refs) + 1
    {
      p.refCount := p.refCount + 1;
      p.refs := p.refs + 1;
      return p;
    }

    /** A duplicate of a live packet: same header and data, its own count. */
    method Copy(p: Packet) returns (q: Packet)
      requires Valid() && p in made && p.fflag
      modifies this, chain
      ensures Valid() && q in made && q != p && made == old(made) + {q}
      ensures q !in old(made) ==> fresh(q) && old(chain) == []
      ensures q in old(made) ==> !old(q.fflag) && old(chain) != [] && q == old(chain)[0]
      ensures q.fflag && q.refCount == 0 && q.next == null && q.uid == 0 && q.hdr == p.hdr && q.data == p.data
      ensures q.refs == 0 && q.frees == 0
      ensures chain == if old(chain) == [] then [] else old(chain)[1..]
      ensures forall x :: x in old(made) && x != q ==> unchanged(x)
    {
      q := Alloc();
      q.hdr := p.hdr;
      if p.data.Some? {
        q.data := p.data;
      }
    }

    /** One free: gives up one reference, the last of which returns the packet to the head of the list;
        on a packet that is not live it does nothing. */
    method Free(p: Packet)
      requires Valid() && p in made
      requires p.fflag && p.refCount == 0 ==> p.uid <= 0
      modifies this, p
      ensures Valid() && made == old(made) && p.frees == old(p.frees) + 1 && p.refs == old(p.refs)
      ensures p.uid == old(p.uid)
      ensures !old(p.fflag) ==>
              && chain == old(chain) && free == old(free) && p.next == old(p.next) && p.hdr == old(p.hdr)
              && !p.fflag && p.refCount == 0 && p.data == None
      ensures old(p.fflag) && old(p.refCount) > 0 ==>
              && chain == old(chain) && free == old(free) && p.next == old(p.next) && p.hdr == old(p.hdr)
              && p.fflag && p.refCount == old(p.refCount) - 1 && p.data == old(p.data)
      ensures old(p.fflag) && old(p.refCount) == 0 ==>
              && chain == [p] + old(chain) && !p.fflag && p.refCount == 0 && p.data == None
              && p.hdr == Header(0, 0, 0, [])
    {
      if p.fflag {
        if p.refCount == 0 {
          assert p.uid <= 0;
          p.data := None;
          p.hdr := Header(0, 0, 0, []);
          p.next := free;
          free := p;
          p.fflag := false;
          chain := [p] + chain;
        } else {
          p.refCount := p.refCount - 1;
        }
      }
      p.frees := p.frees + 1;
      assert old(PacketOk(p)) && PacketOk(p);
      forall q | q in made ensures PacketOk(q) {
        assert q != p ==> old(PacketOk(q));
      }
      forall i | 0 <= i < |chain| ensures LeadsOn(i) {
        if chain == old(chain) {
          assert old(LeadsOn(i));
        } else if i > 0 {
          assert chain[i] == old(chain)[i - 1] && old(LeadsOn(i - 1));
        }
      }
    }
  }
}
