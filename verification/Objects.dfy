/** The packet and pool objects of internal/stream/types.go and the subscribers' Deliver and Close,
    updated in place, against the step functions of the pipeline. */
module Objects {
  import opened Options
  import opened Packets
  import opened Pipeline

  /** `Data` is the first `len` bytes of `buf`; `buf.Length` is its capacity. */
  class AVPacket {
    var kind: byte
    var timestamp: nat
    var keyframe: bool
    var buf: array<byte>
    var len: nat
    var refs: int

    ghost predicate Valid() reads this`len, this`buf { len <= buf.Length }

    function Data(): seq<byte>
      requires Valid()
      reads this`len, this`buf, buf
    {
      buf[..len]
    }

    function Snapshot(): Content
      requires Valid()
      reads this`kind, this`timestamp, this`keyframe, this`len, this`buf, buf
    {
      Content(kind, timestamp, keyframe, Data())
    }

    predicate StartsGroup() reads this`kind, this`keyframe { kind == PACKET_VIDEO && keyframe }

    constructor ()
      ensures Valid() && refs == 0 && len == 0 && fresh(buf) && buf.Length == 0
    {
      kind, timestamp, keyframe, len, refs := 0, 0, false, 0, 0;
      buf := new byte[0];
    }

    method Retain()
      modifies this`refs
      ensures refs == old(refs) + 1
    {
      refs := refs + 1;
    }
  }

  /** copy(buf[pos:], bytes). */
  method Put(buf: array<byte>, pos: nat, bytes: seq<byte>)
    requires pos + |bytes| <= buf.Length
    modifies buf
    ensures buf[..] == old(buf[..pos]) + bytes + old(buf[pos + |bytes|..])
    ensures buf[..pos + |bytes|] == old(buf[..pos]) + bytes
  {
    var i := 0;
    while i < |bytes|
      invariant i <= |bytes|
      invariant buf[..] == old(buf[..pos]) + bytes[..i] + old(buf[pos + i..])
    {
      buf[pos + i] := bytes[i];
      i := i + 1;
    }
  }

  /** sync.Pool: a set of packets nobody refers to. */
  class PacketPool {
    var free: set<AVPacket>

    ghost predicate Valid() reads this, free {
      forall p <- free :: p.Valid() && p.refs == 0
    }

    constructor ()
      ensures Valid() && free == {}
    {
      free := {};
    }

    /** A pooled packet (when `reuse` and there is one) or a new one, with one reference, blank fields
        and `size` bytes of data: zeros in a new buffer, the old bytes where the old buffer is large
        enough. */
    method NewAVPacket(size: nat, reuse: bool) returns (p: AVPacket)
      requires Valid()
      modifies this, free
      ensures Valid() && p.Valid() && p !in free
      ensures fresh(p) || (p in old(free) && free == old(free) - {p})
      ensures fresh(p) ==> free == old(free)
      ensures p.refs == 1 && p.len == size && p.kind == 0 && p.timestamp == 0 && !p.keyframe
      ensures fresh(p.buf) || (!fresh(p) && p.buf == old(p.buf) && size <= p.buf.Length)
      ensures fresh(p.buf) ==> p.Data() == seq(size, _ => 0)
      ensures !fresh(p.buf) ==> p.Data() == old(p.buf[..])[..size]
      ensures forall q <- free :: unchanged(q)
    {
      if reuse && free != {} {
        p :| p in free;
        free := free - {p};
      } else {
        p := new AVPacket();
      }
      p.refs := 1;
      if p.buf.Length < size {
        p.buf := new byte[size](_ => 0);
      }
      p.len := size;
      p.kind, p.timestamp, p.keyframe := 0, 0, false;
    }

    /** Release: at zero the packet goes back to the pool. */
    method Release(p: AVPacket)
      requires Valid() && p.Valid() && p.refs >= 1
      modifies this, p`refs
      ensures Valid() && p.refs == old(p.refs) - 1
      ensures free == if p.refs == 0 then old(free) + {p} else old(free)
    {
      p.refs := p.refs - 1;
      if p.refs == 0 {
        free := free + {p};
      }
    }

    /** Releasing a list in order, each packet as often as it is listed. */
    method ReleaseAll(ps: seq<AVPacket>)
      requires Valid()
      requires forall p <- ps :: p.Valid() && p.refs >= Count(ps, p)
      modifies this, (set p | p in ps)`refs
      ensures Valid()
      ensures forall p <- ps :: p.refs == old(p.refs) - Count(ps, p)
      ensures free == old(free) + (set p | p in ps && p.refs == 0)
    {
      var i := 0;
      forall p <- ps ensures p.refs > 0 { CountPositive(ps, p); }
      while i < |ps|
        invariant i <= |ps| && Valid()
        invariant forall p <- ps :: p.Valid() && p.refs == old(p.refs) - Count(ps[..i], p)
        invariant free == old(free) + (set p | p in ps && p.refs == 0)
      {
        assert ps[..i + 1][..i] == ps[..i];
        ghost var p := ps[i];
        CountSplit(ps, i + 1, p);
        Release(ps[i]);
        i := i + 1;
      }
      assert ps[..|ps|] == ps;
    }
  }

  /** A viewer: internal/subscriber/livestream.go. */
  class LivestreamSubscriber {
    const id: string
    const pool: PacketPool
    var gop: seq<AVPacket>
    var dropped: nat
    var shown: seq<Content>

    constructor (id: string, pool: PacketPool)
      ensures this.id == id && this.pool == pool && gop == [] && dropped == 0 && shown == []
    {
      this.id, this.pool := id, pool;
      gop, dropped, shown := [], 0, [];
    }

    /** The references to `p` that are not the cache's. */
    ghost function Others(p: AVPacket): int
      reads this`gop, p
    {
      p.refs - Count(gop, p)
    }

    /** Every cached packet carries the cache's references. */
    ghost predicate Owned()
      reads this`gop, pool, pool.free, gop
    {
      pool.Valid() && forall p <- gop :: p.Valid() && Others(p) >= 0
    }

    /** Close, and the reset on a keyframe: each cached reference is released once, no other, and the
        packets left without references return to the pool. */
    method Close()
      requires Owned()
      modifies this`gop, pool, (set p | p in gop)`refs
      ensures Owned() && gop == []
      ensures forall p: AVPacket | old(allocated(p)) :: Others(p) == old(Others(p))
      ensures pool.free == old(pool.free) + (set p | p in old(gop) && p.refs == 0)
    {
      forall p: AVPacket ensures p in gop <==> Count(gop, p) > 0 { CountPositive(gop, p); }
      pool.ReleaseAll(gop);
      gop := [];
    }

    /** Caching one packet, to which the caller holds a reference of its own. */
    method Append(pkt: AVPacket)
      requires Owned() && pkt.Valid() && Others(pkt) >= 1
      modifies this`gop, pkt`refs
      ensures Owned() && gop == old(gop) + [pkt]
      ensures forall p: AVPacket | old(allocated(p)) :: Others(p) == old(Others(p))
    {
      pkt.Retain();
      gop := gop + [pkt];
      forall p: AVPacket ensures Count(gop, p) == Count(old(gop), p) + Count([pkt], p) {
        CountConcat(old(gop), [pkt], p);
      }
    }

    /** Keeping the newest 256 packets. */
    method Trim()
      requires Owned()
      modifies this`gop, pool, (set p | p in gop)`refs
      ensures Owned() && gop == old(gop)[CutOf(old(gop))..]
      ensures forall p: AVPacket | old(allocated(p)) :: Others(p) == old(Others(p))
      ensures pool.free == old(pool.free) + (set p | p in old(gop)[..CutOf(old(gop))] && p.refs == 0)
    {
      var cut := CutOf(gop);
      forall p: AVPacket
        ensures Count(gop, p) == Count(gop[..cut], p) + Count(gop[cut..], p) && (p in gop[..cut] <==> Count(gop[..cut], p) > 0)
      {
        CountSplit(gop, cut, p);
        CountPositive(gop[..cut], p);
      }
      assert forall p <- gop[..cut] :: p in gop;
      pool.ReleaseAll(gop[..cut]);
      gop := gop[cut..];
    }

    /** updateGOP changes the cache as an Offer step of the pipeline does, and every reference that is
        not the cache's stays. */
    method UpdateGOP(pkt: AVPacket)
      requires Owned() && pkt.Valid() && Others(pkt) >= 1
      modifies this`gop, pool, (set p | p in gop + [pkt])`refs
      ensures Owned() && gop == GopAfter(old(gop), pkt, old(pkt.StartsGroup()))
      ensures forall p: AVPacket | old(allocated(p)) :: Others(p) == old(Others(p))
    {
      ghost var was, clear := gop, pkt.StartsGroup();
      if pkt.kind == PACKET_VIDEO && pkt.keyframe {
        Close();
      }
      Append(pkt);
      assert gop == Grown(was, pkt, clear);
      Trim();
    }

    /** The viewer's callback: it gets the packet as it is, or fails. */
    method OnPkt(pkt: AVPacket, failed: bool)
      requires pkt.Valid()
      modifies this`dropped, this`shown
      ensures dropped == old(dropped) + (if failed then 1 else 0)
      ensures shown == if failed then old(shown) else old(shown) + [pkt.Snapshot()]
    {
      if failed {
        dropped := dropped + 1;
      } else {
        shown := shown + [pkt.Snapshot()];
      }
    }

    /** Running the callback and giving up a reference that is not the cache's. */
    method HandOver(pkt: AVPacket, failed: bool)
      requires Owned() && pkt.Valid() && Others(pkt) >= 1
      modifies this`dropped, this`shown, pool, pkt`refs
      ensures Owned() && dropped == old(dropped) + (if failed then 1 else 0)
      ensures shown == if failed then old(shown) else old(shown) + [old(pkt.Snapshot())]
      ensures forall p: AVPacket | old(allocated(p)) :: Others(p) == old(Others(p)) - (if p == pkt then 1 else 0)
    {
      OnPkt(pkt, failed);
      pool.Release(pkt);
    }

    /** Deliver caches the packet, hands it to the callback and gives up the caller's reference. */
    method Deliver(pkt: AVPacket, failed: bool)
      requires Owned() && pkt.Valid() && Others(pkt) >= 1
      modifies this`gop, this`dropped, this`shown, pool, (set p | p in gop + [pkt])`refs
      ensures shown == if failed then old(shown) else old(shown) + [old(pkt.Snapshot())]
      ensures Owned() && gop == GopAfter(old(gop), pkt, old(pkt.StartsGroup()))
      ensures dropped == old(dropped) + (if failed then 1 else 0)
      ensures forall p: AVPacket | old(allocated(p)) :: Others(p) == old(Others(p)) - (if p == pkt then 1 else 0)
    {
      UpdateGOP(pkt);
      HandOver(pkt, failed);
    }
  }

  /** Storage, MinIO, HLS and Relay alike: a bounded channel and the goroutine that empties it. */
  class ChannelSubscriber {
    const id: string
    const kind: Kind
    const pool: PacketPool
    var queue: seq<AVPacket>
    var phase: Phase
    var done: bool
    var dropped: nat
    var written: seq<Content>

    /** This subscriber as the pipeline sees it, its goroutine holding no packet. */
    ghost function Model(): Sub<AVPacket> reads this {
      Sub(id, kind, queue, None, [], phase, done, dropped)
    }

    constructor (id: string, kind: Kind, pool: PacketPool)
      ensures this.id == id && this.kind == kind && this.pool == pool
      ensures Model() == FreshSub(id, kind) && written == []
    {
      this.id, this.kind, this.pool := id, kind, pool;
      queue, phase, done, dropped, written := [], Running, false, 0, [];
    }

    /** The references to `p` that are not the queue's. */
    ghost function Others(p: AVPacket): int
      reads this, p
    {
      p.refs - Count(queue, p)
    }

    ghost predicate Owned()
      reads this, pool, pool.free, queue
    {
      kind != Livestream && pool.Valid() && forall p <- queue :: p.Valid() && Others(p) >= 0
    }

    /** Deliver takes over the caller's reference with the queued packet, or releases it when full. */
    method Deliver(pkt: AVPacket)
      requires Owned() && pkt.Valid() && Others(pkt) >= 1
      modifies this`queue, this`dropped, pool, pkt`refs
      ensures Owned() && Model() == OfferTo(old(Model()), pkt, false)
      ensures forall p: AVPacket | old(allocated(p)) :: Others(p) == old(Others(p)) - (if p == pkt then 1 else 0)
    {
      if |queue| < Capacity(kind) {
        forall p: AVPacket ensures Count(queue + [pkt], p) == Count(queue, p) + (if p == pkt then 1 else 0) {
          CountConcat(queue, [pkt], p);
        }
        queue := queue + [pkt];
      } else {
        dropped := dropped + 1;
        pool.Release(pkt);
      }
    }

    /** Close: done is closed once, however often it is called. */
    method Close()
      requires kind != Livestream
      modifies this`done
      ensures Model() == SubStep(old(Model()), Shut)
    {
      if !done {
        done := true;
      }
    }

    /** A channel case of the run loop, or of its final drain: take a packet, write it unless draining,
        release it. A relay leaves its loop on a failed write. */
    method TakeAndRelease(failed: bool) returns (pkt: AVPacket)
      requires Owned() && queue != []
      modifies this`queue, this`phase, this`written, pool, (set p | p in queue)`refs
      ensures Owned() && pkt == old(queue)[0] && queue == old(queue)[1..]
      ensures written == if old(phase) == Running && !failed then old(written) + [old(queue[0].Snapshot())] else old(written)
      ensures phase == if failed && kind == Relay && old(phase) == Running then Draining else old(phase)
      ensures old(phase) != Exited ==>
                SubEnabled(old(Model()), Recv) && Model() == SubStep(SubStep(old(Model()), Recv), Process(failed))
      ensures forall p: AVPacket | old(allocated(p)) :: Others(p) == old(Others(p))
    {
      forall p: AVPacket ensures Count(queue, p) == Count(queue[1..], p) + (if p == queue[0] then 1 else 0) {
        CountSplit(queue, 1, p);
      }
      pkt := queue[0];
      CountPositive(queue, pkt);
      assert pkt.refs >= 1;
      queue := queue[1..];
      if phase == Running {
        if failed {
          phase := if kind == Relay then Draining else Running;
        } else {
          written := written + [pkt.Snapshot()];
        }
      }
      pool.Release(pkt);
    }

    /** The deferred drain of run: everything still queued is released. */
    method Drain()
      requires Owned()
      modifies this, pool, (set p | p in queue)`refs
      ensures Owned() && Model() == old(Model()).(queue := [], phase := Exited) && written == old(written)
      ensures forall p: AVPacket | old(allocated(p)) :: Others(p) == old(Others(p))
    {
      phase := Draining;
      while queue != []
        invariant Owned() && phase == Draining && dropped == old(dropped) && done == old(done) && written == old(written)
        invariant forall p <- queue :: p in old(queue)
        invariant forall p: AVPacket | old(allocated(p)) :: Others(p) == old(Others(p))
        decreases |queue|
      {
        var _ := TakeAndRelease(false);
      }
      phase := Exited;
    }
  }
}
