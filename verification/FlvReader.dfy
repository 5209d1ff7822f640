/** The FLV reader of internal/flv/reader.go, which reads payloads into pooled packets. */
module FlvReader {
  import opened Options
  import opened Packets
  import opened Bytes
  import opened Objects
  import opened Flv

  /** `input` is what the underlying source has not given out yet. */
  class Reader {
    const pool: PacketPool
    var input: seq<byte>

    constructor (bytes: seq<byte>, pool: PacketPool)
      ensures input == bytes && this.pool == pool
    {
      input, this.pool := bytes, pool;
    }

    /** NewReader consumes the 13-byte header, or refuses the source. */
    static method NewReader(bytes: seq<byte>, pool: PacketPool) returns (r: Reader?, problem: Option<Error>)
      ensures match ReadHeader(bytes)
              case Ok(_, rest) => r != null && problem == None && fresh(r) && r.pool == pool && r.input == rest
              case Err(e) => r == null && problem == Some(e)
    {
      var rd := new Reader(bytes, pool);
      var hdr := rd.Fill(13);
      if hdr.Err? { return null, Some(Wrapped("read header", hdr.error)); }
      if hdr.value[0] != 0x46 || hdr.value[1] != 0x4C || hdr.value[2] != 0x56 { return null, Some(BadMagic); }
      assert hdr.value[..3] == HEADER[..3];
      r, problem := rd, None;
    }

    /** io.ReadFull: on failure everything that was left has been consumed. */
    method Fill(n: nat) returns (r: Result<seq<byte>>)
      modifies this
      ensures r == ReadFull(old(input), n)
      ensures input == if r.Ok? then r.rest else []
    {
      r := ReadFull(input, n);
      input := if r.Ok? then r.rest else [];
    }

    /** The tag's payload and trailer, read into a packet from the pool; on failure the packet is
        released. */
    method Payload(size: nat, reuse: bool) returns (pkt: AVPacket?, problem: Option<Error>)
      requires pool.Valid()
      modifies this, pool, pool.free, set p | p in pool.free :: p.buf
      ensures pool.Valid()
      ensures match ReadFull(old(input), size)
              case Err(e) => pkt == null && problem == Some(Wrapped("read tag data", e)) && input == []
              case Ok(data, trailer) =>
                match ReadFull(trailer, 4)
                case Err(e) => pkt == null && problem == Some(Wrapped("read prevTagSize", e)) && input == []
                case Ok(_, rest) => pkt != null && problem == None && input == rest && pkt.Valid() && pkt.Data() == data
      ensures pkt == null ==> old(pool.free) <= pool.free
      ensures pkt != null ==>
                && (fresh(pkt) || pkt in old(pool.free)) && pkt.refs == 1 && pkt !in pool.free && pool.free <= old(pool.free)
                && pkt.kind == 0 && pkt.timestamp == 0 && !pkt.keyframe
    {
      var p := pool.NewAVPacket(size, reuse);
      var data := Fill(size);
      if data.Err? {
        pool.Release(p);
        return null, Some(Wrapped("read tag data", data.error));
      }
      Put(p.buf, 0, data.value);
      var prev := Fill(4);
      if prev.Err? {
        pool.Release(p);
        return null, Some(Wrapped("read prevTagSize", prev.error));
      }
      pkt, problem := p, None;
    }

    /** Next: the next packet with one reference, exactly as NextTag decodes it; or the error, with every
        packet taken from the pool back in it. */
    method Next(reuse: bool) returns (pkt: AVPacket?, problem: Option<Error>)
      requires pool.Valid()
      modifies this, pool, pool.free, set p | p in pool.free :: p.buf
      ensures pool.Valid()
      ensures match NextTag(old(input))
              case Ok(c, rest) => pkt != null && problem == None && input == rest && pkt.Valid() && pkt.Snapshot() == c
              case Err(e) => pkt == null && problem == Some(e) && input == []
      ensures pkt == null ==> old(pool.free) <= pool.free
      ensures pkt != null ==> (fresh(pkt) || pkt in old(pool.free)) && pkt.refs == 1 && pkt !in pool.free
    {
      var hdr := Fill(11);
      if hdr.Err? { return null, Some(hdr.error); }
      var h := hdr.value;
      FromThree(h[1..4]);
      var dataLen := h[1] as nat * 0x1_0000 + h[2] as nat * 0x100 + h[3] as nat;
      pkt, problem := Payload(dataLen, reuse);
      if pkt != null {
        Stamp(pkt, h);
      }
    }

    /** The packet's fields, from the tag header and the payload's first byte. */
    static method Stamp(pkt: AVPacket, h: seq<byte>)
      requires |h| == 11 && pkt.Valid() && !pkt.keyframe
      modifies pkt`kind, pkt`timestamp, pkt`keyframe
      ensures pkt.Snapshot() == Decoded(h[0], TagTimestamp(h), old(pkt.Data()))
    {
      FromThree(h[4..7]);
      pkt.kind := h[0];
      pkt.timestamp := h[4] as nat * 0x1_0000 + h[5] as nat * 0x100 + h[6] as nat + h[7] as nat * 0x100_0000;
      if h[0] == PACKET_VIDEO && pkt.len > 0 {
        pkt.keyframe := pkt.buf[0] / 16 == 1;
      }
    }
  }
}
