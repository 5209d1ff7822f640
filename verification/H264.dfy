/** H.264 framing of internal/rtsp/ingester.go: FLV video bodies with 4-byte NAL unit lengths, and the
    AVCDecoderConfigurationRecord of ISO/IEC 14496-15:2010, section 5.2.4.1. */
module H264 {
  import opened Options
  import opened Packets
  import opened Bytes
  import opened Objects
  import opened Sequences
  import Flv

  type Nal = seq<byte>

  const IDR := 5
  const SPS := 7
  const PPS := 8
  const AUD := 9

  /** nal_unit_type, the low five bits of the first byte. */
  function NalType(n: Nal): nat requires n != [] { n[0] as nat % 32 }

  predicate IsType(n: Nal, t: nat) { n != [] && NalType(n) == t }

  // ---- which units a frame carries -------------------------------------------------------

  predicate Carried(n: Nal) { n != [] && NalType(n) != SPS && NalType(n) != PPS && NalType(n) != AUD }

  function Filter(nalus: seq<Nal>): seq<Nal> {
    if nalus == [] then []
    else Filter(nalus[..|nalus| - 1]) + (if Carried(nalus[|nalus| - 1]) then [nalus[|nalus| - 1]] else [])
  }

  predicate HasIdr(nalus: seq<Nal>) { exists n <- nalus :: IsType(n, IDR) }

  /** Units behind their 4-byte big-endian lengths. */
  function Avcc(units: seq<Nal>): seq<byte> {
    if units == [] then [] else Avcc(units[..|units| - 1]) + Be(|units[|units| - 1]|, 4) + units[|units| - 1]
  }

  function FrameBody(units: seq<Nal>, key: bool, cts: seq<byte>): seq<byte> {
    [if key then 0x17 else 0x27, 0x01] + cts + Avcc(units)
  }

  // ---- what a receiver makes of it -------------------------------------------------------

  function ParseAvcc(b: seq<byte>): (r: Option<seq<Nal>>)
    decreases |b|
  {
    if b == [] then Some([])
    else if |b| < 4 then None
    else
      var n := FromBe(b[..4]);
      if |b| - 4 < n then None
      else match ParseAvcc(b[4 + n..])
        case None => None
        case Some(us) => Some([b[4..4 + n]] + us)
  }

  lemma {:induction false} AvccCons(u: Nal, us: seq<Nal>)
    ensures Avcc([u] + us) == Be(|u|, 4) + u + Avcc(us)
  {
    if us == [] {
      assert [u] + us == [u] && [u][..0] == [];
    } else {
      var init, last := us[..|us| - 1], us[|us| - 1];
      assert ([u] + us)[..|us|] == [u] + init;
      AvccCons(u, init);
    }
  }

  lemma ParseOne(u: Nal, rest: seq<byte>)
    requires |u| < 0x1_0000_0000
    ensures ParseAvcc(Be(|u|, 4) + u + rest)
            == match ParseAvcc(rest) case None => None case Some(us) => Some([u] + us)
  {
    var b := Be(|u|, 4) + u + rest;
    Widths();
    BeRoundTrip(|u|, 4);
    assert b[..4] == Be(|u|, 4) && b[4..4 + |u|] == u && b[4 + |u|..] == rest;
  }

  predicate LengthsFit(units: seq<Nal>) { forall u <- units :: |u| < 0x1_0000_0000 }

  lemma OversizeUnit(u: Nal, rest: seq<byte>)
    requires |u| >= 0x1_0000_0000
    ensures var r := ParseAvcc(Be(|u|, 4) + u + rest); r.Some? ==> r.value != [] && |r.value[0]| < |u|
  {
  }

  /** Units come back from their length-prefixed form, in order, if and only if every length fits its
      32-bit field. */
  lemma {:induction false} AvccRoundTrip(units: seq<Nal>)
    ensures ParseAvcc(Avcc(units)) == Some(units) <==> LengthsFit(units)
  {
    if units != [] {
      var u, us := units[0], units[1..];
      assert units == [u] + us;
      AvccCons(u, us);
      AvccRoundTrip(us);
      if |u| < 0x1_0000_0000 {
        ParseOne(u, Avcc(us));
        assert forall r: seq<Nal> :: [u] + r == units ==> r == ([u] + r)[1..] == us;
      } else {
        OversizeUnit(u, Avcc(us));
      }
    }
  }

  lemma FilterSnoc(nalus: seq<Nal>, n: Nal)
    ensures Filter(nalus + [n]) == if Carried(n) then Filter(nalus) + [n] else Filter(nalus)
  {
  }

  /** The carried units keep their order... */
  lemma {:induction false} FilterOrder(nalus: seq<Nal>)
    ensures IsSubseq(Filter(nalus), nalus)
  {
    if nalus != [] {
      var init, last := nalus[..|nalus| - 1], nalus[|nalus| - 1];
      assert nalus == init + [last];
      FilterOrder(init);
      FilterSnoc(init, last);
      SubseqSnoc(Filter(init), init, last);
    }
  }

  /** ... and each non-empty unit of a type other than 7, 8 and 9 is carried as often as it occurs. */
  lemma {:induction false} FilterCounts(nalus: seq<Nal>, n: Nal)
    ensures multiset(Filter(nalus))[n] ==
            if n != [] && n[0] as nat % 32 != 7 && n[0] as nat % 32 != 8 && n[0] as nat % 32 != 9 then multiset(nalus)[n] else 0
  {
    if nalus != [] {
      var init, last := nalus[..|nalus| - 1], nalus[|nalus| - 1];
      assert nalus == init + [last];
      FilterCounts(init, n);
      FilterSnoc(init, last);
    }
  }

  // ---- decoder configuration -------------------------------------------------------------

  function ConfigRecord(sps: Nal, pps: Nal): (r: seq<byte>)
    requires |sps| >= 4
  {
    [0x01, sps[1], sps[2], sps[3], 0xFF, 0xE1] + Be(|sps|, 2) + sps + [0x01] + Be(|pps|, 2) + pps
  }

  /** Reading a record with one SPS and one PPS: version 1, 4-byte lengths, nothing after the PPS. */
  function ParseConfig(b: seq<byte>): Option<(Nal, Nal)> {
    if |b| < 8 || b[0] != 1 || b[4] % 4 != 3 || b[5] % 32 != 1 then None
    else
      var n := FromBe(b[6..8]);
      if |b| < 8 + n + 3 || b[8 + n] != 1 then None
      else
        var m := FromBe(b[9 + n..11 + n]);
        if |b| != 11 + n + m then None else Some((b[8..8 + n], b[11 + n..]))
  }

  lemma TwoByteField(n: nat)
    ensures FromBe(Be(n, 2)) < 0x1_0000 && (n < 0x1_0000 ==> FromBe(Be(n, 2)) == n)
  {
  }

  /** The record decodes to exactly the SPS and PPS it was built from if and only if both fit their
      16-bit length fields. */
  lemma ConfigRoundTrip(sps: Nal, pps: Nal)
    requires |sps| >= 4
    ensures ParseConfig(ConfigRecord(sps, pps)) == Some((sps, pps)) <==> |sps| <= 0xFFFF && |pps| <= 0xFFFF
    ensures var b := ConfigRecord(sps, pps);
            b[0] == 1 && b[1..4] == sps[1..4] && b[4] as nat % 4 == 3 && b[5] as nat % 32 == 1
  {
    var b := ConfigRecord(sps, pps);
    TwoByteField(|sps|);
    TwoByteField(|pps|);
    assert b[6..8] == Be(|sps|, 2);
    if |sps| <= 0xFFFF {
      assert b[8..8 + |sps|] == sps && b[8 + |sps|] == 1;
      assert b[9 + |sps|..11 + |sps|] == Be(|pps|, 2);
      assert b[11 + |sps|..] == pps;
    }
  }

  function SeqHeaderBody(record: seq<byte>, cts: seq<byte>): seq<byte> { [0x17, 0x00] + cts + record }

  // ---- what a frame and a sequence header are --------------------------------------------

  predicate IsFrameOf(c: Content, nalus: seq<Nal>) {
    c.kind == PACKET_VIDEO && c.keyframe == HasIdr(nalus) && |c.data| >= 5
    && c.data == FrameBody(Filter(nalus), HasIdr(nalus), c.data[2..5])
  }

  predicate IsHeaderOf(c: Content, sps: Nal, pps: Nal) {
    |sps| >= 4 && c.kind == PACKET_VIDEO && c.keyframe && c.timestamp == 0 && |c.data| >= 5
    && c.data == SeqHeaderBody(ConfigRecord(sps, pps), c.data[2..5])
  }

  predicate IsSeqHeader(c: Content) { |c.data| >= 2 && c.data[1] == 0x00 }

  /** A frame body gives back exactly its non-empty units of types other than 7, 8 and 9, in order,
      when every length fits 32 bits and only then; its first byte says what the keyframe flag says,
      so FLV carries the flag too. */
  lemma FrameDecodes(c: Content, nalus: seq<Nal>)
    requires IsFrameOf(c, nalus)
    ensures ParseAvcc(c.data[5..]) == Some(Filter(nalus)) <==> LengthsFit(Filter(nalus))
    ensures Flv.Normal(c) == c && !IsSeqHeader(c)
    ensures c.data[0] as nat % 16 == 7 && c.data[1] == 1
    ensures c.keyframe <==> exists n <- nalus :: n != [] && n[0] as nat % 32 == 5
  {
    assert c.data[5..] == Avcc(Filter(nalus));
    AvccRoundTrip(Filter(nalus));
  }

  lemma HeaderDecodes(c: Content, sps: Nal, pps: Nal)
    requires IsHeaderOf(c, sps, pps)
    ensures ParseConfig(c.data[5..]) == Some((sps, pps)) <==> |sps| <= 0xFFFF && |pps| <= 0xFFFF
    ensures Flv.Normal(c) == c && IsSeqHeader(c)
    ensures c.data[0] as nat % 16 == 7 && c.data[1] == 0
  {
    assert c.data[5..] == ConfigRecord(sps, pps);
    ConfigRoundTrip(sps, pps);
  }

  // ---- the builders ----------------------------------------------------------------------

  lemma HasIdrSnoc(nalus: seq<Nal>, n: Nal)
    ensures HasIdr(nalus + [n]) <==> HasIdr(nalus) || IsType(n, IDR)
  {
  }

  method FilterUnits(nalus: seq<Nal>) returns (filtered: seq<Nal>, isKeyframe: bool)
    ensures filtered == Filter(nalus) && isKeyframe == HasIdr(nalus)
  {
    filtered, isKeyframe := [], false;
    var i := 0;
    while i < |nalus|
      invariant i <= |nalus| && filtered == Filter(nalus[..i]) && isKeyframe == HasIdr(nalus[..i])
    {
      var n := nalus[i];
      HasIdrSnoc(nalus[..i], n);
      assert nalus[..i + 1] == nalus[..i] + [n];
      if n != [] {
        var t := NalType(n);
        if t == IDR {
          isKeyframe := true;
          filtered := filtered + [n];
        } else if t != SPS && t != PPS && t != AUD {
          filtered := filtered + [n];
        }
      }
      i := i + 1;
    }
    assert nalus[..|nalus|] == nalus;
  }

  lemma AvccSnoc(units: seq<Nal>, i: nat)
    requires i < |units|
    ensures Avcc(units[..i + 1]) == Avcc(units[..i]) + (Be(|units[i]|, 4) + units[i])
  {
    assert units[..i + 1][..i] == units[..i];
  }

  /** The first pass. */
  method TotalSize(filtered: seq<Nal>) returns (total: nat)
    ensures total == 5 + |Avcc(filtered)|
  {
    total := 5;
    var i := 0;
    while i < |filtered|
      invariant i <= |filtered| && total == 5 + |Avcc(filtered[..i])|
    {
      AvccSnoc(filtered, i);
      total := total + 4 + |filtered[i]|;
      i := i + 1;
    }
    assert filtered[..|filtered|] == filtered;
  }

  /** buildVideoFrame: nothing when no unit is carried, else the whole buffer filled with the frame.
      Bytes 2..4, the composition time, are never written: zeros in a fresh buffer, the old bytes in
      a reused one. */
  method BuildVideoFrame(nalus: seq<Nal>, pool: PacketPool, reuse: bool) returns (pkt: AVPacket?)
    requires pool.Valid()
    modifies pool, pool.free, set p | p in pool.free :: p.buf
    ensures pool.Valid() && pool.free <= old(pool.free) && forall q <- pool.free :: unchanged(q)
    ensures pkt != null ==> pkt !in pool.free && (fresh(pkt) || pkt in old(pool.free))
    ensures pkt == null <==> Filter(nalus) == []
    ensures pkt != null ==>
              && pkt.Valid() && pkt.refs == 1 && pkt.kind == PACKET_VIDEO && pkt.keyframe == HasIdr(nalus)
              && pkt.len == 5 + |Avcc(Filter(nalus))|
              && pkt.Data() == FrameBody(Filter(nalus), HasIdr(nalus), pkt.Data()[2..5])
              && (fresh(pkt.buf) ==> pkt.Data()[2..5] == [0, 0, 0])
              && (!fresh(pkt.buf) ==> var b := pkt.buf; b.Length >= 5 && pkt.Data()[2..5] == old(b[2..5]))
  {
    var filtered, isKeyframe := FilterUnits(nalus);
    if filtered == [] {
      return null;
    }
    var total := TotalSize(filtered);
    pkt := VideoPacket(total, isKeyframe, pool, reuse);
    ghost var cts := pkt.Data()[2..5];
    FillFrame(pkt, filtered, isKeyframe);
    assert pkt.Data()[2..5] == cts;
  }

  /** A pool packet marked as video. */
  method VideoPacket(size: nat, keyframe: bool, pool: PacketPool, reuse: bool) returns (p: AVPacket)
    requires pool.Valid() && size >= 5
    modifies pool, pool.free
    ensures pool.Valid() && pool.free <= old(pool.free) && forall q <- pool.free :: unchanged(q)
    ensures p !in pool.free && (fresh(p) || p in old(pool.free))
    ensures p.Valid() && p.refs == 1 && p.len == size
    ensures p.kind == PACKET_VIDEO && p.keyframe == keyframe && p.timestamp == 0
    ensures fresh(p.buf) ==> p.Data()[2..5] == [0, 0, 0]
    ensures !fresh(p.buf) ==> !fresh(p) && p.buf == old(p.buf) && p.Data()[2..5] == old(p.buf[2..5])
  {
    p := pool.NewAVPacket(size, reuse);
    ghost var data := p.Data();
    assert data[2..5] == [data[2], data[3], data[4]];
    p.kind := PACKET_VIDEO;
    p.keyframe := keyframe;
    assert p.Data() == data;
    if !fresh(p.buf) {
      ghost var was := old(p.buf[..]);
      assert data == was[..size];
      assert data[2..5] == was[2..5];
    }
  }

  /** One unit behind its length. */
  method PutUnit(buf: array<byte>, pos: nat, n: Nal)
    requires pos + 4 + |n| <= buf.Length
    modifies buf
    ensures buf[..pos + 4 + |n|] == old(buf[..pos]) + (Be(|n|, 4) + n)
  {
    Put(buf, pos, Be(|n|, 4));
    Put(buf, pos + 4, n);
  }

  lemma UnitAppended(head: seq<byte>, units: seq<Nal>, i: nat)
    requires i < |units|
    ensures head + Avcc(units[..i]) + (Be(|units[i]|, 4) + units[i]) == head + Avcc(units[..i + 1])
    ensures |Avcc(units[..i])| + 4 + |units[i]| == |Avcc(units[..i + 1])| <= |Avcc(units)|
  {
    AvccSnoc(units, i);
    AvccPrefix(units, i + 1);
  }

  /** The second pass, with `pos` running from 5 to the end. */
  method FillUnits(buf: array<byte>, filtered: seq<Nal>)
    requires buf.Length >= 5 + |Avcc(filtered)|
    modifies buf
    ensures buf[..5 + |Avcc(filtered)|] == old(buf[..5]) + Avcc(filtered)
  {
    ghost var head := buf[..5];
    var pos, i := 5, 0;
    assert filtered[..0] == [];
    while i < |filtered|
      invariant i <= |filtered| && pos == 5 + |Avcc(filtered[..i])| <= buf.Length
      invariant buf[..pos] == head + Avcc(filtered[..i])
    {
      UnitAppended(head, filtered, i);
      PutUnit(buf, pos, filtered[i]);
      pos := pos + 4 + |filtered[i]|;
      i := i + 1;
    }
    assert filtered[..|filtered|] == filtered;
  }

  method FillFrame(p: AVPacket, filtered: seq<Nal>, isKeyframe: bool)
    requires p.Valid() && p.len == 5 + |Avcc(filtered)|
    modifies p.buf
    ensures p.Data() == FrameBody(filtered, isKeyframe, old(p.buf[2..5]))
  {
    p.buf[0] := if isKeyframe then 0x17 else 0x27;
    p.buf[1] := 0x01;
    assert p.buf[..5] == [if isKeyframe then 0x17 else 0x27, 0x01] + old(p.buf[2..5]);
    FillUnits(p.buf, filtered);
  }

  lemma {:induction false} AvccPrefix(units: seq<Nal>, k: nat)
    requires k <= |units|
    ensures |Avcc(units[..k])| <= |Avcc(units)|
    decreases |units| - k
  {
    if k < |units| {
      assert units[..k + 1][..k] == units[..k];
      AvccPrefix(units, k + 1);
    } else {
      assert units[..k] == units;
    }
  }

  /** buildVideoSeqHeader. */
  method BuildVideoSeqHeader(sps: Nal, pps: Nal, pool: PacketPool, reuse: bool) returns (pkt: AVPacket)
    requires pool.Valid() && |sps| >= 4
    modifies pool, pool.free, set p | p in pool.free :: p.buf
    ensures pool.Valid() && pool.free <= old(pool.free) && forall q <- pool.free :: unchanged(q)
    ensures pkt !in pool.free && (fresh(pkt) || pkt in old(pool.free))
    ensures pkt.Valid() && pkt.refs == 1 && pkt.kind == PACKET_VIDEO && pkt.keyframe && pkt.timestamp == 0
    ensures pkt.len == 5 + |ConfigRecord(sps, pps)|
    ensures pkt.Data() == SeqHeaderBody(ConfigRecord(sps, pps), pkt.Data()[2..5])
    ensures (fresh(pkt.buf) ==> pkt.Data()[2..5] == [0, 0, 0])
            && (!fresh(pkt.buf) ==> var b := pkt.buf; b.Length >= 5 && pkt.Data()[2..5] == old(b[2..5]))
  {
    var record := ConfigRecord(sps, pps);
    pkt := VideoPacket(5 + |record|, true, pool, reuse);
    ghost var cts := pkt.Data()[2..5];
    FillHeader(pkt, record);
    assert pkt.Data()[2..5] == cts;
  }

  /** The bytes of a sequence header, but for the composition time. */
  method FillHeader(p: AVPacket, record: seq<byte>)
    requires p.Valid() && p.len == 5 + |record|
    modifies p.buf
    ensures p.Data() == SeqHeaderBody(record, old(p.Data()[2..5]))
  {
    p.buf[0] := 0x17;
    p.buf[1] := 0x00;
    ghost var before := p.buf[..5];
    Put(p.buf, 5, record);
    assert before == [0x17, 0x00] + old(p.Data()[2..5]);
    assert p.Data() == before + record;
  }
}
