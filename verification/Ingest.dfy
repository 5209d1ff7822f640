/** The RTP callbacks of internal/rtsp/ingester.go: parameter-set tracking, sequence headers before
    frames, and RTP clocks turned into milliseconds. */
module Ingest {
  import opened Options
  import opened Packets
  import opened Objects
  import opened H264

  // ---- timestamps ------------------------------------------------------------------------

  const WORD := 0x1_0000_0000

  /** uint32 subtraction. */
  function Elapsed(first: nat, now: nat): (e: nat)
    requires first < WORD && now < WORD
    ensures e < WORD
  {
    (now + WORD - first) % WORD
  }

  function VideoMs(first: nat, now: nat): nat
    requires first < WORD && now < WORD
  {
    Elapsed(first, now) / 90
  }

  /** uint32(uint64(ticks) * 1000 / uint64(rate)) */
  function Scaled(ticks: nat, rate: nat): nat
    requires ticks < WORD && rate > 0
  {
    (ticks * 1000 % (WORD * WORD) / rate) % WORD
  }

  function AudioMs(first: nat, now: nat, rate: nat): nat
    requires first < WORD && now < WORD && rate > 0
  {
    Scaled(Elapsed(first, now), rate)
  }

  lemma ElapsedUndoesWrap(first: nat, ticks: nat)
    requires first < WORD && ticks < WORD
    ensures Elapsed(first, (first + ticks) % WORD) == ticks
  {
  }

  lemma MulMonotone(a: int, b: int, c: nat)
    requires a <= b
    ensures a * c <= b * c
  {
  }

  /** The floor of x/rate is the only q with q * rate <= x < (q + 1) * rate; a larger x has no
      smaller one. */
  lemma FloorMonotone(x: nat, y: nat, rate: nat)
    requires rate > 0 && x <= y
    ensures x / rate * rate <= x < (x / rate + 1) * rate
    ensures x / rate <= y / rate
  {
    var p, q := x / rate, y / rate;
    assert x == p * rate + x % rate && y == q * rate + y % rate;
    assert (q + 1) * rate == q * rate + rate && (p + 1) * rate == p * rate + rate;
    assert q + 1 <= p ==> (q + 1) * rate <= p * rate by { if q + 1 <= p { MulMonotone(q + 1, p, rate); } }
  }

  /** For any first timestamp, across wrap-around, the video clock shows the floor of the true time
      in milliseconds: less than 1 ms behind, and never running backward. */
  lemma VideoClock(first: nat, ticks: nat, later: nat)
    requires first < WORD && ticks <= later < WORD
    ensures var ms := VideoMs(first, (first + ticks) % WORD);
            ms == ticks / 90 && ms * 90 <= ticks < (ms + 1) * 90
            && ms <= VideoMs(first, (first + later) % WORD)
  {
    ElapsedUndoesWrap(first, ticks);
    ElapsedUndoesWrap(first, later);
  }

  lemma SmallWord(x: nat, width: nat)
    requires x < width
    ensures x % width == x
  {
  }

  lemma ScaledIsFloor(ticks: nat, rate: nat)
    requires ticks < WORD && rate > 0
    ensures Scaled(ticks, rate) == (ticks * 1000 / rate) % WORD
  {
  }

  lemma AudioFits(ticks: nat, rate: nat)
    requires ticks < WORD && rate >= 1000
    ensures ticks * 1000 / rate <= ticks
  {
  }

  lemma ScaledExact(ticks: nat, rate: nat)
    requires ticks < WORD && rate >= 1000
    ensures Scaled(ticks, rate) == ticks * 1000 / rate
  {
    ScaledIsFloor(ticks, rate);
    AudioFits(ticks, rate);
    SmallWord(ticks * 1000 / rate, WORD);
  }

  lemma AudioExact(first: nat, ticks: nat, rate: nat)
    requires first < WORD && ticks < WORD && rate >= 1000
    ensures AudioMs(first, (first + ticks) % WORD, rate) == ticks * 1000 / rate
  {
    ElapsedUndoesWrap(first, ticks);
    ScaledExact(ticks, rate);
  }

  lemma AudioWraps(first: nat, rate: nat)
    requires first < WORD && 0 < rate < 1000
    ensures AudioMs(first, (first + (WORD - 1)) % WORD, rate) != (WORD - 1) * 1000 / rate
  {
  }

  /** The audio clock shows the floor of the true time for every offset under 2^32 ticks if and only
      if the sample rate is at least 1000. */
  lemma AudioClock(first: nat, rate: nat)
    requires first < WORD && rate > 0
    ensures (forall ticks: nat | ticks < WORD :: AudioMs(first, (first + ticks) % WORD, rate) == ticks * 1000 / rate)
            <==> rate >= 1000
  {
    if rate >= 1000 {
      forall ticks: nat | ticks < WORD
        ensures AudioMs(first, (first + ticks) % WORD, rate) == ticks * 1000 / rate
      {
        AudioExact(first, ticks, rate);
      }
    } else {
      AudioWraps(first, rate);
    }
  }

  lemma AudioNeverRunsBackward(first: nat, ticks: nat, later: nat, rate: nat)
    requires first < WORD && ticks <= later < WORD && rate >= 1000
    ensures var ms := AudioMs(first, (first + ticks) % WORD, rate);
            ms * rate <= ticks * 1000 < (ms + 1) * rate && ms <= AudioMs(first, (first + later) % WORD, rate)
  {
    AudioExact(first, ticks, rate);
    AudioExact(first, later, rate);
    FloorMonotone(ticks * 1000, later * 1000, rate);
  }

  // ---- parameter sets --------------------------------------------------------------------

  /** The last unit of a type, as extractSPSPPS finds it. */
  function LastOfType(nalus: seq<Nal>, t: nat): Option<Nal> {
    if nalus == [] then None
    else if IsType(nalus[|nalus| - 1], t) then Some(nalus[|nalus| - 1])
    else LastOfType(nalus[..|nalus| - 1], t)
  }

  function OrElse(found: Option<Nal>, current: Nal): Nal { if found.Some? then found.value else current }

  /** A unit of type `t`: the low five bits of its first byte. */
  predicate OfType(n: Nal, t: nat) { n != [] && n[0] as nat % 32 == t }

  predicate NoneFrom(nalus: seq<Nal>, from: nat, t: nat) { forall j | from <= j < |nalus| :: !OfType(nalus[j], t) }

  /** By positions: the unit of the type after which there is no other, or that there is none. */
  ghost predicate IsLastUnit(nalus: seq<Nal>, t: nat, r: Option<Nal>) {
    match r
    case None => NoneFrom(nalus, 0, t)
    case Some(n) => exists i | 0 <= i < |nalus| :: nalus[i] == n && OfType(n, t) && NoneFrom(nalus, i + 1, t)
  }

  lemma {:induction false} LastByPositions(nalus: seq<Nal>, t: nat)
    ensures IsLastUnit(nalus, t, LastOfType(nalus, t))
  {
    if nalus != [] {
      var n := |nalus| - 1;
      LastByPositions(nalus[..n], t);
      if OfType(nalus[n], t) {
        assert NoneFrom(nalus, n + 1, t);
      } else if LastOfType(nalus, t).Some? {
        var i :| 0 <= i < n && nalus[..n][i] == LastOfType(nalus, t).value && NoneFrom(nalus[..n], i + 1, t);
        assert forall j | i < j < n :: nalus[..n][j] == nalus[j];
        assert nalus[i] == LastOfType(nalus, t).value && NoneFrom(nalus, i + 1, t);
      } else {
        assert forall j | 0 <= j < n :: nalus[..n][j] == nalus[j];
      }
    }
  }

  lemma OneLastUnit(nalus: seq<Nal>, t: nat, r: Option<Nal>, r': Option<Nal>)
    requires IsLastUnit(nalus, t, r) && IsLastUnit(nalus, t, r')
    ensures r == r'
  {
    if r.Some? && r'.Some? {
      var i :| 0 <= i < |nalus| && nalus[i] == r.value && OfType(r.value, t) && NoneFrom(nalus, i + 1, t);
      var j :| 0 <= j < |nalus| && nalus[j] == r'.value && OfType(r'.value, t) && NoneFrom(nalus, j + 1, t);
      assert i == j;
    }
  }

  /** extractSPSPPS: the last unit of type 7 and the last of type 8, wherever they stand in the access
      unit. */
  method ExtractSPSPPS(nalus: seq<Nal>) returns (sps: Option<Nal>, pps: Option<Nal>)
    ensures IsLastUnit(nalus, 7, sps) && IsLastUnit(nalus, 8, pps)
  {
    sps, pps := None, None;
    var i := 0;
    while i < |nalus|
      invariant i <= |nalus| && sps == LastOfType(nalus[..i], SPS) && pps == LastOfType(nalus[..i], PPS)
    {
      assert nalus[..i + 1][..i] == nalus[..i];
      var n := nalus[i];
      if n != [] {
        if NalType(n) == SPS {
          sps := Some(n);
        } else if NalType(n) == PPS {
          pps := Some(n);
        }
      }
      i := i + 1;
    }
    assert nalus[..|nalus|] == nalus;
    LastByPositions(nalus, 7);
    LastByPositions(nalus, 8);
  }

  // ---- the video callback ----------------------------------------------------------------

  /** The callback's variables and, in order, everything handed to Ingest. */
  datatype Track = Track(sps: Nal, pps: Nal, first: Option<nat>, out: seq<Content>)

  datatype AccessUnit = AccessUnit(nalus: seq<Nal>, rtp: nat)

  predicate Complete(sps: Nal, pps: Nal) { |sps| >= 4 && pps != [] }

  /** The access unit brings parameter sets, and then both are there. */
  predicate Headed(t': Track, au: AccessUnit) {
    (LastOfType(au.nalus, SPS).Some? || LastOfType(au.nalus, PPS).Some?) && Complete(t'.sps, t'.pps)
  }

  /** One access unit: newly found parameter sets first bring a sequence header, then comes the frame
      if any unit is carried; the first frame starts the clock. */
  predicate TrackStep(t: Track, t': Track, au: AccessUnit) {
    var sps, pps := LastOfType(au.nalus, SPS), LastOfType(au.nalus, PPS);
    var header := Headed(t', au);
    var frame := Filter(au.nalus) != [];
    var n := |t.out|;
    && t'.sps == OrElse(sps, t.sps) && t'.pps == OrElse(pps, t.pps)
    && t'.first == (if frame && t.first.None? then Some(au.rtp) else t.first)
    && t.out <= t'.out && |t'.out| == n + (if header then 1 else 0) + (if frame then 1 else 0)
    && (header ==> IsHeaderOf(t'.out[n], t'.sps, t'.pps))
    && (frame ==>
          IsFrameOf(t'.out[|t'.out| - 1], au.nalus)
          && au.rtp < WORD && t'.first.value < WORD
          && t'.out[|t'.out| - 1].timestamp == VideoMs(t'.first.value, au.rtp))
  }

  /** Before the first access unit: the session description's parameter sets, already announced. */
  predicate TrackStart(t: Track) {
    t.first.None? && if Complete(t.sps, t.pps) then |t.out| == 1 && IsHeaderOf(t.out[0], t.sps, t.pps) else t.out == []
  }

  predicate TrackRun(ts: seq<Track>, aus: seq<AccessUnit>) {
    |ts| == |aus| + 1 && TrackStart(ts[0]) && forall i | 0 <= i < |aus| :: TrackStep(ts[i], ts[i + 1], aus[i])
  }

  /** The last sequence header handed to Ingest. */
  function LastHeader(out: seq<Content>): Option<Content> {
    if out == [] then None
    else if IsSeqHeader(out[|out| - 1]) then Some(out[|out| - 1])
    else LastHeader(out[..|out| - 1])
  }

  predicate Announced(t: Track) {
    Complete(t.sps, t.pps) ==> LastHeader(t.out).Some? && IsHeaderOf(LastHeader(t.out).value, t.sps, t.pps)
  }

  lemma LastHeaderSnoc(out: seq<Content>, c: Content)
    ensures LastHeader(out + [c]) == if IsSeqHeader(c) then Some(c) else LastHeader(out)
  {
  }

  /** What a step adds: at most a header, then at most a frame. */
  lemma StepAppends(t: Track, t': Track, au: AccessUnit)
    requires TrackStep(t, t', au)
    ensures var frame := Filter(au.nalus) != [];
            var before := if frame then t'.out[..|t'.out| - 1] else t'.out;
            && LastHeader(t'.out) == LastHeader(before)
            && if Headed(t', au) then
                 |before| == |t.out| + 1 && before[..|t.out|] == t.out && IsHeaderOf(before[|t.out|], t'.sps, t'.pps)
               else before == t.out
  {
  }

  lemma StepAnnounces(t: Track, t': Track, au: AccessUnit)
    requires Announced(t) && TrackStep(t, t', au)
    ensures Announced(t')
  {
    StepAppends(t, t', au);
    var before := if Filter(au.nalus) != [] then t'.out[..|t'.out| - 1] else t'.out;
    if Headed(t', au) {
      var h := before[|t.out|];
      HeaderDecodes(h, t'.sps, t'.pps);
      LastHeaderSnoc(t.out, h);
      assert before == t.out + [h];
    }
  }

  lemma {:induction false} RunAnnounces(ts: seq<Track>, aus: seq<AccessUnit>, i: nat)
    requires TrackRun(ts, aus) && i <= |aus|
    ensures Announced(ts[i])
  {
    if i == 0 {
      if Complete(ts[0].sps, ts[0].pps) { HeaderDecodes(ts[0].out[0], ts[0].sps, ts[0].pps); }
    } else {
      RunAnnounces(ts, aus, i - 1);
      StepAnnounces(ts[i - 1], ts[i], aus[i - 1]);
    }
  }

  /** The parameter sets in force after some access units: the latest received, else the given one. */
  function InForce(initial: Nal, t: nat, aus: seq<AccessUnit>): Nal {
    if aus == [] then initial
    else OrElse(LastOfType(aus[|aus| - 1].nalus, t), InForce(initial, t, aus[..|aus| - 1]))
  }

  lemma {:induction false} TrackFollows(ts: seq<Track>, aus: seq<AccessUnit>, i: nat)
    requires TrackRun(ts, aus) && i <= |aus|
    ensures ts[i].sps == InForce(ts[0].sps, SPS, aus[..i]) && ts[i].pps == InForce(ts[0].pps, PPS, aus[..i])
  {
    if i > 0 {
      TrackFollows(ts, aus, i - 1);
      assert aus[..i][..i - 1] == aus[..i - 1];
      assert TrackStep(ts[i - 1], ts[i], aus[i - 1]);
    }
  }

  predicate NoneAfter(aus: seq<AccessUnit>, from: nat, t: nat) { forall a | from <= a < |aus| :: NoneFrom(aus[a].nalus, 0, t) }

  /** By positions: the last unit of the type in any access unit received, else, when none has one, the given
      one. */
  ghost predicate IsInForce(initial: Nal, t: nat, aus: seq<AccessUnit>, r: Nal) {
    (r == initial && NoneAfter(aus, 0, t))
    || exists a | 0 <= a < |aus| :: IsLastUnit(aus[a].nalus, t, Some(r)) && NoneAfter(aus, a + 1, t)
  }

  lemma {:induction false} InForceByPositions(initial: Nal, t: nat, aus: seq<AccessUnit>)
    ensures IsInForce(initial, t, aus, InForce(initial, t, aus))
  {
    if aus != [] {
      var n := |aus| - 1;
      var before, r := aus[..n], InForce(initial, t, aus);
      InForceByPositions(initial, t, before);
      LastByPositions(aus[n].nalus, t);
      if LastOfType(aus[n].nalus, t).Some? {
        assert IsLastUnit(aus[n].nalus, t, Some(r)) && NoneAfter(aus, n + 1, t);
      } else if exists a | 0 <= a < |before| :: IsLastUnit(before[a].nalus, t, Some(r)) && NoneAfter(before, a + 1, t) {
        var a :| 0 <= a < |before| && IsLastUnit(before[a].nalus, t, Some(r)) && NoneAfter(before, a + 1, t);
        assert forall x | 0 <= x < n :: before[x] == aus[x];
        assert IsLastUnit(aus[a].nalus, t, Some(r)) && NoneAfter(aus, a + 1, t);
      } else {
        assert forall x | 0 <= x < n :: before[x] == aus[x];
      }
    }
  }

  lemma OneInForce(initial: Nal, t: nat, aus: seq<AccessUnit>, r: Nal, r': Nal)
    requires IsInForce(initial, t, aus, r) && IsInForce(initial, t, aus, r')
    ensures r == r'
  {
    if exists a | 0 <= a < |aus| :: IsLastUnit(aus[a].nalus, t, Some(r)) && NoneAfter(aus, a + 1, t) {
      var a :| 0 <= a < |aus| && IsLastUnit(aus[a].nalus, t, Some(r)) && NoneAfter(aus, a + 1, t);
      assert !NoneFrom(aus[a].nalus, 0, t);
      var b :| 0 <= b < |aus| && IsLastUnit(aus[b].nalus, t, Some(r')) && NoneAfter(aus, b + 1, t);
      assert !NoneFrom(aus[b].nalus, 0, t);
      assert a == b;
      OneLastUnit(aus[a].nalus, t, Some(r), Some(r'));
    }
  }

  /** At every point of every run: when the parameter sets in force, the last units of types 7 and 8 received
      so far or the session description's, are complete, a decoder that takes the last sequence header
      handed to Ingest has exactly them (up to 65535 bytes each). */
  lemma DecoderIsConfigured(ts: seq<Track>, aus: seq<AccessUnit>, i: nat, sps: Nal, pps: Nal)
    requires TrackRun(ts, aus) && i <= |aus|
    requires IsInForce(ts[0].sps, 7, aus[..i], sps) && IsInForce(ts[0].pps, 8, aus[..i], pps)
    requires |sps| >= 4 && pps != []
    ensures var h := LastHeader(ts[i].out);
            h.Some? && |h.value.data| >= 5
            && (ParseConfig(h.value.data[5..]) == Some((sps, pps)) <==> |sps| <= 0xFFFF && |pps| <= 0xFFFF)
  {
    SetsInForce(ts, aus, i, sps, pps);
    RunAnnounces(ts, aus, i);
    HeaderDecodes(LastHeader(ts[i].out).value, sps, pps);
  }

  lemma SetsInForce(ts: seq<Track>, aus: seq<AccessUnit>, i: nat, sps: Nal, pps: Nal)
    requires TrackRun(ts, aus) && i <= |aus|
    requires IsInForce(ts[0].sps, 7, aus[..i], sps) && IsInForce(ts[0].pps, 8, aus[..i], pps)
    ensures ts[i].sps == sps && ts[i].pps == pps
  {
    TrackFollows(ts, aus, i);
    InForceByPositions(ts[0].sps, 7, aus[..i]);
    InForceByPositions(ts[0].pps, 8, aus[..i]);
    OneInForce(ts[0].sps, 7, aus[..i], sps, InForce(ts[0].sps, 7, aus[..i]));
    OneInForce(ts[0].pps, 8, aus[..i], pps, InForce(ts[0].pps, 8, aus[..i]));
  }

  /** The access unit has a unit to carry: one of a type other than 7, 8 and 9. */
  predicate Carries(nalus: seq<Nal>) {
    exists n <- nalus :: n != [] && n[0] as nat % 32 != 7 && n[0] as nat % 32 != 8 && n[0] as nat % 32 != 9
  }

  lemma {:induction false} CarriesSome(nalus: seq<Nal>)
    ensures Filter(nalus) != [] <==> Carries(nalus)
  {
    if nalus != [] {
      var init, last := nalus[..|nalus| - 1], nalus[|nalus| - 1];
      CarriesSome(init);
      assert nalus == init + [last];
    }
  }

  /** When a frame goes out with complete parameter sets in force, its decoder configuration is already out:
      also when all come in one access unit. */
  lemma HeaderPrecedesFrame(ts: seq<Track>, aus: seq<AccessUnit>, i: nat, sps: Nal, pps: Nal)
    requires TrackRun(ts, aus) && i < |aus| && Carries(aus[i].nalus)
    requires IsInForce(ts[0].sps, 7, aus[..i + 1], sps) && IsInForce(ts[0].pps, 8, aus[..i + 1], pps)
    requires |sps| >= 4 && pps != []
    ensures var out := ts[i + 1].out;
            && out != [] && IsFrameOf(out[|out| - 1], aus[i].nalus)
            && var h := LastHeader(out[..|out| - 1]);
               h.Some? && IsHeaderOf(h.value, sps, pps)
  {
    CarriesSome(aus[i].nalus);
    SetsInForce(ts, aus, i + 1, sps, pps);
    RunAnnounces(ts, aus, i + 1);
    assert TrackStep(ts[i], ts[i + 1], aus[i]);
    FrameDecodes(ts[i + 1].out[|ts[i + 1].out| - 1], aus[i].nalus);
  }

  /** An access unit brings a sequence header if and only if it has a unit of type 7 or 8 and the sets then in
      force are complete, and a frame if and only if it has a unit to carry; nothing else. */
  lemma OutputsExactly(ts: seq<Track>, aus: seq<AccessUnit>, i: nat, sps: Nal, pps: Nal)
    requires TrackRun(ts, aus) && i < |aus|
    requires IsInForce(ts[0].sps, 7, aus[..i + 1], sps) && IsInForce(ts[0].pps, 8, aus[..i + 1], pps)
    ensures var nalus := aus[i].nalus;
            var header := (!NoneFrom(nalus, 0, 7) || !NoneFrom(nalus, 0, 8)) && |sps| >= 4 && pps != [];
            && ts[i].out <= ts[i + 1].out
            && |ts[i + 1].out| == |ts[i].out| + (if header then 1 else 0) + (if Carries(nalus) then 1 else 0)
            && (header ==> IsHeaderOf(ts[i + 1].out[|ts[i].out|], sps, pps))
  {
    SetsInForce(ts, aus, i + 1, sps, pps);
    CarriesSome(aus[i].nalus);
    LastByPositions(aus[i].nalus, 7);
    LastByPositions(aus[i].nalus, 8);
    assert TrackStep(ts[i], ts[i + 1], aus[i]);
  }

  lemma {:induction false} ClockStarts(ts: seq<Track>, aus: seq<AccessUnit>, i: nat, f: nat)
    requires TrackRun(ts, aus) && i <= |aus| && f < |aus| && Carries(aus[f].nalus)
    requires forall a | 0 <= a < f :: !Carries(aus[a].nalus)
    ensures ts[i].first == if i <= f then None else Some(aus[f].rtp)
  {
    if i > 0 {
      ClockStarts(ts, aus, i - 1, f);
      CarriesSome(aus[i - 1].nalus);
      assert TrackStep(ts[i - 1], ts[i], aus[i - 1]);
    }
  }

  /** Every frame carries the milliseconds since the first frame's RTP timestamp, 32-bit wrap included. */
  lemma FramesAreTimed(ts: seq<Track>, aus: seq<AccessUnit>, i: nat, f: nat)
    requires TrackRun(ts, aus) && f <= i < |aus| && Carries(aus[i].nalus) && Carries(aus[f].nalus)
    requires forall a | 0 <= a < f :: !Carries(aus[a].nalus)
    ensures var out := ts[i + 1].out;
            && out != [] && IsFrameOf(out[|out| - 1], aus[i].nalus)
            && out[|out| - 1].timestamp == (aus[i].rtp + 0x1_0000_0000 - aus[f].rtp) % 0x1_0000_0000 / 90
  {
    ClockStarts(ts, aus, i + 1, f);
    CarriesSome(aus[i].nalus);
    assert TrackStep(ts[i], ts[i + 1], aus[i]);
  }

  /** The callback itself. */
  class VideoTrack {
    const pool: PacketPool
    var currentSPS: Nal
    var currentPPS: Nal
    var firstTS: Option<nat>
    var ingested: seq<Content>

    ghost function State(): Track reads this { Track(currentSPS, currentPPS, firstTS, ingested) }

    constructor (sps: Nal, pps: Nal, pool: PacketPool, reuse: bool)
      requires pool.Valid()
      modifies pool, pool.free, set p | p in pool.free :: p.buf
      ensures pool.Valid() && this.pool == pool && TrackStart(State()) && currentSPS == sps && currentPPS == pps
    {
      this.pool := pool;
      currentSPS, currentPPS, firstTS, ingested := sps, pps, None, [];
      new;
      if |sps| >= 4 && |pps| > 0 {
        var pkt := BuildVideoSeqHeader(sps, pps, pool, reuse);
        ingested := [pkt.Snapshot()];
      }
    }

    /** Handing a sequence header to Ingest once both parameter sets are there. */
    method Announce(reuse: bool)
      requires pool.Valid()
      modifies this`ingested, pool, pool.free, set p | p in pool.free :: p.buf
      ensures pool.Valid() && pool.free <= old(pool.free) && forall q <- pool.free :: unchanged(q)
      ensures old(ingested) <= ingested
      ensures |ingested| == old(|ingested|) + if Complete(currentSPS, currentPPS) then 1 else 0
      ensures Complete(currentSPS, currentPPS) ==> IsHeaderOf(ingested[old(|ingested|)], currentSPS, currentPPS)
    {
      if |currentSPS| >= 4 && |currentPPS| > 0 {
        var pkt := BuildVideoSeqHeader(currentSPS, currentPPS, pool, reuse);
        ingested := ingested + [pkt.Snapshot()];
      }
    }

    /** Handing the access unit's frame to Ingest, stamped with the time since the first one. */
    method Forward(au: AccessUnit, reuse: bool)
      requires pool.Valid() && au.rtp < WORD && (firstTS.Some? ==> firstTS.value < WORD)
      modifies this`ingested, this`firstTS, pool, pool.free, set p | p in pool.free :: p.buf
      ensures old(ingested) <= ingested && (firstTS.Some? ==> firstTS.value < WORD)
      ensures firstTS == if Filter(au.nalus) != [] && old(firstTS).None? then Some(au.rtp) else old(firstTS)
      ensures |ingested| == old(|ingested|) + if Filter(au.nalus) != [] then 1 else 0
      ensures Filter(au.nalus) != [] ==>
                var c := ingested[|ingested| - 1];
                IsFrameOf(c, au.nalus) && c.timestamp == VideoMs(firstTS.value, au.rtp)
    {
      var outPkt := BuildVideoFrame(au.nalus, pool, reuse);
      if outPkt != null {
        if firstTS.None? {
          firstTS := Some(au.rtp);
        }
        outPkt.timestamp := VideoMs(firstTS.value, au.rtp);
        ingested := ingested + [outPkt.Snapshot()];
      }
    }

    method OnAccessUnit(au: AccessUnit, reuseHeader: bool, reuseFrame: bool)
      requires pool.Valid() && au.rtp < WORD && (firstTS.Some? ==> firstTS.value < WORD)
      modifies this, pool, pool.free, set p | p in pool.free :: p.buf
      ensures TrackStep(old(State()), State(), au) && (firstTS.Some? ==> firstTS.value < WORD)
    {
      var newSPS, newPPS := ExtractSPSPPS(au.nalus);
      LastByPositions(au.nalus, 7);
      LastByPositions(au.nalus, 8);
      OneLastUnit(au.nalus, 7, newSPS, LastOfType(au.nalus, 7));
      OneLastUnit(au.nalus, 8, newPPS, LastOfType(au.nalus, 8));
      currentSPS, currentPPS := OrElse(newSPS, currentSPS), OrElse(newPPS, currentPPS);
      if newSPS.Some? || newPPS.Some? {
        Announce(reuseHeader);
      }
      Forward(au, reuseFrame);
    }
  }
}
