/** The pooled, reference-counted pipeline: producers, ingest, pump, subscribers and pool, in every
    interleaving of their steps. */
module Fanout {
  import opened Options
  import opened Packets
  import opened Pipeline
  import opened Memory
  import opened Values
  import opened Sequences
  import opened Refinement

  /** `hands`: packets a producer is filling; `sending`: past Ingest's closed check, not yet sent;
      `abandoned`: dropped by Ingest, which does not release them. */
  datatype State = State(mem: Mem, hands: set<Ptr>, sending: set<Ptr>, abandoned: set<Ptr>,
                         pipe: Pipe<Ptr>, hist: Hist)

  datatype Move =
    | New(p: Ptr, stale: seq<byte>)
    | Fill(p: Ptr, c: Content)
    | Discard(p: Ptr)
    | CheckOpen(p: Ptr)
    | Send(p: Ptr)
    | Forget(p: Ptr)
    | Act(a: Action<Ptr>)

  const INIT := State(Mem(map[], {}), {}, {}, {}, Pipe([], Idle, [], map[], Open, 0), Hist([], [], []))

  predicate MEnabled(s: State, mv: Move) {
    match mv
    case New(p, stale) => p !in s.mem.heap || p in s.mem.pool
    case Fill(p, c) => p in s.hands
    case Discard(p) => p in s.hands
    case CheckOpen(p) => p in s.hands
    case Send(p) => p in s.sending
    case Forget(p) => p in s.mem.pool
    case Act(a) =>
      !a.Enqueue? && Enabled(s.pipe, a)
      && (a.PumpAct? && a.p.Offer? ==> a.p.clear == StartsGop(Read(s.mem, s.pipe.pump.p)))
  }

  function Acted(s: State, a: Action<Ptr>): State
    requires Enabled(s.pipe, a)
  {
    s.(mem := Apply(s.mem, Effects(s.pipe, a)),
       pipe := Step(s.pipe, a),
       hist := Observe(s.hist, ViewEvent(s.mem, EventOf(s.pipe, a))))
  }

  /** NewAVPacket hands out a pooled packet, whose data still holds old bytes, or a fresh one;
      the runtime may also forget pooled packets. */
  function MStep(s: State, mv: Move): State
    requires MEnabled(s, mv)
  {
    match mv
    case New(p, stale) =>
      s.(mem := Mem(s.mem.heap[p := Cell(1, Content(0, 0, false, stale))], s.mem.pool - {p}), hands := s.hands + {p})
    case Fill(p, c) =>
      if p in s.mem.heap then s.(mem := s.mem.(heap := s.mem.heap[p := s.mem.heap[p].(content := c)])) else s
    case Discard(p) => s.(mem := ReleaseOne(s.mem, p), hands := s.hands - {p})
    case CheckOpen(p) =>
      if s.pipe.closing.Open? then s.(hands := s.hands - {p}, sending := s.sending + {p})
      else s.(hands := s.hands - {p}, abandoned := s.abandoned + {p})
    case Send(p) =>
      if |s.pipe.ingest| < INGEST_CAP then Acted(s, Enqueue(p)).(sending := s.sending - {p})
      else s.(sending := s.sending - {p}, abandoned := s.abandoned + {p})
    case Forget(p) => s.(mem := Mem(s.mem.heap - {p}, s.mem.pool - {p}))
    case Act(a) => Acted(s, a)
  }

  /** The state after a run, if every move of the run was possible. */
  function Exec(mvs: seq<Move>): Option<State> {
    if mvs == [] then Some(INIT)
    else match Exec(mvs[..|mvs| - 1])
      case None => None
      case Some(s) => var mv := mvs[|mvs| - 1]; if MEnabled(s, mv) then Some(MStep(s, mv)) else None
  }

  // ---- reference counts ------------------------------------------------------------------

  /** How many holders a packet has outside the pipeline. */
  ghost function Outside(s: State, q: Ptr): nat {
    (if q in s.hands then 1 else 0) + (if q in s.sending then 1 else 0) + (if q in s.abandoned then 1 else 0)
  }

  ghost function Held(s: State, q: Ptr): nat { Outside(s, q) + Slots(s.pipe, q) }

  /** The count of every packet is the number of its holders; outside the pipeline there is one. */
  ghost predicate Inv(s: State) {
    MemOk(s.mem)
    && (forall q :: Refs(s.mem, q) == Held(s, q))
    && (forall q :: Outside(s, q) > 0 ==> Held(s, q) == 1)
  }

  /** What a step releases it held before, and it retains only what it holds. */
  lemma EffectsCovered(s: Pipe<Ptr>, a: Action<Ptr>, q: Ptr)
    requires Enabled(s, a)
    ensures var e := Effects(s, a);
            Count(e.before, q) + (if Count(e.retained, q) > 0 then 1 else 0) <= Slots(s, q)
  {
    match a {
      case PumpAct(p) =>
        if p.Offer? { SubSlotsWithin(s.subs, s.pump.sub, q); }
      case SubAct(i, r) => SubSlotsWithin(s.subs, i, q);
      case Detach(id) => if id in s.attached { SubSlotsWithin(s.subs, s.attached[id], q); }
      case CloseNext(i) => SubSlotsWithin(s.subs, i, q);
      case _ =>
    }
  }

  lemma ActedCounts(s: State, a: Action<Ptr>)
    requires Inv(s) && Enabled(s.pipe, a)
    ensures var e, s' := Effects(s.pipe, a), Acted(s, a);
            AppliesSafely(s.mem, e) && MemOk(s'.mem) && SameContents(s.mem, s'.mem)
            && forall q :: Refs(s'.mem, q) == Held(s', q) - Incoming(a, q)
  {
    var e := Effects(s.pipe, a);
    forall q ensures Count(e.before, q) + (if Count(e.retained, q) > 0 then 1 else 0) <= Slots(s.pipe, q) <= Refs(s.mem, q) {
      EffectsCovered(s.pipe, a, q);
      assert Refs(s.mem, q) == Held(s, q);
    }
    forall q
      ensures Slots(Step(s.pipe, a), q) + Released(e, q) == Slots(s.pipe, q) + Count(e.retained, q) + Incoming(a, q)
    {
      Ledger(s.pipe, a, q);
    }
    forall q ensures Released(e, q) <= Refs(s.mem, q) + Count(e.retained, q) {
      if a.Enqueue? { assert Released(e, q) == 0; }
    }
    ApplyCounts(s.mem, e);
    forall q ensures Refs(Acted(s, a).mem, q) == Held(Acted(s, a), q) - Incoming(a, q) {
      assert Refs(s.mem, q) == Held(s, q);
    }
  }

  lemma StepOutside(s: State, a: Action<Ptr>, q: Ptr)
    requires Inv(s) && Enabled(s.pipe, a) && Slots(s.pipe, q) == 0
    ensures Slots(Step(s.pipe, a), q) == Incoming(a, q)
  {
    EffectsCovered(s.pipe, a, q);
    Ledger(s.pipe, a, q);
    ActedCounts(s, a);
  }

  lemma ActKeepsInv(s: State, a: Action<Ptr>)
    requires Inv(s) && MEnabled(s, Act(a))
    ensures Inv(MStep(s, Act(a)))
  {
    var s' := Acted(s, a);
    ActedCounts(s, a);
    forall q | Outside(s', q) > 0 ensures Held(s', q) == 1 {
      assert Held(s, q) == 1;
      StepOutside(s, a, q);
    }
  }

  lemma SendKeepsInv(s: State, p: Ptr)
    requires Inv(s) && MEnabled(s, Send(p)) && |s.pipe.ingest| < INGEST_CAP
    ensures Inv(MStep(s, Send(p)))
  {
    var a, s' := Enqueue(p), MStep(s, Send(p));
    ActedCounts(s, a);
    assert Outside(s, p) > 0 && Held(s, p) == 1;
    forall q ensures Refs(s'.mem, q) == Held(s', q) && (Outside(s', q) > 0 ==> Held(s', q) == 1) {
      assert Refs(Acted(s, a).mem, q) == Held(Acted(s, a), q) - Incoming(a, q);
      if Outside(s, q) > 0 {
        assert Held(s, q) == 1;
        StepOutside(s, a, q);
      }
    }
  }

  lemma MemoryKeepsInv(s: State, mv: Move)
    requires Inv(s) && MEnabled(s, mv) && (mv.New? || mv.Fill? || mv.Discard? || mv.Forget?)
    ensures Inv(MStep(s, mv))
  {
    var p, s' := mv.p, MStep(s, mv);
    assert Refs(s.mem, p) == Held(s, p);
    assert Outside(s, p) > 0 ==> Held(s, p) == 1;
    forall q ensures Refs(s'.mem, q) == Held(s', q) && (Outside(s', q) > 0 ==> Held(s', q) == 1) {
      assert Refs(s.mem, q) == Held(s, q);
    }
  }

  lemma HandOffKeepsInv(s: State, mv: Move)
    requires Inv(s) && MEnabled(s, mv) && (mv.CheckOpen? || (mv.Send? && |s.pipe.ingest| >= INGEST_CAP))
    ensures Inv(MStep(s, mv))
  {
    var p, s' := mv.p, MStep(s, mv);
    assert Outside(s, p) > 0 && Held(s, p) == 1;
    forall q ensures Refs(s'.mem, q) == Held(s', q) && (Outside(s', q) > 0 ==> Held(s', q) == 1) {
      assert Refs(s.mem, q) == Held(s, q);
    }
  }

  /** Every move of every goroutine keeps each reference count equal to the number of holders. */
  lemma KeepsInv(s: State, mv: Move)
    requires Inv(s) && MEnabled(s, mv)
    ensures Inv(MStep(s, mv))
  {
    match mv {
      case Act(a) => ActKeepsInv(s, a);
      case Send(p) => if |s.pipe.ingest| < INGEST_CAP { SendKeepsInv(s, p); } else { HandOffKeepsInv(s, mv); }
      case CheckOpen(p) => HandOffKeepsInv(s, mv);
      case _ => MemoryKeepsInv(s, mv);
    }
  }

  lemma {:induction false} RunKeepsInv(mvs: seq<Move>)
    requires Exec(mvs).Some?
    ensures Inv(Exec(mvs).value)
  {
    if mvs != [] {
      RunKeepsInv(mvs[..|mvs| - 1]);
      KeepsInv(Exec(mvs[..|mvs| - 1]).value, mvs[|mvs| - 1]);
    }
  }

  // ---- what runs guarantee about memory --------------------------------------------------

  /** In every reachable state of every interleaving: a count is never negative and equals the
      holders; a packet is in the pool exactly when it has none; what an abandoned packet lacks is
      any holder but its own leaked reference, so it is never reused. */
  lemma CountsAreHolders(mvs: seq<Move>, q: Ptr)
    requires Exec(mvs).Some? && q in Exec(mvs).value.mem.heap
    ensures var s := Exec(mvs).value;
            && s.mem.heap[q].refs == Held(s, q)
            && (q in s.mem.pool <==> Held(s, q) == 0)
            && (q in s.abandoned ==> s.mem.heap[q].refs == 1 && Slots(s.pipe, q) == 0 && q !in s.mem.pool)
  {
    RunKeepsInv(mvs);
    var s := Exec(mvs).value;
    assert Refs(s.mem, q) == Held(s, q);
    assert Outside(s, q) > 0 ==> Held(s, q) == 1;
  }

  /** Every Retain and Release that a reachable state can take finds at least one reference, so no
      count passes below zero and no released packet is touched again. */
  lemma ReferencesAreLive(mvs: seq<Move>, mv: Move)
    requires Exec(mvs).Some? && MEnabled(Exec(mvs).value, mv)
    ensures var s := Exec(mvs).value;
            && (mv.Act? ==> AppliesSafely(s.mem, Effects(s.pipe, mv.a)))
            && (mv.Discard? ==> Refs(s.mem, mv.p) == 1)
            && (mv.New? ==> Held(s, mv.p) == 0)
  {
    RunKeepsInv(mvs);
    var s := Exec(mvs).value;
    match mv {
      case Act(a) => ActedCounts(s, a);
      case Discard(p) =>
        assert Outside(s, p) > 0;
        assert Refs(s.mem, p) == Held(s, p);
      case New(p, stale) => assert Refs(s.mem, p) == Held(s, p);
      case _ =>
    }
  }

  /** No producer, no queued packet, no packet in a goroutine's hand and no cache. */
  predicate Quiescent(s: State) {
    s.hands == {} && s.sending == {} && s.pipe.ingest == [] && (s.pipe.pump.Idle? || s.pipe.pump.Stopped?)
    && forall i | 0 <= i < |s.pipe.subs| ::
         s.pipe.subs[i].queue == [] && s.pipe.subs[i].hand.None? && s.pipe.subs[i].gop == []
  }

  lemma {:induction false} EmptySubs(subs: seq<Sub<Ptr>>, q: Ptr)
    requires forall i | 0 <= i < |subs| :: subs[i].queue == [] && subs[i].hand.None? && subs[i].gop == []
    ensures SubsSlots(subs, q) == 0
  {
    if subs != [] { EmptySubs(subs[..|subs| - 1], q); }
  }

  /** Once queues drain and caches close, the pool holds every packet that was not abandoned. */
  lemma QuiescentPoolIsFull(mvs: seq<Move>)
    requires Exec(mvs).Some? && Quiescent(Exec(mvs).value)
    ensures var s := Exec(mvs).value; s.mem.pool == s.mem.heap.Keys - s.abandoned
  {
    var s := Exec(mvs).value;
    RunKeepsInv(mvs);
    forall q ensures q in s.mem.pool <==> q in s.mem.heap && q !in s.abandoned {
      EmptySubs(s.pipe.subs, q);
      assert Refs(s.mem, q) == Held(s, q);
      assert MemOk(s.mem);
    }
  }

  // ---- refinement of the value-passing pipeline ------------------------------------------

  function Abs(s: State): VState { VState(ViewPipe(s.mem, s.pipe), s.hist) }

  /** The value-passing step a move stands for; memory moves stand for none. */
  function AbsMove(s: State, mv: Move): seq<Action<Content>> {
    match mv
    case Act(a) => [ViewAction(s.mem, a)]
    case Send(p) => if |s.pipe.ingest| < INGEST_CAP then [Enqueue(Read(s.mem, p))] else []
    case _ => []
  }

  lemma ActRefines(s: State, a: Action<Ptr>)
    requires Inv(s) && Enabled(s.pipe, a)
    requires a.PumpAct? && a.p.Offer? ==> a.p.clear == StartsGop(Read(s.mem, s.pipe.pump.p))
    ensures VEnabled(Abs(s), ViewAction(s.mem, a)) && Abs(Acted(s, a)) == VStep(Abs(s), ViewAction(s.mem, a))
  {
    ActedCounts(s, a);
    ViewStep(s.mem, s.pipe, a);
    ViewFrame(s.mem, Acted(s, a).mem, Acted(s, a).pipe);
  }

  lemma MemoryRefines(s: State, mv: Move)
    requires Inv(s) && MEnabled(s, mv) && AbsMove(s, mv) == []
    ensures Abs(MStep(s, mv)) == Abs(s)
  {
    var s' := MStep(s, mv);
    if mv.New? || mv.Fill? || mv.Discard? || mv.Forget? {
      var p := mv.p;
      assert Refs(s.mem, p) == Held(s, p);
      assert Outside(s, p) > 0 ==> Held(s, p) == 1;
      assert Slots(s.pipe, p) == 0;
      ViewFrame(s.mem, s'.mem, s.pipe);
    }
  }

  /** One move of the pooled pipeline is one step, or no step, of the value-passing one. */
  lemma MoveRefines(s: State, mv: Move)
    requires Inv(s) && MEnabled(s, mv)
    ensures var vs := AbsMove(s, mv);
            if vs == [] then Abs(MStep(s, mv)) == Abs(s)
            else VEnabled(Abs(s), vs[0]) && Abs(MStep(s, mv)) == VStep(Abs(s), vs[0])
  {
    if AbsMove(s, mv) == [] {
      MemoryRefines(s, mv);
    } else {
      ActRefines(s, if mv.Send? then Enqueue(mv.p) else mv.a);
    }
  }

  function AbsRun(mvs: seq<Move>): seq<Action<Content>> {
    if mvs == [] then []
    else
      var init := mvs[..|mvs| - 1];
      AbsRun(init) + (if Exec(init).Some? then AbsMove(Exec(init).value, mvs[|mvs| - 1]) else [])
  }

  /** Every run of the pooled zero-copy pipeline is a run of the value-passing pipeline that ends in
      the same queues, caches and deliveries, with contents in place of pointers. */
  lemma {:induction false} PooledRefinesValues(mvs: seq<Move>)
    requires Exec(mvs).Some?
    ensures VExec(AbsRun(mvs)) == Some(Abs(Exec(mvs).value))
  {
    if mvs == [] {
      assert Abs(INIT) == VINIT;
    } else {
      var init, mv := mvs[..|mvs| - 1], mvs[|mvs| - 1];
      PooledRefinesValues(init);
      RunKeepsInv(init);
      var s := Exec(init).value;
      MoveRefines(s, mv);
      var vs := AbsMove(s, mv);
      if vs != [] {
        assert AbsRun(mvs) == AbsRun(init) + [vs[0]];
        VExecSnoc(AbsRun(init), vs[0]);
      } else {
        assert AbsRun(mvs) == AbsRun(init);
      }
    }
  }

  // ---- what runs guarantee about delivery ------------------------------------------------

  lemma RunKeepsRecord(mvs: seq<Move>)
    requires Exec(mvs).Some?
    ensures VInv(Abs(Exec(mvs).value))
  {
    PooledRefinesValues(mvs);
    VRunKeeps(AbsRun(mvs));
  }

  /** What a subscriber has written with success is a subsequence of what entered the stream, byte for
      byte, however often the packets' memory was reused since; and every packet it consumed beside
      those was counted: as a failure, or released by the final drain. */
  lemma WrittenInIngestOrder(mvs: seq<Move>, i: nat)
    requires Exec(mvs).Some? && i < |Exec(mvs).value.hist.subs|
    ensures var h := Exec(mvs).value.hist;
            && |h.subs[i].ok| == |h.subs[i].consumed|
            && var written := Picked(h.subs[i].consumed, h.subs[i].ok);
            && IsSubseq(written, h.sent) && IsSubseq(h.subs[i].consumed, h.sent)
            && |h.subs[i].consumed| == |written| + Misses(h.subs[i].ok)
  {
    RunKeepsRecord(mvs);
    var s := Exec(mvs).value;
    var v, h := Abs(s), s.hist;
    assert SubOk(h.pumped, v.pipe.pump, v.pipe.subs[i], h.subs[i], i);
    SubseqPrefixes(h.subs[i].accepted, h.subs[i].consumed, Passed(h.pumped, v.pipe.pump, i), h.sent);
    PickedIsSubseq(h.subs[i].consumed, h.subs[i].ok);
    SubseqTransitive(Picked(h.subs[i].consumed, h.subs[i].ok), h.subs[i].consumed, h.sent);
  }

  /** A packet waiting in a queue still has the bytes it was accepted with, and each packet due to a
      channel subscriber is accounted for: consumed, in hand, queued, dropped or still to be offered. */
  lemma ChannelAccounts(mvs: seq<Move>, i: nat)
    requires Exec(mvs).Some? && i < |Exec(mvs).value.pipe.subs|
    requires Exec(mvs).value.pipe.subs[i].kind != Livestream
    ensures var s := Exec(mvs).value;
            var x, pending := s.pipe.subs[i], if Pending(ViewPump(s.mem, s.pipe.pump), i) then 1 else 0;
            && |s.hist.subs| == |s.pipe.subs|
            && var h := s.hist.subs[i];
            && h.accepted == h.consumed + InHand(ViewSub(s.mem, x)) + ViewSeq(s.mem, x.queue)
            && h.due == |h.consumed| + (if x.hand.Some? then 1 else 0) + |x.queue| + x.dropped + pending
            && |x.queue| <= Capacity(x.kind)
  {
    RunKeepsRecord(mvs);
    var s := Exec(mvs).value;
    assert SubOk(s.hist.pumped, Abs(s).pipe.pump, Abs(s).pipe.subs[i], s.hist.subs[i], i);
  }

  /** A viewer's drop counter is the number of packets its callback failed on. */
  lemma ViewerDropsAreFailures(mvs: seq<Move>, i: nat)
    requires Exec(mvs).Some? && i < |Exec(mvs).value.pipe.subs|
    requires Exec(mvs).value.pipe.subs[i].kind == Livestream
    ensures var s := Exec(mvs).value;
            && |s.hist.subs| == |s.pipe.subs|
            && |s.hist.subs[i].ok| == |s.hist.subs[i].consumed|
            && |s.hist.subs[i].consumed| == |Picked(s.hist.subs[i].consumed, s.hist.subs[i].ok)| + s.pipe.subs[i].dropped
  {
    RunKeepsRecord(mvs);
    var s := Exec(mvs).value;
    assert SubOk(s.hist.pumped, Abs(s).pipe.pump, Abs(s).pipe.subs[i], s.hist.subs[i], i);
    PickedIsSubseq(s.hist.subs[i].consumed, s.hist.subs[i].ok);
  }

  /** A viewer's cache is the newest 256 packets since the latest video keyframe it was given after
      its last Close (since that Close when there is none), with the bytes they had then. */
  lemma CacheIsLatestGroup(mvs: seq<Move>, i: nat)
    requires Exec(mvs).Some? && i < |Exec(mvs).value.pipe.subs|
    requires Exec(mvs).value.pipe.subs[i].kind == Livestream
    ensures var s := Exec(mvs).value;
            |s.hist.subs| == |s.pipe.subs| && ViewSeq(s.mem, s.pipe.subs[i].gop) == GopOf(s.hist.subs[i].cached)
  {
    RunKeepsRecord(mvs);
    var s := Exec(mvs).value;
    assert SubOk(s.hist.pumped, Abs(s).pipe.pump, Abs(s).pipe.subs[i], s.hist.subs[i], i);
  }
}
