/** The value-passing pipeline: the same goroutine steps with every packet replaced by its content,
    no memory and no reference counts, and a record of what went in and what each subscriber got. */
module Values {
  import opened Options
  import opened Packets
  import opened Pipeline
  import opened Sequences

  /** accepted: handed to the subscriber; consumed: taken by its goroutine (or callback);
      ok: which of those were written, rather than failed or released by the final drain;
      cached: accepted since its last Close; due: packets whose fan-out started while it was attached. */
  datatype SubHist = SubHist(accepted: seq<Content>, consumed: seq<Content>, ok: seq<bool>,
                             cached: seq<Content>, due: nat)

  datatype Hist = Hist(sent: seq<Content>, pumped: seq<Content>, subs: seq<SubHist>)

  function CountDue(subs: seq<SubHist>, due: set<nat>): (r: seq<SubHist>)
    ensures |r| == |subs|
  {
    seq(|subs|, i requires 0 <= i < |subs| => if i in due then subs[i].(due := subs[i].due + 1) else subs[i])
  }

  function Accept(o: SubHist, x: Content): SubHist { o.(accepted := o.accepted + [x], cached := o.cached + [x]) }

  function Consume(o: SubHist, x: Content, written: bool): SubHist {
    o.(consumed := o.consumed + [x], ok := o.ok + [written])
  }

  function Observe(h: Hist, ev: Event<Content>): Hist {
    match ev
    case Quiet => h
    case Entered(x) => h.(sent := h.sent + [x])
    case Pumped(x) => h.(pumped := h.pumped + [x])
    case Snapshot(due) => h.(subs := CountDue(h.subs, due))
    case Created => h.(subs := h.subs + [SubHist([], [], [], [], 0)])
    case Accepted(i, x) => if i < |h.subs| then h.(subs := h.subs[i := Accept(h.subs[i], x)]) else h
    case Consumed(i, x, w) => if i < |h.subs| then h.(subs := h.subs[i := Consume(h.subs[i], x, w)]) else h
    case Cleared(i) => if i < |h.subs| then h.(subs := h.subs[i := h.subs[i].(cached := [])]) else h
  }

  datatype VState = VState(pipe: Pipe<Content>, hist: Hist)

  /** Livestream caches reset exactly on video keyframes. */
  predicate Possible(s: Pipe<Content>, a: Action<Content>) {
    Enabled(s, a) && (a.PumpAct? && a.p.Offer? ==> a.p.clear == StartsGop(s.pump.p))
  }

  predicate VEnabled(v: VState, a: Action<Content>) { Possible(v.pipe, a) }

  function VStep(v: VState, a: Action<Content>): VState
    requires VEnabled(v, a)
  {
    VState(Step(v.pipe, a), Observe(v.hist, EventOf(v.pipe, a)))
  }

  const VINIT := VState(Pipe([], Idle, [], map[], Open, 0), Hist([], [], []))

  // ---- what a group-of-pictures cache should hold ----------------------------------------

  /** The latest video keyframe, or the start when there is none. */
  function GopStart(xs: seq<Content>): (k: nat)
    ensures k <= |xs| && (k > 0 ==> k < |xs| && StartsGop(xs[k]))
    ensures forall j :: k < j < |xs| ==> !StartsGop(xs[j])
  {
    if xs == [] then 0
    else if StartsGop(xs[|xs| - 1]) then |xs| - 1
    else GopStart(xs[..|xs| - 1])
  }

  function Newest(xs: seq<Content>): seq<Content> { if |xs| > GOP_MAX then xs[|xs| - GOP_MAX..] else xs }

  function GopOf(xs: seq<Content>): seq<Content> { Newest(xs[GopStart(xs)..]) }

  /** By positions: the newest packets, at most 256, with no video keyframe (type 9) among them but perhaps
      the first; and when they are fewer, the first is one, or the history's first. */
  lemma GopByPositions(xs: seq<Content>)
    ensures var g := GopOf(xs);
            |g| <= 256 && |g| <= |xs| && g == xs[|xs| - |g|..]
            && var start := |xs| - |g|;
            && (forall j | start < j < |xs| :: !(xs[j].kind == 9 && xs[j].keyframe))
            && (|g| < 256 ==> start == 0 || (start < |xs| && xs[start].kind == 9 && xs[start].keyframe))
  {
  }

  lemma GopGrows(xs: seq<Content>, x: Content)
    ensures GopOf(xs + [x]) == GopAfter(GopOf(xs), x, StartsGop(x))
  {
  }

  // ---- the invariant ---------------------------------------------------------------------

  predicate Pending(pump: Pump<Content>, i: nat) {
    (pump.HoldsLock() && i in pump.todo) || (pump.Offering? && pump.sub == i)
  }

  /** The packets whose fan-out has passed subscriber `i`. */
  function Passed(pumped: seq<Content>, pump: Pump<Content>, i: nat): seq<Content> {
    if (pump.Taken? || Pending(pump, i)) && pumped != [] then pumped[..|pumped| - 1] else pumped
  }

  function InFlight(pump: Pump<Content>, i: nat): seq<Content> {
    if pump.Sent? && pump.sub == i then [pump.p] else []
  }

  function InHand(x: Sub<Content>): seq<Content> { if x.hand.Some? then [x.hand.value] else [] }

  ghost predicate SubOk(pumped: seq<Content>, pump: Pump<Content>, x: Sub<Content>, h: SubHist, i: nat) {
    && IsSubseq(h.accepted, Passed(pumped, pump, i))
    && |h.ok| == |h.consumed|
    && (if x.kind == Livestream then
          && x.queue == [] && x.hand == None && x.dropped == Misses(h.ok)
          && h.accepted == h.consumed + InFlight(pump, i)
          && x.gop == GopOf(h.cached)
          && h.due == |h.accepted| + (if Pending(pump, i) then 1 else 0)
        else
          && x.gop == [] && |x.queue| <= Capacity(x.kind)
          && h.accepted == h.consumed + InHand(x) + x.queue
          && h.due == |h.accepted| + x.dropped + (if Pending(pump, i) then 1 else 0))
  }

  predicate PumpOk(v: VState) {
    var s, h := v.pipe, v.hist;
    && |h.subs| == |s.subs|
    && h.sent == h.pumped + s.ingest
    && s.total == |h.pumped|
    && (s.pump.Idle? || s.pump.Stopped? || (h.pumped != [] && h.pumped[|h.pumped| - 1] == s.pump.p))
    && (forall k <- s.attached :: s.attached[k] < |s.subs| && s.subs[s.attached[k]].id == k)
    && (s.pump.HoldsLock() ==> forall i <- s.pump.todo :: i < |s.subs|)
    && (s.pump.Offering? || s.pump.Sent? ==> s.pump.sub < |s.subs| && s.pump.sub !in s.pump.todo)
    && (s.pump.Sent? ==> s.subs[s.pump.sub].kind == Livestream)
    && (s.closing.Locked? ==> !s.pump.HoldsLock() && forall i <- s.closing.todo :: i < |s.subs|)
  }

  ghost predicate VInv(v: VState) {
    PumpOk(v)
    && forall i | 0 <= i < |v.pipe.subs| :: SubOk(v.hist.pumped, v.pipe.pump, v.pipe.subs[i], v.hist.subs[i], i)
  }

  /** What one subscriber's own step leaves in its history. */
  function SubObserve(x: Sub<Content>, h: SubHist, r: SubAction): SubHist
    requires SubEnabled(x, r)
  {
    if r.Process? then Consume(h, x.hand.value, x.phase == Running && !r.failed)
    else if r.Shut? then h.(cached := [])
    else h
  }

  lemma RecvOk(pumped: seq<Content>, pump: Pump<Content>, x: Sub<Content>, h: SubHist, i: nat)
    requires SubOk(pumped, pump, x, h, i) && SubEnabled(x, Recv)
    ensures SubOk(pumped, pump, SubStep(x, Recv), h, i)
  {
  }

  lemma ProcessOk(pumped: seq<Content>, pump: Pump<Content>, x: Sub<Content>, h: SubHist, i: nat, failed: bool)
    requires SubOk(pumped, pump, x, h, i) && SubEnabled(x, Process(failed))
    ensures SubOk(pumped, pump, SubStep(x, Process(failed)), SubObserve(x, h, Process(failed)), i)
  {
  }

  lemma SubOkStep(pumped: seq<Content>, pump: Pump<Content>, x: Sub<Content>, h: SubHist, i: nat, r: SubAction)
    requires SubOk(pumped, pump, x, h, i) && SubEnabled(x, r)
    ensures SubOk(pumped, pump, SubStep(x, r), SubObserve(x, h, r), i)
  {
    if r.Recv? {
      RecvOk(pumped, pump, x, h, i);
    } else if r.Process? {
      ProcessOk(pumped, pump, x, h, i, r.failed);
    } else {
      assert InHand(SubStep(x, r)) == InHand(x);
    }
  }

  lemma ReplaceKeeps(v: VState, i: nat, x: Sub<Content>, h: SubHist)
    requires VInv(v) && i < |v.pipe.subs|
    requires SubOk(v.hist.pumped, v.pipe.pump, x, h, i)
    requires x.id == v.pipe.subs[i].id && x.kind == v.pipe.subs[i].kind
    ensures VInv(VState(v.pipe.(subs := v.pipe.subs[i := x]), v.hist.(subs := v.hist.subs[i := h])))
  {
  }

  lemma SubActKeeps(v: VState, i: nat, r: SubAction)
    requires VInv(v) && i < |v.pipe.subs| && SubEnabled(v.pipe.subs[i], r)
    ensures VInv(VState(UpdateSub(v.pipe, i, r),
                        v.hist.(subs := v.hist.subs[i := SubObserve(v.pipe.subs[i], v.hist.subs[i], r)])))
  {
    var x, h := v.pipe.subs[i], v.hist.subs[i];
    SubOkStep(v.hist.pumped, v.pipe.pump, x, h, i, r);
    ReplaceKeeps(v, i, SubStep(x, r), SubObserve(x, h, r));
  }

  /** Subscriber records depend on the pump only through these three views of it. */
  lemma SamePumpView(pumped: seq<Content>, pump: Pump<Content>, pumped': seq<Content>, pump': Pump<Content>,
                     x: Sub<Content>, h: SubHist, i: nat)
    requires SubOk(pumped, pump, x, h, i)
    requires Passed(pumped, pump, i) <= Passed(pumped', pump', i)
    requires Pending(pump, i) == Pending(pump', i) && InFlight(pump, i) == InFlight(pump', i)
    ensures SubOk(pumped', pump', x, h, i)
  {
    SubseqPrefixes(h.accepted, h.accepted, Passed(pumped, pump, i), Passed(pumped', pump', i));
  }

  predicate IsControl(a: PumpAction) { a.Take? || a.Stop? || a.Retain? || a.Unlock? || a.Drop? }

  lemma PumpControlPumpOk(v: VState, a: PumpAction)
    requires PumpOk(v) && PumpEnabled(v.pipe, a) && IsControl(a)
    ensures PumpOk(VStep(v, PumpAct(a)))
  {
  }

  lemma PumpControlView(v: VState, a: PumpAction, i: nat)
    requires PumpOk(v) && PumpEnabled(v.pipe, a) && IsControl(a)
    ensures var v' := VStep(v, PumpAct(a));
            && v'.pipe.subs == v.pipe.subs && v'.hist.subs == v.hist.subs
            && Passed(v.hist.pumped, v.pipe.pump, i) <= Passed(v'.hist.pumped, v'.pipe.pump, i)
            && Pending(v.pipe.pump, i) == Pending(v'.pipe.pump, i) && InFlight(v.pipe.pump, i) == InFlight(v'.pipe.pump, i)
  {
  }

  lemma PumpControlKeeps(v: VState, a: PumpAction)
    requires VInv(v) && PumpEnabled(v.pipe, a) && IsControl(a)
    ensures VInv(VStep(v, PumpAct(a)))
  {
    PumpControlPumpOk(v, a);
    var v' := VStep(v, PumpAct(a));
    forall i | 0 <= i < |v.pipe.subs|
      ensures v'.pipe.subs == v.pipe.subs && SubOk(v'.hist.pumped, v'.pipe.pump, v.pipe.subs[i], v'.hist.subs[i], i)
    {
      PumpControlView(v, a, i);
      SamePumpView(v.hist.pumped, v.pipe.pump, v'.hist.pumped, v'.pipe.pump, v.pipe.subs[i], v.hist.subs[i], i);
    }
  }

  lemma LockedOk(pumped: seq<Content>, pump: Pump<Content>, due: set<nat>, x: Sub<Content>, h: SubHist, i: nat)
    requires pump.Taken? && pumped != [] && SubOk(pumped, pump, x, h, i)
    ensures SubOk(pumped, Fanning(pump.p, due), x, if i in due then h.(due := h.due + 1) else h, i)
  {
  }

  lemma LockSubsPumpOk(v: VState)
    requires PumpOk(v) && PumpEnabled(v.pipe, LockSubs)
    ensures PumpOk(VStep(v, PumpAct(LockSubs)))
  {
  }

  lemma LockSubsKeeps(v: VState)
    requires VInv(v) && PumpEnabled(v.pipe, LockSubs)
    ensures VInv(VStep(v, PumpAct(LockSubs)))
  {
    LockSubsPumpOk(v);
    var due, v' := v.pipe.attached.Values, VStep(v, PumpAct(LockSubs));
    forall i | 0 <= i < |v.pipe.subs|
      ensures SubOk(v'.hist.pumped, v'.pipe.pump, v'.pipe.subs[i], v'.hist.subs[i], i)
    {
      LockedOk(v.hist.pumped, v.pipe.pump, due, v.pipe.subs[i], v.hist.subs[i], i);
    }
  }

  predicate OfferReady(pumped: seq<Content>, pump: Pump<Content>) {
    pump.Offering? && pump.sub !in pump.todo && pumped != [] && pumped[|pumped| - 1] == pump.p
  }

  /** Offering the current packet to one subscriber: queued or dropped, or cached. */
  lemma AcceptedSubseq(pumped: seq<Content>, pump: Pump<Content>, accepted: seq<Content>)
    requires OfferReady(pumped, pump) && IsSubseq(accepted, Passed(pumped, pump, pump.sub))
    ensures IsSubseq(accepted, pumped) && IsSubseq(accepted + [pump.p], pumped)
  {
  }

  lemma ChannelOfferOk(pumped: seq<Content>, pump: Pump<Content>, x: Sub<Content>, h: SubHist, clear: bool)
    requires OfferReady(pumped, pump) && x.kind != Livestream && SubOk(pumped, pump, x, h, pump.sub)
    ensures SubOk(pumped, Fanning(pump.p, pump.todo), OfferTo(x, pump.p, clear),
                  if |x.queue| < Capacity(x.kind) then Accept(h, pump.p) else h, pump.sub)
  {
  }

  lemma LivestreamOfferOk(pumped: seq<Content>, pump: Pump<Content>, x: Sub<Content>, h: SubHist)
    requires OfferReady(pumped, pump) && x.kind == Livestream && SubOk(pumped, pump, x, h, pump.sub)
    ensures SubOk(pumped, Sent(pump.p, pump.sub, pump.todo), OfferTo(x, pump.p, StartsGop(pump.p)),
                  Accept(h, pump.p), pump.sub)
  {
    AcceptedSubseq(pumped, pump, h.accepted);
    GopGrows(h.cached, pump.p);
  }

  lemma OthersUnmoved(v: VState, v': VState, k: nat)
    requires VInv(v) && k < |v.pipe.subs| && v'.hist.pumped == v.hist.pumped
    requires |v'.pipe.subs| == |v.pipe.subs| == |v'.hist.subs|
    requires forall i | 0 <= i < |v.pipe.subs| && i != k :: v'.pipe.subs[i] == v.pipe.subs[i] && v'.hist.subs[i] == v.hist.subs[i]
    requires forall i: nat | i != k ::
               Pending(v.pipe.pump, i) == Pending(v'.pipe.pump, i) && InFlight(v.pipe.pump, i) == InFlight(v'.pipe.pump, i)
    requires v.pipe.pump.Taken? == v'.pipe.pump.Taken?
    requires SubOk(v'.hist.pumped, v'.pipe.pump, v'.pipe.subs[k], v'.hist.subs[k], k)
    ensures forall i | 0 <= i < |v'.pipe.subs| :: SubOk(v'.hist.pumped, v'.pipe.pump, v'.pipe.subs[i], v'.hist.subs[i], i)
  {
  }

  lemma OfferPumpOk(v: VState, clear: bool)
    requires PumpOk(v) && VEnabled(v, PumpAct(Offer(clear)))
    ensures PumpOk(VStep(v, PumpAct(Offer(clear))))
  {
  }

  ghost predicate OfferedOk(v: VState, clear: bool)
    requires VEnabled(v, PumpAct(Offer(clear)))
  {
    var v', k := VStep(v, PumpAct(Offer(clear))), v.pipe.pump.sub;
    |v.hist.subs| == |v.pipe.subs| && SubOk(v'.hist.pumped, v'.pipe.pump, v'.pipe.subs[k], v'.hist.subs[k], k)
  }

  lemma LivestreamOffered(v: VState, clear: bool)
    requires VInv(v) && VEnabled(v, PumpAct(Offer(clear))) && v.pipe.subs[v.pipe.pump.sub].kind == Livestream
    ensures OfferedOk(v, clear)
  {
    var v', k := VStep(v, PumpAct(Offer(clear))), v.pipe.pump.sub;
    var pumped, pump, x, h := v.hist.pumped, v.pipe.pump, v.pipe.subs[k], v.hist.subs[k];
    LivestreamOfferOk(pumped, pump, x, h);
    assert v'.hist.subs[k] == Accept(h, pump.p) && v'.hist.pumped == pumped;
    assert v'.pipe.subs[k] == OfferTo(x, pump.p, StartsGop(pump.p));
    assert v'.pipe.pump == Sent(pump.p, k, pump.todo);
  }

  lemma ChannelOffered(v: VState, clear: bool)
    requires VInv(v) && VEnabled(v, PumpAct(Offer(clear))) && v.pipe.subs[v.pipe.pump.sub].kind != Livestream
    ensures OfferedOk(v, clear)
  {
    var v', k := VStep(v, PumpAct(Offer(clear))), v.pipe.pump.sub;
    var pumped, pump, x, h := v.hist.pumped, v.pipe.pump, v.pipe.subs[k], v.hist.subs[k];
    ChannelOfferOk(pumped, pump, x, h, clear);
    assert v'.hist.subs[k] == (if |x.queue| < Capacity(x.kind) then Accept(h, pump.p) else h) && v'.hist.pumped == pumped;
    assert v'.pipe.subs[k] == OfferTo(x, pump.p, clear);
    assert v'.pipe.pump == Fanning(pump.p, pump.todo);
  }

  lemma OfferKeeps(v: VState, clear: bool)
    requires VInv(v) && VEnabled(v, PumpAct(Offer(clear)))
    ensures VInv(VStep(v, PumpAct(Offer(clear))))
  {
    OfferPumpOk(v, clear);
    if v.pipe.subs[v.pipe.pump.sub].kind == Livestream { LivestreamOffered(v, clear); } else { ChannelOffered(v, clear); }
    OthersUnmoved(v, VStep(v, PumpAct(Offer(clear))), v.pipe.pump.sub);
  }

  lemma ReturnedOk(pumped: seq<Content>, pump: Pump<Content>, x: Sub<Content>, h: SubHist, failed: bool)
    requires pump.Sent? && pump.sub !in pump.todo && x.kind == Livestream && SubOk(pumped, pump, x, h, pump.sub)
    ensures SubOk(pumped, Fanning(pump.p, pump.todo), if failed then x.(dropped := x.dropped + 1) else x,
                  Consume(h, pump.p, !failed), pump.sub)
  {
    assert InFlight(pump, pump.sub) == [pump.p];
    MissesSnoc(h.ok, !failed);
  }

  lemma ReturnKeeps(v: VState, failed: bool)
    requires VInv(v) && VEnabled(v, PumpAct(Return(failed)))
    ensures VInv(VStep(v, PumpAct(Return(failed))))
  {
    var v', k := VStep(v, PumpAct(Return(failed))), v.pipe.pump.sub;
    ReturnedOk(v.hist.pumped, v.pipe.pump, v.pipe.subs[k], v.hist.subs[k], failed);
    OthersUnmoved(v, v', k);
  }

  lemma SameSubs(v: VState, v': VState)
    requires VInv(v) && PumpOk(v')
    requires v'.hist.pumped == v.hist.pumped && v'.hist.subs == v.hist.subs
    requires v'.pipe.pump == v.pipe.pump && v'.pipe.subs == v.pipe.subs
    ensures VInv(v')
  {
  }

  lemma NewSubKeeps(v: VState, id: string, kind: Kind)
    requires VInv(v)
    ensures VInv(VStep(v, NewSub(id, kind)))
  {
    var v', n := VStep(v, NewSub(id, kind)), |v.pipe.subs|;
    assert !Pending(v.pipe.pump, n);
    forall i | 0 <= i < |v'.pipe.subs|
      ensures SubOk(v'.hist.pumped, v'.pipe.pump, v'.pipe.subs[i], v'.hist.subs[i], i)
    {
      if i < n {
        assert SubOk(v.hist.pumped, v.pipe.pump, v.pipe.subs[i], v.hist.subs[i], i);
      }
    }
  }

  /** Closing one subscriber, whatever else the step changes outside the subscribers and the pump. */
  lemma ShutKeeps(v: VState, i: nat, v': VState)
    requires VInv(v) && i < |v.pipe.subs| && PumpOk(v')
    requires v'.hist == v.hist.(subs := v.hist.subs[i := v.hist.subs[i].(cached := [])])
    requires v'.pipe.pump == v.pipe.pump && v'.pipe.subs == v.pipe.subs[i := SubStep(v.pipe.subs[i], Shut)]
    ensures VInv(v')
  {
    SubActKeeps(v, i, Shut);
    SameSubs(VState(UpdateSub(v.pipe, i, Shut), v'.hist), v');
  }

  lemma DetachPumpOk(v: VState, id: string)
    requires PumpOk(v) && VEnabled(v, Detach(id)) && id in v.pipe.attached
    ensures PumpOk(VStep(v, Detach(id)))
  {
  }

  lemma DetachShuts(v: VState, id: string)
    requires PumpOk(v) && VEnabled(v, Detach(id)) && id in v.pipe.attached
    ensures var i, v' := v.pipe.attached[id], VStep(v, Detach(id));
            && i < |v.hist.subs| && v'.hist == v.hist.(subs := v.hist.subs[i := v.hist.subs[i].(cached := [])])
            && v'.pipe.pump == v.pipe.pump && v'.pipe.subs == v.pipe.subs[i := SubStep(v.pipe.subs[i], Shut)]
  {
  }

  lemma DetachKeeps(v: VState, id: string)
    requires VInv(v) && VEnabled(v, Detach(id))
    ensures VInv(VStep(v, Detach(id)))
  {
    if id in v.pipe.attached {
      DetachPumpOk(v, id);
      DetachShuts(v, id);
      ShutKeeps(v, v.pipe.attached[id], VStep(v, Detach(id)));
    } else {
      assert VStep(v, Detach(id)) == v;
    }
  }

  lemma CloseNextPumpOk(v: VState, i: nat)
    requires PumpOk(v) && VEnabled(v, CloseNext(i))
    ensures PumpOk(VStep(v, CloseNext(i)))
  {
  }

  lemma CloseNextKeeps(v: VState, i: nat)
    requires VInv(v) && VEnabled(v, CloseNext(i))
    ensures VInv(VStep(v, CloseNext(i)))
  {
    CloseNextPumpOk(v, i);
    ShutKeeps(v, i, VStep(v, CloseNext(i)));
  }

  lemma LockCloseKeeps(v: VState)
    requires VInv(v) && VEnabled(v, LockClose)
    ensures VInv(VStep(v, LockClose))
  {
    assert forall i <- v.pipe.attached.Values :: i < |v.pipe.subs|;
    SameSubs(v, VStep(v, LockClose));
  }

  lemma ControlKeeps(v: VState, a: Action<Content>)
    requires VInv(v) && VEnabled(v, a)
    requires a.Enqueue? || a.Attach? || a.BeginClose? || a.UnlockClose? || a.EndClose?
    ensures VInv(VStep(v, a))
  {
    SameSubs(v, VStep(v, a));
  }

  lemma PumpKeeps(v: VState, p: PumpAction)
    requires VInv(v) && VEnabled(v, PumpAct(p))
    ensures VInv(VStep(v, PumpAct(p)))
  {
    if p.LockSubs? {
      LockSubsKeeps(v);
    } else if p.Offer? {
      OfferKeeps(v, p.clear);
    } else if p.Return? {
      ReturnKeeps(v, p.failed);
    } else {
      PumpControlKeeps(v, p);
    }
  }

  /** The record keeps telling the truth after every step of every goroutine. */
  lemma Keeps(v: VState, a: Action<Content>)
    requires VInv(v) && VEnabled(v, a)
    ensures VInv(VStep(v, a))
  {
    if a.SubAct? {
      SubActKeeps(v, a.i, a.r);
    } else if a.PumpAct? {
      PumpKeeps(v, a.p);
    } else if a.NewSub? {
      NewSubKeeps(v, a.id, a.kind);
    } else if a.Detach? {
      DetachKeeps(v, a.id);
    } else if a.CloseNext? {
      CloseNextKeeps(v, a.i);
    } else if a.LockClose? {
      LockCloseKeeps(v);
    } else {
      ControlKeeps(v, a);
    }
  }

  function VExec(acts: seq<Action<Content>>): Option<VState> {
    if acts == [] then Some(VINIT)
    else match VExec(acts[..|acts| - 1])
      case None => None
      case Some(v) => var a := acts[|acts| - 1]; if VEnabled(v, a) then Some(VStep(v, a)) else None
  }

  lemma VExecSnoc(acts: seq<Action<Content>>, a: Action<Content>)
    requires VExec(acts).Some? && VEnabled(VExec(acts).value, a)
    ensures VExec(acts + [a]) == Some(VStep(VExec(acts).value, a))
  {
  }

  lemma {:induction false} VRunKeeps(acts: seq<Action<Content>>)
    requires VExec(acts).Some?
    ensures VInv(VExec(acts).value)
  {
    if acts != [] {
      VRunKeeps(acts[..|acts| - 1]);
      Keeps(VExec(acts[..|acts| - 1]).value, acts[|acts| - 1]);
    }
  }
}
