/** Reading every pointer of a pipeline through the packet memory gives a value-passing pipeline,
    and does so in step: the control of the goroutines never depends on where a packet is stored. */
module Refinement {
  import opened Options
  import opened Packets
  import opened Pipeline
  import opened Memory

  function ViewSeq(m: Mem, xs: seq<Ptr>): (r: seq<Content>)
    ensures |r| == |xs|
  {
    seq(|xs|, i requires 0 <= i < |xs| => Read(m, xs[i]))
  }

  function ViewPump(m: Mem, pump: Pump<Ptr>): Pump<Content> {
    match pump
    case Idle => Idle
    case Stopped => Stopped
    case Taken(p) => Taken(Read(m, p))
    case Fanning(p, todo) => Fanning(Read(m, p), todo)
    case Offering(p, sub, todo) => Offering(Read(m, p), sub, todo)
    case Sent(p, sub, todo) => Sent(Read(m, p), sub, todo)
    case Unlocked(p) => Unlocked(Read(m, p))
  }

  function ViewSub(m: Mem, x: Sub<Ptr>): Sub<Content> {
    Sub(x.id, x.kind, ViewSeq(m, x.queue), if x.hand.Some? then Some(Read(m, x.hand.value)) else None,
        ViewSeq(m, x.gop), x.phase, x.done, x.dropped)
  }

  function ViewSubs(m: Mem, subs: seq<Sub<Ptr>>): (r: seq<Sub<Content>>)
    ensures |r| == |subs|
  {
    seq(|subs|, i requires 0 <= i < |subs| => ViewSub(m, subs[i]))
  }

  function ViewPipe(m: Mem, s: Pipe<Ptr>): Pipe<Content> {
    Pipe(ViewSeq(m, s.ingest), ViewPump(m, s.pump), ViewSubs(m, s.subs), s.attached, s.closing, s.total)
  }

  function ViewAction(m: Mem, a: Action<Ptr>): Action<Content> {
    match a
    case Enqueue(x) => Enqueue(Read(m, x))
    case PumpAct(p) => PumpAct(p)
    case SubAct(i, r) => SubAct(i, r)
    case NewSub(id, kind) => NewSub(id, kind)
    case Attach(i) => Attach(i)
    case Detach(id) => Detach(id)
    case BeginClose => BeginClose
    case LockClose => LockClose
    case CloseNext(i) => CloseNext(i)
    case UnlockClose => UnlockClose
    case EndClose => EndClose
  }

  function ViewEvent(m: Mem, ev: Event<Ptr>): Event<Content> {
    match ev
    case Quiet => Quiet
    case Entered(x) => Entered(Read(m, x))
    case Pumped(x) => Pumped(Read(m, x))
    case Snapshot(due) => Snapshot(due)
    case Accepted(i, x) => Accepted(i, Read(m, x))
    case Consumed(i, x, w) => Consumed(i, Read(m, x), w)
    case Created => Created
    case Cleared(i) => Cleared(i)
  }

  lemma ViewSubsUpdate(m: Mem, subs: seq<Sub<Ptr>>, i: nat, x: Sub<Ptr>)
    requires i < |subs|
    ensures ViewSubs(m, subs[i := x]) == ViewSubs(m, subs)[i := ViewSub(m, x)]
  {
  }

  lemma ViewOffer(m: Mem, x: Sub<Ptr>, p: Ptr, clear: bool)
    ensures ViewSub(m, OfferTo(x, p, clear)) == OfferTo(ViewSub(m, x), Read(m, p), clear)
  {
    var g, g' := Grown(x.gop, p, clear), Grown(ViewSeq(m, x.gop), Read(m, p), clear);
    assert ViewSeq(m, g) == g';
    assert ViewSeq(m, g[CutOf(g)..]) == g'[CutOf(g')..];
    assert ViewSeq(m, x.queue + [p]) == ViewSeq(m, x.queue) + [Read(m, p)];
  }

  lemma ViewSubStep(m: Mem, x: Sub<Ptr>, r: SubAction)
    requires SubEnabled(x, r)
    ensures SubEnabled(ViewSub(m, x), r) && ViewSub(m, SubStep(x, r)) == SubStep(ViewSub(m, x), r)
  {
  }

  lemma ViewPumpStep(m: Mem, s: Pipe<Ptr>, a: PumpAction)
    requires PumpEnabled(s, a)
    ensures PumpEnabled(ViewPipe(m, s), a) && ViewPipe(m, PumpStep(s, a)) == PumpStep(ViewPipe(m, s), a)
    ensures ViewEvent(m, PumpEvent(s, a)) == PumpEvent(ViewPipe(m, s), a)
  {
    match a {
      case Take => assert ViewSeq(m, s.ingest[1..]) == ViewSeq(m, s.ingest)[1..];
      case Offer(clear) =>
        ViewOffer(m, s.subs[s.pump.sub], s.pump.p, clear);
        ViewSubsUpdate(m, s.subs, s.pump.sub, OfferTo(s.subs[s.pump.sub], s.pump.p, clear));
      case Return(failed) => ViewSubsUpdate(m, s.subs, s.pump.sub, PumpStep(s, a).subs[s.pump.sub]);
      case _ =>
    }
  }

  lemma ViewUpdateSub(m: Mem, s: Pipe<Ptr>, i: nat, r: SubAction)
    requires i < |s.subs| && SubEnabled(s.subs[i], r)
    ensures SubEnabled(ViewPipe(m, s).subs[i], r) && ViewPipe(m, UpdateSub(s, i, r)) == UpdateSub(ViewPipe(m, s), i, r)
  {
    ViewSubStep(m, s.subs[i], r);
    ViewSubsUpdate(m, s.subs, i, SubStep(s.subs[i], r));
  }

  lemma ViewStep(m: Mem, s: Pipe<Ptr>, a: Action<Ptr>)
    requires Enabled(s, a)
    ensures Enabled(ViewPipe(m, s), ViewAction(m, a))
    ensures ViewPipe(m, Step(s, a)) == Step(ViewPipe(m, s), ViewAction(m, a))
    ensures ViewEvent(m, EventOf(s, a)) == EventOf(ViewPipe(m, s), ViewAction(m, a))
  {
    match a {
      case Enqueue(x) => assert ViewSeq(m, s.ingest + [x]) == ViewSeq(m, s.ingest) + [Read(m, x)];
      case PumpAct(p) => ViewPumpStep(m, s, p);
      case SubAct(i, r) => ViewUpdateSub(m, s, i, r);
      case Detach(id) => if id in s.attached { ViewUpdateSub(m, s, s.attached[id], Shut); }
      case CloseNext(i) => ViewUpdateSub(m, s, i, Shut);
      case NewSub(id, kind) =>
        var x := FreshSub<Ptr>(id, kind);
        assert ViewSubs(m, s.subs + [x]) == ViewSubs(m, s.subs) + [ViewSub(m, x)];
      case _ =>
    }
  }

  // ---- only held packets matter ----------------------------------------------------------

  ghost predicate Agree(m: Mem, m': Mem, s: Pipe<Ptr>) {
    forall q :: Slots(s, q) > 0 ==> Read(m, q) == Read(m', q)
  }

  lemma ViewFrame(m: Mem, m': Mem, s: Pipe<Ptr>)
    requires Agree(m, m', s)
    ensures ViewPipe(m, s) == ViewPipe(m', s)
  {
    forall q | q in s.ingest ensures Read(m, q) == Read(m', q) { CountPositive(s.ingest, q); assert Slots(s, q) > 0; }
    assert ViewSeq(m, s.ingest) == ViewSeq(m', s.ingest);
    if !s.pump.Idle? && !s.pump.Stopped? { assert Slots(s, s.pump.p) > 0; }
    forall i | 0 <= i < |s.subs| ensures ViewSub(m, s.subs[i]) == ViewSub(m', s.subs[i]) {
      ViewSubFrame(m, m', s, i);
    }
  }

  lemma ViewSubFrame(m: Mem, m': Mem, s: Pipe<Ptr>, i: nat)
    requires Agree(m, m', s) && i < |s.subs|
    ensures ViewSub(m, s.subs[i]) == ViewSub(m', s.subs[i])
  {
    var x := s.subs[i];
    forall q | SubSlots(x, q) > 0 ensures Read(m, q) == Read(m', q) {
      SubSlotsWithin(s.subs, i, q);
      assert Slots(s, q) > 0;
    }
    forall q | q in x.queue || q in x.gop ensures SubSlots(x, q) > 0 {
      CountPositive(x.queue, q);
      CountPositive(x.gop, q);
    }
    assert x.hand.Some? ==> SubSlots(x, x.hand.value) > 0;
    assert ViewSeq(m, x.queue) == ViewSeq(m', x.queue);
    assert ViewSeq(m, x.gop) == ViewSeq(m', x.gop);
  }
}
