/** The control state of one live stream (internal/stream/fanout.go and the files of
    internal/subscriber) as atomic steps of its goroutines, generic in how a packet is represented:
    `P` is a pointer in the pooled pipeline and the packet's content in the value-passing one. */
module Pipeline {
  import opened Options
  import opened Packets

  const INGEST_CAP := 64
  const GOP_MAX := 256

  datatype Kind = Livestream | Storage | MinIO | Hls | Relay

  function Capacity(k: Kind): nat {
    match k
    case Livestream => 0
    case Storage => 512
    case MinIO => 512
    case Hls => 256
    case Relay => 128
  }

  /** The life of a subscriber's run goroutine; a Livestream subscriber has none and stays Running. */
  datatype Phase = Running | Draining | Exited

  /** `done` is the channel that Close closes, in every kind but Livestream. */
  datatype Sub<P> = Sub(id: string, kind: Kind, queue: seq<P>, hand: Option<P>, gop: seq<P>,
                        phase: Phase, done: bool, dropped: nat)

  function FreshSub<P>(id: string, kind: Kind): Sub<P> { Sub(id, kind, [], None, [], Running, false, 0) }

  /** Where the pump goroutine stands. From Fanning to Sent it holds the read lock. */
  datatype Pump<P> =
    | Idle
    | Taken(p: P)
    | Fanning(p: P, todo: set<nat>)
    | Offering(p: P, sub: nat, todo: set<nat>)
    | Sent(p: P, sub: nat, todo: set<nat>)
    | Unlocked(p: P)
    | Stopped
  {
    predicate HoldsLock() { Fanning? || Offering? || Sent? }
  }

  /** Where Close stands: `closed` is set from Marked on, `done` is closed in Closed. */
  datatype Closing = Open | Marked | Locked(todo: set<nat>) | Emptied | Closed

  datatype Pipe<P> = Pipe(ingest: seq<P>, pump: Pump<P>, subs: seq<Sub<P>>,
                          attached: map<string, nat>, closing: Closing, total: nat)

  /** Steps of the pump goroutine. */
  datatype PumpAction = Take | Stop | LockSubs | Retain(i: nat) | Offer(clear: bool) | Return(failed: bool) | Unlock | Drop

  /** Steps of one subscriber: its run goroutine, and its Close. */
  datatype SubAction = Recv | Process(failed: bool) | Exit | Abort | EndDrain | Shut

  datatype Action<P> =
    | Enqueue(x: P)
    | PumpAct(p: PumpAction)
    | SubAct(i: nat, r: SubAction)
    | NewSub(id: string, kind: Kind) | Attach(i: nat) | Detach(id: string)
    | BeginClose | LockClose | CloseNext(i: nat) | UnlockClose | EndClose

  /** What an action changes in the reference counts, in the order the source does it. */
  datatype Effect<P> = Effect(before: seq<P>, retained: seq<P>, after: seq<P>)

  /** What an outside observer sees of an action. */
  datatype Event<P> =
    | Quiet
    | Entered(x: P)
    | Pumped(x: P)
    | Snapshot(due: set<nat>)
    | Accepted(i: nat, x: P)
    | Consumed(i: nat, x: P, written: bool)
    | Created
    | Cleared(i: nat)

  // ---- the group-of-pictures cache -------------------------------------------------------

  function Grown<P>(gop: seq<P>, x: P, clear: bool): seq<P> {
    (if clear then [] else gop) + [x]
  }

  function CutOf<P>(g: seq<P>): (cut: nat)
    ensures cut <= |g|
  {
    if |g| > GOP_MAX then |g| - GOP_MAX else 0
  }

  /** updateGOP: reset on a video keyframe, append, keep the newest 256. */
  function GopAfter<P>(gop: seq<P>, x: P, clear: bool): seq<P> {
    var g := Grown(gop, x, clear);
    g[CutOf(g)..]
  }

  // ---- one subscriber --------------------------------------------------------------------

  function OfferTo<P>(x: Sub<P>, p: P, clear: bool): Sub<P> {
    if x.kind == Livestream then x.(gop := GopAfter(x.gop, p, clear))
    else if |x.queue| < Capacity(x.kind) then x.(queue := x.queue + [p])
    else x.(dropped := x.dropped + 1)
  }

  function OfferEffect<P>(x: Sub<P>, p: P, clear: bool): Effect<P> {
    if x.kind == Livestream then
      var g := Grown(x.gop, p, clear);
      Effect(if clear then x.gop else [], [p], g[..CutOf(g)])
    else if |x.queue| < Capacity(x.kind) then Effect([], [], [])
    else Effect([p], [], [])
  }

  /** Recv takes from the channel; Process writes, unless draining, and releases, and a relay leaves its
      loop when the write fails; Exit leaves the loop because done is closed, Abort because a file could
      not be made; EndDrain finds the channel empty. Shut is Close: a Livestream releases its cache, the
      others close done, once. */
  predicate SubEnabled<P>(x: Sub<P>, r: SubAction) {
    match r
    case Shut => true
    case Recv => x.kind != Livestream && x.phase != Exited && x.hand.None? && x.queue != []
    case Process(_) => x.kind != Livestream && x.hand.Some?
    case Exit => x.kind != Livestream && x.phase == Running && x.hand.None? && x.done
    case Abort => (x.kind == Storage || x.kind == Hls) && x.phase == Running && x.hand.None?
    case EndDrain => x.kind != Livestream && x.phase == Draining && x.hand.None? && x.queue == []
  }

  function SubStep<P>(x: Sub<P>, r: SubAction): Sub<P>
    requires SubEnabled(x, r)
  {
    match r
    case Shut => if x.kind == Livestream then x.(gop := []) else x.(done := true)
    case Recv => x.(queue := x.queue[1..], hand := Some(x.queue[0]))
    case Process(failed) => x.(hand := None, phase := if failed && x.kind == Relay && x.phase == Running then Draining else x.phase)
    case Exit => x.(phase := Draining)
    case Abort => x.(phase := Draining)
    case EndDrain => x.(phase := Exited)
  }

  function SubReleases<P>(x: Sub<P>, r: SubAction): seq<P>
    requires SubEnabled(x, r)
  {
    match r
    case Shut => if x.kind == Livestream then x.gop else []
    case Process(_) => [x.hand.value]
    case _ => []
  }

  // ---- steps -----------------------------------------------------------------------------

  predicate LockFree<P>(s: Pipe<P>) { !s.pump.HoldsLock() && !s.closing.Locked? }

  predicate PumpEnabled<P>(s: Pipe<P>, a: PumpAction) {
    match a
    case Take => s.pump.Idle? && s.ingest != []
    case Stop => s.pump.Idle? && s.closing.Closed?
    case LockSubs => s.pump.Taken? && !s.closing.Locked?
    case Retain(i) => s.pump.Fanning? && i in s.pump.todo && i < |s.subs|
    case Offer(clear) => s.pump.Offering? && s.pump.sub < |s.subs|
    case Return(failed) => s.pump.Sent? && s.pump.sub < |s.subs|
    case Unlock => s.pump.Fanning? && s.pump.todo == {}
    case Drop => s.pump.Unlocked?
  }

  function PumpStep<P>(s: Pipe<P>, a: PumpAction): Pipe<P>
    requires PumpEnabled(s, a)
  {
    match a
    case Take => s.(pump := Taken(s.ingest[0]), ingest := s.ingest[1..], total := s.total + 1)
    case Stop => s.(pump := Stopped)
    case LockSubs => s.(pump := Fanning(s.pump.p, s.attached.Values))
    case Retain(i) => s.(pump := Offering(s.pump.p, i, s.pump.todo - {i}))
    case Offer(clear) =>
      var i, x := s.pump.sub, s.subs[s.pump.sub];
      s.(subs := s.subs[i := OfferTo(x, s.pump.p, clear)],
         pump := if x.kind == Livestream then Sent(s.pump.p, i, s.pump.todo) else Fanning(s.pump.p, s.pump.todo))
    case Return(failed) =>
      var i, x := s.pump.sub, s.subs[s.pump.sub];
      s.(subs := s.subs[i := if failed then x.(dropped := x.dropped + 1) else x],
         pump := Fanning(s.pump.p, s.pump.todo))
    case Unlock => s.(pump := Unlocked(s.pump.p))
    case Drop => s.(pump := Idle)
  }

  function PumpEffects<P>(s: Pipe<P>, a: PumpAction): Effect<P>
    requires PumpEnabled(s, a)
  {
    match a
    case Retain(i) => Effect([], [s.pump.p], [])
    case Offer(clear) => OfferEffect(s.subs[s.pump.sub], s.pump.p, clear)
    case Return(failed) => Effect([s.pump.p], [], [])
    case Drop => Effect([s.pump.p], [], [])
    case _ => Effect([], [], [])
  }

  predicate Enabled<P>(s: Pipe<P>, a: Action<P>) {
    match a
    case Enqueue(x) => |s.ingest| < INGEST_CAP
    case PumpAct(p) => PumpEnabled(s, p)
    case SubAct(i, r) => i < |s.subs| && SubEnabled(s.subs[i], r)
    case NewSub(id, kind) => true
    case Attach(i) => i < |s.subs| && LockFree(s)
    case Detach(id) => LockFree(s) && (id in s.attached ==> s.attached[id] < |s.subs|)
    case BeginClose => s.closing.Open?
    case LockClose => s.closing.Marked? && !s.pump.HoldsLock()
    case CloseNext(i) => s.closing.Locked? && i in s.closing.todo && i < |s.subs|
    case UnlockClose => s.closing.Locked? && s.closing.todo == {}
    case EndClose => s.closing.Emptied?
  }

  function UpdateSub<P>(s: Pipe<P>, i: nat, r: SubAction): Pipe<P>
    requires i < |s.subs| && SubEnabled(s.subs[i], r)
  {
    s.(subs := s.subs[i := SubStep(s.subs[i], r)])
  }

  function Step<P>(s: Pipe<P>, a: Action<P>): Pipe<P>
    requires Enabled(s, a)
  {
    match a
    case Enqueue(x) => s.(ingest := s.ingest + [x])
    case PumpAct(p) => PumpStep(s, p)
    case SubAct(i, r) => UpdateSub(s, i, r)
    case NewSub(id, kind) => s.(subs := s.subs + [FreshSub(id, kind)])
    case Attach(i) => s.(attached := s.attached[s.subs[i].id := i])
    case Detach(id) =>
      if id in s.attached then UpdateSub(s, s.attached[id], Shut).(attached := s.attached - {id}) else s
    case BeginClose => s.(closing := Marked)
    case LockClose => s.(closing := Locked(s.attached.Values))
    case CloseNext(i) => UpdateSub(s, i, Shut).(closing := Locked(s.closing.todo - {i}))
    case UnlockClose => s.(attached := map[], closing := Emptied)
    case EndClose => s.(closing := Closed)
  }

  function Effects<P>(s: Pipe<P>, a: Action<P>): Effect<P>
    requires Enabled(s, a)
  {
    match a
    case PumpAct(p) => PumpEffects(s, p)
    case SubAct(i, r) => Effect(SubReleases(s.subs[i], r), [], [])
    case Detach(id) => Effect(if id in s.attached then SubReleases(s.subs[s.attached[id]], Shut) else [], [], [])
    case CloseNext(i) => Effect(SubReleases(s.subs[i], Shut), [], [])
    case _ => Effect([], [], [])
  }

  function PumpEvent<P>(s: Pipe<P>, a: PumpAction): Event<P>
    requires PumpEnabled(s, a)
  {
    match a
    case Take => Pumped(s.ingest[0])
    case LockSubs => Snapshot(s.attached.Values)
    case Offer(clear) =>
      var x := s.subs[s.pump.sub];
      if x.kind == Livestream || |x.queue| < Capacity(x.kind) then Accepted(s.pump.sub, s.pump.p) else Quiet
    case Return(failed) => Consumed(s.pump.sub, s.pump.p, !failed)
    case _ => Quiet
  }

  function EventOf<P>(s: Pipe<P>, a: Action<P>): Event<P>
    requires Enabled(s, a)
  {
    match a
    case Enqueue(x) => Entered(x)
    case PumpAct(p) => PumpEvent(s, p)
    case SubAct(i, r) =>
      if r.Process? then Consumed(i, s.subs[i].hand.value, s.subs[i].phase == Running && !r.failed)
      else if r.Shut? then Cleared(i) else Quiet
    case NewSub(id, kind) => Created
    case Detach(id) => if id in s.attached then Cleared(s.attached[id]) else Quiet
    case CloseNext(i) => Cleared(i)
    case _ => Quiet
  }

  // ---- who holds a packet ----------------------------------------------------------------

  /** How often `q` occurs in `xs`. */
  ghost function Count<P>(xs: seq<P>, q: P): nat {
    if xs == [] then 0 else Count(xs[..|xs| - 1], q) + (if xs[|xs| - 1] == q then 1 else 0)
  }

  lemma {:induction false} CountConcat<P>(xs: seq<P>, ys: seq<P>, q: P)
    ensures Count(xs + ys, q) == Count(xs, q) + Count(ys, q)
  {
    if ys == [] {
      assert xs + ys == xs;
    } else {
      assert (xs + ys)[..|xs + ys| - 1] == xs + ys[..|ys| - 1];
      CountConcat(xs, ys[..|ys| - 1], q);
    }
  }

  lemma {:induction false} CountPositive<P>(xs: seq<P>, q: P)
    ensures q in xs <==> Count(xs, q) > 0
  {
    if xs != [] {
      CountPositive(xs[..|xs| - 1], q);
      assert xs == xs[..|xs| - 1] + [xs[|xs| - 1]];
    }
  }

  ghost function PumpSlots<P>(pump: Pump<P>, q: P): nat {
    match pump
    case Idle => 0
    case Stopped => 0
    case Taken(p) => if p == q then 1 else 0
    case Fanning(p, _) => if p == q then 1 else 0
    case Offering(p, _, _) => if p == q then 2 else 0
    case Sent(p, _, _) => if p == q then 2 else 0
    case Unlocked(p) => if p == q then 1 else 0
  }

  ghost function SubSlots<P>(x: Sub<P>, q: P): nat {
    Count(x.queue, q) + Count(x.gop, q) + (if x.hand == Some(q) then 1 else 0)
  }

  ghost function SubsSlots<P>(subs: seq<Sub<P>>, q: P): nat {
    if subs == [] then 0 else SubsSlots(subs[..|subs| - 1], q) + SubSlots(subs[|subs| - 1], q)
  }

  /** How many references to `q` the pipeline holds: ingest queue, pump, queues, hands and caches. */
  ghost function Slots<P>(s: Pipe<P>, q: P): nat {
    Count(s.ingest, q) + PumpSlots(s.pump, q) + SubsSlots(s.subs, q)
  }

  lemma {:induction false} SubsSlotsUpdate<P>(subs: seq<Sub<P>>, i: nat, x: Sub<P>, q: P)
    requires i < |subs|
    ensures SubsSlots(subs[i := x], q) == SubsSlots(subs, q) - SubSlots(subs[i], q) + SubSlots(x, q)
  {
    var n := |subs| - 1;
    if i == n {
      assert subs[i := x][..n] == subs[..n];
    } else {
      assert subs[i := x][..n] == subs[..n][i := x];
      SubsSlotsUpdate(subs[..n], i, x, q);
    }
  }

  lemma {:induction false} SubSlotsWithin<P>(subs: seq<Sub<P>>, i: nat, q: P)
    requires i < |subs|
    ensures SubSlots(subs[i], q) <= SubsSlots(subs, q)
  {
    if i < |subs| - 1 {
      SubSlotsWithin(subs[..|subs| - 1], i, q);
    }
  }

  ghost function Incoming<P>(a: Action<P>, q: P): nat {
    if a.Enqueue? && a.x == q then 1 else 0
  }

  ghost function Released<P>(e: Effect<P>, q: P): nat { Count(e.before, q) + Count(e.after, q) }

  lemma CountSplit<P>(xs: seq<P>, k: nat, q: P)
    requires k <= |xs|
    ensures Count(xs, q) == Count(xs[..k], q) + Count(xs[k..], q)
  {
    assert xs == xs[..k] + xs[k..];
    CountConcat(xs[..k], xs[k..], q);
  }

  lemma OfferLedger<P>(x: Sub<P>, p: P, clear: bool, q: P)
    ensures var e := OfferEffect(x, p, clear);
            SubSlots(OfferTo(x, p, clear), q) + Released(e, q)
            == SubSlots(x, q) + Count(e.retained, q)
               + (if p == q && x.kind != Livestream then 1 else 0)
  {
    if x.kind == Livestream { CacheLedger(x, p, clear, q); } else { CountConcat(x.queue, [p], q); }
  }

  lemma CacheLedger<P>(x: Sub<P>, p: P, clear: bool, q: P)
    ensures var g := Grown(x.gop, p, clear);
            Count(GopAfter(x.gop, p, clear), q) + Count(g[..CutOf(g)], q) + (if clear then Count(x.gop, q) else 0)
            == Count(x.gop, q) + (if p == q then 1 else 0)
  {
    var g := Grown(x.gop, p, clear);
    CountConcat(if clear then [] else x.gop, [p], q);
    CountSplit(g, CutOf(g), q);
  }

  lemma SubLedger<P>(x: Sub<P>, r: SubAction, q: P)
    requires SubEnabled(x, r)
    ensures SubSlots(SubStep(x, r), q) + Count(SubReleases(x, r), q) == SubSlots(x, q)
  {
    if r.Recv? { CountSplit(x.queue, 1, q); }
  }

  lemma SlotsUpdate<P>(s: Pipe<P>, i: nat, x: Sub<P>, pump: Pump<P>, q: P)
    requires i < |s.subs|
    ensures Slots(s.(subs := s.subs[i := x], pump := pump), q)
            == Slots(s, q) - SubSlots(s.subs[i], q) + SubSlots(x, q) - PumpSlots(s.pump, q) + PumpSlots(pump, q)
  {
    SubsSlotsUpdate(s.subs, i, x, q);
  }

  ghost predicate OfferBalanced<P>(s: Pipe<P>, clear: bool, q: P)
    requires PumpEnabled(s, Offer(clear))
  {
    var e := PumpEffects(s, Offer(clear));
    Slots(PumpStep(s, Offer(clear)), q) + Released(e, q) == Slots(s, q) + Count(e.retained, q)
  }

  lemma ChannelOfferLedger<P>(s: Pipe<P>, clear: bool, q: P)
    requires PumpEnabled(s, Offer(clear)) && s.subs[s.pump.sub].kind != Livestream
    ensures OfferBalanced(s, clear, q)
  {
    var i, s' := s.pump.sub, PumpStep(s, Offer(clear));
    SlotsUpdate(s, i, s'.subs[i], s'.pump, q);
    OfferLedger(s.subs[i], s.pump.p, clear, q);
  }

  lemma LivestreamOfferLedger<P>(s: Pipe<P>, clear: bool, q: P)
    requires PumpEnabled(s, Offer(clear)) && s.subs[s.pump.sub].kind == Livestream
    ensures OfferBalanced(s, clear, q)
  {
    var i, s' := s.pump.sub, PumpStep(s, Offer(clear));
    SlotsUpdate(s, i, s'.subs[i], s'.pump, q);
    OfferLedger(s.subs[i], s.pump.p, clear, q);
  }

  lemma PumpLedger<P>(s: Pipe<P>, a: PumpAction, q: P)
    requires PumpEnabled(s, a)
    ensures var e := PumpEffects(s, a);
            Slots(PumpStep(s, a), q) + Released(e, q) == Slots(s, q) + Count(e.retained, q)
  {
    match a {
      case Take => CountSplit(s.ingest, 1, q);
      case Offer(clear) =>
        if s.subs[s.pump.sub].kind == Livestream { LivestreamOfferLedger(s, clear, q); }
        else { ChannelOfferLedger(s, clear, q); }
      case Return(failed) => SubsSlotsUpdate(s.subs, s.pump.sub, PumpStep(s, a).subs[s.pump.sub], q);
      case _ =>
    }
  }

  lemma UpdateLedger<P>(s: Pipe<P>, i: nat, r: SubAction, q: P)
    requires i < |s.subs| && SubEnabled(s.subs[i], r)
    ensures Slots(UpdateSub(s, i, r), q) + Count(SubReleases(s.subs[i], r), q) == Slots(s, q)
  {
    SubLedger(s.subs[i], r, q);
    SubsSlotsUpdate(s.subs, i, SubStep(s.subs[i], r), q);
  }

  /** Conservation: every step moves, adds and removes slots exactly as it retains and releases. */
  lemma Ledger<P>(s: Pipe<P>, a: Action<P>, q: P)
    requires Enabled(s, a)
    ensures var e := Effects(s, a);
            Slots(Step(s, a), q) + Released(e, q) == Slots(s, q) + Count(e.retained, q) + Incoming(a, q)
  {
    match a {
      case PumpAct(p) => PumpLedger(s, p, q);
      case SubAct(i, r) => UpdateLedger(s, i, r, q);
      case Detach(id) => if id in s.attached { UpdateLedger(s, s.attached[id], Shut, q); }
      case CloseNext(i) => UpdateLedger(s, i, Shut, q);
      case Enqueue(x) => CountConcat(s.ingest, [x], q);
      case NewSub(id, kind) => assert Step(s, a).subs[..|s.subs|] == s.subs;
      case _ =>
    }
  }
}
