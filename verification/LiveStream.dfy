/** The stream object of internal/stream/fanout.go. Whatever methods are called on it, in whatever order,
    it stands where some run of the value-passing pipeline ends. */
module LiveStream {
  import opened Options
  import opened Packets
  import opened Pipeline
  import opened Values

  /** What one whole Deliver makes of a subscriber; `failed` is a viewer's callback failing. */
  function Delivered(x: Sub<Content>, p: Content, failed: bool): Sub<Content> {
    var y := OfferTo(x, p, StartsGop(p));
    if x.kind == Livestream && failed then y.(dropped := y.dropped + 1) else y
  }

  /** What Close makes of a subscriber: an empty cache, or a closed `done`. */
  function ClosedSub(x: Sub<Content>): Sub<Content> {
    if x.kind == Livestream then x.(gop := []) else x.(done := true)
  }

  /** `trail` is a run of the pipeline that ends in `s`. Look keeps the run folded until it is named. */
  ghost predicate EndsIn(trail: seq<Action<Content>>, s: Pipe<Content>) {
    forall r {:trigger Look(r)} :: Look(r) && r == VExec(trail) ==> r.Some? && r.value.pipe == s
  }

  ghost predicate Look(r: Option<VState>) { true }

  lemma RunEndsIn(trail: seq<Action<Content>>, s: Pipe<Content>)
    ensures EndsIn(trail, s) <==> VExec(trail).Some? && VExec(trail).value.pipe == s
  {
    assert Look(VExec(trail));
  }

  /** `trail` is every step the stream has taken since it was made. */
  class Stream {
    var ingest: seq<Content>
    var pump: Pump<Content>
    var subs: seq<Sub<Content>>
    var attached: map<string, nat>
    var closing: Closing
    var packetsTotal: nat
    ghost var trail: seq<Action<Content>>

    function State(): Pipe<Content>
      reads this`ingest, this`pump, this`subs, this`attached, this`closing, this`packetsTotal
    {
      Pipe(ingest, pump, subs, attached, closing, packetsTotal)
    }

    ghost predicate Valid() reads this { EndsIn(trail, State()) }

    constructor ()
      ensures Valid() && State() == VINIT.pipe
    {
      ingest, pump, subs, attached, closing, packetsTotal := [], Idle, [], map[], Open, 0;
      trail := [];
      new;
      RunEndsIn(trail, State());
    }

    /** The pipeline's invariant holds of the stream at all times: its record accounts for every packet,
        and every viewer's cache is its latest group. */
    lemma KeepsTheRecord()
      requires Valid()
      ensures VExec(trail).Some? && VExec(trail).value.pipe == State() && VInv(VExec(trail).value)
    {
      RunEndsIn(trail, State());
      VRunKeeps(trail);
    }

    lemma AttachedExist()
      requires Valid()
      ensures forall id <- attached :: attached[id] < |subs|
    {
      KeepsTheRecord();
    }

    /** One step of the pipeline; a viewer's cache resets exactly when the packet starts a group. */
    method Do(a: Action<Content>)
      requires Valid() && Possible(State(), a)
      modifies this
      ensures Valid() && State() == Step(old(State()), a)
    {
      RunEndsIn(trail, State());
      VExecSnoc(trail, a);
      trail := trail + [a];
      var s := Step(State(), a);
      ingest, pump, subs, attached, closing, packetsTotal := s.ingest, s.pump, s.subs, s.attached, s.closing, s.total;
      RunEndsIn(trail, s);
    }

    /** Ingest: into the channel, or abandoned when the stream is closed or the channel full. */
    method Ingest(p: Content) returns (abandoned: bool)
      requires Valid()
      modifies this
      ensures Valid() && (abandoned <==> !old(closing).Open? || |old(ingest)| >= INGEST_CAP)
      ensures State() == old(State()).(ingest := if abandoned then old(ingest) else old(ingest) + [p])
    {
      abandoned := !closing.Open? || |ingest| >= INGEST_CAP;
      if !abandoned {
        Do(Enqueue(p));
      }
    }

    /** AddSubscriber: a subscriber already attached under the same id is replaced, not closed. */
    method AddSubscriber(i: nat)
      requires Valid() && i < |subs| && LockFree(State())
      modifies this
      ensures Valid() && State() == old(State()).(attached := old(attached)[old(subs)[i].id := i])
    {
      Do(Attach(i));
    }

    /** RemoveSubscriber: the one attached under the id is closed and detached. */
    method RemoveSubscriber(id: string)
      requires Valid() && LockFree(State())
      modifies this
      ensures Valid() && |subs| == |old(subs)| && attached == old(attached) - {id}
      ensures State() == old(State()).(subs := subs, attached := attached)
      ensures forall i | 0 <= i < |subs| ::
                subs[i] == if id in old(attached) && old(attached)[id] == i then ClosedSub(old(subs)[i]) else old(subs)[i]
    {
      AttachedExist();
      Do(Detach(id));
    }

    /** One Retain and Deliver of the fan-out loop. */
    method DeliverTo(i: nat, failed: bool)
      requires Valid() && pump.Fanning? && i in pump.todo && i < |subs|
      modifies this
      ensures Valid() && pump == Fanning(old(pump).p, old(pump).todo - {i})
      ensures subs == old(subs)[i := Delivered(old(subs)[i], pump.p, failed)]
      ensures State() == old(State()).(pump := pump, subs := subs)
    {
      Do(PumpAct(Retain(i)));
      Do(PumpAct(Offer(StartsGop(pump.p))));
      if pump.Sent? {
        Do(PumpAct(Return(failed)));
      }
    }

    /** The loop over the subscribers found under the lock. */
    method FanOut(failing: set<nat>)
      requires Valid() && pump.Fanning? && forall i <- pump.todo :: i < |subs|
      modifies this
      ensures Valid() && |subs| == |old(subs)|
      ensures State() == old(State()).(pump := Fanning(old(pump).p, {}), subs := subs)
      ensures forall i | 0 <= i < |subs| ::
                subs[i] == if i in old(pump).todo then Delivered(old(subs)[i], pump.p, i in failing) else old(subs)[i]
    {
      ghost var s := State();
      while pump.todo != {}
        invariant Valid() && pump.Fanning? && pump.p == s.pump.p && pump.todo <= s.pump.todo
        invariant |subs| == |s.subs| && State() == s.(pump := pump, subs := subs)
        invariant forall i | 0 <= i < |subs| ::
                    subs[i] == if i in s.pump.todo - pump.todo then Delivered(s.subs[i], s.pump.p, i in failing) else s.subs[i]
        decreases pump.todo
      {
        var i :| i in pump.todo;
        DeliverTo(i, i in failing);
      }
    }

    /** One round of the pump loop: every attached subscriber gets the packet exactly once, every other
        one is left alone. */
    method PumpOnce(failing: set<nat>)
      requires Valid() && pump.Idle? && ingest != [] && !closing.Locked?
      modifies this
      ensures Valid() && |subs| == |old(subs)|
      ensures State() == Pipe(old(ingest)[1..], Idle, subs, old(attached), old(closing), old(packetsTotal) + 1)
      ensures forall i | 0 <= i < |subs| ::
                subs[i] == if i in attached.Values then Delivered(old(subs)[i], old(ingest)[0], i in failing) else old(subs)[i]
    {
      AttachedExist();
      Do(PumpAct(Take));
      Do(PumpAct(LockSubs));
      FanOut(failing);
      Do(PumpAct(Unlock));
      Do(PumpAct(Drop));
    }

    method CloseAll()
      requires Valid() && closing.Locked? && forall i <- closing.todo :: i < |subs|
      modifies this
      ensures Valid() && |subs| == |old(subs)|
      ensures State() == old(State()).(closing := Locked({}), subs := subs)
      ensures forall i | 0 <= i < |subs| ::
                subs[i] == if i in old(closing).todo then ClosedSub(old(subs)[i]) else old(subs)[i]
    {
      ghost var s := State();
      while closing.todo != {}
        invariant Valid() && closing.Locked? && closing.todo <= s.closing.todo
        invariant |subs| == |s.subs| && State() == s.(closing := closing, subs := subs)
        invariant forall i | 0 <= i < |subs| ::
                    subs[i] == if i in s.closing.todo - closing.todo then ClosedSub(s.subs[i]) else s.subs[i]
        decreases closing.todo
      {
        var i :| i in closing.todo;
        Do(CloseNext(i));
      }
    }

    /** The closed flag, then the lock. */
    method ShutDoor()
      requires Valid() && closing.Open? && !pump.HoldsLock()
      modifies this
      ensures Valid() && State() == old(State()).(closing := Locked(old(attached).Values))
    {
      Do(BeginClose);
      Do(LockClose);
    }

    /** Close: only the first call does anything; it closes every attached subscriber, viewers and channel
        subscribers alike, and detaches them all. */
    method Close()
      requires Valid() && !pump.HoldsLock() && !closing.Locked?
      modifies this
      ensures Valid() && |subs| == |old(subs)|
      ensures !old(closing).Open? ==> State() == old(State())
      ensures old(closing).Open? ==> State() == old(State()).(subs := subs, attached := map[], closing := Closed)
      ensures old(closing).Open? ==> forall i | 0 <= i < |subs| ::
                subs[i] == if i in old(attached).Values then ClosedSub(old(subs)[i]) else old(subs)[i]
    {
      if !closing.Open? {
        return;
      }
      AttachedExist();
      ShutDoor();
      CloseAll();
      Do(UnlockClose);
      Do(EndClose);
    }
  }
}
