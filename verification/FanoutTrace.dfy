/** What the moves of a run of the pooled pipeline say by themselves: which packets are abandoned, what
    enters the stream, what each queue takes, and what counts as written. */
module FanoutTrace {
  import opened Options
  import opened Packets
  import opened Pipeline
  import opened Memory
  import opened Values
  import opened Sequences
  import opened Refinement
  import opened Fanout

  /** Some move of the run began to close the stream. */
  predicate CloseBegan(mvs: seq<Move>) { Act(BeginClose) in mvs }

  /** How many packets wait in the ingest channel, of 64 places: sends fill it, the pump empties it. */
  function Waiting(mvs: seq<Move>): int {
    if mvs == [] then 0
    else
      var w := Waiting(mvs[..|mvs| - 1]);
      match mvs[|mvs| - 1]
      case Send(_) => if w < 64 then w + 1 else w
      case Act(a) => if a == PumpAct(Take) then w - 1 else w
      case New(_, _) => w
      case Fill(_, _) => w
      case Discard(_) => w
      case CheckOpen(_) => w
      case Forget(_) => w
  }

  /** What a packet carries: what its producer last filled in, since it was handed out with some old bytes. */
  function Given(mvs: seq<Move>, p: Ptr): Content {
    if mvs == [] then Content(0, 0, false, [])
    else
      var mv := mvs[|mvs| - 1];
      if mv.Fill? && mv.p == p then mv.c
      else if mv.New? && mv.p == p then Content(0, 0, false, mv.stale)
      else Given(mvs[..|mvs| - 1], p)
  }

  /** The contents of the sends that found room, in order. */
  function Sendings(mvs: seq<Move>): seq<Content> {
    if mvs == [] then []
    else
      var init, mv := mvs[..|mvs| - 1], mvs[|mvs| - 1];
      Sendings(init) + if mv.Send? && Waiting(init) < 64 then [Given(init, mv.p)] else []
  }

  /** Move `i` loses the packet: a check after closing began, or a send into a full channel. */
  predicate LostAt(mvs: seq<Move>, i: nat, p: Ptr)
    requires i < |mvs|
  {
    (mvs[i] == CheckOpen(p) && CloseBegan(mvs[..i])) || (mvs[i] == Send(p) && Waiting(mvs[..i]) >= 64)
  }

  // ---- the machine does as the moves say --------------------------------------------------

  /** What holds at the end of every run. */
  ghost predicate Told(mvs: seq<Move>, s: State) {
    && (s.pipe.closing.Open? <==> !CloseBegan(mvs))
    && |s.pipe.ingest| == Waiting(mvs)
    && s.hist.sent == Sendings(mvs)
    && (forall p | p in s.hands || p in s.sending :: p in s.mem.heap && s.mem.heap[p].content == Given(mvs, p))
  }

  lemma InitOf(mvs: seq<Move>) returns (init: seq<Move>, mv: Move, s: State, s': State)
    requires mvs != [] && Exec(mvs).Some?
    ensures init == mvs[..|mvs| - 1] && mv == mvs[|mvs| - 1] && mvs == init + [mv] && Exec(init) == Some(s) && Exec(mvs) == Some(s')
    ensures MEnabled(s, mv) && s' == MStep(s, mv) && Fanout.Inv(s)
  {
    init, mv := mvs[..|mvs| - 1], mvs[|mvs| - 1];
    s, s' := Exec(init).value, Exec(mvs).value;
    RunKeepsInv(init);
  }

  lemma ClosingStep(s: Pipe<Ptr>, a: Action<Ptr>)
    requires Enabled(s, a)
    ensures Step(s, a).closing.Open? <==> s.closing.Open? && a != BeginClose
  {
  }

  lemma IngestStep(s: Pipe<Ptr>, a: Action<Ptr>)
    requires Enabled(s, a)
    ensures Step(s, a).ingest ==
            if a.Enqueue? then s.ingest + [a.x] else if a == PumpAct(Take) then s.ingest[1..] else s.ingest
  {
  }

  lemma SentStep(s: State, a: Action<Ptr>)
    requires Enabled(s.pipe, a)
    ensures Acted(s, a).hist.sent == s.hist.sent + if a.Enqueue? then [Read(s.mem, a.x)] else []
    ensures Acted(s, a).hands == s.hands && Acted(s, a).sending == s.sending && Acted(s, a).abandoned == s.abandoned
  {
  }

  /** A packet in a producer's hands keeps its content through every step of the pipeline. */
  lemma HeldContents(s: State, a: Action<Ptr>, p: Ptr)
    requires Fanout.Inv(s) && Enabled(s.pipe, a) && p in s.mem.heap
    ensures p in Acted(s, a).mem.heap && Acted(s, a).mem.heap[p].content == s.mem.heap[p].content
  {
    ActedCounts(s, a);
    assert Read(Acted(s, a).mem, p) == Read(s.mem, p);
  }

  lemma CloseBeganSnoc(mvs: seq<Move>, mv: Move)
    ensures CloseBegan(mvs + [mv]) <==> CloseBegan(mvs) || mv == Act(BeginClose)
  {
  }

  lemma ToldByAction(init: seq<Move>, s: State, a: Action<Ptr>)
    requires Told(init, s) && Fanout.Inv(s) && MEnabled(s, Act(a))
    ensures Told(init + [Act(a)], Acted(s, a))
  {
    var mvs, s' := init + [Act(a)], Acted(s, a);
    assert mvs[..|mvs| - 1] == init;
    CloseBeganSnoc(init, Act(a));
    ClosingStep(s.pipe, a);
    IngestStep(s.pipe, a);
    SentStep(s, a);
    forall p | p in s'.hands || p in s'.sending
      ensures p in s'.mem.heap && s'.mem.heap[p].content == Given(mvs, p)
    {
      HeldContents(s, a, p);
    }
  }

  lemma ToldBySend(init: seq<Move>, s: State, p: Ptr)
    requires Told(init, s) && Fanout.Inv(s) && MEnabled(s, Send(p))
    ensures Told(init + [Send(p)], MStep(s, Send(p)))
  {
    var mvs, s' := init + [Send(p)], MStep(s, Send(p));
    assert mvs[..|mvs| - 1] == init;
    CloseBeganSnoc(init, Send(p));
    if |s.pipe.ingest| < INGEST_CAP {
      ClosingStep(s.pipe, Enqueue(p));
      IngestStep(s.pipe, Enqueue(p));
      SentStep(s, Enqueue(p));
      forall q | q in s'.hands || q in s'.sending
        ensures q in s'.mem.heap && s'.mem.heap[q].content == Given(mvs, q)
      {
        HeldContents(s, Enqueue(p), q);
      }
    }
  }

  lemma ToldByMemory(init: seq<Move>, s: State, mv: Move)
    requires Told(init, s) && Fanout.Inv(s) && MEnabled(s, mv) && !mv.Act? && !mv.Send?
    ensures Told(init + [mv], MStep(s, mv))
  {
    var mvs, s' := init + [mv], MStep(s, mv);
    assert mvs[..|mvs| - 1] == init;
    CloseBeganSnoc(init, mv);
    assert Refs(s.mem, mv.p) == Held(s, mv.p);
    forall q | q in s.hands || q in s.sending ensures Refs(s.mem, q) == Held(s, q) && Held(s, q) == 1 {
      assert Outside(s, q) > 0;
    }
  }

  lemma {:induction false} RunTold(mvs: seq<Move>)
    requires Exec(mvs).Some?
    ensures Told(mvs, Exec(mvs).value)
  {
    if mvs != [] {
      var init, mv, s, s' := InitOf(mvs);
      RunTold(init);
      if mv.Act? {
        ToldByAction(init, s, mv.a);
      } else if mv.Send? {
        ToldBySend(init, s, mv.p);
      } else {
        ToldByMemory(init, s, mv);
      }
    }
  }

  // ---- what follows ----------------------------------------------------------------------

  /** What has entered a stream is exactly what its producers filled into the packets whose sends found
      room, in the order of the sends. */
  lemma SentExactly(mvs: seq<Move>)
    requires Exec(mvs).Some?
    ensures Exec(mvs).value.hist.sent == Sendings(mvs)
  {
    RunTold(mvs);
  }

  lemma LostSnoc(mvs: seq<Move>, mv: Move, i: nat, p: Ptr)
    requires i <= |mvs|
    ensures LostAt(mvs + [mv], i, p) <==>
              if i < |mvs| then LostAt(mvs, i, p)
              else (mv == CheckOpen(p) && CloseBegan(mvs)) || (mv == Send(p) && Waiting(mvs) >= 64)
  {
    assert (mvs + [mv])[..i] == mvs[..i] && mvs[..|mvs|] == mvs;
  }

  lemma AbandonStep(init: seq<Move>, s: State, mv: Move, p: Ptr)
    requires Told(init, s) && MEnabled(s, mv)
    ensures p in MStep(s, mv).abandoned <==> p in s.abandoned || LostAt(init + [mv], |init|, p)
  {
    LostSnoc(init, mv, |init|, p);
  }

  /** A packet is abandoned if and only if some move lost it: its producer's check came after closing
      began, or its send found 64 packets waiting. */
  lemma {:induction false} AbandonedExactly(mvs: seq<Move>, p: Ptr)
    requires Exec(mvs).Some?
    ensures p in Exec(mvs).value.abandoned <==> exists i | 0 <= i < |mvs| :: LostAt(mvs, i, p)
  {
    if mvs != [] {
      var init, mv, s, s' := InitOf(mvs);
      AbandonedExactly(init, p);
      RunTold(init);
      AbandonStep(init, s, mv, p);
      forall i | 0 <= i < |mvs|
        ensures LostAt(mvs, i, p) <==> if i < |init| then LostAt(init, i, p) else LostAt(init + [mv], |init|, p)
      {
        LostSnoc(init, mv, i, p);
      }
      if exists i | 0 <= i < |init| :: LostAt(init, i, p) {
        var i :| 0 <= i < |init| && LostAt(init, i, p);
        assert LostAt(mvs, i, p);
      }
      if LostAt(init + [mv], |init|, p) { assert LostAt(mvs, |init|, p); }
    }
  }

  /** The contents of all sends, in order. */
  function AllSendings(mvs: seq<Move>): seq<Content> {
    if mvs == [] then []
    else
      var init, mv := mvs[..|mvs| - 1], mvs[|mvs| - 1];
      AllSendings(init) + if mv.Send? then [Given(init, mv.p)] else []
  }

  predicate NeverFull(mvs: seq<Move>) { forall i | 0 <= i < |mvs| && mvs[i].Send? :: Waiting(mvs[..i]) < 64 }

  lemma {:induction false} NeverFullSends(mvs: seq<Move>)
    requires NeverFull(mvs)
    ensures Sendings(mvs) == AllSendings(mvs)
  {
    if mvs != [] {
      var init := mvs[..|mvs| - 1];
      forall i | 0 <= i < |init| && init[i].Send? ensures Waiting(init[..i]) < 64 { assert mvs[..i] == init[..i]; }
      NeverFullSends(init);
    }
  }

  /** A run that does not begin to close and never fills the channel abandons nothing, and everything sent
      enters the stream, in order. */
  lemma NothingIsLost(mvs: seq<Move>)
    requires Exec(mvs).Some? && !CloseBegan(mvs) && NeverFull(mvs)
    ensures Exec(mvs).value.abandoned == {} && Exec(mvs).value.hist.sent == AllSendings(mvs)
  {
    SentExactly(mvs);
    NeverFullSends(mvs);
    forall p ensures p !in Exec(mvs).value.abandoned {
      AbandonedExactly(mvs, p);
    }
  }

  // ---- subscribers -----------------------------------------------------------------------

  /** The ids and kinds of the subscribers made so far. */
  function Created(mvs: seq<Move>): seq<(string, Kind)> {
    if mvs == [] then []
    else
      var mv := mvs[|mvs| - 1];
      Created(mvs[..|mvs| - 1]) + if mv.Act? && mv.a.NewSub? then [(mv.a.id, mv.a.kind)] else []
  }

  /** Which of them are attached, under their ids: the last one attached, not detached since, until a close
      forgets them all. */
  function AttachedBy(mvs: seq<Move>): map<string, nat> {
    if mvs == [] then map[]
    else
      var init, mv := mvs[..|mvs| - 1], mvs[|mvs| - 1];
      var m := AttachedBy(init);
      if !mv.Act? then m
      else if mv.a.Attach? && mv.a.i < |Created(init)| then m[Created(init)[mv.a.i].0 := mv.a.i]
      else if mv.a.Detach? then m - {mv.a.id}
      else if mv.a.UnlockClose? then map[]
      else m
  }

  /** The subscriber the pump last retained a packet for. */
  function LastRetained(mvs: seq<Move>): nat {
    if mvs == [] then 0
    else
      var mv := mvs[|mvs| - 1];
      if mv.Act? && mv.a.PumpAct? && mv.a.p.Retain? then mv.a.p.i else LastRetained(mvs[..|mvs| - 1])
  }

  /** A subscriber's goroutine has left its loop: by an exit, an abort, or a relay's failed write. */
  predicate Left(mvs: seq<Move>, i: nat) {
    mvs != [] &&
    var init, mv := mvs[..|mvs| - 1], mvs[|mvs| - 1];
    Left(init, i) ||
    (mv.Act? && mv.a.SubAct? && mv.a.i == i
     && (mv.a.r.Exit? || mv.a.r.Abort? || (mv.a.r == Process(true) && i < |Created(init)| && Created(init)[i].1 == Relay)))
  }

  /** Of the packets a subscriber has consumed, which were written: those whose write did not fail before it
      left its loop, or whose callback did not. */
  function Marks(mvs: seq<Move>, i: nat): seq<bool> {
    if mvs == [] then []
    else
      var init, mv := mvs[..|mvs| - 1], mvs[|mvs| - 1];
      Marks(init, i) +
      if mv.Act? && mv.a.SubAct? && mv.a.i == i && mv.a.r.Process? then [!mv.a.r.failed && !Left(init, i)]
      else if mv.Act? && mv.a.PumpAct? && mv.a.p.Return? && LastRetained(init) == i then [!mv.a.p.failed]
      else []
  }

  ghost predicate SubTold(mvs: seq<Move>, s: State, i: nat) {
    if i < |s.pipe.subs| then
      && i < |s.hist.subs| && i < |Created(mvs)| && (s.pipe.subs[i].id, s.pipe.subs[i].kind) == Created(mvs)[i]
      && (s.pipe.subs[i].phase.Running? <==> !Left(mvs, i))
      && s.hist.subs[i].ok == Marks(mvs, i)
    else !Left(mvs, i) && Marks(mvs, i) == []
  }

  ghost predicate SubsTold(mvs: seq<Move>, s: State) {
    && |Created(mvs)| == |s.pipe.subs| == |s.hist.subs|
    && s.pipe.attached == AttachedBy(mvs)
    && (s.pipe.pump.Offering? || s.pipe.pump.Sent? ==> s.pipe.pump.sub == LastRetained(mvs))
    && forall i: nat :: SubTold(mvs, s, i)
  }

  /** What most steps leave alone: subscribers' ids, kinds, phases and marks. */
  ghost predicate SameSubs(s: State, s': State) {
    && |s'.pipe.subs| == |s.pipe.subs| && |s'.hist.subs| == |s.hist.subs|
    && (forall i | 0 <= i < |s.pipe.subs| ::
          s'.pipe.subs[i].id == s.pipe.subs[i].id && s'.pipe.subs[i].kind == s.pipe.subs[i].kind
          && s'.pipe.subs[i].phase == s.pipe.subs[i].phase)
    && (forall i | 0 <= i < |s.hist.subs| :: s'.hist.subs[i].ok == s.hist.subs[i].ok)
  }

  lemma PumpKeepsSubs(s: State, p: PumpAction)
    requires Enabled(s.pipe, PumpAct(p)) && !p.Return?
    ensures SameSubs(s, Acted(s, PumpAct(p)))
    ensures var s' := Acted(s, PumpAct(p));
            && s'.pipe.attached == s.pipe.attached
            && (s'.pipe.pump.Offering? || s'.pipe.pump.Sent? ==>
                  if p.Retain? then s'.pipe.pump.sub == p.i else (s.pipe.pump.Offering? || s.pipe.pump.Sent?) && s'.pipe.pump.sub == s.pipe.pump.sub)
  {
  }

  lemma ControlKeepsSubs(s: State, a: Action<Ptr>)
    requires Enabled(s.pipe, a) && !a.SubAct? && !a.NewSub? && !a.PumpAct?
    ensures SameSubs(s, Acted(s, a))
    ensures Acted(s, a).pipe.pump == s.pipe.pump
    ensures Acted(s, a).pipe.attached ==
            if a.Attach? then s.pipe.attached[s.pipe.subs[a.i].id := a.i]
            else if a.Detach? then s.pipe.attached - {a.id}
            else if a.UnlockClose? then map[]
            else s.pipe.attached
  {
  }

  /** The move says nothing about any one subscriber, and the step leaves all alone. */
  lemma SameTold(init: seq<Move>, mv: Move, s: State, s': State)
    requires SubsTold(init, s) && SameSubs(s, s') && s'.pipe.attached == AttachedBy(init + [mv])
    requires s'.pipe.pump.Offering? || s'.pipe.pump.Sent? ==> s'.pipe.pump.sub == LastRetained(init + [mv])
    requires !(mv.Act? && (mv.a.SubAct? || mv.a.NewSub? || (mv.a.PumpAct? && mv.a.p.Return?)))
    ensures SubsTold(init + [mv], s')
  {
    var mvs := init + [mv];
    assert mvs[..|mvs| - 1] == init;
    forall i: nat ensures SubTold(mvs, s', i) { assert SubTold(init, s, i); }
  }

  lemma ControlTold(init: seq<Move>, s: State, a: Action<Ptr>)
    requires SubsTold(init, s) && Enabled(s.pipe, a)
    requires !a.SubAct? && !a.NewSub? && !(a.PumpAct? && a.p.Return?)
    ensures SubsTold(init + [Act(a)], Acted(s, a))
  {
    var mvs := init + [Act(a)];
    assert mvs[..|mvs| - 1] == init;
    if a.PumpAct? { PumpKeepsSubs(s, a.p); } else { ControlKeepsSubs(s, a); }
    if a.Attach? { assert SubTold(init, s, a.i); }
    SameTold(init, Act(a), s, Acted(s, a));
  }

  /** Only one subscriber's phase or marks change. */
  lemma OneTold(init: seq<Move>, mv: Move, s: State, s': State, k: nat)
    requires SubsTold(init, s) && mv.Act? && k < |s.pipe.subs|
    requires (mv.a.SubAct? && mv.a.i == k) || (mv.a.PumpAct? && mv.a.p.Return? && LastRetained(init) == k)
    requires |s'.pipe.subs| == |s.pipe.subs| && |s'.hist.subs| == |s.hist.subs| && s'.pipe.attached == s.pipe.attached
    requires s'.pipe.pump.Offering? || s'.pipe.pump.Sent? ==> s'.pipe.pump.sub == LastRetained(init)
    requires forall i | 0 <= i < |s.pipe.subs| && i != k :: s'.pipe.subs[i] == s.pipe.subs[i] && s'.hist.subs[i] == s.hist.subs[i]
    requires SubTold(init + [mv], s', k)
    ensures SubsTold(init + [mv], s')
  {
    var mvs := init + [mv];
    assert mvs[..|mvs| - 1] == init;
    forall i: nat ensures SubTold(mvs, s', i) { assert SubTold(init, s, i); }
  }

  lemma ReturnTold(init: seq<Move>, s: State, failed: bool)
    requires SubsTold(init, s) && Enabled(s.pipe, PumpAct(Return(failed)))
    ensures SubsTold(init + [Act(PumpAct(Return(failed)))], Acted(s, PumpAct(Return(failed))))
  {
    var mvs, s', k := init + [Act(PumpAct(Return(failed)))], Acted(s, PumpAct(Return(failed))), s.pipe.pump.sub;
    assert mvs[..|mvs| - 1] == init;
    assert SubTold(init, s, k);
    OneTold(init, Act(PumpAct(Return(failed))), s, s', k);
  }

  lemma SubActTold(init: seq<Move>, s: State, k: nat, r: SubAction)
    requires SubsTold(init, s) && Enabled(s.pipe, SubAct(k, r))
    ensures SubsTold(init + [Act(SubAct(k, r))], Acted(s, SubAct(k, r)))
  {
    var mvs, s' := init + [Act(SubAct(k, r))], Acted(s, SubAct(k, r));
    assert mvs[..|mvs| - 1] == init;
    assert SubTold(init, s, k);
    OneTold(init, Act(SubAct(k, r)), s, s', k);
  }

  lemma NewSubTold(init: seq<Move>, s: State, id: string, kind: Kind)
    requires SubsTold(init, s) && MEnabled(s, Act(NewSub(id, kind)))
    ensures SubsTold(init + [Act(NewSub(id, kind))], Acted(s, NewSub(id, kind)))
  {
    var mvs, s' := init + [Act(NewSub(id, kind))], Acted(s, NewSub(id, kind));
    assert mvs[..|mvs| - 1] == init;
    forall i: nat ensures SubTold(mvs, s', i) { assert SubTold(init, s, i); }
  }

  lemma OtherTold(init: seq<Move>, s: State, mv: Move)
    requires SubsTold(init, s) && MEnabled(s, mv) && !mv.Act?
    ensures SubsTold(init + [mv], MStep(s, mv))
  {
    var mvs, s' := init + [mv], MStep(s, mv);
    assert mvs[..|mvs| - 1] == init;
    forall i: nat ensures SubTold(mvs, s', i) { assert SubTold(init, s, i); }
  }

  /** In every run: who is attached, who has left its loop and what each has written is what the moves say. */
  lemma {:induction false} SubscribersAsTold(mvs: seq<Move>)
    requires Exec(mvs).Some?
    ensures SubsTold(mvs, Exec(mvs).value)
  {
    if mvs != [] {
      var init, mv, s, s' := InitOf(mvs);
      SubscribersAsTold(init);
      if !mv.Act? {
        OtherTold(init, s, mv);
      } else if mv.a.SubAct? {
        SubActTold(init, s, mv.a.i, mv.a.r);
      } else if mv.a.NewSub? {
        NewSubTold(init, s, mv.a.id, mv.a.kind);
      } else if mv.a.PumpAct? && mv.a.p.Return? {
        ReturnTold(init, s, mv.a.p.failed);
      } else {
        ControlTold(init, s, mv.a);
      }
    }
  }

  // ---- what a viewer was given, and how many packets were due ------------------------------

  /** How many packets the pump has taken. */
  function Takes(mvs: seq<Move>): nat {
    if mvs == [] then 0
    else Takes(mvs[..|mvs| - 1]) + if mvs[|mvs| - 1] == Act(PumpAct(Take)) then 1 else 0
  }

  /** What the pump took last. */
  function LastTaken(mvs: seq<Move>): Content {
    if 0 < Takes(mvs) <= |Sendings(mvs)| then Sendings(mvs)[Takes(mvs) - 1] else Content(0, 0, false, [])
  }

  /** The move closes the subscriber: by itself, by detaching it, or in closing the stream. */
  predicate Closes(init: seq<Move>, mv: Move, i: nat) {
    mv.Act?
    && (mv.a == SubAct(i, Shut) || mv.a == CloseNext(i)
        || (mv.a.Detach? && mv.a.id in AttachedBy(init) && AttachedBy(init)[mv.a.id] == i))
  }

  /** What a viewer was given since it was last closed. */
  function GivenTo(mvs: seq<Move>, i: nat): seq<Content> {
    if mvs == [] then []
    else
      var init, mv := mvs[..|mvs| - 1], mvs[|mvs| - 1];
      var offered := mv.Act? && mv.a.PumpAct? && mv.a.p.Offer? && LastRetained(init) == i;
      if Closes(init, mv, i) then []
      else if offered then GivenTo(init, i) + [LastTaken(init)]
      else GivenTo(init, i)
  }

  /** In how many rounds of the pump a subscriber was attached. */
  function RoundsOf(mvs: seq<Move>, i: nat): nat {
    if mvs == [] then 0
    else
      var init, mv := mvs[..|mvs| - 1], mvs[|mvs| - 1];
      RoundsOf(init, i) + if mv == Act(PumpAct(LockSubs)) && i in AttachedBy(init).Values then 1 else 0
  }

  ghost predicate ViewerTold(mvs: seq<Move>, s: State, i: nat) {
    if i < |s.pipe.subs| then
      i < |s.hist.subs| && s.hist.subs[i].due == RoundsOf(mvs, i)
      && (s.pipe.subs[i].kind == Livestream ==> s.hist.subs[i].cached == GivenTo(mvs, i))
    else GivenTo(mvs, i) == [] && RoundsOf(mvs, i) == 0
  }

  lemma {:induction false} TakesCounted(mvs: seq<Move>)
    requires Exec(mvs).Some?
    ensures Exec(mvs).value.pipe.total == Takes(mvs)
  {
    if mvs != [] {
      var init, mv, s, s' := InitOf(mvs);
      TakesCounted(init);
      if mv.Act? { TotalStep(s.pipe, mv.a); }
    }
  }

  lemma TotalStep(s: Pipe<Ptr>, a: Action<Ptr>)
    requires Enabled(s, a)
    ensures Step(s, a).total == s.total + if a == PumpAct(Take) then 1 else 0
  {
  }

  /** The packet going round is the last one taken. */
  lemma RoundContent(mvs: seq<Move>)
    requires Exec(mvs).Some? && Exec(mvs).value.pipe.pump.Offering?
    ensures Read(Exec(mvs).value.mem, Exec(mvs).value.pipe.pump.p) == LastTaken(mvs)
  {
    RunKeepsRecord(mvs);
    SentExactly(mvs);
    TakesCounted(mvs);
    var s := Exec(mvs).value;
    assert PumpOk(Abs(s));
  }

  /** One subscriber's due and cached records across a step. */
  ghost predicate Recorded(s: State, s': State, i: nat, a: Action<Ptr>)
    requires Enabled(s.pipe, a)
  {
    && i < |s.pipe.subs| && |s.hist.subs| == |s.pipe.subs|
    && i < |s'.hist.subs| == |s'.pipe.subs| && s'.pipe.subs[i].kind == s.pipe.subs[i].kind
    && s'.hist.subs[i].due == s.hist.subs[i].due + (if a == PumpAct(LockSubs) && i in s.pipe.attached.Values then 1 else 0)
    && (s.pipe.subs[i].kind == Livestream ==>
          s'.hist.subs[i].cached ==
            if a == SubAct(i, Shut) || a == CloseNext(i) || (a.Detach? && a.id in s.pipe.attached && s.pipe.attached[a.id] == i) then []
            else if a.PumpAct? && a.p.Offer? && s.pipe.pump.sub == i then s.hist.subs[i].cached + [Read(s.mem, s.pipe.pump.p)]
            else s.hist.subs[i].cached)
  }

  lemma PumpRecords(s: State, p: PumpAction, i: nat)
    requires Enabled(s.pipe, PumpAct(p)) && |s.hist.subs| == |s.pipe.subs| && i < |s.pipe.subs|
    ensures Recorded(s, Acted(s, PumpAct(p)), i, PumpAct(p))
  {
  }

  lemma RecordStep(s: State, a: Action<Ptr>, i: nat)
    requires Enabled(s.pipe, a) && |s.hist.subs| == |s.pipe.subs| && i < |s.pipe.subs|
    ensures Recorded(s, Acted(s, a), i, a)
  {
    if a.PumpAct? { PumpRecords(s, a.p, i); }
  }

  lemma ViewerStep(init: seq<Move>, s: State, a: Action<Ptr>, i: nat)
    requires Exec(init) == Some(s) && MEnabled(s, Act(a)) && SubsTold(init, s) && ViewerTold(init, s, i)
    ensures ViewerTold(init + [Act(a)], Acted(s, a), i)
  {
    var mvs := init + [Act(a)];
    assert mvs[..|mvs| - 1] == init;
    if a.PumpAct? && a.p.Offer? { RoundContent(init); }
    if i < |s.pipe.subs| { RecordStep(s, a, i); } else { BeforeCreation(init, s, a, i); }
  }

  lemma BeforeCreation(init: seq<Move>, s: State, a: Action<Ptr>, i: nat)
    requires Exec(init) == Some(s) && MEnabled(s, Act(a)) && SubsTold(init, s) && ViewerTold(init, s, i) && i >= |s.pipe.subs|
    ensures ViewerTold(init + [Act(a)], Acted(s, a), i)
  {
    var mvs, s' := init + [Act(a)], Acted(s, a);
    assert mvs[..|mvs| - 1] == init;
    RunKeepsRecord(init);
    assert PumpOk(Abs(s));
    assert forall id <- s.pipe.attached :: s.pipe.attached[id] < |s.pipe.subs|;
  }

  lemma {:induction false} ViewersAsTold(mvs: seq<Move>, i: nat)
    requires Exec(mvs).Some?
    ensures ViewerTold(mvs, Exec(mvs).value, i)
  {
    if mvs != [] {
      var init, mv, s, s' := InitOf(mvs);
      ViewersAsTold(init, i);
      SubscribersAsTold(init);
      if mv.Act? {
        ViewerStep(init, s, mv.a, i);
      } else if mv.Send? {
        SendLeavesViewers(s, mv.p);
      }
    }
  }

  lemma SendLeavesViewers(s: State, p: Ptr)
    requires MEnabled(s, Send(p))
    ensures MStep(s, Send(p)).pipe.subs == s.pipe.subs && MStep(s, Send(p)).hist.subs == s.hist.subs
  {
  }

  /** A viewer's cache is the latest group of what the moves gave it since it was last closed; and each
      subscriber was due exactly the packets whose round found it attached. */
  lemma CacheAsTold(mvs: seq<Move>, i: nat)
    requires Exec(mvs).Some? && i < |Exec(mvs).value.pipe.subs|
    ensures var s := Exec(mvs).value;
            && i < |s.hist.subs| && s.hist.subs[i].due == RoundsOf(mvs, i)
            && (s.pipe.subs[i].kind == Livestream ==> ViewSeq(s.mem, s.pipe.subs[i].gop) == GopOf(GivenTo(mvs, i)))
  {
    ViewersAsTold(mvs, i);
    if Exec(mvs).value.pipe.subs[i].kind == Livestream { CacheIsLatestGroup(mvs, i); }
  }

  /** The pump takes the oldest waiting packet and then goes round exactly the subscribers attached when it
      gets the lock. */
  lemma RoundIsOverTheAttached(mvs: seq<Move>)
    requires mvs != [] && Exec(mvs).Some? && mvs[|mvs| - 1] == Act(PumpAct(LockSubs))
    ensures Exec(mvs).value.pipe.pump.Fanning? && Exec(mvs).value.pipe.pump.todo == AttachedBy(mvs[..|mvs| - 1]).Values
  {
    var init, mv, s, s' := InitOf(mvs);
    SubscribersAsTold(init);
  }

  /** An offered packet goes to the end of a channel subscriber's queue if and only if its channel (512 places
      for storage and MinIO, 256 for HLS, 128 for a relay) has room; else it is counted as dropped. No other
      subscriber is touched. */
  lemma OfferedExactly(mvs: seq<Move>, clear: bool)
    requires mvs != [] && Exec(mvs).Some? && mvs[|mvs| - 1] == Act(PumpAct(Offer(clear)))
    requires Exec(mvs[..|mvs| - 1]).Some?
    ensures var (s, s') := (Exec(mvs[..|mvs| - 1]).value, Exec(mvs).value);
            && s.pipe.pump.Offering? && s.pipe.pump.sub < |s.pipe.subs| == |s'.pipe.subs|
            && (forall i | 0 <= i < |s.pipe.subs| && i != s.pipe.pump.sub :: s'.pipe.subs[i] == s.pipe.subs[i])
            && var (x, x') := (s.pipe.subs[s.pipe.pump.sub], s'.pipe.subs[s.pipe.pump.sub]);
            var places := match x.kind case Storage => 512 case MinIO => 512 case Hls => 256 case Relay => 128 case Livestream => 0;
            x.kind != Livestream ==>
              if |x.queue| < places then x' == x.(queue := x.queue + [s.pipe.pump.p])
              else x' == x.(dropped := x.dropped + 1)
  {
    OfferStep(Exec(mvs[..|mvs| - 1]).value.pipe, clear);
  }

  lemma OfferStep(s: Pipe<Ptr>, clear: bool)
    requires Enabled(s, PumpAct(Offer(clear)))
    ensures var s' := Step(s, PumpAct(Offer(clear)));
            && s.pump.sub < |s.subs| == |s'.subs|
            && (forall i | 0 <= i < |s.subs| && i != s.pump.sub :: s'.subs[i] == s.subs[i])
            && var (x, x') := (s.subs[s.pump.sub], s'.subs[s.pump.sub]);
            var places := match x.kind case Storage => 512 case MinIO => 512 case Hls => 256 case Relay => 128 case Livestream => 0;
            x.kind != Livestream ==>
              if |x.queue| < places then x' == x.(queue := x.queue + [s.pump.p]) else x' == x.(dropped := x.dropped + 1)
  {
  }
}
