/** The single-flight cache of internal/ha/idempotency.go: many callers, one table of pending and ready
    entries, expiry, capacity eviction, and waiters that retry. */
module Idempotency {
  import opened Options
  import opened Packets

  type Key = string
  type Tid = nat
  type Error = string

  datatype Response = Response(status: int, contentType: string, body: seq<byte>)

  /** What an entry says: while it is pending, `response` and `err` are blank. */
  datatype Slot = Slot(createdAt: nat, expiresAt: nat, ready: bool, response: Response, err: Option<Error>)

  type View = map<Key, Slot>

  datatype Config = Config(ttl: nat, maxKeys: nat)

  /** NewIdempotencyStore's defaults; three minutes in nanoseconds. */
  function Configured(ttl: int, maxKeys: int): (c: Config)
    ensures c.ttl > 0 && c.maxKeys > 0
    ensures (ttl > 0 ==> c.ttl == ttl) && (maxKeys > 0 ==> c.maxKeys == maxKeys)
  {
    Config(if ttl <= 0 then 180_000_000_000 else ttl, if maxKeys <= 0 then 20000 else maxKeys)
  }

  const Blank := Response(0, "", [])

  function Pending(now: nat, c: Config): Slot { Slot(now, now + c.ttl, false, Blank, None) }

  // ---- what the table operations do ------------------------------------------------------

  predicate Replayable(e: Slot, now: nat) { e.ready && now < e.expiresAt }

  /** The keys that garbage collection at `now` removes. */
  function Expired(v: View, now: nat): set<Key> {
    set k | k in v && v[k].ready && v[k].expiresAt <= now
  }

  /** Part of an eviction: only ready entries go, none younger than a ready one that stays, and none
      below capacity. */
  predicate EvictsSome(v: View, victims: set<Key>, maxKeys: nat) {
    && victims <= v.Keys && (forall k <- victims :: v[k].ready)
    && (forall k <- victims, o <- v.Keys - victims :: v[o].ready ==> v[k].createdAt <= v[o].createdAt)
    && (victims != {} ==> |v| - |victims| >= maxKeys)
  }

  /** A finished eviction: within capacity, or nothing but pending entries left. */
  predicate Evicts(v: View, victims: set<Key>, maxKeys: nat) {
    EvictsSome(v, victims, maxKeys)
    && (|v| - |victims| <= maxKeys || forall o <- v.Keys - victims :: !v[o].ready)
  }

  /** A ready entry that survives so far, and is as old as any other. */
  predicate IsOldest(v: View, victims: set<Key>, x: Key) {
    && x in v && x !in victims && v[x].ready
    && forall o <- v.Keys - victims :: v[o].ready ==> v[x].createdAt <= v[o].createdAt
  }

  lemma EvictOldest(v: View, victims: set<Key>, maxKeys: nat, x: Key)
    requires EvictsSome(v, victims, maxKeys) && |v| - |victims| > maxKeys && IsOldest(v, victims, x)
    ensures EvictsSome(v, victims + {x}, maxKeys)
  {
  }

  /** The next victim is the oldest ready entry still there. */
  lemma EvictNext(v: View, victims: set<Key>, maxKeys: nat, x: Key)
    requires EvictsSome(v, victims, maxKeys) && |v| - |victims| > maxKeys && IsOldest(v, victims, x)
    ensures EvictsSome(v, victims + {x}, maxKeys)
    ensures v - (victims + {x}) == (v - victims) - {x}
    ensures |victims + {x}| == |victims| + 1 && |v - (victims + {x})| == |v| - |victims| - 1
  {
  }

  lemma {:induction false} FindOldest(v: View, victims: set<Key>, some: set<Key>) returns (x: Key)
    requires some <= v.Keys - victims && exists k <- some :: v[k].ready
    ensures x in some && v[x].ready && forall o <- some :: v[o].ready ==> v[x].createdAt <= v[o].createdAt
    decreases |some|
  {
    x :| x in some && v[x].ready;
    var rest := some - {x};
    if exists k <- rest :: v[k].ready {
      var y := FindOldest(v, victims, rest);
      if v[y].createdAt < v[x].createdAt { x := y; }
    }
  }

  /** Eviction never gets stuck: from every table some eviction is possible. */
  lemma {:induction false} EvictionPossible(v: View, so: set<Key>, maxKeys: nat) returns (victims: set<Key>)
    requires EvictsSome(v, so, maxKeys)
    ensures Evicts(v, victims, maxKeys) && so <= victims
    decreases v.Keys - so
  {
    victims := so;
    if |v| - |so| > maxKeys && exists o <- v.Keys - so :: v[o].ready {
      var x := FindOldest(v, so, v.Keys - so);
      EvictOldest(v, so, maxKeys, x);
      victims := EvictionPossible(v, so + {x}, maxKeys);
    }
  }

  /** The surviving ready entries are a newest part of the ready ones, and how many go is settled: the
      excess over capacity, or every ready entry when that is not enough. */
  lemma EvictionSize(v: View, victims: set<Key>, maxKeys: nat)
    requires Evicts(v, victims, maxKeys)
    ensures var ready := set k | k in v && v[k].ready;
            |victims| == if |v| <= maxKeys then 0
                         else if |ready| <= |v| - maxKeys then |ready| else |v| - maxKeys
  {
    var ready := set k | k in v && v[k].ready;
    assert victims <= ready <= v.Keys && |v| == |v.Keys|;
    Subset(victims, ready);
    Subset(victims, v.Keys);
    if forall o <- v.Keys - victims :: !v[o].ready { assert victims == ready; }
  }

  lemma Subset<T>(a: set<T>, b: set<T>)
    requires a <= b
    ensures |a| <= |b| && (|a| == |b| ==> a == b)
  {
    assert b == a + (b - a) && |b| == |a| + |b - a|;
  }

  // ---- the machine -----------------------------------------------------------------------

  /** An entry and its history: the channel's closings, when its producer was let go, when it was
      finalized, and whether capacity took it. */
  datatype Entry = Entry(key: Key, slot: Slot, closes: nat, startedAt: nat, finalizedAt: nat, evicted: bool)

  datatype Result =
    | Fresh(resp: Response, err: Option<Error>)
    | Replayed(key: Key, id: nat, resp: Response, err: Option<Error>, now: nat)
    | Cancelled(err: Option<Error>)

  /** Where a call of Do stands. */
  datatype Pc =
    | Called(key: Key)
    | Timed(key: Key, now: nat)
    | Producing(key: Key, id: nat)
    | Finishing(key: Key, id: nat, resp: Response, err: Option<Error>)
    | Waiting(key: Key, id: nat)
    | Replaying(key: Key, id: nat, resp: Response, now: nat)
    | Done(result: Result)

  /** `heap` holds every entry ever made; `entries` is the table. */
  datatype State = State(clock: nat, heap: seq<Entry>, entries: map<Key, nat>, calls: map<Tid, Pc>)

  datatype Move =
    | Tick(elapsed: nat)
    | Call(key: Key)
    | ReadClock
    | Prepare(victims: set<Key>)
    | Produce(resp: Response, err: Option<Error>)
    | Finalize
    | Wake
    | Cancel(cause: Error)
    | Reply
    | Return

  function Start(clock: nat): State { State(clock, [], map[], map[]) }

  predicate Mapped(s: State, id: nat) {
    id < |s.heap| && s.heap[id].key in s.entries && s.entries[s.heap[id].key] == id
  }

  predicate TableOk(s: State) {
    forall k <- s.entries :: s.entries[k] < |s.heap| && s.heap[s.entries[k]].key == k
  }

  function Table(s: State): View
    requires TableOk(s)
  {
    map k | k in s.entries :: s.heap[s.entries[k]].slot
  }

  function Collect(s: State, now: nat): State
    requires TableOk(s)
  {
    s.(entries := s.entries - Expired(Table(s), now))
  }

  function Insert(s: State, t: Tid, k: Key, now: nat, c: Config): State {
    s.(heap := s.heap + [Entry(k, Pending(now, c), 0, s.clock, 0, false)],
       entries := s.entries[k := |s.heap|],
       calls := s.calls[t := Producing(k, |s.heap|)])
  }

  function Evict(s: State, victims: set<Key>): State {
    s.(heap := seq(|s.heap|, i requires 0 <= i < |s.heap| =>
                   if Mapped(s, i) && s.heap[i].key in victims then s.heap[i].(evicted := true) else s.heap[i]),
       entries := s.entries - victims)
  }

  predicate Free(s: State, k: Key, now: nat)
    requires TableOk(s)
  {
    k !in s.entries || (s.heap[s.entries[k]].slot.ready && !Replayable(s.heap[s.entries[k]].slot, now))
  }

  predicate Holds(p: Pc, id: nat) { (p.Producing? || p.Finishing?) && p.id == id }

  predicate Enabled(s: State, t: Tid, m: Move, c: Config) {
    TableOk(s) &&
    match m
    case Tick(_) => true
    case Call(_) => t !in s.calls
    case ReadClock => t in s.calls && s.calls[t].Called? && s.calls[t].key != ""
    case Prepare(victims) =>
      && t in s.calls && s.calls[t].Timed?
      && var k, now := s.calls[t].key, s.calls[t].now;
         var live := Collect(s, now);
         if Free(live, k, now) then
           TableOk(Insert(live, t, k, now, c)) && Evicts(Table(Insert(live, t, k, now, c)), victims, c.maxKeys)
         else victims == {}
    case Produce(_, _) => t in s.calls && (s.calls[t].Producing? || s.calls[t] == Called(""))
    case Finalize => t in s.calls && s.calls[t].Finishing?
    case Wake => t in s.calls && s.calls[t].Waiting? && s.calls[t].id < |s.heap| && s.heap[s.calls[t].id].closes > 0
    case Cancel(_) => t in s.calls && s.calls[t].Waiting?
    case Reply => t in s.calls && s.calls[t].Replaying? && s.calls[t].id < |s.heap|
    case Return => t in s.calls && s.calls[t].Done?
  }

  function PrepareStep(s: State, t: Tid, k: Key, now: nat, victims: set<Key>, c: Config): State
    requires TableOk(s)
  {
    var live := Collect(s, now);
    if Free(live, k, now) then Evict(Insert(live, t, k, now, c), victims)
    else
      var id := live.entries[k];
      var e := live.heap[id].slot;
      live.(calls := live.calls[t := if Replayable(e, now) then Replaying(k, id, e.response, now) else Waiting(k, id)])
  }

  /** finalizeEntry: a stale entry is left alone; a failure leaves the table; else the response is there
      for a full lifetime from now. The channel closes. */
  function FinalizeStep(s: State, t: Tid, k: Key, id: nat, resp: Response, err: Option<Error>, c: Config): State {
    var after := s.(calls := s.calls[t := Done(Fresh(resp, err))]);
    if k !in s.entries || s.entries[k] != id || id >= |s.heap| then after
    else
      var e := s.heap[id];
      var slot := if err.Some? then e.slot else e.slot.(response := resp, expiresAt := s.clock + c.ttl);
      after.(entries := if err.Some? then s.entries - {k} else s.entries,
             heap := s.heap[id := e.(slot := slot.(err := err, ready := true), closes := e.closes + 1, finalizedAt := s.clock)])
  }

  function Step(s: State, t: Tid, m: Move, c: Config): State
    requires Enabled(s, t, m, c)
  {
    match m
    case Tick(d) => s.(clock := s.clock + d)
    case Call(k) => s.(calls := s.calls[t := Called(k)])
    case ReadClock => s.(calls := s.calls[t := Timed(s.calls[t].key, s.clock)])
    case Prepare(victims) => PrepareStep(s, t, s.calls[t].key, s.calls[t].now, victims, c)
    case Produce(resp, err) =>
      s.(calls := s.calls[t := if s.calls[t].Producing? then Finishing(s.calls[t].key, s.calls[t].id, resp, err)
                               else Done(Fresh(resp, err))])
    case Finalize => var p := s.calls[t]; FinalizeStep(s, t, p.key, p.id, p.resp, p.err, c)
    case Wake => s.(calls := s.calls[t := Called(s.calls[t].key)])
    case Cancel(cause) => s.(calls := s.calls[t := Done(Cancelled(Some(cause)))])
    case Reply =>
      var p := s.calls[t];
      s.(calls := s.calls[t := Done(Replayed(p.key, p.id, p.resp, s.heap[p.id].slot.err, p.now))])
    case Return => s.(calls := s.calls - {t})
  }

  predicate IsRun(states: seq<State>, moves: seq<(Tid, Move)>, c: Config) {
    && |states| == |moves| + 1 && states[0] == Start(states[0].clock)
    && forall i | 0 <= i < |moves| ::
         Enabled(states[i], moves[i].0, moves[i].1, c) && states[i + 1] == Step(states[i], moves[i].0, moves[i].1, c)
  }

  // ---- the invariant ---------------------------------------------------------------------

  predicate Succeeded(e: Entry) { e.slot.ready && e.slot.err.None? }

  predicate EntryOk(s: State, id: nat, c: Config)
    requires id < |s.heap|
  {
    var e := s.heap[id];
    && e.closes == (if e.slot.ready then 1 else 0)
    && (e.slot.ready ==> e.finalizedAt <= s.clock)
    && (!e.slot.ready ==> Mapped(s, id) && !e.evicted && e.slot.err.None?)
    && (e.slot.ready && Mapped(s, id) ==> e.slot.err.None? && !e.evicted)
    && (Succeeded(e) ==> e.slot.expiresAt == e.finalizedAt + c.ttl)
    && (Succeeded(e) && !e.evicted && !Mapped(s, id) ==> e.slot.expiresAt <= s.clock)
  }

  /** How an earlier entry of a key must have ended before a later one began. */
  predicate Yields(e: Entry, later: Entry, c: Config) {
    e.key == later.key ==>
      e.slot.ready && (e.slot.err.Some? || e.evicted || e.finalizedAt + c.ttl <= later.startedAt)
  }

  predicate Replays(s: State, k: Key, id: nat, resp: Response, now: nat) {
    id < |s.heap| && s.heap[id].key == k && Succeeded(s.heap[id]) && s.heap[id].slot.response == resp
    && now < s.heap[id].slot.expiresAt && now <= s.clock
  }

  predicate CallOk(s: State, p: Pc) {
    match p
    case Called(_) => true
    case Timed(_, now) => now <= s.clock
    case Producing(k, id) => id < |s.heap| && s.heap[id].key == k && !s.heap[id].slot.ready
    case Finishing(k, id, _, _) => id < |s.heap| && s.heap[id].key == k && !s.heap[id].slot.ready
    case Waiting(k, id) => id < |s.heap| && s.heap[id].key == k
    case Replaying(k, id, resp, now) => Replays(s, k, id, resp, now)
    case Done(r) => r.Replayed? ==> Replays(s, r.key, r.id, r.resp, r.now) && r.err == None
  }

  predicate HeapInv(s: State, c: Config) {
    && TableOk(s)
    && (forall id | 0 <= id < |s.heap| :: EntryOk(s, id, c))
    && (forall i, j | 0 <= i < j < |s.heap| :: Yields(s.heap[i], s.heap[j], c))
  }

  predicate Held(s: State, id: nat) { exists t <- s.calls :: Holds(s.calls[t], id) }

  ghost predicate CallsInv(s: State) {
    && (forall t <- s.calls :: CallOk(s, s.calls[t]))
    && (forall t <- s.calls, u <- s.calls, id: nat | Holds(s.calls[t], id) && Holds(s.calls[u], id) :: t == u)
    && (forall id | 0 <= id < |s.heap| && !s.heap[id].slot.ready :: Held(s, id))
  }

  ghost predicate Inv(s: State, c: Config) { HeapInv(s, c) && CallsInv(s) }

  // ---- every step keeps it ---------------------------------------------------------------

  /** A call moves on without touching the table, and its new place is all right. */
  lemma CallKeeps(s: State, t: Tid, p: Pc, c: Config)
    requires Inv(s, c) && CallOk(s, p)
    requires forall id: nat :: Holds(p, id) <==> t in s.calls && Holds(s.calls[t], id)
    ensures Inv(s.(calls := s.calls[t := p]), c)
  {
    var s' := s.(calls := s.calls[t := p]);
    forall id | 0 <= id < |s'.heap| ensures EntryOk(s', id, c) { assert EntryOk(s, id, c); }
    forall u <- s'.calls ensures CallOk(s', s'.calls[u]) { if u != t { assert CallOk(s, s.calls[u]); } }
    forall id | 0 <= id < |s'.heap| && !s'.heap[id].slot.ready ensures Held(s', id) {
      assert Held(s, id);
      var u :| u in s.calls && Holds(s.calls[u], id);
      assert u in s'.calls && Holds(s'.calls[u], id);
    }
  }

  lemma TickKeeps(s: State, d: nat, c: Config)
    requires Inv(s, c)
    ensures Inv(s.(clock := s.clock + d), c)
  {
    var s' := s.(clock := s.clock + d);
    forall id | 0 <= id < |s'.heap| ensures EntryOk(s', id, c) { assert EntryOk(s, id, c); }
    forall u <- s'.calls ensures CallOk(s', s'.calls[u]) { assert CallOk(s, s.calls[u]); }
    forall id | 0 <= id < |s'.heap| && !s'.heap[id].slot.ready ensures Held(s', id) {
      assert Held(s, id);
    }
  }

  lemma ReturnKeeps(s: State, t: Tid, c: Config)
    requires Inv(s, c) && t in s.calls && s.calls[t].Done?
    ensures Inv(s.(calls := s.calls - {t}), c)
  {
    var s' := s.(calls := s.calls - {t});
    forall id | 0 <= id < |s'.heap| ensures EntryOk(s', id, c) { assert EntryOk(s, id, c); }
    forall u <- s'.calls ensures CallOk(s', s'.calls[u]) { assert CallOk(s, s.calls[u]); }
    forall id | 0 <= id < |s'.heap| && !s'.heap[id].slot.ready ensures Held(s', id) {
      assert Held(s, id);
      var u :| u in s.calls && Holds(s.calls[u], id);
      assert u in s'.calls && Holds(s'.calls[u], id);
    }
  }

  lemma CollectKeeps(s: State, now: nat, c: Config)
    requires Inv(s, c) && now <= s.clock
    ensures Inv(Collect(s, now), c)
    ensures forall k <- Collect(s, now).entries :: !Free(Collect(s, now), k, now)
  {
    var s' := Collect(s, now);
    forall id | 0 <= id < |s'.heap| ensures EntryOk(s', id, c) { assert EntryOk(s, id, c); }
    forall u <- s'.calls ensures CallOk(s', s'.calls[u]) { assert CallOk(s, s.calls[u]); }
    forall id | 0 <= id < |s'.heap| && !s'.heap[id].slot.ready ensures Held(s', id) { assert Held(s, id); }
  }

  lemma InsertYields(s: State, t: Tid, k: Key, now: nat, c: Config)
    requires HeapInv(s, c) && k !in s.entries
    ensures HeapInv(Insert(s, t, k, now, c), c)
  {
    var s' := Insert(s, t, k, now, c);
    forall id | 0 <= id < |s'.heap| ensures EntryOk(s', id, c) {
      if id < |s.heap| { assert EntryOk(s, id, c); }
    }
    forall i, j | 0 <= i < j < |s'.heap| ensures Yields(s'.heap[i], s'.heap[j], c) {
      if j == |s.heap| { assert EntryOk(s, i, c); } else { assert Yields(s.heap[i], s.heap[j], c); }
    }
  }

  lemma InsertKeeps(s: State, t: Tid, k: Key, now: nat, c: Config)
    requires Inv(s, c) && k !in s.entries && t in s.calls && s.calls[t].Timed?
    ensures Inv(Insert(s, t, k, now, c), c)
  {
    InsertYields(s, t, k, now, c);
    var s' := Insert(s, t, k, now, c);
    forall u <- s'.calls ensures CallOk(s', s'.calls[u]) { if u != t { assert CallOk(s, s.calls[u]); } }
    forall u <- s'.calls, v <- s'.calls, id: nat | Holds(s'.calls[u], id) && Holds(s'.calls[v], id) ensures u == v {
      if u != t { assert CallOk(s, s.calls[u]); }
      if v != t { assert CallOk(s, s.calls[v]); }
    }
    forall id | 0 <= id < |s'.heap| && !s'.heap[id].slot.ready ensures Held(s', id) {
      if id < |s.heap| {
        assert Held(s, id);
        var u :| u in s.calls && Holds(s.calls[u], id);
        assert u in s'.calls && Holds(s'.calls[u], id);
      } else {
        assert t in s'.calls && Holds(s'.calls[t], id);
      }
    }
  }

  /** Eviction marks entries and unmaps ready ones, and does nothing else. */
  lemma EvictEffect(s: State, victims: set<Key>, maxKeys: nat, id: nat)
    requires TableOk(s) && EvictsSome(Table(s), victims, maxKeys) && id < |s.heap|
    ensures var e, e' := s.heap[id], Evict(s, victims).heap[id];
            && e'.(evicted := e.evicted) == e
            && (Mapped(Evict(s, victims), id) <==> Mapped(s, id) && e.key !in victims)
            && e'.evicted == (e.evicted || (Mapped(s, id) && e.key in victims))
            && (Mapped(s, id) && e.key in victims ==> e.slot.ready)
  {
  }

  lemma EvictHeap(s: State, victims: set<Key>, maxKeys: nat, c: Config)
    requires HeapInv(s, c) && EvictsSome(Table(s), victims, maxKeys)
    ensures HeapInv(Evict(s, victims), c)
  {
    var s' := Evict(s, victims);
    forall id | 0 <= id < |s'.heap| ensures EntryOk(s', id, c) {
      assert EntryOk(s, id, c);
      EvictEffect(s, victims, maxKeys, id);
    }
    forall i, j | 0 <= i < j < |s'.heap| ensures Yields(s'.heap[i], s'.heap[j], c) {
      assert Yields(s.heap[i], s.heap[j], c);
      EvictEffect(s, victims, maxKeys, i);
      EvictEffect(s, victims, maxKeys, j);
    }
  }

  lemma EvictKeeps(s: State, victims: set<Key>, maxKeys: nat, c: Config)
    requires Inv(s, c) && EvictsSome(Table(s), victims, maxKeys)
    ensures Inv(Evict(s, victims), c)
  {
    EvictHeap(s, victims, maxKeys, c);
    var s' := Evict(s, victims);
    forall id | 0 <= id < |s'.heap| ensures s'.heap[id].(evicted := s.heap[id].evicted) == s.heap[id] {
      EvictEffect(s, victims, maxKeys, id);
    }
    forall u <- s'.calls ensures CallOk(s', s'.calls[u]) { assert CallOk(s, s.calls[u]); }
    forall id | 0 <= id < |s'.heap| && !s'.heap[id].slot.ready ensures Held(s', id) { assert Held(s, id); }
  }

  lemma PrepareKeeps(s: State, t: Tid, victims: set<Key>, c: Config)
    requires Inv(s, c) && Enabled(s, t, Prepare(victims), c)
    ensures Inv(Step(s, t, Prepare(victims), c), c)
  {
    var k, now := s.calls[t].key, s.calls[t].now;
    assert CallOk(s, s.calls[t]);
    CollectKeeps(s, now, c);
    var live := Collect(s, now);
    if Free(live, k, now) {
      InsertKeeps(live, t, k, now, c);
      EvictKeeps(Insert(live, t, k, now, c), victims, c.maxKeys, c);
    } else {
      var id := live.entries[k];
      assert EntryOk(live, id, c);
      var e := live.heap[id].slot;
      CallKeeps(live, t, if Replayable(e, now) then Replaying(k, id, e.response, now) else Waiting(k, id), c);
    }
  }

  lemma FinalizeHeap(s: State, t: Tid, c: Config)
    requires Inv(s, c) && Enabled(s, t, Finalize, c)
    ensures HeapInv(Step(s, t, Finalize, c), c) && Mapped(s, s.calls[t].id)
  {
    var p, s' := s.calls[t], Step(s, t, Finalize, c);
    assert CallOk(s, p) && EntryOk(s, p.id, c);
    forall id | 0 <= id < |s'.heap| ensures EntryOk(s', id, c) { assert EntryOk(s, id, c); }
    forall i, j | 0 <= i < j < |s'.heap| ensures Yields(s'.heap[i], s'.heap[j], c) { assert Yields(s.heap[i], s.heap[j], c); }
  }

  lemma FinalizeKeeps(s: State, t: Tid, c: Config)
    requires Inv(s, c) && Enabled(s, t, Finalize, c)
    ensures Inv(Step(s, t, Finalize, c), c)
  {
    FinalizeHeap(s, t, c);
    var p, s' := s.calls[t], Step(s, t, Finalize, c);
    assert CallOk(s, p);
    forall u <- s'.calls ensures CallOk(s', s'.calls[u]) {
      if u != t {
        assert CallOk(s, s.calls[u]);
        assert Holds(s.calls[t], p.id);
        assert !Holds(s.calls[u], p.id);
      }
    }
    forall id | 0 <= id < |s'.heap| && !s'.heap[id].slot.ready ensures Held(s', id) {
      assert Held(s, id);
      var u :| u in s.calls && Holds(s.calls[u], id);
      assert u in s'.calls && Holds(s'.calls[u], id);
    }
  }

  lemma StepKeeps(s: State, t: Tid, m: Move, c: Config)
    requires Inv(s, c) && Enabled(s, t, m, c)
    ensures Inv(Step(s, t, m, c), c)
  {
    if t in s.calls { assert CallOk(s, s.calls[t]); }
    match m
    case Tick(d) => TickKeeps(s, d, c);
    case Call(k) => CallKeeps(s, t, Called(k), c);
    case ReadClock => CallKeeps(s, t, Timed(s.calls[t].key, s.clock), c);
    case Prepare(victims) => PrepareKeeps(s, t, victims, c);
    case Produce(resp, err) =>
      CallKeeps(s, t, if s.calls[t].Producing? then Finishing(s.calls[t].key, s.calls[t].id, resp, err)
                      else Done(Fresh(resp, err)), c);
    case Finalize => FinalizeKeeps(s, t, c);
    case Wake => CallKeeps(s, t, Called(s.calls[t].key), c);
    case Cancel(cause) => CallKeeps(s, t, Done(Cancelled(Some(cause))), c);
    case Reply =>
      var p := s.calls[t];
      CallKeeps(s, t, Done(Replayed(p.key, p.id, p.resp, s.heap[p.id].slot.err, p.now)), c);
    case Return => ReturnKeeps(s, t, c);
  }

  lemma {:induction false} RunKeeps(states: seq<State>, moves: seq<(Tid, Move)>, c: Config, i: nat)
    requires IsRun(states, moves, c) && i <= |moves|
    ensures Inv(states[i], c)
  {
    if i > 0 {
      RunKeeps(states, moves, c, i - 1);
      StepKeeps(states[i - 1], moves[i - 1].0, moves[i - 1].1, c);
    }
  }

  // ---- what that gives over whole runs ---------------------------------------------------

  /** Single flight: a pending entry in the table has exactly one running producer; a running producer's
      entry is the table's current one for its key, so no key has two; and a waiter's channel is closed
      or its entry is pending and current, with a producer that will close it. */
  lemma SingleFlight(states: seq<State>, moves: seq<(Tid, Move)>, c: Config, i: nat)
    requires IsRun(states, moves, c) && i <= |moves|
    ensures var s := states[i];
            && (forall k <- s.entries :: s.entries[k] < |s.heap| && (!s.heap[s.entries[k]].slot.ready ==>
                  exists t <- s.calls :: Holds(s.calls[t], s.entries[k])
                    && forall u <- s.calls :: Holds(s.calls[u], s.entries[k]) ==> u == t))
            && (forall t <- s.calls | s.calls[t].Producing? || s.calls[t].Finishing? ::
                  && s.calls[t].key in s.entries && s.entries[s.calls[t].key] == s.calls[t].id
                  && s.calls[t].id < |s.heap| && !s.heap[s.calls[t].id].slot.ready)
            && (forall t <- s.calls | s.calls[t].Waiting? ::
                  && s.calls[t].id < |s.heap|
                  && (s.heap[s.calls[t].id].closes == 1
                      || (s.calls[t].key in s.entries && s.entries[s.calls[t].key] == s.calls[t].id && Held(s, s.calls[t].id))))
  {
    RunKeeps(states, moves, c, i);
    var s := states[i];
    forall k <- s.entries
      ensures s.entries[k] < |s.heap| && (!s.heap[s.entries[k]].slot.ready ==>
                exists t <- s.calls :: Holds(s.calls[t], s.entries[k])
                  && forall u <- s.calls :: Holds(s.calls[u], s.entries[k]) ==> u == t)
    {
      if !s.heap[s.entries[k]].slot.ready {
        assert Held(s, s.entries[k]);
        var t :| t in s.calls && Holds(s.calls[t], s.entries[k]);
        assert forall u <- s.calls :: Holds(s.calls[u], s.entries[k]) ==> u == t;
      }
    }
    forall t <- s.calls | s.calls[t].Producing? || s.calls[t].Finishing? || s.calls[t].Waiting?
      ensures CallOk(s, s.calls[t]) && EntryOk(s, s.calls[t].id, c)
    {
      assert CallOk(s, s.calls[t]);
    }
  }

  /** No key is produced twice at once. */
  lemma OneProducerPerKey(states: seq<State>, moves: seq<(Tid, Move)>, c: Config, i: nat, t: Tid, u: Tid)
    requires IsRun(states, moves, c) && i <= |moves| && t in states[i].calls && u in states[i].calls
    requires forall p <- [states[i].calls[t], states[i].calls[u]] :: p.Producing? || p.Finishing?
    requires states[i].calls[t].key == states[i].calls[u].key
    ensures t == u
  {
    SingleFlight(states, moves, c, i);
    RunKeeps(states, moves, c, i);
    var s := states[i];
    assert s.calls[t] in [s.calls[t], s.calls[u]] && s.calls[u] in [s.calls[t], s.calls[u]];
    assert Holds(s.calls[t], s.calls[t].id) && Holds(s.calls[u], s.calls[t].id);
  }

  /** Finalizing always finds its own entry still current, with its channel open: the stale return is
      never taken and no channel is closed twice. */
  lemma FinalizeFindsItsEntry(states: seq<State>, moves: seq<(Tid, Move)>, c: Config, i: nat)
    requires IsRun(states, moves, c) && i < |moves| && moves[i].1 == Finalize
    ensures var s, p := states[i], states[i].calls[moves[i].0];
            && p.key in s.entries && s.entries[p.key] == p.id && p.id < |s.heap| && s.heap[p.id].closes == 0
            && |states[i + 1].heap| == |s.heap| && states[i + 1].heap[p.id].closes == 1
  {
    RunKeeps(states, moves, c, i);
    FinalizeHeap(states[i], moves[i].0, c);
    var s, p := states[i], states[i].calls[moves[i].0];
    assert CallOk(s, p) && EntryOk(s, p.id, c);
  }

  /** Of two producers for one key, the later one was let go only after the earlier had finished: after
      a failure at once, after a success at least a lifetime later unless capacity took the entry. */
  lemma ProducersAreSpacedOut(states: seq<State>, moves: seq<(Tid, Move)>, c: Config, n: nat, i: nat, j: nat)
    requires IsRun(states, moves, c) && n <= |moves| && i < j < |states[n].heap|
    requires states[n].heap[i].key == states[n].heap[j].key
    ensures var e, later := states[n].heap[i], states[n].heap[j];
            e.slot.ready && (e.slot.err.None? && !e.evicted ==> later.startedAt >= e.finalizedAt + c.ttl)
  {
    RunKeeps(states, moves, c, n);
    assert Yields(states[n].heap[i], states[n].heap[j], c);
  }

  predicate FinalizedAs(s: State, move: (Tid, Move), id: nat, e: Entry) {
    && move.1 == Finalize && move.0 in s.calls && s.clock == e.finalizedAt
    && s.calls[move.0] == Finishing(e.key, id, e.slot.response, None)
  }

  predicate Same(e: Entry, e': Entry) { e.key == e'.key && e.slot == e'.slot && e.finalizedAt == e'.finalizedAt }

  lemma PrepareSettles(s: State, t: Tid, victims: set<Key>, c: Config, id: nat)
    requires Enabled(s, t, Prepare(victims), c)
    requires id < |Step(s, t, Prepare(victims), c).heap| && Succeeded(Step(s, t, Prepare(victims), c).heap[id])
    ensures id < |s.heap| && Same(s.heap[id], Step(s, t, Prepare(victims), c).heap[id])
  {
    var k, now := s.calls[t].key, s.calls[t].now;
    var live := Collect(s, now);
    if Free(live, k, now) {
      EvictEffect(Insert(live, t, k, now, c), victims, c.maxKeys, id);
    }
  }

  /** Once ready, an entry says the same for ever; a success is what some producer brought. */
  lemma SuccessIsSettled(s: State, t: Tid, m: Move, c: Config, id: nat)
    requires Inv(s, c) && Enabled(s, t, m, c)
    requires id < |Step(s, t, m, c).heap| && Succeeded(Step(s, t, m, c).heap[id])
    ensures var e := Step(s, t, m, c).heap[id];
            FinalizedAs(s, (t, m), id, e) || (id < |s.heap| && Same(s.heap[id], e))
  {
    if m == Finalize {
      assert CallOk(s, s.calls[t]);
    } else if m.Prepare? {
      PrepareSettles(s, t, m.victims, c, id);
    } else {
      assert Step(s, t, m, c).heap == s.heap;
    }
  }

  lemma {:induction false} SuccessWasProduced(states: seq<State>, moves: seq<(Tid, Move)>, c: Config, n: nat, id: nat)
    returns (j: nat)
    requires IsRun(states, moves, c) && n <= |moves| && id < |states[n].heap| && Succeeded(states[n].heap[id])
    ensures j < n && FinalizedAs(states[j], moves[j], id, states[n].heap[id])
  {
    RunKeeps(states, moves, c, n - 1);
    SuccessIsSettled(states[n - 1], moves[n - 1].0, moves[n - 1].1, c, id);
    if FinalizedAs(states[n - 1], moves[n - 1], id, states[n].heap[id]) {
      j := n - 1;
    } else {
      j := SuccessWasProduced(states, moves, c, n - 1, id);
    }
  }

  /** Every replay is the response of a producer that succeeded for that key less than a lifetime
      before the clock reading the replay went by, and carries no error. */
  lemma ReplayIsAFreshSuccess(states: seq<State>, moves: seq<(Tid, Move)>, c: Config, n: nat, t: Tid)
    returns (j: nat)
    requires IsRun(states, moves, c) && n <= |moves|
    requires t in states[n].calls && states[n].calls[t].Done? && states[n].calls[t].result.Replayed?
    ensures var r := states[n].calls[t].result;
            && r.err == None && j < n && moves[j].1 == Finalize && moves[j].0 in states[j].calls
            && states[j].calls[moves[j].0] == Finishing(r.key, r.id, r.resp, None)
            && r.now < states[j].clock + c.ttl
  {
    RunKeeps(states, moves, c, n);
    var r := states[n].calls[t].result;
    assert CallOk(states[n], states[n].calls[t]) && EntryOk(states[n], r.id, c);
    j := SuccessWasProduced(states, moves, c, n, r.id);
  }

  lemma EvictTable(s: State, victims: set<Key>, maxKeys: nat)
    requires TableOk(s) && EvictsSome(Table(s), victims, maxKeys)
    ensures TableOk(Evict(s, victims)) && Table(Evict(s, victims)) == Table(s) - victims
  {
    var s' := Evict(s, victims);
    forall k <- s'.entries
      ensures s'.entries[k] < |s'.heap| && s'.heap[s'.entries[k]].key == k && s'.heap[s'.entries[k]].slot == Table(s)[k]
    {
      EvictEffect(s, victims, maxKeys, s.entries[k]);
    }
  }

  lemma CollectTable(s: State, now: nat)
    requires TableOk(s)
    ensures TableOk(Collect(s, now)) && Table(Collect(s, now)) == Table(s) - Expired(Table(s), now)
  {
  }

  lemma InsertTable(s: State, t: Tid, k: Key, now: nat, c: Config)
    requires TableOk(s)
    ensures TableOk(Insert(s, t, k, now, c)) && Table(Insert(s, t, k, now, c)) == Table(s)[k := Pending(now, c)]
  {
  }

  lemma InsertingStep(s: State, t: Tid, victims: set<Key>, c: Config)
    requires Inv(s, c) && Enabled(s, t, Prepare(victims), c) && Step(s, t, Prepare(victims), c).calls[t].Producing?
    ensures var k, now := s.calls[t].key, s.calls[t].now;
            && k !in Collect(s, now).entries
            && TableOk(Insert(Collect(s, now), t, k, now, c))
            && Evicts(Table(Insert(Collect(s, now), t, k, now, c)), victims, c.maxKeys)
            && Step(s, t, Prepare(victims), c) == Evict(Insert(Collect(s, now), t, k, now, c), victims)
  {
    assert CallOk(s, s.calls[t]);
    CollectKeeps(s, s.calls[t].now, c);
  }

  /** The table an inserting call finds after collection, with its own pending entry. */
  function Inserted(v: View, k: Key, now: nat, c: Config): View { (v - Expired(v, now))[k := Pending(now, c)] }

  /** What an inserting call does to the table: expired entries go, its own pending one comes, then
      victims leave. */
  lemma PrepareOnTable(s: State, t: Tid, victims: set<Key>, c: Config)
    requires Inv(s, c) && Enabled(s, t, Prepare(victims), c) && Step(s, t, Prepare(victims), c).calls[t].Producing?
    ensures TableOk(Step(s, t, Prepare(victims), c))
    ensures var mid := Inserted(Table(s), s.calls[t].key, s.calls[t].now, c);
            Evicts(mid, victims, c.maxKeys) && Table(Step(s, t, Prepare(victims), c)) == mid - victims
    ensures s.calls[t].key !in Table(s) - Expired(Table(s), s.calls[t].now)
  {
    var k, now := s.calls[t].key, s.calls[t].now;
    InsertingStep(s, t, victims, c);
    CollectTable(s, now);
    InsertTable(Collect(s, now), t, k, now, c);
    EvictTable(Insert(Collect(s, now), t, k, now, c), victims, c.maxKeys);
  }

  /** What any other prepareEntry does to the table, and what it goes on with: a live success to replay,
      or a pending entry to wait for. */
  lemma PrepareFinds(s: State, t: Tid, victims: set<Key>, c: Config)
    requires Inv(s, c) && Enabled(s, t, Prepare(victims), c) && !Step(s, t, Prepare(victims), c).calls[t].Producing?
    ensures var k, v := s.calls[t].key, Table(s) - Expired(Table(s), s.calls[t].now);
            var s' := Step(s, t, Prepare(victims), c);
            && k in v && TableOk(s') && Table(s') == v
            && (v[k].ready ==> s'.calls[t] == Replaying(k, s.entries[k], v[k].response, s.calls[t].now))
            && (!v[k].ready ==> s'.calls[t] == Waiting(k, s.entries[k]))
  {
    assert CallOk(s, s.calls[t]);
    CollectKeeps(s, s.calls[t].now, c);
    CollectTable(s, s.calls[t].now);
  }

  /** What finalizeEntry does to the table. */
  lemma FinalizeOnTable(s: State, t: Tid, c: Config)
    requires Inv(s, c) && Enabled(s, t, Finalize, c)
    ensures var p, s' := s.calls[t], Step(s, t, Finalize, c);
            && p.key in Table(s) && TableOk(s')
            && Table(s') == if p.err.Some? then Table(s) - {p.key}
                            else Table(s)[p.key := Table(s)[p.key].(response := p.resp, expiresAt := s.clock + c.ttl, err := None, ready := true)]
  {
    FinalizeHeap(s, t, c);
    assert CallOk(s, s.calls[t]);
  }

  lemma InsertionFits(v: View, k: Key, now: nat, victims: set<Key>, c: Config)
    requires Evicts(Inserted(v, k, now, c), victims, c.maxKeys)
    ensures var v' := Inserted(v, k, now, c) - victims;
            && (|v'| <= c.maxKeys || forall o <- v' :: !v'[o].ready)
            && k in v' && !v'[k].ready
  {
  }

  lemma InsertionSpares(v: View, k: Key, now: nat, victims: set<Key>, c: Config)
    requires k !in v - Expired(v, now) && Evicts(Inserted(v, k, now, c), victims, c.maxKeys)
    ensures var v' := Inserted(v, k, now, c) - victims;
            && (forall o <- v | !v[o].ready :: o in v' && v'[o] == v[o])
            && (forall x <- victims, o <- v' :: x in v && (v'[o].ready ==> v[x].createdAt <= v'[o].createdAt))
  {
  }

  /** In every run: right after an insertion the table is within capacity or holds only pending entries,
      no pending entry was lost, and no ready survivor is older than an evicted entry. */
  lemma CapacityOverRuns(states: seq<State>, moves: seq<(Tid, Move)>, c: Config, i: nat)
    requires IsRun(states, moves, c) && i < |moves| && moves[i].1.Prepare? && states[i + 1].calls[moves[i].0].Producing?
    ensures TableOk(states[i]) && TableOk(states[i + 1])
    ensures var v, v' := Table(states[i]), Table(states[i + 1]);
            && (|v'| <= c.maxKeys || forall o <- v' :: !v'[o].ready)
            && (forall o <- v | !v[o].ready :: o in v' && v'[o] == v[o])
            && (forall x <- moves[i].1.victims, o <- v' :: x in v && (v'[o].ready ==> v[x].createdAt <= v'[o].createdAt))
  {
    RunKeeps(states, moves, c, i);
    var s, t, victims := states[i], moves[i].0, moves[i].1.victims;
    PrepareOnTable(s, t, victims, c);
    InsertionFits(Table(s), s.calls[t].key, s.calls[t].now, victims, c);
    InsertionSpares(Table(s), s.calls[t].key, s.calls[t].now, victims, c);
  }

  /** No call is stuck: each has a move of its own, or waits for one that has. */
  lemma NobodyIsStuck(states: seq<State>, moves: seq<(Tid, Move)>, c: Config, i: nat, t: Tid) returns (u: Tid, m: Move)
    requires IsRun(states, moves, c) && i <= |moves| && t in states[i].calls
    ensures Enabled(states[i], u, m, c) && !m.Tick? && !m.Call? && !m.Cancel?
    ensures u == t || (states[i].calls[t].Waiting? && u in states[i].calls && Holds(states[i].calls[u], states[i].calls[t].id))
  {
    RunKeeps(states, moves, c, i);
    var s := states[i];
    var p := s.calls[t];
    assert CallOk(s, p);
    u := t;
    match p
    case Called(k) => m := if k == "" then Produce(Blank, None) else ReadClock;
    case Timed(k, now) =>
      CollectKeeps(s, now, c);
      var live := Collect(s, now);
      if Free(live, k, now) {
        InsertKeeps(live, t, k, now, c);
        var victims := EvictionPossible(Table(Insert(live, t, k, now, c)), {}, c.maxKeys);
        m := Prepare(victims);
      } else {
        m := Prepare({});
      }
    case Producing(_, _) => m := Produce(Blank, None);
    case Finishing(_, _, _, _) => m := Finalize;
    case Waiting(_, id) =>
      assert EntryOk(s, id, c);
      if s.heap[id].slot.ready {
        m := Wake;
      } else {
        assert Held(s, id);
        u :| u in s.calls && Holds(s.calls[u], id);
        m := if s.calls[u].Producing? then Produce(Blank, None) else Finalize;
      }
    case Replaying(_, _, _, _) => m := Reply;
    case Done(_) => m := Return;
  }
}
