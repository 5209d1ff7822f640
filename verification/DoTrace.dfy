/** What one caller of Do meets, told by its own moves: the key it asked for, the clock it read, what its
    producer brought, and what the call ends with. */
module DoTrace {
  import opened Options
  import opened Idempotency

  type Moves = seq<(Tid, Move)>

  /** A call under way: its key, the move of its last clock reading, what its producer last brought, and its
      last move. */
  datatype Story = Story(key: Key, read: Option<nat>, made: Option<(Response, Option<Error>)>, last: Move)

  /** The story of call `t` after `n` moves, from the moves alone. */
  function StoryOf(moves: Moves, n: nat, t: Tid): Option<Story>
    requires n <= |moves|
  {
    if n == 0 then None
    else
      var before, m := StoryOf(moves, n - 1, t), moves[n - 1].1;
      if moves[n - 1].0 != t || m.Tick? then before
      else if m.Call? then Some(Story(m.key, None, None, m))
      else if m.Return? || before.None? then None
      else if m.ReadClock? then Some(before.value.(read := Some(n - 1), last := m))
      else if m.Produce? then Some(before.value.(made := Some((m.resp, m.err)), last := m))
      else Some(before.value.(last := m))
  }

  /** The clock at the call's last reading. */
  predicate ReadAt(states: seq<State>, st: Story, now: nat) {
    st.read.Some? && st.read.value < |states| && states[st.read.value].clock == now
  }

  /** Where the machine has the call, and what it holds, is what its story says. */
  predicate Fits(states: seq<State>, s: State, st: Story, p: Pc) {
    match p
    case Called(k) => k == st.key && (st.last.Call? || st.last.Wake?)
    case Timed(k, now) => k == st.key && st.last.ReadClock? && ReadAt(states, st, now)
    case Producing(k, id) => k == st.key && st.last.Prepare? && id < |s.heap| && ReadAt(states, st, s.heap[id].slot.createdAt)
    case Finishing(k, id, r, e) =>
      k == st.key && st.last == Produce(r, e) && st.made == Some((r, e)) && id < |s.heap| && ReadAt(states, st, s.heap[id].slot.createdAt)
    case Waiting(k, _) => k == st.key && st.last.Prepare?
    case Replaying(k, _, _, now) => k == st.key && st.last.Prepare? && ReadAt(states, st, now)
    case Done(Fresh(r, e)) => st.made == Some((r, e)) && (st.last.Finalize? || (st.key == "" && st.last == Produce(r, e)))
    case Done(Replayed(k, _, _, _, now)) => k == st.key && st.last.Reply? && ReadAt(states, st, now)
    case Done(Cancelled(e)) => st.last.Cancel? && e == Some(st.last.cause)
  }

  ghost predicate Told(states: seq<State>, moves: Moves, n: nat, t: Tid)
    requires n <= |moves| && |states| == |moves| + 1
  {
    && (t in states[n].calls <==> StoryOf(moves, n, t).Some?)
    && (t in states[n].calls ==> Fits(states, states[n], StoryOf(moves, n, t).value, states[n].calls[t]))
  }

  /** Nobody changes when an entry was made. */
  lemma MadeWhen(s: State, t: Tid, m: Move, c: Config, id: nat)
    requires Enabled(s, t, m, c) && id < |s.heap|
    ensures id < |Step(s, t, m, c).heap| && Step(s, t, m, c).heap[id].slot.createdAt == s.heap[id].slot.createdAt
  {
  }

  /** A call stands still while others move. */
  lemma OthersMove(s: State, t: Tid, u: Tid, m: Move, c: Config)
    requires Enabled(s, u, m, c) && (t != u || m.Tick?)
    ensures var s' := Step(s, u, m, c); (t in s'.calls <==> t in s.calls) && (t in s.calls ==> s'.calls[t] == s.calls[t])
  {
  }

  /** prepareEntry: the call goes on with its own entry, made at its clock reading; with another's to replay
      or to wait for. */
  lemma OwnPrepare(s: State, t: Tid, victims: set<Key>, c: Config)
    requires Enabled(s, t, Prepare(victims), c)
    ensures var (p, s') := (s.calls[t], Step(s, t, Prepare(victims), c));
            t in s'.calls &&
            match s'.calls[t]
            case Producing(k, id) => k == p.key && id < |s'.heap| && s'.heap[id].slot.createdAt == p.now
            case Replaying(k, _, _, now) => k == p.key && now == p.now
            case Waiting(k, _) => k == p.key
            case _ => false
  {
    var live := Collect(s, s.calls[t].now);
    if Free(live, s.calls[t].key, s.calls[t].now) {
      EvictEffect(Insert(live, t, s.calls[t].key, s.calls[t].now, c), victims, c.maxKeys, |s.heap|);
    }
  }

  /** Its other moves. */
  lemma OwnMove(s: State, t: Tid, m: Move, c: Config)
    requires Enabled(s, t, m, c) && !m.Prepare? && !m.Tick?
    ensures var s' := Step(s, t, m, c);
            match m
            case Call(k) => t in s'.calls && s'.calls[t] == Called(k)
            case ReadClock => t in s'.calls && s'.calls[t] == Timed(s.calls[t].key, s.clock)
            case Produce(r, e) =>
              t in s'.calls && s'.calls[t] ==
                if s.calls[t].Producing? then Finishing(s.calls[t].key, s.calls[t].id, r, e) else Done(Fresh(r, e))
            case Finalize => t in s'.calls && s'.calls[t] == Done(Fresh(s.calls[t].resp, s.calls[t].err))
            case Wake => t in s'.calls && s'.calls[t] == Called(s.calls[t].key)
            case Cancel(x) => t in s'.calls && s'.calls[t] == Done(Cancelled(Some(x)))
            case Reply =>
              t in s'.calls && s'.calls[t].Done? && s'.calls[t].result.Replayed?
              && s'.calls[t].result.key == s.calls[t].key && s'.calls[t].result.now == s.calls[t].now
            case Return => t !in s'.calls
  {
  }

  lemma OtherTold(states: seq<State>, moves: Moves, c: Config, n: nat, t: Tid)
    requires IsRun(states, moves, c) && n < |moves| && Told(states, moves, n, t) && (moves[n].0 != t || moves[n].1.Tick?)
    ensures Told(states, moves, n + 1, t)
  {
    OthersMove(states[n], t, moves[n].0, moves[n].1, c);
    if t in states[n].calls && (states[n].calls[t].Producing? || states[n].calls[t].Finishing?) {
      MadeWhen(states[n], moves[n].0, moves[n].1, c, states[n].calls[t].id);
    }
  }

  lemma OwnTold(states: seq<State>, moves: Moves, c: Config, n: nat, t: Tid)
    requires IsRun(states, moves, c) && n < |moves| && Told(states, moves, n, t) && moves[n].0 == t && !moves[n].1.Tick?
    ensures Told(states, moves, n + 1, t)
  {
    var s, m := states[n], moves[n].1;
    if m.Prepare? {
      OwnPrepare(s, t, m.victims, c);
    } else {
      OwnMove(s, t, m, c);
      if m.Produce? && s.calls[t].Producing? { MadeWhen(s, t, m, c, s.calls[t].id); }
    }
  }

  /** In every run every call stands where its own moves have brought it: with the key it was called with,
      the clock it read, and what its producer brought. */
  lemma {:induction false} CallsAsTold(states: seq<State>, moves: Moves, c: Config, n: nat, t: Tid)
    requires IsRun(states, moves, c) && n <= |moves|
    ensures Told(states, moves, n, t)
  {
    if n > 0 {
      CallsAsTold(states, moves, c, n - 1, t);
      if moves[n - 1].0 == t && !moves[n - 1].1.Tick? {
        OwnTold(states, moves, c, n - 1, t);
      } else {
        OtherTold(states, moves, c, n - 1, t);
      }
    }
  }

  // ---- by positions ----------------------------------------------------------------------

  /** Move `j` is the call's last Call before move `n`, and it has not returned since. */
  predicate LastCall(moves: Moves, n: nat, t: Tid, j: nat, k: Key)
    requires n <= |moves|
  {
    j < n && moves[j] == (t, Call(k)) && forall x | j < x < n && moves[x].0 == t :: !moves[x].1.Call? && !moves[x].1.Return?
  }

  /** Move `j` is what its producer last brought since its Call. */
  predicate LastProduce(moves: Moves, n: nat, t: Tid, j: nat, r: Response, e: Option<Error>)
    requires n <= |moves|
  {
    j < n && moves[j] == (t, Produce(r, e))
    && forall x | j < x < n && moves[x].0 == t :: !moves[x].1.Produce? && !moves[x].1.Call?
  }

  /** Move `j` is its last reading of the clock since its Call. */
  predicate LastReading(moves: Moves, n: nat, t: Tid, j: nat)
    requires n <= |moves|
  {
    j < n && moves[j] == (t, ReadClock) && forall x | j < x < n && moves[x].0 == t :: !moves[x].1.ReadClock? && !moves[x].1.Call?
  }

  /** Move `j` is its last move. */
  predicate LastMove(moves: Moves, n: nat, t: Tid, j: nat, m: Move)
    requires n <= |moves|
  {
    j < n && moves[j] == (t, m) && forall x | j < x < n && moves[x].0 == t :: moves[x].1.Tick?
  }

  lemma {:induction false} StoryByPositions(moves: Moves, n: nat, t: Tid)
    requires n <= |moves| && StoryOf(moves, n, t).Some?
    ensures var st := StoryOf(moves, n, t).value;
            && (exists j :: LastCall(moves, n, t, j, st.key))
            && (exists j :: LastMove(moves, n, t, j, st.last))
            && (st.read.Some? ==> LastReading(moves, n, t, st.read.value))
            && (st.made.Some? ==> exists j :: LastProduce(moves, n, t, j, st.made.value.0, st.made.value.1))
  {
    var m := n - 1;
    var st, before := StoryOf(moves, n, t).value, StoryOf(moves, m, t);
    if before.Some? {
      StoryByPositions(moves, m, t);
      var b := before.value;
      var j :| LastCall(moves, m, t, j, b.key);
      var l :| LastMove(moves, m, t, l, b.last);
      if !(moves[m].0 == t && moves[m].1.Call?) { assert LastCall(moves, n, t, j, st.key); }
      if moves[m].0 != t || moves[m].1.Tick? { assert LastMove(moves, n, t, l, st.last); }
      if b.made.Some? {
        var p :| LastProduce(moves, m, t, p, b.made.value.0, b.made.value.1);
        if st.made == b.made && !(moves[m].0 == t && (moves[m].1.Produce? || moves[m].1.Call?)) {
          assert LastProduce(moves, n, t, p, st.made.value.0, st.made.value.1);
        }
      }
    }
    if moves[m].0 == t && !moves[m].1.Tick? {
      assert LastMove(moves, n, t, m, moves[m].1);
      if moves[m].1.Call? { assert LastCall(moves, n, t, m, moves[m].1.key); }
      if moves[m].1.Produce? { assert LastProduce(moves, n, t, m, moves[m].1.resp, moves[m].1.err); }
    }
  }

  /** What a call of Do ends with. Its own producer's outcome, failure or success, is what its last Produce
      since its Call brought, unchanged; a replay is for the key it called with, judged at its last clock
      reading; and a cancellation is its own last move's, with that cause. */
  lemma CallEndsAsTold(states: seq<State>, moves: Moves, c: Config, n: nat, t: Tid)
    requires IsRun(states, moves, c) && n <= |moves| && t in states[n].calls && states[n].calls[t].Done?
    ensures match states[n].calls[t].result
            case Fresh(r, e) => exists j :: LastProduce(moves, n, t, j, r, e)
            case Replayed(k, _, _, _, now) =>
              (exists j :: LastCall(moves, n, t, j, k)) && exists j: nat :: LastReading(moves, n, t, j) && states[j].clock == now
            case Cancelled(e) => e.Some? && exists j :: LastMove(moves, n, t, j, Cancel(e.value))
  {
    CallsAsTold(states, moves, c, n, t);
    StoryByPositions(moves, n, t);
  }

  /** And how: a call whose last move is Finalize, or Produce when its key is empty, is done with its
      producer's outcome; one whose last move is Reply is done with a replay; one whose last move is Wake
      starts again with its key. */
  lemma CallStandsAsTold(states: seq<State>, moves: Moves, c: Config, n: nat, t: Tid, j: nat, m: Move)
    requires IsRun(states, moves, c) && n <= |moves| && t in states[n].calls && LastMove(moves, n, t, j, m) && !m.Tick?
    ensures var p := states[n].calls[t];
            && (m.Finalize? ==> exists i, r, e :: p == Done(Fresh(r, e)) && LastProduce(moves, n, t, i, r, e))
            && (m.Reply? ==> p.Done? && p.result.Replayed?)
            && (m.Cancel? ==> p == Done(Cancelled(Some(m.cause))))
            && (m.Wake? ==> p.Called? && exists i :: LastCall(moves, n, t, i, p.key))
  {
    CallsAsTold(states, moves, c, n, t);
    StoryByPositions(moves, n, t);
    var st := StoryOf(moves, n, t).value;
    var l :| LastMove(moves, n, t, l, st.last);
    assert l == j && st.last == m;
  }

  /** A replay's age: its response was finalized by a producer that succeeded for the key the call asked
      for, less than a lifetime before the call's own last reading of the clock. */
  lemma ReplayAge(states: seq<State>, moves: Moves, c: Config, n: nat, t: Tid) returns (reading: nat, done: nat)
    requires IsRun(states, moves, c) && n <= |moves|
    requires t in states[n].calls && states[n].calls[t].Done? && states[n].calls[t].result.Replayed?
    ensures var r := states[n].calls[t].result;
            && r.err == None && LastReading(moves, n, t, reading) && (exists i :: LastCall(moves, n, t, i, r.key))
            && done < n && moves[done].1 == Finalize && moves[done].0 in states[done].calls
            && states[done].calls[moves[done].0] == Finishing(r.key, r.id, r.resp, None)
            && states[reading].clock < states[done].clock + c.ttl
  {
    CallEndsAsTold(states, moves, c, n, t);
    reading :| LastReading(moves, n, t, reading) && states[reading].clock == states[n].calls[t].result.now;
    done := ReplayIsAFreshSuccess(states, moves, c, n, t);
  }

  /** Every prepareEntry clears the table of exactly what was over at its clock reading: no ready entry past
      its end is left, and what is gone was such an entry, or a victim of capacity. Only the call's own key
      can be new. */
  lemma CollectsExactly(states: seq<State>, moves: Moves, c: Config, i: nat)
    requires IsRun(states, moves, c) && i < |moves| && moves[i].1.Prepare?
    ensures TableOk(states[i]) && TableOk(states[i + 1]) && moves[i].0 in states[i].calls && states[i].calls[moves[i].0].Timed?
    ensures var (v, v', p) := (Table(states[i]), Table(states[i + 1]), states[i].calls[moves[i].0]);
            && (forall k <- v' :: !(v'[k].ready && v'[k].expiresAt <= p.now))
            && (forall k <- v :: k !in v' ==> (v[k].ready && v[k].expiresAt <= p.now) || k in moves[i].1.victims)
            && (forall k <- v' :: k != p.key ==> k in v && v'[k] == v[k])
  {
    RunKeeps(states, moves, c, i);
    var s, t := states[i], moves[i].0;
    if states[i + 1].calls[t].Producing? {
      PrepareOnTable(s, t, moves[i].1.victims, c);
    } else {
      PrepareFinds(s, t, moves[i].1.victims, c);
    }
  }

  /** The time that passes in some moves. */
  function Elapsed(moves: Moves, from: nat, to: nat): nat
    requires from <= to <= |moves|
  {
    if from == to then 0 else Elapsed(moves, from, to - 1) + if moves[to - 1].1.Tick? then moves[to - 1].1.elapsed else 0
  }

  lemma {:induction false} ClockTells(states: seq<State>, moves: Moves, c: Config, i: nat, j: nat)
    requires IsRun(states, moves, c) && i <= j <= |moves|
    ensures states[j].clock == states[i].clock + Elapsed(moves, i, j)
    decreases j
  {
    if i < j {
      var (t, m) := moves[j - 1];
      ClockTells(states, moves, c, i, j - 1);
      ClockStep(states[j - 1], t, m, c);
    }
  }

  lemma ClockStep(s: State, t: Tid, m: Move, c: Config)
    requires Enabled(s, t, m, c)
    ensures Step(s, t, m, c).clock == s.clock + if m.Tick? then m.elapsed else 0
  {
  }

  // ---- when producers of one key run ------------------------------------------------------

  /** Move `a` lets a producer of the key go, on entry `id`. */
  predicate LetsGo(states: seq<State>, moves: Moves, a: nat, k: Key, id: nat)
    requires |states| == |moves| + 1 && a < |moves|
  {
    moves[a].1.Prepare? && moves[a].0 in states[a + 1].calls && states[a + 1].calls[moves[a].0] == Producing(k, id)
  }

  /** Move `f` finalizes the entry with that error or none. */
  predicate FinalizesAs(states: seq<State>, moves: Moves, f: nat, k: Key, id: nat, err: Option<Error>)
    requires |states| == |moves| + 1 && f < |moves|
  {
    moves[f].1 == Finalize && moves[f].0 in states[f].calls && states[f].calls[moves[f].0].Finishing?
    && states[f].calls[moves[f].0].key == k && states[f].calls[moves[f].0].id == id && states[f].calls[moves[f].0].err == err
  }

  lemma LetGoEntry(s: State, t: Tid, victims: set<Key>, c: Config)
    requires Inv(s, c) && Enabled(s, t, Prepare(victims), c) && Step(s, t, Prepare(victims), c).calls[t].Producing?
    ensures var s' := Step(s, t, Prepare(victims), c);
            && s'.calls[t] == Producing(s.calls[t].key, |s.heap|) && |s'.heap| == |s.heap| + 1
            && s'.heap[|s.heap|].key == s.calls[t].key && s'.heap[|s.heap|].startedAt == s.clock
  {
    InsertingStep(s, t, victims, c);
    EvictEffect(Insert(Collect(s, s.calls[t].now), t, s.calls[t].key, s.calls[t].now, c), victims, c.maxKeys, |s.heap|);
  }

  /** Entries keep their key and start, turn ready only by a Finalize, and evicted only as a victim. */
  lemma EntryStep(s: State, t: Tid, m: Move, c: Config, id: nat)
    requires Inv(s, c) && Enabled(s, t, m, c) && id < |s.heap|
    ensures var s' := Step(s, t, m, c);
            && |s.heap| <= |s'.heap| && s'.heap[id].key == s.heap[id].key && s'.heap[id].startedAt == s.heap[id].startedAt
            && (s.heap[id].slot.ready ==>
                  s'.heap[id].slot == s.heap[id].slot && s'.heap[id].finalizedAt == s.heap[id].finalizedAt)
            && (!s.heap[id].slot.ready && s'.heap[id].slot.ready ==>
                  m == Finalize && t in s.calls && s.calls[t].Finishing? && s.calls[t].key == s.heap[id].key && s.calls[t].id == id
                  && s.calls[t].err == s'.heap[id].slot.err && s'.heap[id].finalizedAt == s.clock)
            && (!s.heap[id].evicted && s'.heap[id].evicted ==> m.Prepare? && s.heap[id].key in m.victims)
  {
    if m.Prepare? {
      var k, now := s.calls[t].key, s.calls[t].now;
      var live := Collect(s, now);
      if Free(live, k, now) { EvictEffect(Insert(live, t, k, now, c), m.victims, c.maxKeys, id); }
    } else if m == Finalize {
      assert CallOk(s, s.calls[t]);
    }
  }

  /** What became of an entry let go at `a`, by `n`. */
  ghost predicate EntryTold(states: seq<State>, moves: Moves, a: nat, n: nat, k: Key, id: nat)
    requires |states| == |moves| + 1 && a < n <= |moves|
  {
    id < |states[n].heap| && var e := states[n].heap[id];
    && e.key == k && e.startedAt == states[a].clock
    && (e.slot.ready ==> exists f | a < f < n :: FinalizesAs(states, moves, f, k, id, e.slot.err) && states[f].clock == e.finalizedAt)
    && (e.evicted ==> exists x | a < x < n :: moves[x].1.Prepare? && k in moves[x].1.victims)
  }

  lemma JustLetGo(states: seq<State>, moves: Moves, c: Config, a: nat, k: Key, id: nat)
    requires IsRun(states, moves, c) && a < |moves| && LetsGo(states, moves, a, k, id)
    ensures EntryTold(states, moves, a, a + 1, k, id)
  {
    RunKeeps(states, moves, c, a);
    RunKeeps(states, moves, c, a + 1);
    LetGoEntry(states[a], moves[a].0, moves[a].1.victims, c);
    assert CallOk(states[a + 1], states[a + 1].calls[moves[a].0]);
    assert EntryOk(states[a + 1], id, c);
  }

  lemma EntryToldStep(states: seq<State>, moves: Moves, c: Config, a: nat, n: nat, k: Key, id: nat)
    requires IsRun(states, moves, c) && a < n < |moves| && EntryTold(states, moves, a, n, k, id)
    ensures EntryTold(states, moves, a, n + 1, k, id)
  {
    RunKeeps(states, moves, c, n);
    EntryStep(states[n], moves[n].0, moves[n].1, c, id);
    var e, e' := states[n].heap[id], states[n + 1].heap[id];
    if e'.slot.ready && !e.slot.ready { assert FinalizesAs(states, moves, n, k, id, e'.slot.err); }
  }

  lemma {:induction false} EntriesAsTold(states: seq<State>, moves: Moves, c: Config, a: nat, n: nat, k: Key, id: nat)
    requires IsRun(states, moves, c) && a < n <= |moves| && LetsGo(states, moves, a, k, id)
    ensures EntryTold(states, moves, a, n, k, id)
    decreases n
  {
    if n == a + 1 {
      JustLetGo(states, moves, c, a, k, id);
    } else {
      var m := n - 1;
      EntriesAsTold(states, moves, c, a, m, k, id);
      EntryToldStep(states, moves, c, a, m, k, id);
      assert n == m + 1;
    }
  }

  /** Two producers of one key: the earlier was finalized before the later was let go, and the later waited a
      whole lifetime from then unless the earlier failed or the key was a victim of capacity in between. */
  lemma ProducersWaitTheirTurn(states: seq<State>, moves: Moves, c: Config, a: nat, b: nat, k: Key, id: nat, id': nat)
    requires IsRun(states, moves, c) && a < b < |moves| && LetsGo(states, moves, a, k, id) && LetsGo(states, moves, b, k, id')
    ensures exists f, err | a < f < b ::
              FinalizesAs(states, moves, f, k, id, err)
              && (err.Some? || states[b].clock >= states[f].clock + c.ttl
                  || exists x | a < x < b :: moves[x].1.Prepare? && k in moves[x].1.victims)
  {
    EntriesAsTold(states, moves, c, a, b, k, id);
    EntriesAsTold(states, moves, c, a, b + 1, k, id);
    EntriesAsTold(states, moves, c, b, b + 1, k, id');
    RunKeeps(states, moves, c, b);
    LetGoEntry(states[b], moves[b].0, moves[b].1.victims, c);
    EntryStep(states[b], moves[b].0, moves[b].1, c, id);
    ProducersAreSpacedOut(states, moves, c, b + 1, id, id');
    var e := states[b].heap[id];
    var f :| a < f < b && FinalizesAs(states, moves, f, k, id, e.slot.err) && states[f].clock == e.finalizedAt;
  }
}
