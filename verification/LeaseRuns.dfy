/** Many calls of Issue and Reattach at once on the memory lease store: each is cut at its clock reading,
    at Get and at Save, which are all it shares with the others. */
module LeaseRuns {
  import opened Options
  import opened Leases

  type Tid = nat

  /** A call past its clock reading (move `from`): on its way to Get with its claims, or to Save with the
      lease it will save; `got` is the move in which it did Get, if it is a Reattach. */
  datatype Pc =
    | Loading(claims: Claims, now: int, from: nat)
    | Saving(lease: Lease, from: nat, got: Option<nat>)

  /** `latest` remembers the last lease saved under each id, `used` every id given out, `time` counts the
      moves. */
  datatype State = State(clock: int, items: Items, calls: map<Tid, Pc>, latest: Items, used: set<string>, time: nat)

  datatype Move =
    | Tick(elapsed: nat)
    | StartIssue(input: LeaseInput, id: string)
    | StartReattach(token: string)
    | Get
    | Save

  function Start(clock: int): State { State(clock, map[], map[], map[], {}, 0) }

  predicate Enabled(s: State, t: Tid, m: Move) {
    match m
    case Tick(_) => true
    case StartIssue(_, id) => t !in s.calls && id != "" && id !in s.used
    case StartReattach(_) => t !in s.calls
    case Get => t in s.calls && s.calls[t].Loading?
    case Save => t in s.calls && s.calls[t].Saving?
  }

  /** A call that fails is over. */
  function Step(c: Config, s: State, t: Tid, m: Move): State
    requires Enabled(s, t, m)
  {
    match m
    case Tick(d) => s.(clock := s.clock + d, time := s.time + 1)
    case StartIssue(input, id) =>
      s.(calls := s.calls[t := Saving(NewLease(c, input, id, s.clock), s.time, None)], used := s.used + {id}, time := s.time + 1)
    case StartReattach(token) =>
      (match Admit(c, token, s.clock)
       case Err(_) => s.(time := s.time + 1)
       case Ok(claims) => s.(calls := s.calls[t := Loading(claims, s.clock, s.time)], time := s.time + 1))
    case Get =>
      var p, live := s.calls[t], Collected(s.items, s.clock);
      (match Load(c, live, p.claims, p.now)
       case Err(_) => s.(items := live, calls := s.calls - {t}, time := s.time + 1)
       case Ok(lease) => s.(items := live, calls := s.calls[t := Saving(lease, p.from, Some(s.time))], time := s.time + 1))
    case Save =>
      var lease := s.calls[t].lease;
      s.(items := Saved(s.items, lease, s.clock), latest := s.latest[lease.id := lease], calls := s.calls - {t}, time := s.time + 1)
  }

  type Moves = seq<(Tid, Move)>

  predicate IsRun(c: Config, states: seq<State>, moves: Moves) {
    && |states| == |moves| + 1 && states[0] == Start(states[0].clock)
    && forall i | 0 <= i < |moves| ::
         Enabled(states[i], moves[i].0, moves[i].1) && states[i + 1] == Step(c, states[i], moves[i].0, moves[i].1)
  }

  // ---- the invariant ---------------------------------------------------------------------

  predicate StoreOk(c: Config, s: State) {
    && (forall id <- s.items :: id in s.latest && s.items[id] == s.latest[id])
    && (forall id <- s.latest ::
          && s.latest[id].id == id && id != "" && id in s.used && s.latest[id].issuedAt <= s.clock
          && s.latest[id].expiresAt == s.latest[id].issuedAt + c.ttl
          && (id !in s.items ==> s.latest[id].expiresAt < s.clock))
  }

  /** A lease on its way to Save: a new one under an id of its own, or a renewal of a saved one. */
  predicate CallOk(c: Config, s: State, p: Pc) {
    match p
    case Loading(_, now, _) => now <= s.clock
    case Saving(lease, _, got) =>
      && lease.id != "" && lease.id in s.used && lease.issuedAt <= s.clock && lease.expiresAt == lease.issuedAt + c.ttl
      && (if got.None? then lease.id !in s.latest
          else lease.id in s.latest && Identity(lease) == Identity(s.latest[lease.id]))
  }

  predicate Issuing(p: Pc) { p.Saving? && p.got.None? }

  predicate CallsOk(c: Config, s: State) {
    && (forall t <- s.calls :: CallOk(c, s, s.calls[t]))
    && (forall t <- s.calls, u <- s.calls ::
          Issuing(s.calls[t]) && s.calls[u].Saving? && s.calls[t].lease.id == s.calls[u].lease.id ==> t == u)
  }

  predicate Inv(c: Config, s: State) { StoreOk(c, s) && CallsOk(c, s) }

  lemma TickKeeps(c: Config, s: State, t: Tid, d: nat)
    requires Inv(c, s)
    ensures Inv(c, Step(c, s, t, Tick(d)))
  {
    forall u <- s.calls ensures CallOk(c, Step(c, s, t, Tick(d)), s.calls[u]) { assert CallOk(c, s, s.calls[u]); }
  }

  lemma IssueKeeps(c: Config, s: State, t: Tid, input: LeaseInput, id: string)
    requires Inv(c, s) && Enabled(s, t, StartIssue(input, id))
    ensures Inv(c, Step(c, s, t, StartIssue(input, id)))
  {
    var s' := Step(c, s, t, StartIssue(input, id));
    forall u <- s.calls ensures CallOk(c, s', s.calls[u]) && (s.calls[u].Saving? ==> s.calls[u].lease.id != id) {
      assert CallOk(c, s, s.calls[u]);
    }
  }

  lemma ReattachKeeps(c: Config, s: State, t: Tid, token: string)
    requires Inv(c, s) && Enabled(s, t, StartReattach(token))
    ensures Inv(c, Step(c, s, t, StartReattach(token)))
  {
    forall u <- s.calls ensures CallOk(c, Step(c, s, t, StartReattach(token)), s.calls[u]) { assert CallOk(c, s, s.calls[u]); }
  }

  lemma GetKeeps(c: Config, s: State, t: Tid)
    requires Inv(c, s) && Enabled(s, t, Get)
    ensures Inv(c, Step(c, s, t, Get))
  {
    assert CallOk(c, s, s.calls[t]);
  }

  lemma SaveKeepsStore(c: Config, s: State, t: Tid)
    requires Inv(c, s) && Enabled(s, t, Save)
    ensures StoreOk(c, Step(c, s, t, Save))
  {
    assert CallOk(c, s, s.calls[t]);
  }

  lemma SaveKeeps(c: Config, s: State, t: Tid)
    requires Inv(c, s) && Enabled(s, t, Save)
    ensures Inv(c, Step(c, s, t, Save))
  {
    SaveKeepsStore(c, s, t);
    var s', lease := Step(c, s, t, Save), s.calls[t].lease;
    assert CallOk(c, s, s.calls[t]);
    forall u <- s'.calls ensures CallOk(c, s', s'.calls[u]) { assert CallOk(c, s, s.calls[u]); }
  }

  lemma StepKeeps(c: Config, s: State, t: Tid, m: Move)
    requires Inv(c, s) && Enabled(s, t, m)
    ensures Inv(c, Step(c, s, t, m))
  {
    match m
    case Tick(d) => TickKeeps(c, s, t, d);
    case StartIssue(input, id) => IssueKeeps(c, s, t, input, id);
    case StartReattach(token) => ReattachKeeps(c, s, t, token);
    case Get => GetKeeps(c, s, t);
    case Save => SaveKeeps(c, s, t);
  }

  lemma {:induction false} RunKeeps(c: Config, states: seq<State>, moves: Moves, n: nat)
    requires IsRun(c, states, moves) && n <= |moves|
    ensures Inv(c, states[n]) && states[n].time == n
  {
    if n > 0 {
      RunKeeps(c, states, moves, n - 1);
      StepKeeps(c, states[n - 1], moves[n - 1].0, moves[n - 1].1);
    }
  }

  // ---- identity --------------------------------------------------------------------------

  lemma StepKeepsIdentity(c: Config, s: State, t: Tid, m: Move, id: string)
    requires Inv(c, s) && Enabled(s, t, m) && id in s.latest
    ensures var s' := Step(c, s, t, m);
            id in s'.latest && Identity(s'.latest[id]) == Identity(s.latest[id])
  {
    if m.Save? { assert CallOk(c, s, s.calls[t]); }
  }

  /** Over every run, however calls overlap, a lease keeps all its fields but the two times: in the store,
      and in every call that is about to save it. */
  lemma {:induction false} IdentityIsKept(c: Config, states: seq<State>, moves: Moves, i: nat, j: nat, id: string)
    requires IsRun(c, states, moves) && i <= j <= |moves| && id in states[i].latest
    ensures id in states[j].latest && Identity(states[j].latest[id]) == Identity(states[i].latest[id])
    ensures var (was, now) := (states[i].latest[id], states[j].latest[id]);
            now == was.(issuedAt := now.issuedAt, expiresAt := now.expiresAt)
    ensures id in states[j].items ==> Identity(states[j].items[id]) == Identity(states[i].latest[id])
    ensures forall t <- states[j].calls :: states[j].calls[t].Saving? && states[j].calls[t].lease.id == id ==>
              Identity(states[j].calls[t].lease) == Identity(states[i].latest[id])
    decreases j
  {
    RunKeeps(c, states, moves, j);
    if i < j {
      IdentityIsKept(c, states, moves, i, j - 1, id);
      RunKeeps(c, states, moves, j - 1);
      StepKeepsIdentity(c, states[j - 1], moves[j - 1].0, moves[j - 1].1, id);
    }
    forall t <- states[j].calls ensures CallOk(c, states[j], states[j].calls[t]) {}
  }

  // ---- the last save ---------------------------------------------------------------------

  predicate SavesId(s: State, t: Tid, m: Move, id: string) {
    m == Save && t in s.calls && s.calls[t].Saving? && s.calls[t].lease.id == id
  }

  /** Move `m` is the last before `n` that saved a lease under the id. */
  predicate LastSave(states: seq<State>, moves: Moves, n: nat, id: string, m: nat)
    requires |states| == |moves| + 1 && n <= |moves|
  {
    m < n && SavesId(states[m], moves[m].0, moves[m].1, id)
    && forall x | m < x < n :: !SavesId(states[x], moves[x].0, moves[x].1, id)
  }

  lemma {:induction false} LatestIsLastSaved(c: Config, states: seq<State>, moves: Moves, n: nat, id: string)
    requires IsRun(c, states, moves) && n <= |moves| && id in states[n].latest
    ensures exists m | 0 <= m < n :: LastSave(states, moves, n, id, m)
    ensures forall m | 0 <= m < n && LastSave(states, moves, n, id, m) :: states[n].latest[id] == states[m].calls[moves[m].0].lease
  {
    if n > 0 {
      var last := n - 1;
      if SavesId(states[last], moves[last].0, moves[last].1, id) {
        assert LastSave(states, moves, n, id, last);
      } else {
        LatestIsLastSaved(c, states, moves, last, id);
        var m :| 0 <= m < last && LastSave(states, moves, last, id, m);
        assert LastSave(states, moves, n, id, m);
        forall x | 0 <= x < n && LastSave(states, moves, n, id, x) ensures LastSave(states, moves, last, id, x) {}
      }
    }
  }

  /** Where a pending lease's times come from. */
  predicate BegunAt(c: Config, states: seq<State>, moves: Moves, n: nat, t: Tid)
    requires |states| == |moves| + 1 && n <= |moves|
  {
    t in states[n].calls && states[n].calls[t].from < n
    && moves[states[n].calls[t].from].0 == t
    && (match states[n].calls[t]
        case Loading(_, now, from) => now == states[from].clock
        case Saving(lease, from, got) =>
          lease.issuedAt == states[from].clock && lease.expiresAt == states[from].clock + c.ttl
          && (got.Some? ==> from < got.value < n && lease.id in states[got.value + 1].items))
  }

  lemma {:induction false} CallsBegan(c: Config, states: seq<State>, moves: Moves, n: nat, t: Tid)
    requires IsRun(c, states, moves) && n <= |moves| && t in states[n].calls
    ensures BegunAt(c, states, moves, n, t)
  {
    if n > 0 {
      var last := n - 1;
      RunKeeps(c, states, moves, last);
      if t in states[last].calls && states[n].calls[t] == states[last].calls[t] {
        CallsBegan(c, states, moves, last, t);
      } else if moves[last].1.Get? {
        CallsBegan(c, states, moves, last, t);
        LoadedLease(c, states[last], t);
      } else {
        JustBegun(c, states[last], t, moves[last].1);
      }
    }
  }

  lemma JustBegun(c: Config, s: State, t: Tid, m: Move)
    requires Enabled(s, t, m) && !m.Get? && t in Step(c, s, t, m).calls
    requires t in s.calls ==> Step(c, s, t, m).calls[t] != s.calls[t]
    ensures match Step(c, s, t, m).calls[t]
            case Loading(_, now, from) => now == s.clock && from == s.time
            case Saving(lease, from, got) =>
              lease.issuedAt == s.clock && lease.expiresAt == s.clock + c.ttl && from == s.time && got == None
  {
  }

  lemma LoadedLease(c: Config, s: State, t: Tid)
    requires Inv(c, s) && Enabled(s, t, Get)
    ensures var s', p := Step(c, s, t, Get), s.calls[t];
            t in s'.calls ==>
              s'.calls[t].Saving? && s'.calls[t].from == p.from && s'.calls[t].got == Some(s.time)
              && s'.calls[t].lease.id in s'.items && s'.calls[t].lease.id == p.claims.leaseId
              && s'.calls[t].lease.issuedAt == p.now && s'.calls[t].lease.expiresAt == p.now + c.ttl
  {
  }

  /** What a pending call came with: a StartIssue whose input and id its lease has, or a StartReattach whose
      token was admitted for the claims it has, or for the lease it will save. */
  ghost predicate StartedWith(c: Config, states: seq<State>, moves: Moves, n: nat, t: Tid)
    requires |states| == |moves| + 1 && n <= |moves| && t in states[n].calls
  {
    var p := states[n].calls[t];
    p.from < n &&
    var m := moves[p.from].1;
    match p
    case Loading(claims, now, _) => m.StartReattach? && Admit(c, m.token, now) == Ok(claims)
    case Saving(lease, _, None) =>
      m.StartIssue? && lease.id == m.id && lease.viewerId == TrimSpace(m.input.viewerId)
      && lease.streamKey == TrimSpace(m.input.streamKey) && lease.issuedAt == states[p.from].clock
    case Saving(lease, _, Some(_)) =>
      m.StartReattach?
      && match Admit(c, m.token, lease.issuedAt)
         case Ok(claims) => claims.leaseId == lease.id && claims.streamKey == lease.streamKey && claims.viewerId == lease.viewerId
         case Err(_) => false
  }

  lemma {:induction false} CallsStartedWith(c: Config, states: seq<State>, moves: Moves, n: nat, t: Tid)
    requires IsRun(c, states, moves) && n <= |moves| && t in states[n].calls
    ensures StartedWith(c, states, moves, n, t)
  {
    if n > 0 {
      var last := n - 1;
      RunKeeps(c, states, moves, last);
      if t in states[last].calls && states[n].calls[t] == states[last].calls[t] {
        CallsStartedWith(c, states, moves, last, t);
      } else if moves[last].1.Get? {
        CallsStartedWith(c, states, moves, last, t);
        GetCarries(c, states[last], t);
      } else {
        StartCarries(c, states[last], t, moves[last].1);
      }
    }
  }

  lemma GetCarries(c: Config, s: State, t: Tid)
    requires Inv(c, s) && Enabled(s, t, Get) && t in Step(c, s, t, Get).calls
    ensures var (p, p') := (s.calls[t], Step(c, s, t, Get).calls[t]);
            && p'.Saving? && p'.got.Some? && p'.from == p.from && p'.lease.issuedAt == p.now
            && p'.lease.id == p.claims.leaseId && p'.lease.streamKey == p.claims.streamKey && p'.lease.viewerId == p.claims.viewerId
  {
  }

  lemma StartCarries(c: Config, s: State, t: Tid, m: Move)
    requires Enabled(s, t, m) && !m.Get? && t in Step(c, s, t, m).calls
    requires t in s.calls ==> Step(c, s, t, m).calls[t] != s.calls[t]
    ensures match Step(c, s, t, m).calls[t]
            case Loading(claims, now, from) => m.StartReattach? && from == s.time && now == s.clock && Admit(c, m.token, now) == Ok(claims)
            case Saving(lease, from, got) =>
              m.StartIssue? && got == None && from == s.time && lease.id == m.id && lease.issuedAt == s.clock
              && lease.viewerId == TrimSpace(m.input.viewerId) && lease.streamKey == TrimSpace(m.input.streamKey)
  {
  }

  /** A Reattach gets past its first check if and only if its token is admitted at its clock reading; an Issue
      always does. */
  lemma StartsExactly(c: Config, states: seq<State>, moves: Moves, n: nat)
    requires IsRun(c, states, moves) && n < |moves|
    ensures moves[n].1.StartReattach? ==>
              (moves[n].0 in states[n + 1].calls <==> Admit(c, moves[n].1.token, states[n].clock).Ok?)
    ensures moves[n].1.StartIssue? ==> moves[n].0 in states[n + 1].calls && Issuing(states[n + 1].calls[moves[n].0])
  {
  }

  /** The time that passes in some moves. */
  function Elapsed(moves: Moves, from: nat, to: nat): nat
    requires from <= to <= |moves|
  {
    if from == to then 0 else Elapsed(moves, from, to - 1) + if moves[to - 1].1.Tick? then moves[to - 1].1.elapsed else 0
  }

  lemma {:induction false} ClockTells(c: Config, states: seq<State>, moves: Moves, i: nat, j: nat)
    requires IsRun(c, states, moves) && i <= j <= |moves|
    ensures states[j].clock == states[i].clock + Elapsed(moves, i, j)
    decreases j
  {
    if i < j { ClockTells(c, states, moves, i, j - 1); }
  }

  lemma {:induction false} ClockRuns(c: Config, states: seq<State>, moves: Moves, i: nat, j: nat)
    requires IsRun(c, states, moves) && i <= j <= |moves|
    ensures states[i].clock <= states[j].clock
    decreases j
  {
    if i < j { ClockRuns(c, states, moves, i, j - 1); }
  }

  // ---- exactly which saves move an end back -----------------------------------------------

  /** The call that saves at `n` was overtaken: the call that saved the lease last began after it, at a
      later clock reading, and yet saved before it. */
  predicate Overtaken(states: seq<State>, moves: Moves, n: nat, id: string)
    requires |states| == |moves| + 1 && n < |moves| && SavesId(states[n], moves[n].0, moves[n].1, id)
  {
    var a := states[n].calls[moves[n].0].from;
    exists m | 0 <= m < n ::
      LastSave(states, moves, n, id, m)
      && var b := states[m].calls[moves[m].0].from;
         a < b < m && states[a].clock < states[b].clock
  }

  /** In every run a save moves the end of a saved lease back if and only if its call was overtaken. */
  lemma ShortensExactly(c: Config, states: seq<State>, moves: Moves, n: nat, id: string)
    requires IsRun(c, states, moves) && n < |moves| && SavesId(states[n], moves[n].0, moves[n].1, id) && id in states[n].latest
    ensures id in states[n + 1].latest
    ensures states[n + 1].latest[id].expiresAt < states[n].latest[id].expiresAt <==> Overtaken(states, moves, n, id)
  {
    LatestIsLastSaved(c, states, moves, n, id);
    CallsBegan(c, states, moves, n, moves[n].0);
    var a := states[n].calls[moves[n].0].from;
    forall m | 0 <= m < n && LastSave(states, moves, n, id, m)
      ensures var b := states[m].calls[moves[m].0].from;
              b < m && states[n].latest[id].expiresAt == states[b].clock + c.ttl && (states[a].clock < states[b].clock ==> a < b)
    {
      CallsBegan(c, states, moves, m, moves[m].0);
      var b := states[m].calls[moves[m].0].from;
      if b <= a { ClockRuns(c, states, moves, b, a); }
    }
  }

  /** So over a run in which no save of a lease was overtaken, its end never moves back. */
  lemma {:induction false} EndsOnlyGrow(c: Config, states: seq<State>, moves: Moves, i: nat, j: nat, id: string)
    requires IsRun(c, states, moves) && i <= j <= |moves| && id in states[i].latest
    requires forall n | i <= n < j && SavesId(states[n], moves[n].0, moves[n].1, id) :: !Overtaken(states, moves, n, id)
    ensures id in states[j].latest && states[j].latest[id].expiresAt >= states[i].latest[id].expiresAt
    decreases j
  {
    if i < j {
      EndsOnlyGrow(c, states, moves, i, j - 1, id);
      if SavesId(states[j - 1], moves[j - 1].0, moves[j - 1].1, id) { ShortensExactly(c, states, moves, j - 1, id); }
    }
  }

  // ---- exactly when a lease is stored, and when a removed one returns ---------------------

  /** Both operations of the store collect first. */
  predicate Accesses(m: Move) { m == Get || m == Save }

  lemma StepStores(c: Config, s: State, t: Tid, m: Move, id: string)
    requires Inv(c, s) && Enabled(s, t, m) && id in s.latest && !SavesId(s, t, m, id)
    ensures var s' := Step(c, s, t, m);
            id in s'.latest && s'.latest[id] == s.latest[id]
            && (id in s'.items <==> id in s.items && (Accesses(m) ==> s.clock <= s.latest[id].expiresAt))
  {
  }

  lemma SaveStores(c: Config, s: State, t: Tid, id: string)
    requires Inv(c, s) && Enabled(s, t, Save) && s.calls[t].lease.id == id
    ensures var s' := Step(c, s, t, Save);
            id in s'.latest && s'.latest[id] == s.calls[t].lease && (id in s'.items <==> s.clock <= s.calls[t].lease.expiresAt)
  {
  }

  /** No access of the store from `m` on came after the end. */
  predicate Undisturbed(states: seq<State>, moves: Moves, m: nat, n: nat, end: int)
    requires |states| == |moves| + 1 && n <= |moves|
  {
    forall x | m <= x < n && Accesses(moves[x].1) :: states[x].clock <= end
  }

  /** In every run a lease is in the store if and only if no access of the store, from its last save on,
      came after its end. */
  lemma {:induction false} StoredExactly(c: Config, states: seq<State>, moves: Moves, n: nat, id: string, m: nat)
    requires IsRun(c, states, moves) && n <= |moves| && m < n && LastSave(states, moves, n, id, m)
    ensures id in states[n].latest
    ensures id in states[n].items <==> Undisturbed(states, moves, m, n, states[n].latest[id].expiresAt)
  {
    var last := n - 1;
    RunKeeps(c, states, moves, last);
    if m == last {
      SaveStores(c, states[last], moves[last].0, id);
    } else {
      StoredExactly(c, states, moves, last, id, m);
      StepStores(c, states[last], moves[last].0, moves[last].1, id);
      assert Undisturbed(states, moves, m, n, states[n].latest[id].expiresAt) <==>
               Undisturbed(states, moves, m, last, states[n].latest[id].expiresAt)
               && (Accesses(moves[last].1) ==> states[last].clock <= states[n].latest[id].expiresAt);
    }
  }

  /** A renewal brings a removed lease back if and only if, between its Get and its Save, some other call's
      access of the store came after the lease's end, and its own new end is not yet over: a lease that
      others have been told is missing. */
  lemma ReturnsExactly(c: Config, states: seq<State>, moves: Moves, n: nat, id: string, m: nat)
    requires IsRun(c, states, moves) && n < |moves| && SavesId(states[n], moves[n].0, moves[n].1, id)
    requires states[n].calls[moves[n].0].got.Some? && m < n && LastSave(states, moves, n, id, m)
    ensures id in states[n].latest
    ensures (id !in states[n].items && id in states[n + 1].items) <==>
              var p := states[n].calls[moves[n].0];
              && states[n].clock <= p.lease.expiresAt
              && exists x | m <= x < n :: p.got.value < x && Accesses(moves[x].1) && states[x].clock > states[n].latest[id].expiresAt
  {
    RunKeeps(c, states, moves, n);
    var p := states[n].calls[moves[n].0];
    StoredExactly(c, states, moves, n, id, m);
    SaveStores(c, states[n], moves[n].0, id);
    CallsBegan(c, states, moves, n, moves[n].0);
    var g := p.got.value;
    if m <= g { StoredAtGet(c, states, moves, n, id, m, g); }
  }

  /** What the call's Get found was not past its end at any access up to then. */
  lemma StoredAtGet(c: Config, states: seq<State>, moves: Moves, n: nat, id: string, m: nat, g: nat)
    requires IsRun(c, states, moves) && m <= g < n <= |moves| && LastSave(states, moves, n, id, m) && id in states[g + 1].items
    ensures id in states[n].latest && Undisturbed(states, moves, m, g + 1, states[n].latest[id].expiresAt)
  {
    StoredExactly(c, states, moves, g + 1, id, m);
    StoredExactly(c, states, moves, n, id, m);
    LatestIsLastSaved(c, states, moves, g + 1, id);
    LatestIsLastSaved(c, states, moves, n, id);
  }

  // ---- when a token is good --------------------------------------------------------------

  /** A Get gives its call a renewal if and only if the token is for this stream and viewer and no access
      of the store since the lease's last save, this Get included, came after the lease's end. */
  lemma RenewalGrantedExactly(c: Config, states: seq<State>, moves: Moves, n: nat, m: nat)
    requires Configured(c) && IsRun(c, states, moves) && n < |moves| && moves[n].1 == Get && m < n
    requires LastSave(states, moves, n, states[n].calls[moves[n].0].claims.leaseId, m)
    ensures var (s, t) := (states[n], moves[n].0);
            var claims := s.calls[t].claims;
            && claims.leaseId in s.latest
            && var lease := s.latest[claims.leaseId];
               t in states[n + 1].calls <==>
                 lease.streamKey == claims.streamKey && lease.viewerId == claims.viewerId
                 && Undisturbed(states, moves, m, n + 1, lease.expiresAt)
  {
    RunKeeps(c, states, moves, n);
    var s, t := states[n], moves[n].0;
    assert CallOk(c, s, s.calls[t]);
    var id := s.calls[t].claims.leaseId;
    StoredExactly(c, states, moves, n, id, m);
    assert Undisturbed(states, moves, m, n + 1, s.latest[id].expiresAt) <==>
             Undisturbed(states, moves, m, n, s.latest[id].expiresAt) && s.clock <= s.latest[id].expiresAt;
  }

  lemma CheckLatest(c: Config, s: State, id: string, now: int, get: int)
    requires Configured(c) && Sound(c.codec) && StoreOk(c, s) && id in s.latest && s.clock <= now <= get
    ensures var lease := s.latest[id];
            Check(c, s.items, TokenOf(c, lease), now, get) ==
              if lease.streamKey == "" then Err(InvalidToken)
              else if now > Unix(lease.expiresAt) * SECOND + c.skew then Err(LeaseExpired)
              else if get > lease.expiresAt then Err(LeaseMissing)
              else Ok(lease.(issuedAt := now, expiresAt := now + c.ttl))
  {
    var lease := s.latest[id];
    ParseUndoesSign(c.codec, ClaimsOf(lease));
    UnixWithin(lease.issuedAt);
  }

  /** In every state that overlapping calls can reach, a Reattach with the latest token of a lease, its two
      parts meeting no other call, is granted exactly while the claims' whole second plus the skew is not
      over at its first clock reading and the lease is not over at the store's; and never when the lease
      was issued with a blank stream key. */
  lemma LatestTokenAccepted(c: Config, states: seq<State>, moves: Moves, n: nat, id: string, now: int, get: int)
    requires Configured(c) && Sound(c.codec) && IsRun(c, states, moves) && n <= |moves| && id in states[n].latest
    requires states[n].clock <= now <= get
    ensures var lease := states[n].latest[id];
            Check(c, states[n].items, TokenOf(c, lease), now, get).Ok? <==>
              lease.streamKey != "" && now <= Unix(lease.expiresAt) * SECOND + c.skew && get <= lease.expiresAt
  {
    RunKeeps(c, states, moves, n);
    CheckLatest(c, states[n], id, now, get);
  }

  /** With a skew of a second or more, and one clock reading a call, that is exactly up to the lease's
      end, in spite of the truncated claims. */
  lemma AcceptedUpToTheEnd(c: Config, states: seq<State>, moves: Moves, n: nat, id: string, now: int)
    requires Configured(c) && Sound(c.codec) && c.skew >= SECOND && IsRun(c, states, moves) && n <= |moves|
    requires id in states[n].latest && states[n].latest[id].streamKey != "" && states[n].clock <= now
    ensures var lease := states[n].latest[id];
            Check(c, states[n].items, TokenOf(c, lease), now, now).Ok? <==> now <= lease.expiresAt
  {
    LatestTokenAccepted(c, states, moves, n, id, now, now);
    UnixWithin(states[n].latest[id].expiresAt);
  }

  /** A skew below a second can cost the end of the lease: the latest token is good up to the end
      exactly when the skew covers what truncation takes off. */
  lemma SkewNeeded(c: Config, states: seq<State>, moves: Moves, n: nat, id: string)
    requires Configured(c) && Sound(c.codec) && IsRun(c, states, moves) && n <= |moves|
    requires id in states[n].latest && states[n].latest[id].streamKey != "" && states[n].clock <= states[n].latest[id].expiresAt
    ensures var lease := states[n].latest[id];
            (forall now | states[n].clock <= now <= lease.expiresAt ::
               Check(c, states[n].items, TokenOf(c, lease), now, now).Ok?)
            <==> lease.expiresAt % SECOND <= c.skew
  {
    var lease := states[n].latest[id];
    var token := TokenOf(c, lease);
    assert lease.expiresAt == Unix(lease.expiresAt) * SECOND + lease.expiresAt % SECOND;
    forall now | states[n].clock <= now <= lease.expiresAt
      ensures Check(c, states[n].items, token, now, now).Ok? <==> now <= Unix(lease.expiresAt) * SECOND + c.skew
    {
      LatestTokenAccepted(c, states, moves, n, id, now, now);
    }
    assert Check(c, states[n].items, token, lease.expiresAt, lease.expiresAt).Ok? <==> lease.expiresAt % SECOND <= c.skew;
  }

  /** What a save leaves: its lease is the latest, with a full lifetime from its call's clock reading, and
      stored unless that is over; and it is the lease it renews. */
  lemma RenewalIsLatest(c: Config, states: seq<State>, moves: Moves, n: nat, id: string)
    requires IsRun(c, states, moves) && n < |moves| && SavesId(states[n], moves[n].0, moves[n].1, id)
    ensures var (p, s') := (states[n].calls[moves[n].0], states[n + 1]);
            && id in s'.latest && s'.latest[id] == p.lease && p.from < n
            && p.lease.expiresAt == states[p.from].clock + c.ttl
            && (id in s'.items <==> states[n].clock <= p.lease.expiresAt)
            && (p.got.Some? ==> id in states[n].latest && Identity(p.lease) == Identity(states[n].latest[id]))
  {
    RunKeeps(c, states, moves, n);
    CallsBegan(c, states, moves, n, moves[n].0);
    SaveStores(c, states[n], moves[n].0, id);
    assert CallOk(c, states[n], states[n].calls[moves[n].0]);
  }

  // ---- runs in which it goes wrong --------------------------------------------------------

  lemma Extend(c: Config, states: seq<State>, moves: Moves, t: Tid, m: Move) returns (states': seq<State>, moves': Moves)
    requires IsRun(c, states, moves) && Enabled(states[|moves|], t, m)
    ensures IsRun(c, states', moves') && moves' == moves + [(t, m)] && |moves'| == |moves| + 1
    ensures states'[|moves'|] == Step(c, states[|moves|], t, m) && states <= states'
  {
    states', moves' := states + [Step(c, states[|moves|], t, m)], moves + [(t, m)];
  }

  const INPUT := LeaseInput("s", "", "", "", "", "", "", "", "")

  /** One lease, just issued at time 0, and no call under way. */
  predicate Issued(c: Config, s: State) {
    && s.clock == 0 && s.calls == map[] && s.items.Keys == {"l"} && s.latest == s.items
    && var lease := s.items["l"]; lease.id == "l" && lease.streamKey == "s" && lease.issuedAt == 0 && lease.expiresAt == c.ttl
  }

  lemma IssueOne(c: Config) returns (states: seq<State>, moves: Moves)
    requires Configured(c)
    ensures IsRun(c, states, moves) && Issued(c, states[|moves|])
  {
    states, moves := [Start(0)], [];
    states, moves := Extend(c, states, moves, 0, StartIssue(INPUT, "l"));
    states, moves := Extend(c, states, moves, 0, Save);
    assert TrimSpace("s") == "s";
  }

  /** The claims of the issued lease's token pass from time 0 up to its truncated end plus the skew. */
  lemma TokenPasses(c: Config, lease: Lease, now: int)
    requires Configured(c) && Sound(c.codec) && lease.id == "l" && lease.streamKey == "s"
    requires lease.issuedAt == 0 && 0 <= now <= Unix(lease.expiresAt) * SECOND + c.skew
    ensures Admit(c, TokenOf(c, lease), now) == Ok(ClaimsOf(lease))
  {
    ParseUndoesSign(c.codec, ClaimsOf(lease));
  }

  /** Two renewals overlap and the one that read the clock first saves last: the end moves back. */
  lemma OverlapShortens(c: Config) returns (states: seq<State>, moves: Moves)
    requires Configured(c) && Sound(c.codec) && c.ttl >= SECOND
    ensures IsRun(c, states, moves) && moves != []
    ensures var n := |moves| - 1;
            && "l" in states[n].latest && "l" in states[n + 1].latest
            && states[n + 1].latest["l"].expiresAt < states[n].latest["l"].expiresAt
  {
    states, moves := LoadOne(c, 0);
    var lease := states[|moves|].items["l"];
    TokenPasses(c, lease, 1);
    states, moves := Extend(c, states, moves, 0, Tick(1));
    states, moves := Extend(c, states, moves, 2, StartReattach(TokenOf(c, lease)));
    states, moves := Extend(c, states, moves, 2, Get);
    states, moves := Extend(c, states, moves, 2, Save);
    states, moves := Extend(c, states, moves, 1, Save);
  }

  /** The issued lease, and call 1 past its Get with a renewal that starts at `now`. */
  predicate Loaded(c: Config, s: State, now: nat) {
    && s.clock == now && s.items.Keys == {"l"} && s.latest == s.items && s.calls.Keys == {1}
    && var lease := s.items["l"];
    && lease.id == "l" && lease.streamKey == "s" && lease.issuedAt == 0 && lease.expiresAt == c.ttl
    && s.calls[1].Saving? && s.calls[1].lease == lease.(issuedAt := now, expiresAt := now + c.ttl)
  }

  lemma LoadOne(c: Config, now: nat) returns (states: seq<State>, moves: Moves)
    requires Configured(c) && Sound(c.codec) && now <= Unix(c.ttl) * SECOND + c.skew && now <= c.ttl
    ensures IsRun(c, states, moves) && Loaded(c, states[|moves|], now)
  {
    states, moves := IssueOne(c);
    var lease := states[|moves|].items["l"];
    TokenPasses(c, lease, now);
    states, moves := Extend(c, states, moves, 0, Tick(now));
    states, moves := Extend(c, states, moves, 1, StartReattach(TokenOf(c, lease)));
    states, moves := Extend(c, states, moves, 1, Get);
  }

  /** One renewal does Get before the end and Save after another call was told the lease is missing: the
      lease is back. */
  lemma RemovedLeaseReturns(c: Config) returns (states: seq<State>, moves: Moves, told: nat)
    requires Configured(c) && Sound(c.codec) && c.skew >= SECOND
    ensures IsRun(c, states, moves) && told < |moves| && moves[told] == (2, Get)
    ensures var s := states[told]; Load(c, Collected(s.items, s.clock), s.calls[2].claims, s.calls[2].now) == Err(LeaseMissing)
    ensures "l" !in states[told + 1].items && "l" in states[|moves|].items
  {
    UnixWithin(c.ttl);
    states, moves := LoadOne(c, 1);
    var lease := states[|moves|].items["l"];
    TokenPasses(c, lease, c.ttl + 1);
    states, moves := Extend(c, states, moves, 0, Tick(c.ttl));
    states, moves := Extend(c, states, moves, 2, StartReattach(TokenOf(c, lease)));
    told := |moves|;
    states, moves := Extend(c, states, moves, 2, Get);
    states, moves := Extend(c, states, moves, 1, Save);
  }

  /** With a skew below what truncation takes off the lifetime, the first lease issued is refused at its own
      end, while it is still stored. */
  lemma ShortSkewCutsALease(c: Config) returns (states: seq<State>, moves: Moves)
    requires Configured(c) && Sound(c.codec) && c.skew < c.ttl % SECOND
    ensures IsRun(c, states, moves) && "l" in states[|moves|].items && states[|moves|].clock <= c.ttl
    ensures var s := states[|moves|]; var lease := s.items["l"];
            lease.expiresAt == c.ttl && Check(c, s.items, TokenOf(c, lease), c.ttl, c.ttl) == Err(LeaseExpired)
  {
    states, moves := IssueOne(c);
    RunKeeps(c, states, moves, |moves|);
    CheckLatest(c, states[|moves|], "l", c.ttl, c.ttl);
    assert c.ttl == Unix(c.ttl) * SECOND + c.ttl % SECOND;
  }
}
