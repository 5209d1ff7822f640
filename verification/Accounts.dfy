/** Users and issued sessions: internal/auth/store.go, with Login, ValidateToken, Logout and DeleteUser of
    internal/auth/service.go. */
module Accounts {
  import opened Options

  type Id = string

  datatype User = User(id: Id, name: string, active: bool)
  datatype Session = Session(user: Id, expiresAt: int, invalidated: bool)

  /** `issued` remembers every id handed out, so that fresh ids can be spoken of. */
  datatype State = State(now: int, users: map<string, User>, byId: map<Id, User>, tokens: map<Id, Session>, issued: set<Id>)

  const Start := State(0, map[], map[], map[], {})

  datatype Verdict = Accepted(user: User) | Invalid | Expired

  /** ValidateToken, after the signature check has yielded a token id. */
  function Validate(s: State, tokenId: Id): Verdict {
    if tokenId !in s.tokens || s.tokens[tokenId].invalidated then Invalid
    else if s.now > s.tokens[tokenId].expiresAt then Expired
    else if s.tokens[tokenId].user !in s.byId || !s.byId[s.tokens[tokenId].user].active then Invalid
    else Accepted(s.byId[s.tokens[tokenId].user])
  }

  function AddUser(s: State, u: User): State {
    if u.name in s.users then s.(issued := s.issued + {u.id})
    else s.(users := s.users[u.name := u], byId := s.byId[u.id := u], issued := s.issued + {u.id})
  }

  function DeleteUser(s: State, id: Id): State {
    if id !in s.byId then s else s.(byId := s.byId - {id}, users := s.users - {s.byId[id].name})
  }

  function Invalidate(s: State, tokenId: Id): State {
    if tokenId !in s.tokens then s
    else s.(tokens := s.tokens[tokenId := s.tokens[tokenId].(invalidated := true)])
  }

  datatype Op =
    | Tick(elapsed: nat)
    | Create(u: User)
    | Login(name: string, passwordOk: bool, tokenId: Id, ttl: nat)
    | Logout(tokenId: Id)
    | Delete(user: Id)

  /** Ids come from a generator that never repeats one; an id drawn for nothing stays unused. */
  predicate Fresh(s: State, op: Op) {
    && (op.Create? ==> op.u.id !in s.issued)
    && (op.Login? ==> op.tokenId !in s.issued)
  }

  predicate LoginSucceeds(s: State, op: Op) {
    op.Login? && op.name in s.users && op.passwordOk && s.users[op.name].active
  }

  function Step(s: State, op: Op): State {
    match op
    case Tick(d) => s.(now := s.now + d)
    case Create(u) => AddUser(s, u)
    case Login(name, passwordOk, tokenId, ttl) =>
      if LoginSucceeds(s, op) then
        s.(tokens := s.tokens[tokenId := Session(s.users[name].id, s.now + ttl, false)], issued := s.issued + {tokenId})
      else s.(issued := s.issued + {tokenId})
    case Logout(tokenId) => Invalidate(s, tokenId)
    case Delete(user) => DeleteUser(s, user)
  }

  predicate IsRun(states: seq<State>, ops: seq<Op>) {
    && |states| == |ops| + 1 && states[0] == Start
    && forall i | 0 <= i < |ops| :: Fresh(states[i], ops[i]) && states[i + 1] == Step(states[i], ops[i])
  }

  // ---- the two indexes -------------------------------------------------------------------

  /** Each index leads to a user the other leads back to. */
  predicate Inverse(s: State) {
    && (forall n <- s.users :: s.users[n].name == n && s.users[n].id in s.byId && s.byId[s.users[n].id] == s.users[n])
    && (forall id <- s.byId :: s.byId[id].id == id && s.byId[id].name in s.users && s.users[s.byId[id].name] == s.byId[id])
  }

  /** Adding keeps the indexes inverse if and only if the name is taken (nothing is added) or the id is
      not in use. */
  lemma AddKeepsInverse(s: State, u: User)
    requires Inverse(s)
    ensures Inverse(AddUser(s, u)) <==> u.name in s.users || u.id !in s.byId
  {
    var s' := AddUser(s, u);
    if u.name !in s.users && u.id in s.byId {
      assert s.byId[u.id].name in s'.users && s'.byId[u.id] == u;
    }
  }

  predicate Known(s: State) {
    s.byId.Keys <= s.issued && s.tokens.Keys <= s.issued && forall t <- s.tokens :: s.tokens[t].user in s.issued
  }

  lemma StepKeeps(s: State, op: Op)
    requires Inverse(s) && Known(s) && Fresh(s, op)
    ensures Inverse(Step(s, op)) && Known(Step(s, op))
  {
  }

  /** In every run the two user indexes are mutually inverse. */
  lemma {:induction false} IndexesAgree(states: seq<State>, ops: seq<Op>, i: nat)
    requires IsRun(states, ops) && i <= |ops|
    ensures Inverse(states[i]) && Known(states[i])
  {
    if i > 0 {
      IndexesAgree(states, ops, i - 1);
      StepKeeps(states[i - 1], ops[i - 1]);
    }
  }

  // ---- rejection is permanent ------------------------------------------------------------

  /** A session issued and no longer good: logged out, past its time, or without its user. */
  predicate Dead(s: State, tokenId: Id) {
    tokenId in s.tokens
    && var t := s.tokens[tokenId];
       t.invalidated || s.now > t.expiresAt || t.user !in s.byId
  }

  lemma StaysDead(s: State, op: Op, tokenId: Id)
    requires Inverse(s) && Known(s) && Fresh(s, op) && Dead(s, tokenId)
    ensures Dead(Step(s, op), tokenId)
  {
  }

  lemma {:induction false} RejectionIsPermanent(states: seq<State>, ops: seq<Op>, i: nat, j: nat, tokenId: Id)
    requires IsRun(states, ops) && i <= j <= |ops| && Dead(states[i], tokenId)
    ensures Dead(states[j], tokenId) && !Validate(states[j], tokenId).Accepted?
    decreases j
  {
    if i < j {
      RejectionIsPermanent(states, ops, i, j - 1, tokenId);
      IndexesAgree(states, ops, j - 1);
      StaysDead(states[j - 1], ops[j - 1], tokenId);
    }
  }

  /** What kills: after a logout, a deletion of its user, or more than its lifetime, an issued session is
      rejected at once and in every later state of the run. */
  lemma RevocationIsPermanent(states: seq<State>, ops: seq<Op>, i: nat, j: nat, tokenId: Id)
    requires IsRun(states, ops) && i < j <= |ops| && tokenId in states[i].tokens
    requires var t := states[i].tokens[tokenId];
             ops[i] == Logout(tokenId) || ops[i] == Delete(t.user) || (ops[i].Tick? && states[i].now + ops[i].elapsed > t.expiresAt)
    ensures !Validate(states[j], tokenId).Accepted?
  {
    assert states[i + 1] == Step(states[i], ops[i]);
    RejectionIsPermanent(states, ops, i + 1, j, tokenId);
  }

  // ---- a session's whole life ------------------------------------------------------------

  /** Between two points of a run the session was not logged out and its user not deleted. */
  predicate LeftAlone(ops: seq<Op>, from: nat, to: nat, tokenId: Id, user: Id) {
    forall k | from <= k < to && k < |ops| :: ops[k] != Logout(tokenId) && ops[k] != Delete(user)
  }

  /** What is left of a login of `u` made at operation `i`. */
  predicate Tracks(s: State, ops: seq<Op>, i: nat, j: nat, tokenId: Id, u: User, end: int) {
    && tokenId in s.issued && u.id in s.issued
    && tokenId in s.tokens && s.tokens[tokenId].user == u.id && s.tokens[tokenId].expiresAt == end
    && (LeftAlone(ops, i + 1, j, tokenId, u.id) <==> !s.tokens[tokenId].invalidated && u.id in s.byId)
    && (u.id in s.byId ==> s.byId[u.id] == u)
  }

  lemma TracksOn(s: State, ops: seq<Op>, i: nat, j: nat, tokenId: Id, u: User, end: int)
    requires i < j < |ops| && Fresh(s, ops[j]) && Inverse(s) && Tracks(s, ops, i, j, tokenId, u, end)
    ensures Tracks(Step(s, ops[j]), ops, i, j + 1, tokenId, u, end)
  {
    assert LeftAlone(ops, i + 1, j + 1, tokenId, u.id) <==>
             LeftAlone(ops, i + 1, j, tokenId, u.id) && ops[j] != Logout(tokenId) && ops[j] != Delete(u.id);
  }

  lemma {:induction false} TracksAlong(states: seq<State>, ops: seq<Op>, i: nat, j: nat)
    requires IsRun(states, ops) && i < j <= |ops| && LoginSucceeds(states[i], ops[i])
    ensures Tracks(states[j], ops, i, j, ops[i].tokenId, states[i].users[ops[i].name], states[i].now + ops[i].ttl)
  {
    IndexesAgree(states, ops, j - 1);
    assert states[j] == Step(states[j - 1], ops[j - 1]);
    if j > i + 1 {
      TracksAlong(states, ops, i, j - 1);
      TracksOn(states[j - 1], ops, i, j - 1, ops[i].tokenId, states[i].users[ops[i].name], states[i].now + ops[i].ttl);
    }
  }

  lemma {:induction false} NeverIssued(states: seq<State>, ops: seq<Op>, i: nat, j: nat)
    requires IsRun(states, ops) && i < j <= |ops| && ops[i].Login? && !LoginSucceeds(states[i], ops[i])
    ensures ops[i].tokenId in states[j].issued && ops[i].tokenId !in states[j].tokens
  {
    IndexesAgree(states, ops, j - 1);
    assert states[j] == Step(states[j - 1], ops[j - 1]);
    if j > i + 1 { NeverIssued(states, ops, i, j - 1); }
  }

  // ---- by the operations alone ------------------------------------------------------------

  /** Who holds a name after `n` operations: whoever was created under it while it was free and has not been
      deleted since. */
  function Holder(ops: seq<Op>, n: nat, name: string): Option<User>
    requires n <= |ops|
  {
    if n == 0 then None
    else
      var before, op := Holder(ops, n - 1, name), ops[n - 1];
      if op.Create? && op.u.name == name && before.None? then Some(op.u)
      else if op.Delete? && before.Some? && before.value.id == op.user then None
      else before
  }

  /** Operation `c` created the user under a free name, and it was not deleted up to `n`. */
  predicate CreatedAt(ops: seq<Op>, c: nat, n: nat, u: User) {
    c < n <= |ops| && ops[c] == Create(u) && Holder(ops, c, u.name).None? && forall k | c < k < n :: ops[k] != Delete(u.id)
  }

  lemma {:induction false} HolderByPositions(ops: seq<Op>, n: nat, name: string, u: User)
    requires n <= |ops|
    ensures Holder(ops, n, name) == Some(u) <==> u.name == name && exists c :: CreatedAt(ops, c, n, u)
  {
    if n > 0 {
      var m := n - 1;
      HolderByPositions(ops, m, name, u);
      if Holder(ops, n, name) == Some(u) {
        if Holder(ops, m, name) == Some(u) {
          var c :| CreatedAt(ops, c, m, u);
          assert CreatedAt(ops, c, n, u);
        } else {
          assert CreatedAt(ops, m, n, u);
        }
      }
      if u.name == name && exists c :: CreatedAt(ops, c, n, u) {
        var c :| CreatedAt(ops, c, n, u);
        assert ops[m] != Delete(u.id) || c == m;
        assert c == m || CreatedAt(ops, c, m, u);
      }
    }
  }

  /** In every run the name index leads to exactly the holders. */
  lemma {:induction false} NamesHeldExactly(states: seq<State>, ops: seq<Op>, n: nat, name: string)
    requires IsRun(states, ops) && n <= |ops|
    ensures (if name in states[n].users then Some(states[n].users[name]) else None) == Holder(ops, n, name)
  {
    if n > 0 {
      NamesHeldExactly(states, ops, n - 1, name);
      IndexesAgree(states, ops, n - 1);
    }
  }

  /** After a Create, both indexes hold exactly that user if and only if the name was free and the user was not
      deleted since. */
  lemma {:induction false} CreatedExactly(states: seq<State>, ops: seq<Op>, i: nat, j: nat)
    requires IsRun(states, ops) && i < j <= |ops| && ops[i].Create?
    ensures var (s, u) := (states[j], ops[i].u);
            && u.id in s.issued && (u.id in s.byId <==> CreatedAt(ops, i, j, u)) && (u.id in s.byId ==> s.byId[u.id] == u)
            && (u.name in s.users && s.users[u.name] == u && u.id in s.byId && s.byId[u.id] == u <==> CreatedAt(ops, i, j, u))
  {
    IndexesAgree(states, ops, j - 1);
    IndexesAgree(states, ops, j);
    NamesHeldExactly(states, ops, i, ops[i].u.name);
    if j > i + 1 {
      CreatedExactly(states, ops, i, j - 1);
      CreatedOn(states[j - 1], ops, i, j - 1);
    }
  }

  lemma CreatedOn(s: State, ops: seq<Op>, i: nat, j: nat)
    requires i < j < |ops| && ops[i].Create? && Fresh(s, ops[j]) && Inverse(s)
    requires var u := ops[i].u;
             u.id in s.issued && (u.id in s.byId <==> CreatedAt(ops, i, j, u)) && (u.id in s.byId ==> s.byId[u.id] == u)
    ensures var (s', u) := (Step(s, ops[j]), ops[i].u);
            u.id in s'.issued && (u.id in s'.byId <==> CreatedAt(ops, i, j + 1, u)) && (u.id in s'.byId ==> s'.byId[u.id] == u)
  {
    var u := ops[i].u;
    assert CreatedAt(ops, i, j + 1, u) <==> CreatedAt(ops, i, j, u) && ops[j] != Delete(u.id);
  }

  /** The time that passes from one operation to another. */
  function Elapsed(ops: seq<Op>, from: nat, to: nat): nat
    requires from <= to <= |ops|
  {
    if from == to then 0 else Elapsed(ops, from, to - 1) + if ops[to - 1].Tick? then ops[to - 1].elapsed else 0
  }

  lemma {:induction false} ClockTells(states: seq<State>, ops: seq<Op>, i: nat, j: nat)
    requires IsRun(states, ops) && i <= j <= |ops|
    ensures states[j].now == states[i].now + Elapsed(ops, i, j)
    decreases j
  {
    if i < j { ClockTells(states, ops, i, j - 1); }
  }

  /** The login at `i` is by the user created at `c`: active, still there, and with the right password. */
  predicate LogsIn(ops: seq<Op>, c: nat, i: nat)
    requires i < |ops| && ops[i].Login?
  {
    c < i && ops[c].Create? && ops[c].u.name == ops[i].name && CreatedAt(ops, c, i, ops[c].u) && ops[c].u.active && ops[i].passwordOk
  }

  predicate NotLoggedOut(ops: seq<Op>, i: nat, j: nat, tokenId: Id) { forall k | i < k < j && k < |ops| :: ops[k] != Logout(tokenId) }

  predicate NotDeleted(ops: seq<Op>, i: nat, j: nat, id: Id) { forall k | i < k < j && k < |ops| :: ops[k] != Delete(id) }

  lemma LoginByPositions(states: seq<State>, ops: seq<Op>, i: nat)
    requires IsRun(states, ops) && i < |ops| && ops[i].Login?
    ensures LoginSucceeds(states[i], ops[i]) <==> exists c :: LogsIn(ops, c, i)
    ensures forall c: nat | LogsIn(ops, c, i) :: ops[i].name in states[i].users && states[i].users[ops[i].name] == ops[c].u
  {
    NamesHeldExactly(states, ops, i, ops[i].name);
    if LoginSucceeds(states[i], ops[i]) {
      var u := states[i].users[ops[i].name];
      HolderByPositions(ops, i, ops[i].name, u);
      var c :| CreatedAt(ops, c, i, u);
      assert LogsIn(ops, c, i);
    }
    forall c: nat | LogsIn(ops, c, i) ensures Holder(ops, i, ops[i].name) == Some(ops[c].u) {
      HolderByPositions(ops, i, ops[i].name, ops[c].u);
    }
  }

  /** From login to any later state of any run, told by the operations alone: a token is accepted, for its
      user, if and only if that user was created under the name while it was free, is active, logged in with
      the right password, was not deleted since its creation, the token was not logged out, and no more than
      its lifetime has passed. It is refused as expired if and only if that login succeeded, the token was
      not logged out, and more has passed; and as invalid otherwise. */
  lemma AcceptedExactlyWhile(states: seq<State>, ops: seq<Op>, i: nat, j: nat)
    requires IsRun(states, ops) && i < j <= |ops| && ops[i].Login?
    ensures var (op, v) := (ops[i], Validate(states[j], ops[i].tokenId));
            && (v.Accepted? <==>
                  exists c | 0 <= c < i ::
                    LogsIn(ops, c, i) && NotDeleted(ops, c, j, ops[c].u.id) && NotLoggedOut(ops, i, j, op.tokenId)
                    && Elapsed(ops, i, j) <= op.ttl && v == Accepted(ops[c].u))
            && (v.Expired? <==>
                  (exists c | 0 <= c < i :: LogsIn(ops, c, i)) && NotLoggedOut(ops, i, j, op.tokenId) && Elapsed(ops, i, j) > op.ttl)
  {
    LoginByPositions(states, ops, i);
    if LoginSucceeds(states[i], ops[i]) {
      forall c: nat | LogsIn(ops, c, i) ensures Validate(states[j], ops[i].tokenId) == Owed(ops, c, i, j) {
        VerdictOwed(states, ops, c, i, j);
      }
      var c: nat :| LogsIn(ops, c, i);
    } else {
      NeverIssued(states, ops, i, j);
    }
  }

  /** The verdict on a token after its login at `i` by the user created at `c`. */
  function Owed(ops: seq<Op>, c: nat, i: nat, j: nat): Verdict
    requires c < i < j <= |ops| && ops[c].Create? && ops[i].Login?
  {
    if !NotLoggedOut(ops, i, j, ops[i].tokenId) then Invalid
    else if Elapsed(ops, i, j) > ops[i].ttl then Expired
    else if !NotDeleted(ops, c, j, ops[c].u.id) then Invalid
    else Accepted(ops[c].u)
  }

  lemma VerdictOwed(states: seq<State>, ops: seq<Op>, c: nat, i: nat, j: nat)
    requires IsRun(states, ops) && i < j <= |ops| && ops[i].Login? && LogsIn(ops, c, i) && LoginSucceeds(states[i], ops[i])
    ensures Validate(states[j], ops[i].tokenId) == Owed(ops, c, i, j)
  {
    var u, t := ops[c].u, ops[i].tokenId;
    ClockTells(states, ops, i, j);
    LoginByPositions(states, ops, i);
    TracksAlong(states, ops, i, j);
    LoggedOutExactly(states, ops, i, j);
    CreatedExactly(states, ops, c, j);
    assert CreatedAt(ops, c, j, u) <==> NotDeleted(ops, c, j, u.id);
  }

  lemma {:induction false} LoggedOutExactly(states: seq<State>, ops: seq<Op>, i: nat, j: nat)
    requires IsRun(states, ops) && i < j <= |ops| && LoginSucceeds(states[i], ops[i])
    ensures var t := ops[i].tokenId;
            t in states[j].issued && t in states[j].tokens && (states[j].tokens[t].invalidated <==> !NotLoggedOut(ops, i, j, t))
  {
    assert states[j] == Step(states[j - 1], ops[j - 1]);
    if j > i + 1 {
      LoggedOutExactly(states, ops, i, j - 1);
      var t := ops[i].tokenId;
      assert NotLoggedOut(ops, i, j, t) <==> NotLoggedOut(ops, i, j - 1, t) && ops[j - 1] != Logout(t);
    }
  }
}
