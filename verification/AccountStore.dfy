/** The store of internal/auth/store.go as objects: tables updated in place, sessions marked in place. */
module AccountStore {
  import opened Accounts

  /** A session record, marked in place on logout. */
  class SessionToken {
    const user: Id
    const expiresAt: int
    var invalidatedAt: int
    var invalidated: bool

    constructor (user: Id, expiresAt: int)
      ensures this.user == user && this.expiresAt == expiresAt && !invalidated
    {
      this.user, this.expiresAt := user, expiresAt;
      invalidatedAt, invalidated := 0, false;
    }
  }

  class Store {
    var users: map<string, User>
    var byId: map<Id, User>
    var tokens: map<Id, SessionToken>

    /** The store shows a state's tables; no two token ids share a record. */
    ghost predicate Shows(s: State) reads this, tokens.Values {
      && users == s.users && byId == s.byId && tokens.Keys == s.tokens.Keys
      && (forall t <- tokens :: s.tokens[t] == Session(tokens[t].user, tokens[t].expiresAt, tokens[t].invalidated))
      && (forall t <- tokens, o <- tokens | tokens[t] == tokens[o] :: t == o)
    }

    constructor ()
      ensures Shows(Start)
    {
      users, byId, tokens := map[], map[], map[];
    }

    method AddUser(u: User, ghost s: State) returns (ok: bool)
      requires Shows(s)
      modifies this
      ensures ok <==> u.name !in old(users)
      ensures ok ==> users == old(users)[u.name := u] && byId == old(byId)[u.id := u] && tokens == old(tokens)
      ensures !ok ==> users == old(users) && byId == old(byId) && tokens == old(tokens)
      ensures Shows(Accounts.AddUser(s, u))
    {
      if u.name in users {
        return false;
      }
      users := users[u.name := u];
      byId := byId[u.id := u];
      ok := true;
    }

    method DeleteUser(id: Id, ghost s: State) returns (ok: bool)
      requires Shows(s)
      modifies this
      ensures ok <==> id in old(byId)
      ensures ok ==> byId == old(byId) - {id} && users == old(users) - {old(byId)[id].name}
      ensures !ok ==> users == old(users) && byId == old(byId)
      ensures Shows(Accounts.DeleteUser(s, id))
      ensures unchanged(this`tokens)
    {
      if id !in byId {
        return false;
      }
      var u := byId[id];
      byId := byId - {id};
      users := users - {u.name};
      ok := true;
    }

    method SaveToken(tokenId: Id, tok: SessionToken, ghost s: State)
      requires Shows(s) && tok !in tokens.Values && !tok.invalidated
      modifies this
      ensures Shows(s.(tokens := s.tokens[tokenId := Session(tok.user, tok.expiresAt, false)]))
    {
      tokens := tokens[tokenId := tok];
    }

    /** True the first time only; the record is marked once. */
    method InvalidateToken(tokenId: Id, now: int, ghost s: State) returns (ok: bool)
      requires Shows(s)
      modifies tokens.Values
      ensures ok <==> tokenId in tokens && !old(tokens[tokenId].invalidated)
      ensures ok ==> tokens[tokenId].invalidated && tokens[tokenId].invalidatedAt == now
      ensures Shows(Invalidate(s, tokenId))
    {
      if tokenId !in tokens || tokens[tokenId].invalidated {
        return false;
      }
      var t := tokens[tokenId];
      t.invalidatedAt, t.invalidated := now, true;
      ok := true;
    }

    /** ValidateToken's look at the tables, at time `now`. */
    method Validate(tokenId: Id, now: int, ghost s: State) returns (v: Verdict)
      requires Shows(s) && s.now == now
      ensures v == Accounts.Validate(s, tokenId)
    {
      if tokenId !in tokens {
        return Invalid;
      }
      var sess := tokens[tokenId];
      if sess.invalidated {
        return Invalid;
      }
      if now > sess.expiresAt {
        return Expired;
      }
      if sess.user !in byId || !byId[sess.user].active {
        return Invalid;
      }
      v := Accepted(byId[sess.user]);
    }
  }
}
