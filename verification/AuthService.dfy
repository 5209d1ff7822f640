/** Role management of internal/auth/service.go over the layered cache and the user store. */
module AuthService {
  import opened Rbac
  import opened RbacStores
  import RbacRuns
  import RbacTrace
  import Accounts
  import AccountStore

  datatype Outcome = UserNotFound | RoleNotFound(name: Name) | AssignFailed(at: nat) | Updated

  /** The roles a user keeps because Redis did not confirm their removal. */
  function Kept(s: L1, user: Id, faults: map<Id, Fault>): set<Id> {
    set rid | rid in Members(s.userRoles, user) && FaultOf(faults, rid) != Done
  }

  function Ids(rs: seq<Role>): set<Id> { set r | r in rs :: r.id }

  /** The roles that some names stand for. */
  function Named(s: L1, names: seq<Name>): set<Id> {
    set n | n in names && n in s.rolesByName :: s.rolesByName[n].id
  }

  function AssignFault(faults: map<nat, Fault>, i: nat): Fault { if i in faults then faults[i] else Done }

  /** Nothing but one user's roles differs. */
  ghost predicate OnlyUser(s: Layered, s': Layered, user: Id) {
    && s' == Layered(s.mem.(userRoles := s'.mem.userRoles), s.redis.(userRoles := s'.redis.userRoles))
    && forall o: Id | o != user ::
         Members(s'.mem.userRoles, o) == Members(s.mem.userRoles, o)
         && Members(s'.redis.userRoles, o) == Members(s.redis.userRoles, o)
  }

  lemma RemoveEffect(s: Layered, user: Id, rid: Id, fault: Fault)
    requires Consistent(s)
    ensures var s' := Step(s, RemoveRole(user, rid), fault);
            && Consistent(s') && OnlyUser(s, s', user)
            && Members(s'.mem.userRoles, user) == Members(s.mem.userRoles, user) - (if fault == Done then {rid} else {})
            && Members(s'.redis.userRoles, user) == Members(s.redis.userRoles, user) - (if fault != Refused then {rid} else {})
  {
  }

  lemma AssignEffect(s: Layered, user: Id, rid: Id, fault: Fault)
    requires Consistent(s) && rid in s.mem.roles
    ensures var s' := Step(s, AssignRole(user, rid), fault);
            && Consistent(s') && OnlyUser(s, s', user)
            && Members(s'.mem.userRoles, user) == Members(s.mem.userRoles, user) + (if fault == Done then {rid} else {})
            && Members(s'.redis.userRoles, user) == Members(s.redis.userRoles, user) + (if fault != Refused then {rid} else {})
  {
  }

  function Confirmed(ids: set<Id>, faults: map<Id, Fault>): set<Id> {
    set rid | rid in ids && FaultOf(faults, rid) == Done
  }

  function Reached(ids: set<Id>, faults: map<Id, Fault>): set<Id> {
    set rid | rid in ids && FaultOf(faults, rid) != Refused
  }

  /** The removals of some roles so far, each with its own end. */
  ghost predicate Removed(was: Layered, s: Layered, user: Id, ids: set<Id>, faults: map<Id, Fault>) {
    && Consistent(s) && OnlyUser(was, s, user)
    && Members(s.mem.userRoles, user) ==
       Members(was.mem.userRoles, user) - Confirmed(ids, faults)
    && Members(s.redis.userRoles, user) ==
       Members(was.redis.userRoles, user) - Reached(ids, faults)
  }

  lemma RemoveOneMore(was: Layered, s: Layered, user: Id, ids: set<Id>, faults: map<Id, Fault>, rid: Id)
    requires Removed(was, s, user, ids, faults)
    ensures Removed(was, Step(s, RemoveRole(user, rid), FaultOf(faults, rid)), user, ids + {rid}, faults)
  {
    var s' := Step(s, RemoveRole(user, rid), FaultOf(faults, rid));
    RemoveEffect(s, user, rid, FaultOf(faults, rid));
    OnlyUserTrans(was, s, s', user);
    var fault := FaultOf(faults, rid);
    assert Confirmed(ids + {rid}, faults) == Confirmed(ids, faults) + if fault == Done then {rid} else {};
    assert Reached(ids + {rid}, faults) == Reached(ids, faults) + if fault != Refused then {rid} else {};
  }

  lemma AllRemoved(was: Layered, s: Layered, user: Id, faults: map<Id, Fault>)
    requires Removed(was, s, user, Members(was.mem.userRoles, user), faults)
    ensures Members(s.mem.userRoles, user) == Kept(was.mem, user, faults)
  {
  }

  /** Some roles assigned so far. */
  ghost predicate Assigned(was: Layered, s: Layered, user: Id, ids: set<Id>) {
    && Consistent(s) && OnlyUser(was, s, user)
    && Members(s.mem.userRoles, user) == Members(was.mem.userRoles, user) + ids
    && Members(s.redis.userRoles, user) == Members(was.redis.userRoles, user) + ids
  }

  /** The state left by an assignment that was not confirmed: L1 is without it, L2 may have it. */
  ghost predicate AssignFailedAt(was: Layered, s: Layered, user: Id, ids: set<Id>, rid: Id, fault: Fault) {
    && Members(s.mem.userRoles, user) == Members(was.mem.userRoles, user) + ids
    && Members(s.redis.userRoles, user) == Members(was.redis.userRoles, user) + ids + if fault == Lost then {rid} else {}
  }

  lemma AssignOneMore(was: Layered, s: Layered, user: Id, ids: set<Id>, rid: Id, fault: Fault)
    requires Assigned(was, s, user, ids) && rid in was.mem.roles
    ensures var s' := Step(s, AssignRole(user, rid), fault);
            && Consistent(s') && OnlyUser(was, s', user)
            && (fault != Done ==> AssignFailedAt(was, s', user, ids, rid, fault))
            && (fault == Done ==> Assigned(was, s', user, ids + {rid}))
  {
    var s' := Step(s, AssignRole(user, rid), fault);
    AssignEffect(s, user, rid, fault);
    OnlyUserTrans(was, s, s', user);
  }

  lemma IdsSnoc(rs: seq<Role>, r: Role)
    ensures Ids(rs + [r]) == Ids(rs) + {r.id}
  {
  }

  /** Some roles' permissions are what those roles have. */
  predicate Grants(s: L1, names: seq<Name>, perm: Name) {
    exists n <- names :: n in s.rolesByName && perm in Members(s.rolePerms, s.rolesByName[n].id)
  }

  lemma NamedGrants(s: L1, s': L1, user: Id, names: seq<Name>)
    requires s'.rolePerms == s.rolePerms && Members(s'.userRoles, user) == Named(s, names)
    ensures forall perm: Name :: L1Has(s', user, perm) <==> Grants(s, names, perm)
  {
    forall perm: Name ensures L1Has(s', user, perm) <==> Grants(s, names, perm) {
      if L1Has(s', user, perm) {
        var rid :| rid in Named(s, names) && perm in Members(s.rolePerms, rid);
        var n :| n in names && n in s.rolesByName && s.rolesByName[n].id == rid;
      }
      if Grants(s, names, perm) {
        var n :| n in names && n in s.rolesByName && perm in Members(s.rolePerms, s.rolesByName[n].id);
        assert s.rolesByName[n].id in Named(s, names);
      }
    }
  }

  /** The roles a user still has in Redis after the removals: those L1 did not know of, and those whose
      removal Redis refused. */
  function KeptInRedis(s: Layered, user: Id, faults: map<Id, Fault>): set<Id> {
    Members(s.redis.userRoles, user) - Reached(Members(s.mem.userRoles, user), faults)
  }

  /** The state UpdateUserRoles leaves when it succeeds. */
  ghost predicate Replaced(s: Layered, s': Layered, user: Id, names: seq<Name>, faults: map<Id, Fault>) {
    && Members(s'.mem.userRoles, user) == Named(s.mem, names) + Kept(s.mem, user, faults)
    && Members(s'.redis.userRoles, user) == Named(s.mem, names) + KeptInRedis(s, user, faults)
    && OnlyUser(s, s', user)
  }

  /** The state it leaves when assigning the role at some position fails. */
  ghost predicate StoppedAt(s: Layered, s': Layered, user: Id, names: seq<Name>, at: nat, faults: map<Id, Fault>, fault: Fault) {
    && at < |names| && names[at] in s.mem.rolesByName && fault != Done
    && Members(s'.mem.userRoles, user) == Named(s.mem, names[..at]) + Kept(s.mem, user, faults)
    && Members(s'.redis.userRoles, user) ==
       Named(s.mem, names[..at]) + KeptInRedis(s, user, faults)
       + if fault == Lost then {s.mem.rolesByName[names[at]].id} else {}
  }

  lemma RolesReplaced(was: Layered, mid: Layered, s: Layered, user: Id, names: seq<Name>, roles: seq<Role>, done: nat,
                      faults: map<Id, Fault>, fault: Fault)
    requires done <= |names| == |roles|
    requires forall i | 0 <= i < |names| :: names[i] in was.mem.rolesByName && roles[i] == was.mem.rolesByName[names[i]]
    requires OnlyUser(was, mid, user) && OnlyUser(mid, s, user)
    requires Members(mid.mem.userRoles, user) == Kept(was.mem, user, faults)
    requires Members(mid.redis.userRoles, user) == KeptInRedis(was, user, faults)
    requires done == |names| ==> Assigned(mid, s, user, Ids(roles))
    requires done < |names| ==> fault != Done && AssignFailedAt(mid, s, user, Ids(roles[..done]), roles[done].id, fault)
    ensures OnlyUser(was, s, user)
    ensures done == |names| ==> Replaced(was, s, user, names, faults)
    ensures done < |names| ==> StoppedAt(was, s, user, names, done, faults, fault)
  {
    NamedIds(was.mem, names, roles);
    NamedIds(was.mem, names[..done], roles[..done]);
  }

  /** After a successful update: each store has exactly the named roles if and only if what it kept is
      among them; and when L1 has, the user has exactly the named roles' permissions. */
  lemma ReplacedExactly(s: Layered, s': Layered, user: Id, names: seq<Name>, faults: map<Id, Fault>)
    requires Replaced(s, s', user, names, faults)
    ensures Members(s'.mem.userRoles, user) == Named(s.mem, names) <==> Kept(s.mem, user, faults) <= Named(s.mem, names)
    ensures Members(s'.redis.userRoles, user) == Named(s.mem, names) <==> KeptInRedis(s, user, faults) <= Named(s.mem, names)
    ensures Kept(s.mem, user, faults) <= Named(s.mem, names) ==>
              forall perm: Name :: L1Has(s'.mem, user, perm) <==> Grants(s.mem, names, perm)
  {
    if Kept(s.mem, user, faults) <= Named(s.mem, names) {
      assert Members(s'.mem.userRoles, user) == Named(s.mem, names);
      NamedGrants(s.mem, s'.mem, user, names);
    }
  }

  lemma AppliedNames(states: seq<RbacRuns.State>, moves: RbacRuns.Moves, s: Layered)
    requires RbacRuns.IsRun(states, moves) && RbacRuns.Both(states[|moves|]) == s
    ensures Consistent(s)
    ensures forall n :: n in s.mem.rolesByName <==> RbacTrace.RoleNamed(states, moves, |moves|, n).Some?
  {
    RbacRuns.RunConsistent(states, moves, |moves|);
    forall n ensures n in s.mem.rolesByName <==> RbacTrace.RoleNamed(states, moves, |moves|, n).Some? {
      RbacTrace.MemoryHoldsTheLast(states, moves, |moves|, n);
    }
  }

  class Service {
    const rbac: LayeredRBACStore
    const store: AccountStore.Store

    constructor (rbac: LayeredRBACStore, store: AccountStore.Store)
      ensures this.rbac == rbac && this.store == store
    {
      this.rbac, this.store := rbac, store;
    }

    /** The permissions reported for a session are exactly those the permission check grants. */
    method GetSessionInfo(user: Id) returns (roleNames: seq<Name>, perms: set<Name>)
      requires Consistent(rbac.State())
      ensures forall p :: p in perms <==> L1Has(rbac.mem.State(), user, p)
      ensures forall n :: n in roleNames <==>
                exists rid <- Members(rbac.mem.userRoles, user) :: rid in rbac.mem.roles && rbac.mem.roles[rid].name == n
    {
      var roles := rbac.mem.UserRoles(user);
      ghost var all := Members(rbac.mem.userRoles, user);
      roleNames, perms := [], {};
      var i := 0;
      while i < |roles|
        invariant i <= |roles|
        invariant forall p :: p in perms <==> exists r <- roles[..i] :: p in Members(rbac.mem.rolePerms, r.id)
        invariant forall n :: n in roleNames <==> exists r <- roles[..i] :: r.name == n
      {
        assert roles[..i + 1] == roles[..i] + [roles[i]];
        roleNames := roleNames + [roles[i].name];
        var names := rbac.mem.RolePermissionNames(roles[i].id);
        perms := perms + set n | n in names;
        i := i + 1;
      }
      assert roles[..|roles|] == roles;
      assert Members(rbac.mem.userRoles, user) <= rbac.mem.roles.Keys;
      assert forall rid <- all :: rbac.mem.roles[rid] in roles && rbac.mem.roles[rid].id == rid;
    }

    /** Removing each of a user's roles, a failed removal being passed over. */
    method RemoveAll(user: Id, faults: map<Id, Fault>)
      requires Consistent(rbac.State())
      modifies rbac.mem, rbac.redis
      ensures Consistent(rbac.State()) && OnlyUser(old(rbac.State()), rbac.State(), user)
      ensures Members(rbac.mem.userRoles, user) == Kept(old(rbac.mem.State()), user, faults)
      ensures Members(rbac.redis.userRoles, user) ==
              old(Members(rbac.redis.userRoles, user))
              - Reached(old(Members(rbac.mem.userRoles, user)), faults)
    {
      var roles := rbac.mem.UserRoles(user);
      ghost var was, all := rbac.State(), Members(rbac.mem.userRoles, user);
      var i := 0;
      while i < |roles|
        invariant i <= |roles| && Removed(was, rbac.State(), user, Ids(roles[..i]), faults)
      {
        IdsSnoc(roles[..i], roles[i]);
        assert roles[..i + 1] == roles[..i] + [roles[i]];
        RemoveOneMore(was, rbac.State(), user, Ids(roles[..i]), faults, roles[i].id);
        var _ := rbac.Write(RemoveRole(user, roles[i].id), FaultOf(faults, roles[i].id));
        i := i + 1;
      }
      assert roles[..|roles|] == roles;
      assert forall rid <- all :: was.mem.roles[rid] in roles && was.mem.roles[rid].id == rid;
      assert Ids(roles) == all;
      AllRemoved(was, rbac.State(), user, faults);
    }

    method AssignOne(user: Id, rid: Id, fault: Fault, ghost was: Layered, ghost ids: set<Id>) returns (ok: bool)
      requires Assigned(was, rbac.State(), user, ids) && rid in was.mem.roles
      modifies rbac.mem, rbac.redis
      ensures ok == (fault == Done) && Consistent(rbac.State()) && OnlyUser(was, rbac.State(), user)
      ensures ok ==> Assigned(was, rbac.State(), user, ids + {rid})
      ensures !ok ==> AssignFailedAt(was, rbac.State(), user, ids, rid, fault)
    {
      AssignOneMore(was, rbac.State(), user, ids, rid, fault);
      ok := rbac.Write(AssignRole(user, rid), fault);
    }

    /** Assigning roles in order up to the first failure. */
    method AssignAll(user: Id, roles: seq<Role>, faults: map<nat, Fault>) returns (done: nat)
      requires Consistent(rbac.State()) && forall r <- roles :: r.id in rbac.mem.roles
      modifies rbac.mem, rbac.redis
      ensures Consistent(rbac.State()) && OnlyUser(old(rbac.State()), rbac.State(), user)
      ensures done <= |roles| && (forall i | 0 <= i < done :: AssignFault(faults, i) == Done)
      ensures done == |roles| ==> Assigned(old(rbac.State()), rbac.State(), user, Ids(roles))
      ensures done < |roles| ==>
                && AssignFault(faults, done) != Done
                && AssignFailedAt(old(rbac.State()), rbac.State(), user, Ids(roles[..done]), roles[done].id, AssignFault(faults, done))
    {
      ghost var was := rbac.State();
      done := 0;
      while done < |roles|
        invariant done <= |roles| && Assigned(was, rbac.State(), user, Ids(roles[..done]))
        invariant forall i | 0 <= i < done :: AssignFault(faults, i) == Done
      {
        IdsSnoc(roles[..done], roles[done]);
        assert roles[..done + 1] == roles[..done] + [roles[done]];
        var ok := AssignOne(user, roles[done].id, AssignFault(faults, done), was, Ids(roles[..done]));
        if !ok {
          return;
        }
        done := done + 1;
      }
      assert roles[..done] == roles;
    }

    method ResolveRoles(names: seq<Name>) returns (roles: seq<Role>, missing: nat)
      ensures missing <= |names| && (missing < |names| ==> names[missing] !in rbac.mem.rolesByName)
      ensures |roles| == missing && forall i | 0 <= i < missing ::
                names[i] in rbac.mem.rolesByName && roles[i] == rbac.mem.rolesByName[names[i]]
    {
      roles, missing := [], 0;
      while missing < |names|
        invariant missing <= |names| && |roles| == missing
        invariant forall i | 0 <= i < missing ::
                    names[i] in rbac.mem.rolesByName && roles[i] == rbac.mem.rolesByName[names[i]]
      {
        if names[missing] !in rbac.mem.rolesByName {
          return;
        }
        roles := roles + [rbac.mem.rolesByName[names[missing]]];
        missing := missing + 1;
      }
    }

    /** UpdateUserRoles, from wherever some run of the store has come. On success both stores hold the named
        roles and what each kept. It fails for a role if and only if the user is known and no save of a role
        of some name has been applied since the last restart; that, and an unknown user, changes nothing. A
        failed assignment leaves the roles before it, in Redis perhaps also the failed one. No other user is
        ever affected. */
    method UpdateUserRoles(user: Id, names: seq<Name>, removeFaults: map<Id, Fault>, assignFaults: map<nat, Fault>,
                           ghost states: seq<RbacRuns.State>, ghost moves: RbacRuns.Moves)
      returns (outcome: Outcome)
      requires RbacRuns.IsRun(states, moves) && RbacRuns.Both(states[|moves|]) == rbac.State()
      modifies rbac.mem, rbac.redis
      ensures outcome.UserNotFound? <==> user !in store.byId
      ensures outcome.RoleNotFound? <==>
                user in store.byId && exists n <- names :: RbacTrace.RoleNamed(states, moves, |moves|, n).None?
      ensures outcome.UserNotFound? || outcome.RoleNotFound? ==> rbac.State() == old(rbac.State())
      ensures outcome.RoleNotFound? ==> outcome.name in names && outcome.name !in old(rbac.mem.rolesByName)
      ensures Consistent(rbac.State()) && OnlyUser(old(rbac.State()), rbac.State(), user)
      ensures outcome.Updated? ==>
                && (forall i | 0 <= i < |names| :: AssignFault(assignFaults, i) == Done)
                && Replaced(old(rbac.State()), rbac.State(), user, names, removeFaults)
      ensures outcome.Updated? && Kept(old(rbac.mem.State()), user, removeFaults) <= Named(old(rbac.mem.State()), names) ==>
                forall perm: Name :: L1Has(rbac.mem.State(), user, perm) <==> Grants(old(rbac.mem.State()), names, perm)
      ensures outcome.AssignFailed? ==>
                StoppedAt(old(rbac.State()), rbac.State(), user, names, outcome.at, removeFaults, AssignFault(assignFaults, outcome.at))
    {
      ghost var was := rbac.State();
      AppliedNames(states, moves, was);
      if user !in store.byId {
        return UserNotFound;
      }
      var newRoles, resolved := ResolveRoles(names);
      if resolved < |names| {
        assert RbacTrace.RoleNamed(states, moves, |moves|, names[resolved]).None?;
        return RoleNotFound(names[resolved]);
      }
      var done := ReplaceRoles(user, names, newRoles, removeFaults, assignFaults);
      if done < |newRoles| {
        outcome := AssignFailed(done);
      } else {
        outcome := Updated;
        ReplacedExactly(was, rbac.State(), user, names, removeFaults);
      }
    }

    /** The two loops: every current role off, then the new ones on, up to the first failure. */
    method ReplaceRoles(user: Id, ghost names: seq<Name>, roles: seq<Role>, removeFaults: map<Id, Fault>, assignFaults: map<nat, Fault>)
      returns (done: nat)
      requires Consistent(rbac.State()) && |roles| == |names|
      requires forall i | 0 <= i < |names| :: names[i] in rbac.mem.rolesByName && roles[i] == rbac.mem.rolesByName[names[i]]
      modifies rbac.mem, rbac.redis
      ensures Consistent(rbac.State()) && OnlyUser(old(rbac.State()), rbac.State(), user)
      ensures done <= |names| && forall i | 0 <= i < done :: AssignFault(assignFaults, i) == Done
      ensures done == |names| ==> Replaced(old(rbac.State()), rbac.State(), user, names, removeFaults)
      ensures done < |names| ==>
                StoppedAt(old(rbac.State()), rbac.State(), user, names, done, removeFaults, AssignFault(assignFaults, done))
    {
      ghost var was := rbac.State();
      RemoveAll(user, removeFaults);
      ghost var mid := rbac.State();
      done := AssignAll(user, roles, assignFaults);
      RolesReplaced(was, mid, rbac.State(), user, names, roles, done, removeFaults, AssignFault(assignFaults, done));
    }

    /** DeleteUser: role removals first, whether or not the user exists, and errors passed over; then the
        user leaves both indexes. */
    method DeleteUser(user: Id, faults: map<Id, Fault>, ghost s: Accounts.State) returns (ok: bool)
      requires Consistent(rbac.State()) && store.Shows(s)
      modifies rbac.mem, rbac.redis, store
      ensures ok == (user in s.byId) && store.Shows(Accounts.DeleteUser(s, user))
      ensures Consistent(rbac.State()) && OnlyUser(old(rbac.State()), rbac.State(), user)
      ensures Members(rbac.mem.userRoles, user) == Kept(old(rbac.mem.State()), user, faults)
      ensures Members(rbac.redis.userRoles, user) == KeptInRedis(old(rbac.State()), user, faults)
    {
      RemoveAll(user, faults);
      ok := store.DeleteUser(user, s);
    }
  }

  lemma OnlyUserTrans(a: Layered, b: Layered, c: Layered, user: Id)
    requires OnlyUser(a, b, user) && OnlyUser(b, c, user)
    ensures OnlyUser(a, c, user)
  {
  }

  lemma {:induction false} NamedIds(s: L1, names: seq<Name>, roles: seq<Role>)
    requires |roles| == |names|
    requires forall i | 0 <= i < |names| :: names[i] in s.rolesByName && roles[i] == s.rolesByName[names[i]]
    ensures Ids(roles) == Named(s, names) && forall n <- names :: n in s.rolesByName
  {
  }
}
