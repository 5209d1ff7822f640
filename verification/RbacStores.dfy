/** The stores of internal/auth/rbac_store.go, rbac_redis.go and rbac_layered.go as objects: every write
    does what the step functions of Rbac say, every read loop computes what its tables mean. */
module RbacStores {
  import opened Rbac

  function FaultOf(faults: map<string, Fault>, k: string): Fault { if k in faults then faults[k] else Done }

  /** L1. */
  class InMemRBACStore {
    var permissions: map<Id, Permission>
    var permsByName: map<Name, Permission>
    var roles: map<Id, Role>
    var rolesByName: map<Name, Role>
    var rolePerms: map<Id, set<Name>>
    var userRoles: map<Id, set<Id>>

    function State(): L1 reads this { L1(permissions, permsByName, roles, rolesByName, rolePerms, userRoles) }

    constructor ()
      ensures State() == EmptyL1
    {
      permissions, permsByName, roles, rolesByName, rolePerms, userRoles := map[], map[], map[], map[], map[], map[];
    }

    method SavePermission(p: Permission)
      modifies this
      ensures State() == SavePermission1(old(State()), p)
    {
      permissions := permissions[p.id := p];
      permsByName := permsByName[p.name := p];
    }

    method SaveRole(r: Role)
      modifies this
      ensures State() == SaveRole1(old(State()), r)
    {
      roles := roles[r.id := r];
      rolesByName := rolesByName[r.name := r];
    }

    method AssignPermissionToRole(rid: Id, pid: Id) returns (ok: bool)
      modifies this
      ensures ok == CanAssignPermission(old(State()), rid, pid) && State() == AssignPermission1(old(State()), rid, pid)
    {
      if pid !in permissions || rid !in roles {
        return false;
      }
      if rid !in rolePerms {
        rolePerms := rolePerms[rid := {}];
      }
      rolePerms := rolePerms[rid := rolePerms[rid] + {permissions[pid].name}];
      ok := true;
    }

    method AssignRoleToUser(user: Id, rid: Id) returns (ok: bool)
      modifies this
      ensures ok == (rid in old(roles)) && State() == AssignRole1(old(State()), user, rid)
    {
      if rid !in roles {
        return false;
      }
      if user !in userRoles {
        userRoles := userRoles[user := {}];
      }
      userRoles := userRoles[user := userRoles[user] + {rid}];
      ok := true;
    }

    method RemoveRoleFromUser(user: Id, rid: Id)
      modifies this
      ensures State() == RemoveRole1(old(State()), user, rid)
    {
      if user in userRoles {
        userRoles := userRoles[user := userRoles[user] - {rid}];
      }
    }

    method RolePermissionNames(rid: Id) returns (names: seq<Name>)
      ensures forall n :: n in names <==> n in Members(rolePerms, rid)
      ensures |names| == |Members(rolePerms, rid)|
    {
      names := [];
      var left := if rid in rolePerms then rolePerms[rid] else {};
      while left != {}
        invariant left <= Members(rolePerms, rid)
        invariant forall n :: n in names <==> n in Members(rolePerms, rid) - left
        invariant |names| + |left| == |Members(rolePerms, rid)|
        decreases left
      {
        var n :| n in left;
        left := left - {n};
        names := names + [n];
      }
    }

    /** The user's roles that are still defined, each once. */
    method UserRoles(user: Id) returns (out: seq<Role>)
      requires forall id <- roles :: roles[id].id == id
      ensures forall i, j | 0 <= i < j < |out| :: out[i].id != out[j].id
      ensures forall r :: r in out <==> r.id in Members(userRoles, user) && r.id in roles && roles[r.id] == r
    {
      out := [];
      var all := if user in userRoles then userRoles[user] else {};
      var left := all;
      while left != {}
        invariant left <= all
        invariant forall i, j | 0 <= i < j < |out| :: out[i].id != out[j].id
        invariant forall r :: r in out <==> r.id in all - left && r.id in roles && roles[r.id] == r
        decreases left
      {
        var rid :| rid in left;
        left := left - {rid};
        if rid in roles {
          assert forall r <- out :: r.id != rid;
          out := out + [roles[rid]];
        }
      }
    }

    method UserHasPermission(user: Id, perm: Name) returns (yes: bool)
      ensures yes == L1Has(State(), user, perm)
    {
      var left := if user in userRoles then userRoles[user] else {};
      while left != {}
        invariant left <= Members(userRoles, user)
        invariant forall rid <- Members(userRoles, user) - left :: perm !in Members(rolePerms, rid)
        decreases left
      {
        var rid :| rid in left;
        left := left - {rid};
        if rid in rolePerms && perm in rolePerms[rid] {
          assert perm in Members(rolePerms, rid);
          return true;
        }
      }
      return false;
    }

    /** One listed role: save it, then its names through the name index. */
    method WarmOne(r: Role, ns: seq<Name>)
      modifies this
      ensures State() == WarmNames(SaveRole1(old(State()), r), r.id, ns)
    {
      SaveRole(r);
      ghost var saved := State();
      var i := 0;
      while i < |ns|
        invariant i <= |ns| && State() == WarmNames(saved, r.id, ns[..i])
      {
        assert ns[..i + 1][..i] == ns[..i];
        if ns[i] in permsByName {
          var _ := AssignPermissionToRole(r.id, permsByName[ns[i]].id);
        }
        i := i + 1;
      }
      assert ns[..|ns|] == ns;
    }

    method WarmFrom(ps: seq<Permission>, rs: seq<Role>, names: map<Id, seq<Name>>)
      requires forall r <- rs :: r.id in names
      modifies this
      ensures State() == Warm(old(State()), ps, rs, names)
    {
      var i := 0;
      while i < |ps|
        invariant i <= |ps| && State() == WarmPermissions(old(State()), ps[..i])
      {
        assert ps[..i + 1][..i] == ps[..i];
        SavePermission(ps[i]);
        i := i + 1;
      }
      assert ps[..|ps|] == ps;
      ghost var saved := State();
      i := 0;
      while i < |rs|
        invariant i <= |rs| && State() == WarmRoles(saved, rs[..i], names)
      {
        assert rs[..i + 1][..i] == rs[..i];
        WarmOne(rs[i], names[rs[i].id]);
        i := i + 1;
      }
      assert rs[..|rs|] == rs;
    }
  }

  /** The reads of one call that fail: of the sets of known ids, of one user's roles, of some roles'
      permission ids, of some permissions' and roles' hashes. */
  datatype ReadFaults = ReadFaults(permList: bool, roleList: bool, users: bool, roleSets: set<Id>, permissions: set<Id>, roles: set<Id>)

  const NoFaults := ReadFaults(false, false, false, {}, {}, {})

  /** The names of a role that can be read. */
  function Readable(s: L2, rid: Id, f: ReadFaults): set<Name> {
    set pid | pid in Members(s.rolePerms, rid) && pid !in f.permissions && pid in s.permHash :: s.permHash[pid].name
  }

  lemma AllReadable(s: L2)
    ensures forall rid :: Readable(s, rid, NoFaults) == L2Names(s, rid)
  {
  }

  /** L2. Each write comes with how Redis ends it, each read with what of it fails. */
  class RedisRBACStore {
    var permHash: map<Id, Permission>
    var perms: set<Id>
    var roleHash: map<Id, Role>
    var roles: set<Id>
    var rolePerms: map<Id, set<Id>>
    var userRoles: map<Id, set<Id>>

    function State(): L2 reads this { L2(permHash, perms, roleHash, roles, rolePerms, userRoles) }

    constructor ()
      ensures State() == EmptyL2
    {
      permHash, perms, roleHash, roles, rolePerms, userRoles := map[], {}, map[], {}, map[], map[];
    }

    /** A write command: carried out unless refused, and reported so only when it is done. */
    method Write(op: Op, fault: Fault) returns (ok: bool)
      modifies this
      ensures ok == (fault == Done)
      ensures State() == if fault == Refused then old(State()) else OnRedis(old(State()), op)
    {
      ok := fault == Done;
      if fault == Refused {
        return;
      }
      match op {
        case SavePermission(p) =>
          permHash := permHash[p.id := p];
          perms := perms + {p.id};
        case SaveRole(r) =>
          roleHash := roleHash[r.id := r];
          roles := roles + {r.id};
        case AssignPermission(rid, pid) =>
          rolePerms := rolePerms[rid := (if rid in rolePerms then rolePerms[rid] else {}) + {pid}];
        case AssignRole(user, rid) =>
          userRoles := userRoles[user := (if user in userRoles then userRoles[user] else {}) + {rid}];
        case RemoveRole(user, rid) =>
          if user in userRoles {
            userRoles := userRoles[user := userRoles[user] - {rid}];
          }
        case Recall(_, _) =>
      }
    }

    /** Names, not ids: resolved through the hashes; empty ones and those that cannot be read are skipped. */
    method RolePermissionNames(rid: Id, f: ReadFaults) returns (names: seq<Name>)
      ensures forall n :: n in names <==> rid !in f.roleSets && n != "" && n in Readable(State(), rid, f)
    {
      names := [];
      if rid in f.roleSets {
        return;
      }
      var all := if rid in rolePerms then rolePerms[rid] else {};
      var left := all;
      while left != {}
        invariant left <= all
        invariant forall n :: n in names <==>
                    n != "" && exists pid <- all - left :: pid !in f.permissions && pid in permHash && permHash[pid].name == n
        decreases left
      {
        var pid :| pid in left;
        ghost var seen := all - left;
        left := left - {pid};
        assert all - left == seen + {pid};
        if pid !in f.permissions && pid in permHash && permHash[pid].name != "" {
          names := names + [permHash[pid].name];
        }
      }
    }

    method RoleGrants(rid: Id, perm: Name, f: ReadFaults) returns (yes: bool)
      ensures yes == (rid !in f.roleSets && perm in Readable(State(), rid, f))
    {
      if rid in f.roleSets {
        return false;
      }
      var all := if rid in rolePerms then rolePerms[rid] else {};
      var left := all;
      while left != {}
        invariant left <= all
        invariant forall pid <- all - left :: pid !in f.permissions && pid in permHash ==> permHash[pid].name != perm
        decreases left
      {
        var pid :| pid in left;
        left := left - {pid};
        if pid !in f.permissions && pid in permHash && permHash[pid].name == perm {
          return true;
        }
      }
      return false;
    }

    /** The check over all the user's roles that can be read. */
    method UserHasPermission(user: Id, perm: Name, f: ReadFaults) returns (yes: bool)
      ensures yes <==> !f.users && exists rid <- Members(userRoles, user) :: rid !in f.roleSets && perm in Readable(State(), rid, f)
      ensures yes ==> L2Has(State(), user, perm)
      ensures f == NoFaults ==> yes == L2Has(State(), user, perm)
    {
      if f.users {
        return false;
      }
      var all := if user in userRoles then userRoles[user] else {};
      var left := all;
      while left != {}
        invariant left <= all
        invariant forall rid <- all - left :: !(rid !in f.roleSets && perm in Readable(State(), rid, f))
        decreases left
      {
        var rid :| rid in left;
        left := left - {rid};
        var grants := RoleGrants(rid, perm, f);
        if grants {
          assert perm in L2Names(State(), rid);
          return true;
        }
      }
      AllReadable(State());
      return false;
    }

    method ListPermissions(f: ReadFaults) returns (out: seq<Permission>)
      ensures forall p :: p in out <==>
                !f.permList && exists id <- perms :: id !in f.permissions && id in permHash && permHash[id] == p
    {
      out := [];
      if f.permList {
        return;
      }
      var left := perms;
      while left != {}
        invariant left <= perms
        invariant forall p :: p in out <==> exists id <- perms - left :: id !in f.permissions && id in permHash && permHash[id] == p
        decreases left
      {
        var id :| id in left;
        ghost var seen := perms - left;
        left := left - {id};
        assert perms - left == seen + {id};
        if id !in f.permissions && id in permHash {
          out := out + [permHash[id]];
        }
      }
    }

    method ListRoles(f: ReadFaults) returns (out: seq<Role>)
      ensures forall r :: r in out <==> !f.roleList && exists id <- roles :: id !in f.roles && id in roleHash && roleHash[id] == r
    {
      out := [];
      if f.roleList {
        return;
      }
      var left := roles;
      while left != {}
        invariant left <= roles
        invariant forall r :: r in out <==> exists id <- roles - left :: id !in f.roles && id in roleHash && roleHash[id] == r
        decreases left
      {
        var id :| id in left;
        ghost var seen := roles - left;
        left := left - {id};
        assert roles - left == seen + {id};
        if id !in f.roles && id in roleHash {
          out := out + [roleHash[id]];
        }
      }
    }
  }

  /** The write-through pair. */
  class LayeredRBACStore {
    const mem: InMemRBACStore
    const redis: RedisRBACStore

    function State(): Layered reads mem, redis { Layered(mem.State(), redis.State()) }

    constructor (mem: InMemRBACStore, redis: RedisRBACStore)
      ensures this.mem == mem && this.redis == redis
    {
      this.mem, this.redis := mem, redis;
    }

    /** A write's L1 half. */
    method WriteMem(op: Op) returns (ok: bool)
      requires !op.Recall?
      modifies mem
      ensures State() == MemHalf(old(State()), op)
      ensures ok <==> (op.AssignPermission? ==> CanAssignPermission(old(mem.State()), op.rid, op.pid))
                      && (op.AssignRole? ==> op.rid in old(mem.roles))
    {
      ok := true;
      match op {
        case SavePermission(p) => mem.SavePermission(p);
        case SaveRole(r) => mem.SaveRole(r);
        case AssignPermission(rid, pid) => ok := mem.AssignPermissionToRole(rid, pid);
        case AssignRole(user, rid) => ok := mem.AssignRoleToUser(user, rid);
        case RemoveRole(user, rid) => mem.RemoveRoleFromUser(user, rid);
      }
    }

    /** Redis first; a failure there rejects the write, and L1 is not touched. */
    method Write(op: Op, fault: Fault) returns (ok: bool)
      requires !op.Recall?
      modifies mem, redis
      ensures State() == Step(old(State()), op, fault)
      ensures ok <==> fault == Done
                      && (op.AssignPermission? ==> CanAssignPermission(old(mem.State()), op.rid, op.pid))
                      && (op.AssignRole? ==> op.rid in old(mem.roles))
    {
      ok := redis.Write(op, fault);
      if ok {
        ok := WriteMem(op);
      }
    }

    /** Warming takes in what L2 answers: all it holds when no read fails, else a part. */
    method WarmFrom(f: ReadFaults) returns (ps: seq<Permission>, rs: seq<Role>, names: map<Id, seq<Name>>)
      requires Consistent(State())
      modifies mem
      ensures Answers(old(redis.State()), ps, rs, names) && (f == NoFaults ==> FullAnswers(old(redis.State()), ps, rs, names))
      ensures State() == old(State()).(mem := Warm(old(mem.State()), ps, rs, names)) && Consistent(State())
    {
      ps := redis.ListPermissions(f);
      rs := redis.ListRoles(f);
      names := ReadNames(rs, f);
      AllReadable(redis.State());
      WarmConsistent(State(), ps, rs, names);
      mem.WarmFrom(ps, rs, names);
    }

    /** What L2 answers for each listed role. */
    method ReadNames(rs: seq<Role>, f: ReadFaults) returns (names: map<Id, seq<Name>>)
      ensures forall r <- rs :: r.id in names
      ensures forall rid <- names, n ::
                n in names[rid] <==> rid !in f.roleSets && n != "" && n in Readable(redis.State(), rid, f)
    {
      names := map[];
      var i := 0;
      while i < |rs|
        invariant i <= |rs| && forall r <- rs[..i] :: r.id in names
        invariant forall rid <- names, n ::
                    n in names[rid] <==> rid !in f.roleSets && n != "" && n in Readable(redis.State(), rid, f)
      {
        assert rs[..i + 1] == rs[..i] + [rs[i]];
        var ns := redis.RolePermissionNames(rs[i].id, f);
        names := names[rs[i].id := ns];
        i := i + 1;
      }
      assert rs[..|rs|] == rs;
    }
  }
}
