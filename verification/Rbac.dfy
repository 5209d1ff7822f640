/** The two-tier permission cache of internal/auth: L1 keeps permission names per role, L2 (Redis) keeps
    permission ids and resolves their names on reading. */
module Rbac {
  type Id = string
  type Name = string

  datatype Permission = Permission(id: Id, name: Name, description: string)
  datatype Role = Role(id: Id, name: Name, description: string)

  /** InMemRBACStore. */
  datatype L1 = L1(
    permissions: map<Id, Permission>, permsByName: map<Name, Permission>,
    roles: map<Id, Role>, rolesByName: map<Name, Role>,
    rolePerms: map<Id, set<Name>>, userRoles: map<Id, set<Id>>)

  /** RedisRBACStore: hashes by id, the sets of known ids, and the two assignment tables. */
  datatype L2 = L2(
    permHash: map<Id, Permission>, perms: set<Id>,
    roleHash: map<Id, Role>, roles: set<Id>,
    rolePerms: map<Id, set<Id>>, userRoles: map<Id, set<Id>>)

  const EmptyL1 := L1(map[], map[], map[], map[], map[], map[])
  const EmptyL2 := L2(map[], {}, map[], {}, map[], map[])

  /** An absent set reads as empty. */
  function Members(m: map<Id, set<string>>, k: Id): set<string> { if k in m then m[k] else {} }

  function With(m: map<Id, set<string>>, k: Id, x: string): map<Id, set<string>> { m[k := Members(m, k) + {x}] }

  function Without(m: map<Id, set<string>>, k: Id, x: string): map<Id, set<string>> {
    if k in m then m[k := m[k] - {x}] else m
  }

  // ---- reads -----------------------------------------------------------------------------

  predicate L1Has(s: L1, user: Id, perm: Name) {
    exists rid <- Members(s.userRoles, user) :: perm in Members(s.rolePerms, rid)
  }

  function L2Names(s: L2, rid: Id): set<Name> {
    set pid | pid in Members(s.rolePerms, rid) && pid in s.permHash :: s.permHash[pid].name
  }

  predicate L2Has(s: L2, user: Id, perm: Name) {
    exists rid <- Members(s.userRoles, user) :: perm in L2Names(s, rid)
  }

  // ---- writes ----------------------------------------------------------------------------

  function SavePermission1(s: L1, p: Permission): L1 {
    s.(permissions := s.permissions[p.id := p], permsByName := s.permsByName[p.name := p])
  }

  function SaveRole1(s: L1, r: Role): L1 {
    s.(roles := s.roles[r.id := r], rolesByName := s.rolesByName[r.name := r])
  }

  predicate CanAssignPermission(s: L1, rid: Id, pid: Id) { pid in s.permissions && rid in s.roles }

  function AssignPermission1(s: L1, rid: Id, pid: Id): L1 {
    if CanAssignPermission(s, rid, pid) then s.(rolePerms := With(s.rolePerms, rid, s.permissions[pid].name)) else s
  }

  function AssignRole1(s: L1, user: Id, rid: Id): L1 {
    if rid in s.roles then s.(userRoles := With(s.userRoles, user, rid)) else s
  }

  function RemoveRole1(s: L1, user: Id, rid: Id): L1 { s.(userRoles := Without(s.userRoles, user, rid)) }

  function SavePermission2(s: L2, p: Permission): L2 { s.(permHash := s.permHash[p.id := p], perms := s.perms + {p.id}) }

  function SaveRole2(s: L2, r: Role): L2 { s.(roleHash := s.roleHash[r.id := r], roles := s.roles + {r.id}) }

  // ---- warming ---------------------------------------------------------------------------

  function WarmPermissions(s: L1, ps: seq<Permission>): L1 {
    if ps == [] then s else SavePermission1(WarmPermissions(s, ps[..|ps| - 1]), ps[|ps| - 1])
  }

  /** By name to an id, and from the id to its name again. */
  function WarmName(s: L1, rid: Id, n: Name): L1 {
    if n in s.permsByName then AssignPermission1(s, rid, s.permsByName[n].id) else s
  }

  function WarmNames(s: L1, rid: Id, ns: seq<Name>): L1 {
    if ns == [] then s else WarmName(WarmNames(s, rid, ns[..|ns| - 1]), rid, ns[|ns| - 1])
  }

  /** `names` is what L2 answered for each listed role. */
  function WarmRoles(s: L1, rs: seq<Role>, names: map<Id, seq<Name>>): L1
    requires forall r <- rs :: r.id in names
  {
    if rs == [] then s
    else
      var last := rs[|rs| - 1];
      WarmNames(SaveRole1(WarmRoles(s, rs[..|rs| - 1], names), last), last.id, names[last.id])
  }

  function Warm(s: L1, ps: seq<Permission>, rs: seq<Role>, names: map<Id, seq<Name>>): L1
    requires forall r <- rs :: r.id in names
  {
    WarmRoles(WarmPermissions(s, ps), rs, names)
  }

  /** Answers L2 may give: nothing but what it holds, as some reads may have failed. */
  predicate Answers(s: L2, ps: seq<Permission>, rs: seq<Role>, names: map<Id, seq<Name>>) {
    && (forall p <- ps :: p.id in s.permHash && s.permHash[p.id] == p)
    && (forall r <- rs :: r.id in s.roleHash && s.roleHash[r.id] == r)
    && (forall r <- rs :: r.id in names)
    && (forall rid <- names, n <- names[rid] :: n in L2Names(s, rid) && n != "")
  }

  /** Answers when no read failed: in any order, with a name twice where two ids carry it. */
  predicate FullAnswers(s: L2, ps: seq<Permission>, rs: seq<Role>, names: map<Id, seq<Name>>) {
    && Answers(s, ps, rs, names)
    && (forall pid <- s.permHash :: s.permHash[pid] in ps)
    && (forall rid <- s.roleHash :: s.roleHash[rid] in rs)
    && (forall rid <- names, n <- L2Names(s, rid) :: n != "" ==> n in names[rid])
  }

  // ---- the layered store -----------------------------------------------------------------

  /** How a Redis write ends: done, refused, or done with its reply lost (reported as an error). */
  datatype Fault = Done | Refused | Lost

  datatype Layered = Layered(mem: L1, redis: L2)

  /** A write; or, in warming, a name that L2 answered for a role. */
  datatype Op =
    | SavePermission(p: Permission)
    | SaveRole(r: Role)
    | AssignPermission(rid: Id, pid: Id)
    | AssignRole(user: Id, rid: Id)
    | RemoveRole(user: Id, rid: Id)
    | Recall(rid: Id, name: Name)

  function OnRedis(s: L2, op: Op): L2 {
    match op
    case SavePermission(p) => SavePermission2(s, p)
    case SaveRole(r) => SaveRole2(s, r)
    case AssignPermission(rid, pid) => s.(rolePerms := With(s.rolePerms, rid, pid))
    case AssignRole(user, rid) => s.(userRoles := With(s.userRoles, user, rid))
    case RemoveRole(user, rid) => s.(userRoles := Without(s.userRoles, user, rid))
    case Recall(_, _) => s
  }

  function OnMem(s: L1, op: Op): L1 {
    match op
    case SavePermission(p) => SavePermission1(s, p)
    case SaveRole(r) => SaveRole1(s, r)
    case AssignPermission(rid, pid) => AssignPermission1(s, rid, pid)
    case AssignRole(user, rid) => AssignRole1(s, user, rid)
    case RemoveRole(user, rid) => RemoveRole1(s, user, rid)
    case Recall(rid, name) => WarmName(s, rid, name)
  }

  /** A write's first half: L2, unless it refuses. */
  function RedisHalf(s: Layered, op: Op, fault: Fault): Layered {
    if fault == Refused then s else s.(redis := OnRedis(s.redis, op))
  }

  /** Its second half, reached only when L2 reported success: L1. */
  function MemHalf(s: Layered, op: Op): Layered { s.(mem := OnMem(s.mem, op)) }

  /** Both halves with nothing in between. */
  function Step(s: Layered, op: Op, fault: Fault): Layered {
    if fault == Done then MemHalf(RedisHalf(s, op, fault), op) else RedisHalf(s, op, fault)
  }

  // ---- what holds in every run -----------------------------------------------------------

  /** Facts that need no condition: L2's listings match its hashes, hashes and tables agree with their
      keys, and L1 gives users only roles it knows. */
  predicate Consistent(s: Layered) {
    && s.redis.perms == s.redis.permHash.Keys && s.redis.roles == s.redis.roleHash.Keys
    && (forall id <- s.redis.permHash :: s.redis.permHash[id].id == id)
    && (forall id <- s.redis.roleHash :: s.redis.roleHash[id].id == id)
    && (forall id <- s.mem.permissions :: s.mem.permissions[id].id == id)
    && (forall id <- s.mem.roles :: s.mem.roles[id].id == id)
    && (forall n <- s.mem.rolesByName :: s.mem.rolesByName[n].name == n && s.mem.rolesByName[n].id in s.mem.roles)
    && (forall user <- s.mem.userRoles :: s.mem.userRoles[user] <= s.mem.roles.Keys)
  }

  // ---- warming an empty cache ------------------------------------------------------------

  lemma {:induction false} WarmedPermissions(s: L1, ps: seq<Permission>)
    requires forall p <- ps, q <- ps :: p.id == q.id ==> p == q
    requires s.permissions == map[] && s.permsByName == map[]
    ensures var w := WarmPermissions(s, ps);
            && w == s.(permissions := w.permissions, permsByName := w.permsByName)
            && (forall p <- ps :: p.name in w.permsByName && p.id in w.permissions && w.permissions[p.id] == p)
            && (forall n <- w.permsByName :: w.permsByName[n] in ps && w.permsByName[n].name == n)
  {
    if ps != [] {
      var init, last := ps[..|ps| - 1], ps[|ps| - 1];
      assert ps == init + [last];
      WarmedPermissions(s, init);
    }
  }

  /** Every permission the name index leads to has that name in the id index. */
  predicate Resolves(s: L1) {
    forall n <- s.permsByName :: s.permsByName[n].id in s.permissions && s.permissions[s.permsByName[n].id].name == n
  }

  function Known(s: L1, ns: seq<Name>): set<Name> { set n | n in ns && n in s.permsByName }

  lemma KnownSnoc(s: L1, ns: seq<Name>, n: Name)
    ensures Known(s, ns + [n]) == Known(s, ns) + (if n in s.permsByName then {n} else {})
  {
  }

  lemma {:induction false} WarmedNames(s: L1, rid: Id, ns: seq<Name>)
    requires Resolves(s) && rid in s.roles
    ensures var w := WarmNames(s, rid, ns);
            && w == s.(rolePerms := w.rolePerms)
            && Members(w.rolePerms, rid) == Members(s.rolePerms, rid) + Known(s, ns)
            && forall o | o != rid :: Members(w.rolePerms, o) == Members(s.rolePerms, o)
  {
    if ns != [] {
      var init, last := ns[..|ns| - 1], ns[|ns| - 1];
      WarmedNames(s, rid, init);
      KnownSnoc(s, init, last);
      assert ns == init + [last];
    }
  }

  predicate Listed(rs: seq<Role>, rid: Id) { exists r <- rs :: r.id == rid }

  lemma ListedSnoc(rs: seq<Role>, r: Role, rid: Id)
    ensures Listed(rs + [r], rid) <==> Listed(rs, rid) || r.id == rid
  {
  }

  lemma {:induction false} WarmedRoles(s: L1, rs: seq<Role>, names: map<Id, seq<Name>>, rid: Id)
    requires Resolves(s) && forall r <- rs :: r.id in names
    ensures var w := WarmRoles(s, rs, names);
            && w == s.(roles := w.roles, rolesByName := w.rolesByName, rolePerms := w.rolePerms)
            && Members(w.rolePerms, rid) ==
               Members(s.rolePerms, rid) + if Listed(rs, rid) && rid in names then Known(s, names[rid]) else {}
  {
    if rs != [] {
      var init, last := rs[..|rs| - 1], rs[|rs| - 1];
      WarmedRoles(s, init, names, rid);
      assert rs == init + [last];
      ListedSnoc(init, last, rid);
      var mid := SaveRole1(WarmRoles(s, init, names), last);
      assert Known(mid, names[last.id]) == Known(s, names[last.id]);
      WarmedNames(mid, last.id, names[last.id]);
    }
  }

  lemma AnswersAreUnique(s: Layered, ps: seq<Permission>, rs: seq<Role>, names: map<Id, seq<Name>>)
    requires Consistent(s) && FullAnswers(s.redis, ps, rs, names)
    ensures forall p <- ps, q <- ps :: p.id == q.id ==> p == q
    ensures forall rid :: Listed(rs, rid) <==> rid in s.redis.roles
  {
  }

  /** The non-empty names L2 resolves for a role. */
  function Resolved(s: L2, rid: Id): set<Name> { set n | n in L2Names(s, rid) && n != "" }

  lemma ResolvedAreKnown(s: Layered, ps: seq<Permission>, rs: seq<Role>, names: map<Id, seq<Name>>, rid: Id)
    requires Consistent(s) && s.mem == EmptyL1 && FullAnswers(s.redis, ps, rs, names) && rid in names
    ensures Known(WarmPermissions(s.mem, ps), names[rid]) == Resolved(s.redis, rid)
  {
    AnswersAreUnique(s, ps, rs, names);
    WarmedPermissions(s.mem, ps);
    forall n <- L2Names(s.redis, rid) ensures n in WarmPermissions(s.mem, ps).permsByName {
      var pid :| pid in s.redis.permHash && s.redis.permHash[pid].name == n;
      assert s.redis.permHash[pid] in ps;
    }
  }

  lemma WarmedRole(s: Layered, ps: seq<Permission>, rs: seq<Role>, names: map<Id, seq<Name>>, rid: Id)
    requires Consistent(s) && s.mem == EmptyL1 && FullAnswers(s.redis, ps, rs, names)
    ensures var w := Warm(s.mem, ps, rs, names);
            w.userRoles == map[] && Members(w.rolePerms, rid) == if rid in s.redis.roles then Resolved(s.redis, rid) else {}
  {
    AnswersAreUnique(s, ps, rs, names);
    WarmedPermissions(s.mem, ps);
    WarmedRoles(WarmPermissions(s.mem, ps), rs, names, rid);
    if rid in s.redis.roles {
      assert Listed(rs, rid);
      ResolvedAreKnown(s, ps, rs, names, rid);
    }
  }

  /** Warming an empty L1 from a consistent L2, whatever the order of its answers: each role L2 lists gets
      exactly the non-empty names L2 resolves for it, also where two ids share a name; no other role
      gets any; and nobody has any permission, as user roles are not copied. */
  lemma WarmedCacheIsExact(s: Layered, ps: seq<Permission>, rs: seq<Role>, names: map<Id, seq<Name>>)
    requires Consistent(s) && s.mem == EmptyL1 && FullAnswers(s.redis, ps, rs, names)
    ensures var w := Warm(s.mem, ps, rs, names);
            && (forall rid: Id :: Members(w.rolePerms, rid) == if rid in s.redis.roles then Resolved(s.redis, rid) else {})
            && (forall user: Id, perm: Name :: !L1Has(w, user, perm))
  {
    var w := Warm(s.mem, ps, rs, names);
    forall rid: Id
      ensures w.userRoles == map[] && Members(w.rolePerms, rid) == if rid in s.redis.roles then Resolved(s.redis, rid) else {}
    {
      WarmedRole(s, ps, rs, names, rid);
    }
    WarmedRole(s, ps, rs, names, "");
  }

  // ---- consistency needs no condition ----------------------------------------------------

  lemma {:induction false} WarmPermissionsConsistent(s: Layered, ps: seq<Permission>)
    requires Consistent(s)
    ensures Consistent(s.(mem := WarmPermissions(s.mem, ps)))
  {
    if ps != [] { WarmPermissionsConsistent(s, ps[..|ps| - 1]); }
  }

  lemma {:induction false} WarmNamesConsistent(s: Layered, rid: Id, ns: seq<Name>)
    requires Consistent(s)
    ensures Consistent(s.(mem := WarmNames(s.mem, rid, ns)))
  {
    if ns != [] { WarmNamesConsistent(s, rid, ns[..|ns| - 1]); }
  }

  lemma {:induction false} WarmRolesConsistent(s: Layered, rs: seq<Role>, names: map<Id, seq<Name>>)
    requires Consistent(s) && forall r <- rs :: r.id in names
    ensures Consistent(s.(mem := WarmRoles(s.mem, rs, names)))
  {
    if rs != [] {
      var init, last := rs[..|rs| - 1], rs[|rs| - 1];
      WarmRolesConsistent(s, init, names);
      WarmNamesConsistent(s.(mem := SaveRole1(WarmRoles(s.mem, init, names), last)), last.id, names[last.id]);
    }
  }

  lemma WarmConsistent(s: Layered, ps: seq<Permission>, rs: seq<Role>, names: map<Id, seq<Name>>)
    requires Consistent(s) && forall r <- rs :: r.id in names
    ensures Consistent(s.(mem := Warm(s.mem, ps, rs, names)))
  {
    WarmPermissionsConsistent(s, ps);
    WarmRolesConsistent(s.(mem := WarmPermissions(s.mem, ps)), rs, names);
  }

  lemma HalvesConsistent(s: Layered, op: Op, fault: Fault)
    requires Consistent(s)
    ensures Consistent(RedisHalf(s, op, fault)) && Consistent(MemHalf(s, op))
  {
  }
}
