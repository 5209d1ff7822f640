/** What the moves of a run of the layered store say by themselves about its tables: every entry is there
    because some save or assignment put it there, and is what the last one put. */
module RbacTrace {
  import opened Options
  import opened Rbac
  import opened RbacRuns

  // ---- L1: what has been applied since the last restart -----------------------------------

  /** The operation that move `n - 1` applies to L1, if any. */
  function AppliedLast(states: seq<State>, moves: Moves, n: nat): Option<Op>
    requires IsRun(states, moves) && 0 < n <= |moves|
  {
    if moves[n - 1].1 == Apply then Some(states[n - 1].pending[moves[n - 1].0].op) else None
  }

  /** The last role applied under a name. */
  function RoleNamed(states: seq<State>, moves: Moves, n: nat, name: Name): Option<Role>
    requires IsRun(states, moves) && n <= |moves|
  {
    if n == 0 || moves[n - 1].1 == Restart then None
    else
      match AppliedLast(states, moves, n)
      case Some(SaveRole(r)) => if r.name == name then Some(r) else RoleNamed(states, moves, n - 1, name)
      case _ => RoleNamed(states, moves, n - 1, name)
  }

  /** The last role applied under an id. */
  function RoleOf(states: seq<State>, moves: Moves, n: nat, id: Id): Option<Role>
    requires IsRun(states, moves) && n <= |moves|
  {
    if n == 0 || moves[n - 1].1 == Restart then None
    else
      match AppliedLast(states, moves, n)
      case Some(SaveRole(r)) => if r.id == id then Some(r) else RoleOf(states, moves, n - 1, id)
      case _ => RoleOf(states, moves, n - 1, id)
  }

  /** The last permission applied under a name, and under an id. */
  function PermissionNamed(states: seq<State>, moves: Moves, n: nat, name: Name): Option<Permission>
    requires IsRun(states, moves) && n <= |moves|
  {
    if n == 0 || moves[n - 1].1 == Restart then None
    else
      match AppliedLast(states, moves, n)
      case Some(SavePermission(p)) => if p.name == name then Some(p) else PermissionNamed(states, moves, n - 1, name)
      case _ => PermissionNamed(states, moves, n - 1, name)
  }

  function PermissionOf(states: seq<State>, moves: Moves, n: nat, id: Id): Option<Permission>
    requires IsRun(states, moves) && n <= |moves|
  {
    if n == 0 || moves[n - 1].1 == Restart then None
    else
      match AppliedLast(states, moves, n)
      case Some(SavePermission(p)) => if p.id == id then Some(p) else PermissionOf(states, moves, n - 1, id)
      case _ => PermissionOf(states, moves, n - 1, id)
  }

  function Entry<V>(m: map<string, V>, k: string): Option<V> { if k in m then Some(m[k]) else None }

  /** In every run: L1's four tables of roles and permissions hold, under each name and each id, exactly what
      was last applied under it since the last restart. */
  lemma {:induction false} MemoryHoldsTheLast(states: seq<State>, moves: Moves, n: nat, key: string)
    requires IsRun(states, moves) && n <= |moves|
    ensures Entry(states[n].mem.rolesByName, key) == RoleNamed(states, moves, n, key)
    ensures Entry(states[n].mem.roles, key) == RoleOf(states, moves, n, key)
    ensures Entry(states[n].mem.permsByName, key) == PermissionNamed(states, moves, n, key)
    ensures Entry(states[n].mem.permissions, key) == PermissionOf(states, moves, n, key)
  {
    if n > 0 {
      MemoryHoldsTheLast(states, moves, n - 1, key);
      MoveOnTables(states[n - 1], moves[n - 1].0, moves[n - 1].1, key);
    }
  }

  /** What one move does to one key of the four tables. */
  lemma MoveOnTables(s: State, l: Label, m: Move, key: string)
    requires RbacRuns.Enabled(s, l, m)
    ensures var (a, b) := (s.mem, RbacRuns.Step(s, l, m).mem);
            if m == Restart then
              Entry(b.rolesByName, key) == None && Entry(b.roles, key) == None
              && Entry(b.permsByName, key) == None && Entry(b.permissions, key) == None
            else
              var op := if m == Apply then Some(s.pending[l].op) else None;
              && Entry(b.rolesByName, key) ==
                 (if op.Some? && op.value.SaveRole? && op.value.r.name == key then Some(op.value.r) else Entry(a.rolesByName, key))
              && Entry(b.roles, key) ==
                 (if op.Some? && op.value.SaveRole? && op.value.r.id == key then Some(op.value.r) else Entry(a.roles, key))
              && Entry(b.permsByName, key) ==
                 (if op.Some? && op.value.SavePermission? && op.value.p.name == key then Some(op.value.p) else Entry(a.permsByName, key))
              && Entry(b.permissions, key) ==
                 (if op.Some? && op.value.SavePermission? && op.value.p.id == key then Some(op.value.p) else Entry(a.permissions, key))
  {
  }

  /** Move `i` applies a role of that name. */
  predicate AppliesName(states: seq<State>, moves: Moves, i: nat, name: Name)
    requires IsRun(states, moves) && i < |moves|
  {
    moves[i].1 == Apply && states[i].pending[moves[i].0].op.SaveRole? && states[i].pending[moves[i].0].op.r.name == name
  }

  /** Move `k` applies the role, and no move since is a restart or applies one of the same name. */
  predicate AppliedRoleAt(states: seq<State>, moves: Moves, n: nat, k: nat, name: Name, r: Role)
    requires IsRun(states, moves) && n <= |moves|
  {
    && k < n && AppliesName(states, moves, k, name) && states[k].pending[moves[k].0].op.r == r
    && forall i | k < i < n :: moves[i].1 != Restart && !AppliesName(states, moves, i, name)
  }

  /** By positions: a role name is known to L1 if and only if some role of that name was applied since the
      last restart, and it leads to the last such role. */
  lemma {:induction false} RoleNameKnownExactly(states: seq<State>, moves: Moves, n: nat, name: Name)
    requires IsRun(states, moves) && n <= |moves|
    ensures name in states[n].mem.rolesByName <==> exists k, r :: AppliedRoleAt(states, moves, n, k, name, r)
    ensures name in states[n].mem.rolesByName ==>
              exists k :: AppliedRoleAt(states, moves, n, k, name, states[n].mem.rolesByName[name])
  {
    MemoryHoldsTheLast(states, moves, n, name);
    RoleNamedAt(states, moves, n, name);
  }

  lemma {:induction false} RoleNamedAt(states: seq<State>, moves: Moves, n: nat, name: Name)
    requires IsRun(states, moves) && n <= |moves|
    ensures RoleNamed(states, moves, n, name).None? ==> forall k, r :: !AppliedRoleAt(states, moves, n, k, name, r)
    ensures RoleNamed(states, moves, n, name).Some? ==>
              exists k :: AppliedRoleAt(states, moves, n, k, name, RoleNamed(states, moves, n, name).value)
  {
    if n > 0 {
      var m := n - 1;
      RoleNamedAt(states, moves, m, name);
      if AppliesName(states, moves, m, name) {
        assert AppliedRoleAt(states, moves, n, m, name, states[m].pending[moves[m].0].op.r);
      } else {
        forall k: nat, r | AppliedRoleAt(states, moves, n, k, name, r)
          ensures moves[m].1 != Restart && AppliedRoleAt(states, moves, m, k, name, r)
        {
        }
        if RoleNamed(states, moves, n, name).Some? {
          var r := RoleNamed(states, moves, n, name).value;
          var k :| AppliedRoleAt(states, moves, m, k, name, r);
          assert AppliedRoleAt(states, moves, n, k, name, r);
        }
      }
    }
  }

  // ---- L2: what has reached Redis ---------------------------------------------------------

  /** The operation that move `i` carries out in Redis, if any. */
  function ReachedRedis(moves: Moves, i: nat): Option<Op>
    requires i < |moves|
  {
    if moves[i].1.Begin? && moves[i].1.fault != Refused then Some(moves[i].1.op) else None
  }

  function RoleInRedis(moves: Moves, n: nat, id: Id): Option<Role>
    requires n <= |moves|
  {
    if n == 0 then None
    else
      match ReachedRedis(moves, n - 1)
      case Some(SaveRole(r)) => if r.id == id then Some(r) else RoleInRedis(moves, n - 1, id)
      case _ => RoleInRedis(moves, n - 1, id)
  }

  function PermissionInRedis(moves: Moves, n: nat, id: Id): Option<Permission>
    requires n <= |moves|
  {
    if n == 0 then None
    else
      match ReachedRedis(moves, n - 1)
      case Some(SavePermission(p)) => if p.id == id then Some(p) else PermissionInRedis(moves, n - 1, id)
      case _ => PermissionInRedis(moves, n - 1, id)
  }

  /** In every run: Redis lists a role, and holds its hash, if and only if a save of its id reached it, with
      the last value; permissions likewise; and a role has a permission id if and only if an assignment of it
      reached Redis. */
  lemma {:induction false} RedisHoldsTheLast(states: seq<State>, moves: Moves, n: nat, id: Id, rid: Id)
    requires IsRun(states, moves) && n <= |moves|
    ensures Entry(states[n].redis.roleHash, id) == RoleInRedis(moves, n, id)
    ensures id in states[n].redis.roles <==> RoleInRedis(moves, n, id).Some?
    ensures Entry(states[n].redis.permHash, id) == PermissionInRedis(moves, n, id)
    ensures id in states[n].redis.perms <==> PermissionInRedis(moves, n, id).Some?
    ensures id in Members(states[n].redis.rolePerms, rid)
            <==> exists i | 0 <= i < n :: ReachedRedis(moves, i) == Some(AssignPermission(rid, id))
  {
    if n > 0 {
      RedisHoldsTheLast(states, moves, n - 1, id, rid);
      MoveOnRedis(states[n - 1], moves[n - 1].0, moves[n - 1].1, id, rid);
      var given := ReachedRedis(moves, n - 1) == Some(AssignPermission(rid, id));
      assert (exists i | 0 <= i < n :: ReachedRedis(moves, i) == Some(AssignPermission(rid, id)))
             <==> given || exists i | 0 <= i < n - 1 :: ReachedRedis(moves, i) == Some(AssignPermission(rid, id));
    }
  }

  lemma MoveOnRedis(s: State, l: Label, m: Move, id: Id, rid: Id)
    requires RbacRuns.Enabled(s, l, m)
    ensures var (a, b) := (s.redis, RbacRuns.Step(s, l, m).redis);
            var op := if m.Begin? && m.fault != Refused then Some(m.op) else None;
            && Entry(b.roleHash, id) ==
               (if op.Some? && op.value.SaveRole? && op.value.r.id == id then Some(op.value.r) else Entry(a.roleHash, id))
            && (id in b.roles <==> id in a.roles || (op.Some? && op.value.SaveRole? && op.value.r.id == id))
            && Entry(b.permHash, id) ==
               (if op.Some? && op.value.SavePermission? && op.value.p.id == id then Some(op.value.p) else Entry(a.permHash, id))
            && (id in b.perms <==> id in a.perms || (op.Some? && op.value.SavePermission? && op.value.p.id == id))
            && (id in Members(b.rolePerms, rid) <==> id in Members(a.rolePerms, rid) || op == Some(AssignPermission(rid, id)))
  {
  }

  // ---- L1's role permissions --------------------------------------------------------------

  /** Move `i` gives a role a name in L1: it applies an assignment of a permission that L1 knows by that
      name, or takes in a name that L1's index resolves to one, and L1 knows the role. */
  predicate GivesAt(states: seq<State>, moves: Moves, i: nat, rid: Id, name: Name)
    requires IsRun(states, moves) && i < |moves|
  {
    var s := states[i];
    && moves[i].1 == Apply && rid in s.mem.roles
    && match s.pending[moves[i].0].op
       case AssignPermission(o, pid) => o == rid && pid in s.mem.permissions && s.mem.permissions[pid].name == name
       case Recall(o, asked) =>
         && o == rid && asked in s.mem.permsByName && s.mem.permsByName[asked].id in s.mem.permissions
         && s.mem.permissions[s.mem.permsByName[asked].id].name == name
       case _ => false
  }

  predicate GivenSince(states: seq<State>, moves: Moves, n: nat, i: nat, rid: Id, name: Name)
    requires IsRun(states, moves) && n <= |moves|
  {
    i < n && GivesAt(states, moves, i, rid, name) && forall x | i < x < n :: moves[x].1 != Restart
  }

  /** In every run: a role has a name in L1 if and only if some move since the last restart gave it. */
  lemma {:induction false} RoleHasExactly(states: seq<State>, moves: Moves, n: nat, rid: Id, name: Name)
    requires IsRun(states, moves) && n <= |moves|
    ensures name in Members(states[n].mem.rolePerms, rid) <==>
              exists i | 0 <= i < n :: GivenSince(states, moves, n, i, rid, name)
  {
    if n > 0 {
      var m := n - 1;
      RoleHasExactly(states, moves, m, rid, name);
      GivesOnMove(states, moves, m, rid, name);
      if GivesAt(states, moves, m, rid, name) {
        assert GivenSince(states, moves, n, m, rid, name);
      } else if name in Members(states[n].mem.rolePerms, rid) {
        var i :| 0 <= i < m && GivenSince(states, moves, m, i, rid, name);
        assert GivenSince(states, moves, n, i, rid, name);
      }
      if exists i | 0 <= i < n :: GivenSince(states, moves, n, i, rid, name) {
        var i :| 0 <= i < n && GivenSince(states, moves, n, i, rid, name);
        assert i < m ==> GivenSince(states, moves, m, i, rid, name) && moves[m].1 != Restart;
      }
    }
  }

  lemma GivesOnMove(states: seq<State>, moves: Moves, i: nat, rid: Id, name: Name)
    requires IsRun(states, moves) && i < |moves|
    ensures name in Members(states[i + 1].mem.rolePerms, rid) <==>
              GivesAt(states, moves, i, rid, name) || (moves[i].1 != Restart && name in Members(states[i].mem.rolePerms, rid))
  {
    var s, l := states[i], moves[i].0;
    if moves[i].1 == Apply {
      var op := s.pending[l].op;
      if op.AssignPermission? || op.Recall? { GivingChanges(s.mem, op, rid); }
    }
  }
}
