/** Many requests on the layered permission store at once: each write is cut between its Redis half and
    its memory half, each warming between every fact it reads and the moment L1 takes it in. */
module RbacRuns {
  import opened Rbac

  type Label = nat

  /** What is still to reach L1, and the move it comes from. */
  datatype Todo = Todo(op: Op, from: nat)

  /** `time` counts the moves made. */
  datatype State = State(mem: L1, redis: L2, pending: map<Label, Todo>, time: nat)

  /** Begin is a write's Redis half, Learn a fact read by a warming, Apply the L1 half of either. Restart
      empties L1 and forgets what was on its way there. */
  datatype Move = Begin(op: Op, fault: Fault) | Learn(op: Op) | Apply | Restart

  const Start := State(EmptyL1, EmptyL2, map[], 0)

  function Both(s: State): Layered { Layered(s.mem, s.redis) }

  /** What a warming may read: a listed permission or role, a non-empty name of a role. */
  predicate Answered(s: L2, op: Op) {
    match op
    case SavePermission(p) => p.id in s.permHash && s.permHash[p.id] == p
    case SaveRole(r) => r.id in s.roleHash && s.roleHash[r.id] == r
    case Recall(rid, name) => name in L2Names(s, rid) && name != ""
    case AssignPermission(_, _) => false
    case AssignRole(_, _) => false
    case RemoveRole(_, _) => false
  }

  predicate Enabled(s: State, l: Label, m: Move) {
    match m
    case Begin(op, _) => l !in s.pending && !op.Recall?
    case Learn(op) => l !in s.pending && Answered(s.redis, op)
    case Apply => l in s.pending
    case Restart => true
  }

  function Step(s: State, l: Label, m: Move): State
    requires Enabled(s, l, m)
  {
    match m
    case Begin(op, fault) =>
      State(s.mem, if fault == Refused then s.redis else OnRedis(s.redis, op),
            if fault == Done then s.pending[l := Todo(op, s.time)] else s.pending, s.time + 1)
    case Learn(op) => State(s.mem, s.redis, s.pending[l := Todo(op, s.time)], s.time + 1)
    case Apply => State(OnMem(s.mem, s.pending[l].op), s.redis, s.pending - {l}, s.time + 1)
    case Restart => State(EmptyL1, s.redis, map[], s.time + 1)
  }

  type Moves = seq<(Label, Move)>

  predicate IsRun(states: seq<State>, moves: Moves) {
    && |states| == |moves| + 1 && states[0] == Start
    && forall i | 0 <= i < |moves| ::
         Enabled(states[i], moves[i].0, moves[i].1) && states[i + 1] == Step(states[i], moves[i].0, moves[i].1)
  }

  /** A write with nothing in between is its two moves. */
  lemma WholeWrite(s: State, l: Label, op: Op, fault: Fault)
    requires Enabled(s, l, Begin(op, fault))
    ensures var t := Step(s, l, Begin(op, fault));
            if fault == Done then Enabled(t, l, Apply) && Both(Step(t, l, Apply)) == Rbac.Step(Both(s), op, fault)
            else Both(t) == Rbac.Step(Both(s), op, fault)
  {
  }

  lemma {:induction false} RunConsistent(states: seq<State>, moves: Moves, i: nat)
    requires IsRun(states, moves) && i <= |moves|
    ensures Consistent(Both(states[i])) && states[i].time == i
  {
    if i > 0 {
      RunConsistent(states, moves, i - 1);
      var s, l := states[i - 1], moves[i - 1].0;
      match moves[i - 1].1
      case Begin(op, fault) => HalvesConsistent(Both(s), op, fault);
      case Apply => HalvesConsistent(Both(s), s.pending[l].op, Done);
      case _ =>
    }
  }

  // ---- role names: exactly which moves break containment ----------------------------------

  /** Role by role, L1's names are names L2 resolves. */
  predicate RolesContained(s: State) {
    forall rid <- s.mem.rolePerms :: s.mem.rolePerms[rid] <= L2Names(s.redis, rid)
  }

  /** Saving `p` takes away an old name that L1 shows for a role which has it through this id alone. */
  predicate Orphans(s: State, p: Permission) {
    && p.id in s.redis.permHash && s.redis.permHash[p.id].name != p.name
    && exists rid <- s.mem.rolePerms ::
         && s.redis.permHash[p.id].name in s.mem.rolePerms[rid] && p.id in Members(s.redis.rolePerms, rid)
         && forall o <- Members(s.redis.rolePerms, rid) | o in s.redis.permHash && o != p.id ::
              s.redis.permHash[o].name != s.redis.permHash[p.id].name
  }

  /** The permission id whose L1 name the operation gives to a role. */
  function GivenId(mem: L1, op: Op): set<Id> {
    match op
    case AssignPermission(_, pid) => {pid}
    case Recall(_, name) => if name in mem.permsByName then {mem.permsByName[name].id} else {}
    case SavePermission(_) => {}
    case SaveRole(_) => {}
    case AssignRole(_, _) => {}
    case RemoveRole(_, _) => {}
  }

  /** The names an L1 half gives to its role: L1's name for the id, if L1 knows the id and the role. */
  function Given(mem: L1, op: Op): set<Name> {
    set pid | pid in GivenId(mem, op) && pid in mem.permissions && op.rid in mem.roles :: mem.permissions[pid].name
  }

  predicate BreaksRoles(s: State, l: Label, m: Move)
    requires Enabled(s, l, m)
  {
    match m
    case Begin(op, fault) => fault != Refused && op.SavePermission? && Orphans(s, op.p)
    case Apply =>
      var op := s.pending[l].op;
      (op.AssignPermission? || op.Recall?) && exists n <- Given(s.mem, op) :: n !in L2Names(s.redis, op.rid)
    case Learn(_) => false
    case Restart => false
  }

  lemma SaveBreaks(s: State, l: Label, p: Permission, fault: Fault)
    requires RolesContained(s) && Enabled(s, l, Begin(SavePermission(p), fault)) && fault != Refused
    ensures RolesContained(Step(s, l, Begin(SavePermission(p), fault))) <==> !Orphans(s, p)
  {
  }

  lemma GivingBreaks(s: State, l: Label)
    requires RolesContained(s) && Enabled(s, l, Apply) && (s.pending[l].op.AssignPermission? || s.pending[l].op.Recall?)
    ensures RolesContained(Step(s, l, Apply)) <==> !BreaksRoles(s, l, Apply)
  {
    var op, s' := s.pending[l].op, Step(s, l, Apply);
    GivingChanges(s.mem, op, op.rid);
  }

  /** Every move keeps L1's role names within L2's if and only if it is none of these: a save in L2 that
      orphans a name, and an L1 half or a warming that gives a role a name L2 does not resolve for it. */
  lemma RolesBreakExactly(s: State, l: Label, m: Move)
    requires RolesContained(s) && Enabled(s, l, m)
    ensures RolesContained(Step(s, l, m)) <==> !BreaksRoles(s, l, m)
  {
    match m
    case Begin(op, fault) =>
      if op.SavePermission? && fault != Refused { SaveBreaks(s, l, op.p, fault); }
    case Apply =>
      if s.pending[l].op.AssignPermission? || s.pending[l].op.Recall? { GivingBreaks(s, l); }
    case _ =>
  }

  /** So over runs: containment holds throughout if and only if no move broke it. */
  lemma {:induction false} RolesContainedThroughout(states: seq<State>, moves: Moves, n: nat)
    requires IsRun(states, moves) && n <= |moves|
    ensures (forall i | 0 <= i <= n :: RolesContained(states[i]))
            <==> (forall i | 0 <= i < n :: !BreaksRoles(states[i], moves[i].0, moves[i].1))
  {
    if n > 0 {
      RolesContainedThroughout(states, moves, n - 1);
      if RolesContained(states[n - 1]) { RolesBreakExactly(states[n - 1], moves[n - 1].0, moves[n - 1].1); }
      assert (forall i | 0 <= i <= n :: RolesContained(states[i]))
             <==> (forall i | 0 <= i <= n - 1 :: RolesContained(states[i])) && RolesContained(states[n]);
      assert (forall i | 0 <= i < n :: !BreaksRoles(states[i], moves[i].0, moves[i].1))
             <==> (forall i | 0 <= i < n - 1 :: !BreaksRoles(states[i], moves[i].0, moves[i].1))
                  && !BreaksRoles(states[n - 1], moves[n - 1].0, moves[n - 1].1);
    }
  }

  // ---- grants: exactly which moves break containment --------------------------------------

  /** What L1 grants, L2 grants. */
  ghost predicate GrantsContained(s: State) {
    forall user: Id, perm: Name :: L1Has(s.mem, user, perm) ==> L2Has(s.redis, user, perm)
  }

  /** L2 grants the user a name through another permission id. */
  predicate GrantsWithoutId(s: L2, user: Id, perm: Name, pid: Id) {
    exists rid <- Members(s.userRoles, user), o <- Members(s.rolePerms, rid) ::
      o != pid && o in s.permHash && s.permHash[o].name == perm
  }

  /** L2 grants the user a name through another role. */
  predicate GrantsWithoutRole(s: L2, user: Id, perm: Name, rid: Id) {
    exists o <- Members(s.userRoles, user) :: o != rid && perm in L2Names(s, o)
  }

  ghost predicate BreaksGrants(s: State, l: Label, m: Move)
    requires Enabled(s, l, m)
  {
    match m
    case Begin(op, fault) =>
      fault != Refused &&
      (match op
       case SavePermission(p) =>
         && p.id in s.redis.permHash && s.redis.permHash[p.id].name != p.name
         && exists user: Id ::
              L1Has(s.mem, user, s.redis.permHash[p.id].name) && !GrantsWithoutId(s.redis, user, s.redis.permHash[p.id].name, p.id)
       case RemoveRole(user, rid) =>
         exists perm: Name :: L1Has(s.mem, user, perm) && !GrantsWithoutRole(s.redis, user, perm, rid)
       case _ => false)
    case Apply =>
      (match s.pending[l].op
       case AssignPermission(rid, _) => GivesTooMuch(s, s.pending[l].op)
       case Recall(rid, _) => GivesTooMuch(s, s.pending[l].op)
       case AssignRole(user, rid) =>
         rid in s.mem.roles && exists perm <- Members(s.mem.rolePerms, rid) :: !L2Has(s.redis, user, perm)
       case _ => false)
    case Learn(_) => false
    case Restart => false
  }

  /** Some user with the role is not granted, by L2, a name the operation gives the role in L1. */
  ghost predicate GivesTooMuch(s: State, op: Op)
    requires op.AssignPermission? || op.Recall?
  {
    exists user: Id, perm: Name ::
      op.rid in Members(s.mem.userRoles, user) && perm in Given(s.mem, op) && !L2Has(s.redis, user, perm)
  }

  lemma GrantsAfterSave(s: L2, p: Permission, user: Id, perm: Name)
    ensures L2Has(SavePermission2(s, p), user, perm) <==>
              GrantsWithoutId(s, user, perm, p.id)
              || (perm == p.name && exists rid <- Members(s.userRoles, user) :: p.id in Members(s.rolePerms, rid))
  {
    var s' := SavePermission2(s, p);
    if L2Has(s', user, perm) {
      var rid :| rid in Members(s.userRoles, user) && perm in L2Names(s', rid);
      var o :| o in Members(s.rolePerms, rid) && o in s'.permHash && s'.permHash[o].name == perm;
      assert o != p.id ==> s.permHash[o].name == perm;
    }
    if GrantsWithoutId(s, user, perm, p.id) {
      var rid, o :| rid in Members(s.userRoles, user) && o in Members(s.rolePerms, rid)
                    && o != p.id && o in s.permHash && s.permHash[o].name == perm;
      assert s'.permHash[o].name == perm;
      assert perm in L2Names(s', rid);
    }
    if perm == p.name && exists rid <- Members(s.userRoles, user) :: p.id in Members(s.rolePerms, rid) {
      var rid :| rid in Members(s.userRoles, user) && p.id in Members(s.rolePerms, rid);
      assert s'.permHash[p.id].name == perm;
      assert perm in L2Names(s', rid);
    }
  }

  lemma GrantsBeforeSave(s: L2, pid: Id, user: Id, perm: Name)
    ensures L2Has(s, user, perm) <==>
              GrantsWithoutId(s, user, perm, pid)
              || (pid in s.permHash && s.permHash[pid].name == perm
                  && exists rid <- Members(s.userRoles, user) :: pid in Members(s.rolePerms, rid))
  {
    if L2Has(s, user, perm) {
      var rid :| rid in Members(s.userRoles, user) && perm in L2Names(s, rid);
      var o :| o in Members(s.rolePerms, rid) && o in s.permHash && s.permHash[o].name == perm;
    }
    if GrantsWithoutId(s, user, perm, pid) {
      var rid, o :| rid in Members(s.userRoles, user) && o in Members(s.rolePerms, rid)
                    && o != pid && o in s.permHash && s.permHash[o].name == perm;
      assert perm in L2Names(s, rid);
    }
    if pid in s.permHash && s.permHash[pid].name == perm && exists rid <- Members(s.userRoles, user) :: pid in Members(s.rolePerms, rid) {
      var rid :| rid in Members(s.userRoles, user) && pid in Members(s.rolePerms, rid);
      assert perm in L2Names(s, rid);
    }
  }

  lemma SaveBreaksGrants(s: State, l: Label, p: Permission, fault: Fault)
    requires GrantsContained(s) && Enabled(s, l, Begin(SavePermission(p), fault)) && fault != Refused
    ensures GrantsContained(Step(s, l, Begin(SavePermission(p), fault))) <==> !BreaksGrants(s, l, Begin(SavePermission(p), fault))
  {
    var s' := Step(s, l, Begin(SavePermission(p), fault));
    forall user: Id, perm: Name | L1Has(s.mem, user, perm)
      ensures L2Has(s'.redis, user, perm) <==>
                !(p.id in s.redis.permHash && s.redis.permHash[p.id].name == perm != p.name && !GrantsWithoutId(s.redis, user, perm, p.id))
    {
      GrantsAfterSave(s.redis, p, user, perm);
      GrantsBeforeSave(s.redis, p.id, user, perm);
    }
  }

  lemma RemovalBreaksGrants(s: State, l: Label, user: Id, rid: Id, fault: Fault)
    requires GrantsContained(s) && Enabled(s, l, Begin(RemoveRole(user, rid), fault)) && fault != Refused
    ensures GrantsContained(Step(s, l, Begin(RemoveRole(user, rid), fault)))
            <==> !BreaksGrants(s, l, Begin(RemoveRole(user, rid), fault))
  {
    var s' := Step(s, l, Begin(RemoveRole(user, rid), fault));
    assert Members(s'.redis.userRoles, user) == Members(s.redis.userRoles, user) - {rid};
    forall perm: Name ensures L2Has(s'.redis, user, perm) <==> GrantsWithoutRole(s.redis, user, perm, rid) {
      assert forall o :: L2Names(s'.redis, o) == L2Names(s.redis, o);
    }
    forall o: Id, perm: Name | o != user ensures L2Has(s'.redis, o, perm) <==> L2Has(s.redis, o, perm) {
      assert Members(s'.redis.userRoles, o) == Members(s.redis.userRoles, o);
      assert forall q :: L2Names(s'.redis, q) == L2Names(s.redis, q);
    }
  }

  lemma GivingChanges(s: L1, op: Op, rid: Id)
    requires op.AssignPermission? || op.Recall?
    ensures OnMem(s, op).userRoles == s.userRoles
    ensures Members(OnMem(s, op).rolePerms, rid) == Members(s.rolePerms, rid) + if rid == op.rid then Given(s, op) else {}
  {
  }

  lemma GrantsAfterGiving(s: L1, op: Op, user: Id, perm: Name)
    requires op.AssignPermission? || op.Recall?
    ensures L1Has(OnMem(s, op), user, perm) <==>
              L1Has(s, user, perm) || (op.rid in Members(s.userRoles, user) && perm in Given(s, op))
  {
    var s', given := OnMem(s, op), Given(s, op);
    forall rid ensures Members(s'.rolePerms, rid) == Members(s.rolePerms, rid) + if rid == op.rid then given else {} {
      GivingChanges(s, op, rid);
    }
    GivingChanges(s, op, op.rid);
    if L1Has(s, user, perm) {
      var rid :| rid in Members(s.userRoles, user) && perm in Members(s.rolePerms, rid);
      assert perm in Members(s'.rolePerms, rid);
    }
  }

  lemma GivingBreaksGrants(s: State, l: Label)
    requires GrantsContained(s) && Enabled(s, l, Apply) && (s.pending[l].op.AssignPermission? || s.pending[l].op.Recall?)
    ensures GrantsContained(Step(s, l, Apply)) <==> !GivesTooMuch(s, s.pending[l].op)
  {
    var op, s' := s.pending[l].op, Step(s, l, Apply);
    forall user: Id, perm: Name
      ensures L1Has(s'.mem, user, perm) <==>
                L1Has(s.mem, user, perm) || (op.rid in Members(s.mem.userRoles, user) && perm in Given(s.mem, op))
    {
      GrantsAfterGiving(s.mem, op, user, perm);
    }
  }

  lemma AssigningBreaksGrants(s: State, l: Label, user: Id, rid: Id)
    requires GrantsContained(s) && Enabled(s, l, Apply) && s.pending[l].op == AssignRole(user, rid)
    ensures GrantsContained(Step(s, l, Apply)) <==> !BreaksGrants(s, l, Apply)
  {
    var s' := Step(s, l, Apply);
    forall o: Id, perm: Name
      ensures L1Has(s'.mem, o, perm) <==>
                L1Has(s.mem, o, perm) || (o == user && rid in s.mem.roles && perm in Members(s.mem.rolePerms, rid))
    {
      if L1Has(s.mem, o, perm) {
        var q :| q in Members(s.mem.userRoles, o) && perm in Members(s.mem.rolePerms, q);
        assert q in Members(s'.mem.userRoles, o);
      }
      if o == user && rid in s.mem.roles && perm in Members(s.mem.rolePerms, rid) {
        assert rid in Members(s'.mem.userRoles, user);
      }
    }
  }

  /** L1 shows less, or L2 more: containment cannot break. */
  lemma GrantsMonotone(s: State, s': State)
    requires GrantsContained(s)
    requires forall user: Id, perm: Name :: L1Has(s'.mem, user, perm) ==> L1Has(s.mem, user, perm)
    requires forall user: Id, perm: Name :: L2Has(s.redis, user, perm) ==> L2Has(s'.redis, user, perm)
    ensures GrantsContained(s')
  {
  }

  lemma RedisGrows(s: L2, op: Op)
    requires op.SaveRole? || op.AssignPermission? || op.AssignRole?
    ensures forall user: Id, perm: Name :: L2Has(s, user, perm) ==> L2Has(OnRedis(s, op), user, perm)
  {
    var s' := OnRedis(s, op);
    forall user: Id, perm: Name | L2Has(s, user, perm) ensures L2Has(s', user, perm) {
      var rid :| rid in Members(s.userRoles, user) && perm in L2Names(s, rid);
      assert rid in Members(s'.userRoles, user) && perm in L2Names(s', rid);
    }
  }

  lemma MemShrinks(s: L1, op: Op)
    requires op.SavePermission? || op.SaveRole? || op.RemoveRole?
    ensures forall user: Id, perm: Name :: L1Has(OnMem(s, op), user, perm) ==> L1Has(s, user, perm)
  {
    var s' := OnMem(s, op);
    forall user: Id, perm: Name | L1Has(s', user, perm) ensures L1Has(s, user, perm) {
      var rid :| rid in Members(s'.userRoles, user) && perm in Members(s'.rolePerms, rid);
      assert rid in Members(s.userRoles, user);
    }
  }

  /** Every move keeps what L1 grants within what L2 grants if and only if it is none of these: a save or a
      removal in L2 that takes a grant L1 still shows and L2 has in no other way; an L1 half or a warming
      that gives a role a name, or a user a role, beyond what L2 grants. */
  lemma GrantsBreakExactly(s: State, l: Label, m: Move)
    requires GrantsContained(s) && Enabled(s, l, m)
    ensures GrantsContained(Step(s, l, m)) <==> !BreaksGrants(s, l, m)
  {
    match m
    case Begin(op, fault) =>
      if fault == Refused {
      } else if op.SavePermission? {
        SaveBreaksGrants(s, l, op.p, fault);
      } else if op.RemoveRole? {
        RemovalBreaksGrants(s, l, op.user, op.rid, fault);
      } else {
        RedisGrows(s.redis, op);
        GrantsMonotone(s, Step(s, l, m));
      }
    case Apply =>
      var op := s.pending[l].op;
      if op.AssignPermission? || op.Recall? {
        GivingBreaksGrants(s, l);
      } else if op.AssignRole? {
        AssigningBreaksGrants(s, l, op.user, op.rid);
      } else {
        MemShrinks(s.mem, op);
        GrantsMonotone(s, Step(s, l, m));
      }
    case Learn(_) => GrantsMonotone(s, Step(s, l, m));
    case Restart => GrantsMonotone(s, Step(s, l, m));
  }

  /** So over runs: L1 never grants more than L2 if and only if no move broke that. */
  lemma {:induction false} GrantsContainedThroughout(states: seq<State>, moves: Moves, n: nat)
    requires IsRun(states, moves) && n <= |moves|
    ensures (forall i | 0 <= i <= n :: GrantsContained(states[i]))
            <==> (forall i | 0 <= i < n :: !BreaksGrants(states[i], moves[i].0, moves[i].1))
  {
    if n > 0 {
      GrantsContainedThroughout(states, moves, n - 1);
      if GrantsContained(states[n - 1]) { GrantsBreakExactly(states[n - 1], moves[n - 1].0, moves[n - 1].1); }
      assert (forall i | 0 <= i <= n :: GrantsContained(states[i]))
             <==> (forall i | 0 <= i <= n - 1 :: GrantsContained(states[i])) && GrantsContained(states[n]);
      assert (forall i | 0 <= i < n :: !BreaksGrants(states[i], moves[i].0, moves[i].1))
             <==> (forall i | 0 <= i < n - 1 :: !BreaksGrants(states[i], moves[i].0, moves[i].1))
                  && !BreaksGrants(states[n - 1], moves[n - 1].0, moves[n - 1].1);
    }
  }

  // ---- without renaming, role names are always contained ----------------------------------

  /** A save that reaches L2 and gives a permission id another name. */
  predicate Renames(s: State, m: Move) {
    m.Begin? && m.op.SavePermission? && m.fault != Refused
    && m.op.p.id in s.redis.permHash && s.redis.permHash[m.op.p.id].name != m.op.p.name
  }

  /** L1's permissions have L2's names, and its name index leads to a permission of that name. */
  predicate NamesAgree(s: State) {
    && (forall id <- s.mem.permissions :: id in s.redis.permHash && s.redis.permHash[id].name == s.mem.permissions[id].name)
    && (forall n <- s.mem.permsByName ::
          && s.mem.permsByName[n].id in s.mem.permissions
          && s.mem.permissions[s.mem.permsByName[n].id].name == n)
  }

  /** What is on its way to L1 is true in L2. */
  predicate StillTrue(s: L2, op: Op) {
    match op
    case SavePermission(p) => p.id in s.permHash && s.permHash[p.id].name == p.name
    case AssignPermission(rid, pid) => pid in Members(s.rolePerms, rid)
    case Recall(rid, name) => name in L2Names(s, rid)
    case SaveRole(_) => true
    case AssignRole(_, _) => true
    case RemoveRole(_, _) => true
  }

  predicate NamesInv(s: State) {
    RolesContained(s) && NamesAgree(s) && forall l <- s.pending :: StillTrue(s.redis, s.pending[l].op)
  }

  /** L2 gained assignments and kept its names. */
  predicate Grows(a: L2, b: L2) {
    && (forall pid <- a.permHash :: pid in b.permHash && b.permHash[pid].name == a.permHash[pid].name)
    && (forall rid <- a.rolePerms :: a.rolePerms[rid] <= Members(b.rolePerms, rid))
  }

  lemma GrowthKeeps(s: State, redis: L2)
    requires NamesInv(s) && Grows(s.redis, redis)
    ensures NamesInv(s.(redis := redis))
  {
    forall rid ensures L2Names(s.redis, rid) <= L2Names(redis, rid) {}
  }

  lemma ApplyKeepsNames(s: State, l: Label)
    requires NamesInv(s) && l in s.pending
    ensures NamesInv(Step(s, l, Apply))
  {
    var op, s' := s.pending[l].op, Step(s, l, Apply);
    if op.AssignPermission? || op.Recall? {
      forall n <- Given(s.mem, op) ensures n in L2Names(s.redis, op.rid) {}
      GivingBreaks(s, l);
    }
    assert NamesAgree(s');
  }

  lemma MoveKeepsNames(s: State, l: Label, m: Move)
    requires NamesInv(s) && Enabled(s, l, m) && !Renames(s, m)
    ensures NamesInv(Step(s, l, m))
  {
    match m
    case Begin(op, fault) =>
      var redis := if fault == Refused then s.redis else OnRedis(s.redis, op);
      assert Grows(s.redis, redis);
      GrowthKeeps(s, redis);
    case Apply => ApplyKeepsNames(s, l);
    case _ =>
  }

  lemma {:induction false} NamesContained(states: seq<State>, moves: Moves, n: nat)
    requires IsRun(states, moves) && n <= |moves|
    requires forall i | 0 <= i < n :: !Renames(states[i], moves[i].1)
    ensures NamesInv(states[n])
  {
    if n > 0 {
      NamesContained(states, moves, n - 1);
      MoveKeepsNames(states[n - 1], moves[n - 1].0, moves[n - 1].1);
    }
  }

  // ---- user roles: exactly which halves of which writes are left over ---------------------

  predicate AssignsInRedis(m: Move, user: Id, rid: Id) { m.Begin? && m.op == AssignRole(user, rid) && m.fault != Refused }

  predicate RemovesInRedis(m: Move, user: Id, rid: Id) { m.Begin? && m.op == RemoveRole(user, rid) && m.fault != Refused }

  predicate AssignsInMem(s: State, l: Label, m: Move, user: Id, rid: Id) {
    m == Apply && l in s.pending && s.pending[l].op == AssignRole(user, rid) && rid in s.mem.roles
  }

  predicate RemovesInMem(s: State, l: Label, m: Move, user: Id, rid: Id) {
    m == Restart || (m == Apply && l in s.pending && s.pending[l].op == RemoveRole(user, rid))
  }

  /** L1 took the role in with move `k`, and no move since took it out. */
  predicate ShownSince(states: seq<State>, moves: Moves, n: nat, user: Id, rid: Id, k: nat)
    requires IsRun(states, moves) && n <= |moves|
  {
    k < n && AssignsInMem(states[k], moves[k].0, moves[k].1, user, rid)
    && forall i | k < i < n :: !RemovesInMem(states[i], moves[i].0, moves[i].1, user, rid)
  }

  /** L2 took the role out with move `j`, and no move since put it in. */
  predicate GoneSince(moves: Moves, n: nat, user: Id, rid: Id, j: nat)
    requires n <= |moves|
  {
    j < n && RemovesInRedis(moves[j].1, user, rid) && forall i | j < i < n :: !AssignsInRedis(moves[i].1, user, rid)
  }

  lemma {:induction false} ShownExactly(states: seq<State>, moves: Moves, n: nat, user: Id, rid: Id)
    requires IsRun(states, moves) && n <= |moves|
    ensures rid in Members(states[n].mem.userRoles, user) <==> exists k | 0 <= k < n :: ShownSince(states, moves, n, user, rid, k)
  {
    if n > 0 {
      var s, l, m := states[n - 1], moves[n - 1].0, moves[n - 1].1;
      ShownExactly(states, moves, n - 1, user, rid);
      MemChanges(s, l, m, user, rid);
      if AssignsInMem(s, l, m, user, rid) {
        assert ShownSince(states, moves, n, user, rid, n - 1);
      } else {
        if rid in Members(states[n].mem.userRoles, user) {
          var k :| 0 <= k < n - 1 && ShownSince(states, moves, n - 1, user, rid, k);
          assert ShownSince(states, moves, n, user, rid, k);
        }
        if exists k | 0 <= k < n :: ShownSince(states, moves, n, user, rid, k) {
          var k :| 0 <= k < n && ShownSince(states, moves, n, user, rid, k);
          assert ShownSince(states, moves, n - 1, user, rid, k) && !RemovesInMem(states[n - 1], l, m, user, rid);
        }
      }
    }
  }

  lemma TableChanges(m: map<Id, set<string>>, k: Id, x: string, o: Id)
    ensures Members(With(m, k, x), o) == Members(m, o) + if o == k then {x} else {}
    ensures Members(Without(m, k, x), o) == Members(m, o) - if o == k then {x} else {}
  {
  }

  /** What one move does to one user's role in L1. */
  lemma MemChanges(s: State, l: Label, m: Move, user: Id, rid: Id)
    requires Enabled(s, l, m)
    ensures rid in Members(Step(s, l, m).mem.userRoles, user) <==>
              AssignsInMem(s, l, m, user, rid) || (rid in Members(s.mem.userRoles, user) && !RemovesInMem(s, l, m, user, rid))
  {
    if m.Apply? {
      var op := s.pending[l].op;
      if op.AssignRole? || op.RemoveRole? {
        TableChanges(s.mem.userRoles, op.user, op.rid, user);
      } else {
        assert OnMem(s.mem, op).userRoles == s.mem.userRoles;
      }
    }
  }

  /** And in L2. */
  lemma RedisChanges(s: State, l: Label, m: Move, user: Id, rid: Id)
    requires Enabled(s, l, m)
    ensures rid in Members(Step(s, l, m).redis.userRoles, user) <==>
              AssignsInRedis(m, user, rid) || (rid in Members(s.redis.userRoles, user) && !RemovesInRedis(m, user, rid))
  {
  }

  lemma {:induction false} GoneExactly(states: seq<State>, moves: Moves, n: nat, user: Id, rid: Id)
    requires IsRun(states, moves) && n <= |moves|
    ensures rid !in Members(states[n].redis.userRoles, user) <==>
              (forall i | 0 <= i < n :: !AssignsInRedis(moves[i].1, user, rid)) || exists j | 0 <= j < n :: GoneSince(moves, n, user, rid, j)
  {
    if n > 0 {
      var s, l, m := states[n - 1], moves[n - 1].0, moves[n - 1].1;
      GoneExactly(states, moves, n - 1, user, rid);
      RedisChanges(s, l, m, user, rid);
      if RemovesInRedis(m, user, rid) {
        assert GoneSince(moves, n, user, rid, n - 1);
      } else {
        var before := n - 1;
        if exists j | 0 <= j < before :: GoneSince(moves, before, user, rid, j) {
          var j :| 0 <= j < before && GoneSince(moves, before, user, rid, j);
          assert GoneSince(moves, n, user, rid, j) <==> !AssignsInRedis(m, user, rid);
        }
        if exists j | 0 <= j < n :: GoneSince(moves, n, user, rid, j) {
          var j :| 0 <= j < n && GoneSince(moves, n, user, rid, j);
          assert GoneSince(moves, n - 1, user, rid, j) && !AssignsInRedis(moves[n - 1].1, user, rid);
        }
        assert (forall i | 0 <= i < n :: !AssignsInRedis(moves[i].1, user, rid)) <==>
                 (forall i | 0 <= i < n - 1 :: !AssignsInRedis(moves[i].1, user, rid)) && !AssignsInRedis(moves[n - 1].1, user, rid);
      }
    }
  }

  /** Where an L1 half comes from: its own write's Redis half or its warming's reading, with no restart
      since. */
  predicate ComesFrom(states: seq<State>, moves: Moves, n: nat, l: Label)
    requires IsRun(states, moves) && n <= |moves|
  {
    l in states[n].pending
    && var todo := states[n].pending[l];
    && todo.from < n && (moves[todo.from] == (l, Begin(todo.op, Done)) || moves[todo.from] == (l, Learn(todo.op)))
    && forall i | todo.from < i < n :: moves[i].1 != Restart
  }

  lemma {:induction false} PendingComesFrom(states: seq<State>, moves: Moves, n: nat, l: Label)
    requires IsRun(states, moves) && n <= |moves| && l in states[n].pending
    ensures ComesFrom(states, moves, n, l)
  {
    if n > 0 {
      RunConsistent(states, moves, n - 1);
      if l in states[n - 1].pending { PendingComesFrom(states, moves, n - 1, l); }
    }
  }

  /** The halves that leave a role over: an assignment reached L2 with move `i` and L1 with move `k`; a
      removal reached L2 with move `j`, after `i`; and nothing undid either since. */
  predicate LeftOver(states: seq<State>, moves: Moves, n: nat, user: Id, rid: Id, i: nat, j: nat, k: nat)
    requires IsRun(states, moves) && n <= |moves|
  {
    && i < j && i < k && ShownSince(states, moves, n, user, rid, k) && GoneSince(moves, n, user, rid, j)
    && states[k].pending[moves[k].0] == Todo(AssignRole(user, rid), i) && moves[i] == (moves[k].0, Begin(AssignRole(user, rid), Done))
  }

  /** In every state of every run: L1 gives a user a role that L2 does not if and only if some halves leave
      it over. */
  lemma LeftOverExactly(states: seq<State>, moves: Moves, n: nat, user: Id, rid: Id)
    requires IsRun(states, moves) && n <= |moves|
    ensures (rid in Members(states[n].mem.userRoles, user) && rid !in Members(states[n].redis.userRoles, user))
            <==> exists i, j, k :: LeftOver(states, moves, n, user, rid, i, j, k)
  {
    ShownExactly(states, moves, n, user, rid);
    GoneExactly(states, moves, n, user, rid);
    if rid in Members(states[n].mem.userRoles, user) && rid !in Members(states[n].redis.userRoles, user) {
      var k :| 0 <= k < n && ShownSince(states, moves, n, user, rid, k);
      PendingComesFrom(states, moves, k, moves[k].0);
      var i := states[k].pending[moves[k].0].from;
      assert AssignsInRedis(moves[i].1, user, rid);
      var j :| 0 <= j < n && GoneSince(moves, n, user, rid, j);
      assert LeftOver(states, moves, n, user, rid, i, j, k);
    }
  }

  /** What became of a write whose Redis half is done: its L1 half was made, or a restart forgot it, or it
      is still to come. */
  lemma {:induction false} Fate(states: seq<State>, moves: Moves, n: nat, j: nat)
    requires IsRun(states, moves) && j < n <= |moves| && moves[j].1.Begin? && moves[j].1.fault == Done
    ensures (moves[j].0 in states[n].pending && states[n].pending[moves[j].0] == Todo(moves[j].1.op, j))
            || (exists x | j < x < n :: moves[x].1 == Restart)
            || (exists x | j < x < n :: AppliesHalf(states, moves, x, j))
  {
    RunConsistent(states, moves, n - 1);
    if n > j + 1 {
      Fate(states, moves, n - 1, j);
      if moves[j].0 in states[n - 1].pending && states[n - 1].pending[moves[j].0] == Todo(moves[j].1.op, j) {
        assert moves[n - 1].1 == Apply && moves[n - 1].0 == moves[j].0 ==> AppliesHalf(states, moves, n - 1, j);
      }
    }
  }

  /** Move `x` is the L1 half of the write begun with move `j`. */
  predicate AppliesHalf(states: seq<State>, moves: Moves, x: nat, j: nat)
    requires IsRun(states, moves) && j < |moves| && x < |moves| && moves[j].1.Begin?
  {
    moves[x] == (moves[j].0, Apply) && moves[j].0 in states[x].pending
    && states[x].pending[moves[j].0] == Todo(moves[j].1.op, j)
  }

  /** The two writes reached L1 in the reverse of their order in L2. */
  predicate Reversed(states: seq<State>, moves: Moves, j: nat, k: nat)
    requires IsRun(states, moves) && j < |moves| && k < |moves| && moves[j].1.Begin?
  {
    exists x | 0 <= x < k :: AppliesHalf(states, moves, x, j)
  }

  /** With nothing on its way to L1: a user has a role in L1 and not in L2 if and only if a removal came
      after an assignment in L2, and either its reply was lost or it came before the assignment in L1. */
  lemma SettledExactly(states: seq<State>, moves: Moves, n: nat, user: Id, rid: Id)
    requires IsRun(states, moves) && n <= |moves| && states[n].pending == map[]
    ensures (rid in Members(states[n].mem.userRoles, user) && rid !in Members(states[n].redis.userRoles, user))
            <==> exists i: nat, j: nat, k: nat :: LeftOver(states, moves, n, user, rid, i, j, k)
                                   && (moves[j].1.fault == Lost || Reversed(states, moves, j, k))
  {
    LeftOverExactly(states, moves, n, user, rid);
    forall i: nat, j: nat, k: nat | LeftOver(states, moves, n, user, rid, i, j, k)
      ensures moves[j].1.fault == Lost || Reversed(states, moves, j, k)
    {
      if moves[j].1.fault == Done { LeftOverReversed(states, moves, n, user, rid, i, j, k); }
    }
  }

  lemma LeftOverReversed(states: seq<State>, moves: Moves, n: nat, user: Id, rid: Id, i: nat, j: nat, k: nat)
    requires IsRun(states, moves) && n <= |moves| && states[n].pending == map[]
    requires LeftOver(states, moves, n, user, rid, i, j, k) && moves[j].1.fault == Done
    ensures Reversed(states, moves, j, k)
  {
    Fate(states, moves, n, j);
    PendingComesFrom(states, moves, k, moves[k].0);
    forall x | j < x < n ensures moves[x].1 != Restart {
      assert x > k ==> !RemovesInMem(states[x], moves[x].0, moves[x].1, user, rid);
    }
    var x :| j < x < n && AppliesHalf(states, moves, x, j);
    assert x > k ==> !RemovesInMem(states[x], moves[x].0, moves[x].1, user, rid);
  }

  /** In every run without renaming, whatever overlaps, fails or restarts: a permission that L1 grants a
      user and L2 does not comes from a role that some halves left over. */
  lemma OvergrantIsLeftOver(states: seq<State>, moves: Moves, n: nat, user: Id, perm: Name)
    requires IsRun(states, moves) && n <= |moves| && forall i | 0 <= i < n :: !Renames(states[i], moves[i].1)
    requires L1Has(states[n].mem, user, perm) && !L2Has(states[n].redis, user, perm)
    ensures exists rid, i, j, k :: perm in Members(states[n].mem.rolePerms, rid) && LeftOver(states, moves, n, user, rid, i, j, k)
  {
    NamesContained(states, moves, n);
    var s := states[n];
    var rid :| rid in Members(s.mem.userRoles, user) && perm in Members(s.mem.rolePerms, rid);
    assert perm in L2Names(s.redis, rid);
    LeftOverExactly(states, moves, n, user, rid);
  }

  predicate NoRemovalLost(moves: Moves, n: nat)
    requires n <= |moves|
  {
    forall j | 0 <= j < n :: !(moves[j].1.Begin? && moves[j].1.op.RemoveRole? && moves[j].1.fault == Lost)
  }

  /** No assignment and later removal of one user's role reach L1 in the reverse of their L2 order. */
  predicate InOrder(states: seq<State>, moves: Moves, n: nat)
    requires IsRun(states, moves) && n <= |moves|
  {
    forall i, j, k | 0 <= i < j < n && i < k < n && moves[i].1.Begin? && moves[j].1.Begin?
                     && moves[i].1.op.AssignRole? && moves[j].1.op == RemoveRole(moves[i].1.op.user, moves[i].1.op.rid)
                     && AppliesHalf(states, moves, k, i) :: !Reversed(states, moves, j, k)
  }

  lemma OvergrantIsOutOfOrder(states: seq<State>, moves: Moves, n: nat, user: Id, perm: Name)
    requires IsRun(states, moves) && n <= |moves| && states[n].pending == map[]
    requires (forall i | 0 <= i < n :: !Renames(states[i], moves[i].1)) && NoRemovalLost(moves, n)
    requires L1Has(states[n].mem, user, perm) && !L2Has(states[n].redis, user, perm)
    ensures !InOrder(states, moves, n)
  {
    OvergrantIsLeftOver(states, moves, n, user, perm);
    var rid, i, j, k :| perm in Members(states[n].mem.rolePerms, rid) && LeftOver(states, moves, n, user, rid, i, j, k);
    LeftOverReversed(states, moves, n, user, rid, i, j, k);
    assert AppliesHalf(states, moves, k, i);
  }

  /** In every run without renaming and without a lost removal, in which writes to one user's role reach L1
      in their L2 order: whenever nothing is on its way to L1, what L1 grants, L2 grants. */
  lemma CacheNeverOvergrants(states: seq<State>, moves: Moves, n: nat)
    requires IsRun(states, moves) && n <= |moves| && states[n].pending == map[]
    requires (forall i | 0 <= i < n :: !Renames(states[i], moves[i].1)) && NoRemovalLost(moves, n) && InOrder(states, moves, n)
    ensures GrantsContained(states[n])
  {
    forall user: Id, perm: Name | L1Has(states[n].mem, user, perm) ensures L2Has(states[n].redis, user, perm) {
      if !L2Has(states[n].redis, user, perm) { OvergrantIsOutOfOrder(states, moves, n, user, perm); }
    }
  }

  // ---- runs that do overgrant -------------------------------------------------------------

  lemma Extend(states: seq<State>, moves: Moves, l: Label, m: Move) returns (states': seq<State>, moves': Moves)
    requires IsRun(states, moves) && Enabled(states[|moves|], l, m)
    ensures IsRun(states', moves') && moves' == moves + [(l, m)] && |moves'| == |moves| + 1 && states <= states'
    ensures states'[|moves'|] == Step(states[|moves|], l, m)
  {
    states', moves' := states + [Step(states[|moves|], l, m)], moves + [(l, m)];
  }

  /** A whole write. */
  lemma Write(states: seq<State>, moves: Moves, op: Op) returns (states': seq<State>, moves': Moves)
    requires IsRun(states, moves) && states[|moves|].pending == map[] && !op.Recall?
    ensures IsRun(states', moves') && |moves'| == |moves| + 2 && states <= states' && states'[|moves'|].pending == map[]
    ensures moves' == moves + [(0, Begin(op, Done)), (0, Apply)]
    ensures states'[|moves'|].mem == OnMem(states[|moves|].mem, op)
    ensures states'[|moves'|].redis == OnRedis(states[|moves|].redis, op)
  {
    states', moves' := Extend(states, moves, 0, Begin(op, Done));
    states', moves' := Extend(states', moves', 0, Apply);
  }

  /** One fact of a warming, with nothing in between. */
  lemma TakeIn(states: seq<State>, moves: Moves, op: Op) returns (states': seq<State>, moves': Moves)
    requires IsRun(states, moves) && states[|moves|].pending == map[] && Answered(states[|moves|].redis, op)
    ensures IsRun(states', moves') && states'[|moves'|].pending == map[] && states'[|moves'|].redis == states[|moves|].redis
    ensures states'[|moves'|].mem == OnMem(states[|moves|].mem, op)
  {
    states', moves' := Extend(states, moves, 0, Learn(op));
    states', moves' := Extend(states', moves', 0, Apply);
  }

  lemma {:induction false} TakeInPermissions(states: seq<State>, moves: Moves, ps: seq<Permission>)
    returns (states': seq<State>, moves': Moves)
    requires IsRun(states, moves) && states[|moves|].pending == map[]
    requires forall p <- ps :: Answered(states[|moves|].redis, SavePermission(p))
    ensures IsRun(states', moves') && states'[|moves'|].pending == map[] && states'[|moves'|].redis == states[|moves|].redis
    ensures states'[|moves'|].mem == WarmPermissions(states[|moves|].mem, ps)
  {
    states', moves' := states, moves;
    if ps != [] {
      states', moves' := TakeInPermissions(states, moves, ps[..|ps| - 1]);
      states', moves' := TakeIn(states', moves', SavePermission(ps[|ps| - 1]));
    }
  }

  lemma {:induction false} TakeInNames(states: seq<State>, moves: Moves, rid: Id, ns: seq<Name>)
    returns (states': seq<State>, moves': Moves)
    requires IsRun(states, moves) && states[|moves|].pending == map[]
    requires forall n <- ns :: Answered(states[|moves|].redis, Recall(rid, n))
    ensures IsRun(states', moves') && states'[|moves'|].pending == map[] && states'[|moves'|].redis == states[|moves|].redis
    ensures states'[|moves'|].mem == WarmNames(states[|moves|].mem, rid, ns)
  {
    states', moves' := states, moves;
    if ns != [] {
      states', moves' := TakeInNames(states, moves, rid, ns[..|ns| - 1]);
      states', moves' := TakeIn(states', moves', Recall(rid, ns[|ns| - 1]));
    }
  }

  lemma {:induction false} TakeInRoles(states: seq<State>, moves: Moves, rs: seq<Role>, names: map<Id, seq<Name>>)
    returns (states': seq<State>, moves': Moves)
    requires IsRun(states, moves) && states[|moves|].pending == map[] && forall r <- rs :: r.id in names
    requires forall r <- rs :: Answered(states[|moves|].redis, SaveRole(r))
    requires forall rid <- names, n <- names[rid] :: Answered(states[|moves|].redis, Recall(rid, n))
    ensures IsRun(states', moves') && states'[|moves'|].pending == map[] && states'[|moves'|].redis == states[|moves|].redis
    ensures states'[|moves'|].mem == WarmRoles(states[|moves|].mem, rs, names)
  {
    states', moves' := states, moves;
    if rs != [] {
      var last := rs[|rs| - 1];
      states', moves' := TakeInRoles(states, moves, rs[..|rs| - 1], names);
      states', moves' := TakeIn(states', moves', SaveRole(last));
      states', moves' := TakeInNames(states', moves', last.id, names[last.id]);
    }
  }

  /** A whole warming, on any answers L2 may give, is a run of these moves. */
  lemma WholeWarming(states: seq<State>, moves: Moves, ps: seq<Permission>, rs: seq<Role>, names: map<Id, seq<Name>>)
    returns (states': seq<State>, moves': Moves)
    requires IsRun(states, moves) && states[|moves|].pending == map[] && Answers(states[|moves|].redis, ps, rs, names)
    ensures IsRun(states', moves') && states'[|moves'|].redis == states[|moves|].redis
    ensures states'[|moves'|].mem == Warm(states[|moves|].mem, ps, rs, names)
  {
    states', moves' := TakeInPermissions(states, moves, ps);
    states', moves' := TakeInRoles(states', moves', rs, names);
  }

  predicate Quiet(moves: Moves) { forall i | 0 <= i < |moves| :: moves[i].1.Begin? ==> moves[i].1.fault == Done }

  predicate Unrenamed(states: seq<State>, moves: Moves)
    requires IsRun(states, moves)
  {
    forall i | 0 <= i < |moves| :: !Renames(states[i], moves[i].1)
  }

  /** Permission "p", called "old", is saved in both tiers, and so is role "r"; nobody has a role. */
  predicate Ready(s: State) {
    && s.pending == map[] && "r" in s.mem.roles
    && s.mem.permissions == map["p" := Permission("p", "old", "")] == s.redis.permHash
    && s.mem.permsByName == map["old" := Permission("p", "old", "")]
    && s.mem.userRoles == map[] == s.redis.userRoles && s.mem.rolePerms == map[] == s.redis.rolePerms
  }

  lemma GetReady() returns (states: seq<State>, moves: Moves)
    ensures IsRun(states, moves) && Ready(states[|moves|]) && Quiet(moves) && Unrenamed(states, moves)
  {
    states, moves := [Start], [];
    states, moves := Write(states, moves, SavePermission(Permission("p", "old", "")));
    states, moves := Write(states, moves, SaveRole(Role("r", "role", "")));
  }

  /** L1 gives "u" the role "r" with the name, and L2 gives "u" no role with it. */
  lemma Overgrant(s: State, name: Name)
    requires "r" in Members(s.mem.userRoles, "u") && name in Members(s.mem.rolePerms, "r")
    requires forall rid <- Members(s.redis.userRoles, "u") :: name !in L2Names(s.redis, rid)
    ensures L1Has(s.mem, "u", name) && !L2Has(s.redis, "u", name)
  {
  }

  /** Overlapping requests, nothing failing and nothing renamed: the assignment reaches L2 before the
      removal and L1 after it. */
  lemma OverlapOvergrants() returns (states: seq<State>, moves: Moves)
    ensures IsRun(states, moves) && states[|moves|].pending == map[] && Quiet(moves) && Unrenamed(states, moves)
    ensures L1Has(states[|moves|].mem, "u", "old") && !L2Has(states[|moves|].redis, "u", "old")
  {
    states, moves := GetReady();
    states, moves := Write(states, moves, AssignPermission("r", "p"));
    var s := states[|moves|];
    TableChanges(map[], "r", "old", "r");
    states, moves := Overlap(states, moves);
    TableChanges(Without(s.mem.userRoles, "u", "r"), "u", "r", "u");
    TableChanges(With(s.redis.userRoles, "u", "r"), "u", "r", "u");
    Overgrant(states[|moves|], "old");
  }

  lemma Overlap(states: seq<State>, moves: Moves) returns (states': seq<State>, moves': Moves)
    requires IsRun(states, moves) && states[|moves|].pending == map[] && "r" in states[|moves|].mem.roles
    requires Quiet(moves) && Unrenamed(states, moves)
    ensures IsRun(states', moves') && states'[|moves'|].pending == map[] && Quiet(moves') && Unrenamed(states', moves')
    ensures var s, t := states[|moves|], states'[|moves'|];
            && t.mem == s.mem.(userRoles := With(Without(s.mem.userRoles, "u", "r"), "u", "r"))
            && t.redis == s.redis.(userRoles := Without(With(s.redis.userRoles, "u", "r"), "u", "r"))
  {
    states', moves' := Extend(states, moves, 1, Begin(AssignRole("u", "r"), Done));
    states', moves' := Extend(states', moves', 2, Begin(RemoveRole("u", "r"), Done));
    states', moves' := Extend(states', moves', 2, Apply);
    states', moves' := Extend(states', moves', 1, Apply);
  }

  /** A removal that L2 carried out and reported as failed. */
  lemma LostRemovalOvergrants() returns (states: seq<State>, moves: Moves)
    ensures IsRun(states, moves) && states[|moves|].pending == map[] && Unrenamed(states, moves)
    ensures L1Has(states[|moves|].mem, "u", "old") && !L2Has(states[|moves|].redis, "u", "old")
  {
    states, moves := GetReady();
    states, moves := Write(states, moves, AssignPermission("r", "p"));
    var s := states[|moves|];
    states, moves := Write(states, moves, AssignRole("u", "r"));
    states, moves := Extend(states, moves, 0, Begin(RemoveRole("u", "r"), Lost));
    TableChanges(s.mem.rolePerms, "r", "old", "r");
    TableChanges(s.mem.userRoles, "u", "r", "u");
    TableChanges(With(s.redis.userRoles, "u", "r"), "u", "r", "u");
    Overgrant(states[|moves|], "old");
  }

  /** A permission renamed while a role has it: L1 goes on showing the old name. */
  lemma RenamingOvergrants() returns (states: seq<State>, moves: Moves)
    ensures IsRun(states, moves) && states[|moves|].pending == map[] && Quiet(moves)
    ensures L1Has(states[|moves|].mem, "u", "old") && !L2Has(states[|moves|].redis, "u", "old")
  {
    states, moves := GetReady();
    states, moves := Write(states, moves, AssignPermission("r", "p"));
    states, moves := Write(states, moves, AssignRole("u", "r"));
    states, moves := Write(states, moves, SavePermission(Permission("p", "new", "")));
    OldName(states[|moves|].redis);
    Overgrant(states[|moves|], "old");
  }

  lemma OldName(s: L2)
    requires s.permHash == map["p" := Permission("p", "new", "")]
    ensures forall rid :: "old" !in L2Names(s, rid)
  {
    assert "new"[0] != "old"[0];
  }

  /** A rename whose reply is lost, before any role has the permission: no save orphans a name, and the
      assignment that follows breaks containment. */
  lemma LostRenameOvergrants() returns (states: seq<State>, moves: Moves)
    ensures IsRun(states, moves) && states[|moves|].pending == map[]
    ensures forall i | 0 <= i < |moves| && moves[i].1.Begin? && moves[i].1.op.SavePermission? :: !Orphans(states[i], moves[i].1.op.p)
    ensures L1Has(states[|moves|].mem, "u", "old") && !L2Has(states[|moves|].redis, "u", "old")
  {
    states, moves := GetReady();
    assert forall i | 0 <= i < |moves| && moves[i].1.Begin? && moves[i].1.op.SavePermission? :: !Orphans(states[i], moves[i].1.op.p);
    states, moves := Extend(states, moves, 0, Begin(SavePermission(Permission("p", "new", "")), Lost));
    states, moves := Write(states, moves, AssignPermission("r", "p"));
    states, moves := Write(states, moves, AssignRole("u", "r"));
    OldName(states[|moves|].redis);
    Overgrant(states[|moves|], "old");
  }

  /** A warming after a rename: L1's name index still leads from the old name to the renamed permission,
      so recalling the old name of another permission gives the role the new one. */
  lemma StaleRecallOvergrants() returns (states: seq<State>, moves: Moves)
    ensures IsRun(states, moves) && states[|moves|].pending == map[]
    ensures moves != [] && moves[|moves| - 1].1 == Apply && RolesContained(states[|moves| - 1])
    ensures L1Has(states[|moves|].mem, "u", "new") && !L2Has(states[|moves|].redis, "u", "new")
  {
    states, moves := GetStale();
    var s := states[|moves|];
    states, moves := Extend(states, moves, 0, Learn(Recall("r", "old")));
    states, moves := Extend(states, moves, 0, Apply);
    TableChanges(s.mem.rolePerms, "r", "new", "r");
    assert "new"[0] != "old"[0];
    Overgrant(states[|moves|], "new");
  }

  /** L1 calls "p" "new" and its index still leads from "old" to it; L2 resolves "old" for "r", through
      another permission that L1 has never seen. */
  predicate Stale(s: State) {
    && s.pending == map[] && "r" in s.mem.roles && s.mem.rolePerms == map[]
    && "old" in s.mem.permsByName && s.mem.permsByName["old"].id == "p"
    && "p" in s.mem.permissions && s.mem.permissions["p"].name == "new"
    && "r" in Members(s.mem.userRoles, "u") && Members(s.redis.userRoles, "u") == {"r"} && L2Names(s.redis, "r") == {"old"}
  }

  lemma GetStale() returns (states: seq<State>, moves: Moves)
    ensures IsRun(states, moves) && Stale(states[|moves|])
  {
    var q := Permission("q", "old", "");
    states, moves := GetReady();
    states, moves := Write(states, moves, SavePermission(Permission("p", "new", "")));
    assert "new"[0] != "old"[0];
    states, moves := Extend(states, moves, 0, Begin(SavePermission(q), Lost));
    var s := states[|moves|];
    assert s.redis.permHash["q"] == q && "q" !in s.mem.permissions by { assert "q"[0] != "p"[0]; }
    states, moves := Write(states, moves, AssignPermission("r", "q"));
    states, moves := Write(states, moves, AssignRole("u", "r"));
    TableChanges(s.redis.rolePerms, "r", "q", "r");
    TableChanges(s.redis.userRoles, "u", "r", "u");
    TableChanges(s.mem.userRoles, "u", "r", "u");
  }
}
