/** What administrators and the hierarchy below them may do to accounts. */
module Administration {
  import opened Base
  import opened Users
  import opened Accounts
  import Sessions

  // ----- guards -----

  /** The department an actor answers for: a coordinator's scope, anyone else's own. */
  function ActorDepartment(actor: User): Option<Id> {
    if actor.role == Coordinator then CoordinatorDepartment(actor) else actor.department
  }

  function MayDelete(actor: User, target: User): Option<Error> {
    if actor.id == target.id then Some(SelfDeletion)
    else if target.role !in DeletableRoles(actor.role) then Some(NotAllowedRole)
    else if actor.role == Admin then None
    else if actor.role == Faculty && !actor.verified then Some(NotVerified)
    else
      var scope := ActorDepartment(actor);
      if scope.None? then Some(NoDepartment)
      else if target.department != scope then Some(OutOfScope)
      else None
  }

  function MaySetActive(actor: User, target: User): Option<Error> {
    if actor.role == Admin then None else MayDelete(actor, target)
  }

  predicate ActiveAdmin(u: User) { u.role == Admin && u.isActive }

  predicate OtherActiveAdmin(s: State, id: Id) {
    exists u | u in s.users :: u != id && ActiveAdmin(s.users[u])
  }

  predicate PreservesLastAdmin(s: State, target: Id, newRole: Option<Role>, newActive: Option<bool>)
    requires target in s.users
  {
    var stops := (newRole.Some? && newRole.value != Admin) || newActive == Some(false);
    ActiveAdmin(s.users[target]) && stops ==> OtherActiveAdmin(s, target)
  }

  // ----- steps on users -----

  /** A coordinator's scope is their department; nobody else has one. */
  function SyncScope(u: User): User {
    if u.role == Coordinator then u.(scopeType := Some(DepartmentScope), scopeId := u.department)
    else u.(scopeType := None, scopeId := None)
  }

  function SyncPlacement(u: User): User {
    if u.role in INSTITUTION_WIDE then u.(department := None) else u
  }

  function ChangeRole(s: State, actor: Id, target: Id, role: Role): (State, Reply) {
    var denied := Acting(s, actor, UserUpdateRole);
    if denied.Some? then (s, Refused(denied.value))
    else if target !in s.users then (s, Refused(UserNotFound))
    else if actor == target then (s, Refused(SelfRoleChange))
    else if !PreservesLastAdmin(s, target, Some(role), None) then (s, Refused(LastActiveAdmin))
    else (s.(users := s.users[target := SyncPlacement(SyncScope(s.users[target].(role := role)))]), Done)
  }

  function SetActive(s: State, actor: Id, target: Id, active: bool): (State, Reply) {
    var denied := Acting(s, actor, if active then UserActivate else UserDeactivate);
    if denied.Some? then (s, Refused(denied.value))
    else if target !in s.users then (s, Refused(UserNotFound))
    else
      var may := MaySetActive(s.users[actor], s.users[target]);
      if may.Some? then (s, Refused(may.value))
      else if !PreservesLastAdmin(s, target, None, Some(active)) then (s, Refused(LastActiveAdmin))
      else
        (s.(users := s.users[target := s.users[target].(isActive := active)],
            tokens := if active then s.tokens else Sessions.RevokeUser(s.tokens, target, s.clock)), Done)
  }

  function ResetPassword(s: State, actor: Id, target: Id, temporary: nat): (State, Reply) {
    var denied := Acting(s, actor, UserUpdate);
    if denied.Some? then (s, Refused(denied.value))
    else if target !in s.users then (s, Refused(UserNotFound))
    else if actor == target then (s, Refused(SelfPasswordReset))
    else
      (s.(users := s.users[target := s.users[target].(password := temporary, mustChangePassword := true)],
          tokens := Sessions.RevokeUser(s.tokens, target, s.clock)), Done)
  }

  /** A field that was not sent is None; one that was sent as null is Some(None). */
  datatype Patch = Patch(
    department: Option<Option<Id>>, scopeType: Option<Option<ScopeType>>, scopeId: Option<Option<Id>>)

  function Moved(u: User, p: Patch): User {
    if p.department.Some? && p.department.value != u.department then
      var placed := u.(department := p.department.value);
      SyncPlacement(if p.scopeId.None? then SyncScope(placed) else placed)
    else u
  }

  function UpdateUser(s: State, actor: Id, target: Id, p: Patch): (State, Reply) {
    var denied := Acting(s, actor, UserUpdate);
    if denied.Some? then (s, Refused(denied.value))
    else if target !in s.users then (s, Refused(UserNotFound))
    else
      var u := s.users[target];
      var changed := p.department.Some? && p.department.value != u.department;
      if changed && p.department.value.Some? && p.department.value.value !in s.departments then (s, Refused(InvalidDepartment))
      else
        var moved := Moved(u, p);
        var scopeType := if p.scopeType.Some? then p.scopeType.value else moved.scopeType;
        var scopeId := if p.scopeId.Some? then p.scopeId.value else moved.scopeId;
        if scopeType == Some(DepartmentScope) && scopeId.Some? && scopeId.value !in s.departments then (s, Refused(InvalidScope))
        else (s.(users := s.users[target := moved.(scopeType := scopeType, scopeId := scopeId)]), Done)
  }

  /** The row goes, with its sessions and every challenge that names it. */
  function Delete(s: State, actor: Id, target: Id): (State, Reply) {
    var denied := Acting(s, actor, UserDelete);
    if denied.Some? then (s, Refused(denied.value))
    else if target !in s.users then (s, Refused(UserNotFound))
    else
      var may := MayDelete(s.users[actor], s.users[target]);
      if may.Some? then (s, Refused(may.value))
      else
        (s.(users := s.users - {target},
            tokens := map i | i in s.tokens && s.tokens[i].user != target :: s.tokens[i],
            challenges := map i | i in s.challenges && s.challenges[i].target != target
                            && s.challenges[i].requestedBy != target :: s.challenges[i]), Done)
  }

  /** The role of a new account follows from its creator unless a route overrides it. */
  function RoleFor(creator: User, override: Option<Role>): Option<Role> {
    if override.None? then CreatableRole(creator.role)
    else if override == Some(Custodian) then
      if creator.role in {Coordinator, Role.Admin} then override else None
    else if creator.role == Admin && override != Some(Role.Admin) then override
    else None
  }

  function DepartmentFor(creator: User, role: Role, named: Option<Id>): Outcome<Option<Id>, Error> {
    if creator.role == Admin then
      if named.None? && role !in INSTITUTION_WIDE then Err(DepartmentRequired) else Ok(named)
    else if creator.role == Faculty && !creator.verified then Err(NotVerified)
    else
      var scope := ActorDepartment(creator);
      if scope.None? then Err(NoDepartment)
      else if named.Some? && named != scope then Err(OutOfScope)
      else Ok(scope)
  }

  function CreateAccount(s: State, creator: Id, named: Option<Id>, temporary: nat, override: Option<Role>): (State, Reply) {
    var permission := if override.Some? && override != Some(Custodian) then UserUpdateRole else UserCreate;
    var denied := Acting(s, creator, permission);
    if denied.Some? then (s, Refused(denied.value))
    else
      var role := RoleFor(s.users[creator], override);
      if role.None? then (s, Refused(NotAllowedRole))
      else
        var department := DepartmentFor(s.users[creator], role.value, named);
        if department.Err? then (s, Refused(department.error))
        else if department.value.Some? && department.value.value !in s.departments then (s, Refused(UnknownDepartment))
        else
          var scoped := role.value == Coordinator;
          var user := User(s.next, role.value, true, department.value,
                           if scoped then Some(DepartmentScope) else None, if scoped then department.value else None,
                           false, temporary, true);
          (s.(users := s.users[s.next := user], next := s.next + 1), Done)
  }

  // ----- the two-person promotion -----

  const CODE_TTL: Time := HOUR / 6
  const MAX_ATTEMPTS: nat := 5

  predicate Live(c: Challenge, target: Id) { c.target == target && c.consumedAt.None? }

  /** Earlier challenges of the target are retired. */
  function Retire(cs: map<Id, Challenge>, target: Id, now: Time): (r: map<Id, Challenge>)
    ensures r.Keys == cs.Keys
  {
    map i | i in cs :: if Live(cs[i], target) then cs[i].(consumedAt := Some(now)) else cs[i]
  }

  function RequestPromotion(s: State, actor: Id, target: Id, code: nat): (State, Reply) {
    var denied := Acting(s, actor, UserUpdateRole);
    if denied.Some? then (s, Refused(denied.value))
    else if target !in s.users then (s, Refused(UserNotFound))
    else if target == actor then (s, Refused(SelfPromotion))
    else if s.users[target].role == Admin then (s, Refused(AlreadyAdmin))
    else if !s.users[target].isActive then (s, Refused(InactiveTarget))
    else
      (s.(challenges := Retire(s.challenges, target, s.clock)[s.next :=
            Challenge(target, actor, code, s.clock + CODE_TTL, 0, None)], next := s.next + 1), Done)
  }

  /** The newest live challenge of the target. */
  predicate Newest(cs: map<Id, Challenge>, target: Id, id: Id) {
    id in cs && Live(cs[id], target) && forall i | i in cs && Live(cs[i], target) :: i <= id
  }

  /** Wrong guesses are counted although the call is refused. `id` is the challenge the
      query found, if any. */
  function ConfirmPromotion(s: State, actor: Id, target: Id, id: Option<Id>, code: nat): (State, Reply)
    requires if id.Some? then Newest(s.challenges, target, id.value)
             else forall i | i in s.challenges :: !Live(s.challenges[i], target)
  {
    var denied := Acting(s, actor, UserUpdateRole);
    if denied.Some? then (s, Refused(denied.value))
    else if target !in s.users then (s, Refused(UserNotFound))
    else if id.None? then (s, Refused(ChallengeNotFound))
    else
      var c := s.challenges[id.value];
      if c.expiresAt <= s.clock then (s, Refused(ChallengeExpired))
      else if c.attempts >= MAX_ATTEMPTS then (s, Refused(TooManyAttempts))
      else if c.code != code then
        (s.(challenges := s.challenges[id.value := c.(attempts := c.attempts + 1)]), Refused(WrongCode))
      else
        (s.(challenges := s.challenges[id.value := c.(consumedAt := Some(s.clock))],
            users := s.users[target := s.users[target].(role := Admin)]), Done)
  }

  function StepDown(s: State, actor: Id, role: Role): (State, Reply) {
    var denied := Acting(s, actor, UserUpdateRole);
    if denied.Some? then (s, Refused(denied.value))
    else if role == Admin then (s, Refused(AlreadyAdmin))
    else if !OtherActiveAdmin(s, actor) then (s, Refused(LastActiveAdmin))
    else (s.(users := s.users[actor := s.users[actor].(role := role)]), Done)
  }

  // ----- the list and the button -----

  /** The rows of `list_manageable`: what a delete page offers this actor. */
  predicate Manageable(actor: User, target: User) {
    && target.id != actor.id
    && target.role in DeletableRoles(actor.role)
    && (actor.role != Admin ==> ActorDepartment(actor).Some? && target.department == ActorDepartment(actor))
  }

  /** Everything deletable is listed; and what is listed may be deleted, except that an
      unverified faculty member may delete nobody. */
  lemma ListedExactlyWhenDeletable(actor: User, target: User)
    ensures MayDelete(actor, target).None? <==> Manageable(actor, target) && (actor.role == Faculty ==> actor.verified)
  {
  }

  // ----- scope and placement -----

  /** Scope follows role and department. */
  predicate InScope(u: User) { SyncScope(u) == u }

  predicate Placed(u: User) { SyncPlacement(u) == u }

  /** A role change always leaves scope and placement right, a promotion leaves the scope
      right exactly when the target was no coordinator, and a step down exactly when the
      new role is not coordinator. */
  lemma RoleStepsAndScope(s: State, actor: Id, target: Id, id: Option<Id>, code: nat, role: Role)
    requires target in s.users && actor in s.users && InScope(s.users[target]) && InScope(s.users[actor])
    requires if id.Some? then Newest(s.challenges, target, id.value)
             else forall i | i in s.challenges :: !Live(s.challenges[i], target)
    ensures ChangeRole(s, actor, target, role).1 == Done ==>
              (var u := ChangeRole(s, actor, target, role).0.users[target]; u.role == role && Placed(u) && InScope(u))
    ensures ConfirmPromotion(s, actor, target, id, code).1 == Done ==>
              (var u := ConfirmPromotion(s, actor, target, id, code).0.users[target];
               (InScope(u) <==> s.users[target].role != Coordinator) && (Placed(u) <==> s.users[target].department == None))
    ensures StepDown(s, actor, role).1 == Done ==>
              (InScope(StepDown(s, actor, role).0.users[actor]) <==> role != Coordinator)
  {
  }
}
