/** What the account calls answer and write, in terms of people, roles and departments. */
module AccountAnswers {
  import opened Base
  import opened Users
  import opened Accounts
  import opened Sessions
  import opened Administration
  import opened AccountRuns
  import opened AccountTraces

  // ----- sessions -----

  /** A login succeeds for an active account, with its stored password, at its own entrance;
      it adds one session: a live token of full lifetime in a family nobody had. */
  lemma LoginAnswers(s: State, user: Id, password: nat, portal: Option<Portal>)
    ensures Login(s, user, password, portal).1 == Done
       <==> && user in s.users && s.users[user].isActive && s.users[user].password == password
            && (portal.None? || portal == Some(if s.users[user].role == Admin then AdminPortal else MainPortal))
    ensures Login(s, user, password, portal).1 != Done ==> Login(s, user, password, portal).0 == s
    ensures Login(s, user, password, portal).1 == Refused(WrongPortal) ==>
              user in s.users && s.users[user].isActive && s.users[user].password == password
    ensures Login(s, user, password, portal).1 == Done && TokensNumbered(s) ==>
              var t := Login(s, user, password, portal).0;
              && t == s.(tokens := t.tokens, next := t.next) && t.next > s.next
              && s.next !in s.tokens && t.tokens.Keys == s.tokens.Keys + {s.next}
              && (forall i | i in s.tokens :: t.tokens[i] == s.tokens[i] && s.tokens[i].family != t.tokens[s.next].family)
              && var row := t.tokens[s.next];
                 row.user == user && row.revokedAt.None? && row.replacedBy.None? && row.expiresAt == s.clock + s.tokenLife
  {
    if portal.Some? { match portal.value case AdminPortal => case MainPortal => }
  }

  /** A renewal succeeds for a live token in time whose owner is active; it hands the session
      over to one new token and ends the old one. Anything else is refused and issues nothing,
      and a revoked token takes the rest of its family along. */
  lemma RotateAnswers(s: State, raw: Id)
    ensures Rotate(s, raw).1 == Done
       <==> && raw in s.tokens && s.tokens[raw].revokedAt.None? && s.clock <= s.tokens[raw].expiresAt
            && s.tokens[raw].user in s.users && s.users[s.tokens[raw].user].isActive
    ensures Rotate(s, raw).1 == Done && TokensNumbered(s) ==>
              var t := Rotate(s, raw).0;
              && t == s.(tokens := t.tokens, next := t.next) && t.next > s.next
              && s.next !in s.tokens && t.tokens.Keys == s.tokens.Keys + {s.next}
              && (forall i | i in s.tokens && i != raw :: t.tokens[i] == s.tokens[i])
              && t.tokens[raw] == s.tokens[raw].(revokedAt := Some(s.clock), replacedBy := Some(s.next))
              && var row := t.tokens[s.next];
                 && row.user == s.tokens[raw].user && row.family == s.tokens[raw].family
                 && row.revokedAt.None? && row.replacedBy.None? && row.expiresAt == s.clock + s.tokenLife
    ensures Rotate(s, raw).1 != Done ==>
              var t := Rotate(s, raw).0;
              && Rotate(s, raw).1 == Refused(InvalidRefreshToken)
              && t == s.(tokens := t.tokens) && t.tokens.Keys == s.tokens.Keys
              && forall i | i in s.tokens ::
                   if raw in s.tokens && s.tokens[raw].revokedAt.Some? && s.tokens[i].family == s.tokens[raw].family
                      && s.tokens[i].revokedAt.None?
                   then t.tokens[i] == s.tokens[i].(revokedAt := Some(s.clock)) else t.tokens[i] == s.tokens[i]
  {
  }

  /** Signing out always succeeds, ends the session of the token presented, and no other. */
  lemma LogoutAnswers(s: State, raw: Id)
    ensures var (t, reply) := Logout(s, raw);
            && reply == Done && t == s.(tokens := t.tokens) && t.tokens.Keys == s.tokens.Keys
            && (forall i | i in s.tokens && (i != raw || s.tokens[i].revokedAt.Some?) :: t.tokens[i] == s.tokens[i])
            && (raw in s.tokens && s.tokens[raw].revokedAt.None? ==>
                  t.tokens[raw] == s.tokens[raw].(revokedAt := Some(s.clock)))
  {
  }

  /** From s to t: every live session of the user has ended now, and no other row changed. */
  ghost predicate SessionsEnded(s: State, t: State, user: Id) {
    && t.tokens.Keys == s.tokens.Keys
    && forall i | i in s.tokens ::
         t.tokens[i] == if s.tokens[i].user == user && s.tokens[i].revokedAt.None?
                        then s.tokens[i].(revokedAt := Some(s.clock)) else s.tokens[i]
  }

  /** From s to t: the user's row became `row`, and no other changed. */
  ghost predicate OnlyRow(s: State, t: State, user: Id, row: User) {
    && t.users.Keys == s.users.Keys && user in t.users && t.users[user] == row
    && forall u | u in s.users && u != user :: t.users[u] == s.users[u]
  }

  lemma ChangePasswordAnswers(s: State, user: Id, current: nat, replacement: nat)
    ensures var (t, reply) := ChangePassword(s, user, current, replacement);
            && (reply == Done <==> user in s.users && s.users[user].isActive && s.users[user].password == current)
            && (reply != Done ==> t == s)
            && (reply == Done ==>
                  && t == s.(users := t.users, tokens := t.tokens) && SessionsEnded(s, t, user)
                  && OnlyRow(s, t, user, s.users[user].(password := replacement, mustChangePassword := false)))
  {
  }

  // ----- people under people -----

  /** Active and past the temporary password, with this role. */
  predicate ActsAs(s: State, actor: Id, role: Role) {
    actor in s.users && s.users[actor].isActive && !s.users[actor].mustChangePassword && s.users[actor].role == role
  }

  /** The actor answers for the target: a verified faculty member for the students of the
      department, a coordinator for its students, faculty and custodians. */
  predicate AnswersFor(s: State, actor: Id, target: User) {
    || (ActsAs(s, actor, Faculty) && s.users[actor].verified && target.role == Student
        && target.department.Some? && target.department == s.users[actor].department)
    || (ActsAs(s, actor, Coordinator) && target.role in {Student, Faculty, Custodian}
        && s.users[actor].scopeType == Some(DepartmentScope)
        && target.department.Some? && target.department == s.users[actor].scopeId)
  }

  lemma ResetPasswordAnswers(s: State, actor: Id, target: Id, temporary: nat)
    ensures var (t, reply) := ResetPassword(s, actor, target, temporary);
            && (reply == Done <==> ActsAs(s, actor, Admin) && target in s.users && actor != target)
            && (reply != Done ==> t == s)
            && (reply == Done ==>
                  && t == s.(users := t.users, tokens := t.tokens) && SessionsEnded(s, t, target)
                  && OnlyRow(s, t, target, s.users[target].(password := temporary, mustChangePassword := true)))
  {
  }

  /** An administrator sets any role of anybody else. The last-administrator guard never
      refuses here, since the actor is another one. */
  lemma ChangeRoleAnswers(s: State, actor: Id, target: Id, role: Role)
    ensures var (t, reply) := ChangeRole(s, actor, target, role);
            && (reply == Done <==> ActsAs(s, actor, Admin) && target in s.users && actor != target)
            && reply != Refused(LastActiveAdmin)
            && (reply != Done ==> t == s)
            && (reply == Done ==>
                  && t == s.(users := t.users)
                  && var u := s.users[target];
                     var kept := if role in {Role.Admin, Dean} then None else u.department;
                     OnlyRow(s, t, target,
                             if role == Coordinator
                             then u.(role := role, department := kept, scopeType := Some(DepartmentScope), scopeId := kept)
                             else u.(role := role, department := kept, scopeType := None, scopeId := None)))
  {
    if ActsAs(s, actor, Admin) && target in s.users && actor != target {
      assert ActiveAdmin(s.users[actor]);
    }
  }

  /** Administrators switch anybody on and off, themselves included as long as another
      administrator is left; others only those they answer for. */
  lemma SetActiveAnswers(s: State, actor: Id, target: Id, active: bool)
    requires UsersNumbered(s)
    ensures var (t, reply) := SetActive(s, actor, target, active);
            && (reply == Done <==>
                  && target in s.users && (ActsAs(s, actor, Admin) || AnswersFor(s, actor, s.users[target]))
                  && (actor == target && !active ==>
                        exists u :: u in s.users && u != actor && s.users[u].role == Role.Admin && s.users[u].isActive))
            && (reply != Done ==> t == s)
            && (reply == Done ==>
                  && t == s.(users := t.users, tokens := t.tokens)
                  && OnlyRow(s, t, target, s.users[target].(isActive := active))
                  && (if active then t.tokens == s.tokens else SessionsEnded(s, t, target)))
  {
    if actor in s.users && ActiveAdmin(s.users[actor]) && actor != target {
      assert OtherActiveAdmin(s, target);
    }
  }

  /** Administrators delete anybody else, others only those they answer for; the row goes
      with its sessions and the challenges that name it, and nothing else goes. */
  lemma DeleteAnswers(s: State, actor: Id, target: Id)
    requires UsersNumbered(s)
    ensures var (t, reply) := Delete(s, actor, target);
            && (reply == Done <==>
                  target in s.users && actor != target && (ActsAs(s, actor, Admin) || AnswersFor(s, actor, s.users[target])))
            && (reply != Done ==> t == s)
            && (reply == Done ==>
                  && t == s.(users := t.users, tokens := t.tokens, challenges := t.challenges)
                  && t.users == s.users - {target}
                  && (forall i :: i in t.tokens <==> i in s.tokens && s.tokens[i].user != target)
                  && (forall i | i in t.tokens :: t.tokens[i] == s.tokens[i])
                  && (forall i :: i in t.challenges <==>
                        i in s.challenges && s.challenges[i].target != target && s.challenges[i].requestedBy != target)
                  && forall i | i in t.challenges :: t.challenges[i] == s.challenges[i])
  {
    if target in s.users { AdministratorsReachAll(s.users[target].role); }
  }

  lemma AdministratorsReachAll(role: Role)
    ensures role in DeletableRoles(Role.Admin)
  {
    match role case Student => case Faculty => case Coordinator => case Custodian => case Dean => case Admin =>
  }

  /** What an edit leaves of a person: a department that differs is taken over, except by
      roles without one, and moves the scope along unless the edit names a scope itself;
      what the edit names otherwise is taken as it is. */
  function Edited(u: User, p: Patch): User {
    var moves := p.department.Some? && p.department.value != u.department;
    u.(department := if !moves then u.department else if u.role in {Role.Admin, Dean} then None else p.department.value,
       scopeType :=
         if p.scopeType.Some? then p.scopeType.value
         else if !moves || p.scopeId.Some? then u.scopeType
         else if u.role == Coordinator then Some(DepartmentScope) else None,
       scopeId :=
         if p.scopeId.Some? then p.scopeId.value
         else if !moves then u.scopeId
         else if u.role == Coordinator then p.department.value else None)
  }

  lemma EditedIsMoved(u: User, p: Patch)
    ensures var moved := Moved(u, p);
            Edited(u, p) == moved.(scopeType := if p.scopeType.Some? then p.scopeType.value else moved.scopeType,
                                   scopeId := if p.scopeId.Some? then p.scopeId.value else moved.scopeId)
  {
  }

  lemma UpdateUserAnswers(s: State, actor: Id, target: Id, p: Patch)
    ensures var (t, reply) := UpdateUser(s, actor, target, p);
            && (reply == Done <==>
                  && ActsAs(s, actor, Admin) && target in s.users
                  && (p.department.Some? && p.department.value.Some? && p.department.value != s.users[target].department ==>
                        p.department.value.value in s.departments)
                  && var e := Edited(s.users[target], p);
                     e.scopeType == Some(DepartmentScope) && e.scopeId.Some? ==> e.scopeId.value in s.departments)
            && (reply != Done ==> t == s)
            && (reply == Done ==> t == s.(users := t.users) && OnlyRow(s, t, target, Edited(s.users[target], p)))
  {
    hide Moved, Edited;
    if target in s.users { EditedIsMoved(s.users[target], p); }
  }

  // ----- new accounts -----

  /** The role a creator may give: the next one down, or the one a route asks for. */
  predicate MayCreate(creator: Role, override: Option<Role>, role: Role) {
    match override
    case None => (creator, role) in {(Role.Admin, Coordinator), (Coordinator, Faculty), (Faculty, Student)}
    case Some(asked) =>
      role == asked
      && if asked == Custodian then creator in {Coordinator, Role.Admin} else creator == Role.Admin && asked != Role.Admin
  }

  /** Where a new account goes: an administrator names an existing department, which only a
      dean can do without; everybody else creates at home, and only the verified among faculty. */
  predicate MayPlace(s: State, creator: User, role: Role, named: Option<Id>, department: Option<Id>) {
    && (department.Some? ==> department.value in s.departments)
    && if creator.role == Admin then department == named && (named.None? ==> role in {Role.Admin, Dean})
       else
         && department.Some? && (named.None? || named == department)
         && (creator.role == Faculty ==> creator.verified)
         && if creator.role == Coordinator then creator.scopeType == Some(DepartmentScope) && department == creator.scopeId
            else department == creator.department
  }

  lemma RoleForIs(creator: User, override: Option<Role>, role: Role)
    ensures RoleFor(creator, override) == Some(role) <==> MayCreate(creator.role, override, role)
  {
  }

  lemma DepartmentForIs(s: State, creator: User, role: Role, named: Option<Id>, department: Option<Id>)
    ensures MayPlace(s, creator, role, named, department)
       <==> DepartmentFor(creator, role, named) == Ok(department) && (department.Some? ==> department.value in s.departments)
  {
  }

  lemma CreatorsHoldThePermission(s: State, creator: Id, override: Option<Role>, role: Role)
    requires creator in s.users && MayCreate(s.users[creator].role, override, role)
    ensures Acting(s, creator, if override.Some? && override != Some(Custodian) then UserUpdateRole else UserCreate).None?
       <==> s.users[creator].isActive && !s.users[creator].mustChangePassword
  {
  }

  lemma CreateAccountAnswers(s: State, creator: Id, named: Option<Id>, temporary: nat, override: Option<Role>)
    ensures var (t, reply) := CreateAccount(s, creator, named, temporary, override);
            && (reply == Done <==>
                  && creator in s.users && s.users[creator].isActive && !s.users[creator].mustChangePassword
                  && exists role, department ::
                       MayCreate(s.users[creator].role, override, role) && MayPlace(s, s.users[creator], role, named, department))
            && (reply != Done ==> t == s)
            && (reply == Done && s.next !in s.users ==>
                  && t == s.(users := t.users, next := t.next) && t.next > s.next
                  && t.users.Keys == s.users.Keys + {s.next} && (forall u | u in s.users :: t.users[u] == s.users[u])
                  && var v := t.users[s.next];
                     && v.id == s.next && v.isActive && !v.verified && v.mustChangePassword && v.password == temporary
                     && MayCreate(s.users[creator].role, override, v.role)
                     && MayPlace(s, s.users[creator], v.role, named, v.department)
                     && (v.scopeType, v.scopeId) ==
                          if v.role == Coordinator then (Some(DepartmentScope), v.department) else (None, None))
  {
    hide RoleFor, DepartmentFor, MayCreate, MayPlace, Acting;
    if creator in s.users {
      var c := s.users[creator];
      forall role ensures RoleFor(c, override) == Some(role) <==> MayCreate(c.role, override, role) {
        RoleForIs(c, override, role);
      }
      forall role, department
        ensures MayPlace(s, c, role, named, department)
           <==> DepartmentFor(c, role, named) == Ok(department) && (department.Some? ==> department.value in s.departments)
      {
        DepartmentForIs(s, c, role, named, department);
      }
      if RoleFor(c, override).Some? {
        CreatorsHoldThePermission(s, creator, override, RoleFor(c, override).value);
      }
    }
    CreatorsAct(s, creator, override);
  }

  lemma CreatorsAct(s: State, creator: Id, override: Option<Role>)
    ensures Acting(s, creator, if override.Some? && override != Some(Custodian) then UserUpdateRole else UserCreate).None? ==>
              creator in s.users && s.users[creator].isActive && !s.users[creator].mustChangePassword
  {
  }

  // ----- the promotion -----

  lemma RequestPromotionAnswers(s: State, actor: Id, target: Id, code: nat)
    ensures var (t, reply) := RequestPromotion(s, actor, target, code);
            && (reply == Done <==>
                  && ActsAs(s, actor, Admin) && target in s.users && actor != target
                  && s.users[target].role != Admin && s.users[target].isActive)
            && (reply != Done ==> t == s)
            && (reply == Done && s.next !in s.challenges ==>
                  && t == s.(challenges := t.challenges, next := t.next) && t.next > s.next
                  && t.challenges.Keys == s.challenges.Keys + {s.next}
                  && t.challenges[s.next] == Challenge(target, actor, code, s.clock + 600_000_000, 0, None)
                  && forall i | i in s.challenges ::
                       t.challenges[i] == if s.challenges[i].target == target && s.challenges[i].consumedAt.None?
                                          then s.challenges[i].(consumedAt := Some(s.clock)) else s.challenges[i])
  {
  }

  /** A confirmation succeeds for another's live challenge in time, with fewer than five wrong
      guesses behind it and the right code; it uses the challenge up and changes the target's
      role and nothing else of it. A wrong code in time costs a guess, and every other refusal
      changes nothing. */
  lemma ConfirmPromotionAnswers(s: State, actor: Id, target: Id, id: Option<Id>, code: nat)
    requires if id.Some? then Newest(s.challenges, target, id.value)
             else forall i | i in s.challenges :: !Live(s.challenges[i], target)
    ensures id.Some? ==>
              && id.value in s.challenges && s.challenges[id.value].target == target
              && s.challenges[id.value].consumedAt.None?
    ensures var (t, reply) := ConfirmPromotion(s, actor, target, id, code);
            var open := ActsAs(s, actor, Admin) && target in s.users && id.Some?
                        && s.clock < s.challenges[id.value].expiresAt && s.challenges[id.value].attempts < 5;
            && (reply == Done <==> open && s.challenges[id.value].code == code)
            && (reply == Refused(WrongCode) <==> open && s.challenges[id.value].code != code)
            && (reply == Done ==>
                  && t == s.(challenges := t.challenges, users := t.users)
                  && t.challenges == s.challenges[id.value := s.challenges[id.value].(consumedAt := Some(s.clock))]
                  && OnlyRow(s, t, target, s.users[target].(role := Role.Admin)))
            && (reply == Refused(WrongCode) ==>
                  && t == s.(challenges := t.challenges)
                  && t.challenges == s.challenges[id.value := s.challenges[id.value].(attempts := s.challenges[id.value].attempts + 1)])
            && (reply != Done && reply != Refused(WrongCode) ==> t == s)
  {
  }

  lemma StepDownAnswers(s: State, actor: Id, role: Role)
    ensures var (t, reply) := StepDown(s, actor, role);
            && (reply == Done <==>
                  && ActsAs(s, actor, Admin) && role != Role.Admin
                  && exists u :: u in s.users && u != actor && s.users[u].role == Role.Admin && s.users[u].isActive)
            && (reply != Done ==> t == s)
            && (reply == Done ==> t == s.(users := t.users) && OnlyRow(s, t, actor, s.users[actor].(role := role)))
  {
  }

  // ----- refusals -----

  /** Who may exercise what: administrators everything, coordinators and faculty what concerns
      the accounts below them, and nobody without a password of their own. */
  lemma PermissionsByRole(s: State, actor: Id, permission: Permission)
    ensures Acting(s, actor, permission).None?
       <==> || ActsAs(s, actor, Admin)
            || (permission !in {UserUpdate, UserUpdateRole} && (ActsAs(s, actor, Coordinator) || ActsAs(s, actor, Faculty)))
    ensures Acting(s, actor, permission) == Some(NotAuthenticated) <==> actor !in s.users || !s.users[actor].isActive
    ensures Acting(s, actor, permission).None? || Acting(s, actor, permission).value in {NotAuthenticated, Forbidden}
  {
    match permission
    case UserCreate => case UserUpdate => case UserUpdateRole =>
    case UserActivate => case UserDeactivate => case UserDelete =>
    if actor in s.users {
      match s.users[actor].role case Student => case Faculty => case Coordinator => case Custodian => case Dean => case Admin =>
    }
  }

  /** Why somebody may not delete or switch an account: each reason given is so. */
  lemma NotTheirs(actor: User, target: User)
    ensures match MayDelete(actor, target)
            case None => true
            case Some(SelfDeletion) => actor.id == target.id
            case Some(NotAllowedRole) =>
              || actor.role in {Student, Custodian, Dean} || (actor.role == Faculty && target.role != Student)
              || (actor.role == Coordinator && target.role !in {Student, Faculty, Custodian})
            case Some(NotVerified) => actor.role == Faculty && !actor.verified
            case Some(NoDepartment) =>
              if actor.role == Coordinator then actor.scopeType != Some(DepartmentScope) || actor.scopeId.None? else actor.department.None?
            case Some(OutOfScope) =>
              target.department != if actor.role == Coordinator then actor.scopeId else actor.department
            case Some(_) => false
  {
    match actor.role case Student => case Faculty => case Coordinator => case Custodian => case Dean => case Admin =>
    match target.role case Student => case Faculty => case Coordinator => case Custodian => case Dean => case Admin =>
  }

  // ----- passwords over runs -----

  /** The call gives the account a password, if it succeeds. */
  function NewPassword(e: Event, u: Id): Option<nat> {
    match e
    case EvChangePassword(user, _, replacement) => if user == u then Some(replacement) else None
    case EvResetPassword(_, target, temporary) => if target == u then Some(temporary) else None
    case _ => None
  }

  ghost predicate KeepsPassword(s: State, es: seq<Event>, u: Id)
    decreases |es|
  {
    es == [] || ((NewPassword(es[0], u).Some? ==> Call(s, es[0]).1 != Done) && KeepsPassword(Apply(s, es[0]), es[1..], u))
  }

  /** The stored password is this one, if the account is still there. */
  predicate PasswordIs(s: State, u: Id, password: nat) { u < s.next && (u in s.users ==> s.users[u].password == password) }

  lemma RolesKeepPassword(s: State, e: Event, u: Id)
    requires Touched(e) == Some(u) && u in s.users && u in Apply(s, e).users
    requires e.EvChangeRole? || e.EvUpdateUser? || e.EvConfirm? || e.EvStepDown?
    ensures Apply(s, e).users[u].password == s.users[u].password
  {
    hide Acting;
  }

  lemma TouchedKeepPassword(s: State, e: Event, u: Id)
    requires Touched(e) == Some(u) && u in s.users && u in Apply(s, e).users
    requires NewPassword(e, u).Some? ==> Call(s, e).1 != Done
    ensures Apply(s, e).users[u].password == s.users[u].password
  {
    hide Acting, ChangeRole, UpdateUser, ConfirmPromotion, StepDown;
    if e.EvChangeRole? || e.EvUpdateUser? || e.EvConfirm? || e.EvStepDown? {
      RolesKeepPassword(s, e, u);
    }
  }

  lemma PasswordStep(s: State, e: Event, u: Id, password: nat)
    requires UsersNumbered(s) && PasswordIs(s, u, password) && (NewPassword(e, u).Some? ==> Call(s, e).1 != Done)
    ensures PasswordIs(Apply(s, e), u, password)
  {
    hide Apply, Call, UsersNumbered, Touched, NewPassword;
    NumbersAdvance(s, e);
    if u !in s.users {
      NobodyReturns(s, e, u);
    } else if Touched(e) != Some(u) {
      UntouchedStay(s, e, u);
    } else if u in Apply(s, e).users {
      TouchedKeepPassword(s, e, u);
    }
  }

  lemma {:induction false} PasswordOverRuns(s: State, es: seq<Event>, u: Id, password: nat)
    requires UsersNumbered(s) && PasswordIs(s, u, password) && KeepsPassword(s, es, u)
    ensures PasswordIs(Run(s, es), u, password)
    decreases |es|
  {
    hide Apply, Call, UsersNumbered;
    if es != [] {
      PasswordStep(s, es[0], u, password);
      KeepsUsersNumbered(s, es[0]);
      PasswordOverRuns(Apply(s, es[0]), es[1..], u, password);
    }
  }

  lemma PasswordSet(s: State, e: Event, u: Id)
    requires UsersNumbered(s) && NewPassword(e, u).Some? && Call(s, e).1 == Done
    ensures PasswordIs(Apply(s, e), u, NewPassword(e, u).value)
  {
  }

  /** Once a password change or a reset has succeeded, and until another one does, only the
      password it set opens the account, whatever else anybody does. */
  lemma OnlyTheLastPasswordOpens(s: State, e: Event, es: seq<Event>, u: Id, tried: nat, portal: Option<Portal>)
    requires UsersNumbered(s) && NewPassword(e, u).Some? && Call(s, e).1 == Done && KeepsPassword(Apply(s, e), es, u)
    ensures Login(Run(Apply(s, e), es), u, tried, portal).1 == Done ==> tried == NewPassword(e, u).value
  {
    hide Apply, Call, UsersNumbered;
    KeepsUsersNumbered(s, e);
    PasswordSet(s, e, u);
    PasswordOverRuns(Apply(s, e), es, u, NewPassword(e, u).value);
  }
}
