/** The service calls themselves, changing the rows of one database in place. */
module AccountService {
  import opened Base
  import opened Users
  import opened Accounts
  import Sessions
  import Administration

  class Database {
    var clock: Time
    const tokenLife: Time
    var users: map<Id, User>
    var tokens: map<Id, Token>
    var challenges: map<Id, Challenge>
    const departments: set<Id>
    var next: Id

    constructor (s: State)
      ensures Rows() == s
    {
      clock, tokenLife, users, tokens := s.clock, s.tokenLife, s.users, s.tokens;
      challenges, departments, next := s.challenges, s.departments, s.next;
    }

    function Rows(): State
      reads this
    {
      State(clock, tokenLife, users, tokens, challenges, departments, next)
    }

    // ----- sessions -----

    method CreateTokenRow(user: Id, family: Id) returns (row: Id)
      modifies this
      ensures Rows() == Sessions.Issue(old(Rows()), user, family) && row == old(next)
    {
      row := next;
      tokens := tokens[row := Token(user, family, clock + tokenLife, None, None)];
      next := next + 1;
    }

    method RevokeAllSessions(user: Id)
      modifies this`tokens
      ensures tokens == Sessions.RevokeUser(old(tokens), user, clock)
    {
      tokens := map i | i in tokens ::
        if tokens[i].user == user && tokens[i].revokedAt.None? then tokens[i].(revokedAt := Some(clock)) else tokens[i];
    }

    method RevokeFamily(family: Id)
      modifies this`tokens
      ensures tokens == Sessions.RevokeFamily(old(tokens), family, clock)
    {
      tokens := map i | i in tokens ::
        if tokens[i].family == family && tokens[i].revokedAt.None? then tokens[i].(revokedAt := Some(clock)) else tokens[i];
    }

    method Login(user: Id, password: nat, portal: Option<Sessions.Portal>) returns (reply: Reply)
      modifies this
      ensures (Rows(), reply) == Sessions.Login(old(Rows()), user, password, portal)
    {
      if user !in users || !users[user].isActive || users[user].password != password {
        return Refused(InvalidCredentials);
      }
      if portal.Some? {
        var isAdmin := users[user].role == Admin;
        if (portal.value.AdminPortal? && !isAdmin) || (portal.value.MainPortal? && isAdmin) {
          return Refused(WrongPortal);
        }
      }
      var _ := CreateTokenRow(user, next);
      reply := Done;
    }

    method Rotate(raw: Id) returns (reply: Reply)
      modifies this
      ensures (Rows(), reply) == Sessions.Rotate(old(Rows()), raw)
    {
      if raw !in tokens { return Refused(InvalidRefreshToken); }
      var existing := tokens[raw];
      if existing.revokedAt.Some? {
        RevokeFamily(existing.family);
        return Refused(InvalidRefreshToken);
      }
      if existing.expiresAt < clock { return Refused(InvalidRefreshToken); }
      if existing.user !in users || !users[existing.user].isActive { return Refused(InvalidRefreshToken); }
      var row := CreateTokenRow(existing.user, existing.family);
      tokens := tokens[raw := existing.(revokedAt := Some(clock), replacedBy := Some(row))];
      reply := Done;
    }

    method Logout(raw: Id) returns (reply: Reply)
      modifies this
      ensures (Rows(), reply) == Sessions.Logout(old(Rows()), raw)
    {
      reply := Done;
      if raw in tokens && tokens[raw].revokedAt.None? {
        tokens := tokens[raw := tokens[raw].(revokedAt := Some(clock))];
      }
    }

    method ChangePassword(user: Id, current: nat, replacement: nat) returns (reply: Reply)
      modifies this
      ensures (Rows(), reply) == Sessions.ChangePassword(old(Rows()), user, current, replacement)
    {
      if user !in users || !users[user].isActive { return Refused(NotAuthenticated); }
      if users[user].password != current { return Refused(IncorrectPassword); }
      users := users[user := users[user].(password := replacement)];
      users := users[user := users[user].(mustChangePassword := false)];
      assert users == old(users)[user := users[user]];
      RevokeAllSessions(user);
      reply := Done;
    }

    // ----- administration -----

    method ResetPassword(actor: Id, target: Id, temporary: nat) returns (reply: Reply)
      modifies this
      ensures (Rows(), reply) == Administration.ResetPassword(old(Rows()), actor, target, temporary)
    {
      var denied := Acting(Rows(), actor, UserUpdate);
      if denied.Some? { return Refused(denied.value); }
      if target !in users { return Refused(UserNotFound); }
      if actor == target { return Refused(SelfPasswordReset); }
      users := users[target := users[target].(password := temporary)];
      users := users[target := users[target].(mustChangePassword := true)];
      assert users == old(users)[target := users[target]];
      RevokeAllSessions(target);
      reply := Done;
    }

    method SyncCoordinatorScope(target: Id)
      requires target in users
      modifies this`users
      ensures users == old(users)[target := Administration.SyncScope(old(users)[target])]
    {
      var u := users[target];
      if u.role == Coordinator {
        users := users[target := u.(scopeType := Some(DepartmentScope), scopeId := u.department)];
      } else {
        users := users[target := u.(scopeType := None, scopeId := None)];
      }
    }

    method SyncPlacement(target: Id)
      requires target in users
      modifies this`users
      ensures users == old(users)[target := Administration.SyncPlacement(old(users)[target])]
    {
      if users[target].role in INSTITUTION_WIDE {
        users := users[target := users[target].(department := None)];
      }
    }

    method ChangeRole(actor: Id, target: Id, role: Role) returns (reply: Reply)
      modifies this
      ensures (Rows(), reply) == Administration.ChangeRole(old(Rows()), actor, target, role)
    {
      var denied := Acting(Rows(), actor, UserUpdateRole);
      if denied.Some? { return Refused(denied.value); }
      if target !in users { return Refused(UserNotFound); }
      if actor == target { return Refused(SelfRoleChange); }
      if !Administration.PreservesLastAdmin(Rows(), target, Some(role), None) { return Refused(LastActiveAdmin); }
      users := users[target := users[target].(role := role)];
      SyncCoordinatorScope(target);
      SyncPlacement(target);
      assert users == old(users)[target := users[target]];
      reply := Done;
    }

    method SetActive(actor: Id, target: Id, active: bool) returns (reply: Reply)
      modifies this
      ensures (Rows(), reply) == Administration.SetActive(old(Rows()), actor, target, active)
    {
      var denied := Acting(Rows(), actor, if active then UserActivate else UserDeactivate);
      if denied.Some? { return Refused(denied.value); }
      if target !in users { return Refused(UserNotFound); }
      var may := Administration.MaySetActive(users[actor], users[target]);
      if may.Some? { return Refused(may.value); }
      if !Administration.PreservesLastAdmin(Rows(), target, None, Some(active)) { return Refused(LastActiveAdmin); }
      users := users[target := users[target].(isActive := active)];
      if !active { RevokeAllSessions(target); }
      reply := Done;
    }

    method Move(target: Id, p: Administration.Patch)
      requires target in users
      modifies this`users
      ensures users == old(users)[target := Administration.Moved(old(users)[target], p)]
    {
      if p.department.Some? && p.department.value != users[target].department {
        users := users[target := users[target].(department := p.department.value)];
        if p.scopeId.None? { SyncCoordinatorScope(target); }
        SyncPlacement(target);
      }
    }

    /** Nothing is kept of a request that names a department which does not exist. */
    method UpdateUser(actor: Id, target: Id, p: Administration.Patch) returns (reply: Reply)
      modifies this
      ensures (Rows(), reply) == Administration.UpdateUser(old(Rows()), actor, target, p)
    {
      var denied := Acting(Rows(), actor, UserUpdate);
      if denied.Some? { return Refused(denied.value); }
      if target !in users { return Refused(UserNotFound); }
      if p.department.Some? && p.department.value != users[target].department
         && p.department.value.Some? && p.department.value.value !in departments { return Refused(InvalidDepartment); }
      var before := users;
      Move(target, p);
      var moved := users[target];
      var scopeType := if p.scopeType.Some? then p.scopeType.value else moved.scopeType;
      var scopeId := if p.scopeId.Some? then p.scopeId.value else moved.scopeId;
      if scopeType == Some(DepartmentScope) && scopeId.Some? && scopeId.value !in departments {
        users := before;
        return Refused(InvalidScope);
      }
      users := users[target := moved.(scopeType := scopeType, scopeId := scopeId)];
      assert users == before[target := users[target]];
      reply := Done;
    }

    method Delete(actor: Id, target: Id) returns (reply: Reply)
      modifies this
      ensures (Rows(), reply) == Administration.Delete(old(Rows()), actor, target)
    {
      var denied := Acting(Rows(), actor, UserDelete);
      if denied.Some? { return Refused(denied.value); }
      if target !in users { return Refused(UserNotFound); }
      var may := Administration.MayDelete(users[actor], users[target]);
      if may.Some? { return Refused(may.value); }
      users := users - {target};
      tokens := map i | i in tokens && tokens[i].user != target :: tokens[i];
      challenges := map i | i in challenges && challenges[i].target != target
                              && challenges[i].requestedBy != target :: challenges[i];
      reply := Done;
    }

    method CreateAccount(creator: Id, named: Option<Id>, temporary: nat, override: Option<Role>) returns (reply: Reply)
      modifies this
      ensures (Rows(), reply) == Administration.CreateAccount(old(Rows()), creator, named, temporary, override)
    {
      var denied := Acting(Rows(), creator,
                           if override.Some? && override != Some(Custodian) then UserUpdateRole else UserCreate);
      if denied.Some? { return Refused(denied.value); }
      var role := Administration.RoleFor(users[creator], override);
      if role.None? { return Refused(NotAllowedRole); }
      var department := Administration.DepartmentFor(users[creator], role.value, named);
      if department.Err? { return Refused(department.error); }
      if department.value.Some? && department.value.value !in departments { return Refused(UnknownDepartment); }
      var user := User(next, role.value, true, department.value, None, None, false, temporary, true);
      if role.value == Coordinator {
        user := user.(scopeType := Some(DepartmentScope), scopeId := department.value);
      }
      users := users[next := user];
      next := next + 1;
      reply := Done;
    }

    // ----- promotion -----

    /** Each stale challenge is retired in turn. */
    method RetireStale(target: Id)
      modifies this`challenges
      ensures challenges == Administration.Retire(old(challenges), target, clock)
    {
      var stale := set i | i in challenges && Administration.Live(challenges[i], target);
      while stale != {}
        invariant stale <= challenges.Keys && challenges.Keys == old(challenges).Keys
        invariant forall i | i in stale :: challenges[i] == old(challenges)[i] && Administration.Live(challenges[i], target)
        invariant forall i | i in challenges && i !in stale ::
            challenges[i] == Administration.Retire(old(challenges), target, clock)[i]
        decreases |stale|
      {
        var i :| i in stale;
        challenges := challenges[i := challenges[i].(consumedAt := Some(clock))];
        stale := stale - {i};
      }
    }

    method RequestPromotion(actor: Id, target: Id, code: nat) returns (reply: Reply)
      modifies this
      ensures (Rows(), reply) == Administration.RequestPromotion(old(Rows()), actor, target, code)
    {
      var denied := Acting(Rows(), actor, UserUpdateRole);
      if denied.Some? { return Refused(denied.value); }
      if target !in users { return Refused(UserNotFound); }
      if target == actor { return Refused(SelfPromotion); }
      if users[target].role == Admin { return Refused(AlreadyAdmin); }
      if !users[target].isActive { return Refused(InactiveTarget); }
      RetireStale(target);
      challenges := challenges[next := Challenge(target, actor, code, clock + Administration.CODE_TTL, 0, None)];
      next := next + 1;
      reply := Done;
    }

    /** `found` is the first row of the ordered query, if it has one. */
    method ConfirmPromotion(actor: Id, target: Id, found: Option<Id>, code: nat) returns (reply: Reply)
      requires if found.Some? then Administration.Newest(challenges, target, found.value)
               else forall i | i in challenges :: !Administration.Live(challenges[i], target)
      modifies this
      ensures (Rows(), reply) == Administration.ConfirmPromotion(old(Rows()), actor, target, found, code)
    {
      var denied := Acting(Rows(), actor, UserUpdateRole);
      if denied.Some? { return Refused(denied.value); }
      if target !in users { return Refused(UserNotFound); }
      if found.None? { return Refused(ChallengeNotFound); }
      var id := found.value;
      if challenges[id].expiresAt <= clock { return Refused(ChallengeExpired); }
      if challenges[id].attempts >= Administration.MAX_ATTEMPTS { return Refused(TooManyAttempts); }
      if challenges[id].code != code {
        challenges := challenges[id := challenges[id].(attempts := challenges[id].attempts + 1)];
        return Refused(WrongCode);
      }
      challenges := challenges[id := challenges[id].(consumedAt := Some(clock))];
      users := users[target := users[target].(role := Admin)];
      reply := Done;
    }

    method StepDown(actor: Id, role: Role) returns (reply: Reply)
      modifies this
      ensures (Rows(), reply) == Administration.StepDown(old(Rows()), actor, role)
    {
      var denied := Acting(Rows(), actor, UserUpdateRole);
      if denied.Some? { return Refused(denied.value); }
      if role == Admin { return Refused(AlreadyAdmin); }
      if !Administration.OtherActiveAdmin(Rows(), actor) { return Refused(LastActiveAdmin); }
      users := users[actor := users[actor].(role := role)];
      reply := Done;
    }
  }
}
