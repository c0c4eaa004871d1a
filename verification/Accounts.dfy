/** The rows behind accounts: users, refresh tokens and promotion challenges, and the
    permission tables keyed by role. */
module Accounts {
  import opened Base
  import opened Users

  /** One issued refresh token. A raw token is the number of the row that stores its
      hash: hashes are injective and raw values are never reused. */
  datatype Token = Token(user: Id, family: Id, expiresAt: Time, revokedAt: Option<Time>, replacedBy: Option<Id>)

  datatype Challenge = Challenge(
    target: Id, requestedBy: Id, code: nat, expiresAt: Time, attempts: nat, consumedAt: Option<Time>)

  /** `next` numbers the next row of any table, so identifiers are never reused. */
  datatype State = State(
    clock: Time,
    tokenLife: Time,
    users: map<Id, User>,
    tokens: map<Id, Token>,
    challenges: map<Id, Challenge>,
    departments: set<Id>,
    next: Id)

  datatype Error =
    | NotAuthenticated | Forbidden | InvalidCredentials | WrongPortal | InvalidRefreshToken | IncorrectPassword
    | UserNotFound | SelfPasswordReset | SelfRoleChange | LastActiveAdmin
    | SelfDeletion | NotAllowedRole | NotVerified | NoDepartment | OutOfScope
    | DepartmentRequired | UnknownDepartment | InvalidDepartment | InvalidScope
    | SelfPromotion | AlreadyAdmin | InactiveTarget | ChallengeNotFound | ChallengeExpired | TooManyAttempts | WrongCode

  datatype Reply = Done | Refused(error: Error)

  // ----- permissions -----

  datatype Permission =
    | UserCreate | UserUpdate | UserUpdateRole | UserActivate | UserDeactivate | UserDelete

  function Parent(role: Role): Option<Role> {
    if role == Coordinator then Some(Faculty) else None
  }

  /** The grants of each role that concern accounts. */
  function OwnPermissions(role: Role): set<Permission> {
    match role
    case Faculty => {UserCreate, UserDelete, UserDeactivate, UserActivate}
    case Admin => {UserCreate, UserUpdate, UserUpdateRole, UserActivate, UserDeactivate, UserDelete}
    case Student => {}
    case Coordinator => {}
    case Custodian => {}
    case Dean => {}
  }

  function Effective(role: Role): set<Permission>
    decreases if role == Coordinator then 1 else 0
  {
    OwnPermissions(role) + if Parent(role).Some? then Effective(Parent(role).value) else {}
  }

  function CreatableRole(creator: Role): Option<Role> {
    match creator
    case Admin => Some(Coordinator)
    case Coordinator => Some(Faculty)
    case Faculty => Some(Student)
    case Student => None
    case Custodian => None
    case Dean => None
  }

  function DeletableRoles(actor: Role): set<Role> {
    match actor
    case Admin => {Student, Faculty, Coordinator, Custodian, Dean, Role.Admin}
    case Coordinator => {Student, Faculty, Custodian}
    case Faculty => {Student}
    case Student => {}
    case Custodian => {}
    case Dean => {}
  }

  /** Who is acting: known, active, past the temporary password, and holding the permission. */
  function Acting(s: State, actor: Id, permission: Permission): Option<Error> {
    if actor !in s.users || !s.users[actor].isActive then Some(NotAuthenticated)
    else if s.users[actor].mustChangePassword || permission !in Effective(s.users[actor].role) then Some(Forbidden)
    else None
  }
}
