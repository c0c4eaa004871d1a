/** The account record every module reads, and the tables keyed by its role. */
module Users {
  import opened Base

  datatype Role = Student | Faculty | Coordinator | Custodian | Dean | Admin

  datatype ScopeType = DepartmentScope | SchoolScope | UniversityScope

  datatype User = User(
    id: Id,
    role: Role,
    isActive: bool,
    department: Option<Id>,
    scopeType: Option<ScopeType>,
    scopeId: Option<Id>,
    verified: bool,
    password: nat,
    mustChangePassword: bool)

  /** Roles whose word carries across the whole university. */
  const INSTITUTION_WIDE: set<Role> := {Admin, Dean}

  /** A coordinator's department, taken from a scope that is one; nobody else has one. */
  function CoordinatorDepartment(user: User): Option<Id> {
    if user.role == Coordinator && user.scopeType == Some(DepartmentScope) then user.scopeId else None
  }
}
