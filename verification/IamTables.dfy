/** The tables of the iam schema and the constraints their migrations declare. */
module IamTables {
  import opened Wrappers

  const ACTIVE_USER_STATUS: int := 1
  const DELETED_USER_STATUS: int := 2

  datatype UserRow = UserRow(
    userName: string, avatarId: string, email: string, password: string,
    firstName: string, lastName: string, statusId: int, departmentId: int)

  // Nullable columns are options.
  datatype DepartmentRow = DepartmentRow(name: Option<string>, companyId: Option<int>)

  datatype PermissionRow = PermissionRow(name: Option<string>, resource: Option<string>)

  /** Every table with a primary key is a map from it; the two link tables are sets of pairs. */
  datatype Tables = Tables(
    statuses: map<int, Option<string>>,
    companies: map<int, string>,
    departments: map<int, DepartmentRow>,
    users: map<Uuid, UserRow>,
    permissions: map<int, PermissionRow>,
    roles: map<int, string>,
    rolePermissions: set<(int, int)>,
    userRoles: set<(Uuid, int)>)

  ghost predicate UniqueNames(users: map<Uuid, UserRow>) {
    forall a, b | a in users && b in users && a != b ::
      users[a].userName != users[b].userName && users[a].email != users[b].email
  }

  ghost predicate UserKeys(t: Tables) {
    && (forall id | id in t.users :: t.users[id].statusId in t.statuses && t.users[id].departmentId in t.departments)
    && (forall link | link in t.userRoles :: link.0 in t.users && link.1 in t.roles)
  }

  ghost predicate CatalogueKeys(t: Tables) {
    && (forall a, b | a in t.roles && b in t.roles && a != b :: t.roles[a] != t.roles[b])
    && (forall d | d in t.departments && t.departments[d].companyId.Some? ::
          t.departments[d].companyId.value in t.companies)
    && (forall link | link in t.rolePermissions :: link.0 in t.roles && link.1 in t.permissions)
  }

  /** All declared uniqueness and foreign-key constraints. */
  ghost predicate Consistent(t: Tables) {
    UniqueNames(t.users) && UserKeys(t) && CatalogueKeys(t)
  }

  function StatusId(status: string): Option<int> {
    if status == "Active" then Some(ACTIVE_USER_STATUS)
    else if status == "Deleted" then Some(DELETED_USER_STATUS)
    else None
  }
}
