/** The permission engine, over the joined role and permission tables. */
module Rbac {
  import opened Wrappers
  import opened IamTables
  import opened UserTables

  // Actions are written resource.permission and split at the first dot.

  function SplitAction(action: string): Option<(string, string)> {
    if action == [] then None
    else if action[0] == '.' then Some(([], action[1..]))
    else
      var (resource, permission) :- SplitAction(action[1..]);
      Some(([action[0]] + resource, permission))
  }

  /** Splitting gives back the two parts of any action whose resource has no dot, and only those. */
  lemma {:induction false} SplitActionIff(action: string, resource: string, permission: string)
    ensures SplitAction(action) == Some((resource, permission))
            <==> action == resource + "." + permission && '.' !in resource
  {
    if action != [] && action[0] != '.' && resource != [] {
      SplitActionIff(action[1..], resource[1..], permission);
      assert (resource + "." + permission)[1..] == resource[1..] + "." + permission;
      assert resource == [resource[0]] + resource[1..];
      assert action == [action[0]] + action[1..];
    } else if action != [] && resource == [] {
      assert action == [action[0]] + action[1..];
      assert resource + "." + permission == "." + permission;
      assert ("." + permission)[1..] == permission;
    } else if action != [] {
      assert (resource + "." + permission)[0] == resource[0];
    }
  }

  lemma {:induction false} ActionIsSplit(action: string)
    ensures SplitAction(action).Some? ==>
              var (resource, name) := SplitAction(action).value;
              action == resource + "." + name && '.' !in resource
  {
    if SplitAction(action).Some? {
      SplitActionIff(action, SplitAction(action).value.0, SplitAction(action).value.1);
    }
  }

  datatype Permission = Permission(resource: string, name: string)

  // The relational meaning of the three queries.

  /** Some role of the user carries a permission with these two names. */
  ghost predicate Granted(t: Tables, user: Uuid, resource: string, name: string) {
    exists link, grant | link in t.userRoles && grant in t.rolePermissions ::
      link.0 == user && grant.0 == link.1 && grant.1 in t.permissions
      && t.permissions[grant.1] == PermissionRow(Some(name), Some(resource))
  }

  /** Some role of the user carries a permission with a NULL name or resource. */
  ghost predicate NullGranted(t: Tables, user: Uuid) {
    exists link, grant | link in t.userRoles && grant in t.rolePermissions ::
      link.0 == user && grant.0 == link.1 && grant.1 in t.permissions
      && (t.permissions[grant.1].name.None? || t.permissions[grant.1].resource.None?)
  }

  /** What the tables allow. */
  ghost predicate Allowed(t: Tables, superRole: string, user: Uuid, action: string) {
    || superRole in RoleNames(t, user)
    || (SplitAction(action).Some? && Granted(t, user, SplitAction(action).value.0, SplitAction(action).value.1))
  }

  /** The store: three queries, each of which may fail. */
  datatype Store = Store(
    getRoles: Uuid -> Result<seq<string>, StoreError>,
    getPermissions: Uuid -> Result<seq<Permission>, StoreError>,
    hasPermission: (Uuid, string, string) -> Result<bool, StoreError>)

  /** Whatever the store answers is what the tables say; a joined row with a NULL cannot be decoded by
      getPermissions, while hasPermission never looks at it. */
  ghost predicate Serves(store: Store, t: Tables, user: Uuid) {
    && (store.getRoles(user).Success? ==>
          forall name :: name in store.getRoles(user).value <==> name in RoleNames(t, user))
    && (store.getPermissions(user).Success? ==>
          !NullGranted(t, user)
          && forall p: Permission :: p in store.getPermissions(user).value <==> Granted(t, user, p.resource, p.name))
    && (forall resource, name | store.hasPermission(user, resource, name).Success? ::
          store.hasPermission(user, resource, name).value <==> Granted(t, user, resource, name))
  }

  /** And it fails only on such a NULL. */
  ghost predicate Reliable(store: Store, t: Tables, user: Uuid) {
    && Serves(store, t, user)
    && store.getRoles(user).Success?
    && (store.getPermissions(user).Failure? ==> NullGranted(t, user))
    && forall resource, name :: store.hasPermission(user, resource, name).Success?
  }

  // The queries as the store runs them.

  /** The permission rows that a user is joined to through roles. */
  function JoinedPermissions(t: Tables, user: Uuid): set<PermissionRow> {
    set link, grant |
      link in t.userRoles && grant in t.rolePermissions && link.0 == user && grant.0 == link.1
      && grant.1 in t.permissions :: t.permissions[grant.1]
  }

  lemma {:induction false} JoinedMeans(t: Tables, user: Uuid, resource: string, name: string)
    ensures PermissionRow(Some(name), Some(resource)) in JoinedPermissions(t, user)
            <==> Granted(t, user, resource, name)
    ensures (exists row | row in JoinedPermissions(t, user) :: row.name.None? || row.resource.None?)
            <==> NullGranted(t, user)
  {
    if Granted(t, user, resource, name) {
      var link, grant :| link in t.userRoles && grant in t.rolePermissions && link.0 == user && grant.0 == link.1
        && grant.1 in t.permissions && t.permissions[grant.1] == PermissionRow(Some(name), Some(resource));
      assert t.permissions[grant.1] in JoinedPermissions(t, user);
    }
    if NullGranted(t, user) {
      var link, grant :| link in t.userRoles && grant in t.rolePermissions && link.0 == user && grant.0 == link.1
        && grant.1 in t.permissions && (t.permissions[grant.1].name.None? || t.permissions[grant.1].resource.None?);
      assert t.permissions[grant.1] in JoinedPermissions(t, user);
    }
  }

  /** The rows in some order. */
  ghost function Listed<T(!new)>(rows: set<T>): (list: seq<T>)
    ensures forall row :: row in list <==> row in rows
  {
    if rows == {} then []
    else
      var row :| row in rows;
      [row] + Listed(rows - {row})
  }

  /** Decoding rows one after another; the first NULL is an error. */
  function DecodeRows(rows: seq<PermissionRow>): Result<seq<Permission>, StoreError> {
    if rows == [] then Success([])
    else if rows[0].name.None? || rows[0].resource.None? then Failure(StoreError.StoreError)
    else
      match DecodeRows(rows[1..])
      case Success(rest) => Success([Permission(rows[0].resource.value, rows[0].name.value)] + rest)
      case Failure(error) => Failure(error)
  }

  lemma {:induction false} DecodeRowsMeans(rows: seq<PermissionRow>)
    ensures DecodeRows(rows).Failure? <==> exists row | row in rows :: row.name.None? || row.resource.None?
    ensures DecodeRows(rows).Success? ==>
              forall p: Permission ::
                p in DecodeRows(rows).value <==> PermissionRow(Some(p.name), Some(p.resource)) in rows
  {
    if rows != [] {
      DecodeRowsMeans(rows[1..]);
      assert forall row :: row in rows <==> row == rows[0] || row in rows[1..];
    }
  }

  ghost function JoinedStore(t: Tables): Store {
    Store((user: Uuid) => Success(Listed(RoleNames(t, user))),
          (user: Uuid) => DecodeRows(Listed(JoinedPermissions(t, user))),
          (user: Uuid, resource: string, name: string) =>
            Success(PermissionRow(Some(name), Some(resource)) in JoinedPermissions(t, user)))
  }

  /** A store that answers its three queries by the joins is reliable, whatever the tables hold. */
  lemma {:induction false} JoinedStoreIsReliable(t: Tables, user: Uuid)
    ensures Reliable(JoinedStore(t), t, user)
  {
    var store := JoinedStore(t);
    DecodeRowsMeans(Listed(JoinedPermissions(t, user)));
    forall resource, name
      ensures PermissionRow(Some(name), Some(resource)) in JoinedPermissions(t, user)
              <==> Granted(t, user, resource, name)
    {
      JoinedMeans(t, user, resource, name);
    }
    JoinedMeans(t, user, "", "");
    assert store.getPermissions(user) == DecodeRows(Listed(JoinedPermissions(t, user)));
    assert store.getRoles(user) == Success(Listed(RoleNames(t, user)));
  }

  // A role with a nameless permission.

  const STAFF_TABLES: Tables :=
    Tables(map[1 := Some("Active"), 2 := Some("Deleted")], map[1 := "Example Company Ltd"],
           map[1 := DepartmentRow(Some("Administration"), Some(1))],
           map[0 := UserRow("staff", "", "staff@example.com", "hash", "Staff", "User", ACTIVE_USER_STATUS, 1)],
           map[1 := PermissionRow(Some("View All"), Some("Users")), 2 := PermissionRow(None, Some("Users"))],
           map[1 := "Staff"], {(1, 1), (1, 2)}, {(0, 1)})

  lemma {:induction false} StaffMayView()
    ensures Consistent(STAFF_TABLES) && RoleNames(STAFF_TABLES, 0) == {"Staff"}
    ensures Granted(STAFF_TABLES, 0, "Users", "View All") && NullGranted(STAFF_TABLES, 0)
  {
    var t := STAFF_TABLES;
    assert (0, 1) in t.userRoles && (1, 1) in t.rolePermissions && (1, 2) in t.rolePermissions;
    assert 1 in t.roles && t.roles[1] == "Staff";
  }

  lemma {:induction false} ViewAllIsSplit()
    ensures SplitAction("Users.View All") == Some(("Users", "View All"))
  {
    assert "Users.View All" == "Users" + "." + "View All";
    SplitActionIff("Users.View All", "Users", "View All");
  }

  class RbacEngine {
    const superRole: string
    const store: Store

    constructor (superRole: string, store: Store)
      ensures this.superRole == superRole && this.store == store
    {
      this.superRole := superRole;
      this.store := store;
    }

    function RoleBypass(user: Uuid): bool {
      match store.getRoles(user)
      case Success(roles) => superRole in roles
      case Failure(_) => false
    }

    function Can(user: Uuid, action: string): bool {
      if RoleBypass(user) then true
      else
        match SplitAction(action)
        case None => false
        case Some((resource, permission)) =>
          match store.hasPermission(user, resource, permission)
          case Success(allowed) => allowed
          case Failure(_) => false
    }

    /** What can_any answers, in terms of the store alone. */
    ghost predicate MayAny(user: Uuid, actions: seq<string>) {
      || RoleBypass(user)
      || (store.getPermissions(user).Success?
          && exists action | action in actions ::
               SplitAction(action).Some?
               && Permission(SplitAction(action).value.0, SplitAction(action).value.1)
                  in store.getPermissions(user).value)
    }

    /** The hash index from resource to permission names answers as the list of permissions would. */
    method CanAny(user: Uuid, actions: seq<string>) returns (allowed: bool)
      ensures allowed == MayAny(user, actions)
    {
      if RoleBypass(user) {
        return true;
      }
      if store.getPermissions(user).Failure? {
        return false;
      }
      var permissions := store.getPermissions(user).value;
      var granted: map<string, seq<string>> := map[];
      for i := 0 to |permissions|
        invariant forall p: Permission ::
          (p.resource in granted && p.name in granted[p.resource]) <==> p in permissions[..i]
      {
        var permission := permissions[i];
        var names := if permission.resource in granted then granted[permission.resource] else [];
        granted := granted[permission.resource := names + [permission.name]];
        assert permissions[..i + 1] == permissions[..i] + [permission];
      }
      assert permissions[..|permissions|] == permissions;
      for i := 0 to |actions|
        invariant forall j | 0 <= j < i ::
          SplitAction(actions[j]).Some? ==>
            Permission(SplitAction(actions[j]).value.0, SplitAction(actions[j]).value.1) !in permissions
      {
        var split := SplitAction(actions[i]);
        if split.Some? && split.value.0 in granted && split.value.1 in granted[split.value.0] {
          assert Permission(split.value.0, split.value.1) in permissions;
          assert actions[i] in actions;
          return true;
        }
        assert split.Some? ==> Permission(split.value.0, split.value.1) !in permissions;
      }
      return false;
    }

    /** With a reliable store, `can` decides exactly what the tables allow. */
    lemma {:induction false} CanIsAllowed(t: Tables, user: Uuid, action: string)
      requires Reliable(store, t, user)
      ensures Can(user, action) <==> Allowed(t, superRole, user, action)
    {
      assert store.getRoles(user).Success?;
      if SplitAction(action).Some? {
        assert store.hasPermission(user, SplitAction(action).value.0, SplitAction(action).value.1).Success?;
      }
    }

    /** And `can_any` decides what they allow, except that one NULL among the joined rows refuses all. */
    lemma {:induction false} CanAnyIsAllowed(t: Tables, user: Uuid, actions: seq<string>)
      requires Reliable(store, t, user)
      ensures MayAny(user, actions)
              <==> superRole in RoleNames(t, user)
                   || (!NullGranted(t, user)
                       && exists action | action in actions :: Allowed(t, superRole, user, action))
    {
      assert RoleBypass(user) <==> superRole in RoleNames(t, user);
      forall action | !RoleBypass(user) && store.getPermissions(user).Success?
        ensures Allowed(t, superRole, user, action) <==>
                SplitAction(action).Some?
                && Permission(SplitAction(action).value.0, SplitAction(action).value.1)
                   in store.getPermissions(user).value
      {
        if SplitAction(action).Some? {
          var p := Permission(SplitAction(action).value.0, SplitAction(action).value.1);
          assert p in store.getPermissions(user).value <==> Granted(t, user, p.resource, p.name);
        }
      }
    }

    /** When the store is reliable, the index over joined rows and the query per action agree exactly when
        either the user bypasses the checks and there is an action to check, or no joined row holds a NULL
        or none of the actions is allowed anyway. */
    lemma {:induction false} CanAnyAgreesIff(t: Tables, user: Uuid, actions: seq<string>)
      requires Reliable(store, t, user)
      ensures (MayAny(user, actions) <==> exists action | action in actions :: Can(user, action))
              <==> if superRole in RoleNames(t, user) then actions != []
                   else
                     !NullGranted(t, user)
                     || forall action | action in actions :: !Allowed(t, superRole, user, action)
    {
      forall action | action in actions ensures Can(user, action) <==> Allowed(t, superRole, user, action) {
        CanIsAllowed(t, user, action);
      }
      CanAnyIsAllowed(t, user, actions);
      if actions != [] && superRole in RoleNames(t, user) {
        assert Allowed(t, superRole, user, actions[0]);
      }
    }

    /** Both checks under any failures of the three queries: the super role counts if the roles are answered, and
        without it an action counts if the tables grant it and its own query is answered. */
    lemma {:induction false} ChecksUnderFailures(t: Tables, user: Uuid, action: string, actions: seq<string>)
      requires Serves(store, t, user)
      ensures Can(user, action)
              <==> || (store.getRoles(user).Success? && superRole in RoleNames(t, user))
                   || exists resource, name ::
                        action == resource + "." + name && '.' !in resource
                        && store.hasPermission(user, resource, name).Success? && Granted(t, user, resource, name)
      ensures MayAny(user, actions)
              <==> || (store.getRoles(user).Success? && superRole in RoleNames(t, user))
                   || (store.getPermissions(user).Success?
                       && exists resource, name | Granted(t, user, resource, name) ::
                            '.' !in resource && resource + "." + name in actions)
    {
      ActionIsSplit(action);
      forall resource, name ensures SplitAction(resource + "." + name) == Some((resource, name))
                                    <==> '.' !in resource {
        SplitActionIff(resource + "." + name, resource, name);
      }
      if MayAny(user, actions) && !RoleBypass(user) {
        var some :| some in actions && SplitAction(some).Some?
          && Permission(SplitAction(some).value.0, SplitAction(some).value.1) in store.getPermissions(user).value;
        ActionIsSplit(some);
        var p := Permission(SplitAction(some).value.0, SplitAction(some).value.1);
        assert Granted(t, user, p.resource, p.name) && p.resource + "." + p.name in actions;
      }
      if resource, name :| store.getPermissions(user).Success? && Granted(t, user, resource, name)
                           && '.' !in resource && resource + "." + name in actions {
        assert Permission(resource, name) in store.getPermissions(user).value;
        assert SplitAction(resource + "." + name) == Some((resource, name));
      }
    }

    /** Whichever queries fail, a true answer is justified by the super role or by a joined row. */
    lemma {:induction false} TrueIsJustified(t: Tables, user: Uuid, actions: seq<string>)
      requires Serves(store, t, user)
      ensures forall action :: Can(user, action) ==> Allowed(t, superRole, user, action)
      ensures MayAny(user, actions) ==>
                || superRole in RoleNames(t, user)
                || exists action | action in actions :: Allowed(t, superRole, user, action)
    {
      if MayAny(user, actions) && !RoleBypass(user) {
        var action :| action in actions && SplitAction(action).Some?
          && Permission(SplitAction(action).value.0, SplitAction(action).value.1) in store.getPermissions(user).value;
        var p := Permission(SplitAction(action).value.0, SplitAction(action).value.1);
        assert Granted(t, user, p.resource, p.name);
        assert Allowed(t, superRole, user, action);
      }
    }

    /** For the super role and no action at all, can_any is true although no action passes can. */
    lemma {:induction false} EmptyListSplitsTheChecks(t: Tables, user: Uuid)
      requires Reliable(store, t, user) && superRole in RoleNames(t, user)
      ensures MayAny(user, []) && !exists action | action in [] :: Can(user, action)
    {
      CanAnyIsAllowed(t, user, []);
    }

    /** Consistent tables with one role that grants "Users.View All" and, besides, a permission without a
        name, served by the joins: can says yes and can_any, asked for that very action, says no. */
    lemma {:induction false} NullRowSplitsTheChecks()
      requires superRole == "Admin" && store == JoinedStore(STAFF_TABLES)
      ensures Consistent(STAFF_TABLES)
      ensures Can(0, "Users.View All") && !MayAny(0, ["Users.View All"])
    {
      StaffMayView();
      JoinedStoreIsReliable(STAFF_TABLES, 0);
      ViewAllIsSplit();
      CanIsAllowed(STAFF_TABLES, 0, "Users.View All");
      assert "Admin" != "Staff";
      CanAnyIsAllowed(STAFF_TABLES, 0, ["Users.View All"]);
    }
  }

  /** More role links, more permissions: what is allowed can only grow. */
  lemma {:induction false} AllowedIsMonotone(t: Tables, t': Tables, superRole: string, user: Uuid, action: string)
    requires t.roles == t'.roles && t.permissions == t'.permissions && t.rolePermissions == t'.rolePermissions
    requires t.userRoles <= t'.userRoles
    ensures Allowed(t, superRole, user, action) ==> Allowed(t', superRole, user, action)
  {
    if superRole in RoleNames(t, user) {
      assert superRole in RoleNames(t', user);
    } else if Allowed(t, superRole, user, action) {
      var (resource, name) := SplitAction(action).value;
      assert Granted(t', user, resource, name);
    }
  }

  /** A patch that only adds roles never takes an action away, and one that only removes never grants one. */
  lemma {:induction false} RolePatchesAreMonotone(t: Tables, id: Uuid, names: seq<string>, superRole: string,
      user: Uuid, action: string)
    ensures Allowed(t, superRole, user, action) ==>
              Allowed(ChangeRoles(t, id, Some(names), None), superRole, user, action)
    ensures Allowed(ChangeRoles(t, id, None, Some(names)), superRole, user, action) ==>
              Allowed(t, superRole, user, action)
  {
    AllowedIsMonotone(t, ChangeRoles(t, id, Some(names), None), superRole, user, action);
    AllowedIsMonotone(ChangeRoles(t, id, None, Some(names)), t, superRole, user, action);
  }
}
