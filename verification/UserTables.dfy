/** The statements of the user repository as table operations, and what they keep. */
module UserTables {
  import opened Wrappers
  import opened IamTables
  import opened UserUpdates

  datatype DbError = UniqueViolation | ForeignKeyViolation | OtherFailure

  datatype CreateUser = CreateUser(
    userName: string, avatarId: string, email: string, password: string,
    firstName: string, lastName: string, departmentId: int, roles: seq<string>)

  function NewRow(user: CreateUser, hash: string): UserRow {
    UserRow(user.userName, user.avatarId, user.email, hash, user.firstName, user.lastName,
            ACTIVE_USER_STATUS, user.departmentId)
  }

  /** Another user has the user name or the email of this row. */
  predicate Taken(users: map<Uuid, UserRow>, id: Uuid, row: UserRow) {
    exists other | other in users ::
      other != id && (users[other].userName == row.userName || users[other].email == row.email)
  }

  /** Somebody has the user name or the email already. */
  predicate NameTaken(t: Tables, user: CreateUser) {
    exists id | id in t.users :: t.users[id].userName == user.userName || t.users[id].email == user.email
  }

  /** INSERT of a new row or UPDATE of an old one. The unique indexes are checked before the foreign keys. */
  function PutUser(t: Tables, id: Uuid, row: UserRow): Result<Tables, DbError> {
    if Taken(t.users, id, row) then Failure(UniqueViolation)
    else if row.statusId !in t.statuses || row.departmentId !in t.departments then Failure(ForeignKeyViolation)
    else Success(t.(users := t.users[id := row]))
  }

  lemma {:induction false} PutUserKeepsConsistency(t: Tables, id: Uuid, row: UserRow)
    requires Consistent(t) && PutUser(t, id, row).Success?
    ensures Consistent(PutUser(t, id, row).value)
  {
    var users := t.users[id := row];
    forall a, b | a in users && b in users && a != b
      ensures users[a].userName != users[b].userName && users[a].email != users[b].email
    {
      assert a != id ==> a in t.users;
      assert b != id ==> b in t.users;
    }
  }

  /** A user can be put exactly when consistency would survive it. */
  lemma {:induction false} PutUserSucceedsIff(t: Tables, id: Uuid, row: UserRow)
    requires Consistent(t)
    ensures PutUser(t, id, row).Success? <==> Consistent(t.(users := t.users[id := row]))
  {
    var t' := t.(users := t.users[id := row]);
    if PutUser(t, id, row).Success? {
      PutUserKeepsConsistency(t, id, row);
    } else if Taken(t.users, id, row) {
      var other :| other in t.users && other != id
                   && (t.users[other].userName == row.userName || t.users[other].email == row.email);
      assert t'.users[id] == row && t'.users[other] == t.users[other];
    } else {
      assert t'.users[id] == row;
    }
  }

  /** UPDATE iam.users SET password = $1 WHERE email = $2, the statement of the auth store. */
  function UpdatePasswords(t: Tables, email: string, hash: string): Tables {
    t.(users := map id | id in t.users ::
         if t.users[id].email == email then t.users[id].(password := hash) else t.users[id])
  }

  // Roles.

  function RolesNamed(t: Tables, names: seq<string>): set<int> {
    set r | r in t.roles && t.roles[r] in names
  }

  function Links(id: Uuid, roles: set<int>): set<(Uuid, int)> {
    set r | r in roles :: (id, r)
  }

  /** INSERT .. SELECT .. ON CONFLICT DO NOTHING. */
  function AddRoles(t: Tables, id: Uuid, names: seq<string>): Tables {
    t.(userRoles := t.userRoles + Links(id, RolesNamed(t, names)))
  }

  function RemoveRoles(t: Tables, id: Uuid, names: seq<string>): Tables {
    t.(userRoles := t.userRoles - Links(id, RolesNamed(t, names)))
  }

  function ChangeRoles(t: Tables, id: Uuid, add: Option<seq<string>>, remove: Option<seq<string>>): Tables {
    RemoveRoles(AddRoles(t, id, OrElse(add, [])), id, OrElse(remove, []))
  }

  /** The names of a user's roles. */
  function RoleNames(t: Tables, id: Uuid): set<string> {
    set r | r in t.roles && (id, r) in t.userRoles :: t.roles[r]
  }

  ghost function Known(t: Tables, names: seq<string>): set<string> {
    set r | r in t.roles && t.roles[r] in names :: t.roles[r]
  }

  /** After a patch, a user's roles are the old ones plus the known added names, minus the known removed
      names; nobody else's change. Unknown names and repeated names count for nothing. */
  lemma {:induction false} RolesAfterChange(t: Tables, id: Uuid, add: Option<seq<string>>,
      remove: Option<seq<string>>, other: Uuid)
    requires CatalogueKeys(t)
    ensures var t' := ChangeRoles(t, id, add, remove);
            RoleNames(t', other) ==
            if other == id then RoleNames(t, id) + Known(t, OrElse(add, [])) - Known(t, OrElse(remove, []))
            else RoleNames(t, other)
  {
    var t' := ChangeRoles(t, id, add, remove);
    forall r | r in t.roles
      ensures (other, r) in t'.userRoles <==>
              if other == id then ((id, r) in t.userRoles || t.roles[r] in OrElse(add, []))
                  && t.roles[r] !in OrElse(remove, [])
              else (other, r) in t.userRoles
    {
      assert (id, r) in Links(id, RolesNamed(t, OrElse(add, []))) <==> t.roles[r] in OrElse(add, []);
      assert (id, r) in Links(id, RolesNamed(t, OrElse(remove, []))) <==> t.roles[r] in OrElse(remove, []);
    }
    forall name ensures name in RoleNames(t', other) <==>
        name in (if other == id then RoleNames(t, id) + Known(t, OrElse(add, [])) - Known(t, OrElse(remove, []))
                 else RoleNames(t, other))
    {
      if r :| r in t.roles && t.roles[r] == name {
        assert forall q | q in t.roles && t.roles[q] == name :: q == r;
      }
    }
  }

  /** Applying the same role changes twice is applying them once. */
  lemma {:induction false} ChangeRolesTwice(t: Tables, id: Uuid, add: Option<seq<string>>, remove: Option<seq<string>>)
    ensures var once := ChangeRoles(t, id, add, remove); ChangeRoles(once, id, add, remove) == once
  {
    var once := ChangeRoles(t, id, add, remove);
    var twice := ChangeRoles(once, id, add, remove);
    assert twice.userRoles == once.userRoles;
  }

  lemma {:induction false} ChangeRolesKeepsConsistency(t: Tables, id: Uuid, add: Option<seq<string>>,
      remove: Option<seq<string>>)
    requires Consistent(t) && id in t.users
    ensures Consistent(ChangeRoles(t, id, add, remove))
  {
  }

  // The whole operations, as they commit.

  ghost predicate CreateCommits(t: Tables, user: CreateUser, id: Uuid, hash: string, t': Tables) {
    && id !in t.users && PutUser(t, id, NewRow(user, hash)).Success?
    && t' == AddRoles(PutUser(t, id, NewRow(user, hash)).value, id, user.roles)
  }

  /** The columns of a patch; no statement runs if there are none. */
  function PatchColumns(t: Tables, id: Uuid, fields: UpdateUser): Result<Tables, DbError>
    requires fields.KnownStatus()
  {
    if fields.HasNoColumnChanges() || id !in t.users then Success(t)
    else PutUser(t, id, Patched(t.users[id], fields))
  }

  ghost predicate PatchCommits(t: Tables, id: Uuid, fields: UpdateUser, t': Tables) {
    && fields.KnownStatus() && PatchColumns(t, id, fields).Success?
    && t' == ChangeRoles(PatchColumns(t, id, fields).value, id, fields.addRoles, fields.removeRoles)
  }

  /** Another user has the email that a patch asks for. */
  predicate EmailTaken(t: Tables, id: Uuid, fields: UpdateUser) {
    fields.email.Some?
    && exists other | other in t.users :: other != id && t.users[other].email == fields.email.value
  }

  /** A patch asks for a department or a status that is not there. */
  predicate ReferenceMissing(t: Tables, fields: UpdateUser) {
    || (fields.departmentId.Some? && fields.departmentId.value !in t.departments)
    || (fields.status == Some("Active") && 1 !in t.statuses)
    || (fields.status == Some("Deleted") && 2 !in t.statuses)
  }

  /** When the columns of a patch are refused, and why: the email is looked at before the references. */
  lemma {:induction false} PatchRefusedIff(t: Tables, id: Uuid, fields: UpdateUser)
    requires Consistent(t) && id in t.users && fields.KnownStatus()
    ensures PatchColumns(t, id, fields) == Failure(UniqueViolation) <==> EmailTaken(t, id, fields)
    ensures PatchColumns(t, id, fields) == Failure(ForeignKeyViolation)
            <==> !EmailTaken(t, id, fields) && ReferenceMissing(t, fields)
    ensures PatchColumns(t, id, fields) != Failure(OtherFailure)
  {
    var row := Patched(t.users[id], fields);
    if Taken(t.users, id, row) {
      var other :| other in t.users && other != id
                   && (t.users[other].userName == row.userName || t.users[other].email == row.email);
      assert t.users[other].userName != t.users[id].userName && t.users[other].email != t.users[id].email;
    }
    if EmailTaken(t, id, fields) {
      var other :| other in t.users && other != id && t.users[other].email == fields.email.value;
      assert t.users[other].email == row.email;
    }
  }

  ghost predicate DeleteCommits(t: Tables, id: Uuid, t': Tables) {
    t' == if id in t.users then t.(users := t.users[id := t.users[id].(statusId := DELETED_USER_STATUS)]) else t
  }

  lemma {:induction false} NoRemovals(t: Tables, id: Uuid, names: seq<string>)
    ensures ChangeRoles(t, id, Some(names), None) == AddRoles(t, id, names)
    ensures Known(t, []) == {}
  {
    assert RolesNamed(t, []) == {} && Links(id, {}) == {};
  }

  /** A committed create adds one active user with the given fields, the hash and exactly the known roles;
      every other user and every other user's roles stay. */
  lemma {:induction false} CreateAddsOneUser(t: Tables, user: CreateUser, id: Uuid, hash: string, t': Tables)
    requires Consistent(t) && CreateCommits(t, user, id, hash, t')
    ensures t'.users - {id} == t.users && id in t'.users
    ensures var row := t'.users[id];
            && row.userName == user.userName && row.email == user.email && row.avatarId == user.avatarId
            && row.firstName == user.firstName && row.lastName == user.lastName && row.password == hash
            && row.departmentId == user.departmentId && row.statusId == 1
    ensures RoleNames(t', id) == Known(t, user.roles)
    ensures forall other | other != id :: RoleNames(t', other) == RoleNames(t, other)
  {
    var t1 := PutUser(t, id, NewRow(user, hash)).value;
    assert t1.users - {id} == t.users;
    NoRemovals(t1, id, user.roles);
    forall other ensures RoleNames(t1, other) == RoleNames(t, other) {
    }
    forall other ensures RoleNames(t', other) == if other == id then Known(t, user.roles) else RoleNames(t, other) {
      RolesAfterChange(t1, id, Some(user.roles), None, other);
    }
  }

  /** No user came or went, and nobody's row but this user's changed. */
  predicate OnlyRowChanged(t: Tables, t': Tables, id: Uuid) {
    t'.users.Keys == t.users.Keys && t'.users - {id} == t.users - {id}
  }

  /** The new row has the present fields of the patch, and for the absent ones what it had. */
  predicate Follows(fields: UpdateUser, row: UserRow, row': UserRow) {
    && row'.userName == row.userName
    && row'.avatarId == OrElse(fields.avatarId, row.avatarId)
    && row'.firstName == OrElse(fields.firstName, row.firstName)
    && row'.lastName == OrElse(fields.lastName, row.lastName)
    && row'.email == OrElse(fields.email, row.email)
    && row'.departmentId == OrElse(fields.departmentId, row.departmentId)
    && row'.password == OrElse(fields.password, row.password)
    && match fields.status
       case None => row'.statusId == row.statusId
       case Some(status) =>
         (status == "Active" && row'.statusId == 1) || (status == "Deleted" && row'.statusId == 2)
  }

  /** A committed patch changes only the row of this user, as asked. */
  lemma {:induction false} PatchTouchesOneRow(t: Tables, id: Uuid, fields: UpdateUser, t': Tables)
    requires id in t.users && PatchCommits(t, id, fields, t')
    ensures OnlyRowChanged(t, t', id) && Follows(fields, t.users[id], t'.users[id])
  {
    var t1 := PatchColumns(t, id, fields).value;
    assert t1.users == t'.users;
    assert t1.users.Keys == t.users.Keys && t1.users - {id} == t.users - {id};
  }

  lemma {:induction false} SameLinksSameNames(t: Tables, t1: Tables, add: Option<seq<string>>,
      remove: Option<seq<string>>, id: Uuid)
    requires CatalogueKeys(t) && t1 == t.(users := t1.users)
    ensures CatalogueKeys(t1) && RoleNames(t1, id) == RoleNames(t, id)
    ensures Known(t1, OrElse(add, [])) == Known(t, OrElse(add, []))
    ensures Known(t1, OrElse(remove, [])) == Known(t, OrElse(remove, []))
  {
  }

  /** And only the roles of this user, by set algebra. */
  lemma {:induction false} PatchChangesRoles(t: Tables, id: Uuid, fields: UpdateUser, t': Tables, other: Uuid)
    requires CatalogueKeys(t) && PatchCommits(t, id, fields, t')
    ensures RoleNames(t', other) ==
            if other == id then
              RoleNames(t, id) + Known(t, OrElse(fields.addRoles, [])) - Known(t, OrElse(fields.removeRoles, []))
            else RoleNames(t, other)
  {
    var t1 := PatchColumns(t, id, fields).value;
    SameLinksSameNames(t, t1, fields.addRoles, fields.removeRoles, other);
    RolesAfterChange(t1, id, fields.addRoles, fields.removeRoles, other);
  }

  /** A committed delete changes nothing but the status of this user. */
  lemma {:induction false} DeleteKeepsTheRow(t: Tables, id: Uuid, t': Tables)
    requires id in t.users && DeleteCommits(t, id, t')
    ensures OnlyRowChanged(t, t', id) && t'.(users := t.users) == t
    ensures t'.users[id].statusId == 2 && t'.users[id].(statusId := t.users[id].statusId) == t.users[id]
  {
  }

  lemma {:induction false} CreateKeepsConsistency(t: Tables, user: CreateUser, id: Uuid, hash: string, t': Tables)
    requires Consistent(t) && CreateCommits(t, user, id, hash, t')
    ensures Consistent(t') && t'.users.Keys == t.users.Keys + {id}
  {
    PutUserKeepsConsistency(t, id, NewRow(user, hash));
  }

  lemma {:induction false} PatchKeepsConsistency(t: Tables, id: Uuid, fields: UpdateUser, t': Tables)
    requires Consistent(t) && id in t.users && PatchCommits(t, id, fields, t')
    ensures Consistent(t') && t'.users.Keys == t.users.Keys
  {
    var t1 := PatchColumns(t, id, fields).value;
    if !fields.HasNoColumnChanges() {
      PutUserKeepsConsistency(t, id, Patched(t.users[id], fields));
    }
    ChangeRolesKeepsConsistency(t1, id, fields.addRoles, fields.removeRoles);
    assert t1.users.Keys == t.users.Keys;
  }

  lemma {:induction false} DeleteKeepsConsistency(t: Tables, id: Uuid, t': Tables)
    requires Consistent(t) && DELETED_USER_STATUS in t.statuses && DeleteCommits(t, id, t')
    ensures Consistent(t') && t'.users.Keys == t.users.Keys
  {
    if id in t.users {
      assert t'.users.Keys == t.users.Keys;
    }
  }

  lemma {:induction false} UpdatePasswordsKeepsConsistency(t: Tables, email: string, hash: string)
    requires Consistent(t)
    ensures Consistent(UpdatePasswords(t, email, hash)) && UpdatePasswords(t, email, hash).users.Keys == t.users.Keys
    ensures forall id | id in t.users ::
              var row, row' := t.users[id], UpdatePasswords(t, email, hash).users[id];
              && row'.(password := row.password) == row
              && row'.password == if row.email == email then hash else row.password
  {
  }
}
