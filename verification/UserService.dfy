/**
 The user service: each operation checks, opens a transaction, runs its statements in order and commits.
 The committed tables are a field; they change only at the commit. What fails around an operation, and the
 hash that is drawn, is an argument, and every outcome follows from it.
 */
module UserServices {
  import opened Wrappers
  import opened CryptoFunctions
  import opened IamTables
  import opened Passwords
  import opened UserTables
  import opened UserUpdates
  import opened UserRepositories
  import opened Numbers
  import opened Pagination
  import L = Listings
  import Q = UserQueries

  datatype ServiceError =
    | NotFound
    | Unprocessable
    | InvalidStatus
    | InvalidDepartment
    | InvalidPassword(complaint: Complaint)
    | Unknown

  function MapDomainError(error: DomainError): ServiceError {
    match error
    case UserDuplicate => Unprocessable
    case StatusNotFound => InvalidStatus
    case DepartmentNotFound => InvalidDepartment
    case Database => Unknown
  }

  /** The patch as it is stored: its password replaced by the hash. */
  function Hashed(fields: UpdateUser, hash: string): UpdateUser {
    if fields.password.Some? then fields.(password := Some(hash)) else fields
  }

  /** A patch with a password must carry an acceptable one, and stores one of its hashes. */
  predicate PasswordAccepted(classes: CharClasses, crypto: Crypto, fields: UpdateUser, hash: string) {
    fields.password.Some? ==>
      PasswordChecker(classes, fields.password.value).Success? && crypto.isHash(hash, fields.password.value)
  }

  /** What a create meets; the hash function answers None if it fails. */
  datatype CreateWorld = CreateWorld(
    hash: Option<string>, beginFails: bool, insertFails: bool, rolesFail: bool, commitFails: bool)

  datatype PatchWorld = PatchWorld(
    lookup: Lookup, hash: Option<string>, beginFails: bool, updateFails: bool, addFails: bool, removeFails: bool,
    commitFails: bool)

  datatype DeleteWorld = DeleteWorld(lookup: Lookup, beginFails: bool, deleteFails: bool, commitFails: bool)

  /** A role statement of the patch fails; an empty list needs none. */
  predicate RolesFail(fields: UpdateUser, world: PatchWorld) {
    || (fields.addRoles.Some? && fields.addRoles.value != [] && world.addFails)
    || (fields.removeRoles.Some? && fields.removeRoles.value != [] && world.removeFails)
  }

  /** How the transaction of a patch ends: the first statement that fails, or whose constraint is violated,
      decides, and then nothing has changed. */
  ghost predicate PatchEnds(t: Tables, id: Uuid, fields: UpdateUser, world: PatchWorld, r: Result<(), ServiceError>,
                            t': Tables)
  {
    if world.beginFails then r == Failure(Unknown) && t' == t
    else if !fields.KnownStatus() then r == Failure(InvalidStatus) && t' == t
    else if !fields.HasNoColumnChanges() && world.updateFails then r == Failure(Unknown) && t' == t
    else if EmailTaken(t, id, fields) then r == Failure(Unprocessable) && t' == t
    else if ReferenceMissing(t, fields) then r == Failure(InvalidDepartment) && t' == t
    else if RolesFail(fields, world) || world.commitFails then r == Failure(Unknown) && t' == t
    else r.Success? && PatchCommits(t, id, fields, t')
  }

  class UserService {
    const crypto: Crypto
    const classes: CharClasses
    var tables: Tables

    constructor (crypto: Crypto, classes: CharClasses, tables: Tables)
      ensures this.crypto == crypto && this.classes == classes && this.tables == tables
    {
      this.crypto := crypto;
      this.classes := classes;
      this.tables := tables;
    }

    /** find_by_id: the user as the tables hold it. */
    method RequireUser(id: Uuid, lookup: Lookup) returns (r: Result<User, ServiceError>)
      ensures if lookup.rowFails then r == Failure(Unknown)
              else if !Visible(tables, id) then r == Failure(NotFound)
              else if !Readable(tables, id) || lookup.rolesFail then r == Failure(Unknown)
              else r.Success? && r.value.id == id && Shows(tables, r.value)
    {
      var found := FindById(tables, id, lookup);
      match found {
        case Failure(error) => return Failure(MapDomainError(error));
        case Success(None) => return Failure(NotFound);
        case Success(Some(user)) => return Success(user);
      }
    }

    /** A page of the listing with its envelope, exactly if the queries are answered and no name on the page is
        NULL: the number of pages is the ceiling of the number of users that the request's question accepts, and
        the users are those of its page, each as the tables hold it. */
    method Index(server: Server, ghost locale: L.Locale, request: Request, rolesFail: set<Uuid>)
      returns (r: Result<(seq<User>, MetaData), ServiceError>)
      requires Consistent(tables) && Faithful(server, tables, locale) && request.Normal()
      requires |Q.ListedUsers(tables, locale.fold, request)| <= I64_MAX
      ensures r.Success? <==> Answered(server, tables, request, rolesFail)
      ensures r.Failure? ==> r.error == Unknown
      ensures r.Success? ==>
                var (users, meta) := r.value;
                var rows := Listed(server, request).value;
                var count := |Q.ListedUsers(tables, locale.fold, request)|;
                && meta.totalCount == count && IsPageCount(meta.totalPages, count, request.perPage)
                && meta.currentPage == request.page && meta.perPage == request.perPage
                && meta.nextPage == NextPage(request.page, meta.totalPages)
                && meta.previousPage == PreviousPage(request.page, meta.totalPages)
                && L.IsPage(tables, locale, request, rows) && |users| == |rows|
                && forall i | 0 <= i < |rows| :: users[i].id == rows[i].id && Shows(tables, users[i])
    {
      var found := UserRepositories.Index(server, tables, locale, request, rolesFail);
      if found.Failure? {
        return Failure(MapDomainError(found.error));
      }
      var meta := NewMetaData(found.value.1, request.page, request.perPage);
      r := Success((found.value.0, meta));
    }

    method Commit(tx: Transaction, fails: bool) returns (ok: bool)
      modifies this
      ensures ok == !fails && tables == if ok then tx.tables else old(tables)
    {
      ok := !fails;
      if ok {
        tables := tx.tables;
      }
    }

    /** All or nothing: when no call fails there is one new, active user with the known roles and the hash of the
        password exactly if the name and the email are free and the department exists; otherwise nothing
        changed, and the error says why. */
    method Create(user: CreateUser, world: CreateWorld) returns (r: Result<Uuid, ServiceError>)
      requires Consistent(tables) && (world.hash.Some? ==> crypto.isHash(world.hash.value, user.password))
      modifies this
      ensures Consistent(tables) && (r.Failure? ==> tables == old(tables))
      ensures if world.hash.None? || world.beginFails || world.insertFails then r == Failure(Unknown)
              else if NameTaken(old(tables), user) then r == Failure(Unprocessable)
              else if user.departmentId !in old(tables.departments) || 1 !in old(tables.statuses) then
                r == Failure(InvalidDepartment)
              else if (user.roles != [] && world.rolesFail) || world.commitFails then r == Failure(Unknown)
              else r.Success? && CreateCommits(old(tables), user, r.value, world.hash.value, tables)
    {
      if world.hash.None? || world.beginFails {
        return Failure(Unknown);
      }
      var tx := new Transaction(tables);
      var created := UserRepositories.Create(tx, user, world.hash.value, world.insertFails, world.rolesFail);
      if created.Failure? {
        return Failure(MapDomainError(created.error));
      }
      var committed := Commit(tx, world.commitFails);
      if !committed {
        return Failure(Unknown);
      }
      CreateKeepsConsistency(old(tables), user, created.value, world.hash.value, tables);
      r := Success(created.value);
    }

    lemma {:induction false} NoNames(t: Tables, id: Uuid)
      ensures AddRoles(t, id, []) == t && RemoveRoles(t, id, []) == t
    {
      assert RolesNamed(t, []) == {} && Links(id, {}) == {};
    }

    /** The two role statements of a patch. */
    method ChangeRolesOf(tx: Transaction, id: Uuid, fields: UpdateUser, world: PatchWorld) returns (ok: bool)
      requires id in tx.tables.users
      modifies tx`tables
      ensures ok == !RolesFail(fields, world)
      ensures ok ==> tx.tables == ChangeRoles(old(tx.tables), id, fields.addRoles, fields.removeRoles)
    {
      NoNames(tx.tables, id);
      if fields.addRoles.Some? {
        var added := AddUserRoles(tx, id, fields.addRoles.value, world.addFails);
        if added.Failure? {
          return false;
        }
      }
      assert tx.tables == AddRoles(old(tx.tables), id, OrElse(fields.addRoles, []));
      NoNames(tx.tables, id);
      if fields.removeRoles.Some? {
        var removed := RemoveUserRoles(tx, id, fields.removeRoles.value, world.removeFails);
        if removed.Failure? {
          return false;
        }
      }
      ok := true;
    }

    method PatchInTransaction(id: Uuid, fields: UpdateUser, world: PatchWorld) returns (r: Result<(), ServiceError>)
      requires Consistent(tables) && id in tables.users
      modifies this
      ensures Consistent(tables) && PatchEnds(old(tables), id, fields, world, r, tables)
    {
      if world.beginFails {
        return Failure(Unknown);
      }
      var tx := new Transaction(tables);
      var updated := UserRepositories.PartialUpdate(tx, id, fields, world.updateFails);
      if fields.KnownStatus() {
        PatchRefusedIff(tables, id, fields);
      }
      if updated.Failure? {
        return Failure(MapDomainError(updated.error));
      }
      var changed := ChangeRolesOf(tx, id, fields, world);
      if !changed {
        return Failure(Unknown);
      }
      assert PatchCommits(old(tables), id, fields, tx.tables);
      PatchKeepsConsistency(old(tables), id, fields, tx.tables);
      var committed := Commit(tx, world.commitFails);
      r := if committed then Success(()) else Failure(Unknown);
    }

    /** All or nothing: the user must be found and readable, and a password must meet the rules, before anything
        is tried; on success exactly the present fields of exactly this user changed, and its roles. */
    method PartialUpdate(id: Uuid, fields: UpdateUser, world: PatchWorld) returns (r: Result<(), ServiceError>)
      requires Consistent(tables)
      requires fields.password.Some? && world.hash.Some? ==> crypto.isHash(world.hash.value, fields.password.value)
      modifies this
      ensures Consistent(tables) && (r.Failure? ==> tables == old(tables))
      ensures if world.lookup.rowFails then r == Failure(Unknown)
              else if !Visible(old(tables), id) then r == Failure(NotFound)
              else if !Readable(old(tables), id) || world.lookup.rolesFail then r == Failure(Unknown)
              else if fields.password.Some? && PasswordChecker(classes, fields.password.value).Failure? then
                r == Failure(InvalidPassword(PasswordChecker(classes, fields.password.value).error))
              else if fields.password.Some? && world.hash.None? then r == Failure(Unknown)
              else PatchEnds(old(tables), id, Hashed(fields, OrElse(world.hash, "")), world, r, tables)
      ensures r.Success? ==>
                && PasswordAccepted(classes, crypto, fields, OrElse(world.hash, ""))
                && OnlyRowChanged(old(tables), tables, id)
                && Follows(Hashed(fields, OrElse(world.hash, "")), old(tables).users[id], tables.users[id])
    {
      var required := RequireUser(id, world.lookup);
      if required.Failure? {
        return Failure(required.error);
      }
      var stored := fields;
      if fields.password.Some? {
        var checked := PasswordChecker(classes, fields.password.value);
        if checked.Failure? {
          return Failure(InvalidPassword(checked.error));
        }
        if world.hash.None? {
          return Failure(Unknown);
        }
        stored := fields.(password := world.hash);
      }
      assert stored == Hashed(fields, OrElse(world.hash, ""));
      r := PatchInTransaction(id, stored, world);
      if r.Success? {
        PatchTouchesOneRow(old(tables), id, stored, tables);
      }
    }

    /** All or nothing: when no call fails, the status of a user that is found and readable becomes Deleted, and
        nothing else changes. */
    method Delete(id: Uuid, world: DeleteWorld) returns (r: Result<(), ServiceError>)
      requires Consistent(tables)
      modifies this
      ensures Consistent(tables) && (r.Failure? ==> tables == old(tables))
      ensures if world.lookup.rowFails then r == Failure(Unknown)
              else if !Visible(old(tables), id) then r == Failure(NotFound)
              else if !Readable(old(tables), id) || world.lookup.rolesFail then r == Failure(Unknown)
              else if world.beginFails || world.deleteFails || 2 !in old(tables.statuses) || world.commitFails then
                r == Failure(Unknown)
              else
                && r.Success? && DeleteCommits(old(tables), id, tables)
                && OnlyRowChanged(old(tables), tables, id) && tables.userRoles == old(tables).userRoles
                && tables.users[id] == old(tables).users[id].(statusId := 2)
    {
      var required := RequireUser(id, world.lookup);
      if required.Failure? {
        return Failure(required.error);
      }
      if world.beginFails {
        return Failure(Unknown);
      }
      var tx := new Transaction(tables);
      var deleted := UserRepositories.Delete(tx, id, world.deleteFails);
      if deleted.Failure? {
        return Failure(MapDomainError(deleted.error));
      }
      DeleteKeepsConsistency(tables, id, tx.tables);
      DeleteKeepsTheRow(tables, id, tx.tables);
      var committed := Commit(tx, world.commitFails);
      r := if committed then Success(()) else Failure(Unknown);
    }
  }
}
