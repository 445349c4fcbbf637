/**
 The user repository as the code runs it. A transaction is an object holding its own copy of the tables;
 the repository's methods change that copy through SQL statements. Whether a statement fails for a reason
 outside the model (a lost connection, a value too long) is an argument; one that fails changes nothing.
 */
module UserRepositories {
  import opened Wrappers
  import opened Keys
  import opened Numbers
  import opened IamTables
  import opened Pagination
  import opened QueryBuilders
  import opened UserTables
  import Q = UserQueries
  import U = UserUpdates
  import L = Listings
  import T = ListingTexts
  import UpdateTexts

  datatype DomainError = UserDuplicate | StatusNotFound | DepartmentNotFound | Database

  class Transaction {
    var tables: Tables
    var sent: seq<(string, U.Args)>

    constructor (tables: Tables)
      ensures this.tables == tables && sent == []
    {
      this.tables := tables;
      this.sent := [];
    }

    /** Sends an UPDATE statement: one that cannot be read is refused, one that names no user changes nothing. */
    method ExecuteUpdate(tokens: U.Tokens, args: U.Args, fails: bool) returns (r: Result<(), DbError>)
      modifies this
      ensures sent == old(sent) + [(Render(tokens, U.SqlText), args)]
      ensures var update := U.ReadUpdate(tokens, args);
              if fails || update.None? then r == Failure(OtherFailure) && tables == old(tables)
              else if update.value.id !in old(tables.users) then r.Success? && tables == old(tables)
              else
                var id := update.value.id;
                var outcome := PutUser(old(tables), id, U.ApplyAll(old(tables.users)[id], update.value.assignments));
                if outcome.Success? then r.Success? && tables == outcome.value
                else r == Failure(outcome.error) && tables == old(tables)
    {
      sent := sent + [(Render(tokens, U.SqlText), args)];
      var update := U.ReadUpdate(tokens, args);
      if fails || update.None? {
        return Failure(OtherFailure);
      }
      if update.value.id in tables.users {
        r := PutRow(update.value.id, U.ApplyAll(tables.users[update.value.id], update.value.assignments));
      } else {
        r := Success(());
      }
    }

    method PutRow(id: Uuid, row: UserRow) returns (r: Result<(), DbError>)
      modifies this`tables
      ensures var outcome := PutUser(old(tables), id, row);
              if outcome.Success? then r.Success? && tables == outcome.value
              else r == Failure(outcome.error) && tables == old(tables)
    {
      match PutUser(tables, id, row) {
        case Success(changed) =>
          tables := changed;
          r := Success(());
        case Failure(error) => r := Failure(error);
      }
    }

    /** INSERT .. RETURNING id, with a generated id. */
    method InsertUser(row: UserRow, fails: bool) returns (r: Result<Uuid, DbError>)
      modifies this`tables
      ensures if fails then r == Failure(OtherFailure) && tables == old(tables)
              else if exists id | id in old(tables.users) ::
                        old(tables.users)[id].userName == row.userName || old(tables.users)[id].email == row.email then
                r == Failure(UniqueViolation) && tables == old(tables)
              else if row.statusId !in old(tables.statuses) || row.departmentId !in old(tables.departments) then
                r == Failure(ForeignKeyViolation) && tables == old(tables)
              else r.Success? && r.value !in old(tables.users) && PutUser(old(tables), r.value, row) == Success(tables)
    {
      if fails {
        return Failure(OtherFailure);
      }
      ghost var unused := FreshKey(tables.users);
      var id: nat :| id !in tables.users;
      var put := PutRow(id, row);
      r := match put case Success(_) => Success(id) case Failure(error) => Failure(error);
    }

    method InsertRoles(id: Uuid, names: seq<string>, fails: bool) returns (ok: bool)
      modifies this`tables
      ensures ok <==> !fails && (id in old(tables.users) || RolesNamed(old(tables), names) == {})
      ensures tables == if ok then AddRoles(old(tables), id, names) else old(tables)
    {
      var named := set r | r in tables.roles && tables.roles[r] in names;
      ok := !fails && (id in tables.users || named == {});
      if ok {
        tables := tables.(userRoles := tables.userRoles + set r | r in named :: (id, r));
      }
    }

    method DeleteRoles(id: Uuid, names: seq<string>, fails: bool) returns (ok: bool)
      modifies this`tables
      ensures ok == !fails
      ensures tables == if ok then RemoveRoles(old(tables), id, names) else old(tables)
    {
      ok := !fails;
      var named := set r | r in tables.roles && tables.roles[r] in names;
      if ok {
        tables := tables.(userRoles := tables.userRoles - set r | r in named :: (id, r));
      }
    }
  }

  // Writing the statements.

  /** These conditions, and no more, were appended to a statement and its values. */
  ghost predicate Appended(tokens: Q.Tokens, args: Q.Args, conditions: seq<Q.Condition>, tokens': Q.Tokens,
                            args': Q.Args)
  {
    && tokens' == tokens + Q.WriteAll(conditions, |args| + 1)
    && args' == args + Q.BoundAll(conditions)
  }

  lemma {:induction false} AppendedTwice(tokens: Q.Tokens, args: Q.Args, a: seq<Q.Condition>, b: seq<Q.Condition>,
                      tokens': Q.Tokens, args': Q.Args, tokens'': Q.Tokens, args'': Q.Args)
    requires Appended(tokens, args, a, tokens', args') && Appended(tokens', args', b, tokens'', args'')
    ensures Appended(tokens, args, a + b, tokens'', args'')
  {
    Q.WriteAllConcat(a, b, |args| + 1);
    Q.BoundAllConcat(a, b);
    Associate(tokens, Q.WriteAll(a, |args| + 1), Q.WriteAll(b, |args'| + 1));
    Associate(args, Q.BoundAll(a), Q.BoundAll(b));
  }

  lemma {:induction false} WriteOne(c: Q.Condition, n: nat)
    ensures Q.WriteAll([c], n) == Q.Write(c, n) && Q.BoundAll([c]) == [Q.Bound(c)]
  {
    assert [c][1..] == [];
  }

  method PushStatusFilter(builder: QueryBuilder<Q.Sql, Q.Value>, r: Request)
    requires builder.Valid()
    modifies builder
    ensures builder.Valid()
    ensures Appended(old(builder.tokens), old(builder.args), Q.StatusConditions(r), builder.tokens, builder.args)
  {
    var status := r.Filter("status");
    if status.Some? {
      var statusId := StatusId(status.value);
      if statusId.Some? {
        builder.Push(Q.AndStatusIs);
        builder.PushBind(Q.IntValue(statusId.value));
        WriteOne(Q.StatusIs(statusId.value), |old(builder.args)| + 1);
      }
    }
  }

  method PushDepartmentFilter(builder: QueryBuilder<Q.Sql, Q.Value>, r: Request)
    requires builder.Valid()
    modifies builder
    ensures builder.Valid()
    ensures Appended(old(builder.tokens), old(builder.args), Q.DepartmentConditions(r), builder.tokens, builder.args)
  {
    var department := r.Filter("department_id");
    if department.Some? {
      var departmentId := ParseI32(department.value);
      if departmentId.Some? {
        builder.Push(Q.AndDepartmentIs);
        builder.PushBind(Q.IntValue(departmentId.value));
        WriteOne(Q.DepartmentIs(departmentId.value), |old(builder.args)| + 1);
      }
    }
  }

  method PushRoleFilter(builder: QueryBuilder<Q.Sql, Q.Value>, r: Request)
    requires builder.Valid()
    modifies builder
    ensures builder.Valid()
    ensures Appended(old(builder.tokens), old(builder.args), Q.RoleConditions(r), builder.tokens, builder.args)
  {
    var role := r.Filter("role");
    if role.Some? {
      builder.Push(Q.AndHasRole);
      builder.PushBind(Q.TextValue(role.value));
      builder.Push(Q.CloseHasRole);
      WriteOne(Q.HasRole(role.value), |old(builder.args)| + 1);
    }
  }

  method PushFirstNameFilter(builder: QueryBuilder<Q.Sql, Q.Value>, r: Request)
    requires builder.Valid()
    modifies builder
    ensures builder.Valid()
    ensures Appended(old(builder.tokens), old(builder.args), Q.FirstNameConditions(r), builder.tokens, builder.args)
  {
    var firstName := r.Filter("first_name");
    if firstName.Some? {
      builder.Push(Q.AndFirstNameILike);
      builder.PushBind(Q.TextValue("%" + firstName.value + "%"));
      WriteOne(Q.FirstNameLike("%" + firstName.value + "%"), |old(builder.args)| + 1);
    }
  }

  /** push_filters appends exactly the recognised conditions and binds exactly their values, in order. */
  method PushFilters(builder: QueryBuilder<Q.Sql, Q.Value>, r: Request)
    requires builder.Valid()
    modifies builder
    ensures builder.Valid()
    ensures Appended(old(builder.tokens), old(builder.args), Q.Conditions(r), builder.tokens, builder.args)
  {
    ghost var tokens0, args0 := builder.tokens, builder.args;
    PushStatusFilter(builder, r);
    ghost var tokens1, args1 := builder.tokens, builder.args;
    PushDepartmentFilter(builder, r);
    ghost var tokens2, args2 := builder.tokens, builder.args;
    PushRoleFilter(builder, r);
    ghost var tokens3, args3 := builder.tokens, builder.args;
    PushFirstNameFilter(builder, r);
    ghost var a, b, c, d :=
      Q.StatusConditions(r), Q.DepartmentConditions(r), Q.RoleConditions(r), Q.FirstNameConditions(r);
    AppendedTwice(tokens0, args0, a, b, tokens1, args1, tokens2, args2);
    AppendedTwice(tokens0, args0, a + b, c, tokens2, args2, tokens3, args3);
    AppendedTwice(tokens0, args0, a + b + c, d, tokens3, args3, builder.tokens, builder.args);
  }

  // Users, as they are read.

  datatype User = User(
    id: Uuid, userName: string, avatarId: string, email: string, password: string, firstName: string, lastName: string,
    statusId: int, status: string, departmentId: int, department: string, companyId: int, company: string,
    roles: set<(int, string)>)

  function UserRoles(t: Tables, id: Uuid): set<(int, string)> {
    set r | r in t.roles && (id, r) in t.userRoles :: (r, t.roles[r])
  }

  /** A row becomes a user unless one of the two nullable texts is NULL. */
  function Decoded(t: Tables, row: Q.Joined): Option<User> {
    if row.status.None? || row.department.None? then None
    else
      var user := row.user;
      Some(User(row.id, user.userName, user.avatarId, user.email, user.password, user.firstName, user.lastName,
                row.statusId, row.status.value, row.departmentId, row.department.value, row.companyId, row.company,
                UserRoles(t, row.id)))
  }

  /** The user is what the tables hold under its id: column by column its own row, the rows of its status, its
      department and its company, and exactly the roles it is linked to. */
  ghost predicate Shows(t: Tables, user: User) {
    && user.id in t.users
    && var row := t.users[user.id];
    && user.userName == row.userName && user.avatarId == row.avatarId && user.email == row.email
    && user.password == row.password && user.firstName == row.firstName && user.lastName == row.lastName
    && user.statusId == row.statusId && user.statusId in t.statuses && t.statuses[user.statusId] == Some(user.status)
    && user.departmentId == row.departmentId && user.departmentId in t.departments
    && t.departments[user.departmentId] == DepartmentRow(Some(user.department), Some(user.companyId))
    && user.companyId in t.companies && t.companies[user.companyId] == user.company
    && forall role: (int, string) ::
         role in user.roles <==> role.0 in t.roles && t.roles[role.0] == role.1 && (user.id, role.0) in t.userRoles
  }

  /** The queries join status, department and company, so a user whose department has no company is not
      found. */
  predicate Visible(t: Tables, id: Uuid) {
    && id in t.users && t.users[id].statusId in t.statuses && t.users[id].departmentId in t.departments
    && var company := t.departments[t.users[id].departmentId].companyId;
    company.Some? && company.value in t.companies
  }

  /** The names in the joined row can be decoded: neither is NULL. */
  predicate Readable(t: Tables, id: Uuid)
    requires Visible(t, id)
  {
    t.statuses[t.users[id].statusId].Some? && t.departments[t.users[id].departmentId].name.Some?
  }

  function RowOf(t: Tables, id: Uuid): Q.Joined
    requires Visible(t, id)
  {
    var user := t.users[id];
    var department := t.departments[user.departmentId];
    Q.Joined(id, user, user.statusId, t.statuses[user.statusId], user.departmentId, department.name,
             department.companyId.value, t.companies[department.companyId.value])
  }

  lemma {:induction false} RowIsJoined(t: Tables, id: Uuid)
    requires Visible(t, id)
    ensures RowOf(t, id) in Q.JoinedRows(t)
  {
    var row := RowOf(t, id);
    assert row.id in t.users && row.statusId in t.statuses && row.departmentId in t.departments
           && row.companyId in t.companies;
  }

  lemma {:induction false} VisibleIsJoined(t: Tables, id: Uuid)
    ensures Visible(t, id) <==> exists row | row in Q.JoinedRows(t) :: row.id == id
  {
    if Visible(t, id) {
      RowIsJoined(t, id);
    }
  }

  lemma {:induction false} JoinedIsVisible(t: Tables, row: Q.Joined)
    requires row in Q.JoinedRows(t)
    ensures Visible(t, row.id)
  {
  }

  lemma {:induction false} LinkedRole(t: Tables, id: Uuid, role: int, name: string)
    ensures (role, name) in UserRoles(t, id) <==> role in t.roles && t.roles[role] == name && (id, role) in t.userRoles
  {
  }

  lemma {:induction false} DecodedShows(t: Tables, row: Q.Joined)
    requires row in Q.JoinedRows(t)
    ensures Visible(t, row.id) && (Decoded(t, row).Some? <==> Readable(t, row.id))
    ensures Decoded(t, row).Some? ==> Decoded(t, row).value.id == row.id && Shows(t, Decoded(t, row).value)
  {
    if Decoded(t, row).Some? {
      var user := Decoded(t, row).value;
      forall role: (int, string)
        ensures role in user.roles
                <==> role.0 in t.roles && t.roles[role.0] == role.1 && (user.id, role.0) in t.userRoles
      {
        LinkedRole(t, user.id, role.0, role.1);
      }
    }
  }

  /** Which of the two queries for one user fail. */
  datatype Lookup = Lookup(rowFails: bool, rolesFail: bool)

  /** find_by_id: the joined row, then its roles. */
  method FindById(t: Tables, id: Uuid, lookup: Lookup) returns (r: Result<Option<User>, DomainError>)
    ensures if lookup.rowFails then r == Failure(Database)
            else if !Visible(t, id) then r == Success(None)
            else if !Readable(t, id) || lookup.rolesFail then r == Failure(Database)
            else r.Success? && r.value.Some? && r.value.value.id == id && Shows(t, r.value.value)
  {
    if lookup.rowFails {
      return Failure(Database);
    }
    if !Visible(t, id) {
      return Success(None);
    }
    RowIsJoined(t, id);
    DecodedShows(t, RowOf(t, id));
    var decoded := Decoded(t, RowOf(t, id));
    if decoded.None? || lookup.rolesFail {
      return Failure(Database);
    }
    r := Success(decoded);
  }

  // The listing.

  /** The database: what it answers to the string and the values of a count and of a select, if it answers. */
  datatype Server = Server(
    count: (string, Q.Args) -> Option<int>,
    select: (string, Q.Args) -> Option<seq<Q.Joined>>)

  ghost predicate Answers(t: Tables, locale: L.Locale, statement: Q.Statement, rows: seq<Q.Joined>)
    requires statement.Select?
  {
    exists full |
      L.IsOrdering(locale, statement.column, statement.direction,
                   Q.Selected(t, locale.fold, statement.conditions), full) ::
      statement.offset >= 0 && statement.limit >= 0 && rows == L.Slice(full, statement.offset, statement.limit)
  }

  /** It answers what the statement it can read back asks of these tables. A page may come from any order
      that is sorted by the statement's column, and a negative offset is refused. */
  ghost predicate Faithful(server: Server, t: Tables, locale: L.Locale) {
    && (forall tokens, args | server.count(Render(tokens, Q.SqlText), args).Some? ::
          var statement := Q.ReadStatement(tokens, args);
          statement.Some? && statement.value.Count?
          && server.count(Render(tokens, Q.SqlText), args).value
             == |Q.Selected(t, locale.fold, statement.value.conditions)|)
    && (forall tokens, args | server.select(Render(tokens, Q.SqlText), args).Some? ::
          var statement := Q.ReadStatement(tokens, args);
          statement.Some? && statement.value.Select?
          && Answers(t, locale, statement.value, server.select(Render(tokens, Q.SqlText), args).value))
  }

  /** What the server answers to the two statements of a request. */
  function Counted(server: Server, r: Request): Option<int> {
    server.count(T.CountSql(T.Recognised(r)), Q.BoundAll(Q.Conditions(r)))
  }

  function Listed(server: Server, r: Request): Option<seq<Q.Joined>> {
    server.select(T.SelectSql(T.Recognised(r), r.sortBy, r.order), Q.SelectArgs(Q.Conditions(r), r.perPage, r.Offset()))
  }

  method CountUsers(server: Server, t: Tables, ghost locale: L.Locale, r: Request) returns (answer: Option<int>)
    requires Consistent(t) && Faithful(server, t, locale)
    ensures answer == Counted(server, r)
    ensures answer.Some? ==> answer.value == |Q.ListedUsers(t, locale.fold, r)|
  {
    var builder := new QueryBuilder<Q.Sql, Q.Value>(Q.CountUser);
    builder.Push(Q.WhereTrue);
    PushFilters(builder, r);
    assert builder.tokens == Q.CountTokens(Q.Conditions(r));
    assert builder.args == Q.BoundAll(Q.Conditions(r));
    answer := server.count(Render(builder.tokens, Q.SqlText), builder.args);
    T.CountTextIs(r);
    Q.CountStatementMeans(Q.Conditions(r));
    Q.SelectedIsListed(t, locale.fold, r);
  }

  method PushTail(builder: QueryBuilder<Q.Sql, Q.Value>, r: Request, ghost n: nat)
    requires builder.Valid() && |builder.args| == n
    modifies builder
    ensures builder.Valid()
    ensures builder.tokens == old(builder.tokens) + Q.SelectTail(n, Q.SortColumn(r.sortBy), Q.SortOrder(r.order))
    ensures builder.args == old(builder.args) + [Q.IntValue(r.perPage), Q.IntValue(r.Offset())]
  {
    builder.Push(Q.OrderBy(Q.SortColumn(r.sortBy), Q.SortOrder(r.order)));
    builder.Push(Q.Limit);
    builder.PushBind(Q.IntValue(r.perPage));
    builder.Push(Q.Offset);
    builder.PushBind(Q.IntValue(r.Offset()));
  }

  method BuildSelect(r: Request) returns (builder: QueryBuilder<Q.Sql, Q.Value>)
    ensures fresh(builder) && builder.Valid()
    ensures builder.tokens == Q.SelectTokens(Q.Conditions(r), Q.SortColumn(r.sortBy), Q.SortOrder(r.order))
    ensures builder.args == Q.SelectArgs(Q.Conditions(r), r.perPage, r.Offset())
  {
    builder := new QueryBuilder<Q.Sql, Q.Value>(Q.SelectUser);
    builder.Push(Q.WhereTrue);
    assert builder.tokens == [Text(Q.SelectUser), Text(Q.WhereTrue)] && builder.args == [];
    PushFilters(builder, r);
    assert builder.args == Q.BoundAll(Q.Conditions(r)) && |builder.args| == |Q.Conditions(r)|;
    PushTail(builder, r, |Q.Conditions(r)|);
  }

  method SelectUsers(server: Server, t: Tables, ghost locale: L.Locale, r: Request)
    returns (answer: Option<seq<Q.Joined>>)
    requires Consistent(t) && Faithful(server, t, locale)
    ensures answer == Listed(server, r)
    ensures answer.Some? ==> L.IsPage(t, locale, r, answer.value)
  {
    var builder := BuildSelect(r);
    T.SelectTextIs(r);
    Q.SelectStatementMeans(Q.Conditions(r), Q.SortColumn(r.sortBy), Q.SortOrder(r.order), r.perPage, r.Offset());
    answer := server.select(Render(builder.tokens, Q.SqlText), builder.args);
  }

  lemma {:induction false} PageIsJoined(t: Tables, locale: L.Locale, r: Request, rows: seq<Q.Joined>)
    requires L.IsPage(t, locale, r, rows)
    ensures forall row | row in rows :: row in Q.JoinedRows(t) && Visible(t, row.id)
  {
    var selected := Q.Selected(t, locale.fold, Q.Conditions(r));
    var full :| L.IsOrdering(locale, Q.SortColumn(r.sortBy), Q.SortOrder(r.order), selected, full)
                && r.Offset() >= 0 && r.perPage >= 0 && rows == L.Slice(full, r.Offset(), r.perPage);
    forall row | row in rows ensures row in Q.JoinedRows(t) && Visible(t, row.id) {
      assert row in full;
      assert row in selected;
      JoinedIsVisible(t, row);
    }
  }

  /** The rows of a page, each with its roles; rolesFail are the users whose role query fails. */
  method DecodeAll(t: Tables, rows: seq<Q.Joined>, rolesFail: set<Uuid>) returns (answer: Option<seq<User>>)
    requires forall row | row in rows :: row in Q.JoinedRows(t) && Visible(t, row.id)
    ensures answer.Some? <==> forall row | row in rows :: Readable(t, row.id) && row.id !in rolesFail
    ensures answer.Some? ==>
              && |answer.value| == |rows|
              && forall i | 0 <= i < |rows| :: answer.value[i].id == rows[i].id && Shows(t, answer.value[i])
  {
    var users: seq<User> := [];
    for i := 0 to |rows|
      invariant |users| == i
      invariant forall j | 0 <= j < i ::
                  Readable(t, rows[j].id) && rows[j].id !in rolesFail && users[j].id == rows[j].id && Shows(t, users[j])
    {
      assert rows[i] in rows;
      DecodedShows(t, rows[i]);
      var user := Decoded(t, rows[i]);
      if user.None? || rows[i].id in rolesFail {
        return None;
      }
      users := users + [user.value];
    }
    answer := Some(users);
  }

  /** Both statements are answered, and every row of the page can be decoded and gets its roles. */
  ghost predicate Answered(server: Server, t: Tables, r: Request, rolesFail: set<Uuid>) {
    && Counted(server, r).Some? && Listed(server, r).Some?
    && forall row | row in Listed(server, r).value ::
         Visible(t, row.id) && Readable(t, row.id) && row.id !in rolesFail
  }

  /** The listing succeeds exactly if its queries are answered and no name on the page is NULL. Then the total
      counts exactly the listed users, and the users are those of the request's page, in the order they came,
      each as the tables hold it. */
  method Index(server: Server, t: Tables, ghost locale: L.Locale, r: Request, rolesFail: set<Uuid>)
    returns (result: Result<(seq<User>, int), DomainError>)
    requires Consistent(t) && Faithful(server, t, locale)
    ensures result.Success? <==> Answered(server, t, r, rolesFail)
    ensures result.Failure? ==> result.error == Database
    ensures result.Success? ==>
              var (users, total) := result.value;
              var rows := Listed(server, r).value;
              && total == |Q.ListedUsers(t, locale.fold, r)| && L.IsPage(t, locale, r, rows) && |users| == |rows|
              && forall i | 0 <= i < |rows| :: users[i].id == rows[i].id && Shows(t, users[i])
  {
    var total := CountUsers(server, t, locale, r);
    if total.None? {
      return Failure(Database);
    }
    var page := SelectUsers(server, t, locale, r);
    if page.None? {
      return Failure(Database);
    }
    PageIsJoined(t, locale, r, page.value);
    var users := DecodeAll(t, page.value, rolesFail);
    result := if users.Some? then Success((users.value, total.value)) else Failure(Database);
  }

  // The patch.

  /** The statement so far assigns exactly this. */
  ghost predicate Building(separated: Separated<U.Sql, U.Value>, done: seq<U.Assignment>)
    reads separated, separated.builder
  {
    && separated.builder.Valid() && separated.separator == U.Comma
    && separated.builder.tokens == [Text(U.UpdateUsersSet)] + U.WriteSet(done, 1, false)
    && separated.builder.args == U.Values(done)
    && (separated.pushSeparator <==> done != [])
  }

  method PushAssignment(separated: Separated<U.Sql, U.Value>, field: U.Field, value: U.Value,
      ghost done: seq<U.Assignment>)
    requires Building(separated, done)
    modifies separated, separated.builder
    ensures Building(separated, done + [U.Assignment(field, value)])
  {
    separated.Push(U.Assign(field));
    separated.PushBindUnseparated(value);
    U.WriteSetAppend(done, U.Assignment(field, value), 1, false);
  }

  method PushText(separated: Separated<U.Sql, U.Value>, field: U.Field, value: Option<string>,
      ghost done: seq<U.Assignment>)
    requires Building(separated, done)
    modifies separated, separated.builder
    ensures Building(separated, done + U.TextAssignment(field, value))
  {
    if value.Some? {
      PushAssignment(separated, field, U.TextValue(value.value), done);
    } else {
      assert done + [] == done;
    }
  }

  method PushInt(separated: Separated<U.Sql, U.Value>, field: U.Field, value: Option<int>,
      ghost done: seq<U.Assignment>)
    requires Building(separated, done)
    modifies separated, separated.builder
    ensures Building(separated, done + U.IntAssignment(field, value))
  {
    if value.Some? {
      PushAssignment(separated, field, U.IntValue(value.value), done);
    } else {
      assert done + [] == done;
    }
  }

  method WriteStatusAndPassword(separated: Separated<U.Sql, U.Value>, fields: U.UpdateUser,
      ghost done: seq<U.Assignment>)
    returns (ok: bool)
    requires Building(separated, done)
    modifies separated, separated.builder
    ensures ok == fields.KnownStatus()
    ensures ok ==>
              var status := U.IntAssignment(U.StatusColumn,
                                              if fields.status.Some? then StatusId(fields.status.value) else None);
              Building(separated, done + status + U.TextAssignment(U.Password, fields.password))
  {
    var statusId := if fields.status.Some? then StatusId(fields.status.value) else None;
    if fields.status.Some? && statusId.None? {
      return false;
    }
    PushInt(separated, U.StatusColumn, statusId, done);
    PushText(separated, U.Password, fields.password, done + U.IntAssignment(U.StatusColumn, statusId));
    ok := true;
  }

  method WriteAccount(separated: Separated<U.Sql, U.Value>, fields: U.UpdateUser, ghost profile: seq<U.Assignment>)
    returns (ok: bool)
    requires Building(separated, profile)
    modifies separated, separated.builder
    ensures ok == fields.KnownStatus()
    ensures ok ==> Building(separated, profile + U.AccountAssignments(fields))
  {
    ghost var email := U.TextAssignment(U.Email, fields.email);
    ghost var department := U.IntAssignment(U.DepartmentId, fields.departmentId);
    PushText(separated, U.Email, fields.email, profile);
    PushInt(separated, U.DepartmentId, fields.departmentId, profile + email);
    Associate(profile, email, department);
    ok := WriteStatusAndPassword(separated, fields, profile + (email + department));
    if ok {
      ghost var status, password :=
        U.IntAssignment(U.StatusColumn, if fields.status.Some? then StatusId(fields.status.value) else None),
        U.TextAssignment(U.Password, fields.password);
      Associate(profile, email + department, status);
      Associate(profile, email + department + status, password);
    }
  }

  /** The profile columns, then the account columns; an unknown status name stops the writing. */
  method WriteAssignments(separated: Separated<U.Sql, U.Value>, fields: U.UpdateUser) returns (ok: bool)
    requires Building(separated, [])
    modifies separated, separated.builder
    ensures ok == fields.KnownStatus()
    ensures ok ==> Building(separated, U.Assignments(fields))
  {
    ghost var done: seq<U.Assignment> := [];
    PushText(separated, U.AvatarId, fields.avatarId, done);
    done := done + U.TextAssignment(U.AvatarId, fields.avatarId);
    PushText(separated, U.FirstName, fields.firstName, done);
    done := done + U.TextAssignment(U.FirstName, fields.firstName);
    PushText(separated, U.LastName, fields.lastName, done);
    done := done + U.TextAssignment(U.LastName, fields.lastName);
    assert done == U.ProfileAssignments(fields);
    ok := WriteAccount(separated, fields, done);
  }

  /** A patch without columns and one with an unknown status name send no statement. Any other sends exactly one,
      with the effect of a record update of exactly the present fields on exactly this user, unless a constraint
      or the database refuses it. */
  method PartialUpdate(tx: Transaction, id: Uuid, fields: U.UpdateUser, fails: bool)
    returns (r: Result<(), DomainError>)
    modifies tx
    ensures tx.sent == old(tx.sent)
                       + if fields.HasNoColumnChanges() || !fields.KnownStatus() then []
                         else [(UpdateTexts.UpdateSql(UpdateTexts.Listed(fields)),
                                U.UpdateArgs(U.Assignments(fields), id))]
    ensures if fields.HasNoColumnChanges() then r.Success? && tx.tables == old(tx.tables)
            else if !fields.KnownStatus() then r == Failure(StatusNotFound) && tx.tables == old(tx.tables)
            else if fails then r == Failure(Database) && tx.tables == old(tx.tables)
            else
              match PatchColumns(old(tx.tables), id, fields)
              case Success(t) => r.Success? && tx.tables == t
              case Failure(UniqueViolation) => r == Failure(UserDuplicate) && tx.tables == old(tx.tables)
              case Failure(ForeignKeyViolation) => r == Failure(DepartmentNotFound) && tx.tables == old(tx.tables)
              case Failure(OtherFailure) => r == Failure(Database) && tx.tables == old(tx.tables)
  {
    if fields.HasNoColumnChanges() {
      return Success(());
    }
    var builder := new QueryBuilder<U.Sql, U.Value>(U.UpdateUsersSet);
    var separated := new Separated(builder, U.Comma);
    var known := WriteAssignments(separated, fields);
    if !known {
      return Failure(StatusNotFound);
    }
    builder.Push(U.WhereIdIs);
    builder.PushBind(U.UuidValue(id));
    assert builder.tokens == U.UpdateTokens(U.Assignments(fields));
    assert builder.args == U.UpdateArgs(U.Assignments(fields), id);
    U.UpdateStatementMeans(fields, id);
    UpdateTexts.UpdateTextIs(fields);
    if id in tx.tables.users {
      U.AssignmentsPatch(tx.tables.users[id], fields);
    }
    var executed := tx.ExecuteUpdate(builder.tokens, builder.args, fails);
    r := match executed
         case Success(_) => Success(())
         case Failure(UniqueViolation) => Failure(UserDuplicate)
         case Failure(ForeignKeyViolation) => Failure(DepartmentNotFound)
         case Failure(OtherFailure) => Failure(Database);
  }

  // The other operations.

  method AddUserRoles(tx: Transaction, id: Uuid, names: seq<string>, fails: bool) returns (r: Result<(), DomainError>)
    modifies tx`tables
    ensures r.Success? <==>
              names == [] || (!fails && (id in old(tx.tables.users) || RolesNamed(old(tx.tables), names) == {}))
    ensures tx.tables == if r.Success? then AddRoles(old(tx.tables), id, names) else old(tx.tables)
    ensures r.Failure? ==> r.error == Database
  {
    if names == [] {
      assert AddRoles(tx.tables, id, names) == tx.tables;
      return Success(());
    }
    var ok := tx.InsertRoles(id, names, fails);
    r := if ok then Success(()) else Failure(Database);
  }

  method RemoveUserRoles(tx: Transaction, id: Uuid, names: seq<string>, fails: bool)
    returns (r: Result<(), DomainError>)
    modifies tx`tables
    ensures r.Success? <==> names == [] || !fails
    ensures tx.tables == if r.Success? then RemoveRoles(old(tx.tables), id, names) else old(tx.tables)
    ensures r.Failure? ==> r.error == Database
  {
    if names == [] {
      assert RemoveRoles(tx.tables, id, names) == tx.tables;
      return Success(());
    }
    var ok := tx.DeleteRoles(id, names, fails);
    r := if ok then Success(()) else Failure(Database);
  }

  /** One row under a new id with its known roles; a taken name or address, or a missing department or status,
      is reported as such. */
  method Create(tx: Transaction, user: CreateUser, hash: string, insertFails: bool, rolesFail: bool)
    returns (r: Result<Uuid, DomainError>)
    modifies tx`tables
    ensures if insertFails then r == Failure(Database)
            else if NameTaken(old(tx.tables), user) then r == Failure(UserDuplicate)
            else if user.departmentId !in old(tx.tables.departments) || 1 !in old(tx.tables.statuses) then
              r == Failure(DepartmentNotFound)
            else if user.roles != [] && rolesFail then r == Failure(Database)
            else r.Success? && CreateCommits(old(tx.tables), user, r.value, hash, tx.tables)
  {
    var inserted := tx.InsertUser(NewRow(user, hash), insertFails);
    match inserted {
      case Success(id) =>
        var added := AddUserRoles(tx, id, user.roles, rolesFail);
        r := if added.Success? then Success(id) else Failure(Database);
      case Failure(UniqueViolation) => r := Failure(UserDuplicate);
      case Failure(ForeignKeyViolation) => r := Failure(DepartmentNotFound);
      case Failure(OtherFailure) => r := Failure(Database);
    }
  }

  predicate DeleteAllowed(t: Tables, id: Uuid) {
    id in t.users ==> 2 in t.statuses
  }

  /** Soft delete: only the status changes, and only this user's. */
  method Delete(tx: Transaction, id: Uuid, fails: bool) returns (r: Result<(), DomainError>)
    modifies tx`tables
    ensures if fails || !DeleteAllowed(old(tx.tables), id) then r == Failure(Database) && tx.tables == old(tx.tables)
            else r.Success? && DeleteCommits(old(tx.tables), id, tx.tables)
  {
    if fails || (id in tx.tables.users && DELETED_USER_STATUS !in tx.tables.statuses) {
      return Failure(Database);
    }
    if id in tx.tables.users {
      tx.tables := tx.tables.(users := tx.tables.users[id := tx.tables.users[id].(statusId := DELETED_USER_STATUS)]);
    }
    r := Success(());
  }
}
