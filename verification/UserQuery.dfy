/**
 The user listing as a query compiler: the statements that push_filters and index write, a reader and
 an evaluator for such statements, and the proof that what is written means what the request says.
 */
module UserQueries {
  import opened Wrappers
  import opened Numbers
  import opened LikePatterns
  import opened IamTables
  import opened Pagination
  import opened QueryBuilders

  // The SQL fragments of the repository. Their text is given once, by SqlText.

  datatype Column = UserName | Email | FirstName | LastName | StatusName | DepartmentName

  datatype Direction = Asc | Desc

  datatype Sql =
    | SelectUser
    | CountUser
    | WhereTrue
    | AndStatusIs
    | AndDepartmentIs
    | AndHasRole
    | CloseHasRole
    | AndFirstNameILike
    | OrderBy(column: Column, direction: Direction)
    | Limit
    | Offset

  const JOINS: string :=
    " FROM iam.users u INNER JOIN iam.user_statuses us ON u.status_id = us.id"
    + " INNER JOIN iam.departments d ON u.department_id = d.id"
    + " INNER JOIN iam.companies c ON d.company_id = c.id"

  const SELECT_USER: string :=
    "SELECT u.id, u.user_name, u.avatar_id, u.email, u.password, u.first_name, u.last_name, us.id AS status_id,"
    + " us.status, d.id AS department_id, d.name AS department_name, c.id AS company_id, c.name AS company_name"
    + JOINS

  const COUNT_USER: string := "SELECT COUNT(*) AS total" + JOINS

  const AND_HAS_ROLE: string :=
    " AND EXISTS"
    + (" (SELECT 1 FROM iam.user_has_roles uhr INNER JOIN iam.roles r ON uhr.role_id = r.id"
       + " WHERE uhr.user_id = u.id AND r.name = ")

  function ColumnText(column: Column): string {
    match column
    case UserName => "u.user_name"
    case Email => "u.email"
    case FirstName => "u.first_name"
    case LastName => "u.last_name"
    case StatusName => "us.status"
    case DepartmentName => "d.name"
  }

  function SqlText(sql: Sql): string {
    match sql
    case SelectUser => SELECT_USER
    case CountUser => COUNT_USER
    case WhereTrue => " WHERE TRUE"
    case AndStatusIs => " AND us.id = "
    case AndDepartmentIs => " AND u.department_id = "
    case AndHasRole => AND_HAS_ROLE
    case CloseHasRole => ")"
    case AndFirstNameILike => " AND u.first_name ILIKE "
    case OrderBy(column, direction) => " ORDER BY " + ColumnText(column) + (if direction.Asc? then " asc" else " desc")
    case Limit => " LIMIT "
    case Offset => " OFFSET "
  }

  datatype Value = IntValue(int) | TextValue(string)

  type Tokens = seq<Token<Sql>>

  type Args = seq<Value>

  // The conditions a request asks for.

  datatype Condition =
    | StatusIs(id: int)
    | DepartmentIs(id: int)
    | HasRole(role: string)
    | FirstNameLike(pattern: string)

  function StatusConditions(r: Request): seq<Condition> {
    match r.Filter("status")
    case Some(status) => (match StatusId(status) case Some(id) => [StatusIs(id)] case None => [])
    case None => []
  }

  function DepartmentConditions(r: Request): seq<Condition> {
    match r.Filter("department_id")
    case Some(department) => (match ParseI32(department) case Some(id) => [DepartmentIs(id)] case None => [])
    case None => []
  }

  function RoleConditions(r: Request): seq<Condition> {
    match r.Filter("role") case Some(role) => [HasRole(role)] case None => []
  }

  function FirstNameConditions(r: Request): seq<Condition> {
    match r.Filter("first_name") case Some(name) => [FirstNameLike("%" + name + "%")] case None => []
  }

  function Conditions(r: Request): seq<Condition> {
    StatusConditions(r) + DepartmentConditions(r) + RoleConditions(r) + FirstNameConditions(r)
  }

  // Writing.

  function Write(c: Condition, n: nat): Tokens {
    match c
    case StatusIs(_) => [Text(AndStatusIs), Placeholder(n)]
    case DepartmentIs(_) => [Text(AndDepartmentIs), Placeholder(n)]
    case HasRole(_) => [Text(AndHasRole), Placeholder(n), Text(CloseHasRole)]
    case FirstNameLike(_) => [Text(AndFirstNameILike), Placeholder(n)]
  }

  function Bound(c: Condition): Value {
    match c
    case StatusIs(id) => IntValue(id)
    case DepartmentIs(id) => IntValue(id)
    case HasRole(role) => TextValue(role)
    case FirstNameLike(pattern) => TextValue(pattern)
  }

  function WriteAll(conditions: seq<Condition>, n: nat): Tokens {
    if conditions == [] then [] else Write(conditions[0], n) + WriteAll(conditions[1..], n + 1)
  }

  function BoundAll(conditions: seq<Condition>): (args: Args)
    ensures |args| == |conditions|
    ensures forall i | 0 <= i < |args| :: args[i] == Bound(conditions[i])
  {
    if conditions == [] then [] else [Bound(conditions[0])] + BoundAll(conditions[1..])
  }

  lemma {:induction false} WriteAllCons(c: Condition, rest: seq<Condition>, n: nat)
    ensures WriteAll([c] + rest, n) == Write(c, n) + WriteAll(rest, n + 1)
  {
    assert ([c] + rest)[1..] == rest;
  }

  lemma {:induction false} WriteAllConcat(a: seq<Condition>, b: seq<Condition>, n: nat)
    ensures WriteAll(a + b, n) == WriteAll(a, n) + WriteAll(b, n + |a|)
  {
    if a == [] {
      assert a + b == b;
    } else {
      WriteAllConcat(a[1..], b, n + 1);
      HeadAndTail(a, b);
      WriteAllCons(a[0], a[1..] + b, n);
      Associate(Write(a[0], n), WriteAll(a[1..], n + 1), WriteAll(b, n + |a|));
    }
  }

  lemma {:induction false} BoundAllConcat(a: seq<Condition>, b: seq<Condition>)
    ensures BoundAll(a + b) == BoundAll(a) + BoundAll(b)
  {
  }

  function SortColumn(sortBy: string): Column {
    if sortBy == "email" then Email
    else if sortBy == "first_name" then FirstName
    else if sortBy == "last_name" then LastName
    else if sortBy == "status" then StatusName
    else if sortBy == "department" then DepartmentName
    else UserName
  }

  function SortOrder(order: string): Direction {
    if order == "asc" then Asc else Desc
  }

  /** The public name of a sortable column. */
  function PublicName(column: Column): string {
    match column
    case UserName => "user_name"
    case Email => "email"
    case FirstName => "first_name"
    case LastName => "last_name"
    case StatusName => "status"
    case DepartmentName => "department"
  }

  /** A public name sorts by its own column and any other text by user name; the order is ascending exactly
      when it is asked for, so a normalised request without one sorts descending. */
  lemma {:induction false} SortMeans(r: Request, column: Column)
    ensures SortColumn(r.sortBy) == column
            <==> r.sortBy == PublicName(column)
                 || (column.UserName? && forall other: Column :: r.sortBy != PublicName(other))
    ensures SortOrder(r.order).Asc? <==> r.order == "asc"
    ensures r.order == "" ==> SortOrder(r.order).Desc?
  {
    if SortColumn(r.sortBy).UserName? && r.sortBy != "user_name" {
      forall other: Column ensures r.sortBy != PublicName(other) {
      }
    } else {
      assert r.sortBy == PublicName(SortColumn(r.sortBy));
    }
  }

  // Reading a statement back.

  datatype Statement =
    | Count(conditions: seq<Condition>)
    | Select(conditions: seq<Condition>, column: Column, direction: Direction, limit: int, offset: int)

  function Argument(token: Token<Sql>, args: Args): Option<Value> {
    if token.Placeholder? && 1 <= token.number <= |args| then Some(args[token.number - 1]) else None
  }

  function IntArgument(token: Token<Sql>, args: Args): Option<int> {
    match Argument(token, args) case Some(IntValue(n)) => Some(n) case _ => None
  }

  function TextArgument(token: Token<Sql>, args: Args): Option<string> {
    match Argument(token, args) case Some(TextValue(s)) => Some(s) case _ => None
  }

  /** One condition at the front of the text, and how many tokens it takes. */
  function ReadCondition(tokens: Tokens, args: Args): (r: Option<(Condition, nat)>)
    ensures r.Some? ==> 0 < r.value.1 <= |tokens|
  {
    if |tokens| < 2 then None
    else if tokens[0] == Text(AndStatusIs) then
      var id :- IntArgument(tokens[1], args);
      Some((StatusIs(id), 2))
    else if tokens[0] == Text(AndDepartmentIs) then
      var id :- IntArgument(tokens[1], args);
      Some((DepartmentIs(id), 2))
    else if tokens[0] == Text(AndHasRole) && |tokens| > 2 && tokens[2] == Text(CloseHasRole) then
      var role :- TextArgument(tokens[1], args);
      Some((HasRole(role), 3))
    else if tokens[0] == Text(AndFirstNameILike) then
      var pattern :- TextArgument(tokens[1], args);
      Some((FirstNameLike(pattern), 2))
    else None
  }

  function ReadConditions(tokens: Tokens, args: Args): (r: (seq<Condition>, Tokens))
    ensures |r.1| <= |tokens|
  {
    match ReadCondition(tokens, args)
    case None => ([], tokens)
    case Some((condition, used)) =>
      var (rest, left) := ReadConditions(tokens[used..], args);
      ([condition] + rest, left)
  }

  function ReadStatement(tokens: Tokens, args: Args): Option<Statement> {
    if |tokens| < 2 || tokens[1] != Text(WhereTrue) then None
    else
      var (conditions, left) := ReadConditions(tokens[2..], args);
      if tokens[0] == Text(CountUser) && left == [] then Some(Count(conditions))
      else if tokens[0] == Text(SelectUser) && |left| == 5
              && left[0].Text? && left[0].fragment.OrderBy? && left[1] == Text(Limit) && left[3] == Text(Offset) then
        var limit :- IntArgument(left[2], args);
        var offset :- IntArgument(left[4], args);
        Some(Select(conditions, left[0].fragment.column, left[0].fragment.direction, limit, offset))
      else None
  }

  lemma {:induction false} ReadWrittenCondition(c: Condition, n: nat, args: Args, rest: Tokens)
    requires 1 <= n <= |args| && args[n - 1] == Bound(c)
    ensures ReadCondition(Write(c, n) + rest, args) == Some((c, |Write(c, n)|))
    ensures (Write(c, n) + rest)[|Write(c, n)|..] == rest
  {
  }

  lemma {:induction false} ReadOneMore(c: Condition, n: nat, args: Args, tail: Tokens)
    requires 1 <= n <= |args| && args[n - 1] == Bound(c)
    ensures var (conditions, left) := ReadConditions(tail, args);
            ReadConditions(Write(c, n) + tail, args) == ([c] + conditions, left)
  {
    ReadWrittenCondition(c, n, args, tail);
  }

  /** Reading inverts writing, whatever text and values stand around the conditions. */
  lemma {:induction false} ReadWrittenConditions(conditions: seq<Condition>, n: nat, args: Args, rest: Tokens)
    requires 1 <= n && n - 1 + |conditions| <= |args|
    requires forall i | 0 <= i < |conditions| :: args[n - 1 + i] == Bound(conditions[i])
    requires ReadCondition(rest, args) == None
    ensures ReadConditions(WriteAll(conditions, n) + rest, args) == (conditions, rest)
  {
    if conditions == [] {
      assert WriteAll(conditions, n) + rest == rest;
    } else {
      var c := conditions[0];
      var more := conditions[1..];
      var tail := WriteAll(more, n + 1) + rest;
      forall i | 0 <= i < |more| ensures args[n + i] == Bound(more[i]) {
        assert args[n - 1 + (i + 1)] == Bound(conditions[i + 1]);
      }
      assert args[n - 1 + 0] == Bound(c);
      ReadWrittenConditions(more, n + 1, args, rest);
      Associate(Write(c, n), WriteAll(more, n + 1), rest);
      HeadAndTail(conditions, []);
      ReadOneMore(c, n, args, tail);
    }
  }

  // The two statements of index.

  function CountTokens(conditions: seq<Condition>): Tokens {
    [Text(CountUser), Text(WhereTrue)] + WriteAll(conditions, 1)
  }

  function SelectTail(n: nat, column: Column, direction: Direction): Tokens {
    [Text(OrderBy(column, direction)), Text(Limit), Placeholder(n + 1), Text(Offset), Placeholder(n + 2)]
  }

  function SelectTokens(conditions: seq<Condition>, column: Column, direction: Direction): Tokens {
    [Text(SelectUser), Text(WhereTrue)] + WriteAll(conditions, 1) + SelectTail(|conditions|, column, direction)
  }

  function SelectArgs(conditions: seq<Condition>, limit: int, offset: int): Args {
    BoundAll(conditions) + [IntValue(limit), IntValue(offset)]
  }

  lemma {:induction false} ReadCount(conditions: seq<Condition>, body: Tokens, args: Args)
    requires ReadConditions(body, args) == (conditions, [])
    ensures ReadStatement([Text(CountUser), Text(WhereTrue)] + body, args) == Some(Count(conditions))
  {
    var tokens := [Text(CountUser), Text(WhereTrue)] + body;
    assert tokens[0] == Text(CountUser) && tokens[1] == Text(WhereTrue) && tokens[2..] == body;
  }

  /** A written count statement reads back as exactly its conditions. */
  lemma {:induction false} CountStatementMeans(conditions: seq<Condition>)
    ensures ReadStatement(CountTokens(conditions), BoundAll(conditions)) == Some(Count(conditions))
  {
    var written := WriteAll(conditions, 1);
    ReadWrittenConditions(conditions, 1, BoundAll(conditions), []);
    assert written + [] == written;
    ReadCount(conditions, written, BoundAll(conditions));
  }

  lemma {:induction false} ReadSelect(conditions: seq<Condition>, body: Tokens, tail: Tokens, args: Args,
                   column: Column, direction: Direction, limit: int, offset: int)
    requires ReadConditions(body, args) == (conditions, tail)
    requires tail == SelectTail(|conditions|, column, direction) && args == SelectArgs(conditions, limit, offset)
    ensures ReadStatement([Text(SelectUser), Text(WhereTrue)] + body, args) ==
            Some(Select(conditions, column, direction, limit, offset))
  {
    var tokens := [Text(SelectUser), Text(WhereTrue)] + body;
    assert tokens[0] == Text(SelectUser) && tokens[1] == Text(WhereTrue) && tokens[2..] == body;
    assert args[|conditions|] == IntValue(limit) && args[|conditions| + 1] == IntValue(offset);
  }

  /** And a written select statement as its conditions, order, page size and offset. */
  lemma {:induction false} SelectStatementMeans(conditions: seq<Condition>, column: Column, direction: Direction,
      limit: int, offset: int)
    ensures ReadStatement(SelectTokens(conditions, column, direction), SelectArgs(conditions, limit, offset)) ==
            Some(Select(conditions, column, direction, limit, offset))
  {
    var tail := SelectTail(|conditions|, column, direction);
    var args := SelectArgs(conditions, limit, offset);
    var written := WriteAll(conditions, 1);
    ReadWrittenConditions(conditions, 1, args, tail);
    ReadSelect(conditions, written + tail, tail, args, column, direction, limit, offset);
    Associate([Text(SelectUser), Text(WhereTrue)], written, tail);
  }

  // What the statements return.

  /** The row of the four-table join. */
  datatype Joined = Joined(
    id: Uuid, user: UserRow, statusId: int, status: Option<string>,
    departmentId: int, department: Option<string>, companyId: int, company: string)

  ghost function JoinedRows(t: Tables): set<Joined> {
    set u, s, d, c |
      u in t.users && s in t.statuses && d in t.departments && c in t.companies
      && t.users[u].statusId == s && t.users[u].departmentId == d && t.departments[d].companyId == Some(c) ::
      Joined(u, t.users[u], s, t.statuses[s], d, t.departments[d].name, c, t.companies[c])
  }

  ghost predicate RoleExists(t: Tables, id: Uuid, role: string) {
    exists link | link in t.userRoles :: link.0 == id && link.1 in t.roles && t.roles[link.1] == role
  }

  ghost predicate Holds(t: Tables, fold: char -> char, row: Joined, c: Condition) {
    match c
    case StatusIs(id) => row.statusId == id
    case DepartmentIs(id) => row.user.departmentId == id
    case HasRole(role) => RoleExists(t, row.id, role)
    case FirstNameLike(pattern) => ILike(fold, pattern, row.user.firstName)
  }

  ghost predicate HoldAll(t: Tables, fold: char -> char, row: Joined, conditions: seq<Condition>) {
    forall c | c in conditions :: Holds(t, fold, row, c)
  }

  ghost function Selected(t: Tables, fold: char -> char, conditions: seq<Condition>): set<Joined> {
    set row | row in JoinedRows(t) && HoldAll(t, fold, row, conditions)
  }

  /** What the request asks of a user, said without statements: each recognised filter must hold, and an
      unknown status name, a department that is no 32-bit integer, an empty value or any other key asks
      nothing. */
  ghost predicate Matches(t: Tables, fold: char -> char, r: Request, id: Uuid)
    requires id in t.users
  {
    var user := t.users[id];
    && ("status" in r.filters && r.filters["status"] == "Active" ==> user.statusId == 1)
    && ("status" in r.filters && r.filters["status"] == "Deleted" ==> user.statusId == 2)
    && ("department_id" in r.filters ==>
          var department := ParseInt(r.filters["department_id"], -2_147_483_648, 2_147_483_647);
          department.Some? ==> user.departmentId == department.value)
    && ("role" in r.filters && r.filters["role"] != "" ==> RoleExists(t, id, r.filters["role"]))
    && ("first_name" in r.filters && r.filters["first_name"] != "" ==>
          ILike(fold, "%" + r.filters["first_name"] + "%", user.firstName))
  }

  /** A user is listed if it matches and its department belongs to a company. */
  ghost function ListedUsers(t: Tables, fold: char -> char, r: Request): set<Uuid> {
    set id | id in t.users && t.users[id].departmentId in t.departments
             && t.departments[t.users[id].departmentId].companyId.Some? && Matches(t, fold, r, id)
  }

  lemma {:induction false} HoldAllConcat(t: Tables,
      fold: char -> char, row: Joined, a: seq<Condition>, b: seq<Condition>)
    ensures HoldAll(t, fold, row, a + b) <==> HoldAll(t, fold, row, a) && HoldAll(t, fold, row, b)
  {
    assert forall c :: c in a + b <==> c in a || c in b;
  }

  lemma {:induction false} HoldOne(t: Tables, fold: char -> char, row: Joined, c: Condition)
    ensures HoldAll(t, fold, row, [c]) <==> Holds(t, fold, row, c)
  {
    assert c in [c];
  }

  /** Evaluating the written conditions on a joined row is the request's own question about the user. */
  lemma {:induction false} ConditionsMean(t: Tables, fold: char -> char, r: Request, row: Joined)
    requires row in JoinedRows(t)
    ensures HoldAll(t, fold, row, Conditions(r)) <==> Matches(t, fold, r, row.id)
  {
    var s, d, o, f := StatusConditions(r), DepartmentConditions(r), RoleConditions(r), FirstNameConditions(r);
    HoldAllConcat(t, fold, row, s + d + o, f);
    HoldAllConcat(t, fold, row, s + d, o);
    HoldAllConcat(t, fold, row, s, d);
    if s != [] { HoldOne(t, fold, row, s[0]); }
    if d != [] { HoldOne(t, fold, row, d[0]); }
    if o != [] { HoldOne(t, fold, row, o[0]); }
    if f != [] { HoldOne(t, fold, row, f[0]); }
  }

  /** The joined row of a user whose department belongs to a company. */
  ghost function JoinedRow(t: Tables, id: Uuid): (row: Joined)
    requires Consistent(t) && id in t.users && t.departments[t.users[id].departmentId].companyId.Some?
    ensures row in JoinedRows(t) && row.id == id
  {
    var user := t.users[id];
    var department := t.departments[user.departmentId];
    var company := department.companyId.value;
    assert company in t.companies;
    Joined(id, user, user.statusId, t.statuses[user.statusId], user.departmentId, department.name,
           company, t.companies[company])
  }

  lemma {:induction false} JoinedRowsAreUsers(t: Tables, row: Joined)
    requires Consistent(t) && row in JoinedRows(t)
    ensures row.id in t.users && t.departments[t.users[row.id].departmentId].companyId.Some?
    ensures row == JoinedRow(t, row.id)
  {
  }

  lemma {:induction false} SameSize<A, B>(rows: set<A>, keys: set<B>, f: A -> B)
    requires forall a | a in rows :: f(a) in keys
    requires forall a, b | a in rows && b in rows && f(a) == f(b) :: a == b
    requires forall k | k in keys :: exists a | a in rows :: f(a) == k
    ensures |rows| == |keys|
  {
    if a :| a in rows {
      forall k | k in keys - {f(a)} ensures exists b | b in rows - {a} :: f(b) == k {
        var b :| b in rows && f(b) == k;
        assert b in rows - {a};
      }
      SameSize(rows - {a}, keys - {f(a)}, f);
    } else {
      assert keys == {};
    }
  }

  /** The filtered join holds exactly the listed users, and each of them once: neither the joins nor the
      role test repeats or loses a row. */
  lemma {:induction false} SelectedIsListed(t: Tables, fold: char -> char, r: Request)
    requires Consistent(t)
    ensures forall row | row in Selected(t, fold, Conditions(r)) ::
              row.id in ListedUsers(t, fold, r) && row == JoinedRow(t, row.id)
    ensures forall id | id in ListedUsers(t, fold, r) :: JoinedRow(t, id) in Selected(t, fold, Conditions(r))
    ensures |Selected(t, fold, Conditions(r))| == |ListedUsers(t, fold, r)|
  {
    var selected, listed := Selected(t, fold, Conditions(r)), ListedUsers(t, fold, r);
    forall row | row in selected ensures row.id in listed && row == JoinedRow(t, row.id) {
      JoinedRowsAreUsers(t, row);
      ConditionsMean(t, fold, r, row);
    }
    forall id | id in listed ensures JoinedRow(t, id) in selected {
      ConditionsMean(t, fold, r, JoinedRow(t, id));
    }
    forall id | id in listed ensures exists row | row in selected :: row.id == id {
      assert JoinedRow(t, id) in selected;
    }
    SameSize(selected, listed, (row: Joined) => row.id);
  }
}
