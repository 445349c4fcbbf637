/**
 The dynamic UPDATE of a user patch: the statement that partial_update writes for each combination of
 present fields, a reader for such statements, and the proof that the two agree with a plain record
 update.
 */
module UserUpdates {
  import opened Wrappers
  import opened IamTables
  import opened QueryBuilders

  datatype UpdateUser = UpdateUser(
    avatarId: Option<string>, firstName: Option<string>, lastName: Option<string>, email: Option<string>,
    departmentId: Option<int>, status: Option<string>, password: Option<string>,
    addRoles: Option<seq<string>>, removeRoles: Option<seq<string>>)
  {
    predicate HasNoColumnChanges() {
      avatarId.None? && firstName.None? && lastName.None? && email.None?
      && departmentId.None? && status.None? && password.None?
    }

    function RestrictedToSelf(): UpdateUser {
      UpdateUser(avatarId, firstName, lastName, None, departmentId, None, None, None, None)
    }

    predicate KnownStatus() {
      status.Some? ==> StatusId(status.value).Some?
    }
  }

  function OrElse<T>(value: Option<T>, default: T): T {
    if value.Some? then value.value else default
  }

  /** The record update a patch stands for: exactly the present fields change. */
  function Patched(row: UserRow, fields: UpdateUser): UserRow
    requires fields.KnownStatus()
  {
    row.(avatarId := OrElse(fields.avatarId, row.avatarId),
         firstName := OrElse(fields.firstName, row.firstName),
         lastName := OrElse(fields.lastName, row.lastName),
         email := OrElse(fields.email, row.email),
         departmentId := OrElse(fields.departmentId, row.departmentId),
         statusId := if fields.status.Some? then StatusId(fields.status.value).value else row.statusId,
         password := OrElse(fields.password, row.password))
  }

  // The statement.

  datatype Field = AvatarId | FirstName | LastName | Email | DepartmentId | StatusColumn | Password

  datatype Sql = UpdateUsersSet | Assign(field: Field) | Comma | WhereIdIs

  function SqlText(sql: Sql): string {
    match sql
    case UpdateUsersSet => "UPDATE iam.users SET "
    case Assign(AvatarId) => "avatar_id = "
    case Assign(FirstName) => "first_name = "
    case Assign(LastName) => "last_name = "
    case Assign(Email) => "email = "
    case Assign(DepartmentId) => "department_id = "
    case Assign(StatusColumn) => "status_id = "
    case Assign(Password) => "password = "
    case Comma => ", "
    case WhereIdIs => " WHERE id = "
  }

  datatype Value = TextValue(string) | IntValue(int) | UuidValue(Uuid)

  type Tokens = seq<Token<Sql>>

  type Args = seq<Value>

  datatype Assignment = Assignment(field: Field, value: Value)
  {
    predicate WellTyped() {
      value.IntValue? <==> field.DepartmentId? || field.StatusColumn?
    }
  }

  function TextAssignment(field: Field, value: Option<string>): seq<Assignment> {
    if value.Some? then [Assignment(field, TextValue(value.value))] else []
  }

  function IntAssignment(field: Field, value: Option<int>): seq<Assignment> {
    if value.Some? then [Assignment(field, IntValue(value.value))] else []
  }

  function ProfileAssignments(fields: UpdateUser): seq<Assignment> {
    TextAssignment(AvatarId, fields.avatarId)
    + TextAssignment(FirstName, fields.firstName)
    + TextAssignment(LastName, fields.lastName)
  }

  function AccountAssignments(fields: UpdateUser): seq<Assignment> {
    TextAssignment(Email, fields.email)
    + IntAssignment(DepartmentId, fields.departmentId)
    + IntAssignment(StatusColumn, if fields.status.Some? then StatusId(fields.status.value) else None)
    + TextAssignment(Password, fields.password)
  }

  /** The assignments of a patch, in the order partial_update writes them. */
  function Assignments(fields: UpdateUser): seq<Assignment> {
    ProfileAssignments(fields) + AccountAssignments(fields)
  }

  /** Assignments as text, numbered from n: a comma before each, except before the first if it does not
      follow another. */
  function WriteSet(assignments: seq<Assignment>, n: nat, follows: bool): Tokens {
    if assignments == [] then []
    else
      (if follows then [Text(Comma)] else []) + [Text(Assign(assignments[0].field)), Placeholder(n)]
      + WriteSet(assignments[1..], n + 1, true)
  }

  function Values(assignments: seq<Assignment>): (args: Args)
    ensures |args| == |assignments|
    ensures forall i | 0 <= i < |args| :: args[i] == assignments[i].value
  {
    seq(|assignments|, i requires 0 <= i < |assignments| => assignments[i].value)
  }

  function UpdateTokens(assignments: seq<Assignment>): Tokens {
    [Text(UpdateUsersSet)] + WriteSet(assignments, 1, false) + [Text(WhereIdIs), Placeholder(|assignments| + 1)]
  }

  function UpdateArgs(assignments: seq<Assignment>, id: Uuid): Args {
    Values(assignments) + [UuidValue(id)]
  }

  // Reading it back. The grammar wants at least one assignment, commas between assignments and nowhere
  // else, values of the column's type, and no column assigned twice.

  function ReadAssignment(tokens: Tokens, args: Args): Option<Assignment> {
    if |tokens| >= 2 && tokens[0].Text? && tokens[0].fragment.Assign?
       && tokens[1].Placeholder? && 1 <= tokens[1].number <= |args| then
      var a := Assignment(tokens[0].fragment.field, args[tokens[1].number - 1]);
      if a.WellTyped() && !a.value.UuidValue? then Some(a) else None
    else None
  }

  function ReadSet(tokens: Tokens, args: Args): Option<(seq<Assignment>, Tokens)>
    decreases |tokens|
  {
    var first :- ReadAssignment(tokens, args);
    if |tokens| >= 3 && tokens[2] == Text(Comma) then
      var (rest, left) :- ReadSet(tokens[3..], args);
      Some(([first] + rest, left))
    else Some(([first], tokens[2..]))
  }

  predicate DistinctFields(assignments: seq<Assignment>) {
    forall i, j | 0 <= i < j < |assignments| :: assignments[i].field != assignments[j].field
  }

  datatype Update = Update(assignments: seq<Assignment>, id: Uuid)

  function ReadUpdate(tokens: Tokens, args: Args): Option<Update> {
    if tokens == [] || tokens[0] != Text(UpdateUsersSet) then None
    else
      var (assignments, left) :- ReadSet(tokens[1..], args);
      if |left| == 2 && left[0] == Text(WhereIdIs) && left[1].Placeholder? && 1 <= left[1].number <= |args|
         && args[left[1].number - 1].UuidValue? && DistinctFields(assignments)
      then
        var UuidValue(id) := args[left[1].number - 1];
        Some(Update(assignments, id))
      else None
  }

  lemma {:induction false} ReadWrittenSet(assignments: seq<Assignment>, n: nat, args: Args, rest: Tokens)
    requires assignments != [] && 1 <= n && n - 1 + |assignments| <= |args|
    requires forall i | 0 <= i < |assignments| ::
               assignments[i].WellTyped() && !assignments[i].value.UuidValue? && args[n - 1 + i] == assignments[i].value
    requires rest != [] && rest[0] != Text(Comma)
    ensures ReadSet(WriteSet(assignments, n, false) + rest, args) == Some((assignments, rest))
  {
    var more := assignments[1..];
    var tokens := WriteSet(assignments, n, false) + rest;
    assert tokens[2..] == WriteSet(more, n + 1, true) + rest;
    assert ReadAssignment(tokens, args) == Some(assignments[0]);
    if more == [] {
      assert assignments == [assignments[0]];
      assert WriteSet(more, n + 1, true) + rest == rest;
      assert tokens[2] == rest[0];
    } else {
      forall i | 0 <= i < |more| ensures more[i] == assignments[i + 1] && args[n + i] == more[i].value {
        assert args[n - 1 + (i + 1)] == assignments[i + 1].value;
      }
      ReadWrittenSet(more, n + 1, args, rest);
      assert WriteSet(more, n + 1, true) == [Text(Comma)] + WriteSet(more, n + 1, false);
      assert tokens[3..] == WriteSet(more, n + 1, false) + rest;
      assert assignments == [assignments[0]] + more;
    }
  }

  /** Pushing one more assignment, with its separator if one was pushed before. */
  lemma {:induction false} WriteSetAppend(assignments: seq<Assignment>, a: Assignment, n: nat, follows: bool)
    ensures WriteSet(assignments + [a], n, follows) ==
            WriteSet(assignments, n, follows) + (if follows || assignments != [] then [Text(Comma)] else [])
            + [Text(Assign(a.field)), Placeholder(n + |assignments|)]
  {
    if assignments == [] {
      assert assignments + [a] == [a] && [a][1..] == [];
    } else {
      WriteSetAppend(assignments[1..], a, n + 1, true);
      assert (assignments + [a])[0] == assignments[0] && (assignments + [a])[1..] == assignments[1..] + [a];
    }
  }

  function Position(field: Field): nat {
    match field
    case AvatarId => 0 case FirstName => 1 case LastName => 2 case Email => 3
    case DepartmentId => 4 case StatusColumn => 5 case Password => 6
  }

  /** Well-typed assignments to ascending columns, all from position lo up to hi. */
  ghost predicate Ascending(assignments: seq<Assignment>, lo: nat, hi: nat) {
    && (forall a | a in assignments :: a.WellTyped() && !a.value.UuidValue? && lo <= Position(a.field) < hi)
    && forall i, j | 0 <= i < j < |assignments| :: Position(assignments[i].field) < Position(assignments[j].field)
  }

  lemma {:induction false} AscendingConcat(a: seq<Assignment>, b: seq<Assignment>, lo: nat, mid: nat, hi: nat)
    requires lo <= mid <= hi && Ascending(a, lo, mid) && Ascending(b, mid, hi)
    ensures Ascending(a + b, lo, hi)
  {
    forall i, j | 0 <= i < j < |a + b| ensures Position((a + b)[i].field) < Position((a + b)[j].field) {
      assert i < |a| ==> a[i] in a;
      assert j >= |a| ==> b[j - |a|] in b;
    }
  }

  lemma {:induction false} ProfileIsAscending(fields: UpdateUser)
    ensures Ascending(ProfileAssignments(fields), 0, 3)
  {
    var a, b := TextAssignment(AvatarId, fields.avatarId), TextAssignment(FirstName, fields.firstName);
    AscendingConcat(a, b, 0, 1, 2);
    AscendingConcat(a + b, TextAssignment(LastName, fields.lastName), 0, 2, 3);
  }

  lemma {:induction false} AccountIsAscending(fields: UpdateUser)
    ensures Ascending(AccountAssignments(fields), 3, 7)
  {
    var a, b := TextAssignment(Email, fields.email), IntAssignment(DepartmentId, fields.departmentId);
    var c := IntAssignment(StatusColumn, if fields.status.Some? then StatusId(fields.status.value) else None);
    assert Ascending(a, 3, 4) && Ascending(b, 4, 5);
    AscendingConcat(a, b, 3, 4, 5);
    assert Ascending(c, 5, 6);
    AscendingConcat(a + b, c, 3, 5, 6);
    AscendingConcat(a + b + c, TextAssignment(Password, fields.password), 3, 6, 7);
  }

  lemma {:induction false} ReadBack(assignments: seq<Assignment>, id: Uuid)
    requires assignments != [] && DistinctFields(assignments)
    requires forall i | 0 <= i < |assignments| :: assignments[i].WellTyped() && !assignments[i].value.UuidValue?
    ensures ReadUpdate(UpdateTokens(assignments), UpdateArgs(assignments, id)) == Some(Update(assignments, id))
  {
    var rest := [Text(WhereIdIs), Placeholder(|assignments| + 1)];
    var args := UpdateArgs(assignments, id);
    ReadWrittenSet(assignments, 1, args, rest);
    assert UpdateTokens(assignments)[1..] == WriteSet(assignments, 1, false) + rest;
    assert args[|assignments|] == UuidValue(id);
  }

  /** For every patch that changes some column, the generated statement is well formed, and it reads back
      as exactly the present fields, on exactly that user. */
  lemma {:induction false} UpdateStatementMeans(fields: UpdateUser, id: Uuid)
    requires fields.KnownStatus() && !fields.HasNoColumnChanges()
    ensures ReadUpdate(UpdateTokens(Assignments(fields)), UpdateArgs(Assignments(fields), id))
            == Some(Update(Assignments(fields), id))
  {
    var assignments := Assignments(fields);
    ProfileIsAscending(fields);
    AccountIsAscending(fields);
    AscendingConcat(ProfileAssignments(fields), AccountAssignments(fields), 0, 3, 7);
    forall i | 0 <= i < |assignments|
      ensures assignments[i].WellTyped() && !assignments[i].value.UuidValue?
    {
      assert assignments[i] in assignments;
    }
    ReadBack(assignments, id);
  }

  // What a statement does to the row.

  function Apply(row: UserRow, a: Assignment): UserRow {
    match (a.field, a.value)
    case (AvatarId, TextValue(s)) => row.(avatarId := s)
    case (FirstName, TextValue(s)) => row.(firstName := s)
    case (LastName, TextValue(s)) => row.(lastName := s)
    case (Email, TextValue(s)) => row.(email := s)
    case (DepartmentId, IntValue(i)) => row.(departmentId := i)
    case (StatusColumn, IntValue(i)) => row.(statusId := i)
    case (Password, TextValue(s)) => row.(password := s)
    case _ => row
  }

  function ApplyAll(row: UserRow, assignments: seq<Assignment>): UserRow
    decreases |assignments|
  {
    if assignments == [] then row else ApplyAll(Apply(row, assignments[0]), assignments[1..])
  }

  lemma {:induction false} ApplyConcat(row: UserRow, a: seq<Assignment>, b: seq<Assignment>)
    ensures ApplyAll(row, a + b) == ApplyAll(ApplyAll(row, a), b)
    decreases |a|
  {
    if a == [] {
      assert a + b == b;
    } else {
      assert (a + b)[0] == a[0] && (a + b)[1..] == a[1..] + b;
      ApplyConcat(Apply(row, a[0]), a[1..], b);
    }
  }

  lemma {:induction false} ApplyText(row: UserRow, field: Field, value: Option<string>)
    ensures ApplyAll(row, TextAssignment(field, value)) ==
            if value.Some? then Apply(row, Assignment(field, TextValue(value.value))) else row
  {
    if value.Some? {
      assert TextAssignment(field, value)[1..] == [];
    }
  }

  lemma {:induction false} ApplyInt(row: UserRow, field: Field, value: Option<int>)
    ensures ApplyAll(row, IntAssignment(field, value)) ==
            if value.Some? then Apply(row, Assignment(field, IntValue(value.value))) else row
  {
    if value.Some? {
      assert IntAssignment(field, value)[1..] == [];
    }
  }

  lemma {:induction false} ProfilePatch(row: UserRow, fields: UpdateUser)
    ensures ApplyAll(row, ProfileAssignments(fields)) ==
            row.(avatarId := OrElse(fields.avatarId, row.avatarId),
                 firstName := OrElse(fields.firstName, row.firstName),
                 lastName := OrElse(fields.lastName, row.lastName))
  {
    var a, b := TextAssignment(AvatarId, fields.avatarId), TextAssignment(FirstName, fields.firstName);
    var c := TextAssignment(LastName, fields.lastName);
    ApplyConcat(row, a + b, c);
    ApplyConcat(row, a, b);
    ApplyText(row, AvatarId, fields.avatarId);
    ApplyText(ApplyAll(row, a), FirstName, fields.firstName);
    ApplyText(ApplyAll(row, a + b), LastName, fields.lastName);
  }

  lemma {:induction false} AccountPatch(row: UserRow, fields: UpdateUser)
    requires fields.KnownStatus()
    ensures ApplyAll(row, AccountAssignments(fields)) ==
            row.(email := OrElse(fields.email, row.email),
                 departmentId := OrElse(fields.departmentId, row.departmentId),
                 statusId := if fields.status.Some? then StatusId(fields.status.value).value else row.statusId,
                 password := OrElse(fields.password, row.password))
  {
    var a, b := TextAssignment(Email, fields.email), IntAssignment(DepartmentId, fields.departmentId);
    var status := if fields.status.Some? then StatusId(fields.status.value) else None;
    var c, d := IntAssignment(StatusColumn, status), TextAssignment(Password, fields.password);
    ApplyConcat(row, a + b + c, d);
    ApplyConcat(row, a + b, c);
    ApplyConcat(row, a, b);
    ApplyText(row, Email, fields.email);
    ApplyInt(ApplyAll(row, a), DepartmentId, fields.departmentId);
    ApplyInt(ApplyAll(row, a + b), StatusColumn, status);
    ApplyText(ApplyAll(row, a + b + c), Password, fields.password);
  }

  /** Executing the assignments is the record update. */
  lemma {:induction false} AssignmentsPatch(row: UserRow, fields: UpdateUser)
    requires fields.KnownStatus()
    ensures ApplyAll(row, Assignments(fields)) == Patched(row, fields)
  {
    ApplyConcat(row, ProfileAssignments(fields), AccountAssignments(fields));
    ProfilePatch(row, fields);
    AccountPatch(ApplyAll(row, ProfileAssignments(fields)), fields);
  }
}
