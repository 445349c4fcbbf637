/** The string of a patch's UPDATE: it shows which fields are present, and no value. */
module UpdateTexts {
  import opened Wrappers
  import opened Numbers
  import opened IamTables
  import opened QueryBuilders
  import opened UserUpdates

  function UpdateText(fields: UpdateUser): string {
    Render(UpdateTokens(Assignments(fields)), SqlText)
  }

  predicate Present(fields: UpdateUser, field: Field) {
    match field
    case AvatarId => fields.avatarId.Some?
    case FirstName => fields.firstName.Some?
    case LastName => fields.lastName.Some?
    case Email => fields.email.Some?
    case DepartmentId => fields.departmentId.Some?
    case StatusColumn => fields.status.Some?
    case Password => fields.password.Some?
  }

  function If(condition: bool, field: Field): seq<Field> {
    if condition then [field] else []
  }

  function ListedProfile(fields: UpdateUser): seq<Field> {
    If(Present(fields, AvatarId), AvatarId) + If(Present(fields, FirstName), FirstName)
    + If(Present(fields, LastName), LastName)
  }

  function ListedAccount(fields: UpdateUser): seq<Field> {
    If(Present(fields, Email), Email) + If(Present(fields, DepartmentId), DepartmentId)
    + If(Present(fields, StatusColumn), StatusColumn) + If(Present(fields, Password), Password)
  }

  /** The present fields, in the order of the statement. */
  function Listed(fields: UpdateUser): seq<Field> {
    ListedProfile(fields) + ListedAccount(fields)
  }

  lemma {:induction false} ProfileIsPresent(fields: UpdateUser, field: Field)
    ensures field in ListedProfile(fields)
            <==> Present(fields, field) && (field.AvatarId? || field.FirstName? || field.LastName?)
  {
  }

  lemma {:induction false} AccountIsPresent(fields: UpdateUser, field: Field)
    ensures field in ListedAccount(fields)
            <==> Present(fields, field) && !(field.AvatarId? || field.FirstName? || field.LastName?)
  {
    var two := If(Present(fields, Email), Email) + If(Present(fields, DepartmentId), DepartmentId);
    assert field in two <==> Present(fields, field) && (field.Email? || field.DepartmentId?);
    var three := two + If(Present(fields, StatusColumn), StatusColumn);
    assert field in three <==> field in two || (Present(fields, field) && field.StatusColumn?);
  }

  lemma {:induction false} ListedIsPresent(fields: UpdateUser, field: Field)
    ensures field in Listed(fields) <==> Present(fields, field)
  {
    ProfileIsPresent(fields, field);
    AccountIsPresent(fields, field);
  }

  function Columns(assignments: seq<Assignment>): seq<Field> {
    seq(|assignments|, i requires 0 <= i < |assignments| => assignments[i].field)
  }

  lemma {:induction false} ColumnsConcat(a: seq<Assignment>, b: seq<Assignment>)
    ensures Columns(a + b) == Columns(a) + Columns(b)
  {
  }

  lemma {:induction false} ProfileColumns(fields: UpdateUser)
    ensures Columns(ProfileAssignments(fields)) == ListedProfile(fields)
  {
    var a, b := TextAssignment(AvatarId, fields.avatarId), TextAssignment(FirstName, fields.firstName);
    ColumnsConcat(a, b);
    ColumnsConcat(a + b, TextAssignment(LastName, fields.lastName));
  }

  lemma {:induction false} AccountColumns(fields: UpdateUser)
    requires fields.KnownStatus()
    ensures Columns(AccountAssignments(fields)) == ListedAccount(fields)
  {
    var a, b := TextAssignment(Email, fields.email), IntAssignment(DepartmentId, fields.departmentId);
    var c := IntAssignment(StatusColumn, if fields.status.Some? then StatusId(fields.status.value) else None);
    ColumnsConcat(a, b);
    ColumnsConcat(a + b, c);
    ColumnsConcat(a + b + c, TextAssignment(Password, fields.password));
  }

  lemma {:induction false} ColumnsAreListed(fields: UpdateUser)
    requires fields.KnownStatus()
    ensures Columns(Assignments(fields)) == Listed(fields) && |Assignments(fields)| == |Listed(fields)|
  {
    ProfileColumns(fields);
    AccountColumns(fields);
    ColumnsConcat(ProfileAssignments(fields), AccountAssignments(fields));
    assert |Columns(Assignments(fields))| == |Assignments(fields)|;
  }

  // The text, for any wording of the fragments.

  type Wording = Sql -> string

  function Piece(column: Field, n: nat, wording: Wording): string {
    wording(Assign(column)) + ("$" + Decimal(n))
  }

  /** The columns after the first. */
  function Pieces(columns: seq<Field>, n: nat, wording: Wording): string {
    if columns == [] then ""
    else wording(Comma) + (Piece(columns[0], n, wording) + Pieces(columns[1..], n + 1, wording))
  }

  function End(n: nat, wording: Wording): string {
    wording(WhereIdIs) + ("$" + Decimal(n))
  }

  lemma {:induction false} WrittenPieces(assignments: seq<Assignment>, n: nat, wording: Wording)
    ensures Render(WriteSet(assignments, n, true), wording) == Pieces(Columns(assignments), n, wording)
  {
    if assignments != [] {
      var a, rest := assignments[0], assignments[1..];
      WrittenPieces(rest, n + 1, wording);
      assert Columns(assignments)[1..] == Columns(rest);
      var piece := [Text(Assign(a.field)), Placeholder(n)];
      RenderConcat([Text(Comma)] + piece, WriteSet(rest, n + 1, true), wording);
      RenderCons(Text(Comma), piece, wording);
      RenderTwo(Text(Assign(a.field)), Placeholder(n), wording);
      Associate(wording(Comma), Piece(a.field, n, wording), Pieces(Columns(rest), n + 1, wording));
    }
  }

  lemma {:induction false} RenderedUpdate(assignments: seq<Assignment>, wording: Wording)
    requires assignments != []
    ensures Render(UpdateTokens(assignments), wording) ==
            wording(UpdateUsersSet)
            + (Piece(assignments[0].field, 1, wording)
               + (Pieces(Columns(assignments)[1..], 2, wording) + End(|assignments| + 1, wording)))
  {
    var first, more := [Text(Assign(assignments[0].field)), Placeholder(1)], WriteSet(assignments[1..], 2, true);
    var end := [Text(WhereIdIs), Placeholder(|assignments| + 1)];
    RenderTwo(first[0], first[1], wording);
    RenderTwo(end[0], end[1], wording);
    WrittenPieces(assignments[1..], 2, wording);
    assert Columns(assignments)[1..] == Columns(assignments[1..]);
    assert WriteSet(assignments, 1, false) == first + more;
    Associate(first, more, end);
    Associate([Text(UpdateUsersSet)], first + more, end);
    RenderCons(Text(UpdateUsersSet), first + (more + end), wording);
    RenderConcat(first, more + end, wording);
    RenderConcat(more, end, wording);
  }

  /** The first letters of the columns are all different, and only a comma continues the list. */
  function Initial(field: Field): char {
    match field
    case AvatarId => 'a'
    case FirstName => 'f'
    case LastName => 'l'
    case Email => 'e'
    case DepartmentId => 'd'
    case StatusColumn => 's'
    case Password => 'p'
  }

  predicate StartsWith(text: string, c: char) {
    text != [] && text[0] == c
  }

  ghost predicate TellsApart(wording: Wording) {
    && (forall field :: StartsWith(wording(Assign(field)), Initial(field)))
    && StartsWith(wording(Comma), ',') && StartsWith(wording(WhereIdIs), ' ')
  }

  lemma {:induction false} FirstPieceDetermines(a: Field, b: Field, n: nat, restA: string, restB: string,
      wording: Wording)
    requires TellsApart(wording) && Piece(a, n, wording) + restA == Piece(b, n, wording) + restB
    ensures a == b && restA == restB
  {
    assert StartsWith(wording(Assign(a)), Initial(a)) && StartsWith(wording(Assign(b)), Initial(b));
    assert (Piece(a, n, wording) + restA)[0] == Initial(a) && (Piece(b, n, wording) + restB)[0] == Initial(b);
    CutPrefix(Piece(a, n, wording), restA, restB);
  }

  lemma {:induction false} PiecesStart(columns: seq<Field>, n: nat, tail: string, wording: Wording)
    requires TellsApart(wording) && columns != []
    ensures StartsWith(Pieces(columns, n, wording) + tail, ',')
  {
  }

  lemma {:induction false} PiecesDetermine(a: seq<Field>, b: seq<Field>, n: nat, tailA: string, tailB: string,
                                           wording: Wording)
    requires TellsApart(wording) && Pieces(a, n, wording) + tailA == Pieces(b, n, wording) + tailB
    requires StartsWith(tailA, ' ') && StartsWith(tailB, ' ')
    ensures a == b
    decreases |a|
  {
    if a == [] || b == [] {
      assert "" + tailA == tailA && "" + tailB == tailB;
      if a != [] { PiecesStart(a, n, tailA, wording); }
      if b != [] { PiecesStart(b, n, tailB, wording); }
    } else {
      var pieceA, moreA := Piece(a[0], n, wording), Pieces(a[1..], n + 1, wording);
      var pieceB, moreB := Piece(b[0], n, wording), Pieces(b[1..], n + 1, wording);
      Unfold(wording(Comma), pieceA, moreA, tailA);
      Unfold(wording(Comma), pieceB, moreB, tailB);
      CutPrefix(wording(Comma), pieceA + (moreA + tailA), pieceB + (moreB + tailB));
      FirstPieceDetermines(a[0], b[0], n, moreA + tailA, moreB + tailB, wording);
      PiecesDetermine(a[1..], b[1..], n + 1, tailA, tailB, wording);
      assert a == [a[0]] + a[1..] && b == [b[0]] + b[1..];
    }
  }

  lemma {:induction false} SameUpdateText(a: seq<Assignment>, b: seq<Assignment>, wording: Wording)
    requires TellsApart(wording) && a != [] && b != []
    requires Render(UpdateTokens(a), wording) == Render(UpdateTokens(b), wording)
    ensures Columns(a) == Columns(b)
  {
    RenderedUpdate(a, wording);
    RenderedUpdate(b, wording);
    var endA, endB := End(|a| + 1, wording), End(|b| + 1, wording);
    var moreA, moreB := Columns(a)[1..], Columns(b)[1..];
    var restA, restB := Pieces(moreA, 2, wording) + endA, Pieces(moreB, 2, wording) + endB;
    CutPrefix(wording(UpdateUsersSet), Piece(a[0].field, 1, wording) + restA, Piece(b[0].field, 1, wording) + restB);
    FirstPieceDetermines(a[0].field, b[0].field, 1, restA, restB, wording);
    PiecesDetermine(moreA, moreB, 2, endA, endB, wording);
    assert Columns(a) == [a[0].field] + moreA && Columns(b) == [b[0].field] + moreB;
  }

  lemma {:induction false} SameColumnsSameTokens(a: seq<Assignment>, b: seq<Assignment>, n: nat, follows: bool)
    requires Columns(a) == Columns(b)
    ensures WriteSet(a, n, follows) == WriteSet(b, n, follows) && |a| == |b|
  {
    assert |a| == |Columns(a)| == |Columns(b)| == |b|;
    if a != [] {
      assert a[0].field == Columns(a)[0] == Columns(b)[0] == b[0].field;
      assert Columns(a[1..]) == Columns(a)[1..] == Columns(b[1..]);
      SameColumnsSameTokens(a[1..], b[1..], n + 1, true);
    }
  }

  lemma {:induction false} WordingTellsApart()
    ensures TellsApart(SqlText)
  {
  }

  lemma {:induction false} SamePresenceSameList(a: UpdateUser, b: UpdateUser)
    requires forall field :: Present(a, field) <==> Present(b, field)
    ensures Listed(a) == Listed(b)
  {
    assert Present(a, AvatarId) == Present(b, AvatarId) && Present(a, FirstName) == Present(b, FirstName);
    assert Present(a, LastName) == Present(b, LastName) && Present(a, Email) == Present(b, Email);
    assert Present(a, DepartmentId) == Present(b, DepartmentId);
    assert Present(a, StatusColumn) == Present(b, StatusColumn) && Present(a, Password) == Present(b, Password);
  }

  lemma {:induction false} SomeAssignment(fields: UpdateUser)
    requires fields.KnownStatus() && !fields.HasNoColumnChanges()
    ensures Assignments(fields) != []
  {
    var field :| Present(fields, field);
    ListedIsPresent(fields, field);
    ColumnsAreListed(fields);
  }

  /** Two patches get the same string if and only if the same fields are present in both. */
  lemma {:induction false} UpdateTextIff(a: UpdateUser, b: UpdateUser)
    requires a.KnownStatus() && !a.HasNoColumnChanges() && b.KnownStatus() && !b.HasNoColumnChanges()
    ensures UpdateText(a) == UpdateText(b) <==> forall field :: Present(a, field) <==> Present(b, field)
  {
    ColumnsAreListed(a);
    ColumnsAreListed(b);
    if UpdateText(a) == UpdateText(b) {
      SomeAssignment(a);
      SomeAssignment(b);
      WordingTellsApart();
      SameUpdateText(Assignments(a), Assignments(b), SqlText);
      forall field ensures Present(a, field) <==> Present(b, field) {
        ListedIsPresent(a, field);
        ListedIsPresent(b, field);
      }
    }
    if forall field :: Present(a, field) <==> Present(b, field) {
      SamePresenceSameList(a, b);
      SameColumnsSameTokens(Assignments(a), Assignments(b), 1, false);
    }
  }

  // The string itself, by the column names of the schema.

  function Column(field: Field): string {
    match field
    case AvatarId => "avatar_id"
    case FirstName => "first_name"
    case LastName => "last_name"
    case Email => "email"
    case DepartmentId => "department_id"
    case StatusColumn => "status_id"
    case Password => "password"
  }

  function Dollar(n: nat): string {
    "$" + Decimal(n)
  }

  function Setting(field: Field, n: nat): string {
    Column(field) + " = " + Dollar(n)
  }

  function MoreSettings(columns: seq<Field>, n: nat): string {
    if columns == [] then "" else ", " + (Setting(columns[0], n) + MoreSettings(columns[1..], n + 1))
  }

  /** Sets these columns to the values bound as 1, 2 and so on, on the user whose id is bound after them. */
  function UpdateSql(columns: seq<Field>): string
    requires columns != []
  {
    "UPDATE iam.users SET "
    + (Setting(columns[0], 1) + (MoreSettings(columns[1..], 2) + (" WHERE id = " + Dollar(|columns| + 1))))
  }

  lemma {:induction false} AssignText(field: Field)
    ensures SqlText(Assign(field)) == Column(field) + " = "
  {
    match field {
      case AvatarId => assert SqlText(Assign(AvatarId)) == "avatar_id" + " = ";
      case FirstName => assert SqlText(Assign(FirstName)) == "first_name" + " = ";
      case LastName => assert SqlText(Assign(LastName)) == "last_name" + " = ";
      case Email => assert SqlText(Assign(Email)) == "email" + " = ";
      case DepartmentId => assert SqlText(Assign(DepartmentId)) == "department_id" + " = ";
      case StatusColumn => assert SqlText(Assign(StatusColumn)) == "status_id" + " = ";
      case Password => assert SqlText(Assign(Password)) == "password" + " = ";
    }
  }

  lemma {:induction false} PieceIsSetting(field: Field, n: nat)
    ensures Piece(field, n, SqlText) == Setting(field, n)
  {
    AssignText(field);
  }

  lemma {:induction false} PiecesAreSettings(columns: seq<Field>, n: nat)
    ensures Pieces(columns, n, SqlText) == MoreSettings(columns, n)
  {
    if columns != [] {
      PiecesAreSettings(columns[1..], n + 1);
      PieceIsSetting(columns[0], n);
    }
  }

  /** The UPDATE string of every patch. */
  lemma {:induction false} UpdateTextIs(fields: UpdateUser)
    requires fields.KnownStatus() && !fields.HasNoColumnChanges()
    ensures Listed(fields) != [] && UpdateText(fields) == UpdateSql(Listed(fields))
  {
    SomeAssignment(fields);
    ColumnsAreListed(fields);
    RenderedUpdate(Assignments(fields), SqlText);
    PieceIsSetting(Listed(fields)[0], 1);
    PiecesAreSettings(Listed(fields)[1..], 2);
  }
}
