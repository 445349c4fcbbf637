/** The strings of the listing statements: what of a request they show, and that they show nothing else. */
module ListingTexts {
  import opened Numbers
  import opened Pagination
  import opened QueryBuilders
  import opened UserQueries

  function CountText(r: Request): string {
    Render(CountTokens(Conditions(r)), SqlText)
  }

  function SelectText(r: Request): string {
    Render(SelectTokens(Conditions(r), SortColumn(r.sortBy), SortOrder(r.order)), SqlText)
  }

  /** Which of the four filters a request asks for in a way that is recognised. */
  datatype Filters = Filters(status: bool, department: bool, role: bool, firstName: bool)

  function Recognised(r: Request): Filters {
    Filters("status" in r.filters && (r.filters["status"] == "Active" || r.filters["status"] == "Deleted"),
            "department_id" in r.filters && ParseInt(r.filters["department_id"], -2_147_483_648, 2_147_483_647).Some?,
            "role" in r.filters && r.filters["role"] != "",
            "first_name" in r.filters && r.filters["first_name"] != "")
  }

  datatype Kind = ByStatus | ByDepartment | ByRole | ByFirstName

  function KindOf(c: Condition): Kind {
    match c
    case StatusIs(_) => ByStatus
    case DepartmentIs(_) => ByDepartment
    case HasRole(_) => ByRole
    case FirstNameLike(_) => ByFirstName
  }

  function Kinds(conditions: seq<Condition>): seq<Kind> {
    seq(|conditions|, i requires 0 <= i < |conditions| => KindOf(conditions[i]))
  }

  function Listed(f: Filters): seq<Kind> {
    (if f.status then [ByStatus] else []) + (if f.department then [ByDepartment] else [])
    + (if f.role then [ByRole] else []) + (if f.firstName then [ByFirstName] else [])
  }

  lemma {:induction false} KindsConcat(a: seq<Condition>, b: seq<Condition>)
    ensures Kinds(a + b) == Kinds(a) + Kinds(b)
  {
  }

  lemma {:induction false} KindsAreListed(r: Request)
    ensures Kinds(Conditions(r)) == Listed(Recognised(r))
  {
    var f := Recognised(r);
    assert Kinds(StatusConditions(r)) == if f.status then [ByStatus] else [];
    assert Kinds(DepartmentConditions(r)) == if f.department then [ByDepartment] else [];
    assert Kinds(RoleConditions(r)) == if f.role then [ByRole] else [];
    assert Kinds(FirstNameConditions(r)) == if f.firstName then [ByFirstName] else [];
    KindsConcat(StatusConditions(r), DepartmentConditions(r));
    KindsConcat(StatusConditions(r) + DepartmentConditions(r), RoleConditions(r));
    KindsConcat(StatusConditions(r) + DepartmentConditions(r) + RoleConditions(r), FirstNameConditions(r));
  }

  lemma {:induction false} ListedHolds(f: Filters)
    ensures (ByStatus in Listed(f) <==> f.status) && (ByDepartment in Listed(f) <==> f.department)
    ensures (ByRole in Listed(f) <==> f.role) && (ByFirstName in Listed(f) <==> f.firstName)
  {
  }

  lemma {:induction false} ListedIsInjective(f: Filters, g: Filters)
    requires Listed(f) == Listed(g)
    ensures f == g
  {
    ListedHolds(f);
    ListedHolds(g);
  }

  // The text, for any wording of the fragments.

  type Wording = Sql -> string

  function HeadOf(kind: Kind): Sql {
    match kind
    case ByStatus => AndStatusIs
    case ByDepartment => AndDepartmentIs
    case ByRole => AndHasRole
    case ByFirstName => AndFirstNameILike
  }

  function Close(kind: Kind, wording: Wording): string {
    if kind.ByRole? then wording(CloseHasRole) else ""
  }

  function Number(kind: Kind, n: nat, wording: Wording): string {
    "$" + Decimal(n) + Close(kind, wording)
  }

  function Pieces(kinds: seq<Kind>, n: nat, wording: Wording): string {
    if kinds == [] then ""
    else wording(HeadOf(kinds[0])) + (Number(kinds[0], n, wording) + Pieces(kinds[1..], n + 1, wording))
  }

  lemma {:induction false} WrittenPiece(c: Condition, n: nat, wording: Wording)
    ensures Render(Write(c, n), wording) == wording(HeadOf(KindOf(c))) + Number(KindOf(c), n, wording)
  {
    var head := Text(HeadOf(KindOf(c)));
    RenderTwo(head, Placeholder(n), wording);
    if c.HasRole? {
      assert Write(c, n) == [head, Placeholder(n)] + [Text(CloseHasRole)];
      RenderConcat([head, Placeholder(n)], [Text(CloseHasRole)], wording);
      RenderOne(Text(CloseHasRole), wording);
      Associate(wording(AndHasRole), "$" + Decimal(n), wording(CloseHasRole));
    } else {
      assert "$" + Decimal(n) + "" == "$" + Decimal(n);
    }
  }

  lemma {:induction false} WrittenPieces(conditions: seq<Condition>, n: nat, wording: Wording)
    ensures Render(WriteAll(conditions, n), wording) == Pieces(Kinds(conditions), n, wording)
  {
    if conditions != [] {
      var c, rest := conditions[0], conditions[1..];
      WrittenPieces(rest, n + 1, wording);
      assert Kinds(conditions)[1..] == Kinds(rest);
      RenderConcat(Write(c, n), WriteAll(rest, n + 1), wording);
      WrittenPiece(c, n, wording);
      Associate(wording(HeadOf(KindOf(c))), Number(KindOf(c), n, wording), Pieces(Kinds(rest), n + 1, wording));
    }
  }

  /** The characters by which the four fragments can be told apart, whatever follows them. */
  function Letters(kind: Kind): (char, char, char) {
    match kind
    case ByStatus => ('u', 's', '.')
    case ByDepartment => ('u', '.', 'd')
    case ByRole => ('E', 'X', 'I')
    case ByFirstName => ('u', '.', 'f')
  }

  predicate Lettered(head: string, letters: (char, char, char)) {
    |head| >= 8 && head[1] == 'A' && letters == (head[5], head[6], head[7])
  }

  ghost predicate TellsApart(wording: Wording) {
    && (forall kind :: Lettered(wording(HeadOf(kind)), Letters(kind)))
    && (forall column, direction ::
          |wording(OrderBy(column, direction))| >= 2 && wording(OrderBy(column, direction))[1] != 'A')
    && forall c, d, c', d', rest, rest' ::
         wording(OrderBy(c, d)) + rest == wording(OrderBy(c', d')) + rest' ==> c == c' && d == d'
  }

  // The text determines the kinds and the sort.

  lemma {:induction false} HeadsDiffer(a: Kind, b: Kind, restA: string, restB: string, wording: Wording)
    requires TellsApart(wording) && wording(HeadOf(a)) + restA == wording(HeadOf(b)) + restB
    ensures a == b
  {
    var headA, headB := wording(HeadOf(a)), wording(HeadOf(b));
    assert Lettered(headA, Letters(a)) && Lettered(headB, Letters(b));
    assert Lettered(headA + restA, Letters(a)) && Lettered(headB + restB, Letters(b));
  }

  /** Text that cannot be taken for one more condition. */
  predicate Outside(text: string) {
    |text| < 2 || text[1] != 'A'
  }

  lemma {:induction false} PiecesStart(kinds: seq<Kind>, n: nat, tail: string, wording: Wording)
    requires TellsApart(wording) && kinds != []
    ensures !Outside(Pieces(kinds, n, wording) + tail)
  {
    assert Lettered(wording(HeadOf(kinds[0])), Letters(kinds[0]));
  }

  lemma {:induction false} PiecesDetermine(a: seq<Kind>, b: seq<Kind>, n: nat, tailA: string, tailB: string,
                                           wording: Wording)
    requires TellsApart(wording) && Pieces(a, n, wording) + tailA == Pieces(b, n, wording) + tailB
    requires Outside(tailA) && Outside(tailB)
    ensures a == b && tailA == tailB
    decreases |a|
  {
    if a == [] || b == [] {
      assert "" + tailA == tailA && "" + tailB == tailB;
      if a != [] { PiecesStart(a, n, tailA, wording); }
      if b != [] { PiecesStart(b, n, tailB, wording); }
    } else {
      var headA, numberA, moreA := wording(HeadOf(a[0])), Number(a[0], n, wording), Pieces(a[1..], n + 1, wording);
      var headB, numberB, moreB := wording(HeadOf(b[0])), Number(b[0], n, wording), Pieces(b[1..], n + 1, wording);
      Unfold(headA, numberA, moreA, tailA);
      Unfold(headB, numberB, moreB, tailB);
      HeadsDiffer(a[0], b[0], numberA + (moreA + tailA), numberB + (moreB + tailB), wording);
      CutPrefix(headA, numberA + (moreA + tailA), numberB + (moreB + tailB));
      CutPrefix(numberA, moreA + tailA, moreB + tailB);
      PiecesDetermine(a[1..], b[1..], n + 1, tailA, tailB, wording);
      assert a == [a[0]] + a[1..] && b == [b[0]] + b[1..];
    }
  }

  /** Limit and offset, with their placeholders. */
  function PageTokens(n: nat): Tokens {
    [Text(Limit), Placeholder(n + 1), Text(Offset), Placeholder(n + 2)]
  }

  function TailText(n: nat, column: Column, direction: Direction, wording: Wording): string {
    wording(OrderBy(column, direction)) + Render(PageTokens(n), wording)
  }

  lemma {:induction false} RenderedTail(n: nat, column: Column, direction: Direction, wording: Wording)
    ensures Render(SelectTail(n, column, direction), wording) == TailText(n, column, direction, wording)
  {
    assert SelectTail(n, column, direction) == [Text(OrderBy(column, direction))] + PageTokens(n);
    RenderConcat([Text(OrderBy(column, direction))], PageTokens(n), wording);
    RenderOne(Text(OrderBy(column, direction)), wording);
  }

  function Start(statement: Sql, wording: Wording): string {
    wording(statement) + wording(WhereTrue)
  }

  lemma {:induction false} RenderedCount(r: Request, wording: Wording)
    ensures Render(CountTokens(Conditions(r)), wording) ==
            Start(CountUser, wording) + (Pieces(Listed(Recognised(r)), 1, wording) + "")
  {
    RenderConcat([Text(CountUser), Text(WhereTrue)], WriteAll(Conditions(r), 1), wording);
    RenderTwo(Text(CountUser), Text(WhereTrue), wording);
    WrittenPieces(Conditions(r), 1, wording);
    KindsAreListed(r);
    var pieces := Pieces(Listed(Recognised(r)), 1, wording);
    assert pieces + "" == pieces;
  }

  function SelectTokensOf(r: Request): Tokens {
    SelectTokens(Conditions(r), SortColumn(r.sortBy), SortOrder(r.order))
  }

  lemma {:induction false} RenderedSelect(r: Request, wording: Wording)
    ensures Render(SelectTokensOf(r), wording) ==
            Start(SelectUser, wording)
            + (Pieces(Listed(Recognised(r)), 1, wording)
               + TailText(|Listed(Recognised(r))|, SortColumn(r.sortBy), SortOrder(r.order), wording))
  {
    var conditions, column, direction := Conditions(r), SortColumn(r.sortBy), SortOrder(r.order);
    var start, written := [Text(SelectUser), Text(WhereTrue)], WriteAll(conditions, 1);
    var tail := SelectTail(|conditions|, column, direction);
    RenderConcat(start + written, tail, wording);
    RenderConcat(start, written, wording);
    RenderTwo(Text(SelectUser), Text(WhereTrue), wording);
    WrittenPieces(conditions, 1, wording);
    KindsAreListed(r);
    assert |Kinds(conditions)| == |conditions|;
    RenderedTail(|conditions|, column, direction, wording);
    Associate(Start(SelectUser, wording), Pieces(Kinds(conditions), 1, wording),
            TailText(|conditions|, column, direction, wording));
  }

  lemma {:induction false} SameCountText(r: Request, s: Request, wording: Wording)
    requires TellsApart(wording)
    requires Render(CountTokens(Conditions(r)), wording) == Render(CountTokens(Conditions(s)), wording)
    ensures Recognised(r) == Recognised(s)
  {
    RenderedCount(r, wording);
    RenderedCount(s, wording);
    var a, b := Listed(Recognised(r)), Listed(Recognised(s));
    CutPrefix(Start(CountUser, wording), Pieces(a, 1, wording) + "", Pieces(b, 1, wording) + "");
    PiecesDetermine(a, b, 1, "", "", wording);
    ListedIsInjective(Recognised(r), Recognised(s));
  }

  lemma {:induction false} SameSelectText(r: Request, s: Request, wording: Wording)
    requires TellsApart(wording) && Render(SelectTokensOf(r), wording) == Render(SelectTokensOf(s), wording)
    ensures Recognised(r) == Recognised(s)
    ensures SortColumn(r.sortBy) == SortColumn(s.sortBy) && SortOrder(r.order) == SortOrder(s.order)
  {
    RenderedSelect(r, wording);
    RenderedSelect(s, wording);
    var a, b := Listed(Recognised(r)), Listed(Recognised(s));
    var tailA := TailText(|a|, SortColumn(r.sortBy), SortOrder(r.order), wording);
    var tailB := TailText(|b|, SortColumn(s.sortBy), SortOrder(s.order), wording);
    CutPrefix(Start(SelectUser, wording), Pieces(a, 1, wording) + tailA, Pieces(b, 1, wording) + tailB);
    PiecesDetermine(a, b, 1, tailA, tailB, wording);
    ListedIsInjective(Recognised(r), Recognised(s));
  }

  lemma {:induction false} SameKindsSameTokens(a: seq<Condition>, b: seq<Condition>, n: nat)
    requires Kinds(a) == Kinds(b)
    ensures WriteAll(a, n) == WriteAll(b, n)
  {
    assert |a| == |Kinds(a)| == |Kinds(b)| == |b|;
    if a != [] {
      assert KindOf(a[0]) == Kinds(a)[0] == Kinds(b)[0] == KindOf(b[0]);
      assert Kinds(a[1..]) == Kinds(a)[1..] == Kinds(b[1..]);
      SameKindsSameTokens(a[1..], b[1..], n + 1);
    }
  }

  lemma {:induction false} SameFiltersSameTokens(r: Request, s: Request)
    requires Recognised(r) == Recognised(s)
    ensures |Conditions(r)| == |Conditions(s)| && WriteAll(Conditions(r), 1) == WriteAll(Conditions(s), 1)
  {
    KindsAreListed(r);
    KindsAreListed(s);
    assert |Kinds(Conditions(r))| == |Conditions(r)| && |Kinds(Conditions(s))| == |Conditions(s)|;
    SameKindsSameTokens(Conditions(r), Conditions(s), 1);
  }

  // The repository's own wording.

  lemma {:induction false} PrefixIsLettered(start: string, rest: string, letters: (char, char, char))
    requires Lettered(start, letters)
    ensures Lettered(start + rest, letters)
  {
  }

  lemma {:induction false} ClausesAreLettered()
    ensures Lettered(" AND us.id = ", Letters(ByStatus))
    ensures Lettered(" AND u.department_id = ", Letters(ByDepartment))
    ensures Lettered(" AND EXISTS", Letters(ByRole))
    ensures Lettered(" AND u.first_name ILIKE ", Letters(ByFirstName))
  {
  }

  lemma {:induction false} HeadLetters(kind: Kind)
    ensures Lettered(SqlText(HeadOf(kind)), Letters(kind))
  {
    ClausesAreLettered();
    if kind.ByRole? {
      PrefixIsLettered(" AND EXISTS",
                       " (SELECT 1 FROM iam.user_has_roles uhr INNER JOIN iam.roles r ON uhr.role_id = r.id"
                       + " WHERE uhr.user_id = u.id AND r.name = ", Letters(ByRole));
    }
  }

  lemma {:induction false} ColumnLetters(column: Column)
    ensures |ColumnText(column)| >= 3
    ensures ColumnText(column)[..3] ==
            match column
            case UserName => "u.u"
            case Email => "u.e"
            case FirstName => "u.f"
            case LastName => "u.l"
            case StatusName => "us."
            case DepartmentName => "d.n"
  {
  }

  lemma {:induction false} ColumnsDiffer(a: Column, b: Column, restA: string, restB: string)
    requires ColumnText(a) + restA == ColumnText(b) + restB
    ensures a == b
  {
    ColumnLetters(a);
    ColumnLetters(b);
    assert (ColumnText(a) + restA)[..3] == ColumnText(a)[..3] && (ColumnText(b) + restB)[..3] == ColumnText(b)[..3];
  }

  function Word(direction: Direction): string {
    if direction.Asc? then " asc" else " desc"
  }

  lemma {:induction false} OrderText(column: Column, direction: Direction, rest: string)
    ensures SqlText(OrderBy(column, direction)) + rest
            == " ORDER BY " + (ColumnText(column) + (Word(direction) + rest))
  {
  }

  lemma {:induction false} SortDetermined(c: Column, d: Direction, c': Column, d': Direction, rest: string,
      rest': string)
    requires SqlText(OrderBy(c, d)) + rest == SqlText(OrderBy(c', d')) + rest'
    ensures c == c' && d == d'
  {
    OrderText(c, d, rest);
    OrderText(c', d', rest');
    CutPrefix(" ORDER BY ", ColumnText(c) + (Word(d) + rest), ColumnText(c') + (Word(d') + rest'));
    ColumnsDiffer(c, c', Word(d) + rest, Word(d') + rest');
    CutPrefix(ColumnText(c), Word(d) + rest, Word(d') + rest');
    assert (Word(d) + rest)[1] == Word(d)[1] && (Word(d') + rest')[1] == Word(d')[1];
  }

  lemma {:induction false} WordingTellsApart()
    ensures TellsApart(SqlText)
  {
    forall kind ensures Lettered(SqlText(HeadOf(kind)), Letters(kind)) {
      HeadLetters(kind);
    }
    forall column, direction ensures var text := SqlText(OrderBy(column, direction)); |text| >= 2 && text[1] != 'A' {
      OrderText(column, direction, "");
      assert SqlText(OrderBy(column, direction)) + "" == SqlText(OrderBy(column, direction));
      assert " ORDER BY "[1] == 'O';
    }
    forall c, d, c', d', rest, rest' | SqlText(OrderBy(c, d)) + rest == SqlText(OrderBy(c', d')) + rest'
      ensures c == c' && d == d'
    {
      SortDetermined(c, d, c', d', rest, rest');
    }
  }

  /** Two requests get the same count string if and only if the same filters are recognised in both. */
  lemma {:induction false} CountTextIff(r: Request, s: Request)
    ensures CountText(r) == CountText(s) <==> Recognised(r) == Recognised(s)
  {
    if Recognised(r) == Recognised(s) {
      SameFiltersSameTokens(r, s);
    }
    if CountText(r) == CountText(s) {
      WordingTellsApart();
      SameCountText(r, s, SqlText);
    }
  }

  /** And the same select string if and only if, besides, they ask for the same sort: no value of a request,
      no page and no unrecognised key is ever in the text. */
  lemma {:induction false} SelectTextIff(r: Request, s: Request)
    ensures SelectText(r) == SelectText(s)
            <==> Recognised(r) == Recognised(s)
                 && SortColumn(r.sortBy) == SortColumn(s.sortBy) && SortOrder(r.order) == SortOrder(s.order)
  {
    if Recognised(r) == Recognised(s) {
      SameFiltersSameTokens(r, s);
    }
    if SelectText(r) == SelectText(s) {
      WordingTellsApart();
      SameSelectText(r, s, SqlText);
    }
  }

  // The strings themselves, by the names of the schema.

  function Dollar(n: nat): string {
    "$" + Decimal(n)
  }

  /** The text of a filter whose value is bound as number n. */
  function Clause(kind: Kind, n: nat): string {
    match kind
    case ByStatus => " AND us.id = " + Dollar(n)
    case ByDepartment => " AND u.department_id = " + Dollar(n)
    case ByRole =>
      (" AND EXISTS"
       + (" (SELECT 1 FROM iam.user_has_roles uhr INNER JOIN iam.roles r ON uhr.role_id = r.id"
          + " WHERE uhr.user_id = u.id AND r.name = "))
      + (Dollar(n) + ")")
    case ByFirstName => " AND u.first_name ILIKE " + Dollar(n)
  }

  function Clauses(kinds: seq<Kind>, n: nat): string {
    if kinds == [] then "" else Clause(kinds[0], n) + Clauses(kinds[1..], n + 1)
  }

  lemma {:induction false} PieceIsClause(kind: Kind, n: nat)
    ensures SqlText(HeadOf(kind)) + Number(kind, n, SqlText) == Clause(kind, n)
  {
    assert Dollar(n) + "" == Dollar(n);
  }

  lemma {:induction false} PiecesAreClauses(kinds: seq<Kind>, n: nat)
    ensures Pieces(kinds, n, SqlText) == Clauses(kinds, n)
  {
    if kinds != [] {
      PiecesAreClauses(kinds[1..], n + 1);
      PieceIsClause(kinds[0], n);
      Associate(SqlText(HeadOf(kinds[0])), Number(kinds[0], n, SqlText), Clauses(kinds[1..], n + 1));
    }
  }

  /** The rows of users with their status, department and company. */
  const FROM_USERS: string :=
    " FROM iam.users u INNER JOIN iam.user_statuses us ON u.status_id = us.id"
    + " INNER JOIN iam.departments d ON u.department_id = d.id"
    + " INNER JOIN iam.companies c ON d.company_id = c.id"

  /** The count of the users that pass these filters. */
  function CountSql(filters: Filters): string {
    "SELECT COUNT(*) AS total" + FROM_USERS + " WHERE TRUE" + Clauses(Listed(filters), 1)
  }

  /** The count string of every request. */
  lemma {:induction false} CountTextIs(r: Request)
    ensures CountText(r) == CountSql(Recognised(r))
  {
    RenderedCount(r, SqlText);
    PiecesAreClauses(Listed(Recognised(r)), 1);
    assert Clauses(Listed(Recognised(r)), 1) + "" == Clauses(Listed(Recognised(r)), 1);
  }

  /** The column that a sort_by names, by its own name. */
  function SortedBy(sortBy: string): string {
    if sortBy == "email" then "u.email"
    else if sortBy == "first_name" then "u.first_name"
    else if sortBy == "last_name" then "u.last_name"
    else if sortBy == "status" then "us.status"
    else if sortBy == "department" then "d.name"
    else "u.user_name"
  }

  /** Sort and page, after n bound values. */
  function SortAndPage(sortBy: string, order: string, n: nat): string {
    " ORDER BY " + SortedBy(sortBy) + (if order == "asc" then " asc" else " desc")
    + (" LIMIT " + Dollar(n + 1) + (" OFFSET " + Dollar(n + 2)))
  }

  lemma {:induction false} RenderedPage(n: nat)
    ensures Render(PageTokens(n), SqlText) == " LIMIT " + Dollar(n + 1) + (" OFFSET " + Dollar(n + 2))
  {
    var limit: Tokens, offset: Tokens :=
      [Text(Limit), Placeholder(n + 1)], [Text(UserQueries.Offset), Placeholder(n + 2)];
    assert PageTokens(n) == limit + offset;
    RenderConcat(limit, offset, SqlText);
    RenderTwo(limit[0], limit[1], SqlText);
    RenderTwo(offset[0], offset[1], SqlText);
  }

  lemma {:induction false} TailIsSortAndPage(r: Request, n: nat)
    ensures TailText(n, SortColumn(r.sortBy), SortOrder(r.order), SqlText) == SortAndPage(r.sortBy, r.order, n)
  {
    RenderedPage(n);
    assert ColumnText(SortColumn(r.sortBy)) == SortedBy(r.sortBy);
  }

  /** One page of the users that pass these filters. */
  function SelectSql(filters: Filters, sortBy: string, order: string): string {
    "SELECT u.id, u.user_name, u.avatar_id, u.email, u.password, u.first_name, u.last_name, us.id AS status_id,"
    + " us.status, d.id AS department_id, d.name AS department_name, c.id AS company_id, c.name AS company_name"
    + FROM_USERS + " WHERE TRUE"
    + (Clauses(Listed(filters), 1) + SortAndPage(sortBy, order, |Listed(filters)|))
  }

  lemma {:induction false} SelectStart()
    ensures Start(SelectUser, SqlText) ==
            "SELECT u.id, u.user_name, u.avatar_id, u.email, u.password, u.first_name, u.last_name, us.id AS status_id,"
            + " us.status, d.id AS department_id, d.name AS department_name, c.id AS company_id, c.name AS company_name"
            + FROM_USERS + " WHERE TRUE"
  {
  }

  lemma {:induction false} StartAndEnd(r: Request, start: string, wording: Wording)
    requires Start(SelectUser, wording) == start
    requires Pieces(Listed(Recognised(r)), 1, wording) == Clauses(Listed(Recognised(r)), 1)
    requires TailText(|Listed(Recognised(r))|, SortColumn(r.sortBy), SortOrder(r.order), wording)
             == SortAndPage(r.sortBy, r.order, |Listed(Recognised(r))|)
    ensures Render(SelectTokensOf(r), wording)
            == start + (Clauses(Listed(Recognised(r)), 1) + SortAndPage(r.sortBy, r.order, |Listed(Recognised(r))|))
  {
    RenderedSelect(r, wording);
  }

  /** The select string of every request. */
  lemma {:induction false} SelectTextIs(r: Request)
    ensures SelectText(r) == SelectSql(Recognised(r), r.sortBy, r.order)
  {
    PiecesAreClauses(Listed(Recognised(r)), 1);
    TailIsSortAndPage(r, |Listed(Recognised(r))|);
    SelectStart();
    StartAndEnd(r, Start(SelectUser, SqlText), SqlText);
  }
}
