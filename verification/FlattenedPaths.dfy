/**
 What the flattened map holds: each leaf of the tree under its own path, with its own messages in order,
 and nothing else, whatever the order in which hash maps list their fields.
 */
module FlattenedPaths {
  import opened Wrappers
  import opened Numbers
  import opened Validation

  // Routes: the address of a leaf in the tree.

  datatype Step = Name(name: string) | Index(index: nat)

  type Route = seq<Step>

  function StepText(step: Step): string {
    match step case Name(name) => name case Index(index) => Decimal(index)
  }

  function RoutePath(route: Route): string {
    if route == [] then ""
    else if |route| == 1 then StepText(route[0])
    else RoutePath(route[..|route| - 1]) + "." + StepText(route[|route| - 1])
  }

  predicate DotFree(s: string) {
    '.' !in s
  }

  /** Every text on the route is non-empty and has no dot. */
  predicate Plain(route: Route) {
    forall i | 0 <= i < |route| :: StepText(route[i]) != "" && DotFree(StepText(route[i]))
  }

  lemma {:induction false} DecimalIsPlain(n: nat)
    ensures Decimal(n) != "" && DotFree(Decimal(n))
  {
    assert !IsDigit('.');
  }

  lemma {:induction false} LastDot(x: string, s: string, y: string, t: string)
    requires DotFree(s) && DotFree(t) && x + "." + s == y + "." + t
    ensures x == y && s == t
  {
    var whole := x + "." + s;
    assert whole[|x|] == '.' && whole == y + "." + t && whole[|y|] == '.';
    assert forall i | 0 <= i < |s| :: whole[|x| + 1 + i] == s[i];
    assert forall i | 0 <= i < |t| :: whole[|y| + 1 + i] == t[i];
    assert |x| == |y|;
    assert x == whole[..|x|] && s == whole[|x| + 1..];
  }

  function Texts(route: Route): (texts: seq<string>)
    ensures |texts| == |route|
  {
    if route == [] then [] else Texts(route[..|route| - 1]) + [StepText(route[|route| - 1])]
  }

  lemma {:induction false} PathDots(route: Route)
    requires Plain(route)
    ensures RoutePath(route) == "" <==> route == []
    ensures '.' in RoutePath(route) <==> |route| > 1
  {
    if |route| > 1 {
      var before := RoutePath(route[..|route| - 1]);
      assert RoutePath(route)[|before|] == '.';
    } else if |route| == 1 {
      assert StepText(route[0]) != "" && DotFree(StepText(route[0]));
    }
  }

  /** A dotted path determines the texts it was made of. */
  lemma {:induction false} PathDeterminesTexts(a: Route, b: Route)
    requires Plain(a) && Plain(b) && RoutePath(a) == RoutePath(b)
    ensures Texts(a) == Texts(b)
  {
    PathDots(a);
    PathDots(b);
    if |a| > 1 {
      var a', b' := a[..|a| - 1], b[..|b| - 1];
      LastDot(RoutePath(a'), StepText(a[|a| - 1]), RoutePath(b'), StepText(b[|b| - 1]));
      PathDeterminesTexts(a', b');
    } else if |a| == 1 {
      assert a[..0] == [] && b[..0] == [];
    }
  }

  lemma {:induction false} TextsCons(route: Route)
    requires route != []
    ensures Texts(route) == [StepText(route[0])] + Texts(route[1..])
  {
    if |route| > 1 {
      TextsCons(route[..|route| - 1]);
      assert route[..|route| - 1][1..] == route[1..][..|route| - 2];
    } else {
      assert route[..0] == [] && route[1..] == [];
    }
  }

  lemma {:induction false} TextsConcat(a: Route, b: Route)
    ensures Texts(a + b) == Texts(a) + Texts(b)
  {
    if b == [] {
      assert a + b == a;
    } else {
      TextsConcat(a, b[..|b| - 1]);
      assert (a + b)[..|a + b| - 1] == a + b[..|b| - 1];
    }
  }

  lemma {:induction false} PathAppend(route: Route, step: Step)
    requires Plain(route)
    ensures RoutePath(route + [step]) == if route == [] then StepText(step) else RoutePath(route) + "." + StepText(step)
  {
    assert (route + [step])[..|route|] == route;
  }

  // Trees.

  predicate WellFormedItems(items: seq<Item>)
    decreases items, 0
  {
    items == [] ||
    (var last := items[|items| - 1];
     WellFormedItem(last)
     && (forall i | 0 <= i < |items| - 1 :: items[i].index != last.index)
     && WellFormedItems(items[..|items| - 1]))
  }

  predicate WellFormedKind(kind: Kind)
    decreases kind, 0
  {
    match kind
    case Field(_) => true
    case Struct(nested) => WellFormed(nested)
    case List(items) => WellFormedItems(items)
  }

  predicate WellFormedFields(fields: seq<Entry>)
    decreases fields, 0
  {
    fields == [] ||
    (var last := fields[|fields| - 1];
     last.name != "" && DotFree(last.name) && WellFormedKind(last.kind)
     && (forall i | 0 <= i < |fields| - 1 :: fields[i].name != last.name)
     && WellFormedFields(fields[..|fields| - 1]))
  }

  /** Field names are distinct, non-empty and free of dots; list indices are distinct. */
  predicate WellFormed(errors: Errors)
    decreases errors, 1
  {
    WellFormedFields(errors.fields)
  }

  predicate WellFormedItem(item: Item)
    decreases item, 0
  {
    WellFormed(item.nested)
  }

  function Messages(errors: seq<FieldError>): (messages: seq<string>)
    ensures |messages| == |errors|
  {
    if errors == [] then [] else Messages(errors[..|errors| - 1]) + [MessageFor(errors[|errors| - 1])]
  }

  /** What is to be said of a failed rule. */
  predicate Says(message: string, rule: FieldError) {
    if rule.code == "required" then message == "field is required and cannot be empty"
    else if rule.code == "email" then message == "field must be of email format"
    else if rule.code == "length" && "min" in rule.params then
      message == "field must be a minimum length of " + rule.params["min"]
    else if rule.code == "length" then message == "field must be a minimum length of "
    else if rule.code == "url" then message == "filed must be of URI format"
    else if rule.code == "range" then message == "field is outside of the accepted range"
    else if rule.code == "strong-pwd" then
      message == "field requires at least 8 characters "
                 + "with an uppercase letter, a symbol and a numeric value."
    else message == "invalid value for field"
  }

  lemma {:induction false} MessageSays(rule: FieldError)
    ensures Says(MessageFor(rule), rule)
  {
    var start := "field must be a minimum length of ";
    assert start + "" == start;
  }

  /** One message for each rule, in their order. */
  predicate Said(rules: seq<FieldError>, messages: seq<string>) {
    |messages| == |rules| && forall i | 0 <= i < |rules| :: Says(messages[i], rules[i])
  }

  lemma {:induction false} MessagesAreSaid(rules: seq<FieldError>)
    ensures Said(rules, Messages(rules))
  {
    if rules != [] {
      MessagesAreSaid(rules[..|rules| - 1]);
      MessageSays(rules[|rules| - 1]);
    }
  }

  function LeafAtItems(items: seq<Item>, route: Route): Option<seq<FieldError>>
    decreases items, 0
  {
    if items == [] || route == [] then None
    else if route[0] == Index(items[|items| - 1].index) then LeafAtItem(items[|items| - 1], route[1..])
    else LeafAtItems(items[..|items| - 1], route)
  }

  function LeafAtKind(kind: Kind, route: Route): Option<seq<FieldError>>
    decreases kind, 0
  {
    match kind
    case Field(errors) => if route == [] then Some(errors) else None
    case Struct(nested) => LeafAt(nested, route)
    case List(items) => LeafAtItems(items, route)
  }

  function LeafAtField(fields: seq<Entry>, route: Route): Option<seq<FieldError>>
    decreases fields, 0
  {
    if fields == [] || route == [] then None
    else
      var last := fields[|fields| - 1];
      if route[0] == Name(last.name) then LeafAtKind(last.kind, route[1..])
      else LeafAtField(fields[..|fields| - 1], route)
  }

  /** The failed rules of the leaf at this address, if there is a leaf there. */
  function LeafAt(errors: Errors, route: Route): Option<seq<FieldError>>
    decreases errors, 1
  {
    LeafAtField(errors.fields, route)
  }

  function LeafAtItem(item: Item, route: Route): Option<seq<FieldError>>
    decreases item, 0
  {
    LeafAt(item.nested, route)
  }

  // A leaf's address is plain, and begins with a name of its struct or an index of its list.

  lemma {:induction false} PlainCons(route: Route)
    requires route != [] && Plain([route[0]]) && Plain(route[1..])
    ensures Plain(route)
  {
    assert forall i | 1 <= i < |route| :: route[i] == route[1..][i - 1];
    assert [route[0]][0] == route[0];
  }

  lemma {:induction false} LeafRouteInItems(items: seq<Item>, route: Route)
    requires WellFormedItems(items) && LeafAtItems(items, route).Some?
    ensures Plain(route) && route != [] && exists i | 0 <= i < |items| :: route[0] == Index(items[i].index)
    decreases items, 0
  {
    var last := items[|items| - 1];
    if route[0] == Index(last.index) {
      LeafRouteInItem(last, route[1..]);
      DecimalIsPlain(last.index);
      PlainCons(route);
    } else {
      LeafRouteInItems(items[..|items| - 1], route);
    }
  }

  lemma {:induction false} LeafRouteInKind(kind: Kind, route: Route)
    requires WellFormedKind(kind) && LeafAtKind(kind, route).Some?
    ensures Plain(route)
    decreases kind, 0
  {
    match kind {
      case Field(_) =>
      case Struct(nested) => LeafRouteInErrors(nested, route);
      case List(items) => LeafRouteInItems(items, route);
    }
  }

  lemma {:induction false} LeafRouteInFields(fields: seq<Entry>, route: Route)
    requires WellFormedFields(fields) && LeafAtField(fields, route).Some?
    ensures Plain(route) && route != [] && exists i | 0 <= i < |fields| :: route[0] == Name(fields[i].name)
    decreases fields, 0
  {
    var last := fields[|fields| - 1];
    if route[0] == Name(last.name) {
      LeafRouteInKind(last.kind, route[1..]);
      PlainCons(route);
    } else {
      LeafRouteInFields(fields[..|fields| - 1], route);
    }
  }

  lemma {:induction false} LeafRouteInErrors(errors: Errors, route: Route)
    requires WellFormed(errors) && LeafAt(errors, route).Some?
    ensures Plain(route) && route != []
    decreases errors, 1
  {
    LeafRouteInFields(errors.fields, route);
  }

  lemma {:induction false} LeafRouteInItem(item: Item, route: Route)
    requires WellFormedItem(item) && LeafAtItem(item, route).Some?
    ensures Plain(route)
    decreases item, 0
  {
    LeafRouteInErrors(item.nested, route);
  }

  lemma {:induction false} PlainConcat(a: Route, b: Route)
    requires Plain(a) && Plain(b)
    ensures Plain(a + b)
  {
  }

  // The messages collected for one path.

  function At(leaves: Leaves, path: string): seq<string> {
    if leaves == [] then []
    else
      var last := leaves[|leaves| - 1];
      At(leaves[..|leaves| - 1], path) + if last.0 == path then [last.1] else []
  }

  lemma {:induction false} AtConcat(a: Leaves, b: Leaves, path: string)
    ensures At(a + b, path) == At(a, path) + At(b, path)
  {
    if b == [] {
      assert a + b == a;
    } else {
      AtConcat(a, b[..|b| - 1], path);
      assert (a + b)[..|a + b| - 1] == a + b[..|b| - 1];
    }
  }

  lemma {:induction false} AtFieldLeaves(errors: seq<FieldError>, leafPath: string, path: string)
    ensures At(FieldLeaves(errors, leafPath), path) == if path == leafPath then Messages(errors) else []
  {
    if errors != [] {
      AtFieldLeaves(errors[..|errors| - 1], leafPath, path);
      var before := FieldLeaves(errors[..|errors| - 1], leafPath);
      var last := [(leafPath, MessageFor(errors[|errors| - 1]))];
      AtConcat(before, last, path);
      assert last[..0] == [];
    }
  }

  /** Pushing leaves into a map appends, under each path, the messages collected for it. */
  lemma {:induction false} PushedAt(violations: Violations, leaves: Leaves, path: string)
    ensures var pushed := PushAll(violations, leaves);
            && (path in pushed <==> path in violations || At(leaves, path) != [])
            && (path in pushed ==>
                  pushed[path] == (if path in violations then violations[path] else []) + At(leaves, path))
  {
    if leaves != [] {
      PushedAt(violations, leaves[..|leaves| - 1], path);
    }
  }

  // A path under which there is no leaf collects nothing.

  ghost predicate NoLeafIn(fields: seq<Entry>, at: Route, path: string) {
    forall route :: LeafAtField(fields, route).Some? ==> RoutePath(at + route) != path
  }

  /** The path of a child, as collect builds it. */
  lemma {:induction false} ChildPath(at: Route, step: Step)
    requires Plain(at) && Plain([step])
    ensures Plain(at + [step])
    ensures RoutePath(at + [step]) == Path(RoutePath(at), StepText(step))
    ensures at != [] ==> RoutePath(at + [step]) == RoutePath(at) + "." + StepText(step)
  {
    PathAppend(at, step);
    PathDots(at);
    PlainConcat(at, [step]);
  }

  lemma {:induction false} SplitFields(fields: seq<Entry>, at: Route, path: string)
    requires fields != [] && Plain(at) && Plain([Name(fields[|fields| - 1].name)])
    ensures var last := fields[|fields| - 1];
            At(LeavesOfFields(fields, RoutePath(at)), path) ==
            At(LeavesOfFields(fields[..|fields| - 1], RoutePath(at)), path)
            + At(LeavesOfKind(last.kind, RoutePath(at + [Name(last.name)])), path)
  {
    var last, before := fields[|fields| - 1], fields[..|fields| - 1];
    ChildPath(at, Name(last.name));
    AtConcat(LeavesOfFields(before, RoutePath(at)), LeavesOfKind(last.kind, RoutePath(at + [Name(last.name)])), path);
  }

  lemma {:induction false} NoLeafInEarlierFields(fields: seq<Entry>, at: Route, path: string)
    requires WellFormedFields(fields) && fields != [] && NoLeafIn(fields, at, path)
    ensures NoLeafIn(fields[..|fields| - 1], at, path)
  {
    forall route | LeafAtField(fields[..|fields| - 1], route).Some? ensures RoutePath(at + route) != path {
      LeafRouteInFields(fields[..|fields| - 1], route);
      assert LeafAtField(fields, route).Some?;
    }
  }

  lemma {:induction false} NoLeafInLastKind(fields: seq<Entry>, at: Route, path: string, route: Route)
    requires fields != [] && NoLeafIn(fields, at, path)
    requires LeafAtKind(fields[|fields| - 1].kind, route).Some?
    ensures RoutePath(at + [Name(fields[|fields| - 1].name)] + route) != path
  {
    var longer := [Name(fields[|fields| - 1].name)] + route;
    assert longer[1..] == route && at + [Name(fields[|fields| - 1].name)] + route == at + longer;
    assert LeafAtField(fields, longer).Some?;
  }

  lemma {:induction false} NothingInItem(item: Item, at: Route, path: string)
    requires WellFormedItem(item) && Plain(at) && at != []
    requires forall route :: LeafAtItem(item, route).Some? ==> RoutePath(at + [Index(item.index)] + route) != path
    ensures At(LeavesOfItem(item, RoutePath(at)), path) == []
    decreases item, 0
  {
    DecimalIsPlain(item.index);
    ChildPath(at, Index(item.index));
    forall route | LeafAt(item.nested, route).Some? ensures RoutePath(at + [Index(item.index)] + route) != path {
      assert LeafAtItem(item, route).Some?;
    }
    NothingInErrors(item.nested, at + [Index(item.index)], path);
  }

  lemma {:induction false} NothingInItems(items: seq<Item>, at: Route, path: string)
    requires WellFormedItems(items) && Plain(at) && at != []
    requires forall route :: LeafAtItems(items, route).Some? ==> RoutePath(at + route) != path
    ensures At(LeavesOfItems(items, RoutePath(at)), path) == []
    decreases items, 0
  {
    if items != [] {
      var last, before := items[|items| - 1], items[..|items| - 1];
      forall route | LeafAtItems(before, route).Some? ensures RoutePath(at + route) != path {
        LeafRouteInItems(before, route);
        assert LeafAtItems(items, route).Some?;
      }
      NothingInItems(before, at, path);
      var here := at + [Index(last.index)];
      forall route | LeafAtItem(last, route).Some? ensures RoutePath(here + route) != path {
        assert here + route == at + ([Index(last.index)] + route);
        assert ([Index(last.index)] + route)[1..] == route;
        assert LeafAtItems(items, [Index(last.index)] + route).Some?;
      }
      DecimalIsPlain(last.index);
      ChildPath(at, Index(last.index));
      NothingInItem(last, at, path);
      AtConcat(LeavesOfItems(before, RoutePath(at)), LeavesOfItem(last, RoutePath(at)), path);
    }
  }

  lemma {:induction false} NothingInKind(kind: Kind, at: Route, path: string)
    requires WellFormedKind(kind) && Plain(at) && at != []
    requires forall route :: LeafAtKind(kind, route).Some? ==> RoutePath(at + route) != path
    ensures At(LeavesOfKind(kind, RoutePath(at)), path) == []
    decreases kind, 0
  {
    match kind {
      case Field(errors) =>
        assert LeafAtKind(kind, []).Some? && at + [] == at;
        AtFieldLeaves(errors, RoutePath(at), path);
      case Struct(nested) => NothingInErrors(nested, at, path);
      case List(items) => NothingInItems(items, at, path);
    }
  }

  lemma {:induction false} NothingInFields(fields: seq<Entry>, at: Route, path: string)
    requires WellFormedFields(fields) && Plain(at) && NoLeafIn(fields, at, path)
    ensures At(LeavesOfFields(fields, RoutePath(at)), path) == []
    decreases fields, 0
  {
    if fields != [] {
      var last := fields[|fields| - 1];
      NoLeafInEarlierFields(fields, at, path);
      NothingInFields(fields[..|fields| - 1], at, path);
      forall route | LeafAtKind(last.kind, route).Some? ensures RoutePath(at + [Name(last.name)] + route) != path {
        NoLeafInLastKind(fields, at, path, route);
      }
      ChildPath(at, Name(last.name));
      NothingInKind(last.kind, at + [Name(last.name)], path);
      SplitFields(fields, at, path);
    }
  }

  lemma {:induction false} NothingInErrors(errors: Errors, at: Route, path: string)
    requires WellFormed(errors) && Plain(at)
    requires forall route :: LeafAt(errors, route).Some? ==> RoutePath(at + route) != path
    ensures At(LeavesOf(errors, RoutePath(at)), path) == []
    decreases errors, 1
  {
    forall route | LeafAtField(errors.fields, route).Some? ensures RoutePath(at + route) != path {
      assert LeafAt(errors, route).Some?;
    }
    NothingInFields(errors.fields, at, path);
  }

  // Within one tree, equal texts mean the same address: at each level the tree itself says whether a name
  // or an index comes next.

  lemma {:induction false} SameTextsInItem(item: Item, a: Route, b: Route)
    requires WellFormedItem(item) && LeafAtItem(item, a).Some? && LeafAtItem(item, b).Some?
    requires Texts(a) == Texts(b)
    ensures a == b
    decreases item, 0
  {
    SameTextsInErrors(item.nested, a, b);
  }

  lemma {:induction false} SameTextsInItems(items: seq<Item>, a: Route, b: Route)
    requires WellFormedItems(items) && LeafAtItems(items, a).Some? && LeafAtItems(items, b).Some?
    requires Texts(a) == Texts(b)
    ensures a == b
    decreases items, 0
  {
    LeafRouteInItems(items, a);
    LeafRouteInItems(items, b);
    TextsCons(a);
    TextsCons(b);
    assert StepText(a[0]) == Texts(a)[0] && StepText(b[0]) == Texts(b)[0];
    DecimalInjective(a[0].index, b[0].index);
    assert a == [a[0]] + a[1..] && b == [b[0]] + b[1..];
    var last := items[|items| - 1];
    if a[0] == Index(last.index) {
      assert Texts(a)[1..] == Texts(a[1..]) && Texts(b)[1..] == Texts(b[1..]);
      SameTextsInItem(last, a[1..], b[1..]);
    } else {
      SameTextsInItems(items[..|items| - 1], a, b);
    }
  }

  lemma {:induction false} SameTextsInKind(kind: Kind, a: Route, b: Route)
    requires WellFormedKind(kind) && LeafAtKind(kind, a).Some? && LeafAtKind(kind, b).Some?
    requires Texts(a) == Texts(b)
    ensures a == b
    decreases kind, 0
  {
    match kind {
      case Field(_) =>
      case Struct(nested) => SameTextsInErrors(nested, a, b);
      case List(items) => SameTextsInItems(items, a, b);
    }
  }

  lemma {:induction false} SameTextsInFields(fields: seq<Entry>, a: Route, b: Route)
    requires WellFormedFields(fields) && LeafAtField(fields, a).Some? && LeafAtField(fields, b).Some?
    requires Texts(a) == Texts(b)
    ensures a == b
    decreases fields, 0
  {
    LeafRouteInFields(fields, a);
    LeafRouteInFields(fields, b);
    TextsCons(a);
    TextsCons(b);
    assert StepText(a[0]) == Texts(a)[0] && StepText(b[0]) == Texts(b)[0];
    assert a == [a[0]] + a[1..] && b == [b[0]] + b[1..];
    var last := fields[|fields| - 1];
    if a[0] == Name(last.name) {
      assert Texts(a)[1..] == Texts(a[1..]) && Texts(b)[1..] == Texts(b[1..]);
      SameTextsInKind(last.kind, a[1..], b[1..]);
    } else {
      SameTextsInFields(fields[..|fields| - 1], a, b);
    }
  }

  lemma {:induction false} SameTextsInErrors(errors: Errors, a: Route, b: Route)
    requires WellFormed(errors) && LeafAt(errors, a).Some? && LeafAt(errors, b).Some?
    requires Texts(a) == Texts(b)
    ensures a == b
    decreases errors, 1
  {
    SameTextsInFields(errors.fields, a, b);
  }

  /** The path of a leaf is injective. */
  lemma {:induction false} LeafPathIsInjective(errors: Errors, a: Route, b: Route)
    requires WellFormed(errors) && LeafAt(errors, a).Some? && LeafAt(errors, b).Some?
    requires RoutePath(a) == RoutePath(b)
    ensures a == b
  {
    LeafRouteInErrors(errors, a);
    LeafRouteInErrors(errors, b);
    PathDeterminesTexts(a, b);
    SameTextsInErrors(errors, a, b);
  }

  // Under the path of a leaf are exactly its own messages.

  lemma {:induction false} OtherPath(fields: seq<Entry>, at: Route, a: Route, b: Route)
    requires WellFormedFields(fields) && Plain(at) && a != b
    requires LeafAtField(fields, a).Some? && LeafAtField(fields, b).Some?
    ensures RoutePath(at + a) != RoutePath(at + b)
  {
    LeafRouteInFields(fields, a);
    LeafRouteInFields(fields, b);
    PlainConcat(at, a);
    PlainConcat(at, b);
    if RoutePath(at + a) == RoutePath(at + b) {
      PathDeterminesTexts(at + a, at + b);
      TextsConcat(at, a);
      TextsConcat(at, b);
      assert Texts(at + a)[|at|..] == Texts(a) && Texts(at + b)[|at|..] == Texts(b);
      SameTextsInFields(fields, a, b);
    }
  }

  lemma {:induction false} NothingInEarlierFields(fields: seq<Entry>, at: Route, route: Route)
    requires WellFormedFields(fields) && Plain(at) && LeafAtField(fields, route).Some?
    requires route[0] == Name(fields[|fields| - 1].name)
    ensures At(LeavesOfFields(fields[..|fields| - 1], RoutePath(at)), RoutePath(at + route)) == []
  {
    var before := fields[..|fields| - 1];
    forall other | LeafAtField(before, other).Some? ensures RoutePath(at + other) != RoutePath(at + route) {
      LeafRouteInFields(before, other);
      OtherPath(fields, at, route, other);
    }
    NothingInFields(before, at, RoutePath(at + route));
  }

  lemma {:induction false} NothingInLastField(fields: seq<Entry>, at: Route, route: Route)
    requires WellFormedFields(fields) && Plain(at) && LeafAtField(fields, route).Some?
    requires route[0] != Name(fields[|fields| - 1].name)
    ensures var last := fields[|fields| - 1];
            At(LeavesOfKind(last.kind, RoutePath(at + [Name(last.name)])), RoutePath(at + route)) == []
  {
    var last := fields[|fields| - 1];
    var here := at + [Name(last.name)];
    ChildPath(at, Name(last.name));
    forall other | LeafAtKind(last.kind, other).Some? ensures RoutePath(here + other) != RoutePath(at + route) {
      var longer := [Name(last.name)] + other;
      assert longer[1..] == other && here + other == at + longer;
      OtherPath(fields, at, route, longer);
    }
    NothingInKind(last.kind, here, RoutePath(at + route));
  }

  /** One step into the last field. */
  lemma {:induction false} IntoLastField(fields: seq<Entry>, at: Route, route: Route)
    requires WellFormedFields(fields) && Plain(at) && LeafAtField(fields, route).Some?
    requires route[0] == Name(fields[|fields| - 1].name)
    ensures var last := fields[|fields| - 1];
            && LeafAtKind(last.kind, route[1..]) == LeafAtField(fields, route) && WellFormedKind(last.kind)
            && Plain([Name(last.name)]) && Plain(at + [Name(last.name)])
            && at + route == at + [Name(last.name)] + route[1..]
  {
    ChildPath(at, Name(fields[|fields| - 1].name));
    assert route == [route[0]] + route[1..];
  }

  lemma {:induction false} OtherItemPath(items: seq<Item>, at: Route, a: Route, b: Route)
    requires WellFormedItems(items) && Plain(at) && a != b
    requires LeafAtItems(items, a).Some? && LeafAtItems(items, b).Some?
    ensures RoutePath(at + a) != RoutePath(at + b)
  {
    LeafRouteInItems(items, a);
    LeafRouteInItems(items, b);
    PlainConcat(at, a);
    PlainConcat(at, b);
    if RoutePath(at + a) == RoutePath(at + b) {
      PathDeterminesTexts(at + a, at + b);
      TextsConcat(at, a);
      TextsConcat(at, b);
      assert Texts(at + a)[|at|..] == Texts(a) && Texts(at + b)[|at|..] == Texts(b);
      SameTextsInItems(items, a, b);
    }
  }

  lemma {:induction false} NothingInLastItem(items: seq<Item>, at: Route, route: Route)
    requires WellFormedItems(items) && Plain(at) && at != [] && LeafAtItems(items, route).Some?
    requires route[0] != Index(items[|items| - 1].index)
    ensures At(LeavesOfItem(items[|items| - 1], RoutePath(at)), RoutePath(at + route)) == []
  {
    var last := items[|items| - 1];
    forall other | LeafAtItem(last, other).Some?
      ensures RoutePath(at + [Index(last.index)] + other) != RoutePath(at + route)
    {
      var longer := [Index(last.index)] + other;
      assert longer[1..] == other && at + [Index(last.index)] + other == at + longer;
      OtherItemPath(items, at, route, longer);
    }
    NothingInItem(last, at, RoutePath(at + route));
  }

  lemma {:induction false} SplitItems(items: seq<Item>, at: Route, path: string)
    requires items != []
    ensures At(LeavesOfItems(items, RoutePath(at)), path) ==
            At(LeavesOfItems(items[..|items| - 1], RoutePath(at)), path)
            + At(LeavesOfItem(items[|items| - 1], RoutePath(at)), path)
  {
    AtConcat(LeavesOfItems(items[..|items| - 1], RoutePath(at)), LeavesOfItem(items[|items| - 1], RoutePath(at)), path);
  }

  lemma {:induction false} NothingInEarlierItems(items: seq<Item>, at: Route, route: Route)
    requires WellFormedItems(items) && Plain(at) && at != [] && LeafAtItems(items, route).Some?
    requires route[0] == Index(items[|items| - 1].index)
    ensures At(LeavesOfItems(items[..|items| - 1], RoutePath(at)), RoutePath(at + route)) == []
  {
    var before := items[..|items| - 1];
    forall other | LeafAtItems(before, other).Some? ensures RoutePath(at + other) != RoutePath(at + route) {
      LeafRouteInItems(before, other);
      OtherItemPath(items, at, route, other);
    }
    NothingInItems(before, at, RoutePath(at + route));
  }

  /** One step into the last item. */
  lemma {:induction false} IntoLastItem(items: seq<Item>, at: Route, route: Route)
    requires WellFormedItems(items) && LeafAtItems(items, route).Some?
    requires route[0] == Index(items[|items| - 1].index)
    ensures var last := items[|items| - 1];
            && LeafAtItem(last, route[1..]) == LeafAtItems(items, route) && WellFormedItem(last)
            && at + route == at + [Index(last.index)] + route[1..]
  {
    assert route == [route[0]] + route[1..];
  }

  lemma {:induction false} MessagesInItem(item: Item, at: Route, route: Route)
    requires WellFormedItem(item) && Plain(at) && at != [] && LeafAtItem(item, route).Some?
    ensures At(LeavesOfItem(item, RoutePath(at)), RoutePath(at + [Index(item.index)] + route))
              == Messages(LeafAtItem(item, route).value)
    decreases item, 0
  {
    DecimalIsPlain(item.index);
    ChildPath(at, Index(item.index));
    MessagesInErrors(item.nested, at + [Index(item.index)], route);
  }

  lemma {:induction false} MessagesInLastItem(items: seq<Item>, at: Route, route: Route)
    requires WellFormedItems(items) && Plain(at) && at != [] && LeafAtItems(items, route).Some?
    requires route[0] == Index(items[|items| - 1].index)
    ensures At(LeavesOfItems(items, RoutePath(at)), RoutePath(at + route)) == Messages(LeafAtItems(items, route).value)
    decreases items, 0
  {
    IntoLastItem(items, at, route);
    MessagesInItem(items[|items| - 1], at, route[1..]);
    SplitItems(items, at, RoutePath(at + route));
    NothingInEarlierItems(items, at, route);
  }

  lemma {:induction false} MessagesInItems(items: seq<Item>, at: Route, route: Route)
    requires WellFormedItems(items) && Plain(at) && at != [] && LeafAtItems(items, route).Some?
    ensures At(LeavesOfItems(items, RoutePath(at)), RoutePath(at + route)) == Messages(LeafAtItems(items, route).value)
    decreases items, 1
  {
    if route[0] == Index(items[|items| - 1].index) {
      MessagesInLastItem(items, at, route);
    } else {
      SplitItems(items, at, RoutePath(at + route));
      MessagesInItems(items[..|items| - 1], at, route);
      NothingInLastItem(items, at, route);
    }
  }

  lemma {:induction false} MessagesInKind(kind: Kind, at: Route, route: Route)
    requires WellFormedKind(kind) && Plain(at) && at != [] && LeafAtKind(kind, route).Some?
    ensures At(LeavesOfKind(kind, RoutePath(at)), RoutePath(at + route)) == Messages(LeafAtKind(kind, route).value)
    decreases kind, 0
  {
    match kind {
      case Field(errors) =>
        assert at + [] == at;
        AtFieldLeaves(errors, RoutePath(at), RoutePath(at));
      case Struct(nested) => MessagesInErrors(nested, at, route);
      case List(items) => MessagesInItems(items, at, route);
    }
  }

  lemma {:induction false} MessagesInLastField(fields: seq<Entry>, at: Route, route: Route)
    requires WellFormedFields(fields) && Plain(at) && LeafAtField(fields, route).Some?
    requires route[0] == Name(fields[|fields| - 1].name)
    ensures At(LeavesOfFields(fields, RoutePath(at)), RoutePath(at + route))
              == Messages(LeafAtField(fields, route).value)
    decreases fields, 0
  {
    IntoLastField(fields, at, route);
    MessagesInKind(fields[|fields| - 1].kind, at + [Name(fields[|fields| - 1].name)], route[1..]);
    SplitFields(fields, at, RoutePath(at + route));
    NothingInEarlierFields(fields, at, route);
  }

  lemma {:induction false} MessagesInFields(fields: seq<Entry>, at: Route, route: Route)
    requires WellFormedFields(fields) && Plain(at) && LeafAtField(fields, route).Some?
    ensures At(LeavesOfFields(fields, RoutePath(at)), RoutePath(at + route))
              == Messages(LeafAtField(fields, route).value)
    decreases fields, 1
  {
    if route[0] == Name(fields[|fields| - 1].name) {
      MessagesInLastField(fields, at, route);
    } else {
      SplitFields(fields, at, RoutePath(at + route));
      MessagesInFields(fields[..|fields| - 1], at, route);
      NothingInLastField(fields, at, route);
    }
  }

  lemma {:induction false} MessagesInErrors(errors: Errors, at: Route, route: Route)
    requires WellFormed(errors) && Plain(at) && LeafAt(errors, route).Some?
    ensures At(LeavesOf(errors, RoutePath(at)), RoutePath(at + route)) == Messages(LeafAt(errors, route).value)
    decreases errors, 1
  {
    MessagesInFields(errors.fields, at, route);
  }

  // The flattened map.

  ghost predicate HasLeafPath(errors: Errors, path: string) {
    exists route :: LeafAt(errors, route).Some? && RoutePath(route) == path
  }

  lemma {:induction false} LeafMessages(errors: Errors, route: Route)
    requires WellFormed(errors) && LeafAt(errors, route).Some?
    ensures At(LeavesOf(errors, ""), RoutePath(route)) == Messages(LeafAt(errors, route).value)
  {
    assert [] + route == route;
    MessagesInErrors(errors, [], route);
  }

  lemma {:induction false} KeptUnder(leaves: Leaves, path: string, messages: seq<string>)
    requires At(leaves, path) == messages
    ensures path in PushAll(map[], leaves) <==> messages != []
    ensures messages != [] ==> PushAll(map[], leaves)[path] == messages
  {
    PushedAt(map[], leaves, path);
  }

  lemma {:induction false} LeafIsKept(errors: Errors, route: Route)
    requires WellFormed(errors) && LeafAt(errors, route).Some?
    ensures var rules := LeafAt(errors, route).value;
            && (RoutePath(route) in Flattened(errors) <==> rules != [])
            && (rules != [] ==> Flattened(errors)[RoutePath(route)] == Messages(rules))
  {
    LeafMessages(errors, route);
    KeptUnder(LeavesOf(errors, ""), RoutePath(route), Messages(LeafAt(errors, route).value));
  }

  lemma {:induction false} NoOtherKey(errors: Errors, path: string)
    requires WellFormed(errors) && !HasLeafPath(errors, path)
    ensures path !in Flattened(errors)
  {
    forall route | LeafAt(errors, route).Some? ensures RoutePath([] + route) != path {
      assert [] + route == route;
    }
    NothingInErrors(errors, [], path);
    PushedAt(map[], LeavesOf(errors, ""), path);
  }

  /** Under the path of each leaf, what is said of its failed rules, in order (and no key if none failed);
      and no other keys. */
  ghost predicate HoldsTheLeaves(violations: Violations, errors: Errors) {
    && (forall route | LeafAt(errors, route).Some? ::
          var rules := LeafAt(errors, route).value;
          && (RoutePath(route) in violations <==> rules != [])
          && (rules != [] ==> Said(rules, violations[RoutePath(route)])))
    && forall path | path in violations :: HasLeafPath(errors, path)
  }

  /** For a tree of any depth the map holds exactly the leaves. */
  lemma {:induction false} FlattenedHoldsExactlyTheLeaves(errors: Errors)
    requires WellFormed(errors)
    ensures HoldsTheLeaves(Flattened(errors), errors)
  {
    forall route | LeafAt(errors, route).Some?
      ensures var rules := LeafAt(errors, route).value;
              && (RoutePath(route) in Flattened(errors) <==> rules != [])
              && (rules != [] ==> Said(rules, Flattened(errors)[RoutePath(route)]))
    {
      LeafIsKept(errors, route);
      MessagesAreSaid(LeafAt(errors, route).value);
    }
    forall path | path in Flattened(errors) ensures HasLeafPath(errors, path) {
      if !HasLeafPath(errors, path) {
        NoOtherKey(errors, path);
      }
    }
  }

  /** The error a handler answers with. */
  method ToError(errors: Errors) returns (error: Error)
    ensures fresh(error) && error.value == ErrorValue.Validation("failed payload validation", Flattened(errors))
    ensures WellFormed(errors) ==> HoldsTheLeaves(error.value.violations, errors)
  {
    error := new Error.Validation("failed payload validation");
    Collect(errors, "", error);
    if WellFormed(errors) {
      FlattenedHoldsExactlyTheLeaves(errors);
    }
  }

  /** Two trees with the same leaves flatten to the same map. */
  lemma {:induction false} SameLeavesSameMap(a: Errors, b: Errors)
    requires WellFormed(a) && WellFormed(b) && forall route :: LeafAt(a, route) == LeafAt(b, route)
    ensures Flattened(a) == Flattened(b)
  {
    FlattenedHoldsExactlyTheLeaves(a);
    FlattenedHoldsExactlyTheLeaves(b);
    forall route | LeafAt(a, route).Some?
      ensures var path := RoutePath(route);
              && (path in Flattened(a) <==> path in Flattened(b))
              && (path in Flattened(a) ==> Flattened(a)[path] == Flattened(b)[path])
    {
      LeafIsKept(a, route);
      LeafIsKept(b, route);
    }
    forall path ensures path in Flattened(a) <==> path in Flattened(b)
      ensures path in Flattened(a) ==> Flattened(a)[path] == Flattened(b)[path]
    {
      if path in Flattened(a) {
        var route :| LeafAt(a, route).Some? && RoutePath(route) == path;
        assert LeafAt(b, route) == LeafAt(a, route);
      }
      if path in Flattened(b) {
        var route :| LeafAt(b, route).Some? && RoutePath(route) == path;
        assert LeafAt(a, route) == LeafAt(b, route);
      }
    }
  }

  // Order. Hash maps list their fields in any order; the items of a list come in index order.

  function Names(fields: seq<Entry>): set<string> {
    if fields == [] then {} else Names(fields[..|fields| - 1]) + {fields[|fields| - 1].name}
  }

  lemma {:induction false} NameOf(fields: seq<Entry>, name: string) returns (i: nat)
    requires name in Names(fields)
    ensures i < |fields| && fields[i].name == name
    decreases |fields|
  {
    if fields[|fields| - 1].name == name {
      i := |fields| - 1;
    } else {
      i := NameOf(fields[..|fields| - 1], name);
    }
  }

  ghost predicate SameKind(a: Kind, b: Kind)
    decreases a, 0
  {
    match (a, b)
    case (Field(x), Field(y)) => x == y
    case (Struct(x), Struct(y)) => SameUpToOrder(x, y)
    case (List(x), List(y)) => |x| == |y| && forall i | 0 <= i < |x| :: x[i].index == y[i].index && SameItem(x[i], y[i])
    case _ => false
  }

  /** The same field names, and under each name the same kind of error, again up to order. */
  ghost predicate SameUpToOrder(a: Errors, b: Errors)
    decreases a, 0
  {
    && Names(a.fields) == Names(b.fields)
    && forall i | 0 <= i < |a.fields| :: exists j | 0 <= j < |b.fields| ::
         a.fields[i].name == b.fields[j].name && SameKind(a.fields[i].kind, b.fields[j].kind)
  }

  ghost predicate SameItem(a: Item, b: Item)
    decreases a, 0
  {
    SameUpToOrder(a.nested, b.nested)
  }

  lemma {:induction false} LookUpField(fields: seq<Entry>, i: nat, route: Route)
    requires WellFormedFields(fields) && i < |fields| && route != [] && route[0] == Name(fields[i].name)
    ensures LeafAtField(fields, route) == LeafAtKind(fields[i].kind, route[1..])
    decreases |fields|
  {
    if i < |fields| - 1 {
      LookUpField(fields[..|fields| - 1], i, route);
    }
  }

  lemma {:induction false} LookUpNothing(fields: seq<Entry>, route: Route)
    requires route != [] && route[0].Name? ==> route[0].name !in Names(fields)
    ensures LeafAtField(fields, route) == None
    decreases |fields|
  {
    if fields != [] {
      LookUpNothing(fields[..|fields| - 1], route);
    }
  }

  lemma {:induction false} FieldIsWellFormed(fields: seq<Entry>, i: nat)
    requires WellFormedFields(fields) && i < |fields|
    ensures WellFormedKind(fields[i].kind)
    decreases |fields|
  {
    if i < |fields| - 1 {
      FieldIsWellFormed(fields[..|fields| - 1], i);
    }
  }

  lemma {:induction false} Counterpart(a: Errors, b: Errors, i: nat) returns (j: nat)
    requires WellFormed(a) && WellFormed(b) && SameUpToOrder(a, b) && i < |a.fields|
    ensures j < |b.fields| && a.fields[i].name == b.fields[j].name
    ensures SameKind(a.fields[i].kind, b.fields[j].kind)
    ensures WellFormedKind(a.fields[i].kind) && WellFormedKind(b.fields[j].kind)
  {
    j :| 0 <= j < |b.fields| && a.fields[i].name == b.fields[j].name && SameKind(a.fields[i].kind, b.fields[j].kind);
    FieldIsWellFormed(a.fields, i);
    FieldIsWellFormed(b.fields, j);
  }

  lemma {:induction false} SameLeavesInItems(x: seq<Item>, y: seq<Item>, route: Route)
    requires WellFormedItems(x) && WellFormedItems(y) && |x| == |y|
    requires forall i | 0 <= i < |x| :: x[i].index == y[i].index && SameItem(x[i], y[i])
    ensures LeafAtItems(x, route) == LeafAtItems(y, route)
    decreases x, 0
  {
    if x != [] && route != [] {
      if route[0] == Index(x[|x| - 1].index) {
        SameLeavesInItem(x[|x| - 1], y[|y| - 1], route[1..]);
      } else {
        SameLeavesInItems(x[..|x| - 1], y[..|y| - 1], route);
      }
    }
  }

  lemma {:induction false} SameLeavesInKind(a: Kind, b: Kind, route: Route)
    requires WellFormedKind(a) && WellFormedKind(b) && SameKind(a, b)
    ensures LeafAtKind(a, route) == LeafAtKind(b, route)
    decreases a, 0
  {
    match (a, b) {
      case (Struct(x), Struct(y)) => SameLeavesInErrors(x, y, route);
      case (List(x), List(y)) => SameLeavesInItems(x, y, route);
      case _ =>
    }
  }

  lemma {:induction false} SameLeavesInErrors(a: Errors, b: Errors, route: Route)
    requires WellFormed(a) && WellFormed(b) && SameUpToOrder(a, b)
    ensures LeafAt(a, route) == LeafAt(b, route)
    decreases a, 0
  {
    if route != [] && route[0].Name? && route[0].name in Names(a.fields) {
      var i := NameOf(a.fields, route[0].name);
      var j := Counterpart(a, b, i);
      SameLeavesInKind(a.fields[i].kind, b.fields[j].kind, route[1..]);
      LookUpField(a.fields, i, route);
      LookUpField(b.fields, j, route);
    } else {
      LookUpNothing(a.fields, route);
      LookUpNothing(b.fields, route);
    }
  }

  lemma {:induction false} SameLeavesInItem(a: Item, b: Item, route: Route)
    requires WellFormedItem(a) && WellFormedItem(b) && SameItem(a, b)
    ensures LeafAtItem(a, route) == LeafAtItem(b, route)
    decreases a, 0
  {
    SameLeavesInErrors(a.nested, b.nested, route);
  }

  /** The flattened map does not depend on the order in which any hash map lists its fields. */
  lemma {:induction false} FlatteningIgnoresOrder(a: Errors, b: Errors)
    requires WellFormed(a) && WellFormed(b) && SameUpToOrder(a, b)
    ensures Flattened(a) == Flattened(b)
  {
    forall route ensures LeafAt(a, route) == LeafAt(b, route) {
      SameLeavesInErrors(a, b, route);
    }
    SameLeavesSameMap(a, b);
  }

  // Conservation: every failed rule becomes exactly one message.

  function CountItems(items: seq<Item>): nat
    decreases items, 0
  {
    if items == [] then 0 else CountItems(items[..|items| - 1]) + CountItem(items[|items| - 1])
  }

  function CountKind(kind: Kind): nat
    decreases kind, 0
  {
    match kind
    case Field(errors) => |errors|
    case Struct(nested) => CountErrors(nested)
    case List(items) => CountItems(items)
  }

  function CountFields(fields: seq<Entry>): nat
    decreases fields, 0
  {
    if fields == [] then 0 else CountFields(fields[..|fields| - 1]) + CountKind(fields[|fields| - 1].kind)
  }

  function CountErrors(errors: Errors): nat
    decreases errors, 1
  {
    CountFields(errors.fields)
  }

  function CountItem(item: Item): nat
    decreases item, 0
  {
    CountErrors(item.nested)
  }

  lemma {:induction false} LeafCountOfField(errors: seq<FieldError>, path: string)
    ensures |FieldLeaves(errors, path)| == |errors|
  {
    if errors != [] {
      LeafCountOfField(errors[..|errors| - 1], path);
    }
  }

  lemma {:induction false} LeafCountOfItems(items: seq<Item>, path: string)
    ensures |LeavesOfItems(items, path)| == CountItems(items)
    decreases items, 0
  {
    if items != [] {
      LeafCountOfItems(items[..|items| - 1], path);
      LeafCountOfItem(items[|items| - 1], path);
    }
  }

  lemma {:induction false} LeafCountOfKind(kind: Kind, path: string)
    ensures |LeavesOfKind(kind, path)| == CountKind(kind)
    decreases kind, 0
  {
    match kind {
      case Field(errors) => LeafCountOfField(errors, path);
      case Struct(nested) => LeafCount(nested, path);
      case List(items) => LeafCountOfItems(items, path);
    }
  }

  lemma {:induction false} LeafCountOfFields(fields: seq<Entry>, prefix: string)
    ensures |LeavesOfFields(fields, prefix)| == CountFields(fields)
    decreases fields, 0
  {
    if fields != [] {
      LeafCountOfFields(fields[..|fields| - 1], prefix);
      LeafCountOfKind(fields[|fields| - 1].kind, Path(prefix, fields[|fields| - 1].name));
    }
  }

  lemma {:induction false} LeafCount(errors: Errors, prefix: string)
    ensures |LeavesOf(errors, prefix)| == CountErrors(errors)
    decreases errors, 1
  {
    LeafCountOfFields(errors.fields, prefix);
  }

  lemma {:induction false} LeafCountOfItem(item: Item, path: string)
    ensures |LeavesOfItem(item, path)| == CountItem(item)
    decreases item, 0
  {
    LeafCount(item.nested, path + "." + Decimal(item.index));
  }

  ghost function TotalMessages(violations: Violations): nat
    decreases |violations|
  {
    if violations == map[] then 0
    else
      var path :| path in violations;
      |violations[path]| + TotalMessages(violations - {path})
  }

  lemma {:induction false} TotalWithout(violations: Violations, path: string)
    requires path in violations
    ensures TotalMessages(violations) == |violations[path]| + TotalMessages(violations - {path})
    decreases |violations|
  {
    var chosen :| chosen in violations
      && TotalMessages(violations) == |violations[chosen]| + TotalMessages(violations - {chosen});
    if chosen != path {
      TotalWithout(violations - {chosen}, path);
      TotalWithout(violations - {path}, chosen);
      assert violations - {chosen} - {path} == violations - {path} - {chosen};
    }
  }

  lemma {:induction false} PushAddsOne(violations: Violations, path: string, message: string)
    ensures TotalMessages(Push(violations, path, message)) == TotalMessages(violations) + 1
  {
    var pushed := Push(violations, path, message);
    TotalWithout(pushed, path);
    if path in violations {
      TotalWithout(violations, path);
      assert pushed - {path} == violations - {path};
    } else {
      assert pushed - {path} == violations;
    }
  }

  lemma {:induction false} PushAllAddsAll(violations: Violations, leaves: Leaves)
    ensures TotalMessages(PushAll(violations, leaves)) == TotalMessages(violations) + |leaves|
  {
    if leaves != [] {
      PushAllAddsAll(violations, leaves[..|leaves| - 1]);
      PushAddsOne(PushAll(violations, leaves[..|leaves| - 1]), leaves[|leaves| - 1].0, leaves[|leaves| - 1].1);
    }
  }

  /** For every tree, whatever its names: the map holds as many messages as rules failed. */
  lemma {:induction false} FlatteningConservesMessages(errors: Errors)
    ensures TotalMessages(Flattened(errors)) == CountErrors(errors)
  {
    PushAllAddsAll(map[], LeavesOf(errors, ""));
    LeafCount(errors, "");
  }

  // Different rules are told apart by what is said of them.

  datatype Code = Required | EmailFormat | Length | Url | Range | StrongPassword | Other

  function CodeOf(code: string): Code {
    if code == "required" then Required
    else if code == "email" then EmailFormat
    else if code == "length" then Length
    else if code == "url" then Url
    else if code == "range" then Range
    else if code == "strong-pwd" then StrongPassword
    else Other
  }

  /** Five letters by which the messages can be told apart. */
  predicate Lettered(message: string, letters: (char, char, char, char, char)) {
    && |message| >= 15
    && letters == (message[0], message[2], message[6], message[9], message[14])
  }

  function Letters(code: Code): (char, char, char, char, char) {
    match code
    case Required => ('f', 'e', 'i', 'r', 'r')
    case EmailFormat => ('f', 'e', 'm', 't', 'o')
    case Length => ('f', 'e', 'm', 't', 'a')
    case Url => ('f', 'l', 'm', 't', 'o')
    case Range => ('f', 'e', 'i', 'o', 'd')
    case StrongPassword => ('f', 'e', 'r', 'u', ' ')
    case Other => ('i', 'v', 'd', 'a', 'f')
  }

  lemma {:induction false} ShortLetters()
    ensures Lettered("field is required and cannot be empty", Letters(Required))
    ensures Lettered("field must be of email format", Letters(EmailFormat))
    ensures Lettered("filed must be of URI format", Letters(Url))
    ensures Lettered("invalid value for field", Letters(Other))
  {
  }

  lemma {:induction false} LongLetters()
    ensures Lettered("field must be a minimum length of ", Letters(Length))
    ensures Lettered("field is outside of the accepted range", Letters(Range))
    ensures Lettered("field requires at least 8 characters ", Letters(StrongPassword))
  {
  }

  lemma {:induction false} PrefixLetters(start: string, rest: string, letters: (char, char, char, char, char))
    requires Lettered(start, letters)
    ensures Lettered(start + rest, letters)
  {
  }

  function Minimum(rule: FieldError): string {
    if "min" in rule.params then rule.params["min"] else ""
  }

  function TextOf(code: Code, minimum: string): string {
    match code
    case Required => "field is required and cannot be empty"
    case EmailFormat => "field must be of email format"
    case Length => "field must be a minimum length of " + minimum
    case Url => "filed must be of URI format"
    case Range => "field is outside of the accepted range"
    case StrongPassword =>
      "field requires at least 8 characters "
      + "with an uppercase letter, a symbol and a numeric value."
    case Other => "invalid value for field"
  }

  lemma {:induction false} MessageIsText(rule: FieldError)
    ensures MessageFor(rule) == TextOf(CodeOf(rule.code), Minimum(rule))
  {
    match CodeOf(rule.code) {
      case Required =>
      case EmailFormat =>
      case Length =>
      case Url =>
      case Range =>
      case StrongPassword =>
      case Other =>
    }
  }

  lemma {:induction false} TextLetters(code: Code, minimum: string)
    ensures Lettered(TextOf(code, minimum), Letters(code))
  {
    match code {
      case Length =>
        LongLetters();
        PrefixLetters("field must be a minimum length of ", minimum, Letters(Length));
      case Range => LongLetters();
      case StrongPassword =>
        LongLetters();
        PrefixLetters("field requires at least 8 characters ",
                      "with an uppercase letter, a symbol and a numeric value.", Letters(code));
      case _ => ShortLetters();
    }
  }

  lemma {:induction false} LettersDetermine(text: string, a: Code, b: Code)
    requires Lettered(text, Letters(a)) && Lettered(text, Letters(b))
    ensures a == b
  {
  }

  lemma {:induction false} CutStart(start: string, a: string, b: string)
    requires start + a == start + b
    ensures a == b
  {
    assert (start + a)[|start|..] == a && (start + b)[|start|..] == b;
  }

  lemma {:induction false} SameText(a: Code, b: Code, x: string, y: string)
    requires TextOf(a, x) == TextOf(b, y)
    ensures a == b && (a.Length? ==> x == y)
  {
    TextLetters(a, x);
    TextLetters(b, y);
    LettersDetermine(TextOf(a, x), a, b);
    if a.Length? {
      CutStart("field must be a minimum length of ", x, y);
    }
  }

  lemma {:induction false} OnlyLengthHasAMinimum(code: Code, x: string, y: string)
    requires code.Length? ==> x == y
    ensures TextOf(code, x) == TextOf(code, y)
  {
  }

  /** Two failed rules get the same message if and only if they have the same code, and if that is a length
      also the same minimum; all codes without a message of their own share one. */
  lemma {:induction false} SameMessageIff(a: FieldError, b: FieldError)
    ensures MessageFor(a) == MessageFor(b)
            <==> CodeOf(a.code) == CodeOf(b.code) && (CodeOf(a.code).Length? ==> Minimum(a) == Minimum(b))
  {
    MessageIsText(a);
    MessageIsText(b);
    if MessageFor(a) == MessageFor(b) {
      SameText(CodeOf(a.code), CodeOf(b.code), Minimum(a), Minimum(b));
    }
    if CodeOf(a.code) == CodeOf(b.code) && (CodeOf(a.code).Length? ==> Minimum(a) == Minimum(b)) {
      OnlyLengthHasAMinimum(CodeOf(a.code), Minimum(a), Minimum(b));
    }
  }
}
