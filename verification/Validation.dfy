/**
 Flattening nested validation errors into one map from dotted paths to messages. The errors of a struct
 come from a hash map, so the order in which its fields are listed is arbitrary: here it is the order of
 the sequence, and it is proved not to matter.
 */
module Validation {
  import opened Numbers

  /** One failed rule: its code, and its parameters as text. */
  datatype FieldError = FieldError(code: string, params: map<string, string>)

  datatype Kind = Field(errors: seq<FieldError>) | Struct(nested: Errors) | List(items: seq<Item>)

  datatype Entry = Entry(name: string, kind: Kind)

  datatype Errors = Errors(fields: seq<Entry>)

  datatype Item = Item(index: nat, nested: Errors)

  function MessageFor(error: FieldError): string {
    if error.code == "required" then "field is required and cannot be empty"
    else if error.code == "email" then "field must be of email format"
    else if error.code == "length" then
      "field must be a minimum length of " + (if "min" in error.params then error.params["min"] else "")
    else if error.code == "url" then "filed must be of URI format"
    else if error.code == "range" then "field is outside of the accepted range"
    else if error.code == "strong-pwd" then
      "field requires at least 8 characters "
      + "with an uppercase letter, a symbol and a numeric value."
    else "invalid value for field"
  }

  // The error value that collects violations.

  type Violations = map<string, seq<string>>

  datatype ErrorValue = App(code: int, message: string) | Validation(message: string, violations: Violations)

  function Push(violations: Violations, field: string, message: string): Violations {
    violations[field := (if field in violations then violations[field] else []) + [message]]
  }

  class Error {
    var value: ErrorValue

    constructor Validation(message: string)
      ensures value == ErrorValue.Validation(message, map[])
    {
      value := ErrorValue.Validation(message, map[]);
    }

    /** A violation goes to the end of its field's list; an application error takes none. */
    method PushViolation(field: string, message: string)
      modifies this
      ensures value == if old(value).App? then old(value)
                       else old(value).(violations := Push(old(value).violations, field, message))
    {
      if value.Validation? {
        var messages := if field in value.violations then value.violations[field] else [];
        value := value.(violations := value.violations[field := messages + [message]]);
      }
    }
  }

  // What collect pushes, in order: pairs of a path and a message.

  type Leaves = seq<(string, string)>

  function Path(prefix: string, field: string): string {
    if prefix == "" then field else prefix + "." + field
  }

  function FieldLeaves(errors: seq<FieldError>, path: string): Leaves {
    if errors == [] then [] else FieldLeaves(errors[..|errors| - 1], path) + [(path, MessageFor(errors[|errors| - 1]))]
  }

  function LeavesOfItems(items: seq<Item>, path: string): Leaves
    decreases items, 0
  {
    if items == [] then []
    else LeavesOfItems(items[..|items| - 1], path) + LeavesOfItem(items[|items| - 1], path)
  }

  function LeavesOfKind(kind: Kind, path: string): Leaves
    decreases kind, 0
  {
    match kind
    case Field(errors) => FieldLeaves(errors, path)
    case Struct(nested) => LeavesOf(nested, path)
    case List(items) => LeavesOfItems(items, path)
  }

  function LeavesOfFields(fields: seq<Entry>, prefix: string): Leaves
    decreases fields, 0
  {
    if fields == [] then []
    else
      LeavesOfFields(fields[..|fields| - 1], prefix)
      + LeavesOfKind(fields[|fields| - 1].kind, Path(prefix, fields[|fields| - 1].name))
  }

  function LeavesOf(errors: Errors, prefix: string): Leaves
    decreases errors, 1
  {
    LeavesOfFields(errors.fields, prefix)
  }

  function LeavesOfItem(item: Item, path: string): Leaves
    decreases item, 0
  {
    LeavesOf(item.nested, path + "." + Decimal(item.index))
  }

  function PushAll(violations: Violations, leaves: Leaves): Violations {
    if leaves == [] then violations
    else
      var last := leaves[|leaves| - 1];
      Push(PushAll(violations, leaves[..|leaves| - 1]), last.0, last.1)
  }

  lemma {:induction false} PushAllConcat(violations: Violations, a: Leaves, b: Leaves)
    ensures PushAll(violations, a + b) == PushAll(PushAll(violations, a), b)
  {
    if b == [] {
      assert a + b == a;
    } else {
      PushAllConcat(violations, a, b[..|b| - 1]);
      assert (a + b)[..|a + b| - 1] == a + b[..|b| - 1];
    }
  }

  /** The error with more violations pushed. */
  function Pushed(value: ErrorValue, leaves: Leaves): ErrorValue
    requires value.Validation?
  {
    value.(violations := PushAll(value.violations, leaves))
  }

  lemma {:induction false} PushedTwice(value: ErrorValue, a: Leaves, b: Leaves)
    requires value.Validation?
    ensures Pushed(value, a + b) == Pushed(Pushed(value, a), b)
  {
    PushAllConcat(value.violations, a, b);
  }

  lemma {:induction false} OneMoreField(fields: seq<Entry>, i: nat, prefix: string)
    requires i < |fields|
    ensures LeavesOfFields(fields[..i + 1], prefix)
            == LeavesOfFields(fields[..i], prefix) + LeavesOfKind(fields[i].kind, Path(prefix, fields[i].name))
  {
    assert fields[..i + 1][..i] == fields[..i];
  }

  lemma {:induction false} OneMoreItem(items: seq<Item>, j: nat, path: string)
    requires j < |items|
    ensures LeavesOfItems(items[..j + 1], path) == LeavesOfItems(items[..j], path) + LeavesOfItem(items[j], path)
  {
    assert items[..j + 1][..j] == items[..j];
  }

  method CollectItems(items: seq<Item>, path: string, target: Error)
    requires target.value.Validation?
    modifies target
    ensures target.value == Pushed(old(target.value), LeavesOfItems(items, path))
    decreases items, 0
  {
    ghost var before := target.value;
    for j := 0 to |items|
      invariant target.value == Pushed(before, LeavesOfItems(items[..j], path))
    {
      OneMoreItem(items, j, path);
      PushedTwice(before, LeavesOfItems(items[..j], path), LeavesOfItem(items[j], path));
      CollectItem(items[j], path, target);
    }
    assert items[..|items|] == items;
  }

  lemma {:induction false} PushOne(violations: Violations, path: string, message: string)
    ensures PushAll(violations, [(path, message)]) == Push(violations, path, message)
  {
    assert [(path, message)][..0] == [];
  }

  method PushFieldErrors(errors: seq<FieldError>, path: string, target: Error)
    requires target.value.Validation?
    modifies target
    ensures target.value == Pushed(old(target.value), FieldLeaves(errors, path))
  {
    ghost var before := target.value;
    for i := 0 to |errors|
      invariant target.value == Pushed(before, FieldLeaves(errors[..i], path))
    {
      assert errors[..i + 1][..i] == errors[..i];
      PushedTwice(before, FieldLeaves(errors[..i], path), [(path, MessageFor(errors[i]))]);
      PushOne(target.value.violations, path, MessageFor(errors[i]));
      target.PushViolation(path, MessageFor(errors[i]));
    }
    assert errors[..|errors|] == errors;
  }

  method CollectKind(kind: Kind, path: string, target: Error)
    requires target.value.Validation?
    modifies target
    ensures target.value == Pushed(old(target.value), LeavesOfKind(kind, path))
    decreases kind, 0
  {
    match kind {
      case Field(fieldErrors) => PushFieldErrors(fieldErrors, path, target);
      case Struct(nested) => Collect(nested, path, target);
      case List(items) => CollectItems(items, path, target);
    }
  }

  /** The recursive walk pushes exactly the leaves, in order. */
  method Collect(errors: Errors, prefix: string, target: Error)
    requires target.value.Validation?
    modifies target
    ensures target.value == Pushed(old(target.value), LeavesOf(errors, prefix))
    decreases errors, 1
  {
    ghost var before := target.value;
    for i := 0 to |errors.fields|
      invariant target.value == Pushed(before, LeavesOfFields(errors.fields[..i], prefix))
    {
      var Entry(field, kind) := errors.fields[i];
      var path := if prefix == "" then field else prefix + "." + field;
      ghost var done := LeavesOfFields(errors.fields[..i], prefix);
      OneMoreField(errors.fields, i, prefix);
      PushedTwice(before, done, LeavesOfKind(kind, path));
      CollectKind(kind, path, target);
    }
    assert errors.fields[..|errors.fields|] == errors.fields;
  }

  method CollectItem(item: Item, path: string, target: Error)
    requires target.value.Validation?
    modifies target
    ensures target.value == Pushed(old(target.value), LeavesOfItem(item, path))
    decreases item, 0
  {
    Collect(item.nested, path + "." + Decimal(item.index), target);
  }

  function Flattened(errors: Errors): Violations {
    PushAll(map[], LeavesOf(errors, ""))
  }
}
