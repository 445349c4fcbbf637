/** Mail templates: placeholders are replaced one key after another, in the arbitrary order of a hash map. */
module Templates {
  import opened Wrappers

  // str::replace: every occurrence, from the left, without overlaps.

  function Replace(text: string, pattern: string, value: string): string
    requires pattern != []
    decreases |text|
  {
    if text == [] then []
    else if pattern <= text then value + Replace(text[|pattern|..], pattern, value)
    else [text[0]] + Replace(text[1..], pattern, value)
  }

  function Braced(key: string): string {
    "{{" + key + "}}"
  }

  datatype EmailerError = TemplateNotFound(name: string)

  /** The fold over the entries of the map, in the order it lists them. */
  function ReplaceAll(body: string, entries: seq<(string, string)>): string
    decreases |entries|
  {
    if entries == [] then body
    else ReplaceAll(Replace(body, Braced(entries[0].0), entries[0].1), entries[1..])
  }

  function Render(templates: map<string, string>, name: string, entries: seq<(string, string)>)
    : Result<string, EmailerError>
  {
    if name in templates then Success(ReplaceAll(templates[name], entries)) else Failure(TemplateNotFound(name))
  }

  // Templates as they are meant: literal text and placeholders.

  datatype Segment = Literal(text: string) | Placeholder(key: string)

  type Template = seq<Segment>

  function Print(template: Template): string {
    if template == [] then []
    else
      (match template[0] case Literal(text) => text case Placeholder(key) => Braced(key)) + Print(template[1..])
  }

  /** All placeholders replaced at once. */
  function Fill(template: Template, values: map<string, string>): Template {
    if template == [] then []
    else
      [if template[0].Placeholder? && template[0].key in values then Literal(values[template[0].key]) else template[0]]
      + Fill(template[1..], values)
  }

  predicate Plain(key: string) {
    '{' !in key && '}' !in key
  }

  /** No occurrence of the braced key lies in the text or begins in it and runs on past its end. */
  predicate Harmless(text: string, key: string) {
    forall i | 0 <= i < |text| :: !(text[i..] <= Braced(key)) && !(Braced(key) <= text[i..])
  }

  /** A template of plain placeholders whose literal text does not interfere with the key. */
  predicate Safe(template: Template, key: string) {
    forall i | 0 <= i < |template| ::
      match template[i]
      case Literal(text) => Harmless(text, key)
      case Placeholder(other) => Plain(other)
  }

  /** No opening double brace, and none that could begin at the end. */
  predicate Clean(text: string) {
    && (forall i | 0 <= i < |text| - 1 :: !(text[i] == '{' && text[i + 1] == '{'))
    && (text != [] ==> text[|text| - 1] != '{')
  }

  lemma {:induction false} BracedOpens(key: string)
    ensures |Braced(key)| >= 4 && Braced(key)[0] == '{' && Braced(key)[1] == '{'
  {
  }

  /** Clean text is harmless to every key. */
  lemma {:induction false} CleanIsHarmless(text: string, key: string)
    requires Clean(text)
    ensures Harmless(text, key)
  {
    BracedOpens(key);
    forall i | 0 <= i < |text| ensures !(text[i..] <= Braced(key)) && !(Braced(key) <= text[i..]) {
      var tail := text[i..];
      assert tail[0] == text[i];
      if i + 1 < |text| {
        assert tail[1] == text[i + 1];
      }
    }
  }

  lemma {:induction false} PrefixOfJoined(p: string, a: string, b: string)
    requires p <= a + b
    ensures p <= a || a <= p
  {
    if |p| <= |a| {
      assert p == (a + b)[..|p|] == a[..|p|];
    } else {
      assert a == (a + b)[..|a|] == p[..|a|];
    }
  }

  lemma {:induction false} HarmlessTail(text: string, key: string)
    requires Harmless(text, key) && text != []
    ensures Harmless(text[1..], key)
  {
    var tail := text[1..];
    forall i | 0 <= i < |tail| ensures !(tail[i..] <= Braced(key)) && !(Braced(key) <= tail[i..]) {
      assert tail[i..] == text[i + 1..];
    }
  }

  lemma {:induction false} SkipHarmless(text: string, rest: string, key: string, value: string)
    requires Harmless(text, key)
    ensures Replace(text + rest, Braced(key), value) == text + Replace(rest, Braced(key), value)
    decreases |text|
  {
    if text == [] {
      assert text + rest == rest;
    } else {
      var whole := text + rest;
      assert whole[1..] == text[1..] + rest;
      assert text == [text[0]] + text[1..];
      assert text[0..] == text;
      HarmlessTail(text, key);
      SkipHarmless(text[1..], rest, key, value);
      if Braced(key) <= whole {
        PrefixOfJoined(Braced(key), text, rest);
      }
    }
  }

  lemma {:induction false} BracedPrefix(key: string, other: string, rest: string)
    requires '}' !in key && '}' !in other && Braced(key) <= Braced(other) + rest
    ensures key == other
  {
    var whole := Braced(other) + rest;
    var shorter := if |key| < |other| then |key| else |other|;
    assert whole[2 + shorter] == Braced(other)[2 + shorter] == (other + "}}")[shorter];
    assert whole[2 + shorter] == Braced(key)[2 + shorter] == (key + "}}")[shorter];
    assert |key| == |other|;
    forall i | 0 <= i < |key| ensures key[i] == other[i] {
      assert whole[2 + i] == Braced(key)[2 + i] == key[i];
    }
  }

  lemma {:induction false} ReplaceHere(key: string, rest: string, value: string)
    ensures Replace(Braced(key) + rest, Braced(key), value) == value + Replace(rest, Braced(key), value)
  {
    var whole := Braced(key) + rest;
    assert Braced(key) <= whole && whole[|Braced(key)|..] == rest;
  }

  lemma {:induction false} SkipOther(key: string, other: string, rest: string, value: string)
    requires Plain(key) && Plain(other) && key != other
    ensures Replace(Braced(other) + rest, Braced(key), value) == Braced(other) + Replace(rest, Braced(key), value)
  {
    var whole := Braced(other) + rest;
    var inner := other + "}}";
    var tail := "{" + (inner + rest);
    assert whole[0] == '{' && whole[1..] == tail;
    if Braced(key) <= whole {
      BracedPrefix(key, other, rest);
    }
    assert tail[1] == inner[0] && tail[1..] == inner + rest;
    if Braced(key) <= tail {
      BracedOpens(key);
    }
    assert Clean(inner) by {
      assert forall i | 0 <= i < |inner| :: inner[i] != '{';
    }
    CleanIsHarmless(inner, key);
    SkipHarmless(inner, rest, key, value);
    assert Braced(other) == ['{'] + (['{'] + inner);
  }

  lemma {:induction false} SafeTail(template: Template, key: string)
    requires Safe(template, key) && template != []
    ensures Safe(template[1..], key)
  {
    assert forall i | 0 <= i < |template[1..]| :: template[1..][i] == template[i + 1];
  }

  /** Replacing one key in the printed template is filling that one placeholder. */
  lemma {:induction false} ReplaceIsFill(template: Template, key: string, value: string)
    requires Safe(template, key) && Plain(key)
    ensures Replace(Print(template), Braced(key), value) == Print(Fill(template, map[key := value]))
  {
    if template != [] {
      SafeTail(template, key);
      ReplaceIsFill(template[1..], key, value);
      var rest := Print(template[1..]);
      match template[0] {
        case Literal(text) => SkipHarmless(text, rest, key, value);
        case Placeholder(other) =>
          if other == key {
            ReplaceHere(key, rest, value);
          } else {
            SkipOther(key, other, rest, value);
          }
      }
    }
  }

  lemma {:induction false} FillKeepsSafe(template: Template, key: string, value: string, other: string)
    requires Safe(template, other) && Harmless(value, other)
    ensures Safe(Fill(template, map[key := value]), other)
  {
    if template != [] {
      SafeTail(template, other);
      FillKeepsSafe(template[1..], key, value, other);
    }
  }

  lemma {:induction false} FillTwice(template: Template, key: string, value: string, values: map<string, string>)
    requires key !in values
    ensures Fill(Fill(template, map[key := value]), values) == Fill(template, values[key := value])
  {
    if template != [] {
      FillTwice(template[1..], key, value, values);
      assert Fill(template, map[key := value])[1..] == Fill(template[1..], map[key := value]);
    }
  }

  lemma {:induction false} FillNothing(template: Template)
    ensures Fill(template, map[]) == template
  {
    if template != [] {
      FillNothing(template[1..]);
    }
  }

  /** Replacing a key by its own placeholder changes nothing. */
  lemma {:induction false} ReplaceBySelf(text: string, pattern: string)
    requires pattern != []
    ensures Replace(text, pattern, pattern) == text
    decreases |text|
  {
    if text != [] {
      if pattern <= text {
        ReplaceBySelf(text[|pattern|..], pattern);
        assert text == pattern + text[|pattern|..];
      } else {
        ReplaceBySelf(text[1..], pattern);
        assert text == [text[0]] + text[1..];
      }
    }
  }

  lemma {:induction false} FillBySelf(template: Template, key: string, values: map<string, string>)
    requires key !in values
    ensures Print(Fill(template, values[key := Braced(key)])) == Print(Fill(template, values))
  {
    if template != [] {
      FillBySelf(template[1..], key, values);
    }
  }

  // Several entries.

  predicate DistinctKeys(entries: seq<(string, string)>) {
    forall i, j | 0 <= i < j < |entries| :: entries[i].0 != entries[j].0
  }

  function Values(entries: seq<(string, string)>): (values: map<string, string>)
    ensures forall key :: key in values <==> exists i | 0 <= i < |entries| :: entries[i].0 == key
  {
    if entries == [] then map[] else Values(entries[1..])[entries[0].0 := entries[0].1]
  }

  predicate PlainKeys(entries: seq<(string, string)>) {
    forall i | 0 <= i < |entries| :: Plain(entries[i].0)
  }

  /** A replaced-in value leaves a later replacement alone: it holds and begins no occurrence of the later
      key, or that key is replaced by its own placeholder. */
  predicate Settled(value: string, later: string, laterValue: string) {
    Harmless(value, later) || laterValue == Braced(later)
  }

  predicate SettledInOrder(entries: seq<(string, string)>) {
    forall i, j | 0 <= i < j < |entries| :: Settled(entries[i].1, entries[j].0, entries[j].1)
  }

  predicate Fits(template: Template, entries: seq<(string, string)>) {
    forall j | 0 <= j < |entries| :: Safe(template, entries[j].0) || entries[j].1 == Braced(entries[j].0)
  }

  lemma {:induction false} FillStillFits(template: Template, key: string, value: string,
                                         rest: seq<(string, string)>)
    requires Fits(template, rest)
    requires forall j | 0 <= j < |rest| :: Settled(value, rest[j].0, rest[j].1)
    ensures Fits(Fill(template, map[key := value]), rest)
  {
    forall j | 0 <= j < |rest| && rest[j].1 != Braced(rest[j].0)
      ensures Safe(Fill(template, map[key := value]), rest[j].0)
    {
      FillKeepsSafe(template, key, value, rest[j].0);
    }
  }

  /** One key after another gives the same text as all at once. */
  lemma {:induction false} SequentialIsSimultaneous(template: Template, entries: seq<(string, string)>)
    requires PlainKeys(entries) && DistinctKeys(entries) && Fits(template, entries) && SettledInOrder(entries)
    ensures ReplaceAll(Print(template), entries) == Print(Fill(template, Values(entries)))
    decreases |entries|
  {
    if entries == [] {
      FillNothing(template);
    } else {
      var (key, value) := entries[0];
      var rest := entries[1..];
      assert forall i | 0 <= i < |rest| :: rest[i] == entries[i + 1];
      assert Plain(entries[0].0) && key !in Values(rest);
      if value == Braced(key) {
        ReplaceBySelf(Print(template), Braced(key));
        SequentialIsSimultaneous(template, rest);
        FillBySelf(template, key, Values(rest));
      } else {
        ReplaceIsFill(template, key, value);
        FillStillFits(template, key, value, rest);
        SequentialIsSimultaneous(Fill(template, map[key := value]), rest);
        FillTwice(template, key, value, Values(rest));
      }
    }
  }

  // The other direction, for the two entries that the program renders with.

  /** Replacing a pattern that occurs, by anything but itself, changes the text. */
  lemma {:induction false} ReplaceLength(text: string, pattern: string, value: string)
    requires pattern != []
    ensures |value| >= |pattern| ==> |Replace(text, pattern, value)| >= |text|
    ensures |value| <= |pattern| ==> |Replace(text, pattern, value)| <= |text|
    decreases |text|
  {
    if text != [] {
      if pattern <= text {
        ReplaceLength(text[|pattern|..], pattern, value);
      } else {
        ReplaceLength(text[1..], pattern, value);
      }
    }
  }

  lemma {:induction false} ReplaceShows(text: string, pattern: string, value: string, i: nat)
    requires pattern != [] && value != pattern && i <= |text| && pattern <= text[i..]
    ensures Replace(text, pattern, value) != text
    ensures |value| > |pattern| ==> |Replace(text, pattern, value)| > |text|
    ensures |value| < |pattern| ==> |Replace(text, pattern, value)| < |text|
    decreases |text|
  {
    if pattern <= text {
      var rest := Replace(text[|pattern|..], pattern, value);
      ReplaceLength(text[|pattern|..], pattern, value);
      if |value| == |pattern| {
        assert (value + rest)[..|value|] == value && text[..|pattern|] == pattern;
      }
    } else {
      assert text[0..] == text && text[1..][i - 1..] == text[i..];
      ReplaceShows(text[1..], pattern, value, i - 1);
      assert Replace(text, pattern, value)[1..] == Replace(text[1..], pattern, value);
    }
  }

  /** What completes the occurrence of the braced key that a harmful text holds or begins at i. */
  function Completion(text: string, key: string, i: nat): string
    requires i < |text| && (text[i..] <= Braced(key) || Braced(key) <= text[i..])
  {
    if Braced(key) <= text[i..] then "" else Braced(key)[|text| - i..]
  }

  lemma {:induction false} CompletionCompletes(text: string, key: string, i: nat)
    requires i < |text| && (text[i..] <= Braced(key) || Braced(key) <= text[i..])
    ensures Braced(key) <= (text + Completion(text, key, i))[i..]
  {
    var rest := Completion(text, key, i);
    assert (text + rest)[i..] == text[i..] + rest;
  }

  lemma {:induction false} CompletionIsClean(text: string, key: string, i: nat)
    requires i < |text| && (text[i..] <= Braced(key) || Braced(key) <= text[i..]) && Plain(key)
    ensures Clean(Completion(text, key, i))
  {
    var rest := Completion(text, key, i);
    var n := |text| - i;
    if rest != "" {
      assert forall k | 0 <= k < |rest| :: rest[k] == Braced(key)[n + k];
      assert forall k | 2 <= k < |Braced(key)| :: Braced(key)[k] == (key + "}}")[k - 2];
      assert forall k | 0 <= k < |key + "}}"| :: (key + "}}")[k] != '{';
    }
  }

  /** The template that shows the harm. */
  function Witness(key: string, value: string, later: string, i: nat): Template
    requires i < |value| && (value[i..] <= Braced(later) || Braced(later) <= value[i..])
  {
    [Placeholder(key), Literal(Completion(value, later, i))]
  }

  lemma {:induction false} WitnessIsSafe(key: string, value: string, later: string, i: nat, other: string)
    requires i < |value| && (value[i..] <= Braced(later) || Braced(later) <= value[i..])
    requires Plain(key) && Plain(later)
    ensures Safe(Witness(key, value, later, i), other)
  {
    CompletionIsClean(value, later, i);
    CleanIsHarmless(Completion(value, later, i), other);
  }

  lemma {:induction false} FillWitness(key: string, value: string, later: string, i: nat, values: map<string, string>)
    requires i < |value| && (value[i..] <= Braced(later) || Braced(later) <= value[i..])
    requires key in values && values[key] == value
    ensures Print(Fill(Witness(key, value, later, i), values)) == value + Completion(value, later, i)
  {
    var template := Witness(key, value, later, i);
    var literal := Literal(Completion(value, later, i));
    assert template[1..] == [literal] && [literal][1..] == [];
    assert Fill([literal], values) == [literal];
    assert Print([literal][1..]) == [] && Print([literal]) == literal.text;
    var filled := Fill(template, values);
    assert filled == [Literal(value), literal] && filled[1..] == [literal];
  }

  lemma {:induction false} ReplaceTwo(body: string, key: string, value: string, later: string, laterValue: string)
    ensures ReplaceAll(body, [(key, value), (later, laterValue)])
            == Replace(Replace(body, Braced(key), value), Braced(later), laterValue)
  {
    var second := (later, laterValue);
    assert [(key, value), second][1..] == [second] && [second][1..] == [];
    var once := Replace(body, Braced(key), value);
    assert ReplaceAll(once, [second]) == ReplaceAll(Replace(once, Braced(later), laterValue), []);
  }

  /** On the witness, replacing the later key second gives a text that filling at once does not. */
  lemma {:induction false} WitnessShows(key: string, value: string, later: string, laterValue: string, i: nat)
    requires i < |value| && (value[i..] <= Braced(later) || Braced(later) <= value[i..])
    requires Plain(key) && Plain(later) && laterValue != Braced(later)
    ensures ReplaceAll(Print(Witness(key, value, later, i)), [(key, value), (later, laterValue)])
            != value + Completion(value, later, i)
  {
    var template := Witness(key, value, later, i);
    var whole := value + Completion(value, later, i);
    WitnessIsSafe(key, value, later, i, key);
    ReplaceIsFill(template, key, value);
    FillWitness(key, value, later, i, map[key := value]);
    CompletionCompletes(value, later, i);
    ReplaceShows(whole, Braced(later), laterValue, i);
    ReplaceTwo(Print(template), key, value, later, laterValue);
  }

  lemma {:induction false} ValuesOfTwo(key: string, value: string, later: string, laterValue: string)
    requires key != later
    ensures Values([(key, value), (later, laterValue)]) == map[key := value, later := laterValue]
  {
    var second := (later, laterValue);
    assert [(key, value), second][1..] == [second] && [second][1..] == [];
    assert Values([second]) == map[later := laterValue];
  }

  lemma {:induction false} TwoEntriesFit(template: Template, key: string, value: string, later: string,
      laterValue: string)
    requires Plain(key) && Plain(later) && key != later
    requires Safe(template, key) && Safe(template, later) && Settled(value, later, laterValue)
    ensures ReplaceAll(Print(template), [(key, value), (later, laterValue)])
            == Print(Fill(template, map[key := value, later := laterValue]))
  {
    ValuesOfTwo(key, value, later, laterValue);
    SequentialIsSimultaneous(template, [(key, value), (later, laterValue)]);
  }

  /** For two entries: replacing one key and then the other is filling both at once, in every template that
      is safe for both, if and only if the first value is settled against the second key. */
  lemma {:induction false} SimultaneousIff(key: string, value: string, later: string, laterValue: string)
    requires Plain(key) && Plain(later) && key != later
    ensures (forall template: Template | Safe(template, key) && Safe(template, later) ::
               ReplaceAll(Print(template), [(key, value), (later, laterValue)])
               == Print(Fill(template, map[key := value, later := laterValue])))
            <==> Settled(value, later, laterValue)
  {
    if Settled(value, later, laterValue) {
      forall template: Template | Safe(template, key) && Safe(template, later)
        ensures ReplaceAll(Print(template), [(key, value), (later, laterValue)])
                == Print(Fill(template, map[key := value, later := laterValue]))
      {
        TwoEntriesFit(template, key, value, later, laterValue);
      }
    } else {
      var i :| 0 <= i < |value| && (value[i..] <= Braced(later) || Braced(later) <= value[i..]);
      WitnessIsSafe(key, value, later, i, key);
      WitnessIsSafe(key, value, later, i, later);
      WitnessShows(key, value, later, laterValue, i);
      FillWitness(key, value, later, i, map[key := value, later := laterValue]);
    }
  }

  ghost predicate OrderIsInvisible(key: string, value: string, other: string, otherValue: string) {
    forall template: Template | Safe(template, key) && Safe(template, other) ::
      ReplaceAll(Print(template), [(key, value), (other, otherValue)])
      == ReplaceAll(Print(template), [(other, otherValue), (key, value)])
  }

  lemma {:induction false} HarmIsVisible(key: string, value: string, later: string, laterValue: string)
    requires Plain(key) && Plain(later) && key != later && !Settled(value, later, laterValue)
    ensures exists template: Template | Safe(template, key) && Safe(template, later) ::
              ReplaceAll(Print(template), [(key, value), (later, laterValue)])
              != ReplaceAll(Print(template), [(later, laterValue), (key, value)])
  {
    var i :| 0 <= i < |value| && (value[i..] <= Braced(later) || Braced(later) <= value[i..]);
    var template := Witness(key, value, later, i);
    WitnessIsSafe(key, value, later, i, key);
    WitnessIsSafe(key, value, later, i, later);
    WitnessShows(key, value, later, laterValue, i);
    ReplaceIsFill(template, later, laterValue);
    assert template[1..] == [template[1]] && [template[1]][1..] == [];
    assert Fill([template[1]], map[later := laterValue]) == [template[1]];
    assert Fill(template, map[later := laterValue]) == template;
    ReplaceIsFill(template, key, value);
    FillWitness(key, value, later, i, map[key := value]);
    ReplaceTwo(Print(template), later, laterValue, key, value);
  }

  /** And the order of two entries is invisible, in every template that is safe for both, if and only if each
      value is settled against the other key. */
  lemma {:induction false} OrderIsInvisibleIff(key: string, value: string, other: string, otherValue: string)
    requires Plain(key) && Plain(other) && key != other
    ensures OrderIsInvisible(key, value, other, otherValue)
            <==> Settled(value, other, otherValue) && Settled(otherValue, key, value)
  {
    if !Settled(value, other, otherValue) {
      HarmIsVisible(key, value, other, otherValue);
    } else if !Settled(otherValue, key, value) {
      HarmIsVisible(other, otherValue, key, value);
    } else {
      forall template: Template | Safe(template, key) && Safe(template, other)
        ensures ReplaceAll(Print(template), [(key, value), (other, otherValue)])
                == ReplaceAll(Print(template), [(other, otherValue), (key, value)])
      {
        TwoEntriesFit(template, key, value, other, otherValue);
        TwoEntriesFit(template, other, otherValue, key, value);
        assert map[key := value, other := otherValue] == map[other := otherValue, key := value];
      }
    }
  }

  // Rendering.

  /** A hash map whose keys are plain and whose values are settled against each other's keys. */
  ghost predicate SettledValues(values: map<string, string>) {
    && (forall key | key in values :: Plain(key))
    && forall key, other | key in values && other in values && key != other ::
         Settled(values[key], other, values[other])
  }

  lemma {:induction false} ValueOfEntry(entries: seq<(string, string)>, i: nat)
    requires DistinctKeys(entries) && i < |entries|
    ensures entries[i].0 in Values(entries) && Values(entries)[entries[i].0] == entries[i].1
  {
    if i > 0 {
      assert forall k | 0 <= k < |entries[1..]| :: entries[1..][k] == entries[k + 1];
      ValueOfEntry(entries[1..], i - 1);
    }
  }

  /** Rendering fills every placeholder of the template that has a value, and leaves the others. */
  lemma {:induction false} RenderFills(templates: map<string, string>, name: string, template: Template,
                                       entries: seq<(string, string)>)
    requires name in templates ==> templates[name] == Print(template)
    requires DistinctKeys(entries) && SettledValues(Values(entries))
    requires forall key | key in Values(entries) :: Safe(template, key)
    ensures Render(templates, name, entries) ==
            if name in templates then Success(Print(Fill(template, Values(entries))))
            else Failure(TemplateNotFound(name))
  {
    if name in templates {
      forall i | 0 <= i < |entries|
        ensures Plain(entries[i].0) && Safe(template, entries[i].0)
      {
        ValueOfEntry(entries, i);
      }
      forall i, j | 0 <= i < j < |entries| ensures Settled(entries[i].1, entries[j].0, entries[j].1) {
        ValueOfEntry(entries, i);
        ValueOfEntry(entries, j);
      }
      SequentialIsSimultaneous(template, entries);
    }
  }

  /** The rendered body does not depend on the order in which the hash map lists its entries. */
  lemma {:induction false} RenderIgnoresOrder(templates: map<string, string>, name: string, template: Template,
                                              a: seq<(string, string)>, b: seq<(string, string)>)
    requires name in templates ==> templates[name] == Print(template)
    requires DistinctKeys(a) && DistinctKeys(b) && Values(a) == Values(b) && SettledValues(Values(a))
    requires forall key | key in Values(a) :: Safe(template, key)
    ensures Render(templates, name, a) == Render(templates, name, b)
  {
    RenderFills(templates, name, template, a);
    RenderFills(templates, name, template, b);
  }

  // The mail of a password recovery: the user name is free text, so it may spell the other placeholder.

  function Renamed(template: Template, key: string, other: string): Template {
    if template == [] then []
    else
      [if template[0] == Placeholder(key) then Placeholder(other) else template[0]] + Renamed(template[1..], key, other)
  }

  lemma {:induction false} RenamedIsSafe(template: Template, key: string, other: string)
    requires Safe(template, other) && Plain(other)
    ensures Safe(Renamed(template, key, other), other)
  {
    if template != [] {
      SafeTail(template, other);
      RenamedIsSafe(template[1..], key, other);
    }
  }

  /** Filling a key with another's placeholder prints as renaming it. */
  lemma {:induction false} FillIsRename(template: Template, key: string, other: string)
    ensures Print(Fill(template, map[key := Braced(other)])) == Print(Renamed(template, key, other))
  {
    if template != [] {
      FillIsRename(template[1..], key, other);
    }
  }

  lemma {:induction false} FillRenamed(template: Template, key: string, other: string, value: string)
    ensures Fill(Renamed(template, key, other), map[other := value])
            == Fill(template, map[key := value, other := value])
  {
    if template != [] {
      FillRenamed(template[1..], key, other, value);
      assert Renamed(template, key, other)[1..] == Renamed(template[1..], key, other);
    }
  }

  function Shown(segment: Segment, values: map<string, string>): string {
    match segment
    case Literal(text) => text
    case Placeholder(key) => if key in values then values[key] else Braced(key)
  }

  lemma {:induction false} FillHead(template: Template, values: map<string, string>)
    requires template != []
    ensures Print(Fill(template, values)) == Shown(template[0], values) + Print(Fill(template[1..], values))
  {
    assert Fill(template, values)[1..] == Fill(template[1..], values);
  }

  /** The printed text shows the value of a key that occurs. */
  lemma {:induction false} FillShows(template: Template, key: string, values: map<string, string>, a: string, b: string)
    requires a != b && |a| <= |b|
    ensures |Print(Fill(template, values[key := a]))| <= |Print(Fill(template, values[key := b]))|
    ensures Placeholder(key) in template ==>
              Print(Fill(template, values[key := a])) != Print(Fill(template, values[key := b]))
    ensures Placeholder(key) in template && |a| < |b| ==>
              |Print(Fill(template, values[key := a]))| < |Print(Fill(template, values[key := b]))|
  {
    if template != [] {
      FillShows(template[1..], key, values, a, b);
      var rest := template[1..];
      var restA, restB := Print(Fill(rest, values[key := a])), Print(Fill(rest, values[key := b]));
      if template[0] == Placeholder(key) {
        assert Print(Fill(template, values[key := a])) == a + restA;
        assert Print(Fill(template, values[key := b])) == b + restB;
        if |a| == |b| {
          assert (a + restA)[..|a|] == a && (b + restB)[..|b|] == b;
        }
      } else {
        FillHead(template, values[key := a]);
        FillHead(template, values[key := b]);
        var first := Shown(template[0], values);
        assert (first + restA)[|first|..] == restA && (first + restB)[|first|..] == restB;
      }
    }
  }

  /** With the user name "{{callbackURI}}", every template that names the user renders to two different texts
      in the two orders of the map: the link stands in place of the name, or the raw placeholder does. */
  lemma {:induction false} NestedNameShowsTheOrder(template: Template, link: string)
    requires Safe(template, "username") && Safe(template, "callbackURI") && Placeholder("username") in template
    requires Harmless(link, "username") && link != "{{callbackURI}}"
    ensures var nameFirst := ReplaceAll(Print(template), [("username", "{{callbackURI}}"), ("callbackURI", link)]);
            var linkFirst := ReplaceAll(Print(template), [("callbackURI", link), ("username", "{{callbackURI}}")]);
            && nameFirst == Print(Fill(template, map["username" := link, "callbackURI" := link]))
            && linkFirst == Print(Fill(template, map["username" := "{{callbackURI}}", "callbackURI" := link]))
            && nameFirst != linkFirst
  {
    var user, callback := "username", "callbackURI";
    assert user != callback && Braced(callback) == "{{callbackURI}}";
    TwoEntriesFit(template, callback, link, user, Braced(callback));
    assert map[callback := link, user := Braced(callback)] == map[user := Braced(callback), callback := link];
    ReplaceIsFill(template, user, Braced(callback));
    FillIsRename(template, user, callback);
    RenamedIsSafe(template, user, callback);
    ReplaceIsFill(Renamed(template, user, callback), callback, link);
    FillRenamed(template, user, callback, link);
    ReplaceTwo(Print(template), user, Braced(callback), callback, link);
    var values := map[callback := link];
    assert map[user := link, callback := link] == values[user := link];
    assert map[user := Braced(callback), callback := link] == values[user := Braced(callback)];
    if |link| <= |Braced(callback)| {
      FillShows(template, user, values, link, Braced(callback));
    } else {
      FillShows(template, user, values, Braced(callback), link);
    }
  }

  function Sentence(text: string, key: string): Template {
    [Literal(text), Placeholder(key)]
  }

  /** The template of the recovery mail: it names the user twice, then links to the callback; the texts
      between are free. */
  function RecoveryMail(start: string, middle: string, upToLink: string, end: string): Template {
    Sentence(start, "username") + Sentence(middle, "username") + Sentence(upToLink, "callbackURI") + [Literal(end)]
  }

  lemma {:induction false} SentenceIsSafe(text: string, other: string, key: string)
    requires Clean(text) && Plain(other)
    ensures Safe(Sentence(text, other), key)
  {
    CleanIsHarmless(text, key);
  }

  lemma {:induction false} SafeConcat(a: Template, b: Template, key: string)
    requires Safe(a, key) && Safe(b, key)
    ensures Safe(a + b, key)
  {
  }

  lemma {:induction false} RecoveryMailIsSafe(start: string, middle: string, upToLink: string, end: string, key: string)
    requires Clean(start) && Clean(middle) && Clean(upToLink) && Clean(end)
    ensures Safe(RecoveryMail(start, middle, upToLink, end), key)
  {
    SentenceIsSafe(start, "username", key);
    SentenceIsSafe(middle, "username", key);
    SentenceIsSafe(upToLink, "callbackURI", key);
    CleanIsHarmless(end, key);
    var first, second := Sentence(start, "username"), Sentence(middle, "username");
    SafeConcat(first, second, key);
    SafeConcat(first + second, Sentence(upToLink, "callbackURI"), key);
    SafeConcat(first + second + Sentence(upToLink, "callbackURI"), [Literal(end)], key);
  }

  lemma {:induction false} NotClean(text: string)
    requires Clean(text)
    ensures text != "{{callbackURI}}"
  {
    var placeholder := "{{callbackURI}}";
    assert placeholder[0] == '{' && placeholder[0 + 1] == '{';
  }

  /** So the recovery mail of a user named "{{callbackURI}}" depends on the order of the map. */
  lemma {:induction false} RecoveryMailShowsTheOrder(start: string, middle: string, upToLink: string, end: string,
                                                     link: string)
    requires Clean(start) && Clean(middle) && Clean(upToLink) && Clean(end) && Clean(link)
    ensures var body := Print(RecoveryMail(start, middle, upToLink, end));
            ReplaceAll(body, [("username", "{{callbackURI}}"), ("callbackURI", link)])
            != ReplaceAll(body, [("callbackURI", link), ("username", "{{callbackURI}}")])
  {
    var template := RecoveryMail(start, middle, upToLink, end);
    RecoveryMailIsSafe(start, middle, upToLink, end, "username");
    RecoveryMailIsSafe(start, middle, upToLink, end, "callbackURI");
    CleanIsHarmless(link, "username");
    assert template[1] == Placeholder("username");
    NotClean(link);
    NestedNameShowsTheOrder(template, link);
  }
}
