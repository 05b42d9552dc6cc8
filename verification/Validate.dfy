/**
 * Argument validation (services/server-agent/src/validate.ts). The reading of
 * a non-number as a number, `Number(value)`, is a parameter: `None` when the
 * result is not an integer. Patterns are predicates on strings.
 */
module Validate {
  import opened Common

  datatype Json =
    | Null
    | Bool(truth: bool)
    | Num(number: real)
    | Str(text: string)
    | List(items: seq<Json>)
    | Object(fields: map<string, Json>)

  type ReadNumber = Json -> Option<int>

  datatype Kind =
    | Enum(values: seq<string>)
    | Pattern(matches: string -> bool, maxLength: nat)
    | Int(min: int, max: int)
    | Boolean

  datatype Spec = Spec(kind: Kind, required: bool, default: Option<Json>)

  datatype Entry = Entry(key: string, spec: Spec)

  /** The entries of a schema object, in order. */
  type Schema = seq<Entry>

  datatype ArgError =
    | TakesNoArguments
    | UnknownArgument
    | MissingRequired(key: string)
    | NotInEnum(key: string)
    | NotAString(key: string)
    | TooLong(key: string)
    | BadCharacters(key: string)
    | NotWhole(key: string)
    | OutOfRange(key: string)
    | NotBoolean(key: string)

  type Args = map<string, Json>

  ghost predicate DistinctKeys(schema: Schema) {
    forall i, j :: 0 <= i < j < |schema| ==> schema[i].key != schema[j].key
  }

  predicate Declares(schema: Schema, key: string) {
    exists i :: 0 <= i < |schema| && schema[i].key == key
  }

  /** Anything but an object counts as an empty one. */
  function Fields(raw: Json): Args {
    if raw.Object? then raw.fields else map[]
  }

  predicate Present(input: Args, key: string) {
    key in input && input[key] != Null
  }

  function Whole(number: ReadNumber, value: Json): Option<int> {
    if value.Num? then if value.number.Floor as real == value.number then Some(value.number.Floor) else None
    else number(value)
  }

  /** The value stored for a supplied argument. */
  function Check(number: ReadNumber, key: string, kind: Kind, value: Json): Result<Json, ArgError> {
    match kind
    case Enum(values) =>
      if value.Str? && value.text in values then Ok(value) else Err(NotInEnum(key))
    case Pattern(matches, maxLength) =>
      if !value.Str? then Err(NotAString(key))
      else if |value.text| > maxLength then Err(TooLong(key))
      else if !matches(value.text) then Err(BadCharacters(key))
      else Ok(value)
    case Int(min, max) =>
      (match Whole(number, value)
       case None => Err(NotWhole(key))
       case Some(n) => if n < min || n > max then Err(OutOfRange(key)) else Ok(Num(n as real)))
    case Boolean =>
      if value.Bool? then Ok(value) else Err(NotBoolean(key))
  }

  function Collect(number: ReadNumber, schema: Schema, input: Args, output: Args): Result<Args, ArgError> {
    if schema == [] then Ok(output)
    else
      var Entry(key, spec) := schema[0];
      if Present(input, key) then
        match Check(number, key, spec.kind, input[key])
        case Err(e) => Err(e)
        case Ok(value) => Collect(number, schema[1..], input, output[key := value])
      else if spec.required then Err(MissingRequired(key))
      else if spec.default.Some? then Collect(number, schema[1..], input, output[key := spec.default.value])
      else Collect(number, schema[1..], input, output)
  }

  function Parsed(number: ReadNumber, schema: Option<Schema>, raw: Json): Result<Args, ArgError> {
    var input := Fields(raw);
    if schema.None? then
      if input == map[] then Ok(map[]) else Err(TakesNoArguments)
    else if exists key <- input :: !Declares(schema.value, key) then Err(UnknownArgument)
    else Collect(number, schema.value, input, map[])
  }

  method ParseArgs(number: ReadNumber, schema: Option<Schema>, raw: Json) returns (result: Result<Args, ArgError>)
    ensures result == Parsed(number, schema, raw)
  {
    hide Declares;
    var input := Fields(raw);
    if schema.None? {
      return if input == map[] then Ok(map[]) else Err(TakesNoArguments);
    }
    var keys := input.Keys;
    while keys != {}
      invariant keys <= input.Keys
      invariant forall key <- input.Keys - keys :: Declares(schema.value, key)
    {
      var key :| key in keys;
      if !Declares(schema.value, key) {
        return Err(UnknownArgument);
      }
      keys := keys - {key};
    }
    assert forall key <- input :: key in input.Keys - keys;
    result := CollectArgs(number, schema.value, input);
  }

  method CollectArgs(number: ReadNumber, schema: Schema, input: Args) returns (result: Result<Args, ArgError>)
    ensures result == Collect(number, schema, input, map[])
  {
    hide Check;
    var output: Args := map[];
    for i := 0 to |schema|
      invariant Collect(number, schema[i..], input, output) == Collect(number, schema, input, map[])
    {
      var Entry(key, spec) := schema[i];
      assert schema[i..][0] == schema[i] && schema[i..][1..] == schema[i + 1..];
      if !Present(input, key) {
        if spec.required {
          return Err(MissingRequired(key));
        }
        if spec.default.Some? {
          output := output[key := spec.default.value];
        }
        continue;
      }
      var checked := Check(number, key, spec.kind, input[key]);
      if checked.Err? {
        return Err(checked.error);
      }
      output := output[key := checked.value];
    }
    assert schema[|schema|..] == [];
    result := Ok(output);
  }

  // ------------------------------------------------------------ what it accepts

  /** A value that needs no further check: it meets its specification as it stands. */
  predicate Meets(kind: Kind, value: Json) {
    match kind
    case Enum(values) => value.Str? && value.text in values
    case Pattern(matches, maxLength) => value.Str? && |value.text| <= maxLength && matches(value.text)
    case Int(min, max) => value.Num? && value.number.Floor as real == value.number && min <= value.number.Floor <= max
    case Boolean => value.Bool?
  }

  lemma CheckMeets(number: ReadNumber, key: string, kind: Kind, value: Json)
    ensures Check(number, key, kind, value).Ok? ==> Meets(kind, Check(number, key, kind, value).value)
    ensures Meets(kind, value) <==> Check(number, key, kind, value) == Ok(value)
  {
  }

  /** What a supplied value must be: an integer in range, or read as one, or a value that meets its kind. */
  predicate Satisfies(number: ReadNumber, kind: Kind, value: Json) {
    if kind.Int? && !value.Num? then number(value).Some? && kind.min <= number(value).value <= kind.max
    else Meets(kind, value)
  }

  /** What is kept of it: the integer it is read as, or the value itself. */
  predicate Stores(number: ReadNumber, kind: Kind, value: Json, stored: Json) {
    && Meets(kind, stored)
    && if kind.Int? && !value.Num? then number(value).Some? && stored == Num(number(value).value as real)
       else stored == value
  }

  lemma CheckIs(number: ReadNumber, key: string, kind: Kind, value: Json)
    ensures Check(number, key, kind, value).Ok? <==> Satisfies(number, kind, value)
    ensures Check(number, key, kind, value).Ok? ==> Stores(number, kind, value, Check(number, key, kind, value).value)
  {
  }

  predicate EntryAccepts(number: ReadNumber, entry: Entry, input: Args) {
    if Present(input, entry.key) then Check(number, entry.key, entry.spec.kind, input[entry.key]).Ok?
    else !entry.spec.required
  }

  /** What the output holds under one declared key: `None` when nothing. */
  function Held(number: ReadNumber, entry: Entry, input: Args): Option<Json>
    requires EntryAccepts(number, entry, input)
  {
    if Present(input, entry.key) then Some(Check(number, entry.key, entry.spec.kind, input[entry.key]).value)
    else entry.spec.default
  }

  function At(args: Args, key: string): Option<Json> {
    if key in args then Some(args[key]) else None
  }

  /** The output is exactly: under each declared key what is held there, elsewhere what was there before. */
  ghost predicate Collected(number: ReadNumber, schema: Schema, input: Args, before: Args, after: Args)
    requires forall i :: 0 <= i < |schema| ==> EntryAccepts(number, schema[i], input)
  {
    && (forall i :: 0 <= i < |schema| ==>
        var held := Held(number, schema[i], input);
        At(after, schema[i].key) == if held.Some? then held else At(before, schema[i].key))
    && (forall key :: !Declares(schema, key) ==> At(after, key) == At(before, key))
  }

  lemma {:induction false} CollectAccepts(number: ReadNumber, schema: Schema, input: Args, output: Args)
    ensures Collect(number, schema, input, output).Ok?
       <==> forall i :: 0 <= i < |schema| ==> EntryAccepts(number, schema[i], input)
    decreases |schema|
  {
    if schema == [] {
    } else {
      hide Check;
      var Entry(key, spec) := schema[0];
      assert forall i :: 0 <= i < |schema| - 1 ==> schema[1..][i] == schema[i + 1];
      if EntryAccepts(number, schema[0], input) {
        var held := Held(number, schema[0], input);
        CollectAccepts(number, schema[1..], input, if held.Some? then output[key := held.value] else output);
        assert schema == [schema[0]] + schema[1..];
      }
    }
  }

  lemma {:induction false} CollectHolds(number: ReadNumber, schema: Schema, input: Args, output: Args)
    requires DistinctKeys(schema) && forall i :: 0 <= i < |schema| ==> EntryAccepts(number, schema[i], input)
    ensures var result := Collect(number, schema, input, output);
      result.Ok? && Collected(number, schema, input, output, result.value)
    decreases |schema|
  {
    CollectAccepts(number, schema, input, output);
    if schema == [] {
    } else {
      hide Check, Collected;
      var (key, tail) := (schema[0].key, schema[1..]);
      var held := Held(number, schema[0], input);
      var output' := if held.Some? then output[key := held.value] else output;
      assert forall i :: 0 <= i < |tail| ==> tail[i] == schema[i + 1];
      CollectHolds(number, tail, input, output');
      CollectedOneMore(number, schema, input, output, Collect(number, schema, input, output).value);
    }
  }

  lemma DeclaresTail(schema: Schema, key: string)
    requires schema != []
    ensures Declares(schema, key) <==> schema[0].key == key || Declares(schema[1..], key)
  {
    if Declares(schema, key) && schema[0].key != key {
      var i :| 0 <= i < |schema| && schema[i].key == key;
      assert schema[1..][i - 1].key == key;
    }
    if Declares(schema[1..], key) {
      var i :| 0 <= i < |schema| - 1 && schema[1..][i].key == key;
      assert schema[i + 1].key == key;
    }
  }

  lemma CollectedOneMore(number: ReadNumber, schema: Schema, input: Args, output: Args, after: Args)
    requires schema != [] && DistinctKeys(schema)
    requires forall i :: 0 <= i < |schema| ==> EntryAccepts(number, schema[i], input)
    requires forall i :: 0 <= i < |schema| - 1 ==> schema[1..][i] == schema[i + 1]
    requires var held := Held(number, schema[0], input);
      Collected(number, schema[1..], input, if held.Some? then output[schema[0].key := held.value] else output, after)
    ensures Collected(number, schema, input, output, after)
  {
    hide Check, EntryAccepts, Held, Declares;
    var (first, tail) := (schema[0].key, schema[1..]);
    DeclaresTail(schema, first);
    assert !Declares(tail, first) by {
      assert forall i :: 0 <= i < |tail| ==> tail[i].key == schema[i + 1].key;
      NotDeclared(tail, first);
    }
    forall i | 0 <= i < |schema|
      ensures var held := Held(number, schema[i], input);
        At(after, schema[i].key) == if held.Some? then held else At(output, schema[i].key)
    {
      if i > 0 { assert tail[i - 1] == schema[i]; }
    }
    forall key | !Declares(schema, key) ensures At(after, key) == At(output, key) {
      DeclaresTail(schema, key);
    }
  }

  lemma NotDeclared(schema: Schema, key: string)
    requires forall i :: 0 <= i < |schema| ==> schema[i].key != key
    ensures !Declares(schema, key)
  {
  }

  // ---------------------------------------------------------------- the theorems

  /** Every supplied key is declared and every declared entry is satisfied. */
  ghost predicate Acceptable(number: ReadNumber, schema: Schema, raw: Json) {
    && (forall key <- Fields(raw) :: Declares(schema, key))
    && forall i :: 0 <= i < |schema| ==>
        if Present(Fields(raw), schema[i].key)
        then Satisfies(number, schema[i].spec.kind, Fields(raw)[schema[i].key])
        else !schema[i].spec.required
  }

  lemma EntriesAccept(number: ReadNumber, schema: Schema, raw: Json)
    ensures Acceptable(number, schema, raw) <==>
      && (forall key <- Fields(raw) :: Declares(schema, key))
      && forall i :: 0 <= i < |schema| ==> EntryAccepts(number, schema[i], Fields(raw))
  {
    hide Check, Satisfies, Declares, Stores;
    var input := Fields(raw);
    forall i | 0 <= i < |schema| && Present(input, schema[i].key)
      ensures EntryAccepts(number, schema[i], input)
         <==> Satisfies(number, schema[i].spec.kind, input[schema[i].key])
    {
      CheckIs(number, schema[i].key, schema[i].spec.kind, input[schema[i].key]);
    }
  }

  lemma ParsesIff(number: ReadNumber, schema: Schema, raw: Json)
    ensures Parsed(number, Some(schema), raw).Ok? <==> Acceptable(number, schema, raw)
  {
    EntriesAccept(number, schema, raw);
    hide EntryAccepts, Declares, Acceptable;
    CollectAccepts(number, schema, Fields(raw), map[]);
  }

  /** An input that is not an object is read as one without fields. */
  lemma NotAnObject(number: ReadNumber, schema: Option<Schema>, raw: Json)
    ensures !raw.Object? ==> Parsed(number, schema, raw) == Parsed(number, schema, Object(map[]))
    ensures Parsed(number, None, raw) == if raw.Object? && raw.fields != map[] then Err(TakesNoArguments) else Ok(map[])
  {
    hide Collect, Declares;
  }

  /** A null argument counts as one that was not given. */
  lemma NullIsAbsent(number: ReadNumber, schema: Schema, fields: Args, key: string)
    requires Declares(schema, key)
    ensures Parsed(number, Some(schema), Object(fields[key := Null]))
         == Parsed(number, Some(schema), Object(fields - {key}))
  {
    hide Declares, Collect;
    var (given, without) := (fields[key := Null], fields - {key});
    assert (forall k <- given :: Declares(schema, k)) <==> forall k <- without :: Declares(schema, k);
    CollectPresent(number, schema, given, without, map[]);
  }

  /** Only the values present matter. */
  lemma {:induction false} CollectPresent(number: ReadNumber, schema: Schema, a: Args, b: Args, output: Args)
    requires forall k :: Present(a, k) <==> Present(b, k)
    requires forall k :: Present(a, k) && Present(b, k) ==> a[k] == b[k]
    ensures Collect(number, schema, a, output) == Collect(number, schema, b, output)
    decreases |schema|
  {
    if schema == [] {
    } else {
      hide Present, Check;
      var Entry(key, spec) := schema[0];
      if Present(a, key) {
        var checked := Check(number, key, spec.kind, a[key]);
        if checked.Ok? {
          CollectPresent(number, schema[1..], a, b, output[key := checked.value]);
        }
      } else if spec.default.Some? {
        CollectPresent(number, schema[1..], a, b, output[key := spec.default.value]);
      } else {
        CollectPresent(number, schema[1..], a, b, output);
      }
    }
  }

  /**
   * What success promises: only declared keys, every required one among them,
   * under each supplied key its value, or the integer it is read as, meeting its
   * specification, and nothing in the place of an omitted argument but its
   * default.
   */
  lemma OutputMeets(number: ReadNumber, schema: Schema, raw: Json)
    requires DistinctKeys(schema) && Parsed(number, Some(schema), raw).Ok?
    ensures var output := Parsed(number, Some(schema), raw).value;
      && (forall key <- output :: Declares(schema, key))
      && (forall i :: 0 <= i < |schema| && schema[i].spec.required ==> schema[i].key in output)
      && (forall i :: 0 <= i < |schema| && Present(Fields(raw), schema[i].key) ==>
          && schema[i].key in output
          && Stores(number, schema[i].spec.kind, Fields(raw)[schema[i].key], output[schema[i].key]))
      && (forall i :: 0 <= i < |schema| && !Present(Fields(raw), schema[i].key) ==>
          At(output, schema[i].key) == schema[i].spec.default)
  {
    hide Declares, Check, Stores, Satisfies;
    var input := Fields(raw);
    ParsesIff(number, schema, raw);
    EntriesAccept(number, schema, raw);
    CollectHolds(number, schema, input, map[]);
    var output := Parsed(number, Some(schema), raw).value;
    forall i | 0 <= i < |schema| && Present(input, schema[i].key)
      ensures schema[i].key in output
      ensures Stores(number, schema[i].spec.kind, input[schema[i].key], output[schema[i].key])
    {
      CheckIs(number, schema[i].key, schema[i].spec.kind, input[schema[i].key]);
    }
    forall key | !Declares(schema, key) ensures key !in output {
      assert At(output, key) == At(map[], key);
    }
  }

  /** Parsing the default gives the default back, or it is skipped as absent and used again. */
  predicate StableDefault(spec: Spec) {
    spec.default.Some? && spec.default.value != Null ==> Meets(spec.kind, spec.default.value)
  }

  /** Every default that this input makes use of. */
  ghost predicate UsedDefaultsStable(schema: Schema, raw: Json) {
    forall i :: 0 <= i < |schema| && !Present(Fields(raw), schema[i].key) ==> StableDefault(schema[i].spec)
  }

  lemma EntryAgain(number: ReadNumber, entry: Entry, input: Args, output: Args)
    requires EntryAccepts(number, entry, input) && At(output, entry.key) == Held(number, entry, input)
    ensures (EntryAccepts(number, entry, output) && Held(number, entry, output) == At(output, entry.key))
       <==> (Present(input, entry.key) || StableDefault(entry.spec))
  {
    hide Check, Meets;
    var (key, kind) := (entry.key, entry.spec.kind);
    if Present(input, key) {
      CheckMeets(number, key, kind, input[key]);
      CheckMeets(number, key, kind, output[key]);
      MeetsIsValue(kind, output[key]);
    } else if key in output {
      CheckMeets(number, key, kind, output[key]);
    }
  }

  lemma MeetsIsValue(kind: Kind, value: Json)
    requires Meets(kind, value)
    ensures value != Null
  {
  }

  /**
   * Parsing the output again returns it unchanged if and only if every default
   * that was used meets its own specification.
   */
  lemma IdempotentIff(number: ReadNumber, schema: Schema, raw: Json)
    requires DistinctKeys(schema) && Parsed(number, Some(schema), raw).Ok?
    ensures var output := Parsed(number, Some(schema), raw).value;
      Parsed(number, Some(schema), Object(output)) == Ok(output) <==> UsedDefaultsStable(schema, raw)
  {
    hide Declares, Check, StableDefault, Held, EntryAccepts, Collect, Present, Acceptable, Stores;
    var (input, output) := (Fields(raw), Parsed(number, Some(schema), raw).value);
    ParsesIff(number, schema, raw);
    EntriesAccept(number, schema, raw);
    OutputMeets(number, schema, raw);
    CollectHolds(number, schema, input, map[]);
    ParsesIff(number, schema, Object(output));
    EntriesAccept(number, schema, Object(output));
    forall i | 0 <= i < |schema|
      ensures (EntryAccepts(number, schema[i], output) && Held(number, schema[i], output) == At(output, schema[i].key))
         <==> (Present(input, schema[i].key) || StableDefault(schema[i].spec))
    {
      assert At(output, schema[i].key) == Held(number, schema[i], input);
      EntryAgain(number, schema[i], input, output);
    }
    if Acceptable(number, schema, Object(output)) {
      CollectHolds(number, schema, output, map[]);
      SameAgain(number, schema, output, Collect(number, schema, output, map[]).value);
    }
  }

  /** Two outputs with the same declared entries are equal. */
  lemma SameAgain(number: ReadNumber, schema: Schema, output: Args, again: Args)
    requires forall i :: 0 <= i < |schema| ==> EntryAccepts(number, schema[i], output)
    requires Collected(number, schema, output, map[], again)
    requires forall key <- output :: Declares(schema, key)
    ensures again == output
       <==> forall i :: 0 <= i < |schema| ==> Held(number, schema[i], output) == At(output, schema[i].key)
  {
    hide EntryAccepts, Held;
    if forall i :: 0 <= i < |schema| ==> Held(number, schema[i], output) == At(output, schema[i].key) {
      forall key ensures At(again, key) == At(output, key) {
        if Declares(schema, key) {
          var i :| 0 <= i < |schema| && schema[i].key == key;
        }
      }
      assert forall key :: key in again <==> At(again, key).Some?;
      assert forall key :: key in output <==> At(output, key).Some?;
      assert forall key :: key in again && key in output ==> At(again, key) == At(output, key);
    }
  }
}
