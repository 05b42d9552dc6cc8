/**
 * The operation registry and the preparation of a request
 * (services/server-agent/src/registry.ts, services/server-agent/src/server.ts).
 */
module Operations {
  import opened Common
  import opened Validate

  /** `confirmPhrase` is `None` when the operation declares none. */
  datatype Operation = Operation(id: string, danger: bool, confirmPhrase: Option<string>, schema: Option<Schema>)

  datatype RegisterError = Duplicate(id: string) | NoPhrase(id: string)

  /** Absent members are `None`; a present `operation` may still not be a string. */
  datatype Request = Request(operation: Option<Json>, args: Option<Json>, confirm: Option<Json>)

  datatype PrepareError = NoOperation | UnknownOperation | BadArguments(error: ArgError) | Unconfirmed

  datatype Prepared = Prepared(operation: Operation, args: Args)

  type Table = map<string, Operation>

  predicate HasPhrase(operation: Operation) {
    operation.confirmPhrase.Some? && operation.confirmPhrase.value != ""
  }

  /** One registration: `Err` leaves the table as it was. */
  function Add(table: Table, operation: Operation): Result<Table, RegisterError> {
    if operation.id in table then Err(Duplicate(operation.id))
    else if operation.danger && !HasPhrase(operation) then Err(NoPhrase(operation.id))
    else Ok(table[operation.id := operation])
  }

  /** How many of the operations a call registers before it throws. */
  function Registered(table: Table, operations: seq<Operation>): (n: nat)
    ensures n <= |operations|
    decreases |operations|
  {
    if operations == [] || Add(table, operations[0]).Err? then 0
    else 1 + Registered(Add(table, operations[0]).value, operations[1..])
  }

  function AddAll(table: Table, operations: seq<Operation>): Table
    decreases |operations|
  {
    if operations == [] || Add(table, operations[0]).Err? then table
    else AddAll(Add(table, operations[0]).value, operations[1..])
  }

  /** Filed under its own id, and with something to type when it is dangerous. */
  ghost predicate Guarded(table: Table) {
    forall id <- table :: table[id].id == id && (table[id].danger ==> HasPhrase(table[id]))
  }

  /** `prepare`. */
  function PreparedFrom(number: ReadNumber, table: Table, request: Request): Result<Prepared, PrepareError> {
    if request.operation.None? || !request.operation.value.Str? then Err(NoOperation)
    else if request.operation.value.text !in table then Err(UnknownOperation)
    else
      var operation := table[request.operation.value.text];
      match Parsed(number, operation.schema, GivenArgs(request))
      case Err(e) => Err(BadArguments(e))
      case Ok(args) =>
        if operation.danger && request.confirm != Phrase(operation) then Err(Unconfirmed)
        else Ok(Prepared(operation, args))
  }

  function GivenArgs(request: Request): Json {
    if request.args.Some? && request.args.value != Null then request.args.value else Object(map[])
  }

  function Phrase(operation: Operation): Option<Json> {
    match operation.confirmPhrase
    case None => None
    case Some(phrase) => Some(Str(phrase))
  }

  class Registry {
    var table: Table

    constructor ()
      ensures table == map[]
    {
      table := map[];
    }

    /** Stops at the first operation it refuses, keeping those before it. */
    method Register(operations: seq<Operation>) returns (error: Option<RegisterError>)
      modifies this
      ensures table == AddAll(old(table), operations)
      ensures var n := Registered(old(table), operations);
        error == (
          if n == |operations| then None
          else if operations[n].id in table then Some(Duplicate(operations[n].id))
          else Some(NoPhrase(operations[n].id)))
      ensures old(Guarded(table)) ==> Guarded(table)
    {
      ghost var before := table;
      for i := 0 to |operations|
        invariant AddAll(table, operations[i..]) == AddAll(before, operations)
        invariant i + Registered(table, operations[i..]) == Registered(before, operations)
        invariant Guarded(before) ==> Guarded(table)
      {
        var operation := operations[i];
        assert operations[i..][0] == operation && operations[i..][1..] == operations[i + 1..];
        if operation.id in table {
          return Some(Duplicate(operation.id));
        }
        if operation.danger && !HasPhrase(operation) {
          return Some(NoPhrase(operation.id));
        }
        table := table[operation.id := operation];
      }
      error := None;
    }

    method Prepare(number: ReadNumber, request: Request) returns (result: Result<Prepared, PrepareError>)
      ensures result == PreparedFrom(number, table, request)
    {
      hide Parsed;
      if request.operation.None? || !request.operation.value.Str? {
        return Err(NoOperation);
      }
      if request.operation.value.text !in table {
        return Err(UnknownOperation);
      }
      var operation := table[request.operation.value.text];
      var args := ParseArgs(number, operation.schema, GivenArgs(request));
      if args.Err? {
        return Err(BadArguments(args.error));
      }
      if operation.danger {
        if request.confirm != Phrase(operation) {
          return Err(Unconfirmed);
        }
      }
      result := Ok(Prepared(operation, args.value));
    }
  }

  // ---------------------------------------------------------------- the theorems

  /** The table after any run of registrations, thrown or not. */
  function AfterRuns(table: Table, runs: seq<seq<Operation>>): Table
    decreases |runs|
  {
    if runs == [] then table else AfterRuns(AddAll(table, runs[0]), runs[1..])
  }

  lemma {:induction false} AddAllGuarded(table: Table, operations: seq<Operation>)
    requires Guarded(table)
    ensures Guarded(AddAll(table, operations))
    decreases |operations|
  {
    if operations != [] && Add(table, operations[0]).Ok? {
      AddAllGuarded(Add(table, operations[0]).value, operations[1..]);
    }
  }

  lemma {:induction false} RunsGuarded(table: Table, runs: seq<seq<Operation>>)
    requires Guarded(table)
    ensures Guarded(AfterRuns(table, runs))
    decreases |runs|
  {
    if runs == [] {
    } else {
      AddAllGuarded(table, runs[0]);
      RunsGuarded(AddAll(table, runs[0]), runs[1..]);
    }
  }

  /** Registration never replaces an operation: what is under an id stays there. */
  lemma {:induction false} NeverShadowed(table: Table, operations: seq<Operation>, id: string)
    requires id in table
    ensures id in AddAll(table, operations) && AddAll(table, operations)[id] == table[id]
    decreases |operations|
  {
    if operations != [] && Add(table, operations[0]).Ok? {
      NeverShadowed(Add(table, operations[0]).value, operations[1..], id);
    }
  }

  /** What a call registers is new and distinct, and has a phrase wherever it is dangerous. */
  ghost predicate Registrable(table: Table, operations: seq<Operation>) {
    && (forall i :: 0 <= i < |operations| ==> operations[i].id !in table)
    && (forall i, j :: 0 <= i < j < |operations| ==> operations[i].id != operations[j].id)
    && (forall i :: 0 <= i < |operations| && operations[i].danger ==>
        operations[i].confirmPhrase.Some? && operations[i].confirmPhrase.value != "")
  }

  /** Each operation under its own id, beside what was there. */
  ghost predicate Extended(before: Table, operations: seq<Operation>, after: Table) {
    && (forall id <- before :: id in after && after[id] == before[id])
    && (forall i :: 0 <= i < |operations| ==> operations[i].id in after && after[operations[i].id] == operations[i])
    && (forall id <- after :: id in before || exists i :: 0 <= i < |operations| && operations[i].id == id)
  }

  ghost predicate LongestRegistrable(table: Table, operations: seq<Operation>, n: nat) {
    && n <= |operations| && Registrable(table, operations[..n])
    && (n < |operations| ==> !Registrable(table, operations[..n + 1]))
  }

  /** A call registers the longest beginning of its operations that can be registered. */
  lemma {:induction false} RegisteredExactly(table: Table, operations: seq<Operation>)
    ensures var n := Registered(table, operations);
      LongestRegistrable(table, operations, n) && Extended(table, operations[..n], AddAll(table, operations))
    decreases |operations|
  {
    if operations == [] || Add(table, operations[0]).Err? {
      NothingRegistered(table, operations);
    } else {
      hide Registrable, Extended, LongestRegistrable;
      var (first, tail) := (operations[0], operations[1..]);
      var table' := Add(table, first).value;
      RegisteredExactly(table', tail);
      var n := Registered(table', tail);
      LongestMore(table, operations, n);
      FirstThen(operations, n);
      ExtendedMore(table, first, tail[..n], AddAll(table', tail));
    }
  }

  lemma LongestMore(table: Table, operations: seq<Operation>, n: nat)
    requires operations != [] && Add(table, operations[0]).Ok?
    requires LongestRegistrable(Add(table, operations[0]).value, operations[1..], n)
    ensures LongestRegistrable(table, operations, n + 1)
  {
    hide Registrable;
    var (first, tail) := (operations[0], operations[1..]);
    FirstThen(operations, n);
    RegistrableMore(table, first, tail[..n]);
    if n < |tail| {
      FirstThen(operations, n + 1);
      RegistrableMore(table, first, tail[..n + 1]);
    }
  }

  lemma FirstThen(operations: seq<Operation>, n: nat)
    requires n < |operations|
    ensures operations[..n + 1] == [operations[0]] + operations[1..][..n]
  {
  }

  lemma NothingRegistered(table: Table, operations: seq<Operation>)
    requires operations == [] || Add(table, operations[0]).Err?
    ensures Registrable(table, operations[..0]) && Extended(table, operations[..0], table)
    ensures operations != [] ==> !Registrable(table, operations[..1])
  {
    if operations != [] {
      assert operations[..1][0] == operations[0];
    }
  }

  lemma RegistrableMore(table: Table, first: Operation, rest: seq<Operation>)
    requires Add(table, first).Ok?
    ensures Registrable(table, [first] + rest) <==> Registrable(table[first.id := first], rest)
  {
    var all := [first] + rest;
    if Registrable(table[first.id := first], rest) {
      forall i, j | 0 <= i < j < |all| ensures all[i].id != all[j].id {
        assert rest[j - 1] == all[j];
      }
    }
    if Registrable(table, all) {
      forall i, j | 0 <= i < j < |rest| ensures rest[i].id != rest[j].id {
        assert all[i + 1] == rest[i] && all[j + 1] == rest[j];
      }
      forall i | 0 <= i < |rest| ensures rest[i].id !in table[first.id := first] {
        assert all[i + 1] == rest[i] && all[0] == first;
      }
      forall i | 0 <= i < |rest| && rest[i].danger
        ensures rest[i].confirmPhrase.Some? && rest[i].confirmPhrase.value != ""
      {
        assert all[i + 1] == rest[i];
      }
    }
  }

  lemma ExtendedMore(table: Table, first: Operation, rest: seq<Operation>, after: Table)
    requires first.id !in table && Extended(table[first.id := first], rest, after)
    ensures Extended(table, [first] + rest, after)
  {
    var all := [first] + rest;
    forall i | 0 <= i < |all| ensures all[i].id in after && after[all[i].id] == all[i] {
      if i > 0 { assert rest[i - 1] == all[i]; }
    }
    forall id | id in after ensures id in table || exists i :: 0 <= i < |all| && all[i].id == id {
      if id !in table && id != first.id {
        var i :| 0 <= i < |rest| && rest[i].id == id;
        assert all[i + 1].id == id;
      } else if id == first.id {
        assert all[0].id == id;
      }
    }
  }

  /**
   * Whatever was ever registered, a dangerous operation is prepared only for a
   * request that types its phrase, and that phrase is never empty.
   */
  lemma DangerIsConfirmed(number: ReadNumber, runs: seq<seq<Operation>>, request: Request)
    ensures var result := PreparedFrom(number, AfterRuns(map[], runs), request);
      result.Ok? && result.value.operation.danger ==>
        && request.confirm.Some? && request.confirm.value.Str? && request.confirm.value.text != ""
        && result.value.operation.confirmPhrase == Some(request.confirm.value.text)
  {
    hide Parsed, AfterRuns;
    RunsGuarded(map[], runs);
  }

  /** The request names a registered operation. */
  predicate Names(table: Table, request: Request) {
    request.operation.Some? && request.operation.value.Str? && request.operation.value.text in table
  }

  /** An operation without a schema takes no arguments at all. */
  ghost predicate Takes(number: ReadNumber, schema: Option<Schema>, raw: Json) {
    match schema
    case None => raw.Object? ==> raw.fields == map[]
    case Some(entries) => Acceptable(number, entries, raw)
  }

  /**
   * Exactly when a request is prepared, and as what: the operation it names, with
   * its arguments as the schema reads them; missing or null arguments are none,
   * and a dangerous operation wants exactly its phrase.
   */
  lemma PreparedIff(number: ReadNumber, table: Table, request: Request, given: Json)
    requires given == if request.args.Some? && request.args.value != Null then request.args.value else Object(map[])
    ensures var result := PreparedFrom(number, table, request);
      result.Ok? <==>
        && Names(table, request)
        && var operation := table[request.operation.value.text];
        && Takes(number, operation.schema, given)
        && (operation.danger ==>
            if operation.confirmPhrase.Some? then request.confirm == Some(Str(operation.confirmPhrase.value))
            else request.confirm == None)
    ensures var result := PreparedFrom(number, table, request);
      result.Ok? ==>
        && result.value.operation == table[request.operation.value.text]
        && Parsed(number, result.value.operation.schema, given) == Ok(result.value.args)
  {
    if Names(table, request) {
      var schema := table[request.operation.value.text].schema;
      if schema.Some? { ParsesIff(number, schema.value, given); }
    }
    hide Acceptable;
  }
}
