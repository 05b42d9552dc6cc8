/**
 * Parameter binding of the generated INSERT and UPDATE statements
 * (services/api/src/modules/rest.routes.ts, services/api/src/modules/import-export.routes.ts).
 */
module Statements {
  import opened Common
  import opened Rest

  /** A JSON value sent to the database: null, a text, or the JSON text of anything else. */
  datatype Value = Null | Text(text: string) | Other(json: string)

  type Record = map<string, Value>

  /** `INSERT INTO t (columns) VALUES (tuples)`, each tuple a list of parameters. */
  datatype Insert = Insert(columns: seq<string>, tuples: seq<seq<nat>>, values: seq<Value>)

  // ------------------------------------------------------------ multi-row INSERT

  /** `record[c] ?? null` for each column. */
  function Cells(columns: seq<string>, record: Record): (cells: seq<Value>)
    ensures |cells| == |columns|
    ensures forall c :: 0 <= c < |columns| ==>
      cells[c] == if columns[c] in record then record[columns[c]] else Null
  {
    seq(|columns|, c requires 0 <= c < |columns| => if columns[c] in record then record[columns[c]] else Null)
  }

  function AllCells(columns: seq<string>, records: seq<Record>): (rows: seq<seq<Value>>)
    ensures |rows| == |records|
    ensures forall i :: 0 <= i < |rows| ==> rows[i] == Cells(columns, records[i])
  {
    if records == [] then [] else [Cells(columns, records[0])] + AllCells(columns, records[1..])
  }

  function TuplesFrom(width: nat, n: nat, index: nat): (tuples: seq<seq<nat>>)
    ensures |tuples| == n
    decreases n
  {
    if n == 0 then [] else [Range(index, width)] + TuplesFrom(width, n - 1, index + width)
  }

  function Flat<T>(rows: seq<seq<T>>): seq<T> {
    if rows == [] then [] else rows[0] + Flat(rows[1..])
  }

  /** What the database inserts for one tuple, if every parameter is bound. */
  function Fetch(params: seq<nat>, values: seq<Value>): (row: Option<seq<Value>>)
  {
    if forall i :: 0 <= i < |params| ==> 1 <= params[i] <= |values|
    then Some(seq(|params|, i requires 0 <= i < |params| => values[params[i] - 1]))
    else None
  }

  /** The rows a statement inserts, in order. */
  function Inserted(tuples: seq<seq<nat>>, values: seq<Value>): seq<Option<seq<Value>>> {
    if tuples == [] then [] else [Fetch(tuples[0], values)] + Inserted(tuples[1..], values)
  }

  function Present(rows: seq<seq<Value>>): seq<Option<seq<Value>>> {
    if rows == [] then [] else [Some(rows[0])] + Present(rows[1..])
  }

  lemma {:induction false} FlatAppend<T>(rows: seq<seq<T>>, row: seq<T>)
    ensures Flat(rows + [row]) == Flat(rows) + row
  {
    if rows == [] {
      assert rows + [row] == [row];
      assert row + [] == row;
    } else {
      assert (rows + [row])[1..] == rows[1..] + [row];
      FlatAppend(rows[1..], row);
    }
  }

  lemma {:induction false} TuplesAppend(width: nat, n: nat, index: nat, next: nat)
    requires next == index + Length(width, n)
    ensures TuplesFrom(width, n + 1, index) == TuplesFrom(width, n, index) + [Range(next, width)]
    decreases n
  {
    if n == 0 {
    } else {
      TuplesAppend(width, n - 1, index + width, next);
    }
  }

  /** `n` rows of `width` values. */
  function Length(width: nat, n: nat): nat {
    if n == 0 then 0 else width + Length(width, n - 1)
  }

  /** One tuple: push each cell, and write the number it was pushed at. */
  method BuildTuple(columns: seq<string>, record: Record, before: seq<Value>)
    returns (placeholders: seq<nat>, values: seq<Value>)
    ensures values == before + Cells(columns, record)
    ensures placeholders == Range(|before| + 1, |columns|)
  {
    values, placeholders := before, [];
    for c := 0 to |columns|
      invariant values == before + Cells(columns, record)[..c]
      invariant placeholders == Range(|before| + 1, c)
    {
      values := values + [if columns[c] in record then record[columns[c]] else Null];
      placeholders := placeholders + [|values|];
    }
  }

  method BuildTuples(columns: seq<string>, records: seq<Record>)
    returns (tuples: seq<seq<nat>>, values: seq<Value>)
    ensures tuples == TuplesFrom(|columns|, |records|, 1)
    ensures values == Flat(AllCells(columns, records))
  {
    hide Cells;
    tuples, values := [], [];
    ghost var rows := AllCells(columns, records);
    for i := 0 to |records|
      invariant |values| == Length(|columns|, i)
      invariant tuples == TuplesFrom(|columns|, i, 1)
      invariant values == Flat(rows[..i])
    {
      hide TuplesFrom, Flat;
      FlatAppend(rows[..i], rows[i]);
      assert rows[..i + 1] == rows[..i] + [rows[i]];
      TuplesAppend(|columns|, i, 1, |values| + 1);
      LengthMore(|columns|, i);
      var placeholders;
      placeholders, values := BuildTuple(columns, records[i], values);
      tuples := tuples + [placeholders];
    }
    assert rows[..|records|] == rows;
  }

  lemma {:induction false} LengthMore(width: nat, n: nat)
    ensures Length(width, n + 1) == Length(width, n) + width
  {
    if n == 0 {
    } else {
      LengthMore(width, n - 1);
    }
  }

  lemma FetchRow(params: seq<nat>, values: seq<Value>, row: seq<Value>)
    requires |params| == |row|
    requires forall i :: 0 <= i < |row| ==> 1 <= params[i] <= |values| && values[params[i] - 1] == row[i]
    ensures Fetch(params, values) == Some(row)
  {
    assert Fetch(params, values).value == row;
  }

  lemma FetchMiddle(before: seq<Value>, row: seq<Value>, after: seq<Value>)
    ensures Fetch(Range(|before| + 1, |row|), before + row + after) == Some(row)
  {
    hide Fetch;
    FetchRow(Range(|before| + 1, |row|), before + row + after, row);
  }

  lemma InsertedCons(tuple: seq<nat>, tuples: seq<seq<nat>>, values: seq<Value>)
    ensures Inserted([tuple] + tuples, values) == [Fetch(tuple, values)] + Inserted(tuples, values)
  {
    assert ([tuple] + tuples)[1..] == tuples;
  }

  lemma InsertedMore(tuples: seq<seq<nat>>, row: seq<Value>, rest: seq<seq<Value>>, before: seq<Value>)
    requires Inserted(tuples, before + row + Flat(rest)) == Present(rest)
    ensures Inserted([Range(|before| + 1, |row|)] + tuples, before + (row + Flat(rest))) == [Some(row)] + Present(rest)
  {
    hide Fetch, Inserted, Flat, Present;
    assert before + row + Flat(rest) == before + (row + Flat(rest));
    FetchMiddle(before, row, Flat(rest));
    InsertedCons(Range(|before| + 1, |row|), tuples, before + row + Flat(rest));
  }

  /** Row-major numbering hands every row its own cells, whatever was bound before. */
  lemma {:induction false} InsertedRows(width: nat, rows: seq<seq<Value>>, before: seq<Value>)
    requires forall i :: 0 <= i < |rows| ==> |rows[i]| == width
    ensures Inserted(TuplesFrom(width, |rows|, |before| + 1), before + Flat(rows)) == Present(rows)
    decreases |rows|
  {
    if rows == [] {
    } else {
      hide Fetch, Inserted;
      InsertedRows(width, rows[1..], before + rows[0]);
      InsertedMore(TuplesFrom(width, |rows| - 1, |before| + 1 + width), rows[0], rows[1..], before);
    }
  }

  datatype InsertError = NoRows | NoColumns | BadColumn(name: string)

  function FirstBad(columns: seq<string>): Option<string> {
    if columns == [] then None
    else if !ValidIdent(columns[0]) then Some(columns[0])
    else FirstBad(columns[1..])
  }

  lemma {:induction false} FirstBadIs(columns: seq<string>)
    ensures FirstBad(columns).None? <==> forall k <- columns :: ValidIdent(k)
    ensures FirstBad(columns).Some? ==> FirstBad(columns).value in columns && !ValidIdent(FirstBad(columns).value)
  {
    if columns == [] {
    } else {
      hide ValidIdent;
      FirstBadIs(columns[1..]);
      assert columns == [columns[0]] + columns[1..];
    }
  }

  /** `POST /rest/v1/:table`: the columns are those of the first row. */
  method BuildInsert(firstKeys: seq<string>, payload: seq<Record>) returns (result: Result<Insert, InsertError>)
    ensures result.Ok? <==> payload != [] && firstKeys != [] && forall k <- firstKeys :: ValidIdent(k)
    ensures payload == [] ==> result == Err(NoRows)
    ensures payload != [] && firstKeys == [] ==> result == Err(NoColumns)
    ensures result.Ok? ==> var s := result.value;
      s.columns == firstKeys && Inserted(s.tuples, s.values) == Present(AllCells(firstKeys, payload))
  {
    if |payload| == 0 {
      return Err(NoRows);
    }
    if |firstKeys| == 0 {
      return Err(NoColumns);
    }
    var tuples, values := BuildTuples(firstKeys, payload);
    FirstBadIs(firstKeys);
    var bad := FirstBad(firstKeys);
    if bad.Some? {
      return Err(BadColumn(bad.value));
    }
    assert [] + Flat(AllCells(firstKeys, payload)) == values;
    InsertedRows(|firstKeys|, AllCells(firstKeys, payload), []);
    result := Ok(Insert(firstKeys, tuples, values));
  }

  // -------------------------------------------------------------- batched import

  const BATCH: nat := 500

  /** Everything a run of statements inserts, in order. */
  function AllInserted(batches: seq<Insert>): seq<Option<seq<Value>>> {
    if batches == [] then [] else Inserted(batches[0].tuples, batches[0].values) + AllInserted(batches[1..])
  }

  lemma {:induction false} AllInsertedAppend(batches: seq<Insert>, last: Insert)
    ensures AllInserted(batches + [last]) == AllInserted(batches) + Inserted(last.tuples, last.values)
  {
    hide Inserted;
    if batches == [] {
      assert batches + [last] == [last];
      assert AllInserted([last]) == Inserted(last.tuples, last.values) + [];
    } else {
      assert (batches + [last])[1..] == batches[1..] + [last];
      AllInsertedAppend(batches[1..], last);
    }
  }

  lemma {:induction false} PresentAppend(a: seq<seq<Value>>, b: seq<seq<Value>>)
    ensures Present(a + b) == Present(a) + Present(b)
  {
    if a == [] {
      assert a + b == b;
    } else {
      assert (a + b)[1..] == a[1..] + b;
      PresentAppend(a[1..], b);
    }
  }

  lemma BatchInserts(batches: seq<Insert>, columns: seq<string>, rows: seq<seq<Value>>, from: nat, to: nat, last: Insert)
    requires from <= to <= |rows| && forall i :: 0 <= i < |rows| ==> |rows[i]| == |columns|
    requires AllInserted(batches) == Present(rows[..from])
    requires last.tuples == TuplesFrom(|columns|, to - from, 1) && last.values == Flat(rows[from..to])
    ensures AllInserted(batches + [last]) == Present(rows[..to])
  {
    hide Present, Inserted, Flat, TuplesFrom, AllInserted;
    assert [] + Flat(rows[from..to]) == last.values;
    InsertedRows(|columns|, rows[from..to], []);
    AllInsertedAppend(batches, last);
    PresentAppend(rows[..from], rows[from..to]);
    assert rows[..to] == rows[..from] + rows[from..to];
  }

  /** The batches of an import insert exactly the records, once each and in order. */
  method ImportBatches(columns: seq<string>, records: seq<Record>) returns (batches: seq<Insert>)
    ensures AllInserted(batches) == Present(AllCells(columns, records))
    ensures forall b <- batches :: 1 <= |b.tuples| <= 500 && b.columns == columns
    ensures forall i :: 0 <= i < |batches| - 1 ==> |batches[i].tuples| == 500
  {
    hide Present, Flat, AllInserted;
    batches := [];
    ghost var rows := AllCells(columns, records);
    var offset := 0;
    NothingInserted();
    assert rows[..0] == [];
    while offset < |records|
      invariant 0 <= offset <= |records|
      invariant AllInserted(batches) == Present(rows[..offset])
      invariant forall b <- batches :: 1 <= |b.tuples| <= BATCH && b.columns == columns
      invariant offset < |records| ==> forall i :: 0 <= i < |batches| ==> |batches[i].tuples| == BATCH
      invariant forall i :: 0 <= i < |batches| - 1 ==> |batches[i].tuples| == BATCH
    {
      var end := if offset + BATCH < |records| then offset + BATCH else |records|;
      var tuples, values := BuildTuples(columns, records[offset..end]);
      assert AllCells(columns, records[offset..end]) == rows[offset..end];
      BatchInserts(batches, columns, rows, offset, end, Insert(columns, tuples, values));
      batches := batches + [Insert(columns, tuples, values)];
      offset := end;
    }
    assert rows[..|records|] == rows;
  }

  lemma NothingInserted()
    ensures AllInserted([]) == [] && Present([]) == []
  {
  }

  // ---------------------------------------------------------------------- UPDATE

  /** `UPDATE t SET column = $k, ... WHERE ...`. */
  datatype Update = Update(assignments: seq<(string, nat)>, clauses: seq<Clause>, values: seq<Value>)

  datatype UpdateError = EmptyPatch | BadAssignment(name: string) | BadFilter(error: FilterError) | Unfiltered

  predicate AssignmentsBind(assignments: seq<(string, nat)>, patch: seq<(string, Value)>, values: seq<Value>) {
    && |assignments| == |patch| <= |values|
    && forall i :: 0 <= i < |patch| ==> assignments[i] == (patch[i].0, i + 1) && values[i] == patch[i].1
  }

  function AsValues(texts: seq<string>): (values: seq<Value>)
    ensures |values| == |texts| && forall i :: 0 <= i < |texts| ==> values[i] == Text(texts[i])
  {
    seq(|texts|, i requires 0 <= i < |texts| => Text(texts[i]))
  }

  /** The texts a WHERE clause compares with; it has to mention text parameters only. */
  function AsTexts(values: seq<Value>): (texts: seq<string>)
    ensures |texts| == |values|
    ensures forall i :: 0 <= i < |values| && values[i].Text? ==> texts[i] == values[i].text
  {
    seq(|values|, i requires 0 <= i < |values| => if values[i].Text? then values[i].text else "")
  }

  /** Every parameter of the clauses is bound, and to a text. */
  ghost predicate TextParams(clauses: seq<Clause>, values: seq<Value>) {
    forall k <- Rest.Params(clauses) :: 1 <= k <= |values| && values[k - 1].Text?
  }

  /**
   * `PATCH /rest/v1/:table`: assignments take `$1..$n`, filters continue from
   * there, and under the combined values each assignment gets its own value and
   * the WHERE clause means exactly the filters of the query.
   */
  method BuildUpdate(patch: seq<(string, Value)>, query: Query) returns (result: Result<Update, UpdateError>)
    ensures result.Ok? <==>
      && patch != [] && (forall i :: 0 <= i < |patch| ==> ValidIdent(patch[i].0))
      && Drafts(query).Ok? && Drafts(query).value != []
    ensures patch == [] ==> result == Err(EmptyPatch)
    ensures result == Err(Unfiltered) ==> Drafts(query) == Ok([])
    ensures result.Ok? ==> var u := result.value;
      && AssignmentsBind(u.assignments, patch, u.values)
      && Range(1, |patch|) + Params(u.clauses) == Range(1, |u.values|)
      && TextParams(u.clauses, u.values)
      && forall row :: WhereHolds(u.clauses, AsTexts(u.values), row) <==> AllHold(Drafts(query).value, row)
  {
    hide WhereHolds, AllHold, NumberAll, AllValues, Rest.Params, Drafts, ValidIdent;
    if |patch| == 0 {
      return Err(EmptyPatch);
    }
    var assignments: seq<(string, nat)> := [];
    var values: seq<Value> := [];
    for i := 0 to |patch|
      invariant AssignmentsBind(assignments, patch[..i], values) && |values| == i
      invariant forall j :: 0 <= j < i ==> ValidIdent(patch[j].0)
    {
      values := values + [patch[i].1];
      if !ValidIdent(patch[i].0) {
        return Err(BadAssignment(patch[i].0));
      }
      assignments := assignments + [(patch[i].0, i + 1)];
    }
    assert patch[..|patch|] == patch;
    var filters := BuildFilters(query, |values| + 1);
    if filters.Err? {
      return Err(BadFilter(filters.error));
    }
    ghost var drafts := Drafts(query).value;
    NumberedEmpty(drafts, |values| + 1);
    if |filters.value.clauses| == 0 {
      return Err(Unfiltered);
    }
    var all := values + AsValues(filters.value.values);
    assert AsTexts(all) == AsTexts(values) + filters.value.values + [];
    forall row ensures WhereHolds(filters.value.clauses, AsTexts(all), row) <==> AllHold(drafts, row) {
      NumberAllHolds(drafts, AsTexts(values), [], row);
    }
    PlaceholdersInOrder(drafts, |values| + 1);
    result := Ok(Update(assignments, filters.value.clauses, all));
  }

  lemma NumberedEmpty(drafts: seq<Draft>, start: nat)
    ensures NumberAll(drafts, start) == [] <==> drafts == []
  {
  }
}
