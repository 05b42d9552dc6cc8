/**
 * The server half of the auto-generated REST API: a parsed query string becomes
 * a WHERE clause with numbered parameters
 * (services/api/src/modules/rest.routes.ts, services/api/src/lib/sql.ts).
 *
 * Clauses are kept as a small syntax tree. A row is known only by which
 * comparisons and IS tests hold of it, so every result is for every database.
 */
module Rest {
  import opened Common
  import opened Text

  // ------------------------------------------------------------- SQL fragments

  datatype SqlOp =
    | Eq | Neq | Gt | Gte | Lt | Lte | Like | Ilike | Contains | ContainedBy
    | Inherited(name: string)

  datatype IsTest = IsNull | IsNotNull | IsTrue | IsFalse

  /** `$k` is the parameter `k`, counted from 1. */
  datatype Clause =
    | Is(column: string, test: IsTest)
    | In(column: string, params: seq<nat>)
    | Compare(column: string, op: SqlOp, param: nat)

  datatype Filter = Filter(clauses: seq<Clause>, values: seq<string>)

  datatype FilterError =
    | InvalidIdentifier(name: string)
    | UnknownOperator(op: string, key: string)
    | InvalidIs
    | EmptyIn

  // --------------------------------------------------------------- vocabulary

  const RESERVED: set<string> := {"select", "order", "limit", "offset", "page", "cursor", "count"}

  /**
   * The operator table is a plain object, so these names are found on its
   * prototype and pass the "unknown operator" guard.
   */
  const PROTOTYPE: set<string> := {
    "constructor", "toString", "toLocaleString", "valueOf", "hasOwnProperty", "isPrototypeOf",
    "propertyIsEnumerable", "__proto__", "__defineGetter__", "__defineSetter__",
    "__lookupGetter__", "__lookupSetter__"
  }

  datatype Operator = Comparison(op: SqlOp) | IsOperator | InOperator

  function Lookup(op: string): Option<Operator> {
    if op == "eq" then Some(Comparison(Eq))
    else if op == "neq" then Some(Comparison(Neq))
    else if op == "gt" then Some(Comparison(Gt))
    else if op == "gte" then Some(Comparison(Gte))
    else if op == "lt" then Some(Comparison(Lt))
    else if op == "lte" then Some(Comparison(Lte))
    else if op == "like" then Some(Comparison(Like))
    else if op == "ilike" then Some(Comparison(Ilike))
    else if op == "is" then Some(IsOperator)
    else if op == "in" then Some(InOperator)
    else if op == "cs" then Some(Comparison(Contains))
    else if op == "cd" then Some(Comparison(ContainedBy))
    else if op in PROTOTYPE then Some(Comparison(Inherited(op)))
    else None
  }

  predicate IdentStart(c: char) {
    'A' <= c <= 'Z' || 'a' <= c <= 'z' || c == '_'
  }

  predicate ValidIdent(name: string) {
    && 1 <= |name| <= 63
    && IdentStart(name[0])
    && forall c <- name :: IdentStart(c) || IsDigit(c) || c == '$'
  }

  /** Identifiers grow from a letter or underscore by letters, digits, `_` and `$`, up to 63 characters. */
  lemma IdentGrows(name: string, c: char)
    ensures !ValidIdent("")
    ensures ValidIdent([c]) <==> 'A' <= c <= 'Z' || 'a' <= c <= 'z' || c == '_'
    ensures name != "" ==>
        (ValidIdent(name + [c]) <==>
          && ValidIdent(name) && |name| < 63
          && ('A' <= c <= 'Z' || 'a' <= c <= 'z' || '0' <= c <= '9' || c == '_' || c == '$'))
  {
    assert name != "" ==> (name + [c])[0] == name[0];
    assert forall d :: d in name + [c] <==> d in name || d == c;
  }

  // ------------------------------------------------------- the query as parsed

  /** A key given once is a string; a repeated key is an array. */
  datatype QueryValue = One(text: string) | Many(texts: seq<string>)

  type Query = seq<(string, QueryValue)>

  // -------------------------------------------------- one filter, not yet numbered

  datatype Draft =
    | DraftIs(column: string, test: IsTest)
    | DraftIn(column: string, items: seq<string>)
    | DraftCompare(column: string, op: SqlOp, value: string)

  function NonEmpty(items: seq<string>): (r: seq<string>)
    ensures forall v :: v in r <==> v in items && v != ""
  {
    if items == [] then []
    else (if items[0] == "" then [] else [items[0]]) + NonEmpty(items[1..])
  }

  function WithoutParens(operand: string): string {
    var inner := if operand != "" && operand[0] == '(' then operand[1..] else operand;
    if inner != "" && inner[|inner| - 1] == ')' then inner[..|inner| - 1] else inner
  }

  function Items(operand: string): seq<string> {
    NonEmpty(Split(WithoutParens(operand), ','))
  }

  function StarsToPercents(pattern: string): (r: string)
    ensures |r| == |pattern|
    ensures forall i :: 0 <= i < |r| ==> r[i] == if pattern[i] == '*' then '%' else pattern[i]
  {
    seq(|pattern|, i requires 0 <= i < |pattern| => if pattern[i] == '*' then '%' else pattern[i])
  }

  function ParseIs(operand: string): Option<IsTest> {
    var normalized := ToLower(operand);
    if normalized == "null" then Some(IsNull)
    else if normalized == "not.null" then Some(IsNotNull)
    else if normalized == "true" then Some(IsTrue)
    else if normalized == "false" then Some(IsFalse)
    else None
  }

  /** The filter an operator and its operand make on a column. */
  function Interpret(key: string, op: string, operand: string): Result<Draft, FilterError> {
    match Lookup(op)
    case None => Err(UnknownOperator(op, key))
    case Some(IsOperator) =>
      (match ParseIs(operand)
       case None => Err(InvalidIs)
       case Some(test) => Ok(DraftIs(key, test)))
    case Some(InOperator) =>
      var items := Items(operand);
      if items == [] then Err(EmptyIn) else Ok(DraftIn(key, items))
    case Some(Comparison(sql)) =>
      Ok(DraftCompare(key, sql, if sql == Like || sql == Ilike then StarsToPercents(operand) else operand))
  }

  function ParseFilter(key: string, raw: string): Result<Draft, FilterError> {
    if !ValidIdent(key) then Err(InvalidIdentifier(key))
    else
      var dot := Find(raw, '.');
      if dot == |raw| then Interpret(key, "eq", raw) else Interpret(key, raw[..dot], raw[dot + 1..])
  }

  predicate Skipped(entry: (string, QueryValue)) {
    entry.0 in RESERVED || entry.1.Many?
  }

  /** The filters of a query, in order, or the first error. */
  function Drafts(query: Query): Result<seq<Draft>, FilterError> {
    if query == [] then Ok([])
    else if Skipped(query[0]) then Drafts(query[1..])
    else match ParseFilter(query[0].0, query[0].1.text)
      case Err(e) => Err(e)
      case Ok(draft) =>
        match Drafts(query[1..])
        case Err(e) => Err(e)
        case Ok(rest) => Ok([draft] + rest)
  }

  // ----------------------------------------------------------------- numbering

  function Values(draft: Draft): seq<string> {
    match draft
    case DraftIs(_, _) => []
    case DraftIn(_, items) => items
    case DraftCompare(_, _, value) => [value]
  }

  function Range(start: nat, n: nat): (r: seq<nat>)
    ensures |r| == n
    ensures forall i :: 0 <= i < n ==> r[i] == start + i
  {
    seq(n, i requires 0 <= i < n => start + i)
  }

  function Number(draft: Draft, index: nat): Clause {
    match draft
    case DraftIs(column, test) => Is(column, test)
    case DraftIn(column, items) => In(column, Range(index, |items|))
    case DraftCompare(column, op, _) => Compare(column, op, index)
  }

  function NumberAll(drafts: seq<Draft>, index: nat): seq<Clause> {
    if drafts == [] then []
    else [Number(drafts[0], index)] + NumberAll(drafts[1..], index + |Values(drafts[0])|)
  }

  function AllValues(drafts: seq<Draft>): seq<string> {
    if drafts == [] then [] else Values(drafts[0]) + AllValues(drafts[1..])
  }

  function Built(query: Query, start: nat): Result<Filter, FilterError> {
    match Drafts(query)
    case Err(e) => Err(e)
    case Ok(drafts) => Ok(Filter(NumberAll(drafts, start), AllValues(drafts)))
  }

  lemma {:induction false} ValuesAppend(drafts: seq<Draft>, d: Draft)
    ensures AllValues(drafts + [d]) == AllValues(drafts) + Values(d)
  {
    hide Values;
    if drafts == [] {
      assert drafts + [d] == [d];
    } else {
      assert (drafts + [d])[1..] == drafts[1..] + [d];
      ValuesAppend(drafts[1..], d);
      assert Values(drafts[0]) + (AllValues(drafts[1..]) + Values(d)) == AllValues(drafts) + Values(d);
    }
  }

  lemma {:induction false} NumberAppend(drafts: seq<Draft>, d: Draft, start: nat)
    ensures NumberAll(drafts + [d], start) == NumberAll(drafts, start) + [Number(d, start + |AllValues(drafts)|)]
  {
    hide Number, Values;
    if drafts == [] {
      assert drafts + [d] == [d];
    } else {
      var n := |Values(drafts[0])|;
      assert (drafts + [d])[1..] == drafts[1..] + [d];
      NumberAppend(drafts[1..], d, start + n);
      assert |AllValues(drafts)| == n + |AllValues(drafts[1..])|;
    }
  }

  /** The drafts found so far, followed by those still to be read. */
  ghost function Following(done: seq<Draft>, rest: Result<seq<Draft>, FilterError>): Result<seq<Draft>, FilterError> {
    match rest case Err(e) => Err(e) case Ok(more) => Ok(done + more)
  }

  lemma DraftsStep(query: Query, done: seq<Draft>)
    requires query != []
    ensures Skipped(query[0]) ==> Following(done, Drafts(query)) == Following(done, Drafts(query[1..]))
    ensures !Skipped(query[0]) ==>
      Following(done, Drafts(query)) == match ParseFilter(query[0].0, query[0].1.text)
        case Err(e) => Err(e)
        case Ok(draft) => Following(done + [draft], Drafts(query[1..]))
  {
    hide ParseFilter, Skipped;
    if !Skipped(query[0]) && Drafts(query).Ok? {
      var draft := Drafts(query).value[0];
      var more := Drafts(query[1..]).value;
      assert done + ([draft] + more) == done + [draft] + more;
    }
  }

  method BuildFilters(query: Query, startIndex: nat) returns (result: Result<Filter, FilterError>)
    ensures result == Built(query, startIndex)
  {
    hide ParseFilter, Drafts, NumberAll, AllValues;
    var clauses: seq<Clause> := [];
    var values: seq<string> := [];
    var index := startIndex;
    ghost var drafts: seq<Draft> := [];
    NothingNumbered(startIndex);
    for i := 0 to |query|
      invariant clauses == NumberAll(drafts, startIndex) && values == AllValues(drafts)
      invariant index == startIndex + |values|
      invariant Drafts(query) == Following(drafts, Drafts(query[i..]))
    {
      var (key, value) := query[i];
      assert query[i..][0] == query[i] && query[i..][1..] == query[i + 1..];
      DraftsStep(query[i..], drafts);
      if key in RESERVED || value.Many? {
        continue;
      }
      var parsed := ParseFilter(key, value.text);
      if parsed.Err? {
        return Err(parsed.error);
      }
      NumberAppend(drafts, parsed.value, startIndex);
      ValuesAppend(drafts, parsed.value);
      drafts := drafts + [parsed.value];
      match parsed.value {
        case DraftIs(column, test) =>
          clauses := clauses + [Is(column, test)];
        case DraftIn(column, items) =>
          clauses := clauses + [In(column, Range(index, |items|))];
          values, index := values + items, index + |items|;
        case DraftCompare(column, op, operand) =>
          clauses := clauses + [Compare(column, op, index)];
          values, index := values + [operand], index + 1;
      }
    }
    assert query[|query|..] == [];
    NothingLeft(drafts);
    result := Ok(Filter(clauses, values));
  }

  lemma NothingNumbered(start: nat)
    ensures NumberAll([], start) == [] && AllValues([]) == []
    ensures forall r: Result<seq<Draft>, FilterError> :: Following([], r) == r
  {
    forall r: Result<seq<Draft>, FilterError> ensures Following([], r) == r {
      if r.Ok? { assert [] + r.value == r.value; }
    }
  }

  lemma NothingLeft(drafts: seq<Draft>)
    ensures Following(drafts, Drafts([])) == Ok(drafts)
  {
    assert drafts + [] == drafts;
  }

  // ------------------------------------------------------------------- meaning

  /** Which comparisons and IS tests are true of a row. */
  datatype Row = Row(compares: (string, SqlOp, string) -> bool, tests: (string, IsTest) -> bool)

  ghost predicate DraftHolds(draft: Draft, row: Row) {
    match draft
    case DraftIs(column, test) => row.tests(column, test)
    case DraftIn(column, items) => exists v <- items :: row.compares(column, Eq, v)
    case DraftCompare(column, op, value) => row.compares(column, op, value)
  }

  predicate Bound(k: nat, binds: seq<string>) {
    1 <= k <= |binds|
  }

  /** The clause under the statement's parameter values; an unbound parameter makes no row match. */
  ghost predicate ClauseHolds(clause: Clause, binds: seq<string>, row: Row) {
    match clause
    case Is(column, test) => row.tests(column, test)
    case In(column, params) =>
      && (forall k <- params :: Bound(k, binds))
      && exists k <- params :: Bound(k, binds) && row.compares(column, Eq, binds[k - 1])
    case Compare(column, op, k) => Bound(k, binds) && row.compares(column, op, binds[k - 1])
  }

  ghost predicate WhereHolds(clauses: seq<Clause>, binds: seq<string>, row: Row) {
    forall i :: 0 <= i < |clauses| ==> ClauseHolds(clauses[i], binds, row)
  }

  ghost predicate AllHold(drafts: seq<Draft>, row: Row) {
    forall i :: 0 <= i < |drafts| ==> DraftHolds(drafts[i], row)
  }

  /** The parameters a clause mentions, left to right. */
  function Params(clauses: seq<Clause>): seq<nat> {
    if clauses == [] then []
    else
      (match clauses[0] case Is(_, _) => [] case In(_, params) => params case Compare(_, _, k) => [k])
      + Params(clauses[1..])
  }

  lemma BoundItems(before: seq<string>, items: seq<string>, after: seq<string>)
    ensures var (binds, params) := (before + items + after, Range(|before| + 1, |items|));
      forall i :: 0 <= i < |items| ==> Bound(params[i], binds) && binds[params[i] - 1] == items[i]
  {
  }

  lemma InHolds(column: string, items: seq<string>, params: seq<nat>, binds: seq<string>, row: Row)
    requires |params| == |items|
    requires forall i :: 0 <= i < |items| ==> Bound(params[i], binds) && binds[params[i] - 1] == items[i]
    ensures ClauseHolds(In(column, params), binds, row) <==> DraftHolds(DraftIn(column, items), row)
  {
    if DraftHolds(DraftIn(column, items), row) {
      var v :| v in items && row.compares(column, Eq, v);
      var i :| 0 <= i < |items| && items[i] == v;
      assert params[i] in params;
    }
    if ClauseHolds(In(column, params), binds, row) {
      var k :| k in params && Bound(k, binds) && row.compares(column, Eq, binds[k - 1]);
      var i :| 0 <= i < |params| && params[i] == k;
      assert items[i] in items;
    }
  }

  lemma NumberedHolds(draft: Draft, before: seq<string>, after: seq<string>, row: Row)
    ensures ClauseHolds(Number(draft, |before| + 1), before + Values(draft) + after, row) <==> DraftHolds(draft, row)
  {
    match draft {
      case DraftIs(_, _) =>
      case DraftCompare(_, _, value) =>
        assert (before + [value] + after)[|before|] == value;
      case DraftIn(column, items) =>
        hide ClauseHolds, DraftHolds;
        BoundItems(before, items, after);
        InHolds(column, items, Range(|before| + 1, |items|), before + items + after, row);
    }
  }

  /** One filter more in front: its values are bound first, its clause is checked first. */
  lemma NumberMore(d: Draft, rest: seq<Draft>, before: seq<string>, after: seq<string>, row: Row)
    requires WhereHolds(NumberAll(rest, |before + Values(d)| + 1), before + Values(d) + AllValues(rest) + after, row)
        <==> AllHold(rest, row)
    ensures WhereHolds(NumberAll([d] + rest, |before| + 1), before + AllValues([d] + rest) + after, row)
       <==> AllHold([d] + rest, row)
  {
    hide ClauseHolds, DraftHolds, Number, Values, WhereHolds, AllHold;
    assert ([d] + rest)[1..] == rest;
    var binds := before + (Values(d) + AllValues(rest)) + after;
    Regroup(before, Values(d), AllValues(rest), after);
    NumberedHolds(d, before, AllValues(rest) + after, row);
    WhereCons(Number(d, |before| + 1), NumberAll(rest, |before| + 1 + |Values(d)|), binds, row);
    HoldCons(d, rest, row);
  }

  /**
   * Numbering preserves meaning wherever the filters stand in a statement:
   * after any parameters already bound and before any bound later.
   */
  lemma {:induction false} NumberAllHolds(drafts: seq<Draft>, before: seq<string>, after: seq<string>, row: Row)
    ensures WhereHolds(NumberAll(drafts, |before| + 1), before + AllValues(drafts) + after, row)
       <==> AllHold(drafts, row)
  {
    if drafts == [] {
    } else {
      hide ClauseHolds, DraftHolds, Number, Values, WhereHolds, AllHold, NumberAll, AllValues;
      NumberAllHolds(drafts[1..], before + Values(drafts[0]), after, row);
      NumberMore(drafts[0], drafts[1..], before, after, row);
      assert [drafts[0]] + drafts[1..] == drafts;
    }
  }

  lemma Regroup(a: seq<string>, b: seq<string>, c: seq<string>, d: seq<string>)
    ensures a + (b + c) + d == a + b + (c + d) && a + (b + c) + d == a + b + c + d
  {
  }

  lemma WhereCons(c: Clause, clauses: seq<Clause>, binds: seq<string>, row: Row)
    ensures WhereHolds([c] + clauses, binds, row) <==> ClauseHolds(c, binds, row) && WhereHolds(clauses, binds, row)
  {
    hide ClauseHolds;
    var all := [c] + clauses;
    assert forall i :: 0 <= i < |clauses| ==> all[i + 1] == clauses[i];
    if WhereHolds(all, binds, row) { assert ClauseHolds(all[0], binds, row); }
  }

  lemma HoldCons(d: Draft, drafts: seq<Draft>, row: Row)
    ensures AllHold([d] + drafts, row) <==> DraftHolds(d, row) && AllHold(drafts, row)
  {
    hide DraftHolds;
    var all := [d] + drafts;
    assert forall i :: 0 <= i < |drafts| ==> all[i + 1] == drafts[i];
    if AllHold(all, row) { assert DraftHolds(all[0], row); }
  }

  /** The placeholders are `$start`, `$start+1`, ... in order, one per value. */
  lemma {:induction false} PlaceholdersInOrder(drafts: seq<Draft>, start: nat)
    ensures Params(NumberAll(drafts, start)) == Range(start, |AllValues(drafts)|)
  {
    if drafts == [] {
    } else {
      var n := |Values(drafts[0])|;
      PlaceholdersInOrder(drafts[1..], start + n);
      NumberedFirst(drafts, start);
      ParamsCons(drafts[0], start, NumberAll(drafts[1..], start + n));
      hide NumberAll, Params, Number, Values;
      assert Range(start, n) + Range(start + n, |AllValues(drafts[1..])|) == Range(start, |AllValues(drafts)|);
    }
  }

  lemma NumberedFirst(drafts: seq<Draft>, start: nat)
    requires drafts != []
    ensures NumberAll(drafts, start)
         == [Number(drafts[0], start)] + NumberAll(drafts[1..], start + |Values(drafts[0])|)
  {
  }

  /** One numbered draft mentions as many parameters as it has values, from its own number on. */
  lemma ParamsCons(draft: Draft, start: nat, clauses: seq<Clause>)
    ensures Params([Number(draft, start)] + clauses) == Range(start, |Values(draft)|) + Params(clauses)
  {
    assert ([Number(draft, start)] + clauses)[1..] == clauses;
  }

  // ------------------------------------------------------------------ ORDER BY

  datatype OrderTerm = OrderTerm(column: string, descending: bool, nullsFirst: Option<bool>)

  function ParseOrderTerm(piece: string): Result<OrderTerm, FilterError> {
    var parts := Split(Trim(piece), '.');
    var (column, modifiers) := (Trim(parts[0]), parts[1..]);
    if !ValidIdent(column) then Err(InvalidIdentifier(column))
    else Ok(OrderTerm(
      column, "desc" in modifiers,
      if "nullsfirst" in modifiers then Some(true) else if "nullslast" in modifiers then Some(false) else None))
  }

  function ParseOrderTerms(pieces: seq<string>): Result<seq<OrderTerm>, FilterError> {
    if pieces == [] then Ok([])
    else match ParseOrderTerm(pieces[0])
      case Err(e) => Err(e)
      case Ok(term) =>
        match ParseOrderTerms(pieces[1..])
        case Err(e) => Err(e)
        case Ok(rest) => Ok([term] + rest)
  }

  /** The ORDER BY clause; no terms means no clause. */
  function BuildOrder(order: string): Result<seq<OrderTerm>, FilterError> {
    if order == "" then Ok([]) else ParseOrderTerms(Split(order, ','))
  }
}
