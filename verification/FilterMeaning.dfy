/**
 * From the SDK's filters to the rows the database returns: what the query
 * string printed by `packages/client/src/index.ts` means once
 * `services/api/src/modules/rest.routes.ts` has compiled it.
 */
module FilterMeaning {
  import opened Common
  import opened Text
  import opened Rest
  import opened Client

  // ------------------------------------ the query object, as the server parses it

  function Occurrences(params: seq<Param>, key: string): (r: seq<string>)
    ensures r == [] <==> forall i :: 0 <= i < |params| ==> params[i].0 != key
  {
    if params == [] then []
    else (if params[0].0 == key then [params[0].1] else []) + Occurrences(params[1..], key)
  }

  predicate SeenBefore(params: seq<Param>, i: nat)
    requires i < |params|
  {
    exists j :: 0 <= j < i && params[j].0 == params[i].0
  }

  /** One entry per key, where the key first appears; a repeated key collects an array. */
  function CollectFrom(params: seq<Param>, i: nat): Query
    requires i <= |params|
    decreases |params| - i
  {
    if i == |params| then []
    else if SeenBefore(params, i) then CollectFrom(params, i + 1)
    else
      var texts := Occurrences(params, params[i].0);
      [(params[i].0, if |texts| == 1 then One(texts[0]) else Many(texts))] + CollectFrom(params, i + 1)
  }

  function Collect(params: seq<Param>): Query {
    CollectFrom(params, 0)
  }

  /** The i-th parameter reaches the WHERE clause: not reserved, and its key used once. */
  ghost predicate Counts(params: seq<Param>, i: nat)
    requires i < |params|
  {
    params[i].0 !in RESERVED && forall j :: 0 <= j < |params| && j != i ==> params[j].0 != params[i].0
  }

  /** The seven reserved keys never count, and any other key given once does. */
  lemma ReservedKeys(params: seq<Param>, i: nat)
    requires i < |params| && forall j :: 0 <= j < |params| && j != i ==> params[j].0 != params[i].0
    ensures Counts(params, i)
       <==> params[i].0 !in {"select", "order", "limit", "offset", "page", "cursor", "count"}
  {
  }

  lemma {:induction false} OccurrencesConcat(a: seq<Param>, b: seq<Param>, key: string)
    ensures Occurrences(a + b, key) == Occurrences(a, key) + Occurrences(b, key)
  {
    if a == [] {
      assert a + b == b;
    } else {
      assert (a + b)[1..] == a[1..] + b;
      OccurrencesConcat(a[1..], b, key);
    }
  }

  lemma OccurrencesAround(params: seq<Param>, i: nat, key: string)
    requires i < |params|
    ensures Occurrences(params, key)
         == Occurrences(params[..i], key) + Occurrences([params[i]], key) + Occurrences(params[i + 1..], key)
  {
    hide Occurrences;
    assert params == params[..i] + [params[i]] + params[i + 1..];
    OccurrencesConcat(params[..i] + [params[i]], params[i + 1..], key);
    OccurrencesConcat(params[..i], [params[i]], key);
  }

  lemma SoleOccurrence(params: seq<Param>, i: nat)
    requires i < |params| && !SeenBefore(params, i)
    ensures var texts := Occurrences(params, params[i].0);
      && (|texts| == 1 <==> forall j :: 0 <= j < |params| && j != i ==> params[j].0 != params[i].0)
      && (|texts| == 1 ==> texts[0] == params[i].1)
  {
    var key := params[i].0;
    OccurrencesAround(params, i, key);
    assert Occurrences(params[..i], key) == [];
    var after := params[i + 1..];
    if Occurrences(after, key) == [] {
      forall j | 0 <= j < |params| && j != i ensures params[j].0 != key {
        if j > i { assert after[j - i - 1] == params[j]; }
      }
    } else {
      var k :| 0 <= k < |after| && after[k].0 == key;
      assert params[i + 1 + k].0 == key;
    }
  }

  ghost predicate Parses(param: Param) {
    ParseFilter(param.0, param.1).Ok?
  }

  ghost predicate ParamHolds(param: Param, row: Row) {
    Parses(param) && DraftHolds(ParseFilter(param.0, param.1).value, row)
  }

  /** From parameter `i` on, every counting parameter parses. */
  ghost predicate AllParse(params: seq<Param>, i: nat) {
    forall j :: i <= j < |params| && Counts(params, j) ==> Parses(params[j])
  }

  ghost predicate AllParamsHold(params: seq<Param>, i: nat, row: Row) {
    forall j :: i <= j < |params| && Counts(params, j) ==> ParamHolds(params[j], row)
  }

  lemma OneMoreParam(params: seq<Param>, i: nat, row: Row)
    requires i < |params|
    ensures AllParse(params, i) <==> (Counts(params, i) ==> Parses(params[i])) && AllParse(params, i + 1)
    ensures AllParamsHold(params, i, row)
       <==> (Counts(params, i) ==> ParamHolds(params[i], row)) && AllParamsHold(params, i + 1, row)
  {
    hide Counts, Parses, ParamHolds;
  }

  /** What parameter `i` adds to the collected query: nothing, or an entry that is skipped unless it counts. */
  lemma CollectStep(params: seq<Param>, i: nat)
    requires i < |params|
    ensures var (query, rest) := (CollectFrom(params, i), CollectFrom(params, i + 1));
      if SeenBefore(params, i) then !Counts(params, i) && query == rest
      else
        && query != [] && query[1..] == rest && query[0].0 == params[i].0
        && (Counts(params, i) <==> !Skipped(query[0]))
        && (Counts(params, i) ==> query[0].1 == One(params[i].1))
  {
    if !SeenBefore(params, i) {
      SoleOccurrence(params, i);
    }
  }

  /** The drafts of a collected query say exactly what its counting parameters say. */
  lemma {:induction false} CollectedDrafts(params: seq<Param>, i: nat, row: Row)
    requires i <= |params|
    ensures var drafts := Drafts(CollectFrom(params, i));
      && (drafts.Ok? <==> AllParse(params, i))
      && (drafts.Ok? ==> (AllHold(drafts.value, row) <==> AllParamsHold(params, i, row)))
    decreases |params| - i
  {
    if i == |params| {
      assert Drafts(CollectFrom(params, i)) == Ok([]);
    } else {
      hide ParseFilter, DraftHolds, AllHold, AllParse, AllParamsHold, Counts, CollectFrom, SeenBefore, Skipped;
      CollectedDrafts(params, i + 1, row);
      OneMoreParam(params, i, row);
      CollectStep(params, i);
      var rest := Drafts(CollectFrom(params, i + 1));
      if Counts(params, i) && Parses(params[i]) && rest.Ok? {
        HoldCons(ParseFilter(params[i].0, params[i].1).value, rest.value, row);
      }
    }
  }

  // ----------------------------------------------------- one filter, end to end

  lemma LookupOps(op: CompareOp)
    ensures Lookup(OpName(op)) == Some(Comparison(SqlOpOf(op))) && '.' !in OpName(op)
  {
  }

  lemma LookupOthers()
    ensures Lookup("is") == Some(IsOperator) && '.' !in "is"
    ensures Lookup("in") == Some(InOperator) && '.' !in "in"
  {
  }

  lemma ParseIsPrinted(truth: Option<bool>)
    ensures ParseIs(if truth.None? then "null" else if truth.value then "true" else "false") == Some(TestOf(truth))
  {
    assert ToLower("null") == "null";
    assert ToLower("true") == "true";
    assert ToLower("false") == "false";
  }

  /** The printed `operator.value` splits back at its first dot. */
  lemma SplitsBack(column: string, operator: string, value: string)
    requires '.' !in operator && ValidIdent(column)
    ensures ParseFilter(column, operator + "." + value) == Interpret(column, operator, value)
  {
    hide ValidIdent, Interpret, Find;
    var raw := operator + ['.'] + value;
    FindInConcat(operator, value, '.');
    assert raw == operator + "." + value;
    assert raw[..|operator|] == operator && raw[|operator| + 1..] == value;
  }

  /** What the server reads a wish as: itself, except that a list is re-split at commas. */
  function ReadAs(wish: Wish): Wish {
    match wish
    case InList(column, values) => InList(column, NonEmpty(Split(Join(values, ','), ',')))
    case _ => wish
  }

  predicate Acceptable(wish: Wish) {
    ValidIdent(wish.column) && (wish.InList? ==> ReadAs(wish).values != [])
  }

  lemma ItemsPrinted(values: seq<string>)
    ensures Items("(" + Join(values, ',') + ")") == NonEmpty(Split(Join(values, ','), ','))
  {
    var text := Join(values, ',');
    var operand := "(" + text + ")";
    assert operand[1..] == text + ")";
    assert (text + ")")[..|text|] == text;
  }

  function Printed(wish: Wish): Param {
    var r := Record(wish);
    (r.column, r.operator + "." + r.value)
  }

  lemma PrintedCompare(column: string, op: CompareOp, value: string)
    requires ValidIdent(column)
    ensures ParseFilter(column, OpName(op) + "." + value) == Ok(DraftCompare(column, SqlOpOf(op), SqlValue(op, value)))
  {
    hide OpName, Lookup, StarsToPercents, ValidIdent, ParseFilter, ParseIs, Items;
    LookupOps(op);
    SplitsBack(column, OpName(op), value);
  }

  lemma PrintedIs(column: string, truth: Option<bool>)
    requires ValidIdent(column)
    ensures ParseFilter(column, "is" + "." + Record(IsValue(column, truth)).value) == Ok(DraftIs(column, TestOf(truth)))
  {
    hide Lookup, ValidIdent, ParseIs, ParseFilter, Items;
    LookupOthers();
    ParseIsPrinted(truth);
    SplitsBack(column, "is", Record(IsValue(column, truth)).value);
  }

  lemma PrintedIn(column: string, values: seq<string>)
    requires ValidIdent(column)
    ensures var items := NonEmpty(Split(Join(values, ','), ','));
      ParseFilter(column, "in" + "." + Record(InList(column, values)).value)
      == if items == [] then Err(EmptyIn) else Ok(DraftIn(column, items))
  {
    hide Lookup, ValidIdent, Items, Split, Join, NonEmpty, ParseIs, ParseFilter;
    LookupOthers();
    ItemsPrinted(values);
    SplitsBack(column, "in", Record(InList(column, values)).value);
  }

  lemma InvalidColumn(column: string, raw: string)
    requires !ValidIdent(column)
    ensures ParseFilter(column, raw) == Err(InvalidIdentifier(column))
  {
  }

  lemma PrintedParses(wish: Wish, row: Row)
    ensures Parses(Printed(wish)) <==> Acceptable(wish)
    ensures ParamHolds(Printed(wish), row) <==> Acceptable(wish) && WishHolds(ReadAs(wish), row)
  {
    hide ParseFilter, StarsToPercents, Split, Join, NonEmpty, ValidIdent;
    if !ValidIdent(wish.column) {
      InvalidColumn(wish.column, Printed(wish).1);
      return;
    }
    match wish {
      case Compares(column, op, value) => PrintedCompare(column, op, value);
      case IsValue(column, truth) => PrintedIs(column, truth);
      case InList(column, values) => PrintedIn(column, values);
    }
  }

  // -------------------------------------------------------- whole filter lists

  /** The i-th wish is enforced: its column is not a reserved name and is used once. */
  ghost predicate Enforced(wishes: seq<Wish>, i: nat)
    requires i < |wishes|
  {
    && wishes[i].column !in RESERVED
    && forall j :: 0 <= j < |wishes| && j != i ==> wishes[j].column != wishes[i].column
  }

  function Params(settings: Settings, wishes: seq<Wish>): seq<Param> {
    SettingParams(settings) + FilterParams(RecordAll(wishes))
  }

  lemma SettingsReserved(s: Settings)
    ensures forall i :: 0 <= i < |SettingParams(s)| ==> SettingParams(s)[i].0 in RESERVED
  {
    hide Join, ShowInt;
  }

  lemma CountsAreEnforced(settings: Settings, wishes: seq<Wish>)
    ensures var e := |SettingParams(settings)|; var params := Params(settings, wishes);
      && |params| == e + |wishes|
      && (forall i :: 0 <= i < e ==> !Counts(params, i))
      && (forall i :: 0 <= i < |wishes| ==> params[e + i] == Printed(wishes[i]))
      && (forall i :: 0 <= i < |wishes| ==> (Counts(params, e + i) <==> Enforced(wishes, i)))
  {
    hide SettingParams, Join;
    SettingsReserved(settings);
    var e := |SettingParams(settings)|;
    var params := Params(settings, wishes);
    forall i | 0 <= i < |wishes|
      ensures params[e + i] == Printed(wishes[i]) && params[e + i].0 == wishes[i].column
    {
    }
    forall i | 0 <= i < |wishes|
      ensures Counts(params, e + i) <==> Enforced(wishes, i)
    {
      if Counts(params, e + i) {
        forall j | 0 <= j < |wishes| && j != i ensures wishes[j].column != wishes[i].column {
          assert params[e + j].0 != params[e + i].0;
        }
      }
      if Enforced(wishes, i) {
        forall j | 0 <= j < |params| && j != e + i ensures params[j].0 != params[e + i].0 {
          if j >= e { assert params[e + (j - e)].0 == wishes[j - e].column; }
        }
      }
    }
  }

  /** The WHERE clause the server builds for a query the SDK printed. */
  function Compiled(settings: Settings, wishes: seq<Wish>): Result<Filter, FilterError> {
    Built(Collect(Params(settings, wishes)), 1)
  }

  /**
   * For every list of filters, with no side condition: the server accepts the
   * query exactly when each enforced filter is acceptable, and then the clause,
   * under its own bound values, holds of a row exactly when every enforced
   * filter does, lists being read as re-split at commas.
   */
  lemma ServerEnforces(settings: Settings, wishes: seq<Wish>, row: Row)
    ensures var r := Compiled(settings, wishes);
      && (r.Ok? <==> forall i :: 0 <= i < |wishes| && Enforced(wishes, i) ==> Acceptable(wishes[i]))
      && (r.Ok? ==>
          (WhereHolds(r.value.clauses, r.value.values, row)
           <==> forall i :: 0 <= i < |wishes| && Enforced(wishes, i) ==> WishHolds(ReadAs(wishes[i]), row)))
  {
    hide Parses, ParamHolds, Acceptable, WishHolds, ReadAs, Counts, Enforced, Params,
      CollectFrom, NumberAll, AllValues, AllHold, WhereHolds;
    var params := Params(settings, wishes);
    CollectedDrafts(params, 0, row);
    EnforcedParse(settings, wishes);
    if forall i :: 0 <= i < |wishes| && Enforced(wishes, i) ==> Acceptable(wishes[i]) {
      EnforcedHold(settings, wishes, row);
    }
    var drafts := Drafts(Collect(params));
    if drafts.Ok? {
      NumberAllHolds(drafts.value, [], [], row);
      assert [] + AllValues(drafts.value) + [] == AllValues(drafts.value);
    }
  }

  lemma EnforcedParse(settings: Settings, wishes: seq<Wish>)
    ensures var params := Params(settings, wishes);
      (forall j :: 0 <= j < |params| && Counts(params, j) ==> Parses(params[j]))
      <==> (forall i :: 0 <= i < |wishes| && Enforced(wishes, i) ==> Acceptable(wishes[i]))
  {
    hide Parses, ParamHolds, Acceptable, WishHolds, ReadAs, Counts, Enforced, Printed, Params, SettingParams;
    var (e, params) := (|SettingParams(settings)|, Params(settings, wishes));
    var row := FailsOn("");
    CountsAreEnforced(settings, wishes);
    if forall j :: 0 <= j < |params| && Counts(params, j) ==> Parses(params[j]) {
      forall i | 0 <= i < |wishes| && Enforced(wishes, i) ensures Acceptable(wishes[i]) {
        PrintedParses(wishes[i], row);
        assert Counts(params, e + i);
      }
    } else {
      var j :| 0 <= j < |params| && Counts(params, j) && !Parses(params[j]);
      PrintedParses(wishes[j - e], row);
      assert params[e + (j - e)] == Printed(wishes[j - e]);
    }
  }

  lemma EnforcedHold(settings: Settings, wishes: seq<Wish>, row: Row)
    requires forall i :: 0 <= i < |wishes| && Enforced(wishes, i) ==> Acceptable(wishes[i])
    ensures var params := Params(settings, wishes);
      (forall j :: 0 <= j < |params| && Counts(params, j) ==> ParamHolds(params[j], row))
      <==> (forall i :: 0 <= i < |wishes| && Enforced(wishes, i) ==> WishHolds(ReadAs(wishes[i]), row))
  {
    hide Parses, ParamHolds, Acceptable, WishHolds, ReadAs, Counts, Enforced, Printed, Params, SettingParams;
    var (e, params) := (|SettingParams(settings)|, Params(settings, wishes));
    CountsAreEnforced(settings, wishes);
    if forall j :: 0 <= j < |params| && Counts(params, j) ==> ParamHolds(params[j], row) {
      forall i | 0 <= i < |wishes| && Enforced(wishes, i) ensures WishHolds(ReadAs(wishes[i]), row) {
        PrintedParses(wishes[i], row);
        assert Counts(params, e + i);
      }
    } else {
      var j :| 0 <= j < |params| && Counts(params, j) && !ParamHolds(params[j], row);
      PrintedParses(wishes[j - e], row);
      assert params[e + (j - e)] == Printed(wishes[j - e]);
    }
  }

  /** What the SDK's caller has to respect: each column once, none reserved, no empty or comma-bearing list item. */
  ghost predicate Faithful(wishes: seq<Wish>) {
    && (forall i :: 0 <= i < |wishes| ==> Enforced(wishes, i))
    && (forall i :: 0 <= i < |wishes| && wishes[i].InList? ==> CleanList(wishes[i].values))
  }

  predicate CleanList(values: seq<string>) {
    forall v <- values :: v != "" && ',' !in v
  }

  lemma {:induction false} NonEmptyFixed(values: seq<string>)
    requires "" !in values
    ensures NonEmpty(values) == values
  {
    if values == [] {
    } else {
      NonEmptyFixed(values[1..]);
    }
  }

  lemma CleanListRead(values: seq<string>)
    requires CleanList(values)
    ensures NonEmpty(Split(Join(values, ','), ',')) == values
  {
    if values == [] {
      assert Split("", ',') == [""];
    } else {
      SplitJoin(values, ',');
      NonEmptyFixed(values);
    }
  }

  /** A faithful filter list means on the server what it says in the SDK. */
  lemma FaithfulMeaning(settings: Settings, wishes: seq<Wish>, row: Row)
    requires Faithful(wishes) && Compiled(settings, wishes).Ok?
    ensures var f := Compiled(settings, wishes).value;
      WhereHolds(f.clauses, f.values, row) <==> WishesHold(wishes, row)
  {
    hide WhereHolds, WishHolds, Compiled, Enforced, Split, Join, NonEmpty;
    ServerEnforces(settings, wishes, row);
    forall i | 0 <= i < |wishes| ensures ReadAs(wishes[i]) == wishes[i] {
      if wishes[i].InList? { CleanListRead(wishes[i].values); }
    }
  }

  /** A row on which exactly the filters on one column are false. */
  function FailsOn(column: string): Row {
    Row((c, op, v) => c != column, (c, test) => c != column)
  }

  /** A row on which the column equals only one text, and everything else holds. */
  function EqualsOnly(column: string, text: string): Row {
    Row((c, op, v) => c != column || v == text, (c, test) => true)
  }

  lemma DroppedFilter(settings: Settings, wishes: seq<Wish>, i: nat)
    requires i < |wishes| && !Enforced(wishes, i) && Compiled(settings, wishes).Ok?
    ensures var f := Compiled(settings, wishes).value; var row := FailsOn(wishes[i].column);
      WhereHolds(f.clauses, f.values, row) && !WishesHold(wishes, row)
  {
    hide WhereHolds, Compiled;
    var row := FailsOn(wishes[i].column);
    ServerEnforces(settings, wishes, row);
    forall j | 0 <= j < |wishes| && Enforced(wishes, j) ensures WishHolds(ReadAs(wishes[j]), row) {
      assert Acceptable(wishes[j]);
      if wishes[j].InList? {
        var items := ReadAs(wishes[j]).values;
        assert items[0] in items;
      }
    }
    assert !WishHolds(wishes[i], row);
  }

  lemma MangledList(settings: Settings, wishes: seq<Wish>, i: nat)
    requires i < |wishes| && wishes[i].InList? && !CleanList(wishes[i].values)
    requires (forall j :: 0 <= j < |wishes| ==> Enforced(wishes, j)) && Compiled(settings, wishes).Ok?
    ensures exists row :: var f := Compiled(settings, wishes).value;
      !WhereHolds(f.clauses, f.values, row) && WishesHold(wishes, row)
  {
    hide WhereHolds, Compiled;
    var (column, values) := (wishes[i].column, wishes[i].values);
    var bad :| bad in values && (bad == "" || ',' in bad);
    var row := EqualsOnly(column, bad);
    ServerEnforces(settings, wishes, row);
    assert bad !in ReadAs(wishes[i]).values;
    assert !WishHolds(ReadAs(wishes[i]), row);
    assert WishHolds(wishes[i], row);
    forall j | 0 <= j < |wishes| ensures WishHolds(wishes[j], row) {
      if j != i {
        assert wishes[j].column != column;
        if wishes[j].InList? {
          assert Acceptable(wishes[j]);
          NonEmptyListed(wishes[j]);
        }
      }
    }
  }

  /** A list that still has an item after re-splitting had one to begin with. */
  lemma NonEmptyListed(wish: Wish)
    requires wish.InList? && ReadAs(wish).values != []
    ensures wish.values != [] && wish.values[0] in wish.values
  {
    if wish.values == [] { CleanListRead([]); }
  }

  /**
   * The exact condition for the SDK and the server to agree: an accepted filter
   * list means the same to both, on every row, if and only if it is faithful.
   */
  lemma MeaningPreservedIff(settings: Settings, wishes: seq<Wish>)
    requires Compiled(settings, wishes).Ok?
    ensures var f := Compiled(settings, wishes).value;
      (forall row :: WhereHolds(f.clauses, f.values, row) <==> WishesHold(wishes, row)) <==> Faithful(wishes)
  {
    hide WhereHolds, WishesHold, Compiled, Enforced, CleanList;
    var f := Compiled(settings, wishes).value;
    if Faithful(wishes) {
      forall row ensures WhereHolds(f.clauses, f.values, row) <==> WishesHold(wishes, row) {
        FaithfulMeaning(settings, wishes, row);
      }
    } else if i :| 0 <= i < |wishes| && !Enforced(wishes, i) {
      DroppedFilter(settings, wishes, i);
    } else {
      var i :| 0 <= i < |wishes| && wishes[i].InList? && !CleanList(wishes[i].values);
      MangledList(settings, wishes, i);
    }
  }

  // ------------------------------------------------- where the guards fall short

  /**
   * The operator guard rejects a name if and only if it is neither in the table
   * nor on the prototype of the object the table is written as.
   */
  lemma OperatorGuardExactly(column: string, op: string, value: string)
    requires ValidIdent(column) && '.' !in op
    ensures ParseFilter(column, op + "." + value) == Err(UnknownOperator(op, column))
       <==> op !in {"eq", "neq", "gt", "gte", "lt", "lte", "like", "ilike", "is", "in", "cs", "cd"} + PROTOTYPE
  {
    hide ValidIdent, Items, ParseIs, StarsToPercents, ParseFilter;
    SplitsBack(column, op, value);
  }

  /** What each comparison operator of a query string asks of a row; `*` is a wildcard in patterns only. */
  lemma ComparisonMeans(column: string, op: string, operand: string, row: Row)
    requires ValidIdent(column)
    ensures var (asked, like) := ((column, op + "." + operand), StarsToPercents(operand));
      && (op == "eq" ==> (ParamHolds(asked, row) <==> row.compares(column, Rest.Eq, operand)))
      && (op == "neq" ==> (ParamHolds(asked, row) <==> row.compares(column, Rest.Neq, operand)))
      && (op == "gt" ==> (ParamHolds(asked, row) <==> row.compares(column, Rest.Gt, operand)))
      && (op == "gte" ==> (ParamHolds(asked, row) <==> row.compares(column, Rest.Gte, operand)))
      && (op == "lt" ==> (ParamHolds(asked, row) <==> row.compares(column, Rest.Lt, operand)))
      && (op == "lte" ==> (ParamHolds(asked, row) <==> row.compares(column, Rest.Lte, operand)))
      && (op == "like" ==> (ParamHolds(asked, row) <==> row.compares(column, Rest.Like, like)))
      && (op == "ilike" ==> (ParamHolds(asked, row) <==> row.compares(column, Rest.Ilike, like)))
      && (op == "cs" ==> (ParamHolds(asked, row) <==> row.compares(column, Contains, operand)))
      && (op == "cd" ==> (ParamHolds(asked, row) <==> row.compares(column, ContainedBy, operand)))
  {
    hide ValidIdent, Items, ParseIs, StarsToPercents, ParseFilter, PROTOTYPE;
    if op in {"eq", "neq", "gt", "gte", "lt", "lte", "like", "ilike", "cs", "cd"} {
      SplitsBack(column, op, operand);
    }
  }

  /** `is` takes four words, in any case; `not.null` is one of them, dot and all. */
  lemma IsMeans(column: string, operand: string, row: Row)
    requires ValidIdent(column)
    ensures var (asked, word) := ((column, "is" + "." + operand), ToLower(operand));
      && (word == "null" ==> (ParamHolds(asked, row) <==> row.tests(column, IsNull)))
      && (word == "not.null" ==> (ParamHolds(asked, row) <==> row.tests(column, IsNotNull)))
      && (word == "true" ==> (ParamHolds(asked, row) <==> row.tests(column, IsTrue)))
      && (word == "false" ==> (ParamHolds(asked, row) <==> row.tests(column, IsFalse)))
      && (word !in {"null", "not.null", "true", "false"} ==> ParseFilter(asked.0, asked.1) == Err(InvalidIs))
  {
    hide ValidIdent, Items, StarsToPercents, ParseFilter, Lookup, ToLower;
    LookupOthers();
    SplitsBack(column, "is", operand);
  }

  /** A list, in parentheses or not, matches a row whose column equals one of its non-empty items. */
  lemma InMeans(column: string, items: seq<string>, open: string, close: string, row: Row)
    requires ValidIdent(column) && items != [] && forall item <- items :: ',' !in item
    requires (open == "(" || open == "") && (close == ")" || close == "")
    requires var text := Join(items, ',');
      text != "" ==> (text[0] == '(' ==> open == "(") && (text[|text| - 1] == ')' ==> close == ")")
    ensures var asked := (column, "in" + "." + (open + Join(items, ',') + close));
      && (Parses(asked) <==> exists item <- items :: item != "")
      && (ParamHolds(asked, row) <==> exists item <- items :: item != "" && row.compares(column, Rest.Eq, item))
  {
    hide ValidIdent, StarsToPercents, ParseFilter, ParseIs, Lookup, Split, Join;
    var text := Join(items, ',');
    LookupOthers();
    SplitsBack(column, "in", open + text + close);
    Unwrapped(open, text, close);
    SplitJoin(items, ',');
    var kept := Items(open + text + close);
    assert kept == NonEmpty(items);
    assert kept != [] ==> kept[0] in kept;
  }

  lemma Unwrapped(open: string, text: string, close: string)
    requires (open == "(" || open == "") && (close == ")" || close == "")
    requires text != "" ==> (text[0] == '(' ==> open == "(") && (text[|text| - 1] == ')' ==> close == ")")
    ensures WithoutParens(open + text + close) == text
  {
    var operand := open + text + close;
    assert open == "(" ==> operand[1..] == text + close;
    assert open == "" ==> operand == text + close;
    assert close == ")" ==> (text + close)[..|text|] == text;
    assert close == "" ==> text + close == text;
  }

  // --------------------------------------------- what any accepted query filters on

  /** Compiled anywhere in a statement, an accepted query means that each of its counting parameters holds. */
  lemma QueryMeans(params: seq<Param>, before: seq<string>, after: seq<string>, row: Row)
    ensures var r := Built(Collect(params), |before| + 1);
      r.Ok? ==>
        (WhereHolds(r.value.clauses, before + r.value.values + after, row)
         <==> forall i :: 0 <= i < |params| && Counts(params, i) ==> ParamHolds(params[i], row))
  {
    hide WhereHolds, AllHold, Counts, ParamHolds, Parses, CollectFrom, NumberAll, AllValues, Drafts;
    CollectedDrafts(params, 0, row);
    var drafts := Drafts(Collect(params));
    if drafts.Ok? {
      NumberAllHolds(drafts.value, before, after, row);
    }
  }

  /** A parameter without a dot holds exactly of the rows whose column equals its value. */
  lemma DotlessIsEquality(column: string, value: string, row: Row)
    requires '.' !in value
    ensures ParamHolds((column, value), row) <==> ValidIdent(column) && row.compares(column, Rest.Eq, value)
  {
    hide ValidIdent;
  }

  lemma ParsedColumn(key: string, raw: string)
    ensures ParseFilter(key, raw).Ok? ==> ParseFilter(key, raw).value.column == key
  {
    hide ValidIdent, Lookup, Items, ParseIs, StarsToPercents;
  }

  ghost predicate DraftsMention(drafts: seq<Draft>, column: string) {
    exists d <- drafts :: d.column == column
  }

  ghost predicate QueryMentions(query: Query, column: string) {
    exists e <- query :: e.0 == column && !Skipped(e)
  }

  lemma {:induction false} DraftColumns(query: Query, column: string)
    ensures Drafts(query).Ok? ==> (DraftsMention(Drafts(query).value, column) <==> QueryMentions(query, column))
  {
    if query == [] {
    } else {
      hide ParseFilter, Skipped;
      DraftColumns(query[1..], column);
      assert query == [query[0]] + query[1..];
      if query[0].1.One? { ParsedColumn(query[0].0, query[0].1.text); }
      assert Skipped(query[0]) || query[0].1.One? by { SkippedOrOne(query[0]); }
    }
  }

  lemma SkippedOrOne(entry: (string, QueryValue))
    ensures Skipped(entry) || entry.1.One?
  {
  }

  lemma {:induction false} NumberedColumns(drafts: seq<Draft>, start: nat)
    ensures |NumberAll(drafts, start)| == |drafts|
    ensures forall i :: 0 <= i < |drafts| ==> NumberAll(drafts, start)[i].column == drafts[i].column
    decreases |drafts|
  {
    if drafts == [] {
    } else {
      NumberedColumns(drafts[1..], start + |Values(drafts[0])|);
    }
  }

  lemma NumberedMention(drafts: seq<Draft>, start: nat, column: string)
    ensures (exists c <- NumberAll(drafts, start) :: c.column == column) <==> DraftsMention(drafts, column)
  {
    hide NumberAll;
    NumberedColumns(drafts, start);
    var clauses := NumberAll(drafts, start);
    if d :| d in drafts && d.column == column {
      var i :| 0 <= i < |drafts| && drafts[i] == d;
      assert clauses[i] in clauses;
    }
    if c :| c in clauses && c.column == column {
      var i :| 0 <= i < |clauses| && clauses[i] == c;
      assert drafts[i] in drafts;
    }
  }

  /** The column is the key of a parameter that counts. */
  ghost predicate CountedFrom(params: seq<Param>, i: nat, column: string) {
    exists j :: i <= j < |params| && params[j].0 == column && Counts(params, j)
  }

  lemma {:induction false} CollectedColumns(params: seq<Param>, i: nat, column: string)
    requires i <= |params|
    ensures QueryMentions(CollectFrom(params, i), column) <==> CountedFrom(params, i, column)
    decreases |params| - i
  {
    if i == |params| {
      assert CollectFrom(params, i) == [];
    } else {
      hide Counts, CollectFrom, SeenBefore, Skipped;
      CollectedColumns(params, i + 1, column);
      CollectStep(params, i);
      var query := CollectFrom(params, i);
      assert query != [] ==> query == [query[0]] + query[1..];
    }
  }

  /** An accepted query filters on a column exactly when the column's key is not reserved and occurs once. */
  lemma ColumnFilteredIff(params: seq<Param>, start: nat, column: string)
    ensures var r := Built(Collect(params), start);
      r.Ok? ==> ((exists c <- r.value.clauses :: c.column == column) <==> CountedFrom(params, 0, column))
  {
    hide Drafts, NumberAll, AllValues, CollectFrom, CountedFrom, QueryMentions, DraftsMention;
    DraftColumns(Collect(params), column);
    CollectedColumns(params, 0, column);
    if Drafts(Collect(params)).Ok? {
      NumberedMention(Drafts(Collect(params)).value, start, column);
    }
  }

  /**
   * `schema` names the schema to the handlers, yet is not reserved. In every
   * accepted query that gives it once it filters on a column of that name, and
   * a plain schema name makes the clause imply that the column equals it; a
   * query that does not give it, or gives it more than once, does neither.
   */
  lemma SchemaAlsoFilters(params: seq<Param>, before: seq<string>, after: seq<string>, row: Row)
    ensures var r := Built(Collect(params), |before| + 1);
      r.Ok? ==>
        && ((exists c <- r.value.clauses :: c.column == "schema") <==> |Occurrences(params, "schema")| == 1)
        && (|Occurrences(params, "schema")| == 1 && '.' !in Occurrences(params, "schema")[0]
            && WhereHolds(r.value.clauses, before + r.value.values + after, row)
            ==> row.compares("schema", Rest.Eq, Occurrences(params, "schema")[0]))
  {
    hide Built, WhereHolds, Occurrences, ParamHolds, ValidIdent;
    ColumnFilteredIff(params, |before| + 1, "schema");
    OnceIffCounted(params, "schema");
    QueryMeans(params, before, after, row);
    if |Occurrences(params, "schema")| == 1 {
      var i :| 0 <= i < |params| && params[i].0 == "schema" && Counts(params, i);
      if '.' !in params[i].1 { DotlessIsEquality("schema", params[i].1, row); }
    }
  }

  lemma OnceIffCounted(params: seq<Param>, column: string)
    requires column !in RESERVED
    ensures |Occurrences(params, column)| == 1 <==> CountedFrom(params, 0, column)
    ensures forall i :: 0 <= i < |params| && params[i].0 == column && Counts(params, i) ==>
      Occurrences(params, column) == [params[i].1]
  {
    hide Occurrences;
    forall i | 0 <= i < |params| && params[i].0 == column && Counts(params, i)
      ensures Occurrences(params, column) == [params[i].1]
    {
      SoleOccurrence(params, i);
    }
    if |Occurrences(params, column)| == 1 {
      var i := FirstOccurrence(params, column);
      SoleOccurrence(params, i);
      assert Counts(params, i);
    }
  }

  lemma FirstOccurrence(params: seq<Param>, column: string) returns (i: nat)
    requires Occurrences(params, column) != []
    ensures i < |params| && params[i].0 == column && !SeenBefore(params, i)
  {
    i := 0;
    while params[i].0 != column
      invariant i < |params| && forall j :: 0 <= j < i ==> params[j].0 != column
      invariant exists j :: i <= j < |params| && params[j].0 == column
      decreases |params| - i
    {
      i := i + 1;
    }
  }
}
