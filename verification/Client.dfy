/**
 * The SDK's query builder (packages/client/src/index.ts): each call records a
 * filter, and awaiting the builder prints them all as one query string.
 * The printed parameters are kept as pairs; percent-encoding is the identity.
 */
module Client {
  import opened Common
  import opened Text
  import Rest

  datatype CompareOp = Eq | Neq | Gt | Gte | Lt | Lte | Like | Ilike

  /** What the developer asked for. */
  datatype Wish =
    | Compares(column: string, op: CompareOp, value: string)
    | IsValue(column: string, truth: Option<bool>)
    | InList(column: string, values: seq<string>)

  datatype Sorting = Sorting(column: string, ascending: bool, nullsFirst: Option<bool>)

  /** The recorded triple: column, operator, value. */
  datatype Recorded = Recorded(column: string, operator: string, value: string)

  type Param = (string, string)

  // ------------------------------------------------------------------ printing

  function OpName(op: CompareOp): string {
    match op
    case Eq => "eq" case Neq => "neq" case Gt => "gt" case Gte => "gte"
    case Lt => "lt" case Lte => "lte" case Like => "like" case Ilike => "ilike"
  }

  function Record(wish: Wish): Recorded {
    match wish
    case Compares(column, op, value) => Recorded(column, OpName(op), value)
    case IsValue(column, truth) =>
      Recorded(column, "is", if truth.None? then "null" else if truth.value then "true" else "false")
    case InList(column, values) => Recorded(column, "in", "(" + Join(values, ',') + ")")
  }

  function RecordAll(wishes: seq<Wish>): (r: seq<Recorded>)
    ensures |r| == |wishes|
    ensures forall i :: 0 <= i < |r| ==> r[i] == Record(wishes[i])
  {
    seq(|wishes|, i requires 0 <= i < |wishes| => Record(wishes[i]))
  }

  function SortParts(s: Sorting): seq<string> {
    [s.column, if s.ascending then "asc" else "desc"]
    + (if s.nullsFirst.None? then [] else [if s.nullsFirst.value then "nullsfirst" else "nullslast"])
  }

  function SortText(s: Sorting): string {
    Join(SortParts(s), '.')
  }

  function ShowInt(n: int): string {
    if n < 0 then "-" + Decimal(-n) else Decimal(n)
  }

  datatype Verb = GET | POST | PATCH | DELETE

  datatype Settings = Settings(
    verb: Verb, columns: string, ordering: seq<string>, limit: Option<int>, offset: Option<int>, countExact: bool)

  function SettingParams(s: Settings): seq<Param> {
    if s.verb != GET then []
    else
      var p := if s.columns != "*" then [("select", s.columns)] else [];
      var p := if s.ordering != [] then p + [("order", Join(s.ordering, ','))] else p;
      var p := if s.limit.Some? then p + [("limit", ShowInt(s.limit.value))] else p;
      var p := if s.offset.Some? then p + [("offset", ShowInt(s.offset.value))] else p;
      if s.countExact then p + [("count", "exact")] else p
  }

  function FilterParams(filters: seq<Recorded>): (params: seq<Param>)
    ensures |params| == |filters|
    ensures forall i :: 0 <= i < |filters| ==>
      params[i] == (filters[i].column, filters[i].operator + "." + filters[i].value)
  {
    seq(|filters|, i requires 0 <= i < |filters| =>
      (filters[i].column, filters[i].operator + "." + filters[i].value))
  }

  method PrintSettings(s: Settings) returns (params: seq<Param>)
    ensures params == SettingParams(s)
  {
    hide Join, ShowInt;
    params := [];
    if s.verb == GET {
      if s.columns != "*" { params := [("select", s.columns)]; }
      if |s.ordering| > 0 { params := params + [("order", Join(s.ordering, ','))]; }
      if s.limit.Some? { params := params + [("limit", ShowInt(s.limit.value))]; }
      if s.offset.Some? { params := params + [("offset", ShowInt(s.offset.value))]; }
      if s.countExact { params := params + [("count", "exact")]; }
    }
  }

  class QueryBuilder {
    var filters: seq<Recorded>
    var settings: Settings
    ghost var wishes: seq<Wish>

    ghost predicate Valid()
      reads this
    {
      filters == RecordAll(wishes)
    }

    constructor ()
      ensures Valid() && wishes == [] && settings == Settings(GET, "*", [], None, None, false)
    {
      filters, wishes := [], [];
      settings := Settings(GET, "*", [], None, None, false);
    }

    method Add(ghost wish: Wish, column: string, operator: string, value: string)
      requires Valid() && Record(wish) == Recorded(column, operator, value)
      modifies this`filters, this`wishes
      ensures Valid() && wishes == old(wishes) + [wish]
    {
      filters := filters + [Recorded(column, operator, value)];
      wishes := wishes + [wish];
    }

    method Compare(column: string, op: CompareOp, value: string)
      requires Valid()
      modifies this`filters, this`wishes
      ensures Valid() && wishes == old(wishes) + [Compares(column, op, value)]
    {
      Add(Compares(column, op, value), column, OpName(op), value);
    }

    method Is(column: string, truth: Option<bool>)
      requires Valid()
      modifies this`filters, this`wishes
      ensures Valid() && wishes == old(wishes) + [IsValue(column, truth)]
    {
      var value := if truth.None? then "null" else if truth.value then "true" else "false";
      Add(IsValue(column, truth), column, "is", value);
    }

    method In(column: string, values: seq<string>)
      requires Valid()
      modifies this`filters, this`wishes
      ensures Valid() && wishes == old(wishes) + [InList(column, values)]
    {
      Add(InList(column, values), column, "in", "(" + Join(values, ',') + ")");
    }

    method Order(sorting: Sorting)
      requires Valid()
      modifies this`settings
      ensures Valid() && settings == old(settings).(ordering := old(settings).ordering + [SortText(sorting)])
    {
      var parts := [sorting.column, if sorting.ascending then "asc" else "desc"];
      if sorting.nullsFirst.Some? {
        parts := parts + [if sorting.nullsFirst.value then "nullsfirst" else "nullslast"];
      }
      assert parts == SortParts(sorting);
      settings := settings.(ordering := settings.ordering + [Join(parts, '.')]);
    }

    method Range(from: int, to: int)
      requires Valid()
      modifies this`settings
      ensures Valid() && settings == old(settings).(offset := Some(from), limit := Some(to - from + 1))
    {
      settings := settings.(offset := Some(from), limit := Some(to - from + 1));
    }

    method BuildQueryString() returns (params: seq<Param>)
      requires Valid()
      ensures params == SettingParams(settings) + FilterParams(RecordAll(wishes))
    {
      params := PrintSettings(settings);
      ghost var before := params;
      var filters := filters;
      for i := 0 to |filters|
        invariant params == before + FilterParams(filters)[..i]
      {
        params := params + [(filters[i].column, filters[i].operator + "." + filters[i].value)];
      }
    }
  }

  /** Exactly which settings are printed, and as what: each at most once, and for GET only. */
  lemma SettingsSay(s: Settings, key: string, value: string)
    ensures (key, value) in SettingParams(s) <==>
      s.verb == GET && (
        || (key == "select" && s.columns != "*" && value == s.columns)
        || (key == "order" && s.ordering != [] && value == Join(s.ordering, ','))
        || (key == "limit" && s.limit.Some? && value == ShowInt(s.limit.value))
        || (key == "offset" && s.offset.Some? && value == ShowInt(s.offset.value))
        || (key == "count" && s.countExact && value == "exact"))
    ensures forall i, j :: 0 <= i < j < |SettingParams(s)| ==> SettingParams(s)[i].0 != SettingParams(s)[j].0
  {
    hide Join, ShowInt;
  }

  /** A printed number reads back as itself. */
  lemma ShowIntReads(n: int)
    ensures n >= 0 ==> AllDigits(ShowInt(n)) && DecimalValue(ShowInt(n)) == n
    ensures n < 0 ==>
      && ShowInt(n) != "" && ShowInt(n)[0] == '-' && AllDigits(ShowInt(n)[1..])
      && DecimalValue(ShowInt(n)[1..]) == -n
  {
    hide Decimal, DecimalValue;
    DecimalReads(if n < 0 then -n else n);
  }

  // ------------------------------------------------------------- what it means

  function SqlOpOf(op: CompareOp): Rest.SqlOp {
    match op
    case Eq => Rest.Eq case Neq => Rest.Neq case Gt => Rest.Gt case Gte => Rest.Gte
    case Lt => Rest.Lt case Lte => Rest.Lte case Like => Rest.Like case Ilike => Rest.Ilike
  }

  /** In a pattern `*` is the wildcard; everywhere else the value is literal. */
  function SqlValue(op: CompareOp, value: string): string {
    if op == Like || op == Ilike then Rest.StarsToPercents(value) else value
  }

  function TestOf(truth: Option<bool>): Rest.IsTest {
    if truth.None? then Rest.IsNull else if truth.value then Rest.IsTrue else Rest.IsFalse
  }

  /** The filter the developer wrote holds of the row. */
  ghost predicate WishHolds(wish: Wish, row: Rest.Row) {
    match wish
    case Compares(column, op, value) => row.compares(column, SqlOpOf(op), SqlValue(op, value))
    case IsValue(column, truth) => row.tests(column, TestOf(truth))
    case InList(column, values) => exists v <- values :: row.compares(column, Rest.Eq, v)
  }

  ghost predicate WishesHold(wishes: seq<Wish>, row: Rest.Row) {
    forall i :: 0 <= i < |wishes| ==> WishHolds(wishes[i], row)
  }
}
