/** From the SDK's `order` calls to the ORDER BY clause the server writes. */
module OrderMeaning {
  import opened Common
  import opened Text
  import opened Rest
  import opened Client

  function TermOf(s: Sorting): OrderTerm {
    OrderTerm(s.column, !s.ascending, s.nullsFirst)
  }

  lemma IdentChars(column: string)
    requires ValidIdent(column)
    ensures column != "" && '.' !in column && ',' !in column && !IsSpace(column[0]) && !IsSpace(column[|column| - 1])
  {
    assert column[|column| - 1] in column;
  }

  function Direction(s: Sorting): string {
    if s.ascending then "asc" else "desc"
  }

  function NullsWord(first: bool): string {
    if first then "nullsfirst" else "nullslast"
  }

  lemma PartsOf(s: Sorting)
    ensures SortParts(s)
      == if s.nullsFirst.None? then [s.column, Direction(s)] else [s.column, Direction(s), NullsWord(s.nullsFirst.value)]
  {
  }

  lemma JoinShort(a: string, b: string, c: string)
    ensures Join([a, b], '.') == a + "." + b && Join([a, b, c], '.') == a + "." + b + "." + c
  {
    assert [a, b, c][1..] == [b, c] && [a, b][1..] == [b] && [b, c][1..] == [c];
    assert Join([c], '.') == c && Join([b], '.') == b;
    assert Join([b, c], '.') == b + ['.'] + c;
    assert a + ['.'] + (b + ['.'] + c) == a + "." + b + "." + c;
  }

  lemma SortTextShape(s: Sorting)
    requires ValidIdent(s.column)
    ensures var text := SortText(s);
      text != "" && ',' !in text && !IsSpace(text[0]) && !IsSpace(text[|text| - 1])
  {
    hide ValidIdent, IsSpace, SortParts, Join;
    IdentChars(s.column);
    Words();
    PartsOf(s);
    var word := if s.nullsFirst.None? then "" else NullsWord(s.nullsFirst.value);
    JoinShort(s.column, Direction(s), word);
  }

  lemma Words()
    ensures !IsSpace('c') && !IsSpace('t')
    ensures ',' !in "asc" && ',' !in "desc" && ',' !in "nullsfirst" && ',' !in "nullslast"
    ensures '.' !in "asc" && '.' !in "desc" && '.' !in "nullsfirst" && '.' !in "nullslast"
  {
  }

  lemma PartsDotless(s: Sorting)
    requires '.' !in s.column
    ensures forall p <- SortParts(s) :: '.' !in p
  {
    Words();
  }

  lemma TermRead(s: Sorting)
    requires ValidIdent(s.column)
    ensures ParseOrderTerm(SortText(s)) == Ok(TermOf(s))
  {
    hide ValidIdent, IsSpace, Split, Join, Trim;
    SortTextShape(s);
    IdentChars(s.column);
    Words();
    TrimFixed(SortText(s));
    TrimFixed(s.column);
    PartsDotless(s);
    SplitJoin(SortParts(s), '.');
    Modifiers(s);
  }

  lemma Modifiers(s: Sorting)
    ensures var modifiers := SortParts(s)[1..];
      && ("desc" in modifiers <==> !s.ascending)
      && ("nullsfirst" in modifiers <==> s.nullsFirst == Some(true))
      && ("nullslast" in modifiers <==> s.nullsFirst == Some(false))
  {
    PartsOf(s);
    assert |"asc"| == 3 && |"desc"| == 4 && |"nullsfirst"| == 10 && |"nullslast"| == 9;
    if s.nullsFirst.None? {
      assert SortParts(s)[1..] == [Direction(s)];
    } else {
      assert SortParts(s)[1..] == [Direction(s), NullsWord(s.nullsFirst.value)];
    }
  }

  function TermsOf(sortings: seq<Sorting>): seq<OrderTerm> {
    if sortings == [] then [] else [TermOf(sortings[0])] + TermsOf(sortings[1..])
  }

  function Texts(sortings: seq<Sorting>): (texts: seq<string>)
    ensures |texts| == |sortings|
    ensures forall i :: 0 <= i < |texts| ==> texts[i] == SortText(sortings[i])
  {
    if sortings == [] then [] else [SortText(sortings[0])] + Texts(sortings[1..])
  }

  lemma {:induction false} TermsRead(sortings: seq<Sorting>)
    requires forall s <- sortings :: ValidIdent(s.column)
    ensures ParseOrderTerms(Texts(sortings)) == Ok(TermsOf(sortings))
  {
    if sortings == [] {
    } else {
      hide ValidIdent, SortText, ParseOrderTerm, TermOf;
      TermRead(sortings[0]);
      TermsRead(sortings[1..]);
      assert Texts(sortings)[1..] == Texts(sortings[1..]);
    }
  }

  /** Any list of sortings on valid column names arrives as the same ORDER BY terms, in order. */
  lemma OrderPreserved(sortings: seq<Sorting>)
    requires sortings != [] && forall s <- sortings :: ValidIdent(s.column)
    ensures BuildOrder(Join(Texts(sortings), ',')) == Ok(TermsOf(sortings))
  {
    hide ValidIdent, IsSpace, SortText, ParseOrderTerms, Split;
    var texts := Texts(sortings);
    forall text | text in texts ensures ',' !in text {
      var i :| 0 <= i < |texts| && texts[i] == text;
      SortTextShape(sortings[i]);
    }
    SortTextShape(sortings[0]);
    assert Join(texts, ',') != "";
    SplitJoin(texts, ',');
    TermsRead(sortings);
  }

  /**
   * Every term the server reads: a column and any modifiers, of which only the
   * three known words count, nulls first winning; white space around it is ignored.
   */
  lemma TermMeans(column: string, modifiers: seq<string>, before: string, after: string)
    requires ValidIdent(column) && forall m <- modifiers :: '.' !in m
    requires Blank(before) && Blank(after)
    requires var text := Join([column] + modifiers, '.'); text != "" ==> !IsSpace(text[|text| - 1])
    ensures ParseOrderTerm(before + Join([column] + modifiers, '.') + after)
         == Ok(OrderTerm(
              column, "desc" in modifiers,
              if "nullsfirst" in modifiers then Some(true)
              else if "nullslast" in modifiers then Some(false)
              else None))
  {
    hide ValidIdent, IsSpace, Split, Trim, Blank;
    IdentChars(column);
    TrimFixed(column);
    var (parts, text) := ([column] + modifiers, Join([column] + modifiers, '.'));
    assert text != "" && text[0] == column[0];
    hide Join;
    TrimStrips(before, text, after);
    SplitJoin(parts, '.');
    assert parts[1..] == modifiers;
  }

  /** No ORDER BY without an order; a term on an invalid column rejects the whole. */
  lemma OrderRejects(pieces: seq<string>)
    requires pieces != [] && forall p <- pieces :: ',' !in p
    requires Join(pieces, ',') != ""
    ensures BuildOrder("") == Ok([])
    ensures BuildOrder(Join(pieces, ',')).Err? <==> exists p <- pieces :: ParseOrderTerm(p).Err?
  {
    hide ParseOrderTerm, Split, Join, ParseOrderTerms;
    SplitJoin(pieces, ',');
    TermsReject(pieces);
  }

  lemma {:induction false} TermsReject(pieces: seq<string>)
    ensures ParseOrderTerms(pieces).Err? <==> exists p <- pieces :: ParseOrderTerm(p).Err?
  {
    if pieces == [] {
    } else {
      hide ParseOrderTerm;
      TermsReject(pieces[1..]);
      assert pieces == [pieces[0]] + pieces[1..];
    }
  }
}
