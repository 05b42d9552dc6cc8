/**
 * Splitting a shell line into words (services/server-agent/src/shell.ts). The
 * reference is how words are written: bare characters and quoted runs.
 */
module Tokeniser {
  import opened Common
  import opened Text

  function Flushed(current: string): seq<string> {
    if current == "" then [] else [current]
  }

  predicate IsQuote(c: char) {
    c == '"' || c == '\''
  }

  /** The words still to come when `current` is pending and `quote` is open. */
  function Scan(line: string, current: string, quote: Option<char>): (tokens: seq<string>)
    ensures forall t <- tokens :: t != ""
    decreases |line|
  {
    if line == "" then Flushed(current)
    else
      var c, rest := line[0], line[1..];
      if quote.Some? then
        if c == quote.value then Scan(rest, current, None) else Scan(rest, current + [c], quote)
      else if IsQuote(c) then Scan(rest, current, Some(c))
      else if IsSpace(c) then Flushed(current) + Scan(rest, "", None)
      else Scan(rest, current + [c], None)
  }

  function Tokenised(line: string): seq<string> {
    Scan(Trim(line), "", None)
  }

  method Tokenise(line: string) returns (tokens: seq<string>)
    ensures tokens == Tokenised(line)
  {
    tokens := [];
    var current, quote := "", None;
    var trimmed := Trim(line);
    for i := 0 to |trimmed|
      invariant tokens + Scan(trimmed[i..], current, quote) == Tokenised(line)
    {
      var c := trimmed[i];
      assert trimmed[i..][0] == c && trimmed[i..][1..] == trimmed[i + 1..];
      if quote.Some? {
        if c == quote.value {
          quote := None;
        } else {
          current := current + [c];
        }
      } else if IsQuote(c) {
        quote := Some(c);
      } else if IsSpace(c) {
        if current != "" {
          tokens := tokens + [current];
        }
        current := "";
      } else {
        current := current + [c];
      }
    }
    if current != "" {
      tokens := tokens + [current];
    }
  }

  // ------------------------------------------------------------ writing words

  /** A piece of a written word: one bare character, or a run between two equal quotes. */
  datatype Piece = Bare(c: char) | Run(quote: char, text: string) {
    predicate Valid() {
      match this
      case Bare(c) => c != '"' && c != '\'' && !IsSpace(c)
      case Run(quote, text) => (quote == '"' || quote == '\'') && quote !in text
    }

    function Written(): string {
      match this
      case Bare(c) => [c]
      case Run(quote, text) => [quote] + text + [quote]
    }

    function Meaning(): string {
      match this
      case Bare(c) => [c]
      case Run(_, text) => text
    }
  }

  type Word = seq<Piece>

  function Written(word: Word): string {
    if word == [] then "" else word[0].Written() + Written(word[1..])
  }

  function Meaning(word: Word): string {
    if word == [] then "" else word[0].Meaning() + Meaning(word[1..])
  }

  ghost predicate ValidWord(word: Word) {
    Meaning(word) != "" && forall p <- word :: p.Valid()
  }

  function WrittenAll(words: seq<Word>): (texts: seq<string>)
    ensures |texts| == |words|
  {
    if words == [] then [] else [Written(words[0])] + WrittenAll(words[1..])
  }

  function Meanings(words: seq<Word>): (tokens: seq<string>)
    ensures |tokens| == |words|
  {
    if words == [] then [] else [Meaning(words[0])] + Meanings(words[1..])
  }

  lemma {:induction false} ScanRun(quote: char, text: string, rest: string, current: string)
    requires quote !in text
    ensures Scan(text + [quote] + rest, current, Some(quote)) == Scan(rest, current + text, None)
    decreases |text|
  {
    if text == "" {
      assert text + [quote] + rest == [quote] + rest && current + text == current;
    } else {
      assert (text + [quote] + rest)[1..] == text[1..] + [quote] + rest;
      assert text[0] in text;
      ScanRun(quote, text[1..], rest, current + [text[0]]);
      assert current + [text[0]] + text[1..] == current + text;
    }
  }

  lemma ScanPiece(piece: Piece, rest: string, current: string)
    requires piece.Valid()
    ensures Scan(piece.Written() + rest, current, None) == Scan(rest, current + piece.Meaning(), None)
  {
    match piece
    case Bare(c) =>
      assert ([c] + rest)[1..] == rest;
    case Run(quote, text) =>
      assert ([quote] + text + [quote] + rest)[1..] == text + [quote] + rest;
      ScanRun(quote, text, rest, current);
  }

  lemma {:induction false} ScanWord(word: Word, rest: string, current: string)
    requires forall p <- word :: p.Valid()
    ensures Scan(Written(word) + rest, current, None) == Scan(rest, current + Meaning(word), None)
    decreases |word|
  {
    if word == [] {
      assert Written(word) + rest == rest && current + Meaning(word) == current;
    } else {
      hide Scan;
      var tail := word[1..];
      assert word[0] in word;
      assert Written(word) + rest == word[0].Written() + (Written(tail) + rest);
      ScanPiece(word[0], Written(tail) + rest, current);
      ScanWord(tail, rest, current + word[0].Meaning());
      assert current + word[0].Meaning() + Meaning(tail) == current + Meaning(word);
    }
  }

  lemma {:induction false} ScanBlank(gap: string, rest: string)
    requires Blank(gap)
    ensures Scan(gap + rest, "", None) == Scan(rest, "", None)
  {
    if gap == "" {
      assert gap + rest == rest;
    } else {
      hide IsSpace;
      assert gap[0] in gap && (gap + rest)[1..] == gap[1..] + rest;
      QuotesAreNoSpace(gap[0]);
      ScanBlank(gap[1..], rest);
    }
  }

  lemma QuotesAreNoSpace(c: char)
    requires IsSpace(c)
    ensures !IsQuote(c)
  {
  }

  lemma ScanGap(gap: string, rest: string, current: string)
    requires Blank(gap) && gap != "" && current != ""
    ensures Scan(gap + rest, current, None) == [current] + Scan(rest, "", None)
  {
    hide IsSpace;
    assert gap[0] in gap && (gap + rest)[1..] == gap[1..] + rest;
    QuotesAreNoSpace(gap[0]);
    ScanBlank(gap[1..], rest);
  }

  /** Words written one after another with the given gaps between them. */
  function Spaced(words: seq<Word>, gaps: seq<string>): string
    requires |words| == |gaps| + 1
  {
    if gaps == [] then Written(words[0]) else Written(words[0]) + (gaps[0] + Spaced(words[1..], gaps[1..]))
  }

  /** One white-space character or more. */
  predicate Gap(gap: string) {
    gap != "" && Blank(gap)
  }

  lemma {:induction false} ScanWords(words: seq<Word>, gaps: seq<string>)
    requires |words| == |gaps| + 1
    requires (forall w <- words :: ValidWord(w)) && forall g <- gaps :: Gap(g)
    ensures Scan(Spaced(words, gaps), "", None) == Meanings(words)
    decreases |words|
  {
    hide Scan, Blank;
    var word := words[0];
    assert word in words && "" + Meaning(word) == Meaning(word);
    if gaps == [] {
      assert Written(word) + "" == Written(word);
      ScanWord(word, "", "");
      assert Scan("", Meaning(word), None) == [Meaning(word)] by { ScanEnd(Meaning(word)); }
      assert Meanings(words) == [Meaning(word)];
    } else {
      assert gaps[0] in gaps;
      var later := Spaced(words[1..], gaps[1..]);
      ScanWord(word, gaps[0] + later, "");
      ScanGap(gaps[0], later, Meaning(word));
      ScanWords(words[1..], gaps[1..]);
    }
  }

  lemma ScanEnd(current: string)
    requires current != ""
    ensures Scan("", current, None) == [current]
  {
  }

  /** A written word neither starts nor ends with a character `trim` removes. */
  predicate Tight(s: string) {
    s != "" && !IsSpace(s[0]) && !IsSpace(s[|s| - 1])
  }

  lemma {:induction false} WordTight(word: Word)
    requires word != [] && forall p <- word :: p.Valid()
    ensures Tight(Written(word))
  {
    assert word[0] in word;
    if |word| == 1 {
      assert word[0].Written() + "" == word[0].Written();
    } else {
      WordTight(word[1..]);
    }
  }

  lemma {:induction false} SpacedTight(words: seq<Word>, gaps: seq<string>)
    requires |words| == |gaps| + 1 && forall w <- words :: ValidWord(w)
    ensures Tight(Spaced(words, gaps))
    decreases |words|
  {
    assert words[0] in words;
    WordTight(words[0]);
    if gaps == [] {
    } else {
      hide Written, ValidWord, Tight;
      SpacedTight(words[1..], gaps[1..]);
      TightPair(Written(words[0]), gaps[0], Spaced(words[1..], gaps[1..]));
    }
  }

  lemma TightPair(a: string, gap: string, b: string)
    requires Tight(a) && Tight(b)
    ensures Tight(a + (gap + b))
  {
  }

  /**
   * However words are written, and whatever white space stands between, before
   * and after them, the line reads back as what they mean.
   */
  lemma WrittenReads(words: seq<Word>, gaps: seq<string>, before: string, after: string)
    requires |words| == |gaps| + 1
    requires (forall w <- words :: ValidWord(w)) && forall g <- gaps :: Gap(g)
    requires Blank(before) && Blank(after)
    ensures Tokenised(before + Spaced(words, gaps) + after) == Meanings(words)
  {
    hide Scan, Trim, Blank, ValidWord, Tight, Gap;
    ScanWords(words, gaps);
    SpacedTight(words, gaps);
    TrimTight(before, Spaced(words, gaps), after);
  }

  lemma TrimTight(before: string, s: string, after: string)
    requires Tight(s) && Blank(before) && Blank(after)
    ensures Trim(before + s + after) == s
  {
    TrimStrips(before, s, after);
  }

  /** A line of nothing but white space has no words. */
  lemma BlankReads(line: string)
    requires Blank(line)
    ensures Tokenised(line) == []
  {
    hide IsSpace, Blank;
    TrimBlank(line);
  }

  /** A quote that is never closed runs to the end of the line. */
  lemma UnclosedReads(word: Word, quote: char, text: string)
    requires (forall p <- word :: p.Valid()) && IsQuote(quote) && quote !in text && text != ""
    requires !IsSpace(text[|text| - 1])
    ensures Tokenised(Written(word) + ([quote] + text)) == [Meaning(word) + text]
  {
    var line := Written(word) + ([quote] + text);
    assert Tight(line) by {
      if word != [] {
        WordTight(word);
      }
    }
    TrimFixed(line);
    ScanWord(word, [quote] + text, "");
    assert "" + Meaning(word) == Meaning(word);
    assert ([quote] + text)[1..] == text;
    ScanUnclosed(quote, text, Meaning(word));
  }

  lemma {:induction false} ScanUnclosed(quote: char, text: string, current: string)
    requires quote !in text
    ensures Scan(text, current, Some(quote)) == Flushed(current + text)
    decreases |text|
  {
    if text == "" {
      assert current + text == current;
    } else {
      assert text[0] in text;
      ScanUnclosed(quote, text[1..], current + [text[0]]);
      assert current + [text[0]] + text[1..] == current + text;
    }
  }

  /** Single spaces. */
  function Spaces(n: nat): (gaps: seq<string>)
    ensures |gaps| == n && forall g <- gaps :: g == " "
  {
    if n == 0 then [] else [" "] + Spaces(n - 1)
  }

  lemma {:induction false} JoinIsSpaced(words: seq<Word>)
    requires words != []
    ensures Join(WrittenAll(words), ' ') == Spaced(words, Spaces(|words| - 1))
  {
    var (first, tail) := (Written(words[0]), words[1..]);
    hide Written;
    if |words| == 1 {
      assert Join([first], ' ') == first;
    } else {
      assert Spaces(|words| - 1) == [" "] + Spaces(|words| - 2);
      assert WrittenAll(words) == [first] + WrittenAll(tail);
      hide WrittenAll, Spaces;
      JoinIsSpaced(tail);
      var later := Join(WrittenAll(tail), ' ');
      assert ([first] + WrittenAll(tail))[1..] == WrittenAll(tail);
      assert ([" "] + Spaces(|words| - 2))[1..] == Spaces(|words| - 2);
      assert first + [' '] + later == first + ([' '] + later);
    }
  }

  lemma JoinedReads(words: seq<Word>)
    requires forall w <- words :: ValidWord(w)
    ensures Tokenised(Join(WrittenAll(words), ' ')) == Meanings(words)
  {
    hide Spaced, Tokenised, ValidWord, Meaning, Written;
    if words == [] {
      BlankReads("");
    } else {
      var line := Spaced(words, Spaces(|words| - 1));
      JoinIsSpaced(words);
      assert "" + line + "" == line;
      WrittenReads(words, Spaces(|words| - 1), "", "");
    }
  }

  // ------------------------------------------------------- plain words and others

  predicate Plain(token: string) {
    token != "" && forall c <- token :: !IsQuote(c) && !IsSpace(c)
  }

  /** A spelling of any text: bare where possible, quoted one character at a time elsewhere. */
  function Spelling(token: string): (word: Word)
    ensures Meaning(word) == token && forall p <- word :: p.Valid()
    ensures (forall c <- token :: !IsQuote(c) && !IsSpace(c)) ==> Written(word) == token
  {
    if token == "" then []
    else
      var c := token[0];
      assert token == [c] + token[1..];
      [if !IsQuote(c) && !IsSpace(c) then Bare(c) else Run(if c == '"' then '\'' else '"', [c])] + Spelling(token[1..])
  }

  function Spellings(tokens: seq<string>): (words: seq<Word>)
    ensures |words| == |tokens|
    ensures forall i :: 0 <= i < |tokens| ==> words[i] == Spelling(tokens[i])
  {
    seq(|tokens|, i requires 0 <= i < |tokens| => Spelling(tokens[i]))
  }

  lemma {:induction false} SpellingsMean(tokens: seq<string>)
    ensures Meanings(Spellings(tokens)) == tokens
  {
    if tokens == [] {
    } else {
      hide Spelling;
      assert Spellings(tokens)[1..] == Spellings(tokens[1..]);
      SpellingsMean(tokens[1..]);
    }
  }

  lemma {:induction false} PlainSpellings(tokens: seq<string>)
    requires forall t <- tokens :: Plain(t)
    ensures WrittenAll(Spellings(tokens)) == tokens
  {
    if tokens == [] {
    } else {
      hide Spelling;
      assert tokens[0] in tokens;
      assert Spellings(tokens)[1..] == Spellings(tokens[1..]);
      PlainSpellings(tokens[1..]);
    }
  }

  lemma SpellingsRead(tokens: seq<string>)
    requires forall t <- tokens :: t != ""
    ensures Tokenised(Join(WrittenAll(Spellings(tokens)), ' ')) == tokens
  {
    var words := Spellings(tokens);
    forall w | w in words ensures ValidWord(w) {
      var i :| 0 <= i < |words| && words[i] == w;
      assert tokens[i] in tokens;
    }
    JoinedReads(words);
    SpellingsMean(tokens);
  }

  /** Tokenising undoes joining by single spaces, for words free of spaces and quotes. */
  lemma PlainReads(tokens: seq<string>)
    requires forall t <- tokens :: Plain(t)
    ensures Tokenised(Join(tokens, ' ')) == tokens
  {
    SpellingsRead(tokens);
    PlainSpellings(tokens);
  }

  /** Exactly the lists without an empty word can be typed. */
  lemma Expressible(tokens: seq<string>)
    ensures (exists line :: Tokenised(line) == tokens) <==> forall t <- tokens :: t != ""
  {
    if forall t <- tokens :: t != "" {
      SpellingsRead(tokens);
    }
  }
}
