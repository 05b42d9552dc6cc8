/** Parsing a whole shell line (services/server-agent/src/shell.ts). */
module ShellCommands {
  import opened Common
  import opened Text
  import opened Tokeniser
  import opened Shell

  const ALIASES: map<string, string> := map[
    "df" := "system_disk", "free" := "system_info", "uptime" := "system_info", "uname" := "system_info",
    "top" := "system_processes", "ps" := "system_processes", "ss" := "network_ports", "netstat" := "network_ports",
    "systemctl" := "service_list", "nft" := "firewall_rules", "iptables" := "firewall_rules",
    "lsblk" := "system_disk", "journalctl" := "logs_sources"
  ]

  /** The lower-case properties every object literal inherits: `ALIASES[head]` finds them too. */
  predicate Inherited(head: string) {
    head == "constructor" || head == "__proto__"
  }

  function BuiltIn(head: string): Option<Command> {
    if head == "help" || head == "?" then Some(Command(Some("__help"), map[], "help"))
    else if head == "clear" then Some(Command(Some("__clear"), map[], "clear"))
    else if head == "exit" || head == "quit" || head == "logout" then Some(Command(Some("__exit"), map[], head))
    else if head == "operations" || head == "commands" then Some(Command(Some("__operations"), map[], head))
    else None
  }

  /** A line whose first word is not `kairos`. */
  function Aliased(head: string, tokens: seq<string>): Result<Command, ShellError> {
    if head in ALIASES then Ok(Command(Some(ALIASES[head]), map[], Join(tokens, ' ')))
    else if Inherited(head) then Ok(Command(None, map[], Join(tokens, ' ')))
    else Err(NotACommand(head))
  }

  function Typed(rule: Rule, tokens: seq<string>): seq<string>
    requires tokens != [] && |rule.path| < |tokens|
  {
    tokens[1 + |rule.path|..]
  }

  lemma ChosenFits(rules: seq<Rule>, tokens: seq<string>)
    requires tokens != []
    ensures var chosen := Chosen(rules, LowerAll(tokens[1..])); chosen.Some? ==> |chosen.value.path| < |tokens|
  {
    hide Chosen, LowerAll;
    ChosenIsLongest(rules, LowerAll(tokens[1..]));
  }

  /** A `kairos` line with at least one further word. */
  function KairosCommand(number: ReadNumber, rules: seq<Rule>, tokens: seq<string>): Result<Command, ShellError>
    requires tokens != []
  {
    ChosenFits(rules, tokens);
    match Chosen(rules, LowerAll(tokens[1..]))
    case None => Err(UnknownCommand)
    case Some(rule) =>
      match Fill(number, rule.positional, Typed(rule, tokens), map[])
      case Err(e) => Err(e)
      case Ok(args) => Ok(Command(Some(rule.operation), args, Join(tokens, ' ')))
  }

  function Parsed(number: ReadNumber, rules: seq<Rule>, line: string): Result<Command, ShellError> {
    ParsedWords(number, rules, Tokenised(line))
  }

  function ParsedWords(number: ReadNumber, rules: seq<Rule>, tokens: seq<string>): Result<Command, ShellError> {
    if tokens == [] then Err(EmptyLine)
    else
      var head := ToLower(tokens[0]);
      if BuiltIn(head).Some? then Ok(BuiltIn(head).value)
      else if head != "kairos" then Aliased(head, tokens)
      else if |tokens| == 1 then Ok(Command(Some("__help"), map[], "kairos"))
      else KairosCommand(number, rules, tokens)
  }

  method Parse(number: ReadNumber, rules: seq<Rule>, line: string) returns (result: Result<Command, ShellError>)
    ensures result == Parsed(number, rules, line)
  {
    hide Tokenised, Chosen, LowerAll, Fill;
    var tokens := Tokenise(line);
    if |tokens| == 0 {
      return Err(EmptyLine);
    }
    var head := ToLower(tokens[0]);
    if BuiltIn(head).Some? {
      return Ok(BuiltIn(head).value);
    }
    if head != "kairos" {
      return Aliased(head, tokens);
    }
    if |tokens| == 1 {
      return Ok(Command(Some("__help"), map[], "kairos"));
    }
    var chosen := Chosen(rules, LowerAll(tokens[1..]));
    if chosen.None? {
      return Err(UnknownCommand);
    }
    ChosenFits(rules, tokens);
    var rule := chosen.value;
    var args := FillPositional(number, rule.positional, tokens[1 + |rule.path|..]);
    if args.Err? {
      return Err(args.error);
    }
    result := Ok(Command(Some(rule.operation), args.value, Join(tokens, ' ')));
  }

  // ---------------------------------------------------------------- the theorems

  /** A rule and its typed words account for every word of the line. */
  ghost predicate Accounts(number: ReadNumber, rules: seq<Rule>, tokens: seq<string>, rule: Rule) {
    && tokens != [] && IsLongest(rules, LowerAll(tokens[1..]), rule)
    && Fits(number, rule.positional, Typed(rule, tokens))
  }

  /** What a parsed command's arguments promise. */
  ghost predicate Meets(spec: Spec, args: Args) {
    && (spec.required ==> spec.name in args)
    && (spec.name in args && spec.isInt ==> args[spec.name].Whole?)
    && (spec.name in args && !spec.isInt ==> args[spec.name].Word?)
    && (spec.name in args && !spec.isInt && spec.values != [] ==> args[spec.name].text in spec.values)
  }

  lemma ArgumentsMeet(number: ReadNumber, specs: seq<Spec>, typed: seq<string>, args: Args, i: nat)
    requires i < |specs| && DistinctNames(specs) && Fits(number, specs, typed)
    requires Reads(number, specs, typed, args) && OnlyNamed(specs, typed, map[], args)
    ensures Meets(specs[i], args)
  {
    hide Binds, Admits;
    if specs[i].name in args {
      assert Named(specs, typed, specs[i].name);
      var j :| 0 <= j < |typed| && specs[j].name == specs[i].name;
      assert j == i;
      BoundMeets(number, specs[i], typed[i], args);
    }
  }

  lemma BoundMeets(number: ReadNumber, spec: Spec, raw: string, args: Args)
    requires spec.name in args && Binds(number, spec, raw, args[spec.name])
    ensures Meets(spec, args)
  {
    hide ToLower;
  }

  /**
   * A `kairos` line parses exactly when some longest matching rule, together
   * with the words its slots admit, accounts for every word; the command is
   * then that rule's, with one argument per typed word and each in its range.
   */
  lemma KairosParsesIff(number: ReadNumber, rules: seq<Rule>, tokens: seq<string>)
    requires Usable(rules) && tokens != []
    ensures KairosCommand(number, rules, tokens).Ok? <==> exists rule :: Accounts(number, rules, tokens, rule)
  {
    hide LowerAll, Chosen, Fill, Fits, Matches, DistinctPaths;
    var rest := LowerAll(tokens[1..]);
    ChosenIsLongest(rules, rest);
    ChosenFits(rules, tokens);
    var chosen := Chosen(rules, rest);
    if chosen.Some? {
      FillAccepts(number, chosen.value.positional, Typed(chosen.value, tokens), map[]);
      if Fits(number, chosen.value.positional, Typed(chosen.value, tokens)) {
        assert Accounts(number, rules, tokens, chosen.value);
      }
    }
    forall rule | Accounts(number, rules, tokens, rule) ensures chosen == Some(rule) {
      LongestIsChosen(rules, rest, rule);
    }
  }

  lemma KairosCommandMeans(number: ReadNumber, rules: seq<Rule>, tokens: seq<string>, rule: Rule)
    requires Usable(rules) && Accounts(number, rules, tokens, rule)
    ensures var result := KairosCommand(number, rules, tokens);
      && result.Ok? && result.value.operation == Some(rule.operation) && result.value.display == Join(tokens, ' ')
      && Reads(number, rule.positional, Typed(rule, tokens), result.value.args)
      && OnlyNamed(rule.positional, Typed(rule, tokens), map[], result.value.args)
      && forall i :: 0 <= i < |rule.positional| ==> Meets(rule.positional[i], result.value.args)
  {
    hide LowerAll, Chosen, Fill, Fits, Matches, DistinctPaths, Reads, OnlyNamed, Meets, DistinctNames, Join;
    LongestIsChosen(rules, LowerAll(tokens[1..]), rule);
    ChosenFits(rules, tokens);
    var typed := Typed(rule, tokens);
    FillAccepts(number, rule.positional, typed, map[]);
    FillBinds(number, rule.positional, typed, map[]);
    var args := KairosCommand(number, rules, tokens).value.args;
    forall i | 0 <= i < |rule.positional| ensures Meets(rule.positional[i], args) {
      ArgumentsMeet(number, rule.positional, typed, args, i);
    }
  }

  /**
   * However the words of an accounted line are spelled, quoted and spaced, the
   * line parses to the rule's operation with the words its slots admit.
   */
  lemma CommandRoundTrip(number: ReadNumber, rules: seq<Rule>, rule: Rule,
                         words: seq<Word>, gaps: seq<string>, before: string, after: string)
    requires |words| == |gaps| + 1 && Usable(rules)
    requires (forall w <- words :: ValidWord(w)) && forall g <- gaps :: Gap(g)
    requires Blank(before) && Blank(after)
    requires |words| >= 2 && ToLower(Meanings(words)[0]) == "kairos" && Accounts(number, rules, Meanings(words), rule)
    ensures var result := Parsed(number, rules, before + Spaced(words, gaps) + after);
      && result.Ok? && result.value.operation == Some(rule.operation)
      && Reads(number, rule.positional, Typed(rule, Meanings(words)), result.value.args)
      && OnlyNamed(rule.positional, Typed(rule, Meanings(words)), map[], result.value.args)
  {
    hide Tokenised, Spaced, Meanings, KairosCommand, ParsedWords, Reads, Usable, Meets, OnlyNamed;
    hide Blank, ValidWord, ToLower, IsLongest, Fits, LowerAll, Gap;
    WrittenReads(words, gaps, before, after);
    KairosCommandMeans(number, rules, Meanings(words), rule);
    KairosLine(number, rules, Meanings(words));
  }

  lemma KairosLine(number: ReadNumber, rules: seq<Rule>, tokens: seq<string>)
    requires |tokens| >= 2 && ToLower(tokens[0]) == "kairos"
    ensures ParsedWords(number, rules, tokens) == KairosCommand(number, rules, tokens)
  {
    hide KairosCommand;
  }

  /** Nothing typed is nothing asked; `kairos` alone asks for help, and with words that begin no rule is refused. */
  lemma UnknownRefused(number: ReadNumber, rules: seq<Rule>, tokens: seq<string>)
    ensures ParsedWords(number, rules, []) == Err(EmptyLine)
    ensures |tokens| == 1 && ToLower(tokens[0]) == "kairos" ==>
      ParsedWords(number, rules, tokens) == Ok(Command(Some("__help"), map[], "kairos"))
    ensures |tokens| >= 2 && ToLower(tokens[0]) == "kairos" ==>
      (ParsedWords(number, rules, tokens) == Err(UnknownCommand)
       <==> forall r <- rules :: !(r.path <= LowerAll(tokens[1..])))
  {
    hide LowerAll, ToLower, Chosen, Fill;
    if |tokens| >= 2 && ToLower(tokens[0]) == "kairos" {
      ChosenIsLongest(rules, LowerAll(tokens[1..]));
      KairosLine(number, rules, tokens);
      ChosenFits(rules, tokens);
      var chosen := Chosen(rules, LowerAll(tokens[1..]));
      if chosen.Some? {
        NeverUnknown(number, chosen.value.positional, Typed(chosen.value, tokens), map[]);
      }
    }
  }

  lemma {:induction false} NeverUnknown(number: ReadNumber, specs: seq<Spec>, typed: seq<string>, args: Args)
    ensures Fill(number, specs, typed, args) != Err(UnknownCommand)
  {
    if i: nat :| FailsAt(number, specs, typed, i, UnknownCommand) {
      assert false;
    }
    FillFails(number, specs, typed, args, UnknownCommand);
  }

  /** The choice of a rule does not look at the case of letters. */
  lemma PathCaseInsensitive(rules: seq<Rule>, a: seq<string>, b: seq<string>)
    requires |a| == |b| && forall i :: 0 <= i < |a| ==> ToLower(a[i]) == ToLower(b[i])
    ensures Chosen(rules, LowerAll(a)) == Chosen(rules, LowerAll(b))
  {
    hide ToLower, Chosen;
    assert LowerAll(a) == LowerAll(b);
  }

  /** The words the shell answers itself. */
  const OWN_WORDS: set<string> := {
    "help", "?", "clear", "exit", "quit", "logout", "operations", "commands"
  }

  /** A line not starting with `kairos` is one of the shell's own words, an alias, or refused. */
  lemma HeadDecides(number: ReadNumber, rules: seq<Rule>, tokens: seq<string>, head: string)
    requires tokens != [] && head == ToLower(tokens[0]) && head != "kairos"
    ensures var result := ParsedWords(number, rules, tokens);
      && (head == "help" || head == "?" ==> result == Ok(Command(Some("__help"), map[], "help")))
      && (head == "clear" ==> result == Ok(Command(Some("__clear"), map[], "clear")))
      && (head == "exit" || head == "quit" || head == "logout" ==>
          result == Ok(Command(Some("__exit"), map[], head)))
      && (head == "operations" || head == "commands" ==>
          result == Ok(Command(Some("__operations"), map[], head)))
      && (head in ALIASES ==> result == Ok(Command(Some(ALIASES[head]), map[], Join(tokens, ' '))))
      && (head !in OWN_WORDS && head !in ALIASES && !Inherited(head) ==> result == Err(NotACommand(head)))
  {
    hide ToLower, Join;
  }

  /** The only lines accepted without naming an operation start with an inherited property name. */
  lemma UndefinedOperationIff(number: ReadNumber, rules: seq<Rule>, line: string)
    ensures var result := Parsed(number, rules, line);
      (result.Ok? && result.value.operation.None?)
      <==> Tokenised(line) != [] && ToLower(Tokenised(line)[0]) in {"constructor", "__proto__"}
  {
    hide Tokenised, Fill, Chosen, LowerAll;
    if Tokenised(line) != [] {
      InheritedIsNothingElse();
    }
  }

  lemma InheritedIsNothingElse()
    ensures BuiltIn("constructor").None? && BuiltIn("__proto__").None?
    ensures "constructor" !in ALIASES && "__proto__" !in ALIASES
    ensures "constructor" != "kairos" && "__proto__" != "kairos"
  {
  }
}
