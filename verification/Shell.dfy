/**
 * The command grammar of the KAIROS shell (services/server-agent/src/shell.ts):
 * longest-path rule choice, then positional arguments. `Number(text)` is a
 * parameter, `None` standing for a value that is not an integer.
 */
module Shell {
  import opened Common
  import opened Text

  type ReadNumber = string -> Option<int>

  /** One positional argument. `values` is empty when the rule lists none. */
  datatype Spec = Spec(name: string, values: seq<string>, isInt: bool, required: bool)

  datatype Rule = Rule(path: seq<string>, operation: string, positional: seq<Spec>)

  datatype Value = Word(text: string) | Whole(number: int)

  type Args = map<string, Value>

  datatype ShellError =
    | EmptyLine
    | NotACommand(head: string)
    | UnknownCommand
    | Missing(name: string)
    | NotWhole(name: string)
    | Invalid(name: string)
    | ExtraInput

  /** `operation` is `None` where the code returns `undefined`. */
  datatype Command = Command(operation: Option<string>, args: Args, display: string)

  function LowerAll(tokens: seq<string>): (r: seq<string>)
    ensures |r| == |tokens|
  {
    seq(|tokens|, i requires 0 <= i < |tokens| => ToLower(tokens[i]))
  }

  // ------------------------------------------------------------- choosing a rule

  /** Every word of the path is the typed word at its index. */
  predicate Matches(rule: Rule, rest: seq<string>) {
    rule.path <= rest
  }

  function Filter(rules: seq<Rule>, rest: seq<string>): seq<Rule> {
    if rules == [] then []
    else (if Matches(rules[0], rest) then [rules[0]] else []) + Filter(rules[1..], rest)
  }

  /** Before the first rule that is not longer, so rules of equal length keep their order. */
  function Insert(rule: Rule, sorted: seq<Rule>): seq<Rule> {
    if sorted == [] || |sorted[0].path| <= |rule.path| then [rule] + sorted
    else [sorted[0]] + Insert(rule, sorted[1..])
  }

  /** A stable sort by decreasing path length. */
  function LongestFirst(rules: seq<Rule>): seq<Rule> {
    if rules == [] then [] else Insert(rules[0], LongestFirst(rules[1..]))
  }

  function Chosen(rules: seq<Rule>, rest: seq<string>): Option<Rule> {
    var candidates := LongestFirst(Filter(rules, rest));
    if candidates == [] then None else Some(candidates[0])
  }

  lemma {:induction false} FilterMember(rules: seq<Rule>, rest: seq<string>, rule: Rule)
    ensures rule in Filter(rules, rest) <==> rule in rules && Matches(rule, rest)
  {
    if rules == [] {
    } else {
      hide Matches;
      FilterMember(rules[1..], rest, rule);
      assert rules == [rules[0]] + rules[1..];
    }
  }

  lemma {:induction false} InsertMembers(rule: Rule, sorted: seq<Rule>, r: Rule)
    ensures r in Insert(rule, sorted) <==> r == rule || r in sorted
  {
    if sorted != [] && |sorted[0].path| > |rule.path| {
      InsertMembers(rule, sorted[1..], r);
      assert sorted == [sorted[0]] + sorted[1..];
    }
  }

  predicate Descending(rules: seq<Rule>) {
    forall i, j :: 0 <= i < j < |rules| ==> |rules[i].path| >= |rules[j].path|
  }

  lemma {:induction false} InsertDescending(rule: Rule, sorted: seq<Rule>)
    requires Descending(sorted)
    ensures Descending(Insert(rule, sorted))
  {
    if sorted != [] && |sorted[0].path| > |rule.path| {
      InsertDescending(rule, sorted[1..]);
      var tail := Insert(rule, sorted[1..]);
      forall j | 0 <= j < |tail| ensures |sorted[0].path| >= |tail[j].path| {
        InsertMembers(rule, sorted[1..], tail[j]);
      }
    }
  }

  lemma {:induction false} SortedMembers(rules: seq<Rule>, r: Rule)
    ensures Descending(LongestFirst(rules))
    ensures r in LongestFirst(rules) <==> r in rules
  {
    if rules == [] {
    } else {
      SortedMembers(rules[1..], r);
      InsertDescending(rules[0], LongestFirst(rules[1..]));
      InsertMembers(rules[0], LongestFirst(rules[1..]), r);
      assert rules == [rules[0]] + rules[1..];
    }
  }

  /** A longest rule whose path begins the typed words. */
  ghost predicate IsLongest(rules: seq<Rule>, rest: seq<string>, rule: Rule) {
    && rule in rules && Matches(rule, rest)
    && forall r <- rules :: Matches(r, rest) ==> |r.path| <= |rule.path|
  }

  /** The choice is a longest matching rule, and there is one unless nothing matches. */
  lemma ChosenIsLongest(rules: seq<Rule>, rest: seq<string>)
    ensures Chosen(rules, rest).None? <==> forall r <- rules :: !Matches(r, rest)
    ensures Chosen(rules, rest).Some? ==> IsLongest(rules, rest, Chosen(rules, rest).value)
  {
    hide Matches, Filter, LongestFirst;
    var filtered := Filter(rules, rest);
    var candidates := LongestFirst(filtered);
    forall r ensures r in candidates <==> r in rules && Matches(r, rest) {
      FilterMember(rules, rest, r);
      SortedMembers(filtered, r);
    }
    if candidates != [] {
      SortedMembers(filtered, candidates[0]);
      forall r | r in rules && Matches(r, rest) ensures |r.path| <= |candidates[0].path| {
        assert r in candidates;
      }
    }
  }

  /** No two rules share a path. */
  ghost predicate DistinctPaths(rules: seq<Rule>) {
    forall r <- rules, s <- rules :: r.path == s.path ==> r == s
  }

  lemma SamePath(a: Rule, b: Rule, rest: seq<string>)
    requires Matches(a, rest) && Matches(b, rest) && |a.path| == |b.path|
    ensures a.path == b.path
  {
    assert a.path == rest[..|a.path|] && b.path == rest[..|b.path|];
  }

  /** Where paths are distinct, the longest matching rule is the only one of its length. */
  lemma LongestIsChosen(rules: seq<Rule>, rest: seq<string>, rule: Rule)
    requires DistinctPaths(rules) && IsLongest(rules, rest, rule)
    ensures Chosen(rules, rest) == Some(rule)
  {
    hide Chosen, Matches;
    ChosenIsLongest(rules, rest);
    SamePath(rule, Chosen(rules, rest).value, rest);
  }

  ghost predicate SameRules(a: seq<Rule>, b: seq<Rule>) {
    forall r :: r in a <==> r in b
  }

  ghost predicate OrderIndependent(rules: seq<Rule>) {
    forall other, rest :: SameRules(rules, other) ==> Chosen(other, rest) == Chosen(rules, rest)
  }

  lemma Reordered(rules: seq<Rule>, other: seq<Rule>, rest: seq<string>)
    requires DistinctPaths(rules) && SameRules(rules, other)
    ensures Chosen(other, rest) == Chosen(rules, rest)
  {
    hide Chosen, Matches;
    ChosenIsLongest(rules, rest);
    ChosenIsLongest(other, rest);
    if Chosen(rules, rest).Some? {
      LongestIsChosen(other, rest, Chosen(rules, rest).value);
    }
  }

  lemma {:induction false} FirstOfPath(rule: Rule, rules: seq<Rule>)
    ensures Chosen([rule] + rules, rule.path) == Some(rule)
  {
    var all := [rule] + rules;
    assert all[1..] == rules;
    var later := LongestFirst(Filter(rules, rule.path));
    if later != [] {
      SortedMembers(Filter(rules, rule.path), later[0]);
      FilterMember(rules, rule.path, later[0]);
    }
    assert Filter(all, rule.path) == [rule] + Filter(rules, rule.path);
    assert ([rule] + Filter(rules, rule.path))[1..] == Filter(rules, rule.path);
  }

  /** The order of the rules never matters if and only if no two of them share a path. */
  lemma OrderMattersIff(rules: seq<Rule>)
    ensures OrderIndependent(rules) <==> DistinctPaths(rules)
  {
    hide Chosen;
    if DistinctPaths(rules) {
      forall other, rest | SameRules(rules, other) ensures Chosen(other, rest) == Chosen(rules, rest) {
        Reordered(rules, other, rest);
      }
    }
    if OrderIndependent(rules) {
      forall r, s | r in rules && s in rules && r.path == s.path ensures r == s {
        FirstOfPath(r, rules);
        FirstOfPath(s, rules);
        assert SameRules(rules, [r] + rules) && SameRules(rules, [s] + rules);
        assert Chosen([r] + rules, r.path) == Chosen(rules, r.path) == Chosen([s] + rules, s.path);
      }
    }
  }

  // -------------------------------------------------------- positional arguments

  /** What one typed word is read as. */
  function ReadValue(number: ReadNumber, spec: Spec, raw: string): Result<Value, ShellError> {
    if spec.isInt then
      match number(raw)
      case Some(n) => Ok(Whole(n))
      case None => Err(NotWhole(spec.name))
    else if spec.values == [] then Ok(Word(raw))
    else if ToLower(raw) in spec.values then Ok(Word(ToLower(raw)))
    else Err(Invalid(spec.name))
  }

  /** A slot takes a whole number, one of its values in any case, or any word if it lists none. */
  ghost predicate Admits(number: ReadNumber, spec: Spec, raw: string) {
    if spec.isInt then number(raw).Some? else spec.values == [] || ToLower(raw) in spec.values
  }

  /** The number the word denotes, the listed value it spells, or the word itself. */
  ghost predicate Binds(number: ReadNumber, spec: Spec, raw: string, value: Value) {
    && (spec.isInt ==> value.Whole? && number(raw) == Some(value.number))
    && (!spec.isInt && spec.values == [] ==> value == Word(raw))
    && (!spec.isInt && spec.values != [] ==> value == Word(ToLower(raw)) && ToLower(raw) in spec.values)
  }

  lemma ReadValueIs(number: ReadNumber, spec: Spec, raw: string)
    ensures ReadValue(number, spec, raw).Ok? <==> Admits(number, spec, raw)
    ensures ReadValue(number, spec, raw).Ok? ==> Binds(number, spec, raw, ReadValue(number, spec, raw).value)
    ensures ReadValue(number, spec, raw).Err? ==>
        ReadValue(number, spec, raw).error == if spec.isInt then NotWhole(spec.name) else Invalid(spec.name)
  {
    hide ToLower;
  }

  function Fill(number: ReadNumber, specs: seq<Spec>, typed: seq<string>, args: Args): Result<Args, ShellError>
    decreases |specs|
  {
    if specs == [] then if typed == [] then Ok(args) else Err(ExtraInput)
    else if typed == [] then
      if specs[0].required then Err(Missing(specs[0].name)) else Fill(number, specs[1..], [], args)
    else match ReadValue(number, specs[0], typed[0])
      case Err(e) => Err(e)
      case Ok(value) => Fill(number, specs[1..], typed[1..], args[specs[0].name := value])
  }

  method FillPositional(number: ReadNumber, specs: seq<Spec>, typed: seq<string>)
    returns (result: Result<Args, ShellError>)
    ensures result == Fill(number, specs, typed, map[])
  {
    hide ReadValue;
    var args: Args := map[];
    for i := 0 to |specs|
      invariant Fill(number, specs[i..], Rest(typed, i), args) == Fill(number, specs, typed, map[])
    {
      assert specs[i..][0] == specs[i] && specs[i..][1..] == specs[i + 1..];
      if i >= |typed| {
        if specs[i].required {
          return Err(Missing(specs[i].name));
        }
        continue;
      }
      assert Rest(typed, i)[0] == typed[i] && Rest(typed, i)[1..] == Rest(typed, i + 1);
      var read := ReadValue(number, specs[i], typed[i]);
      if read.Err? {
        return Err(read.error);
      }
      args := args[specs[i].name := read.value];
    }
    assert specs[|specs|..] == [];
    if |typed| > |specs| {
      return Err(ExtraInput);
    }
    result := Ok(args);
  }

  /** The typed words from index `i` on; none past the end. */
  function Rest(typed: seq<string>, i: nat): seq<string> {
    if i <= |typed| then typed[i..] else []
  }

  /** Every typed word has a slot that admits it, and every slot left over is optional. */
  ghost predicate Fits(number: ReadNumber, specs: seq<Spec>, typed: seq<string>) {
    && |typed| <= |specs|
    && (forall i :: 0 <= i < |typed| ==> Admits(number, specs[i], typed[i]))
    && (forall i :: |typed| <= i < |specs| ==> !specs[i].required)
  }

  ghost predicate DistinctNames(specs: seq<Spec>) {
    forall i, j :: 0 <= i < j < |specs| ==> specs[i].name != specs[j].name
  }

  /** The rules are usable: distinct paths, and distinct argument names within a rule. */
  ghost predicate Usable(rules: seq<Rule>) {
    DistinctPaths(rules) && forall r <- rules :: DistinctNames(r.positional)
  }

  /** Each typed word is the value of its slot's name. */
  ghost predicate Reads(number: ReadNumber, specs: seq<Spec>, typed: seq<string>, args: Args) {
    |typed| <= |specs| && forall i :: 0 <= i < |typed| ==>
      specs[i].name in args && Binds(number, specs[i], typed[i], args[specs[i].name])
  }

  ghost predicate Named(specs: seq<Spec>, typed: seq<string>, name: string) {
    exists i :: 0 <= i < |typed| && i < |specs| && specs[i].name == name
  }

  /** No other name is bound or changed. */
  ghost predicate OnlyNamed(specs: seq<Spec>, typed: seq<string>, before: Args, after: Args) {
    forall k :: !Named(specs, typed, k) ==>
      (k in after <==> k in before) && (k in before && k in after ==> after[k] == before[k])
  }

  lemma FitsTail(number: ReadNumber, specs: seq<Spec>, typed: seq<string>)
    requires specs != [] && typed != []
    ensures Fits(number, specs, typed)
        <==> Admits(number, specs[0], typed[0]) && Fits(number, specs[1..], typed[1..])
  {
    hide Admits;
    var (s, t) := (specs[1..], typed[1..]);
    if Admits(number, specs[0], typed[0]) && Fits(number, s, t) {
      forall i | 0 <= i < |typed| ensures Admits(number, specs[i], typed[i]) {
        if i > 0 { assert Admits(number, s[i - 1], t[i - 1]); }
      }
      forall i | |typed| <= i < |specs| ensures !specs[i].required {
        assert !s[i - 1].required;
      }
    }
  }

  /** The loop accepts exactly the inputs that consume every word and miss no required slot. */
  lemma {:induction false} FillAccepts(number: ReadNumber, specs: seq<Spec>, typed: seq<string>, args: Args)
    ensures Fill(number, specs, typed, args).Ok? <==> Fits(number, specs, typed)
    decreases |specs|
  {
    if specs == [] {
    } else {
      hide ReadValue, Admits;
      if typed == [] {
        FillAccepts(number, specs[1..], [], args);
        assert specs == [specs[0]] + specs[1..];
      } else {
        FitsTail(number, specs, typed);
        hide Fits;
        ReadValueIs(number, specs[0], typed[0]);
        var read := ReadValue(number, specs[0], typed[0]);
        if read.Ok? {
          FillAccepts(number, specs[1..], typed[1..], args[specs[0].name := read.value]);
        }
      }
    }
  }

  /** The slots before `i` are all satisfied: by the word typed there, or by needing none. */
  ghost predicate FineBefore(number: ReadNumber, specs: seq<Spec>, typed: seq<string>, i: nat) {
    forall j :: 0 <= j < i && j < |specs| ==>
      if j < |typed| then Admits(number, specs[j], typed[j]) else !specs[j].required
  }

  /** The first slot that is not satisfied, or the first word without a slot, names the error. */
  ghost predicate FailsAt(number: ReadNumber, specs: seq<Spec>, typed: seq<string>, i: nat, e: ShellError) {
    && i <= |specs| && FineBefore(number, specs, typed, i)
    && (i == |specs| ==> |typed| > |specs| && e == ExtraInput)
    && (|typed| <= i < |specs| ==> specs[i].required && e == Missing(specs[i].name))
    && (i < |typed| && i < |specs| ==>
        && !Admits(number, specs[i], typed[i])
        && e == if specs[i].isInt then NotWhole(specs[i].name) else Invalid(specs[i].name))
  }

  lemma FailsAtTail(number: ReadNumber, specs: seq<Spec>, typed: seq<string>, i: nat, e: ShellError)
    requires specs != []
    requires if typed == [] then !specs[0].required else Admits(number, specs[0], typed[0])
    ensures FailsAt(number, specs, typed, i + 1, e)
       <==> FailsAt(number, specs[1..], if typed == [] then [] else typed[1..], i, e)
    ensures !FailsAt(number, specs, typed, 0, e)
  {
    hide Admits;
    var (s, t) := (specs[1..], if typed == [] then [] else typed[1..]);
    if FineBefore(number, s, t, i) {
      forall j | 0 <= j < i + 1 && j < |specs|
        ensures if j < |typed| then Admits(number, specs[j], typed[j]) else !specs[j].required
      {
        if j > 0 {
          assert s[j - 1] == specs[j];
        }
      }
    }
    if FineBefore(number, specs, typed, i + 1) {
      forall j | 0 <= j < i && j < |s| ensures if j < |t| then Admits(number, s[j], t[j]) else !s[j].required {
        assert s[j] == specs[j + 1];
      }
    }
  }

  /** A line is refused with the error of its first slot that is not satisfied. */
  lemma {:induction false} FillFails(number: ReadNumber, specs: seq<Spec>, typed: seq<string>, args: Args, e: ShellError)
    ensures Fill(number, specs, typed, args) == Err(e) <==> exists i: nat :: FailsAt(number, specs, typed, i, e)
    decreases |specs|
  {
    if specs == [] {
      assert FailsAt(number, specs, typed, 0, ExtraInput) <==> typed != [];
    } else {
      hide ReadValue, Admits;
      var (s, t) := (specs[1..], if typed == [] then [] else typed[1..]);
      if typed != [] {
        ReadValueIs(number, specs[0], typed[0]);
      }
      if if typed == [] then !specs[0].required else Admits(number, specs[0], typed[0]) {
        var later := if typed == [] then args else args[specs[0].name := ReadValue(number, specs[0], typed[0]).value];
        FillFails(number, s, t, later, e);
        Shifted(number, specs, typed, e);
      } else {
        FirstSlotFails(number, specs, typed, e);
      }
    }
  }

  lemma Shifted(number: ReadNumber, specs: seq<Spec>, typed: seq<string>, e: ShellError)
    requires specs != []
    requires if typed == [] then !specs[0].required else Admits(number, specs[0], typed[0])
    ensures var (s, t) := (specs[1..], if typed == [] then [] else typed[1..]);
      (exists i: nat :: FailsAt(number, specs, typed, i, e)) <==> exists i: nat :: FailsAt(number, s, t, i, e)
  {
    hide FailsAt, Admits;
    var (s, t) := (specs[1..], if typed == [] then [] else typed[1..]);
    if i: nat :| FailsAt(number, specs, typed, i, e) {
      FailsAtTail(number, specs, typed, if i == 0 then 0 else i - 1, e);
    }
    if i: nat :| FailsAt(number, s, t, i, e) {
      FailsAtTail(number, specs, typed, i, e);
    }
  }

  lemma FirstSlotFails(number: ReadNumber, specs: seq<Spec>, typed: seq<string>, e: ShellError)
    requires specs != []
    requires !if typed == [] then !specs[0].required else Admits(number, specs[0], typed[0])
    ensures (exists i: nat :: FailsAt(number, specs, typed, i, e))
       <==> e == if typed == [] then Missing(specs[0].name)
                 else if specs[0].isInt then NotWhole(specs[0].name) else Invalid(specs[0].name)
  {
    hide Admits;
    if i: nat :| FailsAt(number, specs, typed, i, e) {
      assert i == 0;
    }
    assert FailsAt(number, specs, typed, 0, e)
      <==> e == if typed == [] then Missing(specs[0].name)
                else if specs[0].isInt then NotWhole(specs[0].name) else Invalid(specs[0].name);
  }

  /** Success binds every typed word to its slot's name and nothing else. */
  lemma {:induction false} FillBinds(number: ReadNumber, specs: seq<Spec>, typed: seq<string>, args: Args)
    requires Fill(number, specs, typed, args).Ok? && DistinctNames(specs)
    ensures var after := Fill(number, specs, typed, args).value;
      Reads(number, specs, typed, after) && OnlyNamed(specs, typed, args, after)
    decreases |specs|
  {
    if specs != [] {
      hide ReadValue, Reads, OnlyNamed, Binds, Admits;
      var after := Fill(number, specs, typed, args).value;
      if typed == [] {
        FillBinds(number, specs[1..], [], args);
        NothingTyped(number, specs, args, after);
      } else {
        ReadValueIs(number, specs[0], typed[0]);
        var value := ReadValue(number, specs[0], typed[0]).value;
        FillBinds(number, specs[1..], typed[1..], args[specs[0].name := value]);
        OnlyOneMore(specs, typed, args, after, value);
        ReadsOneMore(number, specs, typed, args, after, value);
      }
    } else {
      assert Fill(number, specs, typed, args).value == args;
    }
  }

  lemma NothingTyped(number: ReadNumber, specs: seq<Spec>, args: Args, after: Args)
    requires specs != [] && OnlyNamed(specs[1..], [], args, after)
    ensures Reads(number, specs, [], after) && OnlyNamed(specs, [], args, after)
  {
    hide Binds;
    assert forall k :: !Named(specs[1..], [], k);
  }

  lemma NamedTail(specs: seq<Spec>, typed: seq<string>, name: string)
    requires specs != [] && typed != []
    ensures Named(specs, typed, name) <==> specs[0].name == name || Named(specs[1..], typed[1..], name)
  {
    var (s, t) := (specs[1..], typed[1..]);
    if Named(specs, typed, name) && specs[0].name != name {
      var i :| 0 <= i < |typed| && i < |specs| && specs[i].name == name;
      assert s[i - 1].name == name;
    }
    if Named(s, t, name) {
      var i :| 0 <= i < |t| && i < |s| && s[i].name == name;
      assert specs[i + 1].name == name;
    }
  }

  lemma OnlyOneMore(specs: seq<Spec>, typed: seq<string>, args: Args, after: Args, value: Value)
    requires specs != [] && typed != []
    requires OnlyNamed(specs[1..], typed[1..], args[specs[0].name := value], after)
    ensures OnlyNamed(specs, typed, args, after)
  {
    hide Named;
    forall k | !Named(specs, typed, k)
      ensures (k in after <==> k in args) && (k in args && k in after ==> after[k] == args[k])
    {
      NamedTail(specs, typed, k);
    }
  }

  lemma ReadsOneMore(number: ReadNumber, specs: seq<Spec>, typed: seq<string>, args: Args, after: Args, value: Value)
    requires specs != [] && typed != [] && DistinctNames(specs)
    requires Binds(number, specs[0], typed[0], value)
    requires OnlyNamed(specs[1..], typed[1..], args[specs[0].name := value], after)
    requires Reads(number, specs[1..], typed[1..], after)
    ensures Reads(number, specs, typed, after)
  {
    hide Binds;
    var (s, t) := (specs[1..], typed[1..]);
    assert !Named(s, t, specs[0].name);
    forall i | 0 <= i < |typed|
      ensures specs[i].name in after && Binds(number, specs[i], typed[i], after[specs[i].name])
    {
      if i > 0 { assert s[i - 1].name in after; }
    }
  }
}
