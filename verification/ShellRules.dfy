/**
 * The shell's own rule table (services/server-agent/src/shell.ts, with the
 * identifiers of services/server-agent/src/units.ts).
 */
module ShellRules {
  import opened Common
  import opened Text
  import opened Tokeniser
  import opened Shell
  import opened ShellCommands

  const SERVICE_IDS: seq<string> := [
    "postgres", "redis", "api", "realtime", "worker", "storage", "nginx", "dashboard", "agent",
    "cloudflared", "docker"
  ]

  /** All of them but `agent` and `docker`. */
  const CONTROLLABLE_SERVICE_IDS: seq<string> := [
    "postgres", "redis", "api", "realtime", "worker", "storage", "nginx", "dashboard", "cloudflared"
  ]

  const LOG_SOURCE_IDS: seq<string> := [
    "api", "realtime", "worker", "postgres", "redis", "nginx", "storage", "dashboard", "agent",
    "cloudflared", "firewall", "security"
  ]

  const DIRECTORY_IDS: seq<string> := [
    "postgres", "storage", "backups", "logs", "config", "metrics", "redis"
  ]

  function One(name: string, values: seq<string>): seq<Spec> {
    [Spec(name, values, false, true)]
  }

  const OVERVIEW_RULES: seq<Rule> := [
    Rule(["status"], "kairos_status", []),
    Rule(["doctor"], "kairos_doctor", []),
    Rule(["system", "info"], "system_info", []),
    Rule(["system", "disk"], "system_disk", []),
    Rule(["system", "processes"], "system_processes", []),
    Rule(["system", "dependencies"], "system_dependencies", [])
  ]

  const SERVICE_RULES: seq<Rule> := [
    Rule(["services"], "service_list", []),
    Rule(["service", "status"], "service_status", One("service", SERVICE_IDS)),
    Rule(["service", "start"], "service_start", One("service", CONTROLLABLE_SERVICE_IDS)),
    Rule(["service", "stop"], "service_stop", One("service", CONTROLLABLE_SERVICE_IDS)),
    Rule(["service", "restart"], "service_restart", One("service", CONTROLLABLE_SERVICE_IDS))
  ]

  const DATABASE_RULES: seq<Rule> := [
    Rule(["database", "status"], "database_status", []),
    Rule(["redis", "status"], "redis_status", []),
    Rule(["nginx", "status"], "nginx_status", []),
    Rule(["nginx", "reload"], "nginx_reload", [])
  ]

  const STORAGE_RULES: seq<Rule> := [
    Rule(["storage", "status"], "storage_status", []),
    Rule(["storage", "usage"], "storage_usage", One("directory", DIRECTORY_IDS))
  ]

  const NETWORK_RULES: seq<Rule> := [
    Rule(["firewall", "status"], "firewall_status", []),
    Rule(["firewall", "rules"], "firewall_rules", []),
    Rule(["network", "status"], "network_status", []),
    Rule(["network", "ports"], "network_ports", [])
  ]

  const CONTAINER_RULES: seq<Rule> := [
    Rule(["docker", "ps"], "docker_ps", []),
    Rule(["docker", "stats"], "docker_stats", []),
    Rule(["docker", "health"], "docker_health", [])
  ]

  const BACKUP_RULES: seq<Rule> := [
    Rule(["backup", "list"], "backup_list", []),
    Rule(["backup", "create"], "backup_create", []),
    Rule(["backup", "verify"], "backup_verify", One("backup", []))
  ]

  const LOG_RULES: seq<Rule> := [
    Rule(["logs"], "logs_read", One("source", LOG_SOURCE_IDS) + [Spec("lines", [], true, false)]),
    Rule(["logs", "sources"], "logs_sources", [])
  ]

  const RULES: seq<Rule> :=
    OVERVIEW_RULES + SERVICE_RULES + DATABASE_RULES + STORAGE_RULES
    + NETWORK_RULES + CONTAINER_RULES + BACKUP_RULES + LOG_RULES

  // ------------------------------------------------------- no path appears twice

  /** The table as a decision tree on the first and second word. */
  function ByPath(path: seq<string>): Option<Rule> {
    var (first, second) := (if |path| > 0 then path[0] else "", if |path| > 1 then path[1] else "");
    if first == "status" then if |path| == 1 then Some(OVERVIEW_RULES[0]) else None
    else if first == "doctor" then if |path| == 1 then Some(OVERVIEW_RULES[1]) else None
    else if first == "system" then
      if second == "info" then Some(OVERVIEW_RULES[2])
      else if second == "disk" then Some(OVERVIEW_RULES[3])
      else if second == "processes" then Some(OVERVIEW_RULES[4])
      else if second == "dependencies" then Some(OVERVIEW_RULES[5])
      else None
    else if first == "services" then if |path| == 1 then Some(SERVICE_RULES[0]) else None
    else if first == "service" then
      if second == "status" then Some(SERVICE_RULES[1])
      else if second == "start" then Some(SERVICE_RULES[2])
      else if second == "stop" then Some(SERVICE_RULES[3])
      else if second == "restart" then Some(SERVICE_RULES[4])
      else None
    else if first == "database" then if second == "status" then Some(DATABASE_RULES[0]) else None
    else if first == "redis" then if second == "status" then Some(DATABASE_RULES[1]) else None
    else if first == "nginx" then
      if second == "status" then Some(DATABASE_RULES[2])
      else if second == "reload" then Some(DATABASE_RULES[3])
      else None
    else if first == "storage" then
      if second == "status" then Some(STORAGE_RULES[0])
      else if second == "usage" then Some(STORAGE_RULES[1])
      else None
    else if first == "firewall" then
      if second == "status" then Some(NETWORK_RULES[0])
      else if second == "rules" then Some(NETWORK_RULES[1])
      else None
    else if first == "network" then
      if second == "status" then Some(NETWORK_RULES[2])
      else if second == "ports" then Some(NETWORK_RULES[3])
      else None
    else if first == "docker" then
      if second == "ps" then Some(CONTAINER_RULES[0])
      else if second == "stats" then Some(CONTAINER_RULES[1])
      else if second == "health" then Some(CONTAINER_RULES[2])
      else None
    else if first == "backup" then
      if second == "list" then Some(BACKUP_RULES[0])
      else if second == "create" then Some(BACKUP_RULES[1])
      else if second == "verify" then Some(BACKUP_RULES[2])
      else None
    else if first == "logs" then
      if second == "sources" then Some(LOG_RULES[1])
      else if |path| == 1 then Some(LOG_RULES[0])
      else None
    else None
  }

  predicate Lowered(word: string) {
    forall i :: 0 <= i < |word| ==> 'a' <= word[i] <= 'z'
  }

  /** Paths are one or two lower-case words. */
  predicate Ordinary(path: seq<string>) {
    1 <= |path| <= 2 && forall i :: 0 <= i < |path| ==> path[i] != "" && Lowered(path[i])
  }

  lemma OverviewPaths(r: Rule)
    requires r in OVERVIEW_RULES
    ensures ByPath(r.path) == Some(r)
  {
  }

  lemma ServicePaths(r: Rule)
    requires r in SERVICE_RULES
    ensures ByPath(r.path) == Some(r)
  {
  }

  lemma DatabasePaths(r: Rule)
    requires r in DATABASE_RULES
    ensures ByPath(r.path) == Some(r)
  {
  }

  lemma StoragePaths(r: Rule)
    requires r in STORAGE_RULES
    ensures ByPath(r.path) == Some(r)
  {
  }

  lemma NetworkPaths(r: Rule)
    requires r in NETWORK_RULES
    ensures ByPath(r.path) == Some(r)
  {
  }

  lemma ContainerPaths(r: Rule)
    requires r in CONTAINER_RULES
    ensures ByPath(r.path) == Some(r)
  {
  }

  lemma BackupPaths(r: Rule)
    requires r in BACKUP_RULES
    ensures ByPath(r.path) == Some(r)
  {
  }

  lemma LogPaths(r: Rule)
    requires r in LOG_RULES
    ensures ByPath(r.path) == Some(r)
  {
  }

  lemma OverviewWords(r: Rule)
    requires r in OVERVIEW_RULES
    ensures Ordinary(r.path)
  {
  }

  lemma ServiceWords(r: Rule)
    requires r in SERVICE_RULES
    ensures Ordinary(r.path)
  {
  }

  lemma DatabaseWords(r: Rule)
    requires r in DATABASE_RULES
    ensures Ordinary(r.path)
  {
  }

  lemma StorageWords(r: Rule)
    requires r in STORAGE_RULES
    ensures Ordinary(r.path)
  {
  }

  lemma NetworkWords(r: Rule)
    requires r in NETWORK_RULES
    ensures Ordinary(r.path)
  {
  }

  lemma ContainerWords(r: Rule)
    requires r in CONTAINER_RULES
    ensures Ordinary(r.path)
  {
  }

  lemma BackupWords(r: Rule)
    requires r in BACKUP_RULES
    ensures Ordinary(r.path)
  {
  }

  lemma LogWords(r: Rule)
    requires r in LOG_RULES
    ensures Ordinary(r.path)
  {
  }

  lemma TablePaths(r: Rule)
    requires r in RULES
    ensures ByPath(r.path) == Some(r)
  {
    hide ByPath;
    if r in OVERVIEW_RULES { OverviewPaths(r); }
    else if r in SERVICE_RULES { ServicePaths(r); }
    else if r in DATABASE_RULES { DatabasePaths(r); }
    else if r in STORAGE_RULES { StoragePaths(r); }
    else if r in NETWORK_RULES { NetworkPaths(r); }
    else if r in CONTAINER_RULES { ContainerPaths(r); }
    else if r in BACKUP_RULES { BackupPaths(r); }
    else { LogPaths(r); }
  }

  lemma TableWords(r: Rule)
    requires r in RULES
    ensures Ordinary(r.path)
  {
    hide Ordinary;
    if r in OVERVIEW_RULES { OverviewWords(r); }
    else if r in SERVICE_RULES { ServiceWords(r); }
    else if r in DATABASE_RULES { DatabaseWords(r); }
    else if r in STORAGE_RULES { StorageWords(r); }
    else if r in NETWORK_RULES { NetworkWords(r); }
    else if r in CONTAINER_RULES { ContainerWords(r); }
    else if r in BACKUP_RULES { BackupWords(r); }
    else { LogWords(r); }
  }

  /** No two rules of the table share a path, so their order does not matter. */
  lemma PathsDistinct()
    ensures DistinctPaths(RULES) && OrderIndependent(RULES)
  {
    hide ByPath, OrderIndependent, RULES;
    forall r, s | r in RULES && s in RULES && r.path == s.path ensures r == s {
      TablePaths(r);
      TablePaths(s);
    }
    OrderMattersIff(RULES);
  }

  // -------------------------------------------------- every rule can be reached

  lemma NamesDistinct(path: seq<string>)
    requires ByPath(path).Some?
    ensures DistinctNames(ByPath(path).value.positional)
  {
  }

  lemma TableUsable()
    ensures Usable(RULES)
  {
    hide RULES, ByPath, DistinctNames;
    PathsDistinct();
    forall r | r in RULES ensures DistinctNames(r.positional) {
      TablePaths(r);
      NamesDistinct(r.path);
    }
  }

  /** Only `logs` is the beginning of a longer path. */
  lemma OnlyLogsContinues(short: seq<string>, long: seq<string>)
    requires |short| == 1 && |long| == 2 && long[0] == short[0]
    requires ByPath(short).Some? && ByPath(long).Some?
    ensures ByPath(short) == Some(LOG_RULES[0]) && long[1] == "sources"
  {
  }

  lemma LowerFixed(word: string)
    requires Lowered(word)
    ensures ToLower(word) == word
  {
  }

  /** Every path can be typed as it is listed. */
  lemma PathsAreTyped(rule: Rule)
    requires rule in RULES
    ensures LowerAll(rule.path) == rule.path && forall word <- rule.path :: word != ""
  {
    TableWords(rule);
    hide RULES, ToLower, Lowered;
    forall i | 0 <= i < |rule.path| ensures ToLower(rule.path[i]) == rule.path[i] {
      LowerFixed(rule.path[i]);
    }
  }

  /** `sources` is not a log source, so it is never read as one. */
  lemma SourcesIsNoSource(number: ReadNumber, typed: seq<string>)
    requires Fits(number, LOG_RULES[0].positional, typed)
    ensures typed != [] && ToLower(typed[0]) != "sources"
  {
    var spec := LOG_RULES[0].positional[0];
    assert Admits(number, spec, typed[0]);
    assert "sources" !in LOG_SOURCE_IDS;
  }

  lemma NoLongerRule(number: ReadNumber, rule: Rule, typed: seq<string>, other: Rule)
    ensures var rest := rule.path + LowerAll(typed);
      rule in RULES && other in RULES && Fits(number, rule.positional, typed) && other.path <= rest ==>
        |other.path| <= |rule.path|
  {
    hide RULES, ByPath, Fits, ToLower;
    if rule in RULES && other in RULES && Fits(number, rule.positional, typed)
      && other.path <= rule.path + LowerAll(typed) && |other.path| > |rule.path|
    {
      TableWords(rule);
      TableWords(other);
      TablePaths(rule);
      TablePaths(other);
      OnlyLogsContinues(rule.path, other.path);
      SourcesIsNoSource(number, typed);
      assert false;
    }
  }

  /** `kairos`, the rule's path and words its slots admit; letters of the first two in any case. */
  ghost predicate Spells(number: ReadNumber, rule: Rule, tokens: seq<string>) {
    && |tokens| > |rule.path| && ToLower(tokens[0]) == "kairos"
    && LowerAll(tokens[1..1 + |rule.path|]) == rule.path
    && Fits(number, rule.positional, Typed(rule, tokens))
  }

  lemma SpelledAccounts(number: ReadNumber, rule: Rule, tokens: seq<string>)
    requires rule in RULES && Spells(number, rule, tokens)
    ensures |tokens| >= 2 && Accounts(number, RULES, tokens, rule)
  {
    hide RULES, Fits, IsLongest, LowerAll, ToLower, Lowered;
    TableWords(rule);
    LoweredParts(tokens, |rule.path|);
    TableLongest(number, rule, Typed(rule, tokens));
  }

  /**
   * The table is complete: a line spelling a rule's path and words its slots
   * admit, however quoted and spaced, parses to that rule's operation with
   * exactly those words read.
   */
  lemma TableReachable(number: ReadNumber, rule: Rule,
                       words: seq<Word>, gaps: seq<string>, before: string, after: string)
    requires rule in RULES && Spells(number, rule, Meanings(words))
    requires |words| == |gaps| + 1
    requires (forall w <- words :: ValidWord(w)) && forall g <- gaps :: Gap(g)
    requires Blank(before) && Blank(after)
    ensures var result := Parsed(number, RULES, before + Spaced(words, gaps) + after);
      var typed := Typed(rule, Meanings(words));
      && result.Ok? && result.value.operation == Some(rule.operation)
      && Reads(number, rule.positional, typed, result.value.args)
      && OnlyNamed(rule.positional, typed, map[], result.value.args)
  {
    SpelledAccounts(number, rule, Meanings(words));
    hide RULES, Reads, OnlyNamed, Parsed, ValidWord, Blank, Gap, Meanings, Spaced, ToLower, Fits, Usable, Accounts;
    TableUsable();
    CommandRoundTrip(number, RULES, rule, words, gaps, before, after);
  }

  lemma LoweredParts(tokens: seq<string>, n: nat)
    requires 1 + n <= |tokens|
    ensures LowerAll(tokens[1..]) == LowerAll(tokens[1..1 + n]) + LowerAll(tokens[1 + n..])
  {
    hide ToLower;
  }

  lemma TableLongest(number: ReadNumber, rule: Rule, typed: seq<string>)
    requires rule in RULES && Fits(number, rule.positional, typed)
    ensures IsLongest(RULES, rule.path + LowerAll(typed), rule)
  {
    hide RULES, Fits;
    forall r | r in RULES && Matches(r, rule.path + LowerAll(typed)) ensures |r.path| <= |rule.path| {
      NoLongerRule(number, rule, typed, r);
    }
  }
}
