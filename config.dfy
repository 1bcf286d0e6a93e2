/**
 * Default commit settings, the merge of a user configuration over the
 * defaults, and the shape check applied to a loaded configuration
 * (config/index.ts).
 */
module Config {
  import opened Wrappers
  import opened ConfigTypes

  const DEFAULT_COMMIT_TYPES: seq<string> :=
    ["feat", "fix", "docs", "style", "refactor", "perf", "test", "build", "ci", "chore", "revert"]

  const DEFAULT_COMMIT_CONFIG: CommitConfig :=
    CommitConfig(Some([]), Some(DEFAULT_COMMIT_TYPES), Some(72), Some(true), Some([]))

  /** `getDefaultConfig()`: a configuration with only the default commit section. */
  function GetDefaultConfig(): (c: LavyConfig)
    ensures c.commit.Some? && c.lint.None? && c.project.None? && c.extra == map[]
    ensures var cc := c.commit.value;
      && cc.rules == Some([]) && cc.customPatterns == Some([])
      && cc.types.Some? && |cc.types.value| == 11 && "feat" in cc.types.value && "fix" in cc.types.value
      && cc.maxLength == Some(72) && cc.allowMergeCommits == Some(true)
  {
    LavyConfig(Some(DEFAULT_COMMIT_CONFIG), None, None, map[])
  }

  /** `defaults.commit?.rules || []` and the like. */
  function RulesOf(c: Option<CommitConfig>): seq<CommitRule> {
    if c.Some? then c.value.rules.GetOr([]) else []
  }

  function PatternsOf(c: Option<CommitConfig>): seq<Regex> {
    if c.Some? then c.value.customPatterns.GetOr([]) else []
  }

  function TypesOf(c: Option<CommitConfig>): Option<seq<string>> {
    if c.Some? then c.value.types else None
  }

  /**
   * `mergeConfig(defaults, user)`. Only the `commit` section is merged; every
   * other key of the result is the default's, whatever the user supplied.
   */
  function MergeConfig(d: LavyConfig, u: LavyConfig): (m: LavyConfig)
    ensures u.commit.None? ==> m == d
    ensures m.lint == d.lint && m.project == d.project && m.extra == d.extra
    ensures u.commit.Some? ==> m.commit.Some?
    ensures u.commit.Some? ==>
      var mc, uc := m.commit.value, u.commit.value;
      // rules: the default rules followed by the user's
      && mc.rules.Some?
      && |mc.rules.value| == |RulesOf(d.commit)| + |uc.rules.GetOr([])|
      && mc.rules.value[..|RulesOf(d.commit)|] == RulesOf(d.commit)
      && mc.rules.value[|RulesOf(d.commit)|..] == uc.rules.GetOr([])
      // customPatterns: likewise
      && mc.customPatterns.Some?
      && |mc.customPatterns.value| == |PatternsOf(d.commit)| + |uc.customPatterns.GetOr([])|
      && mc.customPatterns.value[..|PatternsOf(d.commit)|] == PatternsOf(d.commit)
      && mc.customPatterns.value[|PatternsOf(d.commit)|..] == uc.customPatterns.GetOr([])
      // types: the user's list whenever given (even empty), else the default's
      && (uc.types.Some? ==> mc.types == uc.types)
      && (uc.types.None? ==> mc.types == TypesOf(d.commit))
      // scalars: the user's value whenever the key is given
      && (uc.maxLength.Some? ==> mc.maxLength == uc.maxLength)
      && (uc.maxLength.None? && d.commit.Some? ==> mc.maxLength == d.commit.value.maxLength)
      && (uc.allowMergeCommits.Some? ==> mc.allowMergeCommits == uc.allowMergeCommits)
      && (uc.allowMergeCommits.None? && d.commit.Some? ==> mc.allowMergeCommits == d.commit.value.allowMergeCommits)
  {
    if u.commit.None? then d
    else
      var uc := u.commit.value;
      var spread := Overlay(d.commit.GetOr(NoCommitConfig), uc);
      var merged := spread.(
        rules := Some(RulesOf(d.commit) + uc.rules.GetOr([])),
        types := if uc.types.Some? then uc.types else TypesOf(d.commit),
        customPatterns := Some(PatternsOf(d.commit) + uc.customPatterns.GetOr([])));
      d.(commit := Some(merged))
  }

  /** Merging the same user configuration twice appends its rules twice, so
      the merge is not idempotent. */
  lemma MergeNotIdempotent(d: LavyConfig, u: LavyConfig)
    requires u.commit.Some? && u.commit.value.rules.Some? && u.commit.value.rules.value != []
    ensures MergeConfig(MergeConfig(d, u), u) != MergeConfig(d, u)
  {
    var once := MergeConfig(d, u);
    var twice := MergeConfig(once, u);
    assert |RulesOf(twice.commit)| == |RulesOf(once.commit)| + |u.commit.value.rules.value|;
  }

  /** Over the defaults, the merged commit section is the user's rules and
      patterns, the user's types or the eleven default types, and the user's
      scalars or 72 / true. */
  lemma MergeOverDefault(u: LavyConfig)
    requires u.commit.Some?
    ensures var mc, uc := MergeConfig(GetDefaultConfig(), u).commit.value, u.commit.value;
      && mc.rules == Some(uc.rules.GetOr([]))
      && mc.customPatterns == Some(uc.customPatterns.GetOr([]))
      && mc.types == Some(uc.types.GetOr(DEFAULT_COMMIT_TYPES))
      && mc.maxLength == Some(uc.maxLength.GetOr(72))
      && mc.allowMergeCommits == Some(uc.allowMergeCommits.GetOr(true))
  {
    var mc := MergeConfig(GetDefaultConfig(), u).commit.value;
    assert mc.rules.value == mc.rules.value[0..];
    assert mc.customPatterns.value == mc.customPatterns.value[0..];
  }

  // ---------------------------------------------------------------------
  // validateConfig

  datatype ConfigReport = ConfigReport(isValid: bool, errors: seq<string>, warnings: seq<string>)

  /** The outcome of running `validateConfig`: a report, or a TypeError
      (reading `.pattern` of a `null`/`undefined` rule). */
  datatype Outcome = Returned(report: ConfigReport) | Threw

  const E_MAX_LENGTH := "commit.maxLength 必须是一个正整数"
  const W_MAX_LENGTH := "commit.maxLength 建议不超过 200 个字符"
  const E_TYPES_ARRAY := "commit.types 必须是一个数组"
  const E_TYPE_ELEMENT := "commit.types 中的每个元素必须是非空字符串"
  const E_RULES_ARRAY := "commit.rules 必须是一个数组"
  const E_RULE_PATTERN := "commit.rules 中的每个规则必须包含有效的 pattern 正则表达式"
  const E_RULE_MESSAGE := "commit.rules 中的每个规则必须包含有效的 message 字符串"
  const E_PATTERNS_ARRAY := "commit.customPatterns 必须是一个数组"
  const E_PATTERN_ELEMENT := "commit.customPatterns 中的每个元素必须是正则表达式"

  predicate IsNonEmptyString(v: Value) {
    v.Str? && v.s != []
  }

  /** The rule entry is accepted (its pattern is a RegExp, its message a non-empty string). */
  predicate GoodRule(rule: Value)
    requires !rule.Undefined? && !rule.Null?
  {
    Get(rule, "pattern").value.RegExp? && IsNonEmptyString(Get(rule, "message").value)
  }

  /** The single error, if any, for the rules array: the one for the first
      bad entry; `None` when an entry is `null`/`undefined` before any bad one. */
  function RulesError(rules: seq<Value>): Option<seq<string>> {
    if rules == [] then Some([])
    else if rules[0].Undefined? || rules[0].Null? then None
    else if !Get(rules[0], "pattern").value.RegExp? then Some([E_RULE_PATTERN])
    else if !IsNonEmptyString(Get(rules[0], "message").value) then Some([E_RULE_MESSAGE])
    else RulesError(rules[1..])
  }

  function MaxLengthErrors(maxLength: Value): seq<string> {
    if maxLength.Undefined? then []
    else if !maxLength.Num? || maxLength.n <= 0 then [E_MAX_LENGTH]
    else []
  }

  function MaxLengthWarnings(maxLength: Value): seq<string> {
    if maxLength.Num? && maxLength.n > 200 then [W_MAX_LENGTH] else []
  }

  function TypesErrors(types: Value): seq<string> {
    if !Truthy(types) then []
    else if !types.Arr? then [E_TYPES_ARRAY]
    else if exists i :: 0 <= i < |types.items| && !IsNonEmptyString(types.items[i]) then [E_TYPE_ELEMENT]
    else []
  }

  function RulesErrors(rules: Value): Option<seq<string>> {
    if !Truthy(rules) then Some([])
    else if !rules.Arr? then Some([E_RULES_ARRAY])
    else RulesError(rules.items)
  }

  function PatternsErrors(patterns: Value): seq<string> {
    if !Truthy(patterns) then []
    else if !patterns.Arr? then [E_PATTERNS_ARRAY]
    else if exists i :: 0 <= i < |patterns.items| && !patterns.items[i].RegExp? then [E_PATTERN_ELEMENT]
    else []
  }

  /** The errors found in a truthy `commit` section, in check order, and the warnings. */
  function CommitFindings(commit: Value): Option<(seq<string>, seq<string>)>
    requires !commit.Undefined? && !commit.Null?
  {
    var maxLength := Get(commit, "maxLength").value;
    var ruleErrors := RulesErrors(Get(commit, "rules").value);
    if ruleErrors.None? then None
    else Some((MaxLengthErrors(maxLength) + TypesErrors(Get(commit, "types").value)
                 + ruleErrors.value + PatternsErrors(Get(commit, "customPatterns").value),
               MaxLengthWarnings(maxLength)))
  }

  /** What `validateConfig(config)` does, for a configuration value that is an object or other non-nullish value. */
  function ConfigValidation(config: Value): Outcome
    requires !config.Undefined? && !config.Null?
  {
    var commit := Get(config, "commit").value;
    if !Truthy(commit) then Returned(ConfigReport(true, [], []))
    else match CommitFindings(commit)
      case None => Threw
      case Some((errors, warnings)) => Returned(ConfigReport(errors == [], errors, warnings))
  }

  /** The `types` check: one error for a non-array, or for the first element that is not a non-empty string. */
  method CheckTypes(types: Value) returns (errors: seq<string>)
    ensures errors == TypesErrors(types)
  {
    errors := [];
    if Truthy(types) {
      if !types.Arr? {
        errors := [E_TYPES_ARRAY];
      } else {
        var i := 0;
        while i < |types.items|
          invariant 0 <= i <= |types.items|
          invariant forall j :: 0 <= j < i ==> IsNonEmptyString(types.items[j])
          invariant errors == []
        {
          if !IsNonEmptyString(types.items[i]) {
            errors := [E_TYPE_ELEMENT];
            break;
          }
          i := i + 1;
        }
      }
    }
  }

  /** The `rules` check: one error for a non-array, or for the first entry with a bad
      pattern or message; `None` when a `null`/`undefined` entry is read first. */
  method CheckRules(rules: Value) returns (errors: Option<seq<string>>)
    ensures errors == RulesErrors(rules)
  {
    errors := Some([]);
    if Truthy(rules) {
      if !rules.Arr? {
        errors := Some([E_RULES_ARRAY]);
      } else {
        var i := 0;
        while i < |rules.items|
          invariant 0 <= i <= |rules.items|
          invariant RulesError(rules.items) == RulesError(rules.items[i..])
        {
          var rule := rules.items[i];
          assert rules.items[i..][1..] == rules.items[i + 1..];
          if rule.Undefined? || rule.Null? {
            return None;
          }
          if !Get(rule, "pattern").value.RegExp? {
            return Some([E_RULE_PATTERN]);
          }
          if !IsNonEmptyString(Get(rule, "message").value) {
            return Some([E_RULE_MESSAGE]);
          }
          i := i + 1;
        }
      }
    }
  }

  /** The `customPatterns` check: one error for a non-array, or for the first non-RegExp element. */
  method CheckPatterns(patterns: Value) returns (errors: seq<string>)
    ensures errors == PatternsErrors(patterns)
  {
    errors := [];
    if Truthy(patterns) {
      if !patterns.Arr? {
        errors := [E_PATTERNS_ARRAY];
      } else {
        var i := 0;
        while i < |patterns.items|
          invariant 0 <= i <= |patterns.items|
          invariant forall j :: 0 <= j < i ==> patterns.items[j].RegExp?
          invariant errors == []
        {
          if !patterns.items[i].RegExp? {
            errors := [E_PATTERN_ELEMENT];
            break;
          }
          i := i + 1;
        }
      }
    }
  }

  /** `validateConfig(config)`. */
  method ValidateConfig(config: Value) returns (r: Outcome)
    requires !config.Undefined? && !config.Null?
    ensures r == ConfigValidation(config)
  {
    var errors: seq<string> := [];
    var warnings: seq<string> := [];
    var commit := Get(config, "commit").value;
    if Truthy(commit) {
      var maxLength := Get(commit, "maxLength").value;
      if !maxLength.Undefined? {
        if !maxLength.Num? || maxLength.n <= 0 {
          errors := errors + [E_MAX_LENGTH];
        } else if maxLength.n > 200 {
          warnings := warnings + [W_MAX_LENGTH];
        }
      }
      var typeErrors := CheckTypes(Get(commit, "types").value);
      var ruleErrors := CheckRules(Get(commit, "rules").value);
      if ruleErrors.None? {
        return Threw;
      }
      var patternErrors := CheckPatterns(Get(commit, "customPatterns").value);
      errors := errors + typeErrors + ruleErrors.value + patternErrors;
    }
    return Returned(ConfigReport(errors == [], errors, warnings));
  }

  /** The rules check yields at most one error, and only one of the two rule errors. */
  lemma {:induction false} RulesErrorAtMostOne(rules: seq<Value>)
    ensures RulesError(rules).Some? ==>
      RulesError(rules).value == [] || RulesError(rules).value == [E_RULE_PATTERN] || RulesError(rules).value == [E_RULE_MESSAGE]
  {
    if rules != [] && !rules[0].Undefined? && !rules[0].Null?
       && Get(rules[0], "pattern").value.RegExp? && IsNonEmptyString(Get(rules[0], "message").value) {
      RulesErrorAtMostOne(rules[1..]);
    }
  }

  /** An entry the rules check reads and accepts. */
  predicate Accepted(rule: Value) {
    !rule.Undefined? && !rule.Null? && GoodRule(rule)
  }

  /** Entry `i` is `null`/`undefined` and every entry before it is accepted. */
  predicate ThrowsAt(rules: seq<Value>, i: int) {
    0 <= i < |rules| && (rules[i].Undefined? || rules[i].Null?)
    && forall j :: 0 <= j < i ==> Accepted(rules[j])
  }

  /** Past an accepted first entry, throwing at `i` is throwing at `i - 1` in the rest. */
  lemma ThrowsAtShift(rules: seq<Value>, i: int)
    requires rules != [] && Accepted(rules[0]) && 0 < i
    ensures ThrowsAt(rules, i) <==> ThrowsAt(rules[1..], i - 1)
  {
    if ThrowsAt(rules[1..], i - 1) {
      forall j | 0 < j < i ensures Accepted(rules[j]) {
        assert rules[j] == rules[1..][j - 1];
      }
    }
    if ThrowsAt(rules, i) {
      forall j | 0 <= j < i - 1 ensures Accepted(rules[1..][j]) {
        assert rules[1..][j] == rules[j + 1];
      }
    }
  }

  /** The rules check throws exactly when a `null`/`undefined` entry comes before every bad entry. */
  lemma {:induction false} RulesErrorThrows(rules: seq<Value>)
    ensures RulesError(rules).None? <==> exists i :: ThrowsAt(rules, i)
  {
    if rules != [] {
      if rules[0].Undefined? || rules[0].Null? {
        assert ThrowsAt(rules, 0);
      } else if !GoodRule(rules[0]) {
        assert forall i :: ThrowsAt(rules, i) ==> i == 0;
      } else {
        assert Accepted(rules[0]);
        RulesErrorThrows(rules[1..]);
        assert RulesError(rules) == RulesError(rules[1..]);
        if RulesError(rules).None? {
          var i :| ThrowsAt(rules[1..], i);
          ThrowsAtShift(rules, i + 1);
        }
        if exists i :: ThrowsAt(rules, i) {
          var i :| ThrowsAt(rules, i);
          assert i != 0;
          ThrowsAtShift(rules, i);
        }
      }
    }
  }

  /**
   * Every report holds at most one error per field (maxLength, types, rules,
   * customPatterns), at most the one maxLength warning, and is valid exactly
   * when it holds no error.
   */
  lemma ValidationAtMostOneErrorPerField(config: Value)
    requires !config.Undefined? && !config.Null?
    ensures ConfigValidation(config).Returned? ==>
      var rep := ConfigValidation(config).report;
      && (rep.isValid <==> rep.errors == [])
      && |rep.errors| <= 4
      && |rep.warnings| <= 1
  {
    var commit := Get(config, "commit").value;
    if Truthy(commit) {
      var rules := Get(commit, "rules").value;
      if rules.Arr? { RulesErrorAtMostOne(rules.items); }
    }
  }

  /** A configuration without a truthy `commit` yields no error and no warning. */
  lemma ValidationWithoutCommit(config: Value)
    requires !config.Undefined? && !config.Null? && !Truthy(Get(config, "commit").value)
    ensures ConfigValidation(config) == Returned(ConfigReport(true, [], []))
  {}

  /** maxLength: an error exactly when it is given and is not a positive number,
      a warning exactly when it is a number above 200. */
  lemma ValidationMaxLength(config: Value)
    requires !config.Undefined? && !config.Null? && Truthy(Get(config, "commit").value)
    requires ConfigValidation(config).Returned?
    ensures var commit := Get(config, "commit").value;
      var maxLength := Get(commit, "maxLength").value;
      var rep := ConfigValidation(config).report;
      && (E_MAX_LENGTH in rep.errors <==> !maxLength.Undefined? && (!maxLength.Num? || maxLength.n <= 0))
      && (rep.warnings == [W_MAX_LENGTH] <==> maxLength.Num? && maxLength.n > 200)
      && (rep.warnings == [] <==> !(maxLength.Num? && maxLength.n > 200))
  {
    var commit := Get(config, "commit").value;
    var rules := Get(commit, "rules").value;
    if rules.Arr? { RulesErrorAtMostOne(rules.items); }
  }

  lemma {:induction false} TypedRulesError(rules: seq<CommitRule>)
    ensures RulesError(RulesValue(rules).items)
      == if forall i :: 0 <= i < |rules| ==> rules[i].message != [] then Some([]) else Some([E_RULE_MESSAGE])
  {
    var vs := RulesValue(rules).items;
    if rules != [] {
      TypedRulesError(rules[1..]);
      assert vs[1..] == RulesValue(rules[1..]).items;
      assert Get(vs[0], "pattern").value == RegExp(rules[0].pattern);
      assert Get(vs[0], "message").value == Str(rules[0].message);
      if rules[0].message != [] {
        forall i | 0 < i < |rules| ensures rules[i].message == rules[1..][i - 1].message {}
      }
    }
  }

  /** What a well-typed commit section needs to pass: a positive maxLength (if
      given), non-empty types and non-empty rule messages. */
  predicate TypedCommitPasses(cc: CommitConfig) {
    && (cc.maxLength.Some? ==> cc.maxLength.value > 0)
    && (cc.types.Some? ==> forall i :: 0 <= i < |cc.types.value| ==> cc.types.value[i] != [])
    && (cc.rules.Some? ==> forall i :: 0 <= i < |cc.rules.value| ==> cc.rules.value[i].message != [])
  }

  lemma TypedTypesErrors(cc: CommitConfig)
    ensures TypesErrors(FieldValue(TypesField(cc))) == [] <==>
      (cc.types.Some? ==> forall i :: 0 <= i < |cc.types.value| ==> cc.types.value[i] != [])
  {
    if cc.types.Some? {
      var ts := StringsValue(cc.types.value);
      assert (exists i :: 0 <= i < |ts.items| && !IsNonEmptyString(ts.items[i]))
        <==> !(forall i :: 0 <= i < |cc.types.value| ==> cc.types.value[i] != []) by {
        forall i | 0 <= i < |cc.types.value| ensures ts.items[i] == Str(cc.types.value[i]) {}
      }
    }
  }

  lemma TypedRulesErrors(cc: CommitConfig)
    ensures RulesErrors(FieldValue(RulesField(cc))) ==
      if cc.rules.Some? ==> forall i :: 0 <= i < |cc.rules.value| ==> cc.rules.value[i].message != []
      then Some([]) else Some([E_RULE_MESSAGE])
  {
    if cc.rules.Some? { TypedRulesError(cc.rules.value); }
  }

  lemma TypedPatternsErrors(cc: CommitConfig)
    ensures PatternsErrors(FieldValue(PatternsField(cc))) == []
  {
    if cc.customPatterns.Some? {
      var ps := PatternsValue(cc.customPatterns.value);
      forall i | 0 <= i < |ps.items| ensures ps.items[i].RegExp? {}
    }
  }

  /** The checks of a well-typed commit section never throw, and find no error
      exactly when the section passes. */
  lemma TypedCommitFindings(cc: CommitConfig)
    ensures CommitFindings(CommitValue(cc)).Some?
    ensures CommitFindings(CommitValue(cc)).value.0 == [] <==> TypedCommitPasses(cc)
  {
    TypedTypesErrors(cc);
    TypedRulesErrors(cc);
    TypedPatternsErrors(cc);
    assert MaxLengthErrors(FieldValue(MaxLengthField(cc))) == [] <==> (cc.maxLength.Some? ==> cc.maxLength.value > 0);
  }

  /**
   * A configuration that is well typed never makes `validateConfig` throw, and
   * passes exactly when its maxLength (if given) is positive, its types are
   * non-empty strings and its rule messages are non-empty.
   */
  lemma TypedConfigValidation(c: LavyConfig)
    ensures ConfigValidation(ConfigValue(c)).Returned?
    ensures ConfigValidation(ConfigValue(c)).report.isValid <==>
      c.commit.None? ||
      var cc := c.commit.value;
      && (cc.maxLength.Some? ==> cc.maxLength.value > 0)
      && (cc.types.Some? ==> forall i :: 0 <= i < |cc.types.value| ==> cc.types.value[i] != [])
      && (cc.rules.Some? ==> forall i :: 0 <= i < |cc.rules.value| ==> cc.rules.value[i].message != [])
  {
    if c.commit.Some? {
      var cc := c.commit.value;
      assert Get(ConfigValue(c), "commit").value == CommitValue(cc);
      TypedCommitFindings(cc);
      assert TypedCommitPasses(cc) <==>
        && (cc.maxLength.Some? ==> cc.maxLength.value > 0)
        && (cc.types.Some? ==> forall i :: 0 <= i < |cc.types.value| ==> cc.types.value[i] != [])
        && (cc.rules.Some? ==> forall i :: 0 <= i < |cc.rules.value| ==> cc.rules.value[i].message != []);
    } else {
      assert Get(ConfigValue(c), "commit").value == Undefined;
    }
  }

  /** The default configuration passes `validateConfig` with no warning. */
  lemma DefaultConfigIsValid()
    ensures ConfigValidation(ConfigValue(GetDefaultConfig())) == Returned(ConfigReport(true, [], []))
  {
    var c := GetDefaultConfig();
    var cc := DEFAULT_COMMIT_CONFIG;
    DefaultTypesNonEmpty();
    assert TypedCommitPasses(cc);
    TypedCommitFindings(cc);
    assert Get(ConfigValue(c), "commit").value == CommitValue(cc);
    assert MaxLengthWarnings(Get(CommitValue(cc), "maxLength").value) == [];
  }

  lemma DefaultTypesNonEmpty()
    ensures forall i :: 0 <= i < |DEFAULT_COMMIT_TYPES| ==> DEFAULT_COMMIT_TYPES[i] != []
  {
  }
}
