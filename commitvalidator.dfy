/**
 * The commit-message checker (utils/commit-validator.ts): a fixed sequence
 * of checks on the trimmed message that collects errors and warnings, and
 * the `CommitValidator` object that holds the commit configuration it runs
 * with.
 */
module CommitValidation {
  import opened Wrappers
  import opened JsText
  import opened ConfigTypes
  import opened Config

  // ---------------------------------------------------------------------
  // The header pattern `^([a-z][a-z0-9-]*)(\([^)]*\))?\s*[:：]`

  predicate IsLowerAscii(c: char) { 'a' <= c <= 'z' }

  predicate IsTypeChar(c: char) { IsLowerAscii(c) || IsDigit(c) || c == '-' }

  /** The half-width or the full-width colon. */
  predicate IsColon(c: char) { c == ':' || c == '\U{FF1A}' }

  /** A commit type: a lower-case letter followed by lower-case letters, digits and dashes. */
  predicate IsTypeToken(t: string) {
    t != [] && IsLowerAscii(t[0]) && forall i :: 0 < i < |t| ==> IsTypeChar(t[i])
  }

  /** The length of the longest prefix made of type characters. */
  function TypeRun(s: string): (n: nat)
    ensures n <= |s|
    ensures forall i :: 0 <= i < n ==> IsTypeChar(s[i])
    ensures n < |s| ==> !IsTypeChar(s[n])
  {
    if s != [] && IsTypeChar(s[0]) then 1 + TypeRun(s[1..]) else 0
  }

  /** The index just past the first `)`, if any. */
  function CloseParen(s: string): (r: Option<nat>)
    ensures r.Some? ==> 0 < r.value <= |s| && s[r.value - 1] == ')'
    ensures r.Some? ==> forall i :: 0 <= i < r.value - 1 ==> s[i] != ')'
    ensures r.None? ==> forall i :: 0 <= i < |s| ==> s[i] != ')'
  {
    if s == [] then None
    else if s[0] == ')' then Some(1)
    else match CloseParen(s[1..])
      case None => None
      case Some(k) => Some(k + 1)
  }

  /** Where the optional `(scope)` group ends, measured from the end of the type. */
  function ScopeEnd(rest: string): (k: nat)
    ensures k <= |rest|
  {
    if rest != [] && rest[0] == '(' then
      match CloseParen(rest[1..])
      case None => 0
      case Some(j) => j + 1
    else 0
  }

  /** What must follow the type: an optional scope, white space, then a colon. */
  predicate HeaderTail(rest: string) {
    var after := TrimStart(rest[ScopeEnd(rest)..]);
    after != [] && IsColon(after[0])
  }

  /** The first capture group of the header pattern, when the pattern matches. */
  function HeaderType(s: string): (r: Option<string>)
    ensures r.Some? ==> IsTypeToken(r.value) && StartsWith(s, r.value)
  {
    if s == [] || !IsLowerAscii(s[0]) then None
    else
      var n := TypeRun(s);
      if HeaderTail(s[n..]) then Some(s[..n]) else None
  }

  /**
   * A match of the header pattern read declaratively: the type is `s[..n]`,
   * the optional scope is `s[n..k]`, white space fills `s[k..m]`, and `s[m]`
   * is the colon.
   */
  ghost predicate HeaderMatch(s: string, n: nat, k: nat, m: nat) {
    && 0 < n <= k <= m < |s|
    && IsLowerAscii(s[0]) && (forall i :: 0 < i < n ==> IsTypeChar(s[i]))
    && (k == n || (n + 2 <= k && s[n] == '(' && s[k - 1] == ')' && forall i :: n < i < k - 1 ==> s[i] != ')'))
    && (forall i :: k <= i < m ==> IsSpace(s[i]))
    && IsColon(s[m])
  }

  /** After a run of white space, `trimStart` resumes at the first other character. */
  lemma TrimStartFrom(s: string, k: nat, m: nat)
    requires k <= m < |s| && !IsSpace(s[m]) && forall i :: k <= i < m ==> IsSpace(s[i])
    ensures TrimStart(s[k..]) == s[m..]
  {
    var x := s[k..];
    var r := TrimStart(x);
    var d := |x| - |r|;
    assert x[m - k] == s[m];
    assert d <= m - k;
    assert r[0] == x[d] == s[k + d];
    assert d >= m - k;
    assert x[d..] == s[m..];
  }

  /** `HeaderType` finds a header exactly when the pattern matches somewhere
      it can, and then the type it returns is the pattern's first group. */
  lemma HeaderTypeMatches(s: string)
    ensures HeaderType(s).Some? <==> exists n: nat, k: nat, m: nat :: HeaderMatch(s, n, k, m)
    ensures forall n: nat, k: nat, m: nat :: HeaderMatch(s, n, k, m) ==> HeaderType(s) == Some(s[..n])
  {
    if HeaderType(s).Some? {
      var n, k, m := HeaderTypeMatch(s);
    }
    forall n: nat, k: nat, m: nat | HeaderMatch(s, n, k, m) ensures HeaderType(s) == Some(s[..n]) {
      HeaderMatchIsFound(s, n, k, m);
    }
  }

  /** The positions of the match `HeaderType` has found. */
  lemma HeaderTypeMatch(s: string) returns (n: nat, k: nat, m: nat)
    requires HeaderType(s).Some?
    ensures HeaderMatch(s, n, k, m)
  {
    n := TypeRun(s);
    var rest := s[n..];
    assert HeaderTail(rest);
    k := n + ScopeEnd(rest);
    assert rest[ScopeEnd(rest)..] == s[k..];
    m := HeaderColonMatch(s, k);
    if k != n {
      HeaderScopeMatch(s, n, k);
    }
  }

  /** The white space and the colon `HeaderType` found after the scope, in absolute positions. */
  lemma HeaderColonMatch(s: string, k: nat) returns (m: nat)
    requires k <= |s| && TrimStart(s[k..]) != [] && IsColon(TrimStart(s[k..])[0])
    ensures k <= m < |s| && IsColon(s[m]) && forall i :: k <= i < m ==> IsSpace(s[i])
  {
    var x := s[k..];
    var after := TrimStart(x);
    m := k + (|x| - |after|);
    assert s[m] == after[0];
    forall i | k <= i < m ensures IsSpace(s[i]) {
      assert s[i] == x[i - k];
    }
  }

  /** The scope group `HeaderType` skipped over, in absolute positions. */
  lemma HeaderScopeMatch(s: string, n: nat, k: nat)
    requires n < |s| && k == n + ScopeEnd(s[n..]) && k != n
    ensures n + 2 <= k <= |s| && s[n] == '(' && s[k - 1] == ')' && forall i :: n < i < k - 1 ==> s[i] != ')'
  {
    var rest := s[n..];
    var j := CloseParen(rest[1..]).value;
    assert s[k - 1] == rest[1..][j - 1];
    forall i | n < i < k - 1 ensures s[i] != ')' {
      assert s[i] == rest[1..][i - n - 1];
    }
  }

  lemma HeaderMatchIsFound(s: string, n: nat, k: nat, m: nat)
    requires HeaderMatch(s, n, k, m)
    ensures HeaderType(s) == Some(s[..n])
  {
    HeaderMatchTypeRun(s, n, k, m);
    HeaderMatchTail(s, n, k, m);
  }

  lemma HeaderMatchTail(s: string, n: nat, k: nat, m: nat)
    requires HeaderMatch(s, n, k, m)
    ensures HeaderTail(s[n..])
  {
    HeaderMatchScope(s, n, k, m);
    TailFromParts(s, n, k, m);
  }

  /** A scope ending at `k`, white space up to `m` and a colon at `m` make the tail. */
  lemma TailFromParts(s: string, n: nat, k: nat, m: nat)
    requires n <= k <= m < |s| && ScopeEnd(s[n..]) == k - n
    requires forall i :: k <= i < m ==> IsSpace(s[i])
    requires IsColon(s[m])
    ensures HeaderTail(s[n..])
  {
    assert s[n..][k - n..] == s[k..];
    TrimStartFrom(s, k, m);
  }

  /** Neither white space nor a colon nor `(` can continue a type. */
  lemma StopCharNotTypeChar(c: char)
    requires IsSpace(c) || IsColon(c) || c == '('
    ensures !IsTypeChar(c)
  {}

  lemma HeaderMatchTypeRun(s: string, n: nat, k: nat, m: nat)
    requires HeaderMatch(s, n, k, m)
    ensures TypeRun(s) == n
  {
    assert IsSpace(s[n]) || IsColon(s[n]) || s[n] == '(' by {
      if k == n && n < m { assert IsSpace(s[k]); }
    }
    StopCharNotTypeChar(s[n]);
    assert forall i :: 0 <= i < n ==> IsTypeChar(s[i]);
  }

  lemma HeaderMatchScope(s: string, n: nat, k: nat, m: nat)
    requires HeaderMatch(s, n, k, m)
    ensures ScopeEnd(s[n..]) == k - n
  {
    var rest := s[n..];
    if k == n {
      assert IsSpace(s[n]) || IsColon(s[n]) by {
        if n < m { assert IsSpace(s[k]); }
      }
      assert rest[0] != '(';
    } else {
      var inner := rest[1..];
      assert inner[k - n - 2] == ')';
      forall i | 0 <= i < k - n - 2 ensures inner[i] != ')' {
        assert inner[i] == s[n + 1 + i];
      }
      assert CloseParen(inner) == Some(k - n - 1);
    }
  }

  // ---------------------------------------------------------------------
  // The checks of `validate`

  datatype ValidationResult = ValidationResult(isValid: bool, errors: seq<string>, warnings: seq<string>)

  const E_EMPTY := "提交信息不能为空"
  const E_MERGE := "不允许合并提交"
  const E_FORMAT := "提交信息格式错误，应为: <type>: <description>"

  function LengthError(max: int, length: nat): string {
    "提交信息长度不能超过 " + IntToString(max) + " 个字符，当前长度: " + NatToString(length)
  }

  function TypeError(t: string, types: seq<string>): string {
    "不支持的提交类型 \"" + t + "\"，支持的类型: " + Join(types, ", ")
  }

  function PatternWarning(p: Regex): string {
    "提交信息不符合自定义模式: " + RegexText(p)
  }

  /** The length error for a trimmed message, if the limit is set and exceeded. */
  function LengthErrors(c: CommitConfig, trimmed: string): seq<string> {
    if c.maxLength.Some? && Utf16Length(trimmed) > c.maxLength.value
    then [LengthError(c.maxLength.value, Utf16Length(trimmed))] else []
  }

  /** The messages of the rules whose pattern rejects the message, in rule order. */
  function RuleErrors(rules: seq<CommitRule>, msg: string): (r: seq<string>)
    ensures |r| <= |rules|
  {
    if rules == [] then []
    else
      var last := rules[|rules| - 1];
      RuleErrors(rules[..|rules| - 1], msg) + (if last.pattern.test(msg) then [] else [last.message])
  }

  /** One warning per custom pattern that rejects the message, in pattern order. */
  function PatternWarnings(patterns: seq<Regex>, msg: string): (r: seq<string>)
    ensures |r| <= |patterns|
  {
    if patterns == [] then []
    else
      var last := patterns[|patterns| - 1];
      PatternWarnings(patterns[..|patterns| - 1], msg) + (if last.test(msg) then [] else [PatternWarning(last)])
  }

  /** The errors of the checks that run on every non-empty message: length and merge. */
  function CommonErrors(c: CommitConfig, t: string): seq<string> {
    LengthErrors(c, t) + (if StartsWith(t, "Merge") && c.allowMergeCommits == Some(false) then [E_MERGE] else [])
  }

  /** The type error, if the header's type is not an allowed type. */
  function TypeErrors(c: CommitConfig, ty: string): seq<string> {
    var types := c.types.GetOr([]);
    if ty in types then [] else [TypeError(ty, types)]
  }

  /** The result for a trimmed message that has a header with type `ty`. */
  function HeaderResult(c: CommitConfig, t: string, ty: string): (r: ValidationResult)
    ensures r.isValid <==> r.errors == []
  {
    var all := CommonErrors(c, t) + (TypeErrors(c, ty) + RuleErrors(c.rules.GetOr([]), t));
    ValidationResult(all == [], all, PatternWarnings(c.customPatterns.GetOr([]), t))
  }

  /** The result for a non-empty trimmed message. */
  function TrimmedValidation(c: CommitConfig, t: string): (r: ValidationResult)
    ensures r.isValid <==> r.errors == []
  {
    if StartsWith(t, "Merge") then ValidationResult(CommonErrors(c, t) == [], CommonErrors(c, t), [])
    else match HeaderType(t)
      case None => ValidationResult(false, CommonErrors(c, t) + [E_FORMAT], [])
      case Some(ty) => HeaderResult(c, t, ty)
  }

  /** What `validate(message)` returns under configuration `c`. */
  function Validation(c: CommitConfig, message: string): (r: ValidationResult)
    ensures r.isValid <==> r.errors == []
  {
    var t := Trim(message);
    if t == [] then ValidationResult(false, [E_EMPTY], []) else TrimmedValidation(c, t)
  }

  /** `initializeRules()`: a missing rule list becomes the empty list. */
  function InitializeRules(c: CommitConfig): (r: CommitConfig)
    ensures r.rules.Some? && r.rules.value == c.rules.GetOr([])
    ensures r == c.(rules := r.rules)
  {
    if c.rules.None? || c.rules.value == [] then c.(rules := Some([])) else c
  }

  /** The configuration after `addRule(rule)`. */
  function WithRule(c: CommitConfig, rule: CommitRule): (r: CommitConfig)
    ensures r.rules.Some? && r.rules.value == c.rules.GetOr([]) + [rule]
    ensures r == c.(rules := r.rules)
  {
    c.(rules := Some(c.rules.GetOr([]) + [rule]))
  }

  /** `formatCommitMessage(type, subject, scope)`: the scope is shown only when it is a non-empty string. */
  function FormatCommitMessage(ty: string, subject: string, scope: Option<string>): (r: string)
    ensures scope.Some? && scope.value != [] ==> r == ty + "(" + scope.value + "): " + subject
    ensures scope.None? || scope.value == [] ==> r == ty + ": " + subject
  {
    var scopePart := if scope.Some? && scope.value != [] then "(" + scope.value + ")" else "";
    ty + scopePart + ": " + subject
  }

  const TYPE_DESCRIPTION_HEAD := "📋 支持的提交类型：\n"
  const TYPE_DESCRIPTION_TAIL := "\n\n💡 格式: <type>: <description>\n💡 示例: feat: 添加新功能"

  function Bullets(types: seq<string>): (r: seq<string>)
    ensures |r| == |types| && forall i :: 0 <= i < |types| ==> r[i] == "  • " + types[i]
  {
    seq(|types|, i requires 0 <= i < |types| => "  • " + types[i])
  }

  /** `getTypeDescription()` for a given list of types. */
  function TypeDescription(types: seq<string>): (r: string)
    ensures StartsWith(r, TYPE_DESCRIPTION_HEAD)
    ensures forall i :: 0 <= i < |types| ==> Includes(r, "  • " + types[i])
  {
    var body := Join(Bullets(types), "\n");
    var r := TYPE_DESCRIPTION_HEAD + body + TYPE_DESCRIPTION_TAIL;
    assert r[..|TYPE_DESCRIPTION_HEAD|] == TYPE_DESCRIPTION_HEAD;
    forall i | 0 <= i < |types| ensures Includes(r, "  • " + types[i]) {
      JoinIncludes(Bullets(types), "\n", i);
      IncludesInfix(TYPE_DESCRIPTION_HEAD, body, TYPE_DESCRIPTION_TAIL, "  • " + types[i]);
    }
    r
  }

  /** The layout of the description: the heading, one bullet line per type in
      list order, then the fixed footer with the format and the example. */
  lemma TypeDescriptionLayout(types: seq<string>)
    ensures var r := TypeDescription(types);
      |r| >= |TYPE_DESCRIPTION_HEAD| + |TYPE_DESCRIPTION_TAIL| && r[|r| - |TYPE_DESCRIPTION_TAIL|..] == TYPE_DESCRIPTION_TAIL
    ensures types == [] ==> TypeDescription(types) == TYPE_DESCRIPTION_HEAD + TYPE_DESCRIPTION_TAIL
    ensures |types| == 1 ==> TypeDescription(types) == TYPE_DESCRIPTION_HEAD + "  • " + types[0] + TYPE_DESCRIPTION_TAIL
    ensures |types| > 1 ==>
      TypeDescription(types) == TYPE_DESCRIPTION_HEAD + "  • " + types[0] + "\n" + TypeDescription(types[1..])[|TYPE_DESCRIPTION_HEAD|..]
  {
    var h, t := TYPE_DESCRIPTION_HEAD, TYPE_DESCRIPTION_TAIL;
    assert TypeDescription(types) == h + Join(Bullets(types), "\n") + t;
    BulletLayout(h, t, types);
    if |types| > 1 {
      assert TypeDescription(types[1..]) == h + Join(Bullets(types[1..]), "\n") + t;
    }
  }

  /** The layout of `TypeDescriptionLayout` for any heading and footer. */
  lemma BulletLayout(h: string, t: string, types: seq<string>)
    ensures var r := h + Join(Bullets(types), "\n") + t; |r| >= |h| + |t| && r[|r| - |t|..] == t
    ensures types == [] ==> h + Join(Bullets(types), "\n") + t == h + t
    ensures |types| == 1 ==> h + Join(Bullets(types), "\n") + t == h + "  • " + types[0] + t
    ensures |types| > 1 ==>
      h + Join(Bullets(types), "\n") + t == h + "  • " + types[0] + "\n" + (h + Join(Bullets(types[1..]), "\n") + t)[|h|..]
  {
    var bs := Bullets(types);
    var r := h + Join(bs, "\n") + t;
    assert r[|r| - |t|..] == t;
    if types == [] {
      assert r == h + "" + t;
    } else if |types| == 1 {
      assert bs == ["  • " + types[0]];
    } else {
      var j := Join(Bullets(types[1..]), "\n");
      assert bs[1..] == Bullets(types[1..]);
      assert Join(bs, "\n") == bs[0] + "\n" + j;
      assert (h + j + t)[|h|..] == j + t;
    }
  }

  /** The rule loop of `validate`: each rule whose pattern rejects the message adds its message. */
  method CollectRuleErrors(rules: seq<CommitRule>, trimmed: string) returns (errors: seq<string>)
    ensures errors == RuleErrors(rules, trimmed)
  {
    errors := [];
    var i := 0;
    while i < |rules|
      invariant 0 <= i <= |rules|
      invariant errors == RuleErrors(rules[..i], trimmed)
    {
      assert rules[..i + 1][..i] == rules[..i];
      if !rules[i].pattern.test(trimmed) {
        errors := errors + [rules[i].message];
      }
      i := i + 1;
    }
    assert rules[..|rules|] == rules;
  }

  /** The custom-pattern loop of `validate`: each rejecting pattern adds a warning. */
  method CollectPatternWarnings(patterns: seq<Regex>, trimmed: string) returns (warnings: seq<string>)
    ensures warnings == PatternWarnings(patterns, trimmed)
  {
    warnings := [];
    var j := 0;
    while j < |patterns|
      invariant 0 <= j <= |patterns|
      invariant warnings == PatternWarnings(patterns[..j], trimmed)
    {
      assert patterns[..j + 1][..j] == patterns[..j];
      if !patterns[j].test(trimmed) {
        warnings := warnings + [PatternWarning(patterns[j])];
      }
      j := j + 1;
    }
    assert patterns[..|patterns|] == patterns;
  }

  // ---------------------------------------------------------------------
  // Properties of `validate`

  lemma AppendAssoc(a: seq<string>, b: seq<string>, c: seq<string>)
    ensures (a + b) + c == a + (b + c)
  {}

  /** Without the "Merge" prefix the merge check adds nothing. */
  lemma CommonErrorsNonMerge(c: CommitConfig, t: string)
    requires !StartsWith(t, "Merge")
    ensures CommonErrors(c, t) == LengthErrors(c, t)
  {
    assert (if StartsWith(t, "Merge") && c.allowMergeCommits == Some(false) then [E_MERGE] else []) == [];
  }

  /** An empty or blank message gets exactly the one empty-message error. */
  lemma ValidateBlank(c: CommitConfig, message: string)
    requires forall i :: 0 <= i < |message| ==> IsSpace(message[i])
    ensures Validation(c, message) == ValidationResult(false, [E_EMPTY], [])
  {}

  /** A too-long message gets the length error first, and every later check
      still runs exactly as it would without a length limit. */
  lemma ValidateTooLong(c: CommitConfig, message: string)
    requires Trim(message) != [] && c.maxLength.Some?
    requires Utf16Length(Trim(message)) > c.maxLength.value
    ensures var r := Validation(c, message);
      && !r.isValid
      && r.errors[0] == LengthError(c.maxLength.value, Utf16Length(Trim(message)))
      && r.errors[1..] == Validation(c.(maxLength := None), message).errors
      && r.warnings == Validation(c.(maxLength := None), message).warnings
  {
    var t := Trim(message);
    assert Validation(c, message) == TrimmedValidation(c, t);
    assert Validation(c.(maxLength := None), message) == TrimmedValidation(c.(maxLength := None), t);
    TooLongTrimmed(c, t);
  }

  /** `ValidateTooLong` for a non-empty trimmed message. */
  lemma TooLongTrimmed(c: CommitConfig, t: string)
    requires c.maxLength.Some? && Utf16Length(t) > c.maxLength.value
    ensures var e := LengthError(c.maxLength.value, Utf16Length(t));
      var r, r' := TrimmedValidation(c, t), TrimmedValidation(c.(maxLength := None), t);
      && r.errors == [e] + r'.errors && r.warnings == r'.warnings
  {
    var e := LengthError(c.maxLength.value, Utf16Length(t));
    var c' := c.(maxLength := None);
    assert LengthErrors(c, t) == [e];
    assert LengthErrors(c', t) == [];
    assert CommonErrors(c, t) == [e] + CommonErrors(c', t);
    if StartsWith(t, "Merge") {
    } else if HeaderType(t).None? {
      assert TrimmedValidation(c, t).errors == CommonErrors(c, t) + [E_FORMAT];
      assert TrimmedValidation(c', t).errors == CommonErrors(c', t) + [E_FORMAT];
      AppendAssoc([e], CommonErrors(c', t), [E_FORMAT]);
    } else {
      var ty := HeaderType(t).value;
      var rest := TypeErrors(c, ty) + RuleErrors(c.rules.GetOr([]), t);
      assert TypeErrors(c', ty) == TypeErrors(c, ty);
      assert HeaderResult(c, t, ty).errors == CommonErrors(c, t) + rest;
      assert HeaderResult(c', t, ty).errors == CommonErrors(c', t) + rest;
      AppendAssoc([e], CommonErrors(c', t), rest);
    }
  }

  /** A message starting with "Merge" gets no format, type, rule or pattern
      diagnostics: at most the length error and, when merges are disallowed,
      the merge error. */
  lemma ValidateMerge(c: CommitConfig, message: string, other: CommitConfig)
    requires Trim(message) != [] && StartsWith(Trim(message), "Merge")
    requires other.maxLength == c.maxLength && other.allowMergeCommits == c.allowMergeCommits
    ensures var r := Validation(c, message);
      && r.warnings == []
      && r.errors == LengthErrors(c, Trim(message)) + (if c.allowMergeCommits == Some(false) then [E_MERGE] else [])
      && r == Validation(other, message)
  {
    var t := Trim(message);
    assert Validation(c, message) == TrimmedValidation(c, t);
    assert Validation(other, message) == TrimmedValidation(other, t);
    TrimmedMerge(c, t);
    TrimmedMerge(other, t);
    assert CommonErrors(other, t) == CommonErrors(c, t);
  }

  /** A trimmed message with no header gets the common errors and the format error. */
  lemma TrimmedNoHeader(c: CommitConfig, t: string)
    requires t != [] && !StartsWith(t, "Merge") && HeaderType(t).None?
    ensures TrimmedValidation(c, t) == ValidationResult(false, CommonErrors(c, t) + [E_FORMAT], [])
  {
  }

  /** A trimmed message with a header gets the header checks. */
  lemma TrimmedHeader(c: CommitConfig, t: string)
    requires t != [] && !StartsWith(t, "Merge") && HeaderType(t).Some?
    ensures TrimmedValidation(c, t) == HeaderResult(c, t, HeaderType(t).value)
  {
  }

  /** A trimmed message starting with "Merge" gets only the common checks. */
  lemma TrimmedMerge(c: CommitConfig, t: string)
    requires t != [] && StartsWith(t, "Merge")
    ensures TrimmedValidation(c, t) == ValidationResult(CommonErrors(c, t) == [], CommonErrors(c, t), [])
  {
  }

  lemma MergeBranchMainShape()
    ensures Trim("Merge branch main") == "Merge branch main"
    ensures StartsWith("Merge branch main", "Merge")
    ensures Utf16Length("Merge branch main") == 17
  {
    MergeBranchMainTrimmed();
    MergeBranchMainPrefix();
    MergeBranchMainLength();
  }

  lemma MergeBranchMainTrimmed()
    ensures Trim("Merge branch main") == "Merge branch main"
  {
    var s := "Merge branch main";
    assert !IsSpace(s[0]) && !IsSpace(s[|s| - 1]);
    TrimmedIsFixed(s);
  }

  lemma MergeBranchMainPrefix()
    ensures StartsWith("Merge branch main", "Merge")
  {
    assert "Merge branch main"[..5] == "Merge";
  }

  lemma MergeBranchMainLength()
    ensures Utf16Length("Merge branch main") == 17
  {
    var s := "Merge branch main";
    forall i | 0 <= i < |s| ensures s[i] as int <= 0xFFFF {}
    Utf16LengthBasic(s);
  }

  /** Under the defaults, every message starting with "Merge" that fits in 72 code units is valid. */
  lemma MergeValidUnderDefaults(message: string)
    requires Trim(message) != [] && StartsWith(Trim(message), "Merge") && Utf16Length(Trim(message)) <= 72
    ensures Validation(DEFAULT_COMMIT_CONFIG, message) == ValidationResult(true, [], [])
  {
    var t := Trim(message);
    TrimmedMerge(DEFAULT_COMMIT_CONFIG, t);
    assert LengthErrors(DEFAULT_COMMIT_CONFIG, t) == [];
    assert CommonErrors(DEFAULT_COMMIT_CONFIG, t) == [];
  }

  /** Under the default configuration, "Merge branch main" is valid. */
  lemma MergeBranchMainIsValid()
    ensures Validation(DEFAULT_COMMIT_CONFIG, "Merge branch main") == ValidationResult(true, [], [])
  {
    MergeBranchMainShape();
    MergeValidUnderDefaults("Merge branch main");
  }

  /** A non-merge message without the header prefix stops at the format error:
      any length error is kept, and no type, rule or pattern check runs. */
  lemma ValidateNoHeader(c: CommitConfig, message: string, other: CommitConfig)
    requires Trim(message) != [] && !StartsWith(Trim(message), "Merge") && HeaderType(Trim(message)).None?
    requires other.maxLength == c.maxLength
    ensures var r := Validation(c, message);
      && !r.isValid
      && r.errors == LengthErrors(c, Trim(message)) + [E_FORMAT]
      && r.warnings == []
      && r == Validation(other, message)
  {
    var t := Trim(message);
    CommonErrorsNonMerge(c, t);
    CommonErrorsNonMerge(other, t);
    assert TrimmedValidation(c, t) == ValidationResult(false, LengthErrors(c, t) + [E_FORMAT], []);
    assert TrimmedValidation(other, t) == ValidationResult(false, LengthErrors(other, t) + [E_FORMAT], []);
  }

  /** A header type outside the allowed list adds exactly one error, after which the rules still run. */
  lemma ValidateUnsupportedType(c: CommitConfig, message: string)
    requires Trim(message) != [] && !StartsWith(Trim(message), "Merge") && HeaderType(Trim(message)).Some?
    ensures var t, ty := Trim(message), HeaderType(Trim(message)).value;
      var r := Validation(c, message);
      && r.errors == LengthErrors(c, t)
           + (if ty in c.types.GetOr([]) then [] else [TypeError(ty, c.types.GetOr([]))])
           + RuleErrors(c.rules.GetOr([]), t)
      && r.warnings == PatternWarnings(c.customPatterns.GetOr([]), t)
  {
    var t := Trim(message);
    assert Validation(c, message) == TrimmedValidation(c, t);
    assert TrimmedValidation(c, t) == HeaderResult(c, t, HeaderType(t).value);
    CommonErrorsNonMerge(c, t);
    AppendAssoc(LengthErrors(c, t), TypeErrors(c, HeaderType(t).value), RuleErrors(c.rules.GetOr([]), t));
  }

  /** Rule errors of two rule lists in sequence are those of the first, then those of the second. */
  lemma {:induction false} RuleErrorsAppend(a: seq<CommitRule>, b: seq<CommitRule>, msg: string)
    ensures RuleErrors(a + b, msg) == RuleErrors(a, msg) + RuleErrors(b, msg)
    decreases |b|
  {
    if b != [] {
      var ab := a + b;
      assert ab[..|ab| - 1] == a + b[..|b| - 1];
      RuleErrorsAppend(a, b[..|b| - 1], msg);
    } else {
      assert a + b == a;
    }
  }

  /** Exactly the rules that reject the message contribute, each its own message, in rule order. */
  lemma {:induction false} RuleErrorsAreFailingRules(rules: seq<CommitRule>, msg: string)
    ensures RuleErrors(rules, msg) == [] <==> forall i :: 0 <= i < |rules| ==> rules[i].pattern.test(msg)
    ensures forall i :: 0 <= i < |rules| && !rules[i].pattern.test(msg) ==> rules[i].message in RuleErrors(rules, msg)
  {
    if rules != [] {
      var init, last := rules[..|rules| - 1], rules[|rules| - 1];
      RuleErrorsAreFailingRules(init, msg);
      var r := RuleErrors(rules, msg);
      assert r == RuleErrors(init, msg) + (if last.pattern.test(msg) then [] else [last.message]);
      assert r == [] <==> forall i :: 0 <= i < |rules| ==> rules[i].pattern.test(msg) by {
        if r == [] {
          forall i | 0 <= i < |rules| ensures rules[i].pattern.test(msg) {
            if i < |init| { assert init[i] == rules[i]; }
          }
        }
        if forall i :: 0 <= i < |rules| ==> rules[i].pattern.test(msg) {
          assert forall i :: 0 <= i < |init| ==> init[i] == rules[i];
        }
      }
      forall i | 0 <= i < |rules| && !rules[i].pattern.test(msg) ensures rules[i].message in r {
        if i < |init| { assert init[i] == rules[i]; }
      }
    }
  }

  /** Exactly the custom patterns that reject the message contribute a warning each. */
  lemma {:induction false} PatternWarningsAreFailingPatterns(patterns: seq<Regex>, msg: string)
    ensures PatternWarnings(patterns, msg) == [] <==> forall i :: 0 <= i < |patterns| ==> patterns[i].test(msg)
    ensures forall i :: 0 <= i < |patterns| && !patterns[i].test(msg) ==> PatternWarning(patterns[i]) in PatternWarnings(patterns, msg)
  {
    if patterns != [] {
      var init, last := patterns[..|patterns| - 1], patterns[|patterns| - 1];
      PatternWarningsAreFailingPatterns(init, msg);
      var r := PatternWarnings(patterns, msg);
      assert r == PatternWarnings(init, msg) + (if last.test(msg) then [] else [PatternWarning(last)]);
      assert r == [] <==> forall i :: 0 <= i < |patterns| ==> patterns[i].test(msg) by {
        if r == [] {
          forall i | 0 <= i < |patterns| ensures patterns[i].test(msg) {
            if i < |init| { assert init[i] == patterns[i]; }
          }
        }
        if forall i :: 0 <= i < |patterns| ==> patterns[i].test(msg) {
          assert forall i :: 0 <= i < |init| ==> init[i] == patterns[i];
        }
      }
      forall i | 0 <= i < |patterns| && !patterns[i].test(msg) ensures PatternWarning(patterns[i]) in r {
        if i < |init| { assert init[i] == patterns[i]; }
      }
    }
  }

  /** Custom patterns only ever produce warnings: the errors, and so validity,
      do not depend on them. */
  lemma PatternsNeverAffectValidity(c: CommitConfig, patterns: Option<seq<Regex>>, message: string)
    ensures Validation(c.(customPatterns := patterns), message).errors == Validation(c, message).errors
    ensures Validation(c.(customPatterns := patterns), message).isValid == Validation(c, message).isValid
  {
    var t := Trim(message);
    if t != [] {
      PatternsTrimmed(c, patterns, t);
    }
  }

  lemma PatternsTrimmed(c: CommitConfig, patterns: Option<seq<Regex>>, t: string)
    ensures TrimmedValidation(c.(customPatterns := patterns), t).errors == TrimmedValidation(c, t).errors
  {
    var c' := c.(customPatterns := patterns);
    assert CommonErrors(c', t) == CommonErrors(c, t);
    if !StartsWith(t, "Merge") && HeaderType(t).Some? {
      var ty := HeaderType(t).value;
      assert TypeErrors(c', ty) == TypeErrors(c, ty);
      assert HeaderResult(c', t, ty).errors == HeaderResult(c, t, ty).errors;
    }
  }

  /** After `addRule(rule)`, a message that reaches the rule checks gets the
      new rule's message appended to its errors exactly when the rule rejects
      it; nothing else changes. */
  lemma AddedRuleRunsLast(c: CommitConfig, rule: CommitRule, message: string)
    ensures var t := Trim(message);
      var before, after := Validation(c, message), Validation(WithRule(c, rule), message);
      && after.warnings == before.warnings
      && after.errors == before.errors
           + (if t != [] && !StartsWith(t, "Merge") && HeaderType(t).Some? && !rule.pattern.test(t)
              then [rule.message] else [])
  {
    var t := Trim(message);
    if t != [] {
      AddedRuleTrimmed(c, rule, t);
    }
  }

  /** `AddedRuleRunsLast` for a non-empty trimmed message. */
  lemma AddedRuleTrimmed(c: CommitConfig, rule: CommitRule, t: string)
    ensures var before, after := TrimmedValidation(c, t), TrimmedValidation(WithRule(c, rule), t);
      && after.warnings == before.warnings
      && after.errors == before.errors
           + (if !StartsWith(t, "Merge") && HeaderType(t).Some? && !rule.pattern.test(t) then [rule.message] else [])
  {
    var c' := WithRule(c, rule);
    assert CommonErrors(c', t) == CommonErrors(c, t);
    if !StartsWith(t, "Merge") && HeaderType(t).Some? {
      var ty := HeaderType(t).value;
      var rules := c.rules.GetOr([]);
      RuleErrorsAppend(rules, [rule], t);
      var added := RuleErrors([rule], t);
      assert added == (if rule.pattern.test(t) then [] else [rule.message]);
      var common, types := CommonErrors(c, t), TypeErrors(c, ty);
      assert TypeErrors(c', ty) == types;
      assert HeaderResult(c, t, ty).errors == common + (types + RuleErrors(rules, t));
      assert HeaderResult(c', t, ty).errors == common + (types + (RuleErrors(rules, t) + added));
      AppendAssoc(types, RuleErrors(rules, t), added);
      AppendAssoc(common, types + RuleErrors(rules, t), added);
    }
  }

  /** Two configurations that agree on every option `validate` reads, with a
      missing list read as the empty list, give the same result. */
  lemma SameChecks(c1: CommitConfig, c2: CommitConfig, t: string)
    requires c1.maxLength == c2.maxLength && c1.allowMergeCommits == c2.allowMergeCommits && c1.types == c2.types
    requires c1.rules.GetOr([]) == c2.rules.GetOr([])
    requires c1.customPatterns.GetOr([]) == c2.customPatterns.GetOr([])
    ensures TrimmedValidation(c1, t) == TrimmedValidation(c2, t)
  {
    assert CommonErrors(c1, t) == CommonErrors(c2, t);
    match HeaderType(t)
    case None =>
    case Some(ty) =>
      assert TypeErrors(c1, ty) == TypeErrors(c2, ty);
      assert HeaderResult(c1, t, ty) == HeaderResult(c2, t, ty);
  }

  /** Supplying an empty rule list and supplying none validate alike. */
  lemma InitializeRulesKeepsValidation(c: CommitConfig, message: string)
    ensures Validation(InitializeRules(c), message) == Validation(c, message)
  {
    var t := Trim(message);
    SameChecks(InitializeRules(c), c, t);
  }

  /** A validator built with no options holds exactly the default commit configuration. */
  lemma DefaultValidatorConfig()
    ensures InitializeRules(Overlay(DEFAULT_COMMIT_CONFIG, NoCommitConfig)) == DEFAULT_COMMIT_CONFIG
  {}

  /** Applying the same update twice is applying it once. */
  lemma UpdateIdempotent(c: CommitConfig, update: CommitConfig)
    ensures InitializeRules(Overlay(InitializeRules(Overlay(c, update)), update)) == InitializeRules(Overlay(c, update))
  {}

  // ---------------------------------------------------------------------
  // formatCommitMessage against the header pattern

  /** A formatted message whose type is a valid type token and whose scope
      holds no `)` has that type as its header type. */
  lemma FormattedHeaderParses(ty: string, subject: string, scope: Option<string>)
    requires IsTypeToken(ty)
    requires scope.Some? ==> forall i :: 0 <= i < |scope.value| ==> scope.value[i] != ')'
    ensures HeaderType(FormatCommitMessage(ty, subject, scope)) == Some(ty)
  {
    var k := FormattedHeaderMatch(ty, subject, scope);
    HeaderMatchIsFound(FormatCommitMessage(ty, subject, scope), |ty|, k, k);
  }

  /** A message starting with a lower-case letter does not start with "Merge". */
  lemma LowerStartIsNotMerge(t: string)
    requires t != [] && IsLowerAscii(t[0])
    ensures !StartsWith(t, "Merge")
  {
    if |t| >= 5 { assert t[..5][0] == t[0]; }
  }

  /** A prefix keeps every header match that fits inside it. */
  lemma HeaderMatchPrefix(s: string, p: nat, n: nat, k: nat, m: nat)
    requires HeaderMatch(s, n, k, m) && m < p <= |s|
    ensures HeaderMatch(s[..p], n, k, m)
  {
    var t := s[..p];
    assert forall i :: 0 <= i < p ==> t[i] == s[i];
  }

  /** The formatted message matches the header pattern with the type, the
      scope if shown, and the colon right after. */
  lemma FormattedHeaderMatch(ty: string, subject: string, scope: Option<string>) returns (k: nat)
    requires IsTypeToken(ty)
    requires scope.Some? ==> forall i :: 0 <= i < |scope.value| ==> scope.value[i] != ')'
    ensures HeaderMatch(FormatCommitMessage(ty, subject, scope), |ty|, k, k)
    ensures FormatCommitMessage(ty, subject, scope)[..|ty|] == ty
  {
    var f := FormatCommitMessage(ty, subject, scope);
    var n := |ty|;
    k := if scope.Some? && scope.value != [] then n + |scope.value| + 2 else n;
    assert f[..n] == ty;
    if scope.Some? && scope.value != [] {
      assert f[n] == '(' && f[k - 1] == ')';
      forall i | n < i < k - 1 ensures f[i] != ')' { assert f[i] == scope.value[i - n - 1]; }
    }
    assert f[k] == ':';
  }

  /** Trimming a string that starts with a header keeps the header. */
  lemma TrimKeepsHeader(f: string, n: nat, k: nat, m: nat)
    requires HeaderMatch(f, n, k, m)
    ensures Trim(f) != [] && Trim(f)[0] == f[0] && HeaderType(Trim(f)) == Some(f[..n])
  {
    var p := TrimmedHeaderLength(f, n, k, m);
    HeaderTypeOfPrefix(f, p, n, k, m);
  }

  /** A prefix that still holds the colon has the same header type. */
  lemma HeaderTypeOfPrefix(s: string, p: nat, n: nat, k: nat, m: nat)
    requires HeaderMatch(s, n, k, m) && m < p <= |s|
    ensures HeaderType(s[..p]) == Some(s[..n])
  {
    HeaderMatchPrefix(s, p, n, k, m);
    HeaderMatchIsFound(s[..p], n, k, m);
    PrefixOfPrefix(s, p, n);
  }

  lemma PrefixOfPrefix(s: string, p: nat, n: nat)
    requires n <= p <= |s|
    ensures s[..p][..n] == s[..n]
  {
  }

  /** Trimming a string that starts with a header only cuts its end, after the colon. */
  lemma TrimmedHeaderLength(f: string, n: nat, k: nat, m: nat) returns (p: nat)
    requires HeaderMatch(f, n, k, m)
    ensures m < p <= |f| && Trim(f) == f[..p]
  {
    HeaderEndsNotSpace(f[0], f[m]);
    TrimKeepsPrefix(f, m);
    p := |Trim(f)|;
  }

  /** Neither the first letter of a type nor a colon is white space. */
  lemma HeaderEndsNotSpace(first: char, colon: char)
    requires IsLowerAscii(first) && IsColon(colon)
    ensures !IsSpace(first) && !IsSpace(colon)
  {}

  /** The trimmed form of a formatted message still has the formatted type as its header type. */
  lemma FormattedTrimmedHeader(ty: string, subject: string, scope: Option<string>)
    requires IsTypeToken(ty)
    requires scope.Some? ==> forall i :: 0 <= i < |scope.value| ==> scope.value[i] != ')'
    ensures var t := Trim(FormatCommitMessage(ty, subject, scope));
      t != [] && !StartsWith(t, "Merge") && HeaderType(t) == Some(ty)
  {
    var f := FormatCommitMessage(ty, subject, scope);
    var k := FormattedHeaderMatch(ty, subject, scope);
    TrimKeepsHeader(f, |ty|, k, k);
    LowerStartIsNotMerge(Trim(f));
  }

  /**
   * A message built by `formatCommitMessage` from an allowed type passes
   * `validate` when no rule rejects it and it fits the length limit.
   */
  lemma FormattedMessageIsValid(c: CommitConfig, ty: string, subject: string, scope: Option<string>)
    requires IsTypeToken(ty) && ty in c.types.GetOr([])
    requires scope.Some? ==> forall i :: 0 <= i < |scope.value| ==> scope.value[i] != ')'
    requires forall i :: 0 <= i < |c.rules.GetOr([])| ==> c.rules.GetOr([])[i].pattern.test(Trim(FormatCommitMessage(ty, subject, scope)))
    requires c.maxLength.Some? ==> Utf16Length(Trim(FormatCommitMessage(ty, subject, scope))) <= c.maxLength.value
    ensures Validation(c, FormatCommitMessage(ty, subject, scope)).isValid
  {
    var t := Trim(FormatCommitMessage(ty, subject, scope));
    FormattedTrimmedHeader(ty, subject, scope);
    RuleErrorsAreFailingRules(c.rules.GetOr([]), t);
    CommonErrorsNonMerge(c, t);
    assert LengthErrors(c, t) == [];
    assert TypeErrors(c, ty) == [];
    assert TrimmedValidation(c, t) == HeaderResult(c, t, ty);
  }

  /** The part of `validate` after the merge test, for a message without the
      "Merge" prefix: the format, type, rule and pattern checks. */
  method CheckHeader(c: CommitConfig, trimmed: string, common: seq<string>) returns (r: ValidationResult)
    requires trimmed != [] && !StartsWith(trimmed, "Merge") && common == CommonErrors(c, trimmed)
    ensures r == TrimmedValidation(c, trimmed)
  {
    var typeMatch := HeaderType(trimmed);
    if typeMatch.None? {
      TrimmedNoHeader(c, trimmed);
      return ValidationResult(false, common + [E_FORMAT], []);
    }
    r := CheckTyped(c, trimmed, common, typeMatch.value);
    TrimmedHeader(c, trimmed);
  }

  /** The type, rule and pattern checks once the header gave the type `ty`. */
  method CheckTyped(c: CommitConfig, trimmed: string, common: seq<string>, ty: string) returns (r: ValidationResult)
    requires common == CommonErrors(c, trimmed)
    ensures r == HeaderResult(c, trimmed, ty)
  {
    var errors := common;
    var types := c.types.GetOr([]);
    if ty !in types {
      errors := errors + [TypeError(ty, types)];
    }
    var ruleErrors := CollectRuleErrors(c.rules.GetOr([]), trimmed);
    errors := errors + ruleErrors;
    var warnings := CollectPatternWarnings(c.customPatterns.GetOr([]), trimmed);
    assert errors == CommonErrors(c, trimmed) + TypeErrors(c, ty) + ruleErrors;
    AppendAssoc(CommonErrors(c, trimmed), TypeErrors(c, ty), ruleErrors);
    return ValidationResult(errors == [], errors, warnings);
  }

  /** The checks every non-empty message goes through: the length, then the
      `Merge` exemption when merge commits are not allowed. */
  method CheckCommon(c: CommitConfig, trimmed: string) returns (errors: seq<string>)
    ensures errors == CommonErrors(c, trimmed)
  {
    errors := [];
    var length := Utf16Length(trimmed);
    if c.maxLength.Some? && length > c.maxLength.value {
      errors := errors + [LengthError(c.maxLength.value, length)];
    }
    assert errors == LengthErrors(c, trimmed);
    if StartsWith(trimmed, "Merge") && c.allowMergeCommits == Some(false) {
      errors := errors + [E_MERGE];
    }
  }

  class CommitValidator {
    var config: CommitConfig

    /** The rule list is always present once the object is built. */
    ghost predicate Valid()
      reads this
    {
      config.rules.Some?
    }

    /** `new CommitValidator(options)`: the defaults with the given keys overriding them. */
    constructor(options: CommitConfig)
      ensures Valid()
      ensures config == InitializeRules(Overlay(DEFAULT_COMMIT_CONFIG, options))
    {
      config := InitializeRules(Overlay(DEFAULT_COMMIT_CONFIG, options));
    }

    /** `addRule(rule)`: appends one rule; nothing else changes. */
    method AddRule(rule: CommitRule)
      modifies this
      ensures Valid()
      ensures config == WithRule(old(config), rule)
    {
      config := config.(rules := Some(config.rules.GetOr([]) + [rule]));
    }

    /** `updateConfig(newConfig)`: the given keys override the current ones. */
    method UpdateConfig(newConfig: CommitConfig)
      modifies this
      ensures Valid()
      ensures config == InitializeRules(Overlay(old(config), newConfig))
    {
      config := InitializeRules(Overlay(config, newConfig));
    }

    /** `getConfig()`: a copy of the current configuration. */
    function GetConfig(): (c: CommitConfig)
      reads this
      ensures c == config
    {
      config
    }

    /** `getTypeDescription()`. */
    function GetTypeDescription(): (r: string)
      reads this
      ensures StartsWith(r, TYPE_DESCRIPTION_HEAD)
      ensures forall i :: 0 <= i < |config.types.GetOr([])| ==> Includes(r, "  • " + config.types.GetOr([])[i])
    {
      TypeDescription(config.types.GetOr([]))
    }

    /** `validate(message)`; its loop over `this.config.rules` needs the
        rule list every constructor and update keeps present. */
    method Validate(message: string) returns (r: ValidationResult)
      requires Valid()
      ensures r == Validation(config, message)
    {
      var c := config;
      var trimmed := Trim(message);
      if message == [] || trimmed == [] {
        return ValidationResult(false, [E_EMPTY], []);
      }
      var errors := CheckCommon(c, trimmed);
      if !StartsWith(trimmed, "Merge") {
        r := CheckHeader(c, trimmed, errors);
        return;
      }
      TrimmedMerge(c, trimmed);
      return ValidationResult(errors == [], errors, []);
    }
  }
}
