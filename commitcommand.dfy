/**
 * The `lavy commit` command (commands/commit.ts): which action runs for
 * the given options, how `--init` adds a commit section to an existing
 * `lavy.config.js`, the exit status of the message checks, and the
 * counting of the built-in self-test.
 */
module CommitCommand {
  import opened Wrappers
  import opened JsText
  import opened ConfigTypes
  import opened Config
  import opened CommitValidation
  import opened ConfigLoader

  // ---------------------------------------------------------------------
  // runCommitCommand

  /** The command-line options; an absent flag is false, an absent `-m` is None. */
  datatype CommitOptions = CommitOptions(message: Option<string>, test: bool, init: bool, config: bool, edit: bool)

  datatype CommitAction =
    | InitConfigAction
    | ShowConfigAction
    | RunTestsAction
    | ValidateCommitFileAction
    | ValidateMessageAction(msg: string)
    | ValidateCurrentCommitAction

  /** `String(message)`: an absent message becomes the text "undefined". */
  function JsStringOf(message: Option<string>): (s: string)
    ensures message.None? ==> s == "undefined"
    ensures message.Some? ==> s == message.value
  {
    match message
    case None => "undefined"
    case Some(m) => m
  }

  /** `runCommitCommand(options)`: the first of init, config, test, edit and
      message that is set decides the single action that runs. */
  method RunCommitCommand(options: CommitOptions) returns (action: CommitAction)
    ensures options.init ==> action == InitConfigAction
    ensures !options.init && options.config ==> action == ShowConfigAction
    ensures !options.init && !options.config && options.test ==> action == RunTestsAction
    ensures !options.init && !options.config && !options.test && options.edit ==> action == ValidateCommitFileAction
    ensures action.ValidateMessageAction? ==> action.msg != [] && action.msg == JsStringOf(options.message)
    ensures !options.init && !options.config && !options.test && !options.edit ==>
      action == (if JsStringOf(options.message) != [] then ValidateMessageAction(JsStringOf(options.message))
                 else ValidateCurrentCommitAction)
    ensures options.message.None? && !options.init && !options.config && !options.test && !options.edit ==>
      action == ValidateMessageAction("undefined")
    ensures action == ValidateCurrentCommitAction <==>
      !options.init && !options.config && !options.test && !options.edit && options.message == Some("")
  {
    var msg := JsStringOf(options.message);
    if options.init {
      return InitConfigAction;
    }
    if options.config {
      return ShowConfigAction;
    }
    if options.test {
      return RunTestsAction;
    }
    if options.edit {
      return ValidateCommitFileAction;
    }
    if msg != [] {
      return ValidateMessageAction(msg);
    }
    return ValidateCurrentCommitAction;
  }

  // ---------------------------------------------------------------------
  // initConfig

  /** `JSON.stringify(xs, null, 4)` for an array of strings that need no escaping. */
  function JsonStrings(xs: seq<string>): string {
    if xs == [] then "[]" else "[\n" + JsonItems(xs) + "\n]"
  }

  function JsonItems(xs: seq<string>): string
    requires xs != []
  {
    "    \"" + xs[0] + "\"" + (if |xs| == 1 then "" else ",\n" + JsonItems(xs[1..]))
  }

  /** `${b}` for a boolean. */
  function BoolText(b: bool): string {
    if b then "true" else "false"
  }

  /** The first line of the commit section both templates write. */
  const COMMIT_OPEN: string := "  commit: {\n"

  /** The commit section, filled in from the given types and defaults
      (the templates use DEFAULT_COMMIT_TYPES and DEFAULT_COMMIT_CONFIG). */
  function CommitBlock(types: seq<string>, defaults: CommitConfig): string {
    COMMIT_OPEN + CommitFields(types, defaults)
  }

  /** The rest of the commit section, up to its closing brace. */
  function CommitFields(types: seq<string>, defaults: CommitConfig): string {
    "    // 自定义验证规则\n"
    + "    rules: [\n"
    + "      // 示例：不允许以感叹号结尾\n"
    + "      // {\n"
    + "      //   pattern: /^[a-z]+: .*[^!]$/,\n"
    + "      //   message: '提交信息不能以感叹号结尾',\n"
    + "      //   examples: ['feat: 新功能', 'fix: 修复问题']\n"
    + "      // }\n"
    + "    ],\n"
    + "    \n"
    + "    // 允许的提交类型\n"
    + "    types: " + JsonStrings(types) + ",\n"
    + "    \n"
    + "    // 最大长度限制\n"
    + "    maxLength: " + IntToString(defaults.maxLength.GetOr(0)) + ",\n"
    + "    \n"
    + "    // 是否允许合并提交\n"
    + "    allowMergeCommits: " + BoolText(defaults.allowMergeCommits.GetOr(false)) + ",\n"
    + "    \n"
    + "    // 自定义正则表达式模式\n"
    + "    customPatterns: [\n"
    + "      // 示例：/^[a-z]+: .*[^!]$/\n"
    + "    ]\n"
    + "  }"
  }

  const CONFIG_HEAD: string := "import { defineConfig } from 'lavy'\n\nexport default defineConfig({\n"

  const CONFIG_TAIL: string := "\n})\n"

  /** `createCommitConfig()`: a configuration file holding only the commit
      section, opened by the `defineConfig` import and default export and
      closed by the end of the call. */
  function CreateCommitConfig(types: seq<string>, defaults: CommitConfig): (t: string)
    ensures StartsWith(t, CONFIG_HEAD)
    ensures EndsWith(t, CONFIG_TAIL)
  {
    var block := CommitBlock(types, defaults);
    Framed(CONFIG_HEAD, block, CONFIG_TAIL);
    CONFIG_HEAD + block + CONFIG_TAIL
  }

  predicate EndsWith(s: string, suffix: string) {
    |suffix| <= |s| && s[|s| - |suffix|..] == suffix
  }

  /** A text framed by a head and a tail starts with the head and ends with the tail. */
  lemma Framed(head: string, body: string, tail: string)
    ensures StartsWith(head + body + tail, head)
    ensures EndsWith(head + body + tail, tail)
  {
    var t := head + body + tail;
    assert t[..|head|] == head;
    assert t[|t| - |tail|..] == tail;
  }

  /**
   * Whether all of `t` matches `\s*}\s*\)\s*;?\s*$` when the match has got
   * to `stage`: 0 still needs `}`, 1 still needs `)`, 2 may still take `;`,
   * 3 takes only white space.
   */
  predicate ClosingFrom(t: string, stage: nat)
    decreases |t|
  {
    if t == [] then stage >= 2
    else if IsSpace(t[0]) then ClosingFrom(t[1..], stage)
    else if stage == 0 && t[0] == '}' then ClosingFrom(t[1..], 1)
    else if stage == 1 && t[0] == ')' then ClosingFrom(t[1..], 2)
    else if stage == 2 && t[0] == ';' then ClosingFrom(t[1..], 3)
    else false
  }

  /** Whether all of `t` matches `\s*}\s*\)\s*;?\s*$`. */
  predicate IsClosingSuffix(t: string) {
    ClosingFrom(t, 0)
  }

  predicate AllSpace(w: string) {
    forall i :: 0 <= i < |w| ==> IsSpace(w[i])
  }

  lemma {:induction false} SpaceSkipped(w: string, t: string, stage: nat)
    requires AllSpace(w)
    ensures ClosingFrom(w + t, stage) == ClosingFrom(t, stage)
    decreases |w|
  {
    if w != [] {
      assert (w + t)[0] == w[0] && IsSpace(w[0]) && (w + t)[1..] == w[1..] + t;
      SpaceSkipped(w[1..], t, stage);
      assert ClosingFrom(w + t, stage) == ClosingFrom(w[1..] + t, stage);
    } else {
      assert w + t == t;
    }
  }

  /** Every text of the form the pattern describes is recognised. */
  lemma ClosingSuffixAccepts(w1: string, w2: string, w3: string, semi: string, w4: string)
    requires AllSpace(w1) && AllSpace(w2) && AllSpace(w3) && AllSpace(w4)
    requires semi == "" || semi == ";"
    ensures IsClosingSuffix(w1 + "}" + w2 + ")" + w3 + semi + w4)
  {
    var tail3 := w3 + (semi + w4);
    var tail2 := w2 + (")" + tail3);
    assert w1 + "}" + w2 + ")" + w3 + semi + w4 == w1 + ("}" + tail2);
    SpaceSkipped(w1, "}" + tail2, 0);
    TakeOne("}" + tail2, 0);
    SpaceSkipped(w2, ")" + tail3, 1);
    TakeOne(")" + tail3, 1);
    ClosingTailAccepts(w3, semi, w4);
  }

  /** One `}` at stage 0 or one `)` at stage 1 moves the match on. */
  lemma TakeOne(t: string, stage: nat)
    requires stage <= 1 && t != [] && t[0] == (if stage == 0 then '}' else ')')
    ensures ClosingFrom(t, stage) == ClosingFrom(t[1..], stage + 1)
  {
  }

  /** After the `)`, white space, an optional `;` and white space are accepted. */
  lemma ClosingTailAccepts(w3: string, semi: string, w4: string)
    requires AllSpace(w3) && AllSpace(w4)
    requires semi == "" || semi == ";"
    ensures ClosingFrom(w3 + (semi + w4), 2)
  {
    SpaceSkipped(w3, semi + w4, 2);
    SpaceSkipped(w4, "", 3);
    SpaceSkipped(w4, "", 2);
    assert w4 + "" == w4;
    if semi == ";" {
      assert (semi + w4)[0] == ';' && (semi + w4)[1..] == w4;
    } else {
      assert semi + w4 == w4;
    }
  }

  /** The leftmost position at or after `from` where the closing suffix starts. */
  function ClosingSuffixStart(s: string, from: nat): (r: Option<nat>)
    requires from <= |s|
    ensures r.Some? ==> from <= r.value <= |s| && IsClosingSuffix(s[r.value..])
    ensures r.Some? ==> forall j :: from <= j < r.value ==> !IsClosingSuffix(s[j..])
    ensures r.None? ==> forall j :: from <= j <= |s| ==> !IsClosingSuffix(s[j..])
    decreases |s| - from
  {
    if IsClosingSuffix(s[from..]) then Some(from)
    else if from == |s| then None
    else ClosingSuffixStart(s, from + 1)
  }

  /** `content.replace(/(\s*}\s*\)\s*;?\s*$)/, ",\n" + block + "\n$1")`: the
      block goes in front of the leftmost closing suffix; without one the
      text is unchanged. */
  function InsertCommitBlock(content: string, block: string): (r: string)
    ensures r == content || |r| == |content| + |block| + 3
    ensures ClosingSuffixStart(content, 0).Some? ==>
      var i := ClosingSuffixStart(content, 0).value;
      && |r| == |content| + |block| + 3
      && IsClosingSuffix(content[i..])
      && r[..i] == content[..i]
      && r[i..i + 2 + |block| + 1] == ",\n" + block + "\n"
      && r[i + 2 + |block| + 1..] == content[i..]
  {
    match ClosingSuffixStart(content, 0)
    case None => content
    case Some(i) => content[..i] + ",\n" + block + "\n" + content[i..]
  }

  /** `initConfig()` on the current `lavy.config.js` (None when it does not
      exist): the text written, or None when the file is left alone. */
  method InitConfig(file: Option<string>) returns (written: Option<string>)
    ensures file.None? ==> written == Some(CreateCommitConfig(DEFAULT_COMMIT_TYPES, DEFAULT_COMMIT_CONFIG))
    ensures file.Some? && Includes(file.value, "commit:") ==> written.None?
    ensures file.Some? && !Includes(file.value, "commit:") ==> written == Some(InsertCommitBlock(file.value, CommitBlock(DEFAULT_COMMIT_TYPES, DEFAULT_COMMIT_CONFIG)))
  {
    if file.Some? {
      var existingContent := file.value;
      if IncludesFrom(existingContent, "commit:") {
        return None;
      }
      var commitConfigContent := CommitBlock(DEFAULT_COMMIT_TYPES, DEFAULT_COMMIT_CONFIG);
      var updatedContent := InsertCommitBlock(existingContent, commitConfigContent);
      return Some(updatedContent);
    }
    return Some(CreateCommitConfig(DEFAULT_COMMIT_TYPES, DEFAULT_COMMIT_CONFIG));
  }

  lemma BlockHasCommitKey(a: string, block: string, b: string)
    requires StartsWith(block, COMMIT_OPEN)
    ensures Includes(a + block + b, "commit:")
  {
    assert block[2..9] == COMMIT_OPEN[2..9] == "commit:";
    assert (a + block + b)[|a| + 2..|a| + 9] == block[2..9];
    IncludesAt(a + block + b, "commit:", |a| + 2);
  }

  /** The inserted block goes in once, in front of the leftmost closing suffix,
      and leaves the text around it intact; the result then contains
      "commit:", so running `--init` again leaves the file alone. */
  lemma InsertedBlock(content: string, block: string)
    requires ClosingSuffixStart(content, 0).Some?
    requires StartsWith(block, COMMIT_OPEN)
    ensures var i := ClosingSuffixStart(content, 0).value;
      && InsertCommitBlock(content, block) == content[..i] + ",\n" + block + "\n" + content[i..]
      && IsClosingSuffix(content[i..])
      && (forall j :: 0 <= j < i ==> !IsClosingSuffix(content[j..]))
      && Includes(InsertCommitBlock(content, block), "commit:")
  {
    var i := ClosingSuffixStart(content, 0).value;
    BlockHasCommitKey(content[..i] + ",\n", block, "\n" + content[i..]);
    assert content[..i] + ",\n" + block + "\n" + content[i..]
      == (content[..i] + ",\n") + block + ("\n" + content[i..]);
  }

  /** The commit section starts with the `commit:` key. */
  lemma CommitBlockOpens(types: seq<string>, defaults: CommitConfig)
    ensures StartsWith(CommitBlock(types, defaults), COMMIT_OPEN)
  {
    var block := CommitBlock(types, defaults);
    assert block[..|COMMIT_OPEN|] == COMMIT_OPEN;
  }

  /** Without a closing suffix the file is written back unchanged. */
  lemma NoSuffixUnchanged(content: string, block: string)
    requires forall j :: 0 <= j <= |content| ==> !IsClosingSuffix(content[j..])
    ensures InsertCommitBlock(content, block) == content
  {}

  /** A freshly created file already has the commit section. */
  lemma CreatedConfigHasCommit(types: seq<string>, defaults: CommitConfig)
    ensures Includes(CreateCommitConfig(types, defaults), "commit:")
  {
    CommitBlockOpens(types, defaults);
    BlockHasCommitKey(CONFIG_HEAD, CommitBlock(types, defaults), CONFIG_TAIL);
  }

  /** A file ending in `})` or `});` gets the block; the result is a file that
      a second `--init` leaves alone. */
  lemma InitConfigSettles(body: string, w: string, types: seq<string>, defaults: CommitConfig)
    requires AllSpace(w)
    ensures ClosingSuffixStart(body + "})" + w, 0).Some?
    ensures Includes(InsertCommitBlock(body + "})" + w, CommitBlock(types, defaults)), "commit:")
  {
    var content := body + "})" + w;
    assert IsClosingSuffix(content[|body|..]) by {
      ClosingBraceParen(w);
      assert content[|body|..] == "})" + w;
    }
    SuffixFound(content, |body|);
    CommitBlockOpens(types, defaults);
    InsertedBlock(content, CommitBlock(types, defaults));
  }

  /** `})` followed by white space is a closing suffix. */
  lemma ClosingBraceParen(w: string)
    requires AllSpace(w)
    ensures IsClosingSuffix("})" + w)
  {
    ClosingSuffixAccepts("", "", "", "", w);
    assert "" + "}" + "" + ")" + "" + "" + w == "})" + w;
  }

  /** A closing suffix anywhere means the search finds one. */
  lemma SuffixFound(s: string, j: nat)
    requires j <= |s| && IsClosingSuffix(s[j..])
    ensures ClosingSuffixStart(s, 0).Some?
  {}

  // ---------------------------------------------------------------------
  // validateMessage, validateCommitFile, validateCurrentCommit

  /** The validator configuration the command builds from what loading gave. */
  function CommandConfig(outcome: LoadOutcome): (c: CommitConfig)
    ensures c.rules.Some?
    ensures !outcome.Loaded? ==> c == DEFAULT_COMMIT_CONFIG
  {
    OverlayIdempotent(DEFAULT_COMMIT_CONFIG, DEFAULT_COMMIT_CONFIG);
    InitializeRules(Overlay(DEFAULT_COMMIT_CONFIG, GetCommitConfig(outcome)))
  }

  /** `validateMessage(message)`: the process exits with status 1 exactly
      when the message has an error; warnings alone never fail it. */
  method ValidateMessage(outcome: LoadOutcome, message: string) returns (exitCode: int)
    ensures exitCode == 0 || exitCode == 1
    ensures exitCode == 1 <==> !Validation(CommandConfig(outcome), message).isValid
    ensures exitCode == 0 <==> Validation(CommandConfig(outcome), message).errors == []
  {
    var config := GetCommitConfig(outcome);
    var validator := new CommitValidator(config);
    var result := validator.Validate(message);
    if result.isValid {
      exitCode := 0;
    } else {
      exitCode := 1;
    }
  }

  /** `process.argv[process.argv.length - 1] || defaultPath`. */
  function CommitFilePath(argv: seq<string>, defaultPath: string): (p: string)
    ensures |argv| > 0 && argv[|argv| - 1] != [] ==> p == argv[|argv| - 1]
    ensures (|argv| == 0 || argv[|argv| - 1] == []) ==> p == defaultPath
  {
    if |argv| > 0 && argv[|argv| - 1] != [] then argv[|argv| - 1] else defaultPath
  }

  /** `validateCommitFile()`: `files` maps each existing path to its text and
      `defaultPath` is `.git/COMMIT_EDITMSG` under the working directory. */
  method ValidateCommitFile(argv: seq<string>, defaultPath: string, files: map<string, string>, outcome: LoadOutcome)
    returns (exitCode: int)
    ensures var path := CommitFilePath(argv, defaultPath);
      path == [] || path !in files ==> exitCode == 1
    ensures var path := CommitFilePath(argv, defaultPath);
      path != [] && path in files && Trim(files[path]) == [] ==> exitCode == 1
    ensures var path := CommitFilePath(argv, defaultPath);
      path != [] && path in files && Trim(files[path]) != [] ==>
        (exitCode == 1 <==> !Validation(CommandConfig(outcome), Trim(files[path])).isValid)
    ensures exitCode == 0 ==> Validation(CommandConfig(outcome), Trim(files[CommitFilePath(argv, defaultPath)])).isValid
  {
    var commitFile := CommitFilePath(argv, defaultPath);
    if commitFile == [] || commitFile !in files {
      return 1;
    }
    var commitMessage := Trim(files[commitFile]);
    if commitMessage == [] {
      return 1;
    }
    exitCode := ValidateMessage(outcome, commitMessage);
  }

  /** `validateCurrentCommit()` given the output of `git log -1 --pretty=%B`
      (None when running git fails). */
  method ValidateCurrentCommit(gitLog: Option<string>, outcome: LoadOutcome) returns (exitCode: int)
    ensures gitLog.None? ==> exitCode == 1
    ensures gitLog.Some? && Trim(gitLog.value) == [] ==> exitCode == 1
    ensures gitLog.Some? && Trim(gitLog.value) != [] ==>
      (exitCode == 1 <==> !Validation(CommandConfig(outcome), Trim(gitLog.value)).isValid)
  {
    if gitLog.None? {
      return 1;
    }
    var commitMsg := gitLog.value;
    if Trim(commitMsg) == [] {
      return 1;
    }
    exitCode := ValidateMessage(outcome, Trim(commitMsg));
  }

  /** The file a hook passes is validated as its trimmed text, which is the same
      as validating the untrimmed text. */
  lemma TrimmedFileSameVerdict(c: CommitConfig, text: string)
    ensures Validation(c, Trim(text)) == Validation(c, text)
  {
    TrimIdempotent(text);
  }

  // ---------------------------------------------------------------------
  // runTests

  datatype TestCase = TestCase(message: string, expected: bool)

  const LONG_MESSAGE: string :=
    "feat: 这是一个非常长的提交信息描述，超过了字符限制，这个描述确实太长了，应该会被拒绝，因为它超过了72个字符的限制，这是一个非常长的描述，需要更多字符"

  /** The self-test cases, in order. */
  const TEST_CASES: seq<TestCase> := [
    TestCase("feat: 添加新功能", true),
    TestCase("fix: 修复登录问题", true),
    TestCase("docs: 更新文档", true),
    TestCase("style: 格式化代码", true),
    TestCase("refactor: 重构代码", true),
    TestCase("perf: 性能优化", true),
    TestCase("test: 添加测试", true),
    TestCase("build: 构建配置", true),
    TestCase("ci: CI/CD 配置", true),
    TestCase("chore: 其他改动", true),
    TestCase("revert: 回滚提交", true),
    TestCase("Merge branch main", true),
    TestCase("update something", false),
    TestCase("Feat: 大写开头", false),
    TestCase(LONG_MESSAGE, false),
    TestCase("", false)]

  /** A case passes when the verdict is the one it expects. */
  predicate Passes(c: CommitConfig, t: TestCase) {
    Validation(c, t.message).isValid == t.expected
  }

  /** Which of `cases` pass under `c`. */
  function Outcomes(c: CommitConfig, cases: seq<TestCase>): (r: seq<bool>)
    ensures |r| == |cases|
    ensures forall i :: 0 <= i < |cases| ==> r[i] == Passes(c, cases[i])
  {
    seq(|cases|, i requires 0 <= i < |cases| => Passes(c, cases[i]))
  }

  /** How many of `bits` hold. */
  function CountTrue(bits: seq<bool>): nat {
    if bits == [] then 0
    else CountTrue(bits[..|bits| - 1]) + (if bits[|bits| - 1] then 1 else 0)
  }

  /** How many of `cases` pass under `c`. */
  function PassedCount(c: CommitConfig, cases: seq<TestCase>): nat {
    CountTrue(Outcomes(c, cases))
  }

  lemma {:induction false} CountTrueBounds(bits: seq<bool>)
    ensures CountTrue(bits) <= |bits|
    ensures CountTrue(bits) == |bits| <==> forall i :: 0 <= i < |bits| ==> bits[i]
  {
    if bits != [] {
      var init := bits[..|bits| - 1];
      CountTrueBounds(init);
      if CountTrue(bits) == |bits| {
        forall i | 0 <= i < |bits| ensures bits[i] {
          if i < |init| { assert bits[i] == init[i]; }
        }
      }
      if forall i :: 0 <= i < |bits| ==> bits[i] {
        forall i | 0 <= i < |init| ensures init[i] {
          assert init[i] == bits[i];
        }
      }
    }
  }

  /** At most every case passes, and all pass exactly when each verdict is the expected one. */
  lemma PassedCountBounds(c: CommitConfig, cases: seq<TestCase>)
    ensures PassedCount(c, cases) <= |cases|
    ensures PassedCount(c, cases) == |cases| <==> forall i :: 0 <= i < |cases| ==> Passes(c, cases[i])
  {
    CountTrueBounds(Outcomes(c, cases));
  }

  /** Counting one more case adds one exactly when it passes. */
  lemma CountTrueStep(bits: seq<bool>, i: nat)
    requires i < |bits|
    ensures CountTrue(bits[..i + 1]) == CountTrue(bits[..i]) + (if bits[i] then 1 else 0)
  {
    assert bits[..i + 1][..i] == bits[..i];
  }

  /** The counting loop of `runTests`. */
  method CountPassed(validator: CommitValidator, cases: seq<TestCase>) returns (passedTests: nat)
    requires validator.Valid()
    ensures passedTests == PassedCount(validator.config, cases)
  {
    ghost var outcomes := Outcomes(validator.config, cases);
    passedTests := 0;
    for i := 0 to |cases|
      invariant passedTests == CountTrue(outcomes[..i])
    {
      var result := validator.Validate(cases[i].message);
      var passed := result.isValid == cases[i].expected;
      assert passed == outcomes[i];
      CountTrueStep(outcomes, i);
      if passed {
        passedTests := passedTests + 1;
      }
    }
    assert outcomes[..|cases|] == outcomes;
  }

  /** `runTests()`: the number of passed cases out of the total. */
  method RunTests(outcome: LoadOutcome) returns (passedTests: nat, totalTests: nat)
    ensures totalTests == |TEST_CASES| == 16
    ensures passedTests == PassedCount(CommandConfig(outcome), TEST_CASES)
    ensures passedTests <= totalTests
  {
    var config := GetCommitConfig(outcome);
    var validator := new CommitValidator(config);
    totalTests := |TEST_CASES|;
    passedTests := CountPassed(validator, TEST_CASES);
    PassedCountBounds(validator.config, TEST_CASES);
  }
}
