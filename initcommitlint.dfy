/**
 * Setting up Git hooks and lint-staged (core/initCommitlint.ts): the
 * lint-staged pattern table, the dependency check, the commands the two
 * hooks run and the merge of the package.json scripts. `package.json` is
 * modelled by the parts of it these steps read.
 */
module InitCommitlint {
  import opened Wrappers
  import opened JsText
  import opened Records

  /** The parts of a parsed package.json that the hook setup reads and writes. */
  datatype PackageJson = PackageJson(
    dependencies: map<string, string>,
    devDependencies: map<string, string>,
    scripts: Option<Record<string>>)

  // ---------------------------------------------------------------------
  // generateLintStagedConfig

  const ESLINT_PRETTIER: seq<string> := ["eslint --fix", "prettier --write"]
  const STYLELINT_PRETTIER: seq<string> := ["stylelint --fix", "prettier --write"]
  const GENERAL_PATTERN: string := "*.{json,md,yml,yaml}"

  /** The patterns the language adds, in insertion order. */
  function LanguagePatterns(language: string): seq<string> {
    if language == "ts" || language == "typescript" then ["*.{ts,tsx}", "*.{js,jsx}"]
    else if language == "js" || language == "javascript" then ["*.{js,jsx}"]
    else []
  }

  /** The pattern the framework adds, if any. */
  function FrameworkPatterns(framework: string): seq<string> {
    if framework == "vue" then ["*.vue"]
    else if framework == "react" then ["*.{jsx,tsx}"]
    else if framework == "svelte" then ["*.svelte"]
    else if framework == "solid" then ["*.{jsx,tsx}"]
    else []
  }

  /** The pattern the style language adds, if any. */
  function StylePatterns(style: string): seq<string> {
    if style == "css" then ["*.css"]
    else if style == "scss" || style == "sass" then ["*.{scss,sass}"]
    else if style == "less" then ["*.less"]
    else if style == "stylus" then ["*.styl"]
    else if style == "tailwind" then ["*.{css,scss,less}"]
    else []
  }

  /** The keys of the generated table, in order. */
  function LintStagedPatterns(language: string, framework: string, style: string): seq<string> {
    LanguagePatterns(language) + FrameworkPatterns(framework) + StylePatterns(style) + [GENERAL_PATTERN]
  }

  /** The commands run on files matching one of the patterns above. */
  function CommandsFor(pattern: string): seq<string> {
    if pattern == GENERAL_PATTERN then ["prettier --write"]
    else if pattern in ["*.css", "*.{scss,sass}", "*.less", "*.styl", "*.{css,scss,less}"] then STYLELINT_PRETTIER
    else ESLINT_PRETTIER
  }

  /** The patterns of one axis go into `config` in order, each with its commands. */
  ghost predicate Extends(config: Record<seq<string>>, r: Record<seq<string>>, patterns: seq<string>) {
    && r.Valid()
    && r.order == config.order + patterns
    && (forall k :: k in patterns ==> r.Get(k) == Some(CommandsFor(k)))
    && (forall k :: k !in patterns ==> r.Get(k) == config.Get(k))
  }

  /** Adding no pattern extends a table by nothing. */
  lemma ExtendsNothing(config: Record<seq<string>>)
    requires config.Valid()
    ensures Extends(config, config, [])
  {}

  /** Assigning one more new pattern, with its commands, extends the table by it. */
  lemma ExtendsPut(config: Record<seq<string>>, r: Record<seq<string>>, patterns: seq<string>, k: string)
    requires Extends(config, r, patterns) && k !in r.values
    ensures Extends(config, r.Put(k, CommandsFor(k)), patterns + [k])
  {
    var r' := r.Put(k, CommandsFor(k));
    forall j | j in patterns + [k] ensures r'.Get(j) == Some(CommandsFor(j)) {
      if j != k { assert j in patterns; }
    }
  }

  /** An ESLint pattern of the language or framework axes gets eslint and prettier. */
  lemma EslintCommands(k: string)
    requires k in ["*.{ts,tsx}", "*.{js,jsx}", "*.vue", "*.{jsx,tsx}", "*.svelte"]
    ensures CommandsFor(k) == ESLINT_PRETTIER
  {}

  /** A pattern of the style axis gets stylelint and prettier. */
  lemma StyleCommands(k: string)
    requires k in ["*.css", "*.{scss,sass}", "*.less", "*.styl", "*.{css,scss,less}"]
    ensures CommandsFor(k) == STYLELINT_PRETTIER
  {}

  /** Assigning a single new pattern. */
  lemma ExtendsOne(config: Record<seq<string>>, k: string)
    requires config.Valid() && k !in config.values
    ensures Extends(config, config.Put(k, CommandsFor(k)), [k])
  {
    ExtendsNothing(config);
    ExtendsPut(config, config, [], k);
    assert [] + [k] == [k];
  }

  method AddLanguagePatterns(config: Record<seq<string>>, language: string) returns (r: Record<seq<string>>)
    requires config.Valid() && forall k :: k in LanguagePatterns(language) ==> k !in config.values
    ensures Extends(config, r, LanguagePatterns(language))
  {
    r := config;
    ExtendsNothing(config);
    if language == "ts" || language == "typescript" {
      var ts, js := "*.{ts,tsx}", "*.{js,jsx}";
      assert LanguagePatterns(language) == [ts, js];
      EslintCommands(ts);
      EslintCommands(js);
      ExtendsOne(config, ts);
      r := r.Put(ts, ESLINT_PRETTIER);
      ExtendsPut(config, r, [ts], js);
      r := r.Put(js, ESLINT_PRETTIER);
      assert [ts] + [js] == [ts, js];
    } else if language == "js" || language == "javascript" {
      var js := "*.{js,jsx}";
      assert LanguagePatterns(language) == [js];
      EslintCommands(js);
      ExtendsOne(config, js);
      r := r.Put(js, ESLINT_PRETTIER);
    }
  }

  method AddFrameworkPatterns(config: Record<seq<string>>, framework: string) returns (r: Record<seq<string>>)
    requires config.Valid() && forall k :: k in FrameworkPatterns(framework) ==> k !in config.values
    ensures Extends(config, r, FrameworkPatterns(framework))
  {
    r := config;
    ExtendsNothing(config);
    var k: string;
    if framework == "vue" {
      k := "*.vue";
    } else if framework == "react" {
      k := "*.{jsx,tsx}";
    } else if framework == "svelte" {
      k := "*.svelte";
    } else if framework == "solid" {
      k := "*.{jsx,tsx}";
    } else {
      return;
    }
    assert FrameworkPatterns(framework) == [k];
    EslintCommands(k);
    ExtendsOne(config, k);
    r := r.Put(k, ESLINT_PRETTIER);
  }

  method AddStylePatterns(config: Record<seq<string>>, style: string) returns (r: Record<seq<string>>)
    requires config.Valid() && forall k :: k in StylePatterns(style) ==> k !in config.values
    ensures Extends(config, r, StylePatterns(style))
  {
    r := config;
    ExtendsNothing(config);
    var k: string;
    if style == "css" {
      k := "*.css";
    } else if style == "scss" || style == "sass" {
      k := "*.{scss,sass}";
    } else if style == "less" {
      k := "*.less";
    } else if style == "stylus" {
      k := "*.styl";
    } else if style == "tailwind" {
      k := "*.{css,scss,less}";
    } else {
      return;
    }
    assert StylePatterns(style) == [k];
    StyleCommands(k);
    ExtendsOne(config, k);
    r := r.Put(k, STYLELINT_PRETTIER);
  }

  /** No pattern belongs to two axes. */
  lemma AxesDisjoint(language: string, framework: string, style: string)
    ensures forall k :: k in LanguagePatterns(language) ==> k !in FrameworkPatterns(framework) + StylePatterns(style) + [GENERAL_PATTERN]
    ensures forall k :: k in FrameworkPatterns(framework) ==> k !in StylePatterns(style) + [GENERAL_PATTERN]
    ensures GENERAL_PATTERN !in StylePatterns(style)
  {}

  /** `generateLintStagedConfig({ language, framework, style })`: the table is
      filled key by key; `language`, `framework` and `style` are whatever
      strings the caller passed (an absent one matches no case). */
  method GenerateLintStagedConfig(language: string, framework: string, style: string)
    returns (config: Record<seq<string>>)
    ensures config.Valid()
    ensures config.order == LintStagedPatterns(language, framework, style)
    ensures forall k :: k in config.order ==> config.Get(k) == Some(CommandsFor(k))
    ensures forall k :: k !in config.order ==> config.Get(k) == None
  {
    var lp, fp, sp := LanguagePatterns(language), FrameworkPatterns(framework), StylePatterns(style);
    AxesDisjoint(language, framework, style);
    var empty: Record<seq<string>> := Empty();
    var withLanguage := AddLanguagePatterns(empty, language);
    assert withLanguage.order == lp;
    var withFramework := AddFrameworkPatterns(withLanguage, framework);
    ExtendsChain(empty, withLanguage, withFramework, lp, fp);
    assert withFramework.order == lp + fp;
    var withStyle := AddStylePatterns(withFramework, style);
    ExtendsChain(empty, withFramework, withStyle, lp + fp, sp);
    assert GENERAL_PATTERN !in withStyle.order;
    ExtendsPut(empty, withStyle, lp + fp + sp, GENERAL_PATTERN);
    assert CommandsFor(GENERAL_PATTERN) == ["prettier --write"];
    config := withStyle.Put(GENERAL_PATTERN, ["prettier --write"]);
    assert Extends(empty, config, LintStagedPatterns(language, framework, style));
  }

  /** Two extensions by disjoint pattern lists make one. */
  lemma ExtendsChain(a: Record<seq<string>>, b: Record<seq<string>>, c: Record<seq<string>>, p: seq<string>, q: seq<string>)
    requires Extends(a, b, p) && Extends(b, c, q)
    requires forall k :: k in p ==> k !in q
    ensures Extends(a, c, p + q)
  {
    forall k | k in p + q ensures c.Get(k) == Some(CommandsFor(k)) {
      if k !in q { assert k in p; }
    }
  }

  /**
   * The pattern table: the general pattern is always there with prettier
   * only; TypeScript adds the ts and js patterns, JavaScript only the js
   * one; react and solid add the same pattern; a value no case names adds
   * nothing for its axis.
   */
  lemma LintStagedTable(language: string, framework: string, style: string)
    ensures var ps := LintStagedPatterns(language, framework, style);
      && GENERAL_PATTERN in ps && CommandsFor(GENERAL_PATTERN) == ["prettier --write"]
      && ((language == "ts" || language == "typescript") ==> "*.{ts,tsx}" in ps && "*.{js,jsx}" in ps)
      && ((language == "js" || language == "javascript") ==> "*.{js,jsx}" in ps && "*.{ts,tsx}" !in ps)
      && LintStagedPatterns(language, "react", style) == LintStagedPatterns(language, "solid", style)
      && ((framework == "react" || framework == "solid") ==> "*.{jsx,tsx}" in ps)
      && (framework == "vue" ==> "*.vue" in ps)
      && (framework == "svelte" ==> "*.svelte" in ps)
  {
    TsOnlyFromLanguage(framework, style);
    var ps := LintStagedPatterns(language, framework, style);
    assert ps[|ps| - 1] == GENERAL_PATTERN;
  }

  /** `*.{ts,tsx}` comes from the language axis only. */
  lemma TsOnlyFromLanguage(framework: string, style: string)
    ensures "*.{ts,tsx}" !in FrameworkPatterns(framework) + StylePatterns(style) + [GENERAL_PATTERN]
  {
    var t := "*.{ts,tsx}";
    assert t[2] == '{' && t[3] == 't';
    assert t != GENERAL_PATTERN;
  }

  /** A language, framework or style no case names contributes no key. */
  lemma UnknownValuesAddNothing(language: string, framework: string, style: string)
    ensures language !in {"ts", "typescript", "js", "javascript"} ==> LanguagePatterns(language) == []
    ensures framework !in {"vue", "react", "svelte", "solid"} ==> FrameworkPatterns(framework) == []
    ensures style !in {"css", "scss", "sass", "less", "stylus", "tailwind"} ==> StylePatterns(style) == []
    ensures |LintStagedPatterns(language, framework, style)| <= 5
  {}

  // ---------------------------------------------------------------------
  // checkDependencies

  const REQUIRED_DEPS: seq<string> := ["husky", "lint-staged"]

  /** `{ ...dependencies, ...devDependencies }`: a dev dependency wins. */
  function AllDeps(pkg: PackageJson): (all: map<string, string>)
    ensures forall d :: d in all <==> d in pkg.dependencies || d in pkg.devDependencies
    ensures forall d :: d in pkg.devDependencies ==> all[d] == pkg.devDependencies[d]
    ensures forall d :: d in pkg.dependencies && d !in pkg.devDependencies ==> all[d] == pkg.dependencies[d]
  {
    pkg.dependencies + pkg.devDependencies
  }

  /** `!!allDeps[dep]`: listed with a non-empty version. */
  predicate HasDep(pkg: PackageJson, dep: string) {
    var all := AllDeps(pkg);
    dep in all && all[dep] != ""
  }

  /** `required.filter(dep => !allDeps[dep])`. */
  function MissingFrom(required: seq<string>, pkg: PackageJson): (missing: seq<string>)
    ensures forall d :: d in missing <==> d in required && !HasDep(pkg, d)
    ensures |missing| <= |required|
  {
    if required == [] then []
    else (if HasDep(pkg, required[0]) then [] else [required[0]]) + MissingFrom(required[1..], pkg)
  }

  function MissingDeps(pkg: PackageJson): (m: seq<string>)
    ensures forall d :: d in m <==> (d == "husky" || d == "lint-staged") && !HasDep(pkg, d)
    ensures |m| <= 2
  {
    MissingFrom(REQUIRED_DEPS, pkg)
  }

  /** The missing dependencies are husky then lint-staged, each only when absent. */
  lemma MissingDepsInOrder(pkg: PackageJson)
    ensures MissingDeps(pkg) ==
      (if HasDep(pkg, "husky") then [] else ["husky"]) + (if HasDep(pkg, "lint-staged") then [] else ["lint-staged"])
  {
    var rest := REQUIRED_DEPS[1..];
    assert rest == ["lint-staged"] && rest[1..] == [];
    assert MissingFrom(rest[1..], pkg) == [];
    assert MissingFrom(rest, pkg) == (if HasDep(pkg, "lint-staged") then [] else ["lint-staged"]) + [];
  }

  /** `checkDependencies()` on the package.json of the working directory
      (None when there is none): the error it throws, if any. */
  function CheckDependencies(pkg: Option<PackageJson>): (err: Option<string>)
    ensures err.None? <==> pkg.Some? && HasDep(pkg.value, "husky") && HasDep(pkg.value, "lint-staged")
    ensures err.Some? && pkg.Some? ==> forall d :: d in MissingDeps(pkg.value) ==> Includes(err.value, d)
  {
    match pkg
    case None => Some("未找到 package.json 文件")
    case Some(p) =>
      var missing := MissingDeps(p);
      if |missing| > 0 then
        assert missing[0] in missing;
        var joined := Join(missing, ", ");
        assert forall d :: d in missing ==> Includes("缺少必要的依赖: " + joined + "。请先运行 lavy init 安装依赖。", d) by {
          forall d | d in missing
            ensures Includes("缺少必要的依赖: " + joined + "。请先运行 lavy init 安装依赖。", d)
          {
            var i :| 0 <= i < |missing| && missing[i] == d;
            JoinIncludes(missing, ", ", i);
            IncludesInfix("缺少必要的依赖: ", joined, "。请先运行 lavy init 安装依赖。", d);
          }
        }
        Some("缺少必要的依赖: " + joined + "。请先运行 lavy init 安装依赖。")
      else
        assert "husky" in REQUIRED_DEPS && "lint-staged" in REQUIRED_DEPS;
        None
  }

  // ---------------------------------------------------------------------
  // the hook commands

  /** The command a hook runs: bare when package.json is in the current
      directory, otherwise after changing into `workDir`. */
  function HookCommand(hasPackageJson: bool, workDir: string, command: string): (r: string)
    ensures hasPackageJson ==> r == command
    ensures !hasPackageJson ==> r == "cd \"" + workDir + "\" && " + command
  {
    if hasPackageJson then command else "cd \"" + workDir + "\" && " + command
  }

  const PRE_COMMIT_COMMAND: string := "npx --no-install lint-staged"
  const COMMIT_MSG_COMMAND: string := "npx --no-install lavy commit --edit \"$1\""

  /** What `initCommitlint` sets up once its checks pass. */
  datatype HookSetup = HookSetup(workDir: string, preCommit: string, commitMsg: string)

  /**
   * The decisions of `initCommitlint`: the dependency check, the Git root
   * (None when `git rev-parse` fails), the working directory and the two
   * hook files. `pkg` is the package.json of the current directory.
   */
  function InitCommitlintSetup(pkg: Option<PackageJson>, gitRoot: Option<string>, currentDir: string): (r: Result<HookSetup, string>)
    ensures r.Ok? <==> CheckDependencies(pkg).None? && gitRoot.Some? && gitRoot.value != []
  {
    match CheckDependencies(pkg)
    case Some(e) => Err(e)
    case None =>
      if gitRoot.None? || gitRoot.value == [] then Err("当前目录不是 Git 仓库。请先运行 git init 初始化仓库。")
      else
        var root := gitRoot.value;
        var hasPackageJson := pkg.Some?;
        var workDir := if hasPackageJson then currentDir else root;
        Ok(HookSetup(workDir,
          HookCommand(hasPackageJson, workDir, PRE_COMMIT_COMMAND) + "\n",
          HookCommand(hasPackageJson, workDir, COMMIT_MSG_COMMAND) + "\n"))
  }

  /** The dependency check already needs package.json in the current
      directory, so once it passes the hooks always run the bare commands
      there: the `cd "<workDir>"` form is never written. */
  lemma HooksAreBare(pkg: Option<PackageJson>, gitRoot: Option<string>, currentDir: string)
    requires InitCommitlintSetup(pkg, gitRoot, currentDir).Ok?
    ensures var s := InitCommitlintSetup(pkg, gitRoot, currentDir).value;
      && s.workDir == currentDir
      && s.preCommit == PRE_COMMIT_COMMAND + "\n"
      && s.commitMsg == COMMIT_MSG_COMMAND + "\n"
  {}

  // ---------------------------------------------------------------------
  // updatePackageScripts

  const NEW_SCRIPT_NAMES: seq<string> :=
    ["prepare", "lint", "lint:fix", "format", "format:check", "type-check", "commit:check", "commit:config"]

  const NEW_SCRIPTS: Record<string> := Record(NEW_SCRIPT_NAMES, map[
    "prepare" := "husky install",
    "lint" := "eslint . --ext .js,.jsx,.ts,.tsx",
    "lint:fix" := "eslint . --ext .js,.jsx,.ts,.tsx --fix",
    "format" := "prettier --write .",
    "format:check" := "prettier --check .",
    "type-check" := "tsc --noEmit",
    "commit:check" := "lavy commit --test",
    "commit:config" := "lavy commit --config"])

  lemma NewScriptsValid()
    ensures NEW_SCRIPTS.Valid()
  {
    NewScriptNamesDistinct();
    NewScriptKeys();
  }

  lemma NewScriptNamesDistinct()
    ensures forall i, j :: 0 <= i < j < |NEW_SCRIPT_NAMES| ==> NEW_SCRIPT_NAMES[i] != NEW_SCRIPT_NAMES[j]
  {}

  lemma NewScriptKeys()
    ensures forall k :: k in NEW_SCRIPTS.values <==> k in NEW_SCRIPT_NAMES
  {}

  /** A package.json with `add` spread over its scripts object, or over `{}`
      when it has none. */
  function ScriptsUpdated(p: PackageJson, add: Record<string>): PackageJson
    requires p.scripts.Some? ==> p.scripts.value.Valid()
    requires add.Valid()
  {
    p.(scripts := Some(Spread(p.scripts.GetOr(Empty()), add)))
  }

  /** Only `scripts` changes: the added scripts override, every other script is
      kept, and the old key order is a prefix of the new one. */
  lemma ScriptsUpdatedSpec(p: PackageJson, add: Record<string>)
    requires p.scripts.Some? ==> p.scripts.value.Valid()
    requires add.Valid()
    ensures var q := ScriptsUpdated(p, add);
      && q.scripts.Some? && q == p.(scripts := q.scripts)
    ensures
      var before := p.scripts.GetOr(Empty());
      var after := ScriptsUpdated(p, add).scripts.value;
      && after.Valid()
      && (forall k :: k in add.order ==> after.Get(k) == add.Get(k))
      && (forall k :: k !in add.order ==> after.Get(k) == before.Get(k))
      && |before.order| <= |after.order| && after.order[..|before.order|] == before.order
  {
  }

  /** `updatePackageScripts(workDir)` on the package.json there (None when it
      is missing): the package.json written back, if any. */
  method UpdatePackageScripts(pkg: Option<PackageJson>) returns (written: Option<PackageJson>)
    requires pkg.Some? && pkg.value.scripts.Some? ==> pkg.value.scripts.value.Valid()
    ensures pkg.None? ==> written.None?
    ensures pkg.Some? ==> NEW_SCRIPTS.Valid() && written == Some(ScriptsUpdated(pkg.value, NEW_SCRIPTS))
  {
    if pkg.None? {
      return None;
    }
    var packageJson := pkg.value;
    if packageJson.scripts.None? {
      packageJson := packageJson.(scripts := Some(Empty()));
    }
    NewScriptsValid();
    var merged := Spread(packageJson.scripts.value, NEW_SCRIPTS);
    packageJson := packageJson.(scripts := Some(merged));
    return Some(packageJson);
  }

}
