// The helpers of the lavy CLI: comment removal, the dependency and project
// checks and the per-type configuration generator (packages/lavy/src/utils/index.ts).

module LavyUtils {
  import opened Wrappers
  import opened JsText
  import opened ConfigTypes
  import opened Templates

  // ---------------------------------------------------------------------
  // removeComment: `content.replace(/^#.*$/gm, '').trim()`

  /** The global multi-line replacement: from a line start, a `#` and the rest of
      its line (up to, not including, the line terminator) are removed.
      `lineStart` says whether the scan stands at the start of a line. */
  function BlankComments(s: string, lineStart: bool): (r: string)
    ensures |r| <= |s|
    ensures lineStart && s != [] && s[0] == '#' ==> |r| < |s|
    decreases |s|
  {
    if s == [] then []
    else if lineStart && s[0] == '#' then BlankComments(s[LineLength(s)..], false)
    else [s[0]] + BlankComments(s[1..], IsLineTerminator(s[0]))
  }

  /** `removeComment`: the comment lines blanked, then the text trimmed. */
  function RemoveComment(content: string): (r: string)
    ensures |r| <= |content|
    ensures r != [] ==> !IsSpace(r[0]) && !IsSpace(r[|r| - 1])
  {
    Trim(BlankComments(content, true))
  }

  /** Every line break of the input survives the blanking. */
  lemma {:induction false} BlankKeepsLineBreaks(s: string, lineStart: bool)
    ensures LineBreaks(BlankComments(s, lineStart)) == LineBreaks(s)
    decreases |s|
  {
    if s == [] {
    } else if lineStart && s[0] == '#' {
      var n := LineLength(s);
      BlankKeepsLineBreaks(s[n..], false);
      assert s == s[..n] + s[n..];
      LineBreaksAppend(s[..n], s[n..]);
      LineBreaksNone(s[..n]);
    } else {
      BlankKeepsLineBreaks(s[1..], IsLineTerminator(s[0]));
      LineBreaksAppend([s[0]], BlankComments(s[1..], IsLineTerminator(s[0])));
    }
  }

  /** Blanking leaves no line that starts with `#`. */
  lemma {:induction false} BlankLeavesNoComment(s: string, lineStart: bool)
    ensures NoCommentLine(BlankComments(s, lineStart), lineStart)
    decreases |s|
  {
    if s == [] {
    } else if lineStart && s[0] == '#' {
      var rest := s[LineLength(s)..];
      BlankLeavesNoComment(rest, false);
      var t := BlankComments(rest, false);
      if rest != [] {
        assert IsLineTerminator(rest[0]);
        assert t[0] == rest[0];
      }
    } else {
      var b := IsLineTerminator(s[0]);
      BlankLeavesNoComment(s[1..], b);
      assert BlankComments(s, lineStart) == [s[0]] + BlankComments(s[1..], b);
      ConsNoComment(s[0], BlankComments(s[1..], b), lineStart);
    }
  }

  /** A text without `#` passes the blanking unchanged. */
  lemma {:induction false} BlankWithoutHash(s: string, lineStart: bool)
    requires '#' !in s
    ensures BlankComments(s, lineStart) == s
    decreases |s|
  {
    if s != [] {
      assert s[0] in s;
      assert forall c :: c in s[1..] ==> c in s;
      BlankWithoutHash(s[1..], IsLineTerminator(s[0]));
    }
  }

  /** Without comments, removeComment only trims. */
  lemma RemoveCommentWithoutHash(content: string)
    requires '#' !in content
    ensures RemoveComment(content) == Trim(content)
  {
    BlankWithoutHash(content, true);
  }

  /** A line prefix that is no comment is kept as it is; after a non-empty
      one the scan no longer stands at a line start. */
  lemma {:induction false} BlankKeepsLine(m: string, rest: string, lineStart: bool)
    requires forall i :: 0 <= i < |m| ==> !IsLineTerminator(m[i])
    requires lineStart && m != [] ==> m[0] != '#'
    ensures BlankComments(m + rest, lineStart) == m + BlankComments(rest, lineStart && m == [])
    decreases |m|
  {
    if m != [] {
      var s := m + rest;
      assert s[0] == m[0] && s[1..] == m[1..] + rest;
      assert !IsLineTerminator(m[0]);
      assert BlankComments(s, lineStart) == [m[0]] + BlankComments(m[1..] + rest, false);
      BlankKeepsLine(m[1..], rest, false);
      var x := BlankComments(rest, false);
      assert [m[0]] + (m[1..] + x) == m + x;
      assert BlankComments(m + rest, lineStart) == m + x;
    } else {
      assert m + rest == rest;
      assert m + BlankComments(rest, lineStart) == BlankComments(rest, lineStart);
    }
  }

  /** A line that does not start with `#` passes, with its terminator, and the
      next line is scanned from its start. */
  lemma BlankPassesLine(m: string, t: char, rest: string, lineStart: bool)
    requires forall i :: 0 <= i < |m| ==> !IsLineTerminator(m[i])
    requires IsLineTerminator(t)
    requires lineStart && m != [] ==> m[0] != '#'
    ensures BlankComments(m + [t] + rest, lineStart) == m + [t] + BlankComments(rest, true)
  {
    BlankKeepsLine(m, [t] + rest, lineStart);
    assert m + [t] + rest == m + ([t] + rest);
    assert ([t] + rest)[1..] == rest;
  }

  /** A last line that does not start with `#` passes unchanged. */
  lemma BlankLastLine(m: string, lineStart: bool)
    requires forall i :: 0 <= i < |m| ==> !IsLineTerminator(m[i])
    requires lineStart && m != [] ==> m[0] != '#'
    ensures BlankComments(m, lineStart) == m
  {
    BlankKeepsLine(m, [], lineStart);
    assert m + [] == m;
  }

  /** A `#` line loses its text and keeps its terminator. */
  lemma BlankCommentLine(c: string, t: char, rest: string)
    requires forall i :: 0 <= i < |c| ==> !IsLineTerminator(c[i])
    requires IsLineTerminator(t)
    ensures BlankComments("#" + c + [t] + rest, true) == [t] + BlankComments(rest, true)
  {
    var s := "#" + c + [t] + rest;
    var n := 1 + |c|;
    assert forall i :: 1 <= i < n ==> s[i] == c[i - 1];
    assert s[n] == t;
    assert LineLength(s) == n;
    assert s[n..] == [t] + rest;
    assert ([t] + rest)[1..] == rest;
  }

  /** A last line that starts with `#` disappears. */
  lemma BlankLastCommentLine(c: string)
    requires forall i :: 0 <= i < |c| ==> !IsLineTerminator(c[i])
    ensures BlankComments("#" + c, true) == []
  {
    var s := "#" + c;
    assert forall i :: 0 <= i < |s| ==> !IsLineTerminator(s[i]) by {
      forall i | 0 <= i < |s| ensures !IsLineTerminator(s[i]) {
        if i > 0 { assert s[i] == c[i - 1]; }
      }
    }
    var n := LineLength(s);
    assert n == |s|;
    assert s[n..] == [];
  }

  // ---------------------------------------------------------------------
  // checkDependencies

  /** A semantic version `major.minor.patch` (pre-release tags are not modelled). */
  datatype Version = Version(major: nat, minor: nat, patch: nat)

  /** `semver.gte(a, b)` on release versions: lexicographic order. */
  predicate VersionAtLeast(a: Version, b: Version) {
    a.major > b.major
    || (a.major == b.major && (a.minor > b.minor || (a.minor == b.minor && a.patch >= b.patch)))
  }

  const MIN_NODE: Version := Version(18, 0, 0)

  const NODE_CONFLICT := "Node.js version must be >= 18.0.0"
  const YARN_CONFLICT := "Yarn is being used but yarn.lock is missing"
  const BIOME_VUE_CONFLICT := "Biome is not fully compatible with Vue"
  const TSCONFIG_CONFLICT := "TypeScript is selected but tsconfig.json is missing"

  datatype DependencyOptions = DependencyOptions(linter: string, language: string, framework: string, style: string)

  /** `process.env.npm_execpath?.includes('yarn')`. */
  predicate RunsUnderYarn(npmExecpath: Option<string>) {
    npmExecpath.Some? && Includes(npmExecpath.value, "yarn")
  }

  /** The conflicts are a subsequence of the four messages, in this order; each
      appears exactly when its condition holds. `existing` is the set of file
      names in the working directory. */
  method CheckDependencies(o: DependencyOptions, nodeVersion: Version, npmExecpath: Option<string>, existing: set<string>)
    returns (hasConflicts: bool, conflicts: seq<string>)
    ensures hasConflicts <==> conflicts != []
    ensures conflicts == (if VersionAtLeast(nodeVersion, MIN_NODE) then [] else [NODE_CONFLICT])
                         + (if RunsUnderYarn(npmExecpath) && "yarn.lock" !in existing then [YARN_CONFLICT] else [])
                         + (if o.linter == "Biome" && o.framework == "Vue" then [BIOME_VUE_CONFLICT] else [])
                         + (if o.language == "Typescript" && "tsconfig.json" !in existing then [TSCONFIG_CONFLICT] else [])
    ensures NODE_CONFLICT in conflicts <==> !VersionAtLeast(nodeVersion, MIN_NODE)
    ensures YARN_CONFLICT in conflicts <==> RunsUnderYarn(npmExecpath) && "yarn.lock" !in existing
    ensures BIOME_VUE_CONFLICT in conflicts <==> o.linter == "Biome" && o.framework == "Vue"
    ensures TSCONFIG_CONFLICT in conflicts <==> o.language == "Typescript" && "tsconfig.json" !in existing
    ensures |conflicts| == (if VersionAtLeast(nodeVersion, MIN_NODE) then 0 else 1)
                         + (if RunsUnderYarn(npmExecpath) && "yarn.lock" !in existing then 1 else 0)
                         + (if o.linter == "Biome" && o.framework == "Vue" then 1 else 0)
                         + (if o.language == "Typescript" && "tsconfig.json" !in existing then 1 else 0)
  {
    conflicts := [];
    if !VersionAtLeast(nodeVersion, MIN_NODE) {
      conflicts := conflicts + [NODE_CONFLICT];
    }
    var packageManager := if RunsUnderYarn(npmExecpath) then "yarn" else "npm";
    if packageManager == "yarn" && "yarn.lock" !in existing {
      conflicts := conflicts + [YARN_CONFLICT];
    }
    if o.linter == "Biome" && o.framework == "Vue" {
      conflicts := conflicts + [BIOME_VUE_CONFLICT];
    }
    if o.language == "Typescript" && "tsconfig.json" !in existing {
      conflicts := conflicts + [TSCONFIG_CONFLICT];
    }
    hasConflicts := |conflicts| > 0;
  }

  // ---------------------------------------------------------------------
  // validateConfig and checkProjectHealth

  /** One warning `prefix + name` per name missing from `existing`, in list order. */
  function MissingWarnings(prefix: string, names: seq<string>, existing: set<string>): (w: seq<string>)
    ensures |w| <= |names|
    ensures forall i :: 0 <= i < |w| ==> StartsWith(w[i], prefix)
  {
    if names == [] then []
    else
      var last := names[|names| - 1];
      MissingWarnings(prefix, names[..|names| - 1], existing) + (if last in existing then [] else [prefix + last])
  }

  /** A warning names a missing entry, and every missing entry has one. */
  lemma {:induction false} MissingWarningsFor(prefix: string, names: seq<string>, existing: set<string>, name: string)
    ensures prefix + name in MissingWarnings(prefix, names, existing) <==> name in names && name !in existing
  {
    if names != [] {
      var init := names[..|names| - 1];
      var last := names[|names| - 1];
      MissingWarningsFor(prefix, init, existing, name);
      assert names == init + [last];
      if prefix + name == prefix + last {
        assert name == (prefix + name)[|prefix|..] == (prefix + last)[|prefix|..] == last;
      }
    }
  }

  /** There is no warning exactly when every listed entry exists. */
  lemma {:induction false} MissingWarningsEmpty(prefix: string, names: seq<string>, existing: set<string>)
    ensures MissingWarnings(prefix, names, existing) == [] <==> forall n :: n in names ==> n in existing
  {
    if names != [] {
      var init := names[..|names| - 1];
      MissingWarningsEmpty(prefix, init, existing);
      assert names == init + [names[|names| - 1]];
    }
  }

  /** The `for … of` loop that checks each name with `existsSync`. */
  method CollectMissing(prefix: string, names: seq<string>, existing: set<string>) returns (warnings: seq<string>)
    ensures warnings == MissingWarnings(prefix, names, existing)
  {
    warnings := [];
    for i := 0 to |names|
      invariant warnings == MissingWarnings(prefix, names[..i], existing)
    {
      assert names[..i + 1][..i] == names[..i];
      if names[i] !in existing {
        warnings := warnings + [prefix + names[i]];
      }
    }
    assert names[..|names|] == names;
  }

  const REQUIRED_FILES: seq<string> := ["package.json", ".gitignore", ".editorconfig"]
  const MISSING_FILE := "Missing required file: "
  const MISSING_SCRIPTS := "Missing scripts in package.json"
  const NO_DEPENDENCIES := "No dependencies found in package.json"
  const PACKAGE_JSON_ERROR := "Error reading package.json"

  /** The package.json part of validateConfig. Reading a property of `null`
      throws, and the throw becomes the read error. */
  function PackageJsonWarnings(f: PackageJsonFile): seq<string> {
    if !f.Parsed? || f.json.Null? || f.json.Undefined? then [PACKAGE_JSON_ERROR]
    else
      (if Truthy(Get(f.json, "scripts").value) then [] else [MISSING_SCRIPTS])
      + (if Truthy(Get(f.json, "dependencies").value) || Truthy(Get(f.json, "devDependencies").value)
         then [] else [NO_DEPENDENCIES])
  }

  /** A well-formed package.json: an object (or other non-null value) with scripts
      and at least one dependency section. */
  predicate HealthyPackageJson(f: PackageJsonFile) {
    && f.Parsed? && !f.json.Null? && !f.json.Undefined?
    && Truthy(Get(f.json, "scripts").value)
    && (Truthy(Get(f.json, "dependencies").value) || Truthy(Get(f.json, "devDependencies").value))
  }

  /** `existing` holds the file names of the project root; `packageJson` is what
      reading and parsing its package.json gives. */
  method ValidateConfig(existing: set<string>, packageJson: PackageJsonFile) returns (isValid: bool, warnings: seq<string>)
    requires "package.json" in existing <==> !packageJson.NoPackageJson?
    ensures isValid <==> warnings == []
    ensures warnings == MissingWarnings(MISSING_FILE, REQUIRED_FILES, existing) + PackageJsonWarnings(packageJson)
  {
    warnings := CollectMissing(MISSING_FILE, REQUIRED_FILES, existing);
    match packageJson {
      case Parsed(json) =>
        var scripts := Get(json, "scripts");
        if scripts.None? {
          warnings := warnings + [PACKAGE_JSON_ERROR];
        } else {
          if !Truthy(scripts.value) {
            warnings := warnings + [MISSING_SCRIPTS];
          }
          if !Truthy(Get(json, "dependencies").value) && !Truthy(Get(json, "devDependencies").value) {
            warnings := warnings + [NO_DEPENDENCIES];
          }
        }
      case _ =>
        warnings := warnings + [PACKAGE_JSON_ERROR];
    }
    isValid := |warnings| == 0;
  }

  /** validateConfig is satisfied exactly by a project that has all three files
      and a healthy package.json. */
  lemma ValidateConfigValidIff(existing: set<string>, packageJson: PackageJsonFile)
    ensures MissingWarnings(MISSING_FILE, REQUIRED_FILES, existing) + PackageJsonWarnings(packageJson) == []
        <==> (forall n :: n in REQUIRED_FILES ==> n in existing) && HealthyPackageJson(packageJson)
  {
    MissingWarningsEmpty(MISSING_FILE, REQUIRED_FILES, existing);
  }

  /** A missing file is reported by name. */
  lemma ValidateConfigReportsMissing(existing: set<string>, packageJson: PackageJsonFile, file: string)
    ensures MISSING_FILE + file in MissingWarnings(MISSING_FILE, REQUIRED_FILES, existing) + PackageJsonWarnings(packageJson)
        <==> file in REQUIRED_FILES && file !in existing
  {
    MissingWarningsFor(MISSING_FILE, REQUIRED_FILES, existing, file);
    var w := PackageJsonWarnings(packageJson);
    var m := MISSING_FILE + file;
    assert m[0] == 'M' && m[8] == 'r';
    assert forall x :: x in w ==> x == PACKAGE_JSON_ERROR || x == MISSING_SCRIPTS || x == NO_DEPENDENCIES;
    assert m != PACKAGE_JSON_ERROR by { assert PACKAGE_JSON_ERROR[0] == 'E'; }
    assert m != NO_DEPENDENCIES by { assert NO_DEPENDENCIES[0] == 'N'; }
    assert m != MISSING_SCRIPTS by { assert MISSING_SCRIPTS[8] == 's'; }
    assert m !in w;
  }

  /** A source file the glob found: its name and, when reading succeeds, its text. */
  datatype SourceFile = SourceFile(name: string, content: Option<string>)

  const REQUIRED_DIRS: seq<string> := ["src", "tests"]
  const MISSING_DIR := "Missing required directory: "
  const CONSOLE_LOG := "console.log"
  const DEBUGGER := "debugger"
  const QUALITY_ERROR := "Error checking code quality"
  const NO_GIT := "Git repository not initialized"

  function FileWarnings(name: string, content: string): seq<string> {
    (if Includes(content, CONSOLE_LOG) then ["Found console.log in " + name] else [])
    + (if Includes(content, DEBUGGER) then ["Found debugger statement in " + name] else [])
  }

  /** The scan of the source files: the first unreadable file ends it with the
      quality error. */
  function ScanWarnings(files: seq<SourceFile>): (w: seq<string>)
    ensures |w| <= 2 * |files|
    ensures w == [] ==> forall i :: 0 <= i < |files| ==> files[i].content.Some?
  {
    if files == [] then []
    else if files[0].content.None? then [QUALITY_ERROR]
    else FileWarnings(files[0].name, files[0].content.value) + ScanWarnings(files[1..])
  }

  /** A clean source: readable, with neither a console.log nor a debugger in it. */
  predicate CleanSource(f: SourceFile) {
    f.content.Some? && !Includes(f.content.value, CONSOLE_LOG) && !Includes(f.content.value, DEBUGGER)
  }

  lemma {:induction false} ScanWarningsEmpty(files: seq<SourceFile>)
    ensures ScanWarnings(files) == [] <==> forall i :: 0 <= i < |files| ==> CleanSource(files[i])
  {
    if files != [] {
      ScanWarningsEmpty(files[1..]);
      assert forall i :: 1 <= i < |files| ==> files[i] == files[1..][i - 1];
    }
  }

  /** The scan from file `i` on, unfolded once. */
  lemma ScanStep(files: seq<SourceFile>, i: nat)
    requires i < |files|
    ensures files[i].content.None? ==> ScanWarnings(files[i..]) == [QUALITY_ERROR]
    ensures files[i].content.Some? ==>
      ScanWarnings(files[i..]) == FileWarnings(files[i].name, files[i].content.value) + ScanWarnings(files[i + 1..])
  {
    assert files[i..][0] == files[i];
    assert files[i..][1..] == files[i + 1..];
  }

  /** The two checks made on one readable file. */
  method CheckFile(name: string, content: string) returns (warnings: seq<string>)
    ensures warnings == FileWarnings(name, content)
  {
    warnings := [];
    if Includes(content, CONSOLE_LOG) {
      warnings := warnings + ["Found console.log in " + name];
    }
    if Includes(content, DEBUGGER) {
      warnings := warnings + ["Found debugger statement in " + name];
    }
  }

  /** The loop over the globbed files; a read that throws leaves the loop for the catch. */
  method ScanSources(files: seq<SourceFile>) returns (warnings: seq<string>)
    ensures warnings == ScanWarnings(files)
  {
    warnings := [];
    var i := 0;
    while i < |files|
      invariant 0 <= i <= |files|
      invariant warnings + ScanWarnings(files[i..]) == ScanWarnings(files)
    {
      ScanStep(files, i);
      var content := files[i].content;
      if content.None? {
        warnings := warnings + [QUALITY_ERROR];
        return;
      }
      var found := CheckFile(files[i].name, content.value);
      warnings := warnings + found;
      i := i + 1;
    }
    assert files[i..] == [];
  }

  /** `existing` holds the names in the project root; `sources` is the glob's
      result (`None` when the glob fails). The `fix` flag of the source is unused. */
  method CheckProjectHealth(existing: set<string>, sources: Option<seq<SourceFile>>) returns (isHealthy: bool, warnings: seq<string>)
    ensures isHealthy <==> warnings == []
    ensures warnings == MissingWarnings(MISSING_DIR, REQUIRED_DIRS, existing)
                        + (if sources.None? then [QUALITY_ERROR] else ScanWarnings(sources.value))
                        + (if ".git" in existing then [] else [NO_GIT])
  {
    warnings := CollectMissing(MISSING_DIR, REQUIRED_DIRS, existing);
    if sources.None? {
      warnings := warnings + [QUALITY_ERROR];
    } else {
      var found := ScanSources(sources.value);
      warnings := warnings + found;
    }
    if ".git" !in existing {
      warnings := warnings + [NO_GIT];
    }
    isHealthy := |warnings| == 0;
  }

  /** A project is healthy exactly when both directories and `.git` exist and
      every source file is readable and clean. */
  lemma CheckProjectHealthIff(existing: set<string>, sources: Option<seq<SourceFile>>)
    ensures MissingWarnings(MISSING_DIR, REQUIRED_DIRS, existing)
            + (if sources.None? then [QUALITY_ERROR] else ScanWarnings(sources.value))
            + (if ".git" in existing then [] else [NO_GIT]) == []
        <==> "src" in existing && "tests" in existing && ".git" in existing
             && sources.Some? && forall i :: 0 <= i < |sources.value| ==> CleanSource(sources.value[i])
  {
    MissingWarningsEmpty(MISSING_DIR, REQUIRED_DIRS, existing);
    if sources.Some? {
      ScanWarningsEmpty(sources.value);
    }
  }

  // ---------------------------------------------------------------------
  // The ESLint path of generateConfig's `eslint` case

  /** `v?.toLowerCase() || ''`. */
  function PathSegment(v: Option<string>): string {
    if v.None? then "" else Lower(v.value)
  }

  /** The package path, case by case: the language segment is left out only for
      'Javascript', the framework segment only for 'None'. */
  function EslintPath(language: Option<string>, framework: Option<string>): (p: string)
    ensures StartsWith(p, "lavy")
    ensures |p| > 4 ==> p[4] == '/'
  {
    var withLanguage := language != Some("Javascript");
    var withFramework := framework != Some("None");
    if withLanguage && withFramework then "lavy/" + PathSegment(language) + "/" + PathSegment(framework)
    else if withLanguage then "lavy/" + PathSegment(language)
    else if withFramework then "lavy/" + PathSegment(framework)
    else "lavy"
  }

  /** getLavy: pushes the segments and joins them; the result is the suffix after 'lavy'. */
  method GetLavy(language: Option<string>, framework: Option<string>) returns (suffix: string)
    ensures "lavy" + suffix == EslintPath(language, framework)
  {
    var withLanguage := language != Some("Javascript");
    var withFramework := framework != Some("None");
    var pathName: seq<string> := [];
    if withLanguage {
      pathName := pathName + [PathSegment(language)];
    }
    if withFramework {
      pathName := pathName + [PathSegment(framework)];
    }
    suffix := if |pathName| > 0 then "/" + Join(pathName, "/") else "";
    if withLanguage && withFramework {
      var a, b := PathSegment(language), PathSegment(framework);
      assert pathName == [a, b];
      JoinTwo(a, b, "/");
      assert "lavy" + suffix == "lavy/" + a + "/" + b;
    } else if withLanguage || withFramework {
      assert |pathName| == 1;
      JoinOne(pathName[0], "/");
      assert "lavy" + suffix == "lavy/" + pathName[0];
    }
  }

  /** The bare package is chosen exactly for plain JavaScript without a framework. */
  lemma EslintPathBare(language: Option<string>, framework: Option<string>)
    ensures EslintPath(language, framework) == "lavy" <==> language == Some("Javascript") && framework == Some("None")
  {
    var p := EslintPath(language, framework);
    if language != Some("Javascript") || framework != Some("None") {
      assert |p| > 4;
    }
  }

  /** TypeScript with React leads to the lower-cased `lavy/typescript/react`. */
  lemma EslintPathTypescriptReact()
    ensures EslintPath(Some("Typescript"), Some("React")) == "lavy/typescript/react"
  {
    LowerTypescript();
    LowerReact();
  }

  lemma LowerTypescript()
    ensures Lower("Typescript") == "typescript"
  {
    var l := Lower("Typescript");
    assert l[0] == LowerChar('T') == 't';
    assert l[1..] == "Typescript"[1..];
  }

  lemma LowerReact()
    ensures Lower("React") == "react"
  {
    var l := Lower("React");
    assert l[0] == LowerChar('R') == 'r';
    assert l[1..] == "React"[1..];
  }

  // ---------------------------------------------------------------------
  // generateConfig

  /** How a template is turned into the written file. */
  datatype Transform = Verbatim | FillEslintPath(path: string) | FillStylelintPath

  /** One template copied to a destination below the working directory. */
  datatype Copy = Copy(template: string, dest: string, transform: Transform)

  const ESLINT_MARKER := "{{ eslintPath }}"
  const STYLELINT_MARKER := "{{ stylelintPath }}"

  /** The text written for a template's text. */
  function Apply(t: Transform, text: string): string {
    match t
    case Verbatim => text
    case FillEslintPath(path) => ReplaceFirst(text, ESLINT_MARKER, "'" + path + "'")
    case FillStylelintPath => ReplaceFirst(text, STYLELINT_MARKER, "'stylelint-config-lavy'")
  }

  /** The ESLint marker, at its first occurrence, becomes the quoted package path. */
  lemma ApplyEslintPath(a: string, b: string, path: string)
    requires forall j: nat :: j < |a| ==> !OccursAt(a + ESLINT_MARKER + b, ESLINT_MARKER, j)
    ensures Apply(FillEslintPath(path), a + ESLINT_MARKER + b) == a + "'" + path + "'" + b
  {
    var quoted := "'" + path + "'";
    ReplaceFirstAt(a, ESLINT_MARKER, b, quoted);
    assert Apply(FillEslintPath(path), a + ESLINT_MARKER + b) == a + quoted + b;
    assert a + quoted + b == a + "'" + path + "'" + b;
  }

  datatype GenerateConfigOptions = GenerateConfigOptions(
    language: Option<string>,
    framework: Option<string>,
    style: Option<string>,
    linter: Option<string>,
    platform: Option<string>)

  const CONFIG_TYPES: seq<string> :=
    ["biome", "eslint", "prettier", "editorconfig", "gitignore", "typescript", "stylelint", "vscode", "ci"]

  /** The destinations of a list of copies, in order. */
  function Dests(copies: seq<Copy>): seq<string> {
    if copies == [] then [] else [copies[0].dest] + Dests(copies[1..])
  }

  /** The copies a configuration type asks for, or the error it throws. */
  function GenerateConfig(configType: string, o: GenerateConfigOptions): (r: Result<seq<Copy>, string>)
    ensures r.Err? <==> configType !in CONFIG_TYPES
    ensures r.Err? ==> r.error == "Unknown config type: " + configType
    ensures r.Ok? && configType == "vscode" ==> |r.value| == 2
    ensures r.Ok? && configType == "ci" ==>
              |r.value| == (if o.platform == Some("GitHub Actions") || o.platform == Some("GitLab CI") then 1 else 0)
    ensures r.Ok? && configType != "vscode" && configType != "ci" ==> |r.value| == 1
    ensures r.Ok? ==> forall c :: c in r.value ==> (c.transform.FillEslintPath? <==> configType == "eslint")
    ensures r.Ok? ==> forall c :: c in r.value ==> (c.transform.FillStylelintPath? <==> configType == "stylelint")
    ensures r.Ok? && configType == "eslint" ==>
              r.value[0].dest == ".eslintrc.js" && r.value[0].transform.path == EslintPath(o.language, o.framework)
    ensures r.Ok? && configType == "biome" ==> r.value[0].dest == "biome.json"
    ensures r.Ok? && configType == "prettier" ==> r.value[0].dest == ".prettierrc.js"
    ensures r.Ok? && configType == "editorconfig" ==> r.value[0].dest == ".editorconfig"
    ensures r.Ok? && configType == "gitignore" ==> r.value[0].dest == ".gitignore"
    ensures r.Ok? && configType == "typescript" ==> r.value[0].dest == "tsconfig.json"
    ensures r.Ok? && configType == "stylelint" ==> r.value[0].dest == ".stylelintrc.js"
    ensures r.Ok? && configType == "vscode" ==>
              r.value[0].dest == ".vscode/extensions.json" && r.value[1].dest == ".vscode/settings.json"
    ensures r.Ok? && configType == "ci" && o.platform == Some("GitHub Actions") ==> r.value[0].dest == ".github/workflows/ci.yml"
    ensures r.Ok? && configType == "ci" && o.platform == Some("GitLab CI") ==> r.value[0].dest == ".gitlab-ci.yml"
  {
    match configType
    case "biome" => Ok([Copy("biome.tpl", "biome.json", Verbatim)])
    case "eslint" => Ok([Copy("eslint.tpl", ".eslintrc.js", FillEslintPath(EslintPath(o.language, o.framework)))])
    case "prettier" => Ok([Copy("prettierrc.tpl", ".prettierrc.js", Verbatim)])
    case "editorconfig" => Ok([Copy("editorconfig.tpl", ".editorconfig", Verbatim)])
    case "gitignore" => Ok([Copy("gitignore.tpl", ".gitignore", Verbatim)])
    case "typescript" => Ok([Copy("tsconfig.tpl", "tsconfig.json", Verbatim)])
    case "stylelint" => Ok([Copy("stylelint.tpl", ".stylelintrc.js", FillStylelintPath)])
    case "vscode" =>
      Ok([Copy("extensions.tpl", ".vscode/extensions.json", Verbatim),
          Copy("settings.tpl", ".vscode/settings.json", Verbatim)])
    case "ci" =>
      if o.platform == Some("GitHub Actions") then Ok([Copy("github-actions.tpl", ".github/workflows/ci.yml", Verbatim)])
      else if o.platform == Some("GitLab CI") then Ok([Copy("gitlab-ci.tpl", ".gitlab-ci.yml", Verbatim)])
      else Ok([])
    case _ => Err("Unknown config type: " + configType)
  }

  /** No two configuration types write the same file. */
  lemma GenerateConfigDestsDisjoint(t1: string, t2: string, o: GenerateConfigOptions)
    requires t1 != t2
    ensures var r1 := GenerateConfig(t1, o); var r2 := GenerateConfig(t2, o);
      r1.Ok? && r2.Ok? ==> forall d :: d in Dests(r1.value) ==> d !in Dests(r2.value)
  {
    var r1 := GenerateConfig(t1, o);
    var r2 := GenerateConfig(t2, o);
    if r1.Ok? && r2.Ok? {
      forall d | d in Dests(r1.value) ensures d !in Dests(r2.value) {
        DestsOfType(t1, o, d);
        if d in Dests(r2.value) {
          DestsOfType(t2, o, d);
        }
      }
    }
  }

  /** Which configuration type a destination belongs to. */
  function TypeOfDest(d: string): string {
    if d == "biome.json" then "biome"
    else if d == ".eslintrc.js" then "eslint"
    else if d == ".prettierrc.js" then "prettier"
    else if d == ".editorconfig" then "editorconfig"
    else if d == ".gitignore" then "gitignore"
    else if d == "tsconfig.json" then "typescript"
    else if d == ".stylelintrc.js" then "stylelint"
    else if d == ".vscode/extensions.json" || d == ".vscode/settings.json" then "vscode"
    else "ci"
  }

  lemma DestsOfType(t: string, o: GenerateConfigOptions, d: string)
    requires GenerateConfig(t, o).Ok? && d in Dests(GenerateConfig(t, o).value)
    ensures TypeOfDest(d) == t
  {
  }
}
