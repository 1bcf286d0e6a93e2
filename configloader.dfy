/**
 * Loading the project configuration and detecting the configuration files
 * of other tools that clash with it (utils/config-loader.ts). The project
 * directory is modelled by the set of file names that exist in it.
 */
module ConfigLoader {
  import opened Wrappers
  import opened JsText
  import opened ConfigTypes
  import opened Config
  import opened CommitValidation

  // ---------------------------------------------------------------------
  // loadConfig / getCommitConfig

  /** What importing `lavy.config.js` gave: no file, an import that threw,
      or the exported configuration. `Loaded` holds a well-typed
      configuration only; a file whose loading throws later (a `null` rule,
      which makes the validation throw, or a `rules` value that cannot be
      spread into an array) reaches `loadConfig`'s catch and is modelled
      as `ImportFailed`, whose result is the same: the defaults. A loaded
      rule whose pattern is not a `RegExp` (only reported by the validation,
      then merged) cannot be expressed. */
  datatype LoadOutcome = NoConfigFile | ImportFailed | Loaded(user: LavyConfig)

  /** `loadConfig()`: the defaults unless the file loads, and then the merge
      of the user configuration over the defaults, whatever its validation said. */
  function LoadConfig(outcome: LoadOutcome): (c: LavyConfig)
    ensures c.commit.Some?
    ensures !outcome.Loaded? ==> c == GetDefaultConfig()
  {
    match outcome
    case NoConfigFile => GetDefaultConfig()
    case ImportFailed => GetDefaultConfig()
    case Loaded(user) =>
      // the validation report is only printed; a well-typed configuration never makes it throw
      TypedConfigValidation(user);
      MergeConfig(GetDefaultConfig(), user)
  }

  /** `getCommitConfig()`: the loaded commit section, or a copy of the default commit configuration. */
  function GetCommitConfig(outcome: LoadOutcome): (c: CommitConfig)
    ensures !outcome.Loaded? ==> c == DEFAULT_COMMIT_CONFIG
  {
    var config := LoadConfig(outcome);
    if config.commit.Some? then config.commit.value else DEFAULT_COMMIT_CONFIG
  }

  /** A loaded configuration replaces exactly the commit keys it gives: its
      rules and patterns, its types if given, its scalars if given. */
  lemma GetCommitConfigLoaded(user: LavyConfig)
    ensures var c := GetCommitConfig(Loaded(user));
      user.commit.None? ==> c == DEFAULT_COMMIT_CONFIG
    ensures user.commit.Some? ==>
      var c, uc := GetCommitConfig(Loaded(user)), user.commit.value;
      && c.rules == Some(uc.rules.GetOr([]))
      && c.customPatterns == Some(uc.customPatterns.GetOr([]))
      && c.types == Some(uc.types.GetOr(DEFAULT_COMMIT_TYPES))
      && c.maxLength == Some(uc.maxLength.GetOr(72))
      && c.allowMergeCommits == Some(uc.allowMergeCommits.GetOr(true))
  {
    if user.commit.Some? { MergeOverDefault(user); }
  }

  /** A configuration file that sets `types: []` replaces the default types
      with nothing, so every non-merge message that has a header is rejected
      with the unsupported-type error. */
  lemma EmptyTypesRejectEveryType(user: LavyConfig, message: string)
    requires user.commit.Some? && user.commit.value.types == Some([])
    requires Trim(message) != [] && !StartsWith(Trim(message), "Merge") && HeaderType(Trim(message)).Some?
    ensures var c := InitializeRules(Overlay(DEFAULT_COMMIT_CONFIG, GetCommitConfig(Loaded(user))));
      var r := Validation(c, message);
      !r.isValid && TypeError(HeaderType(Trim(message)).value, []) in r.errors
  {
    GetCommitConfigLoaded(user);
    var c := InitializeRules(Overlay(DEFAULT_COMMIT_CONFIG, GetCommitConfig(Loaded(user))));
    assert c.types == Some([]);
    ValidateUnsupportedType(c, message);
  }

  // ---------------------------------------------------------------------
  // detectConfigConflict

  /** The configuration file names looked for, in order, grouped by tool. */
  const LAVY_CANDIDATES: seq<string> := ["lavy.config.js", "lavy.config.ts", ".lavyrc.json", ".lavyrc.js", ".lavyrc.ts"]
  const ESLINT_CANDIDATES: seq<string> := [
    ".eslintrc", ".eslintrc.js", ".eslintrc.cjs", ".eslintrc.json", ".eslintrc.yaml", ".eslintrc.yml",
    "eslint.config.js", "eslint.config.cjs"]
  const PRETTIER_CANDIDATES: seq<string> := [
    ".prettierrc", ".prettierrc.js", ".prettierrc.cjs", ".prettierrc.json", ".prettierrc.yaml", ".prettierrc.yml",
    "prettier.config.js", "prettier.config.cjs"]
  const STYLELINT_CANDIDATES: seq<string> := [
    ".stylelintrc", ".stylelintrc.js", ".stylelintrc.cjs", ".stylelintrc.json", ".stylelintrc.yaml", ".stylelintrc.yml",
    "stylelint.config.js", "stylelint.config.cjs"]
  const BIOME_CANDIDATES: seq<string> := ["biome.json", "biome.jsonc"]
  const CANDIDATES: seq<string> :=
    LAVY_CANDIDATES + ESLINT_CANDIDATES + PRETTIER_CANDIDATES + STYLELINT_CANDIDATES + BIOME_CANDIDATES

  /** The two current lavy configuration files, which never count as conflicts. */
  predicate IsCanonical(file: string) {
    file == "lavy.config.js" || file == "lavy.config.ts"
  }

  datatype Family = LavyFiles | EslintFiles | PrettierFiles | StylelintFiles | BiomeFiles | OtherFiles

  /** The first tool name the file name contains, in the order lavy, eslint,
      prettier, stylelint, biome. */
  function FamilyOf(file: string): (f: Family)
    ensures f == LavyFiles <==> Includes(file, "lavy")
    ensures f == EslintFiles <==> !Includes(file, "lavy") && Includes(file, "eslint")
    ensures f == PrettierFiles <==>
      !Includes(file, "lavy") && !Includes(file, "eslint") && Includes(file, "prettier")
    ensures f == StylelintFiles <==>
      !Includes(file, "lavy") && !Includes(file, "eslint") && !Includes(file, "prettier")
      && Includes(file, "stylelint")
    ensures f == BiomeFiles <==>
      !Includes(file, "lavy") && !Includes(file, "eslint") && !Includes(file, "prettier")
      && !Includes(file, "stylelint") && Includes(file, "biome")
    ensures f == OtherFiles <==>
      !Includes(file, "lavy") && !Includes(file, "eslint") && !Includes(file, "prettier")
      && !Includes(file, "stylelint") && !Includes(file, "biome")
  {
    if IncludesFrom(file, "lavy") then LavyFiles
    else if IncludesFrom(file, "eslint") then EslintFiles
    else if IncludesFrom(file, "prettier") then PrettierFiles
    else if IncludesFrom(file, "stylelint") then StylelintFiles
    else if IncludesFrom(file, "biome") then BiomeFiles
    else OtherFiles
  }

  /** The conflict reported for an existing file, if any. */
  function ConflictsFor(file: string): (r: seq<string>)
    ensures r == [] <==> IsCanonical(file) && FamilyOf(file) == LavyFiles
    ensures |r| <= 1
  {
    match FamilyOf(file)
    case LavyFiles => if IsCanonical(file) then [] else ["发现旧的 lavy 配置文件: " + file]
    case EslintFiles => ["发现 ESLint 配置文件: " + file]
    case PrettierFiles => ["发现 Prettier 配置文件: " + file]
    case StylelintFiles => ["发现 Stylelint 配置文件: " + file]
    case BiomeFiles => ["发现 Biome 配置文件: " + file]
    case OtherFiles => ["发现其他配置文件: " + file]
  }

  datatype Categories = Categories(
    lavy: seq<string>, eslint: seq<string>, prettier: seq<string>,
    stylelint: seq<string>, biome: seq<string>, other: seq<string>)
  {
    function Of(f: Family): seq<string> {
      match f
      case LavyFiles => lavy
      case EslintFiles => eslint
      case PrettierFiles => prettier
      case StylelintFiles => stylelint
      case BiomeFiles => biome
      case OtherFiles => other
    }

    /** `categories[family].push(file)`. */
    function Add(f: Family, file: string): (r: Categories)
      ensures r.Of(f) == Of(f) + [file]
      ensures forall g :: g != f ==> r.Of(g) == Of(g)
    {
      match f
      case LavyFiles => this.(lavy := lavy + [file])
      case EslintFiles => this.(eslint := eslint + [file])
      case PrettierFiles => this.(prettier := prettier + [file])
      case StylelintFiles => this.(stylelint := stylelint + [file])
      case BiomeFiles => this.(biome := biome + [file])
      case OtherFiles => this.(other := other + [file])
    }

    function Total(): nat {
      |lavy| + |eslint| + |prettier| + |stylelint| + |biome| + |other|
    }
  }

  const NoCategories := Categories([], [], [], [], [], [])

  datatype ConflictInfo = ConflictInfo(
    hasConflict: bool,
    conflicts: seq<string>,
    existingFiles: seq<string>,
    categories: Categories,
    hasLavyConfig: bool)

  datatype Scan = Scan(conflicts: seq<string>, existingFiles: seq<string>, categories: Categories)

  /** What the detection loop has collected after looking at `files`. */
  function ScanFiles(files: seq<string>, existing: set<string>): (s: Scan)
    ensures |s.existingFiles| <= |files|
    ensures |s.conflicts| <= |s.existingFiles|
  {
    if files == [] then Scan([], [], NoCategories)
    else
      var prev := ScanFiles(files[..|files| - 1], existing);
      var f := files[|files| - 1];
      if f !in existing then prev
      else Scan(prev.conflicts + ConflictsFor(f), prev.existingFiles + [f], prev.categories.Add(FamilyOf(f), f))
  }

  /** One more name of the list, looked at by the detection loop. */
  lemma ScanFilesStep(files: seq<string>, i: nat, existing: set<string>)
    requires i < |files|
    ensures var prev := ScanFiles(files[..i], existing);
      ScanFiles(files[..i + 1], existing)
      == if files[i] !in existing then prev
         else Scan(prev.conflicts + ConflictsFor(files[i]), prev.existingFiles + [files[i]],
                   prev.categories.Add(FamilyOf(files[i]), files[i]))
  {
    assert files[..i + 1][..i] == files[..i];
  }

  /** `categories.lavy.some(file => file is lavy.config.js or lavy.config.ts)`. */
  predicate HasCanonical(files: seq<string>) {
    exists i :: 0 <= i < |files| && IsCanonical(files[i])
  }

  /** What `detectConfigConflict()` returns for a project holding the files `existing`. */
  function ConflictInfoOf(existing: set<string>): (info: ConflictInfo)
    ensures info.hasConflict <==> info.conflicts != []
    ensures |info.conflicts| <= |info.existingFiles| <= |CANDIDATES|
  {
    var s := ScanFiles(CANDIDATES, existing);
    ConflictInfo(s.conflicts != [], s.conflicts, s.existingFiles, s.categories, HasCanonical(s.categories.lavy))
  }

  /** `detectConfigConflict()`. */
  method DetectConfigConflict(existing: set<string>) returns (info: ConflictInfo)
    ensures info == ConflictInfoOf(existing)
  {
    var conflicts: seq<string> := [];
    var existingFiles: seq<string> := [];
    var categories := NoCategories;
    for i := 0 to |CANDIDATES|
      invariant Scan(conflicts, existingFiles, categories) == ScanFiles(CANDIDATES[..i], existing)
    {
      var file := CANDIDATES[i];
      ScanFilesStep(CANDIDATES, i, existing);
      if file in existing {
        existingFiles := existingFiles + [file];
        var family := FamilyOf(file);
        categories := categories.Add(family, file);
        conflicts := conflicts + ConflictsFor(file);
      }
    }
    assert CANDIDATES[..|CANDIDATES|] == CANDIDATES;
    var hasLavyConfig := AnyCanonical(categories.lavy);
    info := ConflictInfo(|conflicts| > 0, conflicts, existingFiles, categories, hasLavyConfig);
  }

  /** The `some` over the lavy category. */
  method AnyCanonical(files: seq<string>) returns (found: bool)
    ensures found <==> HasCanonical(files)
  {
    found := false;
    for j := 0 to |files|
      invariant found <==> HasCanonical(files[..j])
    {
      assert files[..j + 1][..j] == files[..j];
      if IsCanonical(files[j]) {
        found := true;
      }
    }
    assert files[..|files|] == files;
  }

  // Properties of the scan, for any list of names

  /** The listed files that exist, in list order. */
  function ExistingIn(files: seq<string>, existing: set<string>): seq<string> {
    if files == [] then []
    else (if files[0] in existing then [files[0]] else []) + ExistingIn(files[1..], existing)
  }

  lemma {:induction false} ExistingInSnoc(files: seq<string>, f: string, existing: set<string>)
    ensures ExistingIn(files + [f], existing) == ExistingIn(files, existing) + (if f in existing then [f] else [])
  {
    if files == [] {
      assert [f][1..] == [];
    } else {
      assert (files + [f])[1..] == files[1..] + [f];
      ExistingInSnoc(files[1..], f, existing);
    }
  }

  lemma {:induction false} ExistingInMembers(files: seq<string>, existing: set<string>)
    ensures forall f :: f in ExistingIn(files, existing) <==> f in files && f in existing
  {
    if files != [] {
      ExistingInMembers(files[1..], existing);
      assert files == [files[0]] + files[1..];
    }
  }

  /** The files found are the listed files that exist, in list order. */
  lemma {:induction false} ScanExisting(files: seq<string>, existing: set<string>)
    ensures ScanFiles(files, existing).existingFiles == ExistingIn(files, existing)
    ensures forall f :: f in ScanFiles(files, existing).existingFiles <==> f in files && f in existing
  {
    if files != [] {
      var init := files[..|files| - 1];
      ScanExisting(init, existing);
      assert files == init + [files[|files| - 1]];
      ExistingInSnoc(init, files[|files| - 1], existing);
    }
    ExistingInMembers(files, existing);
  }

  /** Each found file is in exactly one category, the one of its family. */
  lemma {:induction false} ScanPartition(files: seq<string>, existing: set<string>)
    ensures var s := ScanFiles(files, existing);
      && s.categories.Total() == |s.existingFiles|
      && (forall g, f :: f in s.categories.Of(g) ==> FamilyOf(f) == g)
      && (forall f :: f in s.existingFiles ==> f in s.categories.Of(FamilyOf(f)))
  {
    if files != [] {
      ScanPartition(files[..|files| - 1], existing);
      var f := files[|files| - 1];
      var prev := ScanFiles(files[..|files| - 1], existing);
      if f in existing {
        var c := prev.categories.Add(FamilyOf(f), f);
        assert c.Total() == prev.categories.Total() + 1 by {
          match FamilyOf(f)
          case LavyFiles =>
          case EslintFiles =>
          case PrettierFiles =>
          case StylelintFiles =>
          case BiomeFiles =>
          case OtherFiles =>
        }
      }
    }
  }

  /** How many of `files` are one of the two current lavy files. */
  function CanonicalCount(files: seq<string>): nat {
    if files == [] then 0
    else CanonicalCount(files[..|files| - 1]) + (if IsCanonical(files[|files| - 1]) then 1 else 0)
  }

  /** The two facts about conflicts, for one state of the scan. */
  predicate ConflictsAccount(conflicts: seq<string>, existingFiles: seq<string>) {
    (conflicts == [] <==> forall f :: f in existingFiles ==> IsCanonical(f) && FamilyOf(f) == LavyFiles)
    && |conflicts| + CanonicalCount(existingFiles) == |existingFiles|
  }

  /** Every found file except the two current lavy files yields one conflict. */
  lemma {:induction false} ScanConflicts(files: seq<string>, existing: set<string>)
    ensures var s := ScanFiles(files, existing);
      (s.conflicts == [] <==> forall f :: f in s.existingFiles ==> IsCanonical(f) && FamilyOf(f) == LavyFiles)
      && |s.conflicts| + CanonicalCount(s.existingFiles) == |s.existingFiles|
  {
    var s := ScanFiles(files, existing);
    assert ConflictsAccount(s.conflicts, s.existingFiles) by {
      if files != [] {
        var init := files[..|files| - 1];
        ScanConflicts(init, existing);
        var prev := ScanFiles(init, existing);
        var f := files[|files| - 1];
        if f in existing {
          ConflictsSnoc(prev.conflicts, prev.existingFiles, f);
        }
      }
    }
  }

  /** Finding one more file keeps the account of conflicts. */
  lemma ConflictsSnoc(conflicts: seq<string>, existingFiles: seq<string>, f: string)
    requires ConflictsAccount(conflicts, existingFiles)
    ensures ConflictsAccount(conflicts + ConflictsFor(f), existingFiles + [f])
  {
    var c := ConflictsFor(f);
    CanonicalAreLavy();
    assert |c| + (if IsCanonical(f) then 1 else 0) == 1;
    CanonicalCountSnoc(existingFiles, f);
    assert (forall g :: g in existingFiles + [f] ==> IsCanonical(g) && FamilyOf(g) == LavyFiles)
      <==> (forall g :: g in existingFiles ==> IsCanonical(g) && FamilyOf(g) == LavyFiles)
           && IsCanonical(f) && FamilyOf(f) == LavyFiles;
  }

  lemma CanonicalCountSnoc(files: seq<string>, f: string)
    ensures CanonicalCount(files + [f]) == CanonicalCount(files) + if IsCanonical(f) then 1 else 0
  {
    assert (files + [f])[..|files|] == files;
  }

  /** A file name that starts with a tool name, possibly after a dot, contains it. */
  predicate NamedAfter(file: string, name: string) {
    StartsWith(file, name) || (file != [] && file[0] == '.' && StartsWith(file[1..], name))
  }

  lemma NamedAfterIncludes(file: string, name: string)
    requires NamedAfter(file, name)
    ensures Includes(file, name)
  {
    if StartsWith(file, name) {
      IncludesAt(file, name, 0);
    } else {
      assert file[1..1 + |name|] == file[1..][..|name|];
      IncludesAt(file, name, 1);
    }
  }

  lemma LavyCandidatesNamed() ensures forall f :: f in LAVY_CANDIDATES ==> NamedAfter(f, "lavy") {}
  lemma EslintCandidatesNamed() ensures forall f :: f in ESLINT_CANDIDATES ==> NamedAfter(f, "eslint") {}
  lemma PrettierCandidatesNamed() ensures forall f :: f in PRETTIER_CANDIDATES ==> NamedAfter(f, "prettier") {}
  lemma StylelintCandidatesNamed() ensures forall f :: f in STYLELINT_CANDIDATES ==> NamedAfter(f, "stylelint") {}
  lemma BiomeCandidatesNamed() ensures forall f :: f in BIOME_CANDIDATES ==> NamedAfter(f, "biome") {}

  /** No candidate file falls into the "other" category. */
  lemma CandidatesHaveFamilies()
    ensures forall f :: f in CANDIDATES ==> FamilyOf(f) != OtherFiles
  {
    forall f | f in CANDIDATES ensures FamilyOf(f) != OtherFiles {
      if f in LAVY_CANDIDATES { LavyCandidatesNamed(); NamedAfterIncludes(f, "lavy"); }
      else if f in ESLINT_CANDIDATES { EslintCandidatesNamed(); NamedAfterIncludes(f, "eslint"); }
      else if f in PRETTIER_CANDIDATES { PrettierCandidatesNamed(); NamedAfterIncludes(f, "prettier"); }
      else if f in STYLELINT_CANDIDATES { StylelintCandidatesNamed(); NamedAfterIncludes(f, "stylelint"); }
      else { BiomeCandidatesNamed(); NamedAfterIncludes(f, "biome"); }
    }
  }

  lemma CanonicalAreLavy()
    ensures forall f :: IsCanonical(f) ==> FamilyOf(f) == LavyFiles
  {
    NamedAfterIncludes("lavy.config.js", "lavy");
    NamedAfterIncludes("lavy.config.ts", "lavy");
  }

  /** The scan of a list of names none of which is in the "other" family. */
  lemma ScanClassifies(files: seq<string>, existing: set<string>)
    requires forall f :: f in files ==> FamilyOf(f) != OtherFiles
    ensures var s := ScanFiles(files, existing);
      && (forall f :: f in s.existingFiles <==> f in files && f in existing)
      && s.categories.Total() == |s.existingFiles|
      && (forall g, f :: f in s.categories.Of(g) ==> FamilyOf(f) == g)
      && (forall f :: f in s.existingFiles ==> f in s.categories.Of(FamilyOf(f)))
      && s.categories.other == []
      && |s.conflicts| + CanonicalCount(s.existingFiles) == |s.existingFiles|
      && (s.conflicts == [] <==> forall f :: f in s.existingFiles ==> IsCanonical(f))
  {
    var s := ScanFiles(files, existing);
    ScanExisting(files, existing);
    ScanPartition(files, existing);
    assert s.categories.other == [];
    assert (s.conflicts == [] <==> forall f :: f in s.existingFiles ==> IsCanonical(f))
      && |s.conflicts| + CanonicalCount(s.existingFiles) == |s.existingFiles| by {
      ScanConflicts(files, existing);
      CanonicalAreLavy();
    }
  }

  // Properties of detectConfigConflict

  /**
   * The existing files are exactly the existing candidates; each is in
   * exactly one category, the one of its family, and never in "other";
   * there is a conflict exactly when some existing file is not one of the
   * two current lavy files, and at most one conflict per file.
   */
  lemma DetectionClassifies(existing: set<string>)
    ensures var info := ConflictInfoOf(existing);
      && info.existingFiles == ExistingIn(CANDIDATES, existing)
      && (forall f :: f in info.existingFiles <==> f in CANDIDATES && f in existing)
      && info.categories.Total() == |info.existingFiles|
      && (forall g, f :: f in info.categories.Of(g) ==> FamilyOf(f) == g)
      && (forall f :: f in info.existingFiles ==> f in info.categories.Of(FamilyOf(f)))
      && info.categories.other == []
      && |info.conflicts| + CanonicalCount(info.existingFiles) == |info.existingFiles|
      && (info.hasConflict <==> exists f :: f in info.existingFiles && !IsCanonical(f))
  {
    CandidatesHaveFamilies();
    ScanClassifies(CANDIDATES, existing);
    ScanExisting(CANDIDATES, existing);
  }

  /** A lavy file found by the scan is in the lavy category exactly when it is found. */
  lemma ScanHasCanonical(files: seq<string>, existing: set<string>)
    ensures HasCanonical(ScanFiles(files, existing).categories.lavy) <==>
      exists f :: f in files && f in existing && IsCanonical(f)
  {
    ScanExisting(files, existing);
    ScanPartition(files, existing);
    CanonicalAreLavy();
    var s := ScanFiles(files, existing);
    if HasCanonical(s.categories.lavy) {
      var i :| 0 <= i < |s.categories.lavy| && IsCanonical(s.categories.lavy[i]);
      assert s.categories.lavy[i] in s.categories.Of(LavyFiles);
    }
    if exists f :: f in files && f in existing && IsCanonical(f) {
      var f :| f in files && f in existing && IsCanonical(f);
      assert f in s.categories.Of(FamilyOf(f));
    }
  }

  /** hasLavyConfig holds exactly when lavy.config.js or lavy.config.ts exists. */
  lemma HasLavyConfigIff(existing: set<string>)
    ensures ConflictInfoOf(existing).hasLavyConfig <==> "lavy.config.js" in existing || "lavy.config.ts" in existing
  {
    ScanHasCanonical(CANDIDATES, existing);
    assert "lavy.config.js" in CANDIDATES && "lavy.config.ts" in CANDIDATES by {
      assert LAVY_CANDIDATES[0] == "lavy.config.js" && LAVY_CANDIDATES[1] == "lavy.config.ts";
    }
  }

  // ---------------------------------------------------------------------
  // resolveConfigConflict

  /** The files a forced resolution tries to delete. */
  function Deletable(existing: set<string>): set<string> {
    set f | f in ConflictInfoOf(existing).existingFiles && !IsCanonical(f)
  }

  /** `resolveConfigConflict(force)`: whether to go on, and the files left.
      Files in `undeletable` are those whose deletion fails; the failure is
      only logged. */
  function Resolution(existing: set<string>, force: bool, undeletable: set<string>): (r: (bool, set<string>))
    ensures r.1 <= existing
    ensures r.0 <==> force || !ConflictInfoOf(existing).hasConflict
    ensures !r.0 ==> r.1 == existing
  {
    if !ConflictInfoOf(existing).hasConflict then (true, existing)
    else if force then (true, existing - (Deletable(existing) - undeletable))
    else (false, existing)
  }

  method ResolveConfigConflict(existing: set<string>, force: bool, undeletable: set<string>)
    returns (ok: bool, remaining: set<string>)
    ensures (ok, remaining) == Resolution(existing, force, undeletable)
  {
    var info := DetectConfigConflict(existing);
    if !info.hasConflict {
      return true, existing;
    }
    if force {
      remaining := existing;
      for i := 0 to |info.existingFiles|
        invariant remaining == existing - (set f | f in info.existingFiles[..i] && !IsCanonical(f) && f !in undeletable)
      {
        var file := info.existingFiles[i];
        assert info.existingFiles[..i + 1] == info.existingFiles[..i] + [file];
        if !IsCanonical(file) {
          if file !in undeletable {
            remaining := remaining - {file};
          }
        }
      }
      assert info.existingFiles[..|info.existingFiles|] == info.existingFiles;
      assert (set f | f in info.existingFiles && !IsCanonical(f) && f !in undeletable) == Deletable(existing) - undeletable;
      return true, remaining;
    }
    return false, existing;
  }

  /** Without force, nothing is deleted; with force, exactly the deletable
      files whose removal succeeds are gone and the lavy files stay. */
  lemma ResolutionDeletes(existing: set<string>, force: bool, undeletable: set<string>)
    ensures var (ok, remaining) := Resolution(existing, force, undeletable);
      && remaining <= existing
      && (ok <==> force || !ConflictInfoOf(existing).hasConflict)
      && (!ok ==> remaining == existing)
      && (forall f :: f in existing && (IsCanonical(f) || f !in CANDIDATES) ==> f in remaining)
      && (force ==> forall f :: f in existing && f in CANDIDATES && !IsCanonical(f) ==>
            (f in remaining <==> f in undeletable))
  {
    DetectionClassifies(existing);
  }

  /** After a forced resolution in which every deletion succeeds, no conflict remains
      and the lavy configuration is still there. */
  lemma ForcedResolutionClears(existing: set<string>)
    ensures var (ok, remaining) := Resolution(existing, true, {});
      && ok
      && !ConflictInfoOf(remaining).hasConflict
      && ConflictInfoOf(remaining).hasLavyConfig == ConflictInfoOf(existing).hasLavyConfig
  {
    var (ok, remaining) := Resolution(existing, true, {});
    ScanExisting(CANDIDATES, existing);
    ScanExisting(CANDIDATES, remaining);
    DetectionClassifies(remaining);
    HasLavyConfigIff(existing);
    HasLavyConfigIff(remaining);
    CanonicalAreLavy();
  }
}
