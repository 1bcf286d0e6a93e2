/**
 * Installing the development dependencies (core/install.ts): which
 * packages are requested, the package-manager arguments, and the search
 * for a workspace root above the working directory.
 */
module Install {
  import opened Wrappers
  import opened ConfigTypes
  import opened PackageManagers

  // ---------------------------------------------------------------------
  // findWorkspaceRoot

  /** A directory as the list of its path segments; the root is []. */
  type Dir = seq<string>

  /** `dirname(dir)`: the root is its own parent. */
  function Parent(dir: Dir): (p: Dir)
    ensures dir == [] ==> p == dir
    ensures dir != [] ==> p == dir[..|dir| - 1]
  {
    if dir == [] then dir else dir[..|dir| - 1]
  }

  /** What the search can see of the filesystem: the directories holding
      `pnpm-workspace.yaml`, and those whose package.json parses and has a
      truthy `workspaces` field. */
  datatype WorkspaceMarkers = WorkspaceMarkers(pnpmWorkspaces: set<Dir>, packageWorkspaces: set<Dir>) {
    predicate MarksRoot(dir: Dir) {
      dir in pnpmWorkspaces || dir in packageWorkspaces
    }
  }

  /** `findWorkspaceRoot()`: the nearest marked directory from `cwd` up to
      and including the filesystem root, or None. */
  method FindWorkspaceRoot(cwd: Dir, fs: WorkspaceMarkers) returns (root: Option<Dir>)
    ensures root.Some? ==> |root.value| <= |cwd| && root.value == cwd[..|root.value|] && fs.MarksRoot(root.value)
    ensures root.Some? ==> forall k :: |root.value| < k <= |cwd| ==> !fs.MarksRoot(cwd[..k])
    ensures root.None? ==> forall k :: 0 <= k <= |cwd| ==> !fs.MarksRoot(cwd[..k])
  {
    var dir := cwd;
    while true
      invariant |dir| <= |cwd| && dir == cwd[..|dir|]
      invariant forall k :: |dir| < k <= |cwd| ==> !fs.MarksRoot(cwd[..k])
      decreases |dir|
    {
      if dir in fs.pnpmWorkspaces {
        return Some(dir);
      }
      if dir in fs.packageWorkspaces {
        return Some(dir);
      }
      var parent := Parent(dir);
      if parent == dir {
        break;
      }
      dir := parent;
    }
    return None;
  }

  // ---------------------------------------------------------------------
  // the package list

  /** The development packages `installDeps` can ask for. */
  datatype DevPackage =
    | BiomePkg | PrettierPkg
    | EslintPkg | EslintJsPkg | GlobalsPkg | EslintConfigLavyPkg | EslintPluginImportPkg
    | TypescriptPkg | TsEslintParserPkg | TsEslintPluginPkg | TsImportResolverPkg
    | ReactPluginPkg | ReactHooksPluginPkg | VuePluginPkg | VueTsConfigPkg
    | StylelintPkg | StylelintConfigLavyPkg | StylelintOrderPkg
    | StylelintVuePkg | StylelintScssPkg | StylelintLessPkg
    | HuskyPkg | LintStagedPkg | TsxPkg
  {
    /** The specifier passed to the package manager. */
    function Specifier(): string {
      match this
      case BiomePkg => "@biomejs/biome@^1.9.4"
      case PrettierPkg => "prettier@^3.3.0"
      case EslintPkg => "eslint@^9.15.0"
      case EslintJsPkg => "@eslint/js@^9.15.0"
      case GlobalsPkg => "globals@^15.12.0"
      case EslintConfigLavyPkg => "eslint-config-lavy"
      case EslintPluginImportPkg => "eslint-plugin-import@^2.31.0"
      case TypescriptPkg => "typescript@^5.7.0"
      case TsEslintParserPkg => "@typescript-eslint/parser@^8.16.0"
      case TsEslintPluginPkg => "@typescript-eslint/eslint-plugin@^8.16.0"
      case TsImportResolverPkg => "eslint-import-resolver-typescript@^3.7.0"
      case ReactPluginPkg => "eslint-plugin-react@^7.37.0"
      case ReactHooksPluginPkg => "eslint-plugin-react-hooks@^5.1.0"
      case VuePluginPkg => "eslint-plugin-vue@^9.32.0"
      case VueTsConfigPkg => "@vue/eslint-config-typescript@^14.1.0"
      case StylelintPkg => "stylelint@^16.11.0"
      case StylelintConfigLavyPkg => "stylelint-config-lavy"
      case StylelintOrderPkg => "stylelint-order"
      case StylelintVuePkg => "stylelint-config-recommended-vue@^1.5.0"
      case StylelintScssPkg => "stylelint-scss@^6.9.0"
      case StylelintLessPkg => "stylelint-less@^3.0.0"
      case HuskyPkg => "husky@^9.1.0"
      case LintStagedPkg => "lint-staged@^15.2.0"
      case TsxPkg => "tsx@^4.19.0"
    }

    /** The packages that only make sense with ESLint. */
    predicate EslintOnly() {
      this in ESLINT_PACKAGES + TYPESCRIPT_PACKAGES + REACT_PACKAGES + VUE_PACKAGES
    }
  }

  const ESLINT_PACKAGES: seq<DevPackage> := [EslintPkg, EslintJsPkg, GlobalsPkg, EslintConfigLavyPkg, EslintPluginImportPkg]
  const TYPESCRIPT_PACKAGES: seq<DevPackage> := [TypescriptPkg, TsEslintParserPkg, TsEslintPluginPkg, TsImportResolverPkg]
  const REACT_PACKAGES: seq<DevPackage> := [ReactPluginPkg, ReactHooksPluginPkg]
  const VUE_PACKAGES: seq<DevPackage> := [VuePluginPkg, VueTsConfigPkg]
  const STYLELINT_PACKAGES: seq<DevPackage> := [StylelintPkg, StylelintConfigLavyPkg, StylelintOrderPkg]
  const COMMIT_PACKAGES: seq<DevPackage> := [HuskyPkg, LintStagedPkg, TsxPkg]

  /** The options `installDeps` takes; an absent linter means ESLint. */
  datatype InstallOptions = InstallOptions(
    language: Language, framework: Framework, style: Style, useCommitLint: bool, linter: Option<Linter>)

  function LinterPackages(o: InstallOptions): seq<DevPackage> {
    if o.linter.GetOr(Eslint) == Biome then [BiomePkg] else [PrettierPkg]
  }

  function EslintPackages(o: InstallOptions): seq<DevPackage> {
    var eslint := o.linter.GetOr(Eslint) == Eslint;
    (if eslint then ESLINT_PACKAGES else [])
    + (if eslint && o.language == Ts then TYPESCRIPT_PACKAGES else [])
    + (if eslint && o.framework == React then REACT_PACKAGES else [])
    + (if eslint && o.framework == Vue then VUE_PACKAGES else [])
  }

  function StylePackages(o: InstallOptions): seq<DevPackage> {
    if o.style == NoStyle then []
    else
      STYLELINT_PACKAGES
      + (if o.framework == Vue then [StylelintVuePkg] else [])
      + (if o.style == Scss then [StylelintScssPkg] else [])
      + (if o.style == Less then [StylelintLessPkg] else [])
  }

  /** The development packages, group by group in the order they are pushed. */
  function DevPackages(o: InstallOptions): (ps: seq<DevPackage>)
    ensures |LinterPackages(o)| <= |ps| && ps[..|LinterPackages(o)|] == LinterPackages(o)
    ensures o.useCommitLint ==> |COMMIT_PACKAGES| <= |ps| && ps[|ps| - |COMMIT_PACKAGES|..] == COMMIT_PACKAGES
  {
    LinterPackages(o) + EslintPackages(o) + StylePackages(o) + (if o.useCommitLint then COMMIT_PACKAGES else [])
  }

  /** The pushes of the ESLint-only packages. */
  method PushEslintPackages(devDeps: seq<DevPackage>, o: InstallOptions) returns (r: seq<DevPackage>)
    ensures r == devDeps + EslintPackages(o)
  {
    var linter := o.linter.GetOr(Eslint);
    r := devDeps;
    if linter == Eslint {
      r := r + ESLINT_PACKAGES;
    }
    if linter == Eslint && o.language == Ts {
      r := r + TYPESCRIPT_PACKAGES;
    }
    if linter == Eslint && o.framework == React {
      r := r + REACT_PACKAGES;
    }
    if linter == Eslint && o.framework == Vue {
      r := r + VUE_PACKAGES;
    }
  }

  /** The pushes of the style packages. */
  method PushStylePackages(devDeps: seq<DevPackage>, o: InstallOptions) returns (r: seq<DevPackage>)
    ensures r == devDeps + StylePackages(o)
  {
    r := devDeps;
    if o.style != NoStyle {
      r := r + STYLELINT_PACKAGES;
      if o.framework == Vue {
        r := r + [StylelintVuePkg];
      }
      if o.style == Scss {
        r := r + [StylelintScssPkg];
      }
      if o.style == Less {
        r := r + [StylelintLessPkg];
      }
    }
  }

  /** The successive `devDeps.push` calls of `installDeps`. */
  method CollectDevDeps(o: InstallOptions) returns (devDeps: seq<DevPackage>)
    ensures devDeps == DevPackages(o)
  {
    devDeps := [];
    if o.linter.GetOr(Eslint) == Biome {
      devDeps := devDeps + [BiomePkg];
    } else {
      devDeps := devDeps + [PrettierPkg];
    }
    assert devDeps == LinterPackages(o);
    devDeps := PushEslintPackages(devDeps, o);
    devDeps := PushStylePackages(devDeps, o);
    var commit := if o.useCommitLint then COMMIT_PACKAGES else [];
    if o.useCommitLint {
      devDeps := devDeps + COMMIT_PACKAGES;
    } else {
      assert devDeps + [] == devDeps;
    }
    assert devDeps == LinterPackages(o) + EslintPackages(o) + StylePackages(o) + commit;
  }

  /** The step of `installDeps` that pushes a package. */
  datatype Step = FormatterStep | EslintStep | StyleStep | CommitStep

  /** Every package is pushed by exactly one step. */
  function StepOf(p: DevPackage): Step {
    match p
    case BiomePkg | PrettierPkg => FormatterStep
    case StylelintPkg | StylelintConfigLavyPkg | StylelintOrderPkg
      | StylelintVuePkg | StylelintScssPkg | StylelintLessPkg => StyleStep
    case HuskyPkg | LintStagedPkg | TsxPkg => CommitStep
    case _ => EslintStep
  }

  /** What the step `st` pushes under options `o`. */
  function StepPackages(o: InstallOptions, st: Step): seq<DevPackage> {
    match st
    case FormatterStep => LinterPackages(o)
    case EslintStep => EslintPackages(o)
    case StyleStep => StylePackages(o)
    case CommitStep => if o.useCommitLint then COMMIT_PACKAGES else []
  }

  /** Each step pushes only its own packages. */
  lemma StepPushesOwn(o: InstallOptions, st: Step, p: DevPackage)
    requires p in StepPackages(o, st)
    ensures StepOf(p) == st
  {
    match st
    case FormatterStep =>
    case EslintStep =>
      EslintStepGroups(o, p);
      EslintGroupsStep(p);
    case StyleStep =>
      StyleStepGroups(o, p);
    case CommitStep =>
  }

  lemma EslintStepGroups(o: InstallOptions, p: DevPackage)
    requires p in EslintPackages(o)
    ensures p in ESLINT_PACKAGES || p in TYPESCRIPT_PACKAGES || p in REACT_PACKAGES || p in VUE_PACKAGES
  {}

  lemma EslintGroupsStep(p: DevPackage)
    requires p in ESLINT_PACKAGES || p in TYPESCRIPT_PACKAGES || p in REACT_PACKAGES || p in VUE_PACKAGES
    ensures StepOf(p) == EslintStep
  {}

  lemma StyleStepGroups(o: InstallOptions, p: DevPackage)
    requires p in StylePackages(o)
    ensures StepOf(p) == StyleStep
  {
    assert p in STYLELINT_PACKAGES || p in [StylelintVuePkg, StylelintScssPkg, StylelintLessPkg];
  }

  /** A package is in the list exactly when its own step pushed it. */
  lemma InOwnStep(o: InstallOptions, p: DevPackage)
    ensures p in DevPackages(o) <==> p in StepPackages(o, StepOf(p))
  {
    var st := StepOf(p);
    forall other: Step | other != st
      ensures p !in StepPackages(o, other)
    {
      if p in StepPackages(o, other) {
        StepPushesOwn(o, other, p);
      }
    }
    assert DevPackages(o) == StepPackages(o, FormatterStep) + StepPackages(o, EslintStep)
      + StepPackages(o, StyleStep) + StepPackages(o, CommitStep);
  }

  /** Biome replaces Prettier. */
  lemma BiomeReplacesPrettier(o: InstallOptions)
    ensures o.linter == Some(Biome) <==> BiomePkg in DevPackages(o)
    ensures o.linter == Some(Biome) <==> PrettierPkg !in DevPackages(o)
  {
    InOwnStep(o, BiomePkg);
    InOwnStep(o, PrettierPkg);
  }

  /** The ESLint-only packages are those the ESLint step pushes. */
  lemma EslintOnlyStep(p: DevPackage)
    ensures p.EslintOnly() <==> StepOf(p) == EslintStep
  {
    var all := ESLINT_PACKAGES + TYPESCRIPT_PACKAGES + REACT_PACKAGES + VUE_PACKAGES;
    if StepOf(p) == EslintStep {
      assert p in all by {
        match p
        case EslintPkg => assert all[0] == p;
        case EslintJsPkg => assert all[1] == p;
        case GlobalsPkg => assert all[2] == p;
        case EslintConfigLavyPkg => assert all[3] == p;
        case EslintPluginImportPkg => assert all[4] == p;
        case TypescriptPkg => assert all[5] == p;
        case TsEslintParserPkg => assert all[6] == p;
        case TsEslintPluginPkg => assert all[7] == p;
        case TsImportResolverPkg => assert all[8] == p;
        case ReactPluginPkg => assert all[9] == p;
        case ReactHooksPluginPkg => assert all[10] == p;
        case VuePluginPkg => assert all[11] == p;
        case VueTsConfigPkg => assert all[12] == p;
      }
    } else {
      assert forall i :: 0 <= i < |all| ==> StepOf(all[i]) == EslintStep;
    }
  }

  /** With Biome, no ESLint-only package is installed. */
  lemma BiomeHasNoEslintPackages(o: InstallOptions)
    requires o.linter == Some(Biome)
    ensures forall p :: p in DevPackages(o) ==> !p.EslintOnly()
  {
    forall p | p in DevPackages(o) ensures !p.EslintOnly() {
      InOwnStep(o, p);
      EslintOnlyStep(p);
      assert StepPackages(o, EslintStep) == [];
    }
  }

  /** With ESLint (named or by default), its core packages and the packages
      for the chosen language and framework are installed. */
  lemma EslintPackagesInstalled(o: InstallOptions)
    requires o.linter != Some(Biome)
    ensures forall p :: p in ESLINT_PACKAGES ==> p in DevPackages(o)
    ensures o.language == Ts ==> forall p :: p in TYPESCRIPT_PACKAGES ==> p in DevPackages(o)
    ensures o.framework == React ==> forall p :: p in REACT_PACKAGES ==> p in DevPackages(o)
    ensures o.framework == Vue ==> forall p :: p in VUE_PACKAGES ==> p in DevPackages(o)
  {
    assert o.linter.GetOr(Eslint) == Eslint;
  }

  /** A style adds the three stylelint packages and its extras. */
  lemma StylePackagesInstalled(o: InstallOptions)
    ensures o.style != NoStyle <==> StylelintPkg in DevPackages(o)
    ensures o.style != NoStyle ==> forall p :: p in STYLELINT_PACKAGES ==> p in DevPackages(o)
    ensures o.style != NoStyle && o.framework == Vue <==> StylelintVuePkg in DevPackages(o)
    ensures o.style == Scss <==> StylelintScssPkg in DevPackages(o)
    ensures o.style == Less <==> StylelintLessPkg in DevPackages(o)
  {
    StyleStepPackages(o);
    StyleOnlyFromStyle(o, StylelintPkg);
    StyleOnlyFromStyle(o, StylelintVuePkg);
    StyleOnlyFromStyle(o, StylelintScssPkg);
    StyleOnlyFromStyle(o, StylelintLessPkg);
    forall p | p in STYLELINT_PACKAGES && o.style != NoStyle ensures p in DevPackages(o) {
      InOwnStep(o, p);
    }
  }

  /** What the style step pushes, package by package. */
  lemma StyleStepPackages(o: InstallOptions)
    ensures o.style != NoStyle <==> StylelintPkg in StylePackages(o)
    ensures o.style != NoStyle ==> forall p :: p in STYLELINT_PACKAGES ==> p in StylePackages(o)
    ensures o.style != NoStyle && o.framework == Vue <==> StylelintVuePkg in StylePackages(o)
    ensures o.style == Scss <==> StylelintScssPkg in StylePackages(o)
    ensures o.style == Less <==> StylelintLessPkg in StylePackages(o)
  {
    if o.style != NoStyle {
      var extras := (if o.framework == Vue then [StylelintVuePkg] else [])
        + (if o.style == Scss then [StylelintScssPkg] else [])
        + (if o.style == Less then [StylelintLessPkg] else []);
      assert StylePackages(o) == STYLELINT_PACKAGES + extras;
      assert StylelintVuePkg in extras <==> o.framework == Vue;
      assert StylelintScssPkg in extras <==> o.style == Scss;
      assert StylelintLessPkg in extras <==> o.style == Less;
    }
  }

  /** A stylelint package in the list comes from the style group. */
  lemma StyleOnlyFromStyle(o: InstallOptions, p: DevPackage)
    requires p in [StylelintPkg, StylelintVuePkg, StylelintScssPkg, StylelintLessPkg]
    ensures p in DevPackages(o) <==> p in StylePackages(o)
  {
    InOwnStep(o, p);
  }

  /** Commit linting adds husky, lint-staged and tsx. */
  lemma CommitPackagesInstalled(o: InstallOptions)
    ensures o.useCommitLint <==> HuskyPkg in DevPackages(o)
    ensures o.useCommitLint ==> forall p :: p in COMMIT_PACKAGES ==> p in DevPackages(o)
  {
    InOwnStep(o, HuskyPkg);
  }

  // ---------------------------------------------------------------------
  // the install command

  /** The arguments of a runtime install: the add command, no dev flag, quiet. */
  function DepsArgs(pm: PackageManager): (a: seq<string>)
    ensures |a| >= 2 && a[0] == (if pm == Npm then "install" else "add")
    ensures "-D" !in a && "--save-dev" !in a
    ensures "--silent" in a || "silent" in a
  {
    match pm
    case Npm => ["install", "--silent"]
    case Yarn => ["add", "--silent"]
    case Pnpm => ["add", "--reporter", "silent"]
  }

  /** The arguments of a development install: the add command, the dev flag, quiet. */
  function DevArgs(pm: PackageManager): (a: seq<string>)
    ensures |a| >= 3 && a[0] == (if pm == Npm then "install" else "add")
    ensures "--save-dev" in a <==> pm == Npm
    ensures "-D" in a <==> pm != Npm
    ensures "--silent" in a || "silent" in a
  {
    match pm
    case Npm => ["install", "--save-dev", "--silent"]
    case Yarn => ["add", "-D", "--silent"]
    case Pnpm => ["add", "-D", "--reporter", "silent"]
  }

  /** The specifiers of a package list, in order. */
  function Specifiers(ps: seq<DevPackage>): (r: seq<string>)
    ensures |r| == |ps| && forall i :: 0 <= i < |ps| ==> r[i] == ps[i].Specifier()
  {
    seq(|ps|, i requires 0 <= i < |ps| => ps[i].Specifier())
  }

  /** The development-install flags: in a workspace pnpm gets `-w` in front,
      yarn gets `-W` at the end, and npm gets no flag. */
  function InstallFlags(pm: PackageManager, inWorkspace: bool): (flags: seq<string>)
    ensures !inWorkspace ==> flags == DevArgs(pm)
    ensures inWorkspace && pm == Pnpm ==> flags == ["-w"] + DevArgs(pm)
    ensures inWorkspace && pm == Yarn ==> flags == DevArgs(pm) + ["-W"]
    ensures pm == Npm ==> flags == DevArgs(pm)
  {
    if !inWorkspace then DevArgs(pm)
    else match pm
      case Pnpm => ["-w"] + DevArgs(pm)
      case Yarn => DevArgs(pm) + ["-W"]
      case Npm => DevArgs(pm)
  }

  /** The single process `installDeps` starts: executable, arguments and,
      in a workspace, the directory it runs in. */
  datatype InstallCommand = InstallCommand(command: string, args: seq<string>, cwd: Option<Dir>)

  /** `installDeps(options)`: `lockfiles` are the names present in the
      working directory `cwd`. The runtime list of regular dependencies is
      always empty, so only the development install runs. */
  method InstallDeps(o: InstallOptions, lockfiles: set<string>, cwd: Dir, fs: WorkspaceMarkers)
    returns (commands: seq<InstallCommand>)
    ensures |commands| == 1
    ensures commands[0].command == DetectPackageManager(lockfiles).Name()
    ensures commands[0].args == InstallFlags(DetectPackageManager(lockfiles), commands[0].cwd.Some?) + Specifiers(DevPackages(o))
    ensures commands[0].cwd.Some? ==> var root := commands[0].cwd.value;
      |root| <= |cwd| && root == cwd[..|root|] && fs.MarksRoot(root)
      && forall k :: |root| < k <= |cwd| ==> !fs.MarksRoot(cwd[..k])
    ensures commands[0].cwd.None? <==> forall k :: 0 <= k <= |cwd| ==> !fs.MarksRoot(cwd[..k])
  {
    var deps: seq<string> := [];
    var devDeps := CollectDevDeps(o);
    var pkgManager := DetectPackageManager(lockfiles);
    var depsArgs := DepsArgs(pkgManager);
    var devArgs := DevArgs(pkgManager);
    var workspaceRoot := FindWorkspaceRoot(cwd, fs);
    var execCwd: Option<Dir> := None;
    if workspaceRoot.Some? {
      if pkgManager == Pnpm {
        depsArgs := ["-w"] + depsArgs;
        devArgs := ["-w"] + devArgs;
      } else if pkgManager == Yarn {
        depsArgs := depsArgs + ["-W"];
        devArgs := devArgs + ["-W"];
      }
      execCwd := workspaceRoot;
    }
    commands := [];
    if |deps| > 0 {
      commands := commands + [InstallCommand(pkgManager.Name(), depsArgs + deps, execCwd)];
    }
    if |devDeps| > 0 {
      commands := commands + [InstallCommand(pkgManager.Name(), devArgs + Specifiers(devDeps), execCwd)];
    }
  }
}
