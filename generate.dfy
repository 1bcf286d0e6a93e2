/**
 * The write decisions of `lavy`'s configuration generators
 * (core/generate.ts): which files `generateTemplate` and `generateConfigs`
 * write, in which order, and with which generator and module format. The
 * written texts are the generators' outputs; they are named here, not
 * computed (see the Templates module for the generators themselves).
 */
module Generate {
  import opened Wrappers
  import opened ConfigTypes
  import opened Templates

  datatype Mode = Force | Merge

  /** What a written file holds: which generator produced it, from what. */
  datatype Content =
    | EslintConfig(language: Language, framework: Framework, style: Style, moduleType: ModuleType)
    | PrettierConfig(packageType: PackageType)
    | StylelintConfig(packageType: PackageType)
    | BiomeConfig
    | TsConfig(framework: Framework, moduleType: ModuleType)

  datatype FileWrite = FileWrite(file: string, content: Content)

  const ESLINT_FILE: string := "eslint.config.js"
  const PRETTIER_FILE: string := "prettier.config.js"
  const STYLELINT_FILE: string := "stylelint.config.js"
  const BIOME_FILE: string := "biome.json"
  const TSCONFIG_FILE: string := "tsconfig.json"

  /** The options of `generateTemplate`; absent mode and linter take their defaults. */
  datatype TemplateOptions = TemplateOptions(
    language: Language, framework: Framework, style: Style, mode: Option<Mode>, linter: Option<Linter>)

  /** `packageJsonType === 'module' ? 'esm' : 'cjs'`. */
  function ModuleTypeOf(t: PackageType): (m: ModuleType)
    ensures m == Esm <==> t == Module
  {
    if t == Module then Esm else Cjs
  }

  /** `shouldWrite`: forced, or the file does not exist yet. */
  function ShouldWrite(mode: Mode, existing: set<string>, file: string): (b: bool)
    ensures file !in existing ==> b
    ensures mode == Merge ==> (b <==> file !in existing)
    ensures mode == Force ==> b
  {
    mode == Force || file !in existing
  }

  /** One guarded step: the write when its condition holds. */
  function WriteIf(cond: bool, file: string, content: Content): seq<FileWrite> {
    if cond then [FileWrite(file, content)] else []
  }

  /** The files `generateTemplate` writes, in order. */
  function TemplateWrites(o: TemplateOptions, t: PackageType, existing: set<string>): (w: seq<FileWrite>)
    ensures |w| <= 4
    ensures forall i, j :: 0 <= i < j < |w| ==> w[i].file != w[j].file
  {
    var mode := o.mode.GetOr(Force);
    var useBiome := o.linter.GetOr(Eslint) == Biome;
    var moduleType := ModuleTypeOf(t);
    WriteIf(!useBiome && ShouldWrite(mode, existing, ESLINT_FILE), ESLINT_FILE, EslintConfig(o.language, o.framework, o.style, moduleType))
    + WriteIf(!useBiome && ShouldWrite(mode, existing, PRETTIER_FILE), PRETTIER_FILE, PrettierConfig(t))
    + WriteIf(useBiome && ShouldWrite(mode, existing, BIOME_FILE), BIOME_FILE, BiomeConfig)
    + WriteIf(o.style != NoStyle && ShouldWrite(mode, existing, STYLELINT_FILE), STYLELINT_FILE, StylelintConfig(t))
    + WriteIf(o.language == Ts && ShouldWrite(mode, existing, TSCONFIG_FILE), TSCONFIG_FILE, TsConfig(o.framework, moduleType))
  }

  /** `generateTemplate`: the package type is read once, and each file is
      written when its option asks for it and `shouldWrite` allows it. */
  method GenerateTemplate(o: TemplateOptions, packageJson: PackageJsonFile, existing: set<string>)
    returns (writes: seq<FileWrite>)
    ensures writes == TemplateWrites(o, GetPackageJsonType(packageJson), existing)
  {
    var packageJsonType := GetPackageJsonType(packageJson);
    var moduleType := if packageJsonType == Module then Esm else Cjs;
    assert moduleType == ModuleTypeOf(packageJsonType);
    var mode := o.mode.GetOr(Force);
    var useBiome := o.linter.GetOr(Eslint) == Biome;
    writes := [];
    if !useBiome && ShouldWrite(mode, existing, ESLINT_FILE) {
      writes := writes + [FileWrite(ESLINT_FILE, EslintConfig(o.language, o.framework, o.style, moduleType))];
    }
    assert writes == WriteIf(!useBiome && ShouldWrite(mode, existing, ESLINT_FILE), ESLINT_FILE,
                             EslintConfig(o.language, o.framework, o.style, moduleType));
    ghost var w := writes;
    if !useBiome && ShouldWrite(mode, existing, PRETTIER_FILE) {
      writes := writes + [FileWrite(PRETTIER_FILE, PrettierConfig(packageJsonType))];
    }
    assert writes == w + WriteIf(!useBiome && ShouldWrite(mode, existing, PRETTIER_FILE), PRETTIER_FILE, PrettierConfig(packageJsonType));
    w := writes;
    if useBiome && ShouldWrite(mode, existing, BIOME_FILE) {
      writes := writes + [FileWrite(BIOME_FILE, BiomeConfig)];
    }
    assert writes == w + WriteIf(useBiome && ShouldWrite(mode, existing, BIOME_FILE), BIOME_FILE, BiomeConfig);
    w := writes;
    if o.style != NoStyle && ShouldWrite(mode, existing, STYLELINT_FILE) {
      writes := writes + [FileWrite(STYLELINT_FILE, StylelintConfig(packageJsonType))];
    }
    assert writes == w + WriteIf(o.style != NoStyle && ShouldWrite(mode, existing, STYLELINT_FILE), STYLELINT_FILE, StylelintConfig(packageJsonType));
    w := writes;
    if o.language == Ts {
      if ShouldWrite(mode, existing, TSCONFIG_FILE) {
        writes := writes + [FileWrite(TSCONFIG_FILE, TsConfig(o.framework, moduleType))];
      }
    }
    assert writes == w + WriteIf(o.language == Ts && ShouldWrite(mode, existing, TSCONFIG_FILE), TSCONFIG_FILE, TsConfig(o.framework, moduleType));
  }

  predicate Writes(ws: seq<FileWrite>, file: string) {
    exists k :: 0 <= k < |ws| && ws[k].file == file
  }

  lemma WritesConcat(a: seq<FileWrite>, b: seq<FileWrite>, file: string)
    ensures Writes(a + b, file) <==> Writes(a, file) || Writes(b, file)
  {
    if Writes(a, file) {
      var k :| 0 <= k < |a| && a[k].file == file;
      assert (a + b)[k] == a[k];
    }
    if Writes(b, file) {
      var k :| 0 <= k < |b| && b[k].file == file;
      assert (a + b)[|a| + k] == b[k];
    }
  }

  lemma WritesIf(cond: bool, f: string, c: Content, file: string)
    ensures Writes(WriteIf(cond, f, c), file) <==> cond && f == file
  {
    if cond && f == file {
      assert WriteIf(cond, f, c)[0].file == file;
    }
  }

  /** Whether `generateTemplate` writes a file, one file at a time. */
  lemma TemplateWritesFile(o: TemplateOptions, t: PackageType, existing: set<string>, file: string)
    ensures var mode := o.mode.GetOr(Force);
      var useBiome := o.linter.GetOr(Eslint) == Biome;
      Writes(TemplateWrites(o, t, existing), file) <==>
        || (file == ESLINT_FILE && !useBiome && ShouldWrite(mode, existing, ESLINT_FILE))
        || (file == PRETTIER_FILE && !useBiome && ShouldWrite(mode, existing, PRETTIER_FILE))
        || (file == BIOME_FILE && useBiome && ShouldWrite(mode, existing, BIOME_FILE))
        || (file == STYLELINT_FILE && o.style != NoStyle && ShouldWrite(mode, existing, STYLELINT_FILE))
        || (file == TSCONFIG_FILE && o.language == Ts && ShouldWrite(mode, existing, TSCONFIG_FILE))
  {
    var mode := o.mode.GetOr(Force);
    var useBiome := o.linter.GetOr(Eslint) == Biome;
    var moduleType := ModuleTypeOf(t);
    var w1 := WriteIf(!useBiome && ShouldWrite(mode, existing, ESLINT_FILE), ESLINT_FILE, EslintConfig(o.language, o.framework, o.style, moduleType));
    var w2 := WriteIf(!useBiome && ShouldWrite(mode, existing, PRETTIER_FILE), PRETTIER_FILE, PrettierConfig(t));
    var w3 := WriteIf(useBiome && ShouldWrite(mode, existing, BIOME_FILE), BIOME_FILE, BiomeConfig);
    var w4 := WriteIf(o.style != NoStyle && ShouldWrite(mode, existing, STYLELINT_FILE), STYLELINT_FILE, StylelintConfig(t));
    var w5 := WriteIf(o.language == Ts && ShouldWrite(mode, existing, TSCONFIG_FILE), TSCONFIG_FILE, TsConfig(o.framework, moduleType));
    assert TemplateWrites(o, t, existing) == w1 + w2 + w3 + w4 + w5;
    WritesConcat(w1 + w2 + w3 + w4, w5, file);
    WritesConcat(w1 + w2 + w3, w4, file);
    WritesConcat(w1 + w2, w3, file);
    WritesConcat(w1, w2, file);
    WritesIf(!useBiome && ShouldWrite(mode, existing, ESLINT_FILE), ESLINT_FILE, EslintConfig(o.language, o.framework, o.style, moduleType), file);
    WritesIf(!useBiome && ShouldWrite(mode, existing, PRETTIER_FILE), PRETTIER_FILE, PrettierConfig(t), file);
    WritesIf(useBiome && ShouldWrite(mode, existing, BIOME_FILE), BIOME_FILE, BiomeConfig, file);
    WritesIf(o.style != NoStyle && ShouldWrite(mode, existing, STYLELINT_FILE), STYLELINT_FILE, StylelintConfig(t), file);
    WritesIf(o.language == Ts && ShouldWrite(mode, existing, TSCONFIG_FILE), TSCONFIG_FILE, TsConfig(o.framework, moduleType), file);
  }

  /** In merge mode no existing file is overwritten. */
  lemma MergeNeverOverwrites(o: TemplateOptions, t: PackageType, existing: set<string>)
    requires o.mode == Some(Merge)
    ensures forall k :: 0 <= k < |TemplateWrites(o, t, existing)| ==> TemplateWrites(o, t, existing)[k].file !in existing
  {}

  /** In force mode (the default) what exists does not matter. */
  lemma ForceIgnoresExisting(o: TemplateOptions, t: PackageType, existing: set<string>)
    requires o.mode != Some(Merge)
    ensures TemplateWrites(o, t, existing) == TemplateWrites(o, t, {})
  {}

  /** An absent mode is force and an absent linter is ESLint. */
  lemma TemplateDefaults(o: TemplateOptions, t: PackageType, existing: set<string>)
    ensures TemplateWrites(o.(mode := None), t, existing) == TemplateWrites(o.(mode := Some(Force)), t, existing)
    ensures TemplateWrites(o.(linter := None), t, existing) == TemplateWrites(o.(linter := Some(Eslint)), t, existing)
  {}

  /** With Biome the ESLint and Prettier files are never written and
      biome.json is written when allowed; without it biome.json never is. */
  lemma BiomeChoosesFiles(o: TemplateOptions, t: PackageType, existing: set<string>)
    ensures var ws := TemplateWrites(o, t, existing);
      && (o.linter == Some(Biome) ==> !Writes(ws, ESLINT_FILE) && !Writes(ws, PRETTIER_FILE))
      && (o.linter == Some(Biome) ==> (Writes(ws, BIOME_FILE) <==> ShouldWrite(o.mode.GetOr(Force), existing, BIOME_FILE)))
      && (o.linter != Some(Biome) ==> !Writes(ws, BIOME_FILE))
  {
    TemplateWritesFile(o, t, existing, ESLINT_FILE);
    TemplateWritesFile(o, t, existing, PRETTIER_FILE);
    TemplateWritesFile(o, t, existing, BIOME_FILE);
  }

  /** stylelint.config.js only with a style, tsconfig.json only for TypeScript. */
  lemma StyleAndTsFiles(o: TemplateOptions, t: PackageType, existing: set<string>)
    ensures var ws := TemplateWrites(o, t, existing);
      && (Writes(ws, STYLELINT_FILE) <==> o.style != NoStyle && ShouldWrite(o.mode.GetOr(Force), existing, STYLELINT_FILE))
      && (Writes(ws, TSCONFIG_FILE) <==> o.language == Ts && ShouldWrite(o.mode.GetOr(Force), existing, TSCONFIG_FILE))
  {
    TemplateWritesFile(o, t, existing, STYLELINT_FILE);
    TemplateWritesFile(o, t, existing, TSCONFIG_FILE);
  }

  /** The ESLint and TypeScript configurations are ES modules exactly when
      package.json says "module". */
  lemma ModuleTypeFollowsPackage(o: TemplateOptions, t: PackageType, existing: set<string>)
    ensures forall k :: 0 <= k < |TemplateWrites(o, t, existing)| ==>
      var c := TemplateWrites(o, t, existing)[k].content;
      (c.EslintConfig? || c.TsConfig?) ==> (c.moduleType == Esm <==> t == Module)
  {}

  // ---------------------------------------------------------------------
  // generateConfigs

  /**
   * The text `generateConfigs` and `generateTemplate` write to
   * eslint.config.js. Both pass one options object as the only argument of
   * `generateEslintConfigString`, so
   * the framework and TypeScript arguments are `undefined` (falsy) and the
   * module type is `undefined` (not 'cjs'): whatever the options say, the
   * template is rendered with every block off and left in ESM form.
   */
  function WrittenEslintText(template: string, c: Content): string
    requires c.EslintConfig?
  {
    EslintBlocks(template, false, None)
  }

  /** On a well-formed template the written ESLint text drops every
      typescript, react and vue block and keeps the rest, for any options. */
  lemma {:induction false} WrittenEslintDropsBlocks(segs: seq<Segment>, c: Content)
    requires WellFormed(segs) && c.EslintConfig?
    ensures WrittenEslintText(Print(segs), c) == Print(ExpandEslint(segs, false, None))
  {
    EslintBlocksExpand(segs, false, None);
  }

  datatype ConfigsOptions = ConfigsOptions(language: Language, framework: Framework, style: Style, moduleType: ModuleType)

  /** `generateConfigs`: ESLint and Prettier always, with no existence
      check; Stylelint with a style; tsconfig.json for TypeScript. */
  method GenerateConfigs(o: ConfigsOptions, packageJson: PackageJsonFile) returns (writes: seq<FileWrite>)
    ensures |writes| >= 2
    ensures writes[0] == FileWrite(ESLINT_FILE, EslintConfig(o.language, o.framework, o.style, o.moduleType))
    ensures writes[1] == FileWrite(PRETTIER_FILE, PrettierConfig(GetPackageJsonType(packageJson)))
    ensures Writes(writes, STYLELINT_FILE) <==> o.style != NoStyle
    ensures Writes(writes, TSCONFIG_FILE) <==> o.language == Ts
    ensures |writes| == 2 + (if o.style != NoStyle then 1 else 0) + (if o.language == Ts then 1 else 0)
  {
    writes := [FileWrite(ESLINT_FILE, EslintConfig(o.language, o.framework, o.style, o.moduleType))];
    var pkgModuleType := GetPackageJsonType(packageJson);
    writes := writes + [FileWrite(PRETTIER_FILE, PrettierConfig(pkgModuleType))];
    if o.style != NoStyle {
      writes := writes + [FileWrite(STYLELINT_FILE, StylelintConfig(pkgModuleType))];
    }
    if o.language == Ts {
      writes := writes + [FileWrite(TSCONFIG_FILE, TsConfig(o.framework, o.moduleType))];
    }
    var w3 := WriteIf(o.style != NoStyle, STYLELINT_FILE, StylelintConfig(pkgModuleType));
    var w4 := WriteIf(o.language == Ts, TSCONFIG_FILE, TsConfig(o.framework, o.moduleType));
    assert writes == writes[..2] + w3 + w4;
    WritesConcat(writes[..2] + w3, w4, STYLELINT_FILE);
    WritesConcat(writes[..2], w3, STYLELINT_FILE);
    WritesConcat(writes[..2] + w3, w4, TSCONFIG_FILE);
    WritesConcat(writes[..2], w3, TSCONFIG_FILE);
    WritesIf(o.style != NoStyle, STYLELINT_FILE, StylelintConfig(pkgModuleType), STYLELINT_FILE);
    WritesIf(o.style != NoStyle, STYLELINT_FILE, StylelintConfig(pkgModuleType), TSCONFIG_FILE);
    WritesIf(o.language == Ts, TSCONFIG_FILE, TsConfig(o.framework, o.moduleType), STYLELINT_FILE);
    WritesIf(o.language == Ts, TSCONFIG_FILE, TsConfig(o.framework, o.moduleType), TSCONFIG_FILE);
  }
}
