/**
 * The configuration record types of `lavy` (types/config.ts, types/index.ts)
 * and a small model of arbitrary JavaScript values, used where the code
 * inspects a user configuration whose shape it cannot trust.
 */
module ConfigTypes {
  import opened Wrappers

  /**
   * A user-supplied regular expression. Its matching behaviour is an opaque
   * predicate; `source` and `flags` give its printed form `/source/flags`.
   */
  datatype Regex = Regex(source: string, flags: string, test: string -> bool)

  /** `${pattern}`: how a RegExp prints inside a template literal. */
  function RegexText(p: Regex): string {
    "/" + p.source + "/" + p.flags
  }

  datatype CommitRule = CommitRule(pattern: Regex, message: string, examples: Option<seq<string>>)

  /** Every field is optional (`None` is an absent key). */
  datatype CommitConfig = CommitConfig(
    rules: Option<seq<CommitRule>>,
    types: Option<seq<string>>,
    maxLength: Option<int>,
    allowMergeCommits: Option<bool>,
    customPatterns: Option<seq<Regex>>)

  const NoCommitConfig: CommitConfig := CommitConfig(None, None, None, None, None)

  datatype ToolConfig = ToolConfig(enabled: Option<bool>, config: Option<string>, ignore: Option<seq<string>>)

  datatype LintConfig = LintConfig(
    eslint: Option<ToolConfig>,
    stylelint: Option<ToolConfig>,
    prettier: Option<ToolConfig>,
    biome: Option<ToolConfig>)

  datatype Language = Js | Ts
  datatype Framework = NoFramework | React | Vue | Svelte | Solid
  datatype Style = NoStyle | Css | Scss | Sass | Less | Stylus
  datatype Linter = Eslint | Biome
  datatype Platform = Node | Browser | Universal
  datatype ModuleType = Esm | Cjs

  datatype ProjectConfig = ProjectConfig(
    language: Option<Language>,
    framework: Option<Framework>,
    style: Option<Style>,
    linter: Option<Linter>,
    platform: Option<Platform>)

  /** `LavyConfig`: the three known sections and any further keys. */
  datatype LavyConfig = LavyConfig(
    commit: Option<CommitConfig>,
    lint: Option<LintConfig>,
    project: Option<ProjectConfig>,
    extra: map<string, Value>)

  /** `{ ...base, ...over }` on two commit configurations: a key present in `over` wins. */
  function Overlay(base: CommitConfig, over: CommitConfig): CommitConfig {
    CommitConfig(
      if over.rules.Some? then over.rules else base.rules,
      if over.types.Some? then over.types else base.types,
      if over.maxLength.Some? then over.maxLength else base.maxLength,
      if over.allowMergeCommits.Some? then over.allowMergeCommits else base.allowMergeCommits,
      if over.customPatterns.Some? then over.customPatterns else base.customPatterns)
  }

  /** The value a commit section holds under `key`, if it has that key. */
  function FieldOf(c: CommitConfig, key: string): Option<Value> {
    if key == "rules" then RulesField(c)
    else if key == "types" then TypesField(c)
    else if key == "maxLength" then MaxLengthField(c)
    else if key == "allowMergeCommits" then AllowMergeField(c)
    else if key == "customPatterns" then PatternsField(c)
    else None
  }

  /** The object a commit section denotes holds exactly its present fields. */
  lemma CommitFieldAt(c: CommitConfig, k: string)
    ensures k in CommitValue(c).fields <==> FieldOf(c, k).Some?
    ensures k in CommitValue(c).fields ==> CommitValue(c).fields[k] == FieldOf(c, k).value
  {
  }

  lemma OverlayFieldOf(base: CommitConfig, over: CommitConfig, k: string)
    ensures FieldOf(Overlay(base, over), k) == if FieldOf(over, k).Some? then FieldOf(over, k) else FieldOf(base, k)
  {
  }

  /** A map that agrees key by key with the spread of `b` and `o` is that spread. */
  lemma MapSpread(l: map<string, Value>, b: map<string, Value>, o: map<string, Value>)
    requires forall k :: k in l <==> k in b || k in o
    requires forall k :: k in o ==> l[k] == o[k]
    requires forall k :: k in b && k !in o ==> l[k] == b[k]
    ensures l == b + o
  {
  }

  /**
   * The commit section `Overlay` builds denotes the JavaScript spread
   * `{ ...base, ...over }` of the two objects: every key `over` has wins,
   * every other key of `base` is kept, and no other key appears.
   */
  lemma OverlayIsSpread(base: CommitConfig, over: CommitConfig)
    ensures CommitValue(Overlay(base, over)).fields == CommitValue(base).fields + CommitValue(over).fields
  {
    var l, b, o := CommitValue(Overlay(base, over)).fields, CommitValue(base).fields, CommitValue(over).fields;
    forall k
      ensures k in l <==> k in b || k in o
      ensures k in o ==> l[k] == o[k]
      ensures k in b && k !in o ==> l[k] == b[k]
    {
      OverlayKey(base, over, k);
    }
    MapSpread(l, b, o);
  }

  /** One key of the spread. */
  lemma OverlayKey(base: CommitConfig, over: CommitConfig, k: string)
    ensures var l, b, o := CommitValue(Overlay(base, over)).fields, CommitValue(base).fields, CommitValue(over).fields;
      && (k in l <==> k in b || k in o)
      && (k in o ==> l[k] == o[k])
      && (k in b && k !in o ==> l[k] == b[k])
  {
    CommitFieldAt(Overlay(base, over), k);
    CommitFieldAt(base, k);
    CommitFieldAt(over, k);
    OverlayFieldOf(base, over, k);
  }


  /** Spreading the same overrides twice is spreading them once. */
  lemma OverlayIdempotent(base: CommitConfig, over: CommitConfig)
    ensures Overlay(Overlay(base, over), over) == Overlay(base, over)
  {}

  /** Spreading nothing changes nothing. */
  lemma OverlayEmpty(base: CommitConfig)
    ensures Overlay(base, NoCommitConfig) == base
  {}

  // ---------------------------------------------------------------------
  // JavaScript values, for code that inspects configurations of any shape.

  datatype Value =
    | Undefined
    | Null
    | Bool(b: bool)
    | Num(n: int)
    | Str(s: string)
    | Arr(items: seq<Value>)
    | RegExp(re: Regex)
    | Obj(fields: map<string, Value>)

  /** JavaScript truthiness. */
  predicate Truthy(v: Value) {
    match v
    case Undefined => false
    case Null => false
    case Bool(b) => b
    case Num(n) => n != 0
    case Str(s) => s != []
    case _ => true
  }

  /** `v.key`: `None` when reading a property of `null`/`undefined` throws a TypeError;
      a key an object lacks, or any key of a non-object, reads as `undefined`. */
  function Get(v: Value, key: string): (r: Option<Value>)
    ensures r.None? <==> v.Undefined? || v.Null?
  {
    match v
    case Undefined => None
    case Null => None
    case Obj(f) => Some(if key in f then f[key] else Undefined)
    case _ => Some(Undefined)
  }

  function OptionValue<T>(o: Option<T>, f: T -> Value): Value {
    match o
    case None => Undefined
    case Some(x) => f(x)
  }

  /** Adds `key` to an object's fields when the value is present. */
  function PutIf(fields: map<string, Value>, key: string, v: Option<Value>): map<string, Value> {
    if v.Some? then fields[key := v.value] else fields
  }

  /** The value read from an optional field: `undefined` when absent. */
  function FieldValue(v: Option<Value>): Value {
    if v.Some? then v.value else Undefined
  }

  function StringsValue(xs: seq<string>): Value {
    Arr(seq(|xs|, i requires 0 <= i < |xs| => Str(xs[i])))
  }

  function RuleValue(r: CommitRule): Value {
    Obj(PutIf(map["pattern" := RegExp(r.pattern), "message" := Str(r.message)], "examples",
              if r.examples.Some? then Some(StringsValue(r.examples.value)) else None))
  }

  function RulesValue(rules: seq<CommitRule>): Value {
    Arr(seq(|rules|, i requires 0 <= i < |rules| => RuleValue(rules[i])))
  }

  function PatternsValue(patterns: seq<Regex>): Value {
    Arr(seq(|patterns|, i requires 0 <= i < |patterns| => RegExp(patterns[i])))
  }

  function RulesField(c: CommitConfig): Option<Value> {
    if c.rules.Some? then Some(RulesValue(c.rules.value)) else None
  }

  function TypesField(c: CommitConfig): Option<Value> {
    if c.types.Some? then Some(StringsValue(c.types.value)) else None
  }

  function MaxLengthField(c: CommitConfig): Option<Value> {
    if c.maxLength.Some? then Some(Num(c.maxLength.value)) else None
  }

  function AllowMergeField(c: CommitConfig): Option<Value> {
    if c.allowMergeCommits.Some? then Some(Bool(c.allowMergeCommits.value)) else None
  }

  function PatternsField(c: CommitConfig): Option<Value> {
    if c.customPatterns.Some? then Some(PatternsValue(c.customPatterns.value)) else None
  }

  /** The JavaScript object a commit section denotes: one key per present field. */
  function CommitValue(c: CommitConfig): (v: Value)
    ensures v.Obj?
    ensures Get(v, "rules") == Some(FieldValue(RulesField(c)))
    ensures Get(v, "types") == Some(FieldValue(TypesField(c)))
    ensures Get(v, "maxLength") == Some(FieldValue(MaxLengthField(c)))
    ensures Get(v, "allowMergeCommits") == Some(FieldValue(AllowMergeField(c)))
    ensures Get(v, "customPatterns") == Some(FieldValue(PatternsField(c)))
  {
    var m0: map<string, Value> := map[];
    var m1 := PutIf(m0, "rules", RulesField(c));
    var m2 := PutIf(m1, "types", TypesField(c));
    var m3 := PutIf(m2, "maxLength", MaxLengthField(c));
    var m4 := PutIf(m3, "allowMergeCommits", AllowMergeField(c));
    Obj(PutIf(m4, "customPatterns", PatternsField(c)))
  }

  /** The JavaScript object a typed configuration denotes (lint and project
      sections are not inspected by any modelled check, so they are omitted). */
  function ConfigValue(c: LavyConfig): Value {
    Obj(if c.commit.Some? then c.extra["commit" := CommitValue(c.commit.value)] else c.extra - {"commit"})
  }
}
