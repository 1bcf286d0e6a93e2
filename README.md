# lavy, modelled in Dafny

lavy is a project-scaffolding toolkit for JavaScript and TypeScript projects. It
writes ESLint, Prettier, Stylelint and Biome configurations, installs their
packages and sets up Git hooks. It also ships `lavy commit`, a checker for
commit messages. This project models the decision-making core of the toolkit
and proves properties of it:

- the commit-message checker `CommitValidator` (`commitvalidator.dfy`), a class
  whose `validate` runs the checks in the code's order: empty message, length,
  the `Merge` exemption, the `type(scope):` header, the type allow-list, the
  user rules, then the soft patterns;
- the configuration merge and `validateConfig` of `config/index.ts`
  (`config.dfy`), on typed records and on a model of JavaScript values
  (`configtypes.dfy`), so that non-numbers, non-arrays and `null` entries can
  be expressed;
- loading the configuration, and detecting and resolving conflicting
  configuration files (`configloader.dfy`);
- the `lavy commit` command: option dispatch, the `--init` text insertion, the
  exit status of the checks and the self-test count (`commitcommand.dfy`);
- the Git-hook and lint-staged setup (`initcommitlint.dfy`); the package list,
  the install arguments and the workspace walk (`install.dfy`, `pm.dfy`);
- which configuration files the generators write (`generate.dfy`), and the
  template transforms: conditional blocks and the ESM to CommonJS rewrite
  (`templates.dfy`);
- the helpers of the main package's `utils/index.ts` (`lavyutils.dfy`): comment
  removal, the environment checks, the project checks, the ESLint path and the
  per-type file generator;
- the older `lavy-cli` package: its comment stripping and install command
  (`cliutils.dfy`), and its `--init` copies and `verify-commit` pattern
  (`cli.dfy`);
- `getProjectPlatform` of `eslint-config-lavy` (`platform.dfy`).

`jstext.dfy` holds the JavaScript string primitives the models share: the `\s`
set, `trim`, UTF-16 length, `startsWith`, `includes`, `indexOf`,
single and global `replace` of a literal, `join` and ASCII lower-casing.
`records.dfy` models a JavaScript object as an ordered map, so that spreads
keep key order. `wrappers.dfy` has `Option` and `Result`.

The file system is a parameter: a set of the names that exist, or a map from
names to their contents. A deletion removes a name from the set. The outcome of
importing the user's `lavy.config.js` is a parameter too: no file, an import
that throws, or the loaded configuration. A user `RegExp` is a record holding
its source text, its flags and an opaque test predicate.

Where the code and its documentation disagree, the model follows the code:

- `mergeConfig` starts from `{ ...defaultConfig }` and overwrites only
  `commit`, so a user's `lint` and `project` sections never reach the result.
- `mergeConfig` replaces the default types even with an empty user list, since
  `[]` is truthy. `EmptyTypesRejectEveryType` shows that such a file then
  rejects every typed message.
- Merging twice appends the user rules twice (`MergeNotIdempotent`).
- `validateConfig` throws a TypeError on a `null` or `undefined` rule entry
  before any bad entry. `loadConfig` catches this and falls back to the
  defaults.
- The per-type generator of `utils/index.ts` has nine cases besides the
  default.
- `runCommitCommand` turns an absent `-m` into the text `undefined`, so the
  branch that checks the current Git commit runs only for an explicit empty
  message (`RunCommitCommand`).
- `initCommitlint` requires package.json in the current directory before
  anything else. So the `cd "<dir>" &&` hook form is never written
  (`HooksAreBare`).
- The `updatePackageScripts` comment promises not to override existing
  scripts. The spread lets the new scripts win, and the model follows the
  spread.
- `lavy commit --edit` reads the last command-line argument as the path.
- `lavy-cli verify-commit` prints "Commit message is valid." before its error
  text. Its own help example `chore(release): update changelog` has no emoji,
  so it is rejected whenever the emoji does not start with `c`
  (`HelpExampleNeedsEmoji`).
- `generateConfigs` and `generateTemplate` call `generateEslintConfigString`
  with one options object although it takes four arguments. The framework,
  TypeScript and module-type arguments are then `undefined`, so the text
  written is the template with every block removed, left in ESM form, whatever
  the options (`WrittenEslintDropsBlocks`). The write records still name the
  options passed, and the four-argument rendering is modelled on its own
  (`Templates.GenerateEslintConfigString`).
- `pm.ts` prefers pnpm-lock.yaml, while `lavy-cli` prefers yarn.lock
  (`CliManagerDiffersFromDetect`).

## Model

| member | source | states |
|---|---|---|
| ConfigTypes.OverlayIsSpread | packages/lavy/src/utils/commit-validator.ts:25 | the object the merged commit section denotes is the JavaScript spread `{...base, ...over}` of the two objects: every key of `over` wins, every other key of `base` stays, no other key appears |
| ConfigTypes.OverlayIdempotent | packages/lavy/src/utils/commit-validator.ts:150 | spreading the same overrides twice equals spreading them once |
| ConfigTypes.OverlayEmpty | packages/lavy/src/utils/commit-validator.ts:23-25 | spreading no options leaves the base unchanged |
| ConfigTypes.Get | packages/lavy/src/config/index.ts:89-90 | reading a property fails (a TypeError) exactly on `null` and `undefined` |
| ConfigTypes.CommitValue | packages/lavy/src/types/config.ts:4-10 | the JS object of a typed commit section exposes each of its five keys |
| Config.MergeConfig | packages/lavy/src/config/index.ts:38-66 | without a user commit section the defaults come back; otherwise rules and patterns are default then user, types are the user's whenever given (even empty), scalars are the user's when given; lint and project always stay the defaults' |
| Config.MergeNotIdempotent | packages/lavy/src/config/index.ts:50-53 | merging the same user configuration twice duplicates its rules |
| Config.MergeOverDefault | packages/lavy/src/config/index.ts:18-24 | over the defaults the merged section is the user's rules/patterns, the user's types or the eleven defaults, the user's maxLength or 72 and allowMergeCommits or true |
| Config.CheckTypes | packages/lavy/src/config/index.ts:101-113 | the loop reports the array error or at most one element error, as the spec function says |
| Config.CheckRules | packages/lavy/src/config/index.ts:115-135 | the loop stops at the first bad rule and throws on a null/undefined entry, as the spec function says |
| Config.CheckPatterns | packages/lavy/src/config/index.ts:137-149 | the loop reports the array error or at most one element error, as the spec function says |
| Config.ValidateConfig | packages/lavy/src/config/index.ts:80-157 | the method computes the report (or the TypeError) the spec function defines |
| Config.RulesErrorAtMostOne | packages/lavy/src/config/index.ts:120-133 | the rules check yields at most one error, the pattern or the message error |
| Config.RulesErrorThrows | packages/lavy/src/config/index.ts:120-121 | the rule check throws exactly when a null/undefined rule comes before every bad rule |
| Config.ValidationAtMostOneErrorPerField | packages/lavy/src/config/index.ts:85-157 | valid exactly when no errors; at most four errors and one warning |
| Config.ValidationWithoutCommit | packages/lavy/src/config/index.ts:89 | without a truthy `commit` the report is valid and empty |
| Config.ValidationMaxLength | packages/lavy/src/config/index.ts:93-99 | error exactly for a given non-positive or non-number maxLength; the warning exactly for a number above 200 |
| Config.TypedRulesError | packages/lavy/src/config/index.ts:116-135 | for well-typed rules the only possible error is an empty message |
| Config.TypedConfigValidation | packages/lavy/src/config/index.ts:80-157 | a well-typed configuration never throws and passes exactly when maxLength is positive, types are non-empty and rule messages non-empty |
| Config.GetDefaultConfig | packages/lavy/src/config/index.ts:71-75 | a configuration with only a commit section: no rules or patterns, eleven types including feat and fix, maxLength 72, merge commits allowed |
| Config.DefaultConfigIsValid | packages/lavy/src/config/index.ts:71-75 | the default configuration passes with no warning |
| ConfigLoader.LoadConfig | packages/lavy/src/utils/config-loader.ts:13-50 | the result always has a commit section, and is the default when the file is missing or its import throws |
| ConfigLoader.GetCommitConfig | packages/lavy/src/utils/config-loader.ts:52-57 | the default commit section when loading did not succeed |
| ConfigLoader.GetCommitConfigLoaded | packages/lavy/src/utils/config-loader.ts:43-56 | a loaded file's commit keys replace the defaults key by key (rules/patterns: the user's only; types, 72, true otherwise) |
| ConfigLoader.EmptyTypesRejectEveryType | packages/lavy/src/utils/config-loader.ts:43-45 | a file with `types: []` makes every typed non-merge message fail with the type error |
| ConfigLoader.FamilyOf | packages/lavy/src/utils/config-loader.ts:209-229 | one family per name, by priority: lavy exactly when the name contains "lavy"; eslint exactly when it contains "eslint" but not "lavy"; prettier, stylelint and biome likewise each after the ones before; "other" exactly when it contains none of the five |
| ConfigLoader.ConflictsFor | packages/lavy/src/utils/config-loader.ts:209-229 | at most one conflict per file, none exactly for lavy.config.js/ts |
| ConfigLoader.Add | packages/lavy/src/utils/config-loader.ts:210-227 | the file is appended to its category and the others are unchanged |
| ConfigLoader.DetectConfigConflict | packages/lavy/src/utils/config-loader.ts:151-243 | the loop computes the conflict information the spec function defines |
| ConfigLoader.ScanExisting | packages/lavy/src/utils/config-loader.ts:203-206 | the files found are the listed files that exist, in list order and with nothing else (`ExistingIn`, an order-preserving filter) |
| ConfigLoader.ScanFiles | packages/lavy/src/utils/config-loader.ts:203-231 | no more files are found than listed, and at most one conflict per found file |
| ConfigLoader.ScanPartition | packages/lavy/src/utils/config-loader.ts:208-229 | each found file is in exactly one category, its family's |
| ConfigLoader.ScanConflicts | packages/lavy/src/utils/config-loader.ts:211-228 | no conflicts exactly when all found files are the two current lavy files; every other file yields one conflict |
| ConfigLoader.NamedAfterIncludes | packages/lavy/src/utils/config-loader.ts:164-201 | a file name starting with a tool name contains it |
| ConfigLoader.CandidatesHaveFamilies | packages/lavy/src/utils/config-loader.ts:164-201 | no candidate file falls into "other" |
| ConfigLoader.CanonicalAreLavy | packages/lavy/src/utils/config-loader.ts:209-211 | the two current lavy files are in the lavy family |
| ConfigLoader.ScanClassifies | packages/lavy/src/utils/config-loader.ts:203-231 | the scan of family-named files: found files, partition, empty "other", one conflict per non-canonical file |
| ConfigLoader.DetectionClassifies | packages/lavy/src/utils/config-loader.ts:151-243 | found files are the existing candidates in candidate order, each in its family's category, never "other"; a conflict exactly when a found file is not lavy.config.js/ts |
| ConfigLoader.ConflictInfoOf | packages/lavy/src/utils/config-loader.ts:151-243 | `hasConflict` exactly when the conflict list is non-empty; no more conflicts than found files, no more found files than candidates |
| ConfigLoader.AnyCanonical | packages/lavy/src/utils/config-loader.ts:239-241 | the `some` loop finds a current lavy file exactly when the lavy category holds one |
| ConfigLoader.ScanHasCanonical | packages/lavy/src/utils/config-loader.ts:239-241 | the lavy category holds a current lavy file exactly when one was listed and exists |
| ConfigLoader.HasLavyConfigIff | packages/lavy/src/utils/config-loader.ts:239-241 | hasLavyConfig exactly when lavy.config.js or lavy.config.ts exists |
| ConfigLoader.ResolveConfigConflict | packages/lavy/src/utils/config-loader.ts:245-324 | the method returns the outcome and remaining files the spec function defines |
| ConfigLoader.Resolution | packages/lavy/src/utils/config-loader.ts:245-324 | files are only removed; go on exactly when forced or conflict-free; when it does not go on, nothing is removed |
| ConfigLoader.ResolutionDeletes | packages/lavy/src/utils/config-loader.ts:249-271 | only files are removed; go on exactly when forced or conflict-free; unforced deletes nothing; canonical and unknown files stay; forced, a conflicting file remains exactly when its deletion fails |
| ConfigLoader.ForcedResolutionClears | packages/lavy/src/utils/config-loader.ts:255-270 | a forced resolution whose deletions all succeed leaves no conflict and keeps hasLavyConfig |
| PackageManagers.DetectPackageManager | packages/lavy/src/utils/pm.ts:3-7 | pnpm exactly when pnpm-lock.yaml exists, else yarn exactly when yarn.lock exists, else npm |
| PackageManagers.DetectionIgnoresOtherFiles | packages/lavy/src/utils/pm.ts:3-7 | files other than the two lockfiles never change the choice |
| PackageManagers.NamesDistinct | packages/lavy/src/utils/pm.ts:3 | the three manager names are distinct |
| CommitValidation.TypeRun | packages/lavy/src/utils/commit-validator.ts:82 | the `[a-z][a-z0-9-]*` run is the longest prefix of type characters |
| CommitValidation.CloseParen | packages/lavy/src/utils/commit-validator.ts:82 | `\([^)]*\)` ends at the first `)` and no earlier one exists; None exactly when there is no `)` |
| CommitValidation.HeaderType | packages/lavy/src/utils/commit-validator.ts:81-88 | a captured type is a valid type token and a prefix of the message |
| CommitValidation.HeaderTypeMatches | packages/lavy/src/utils/commit-validator.ts:81-88 | the header type exists exactly when some split into type, optional scope, spaces and colon matches, and then it is that split's type |
| CommitValidation.HeaderMatchIsFound | packages/lavy/src/utils/commit-validator.ts:81-88 | every split matching the header pattern yields its type as group 1 |
| CommitValidation.HeaderMatchTypeRun | packages/lavy/src/utils/commit-validator.ts:82 | in any match the type group is the whole type run (the regex never backtracks into it) |
| CommitValidation.HeaderMatchScope | packages/lavy/src/utils/commit-validator.ts:82 | in any match the optional scope group is the one the scanner finds |
| CommitValidation.RuleErrors | packages/lavy/src/utils/commit-validator.ts:98-102 | at most one error per rule |
| CommitValidation.PatternWarnings | packages/lavy/src/utils/commit-validator.ts:105-109 | at most one warning per custom pattern |
| CommitValidation.HeaderResult | packages/lavy/src/utils/commit-validator.ts:87-116 | valid exactly when there are no errors |
| CommitValidation.TrimmedValidation | packages/lavy/src/utils/commit-validator.ts:57-116 | valid exactly when there are no errors |
| CommitValidation.Validation | packages/lavy/src/utils/commit-validator.ts:47-117 | `isValid` holds exactly when the error list is empty (line 113) |
| CommitValidation.InitializeRules | packages/lavy/src/utils/commit-validator.ts:29-34 | `rules` becomes present, absent rules become `[]`, every other field is unchanged |
| CommitValidation.WithRule | packages/lavy/src/utils/commit-validator.ts:39-42 | the rule is appended after the existing ones (an absent list counts as empty); nothing else changes |
| CommitValidation.FormatCommitMessage | packages/lavy/src/utils/commit-validator.ts:134-137 | `type(scope): subject` for a non-empty scope, `type: subject` otherwise |
| CommitValidation.Bullets | packages/lavy/src/utils/commit-validator.ts:125 | one `  • type` line per type, in order |
| CommitValidation.TypeDescription | packages/lavy/src/utils/commit-validator.ts:122-129 | starts with the heading and lists every type as a bullet |
| CommitValidation.TypeDescriptionLayout | packages/lavy/src/utils/commit-validator.ts:122-129 | the heading, one `  • type` line per type in list order joined by line breaks, then the fixed format and example footer |
| CommitValidation.CollectRuleErrors | packages/lavy/src/utils/commit-validator.ts:98-102 | the loop collects exactly the messages of the failing rules, in order |
| CommitValidation.CollectPatternWarnings | packages/lavy/src/utils/commit-validator.ts:105-109 | the loop collects exactly the warnings of the failing patterns, in order |
| CommitValidation.CommonErrorsNonMerge | packages/lavy/src/utils/commit-validator.ts:70-75 | the merge error is never raised for a message not starting with `Merge` |
| CommitValidation.ValidateBlank | packages/lavy/src/utils/commit-validator.ts:52-55 | an empty or all-white-space message yields only the "empty" error |
| CommitValidation.ValidateTooLong | packages/lavy/src/utils/commit-validator.ts:60-67 | a message over `maxLength` UTF-16 units is invalid, the length error comes first and the rest is what validation without a limit gives |
| CommitValidation.ValidateMerge | packages/lavy/src/utils/commit-validator.ts:70-78 | a `Merge…` message skips the type, rule and pattern checks: only length and the merge flag matter |
| CommitValidation.MergeBranchMainShape | packages/lavy/src/commands/commit.ts:338 | the self-test message `Merge branch main` is trimmed, starts with `Merge` and has 17 units |
| CommitValidation.MergeValidUnderDefaults | packages/lavy/src/utils/commit-validator.ts:70-78 | under the defaults every short `Merge…` message is valid with no warnings |
| CommitValidation.MergeBranchMainIsValid | packages/lavy/src/commands/commit.ts:337-341 | the self-test case `Merge branch main` passes under the defaults |
| CommitValidation.ValidateNoHeader | packages/lavy/src/utils/commit-validator.ts:84-86 | without a `type:` header validation stops with the format error after the length error, and no warnings |
| CommitValidation.ValidateUnsupportedType | packages/lavy/src/utils/commit-validator.ts:87-109 | with a header: the length error, the type error exactly when the type is not configured, then the failing rules; warnings are the failing patterns |
| CommitValidation.RuleErrorsAppend | packages/lavy/src/utils/commit-validator.ts:98-102 | rule errors of a concatenation are the concatenation of the rule errors |
| CommitValidation.RuleErrorsAreFailingRules | packages/lavy/src/utils/commit-validator.ts:98-102 | no rule errors exactly when every rule's pattern accepts; each failing rule's message is reported |
| CommitValidation.PatternWarningsAreFailingPatterns | packages/lavy/src/utils/commit-validator.ts:105-109 | no warnings exactly when every pattern accepts; each failing pattern is reported |
| CommitValidation.PatternsNeverAffectValidity | packages/lavy/src/utils/commit-validator.ts:104-115 | custom patterns change warnings only, never the errors or the verdict |
| CommitValidation.AddedRuleRunsLast | packages/lavy/src/utils/commit-validator.ts:39-42 | after `addRule` the errors are the old ones plus the new rule's message when it fails on a typed non-merge message; warnings unchanged |
| CommitValidation.InitializeRulesKeepsValidation | packages/lavy/src/utils/commit-validator.ts:29-34 | normalising absent rules to `[]` never changes a verdict |
| CommitValidation.DefaultValidatorConfig | packages/lavy/src/utils/commit-validator.ts:23-27 | a validator built without options holds exactly the default configuration |
| CommitValidation.UpdateIdempotent | packages/lavy/src/utils/commit-validator.ts:149-152 | applying the same `updateConfig` twice equals applying it once |
| CommitValidation.FormattedHeaderParses | packages/lavy/src/utils/commit-validator.ts:134-137 | a message built by `formatCommitMessage` from a valid type parses back to that type |
| CommitValidation.LowerStartIsNotMerge | packages/lavy/src/utils/commit-validator.ts:71 | a message starting with a lower-case letter is never a merge message |
| CommitValidation.HeaderMatchPrefix | packages/lavy/src/utils/commit-validator.ts:82 | a header match survives cutting the text after the colon |
| CommitValidation.FormattedHeaderMatch | packages/lavy/src/utils/commit-validator.ts:134-137 | the formatted message matches the header pattern with the type as group 1 |
| CommitValidation.TrimKeepsHeader | packages/lavy/src/utils/commit-validator.ts:57-88 | trimming a message with a header keeps its first character and its header type |
| CommitValidation.FormattedTrimmedHeader | packages/lavy/src/utils/commit-validator.ts:57-88 | after trimming a formatted message it is non-empty, not a merge message and has the given type |
| CommitValidation.FormattedMessageIsValid | packages/lavy/src/utils/commit-validator.ts:47-137 | a formatted message of a configured type that all rules accept and that fits the length limit is valid |
| CommitValidation.CommitValidator.constructor | packages/lavy/src/utils/commit-validator.ts:23-27 | the configuration is the defaults overlaid with the options, rules normalised |
| CommitValidation.CommitValidator.AddRule | packages/lavy/src/utils/commit-validator.ts:39-42 | the new configuration is the old one with the rule appended |
| CommitValidation.CommitValidator.UpdateConfig | packages/lavy/src/utils/commit-validator.ts:149-152 | the new configuration is the old one overlaid with the update, rules normalised |
| CommitValidation.CommitValidator.GetConfig | packages/lavy/src/utils/commit-validator.ts:142-144 | returns the current configuration (the source returns a shallow copy that shares the `rules` and `types` arrays; that sharing is not modelled) |
| CommitValidation.CommitValidator.GetTypeDescription | packages/lavy/src/utils/commit-validator.ts:122-129 | the description lists every configured type |
| CommitValidation.CommitValidator.Validate | packages/lavy/src/utils/commit-validator.ts:47-117 | the result is the validation of the message under the current configuration |
| CommitValidation.CheckHeader | packages/lavy/src/utils/commit-validator.ts:79-117 | for a non-merge message: the format error and an early return without a header, otherwise the type, rule and pattern checks; the result is that of the trimmed-message validation |
| CommitValidation.CheckTyped | packages/lavy/src/utils/commit-validator.ts:89-117 | once the header gave a type: the common errors, the type error, the rule errors and the pattern warnings, as the header result defines |
| CommitValidation.CheckCommon | packages/lavy/src/utils/commit-validator.ts:59-75 | the length error when a maximum is set and exceeded, then the merge error for a `Merge` message when merges are disallowed |
| CommitCommand.JsStringOf | packages/lavy/src/commands/commit.ts:23 | `String(undefined)` is the text `undefined`; a given message is kept |
| CommitCommand.RunCommitCommand | packages/lavy/src/commands/commit.ts:21-57 | the first of init, config, test and edit that is set wins; with none set, a non-empty `String(message)` is validated as the message (an absent `-m` validates the text `undefined`), and the current commit is checked only for an explicit empty message |
| CommitCommand.SpaceSkipped | packages/lavy/src/commands/commit.ts:106 | leading white space does not change whether the closing pattern matches |
| CommitCommand.ClosingSuffixAccepts | packages/lavy/src/commands/commit.ts:106 | every text of the form spaces `}` spaces `)` spaces optional `;` spaces matches the closing pattern |
| CommitCommand.ClosingSuffixStart | packages/lavy/src/commands/commit.ts:105-108 | finds the leftmost position from which the rest matches the anchored closing pattern, or reports there is none |
| CommitCommand.InitConfig | packages/lavy/src/commands/commit.ts:59-132 | no file: the created configuration; a file already mentioning `commit:` is left alone; otherwise the commit section is inserted before the closing `})` |
| CommitCommand.BlockHasCommitKey | packages/lavy/src/commands/commit.ts:70-77 | any text holding the commit section contains `commit:` |
| CommitCommand.InsertedBlock | packages/lavy/src/commands/commit.ts:103-108 | the section is inserted, with `,\n`, just before the leftmost closing match, and the result contains `commit:` |
| CommitCommand.CommitBlockOpens | packages/lavy/src/commands/commit.ts:77-101 | the generated section starts with the `commit: {` line |
| CommitCommand.InsertCommitBlock | packages/lavy/src/commands/commit.ts:105-108 | with a closing `})` suffix the block goes in front of the leftmost one, behind a comma and between line breaks, and the text before and after it is kept; otherwise the text is unchanged |
| CommitCommand.NoSuffixUnchanged | packages/lavy/src/commands/commit.ts:105-108 | a file without a closing `})` is written back unchanged |
| CommitCommand.CreateCommitConfig | packages/lavy/src/utils/config-loader.ts:118-147 | the created file starts with the `defineConfig` import and default export and ends by closing the call |
| CommitCommand.CreatedConfigHasCommit | packages/lavy/src/commands/commit.ts:117-123 | a freshly created configuration contains `commit:` |
| CommitCommand.InitConfigSettles | packages/lavy/src/commands/commit.ts:62-110 | for a file ending in `})` the insertion happens and a second `--init` finds `commit:` |
| CommitCommand.CommandConfig | packages/lavy/src/commands/commit.ts:417-418 | the validator's configuration has rules present and is the default when loading failed |
| CommitCommand.ValidateMessage | packages/lavy/src/commands/commit.ts:415-450 | exit status 1 exactly when the message is invalid; warnings alone never fail |
| CommitCommand.CommitFilePath | packages/lavy/src/commands/commit.ts:477-479 | the last argument when it is non-empty, the default path otherwise |
| CommitCommand.ValidateCommitFile | packages/lavy/src/commands/commit.ts:474-505 | a missing or empty file fails; otherwise the exit status follows the validation of the trimmed text |
| CommitCommand.ValidateCurrentCommit | packages/lavy/src/commands/commit.ts:452-472 | a failing `git log` or an empty message fails; otherwise the exit status follows the validation of the trimmed text |
| CommitCommand.TrimmedFileSameVerdict | packages/lavy/src/commands/commit.ts:488 | trimming before validation changes nothing, since the validator trims itself |
| CommitCommand.Outcomes | packages/lavy/src/commands/commit.ts:368-371 | one pass/fail bit per test case, each the comparison of verdict and expectation |
| CommitCommand.CountTrueBounds | packages/lavy/src/commands/commit.ts:365-374 | the count of true bits is at most the length, and equals it exactly when all bits are true |
| CommitCommand.PassedCountBounds | packages/lavy/src/commands/commit.ts:387-389 | passed ≤ total, and all pass exactly when every case's verdict matches its expectation |
| CommitCommand.CountPassed | packages/lavy/src/commands/commit.ts:365-384 | the loop counts exactly the cases that pass |
| CommitCommand.RunTests | packages/lavy/src/commands/commit.ts:251-413 | 16 cases run and the number passed is the count of matching verdicts |
| Records.Put | packages/lavy/src/core/initCommitlint.ts:211 | assigning a key sets it, leaves every other key, and appends the key to the order only when it is new |
| Records.Empty | packages/lavy/src/core/initCommitlint.ts:206 | the empty object has no keys |
| Records.SpreadFrom | packages/lavy/src/core/initCommitlint.ts:277-280 | spreading a suffix of `b`'s keys over `a`: those keys take `b`'s values, the rest keep `a`'s, and `a`'s key order is kept as a prefix |
| Records.Spread | packages/lavy/src/core/initCommitlint.ts:277-280 | `{...a, ...b}`: every key of `b` takes `b`'s value, the others keep `a`'s, and `a`'s keys keep their order |
| InitCommitlint.AddLanguagePatterns | packages/lavy/src/core/initCommitlint.ts:208-216 | the language entries are appended in source order with their commands |
| InitCommitlint.AddFrameworkPatterns | packages/lavy/src/core/initCommitlint.ts:218-227 | the framework entry is appended with its commands |
| InitCommitlint.AddStylePatterns | packages/lavy/src/core/initCommitlint.ts:229-240 | the style entry is appended with its commands |
| InitCommitlint.AxesDisjoint | packages/lavy/src/core/initCommitlint.ts:205-246 | language, framework, style and general patterns never collide, so no assignment overwrites another |
| InitCommitlint.GenerateLintStagedConfig | packages/lavy/src/core/initCommitlint.ts:205-246 | the keys, in order, are the language, framework, style and general patterns, each with its commands, and nothing else |
| InitCommitlint.LintStagedTable | packages/lavy/src/core/initCommitlint.ts:209-243 | the general entry is always there with `prettier --write`; ts adds ts and js entries, js only js; react and solid give the same table; vue and svelte add their own |
| InitCommitlint.UnknownValuesAddNothing | packages/lavy/src/core/initCommitlint.ts:209-240 | unknown language, framework or style values add no entry; at most five entries |
| InitCommitlint.AllDeps | packages/lavy/src/core/initCommitlint.ts:128-131 | the spread of dependencies then devDependencies: devDependencies win on a shared name |
| InitCommitlint.MissingFrom | packages/lavy/src/core/initCommitlint.ts:133-134 | a required name is missing exactly when it is absent or has an empty (falsy) version |
| InitCommitlint.MissingDeps | packages/lavy/src/core/initCommitlint.ts:133-134 | the missing dependencies are exactly husky and lint-staged when absent, at most two |
| InitCommitlint.MissingDepsInOrder | packages/lavy/src/core/initCommitlint.ts:133-134 | the missing list is husky then lint-staged, each only when missing |
| InitCommitlint.CheckDependencies | packages/lavy/src/core/initCommitlint.ts:120-141 | no error exactly when package.json exists and has both husky and lint-staged; the error names every missing one |
| InitCommitlint.HookCommand | packages/lavy/src/core/initCommitlint.ts:48-50 | the bare command with a local package.json, else prefixed by `cd "<workDir>" && ` |
| InitCommitlint.InitCommitlintSetup | packages/lavy/src/core/initCommitlint.ts:11-80 | setup proceeds exactly when the dependency check passes and `git rev-parse` gives a non-empty root |
| InitCommitlint.HooksAreBare | packages/lavy/src/core/initCommitlint.ts:28-73 | whenever setup proceeds, the work directory is the current one and both hooks hold the bare commands |
| InitCommitlint.NewScriptsValid | packages/lavy/src/core/initCommitlint.ts:265-274 | the eight new scripts form a well-formed object |
| InitCommitlint.UpdatePackageScripts | packages/lavy/src/core/initCommitlint.ts:248-291 | without package.json nothing is written; otherwise the package.json written back is the one with the eight new scripts (a well-formed object) spread over its scripts, or over `{}` when it has none |
| InitCommitlint.ScriptsUpdatedSpec | packages/lavy/src/core/initCommitlint.ts:259-280 | only `scripts` changes: every spread script overrides, every other script is kept, and the old key order is a prefix of the new one |
| Install.Parent | packages/lavy/src/core/install.ts:27-28 | `dirname`: the root is its own parent, any other directory loses its last component |
| Install.FindWorkspaceRoot | packages/lavy/src/core/install.ts:14-32 | the result is the nearest ancestor of the working directory (itself included) holding pnpm-workspace.yaml or a package.json with `workspaces`; None exactly when no ancestor does |
| Install.PushEslintPackages | packages/lavy/src/core/install.ts:52-84 | appends exactly the ESLint-side packages the options call for |
| Install.PushStylePackages | packages/lavy/src/core/install.ts:86-98 | appends exactly the Stylelint packages the options call for |
| Install.CollectDevDeps | packages/lavy/src/core/install.ts:42-103 | the collected list is the reference development-package list, in push order |
| Install.BiomeReplacesPrettier | packages/lavy/src/core/install.ts:46-50 | Biome is installed exactly when chosen, and Prettier exactly when it is not |
| Install.DevPackages | packages/lavy/src/core/install.ts:53-103 | the linter package is pushed first and, with commitlint, husky, lint-staged and tsx last |
| Install.BiomeHasNoEslintPackages | packages/lavy/src/core/install.ts:53-84 | with Biome no ESLint-only package is installed |
| Install.EslintPackagesInstalled | packages/lavy/src/core/install.ts:53-84 | with ESLint, the core, TypeScript, React and Vue packages are installed as language and framework ask |
| Install.StylePackagesInstalled | packages/lavy/src/core/install.ts:87-98 | stylelint exactly when a style is chosen; the Vue, SCSS and Less plugins exactly under their conditions |
| Install.StyleOnlyFromStyle | packages/lavy/src/core/install.ts:87-98 | the Stylelint packages come only from the style step |
| Install.CommitPackagesInstalled | packages/lavy/src/core/install.ts:101-103 | husky exactly when commit linting is on, and then lint-staged and tsx too |
| Install.Specifiers | packages/lavy/src/core/install.ts:47-102 | one specifier per package, in order |
| Install.DepsArgs | packages/lavy/src/core/install.ts:108-113 | a runtime install: `install` for npm, `add` otherwise, never a dev flag, always quiet |
| Install.DevArgs | packages/lavy/src/core/install.ts:115-120 | a development install: `install --save-dev` for npm, `add -D` otherwise, always quiet |
| Install.InstallFlags | packages/lavy/src/core/install.ts:115-132 | the manager's dev flags, with `-w` in front for pnpm and `-W` behind for yarn inside a workspace; npm unchanged |
| Install.InstallDeps | packages/lavy/src/core/install.ts:34-155 | exactly one install runs: the detected manager, its flags then all specifiers; it runs in the nearest directory at or above the working directory that marks a workspace root (what `findWorkspaceRoot` finds), and without a `cwd` exactly when no such directory exists |
| Generate.ModuleTypeOf | packages/lavy/src/core/generate.ts:73 | esm exactly for a `module` package |
| Generate.GenerateTemplate | packages/lavy/src/core/generate.ts:65-150 | the method writes exactly the reference list of files and contents |
| Generate.WritesConcat | packages/lavy/src/core/generate.ts:86-149 | a file is written by two write lists exactly when one of them writes it |
| Generate.WritesIf | packages/lavy/src/core/generate.ts:81-82 | a conditional write writes the file exactly when the condition holds |
| Generate.TemplateWritesFile | packages/lavy/src/core/generate.ts:81-149 | each of the five files is written exactly when its tool is chosen and `shouldWrite` allows it |
| Generate.MergeNeverOverwrites | packages/lavy/src/core/generate.ts:81-82 | in merge mode no existing file is written |
| Generate.ForceIgnoresExisting | packages/lavy/src/core/generate.ts:81-82 | in force mode the existing files make no difference |
| Generate.TemplateDefaults | packages/lavy/src/core/generate.ts:74 | an absent mode acts as force and an absent linter as ESLint |
| Generate.BiomeChoosesFiles | packages/lavy/src/core/generate.ts:84-127 | with Biome neither ESLint nor Prettier files are written and biome.json follows `shouldWrite`; without Biome no biome.json |
| Generate.StyleAndTsFiles | packages/lavy/src/core/generate.ts:129-149 | stylelint.config.js exactly with a style, tsconfig.json exactly for TypeScript, each subject to `shouldWrite` |
| Generate.ModuleTypeFollowsPackage | packages/lavy/src/core/generate.ts:72-73 | the module type passed to the ESLint generator and recorded for tsconfig is esm exactly for a `module` package |
| Generate.ShouldWrite | packages/lavy/src/core/generate.ts:81-82 | a forced run always writes; a merge run writes exactly the files that do not exist |
| Generate.TemplateWrites | packages/lavy/src/core/generate.ts:65-150 | at most four files are written and none twice |
| Generate.WrittenEslintDropsBlocks | packages/lavy/src/core/generate.ts:23 | the ESLint text both generators write, calling the generator with one argument, is the template with every typescript, react and vue block removed and in ESM form, whatever the options |
| Generate.GenerateConfigs | packages/lavy/src/core/generate.ts:19-62 | eslint then prettier are always written; stylelint exactly with a style; tsconfig exactly for TypeScript |
| Templates.GetPackageJsonType | packages/lavy/src/core/utils.ts:7-22 | `module` exactly when package.json parses and its `type` is `"module"`; missing or unparsable gives commonjs |
| Templates.Expand | packages/lavy/src/core/utils.ts:45-67 | the reference meaning of one block pass, segment by segment |
| Templates.ExpandRemovesBlocks | packages/lavy/src/core/utils.ts:45-67 | after a pass no block of that name remains and every other segment is unchanged |
| Templates.ExpandWellFormed | packages/lavy/src/core/utils.ts:45-67 | a pass keeps a template well-formed |
| Templates.PlainHasNoMarker | packages/lavy/src/core/utils.ts:48 | no `{{` marker starts inside plain text |
| Templates.RenderSkip | packages/lavy/src/core/utils.ts:47-52 | text without an opening marker passes through the global replacement unchanged |
| Templates.RenderBlockHere | packages/lavy/src/core/utils.ts:47-52 | a block at the start becomes its body (`$1`) or nothing, and the scan continues after `{{/if}}` |
| Templates.OpenDiffers | packages/lavy/src/core/utils.ts:48 | the opening marker of one block name never starts that of another |
| Templates.OtherBlockHasNoMarker | packages/lavy/src/core/utils.ts:47-66 | a block of another name holds no opening marker of this one |
| Templates.RenderPrinted | packages/lavy/src/core/utils.ts:45-67 | the lazy-regex replacement on a printed template equals printing the segment-wise expansion |
| Templates.EslintBlocksExpand | packages/lavy/src/core/utils.ts:36-67 | the three passes (typescript, react, vue) equal the segment-wise expansion |
| Templates.ExpandEslintLeavesOthers | packages/lavy/src/core/utils.ts:36-67 | only typescript, react and vue blocks are touched |
| Templates.ExportRewriteIsClean | packages/lavy/src/core/utils.ts:100-103 | the replacement text cannot recreate the ESM export |
| Templates.ToCommonJs | packages/lavy/src/core/utils.ts:69-103 | none of the seven `import … from '…'` lines and no `export default defineConfig(` is left after the rewrite |
| Templates.ToCommonJsIdentity | packages/lavy/src/core/utils.ts:69-103 | a text with none of the seven import lines and no default export comes back unchanged |
| Templates.ImportLineBecomesRequire | packages/lavy/src/core/utils.ts:70-98 | an import line that occurs once becomes its `const … = require('…')` call and the text around it is kept |
| Templates.ExportBecomesModuleExports | packages/lavy/src/core/utils.ts:100-103 | a single `export default defineConfig(` becomes `module.exports = defineConfig(` and the text around it is kept |
| Templates.ReplaceEachOneLine | packages/lavy/src/core/utils.ts:70-102 | a chain of global replacements in which one pattern occurs once and no other occurs replaces just that occurrence |
| Templates.RewritesClean | packages/lavy/src/core/utils.ts:70-102 | no `require` line and not the CommonJS export can create an import line or the ESM export, whatever surrounds it |
| Templates.ReplaceEachIdentity | packages/lavy/src/core/utils.ts:70-102 | the chained global replacements leave a text in which no pattern occurs unchanged |
| Templates.ReplaceEachRemoves | packages/lavy/src/core/utils.ts:70-102 | when no replacement can create its own or an earlier pattern, no pattern survives the chain |
| Templates.RenderBlocks | packages/lavy/src/core/utils.ts:45-67 | the block pass never lengthens the text (its meaning on well-formed templates is `RenderPrinted`) |
| Templates.GenerateEslintConfigString | packages/lavy/src/core/utils.ts:24-107 | ESM: the rendered blocks; CJS: their CommonJS rewrite, which contains none of the seven import lines and no ESM export |
| Templates.DefaultExportRewriteIsClean | packages/lavy/src/core/utils.ts:120 | the replacement text cannot recreate `export default ` |
| Templates.DefaultExportFor | packages/lavy/src/core/utils.ts:109-141 | a module package keeps the template; a CommonJS one has no `export default ` left; a template without it is unchanged |
| Templates.DefaultExportBecomes | packages/lavy/src/core/utils.ts:119-137 | in a CommonJS package a single `export default ` becomes `module.exports = ` and the text around it is kept |
| LavyUtils.RemoveComment | packages/lavy/src/utils/index.ts:54-56 | the result is no longer than the input and starts and ends with a non-space character |
| LavyUtils.BlankComments | packages/lavy/src/utils/index.ts:55 | the global replacement never lengthens the text and removes a leading `#` line |
| LavyUtils.BlankKeepsLineBreaks | packages/lavy/src/utils/index.ts:54-56 | removing `#` comments keeps every line break, so line numbers are kept |
| LavyUtils.BlankLeavesNoComment | packages/lavy/src/utils/index.ts:54-56 | no line of the result starts with `#` |
| LavyUtils.BlankWithoutHash | packages/lavy/src/utils/index.ts:54-56 | text without `#` is left unchanged by the replacement |
| LavyUtils.RemoveCommentWithoutHash | packages/lavy/src/utils/index.ts:54-56 | for text without `#`, `removeComment` is just `trim` |
| LavyUtils.BlankPassesLine | packages/lavy/src/utils/index.ts:55 | a line that does not start with `#` is kept with its terminator, and the next line is scanned from its start |
| LavyUtils.BlankLastLine | packages/lavy/src/utils/index.ts:55 | a last line that does not start with `#` is kept |
| LavyUtils.BlankCommentLine | packages/lavy/src/utils/index.ts:55 | a `#` line loses its text and keeps its line terminator |
| LavyUtils.BlankLastCommentLine | packages/lavy/src/utils/index.ts:55 | a last line starting with `#` disappears |
| LavyUtils.CheckDependencies | packages/lavy/src/utils/index.ts:63-102 | the conflicts are the failing checks' messages in the source's order; conflicts exist exactly when the list is non-empty; each of the four messages appears exactly under its condition (Node below 18, yarn without yarn.lock, Biome with Vue, TypeScript without tsconfig.json), and the count is their sum |
| LavyUtils.MissingWarnings | packages/lavy/src/utils/index.ts:115-121 | at most one warning per name, each starting with the warning text |
| LavyUtils.MissingWarningsFor | packages/lavy/src/utils/index.ts:115-121 | a name's warning is reported exactly when it is required and missing |
| LavyUtils.MissingWarningsEmpty | packages/lavy/src/utils/index.ts:115-121 | no missing-entry warning exactly when every required name exists |
| LavyUtils.CollectMissing | packages/lavy/src/utils/index.ts:115-121 | the loop yields the missing-entry warnings in list order |
| LavyUtils.ValidateConfig | packages/lavy/src/utils/index.ts:109-145 | valid exactly when no warnings; the warnings are the missing files, then the package.json findings |
| LavyUtils.ValidateConfigValidIff | packages/lavy/src/utils/index.ts:109-145 | valid exactly when all required files exist and package.json parses to an object with scripts and dependencies |
| LavyUtils.ValidateConfigReportsMissing | packages/lavy/src/utils/index.ts:115-121 | a missing-file warning names exactly the required files that are absent |
| LavyUtils.ScanWarnings | packages/lavy/src/utils/index.ts:167-185 | at most two warnings per file; no warning only when every file could be read |
| LavyUtils.ScanWarningsEmpty | packages/lavy/src/utils/index.ts:167-185 | the scan reports nothing exactly when every file is readable and has neither `console.log` nor `debugger` |
| LavyUtils.ScanSources | packages/lavy/src/utils/index.ts:167-185 | the loop yields the scan warnings, stopping at the first unreadable file |
| LavyUtils.CheckProjectHealth | packages/lavy/src/utils/index.ts:152-196 | healthy exactly when no warnings; the warnings are the missing directories, the scan's findings or the quality error, then the Git warning |
| LavyUtils.CheckProjectHealthIff | packages/lavy/src/utils/index.ts:152-196 | healthy exactly when src, tests and .git exist, the glob succeeds and every source file is clean |
| LavyUtils.GetLavy | packages/lavy/src/utils/index.ts:226-236 | `lavy` plus the computed suffix is the ESLint configuration path for the language and framework |
| LavyUtils.EslintPath | packages/lavy/src/utils/index.ts:226-236 | the path is `lavy` followed by nothing or by `/` and the segments |
| LavyUtils.EslintPathBare | packages/lavy/src/utils/index.ts:226-236 | the path is plain `lavy` exactly for JavaScript with no framework |
| LavyUtils.EslintPathTypescriptReact | packages/lavy/src/utils/index.ts:226-236 | TypeScript with React gives `lavy/typescript/react` |
| LavyUtils.ApplyEslintPath | packages/lavy/src/utils/index.ts:236 | the first `{{ eslintPath }}` marker is replaced by the quoted path and the rest is kept |
| LavyUtils.GenerateConfig | packages/lavy/src/utils/index.ts:206-306 | an error naming the type exactly for an unknown type; vscode copies two files, ci one for GitHub Actions or GitLab CI and none otherwise, every other type one; the destination of each copy (biome.json, .eslintrc.js, .prettierrc.js, .editorconfig, .gitignore, tsconfig.json, .stylelintrc.js, the two .vscode files, the GitHub or GitLab CI file); only the eslint copy fills in the ESLint path and only the stylelint copy the Stylelint package |
| LavyUtils.GenerateConfigDestsDisjoint | packages/lavy/src/utils/index.ts:213-303 | two different configuration types never write the same file |
| CliUtils.CrLfRun | packages/lavy-cli/utils/index.ts:102 | `[\n\r]*` takes the longest leading run of CR/LF characters |
| CliUtils.StripComments | packages/lavy-cli/utils/index.ts:101-103 | the result is never longer than the message, and shorter when the message starts with `#` |
| CliUtils.StripFrom | packages/lavy-cli/utils/index.ts:102 | the global replacement never lengthens the text and removes a leading `#` line |
| CliUtils.StripLeavesNoComment | packages/lavy-cli/utils/index.ts:101-103 | no line of the result starts with `#` |
| CliUtils.StripWithoutHash | packages/lavy-cli/utils/index.ts:101-103 | text without `#` is returned unchanged (no trimming here) |
| CliUtils.StripCommentLine | packages/lavy-cli/utils/index.ts:102 | a leading comment line is removed together with its whole CR/LF run |
| CliUtils.StripPassesLine | packages/lavy-cli/utils/index.ts:102 | a line that does not start with `#` is kept with its terminator, and the next line is scanned from its start |
| CliUtils.StripLastLine | packages/lavy-cli/utils/index.ts:102 | a last line that does not start with `#` is kept |
| CliUtils.CliManager | packages/lavy-cli/utils/index.ts:48-54 | yarn exactly when yarn.lock exists, pnpm exactly when only pnpm-lock.yaml does |
| CliUtils.CliManagerDiffersFromDetect | packages/lavy-cli/utils/index.ts:48-54 | this choice differs from the main package's exactly when both lockfiles exist |
| CliUtils.CommandNames | packages/lavy-cli/utils/index.ts:58-60 | `includes("yarn")` holds exactly for the yarn command, and `includes("pnpm")` exactly for pnpm among the rest, with or without `.cmd` |
| CliUtils.InstallPackage | packages/lavy-cli/utils/index.ts:45-74 | the command is the manager's name, with `.cmd` on Windows; the arguments are its install flags (`-w` for a pnpm workspace) then the dependencies |
| CliUtils.InstallArgsEndWithDependencies | packages/lavy-cli/utils/index.ts:57-72 | the dependencies come last, in order, after two flags or three for a pnpm workspace |
| Cli.GetLavy | packages/lavy-cli/cli.ts:81-90 | `lavy` plus the suffix is the same ESLint path as the main package computes |
| Cli.InitCopies | packages/lavy-cli/cli.ts:77-135 | four copies always, plus tsconfig for TypeScript, stylelint for CSS and two for VS Code; the first fills the ESLint path into .eslintrc.js |
| Cli.InitWritesOptionalFiles | packages/lavy-cli/cli.ts:111-135 | tsconfig.json exactly for TypeScript, .stylelintrc.js exactly for CSS, the VS Code settings exactly for Vscode |
| Cli.InitInstalls | packages/lavy-cli/cli.ts:138-141 | eslint-config-lavy first, stylelint-config-lavy exactly for CSS |
| Cli.MatchesAtExtends | packages/lavy-cli/cli.ts:204-207 | a word matched at a position stays matched when text is appended |
| Cli.TailAtExtends | packages/lavy-cli/cli.ts:205 | the unanchored `.{1,50}` tail stays matched when text is appended |
| Cli.AcceptedExtends | packages/lavy-cli/cli.ts:204-208 | appending text to an accepted message keeps it accepted (the pattern is not anchored at the end) |
| Cli.MatchesExtends | packages/lavy-cli/cli.ts:204-208 | the same for any type and keyword lists |
| Cli.KeywordAccepted | packages/lavy-cli/cli.ts:205 | `Merge`, `Revert` or `Version` in any case, a space and a subject is accepted |
| Cli.KeywordMatches | packages/lavy-cli/cli.ts:205 | the same for any keyword list |
| Cli.TypedAccepted | packages/lavy-cli/cli.ts:205 | emoji, a listed type in any case, an optional scope, `: ` and a subject is accepted |
| Cli.TypedMatches | packages/lavy-cli/cli.ts:205 | the same for any type list |
| Cli.AcceptedHasSpace | packages/lavy-cli/cli.ts:205 | every accepted message contains a space |
| Cli.MatchesHasSpace | packages/lavy-cli/cli.ts:205 | the same for any type and keyword lists |
| Cli.FirstLetterMismatch | packages/lavy-cli/cli.ts:205 | a message whose first letter matches neither the emoji nor any keyword is rejected |
| Cli.HelpExampleNeedsEmoji | packages/lavy-cli/cli.ts:205-218 | the printed example `chore(release): update changelog` is rejected whenever the emoji does not start with `c` |
| Cli.HelpExampleWithoutEmoji | packages/lavy-cli/cli.ts:205-218 | with an empty emoji the printed example is accepted |
| Cli.MessagePath | packages/lavy-cli/cli.ts:166 | GIT_PARAMS when non-empty, else HUSKY_GIT_PARAMS; a path exactly when one of them is non-empty |
| Cli.Prepare | packages/lavy-cli/cli.ts:179 | the prepared message is no longer than the input, and empty for an all-space input |
| Cli.PrepareWithoutHash | packages/lavy-cli/cli.ts:179 | for a message without `#`, the prepared text is the trimmed message |
| Cli.VerifyCommit | packages/lavy-cli/cli.ts:163-226 | no source exactly when no argument and no environment path; unreadable exactly for a missing file; empty only for a read message; otherwise valid exactly when the prepared text matches the pattern |
| ProjectPlatform.SkipSpaces | packages/eslint-config-lavy/src/utils/platform.ts:13 | `\s*` ends at the first non-space at or after the start |
| ProjectPlatform.ValueAt | packages/eslint-config-lavy/src/utils/platform.ts:13 | a captured value is an alternative, in any case, followed by a quote; None exactly when none fits |
| ProjectPlatform.FirstMatchLeftmost | packages/eslint-config-lavy/src/utils/platform.ts:13 | the search returns the group of the leftmost match, and None exactly when no position matches |
| ProjectPlatform.Accept | packages/eslint-config-lavy/src/utils/platform.ts:14-16 | each platform exactly for its lower-case name |
| ProjectPlatform.GetProjectPlatform | packages/eslint-config-lavy/src/utils/platform.ts:6-21 | the loop returns the platform the files decide, in order |
| ProjectPlatform.NoConfigMeansBrowser | packages/eslint-config-lavy/src/utils/platform.ts:20 | without either configuration file the platform is browser |
| ProjectPlatform.PlatformFrom | packages/eslint-config-lavy/src/utils/platform.ts:6-21 | with none of the files present the platform is browser |
| ProjectPlatform.JsConfigWins | packages/eslint-config-lavy/src/utils/platform.ts:8-16 | a platform named in lavy.config.js wins over lavy.config.ts |
| ProjectPlatform.CapitalisedFallsThrough | packages/eslint-config-lavy/src/utils/platform.ts:13-14 | a value such as `Node` matches case-insensitively but is not accepted, so the next file decides |
| ProjectPlatform.SkipSpacesRun | packages/eslint-config-lavy/src/utils/platform.ts:13 | `\s*` stops right after a run of spaces |
| ProjectPlatform.MatchAtParts | packages/eslint-config-lavy/src/utils/platform.ts:13 | the keyword, spaces, a colon, spaces, a quote and a fitting alternative make a match |
| ProjectPlatform.MatchForm | packages/eslint-config-lavy/src/utils/platform.ts:13 | such a text yields exactly the alternative written, with either quote |
| ProjectPlatform.ValueOfName | packages/eslint-config-lavy/src/utils/platform.ts:13 | with distinct initials only the alternative written can fit |
| ProjectPlatform.PlatformNamesDistinct | packages/eslint-config-lavy/src/utils/platform.ts:13 | node, browser and universal start with different letters |
| ProjectPlatform.PlatformGroup | packages/eslint-config-lavy/src/utils/platform.ts:13 | a captured group is as long as one of node, browser and universal (its case may differ) |
| ProjectPlatform.UniversalExample | packages/eslint-config-lavy/src/utils/platform.ts:13 | `platform: "universal"` yields the group `universal` |

## Left out

- File and process I/O: reads, writes, `existsSync` and `unlinkSync` become parameters (a set of names or a map to contents); `process.exit` becomes a returned exit status; console output, spinners and colours are not modelled.
- Shell commands (`execa`, `spawn`, `husky install`, `chmod`, `git log`, `git rev-parse`): only the command and argument lists, and the decisions that feed them, are modelled. Their failures and exit codes are parameters or left out.
- Interactive prompts of both command lines: the answers are parameters.
- Importing `lavy.config.js` runs user code. Its outcome is a parameter: no file, an import that throws, or the loaded configuration. The warnings `loadConfig` prints are not modelled.
- User `RegExp`s in `rules` and `customPatterns` are opaque predicates. The `lastIndex` state of a `/g` pattern across calls is not modelled.
- The `/i` flag of the `verify-commit` and platform patterns, and the `toLowerCase` of the ESLint path segments (`getLavy` of `utils/index.ts` and of `lavy-cli`), are modelled by ASCII case folding; non-ASCII case folding is not.
- The `emoji` text of `lavy-cli verify-commit` comes from a module that is not part of this model. It is a parameter matched as literal text; regular-expression metacharacters in it are not interpreted.
- JavaScript `replace` interprets `$` patterns in its replacement text. Only `$1` is modelled. The fixed replacement texts contain no special `$` pattern, but the ESLint path replacement of `generateConfig` embeds the `language` and `framework` option strings, and `LavyUtils.Apply` inserts them literally: a `$&` or `$'` in an option string is not interpreted.
- Records.Spread: JavaScript objects list integer-like keys (such as `"1"` or `"42"`) first, in ascending numeric order, before the other keys in insertion order. The model keeps every key in insertion order, so a package.json script named like an integer is placed differently after the `updatePackageScripts` spread.
- `showConfig`, `showDefaultConfig` and `showDetailedConfig` of `commands/commit.ts` only print, and `createDefaultConfig` of `config-loader.ts` is never called by the modelled code; none is modelled.
- The self-test of `lavy commit` is modelled as counting verdicts. The messages of its sixteen cases are kept, but which cases pass under a given configuration is not computed.
- The Node version is a triple of numbers. Parsing `process.version` and pre-release tags are not modelled.
- The file list of the `checkProjectHealth` glob is a parameter; its `node_modules` and `dist` ignore patterns are not modelled. Its `fix` option is unused by the code and left out.
- `generateTsConfigString` and `generateTsConfigBaseString` are not part of this model. The tsconfig, Biome, Prettier and Stylelint file contents written by `generate.ts` are modelled as descriptions of what they are generated from, not as text.
- The ESLint file written by `generate.ts` is recorded by the options passed to the generator; the text it receives is `WrittenEslintText`, the template with every block off in ESM form, since the call passes one argument.
- The `mvFile` and `changeFile` wrappers: a copy is a record of template, destination and text transform; copy failures are not modelled. Template texts are not part of this model.
- LavyUtils.GenerateConfig: states the number of copies, their destinations, the error and which copies fill in a path, not the template name of each copy, because the template files are not part of this model.
- Overlay: a key explicitly set to `undefined` in the options is treated as absent. In JavaScript the spread copies it, so `new CommitValidator({ maxLength: undefined })` turns the length check off, while the model keeps the default 72; the same holds for `mergeConfig` (MergeConfig, MergeOverDefault, GetCommitConfigLoaded) and `updateConfig`.
- maxLength is an integer in the model. A `NaN` maximum (of type number, so accepted by the length test) makes both comparisons false and reports nothing, and a fractional maximum such as 72.5 changes the error text; neither is modelled.
- A loaded configuration is well-typed (`LoadOutcome.Loaded` holds a `LavyConfig`). A `null` rule, whose validation throws, and a `rules` value that cannot be spread into an array both end in `loadConfig`'s catch, which the model expresses as `ImportFailed` with the same result, the defaults. A rule whose pattern is not a `RegExp` loads in the source (the validation only reports it) and is not expressible.
- Aliasing between a `CommitValidator` and its caller is not modelled: the constructor keeps the caller's `rules` array, `addRule` pushes into it, and `getConfig` returns a shallow copy that shares the `rules` and `types` arrays. The model's configuration is a value.
- The package-level `installPackage` of `utils/index.ts`, the banner, the `cac` command-line wiring, `program.help` and the unknown-option handler of `lavy-cli` are user-interface glue and are not modelled.
- Asynchrony: every `await` is taken in program order; there is no concurrency in the modelled code.
- An unreadable commit-message file in `lavy-cli verify-commit` makes `readFileSync` throw, which the code does not catch. It is modelled as the `Unreadable` outcome.
