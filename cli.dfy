// The older lavy-cli command line (packages/lavy-cli/cli.ts): the files the
// `--init` action writes and the `verify-commit` check.

module Cli {
  import opened Wrappers
  import opened JsText
  import opened CliUtils
  import LavyUtils

  // ---------------------------------------------------------------------
  // --init

  /** The four answers of the `--init` prompts. */
  datatype InitAnswers = InitAnswers(language: string, framework: string, style: string, editor: string)

  /** getLavy: the suffix after 'lavy' for the chosen language and framework. */
  method GetLavy(languageSelected: string, frameSelected: string) returns (suffix: string)
    ensures "lavy" + suffix == LavyUtils.EslintPath(Some(languageSelected), Some(frameSelected))
  {
    var withLanguage := languageSelected != "Javascript";
    var withFramework := frameSelected != "None";
    var pathName: seq<string> := [];
    if withLanguage {
      pathName := pathName + [Lower(languageSelected)];
    }
    if withFramework {
      pathName := pathName + [Lower(frameSelected)];
    }
    suffix := if |pathName| > 0 then "/" + Join(pathName, "/") else "";
    if withLanguage && withFramework {
      var a, b := Lower(languageSelected), Lower(frameSelected);
      assert pathName == [a, b];
      JoinTwo(a, b, "/");
      assert "lavy" + suffix == "lavy/" + a + "/" + b;
    } else if withLanguage || withFramework {
      assert |pathName| == 1;
      JoinOne(pathName[0], "/");
      assert "lavy" + suffix == "lavy/" + pathName[0];
    }
  }

  /** The templates `--init` copies, in order. */
  function InitCopies(a: InitAnswers): (r: seq<LavyUtils.Copy>)
    ensures |r| == 4 + (if a.language == "Typescript" then 1 else 0) + (if a.style == "Css" then 1 else 0)
                     + (if a.editor == "Vscode" then 2 else 0)
    ensures r[0].dest == ".eslintrc.js"
    ensures r[0].transform == LavyUtils.FillEslintPath(LavyUtils.EslintPath(Some(a.language), Some(a.framework)))
  {
    BaseCopies(a) + TsCopies(a.language == "Typescript") + CssCopies(a.style == "Css")
    + EditorCopies(a.editor == "Vscode")
  }

  /** The four templates every `--init` copies. */
  function BaseCopies(a: InitAnswers): seq<LavyUtils.Copy> {
    [ LavyUtils.Copy("eslint.tpl", ".eslintrc.js",
        LavyUtils.FillEslintPath(LavyUtils.EslintPath(Some(a.language), Some(a.framework)))),
      LavyUtils.Copy("editorconfig.tpl", ".editorconfig", LavyUtils.Verbatim),
      LavyUtils.Copy("eslintignore.tpl", ".eslintignore", LavyUtils.Verbatim),
      LavyUtils.Copy("prettierrc.tpl", ".prettierrc.js", LavyUtils.Verbatim) ]
  }

  function TsCopies(ts: bool): seq<LavyUtils.Copy> {
    if ts then [LavyUtils.Copy("tsconfig.tpl", "tsconfig.json", LavyUtils.Verbatim)] else []
  }

  function CssCopies(css: bool): seq<LavyUtils.Copy> {
    if css then [LavyUtils.Copy("stylelint.tpl", ".stylelintrc.js", LavyUtils.FillStylelintPath)] else []
  }

  function EditorCopies(vscode: bool): seq<LavyUtils.Copy> {
    if vscode then
      [ LavyUtils.Copy("extensions.tpl", ".vscode/extensions.json", LavyUtils.Verbatim),
        LavyUtils.Copy("settings.tpl", ".vscode/settings.json", LavyUtils.Verbatim) ]
    else []
  }

  function Dests(cs: seq<LavyUtils.Copy>): set<string> {
    set c | c in cs :: c.dest
  }

  /** tsconfig.json is written exactly for TypeScript, .stylelintrc.js exactly for
      Css and the editor settings exactly for Vscode. */
  lemma InitWritesOptionalFiles(a: InitAnswers)
    ensures "tsconfig.json" in Dests(InitCopies(a)) <==> a.language == "Typescript"
    ensures ".stylelintrc.js" in Dests(InitCopies(a)) <==> a.style == "Css"
    ensures ".vscode/settings.json" in Dests(InitCopies(a)) <==> a.editor == "Vscode"
  {
    InitDests(a);
    OptionalDests(a.language == "Typescript", a.style == "Css", a.editor == "Vscode");
  }

  /** The destinations of `--init` for the three optional choices. */
  function InitDestSet(ts: bool, css: bool, vscode: bool): set<string> {
    {".eslintrc.js", ".editorconfig", ".eslintignore", ".prettierrc.js"}
    + (if ts then {"tsconfig.json"} else {})
    + (if css then {".stylelintrc.js"} else {})
    + (if vscode then {".vscode/extensions.json", ".vscode/settings.json"} else {})
  }

  lemma OptionalDests(ts: bool, css: bool, vscode: bool)
    ensures "tsconfig.json" in InitDestSet(ts, css, vscode) <==> ts
    ensures ".stylelintrc.js" in InitDestSet(ts, css, vscode) <==> css
    ensures ".vscode/settings.json" in InitDestSet(ts, css, vscode) <==> vscode
  {
    var t, c, v := "tsconfig.json", ".stylelintrc.js", ".vscode/settings.json";
    assert t[0] == 't';
    assert c[1] == 's' && c != ".eslintrc.js" && c != ".editorconfig" && c != ".eslintignore" && c != ".prettierrc.js";
    assert v[1] == 'v' && v != ".vscode/extensions.json";
  }

  lemma InitDests(a: InitAnswers)
    ensures Dests(InitCopies(a)) == InitDestSet(a.language == "Typescript", a.style == "Css", a.editor == "Vscode")
  {
    var ts, css, vscode := a.language == "Typescript", a.style == "Css", a.editor == "Vscode";
    var p0, p1, p2, p3 := BaseCopies(a), TsCopies(ts), CssCopies(css), EditorCopies(vscode);
    DestsConcat(p0 + p1 + p2, p3);
    DestsConcat(p0 + p1, p2);
    DestsConcat(p0, p1);
    BaseDests(a);
    assert Dests(p1) == if ts then {"tsconfig.json"} else {} by {
      if ts { DestsOne(p1[0]); }
    }
    assert Dests(p2) == if css then {".stylelintrc.js"} else {} by {
      if css { DestsOne(p2[0]); }
    }
    assert Dests(p3) == if vscode then {".vscode/extensions.json", ".vscode/settings.json"} else {} by {
      if vscode { DestsTwo(p3[0], p3[1]); }
    }
  }

  lemma BaseDests(a: InitAnswers)
    ensures Dests(BaseCopies(a)) == {".eslintrc.js", ".editorconfig", ".eslintignore", ".prettierrc.js"}
  {
    var b := BaseCopies(a);
    assert b == [b[0], b[1], b[2], b[3]];
  }

  lemma DestsOne(c: LavyUtils.Copy)
    ensures Dests([c]) == {c.dest}
  {
  }

  lemma DestsTwo(c: LavyUtils.Copy, d: LavyUtils.Copy)
    ensures Dests([c, d]) == {c.dest, d.dest}
  {
  }

  lemma DestsConcat(x: seq<LavyUtils.Copy>, y: seq<LavyUtils.Copy>)
    ensures Dests(x + y) == Dests(x) + Dests(y)
  {
  }

  /** The packages `--init` installs, one installPackage call each. */
  function InitInstalls(a: InitAnswers): (r: seq<string>)
    ensures |r| >= 1 && r[0] == "eslint-config-lavy"
    ensures "stylelint-config-lavy" in r <==> a.style == "Css"
  {
    ["eslint-config-lavy"] + (if a.style == "Css" then ["stylelint-config-lavy"] else [])
  }

  // ---------------------------------------------------------------------
  // verify-commit: the pattern
  //   ^((EMOJI(TYPES)(\(.+\))?:)|(Merge|Revert|Version)) .{1,50}   with flag i

  const COMMIT_TYPES: seq<string> := [
    "feat", "fix", "docs", "style", "refactor", "perf", "test", "workflow", "build", "ci",
    "chore", "types", "wip", "release", "dep", "deps", "example", "examples", "merge", "revert"]

  const KEYWORDS: seq<string> := ["Merge", "Revert", "Version"]

  /** `w` occurs at `i` up to ASCII case. */
  predicate MatchesAt(s: string, i: nat, w: string) {
    i + |w| <= |s| && EqualsIgnoreCase(s[i..i + |w|], w)
  }

  /** ` .{1,50}` with no end anchor: a space and one character that is not a
      line terminator; whatever follows is irrelevant. */
  predicate SubjectAt(s: string, i: nat) {
    i + 2 <= |s| && s[i] == ' ' && !IsLineTerminator(s[i + 1])
  }

  predicate ColonSubjectAt(s: string, i: nat) {
    i < |s| && s[i] == ':' && SubjectAt(s, i + 1)
  }

  /** `\(.+\)` spanning `s[i..k+1]`: the parentheses enclose at least one
      character and no line terminator. */
  predicate ScopeAt(s: string, i: nat, k: nat) {
    i + 1 < k < |s| && s[i] == '(' && s[k] == ')' && forall j :: i < j < k ==> !IsLineTerminator(s[j])
  }

  /** `(\(.+\))?:` and the subject, from position `i`; backtracking may pick any
      closing parenthesis. */
  predicate TailAt(s: string, i: nat) {
    ColonSubjectAt(s, i) || exists k: nat :: k < |s| && ScopeAt(s, i, k) && ColonSubjectAt(s, k + 1)
  }

  /** The first alternative, for a list of types. */
  predicate TypedForm(s: string, emoji: string, types: seq<string>) {
    MatchesAt(s, 0, emoji) && exists t :: t in types && MatchesAt(s, |emoji|, t) && TailAt(s, |emoji| + |t|)
  }

  /** The second alternative, for a list of keywords. */
  predicate KeywordForm(s: string, keywords: seq<string>) {
    exists w :: w in keywords && MatchesAt(s, 0, w) && SubjectAt(s, |w|)
  }

  predicate Matches(s: string, emoji: string, types: seq<string>, keywords: seq<string>) {
    TypedForm(s, emoji, types) || KeywordForm(s, keywords)
  }

  /** `pattern.test(message)`. */
  predicate Accepted(s: string, emoji: string) {
    Matches(s, emoji, COMMIT_TYPES, KEYWORDS)
  }

  lemma MatchesAtExtends(s: string, x: string, i: nat, w: string)
    requires MatchesAt(s, i, w)
    ensures MatchesAt(s + x, i, w)
  {
    assert (s + x)[i..i + |w|] == s[i..i + |w|];
  }

  lemma TailAtExtends(s: string, x: string, i: nat)
    requires TailAt(s, i)
    ensures TailAt(s + x, i)
  {
    if !ColonSubjectAt(s, i) {
      var k: nat :| k < |s| && ScopeAt(s, i, k) && ColonSubjectAt(s, k + 1);
      assert ScopeAt(s + x, i, k);
    }
  }

  /** The pattern is not anchored at the end: text appended to an accepted
      message, however long the subject gets, keeps it accepted. */
  lemma AcceptedExtends(s: string, x: string, emoji: string)
    requires Accepted(s, emoji)
    ensures Accepted(s + x, emoji)
  {
    MatchesExtends(s, x, emoji, COMMIT_TYPES, KEYWORDS);
  }

  lemma MatchesExtends(s: string, x: string, emoji: string, types: seq<string>, keywords: seq<string>)
    requires Matches(s, emoji, types, keywords)
    ensures Matches(s + x, emoji, types, keywords)
  {
    if TypedForm(s, emoji, types) {
      var t :| t in types && MatchesAt(s, |emoji|, t) && TailAt(s, |emoji| + |t|);
      MatchesAtExtends(s, x, 0, emoji);
      MatchesAtExtends(s, x, |emoji|, t);
      TailAtExtends(s, x, |emoji| + |t|);
    } else {
      var w :| w in keywords && MatchesAt(s, 0, w) && SubjectAt(s, |w|);
      MatchesAtExtends(s, x, 0, w);
    }
  }

  /** Merge, Revert or Version in any case, a space and a subject is accepted. */
  lemma KeywordAccepted(k: string, w: string, subject: string, emoji: string)
    requires w in KEYWORDS && EqualsIgnoreCase(k, w)
    requires subject != [] && !IsLineTerminator(subject[0])
    ensures Accepted(k + " " + subject, emoji)
  {
    KeywordMatches(k, w, subject, emoji, COMMIT_TYPES, KEYWORDS);
  }

  lemma KeywordMatches(k: string, w: string, subject: string, emoji: string, types: seq<string>, keywords: seq<string>)
    requires w in keywords && EqualsIgnoreCase(k, w)
    requires subject != [] && !IsLineTerminator(subject[0])
    ensures Matches(k + " " + subject, emoji, types, keywords)
  {
    var s := k + " " + subject;
    assert |k| == |Lower(k)| == |Lower(w)| == |w|;
    assert s[..|w|] == k;
    assert s[|w|] == ' ' && s[|w| + 1] == subject[0];
    assert MatchesAt(s, 0, w) && SubjectAt(s, |w|);
  }

  /** The emoji, a listed type in any case, an optional scope, a colon, a space and
      a subject is accepted. */
  lemma TypedAccepted(emoji: string, k: string, t: string, scope: string, subject: string)
    requires t in COMMIT_TYPES && EqualsIgnoreCase(k, t)
    requires forall j :: 0 <= j < |scope| ==> !IsLineTerminator(scope[j])
    requires subject != [] && !IsLineTerminator(subject[0])
    ensures Accepted(emoji + k + (if scope == [] then "" else "(" + scope + ")") + ": " + subject, emoji)
  {
    TypedMatches(emoji, k, t, scope, subject, COMMIT_TYPES, KEYWORDS);
  }

  lemma TypedMatches(emoji: string, k: string, t: string, scope: string, subject: string,
                     types: seq<string>, keywords: seq<string>)
    requires t in types && EqualsIgnoreCase(k, t)
    requires forall j :: 0 <= j < |scope| ==> !IsLineTerminator(scope[j])
    requires subject != [] && !IsLineTerminator(subject[0])
    ensures Matches(emoji + k + (if scope == [] then "" else "(" + scope + ")") + ": " + subject, emoji, types, keywords)
  {
    var p := if scope == [] then "" else "(" + scope + ")";
    var rest := p + ": " + subject;
    var s := emoji + k + p + ": " + subject;
    assert s == emoji + k + rest;
    TypedWords(emoji, k, t, rest);
    TailForm(emoji + k, scope, subject);
    assert |k| == |t| && |emoji + k| == |emoji| + |t|;
  }

  /** The emoji and a type in any case, in front of anything. */
  lemma TypedWords(emoji: string, k: string, t: string, rest: string)
    requires EqualsIgnoreCase(k, t)
    ensures |k| == |t|
    ensures MatchesAt(emoji + k + rest, 0, emoji) && MatchesAt(emoji + k + rest, |emoji|, t)
  {
    var s := emoji + k + rest;
    assert |k| == |Lower(k)| == |Lower(t)| == |t|;
    assert s[..|emoji|] == emoji;
    assert s[|emoji|..|emoji| + |k|] == k;
  }

  /** An optional scope, a colon, a space and a subject after `pre`. */
  lemma TailForm(pre: string, scope: string, subject: string)
    requires forall j :: 0 <= j < |scope| ==> !IsLineTerminator(scope[j])
    requires subject != [] && !IsLineTerminator(subject[0])
    ensures TailAt(pre + (if scope == [] then "" else "(" + scope + ")") + ": " + subject, |pre|)
  {
    var p := if scope == [] then "" else "(" + scope + ")";
    var s := pre + p + ": " + subject;
    var i := |pre|;
    var c := i + |p|;
    assert s[c] == ':' && s[c + 1] == ' ' && s[c + 2] == subject[0];
    assert ColonSubjectAt(s, c);
    if scope != [] {
      var e := i + |scope| + 1;
      assert s[i..c] == p;
      assert forall j :: i < j < e ==> s[j] == scope[j - i - 1];
      assert ScopeAt(s, i, e);
    }
  }

  /** Both forms need a space: a message without one is rejected. */
  lemma AcceptedHasSpace(s: string, emoji: string)
    ensures Accepted(s, emoji) ==> ' ' in s
  {
    MatchesHasSpace(s, emoji, COMMIT_TYPES, KEYWORDS);
  }

  lemma MatchesHasSpace(s: string, emoji: string, types: seq<string>, keywords: seq<string>)
    ensures Matches(s, emoji, types, keywords) ==> ' ' in s
  {
    if TypedForm(s, emoji, types) {
      var t :| t in types && MatchesAt(s, |emoji|, t) && TailAt(s, |emoji| + |t|);
      var i := |emoji| + |t|;
      if ColonSubjectAt(s, i) {
        assert s[i + 1] == ' ';
      } else {
        var k: nat :| k < |s| && ScopeAt(s, i, k) && ColonSubjectAt(s, k + 1);
        assert s[k + 2] == ' ';
      }
    } else if KeywordForm(s, keywords) {
      var w :| w in keywords && MatchesAt(s, 0, w) && SubjectAt(s, |w|);
      assert s[|w|] == ' ';
    }
  }

  /** A message whose first letter differs, up to case, from the first letter of
      the emoji and of every keyword matches neither form. */
  lemma FirstLetterMismatch(s: string, emoji: string, types: seq<string>, keywords: seq<string>)
    requires s != [] && emoji != [] && LowerChar(emoji[0]) != LowerChar(s[0])
    requires forall w :: w in keywords ==> w != [] && LowerChar(w[0]) != LowerChar(s[0])
    ensures !Matches(s, emoji, types, keywords)
  {
    if |emoji| <= |s| {
      assert Lower(s[..|emoji|])[0] == LowerChar(s[0]) != Lower(emoji)[0];
    }
    assert !MatchesAt(s, 0, emoji);
    forall w | w in keywords
      ensures !MatchesAt(s, 0, w)
    {
      if |w| <= |s| {
        assert Lower(s[..|w|])[0] == LowerChar(s[0]) != Lower(w)[0];
      }
    }
  }

  const HELP_EXAMPLE := "chore(release): update changelog"

  /** The help text's first example lacks the emoji: with an emoji that does not
      start with `c` or `C` it is rejected. */
  lemma HelpExampleNeedsEmoji(emoji: string)
    requires emoji != [] && LowerChar(emoji[0]) != 'c'
    ensures !Accepted(HELP_EXAMPLE, emoji)
  {
    assert LowerChar(HELP_EXAMPLE[0]) == 'c';
    assert forall w :: w in KEYWORDS ==> w != [] && LowerChar(w[0]) != 'c';
    FirstLetterMismatch(HELP_EXAMPLE, emoji, COMMIT_TYPES, KEYWORDS);
  }

  /** Without an emoji the same example passes. */
  lemma HelpExampleWithoutEmoji()
    ensures Accepted(HELP_EXAMPLE, "")
  {
    var scope, subject := "release", "update changelog";
    assert HELP_EXAMPLE == "" + "chore" + ("(" + scope + ")") + ": " + subject;
    assert COMMIT_TYPES[10] == "chore";
    assert forall j :: 0 <= j < |scope| ==> !IsLineTerminator(scope[j]);
    assert subject[0] == 'u';
    TypedAccepted("", "chore", "chore", scope, subject);
  }

  // ---------------------------------------------------------------------
  // verify-commit: the action

  /** How the action ends. Every outcome but `Valid` exits with status 1. */
  datatype VerifyOutcome = NoMessageSource | Unreadable | EmptyMessage | InvalidFormat | Valid

  /** A truthy optional string: present and not empty. */
  predicate Given(v: Option<string>) {
    v.Some? && v.value != ""
  }

  /** `process.env.GIT_PARAMS || process.env.HUSKY_GIT_PARAMS`, `None` when falsy. */
  function MessagePath(gitParams: Option<string>, huskyGitParams: Option<string>): (p: Option<string>)
    ensures p.Some? <==> Given(gitParams) || Given(huskyGitParams)
    ensures Given(gitParams) ==> p == gitParams
  {
    if Given(gitParams) then gitParams else if Given(huskyGitParams) then huskyGitParams else None
  }

  /** The text the pattern is matched against. */
  function Prepare(message: string): (r: string)
    ensures |r| <= |message|
    ensures (forall i :: 0 <= i < |message| ==> IsSpace(message[i])) ==> r == []
  {
    StripComments(Trim(message))
  }

  /** Without comment characters the preparation only trims. */
  lemma PrepareWithoutHash(message: string)
    requires '#' !in message
    ensures Prepare(message) == Trim(message)
  {
    var ts := TrimStart(message);
    var t := TrimEnd(ts);
    assert t == Trim(message);
    forall c | c in t ensures c in message {
      var i :| 0 <= i < |t| && t[i] == c;
      assert t[i] == ts[i] == message[|message| - |ts| + i];
    }
    StripWithoutHash(t, true);
  }

  /** The verify-commit action. `commitMessage` is the optional argument, the two
      parameters after it the environment variables, and `files` the readable
      files by path. */
  method VerifyCommit(commitMessage: Option<string>, gitParams: Option<string>, huskyGitParams: Option<string>,
                      files: map<string, string>, emoji: string)
    returns (outcome: VerifyOutcome)
    ensures outcome == NoMessageSource <==> !Given(commitMessage) && !Given(gitParams) && !Given(huskyGitParams)
    ensures outcome == Unreadable <==>
              !Given(commitMessage) && MessagePath(gitParams, huskyGitParams).Some?
              && MessagePath(gitParams, huskyGitParams).value !in files
    ensures outcome == EmptyMessage ==> !Given(commitMessage)
    ensures Given(commitMessage) ==> (outcome == Valid <==> Accepted(Prepare(commitMessage.value), emoji))
    ensures !Given(commitMessage) && MessagePath(gitParams, huskyGitParams).Some?
            && MessagePath(gitParams, huskyGitParams).value in files ==>
              var text := files[MessagePath(gitParams, huskyGitParams).value];
              (outcome == EmptyMessage <==> text == "")
              && (outcome == Valid <==> text != "" && Accepted(Prepare(text), emoji))
  {
    var message: string;
    if !Given(commitMessage) {
      var msgPath := MessagePath(gitParams, huskyGitParams);
      if msgPath.None? {
        return NoMessageSource;
      }
      if msgPath.value !in files {
        return Unreadable;
      }
      message := files[msgPath.value];
    } else {
      message := commitMessage.value;
    }
    if message == "" {
      return EmptyMessage;
    }
    message := Prepare(message);
    if !Accepted(message, emoji) {
      return InvalidFormat;
    }
    return Valid;
  }
}
