/**
 * The template side of `lavy`'s configuration generators (core/utils.ts):
 * the package type read from package.json, the `{{#if name}}…{{/if}}`
 * blocks of the ESLint template, the ES-module to CommonJS rewrite of the
 * ESLint configuration, and the `export default` rewrite of the Prettier
 * and Stylelint templates. Reading the template files is left to the
 * caller: every generator here receives the template text.
 */
module Templates {
  import opened Wrappers
  import opened JsText
  import opened ConfigTypes

  // ---------------------------------------------------------------------
  // the package type

  /** What `<cwd>/package.json` holds, as far as `getPackageJsonType` sees it. */
  datatype PackageJsonFile = NoPackageJson | Unparsable | Parsed(json: Value)

  datatype PackageType = Module | CommonJs

  /** `getPackageJsonType`: "module" only for a parsed package.json whose
      `type` is the string "module". Reading `type` of a `null` document
      throws, and the catch answers "commonjs" as for a parse failure. */
  function GetPackageJsonType(f: PackageJsonFile): (t: PackageType)
    ensures t == Module <==> f.Parsed? && Get(f.json, "type") == Some(Str("module"))
  {
    match f
    case NoPackageJson => CommonJs
    case Unparsable => CommonJs
    case Parsed(json) =>
      match Get(json, "type")
      case None => CommonJs
      case Some(v) => if v == Str("module") then Module else CommonJs
  }

  // ---------------------------------------------------------------------
  // conditional blocks

  const CLOSE: string := "{{/if}}"

  function Open(name: string): string {
    "{{#if " + name + "}}"
  }

  /**
   * `s.replace(/\{\{#if name\}\}([\s\S]*?)\{\{\/if\}\}/g, keep ? '$1' : '')`:
   * scanning left to right, each opening marker is paired with the first
   * closing marker after it, and the pair becomes its body or nothing.
   * An opening marker with no closing marker after it ends the matching,
   * since no later position can find one either.
   */
  function RenderBlocks(s: string, name: string, keep: bool): (r: string)
    ensures |r| <= |s|
    decreases |s|
  {
    var open := Open(name);
    if |s| < |open| then s
    else if s[..|open|] == open then
      var rest := s[|open|..];
      match IndexOf(rest, CLOSE)
      case None => s
      case Some(k) => (if keep then rest[..k] else "") + RenderBlocks(rest[k + |CLOSE|..], name, keep)
    else [s[0]] + RenderBlocks(s[1..], name, keep)
  }

  /** A template as its author sees it: plain text and named blocks. */
  datatype Segment = Text(text: string) | Block(name: string, body: string)

  function PrintSegment(seg: Segment): string {
    match seg
    case Text(t) => t
    case Block(n, b) => Open(n) + b + CLOSE
  }

  /** The template text. */
  function Print(segs: seq<Segment>): string {
    if segs == [] then "" else PrintSegment(segs[0]) + Print(segs[1..])
  }

  /** Text holding no `{{` and not ending in `{`, so no marker can start in it. */
  predicate Plain(t: string) {
    forall i :: 0 <= i < |t| && t[i] == '{' ==> i + 1 < |t| && t[i + 1] != '{'
  }

  /** Block names are words without braces. */
  predicate IsName(n: string) {
    '{' !in n && '}' !in n
  }

  predicate WellFormedSegment(seg: Segment) {
    match seg
    case Text(t) => Plain(t)
    case Block(n, b) => IsName(n) && Plain(b)
  }

  predicate WellFormed(segs: seq<Segment>) {
    forall k :: 0 <= k < |segs| ==> WellFormedSegment(segs[k])
  }

  /** The reference meaning of one pass: every block with that name becomes
      its body when the flag holds and disappears otherwise. */
  function ExpandSegment(seg: Segment, name: string, keep: bool): Segment {
    if seg.Block? && seg.name == name then Text(if keep then seg.body else "") else seg
  }

  function Expand(segs: seq<Segment>, name: string, keep: bool): (r: seq<Segment>)
    ensures |r| == |segs|
    ensures forall k :: 0 <= k < |r| ==> r[k] == ExpandSegment(segs[k], name, keep)
  {
    if segs == [] then [] else [ExpandSegment(segs[0], name, keep)] + Expand(segs[1..], name, keep)
  }

  /** After a pass no block of that name is left, and nothing else moved. */
  lemma ExpandRemovesBlocks(segs: seq<Segment>, name: string, keep: bool)
    ensures forall k :: 0 <= k < |segs| ==> !(Expand(segs, name, keep)[k].Block? && Expand(segs, name, keep)[k].name == name)
    ensures forall k :: 0 <= k < |segs| && !(segs[k].Block? && segs[k].name == name) ==> Expand(segs, name, keep)[k] == segs[k]
  {}

  lemma ExpandWellFormed(segs: seq<Segment>, name: string, keep: bool)
    requires WellFormed(segs)
    ensures WellFormed(Expand(segs, name, keep))
  {
    forall k | 0 <= k < |segs| ensures WellFormedSegment(Expand(segs, name, keep)[k]) {
      assert Plain("");
    }
  }

  /** A marker beginning with `{{` cannot start inside plain text. */
  lemma PlainHasNoMarker(t: string, r: string, m: string, i: nat)
    requires Plain(t) && |m| >= 2 && m[0] == '{' && m[1] == '{' && i < |t|
    ensures !OccursAt(t + r, m, i)
  {
    var s := t + r;
    if i + |m| <= |s| {
      if t[i] == '{' {
        assert s[i..i + |m|][1] == t[i + 1] != m[1];
      } else {
        assert s[i..i + |m|][0] == t[i] != m[0];
      }
    }
  }

  /** Where no opening marker starts, one pass copies the first character. */
  lemma RenderStep(s: string, name: string, keep: bool)
    requires |s| >= |Open(name)| && !OccursAt(s, Open(name), 0)
    ensures RenderBlocks(s, name, keep) == [s[0]] + RenderBlocks(s[1..], name, keep)
  {
    assert s[..|Open(name)|] != Open(name);
  }

  /** Dropping the first character of `u` keeps `u + r` free of markers over `u`. */
  lemma NoMarkerShift(u: string, r: string, open: string)
    requires u != [] && forall i: nat :: i < |u| ==> !OccursAt(u + r, open, i)
    ensures forall i: nat :: i < |u| - 1 ==> !OccursAt(u[1..] + r, open, i)
  {
    var s := u + r;
    assert s[1..] == u[1..] + r;
    forall i: nat | i < |u| - 1 ensures !OccursAt(u[1..] + r, open, i) {
      assert !OccursAt(s, open, i + 1);
      if i + |open| <= |s| - 1 {
        assert (u[1..] + r)[i..i + |open|] == s[i + 1..i + 1 + |open|];
      }
    }
  }

  /** Text before which no opening marker starts is copied through. */
  lemma {:induction false} RenderSkip(u: string, r: string, name: string, keep: bool)
    requires forall i: nat :: i < |u| ==> !OccursAt(u + r, Open(name), i)
    ensures RenderBlocks(u + r, name, keep) == u + RenderBlocks(r, name, keep)
    decreases |u|
  {
    var s := u + r;
    if u == [] {
      assert s == r;
    } else if |s| < |Open(name)| {
      assert RenderBlocks(s, name, keep) == s;
      assert RenderBlocks(r, name, keep) == r;
    } else {
      assert !OccursAt(s, Open(name), 0);
      RenderStep(s, name, keep);
      assert s[1..] == u[1..] + r;
      NoMarkerShift(u, r, Open(name));
      RenderSkip(u[1..], r, name, keep);
      assert u == [u[0]] + u[1..];
    }
  }

  /** A block of the pass's own name becomes its body or nothing. */
  lemma RenderBlockHere(b: string, r: string, name: string, keep: bool)
    requires Plain(b)
    ensures RenderBlocks(Open(name) + b + CLOSE + r, name, keep) == (if keep then b else "") + RenderBlocks(r, name, keep)
  {
    var open := Open(name);
    var s := open + b + CLOSE + r;
    var rest := b + CLOSE + r;
    assert s[..|open|] == open;
    assert s[|open|..] == rest;
    forall j: nat | j < |b| ensures !OccursAt(rest, CLOSE, j) {
      PlainHasNoMarker(b, CLOSE + r, CLOSE, j);
      assert rest == b + (CLOSE + r);
    }
    assert rest[|b|..|b| + |CLOSE|] == CLOSE;
    assert OccursAt(rest, CLOSE, |b|);
    assert IndexOf(rest, CLOSE) == Some(|b|);
    assert rest[..|b|] == b;
    assert rest[|b| + |CLOSE|..] == r;
  }

  /** Two different names give opening markers neither of which starts the other's text. */
  lemma OpenDiffers(n: string, name: string, x: string)
    requires IsName(n) && IsName(name) && n != name
    ensures !StartsWith(Open(n) + x, Open(name))
  {
    var s := Open(n) + x;
    var m := Open(name);
    if |m| <= |s| {
      if |n| < |name| {
        assert s[6 + |n|] == '}';
        assert m[6 + |n|] == name[|n|];
        assert s[..|m|][6 + |n|] != m[6 + |n|];
      } else if |n| > |name| {
        assert s[6 + |name|] == n[|name|];
        assert m[6 + |name|] == '}';
        assert s[..|m|][6 + |name|] != m[6 + |name|];
      } else {
        var k :| 0 <= k < |n| && n[k] != name[k];
        assert s[6 + k] == n[k];
        assert m[6 + k] == name[k];
        assert s[..|m|][6 + k] != m[6 + k];
      }
    }
  }

  /** No opening marker of a pass starts inside a block of another name. */
  lemma OtherBlockHasNoMarker(n: string, b: string, r: string, name: string, i: nat)
    requires IsName(n) && IsName(name) && n != name && Plain(b)
    requires i < |Open(n) + b + CLOSE|
    ensures !OccursAt(Open(n) + b + CLOSE + r, Open(name), i)
  {
    var rest := b + CLOSE + r;
    assert Open(n) + b + CLOSE + r == Open(n) + rest;
    if i < |Open(n)| {
      NoMarkerInOpen(n, rest, name, i);
    } else {
      OccursAtShift(Open(n), rest, Open(name), i);
      var j := i - |Open(n)|;
      assert rest == b + (CLOSE + r);
      if j < |b| {
        PlainHasNoMarker(b, CLOSE + r, Open(name), j);
      } else {
        OccursAtShift(b, CLOSE + r, Open(name), j);
        NoMarkerInClose(r, name, j - |b|);
      }
    }
  }

  /** No opening marker of another name starts inside the opening marker of `n`. */
  lemma NoMarkerInOpen(n: string, t: string, name: string, i: nat)
    requires IsName(n) && IsName(name) && n != name
    requires i < |Open(n)|
    ensures !OccursAt(Open(n) + t, Open(name), i)
  {
    var m := Open(name);
    var head := Open(n);
    var s := head + t;
    if i + |m| <= |s| {
      if i == 0 {
        OpenDiffers(n, name, t);
      } else if i == 1 {
        assert s[i..i + |m|][1] == s[2] == '#' != m[1];
      } else {
        assert s[i] == head[i];
        assert head[i] != '{';
        assert s[i..i + |m|][0] != m[0];
      }
    }
  }

  /** No opening marker starts inside the closing marker. */
  lemma NoMarkerInClose(r: string, name: string, i: nat)
    requires IsName(name) && i < |CLOSE|
    ensures !OccursAt(CLOSE + r, Open(name), i)
  {
    var m := Open(name);
    var s := CLOSE + r;
    if i + |m| <= |s| {
      if i == 0 {
        assert s[i + 2] == '/';
        assert s[i..i + |m|][2] != m[2];
      } else if i == 1 {
        assert s[i + 1] == '/';
        assert s[i..i + |m|][1] != m[1];
      } else {
        assert s[i] == CLOSE[i];
        assert s[i..i + |m|][0] != m[0];
      }
    }
  }

  /** One pass over a well-formed template is the reference expansion. */
  lemma {:induction false} RenderPrinted(segs: seq<Segment>, name: string, keep: bool)
    requires WellFormed(segs) && IsName(name)
    ensures RenderBlocks(Print(segs), name, keep) == Print(Expand(segs, name, keep))
  {
    if segs != [] {
      var rest := Print(segs[1..]);
      assert WellFormedSegment(segs[0]);
      assert WellFormed(segs[1..]) by {
        forall k | 0 <= k < |segs| - 1 ensures WellFormedSegment(segs[1..][k]) {
          assert segs[1..][k] == segs[k + 1];
        }
      }
      RenderPrinted(segs[1..], name, keep);
      assert Expand(segs, name, keep) == [ExpandSegment(segs[0], name, keep)] + Expand(segs[1..], name, keep);
      match segs[0]
      case Text(t) =>
        forall i: nat | i < |t| ensures !OccursAt(t + rest, Open(name), i) {
          PlainHasNoMarker(t, rest, Open(name), i);
        }
        RenderSkip(t, rest, name, keep);
      case Block(n, b) =>
        if n == name {
          RenderBlockHere(b, rest, name, keep);
        } else {
          var u := Open(n) + b + CLOSE;
          forall i: nat | i < |u| ensures !OccursAt(u + rest, Open(name), i) {
            OtherBlockHasNoMarker(n, b, rest, name, i);
          }
          RenderSkip(u, rest, name, keep);
        }
    }
  }

  // ---------------------------------------------------------------------
  // the ESLint configuration

  /** The three block passes of `generateEslintConfigString`, in order. */
  function EslintBlocks(template: string, typescript: bool, framework: Option<string>): string {
    var t := RenderBlocks(template, "typescript", typescript);
    var r := RenderBlocks(t, "react", framework == Some("react"));
    RenderBlocks(r, "vue", framework == Some("vue"))
  }

  /** The reference meaning of the three passes. */
  function ExpandEslint(segs: seq<Segment>, typescript: bool, framework: Option<string>): seq<Segment> {
    var t := Expand(segs, "typescript", typescript);
    var r := Expand(t, "react", framework == Some("react"));
    Expand(r, "vue", framework == Some("vue"))
  }

  /** On a well-formed template the three passes keep or drop exactly the
      typescript, react and vue blocks, and leave every other part alone. */
  lemma EslintBlocksExpand(segs: seq<Segment>, typescript: bool, framework: Option<string>)
    requires WellFormed(segs)
    ensures EslintBlocks(Print(segs), typescript, framework) == Print(ExpandEslint(segs, typescript, framework))
  {
    assert IsName("typescript") && IsName("react") && IsName("vue");
    var t := Expand(segs, "typescript", typescript);
    var r := Expand(t, "react", framework == Some("react"));
    RenderPrinted(segs, "typescript", typescript);
    ExpandWellFormed(segs, "typescript", typescript);
    RenderPrinted(t, "react", framework == Some("react"));
    ExpandWellFormed(t, "react", framework == Some("react"));
    RenderPrinted(r, "vue", framework == Some("vue"));
  }

  /** The blocks left after the three passes are the blocks of other names, untouched. */
  lemma ExpandEslintLeavesOthers(segs: seq<Segment>, typescript: bool, framework: Option<string>, k: nat)
    requires k < |segs| && ExpandEslint(segs, typescript, framework)[k].Block?
    ensures ExpandEslint(segs, typescript, framework)[k] == segs[k]
    ensures segs[k].name != "typescript" && segs[k].name != "react" && segs[k].name != "vue"
  {
    var t := Expand(segs, "typescript", typescript);
    var r := Expand(t, "react", framework == Some("react"));
    assert r[k].Block? && r[k].name != "vue";
    assert t[k].Block? && t[k].name != "react";
  }

  /** An `import <binding> from '<specifier>'` line and the `require` call
      that replaces it. */
  function ImportRewrite(binding: string, specifier: string): (string, string) {
    ("import " + binding + " from '" + specifier + "'", "const " + binding + " = require('" + specifier + "')")
  }

  /** The `import` lines the CommonJS rewrite turns into `require` calls, in order. */
  const IMPORT_REWRITES: seq<(string, string)> := [
    ImportRewrite("{ defineConfig }", "eslint/config"),
    ImportRewrite("js", "@eslint/js"),
    ImportRewrite("ts", "@typescript-eslint/eslint-plugin"),
    ImportRewrite("tsParser", "@typescript-eslint/parser"),
    ImportRewrite("react", "eslint-plugin-react"),
    ImportRewrite("reactHooks", "eslint-plugin-react-hooks"),
    ImportRewrite("vue", "eslint-plugin-vue")]

  /** A chain of global replacements, applied left to right. */
  function ReplaceEach(s: string, rewrites: seq<(string, string)>): string
    requires forall i :: 0 <= i < |rewrites| ==> rewrites[i].0 != []
    decreases |rewrites|
  {
    if rewrites == [] then s
    else ReplaceEach(ReplaceAll(s, rewrites[0].0, rewrites[0].1), rewrites[1..])
  }

  /** `import` lines and the default export rewritten for CommonJS, in this
      order: none of the seven import lines and no ES-module export is left. */
  function ToCommonJs(s: string): (r: string)
    ensures forall i :: 0 <= i < |IMPORT_REWRITES| ==> !Includes(r, IMPORT_REWRITES[i].0)
    ensures !Includes(r, ESM_EXPORT)
  {
    ImportPatternsNonEmpty();
    RewritesClean();
    ReplaceEachRemoves(s, IMPORT_REWRITES);
    ReplaceAllKeepsPatternsFree(ReplaceEach(s, IMPORT_REWRITES), ESM_EXPORT, CJS_EXPORT, IMPORT_REWRITES);
    ReplaceAllRemoves(ReplaceEach(s, IMPORT_REWRITES), ESM_EXPORT, CJS_EXPORT);
    ReplaceAll(ReplaceEach(s, IMPORT_REWRITES), ESM_EXPORT, CJS_EXPORT)
  }

  /** A text with nothing to rewrite comes back unchanged. */
  lemma ToCommonJsIdentity(s: string)
    requires forall i :: 0 <= i < |IMPORT_REWRITES| ==> !Includes(s, IMPORT_REWRITES[i].0)
    requires !Includes(s, ESM_EXPORT)
    ensures ToCommonJs(s) == s
  {
    ImportPatternsNonEmpty();
    ReplaceEachIdentity(s, IMPORT_REWRITES);
    ReplaceAllAbsent(s, ESM_EXPORT, CJS_EXPORT);
  }

  /** An ESLint configuration in which the only rewritable text is one
      import line gets exactly that line replaced by its `require` call. */
  lemma ImportLineBecomesRequire(a: string, b: string, i: nat)
    requires i < |IMPORT_REWRITES|
    requires forall k :: 0 <= k < |IMPORT_REWRITES| && k != i ==> !Includes(a + IMPORT_REWRITES[i].0 + b, IMPORT_REWRITES[k].0)
    requires forall n: nat :: OccursAt(a + IMPORT_REWRITES[i].0 + b, IMPORT_REWRITES[i].0, n) ==> n == |a|
    requires !Includes(a + IMPORT_REWRITES[i].0 + b, ESM_EXPORT)
    ensures ToCommonJs(a + IMPORT_REWRITES[i].0 + b) == a + IMPORT_REWRITES[i].1 + b
  {
    ImportPatternsNonEmpty();
    RewritesClean();
    var p, r := IMPORT_REWRITES[i].0, IMPORT_REWRITES[i].1;
    ReplaceEachOneLine(a, b, IMPORT_REWRITES, i);
    FreeParts(a, p, b, ESM_EXPORT);
    CleanBetweenFree(a, r, b, ESM_EXPORT);
    ReplaceAllAbsent(a + r + b, ESM_EXPORT, CJS_EXPORT);
  }

  /** An ESLint configuration whose only rewritable text is one default export
      gets exactly that export replaced by `module.exports = defineConfig(`. */
  lemma ExportBecomesModuleExports(a: string, b: string)
    requires forall k :: 0 <= k < |IMPORT_REWRITES| ==> !Includes(a + ESM_EXPORT + b, IMPORT_REWRITES[k].0)
    requires forall n: nat :: OccursAt(a + ESM_EXPORT + b, ESM_EXPORT, n) ==> n == |a|
    ensures ToCommonJs(a + ESM_EXPORT + b) == a + CJS_EXPORT + b
  {
    ImportPatternsNonEmpty();
    ReplaceEachIdentity(a + ESM_EXPORT + b, IMPORT_REWRITES);
    OnlyOccurrenceReplaced(a, ESM_EXPORT, b, CJS_EXPORT);
  }

  /** A chain over a text in which one pattern occurs once and no other
      pattern occurs replaces that occurrence and nothing else. */
  lemma ReplaceEachOneLine(a: string, b: string, rewrites: seq<(string, string)>, i: nat)
    requires forall k :: 0 <= k < |rewrites| ==> rewrites[k].0 != []
    requires forall j, k :: 0 <= j < |rewrites| && 0 <= k < |rewrites| ==> ReplacementIsClean(rewrites[j].0, rewrites[k].1)
    requires i < |rewrites|
    requires forall k :: 0 <= k < |rewrites| && k != i ==> !Includes(a + rewrites[i].0 + b, rewrites[k].0)
    requires forall n: nat :: OccursAt(a + rewrites[i].0 + b, rewrites[i].0, n) ==> n == |a|
    ensures ReplaceEach(a + rewrites[i].0 + b, rewrites) == a + rewrites[i].1 + b
  {
    var p, r := rewrites[i].0, rewrites[i].1;
    var s := a + p + b;
    ReplaceEachSkip(s, rewrites, i);
    assert rewrites[i..][1..] == rewrites[i + 1..];
    OnlyOccurrenceReplaced(a, p, b, r);
    var t := a + r + b;
    var rest := rewrites[i + 1..];
    forall k | 0 <= k < |rest| ensures !Includes(t, rest[k].0) {
      assert rest[k] == rewrites[i + 1 + k];
      FreeParts(a, p, b, rest[k].0);
      CleanBetweenFree(a, r, b, rest[k].0);
    }
    ReplaceEachIdentity(t, rest);
  }

  /** The parts of a text free of `q` are free of it. */
  lemma FreeParts(a: string, p: string, b: string, q: string)
    requires !Includes(a + p + b, q)
    ensures !Includes(a, q) && !Includes(b, q)
  {
    if Includes(a, q) {
      assert [] + a + (p + b) == a + p + b;
      IncludesInfix([], a, p + b, q);
    }
    if Includes(b, q) {
      assert a + p + b + [] == a + p + b;
      IncludesInfix(a + p, b, [], q);
    }
  }

  /** A global replace of a pattern that occurs once replaces that occurrence. */
  lemma OnlyOccurrenceReplaced(a: string, p: string, b: string, r: string)
    requires p != []
    requires forall n: nat :: OccursAt(a + p + b, p, n) ==> n == |a|
    ensures ReplaceAll(a + p + b, p, r) == a + r + b
  {
    var s := a + p + b;
    ReplaceAllSkip(s, p, r, |a|);
    assert s[..|a|] == a && s[|a|..] == p + b;
    assert (p + b)[..|p|] == p && (p + b)[|p|..] == b;
    assert ReplaceAll(p + b, p, r) == r + ReplaceAll(b, p, r);
    forall n: nat | n <= |b| && OccursAt(b, p, n) ensures false {
      assert s[|a| + |p| + n..|a| + |p| + n + |p|] == b[n..n + |p|];
      assert OccursAt(s, p, |a| + |p| + n);
    }
    ReplaceAllAbsent(b, p, r);
  }

  // Facts about replacement chains.

  /** A chain over a text in which no pattern occurs is the identity. */
  lemma {:induction false} ReplaceEachIdentity(s: string, rewrites: seq<(string, string)>)
    requires forall i :: 0 <= i < |rewrites| ==> rewrites[i].0 != []
    requires forall i :: 0 <= i < |rewrites| ==> !Includes(s, rewrites[i].0)
    ensures ReplaceEach(s, rewrites) == s
    decreases |rewrites|
  {
    if rewrites != [] {
      ReplaceAllAbsent(s, rewrites[0].0, rewrites[0].1);
      ReplaceEachIdentity(s, rewrites[1..]);
    }
  }

  /** Leading rewrites whose patterns do not occur hand the text on unchanged. */
  lemma {:induction false} ReplaceEachSkip(s: string, rewrites: seq<(string, string)>, n: nat)
    requires forall i :: 0 <= i < |rewrites| ==> rewrites[i].0 != []
    requires n <= |rewrites|
    requires forall k :: 0 <= k < n ==> !Includes(s, rewrites[k].0)
    ensures ReplaceEach(s, rewrites) == ReplaceEach(s, rewrites[n..])
    decreases n
  {
    if n > 0 {
      ReplaceAllAbsent(s, rewrites[0].0, rewrites[0].1);
      ReplaceEachSkip(s, rewrites[1..], n - 1);
      assert rewrites[1..][n - 1..] == rewrites[n..];
    }
  }

  /** Rewrites whose replacements cannot create `q` keep a text free of `q` free of it. */
  lemma {:induction false} ReplaceEachKeepsFree(s: string, rewrites: seq<(string, string)>, q: string)
    requires forall i :: 0 <= i < |rewrites| ==> rewrites[i].0 != []
    requires forall i :: 0 <= i < |rewrites| ==> ReplacementIsClean(q, rewrites[i].1)
    requires !Includes(s, q)
    ensures !Includes(ReplaceEach(s, rewrites), q)
    decreases |rewrites|
  {
    if rewrites != [] {
      ReplaceAllKeepsFree(s, rewrites[0].0, rewrites[0].1, q);
      ReplaceEachKeepsFree(ReplaceAll(s, rewrites[0].0, rewrites[0].1), rewrites[1..], q);
    }
  }

  /** When no replacement can create its own or an earlier pattern, no
      pattern survives the chain. */
  lemma {:induction false} ReplaceEachRemoves(s: string, rewrites: seq<(string, string)>)
    requires forall i :: 0 <= i < |rewrites| ==> rewrites[i].0 != []
    requires forall j, k :: 0 <= j <= k < |rewrites| ==> ReplacementIsClean(rewrites[j].0, rewrites[k].1)
    ensures forall i :: 0 <= i < |rewrites| ==> !Includes(ReplaceEach(s, rewrites), rewrites[i].0)
    decreases |rewrites|
  {
    if rewrites != [] {
      var t := ReplaceAll(s, rewrites[0].0, rewrites[0].1);
      var rest := rewrites[1..];
      ReplaceAllRemoves(s, rewrites[0].0, rewrites[0].1);
      forall k | 0 <= k < |rest| ensures ReplacementIsClean(rewrites[0].0, rest[k].1) {
        assert rest[k] == rewrites[k + 1];
      }
      ReplaceEachKeepsFree(t, rest, rewrites[0].0);
      forall j, k | 0 <= j <= k < |rest| ensures ReplacementIsClean(rest[j].0, rest[k].1) {
        assert rest[j] == rewrites[j + 1] && rest[k] == rewrites[k + 1];
      }
      ReplaceEachRemoves(t, rest);
      forall i | 1 <= i < |rewrites| ensures !Includes(ReplaceEach(s, rewrites), rewrites[i].0) {
        assert rewrites[i] == rest[i - 1];
      }
    }
  }

  /** A global replace whose replacement cannot create any of the patterns
      keeps a text free of them free of them. */
  lemma ReplaceAllKeepsPatternsFree(t: string, p: string, r: string, rewrites: seq<(string, string)>)
    requires p != []
    requires forall i :: 0 <= i < |rewrites| ==> ReplacementIsClean(rewrites[i].0, r) && !Includes(t, rewrites[i].0)
    ensures forall i :: 0 <= i < |rewrites| ==> !Includes(ReplaceAll(t, p, r), rewrites[i].0)
  {
    forall i | 0 <= i < |rewrites| ensures !Includes(ReplaceAll(t, p, r), rewrites[i].0) {
      ReplaceAllKeepsFree(t, p, r, rewrites[i].0);
    }
  }

  lemma ImportPatternsNonEmpty()
    ensures forall i :: 0 <= i < |IMPORT_REWRITES| ==> IMPORT_REWRITES[i].0 != []
  {
  }

  const ESM_EXPORT: string := "export default defineConfig("
  const CJS_EXPORT: string := "module.exports = defineConfig("

  lemma ExportRewriteIsClean()
    ensures ReplacementIsClean(ESM_EXPORT, CJS_EXPORT)
  {
    var p, r := ESM_EXPORT, CJS_EXPORT;
    forall j | 0 <= j < |r| && r[j] == p[0] ensures exists m :: 0 < m < |p| && j + m < |r| && r[j + m] != p[m] {
      if j == 7 {
        assert r[j + 6] != p[6];
      } else {
        assert r[j + 1] != p[1];
      }
    }
    CleanByMismatch(p, r);
  }

  // Why no rewrite can recreate an import line or the export: every import
  // line starts with `im` and, after its first letter, holds no `cons` and no
  // `mo`; every `require` line starts with `cons` and holds no `im` and no
  // `ex`; the ESM export starts with `ex` and, after it, holds no `cons`; the
  // CommonJS export starts with `mo` and holds no `im`.

  /** A binding or specifier: no `m`, no `x` and no alignment of `cons`. */
  predicate InertName(s: string) {
    'm' !in s && 'x' !in s && NoAlignment(s, "cons")
  }

  /** The heads of an import line `p` and of its `require` line `r`. */
  predicate ImportHeads(p: string, r: string) {
    && StartsWith(p, "im") && StartsWith(r, "cons")
    && NoAlignment(p[1..], "cons") && NoAlignment(p[1..], "mo")
    && NoAlignment(r, "im") && NoAlignment(r, "ex")
  }

  /** The heads of an import line and of its `require` line. */
  lemma ImportRewriteHeads(binding: string, specifier: string)
    requires InertName(binding) && InertName(specifier)
    ensures ImportHeads(ImportRewrite(binding, specifier).0, ImportRewrite(binding, specifier).1)
  {
    var (p, r) := ImportRewrite(binding, specifier);
    assert p[1..] == "mport " + binding + " from '" + specifier + "'";
    NoAlignmentByPairs("mport ", "cons");
    NoAlignmentByPairs("mport ", "mo");
    NoAlignmentByPairs(" from '", "cons");
    NoAlignmentByPairs(" from '", "mo");
    NoAlignmentByPairs("'", "cons");
    NoAlignmentByPairs("'", "mo");
    NoAlignmentByPairs(binding, "mo");
    NoAlignmentByPairs(specifier, "mo");
    NoAlignmentAppend("mport ", binding, "cons");
    NoAlignmentAppend("mport " + binding, " from '", "cons");
    NoAlignmentAppend("mport " + binding + " from '", specifier, "cons");
    NoAlignmentAppend("mport " + binding + " from '" + specifier, "'", "cons");
    NoAlignmentAppend("mport ", binding, "mo");
    NoAlignmentAppend("mport " + binding, " from '", "mo");
    NoAlignmentAppend("mport " + binding + " from '", specifier, "mo");
    NoAlignmentAppend("mport " + binding + " from '" + specifier, "'", "mo");
    assert r[|r| - 1] == ')';
    NoAlignmentByAbsence(r, "im");
    NoAlignmentByAbsence(r, "ex");
  }

  lemma DefineConfigInert()
    ensures InertName("{ defineConfig }") && InertName("eslint/config")
  {
    NoAlignmentByPairs("{ defineConfig }", "cons");
    var e := "eslint/config";
    forall j | 0 <= j < |e| ensures !StartsWith(e[j..], "cons") && !StartsWith("cons", e[j..]) {
      assert e[j..][0] == e[j];
      if e[j] == 'c' { assert e[j..][3] == e[j + 3]; }
    }
  }

  lemma JsInert()
    ensures InertName("js") && InertName("@eslint/js")
  {
    NoAlignmentByPairs("js", "cons");
    NoAlignmentByPairs("@eslint/js", "cons");
  }

  lemma TsInert()
    ensures InertName("ts") && InertName("@typescript-eslint/eslint-plugin")
  {
    NoAlignmentByPairs("ts", "cons");
    NoAlignmentByPairs("@typescript-eslint/eslint-plugin", "cons");
  }

  lemma TsParserInert()
    ensures InertName("tsParser") && InertName("@typescript-eslint/parser")
  {
    NoAlignmentByPairs("tsParser", "cons");
    NoAlignmentByPairs("@typescript-eslint/parser", "cons");
  }

  lemma ReactInert()
    ensures InertName("react") && InertName("eslint-plugin-react")
  {
    NoAlignmentByPairs("react", "cons");
    NoAlignmentByPairs("eslint-plugin-react", "cons");
  }

  lemma ReactHooksInert()
    ensures InertName("reactHooks") && InertName("eslint-plugin-react-hooks")
  {
    NoAlignmentByPairs("reactHooks", "cons");
    NoAlignmentByPairs("eslint-plugin-react-hooks", "cons");
  }

  lemma VueInert()
    ensures InertName("vue") && InertName("eslint-plugin-vue")
  {
    NoAlignmentByPairs("vue", "cons");
    NoAlignmentByPairs("eslint-plugin-vue", "cons");
  }

  /** Every rewritten import line has the heads described above. */
  lemma RewriteHeads(k: nat)
    requires k < |IMPORT_REWRITES|
    ensures ImportHeads(IMPORT_REWRITES[k].0, IMPORT_REWRITES[k].1)
  {
    if k == 0 {
      DefineConfigInert();
      ImportRewriteHeads("{ defineConfig }", "eslint/config");
    } else if k == 1 {
      JsInert();
      ImportRewriteHeads("js", "@eslint/js");
    } else if k == 2 {
      TsInert();
      ImportRewriteHeads("ts", "@typescript-eslint/eslint-plugin");
    } else if k == 3 {
      TsParserInert();
      ImportRewriteHeads("tsParser", "@typescript-eslint/parser");
    } else if k == 4 {
      ReactInert();
      ImportRewriteHeads("react", "eslint-plugin-react");
    } else if k == 5 {
      ReactHooksInert();
      ImportRewriteHeads("reactHooks", "eslint-plugin-react-hooks");
    } else {
      VueInert();
      ImportRewriteHeads("vue", "eslint-plugin-vue");
    }
  }

  /** The heads of the two exports. */
  lemma ExportHeads()
    ensures StartsWith(ESM_EXPORT, "ex") && NoAlignment(ESM_EXPORT[1..], "cons")
    ensures StartsWith(CJS_EXPORT, "mo") && NoAlignment(CJS_EXPORT, "im")
  {
    assert ESM_EXPORT[..2] == "ex";
    NoAlignmentByPairs(ESM_EXPORT[1..], "cons");
    NoAlignmentByPairs(CJS_EXPORT, "im");
  }

  /** No replacement of the CommonJS rewrite can create an import line or the
      ES-module export. */
  lemma RewritesClean()
    ensures forall j, k :: 0 <= j < |IMPORT_REWRITES| && 0 <= k < |IMPORT_REWRITES| ==> ReplacementIsClean(IMPORT_REWRITES[j].0, IMPORT_REWRITES[k].1)
    ensures forall j :: 0 <= j < |IMPORT_REWRITES| ==> ReplacementIsClean(IMPORT_REWRITES[j].0, CJS_EXPORT)
    ensures forall k :: 0 <= k < |IMPORT_REWRITES| ==> ReplacementIsClean(ESM_EXPORT, IMPORT_REWRITES[k].1)
    ensures ReplacementIsClean(ESM_EXPORT, CJS_EXPORT)
  {
    ExportRewriteIsClean();
    ExportHeads();
    forall k | 0 <= k < |IMPORT_REWRITES| ensures ImportHeads(IMPORT_REWRITES[k].0, IMPORT_REWRITES[k].1) {
      RewriteHeads(k);
    }
    forall j, k | 0 <= j < |IMPORT_REWRITES| && 0 <= k < |IMPORT_REWRITES|
      ensures ReplacementIsClean(IMPORT_REWRITES[j].0, IMPORT_REWRITES[k].1)
    {
      CleanByHeads(IMPORT_REWRITES[j].0, IMPORT_REWRITES[k].1, "im", "cons");
    }
    forall j | 0 <= j < |IMPORT_REWRITES| ensures ReplacementIsClean(IMPORT_REWRITES[j].0, CJS_EXPORT) {
      CleanByHeads(IMPORT_REWRITES[j].0, CJS_EXPORT, "im", "mo");
    }
    forall k | 0 <= k < |IMPORT_REWRITES| ensures ReplacementIsClean(ESM_EXPORT, IMPORT_REWRITES[k].1) {
      CleanByHeads(ESM_EXPORT, IMPORT_REWRITES[k].1, "ex", "cons");
    }
  }

  /** `generateEslintConfigString` on a template text: the block passes, then
      for CommonJS the rewrite of the imports and the default export. */
  method GenerateEslintConfigString(template: string, typescript: bool, framework: Option<string>, moduleType: ModuleType)
    returns (result: string)
    ensures moduleType == Esm ==> result == EslintBlocks(template, typescript, framework)
    ensures moduleType == Cjs ==> result == ToCommonJs(EslintBlocks(template, typescript, framework))
    ensures moduleType == Cjs ==> !Includes(result, ESM_EXPORT)
    ensures moduleType == Cjs ==> forall i :: 0 <= i < |IMPORT_REWRITES| ==> !Includes(result, IMPORT_REWRITES[i].0)
  {
    result := template;
    result := RenderBlocks(result, "typescript", typescript);
    result := RenderBlocks(result, "react", framework == Some("react"));
    result := RenderBlocks(result, "vue", framework == Some("vue"));
    assert result == EslintBlocks(template, typescript, framework);
    if moduleType == Cjs {
      result := ToCommonJs(result);
    }
  }

  // ---------------------------------------------------------------------
  // the Prettier and Stylelint configurations

  const DEFAULT_EXPORT: string := "export default "
  const MODULE_EXPORTS: string := "module.exports = "

  lemma DefaultExportRewriteIsClean()
    ensures ReplacementIsClean(DEFAULT_EXPORT, MODULE_EXPORTS)
  {
    var p, r := DEFAULT_EXPORT, MODULE_EXPORTS;
    forall j | 0 <= j < |r| && r[j] == p[0] ensures exists m :: 0 < m < |p| && j + m < |r| && r[j + m] != p[m] {
      if j == 7 {
        assert r[j + 6] != p[6];
      } else {
        assert r[j + 1] != p[1];
      }
    }
    CleanByMismatch(p, r);
  }

  /** `generatePrettierConfigString` and `generateStylelintConfigString`
      (the two are the same code): a CommonJS package gets every
      `export default ` rewritten, an ES-module package the template as is. */
  function DefaultExportFor(template: string, moduleType: PackageType): (r: string)
    ensures moduleType == Module ==> r == template
    ensures moduleType == CommonJs ==> !Includes(r, DEFAULT_EXPORT)
    ensures !Includes(template, DEFAULT_EXPORT) ==> r == template
  {
    if moduleType == CommonJs then
      DefaultExportRewriteIsClean();
      ReplaceAllRemoves(template, DEFAULT_EXPORT, MODULE_EXPORTS);
      assert !Includes(template, DEFAULT_EXPORT) ==> ReplaceAll(template, DEFAULT_EXPORT, MODULE_EXPORTS) == template by {
        if !Includes(template, DEFAULT_EXPORT) {
          ReplaceAllAbsent(template, DEFAULT_EXPORT, MODULE_EXPORTS);
        }
      }
      ReplaceAll(template, DEFAULT_EXPORT, MODULE_EXPORTS)
    else template
  }

  /** In a CommonJS package, a single `export default ` becomes
      `module.exports = ` and the text around it is kept. */
  lemma DefaultExportBecomes(a: string, b: string)
    requires forall n: nat :: OccursAt(a + DEFAULT_EXPORT + b, DEFAULT_EXPORT, n) ==> n == |a|
    ensures DefaultExportFor(a + DEFAULT_EXPORT + b, CommonJs) == a + MODULE_EXPORTS + b
  {
    OnlyOccurrenceReplaced(a, DEFAULT_EXPORT, b, MODULE_EXPORTS);
  }
}
