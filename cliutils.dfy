// The helpers of the older lavy-cli package: comment stripping and the
// package-manager command of `installPackage` (packages/lavy-cli/utils/index.ts).

module CliUtils {
  import opened JsText
  import opened PackageManagers

  // ---------------------------------------------------------------------
  // removeComment: `msg.replace(/^#.*[\n\r]*/gm, "")`

  predicate IsCrLf(c: char) { c == '\n' || c == '\r' }

  /** The length of the leading run of `\n`/`\r` characters: what `[\n\r]*` takes. */
  function CrLfRun(s: string): (n: nat)
    ensures n <= |s|
    ensures forall i :: 0 <= i < n ==> IsCrLf(s[i])
    ensures n < |s| ==> !IsCrLf(s[n])
  {
    if s == [] || !IsCrLf(s[0]) then 0 else 1 + CrLfRun(s[1..])
  }

  /** The global multi-line replacement. From a line start, a `#` line is removed
      together with the CR/LF run after it; the scan goes on where the match
      ended, which is a line start exactly when the run was not empty. */
  function StripFrom(s: string, lineStart: bool): (r: string)
    ensures |r| <= |s|
    ensures lineStart && s != [] && s[0] == '#' ==> |r| < |s|
    decreases |s|
  {
    if s == [] then []
    else if lineStart && s[0] == '#' then
      var e := CommentMatchEnd(s);
      StripFrom(s[e..], e > LineLength(s))
    else [s[0]] + StripFrom(s[1..], IsLineTerminator(s[0]))
  }

  /** Where the match of `#.*[\n\r]*` at the start of `s` ends: after the
      first line and the CR/LF run that follows it. */
  function CommentMatchEnd(s: string): (e: nat)
    ensures LineLength(s) <= e <= |s|
    ensures forall i :: LineLength(s) <= i < e ==> IsCrLf(s[i])
    ensures e < |s| ==> !IsCrLf(s[e])
  {
    var n := LineLength(s);
    n + CrLfRun(s[n..])
  }

  function StripComments(msg: string): (r: string)
    ensures |r| <= |msg|
    ensures msg != [] && msg[0] == '#' ==> |r| < |msg|
  {
    StripFrom(msg, true)
  }

  /** No line of the result starts with `#`. */
  lemma {:induction false} StripLeavesNoComment(s: string, lineStart: bool)
    ensures NoCommentLine(StripFrom(s, lineStart), lineStart)
    decreases |s|
  {
    if s == [] {
    } else if lineStart && s[0] == '#' {
      var e := CommentMatchEnd(s);
      StripLeavesNoComment(s[e..], e > LineLength(s));
      CommentLineStep(s);
    } else {
      var b := IsLineTerminator(s[0]);
      StripLeavesNoComment(s[1..], b);
      assert StripFrom(s, lineStart) == [s[0]] + StripFrom(s[1..], b);
      ConsNoComment(s[0], StripFrom(s[1..], b), lineStart);
    }
  }

  /** A removed `#` line leaves the text after it, which starts a line unless
      the removal ended on a line terminator other than CR/LF. */
  lemma CommentLineStep(s: string)
    requires s != [] && s[0] == '#'
    requires var e := CommentMatchEnd(s); NoCommentLine(StripFrom(s[e..], e > LineLength(s)), e > LineLength(s))
    ensures NoCommentLine(StripFrom(s, true), true)
  {
    var e := CommentMatchEnd(s);
    var rest := s[e..];
    assert StripFrom(s, true) == StripFrom(rest, e > LineLength(s));
    if e == LineLength(s) && rest != [] {
      assert rest[0] == s[e];
      KeptLineTerminator(rest);
    }
  }

  /** Away from a line start, a leading line terminator is kept. */
  lemma KeptLineTerminator(s: string)
    requires s != [] && IsLineTerminator(s[0])
    ensures StripFrom(s, false) != [] && StripFrom(s, false)[0] == s[0]
  {
    assert StripFrom(s, false) == [s[0]] + StripFrom(s[1..], true);
  }

  /** A message without `#` is returned unchanged: nothing is trimmed. */
  lemma {:induction false} StripWithoutHash(s: string, lineStart: bool)
    requires '#' !in s
    ensures StripFrom(s, lineStart) == s
    decreases |s|
  {
    if s != [] {
      assert s[0] in s;
      assert forall c :: c in s[1..] ==> c in s;
      StripWithoutHash(s[1..], IsLineTerminator(s[0]));
    }
  }

  /** A line prefix that is no comment is kept as it is; after a non-empty
      one the scan no longer stands at a line start. */
  lemma {:induction false} StripKeepsLine(m: string, rest: string, lineStart: bool)
    requires forall i :: 0 <= i < |m| ==> !IsLineTerminator(m[i])
    requires lineStart && m != [] ==> m[0] != '#'
    ensures StripFrom(m + rest, lineStart) == m + StripFrom(rest, lineStart && m == [])
    decreases |m|
  {
    if m != [] {
      var s := m + rest;
      assert s[0] == m[0] && s[1..] == m[1..] + rest;
      assert !IsLineTerminator(m[0]);
      assert StripFrom(s, lineStart) == [m[0]] + StripFrom(m[1..] + rest, false);
      StripKeepsLine(m[1..], rest, false);
      var x := StripFrom(rest, false);
      assert [m[0]] + (m[1..] + x) == m + x;
      assert StripFrom(m + rest, lineStart) == m + x;
    } else {
      assert m + rest == rest;
      assert m + StripFrom(rest, lineStart) == StripFrom(rest, lineStart);
    }
  }

  /** A line that does not start with `#` passes, with its terminator, and the
      next line is scanned from its start. */
  lemma StripPassesLine(m: string, t: char, rest: string, lineStart: bool)
    requires forall i :: 0 <= i < |m| ==> !IsLineTerminator(m[i])
    requires IsLineTerminator(t)
    requires lineStart && m != [] ==> m[0] != '#'
    ensures StripFrom(m + [t] + rest, lineStart) == m + [t] + StripFrom(rest, true)
  {
    var u := [t] + rest;
    assert m + [t] + rest == m + u;
    StripKeepsLine(m, u, lineStart);
    StripTerminator(t, rest, lineStart && m == []);
  }

  /** A line terminator is kept, and a line starts after it. */
  lemma StripTerminator(t: char, rest: string, lineStart: bool)
    requires IsLineTerminator(t)
    ensures StripFrom([t] + rest, lineStart) == [t] + StripFrom(rest, true)
  {
    var u := [t] + rest;
    assert u[0] == t && u[1..] == rest;
  }

  /** A last line that does not start with `#` passes unchanged. */
  lemma StripLastLine(m: string, lineStart: bool)
    requires forall i :: 0 <= i < |m| ==> !IsLineTerminator(m[i])
    requires lineStart && m != [] ==> m[0] != '#'
    ensures StripFrom(m, lineStart) == m
  {
    StripKeepsLine(m, [], lineStart);
    assert m + [] == m;
  }

  /** A leading comment line goes together with its whole CR/LF run. */
  lemma StripCommentLine(comment: string, breaks: string, body: string)
    requires forall i :: 0 <= i < |comment| ==> !IsLineTerminator(comment[i])
    requires breaks != [] && forall i :: 0 <= i < |breaks| ==> IsCrLf(breaks[i])
    requires body == [] || !IsCrLf(body[0])
    ensures StripComments("#" + comment + breaks + body) == StripComments(body)
  {
    var s := "#" + comment + breaks + body;
    var n := 1 + |comment|;
    assert forall i :: 1 <= i < n ==> s[i] == comment[i - 1];
    assert forall i :: 0 <= i < n ==> !IsLineTerminator(s[i]);
    assert s[n] == breaks[0];
    assert LineLength(s) == n;
    var r := s[n..];
    assert r == breaks + body;
    assert forall i :: 0 <= i < |breaks| ==> r[i] == breaks[i];
    if |breaks| < |r| {
      assert r[|breaks|] == body[0];
    }
    assert CrLfRun(r) == |breaks|;
    assert s[n + |breaks|..] == body;
  }

  // ---------------------------------------------------------------------
  // installPackage

  /** `/^win/.test(process.platform)`. */
  predicate IsWindows(platform: string) {
    StartsWith(platform, "win")
  }

  /** The manager the lockfiles pick here: yarn.lock wins over pnpm-lock.yaml. */
  function CliManager(existing: set<string>): (pm: PackageManager)
    ensures pm == Yarn <==> "yarn.lock" in existing
    ensures pm == Pnpm <==> "yarn.lock" !in existing && "pnpm-lock.yaml" in existing
  {
    if "yarn.lock" in existing then Yarn
    else if "pnpm-lock.yaml" in existing then Pnpm
    else Npm
  }

  /** The two lockfile priorities of the code base disagree exactly when both
      lockfiles are present. */
  lemma CliManagerDiffersFromDetect(existing: set<string>)
    ensures CliManager(existing) != DetectPackageManager(existing)
        <==> "yarn.lock" in existing && "pnpm-lock.yaml" in existing
  {}

  /** The arguments before the dependencies. */
  function InstallPrefix(pm: PackageManager, workspace: bool): seq<string> {
    match pm
    case Yarn => ["add", "-D"]
    case Pnpm => if workspace then ["add", "-D", "-w"] else ["add", "-D"]
    case Npm => ["install", "-D"]
  }

  /** `command.includes(name)` on the executable names decides the manager. */
  lemma CommandNames(pm: PackageManager, suffix: string)
    requires suffix == "" || suffix == ".cmd"
    ensures Includes(pm.Name() + suffix, "yarn") <==> pm == Yarn
    ensures pm != Yarn ==> (Includes(pm.Name() + suffix, "pnpm") <==> pm == Pnpm)
  {
    var c := pm.Name() + suffix;
    match pm
    case Yarn =>
      assert c[..4] == "yarn";
      IncludesAt(c, "yarn", 0);
    case Pnpm =>
      assert c[..4] == "pnpm";
      IncludesAt(c, "pnpm", 0);
      MissingCharExcludes(c, "yarn", 'y');
    case Npm =>
      MissingCharExcludes(c, "yarn", 'y');
      forall i: nat | i <= |c| ensures !OccursAt(c, "pnpm", i) {
        if i + 4 <= |c| {
          var w := c[i..i + 4];
          if i == 1 {
            assert w[1] == 'm';
          } else {
            assert w[0] == c[i] != 'p';
          }
        }
      }
  }

  /** installPackage(...dependencies): the command and argument list it spawns.
      `existing` is the set of names in the working directory. */
  method InstallPackage(existing: set<string>, platform: string, dependencies: seq<string>)
    returns (command: string, args: seq<string>)
    ensures command == CliManager(existing).Name() + (if IsWindows(platform) then ".cmd" else "")
    ensures args == InstallPrefix(CliManager(existing), "pnpm-workspace.yaml" in existing) + dependencies
  {
    var suffix := if IsWindows(platform) then ".cmd" else "";
    if "yarn.lock" in existing {
      command := "yarn" + suffix;
    } else if "pnpm-lock.yaml" in existing {
      command := "pnpm" + suffix;
    } else {
      command := "npm" + suffix;
    }
    CommandNames(CliManager(existing), suffix);
    var installCommand: seq<string>;
    if Includes(command, "yarn") {
      installCommand := ["add", "-D"];
    } else if Includes(command, "pnpm") {
      if "pnpm-workspace.yaml" in existing {
        installCommand := ["add", "-D", "-w"];
      } else {
        installCommand := ["add", "-D"];
      }
    } else {
      installCommand := ["install", "-D"];
    }
    args := installCommand + dependencies;
  }

  /** The dependencies are passed last, in order, after two or three flags. */
  lemma InstallArgsEndWithDependencies(pm: PackageManager, workspace: bool, dependencies: seq<string>)
    ensures var args := InstallPrefix(pm, workspace) + dependencies;
            var k := |args| - |dependencies|;
            (k == 3 <==> pm == Pnpm && workspace)
            && 2 <= k && args[k..] == dependencies
            && args[1] == "-D"
  {}
}
