// Reading the project platform from a lavy configuration file
// (packages/eslint-config-lavy/src/utils/platform.ts).

module ProjectPlatform {
  import opened Wrappers
  import opened JsText
  import opened ConfigTypes

  // ---------------------------------------------------------------------
  // The match /platform\s*:\s*['"](node|browser|universal)['"]/i and its group 1.
  // The functions take the keyword and the alternatives as parameters.

  const KEY := "platform"
  const PLATFORM_NAMES: seq<string> := ["node", "browser", "universal"]

  predicate IsQuote(c: char) { c == '\'' || c == '"' }

  /** Where `\s*` starting at `i` ends: the first index at or after `i` that is
      not white space. */
  function SkipSpaces(s: string, i: nat): (j: nat)
    requires i <= |s|
    ensures i <= j <= |s|
    ensures forall k :: i <= k < j ==> IsSpace(s[k])
    ensures j < |s| ==> !IsSpace(s[j])
    decreases |s| - i
  {
    if i < |s| && IsSpace(s[i]) then SkipSpaces(s, i + 1) else i
  }

  /** `w` at `i`, ignoring ASCII case, compared character by character. */
  predicate WordAt(s: string, i: nat, w: string)
    decreases |w|
  {
    if w == [] then i <= |s|
    else i < |s| && LowerChar(s[i]) == LowerChar(w[0]) && WordAt(s, i + 1, w[1..])
  }

  /** A word at `i` lies within the text. */
  lemma {:induction false} WordAtFits(s: string, i: nat, w: string)
    requires WordAt(s, i, w)
    ensures i + |w| <= |s|
    decreases |w|
  {
    if w != [] {
      WordAtFits(s, i + 1, w[1..]);
    }
  }

  /** The word itself, in any case the text has it, is found where it is written. */
  lemma {:induction false} WordAtWritten(s: string, i: nat, w: string)
    requires i + |w| <= |s| && s[i..i + |w|] == w
    ensures WordAt(s, i, w)
    decreases |w|
  {
    if w != [] {
      assert s[i] == w[0];
      assert s[i + 1..i + 1 + |w[1..]|] == w[1..];
      WordAtWritten(s, i + 1, w[1..]);
    }
  }

  /** An alternative that fits at `v` and is followed by a quote. */
  predicate NameFits(s: string, v: nat, w: string) {
    v + |w| < |s| && WordAt(s, v, w) && IsQuote(s[v + |w|])
  }

  /** The group of alternatives followed by a quote, tried in order; the text
      captured keeps the case it has in `s`. */
  function ValueAt(s: string, v: nat, names: seq<string>): (r: Option<string>)
    ensures r.Some? ==> exists w :: w in names && NameFits(s, v, w) && r.value == s[v..v + |w|]
    ensures r.None? ==> forall w :: w in names ==> !NameFits(s, v, w)
  {
    if names == [] then None
    else if NameFits(s, v, names[0]) then Some(s[v..v + |names[0]|])
    else ValueAt(s, v, names[1..])
  }

  /** The match attempted at position `i`. `\s` cannot match `:` or a quote, so
      the greedy spaces never need to give anything back. */
  function MatchAt(s: string, i: nat, key: string, names: seq<string>): Option<string>
    requires i <= |s|
  {
    if i + |key| <= |s| && WordAt(s, i, key) then AfterKey(s, SkipSpaces(s, i + |key|), names) else None
  }

  /** The rest of the match once the spaces after the keyword end at `j`. */
  function AfterKey(s: string, j: nat, names: seq<string>): Option<string>
    requires j <= |s|
  {
    if j < |s| && s[j] == ':' then AfterColon(s, SkipSpaces(s, j + 1), names) else None
  }

  /** The rest of the match once the spaces after the colon end at `k`. */
  function AfterColon(s: string, k: nat, names: seq<string>): Option<string>
    requires k <= |s|
  {
    if k < |s| && IsQuote(s[k]) then ValueAt(s, k + 1, names) else None
  }

  /** `content.match(...)?.[1]`: the group of the leftmost match, searching from `i`. */
  function FirstMatch(s: string, i: nat, key: string, names: seq<string>): (r: Option<string>)
    requires i <= |s|
    ensures r.Some? ==> exists w :: w in names && |r.value| == |w|
    decreases |s| - i
  {
    if MatchAt(s, i, key, names).Some? then MatchAt(s, i, key, names)
    else if i == |s| then None
    else FirstMatch(s, i + 1, key, names)
  }

  /** The search finds the leftmost position that matches, and finds nothing
      exactly when no position from `i` on matches. */
  lemma {:induction false} FirstMatchLeftmost(s: string, i: nat, key: string, names: seq<string>)
    requires i <= |s|
    ensures var r := FirstMatch(s, i, key, names);
      && (r.Some? ==> exists k :: i <= k <= |s| && MatchAt(s, k, key, names) == r
                                  && forall m :: i <= m < k ==> MatchAt(s, m, key, names).None?)
      && (r.None? ==> forall k :: i <= k <= |s| ==> MatchAt(s, k, key, names).None?)
    decreases |s| - i
  {
    var here := MatchAt(s, i, key, names);
    var r := FirstMatch(s, i, key, names);
    if here.Some? {
      assert MatchAt(s, i, key, names) == r;
    } else if i < |s| {
      FirstMatchLeftmost(s, i + 1, key, names);
      assert r == FirstMatch(s, i + 1, key, names);
      if r.Some? {
        var k :| i + 1 <= k <= |s| && MatchAt(s, k, key, names) == r
                 && forall m :: i + 1 <= m < k ==> MatchAt(s, m, key, names).None?;
        forall m | i <= m < k ensures MatchAt(s, m, key, names).None? {
          if m == i { assert MatchAt(s, m, key, names) == here; }
        }
      } else {
        forall m | i <= m <= |s| ensures MatchAt(s, m, key, names).None? {
          if m == i { assert MatchAt(s, m, key, names) == here; }
        }
      }
    } else {
      assert r.None?;
      forall m | i <= m <= |s| ensures MatchAt(s, m, key, names).None? {
        assert MatchAt(s, m, key, names) == here;
      }
    }
  }

  /** The platform group of a configuration text. */
  function PlatformGroup(content: string): (g: Option<string>)
    ensures g.Some? ==> exists w :: w in PLATFORM_NAMES && |g.value| == |w|
  {
    FirstMatch(content, 0, KEY, PLATFORM_NAMES)
  }

  /** The case-sensitive accept test on the captured group. */
  function Accept(group: Option<string>): (p: Option<Platform>)
    ensures p == Some(Node) <==> group == Some("node")
    ensures p == Some(Browser) <==> group == Some("browser")
    ensures p == Some(Universal) <==> group == Some("universal")
  {
    if group == Some("node") then Some(Node)
    else if group == Some("browser") then Some(Browser)
    else if group == Some("universal") then Some(Universal)
    else None
  }

  // ---------------------------------------------------------------------
  // getProjectPlatform

  const TRY_FILES: seq<string> := ["lavy.config.js", "lavy.config.ts"]

  /** The platform the files in `names` decide, in order. `files` maps each
      existing file to its text, `None` when reading it throws: the exception is
      caught and the default applies. */
  function PlatformFrom(files: map<string, Option<string>>, names: seq<string>): (p: Platform)
    ensures (forall n :: n in names ==> n !in files) ==> p == Browser
  {
    if names == [] then Browser
    else if names[0] !in files then PlatformFrom(files, names[1..])
    else match files[names[0]]
      case None => Browser
      case Some(content) =>
        match Accept(PlatformGroup(content))
        case Some(p) => p
        case None => PlatformFrom(files, names[1..])
  }

  /** getProjectPlatform: the loop over the two file names with its early return. */
  method GetProjectPlatform(files: map<string, Option<string>>) returns (platform: Platform)
    ensures platform == PlatformFrom(files, TRY_FILES)
  {
    for i := 0 to |TRY_FILES|
      invariant PlatformFrom(files, TRY_FILES[i..]) == PlatformFrom(files, TRY_FILES)
    {
      assert TRY_FILES[i..][1..] == TRY_FILES[i + 1..];
      var fname := TRY_FILES[i];
      if fname in files {
        var content := files[fname];
        if content.None? {
          return Browser;
        }
        var group := PlatformGroup(content.value);
        if group == Some("node") {
          return Node;
        } else if group == Some("browser") {
          return Browser;
        } else if group == Some("universal") {
          return Universal;
        }
      }
    }
    assert TRY_FILES[|TRY_FILES|..] == [];
    return Browser;
  }

  /** Without a configuration file the platform is the browser. */
  lemma NoConfigMeansBrowser(files: map<string, Option<string>>)
    requires forall n :: n in TRY_FILES ==> n !in files
    ensures PlatformFrom(files, TRY_FILES) == Browser
  {
    assert TRY_FILES[0] in TRY_FILES && TRY_FILES[1] in TRY_FILES;
    assert TRY_FILES[1..][1..] == [];
    assert PlatformFrom(files, TRY_FILES[1..]) == PlatformFrom(files, []);
  }

  /** lavy.config.js comes first: a platform it names wins over lavy.config.ts. */
  lemma JsConfigWins(files: map<string, Option<string>>, p: Platform)
    requires "lavy.config.js" in files && files["lavy.config.js"].Some?
    requires Accept(PlatformGroup(files["lavy.config.js"].value)) == Some(p)
    ensures PlatformFrom(files, TRY_FILES) == p
  {
    assert TRY_FILES[0] == "lavy.config.js";
  }

  /** A capitalised value such as `Node` is matched but not accepted, so the
      search falls through to the next file. */
  lemma CapitalisedFallsThrough(files: map<string, Option<string>>)
    requires "lavy.config.js" in files && files["lavy.config.js"].Some?
    requires PlatformGroup(files["lavy.config.js"].value) == Some("Node")
    ensures PlatformFrom(files, TRY_FILES) == PlatformFrom(files, ["lavy.config.ts"])
  {
    assert TRY_FILES[0] == "lavy.config.js";
    assert Accept(Some("Node")) == None by {
      assert "Node"[0] != "node"[0];
      assert "Node" != "browser" && "Node" != "universal";
    }
    assert TRY_FILES[1..] == ["lavy.config.ts"];
  }

  /** `\s*` from `i` stops right after a run of spaces. */
  lemma {:induction false} SkipSpacesRun(s: string, i: nat, j: nat)
    requires i <= j < |s| && !IsSpace(s[j])
    requires forall k :: i <= k < j ==> IsSpace(s[k])
    ensures SkipSpaces(s, i) == j
    decreases j - i
  {
    if i < j {
      SkipSpacesRun(s, i + 1, j);
    }
  }

  /** The match at `i` from its parts: the keyword, spaces up to the colon at `j`,
      spaces up to the quote at `k`, and a fitting alternative after it. */
  lemma MatchAtParts(s: string, i: nat, j: nat, k: nat, key: string, names: seq<string>, name: string)
    requires i + |key| <= j < k < |s| && s[i..i + |key|] == key
    requires forall m :: i + |key| <= m < j ==> IsSpace(s[m])
    requires s[j] == ':' && forall m :: j < m < k ==> IsSpace(s[m])
    requires IsQuote(s[k]) && ValueAt(s, k + 1, names) == Some(name)
    ensures MatchAt(s, i, key, names) == Some(name)
  {
    WordAtWritten(s, i, key);
    SkipSpacesRun(s, i + |key|, j);
    AfterKeyParts(s, j, k, names, name);
    assert SkipSpaces(s, i + |key|) == j;
    assert MatchAt(s, i, key, names) == AfterKey(s, j, names);
  }

  /** The part of `MatchAtParts` after the keyword's spaces. */
  lemma AfterKeyParts(s: string, j: nat, k: nat, names: seq<string>, name: string)
    requires j < k < |s| && s[j] == ':' && forall m :: j < m < k ==> IsSpace(s[m])
    requires IsQuote(s[k]) && ValueAt(s, k + 1, names) == Some(name)
    ensures AfterKey(s, j, names) == Some(name)
  {
    assert !IsSpace(s[k]);
    SkipSpacesRun(s, j + 1, k);
    assert SkipSpaces(s, j + 1) == k;
    assert AfterColon(s, k, names) == Some(name);
  }

  /** The keyword at `i`, spaces up to a colon at `j`, spaces up to a quote at
      `k`, then an alternative and a quote: the match yields that alternative,
      with either quote character, when no two alternatives start with the same
      letter. */
  lemma MatchForm(s: string, i: nat, j: nat, k: nat, key: string, names: seq<string>, name: string)
    requires i + |key| <= j < k && k + 1 + |name| < |s| && s[i..i + |key|] == key
    requires forall m :: i + |key| <= m < j ==> IsSpace(s[m])
    requires s[j] == ':' && forall m :: j < m < k ==> IsSpace(s[m])
    requires IsQuote(s[k]) && s[k + 1..k + 1 + |name|] == name && IsQuote(s[k + 1 + |name|])
    requires name in names && DistinctInitials(names)
    ensures MatchAt(s, i, key, names) == Some(name)
  {
    ValueOfName(s, k + 1, name, names);
    MatchAtParts(s, i, j, k, key, names, name);
  }

  /** Non-empty alternatives whose first letters differ up to case. */
  predicate DistinctInitials(names: seq<string>) {
    forall a, b :: a in names && b in names ==> a != [] && b != [] && (LowerChar(a[0]) == LowerChar(b[0]) ==> a == b)
  }

  /** With distinct initials at most one alternative fits at a position. */
  lemma ValueOfName(s: string, v: nat, name: string, names: seq<string>)
    requires name in names && DistinctInitials(names)
    requires v + |name| < |s| && s[v..v + |name|] == name && IsQuote(s[v + |name|])
    ensures ValueAt(s, v, names) == Some(name)
  {
    var r := ValueAt(s, v, names);
    WordAtWritten(s, v, name);
    assert NameFits(s, v, name);
    var w :| w in names && NameFits(s, v, w) && r.value == s[v..v + |w|];
    assert LowerChar(s[v]) == LowerChar(w[0]);
    assert s[v] == name[0];
  }

  /** The three platform names start with different letters. */
  lemma PlatformNamesDistinct()
    ensures DistinctInitials(PLATFORM_NAMES)
  {
    assert forall a :: a in PLATFORM_NAMES ==> a == "node" || a == "browser" || a == "universal";
  }

  /** A configuration written `platform: "universal"` names the universal platform. */
  lemma UniversalExample()
    ensures PlatformGroup("platform: \"universal\"") == Some("universal")
  {
    var s := "platform: \"universal\"";
    assert s[0..8] == KEY;
    assert s[11..20] == "universal";
    PlatformNamesDistinct();
    MatchForm(s, 0, 8, 10, KEY, PLATFORM_NAMES, "universal");
  }
}
