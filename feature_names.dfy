/** The two feature-name regular expressions of src/types.ts:12-13 (repeated unchanged in
    src/types.js:4-5), written as recognisers over strings. */
module FeatureNames {

  /** `feature\.(?:organizations|projects)\:`, the scope prefix both expressions share. */
  const ORGANIZATIONS_PREFIX: string := "feature.organizations:"
  const PROJECTS_PREFIX: string := "feature.projects:"

  predicate IsScopePrefix(p: string)
  {
    p == ORGANIZATIONS_PREFIX || p == PROJECTS_PREFIX
  }

  /** `[a-z0-9-_.]`: after the range `0-9` the dash is a literal. */
  predicate IsSlugChar(c: char)
  {
    'a' <= c <= 'z' || '0' <= c <= '9' || c == '-' || c == '_' || c == '.'
  }

  /** `[a-z0-9-_.]+` */
  predicate IsSlug(s: string)
  {
    |s| > 0 && forall i | 0 <= i < |s| :: IsSlugChar(s[i])
  }

  /** `FEATURE_NAME_PATTERN = /^feature\.(?:organizations|projects)\:[a-z0-9-_.]+$/`: a scope
      prefix and a non-empty slug, anchored at both ends. */
  predicate MatchesFeatureNamePattern(s: string)
  {
    ScopeThenSlug(s, ORGANIZATIONS_PREFIX) || ScopeThenSlug(s, PROJECTS_PREFIX)
  }

  /** `s` is the prefix `p` followed by a slug. */
  predicate ScopeThenSlug(s: string, p: string)
  {
    |p| <= |s| && s[..|p|] == p && IsSlug(s[|p|..])
  }

  /** Names the pattern accepts and rejects: an empty slug, an upper-case letter or another
      scope all fail. */
  lemma FeatureNamePatternExamples()
    ensures MatchesFeatureNamePattern("feature.organizations:my-flag_1.x")
    ensures MatchesFeatureNamePattern("feature.projects:a")
    ensures !MatchesFeatureNamePattern("feature.organizations:")
    ensures !MatchesFeatureNamePattern("feature.organizations:MyFlag")
    ensures !MatchesFeatureNamePattern("feature.users:flag")
  {
    assert ScopeThenSlug("feature.organizations:my-flag_1.x", ORGANIZATIONS_PREFIX) by {
      assert "feature.organizations:my-flag_1.x"[..22] == ORGANIZATIONS_PREFIX;
      assert "feature.organizations:my-flag_1.x"[22..] == "my-flag_1.x";
    }
    assert ScopeThenSlug("feature.projects:a", PROJECTS_PREFIX) by {
      assert "feature.projects:a"[..17] == PROJECTS_PREFIX;
      assert "feature.projects:a"[17..] == "a";
    }
    var upper := "feature.organizations:MyFlag";
    assert !ScopeThenSlug(upper, ORGANIZATIONS_PREFIX) by {
      assert upper[22..][0] == 'M';
    }
    assert !ScopeThenSlug(upper, PROJECTS_PREFIX) by {
      assert upper[..17][8] != PROJECTS_PREFIX[8];
    }
    var other := "feature.users:flag";
    assert !ScopeThenSlug(other, PROJECTS_PREFIX) by {
      assert other[..17][8] != PROJECTS_PREFIX[8];
    }
  }

  /** An accepted name holds no upper-case letter and is longer than its scope prefix. */
  lemma FeatureNamePatternIsLowerCase(s: string)
    requires MatchesFeatureNamePattern(s)
    ensures forall i | 0 <= i < |s| :: !('A' <= s[i] <= 'Z')
    ensures |s| > |PROJECTS_PREFIX|
  {
    var p := if ScopeThenSlug(s, ORGANIZATIONS_PREFIX) then ORGANIZATIONS_PREFIX else PROJECTS_PREFIX;
    assert ScopeThenSlug(s, p);
    PrefixesAreLowerCase();
    forall i | 0 <= i < |s| ensures !('A' <= s[i] <= 'Z') {
      if i < |p| {
        assert s[i] == s[..|p|][i] == p[i];
      } else {
        assert s[i] == s[|p|..][i - |p|];
      }
    }
  }

  lemma PrefixesAreLowerCase()
    ensures forall i | 0 <= i < |ORGANIZATIONS_PREFIX| :: !('A' <= ORGANIZATIONS_PREFIX[i] <= 'Z')
    ensures forall i | 0 <= i < |PROJECTS_PREFIX| :: !('A' <= PROJECTS_PREFIX[i] <= 'Z')
  {
  }

  /** `\s` in a JavaScript regular expression: white space and line terminators. */
  predicate IsJsSpace(c: char)
  {
    c == '\t' || c == '\n' || c == '\U{000B}' || c == '\U{000C}' || c == '\r' || c == ' '
    || c == '\U{00A0}' || c == '\U{1680}' || ('\U{2000}' <= c <= '\U{200A}')
    || c == '\U{2028}' || c == '\U{2029}' || c == '\U{202F}' || c == '\U{205F}'
    || c == '\U{3000}' || c == '\U{FEFF}'
  }

  /** `[\w\-]` */
  predicate IsWordOrDash(c: char)
  {
    'a' <= c <= 'z' || 'A' <= c <= 'Z' || '0' <= c <= '9' || c == '_' || c == '-'
  }

  /** The end of the run of white space that starts at `i`. */
  function SkipSpaces(s: string, i: nat): (j: nat)
    requires i <= |s|
    ensures i <= j <= |s|
    ensures forall k | i <= k < j :: IsJsSpace(s[k])
    ensures j < |s| ==> !IsJsSpace(s[j])
    decreases |s| - i
  {
    if i < |s| && IsJsSpace(s[i]) then SkipSpaces(s, i + 1) else i
  }

  /** The end of the run of word characters and dashes that starts at `i`. */
  function SkipWordChars(s: string, i: nat): (j: nat)
    requires i <= |s|
    ensures i <= j <= |s|
    ensures forall k | i <= k < j :: IsWordOrDash(s[k])
    ensures j < |s| ==> !IsWordOrDash(s[j])
    decreases |s| - i
  {
    if i < |s| && IsWordOrDash(s[i]) then SkipWordChars(s, i + 1) else i
  }

  /** From `c`: `[\w\-]+\"?:` */
  predicate NameThenColon(s: string, c: nat)
    requires c <= |s|
  {
    var d := SkipWordChars(s, c);
    var e := if d < |s| && s[d] == '"' then d + 1 else d;
    c < d && e < |s| && s[e] == ':'
  }

  /** `FEATURE_NAME_LINE = /^\s*"?feature\.(?:organizations|projects)\:[\w\-]+\"?:/`, anchored
      at the start only, read left to right: each part is followed by a character the part
      cannot consume, so the greedy reading is the only one. */
  predicate MatchesFeatureNameLine(s: string)
  {
    var a := SkipSpaces(s, 0);
    var b := if a < |s| && s[a] == '"' then a + 1 else a;
    ScopeThenName(s, b, ORGANIZATIONS_PREFIX) || ScopeThenName(s, b, PROJECTS_PREFIX)
  }

  /** From `b`: the prefix `p`, then `[\w\-]+\"?:` */
  predicate ScopeThenName(s: string, b: nat, p: string)
    requires b <= |s|
  {
    b + |p| <= |s| && s[b..b + |p|] == p && NameThenColon(s, b + |p|)
  }

  /** One way of reading a line as the regular expression does: white space up to `a`, an
      optional quote up to `b`, the scope prefix `p`, word characters up to `d`, an optional
      quote up to `e` and a colon at `e`. */
  ghost predicate LineSplit(s: string, a: nat, b: nat, p: string, d: nat, e: nat)
  {
    && a <= b <= |s|
    && (forall k | 0 <= k < a :: IsJsSpace(s[k]))
    && (b == a || (b == a + 1 && s[a] == '"'))
    && IsScopePrefix(p)
    && b + |p| < d <= |s|
    && s[b..b + |p|] == p
    && (forall k | b + |p| <= k < d :: IsWordOrDash(s[k]))
    && d <= e < |s|
    && (e == d || (e == d + 1 && s[d] == '"'))
    && s[e] == ':'
  }

  /** The meaning of the regular expression: some split of the line exists. */
  ghost predicate FeatureNameLineRegex(s: string)
  {
    exists a, b, p, d, e :: LineSplit(s, a, b, p, d, e)
  }

  /** The left-to-right recogniser accepts exactly the lines the regular expression matches. */
  lemma FeatureNameLineRecognizerIsExact(s: string)
    ensures MatchesFeatureNameLine(s) <==> FeatureNameLineRegex(s)
  {
    if MatchesFeatureNameLine(s) {
      RecognizedLineSplits(s);
    }
    if FeatureNameLineRegex(s) {
      var a, b, p, d, e :| LineSplit(s, a, b, p, d, e);
      SplitLineIsRecognized(s, a, b, p, d, e);
    }
  }

  lemma RecognizedLineSplits(s: string)
    requires MatchesFeatureNameLine(s)
    ensures FeatureNameLineRegex(s)
  {
    var a := SkipSpaces(s, 0);
    var b := if a < |s| && s[a] == '"' then a + 1 else a;
    if ScopeThenName(s, b, ORGANIZATIONS_PREFIX) {
      LineSplitFrom(s, a, b, ORGANIZATIONS_PREFIX);
    } else {
      LineSplitFrom(s, a, b, PROJECTS_PREFIX);
    }
  }

  /** The split the recogniser finds once it has read the white space up to `a` and the optional
      quote up to `b`, and the prefix `p` follows. */
  lemma LineSplitFrom(s: string, a: nat, b: nat, p: string)
    requires a <= b <= |s|
    requires forall k | 0 <= k < a :: IsJsSpace(s[k])
    requires b == a || (b == a + 1 && s[a] == '"')
    requires IsScopePrefix(p) && ScopeThenName(s, b, p)
    ensures FeatureNameLineRegex(s)
  {
    var d := SkipWordChars(s, b + |p|);
    var e := if d < |s| && s[d] == '"' then d + 1 else d;
    assert LineSplit(s, a, b, p, d, e);
  }

  lemma SplitLineIsRecognized(s: string, a: nat, b: nat, p: string, d: nat, e: nat)
    requires LineSplit(s, a, b, p, d, e)
    ensures MatchesFeatureNameLine(s)
  {
    assert s[b] == p[0] by { assert s[b] == s[b..b + |p|][0]; }
    assert p[0] == 'f';
    // The white space ends where the quote or the `f` of the prefix stands.
    SpacesEndAt(s, a);
    // The name ends where the quote or the colon stands.
    WordCharsEndAt(s, b + |p|, d);
    assert ScopeThenName(s, b, p);
  }

  /** A white-space prefix followed by a non-space is what `SkipSpaces` finds. */
  lemma {:induction false} SpacesEndAt(s: string, a: nat)
    requires a < |s| && !IsJsSpace(s[a])
    requires forall k | 0 <= k < a :: IsJsSpace(s[k])
    ensures SkipSpaces(s, 0) == a
  {
  }

  lemma {:induction false} WordCharsEndAt(s: string, c: nat, d: nat)
    requires c <= d < |s| && !IsWordOrDash(s[d])
    requires forall k | c <= k < d :: IsWordOrDash(s[k])
    ensures SkipWordChars(s, c) == d
  {
  }

  /** Every indented, quoted feature key line matches, whatever follows the colon. */
  lemma QuotedFeatureKeyLinesMatch(indent: string, p: string, name: string, rest: string)
    requires forall k | 0 <= k < |indent| :: IsJsSpace(indent[k])
    requires IsScopePrefix(p)
    requires |name| > 0 && forall k | 0 <= k < |name| :: IsWordOrDash(name[k])
    ensures MatchesFeatureNameLine(indent + "\"" + p + name + "\":" + rest)
  {
    var head := indent + "\"";
    var key := head + p;
    var full := key + name;
    var line := full + "\":" + rest;
    var a, c, d := |indent|, |key|, |full|;
    assert forall k | 0 <= k < a :: line[k] == indent[k] by {
      assert forall k | 0 <= k < a :: line[k] == full[k] == key[k] == head[k];
    }
    assert line[a] == '"' by { assert line[a] == full[a] == key[a] == head[a]; }
    assert line[a + 1..c] == p by { assert line[..c] == key; }
    assert forall k | c <= k < d :: line[k] == name[k - c] by {
      assert forall k | c <= k < d :: line[k] == full[k];
    }
    assert line[d] == '"' && line[d + 1] == ':';
    assert LineSplit(line, a, a + 1, p, d, d + 1);
    SplitLineIsRecognized(line, a, a + 1, p, d, d + 1);
  }

  /** Every indented, unquoted feature key line matches, whatever follows the colon. */
  lemma BareFeatureKeyLinesMatch(indent: string, p: string, name: string, rest: string)
    requires forall k | 0 <= k < |indent| :: IsJsSpace(indent[k])
    requires IsScopePrefix(p)
    requires |name| > 0 && forall k | 0 <= k < |name| :: IsWordOrDash(name[k])
    ensures MatchesFeatureNameLine(indent + p + name + ":" + rest)
  {
    var key := indent + p;
    var full := key + name;
    var line := full + ":" + rest;
    var a, c, d := |indent|, |key|, |full|;
    assert forall k | 0 <= k < a :: line[k] == indent[k] by {
      assert forall k | 0 <= k < a :: line[k] == full[k] == key[k];
    }
    assert line[a..c] == p by { assert line[..c] == key; }
    assert forall k | c <= k < d :: line[k] == name[k - c] by {
      assert forall k | c <= k < d :: line[k] == full[k];
    }
    assert line[d] == ':';
    assert LineSplit(line, a, a, p, d, d);
    SplitLineIsRecognized(line, a, a, p, d, d);
  }

  /** A key with an empty name does not match. */
  lemma FeatureNameLineRejectsEmptyName()
    ensures !MatchesFeatureNameLine("feature.projects:: x")
  {
    var l2 := "feature.projects:: x";
    SpacesEndAt(l2, 0);
    WordCharsEndAt(l2, 17, 17);
  }
}
