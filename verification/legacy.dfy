/**
 * The earlier, stand-alone release script: its own tag normalisation, a
 * version pattern anchored at the start of the text, a `(0, 0, 0)` fallback
 * for text that does not match, and the choice of the latest tag from the
 * repository's tag list.
 */
module Legacy {

  import opened Wrappers
  import opened Strings
  import opened Decimal
  import opened Semver

  const Prefix: string := "regorus-"
  const PrefixV: string := "regorus-v"

  /** `s.lstrip("v")`: every leading `v` removed. */
  function StripVs(s: string): (r: string)
    ensures r == [] || r[0] != 'v'
    ensures |r| <= |s|
  {
    if s != [] && s[0] == 'v' then StripVs(s[1..]) else s
  }

  /** What `lstrip` removes is all `v`s and what it keeps is the rest of the text. */
  lemma {:induction false} StripVsSplit(s: string)
    ensures var r := StripVs(s);
      && s[|s| - |r|..] == r
      && forall k :: 0 <= k < |s| - |r| ==> s[k] == 'v'
  {
    if s != [] && s[0] == 'v' {
      StripVsSplit(s[1..]);
      assert s[1..][|s| - 1 - |StripVs(s)|..] == s[|s| - |StripVs(s)|..];
    }
  }

  /**
   * `tag_to_version`: the tag with one leading part removed: `regorus-v`
   * when it is there, else `regorus-`, else a run of `v`s after which no `v`
   * is left.
   */
  function TagToVersion(tag: string): (r: string)
    ensures |r| <= |tag| && tag[|tag| - |r|..] == r
    ensures StartsWith(tag, PrefixV) ==> tag == PrefixV + r
    ensures !StartsWith(tag, PrefixV) && StartsWith(tag, Prefix) ==> tag == Prefix + r
    ensures !StartsWith(tag, Prefix) ==> (r == [] || r[0] != 'v') && forall k :: 0 <= k < |tag| - |r| ==> tag[k] == 'v'
  {
    if StartsWith(tag, PrefixV) then
      assert tag == tag[..|PrefixV|] + tag[|PrefixV|..];
      tag[|PrefixV|..]
    else if StartsWith(tag, Prefix) then
      assert tag == tag[..|Prefix|] + tag[|Prefix|..];
      tag[|Prefix|..]
    else
      StripVsSplit(tag);
      StripVs(tag)
  }

  /**
   * The text left for the three digit groups of `(?:regorus-)?v?(\d+)...`
   * once `re.match` has taken the optional prefixes. Each optional part is
   * taken when it is there: skipping it would leave a letter where the
   * pattern next needs a `v` or a digit, so backtracking never helps.
   */
  function Rest(s: string): string {
    var a := if StartsWith(s, Prefix) then s[|Prefix|..] else s;
    if a != [] && a[0] == 'v' then a[1..] else a
  }

  /** The groups of the pattern matched at the start of `s`. */
  function Anchored(s: string): Option<Version> {
    Match(Rest(s))
  }

  /** `version_to_tuple`: the anchored match, or `(0, 0, 0)` when there is none. */
  function VersionToTuple(s: string): (v: Version)
    ensures Anchored(s).Some? ==> Some(v) == Anchored(s)
    ensures Anchored(s).None? ==> v == Version(0, 0, 0)
  {
    match Anchored(s)
    case None => Version(0, 0, 0)
    case Some(v) => v
  }

  /** `needs_build`: build when PyPI has no release, or when the tag's tuple is greater. */
  function NeedsBuild(githubTag: string, pypiVersion: Option<string>): (r: bool)
    ensures pypiVersion.None? ==> r
    ensures pypiVersion.Some? ==> (r <==> Greater(VersionToTuple(TagToVersion(githubTag)), VersionToTuple(pypiVersion.value)))
    ensures pypiVersion.Some? && r ==> Anchored(TagToVersion(githubTag)).Some?
  {
    pypiVersion.None? || Greater(VersionToTuple(TagToVersion(githubTag)), VersionToTuple(pypiVersion.value))
  }

  /** The optional prefixes are letters: what `Rest` drops holds no digit and starts with `r` or `v`. */
  lemma RestSplit(s: string)
    ensures var r := Rest(s);
      && |r| <= |s| && s[|s| - |r|..] == r
      && (forall k :: 0 <= k < |s| - |r| ==> !IsDigit(s[k]))
      && (|r| < |s| ==> s[0] == 'r' || s[0] == 'v')
  {
    if StartsWith(s, Prefix) {
      assert s[..|Prefix|] == Prefix;
      var a := s[|Prefix|..];
      forall k | 0 <= k < |Prefix|
        ensures !IsDigit(s[k])
      {
        assert s[k] == Prefix[k];
      }
      if a != [] && a[0] == 'v' {
        assert s[|Prefix|] == 'v';
        assert s[|s| - |Rest(s)|..] == a[1..];
      }
    }
  }

  /** Text that starts with a digit has no prefix to drop. */
  lemma RestOfDigit(u: string)
    requires u != [] && IsDigit(u[0])
    ensures Rest(u) == u
  {
  }

  /** A match needs a digit first. */
  lemma MatchStartsWithDigit(u: string)
    requires Match(u).Some?
    ensures u != [] && IsDigit(u[0])
  {
    RunMaximal(u, 0);
  }

  /** Normalising a tag that matches keeps its version: the prefixes it drops are the ones the pattern skips. */
  lemma AnchoredTagToVersion(tag: string)
    requires Anchored(tag).Some?
    ensures Anchored(TagToVersion(tag)) == Anchored(tag)
  {
    var u := Rest(tag);
    MatchStartsWithDigit(u);
    if StartsWith(tag, PrefixV) {
      assert tag[..|Prefix|] == Prefix by {
        assert tag[..|PrefixV|][..|Prefix|] == Prefix;
      }
      assert tag[|Prefix|] == 'v' by {
        assert tag[..|PrefixV|][|Prefix|] == 'v';
      }
      assert u == tag[|PrefixV|..];
    } else if StartsWith(tag, Prefix) {
      assert u == tag[|Prefix|..];
    } else if tag != [] && tag[0] == 'v' {
      assert u == tag[1..];
      assert StripVs(tag) == StripVs(tag[1..]);
      assert StripVs(tag[1..]) == u;
    } else {
      assert u == tag && StripVs(tag) == tag;
    }
    RestOfDigit(u);
  }

  /** For a tag that matches, a build is needed exactly when its version is greater than PyPI's tuple. */
  lemma NeedsBuildMatching(githubTag: string, pypiVersion: string)
    requires Anchored(githubTag).Some?
    ensures NeedsBuild(githubTag, Some(pypiVersion)) <==> Greater(Anchored(githubTag).value, VersionToTuple(pypiVersion))
  {
    AnchoredTagToVersion(githubTag);
  }

  /** An empty PyPI version reads as `(0, 0, 0)`: every tag above it needs a build. */
  lemma NeedsBuildEmpty(githubTag: string)
    ensures NeedsBuild(githubTag, Some("")) <==> VersionToTuple(TagToVersion(githubTag)) != Version(0, 0, 0)
  {
    assert Rest("") == "";
    assert Match("").None?;
  }

  /** A tag whose version is already on PyPI needs no build. */
  lemma PublishedUpToDate(githubTag: string, pypiVersion: string)
    requires VersionToTuple(TagToVersion(githubTag)) == VersionToTuple(pypiVersion)
    ensures !NeedsBuild(githubTag, Some(pypiVersion))
  {
    GreaterIrreflexive(VersionToTuple(pypiVersion));
  }

  /**
   * Where the anchored pattern matches, the newer parser finds the same
   * version, as long as the text does not end in whitespace.
   */
  lemma AnchoredAgreesWithParse(s: string)
    requires Anchored(s).Some? && s != [] && !IsSpace(s[|s| - 1])
    ensures ParseSemver(s) == Anchored(s)
  {
    var u := Rest(s);
    var p := s[..|s| - |u|];
    RestSplit(s);
    MatchStartsWithDigit(u);
    assert s == p + u;
    assert u[|u| - 1] == s[|s| - 1];
    forall k | 0 <= k < |p|
      ensures !IsDigit(p[k])
    {
      assert p[k] == s[k];
    }
    ParseAfter(p, u);
  }

  /** The two parsers differ on `x1.2.3`: the anchored one falls back to `(0, 0, 0)`, the searching one finds `1.2.3`. */
  lemma ParsersDiffer(s: string)
    requires s == "x1.2.3"
    ensures VersionToTuple(s) == Version(0, 0, 0)
    ensures ParseSemver(s) == Some(Version(1, 2, 3))
  {
    var u := s[1..];
    assert s == "x" + u;
    assert Rest(s) == s by {
      assert !StartsWith(s, Prefix) by {
        assert s[0] != Prefix[0];
      }
    }
    assert Run(s, 0) == 0;
    SpellOneTwoThreeAt(u);
    MatchShow(Version(1, 2, 3), "");
    assert (Show(Version(1, 2, 3)) + "")[0..] == u;
    ParseAfter("x", u);
  }

  lemma SpellOneTwoThreeAt(u: string)
    requires u == "1.2.3"
    ensures u == Show(Version(1, 2, 3))
  {
    SpellOneTwoThree();
  }

  /** A tag's sort key `(major, minor, patch, name)`. */
  datatype Candidate = Candidate(version: Version, name: string)

  /** Tuple order on the keys: by version, then by name. */
  predicate Below(a: Candidate, b: Candidate) {
    Greater(b.version, a.version) || (a.version == b.version && LexLess(a.name, b.name))
  }

  /** The key order is a strict total order. */
  lemma BelowOrder(a: Candidate, b: Candidate, c: Candidate)
    ensures !Below(a, a)
    ensures Below(a, b) ==> !Below(b, a)
    ensures Below(a, b) && Below(b, c) ==> Below(a, c)
    ensures a == b || Below(a, b) || Below(b, a)
  {
    GreaterIrreflexive(a.version);
    LexLessIrreflexive(a.name);
    GreaterAsymmetric(a.version, b.version);
    if a.version == b.version && LexLess(a.name, b.name) {
      LexLessAsymmetric(a.name, b.name);
    }
    GreaterTransitive(c.version, b.version, a.version);
    if Below(a, b) && Below(b, c) && a.version == b.version && b.version == c.version {
      LexLessTransitive(a.name, b.name, c.name);
    }
    GreaterTotal(a.version, b.version);
    if a.version == b.version && a.name != b.name {
      LexLessConnected(a.name, b.name);
    }
  }

  /**
   * The selection is stated for any way `parse` of reading a version off a
   * tag name; the script reads it with the anchored pattern.
   */
  function Key(parse: string -> Option<Version>, name: string): Candidate
    requires parse(name).Some?
  {
    Candidate(parse(name).value, name)
  }

  /** The greatest key among the tags that have a version, if any does. */
  function Best(parse: string -> Option<Version>, tags: seq<string>): Option<Candidate> {
    if tags == [] then None
    else
      var rest := Best(parse, tags[1..]);
      if parse(tags[0]).None? then rest
      else if rest.Some? && Below(Key(parse, tags[0]), rest.value) then rest
      else Some(Key(parse, tags[0]))
  }

  /** `version_tags.sort(reverse=True)[0]`, falling back to the first tag; nothing for no tags. */
  function LatestTag(tags: seq<string>): (r: Option<string>)
    ensures r.None? <==> tags == []
    ensures tags != [] && (forall i :: 0 <= i < |tags| ==> Anchored(tags[i]).None?) ==> r == Some(tags[0])
    ensures (exists i :: 0 <= i < |tags| && Anchored(tags[i]).Some?) ==> Greatest(Anchored, tags, r.value)
  {
    BestSpec(Anchored, tags);
    if tags == [] then None
    else
      match Best(Anchored, tags)
      case None => Some(tags[0])
      case Some(c) => Some(c.name)
  }

  /** `name` is a tag with a version whose key no other such tag exceeds. */
  predicate Greatest(parse: string -> Option<Version>, tags: seq<string>, name: string) {
    && name in tags && parse(name).Some?
    && forall i :: 0 <= i < |tags| && parse(tags[i]).Some? ==> !Below(Key(parse, name), Key(parse, tags[i]))
  }

  /** What the best key promises: it is missing exactly when no tag has a version, else it is the key of a greatest tag. */
  predicate BestFits(parse: string -> Option<Version>, tags: seq<string>) {
    && (Best(parse, tags).None? <==> forall i :: 0 <= i < |tags| ==> parse(tags[i]).None?)
    && (Best(parse, tags).Some? ==>
          Greatest(parse, tags, Best(parse, tags).value.name) && Best(parse, tags).value == Key(parse, Best(parse, tags).value.name))
  }

  /** A first tag without a version leaves the best key of the others in place. */
  lemma BestSkip(parse: string -> Option<Version>, tags: seq<string>)
    requires tags != [] && parse(tags[0]).None? && BestFits(parse, tags[1..])
    ensures BestFits(parse, tags)
  {
    assert forall i :: 1 <= i < |tags| ==> tags[i] == tags[1..][i - 1];
    if Best(parse, tags).Some? {
      assert Best(parse, tags).value.name in tags[1..];
    }
  }

  /** A first tag with a version, when no other has one, is the best. */
  lemma BestAlone(parse: string -> Option<Version>, tags: seq<string>)
    requires tags != [] && parse(tags[0]).Some? && Best(parse, tags[1..]).None? && BestFits(parse, tags[1..])
    ensures BestFits(parse, tags)
  {
    assert forall i :: 1 <= i < |tags| ==> tags[i] == tags[1..][i - 1];
    var k := Key(parse, tags[0]);
    BelowOrder(k, k, k);
  }

  /** A first tag below the best of the others leaves that best in place. */
  lemma BestKeep(parse: string -> Option<Version>, tags: seq<string>)
    requires tags != [] && parse(tags[0]).Some? && Best(parse, tags[1..]).Some? && BestFits(parse, tags[1..])
    requires Below(Key(parse, tags[0]), Best(parse, tags[1..]).value)
    ensures BestFits(parse, tags)
  {
    var k, m := Key(parse, tags[0]), Best(parse, tags[1..]).value;
    assert Best(parse, tags) == Some(m);
    assert m.name in tags[1..];
    BelowOrder(k, m, k);
    forall i | 1 <= i < |tags| && parse(tags[i]).Some?
      ensures !Below(m, Key(parse, tags[i]))
    {
      assert tags[i] == tags[1..][i - 1];
    }
  }

  /** A first tag not below the best of the others takes its place. */
  lemma BestTake(parse: string -> Option<Version>, tags: seq<string>)
    requires tags != [] && parse(tags[0]).Some? && Best(parse, tags[1..]).Some? && BestFits(parse, tags[1..])
    requires !Below(Key(parse, tags[0]), Best(parse, tags[1..]).value)
    ensures BestFits(parse, tags)
  {
    var k, m := Key(parse, tags[0]), Best(parse, tags[1..]).value;
    assert Best(parse, tags) == Some(k);
    BelowOrder(k, k, k);
    forall i | 1 <= i < |tags| && parse(tags[i]).Some?
      ensures !Below(k, Key(parse, tags[i]))
    {
      assert tags[i] == tags[1..][i - 1];
      assert !Below(m, Key(parse, tags[i]));
      BelowOrder(k, m, Key(parse, tags[i]));
      BelowOrder(m, k, Key(parse, tags[i]));
    }
  }

  /** The best key is the key of a tag with a version that none exceeds; there is none exactly when no tag has a version. */
  lemma {:induction false} BestSpec(parse: string -> Option<Version>, tags: seq<string>)
    ensures BestFits(parse, tags)
  {
    if tags != [] {
      BestSpec(parse, tags[1..]);
      if parse(tags[0]).None? {
        BestSkip(parse, tags);
      } else if Best(parse, tags[1..]).None? {
        BestAlone(parse, tags);
      } else if Below(Key(parse, tags[0]), Best(parse, tags[1..]).value) {
        BestKeep(parse, tags);
      } else {
        BestTake(parse, tags);
      }
    }
  }

  /**
   * No tags give nothing; otherwise the latest is the greatest matching
   * tag, or the first tag when none matches.
   */
  /** The greatest matching tag is unique, so it is the one chosen. */
  lemma LatestTagUnique(tags: seq<string>, name: string)
    requires Greatest(Anchored, tags, name)
    ensures LatestTag(tags) == Some(name)
  {
    var j :| 0 <= j < |tags| && tags[j] == name;
    var r := LatestTag(tags).value;
    var i :| 0 <= i < |tags| && tags[i] == r;
    BelowOrder(Key(Anchored, r), Key(Anchored, name), Key(Anchored, r));
  }
}
