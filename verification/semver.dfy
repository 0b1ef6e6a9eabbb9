/**
 * Release versions as the builder reads them from tags: the leftmost
 * `digits.digits.digits` in a string (Python `re.search` of
 * `(\d+)\.(\d+)\.(\d+)` on the stripped text), its canonical rendering
 * `a.b.c`, and the strict comparison of two such versions.
 */
module Semver {

  import opened Wrappers
  import opened Strings
  import opened Decimal

  /** A `(major, minor, patch)` triple; Python compares these as tuples. */
  datatype Version = Version(major: nat, minor: nat, patch: nat)

  /** Python's `a > b` on `(major, minor, patch)` tuples: lexicographic and strict. */
  predicate Greater(a: Version, b: Version) {
    || a.major > b.major
    || (a.major == b.major && a.minor > b.minor)
    || (a.major == b.major && a.minor == b.minor && a.patch > b.patch)
  }

  lemma GreaterIrreflexive(a: Version)
    ensures !Greater(a, a)
  {
  }

  lemma GreaterAsymmetric(a: Version, b: Version)
    ensures Greater(a, b) ==> !Greater(b, a)
  {
  }

  lemma GreaterTransitive(a: Version, b: Version, c: Version)
    ensures Greater(a, b) && Greater(b, c) ==> Greater(a, c)
  {
  }

  /** Two different versions are always ordered one way or the other. */
  lemma GreaterTotal(a: Version, b: Version)
    ensures a == b || Greater(a, b) || Greater(b, a)
  {
  }

  /** The length of the run of ASCII digits that starts at `i` (`\d+` is greedy). */
  function Run(s: string, i: nat): (n: nat)
    requires i <= |s|
    ensures i + n <= |s|
    decreases |s| - i
  {
    if i < |s| && IsDigit(s[i]) then 1 + Run(s, i + 1) else 0
  }

  /** The run is all digits and is followed by a non-digit or the end: it is maximal. */
  lemma {:induction false} RunMaximal(s: string, i: nat)
    requires i <= |s|
    ensures forall k :: i <= k < i + Run(s, i) ==> IsDigit(s[k])
    ensures i + Run(s, i) == |s| || !IsDigit(s[i + Run(s, i)])
    decreases |s| - i
  {
    if i < |s| && IsDigit(s[i]) {
      RunMaximal(s, i + 1);
    }
  }

  /** `int(...)` of the `n` digits at `i`, read left to right. */
  function Value(s: string, i: nat, n: nat): nat
    requires i + n <= |s|
  {
    if n == 0 then 0
    else 10 * Value(s, i, n - 1) + (if IsDigit(s[i + n - 1]) then DigitValue(s[i + n - 1]) else 0)
  }

  /** Reading digits in place agrees with `int(...)` of the digit string they spell. */
  lemma {:induction false} ValueParse(s: string, i: nat, d: string)
    requires AllDigits(d) && Spells(s, i, d)
    ensures Value(s, i, |d|) == ParseDecimal(d)
  {
    if d != [] {
      var p := d[..|d| - 1];
      assert forall k :: 0 <= k < |p| ==> p[k] == d[k];
      assert s[i + (|d| - 1)] == d[|d| - 1];
      ValueParse(s, i, p);
    }
  }

  /** The characters of `d` sit in `s` from `i` on. */
  predicate Spells(s: string, i: nat, d: string) {
    i + |d| <= |s| && forall k :: 0 <= k < |d| ==> s[i + k] == d[k]
  }

  /**
   * The groups of `(\d+)\.(\d+)\.(\d+)` matched at the start of `t`, if
   * it matches there. A digit run cannot give back characters to a `.`, so
   * every group is the whole digit run where it starts.
   */
  function Match(t: string): Option<Version> {
    var n1 := Run(t, 0);
    if n1 == 0 || n1 == |t| || t[n1] != '.' then None
    else
      var u := t[n1 + 1..];
      var n2 := Run(u, 0);
      if n2 == 0 || n2 == |u| || u[n2] != '.' then None
      else
        var w := u[n2 + 1..];
        var n3 := Run(w, 0);
        if n3 == 0 then None
        else Some(Version(Value(t, 0, n1), Value(u, 0, n2), Value(w, 0, n3)))
  }

  /** The pattern tried at position `i` of `s`. */
  function MatchAt(s: string, i: nat): Option<Version>
    requires i <= |s|
  {
    Match(s[i..])
  }

  /** `n` ASCII digits start at `i`. */
  predicate Digits(s: string, i: nat, n: nat) {
    0 < n && i + n <= |s| && forall k :: i <= k < i + n ==> IsDigit(s[k])
  }

  /** The pattern's language: some digits, a dot, some digits, a dot, some digits, at the start of `t`. */
  predicate Pattern(t: string, n1: nat, n2: nat, n3: nat) {
    && Digits(t, 0, n1) && n1 < |t| && t[n1] == '.'
    && var u := t[n1 + 1..];
    && Digits(u, 0, n2) && n2 < |u| && u[n2] == '.'
    && Digits(u[n2 + 1..], 0, n3)
  }

  /** A digit run is at least as long as any digits it starts with. */
  lemma {:induction false} RunCovers(s: string, i: nat, n: nat)
    requires Digits(s, i, n)
    ensures Run(s, i) >= n
    decreases n
  {
    if n > 1 {
      RunCovers(s, i + 1, n - 1);
    }
  }

  /** Digits followed by a non-digit (or the end) are exactly the run. */
  lemma RunExact(s: string, i: nat, n: nat)
    requires Digits(s, i, n) && (i + n == |s| || !IsDigit(s[i + n]))
    ensures Run(s, i) == n
  {
    RunCovers(s, i, n);
    RunMaximal(s, i);
  }

  /** The pattern matches at the start of `t` exactly when some split of `t` fits its language. */
  lemma MatchPattern(t: string)
    ensures Match(t).Some? <==> exists n1, n2, n3 :: Pattern(t, n1, n2, n3)
  {
    if Match(t).Some? {
      MatchFits(t);
    }
    if exists n1, n2, n3 :: Pattern(t, n1, n2, n3) {
      var n1, n2, n3 :| Pattern(t, n1, n2, n3);
      FitsMatch(t, n1, n2, n3);
    }
  }

  /** A match splits `t` into the three digit runs. */
  lemma MatchFits(t: string)
    requires Match(t).Some?
    ensures var n1 := Run(t, 0); var u := t[n1 + 1..]; var n2 := Run(u, 0);
      Pattern(t, n1, n2, Run(u[n2 + 1..], 0))
  {
    var n1 := Run(t, 0);
    var u := t[n1 + 1..];
    var n2 := Run(u, 0);
    RunMaximal(t, 0);
    RunMaximal(u, 0);
    RunMaximal(u[n2 + 1..], 0);
  }

  /** Any split of `t` into three digit runs is a match. */
  lemma FitsMatch(t: string, n1: nat, n2: nat, n3: nat)
    requires Pattern(t, n1, n2, n3)
    ensures Match(t).Some?
  {
    var u := t[n1 + 1..];
    RunExact(t, 0, n1);
    RunExact(u, 0, n2);
    RunCovers(u[n2 + 1..], 0, n3);
  }

  /** The leftmost position at or after `from` where the pattern matches. */
  function Leftmost(s: string, from: nat): (r: Option<nat>)
    requires from <= |s|
    ensures r.Some? ==> from <= r.value <= |s| && MatchAt(s, r.value).Some?
    ensures r.Some? ==> forall j :: from <= j < r.value ==> MatchAt(s, j).None?
    ensures r.None? ==> forall j :: from <= j <= |s| ==> MatchAt(s, j).None?
    decreases |s| - from
  {
    if MatchAt(s, from).Some? then Some(from)
    else if from == |s| then None
    else Leftmost(s, from + 1)
  }

  /** `parse_semver`: the leftmost match in the stripped string, or nothing. */
  function ParseSemver(s: string): (r: Option<Version>)
    ensures r.None? <==> forall j :: 0 <= j <= |Trim(s)| ==> MatchAt(Trim(s), j).None?
    ensures r.Some? ==>
      exists i :: 0 <= i <= |Trim(s)| && r == MatchAt(Trim(s), i) && forall j :: 0 <= j < i ==> MatchAt(Trim(s), j).None?
  {
    var t := Trim(s);
    match Leftmost(t, 0)
    case None => None
    case Some(i) => MatchAt(t, i)
  }
  /** `f"{a}.{b}.{c}"`. */
  function Show(v: Version): string {
    ToDecimal(v.major) + "." + ToDecimal(v.minor) + "." + ToDecimal(v.patch)
  }

  datatype Error = NoSemver(tag: string)

  /** `tag_to_version`: the canonical rendering of the tag's version; a `ValueError` when it has none. */
  function TagToVersion(tag: string): (r: Result<string, Error>)
    ensures r.Failure? <==> ParseSemver(tag).None?
    ensures r.Failure? ==> r.error == NoSemver(Trim(tag))
    ensures r.Success? ==> ParseSemver(r.value) == ParseSemver(tag)
    ensures r.Success? ==> r.value == Show(ParseSemver(tag).value)
  {
    match ParseSemver(tag)
    case None => Failure(NoSemver(Trim(tag)))
    case Some(v) =>
      ParseShow(v, "");
      assert Show(v) + "" == Show(v);
      Success(Show(v))
  }

  /** Digits at `i` followed by a non-digit are the run there. */
  lemma RunAt(s: string, i: nat, d: string)
    requires d != [] && AllDigits(d) && Spells(s, i, d)
    requires i + |d| == |s| || !IsDigit(s[i + |d|])
    ensures Run(s, i) == |d|
  {
    forall k | i <= k < i + |d|
      ensures IsDigit(s[k])
    {
      assert s[i + (k - i)] == d[k - i];
    }
    RunExact(s, i, |d|);
  }

  /** Digits followed by a non-digit (or nothing) are the leading run, and it reads as their value. */
  lemma Leading(d: string, q: string)
    requires d != [] && AllDigits(d) && (q == [] || !IsDigit(q[0]))
    ensures Run(d + q, 0) == |d| && Value(d + q, 0, |d|) == ParseDecimal(d)
  {
    var t := d + q;
    assert Spells(t, 0, d);
    RunAt(t, 0, d);
    ValueParse(t, 0, d);
  }

  lemma AfterDot(d: string, r: string)
    ensures var t := d + ("." + r); |d| < |t| && t[|d|] == '.' && t[|d| + 1..] == r
  {
    var t := d + ("." + r);
    assert t[|d| + 1..] == r;
  }

  /** Digit runs of the right shape, separated by dots, are a match. */
  lemma MatchOfRuns(t: string, n1: nat, u: string, n2: nat, w: string)
    requires 0 < n1 < |t| && Run(t, 0) == n1 && t[n1] == '.' && u == t[n1 + 1..]
    requires 0 < n2 < |u| && Run(u, 0) == n2 && u[n2] == '.' && w == u[n2 + 1..]
    requires Run(w, 0) > 0
    ensures Match(t) == Some(Version(Value(t, 0, n1), Value(u, 0, n2), Value(w, 0, Run(w, 0))))
  {
  }

  /** Three digit strings joined by dots, followed by anything not starting with a digit, match with their values. */
  lemma MatchParts(a: string, b: string, c: string, x: string)
    requires a != [] && b != [] && c != [] && AllDigits(a) && AllDigits(b) && AllDigits(c)
    requires x == [] || !IsDigit(x[0])
    ensures Match(a + ("." + (b + ("." + (c + x))))) == Some(Version(ParseDecimal(a), ParseDecimal(b), ParseDecimal(c)))
  {
    var r2 := c + x;
    var r1 := b + ("." + r2);
    Leading(a, "." + r1);
    AfterDot(a, r1);
    Leading(b, "." + r2);
    AfterDot(b, r2);
    Leading(c, x);
    MatchOfRuns(a + ("." + r1), |a|, r1, |b|, r2);
  }

  /** The rendering of a version, followed by anything not starting with a digit, matches at its start with that version. */
  lemma MatchShow(v: Version, x: string)
    requires x == [] || !IsDigit(x[0])
    ensures MatchAt(Show(v) + x, 0) == Some(v)
  {
    var a, b, c := ToDecimal(v.major), ToDecimal(v.minor), ToDecimal(v.patch);
    var s := Show(v) + x;
    assert s[0..] == s == a + ("." + (b + ("." + (c + x))));
    ParseToDecimal(v.major);
    ParseToDecimal(v.minor);
    ParseToDecimal(v.patch);
    MatchParts(a, b, c, x);
  }

  /** A version rendering followed by text that neither starts with a digit nor ends in whitespace parses back to that version. */
  lemma ParseShow(v: Version, x: string)
    requires x == [] || (!IsDigit(x[0]) && !IsSpace(x[|x| - 1]))
    ensures ParseSemver(Show(v) + x) == Some(v)
  {
    var s := Show(v) + x;
    var a := ToDecimal(v.major);
    var c := ToDecimal(v.patch);
    assert s[0] == a[0];
    assert x == [] ==> s[|s| - 1] == c[|c| - 1];
    assert x != [] ==> s[|s| - 1] == x[|x| - 1];
    TrimNoop(s);
    MatchShow(v, x);
  }
  /** The rendering has no leading zeros, so different versions never render alike. */
  lemma ShowInjective(v: Version, w: Version)
    ensures Show(v) == Show(w) ==> v == w
  {
    if Show(v) == Show(w) {
      ParseShow(v, "");
      ParseShow(w, "");
      assert Show(v) + "" == Show(v) && Show(w) + "" == Show(w);
    }
  }

  /** The search finds the first position that matches when none before it does. */
  lemma {:induction false} LeftmostAt(s: string, from: nat, k: nat)
    requires from <= k <= |s| && MatchAt(s, k).Some?
    requires forall j :: from <= j < k ==> MatchAt(s, j).None?
    ensures Leftmost(s, from) == Some(k)
    decreases k - from
  {
    if from < k {
      LeftmostAt(s, from + 1, k);
    }
  }

  /** Text that starts with a non-digit does not match at its start. */
  lemma NoMatchAtNonDigit(s: string, j: nat)
    requires j < |s| && !IsDigit(s[j])
    ensures MatchAt(s, j).None?
  {
    assert s[j..][0] == s[j];
  }

  /**
   * A match after a prefix without digits is the one the search finds,
   * when neither end of the text is whitespace.
   */
  lemma ParseAfter(p: string, u: string)
    requires forall k :: 0 <= k < |p| ==> !IsDigit(p[k])
    requires Match(u).Some?
    requires p != [] ==> !IsSpace(p[0])
    requires !IsSpace(u[|u| - 1])
    ensures ParseSemver(p + u) == Match(u)
  {
    var s := p + u;
    RunMaximal(u, 0);
    TrimJoined(p, u);
    NoMatchInPrefix(p, u);
    assert s[|p|..] == u;
    LeftmostAt(s, 0, |p|);
  }

  /** Text with no whitespace at either end is its own strip. */
  lemma TrimJoined(p: string, u: string)
    requires u != [] && IsDigit(u[0])
    requires p != [] ==> !IsSpace(p[0])
    requires !IsSpace(u[|u| - 1])
    ensures Trim(p + u) == p + u
  {
    var s := p + u;
    assert s[0] == (if p == [] then u[0] else p[0]);
    assert s[|s| - 1] == u[|u| - 1];
    TrimNoop(s);
  }

  /** The pattern cannot match where no digit stands. */
  lemma NoMatchInPrefix(p: string, u: string)
    requires forall k :: 0 <= k < |p| ==> !IsDigit(p[k])
    ensures forall j :: 0 <= j < |p| ==> MatchAt(p + u, j).None?
  {
    var s := p + u;
    forall j | 0 <= j < |p|
      ensures MatchAt(s, j).None?
    {
      assert s[j] == p[j];
      NoMatchAtNonDigit(s, j);
    }
  }

  /** `parse_semver("regorus-v0.5.0") == (0, 5, 0)`, the release tags' own spelling. */
  lemma ParsePrefixedTag(tag: string)
    requires tag == "regorus-v0.5.0"
    ensures ParseSemver(tag) == Some(Version(0, 5, 0))
  {
    var v := Version(0, 5, 0);
    var p := "regorus-v";
    SpellPrefixedTag(v, tag);
    assert forall k :: 0 <= k < |p| ==> !IsDigit(p[k]);
    ParseAfterShow(p, v);
  }

  /** A rendered version after a prefix without digits is what the prefixed text parses to. */
  lemma ParseAfterShow(p: string, v: Version)
    requires forall k :: 0 <= k < |p| ==> !IsDigit(p[k])
    requires p != [] ==> !IsSpace(p[0])
    ensures ParseSemver(p + Show(v)) == Some(v)
  {
    var u := Show(v);
    var c := ToDecimal(v.patch);
    MatchShow(v, "");
    assert (u + "")[0..] == u;
    assert u[|u| - 1] == c[|c| - 1];
    ParseAfter(p, u);
  }

  lemma SpellPrefixedTag(v: Version, tag: string)
    requires v == Version(0, 5, 0) && tag == "regorus-v0.5.0"
    ensures tag == "regorus-v" + Show(v)
  {
    ShowSmall(0, 5, 0);
  }

  /** `parse_semver("0.5.0.post1") == (0, 5, 0)`: a post-release suffix is ignored. */
  lemma ParsePostRelease(version: string)
    requires version == "0.5.0.post1"
    ensures ParseSemver(version) == Some(Version(0, 5, 0))
  {
    var v := Version(0, 5, 0);
    SpellPostRelease(v, version);
    ParseShow(v, ".post1");
  }

  lemma SpellPostRelease(v: Version, version: string)
    requires v == Version(0, 5, 0) && version == "0.5.0.post1"
    ensures version == Show(v) + ".post1"
  {
    ShowSmall(0, 5, 0);
  }

  /** `tag_to_version("v01.02.03") == "1.2.3"`: leading zeros are dropped. */
  lemma TagToVersionZeros(tag: string)
    requires tag == "v01.02.03"
    ensures TagToVersion(tag) == Success("1.2.3")
  {
    ParseZeros(tag);
    SpellOneTwoThree();
  }

  lemma ParseZeros(tag: string)
    requires tag == "v01.02.03"
    ensures ParseSemver(tag) == Some(Version(1, 2, 3))
  {
    var u := tag[1..];
    ZerosTail(tag, u);
    MatchZeros(u);
    ParseAfter("v", u);
  }

  lemma ZerosTail(tag: string, u: string)
    requires tag == "v01.02.03" && u == tag[1..]
    ensures tag == "v" + u && u == "01.02.03" && !IsSpace(u[|u| - 1])
  {
  }

  lemma MatchZeros(u: string)
    requires u == "01.02.03"
    ensures Match(u) == Some(Version(1, 2, 3))
  {
    var a, b, c, x := "01", "02", "03", "";
    LeadingZero(a, '1');
    LeadingZero(b, '2');
    LeadingZero(c, '3');
    MatchParts(a, b, c, x);
    assert a + ("." + (b + ("." + (c + x)))) == u;
  }

  /** A zero before a digit does not change its value. */
  lemma LeadingZero(s: string, c: char)
    requires s == ['0', c] && IsDigit(c)
    ensures AllDigits(s) && ParseDecimal(s) == DigitValue(c)
  {
    assert s[..1] == ['0'] && ['0'][..0] == [];
  }

  lemma SpellOneTwoThree()
    ensures Show(Version(1, 2, 3)) == "1.2.3"
  {
    ShowSmall(1, 2, 3);
  }

  /** The rendering of a version whose parts are single digits. */
  lemma ShowSmall(a: nat, b: nat, c: nat)
    requires a < 10 && b < 10 && c < 10
    ensures Show(Version(a, b, c)) == [DigitChar(a), '.', DigitChar(b), '.', DigitChar(c)]
  {
  }

  /** `is_newer`: false without a version in the tag, true when only PyPI's is unreadable, else strictly greater. */
  function IsNewer(githubTag: string, pypiVersion: string): (r: bool)
    ensures ParseSemver(githubTag).None? ==> !r
    ensures ParseSemver(githubTag).Some? && ParseSemver(pypiVersion).None? ==> r
    ensures ParseSemver(githubTag).Some? && ParseSemver(pypiVersion).Some? ==>
      (r <==> Greater(ParseSemver(githubTag).value, ParseSemver(pypiVersion).value))
  {
    match ParseSemver(githubTag)
    case None => false
    case Some(g) =>
      match ParseSemver(pypiVersion)
      case None => true
      case Some(p) => Greater(g, p)
  }

  /** `is_newer` is a strict order: irreflexive, asymmetric and transitive on all strings. */
  lemma IsNewerStrictOrder(a: string, b: string, c: string)
    ensures !IsNewer(a, a)
    ensures IsNewer(a, b) ==> !IsNewer(b, a)
    ensures IsNewer(a, b) && IsNewer(b, c) ==> IsNewer(a, c)
  {
    if ParseSemver(a).Some? {
      GreaterIrreflexive(ParseSemver(a).value);
    }
    if ParseSemver(a).Some? && ParseSemver(b).Some? {
      GreaterAsymmetric(ParseSemver(a).value, ParseSemver(b).value);
      if ParseSemver(c).Some? {
        GreaterTransitive(ParseSemver(a).value, ParseSemver(b).value, ParseSemver(c).value);
      }
    }
  }

  /** Only the versions matter: strings with the same version compare alike. */
  lemma IsNewerByVersion(a: string, a': string, b: string, b': string)
    requires ParseSemver(a) == ParseSemver(a') && ParseSemver(b) == ParseSemver(b')
    ensures IsNewer(a, b) == IsNewer(a', b')
  {
  }
}
