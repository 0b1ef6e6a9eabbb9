/**
 * The version a build publishes: the upstream version, or under `--force`
 * a post-release of it so that PyPI accepts the upload again. The wall
 * clock and the helper that reduces a published version to its base are
 * parameters.
 */
module Build {

  import opened Wrappers
  import opened Strings
  import opened Decimal
  import opened Semver

  const PostMarker: string := ".post"

  /** `f"{upstream}.post{ts}"`. */
  function Post(upstream: string, ts: string): string {
    upstream + PostMarker + ts
  }

  /** A falsy optional string: none, or empty. */
  predicate Absent(s: Option<string>) {
    s.None? || s.value == ""
  }

  /** The existing PyPI version may be published again: it is a post-release of `upstream`. */
  predicate Reusable(existing: Option<string>, base: string -> string, upstream: string) {
    !Absent(existing) && Contains(existing.value, PostMarker) && base(existing.value) == upstream
  }

  /**
   * `effective_version`; `clockTs` is what `post_ts()` would return, and
   * `base` the helper that gives a version without its post-release part.
   */
  function EffectiveVersion(upstream: string, force: bool, fixedPostTs: Option<string>,
                            existing: Option<string>, base: string -> string, clockTs: string): (r: string)
    ensures !force ==> r == upstream
    ensures force && !Absent(fixedPostTs) ==> r == Post(upstream, fixedPostTs.value)
    ensures force ==> (|| StartsWith(r, upstream + PostMarker)
                       || (Reusable(existing, base, upstream) && r == existing.value))
  {
    if !force then upstream
    else if !Absent(fixedPostTs) then Post(upstream, fixedPostTs.value)
    else if Reusable(existing, base, upstream) then existing.value
    else Post(upstream, clockTs)
  }

  /** A forced build with a fixed timestamp gets the same version on every platform, whatever PyPI or the clock say. */
  lemma FixedTimestampAgrees(upstream: string, ts: string,
                             existing: Option<string>, base: string -> string, clockTs: string,
                             existing': Option<string>, base': string -> string, clockTs': string)
    requires ts != ""
    ensures EffectiveVersion(upstream, true, Some(ts), existing, base, clockTs)
         == EffectiveVersion(upstream, true, Some(ts), existing', base', clockTs')
  {
  }

  /** A forced build without a fixed timestamp reuses the published post-release exactly when it fits, else stamps the clock. */
  lemma ForcedWithoutTimestamp(upstream: string, fixedPostTs: Option<string>,
                               existing: Option<string>, base: string -> string, clockTs: string)
    requires Absent(fixedPostTs)
    ensures var r := EffectiveVersion(upstream, true, fixedPostTs, existing, base, clockTs);
      && (Reusable(existing, base, upstream) ==> r == existing.value)
      && (!Reusable(existing, base, upstream) ==> r == Post(upstream, clockTs))
  {
  }

  /** A post-release of a rendered version still reads as that version. */
  lemma PostParses(v: Version, ts: string)
    requires ts == [] || !IsSpace(ts[|ts| - 1])
    ensures ParseSemver(Post(Show(v), ts)) == Some(v)
  {
    var x := PostMarker + ts;
    assert x[0] == '.';
    assert x[|x| - 1] == (if ts == [] then 't' else ts[|ts| - 1]);
    assert Post(Show(v), ts) == Show(v) + x;
    ParseShow(v, x);
  }

  lemma DigitNotSpace(c: char)
    requires IsDigit(c)
    ensures !IsSpace(c)
  {
  }

  /** The version written into `pyproject.toml`: the tag's version, made a post-release when forced. */
  function PyprojectVersion(tag: string, force: bool, fixedPostTs: Option<string>,
                            existing: Option<string>, base: string -> string, clockTs: string): (r: Result<string, Error>)
    ensures r.Failure? <==> ParseSemver(tag).None?
    ensures !force ==> r == TagToVersion(tag)
    ensures force && r.Success? ==>
      r.value == EffectiveVersion(TagToVersion(tag).value, true, fixedPostTs, existing, base, clockTs)
  {
    match TagToVersion(tag)
    case Failure(e) => Failure(e)
    case Success(version) =>
      if force then Success(EffectiveVersion(version, force, fixedPostTs, existing, base, clockTs))
      else Success(version)
  }

  /**
   * The version written reads back as the tag's version, unless a forced
   * build reuses a published post-release whose base is the tag's version.
   * Timestamps are digit strings, so they never end in whitespace.
   */
  lemma PyprojectVersionParses(tag: string, force: bool, fixedPostTs: Option<string>,
                               existing: Option<string>, base: string -> string, clockTs: string)
    requires ParseSemver(tag).Some?
    requires fixedPostTs.Some? ==> AllDigits(fixedPostTs.value)
    requires AllDigits(clockTs)
    ensures var r := PyprojectVersion(tag, force, fixedPostTs, existing, base, clockTs).value;
      || ParseSemver(r) == ParseSemver(tag)
      || (force && Reusable(existing, base, Show(ParseSemver(tag).value)) && r == existing.value)
  {
    var v := ParseSemver(tag).value;
    var r := PyprojectVersion(tag, force, fixedPostTs, existing, base, clockTs).value;
    if !force {
    } else if !Absent(fixedPostTs) {
      var ts := fixedPostTs.value;
      DigitNotSpace(ts[|ts| - 1]);
      PostParses(v, ts);
    } else if !Reusable(existing, base, Show(v)) {
      if clockTs != [] {
        DigitNotSpace(clockTs[|clockTs| - 1]);
      }
      PostParses(v, clockTs);
    }
  }
}
