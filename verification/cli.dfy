/**
 * The release decision of the command line: build when PyPI has no usable
 * version or the upstream tag is strictly newer, or whenever forced.
 */
module Cli {

  import opened Wrappers
  import opened Semver

  /** A falsy PyPI version: none at all, or the empty string. */
  predicate Missing(pypiVersion: Option<string>) {
    pypiVersion.None? || pypiVersion.value == ""
  }

  /** `needs_build`. */
  function NeedsBuild(githubTag: string, pypiVersion: Option<string>): (r: bool)
    ensures r <==> (|| Missing(pypiVersion)
                    || (&& ParseSemver(githubTag).Some?
                        && (|| ParseSemver(pypiVersion.value).None?
                            || Greater(ParseSemver(githubTag).value, ParseSemver(pypiVersion.value).value))))
  {
    if Missing(pypiVersion) then true
    else IsNewer(githubTag, pypiVersion.value)
  }

  /** `should_build = force or needs_build(...)`. */
  function ShouldBuild(force: bool, githubTag: string, pypiVersion: Option<string>): (r: bool)
    ensures force ==> r
    ensures !force ==> (r <==> NeedsBuild(githubTag, pypiVersion))
  {
    force || NeedsBuild(githubTag, pypiVersion)
  }

  /** A tag without a version never asks for a build when PyPI has one. */
  lemma NoSemverNoBuild(githubTag: string, pypiVersion: string)
    requires ParseSemver(githubTag).None? && pypiVersion != ""
    ensures !NeedsBuild(githubTag, Some(pypiVersion))
  {
  }

  /** When the tag and PyPI carry the same version, there is nothing to build. */
  lemma SameVersionNoBuild(githubTag: string, pypiVersion: string)
    requires ParseSemver(githubTag) == ParseSemver(pypiVersion) && pypiVersion != ""
    ensures !NeedsBuild(githubTag, Some(pypiVersion))
  {
    if ParseSemver(githubTag).Some? {
      GreaterIrreflexive(ParseSemver(githubTag).value);
    }
  }

  /** Once the version made from a tag is on PyPI, that tag needs no further build. */
  lemma PublishedUpToDate(githubTag: string)
    requires TagToVersion(githubTag).Success?
    ensures !NeedsBuild(githubTag, Some(TagToVersion(githubTag).value))
  {
    assert ParseSemver("").None?;
    SameVersionNoBuild(githubTag, TagToVersion(githubTag).value);
  }

  /** A build is needed for a newer tag, and then also for any tag newer still. */
  lemma NeedsBuildNewer(older: string, newer: string, pypiVersion: string)
    requires pypiVersion != "" && ParseSemver(pypiVersion).Some?
    requires NeedsBuild(older, Some(pypiVersion)) && IsNewer(newer, older)
    ensures NeedsBuild(newer, Some(pypiVersion))
  {
    GreaterTransitive(ParseSemver(newer).value, ParseSemver(older).value, ParseSemver(pypiVersion).value);
  }
}
