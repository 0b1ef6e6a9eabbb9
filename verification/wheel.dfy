/**
 * `inject_typing`: add the typing files to a built wheel and rebuild its
 * RECORD manifest (the wheel format of PEP 427, the RECORD file of
 * PEP 376). The zip archive is a map from POSIX path to file contents;
 * directories are the ones these paths imply.
 */
module Wheel {

  import opened Wrappers
  import opened Strings
  import opened Decimal
  import opened Base64

  type Bytes = seq<Byte>

  /** The files of a wheel, or of the directory it was unpacked into, by relative POSIX path. */
  type Archive = map<string, Bytes>

  /**
   * What the model leaves abstract: SHA-256, UTF-8 encoding of text, and
   * the bytes `csv.writer` produces for the manifest rows, which it is
   * given keyed by path (the walk order of `rglob` is the file system's).
   */
  datatype Env = Env(sha256: Bytes -> Bytes, utf8: string -> Bytes, csv: map<string, seq<string>> -> Bytes)

  datatype Error =
    | NoPackage                          // no `regorus` entry in the wheel
    | WriteFailed(path: string)          // a file on the way, or a directory in place, of `path`
    | DistInfoCount(found: set<string>)  // not exactly one top-level `*.dist-info`

  const Pkg: string := "regorus"
  const StubName: string := "regorus.pyi"
  const MarkerName: string := "py.typed"
  const InitName: string := "__init__.py"
  const StubPath: string := Pkg + "/" + StubName
  const MarkerPath: string := Pkg + "/" + MarkerName
  const InitPath: string := Pkg + "/" + InitName

  /** `PKG_INIT`, the package's new `__init__.py`. */
  const PkgInit: string :=
    "\nfrom __future__ import annotations\n\nfrom . import regorus as _native  # the compiled extension\n\n"
    + "# Re-export the API you want at top-level\nEngine = _native.Engine\n\n__all__ = [\"Engine\"]\n"

  /** `path` lies somewhere below the directory `d`. */
  predicate Under(path: string, d: string) {
    StartsWith(path, d + "/")
  }

  /** `d` is a directory of the unpacked wheel: some file lies below it. */
  predicate IsDir(fs: Archive, d: string) {
    exists p :: p in fs && Under(p, d)
  }

  /** `path.exists()`. */
  predicate Present(fs: Archive, path: string) {
    path in fs || IsDir(fs, path)
  }

  /** Writing `path` succeeds: no file stands where one of its directories should be, and it is no directory. */
  predicate Writable(fs: Archive, path: string) {
    && (forall q :: q in fs ==> !Under(path, q))
    && !IsDir(fs, path)
  }

  /** The first component of a path. */
  function Top(path: string): (t: string)
    ensures '/' !in t
  {
    match IndexOf(path, '/', 0)
    case None => path
    case Some(i) => path[..i]
  }

  /** The top-level names of the unpacked wheel: its files and directories. */
  function TopNames(fs: Archive): set<string> {
    set p | p in fs :: Top(p)
  }

  /** `unpack.glob("*.dist-info")`. */
  function DistInfos(fs: Archive): (ds: set<string>)
    ensures forall d :: d in ds ==> d in TopNames(fs) && EndsWith(d, ".dist-info")
    ensures forall d :: d in TopNames(fs) && EndsWith(d, ".dist-info") ==> d in ds
  {
    set d | d in TopNames(fs) && EndsWith(d, ".dist-info")
  }

  /** `_record_row`: the path, `sha256=` and the unpadded url-safe digest, and the size in decimal. */
  function RecordRow(env: Env, path: string, data: Bytes): (row: seq<string>)
    ensures |row| == 3 && row[0] == path
    ensures StartsWith(row[1], "sha256=") && Decode(row[1][7..]) == Some(env.sha256(data))
    ensures Canonical(row[2]) && ParseDecimal(row[2]) == |data|
  {
    var field := "sha256=" + UrlB64(env.sha256(data));
    assert field[..7] == "sha256=" && field[7..] == UrlB64(env.sha256(data));
    UrlB64RoundTrip(env.sha256(data));
    ParseToDecimal(|data|);
    [path, field, ToDecimal(|data|)]
  }

  /** The manifest rows: the RECORD file's own row is left blank. */
  function Rows(env: Env, fs: Archive, record: string): (rows: map<string, seq<string>>)
    ensures rows.Keys == fs.Keys
  {
    map p | p in fs :: if p == record then [p, "", ""] else RecordRow(env, p, fs[p])
  }

  lemma SingletonUnique(s: set<string>)
    requires |s| == 1
    ensures forall a, b :: a in s && b in s ==> a == b
  {
    var x :| x in s;
    assert |s - {x}| == 0;
    assert s == {x};
  }

  /** The one `*.dist-info` directory. */
  function TheDistInfo(ds: set<string>): (d: string)
    requires |ds| == 1
    ensures d in ds
  {
    SingletonUnique(ds);
    var d :| d in ds;
    d
  }

  /** Where RECORD lives: in the one `*.dist-info` directory. */
  function RecordAt(ds: set<string>): string
    requires |ds| == 1
  {
    TheDistInfo(ds) + "/RECORD"
  }

  /** The three typing files written into the unpacked wheel, in the order the source writes them. */
  function Typed(env: Env, fs: Archive, pyi: Bytes): Archive {
    fs[StubPath := pyi][MarkerPath := []][InitPath := env.utf8(PkgInit)]
  }

  /** The files with RECORD rewritten from their rows. */
  function Rebuilt(env: Env, ws: Archive, record: string): Archive {
    ws[record := env.csv(Rows(env, ws, record))]
  }

  /** The unpacked wheel after the typing files and the rebuilt RECORD, or why the source raises. */
  function Inject(env: Env, fs: Archive, pyi: Bytes): (r: Result<Archive, Error>)
    ensures !Present(fs, Pkg) ==> r == Failure(NoPackage)
    ensures r.Success? ==> |DistInfos(Typed(env, fs, pyi))| == 1
    ensures r.Success? ==> var record := RecordAt(DistInfos(Typed(env, fs, pyi)));
      && r.value.Keys == fs.Keys + {StubPath, MarkerPath, InitPath, record}
      && (forall p :: p in fs && p != StubPath && p != MarkerPath && p != InitPath && p != record ==> r.value[p] == fs[p])
  {
    if !Present(fs, Pkg) then Failure(NoPackage)
    else if !Writable(fs, StubPath) then Failure(WriteFailed(StubPath))
    else if !Writable(fs[StubPath := pyi], MarkerPath) then Failure(WriteFailed(MarkerPath))
    else if !Writable(fs[StubPath := pyi][MarkerPath := []], InitPath) then Failure(WriteFailed(InitPath))
    else
      var ws := Typed(env, fs, pyi);
      var ds := DistInfos(ws);
      if |ds| != 1 then Failure(DistInfoCount(ds))
      else
        var record := RecordAt(ds);
        if !Writable(ws, record) then Failure(WriteFailed(record))
        else
          RebuiltKeys(env, fs, pyi, record);
          RebuiltFrame(env, fs, pyi, record);
          Success(Rebuilt(env, ws, record))
  }

  /** `tmp.replace(wheel_path)`: the rebuilt wheel replaces the old one only once everything succeeded. */
  function Commit(before: Archive, r: Result<Archive, Error>): Archive {
    match r
    case Success(a) => a
    case Failure(_) => before
  }

  /** A first path component followed by `/` is the top-level name. */
  lemma TopOf(a: string, x: string)
    requires '/' !in a
    ensures Top(a + "/" + x) == a
  {
    var s := a + "/" + x;
    assert s[|a|] == '/';
    assert s[0..|a|] == a;
    IndexOfFirst(s, '/', 0, |a|);
  }

  /** A path below a top-level directory has that directory as its top-level name. */
  lemma TopUnder(s: string, d: string)
    requires '/' !in d && Under(s, d)
    ensures Top(s) == d
  {
    assert s[..|d| + 1] == d + "/";
    assert s[|d|] == (d + "/")[|d|] == '/';
    assert s[0..|d|] == (d + "/")[..|d|] == d;
    IndexOfFirst(s, '/', 0, |d|);
  }

  /** A name without `/` is its own top-level name. */
  lemma TopPlain(a: string)
    requires '/' !in a
    ensures Top(a) == a
  {
    assert a[0..] == a;
  }

  /** The fixed names: no `/` in any of them, distinct, and `regorus` is no `*.dist-info`. */
  lemma Names()
    ensures '/' !in Pkg && '/' !in StubName && '/' !in MarkerName && '/' !in InitName
    ensures StubName != MarkerName && StubName != InitName && MarkerName != InitName
    ensures !EndsWith(Pkg, ".dist-info")
  {
  }

  /** One file of the package lies below another only if the first name holds a `/`. */
  lemma SiblingUnder(a: string, b: string)
    ensures Under(Pkg + "/" + a, Pkg + "/" + b) ==> '/' in a
  {
    var s, t := Pkg + "/" + a, Pkg + "/" + b + "/";
    if StartsWith(s, t) {
      var k := |Pkg| + 1 + |b|;
      assert s[k] == t[k] == '/';
      assert s[k] == a[k - |Pkg| - 1];
    }
  }

  /** Files of the package named differently neither coincide nor lie below one another. */
  lemma SiblingsApart(a: string, b: string)
    requires '/' !in a && '/' !in b && a != b
    ensures !Under(Pkg + "/" + a, Pkg + "/" + b) && !Under(Pkg + "/" + b, Pkg + "/" + a)
    ensures Pkg + "/" + a != Pkg + "/" + b
  {
    SiblingUnder(a, b);
    SiblingUnder(b, a);
    assert (Pkg + "/" + a)[|Pkg| + 1..] == a;
    assert (Pkg + "/" + b)[|Pkg| + 1..] == b;
  }

  /** RECORD under a top-level directory other than `regorus` is apart from the package's files. */
  lemma RecordApart(d: string, n: string)
    requires '/' !in d && d != Pkg
    ensures !Under(Pkg + "/" + n, d + "/RECORD") && !Under(d + "/RECORD", Pkg + "/" + n)
    ensures Pkg + "/" + n != d + "/RECORD"
  {
    Names();
    var p, r := Pkg + "/" + n, d + "/RECORD";
    TopOf(Pkg, n);
    TopOf(d, "RECORD");
    UnderNested(p, d, "RECORD");
    UnderNested(r, Pkg, n);
  }

  /** A path below `a/x` is below `a`, so `a` is its top-level name. */
  lemma UnderNested(s: string, a: string, x: string)
    requires '/' !in a
    ensures Under(s, a + "/" + x) ==> Top(s) == a
  {
    var t := a + "/" + x;
    if Under(s, t) {
      assert (t + "/")[..|a| + 1] == a + "/";
      assert s[..|a| + 1] == (t + "/")[..|a| + 1];
      TopUnder(s, a);
    }
  }

  /** A path is never below itself. */
  lemma NotUnderSelf(p: string)
    ensures !Under(p, p)
  {
  }

  /** Adding a file that neither is on the way to `path` nor lies below it leaves `path` as writable as it was. */
  lemma WritableUpdate(fs: Archive, k: string, v: Bytes, path: string)
    requires !Under(path, k) && !Under(k, path)
    ensures Writable(fs[k := v], path) <==> Writable(fs, path)
  {
    var fs' := fs[k := v];
    if IsDir(fs', path) {
      var p :| p in fs' && Under(p, path);
      assert p in fs;
    }
    if IsDir(fs, path) {
      var p :| p in fs && Under(p, path);
      assert p in fs';
    }
  }

  /** An existing `regorus` entry is a top-level name. */
  lemma PresentTop(fs: Archive, d: string)
    requires '/' !in d && Present(fs, d)
    ensures d in TopNames(fs)
  {
    if d in fs {
      TopPlain(d);
    } else {
      var p :| p in fs && Under(p, d);
      TopUnder(p, d);
    }
  }

  /** A new file adds its top-level name to the top-level names. */
  lemma TopNamesUpdate(fs: Archive, k: string, v: Bytes)
    ensures TopNames(fs[k := v]) == TopNames(fs) + {Top(k)}
  {
    var fs' := fs[k := v];
    forall x | x in TopNames(fs')
      ensures x in TopNames(fs) + {Top(k)}
    {
      var p :| p in fs' && Top(p) == x;
      if p != k {
        assert p in fs;
      }
    }
    forall x | x in TopNames(fs) + {Top(k)}
      ensures x in TopNames(fs')
    {
      if x != Top(k) {
        var p :| p in fs && Top(p) == x;
        assert p in fs';
      } else {
        assert k in fs';
      }
    }
  }

  /** Writing the typing files changes no top-level name once `regorus` exists, so neither the `*.dist-info` count. */
  lemma TypedTopNames(env: Env, fs: Archive, pyi: Bytes)
    requires Present(fs, Pkg)
    ensures TopNames(Typed(env, fs, pyi)) == TopNames(fs)
    ensures DistInfos(Typed(env, fs, pyi)) == DistInfos(fs)
  {
    Names();
    PresentTop(fs, Pkg);
    var fs1 := fs[StubPath := pyi];
    var fs2 := fs1[MarkerPath := []];
    TopOf(Pkg, StubName);
    TopOf(Pkg, MarkerName);
    TopOf(Pkg, InitName);
    TopNamesUpdate(fs, StubPath, pyi);
    TopNamesUpdate(fs1, MarkerPath, []);
    TopNamesUpdate(fs2, InitPath, env.utf8(PkgInit));
  }

  /** The second and third typing files can be written exactly when they could before the first. */
  lemma TypedWritable(env: Env, fs: Archive, pyi: Bytes)
    ensures Writable(fs[StubPath := pyi], MarkerPath) <==> Writable(fs, MarkerPath)
    ensures Writable(fs[StubPath := pyi][MarkerPath := []], InitPath) <==> Writable(fs, InitPath)
  {
    Names();
    SiblingsApart(StubName, MarkerName);
    SiblingsApart(StubName, InitName);
    SiblingsApart(MarkerName, InitName);
    WritableUpdate(fs, StubPath, pyi, MarkerPath);
    WritableUpdate(fs, StubPath, pyi, InitPath);
    WritableUpdate(fs[StubPath := pyi], MarkerPath, [], InitPath);
  }

  /** RECORD in a `*.dist-info` directory is apart from the typing files. */
  lemma RecordApartTyped(d: string)
    requires '/' !in d && EndsWith(d, ".dist-info")
    ensures var r := d + "/RECORD";
      && !Under(StubPath, r) && !Under(r, StubPath) && r != StubPath
      && !Under(MarkerPath, r) && !Under(r, MarkerPath) && r != MarkerPath
      && !Under(InitPath, r) && !Under(r, InitPath) && r != InitPath
  {
    Names();
    RecordApart(d, StubName);
    RecordApart(d, MarkerName);
    RecordApart(d, InitName);
  }

  /** RECORD can be written into the unpacked wheel after the typing files exactly when it could before. */
  lemma TypedRecordWritable(env: Env, fs: Archive, pyi: Bytes, d: string)
    requires '/' !in d && EndsWith(d, ".dist-info")
    ensures Writable(Typed(env, fs, pyi), d + "/RECORD") <==> Writable(fs, d + "/RECORD")
  {
    var r := d + "/RECORD";
    RecordApartTyped(d);
    var fs1 := fs[StubPath := pyi];
    var fs2 := fs1[MarkerPath := []];
    WritableUpdate(fs, StubPath, pyi, r);
    WritableUpdate(fs1, MarkerPath, [], r);
    WritableUpdate(fs2, InitPath, env.utf8(PkgInit), r);
  }

  /**
   * The injection succeeds exactly when, in the wheel as it came, `regorus`
   * exists, the three typing files can be written, there is exactly one
   * top-level `*.dist-info`, and its RECORD can be written.
   */
  lemma InjectSucceeds(env: Env, fs: Archive, pyi: Bytes)
    ensures Inject(env, fs, pyi).Success? <==>
      && Present(fs, Pkg)
      && Writable(fs, StubPath) && Writable(fs, MarkerPath) && Writable(fs, InitPath)
      && |DistInfos(fs)| == 1
      && Writable(fs, RecordAt(DistInfos(fs)))
  {
    TypedWritable(env, fs, pyi);
    if Present(fs, Pkg) {
      TypedTopNames(env, fs, pyi);
      var ds := DistInfos(fs);
      if |ds| == 1 {
        var d := TheDistInfo(ds);
        TypedRecordWritable(env, fs, pyi, d);
      }
    }
  }

  /** Without a `regorus` entry the injection fails first thing, and the wheel on disk stays as it was. */
  lemma InjectNoPackage(env: Env, fs: Archive, pyi: Bytes)
    ensures Inject(env, fs, pyi) == Failure(NoPackage) <==> !Present(fs, Pkg)
    ensures !Present(fs, Pkg) ==> Commit(fs, Inject(env, fs, pyi)) == fs
  {
  }

  /** With the package writable but not exactly one `*.dist-info`, the injection fails naming those found, and the wheel stays as it was. */
  lemma InjectDistInfoCount(env: Env, fs: Archive, pyi: Bytes)
    requires Present(fs, Pkg) && Writable(fs, StubPath) && Writable(fs, MarkerPath) && Writable(fs, InitPath)
    requires |DistInfos(fs)| != 1
    ensures Inject(env, fs, pyi) == Failure(DistInfoCount(DistInfos(fs)))
    ensures Commit(fs, Inject(env, fs, pyi)) == fs
  {
    TypedWritable(env, fs, pyi);
    TypedTopNames(env, fs, pyi);
  }

  /** A successful injection writes the typing files, then RECORD of the one `*.dist-info` from the rows of what is there. */
  lemma InjectShape(env: Env, fs: Archive, pyi: Bytes, out: Archive)
    requires Inject(env, fs, pyi) == Success(out)
    ensures |DistInfos(fs)| == 1
    ensures '/' !in TheDistInfo(DistInfos(fs)) && EndsWith(TheDistInfo(DistInfos(fs)), ".dist-info")
    ensures out == Rebuilt(env, Typed(env, fs, pyi), RecordAt(DistInfos(fs)))
  {
    TypedTopNames(env, fs, pyi);
  }

  /** The typing files, then RECORD, over the files as they came. */
  lemma RebuiltKeys(env: Env, fs: Archive, pyi: Bytes, r: string)
    ensures Rebuilt(env, Typed(env, fs, pyi), r).Keys == fs.Keys + {StubPath, MarkerPath, InitPath, r}
  {
  }

  /** Rebuilding leaves the typing files as written. */
  lemma RebuiltTyped(env: Env, fs: Archive, pyi: Bytes, d: string)
    requires '/' !in d && EndsWith(d, ".dist-info")
    ensures var out := Rebuilt(env, Typed(env, fs, pyi), d + "/RECORD");
      out[StubPath] == pyi && out[MarkerPath] == [] && out[InitPath] == env.utf8(PkgInit)
  {
    RecordApartTyped(d);
    PathsDistinct();
    var ws := Typed(env, fs, pyi);
    assert ws[StubPath] == pyi && ws[MarkerPath] == [] && ws[InitPath] == env.utf8(PkgInit);
  }

  /** The three typing files are three different paths. */
  lemma PathsDistinct()
    ensures StubPath != MarkerPath && StubPath != InitPath && MarkerPath != InitPath
  {
    Names();
    SiblingsApart(StubName, MarkerName);
    SiblingsApart(StubName, InitName);
    SiblingsApart(MarkerName, InitName);
  }

  /** Rebuilding leaves every other file as it was. */
  lemma RebuiltFrame(env: Env, fs: Archive, pyi: Bytes, r: string)
    ensures var out := Rebuilt(env, Typed(env, fs, pyi), r);
      forall p :: p in fs && p != StubPath && p != MarkerPath && p != InitPath && p != r ==> out[p] == fs[p]
  {
  }

  /** What a successful injection leaves: the typing files, RECORD, and every other file as it was. */
  lemma InjectFiles(env: Env, fs: Archive, pyi: Bytes, out: Archive)
    requires Inject(env, fs, pyi) == Success(out)
    ensures |DistInfos(fs)| == 1
    ensures var r := RecordAt(DistInfos(fs));
      && out.Keys == fs.Keys + {StubPath, MarkerPath, InitPath, r}
      && out[StubPath] == pyi && out[MarkerPath] == [] && out[InitPath] == env.utf8(PkgInit)
      && (forall p :: p in fs && p != StubPath && p != MarkerPath && p != InitPath && p != r ==> out[p] == fs[p])
  {
    InjectShape(env, fs, pyi, out);
    var d := TheDistInfo(DistInfos(fs));
    RebuiltKeys(env, fs, pyi, d + "/RECORD");
    RebuiltTyped(env, fs, pyi, d);
    RebuiltFrame(env, fs, pyi, d + "/RECORD");
  }

  /**
   * The rows describe `files`: a row for every file but RECORD, holding
   * that file's path, digest and size, a blank row for RECORD if any, and
   * no row for a missing file.
   */
  predicate Manifest(env: Env, rows: map<string, seq<string>>, files: Archive, record: string) {
    && (forall p :: p in rows ==> p in files)
    && (forall p :: p in files && p != record ==> p in rows && rows[p] == RecordRow(env, p, files[p]))
    && (record in rows ==> rows[record] == [record, "", ""])
  }

  /** The rebuilt RECORD is written from rows describing the rebuilt files. */
  lemma RebuiltManifest(env: Env, ws: Archive, r: string)
    ensures var out := Rebuilt(env, ws, r);
      && out[r] == env.csv(Rows(env, ws, r))
      && Manifest(env, Rows(env, ws, r), out, r)
      && (r in Rows(env, ws, r) <==> r in ws)
  {
  }

  /** RECORD is among the typed files exactly when it was among the files as they came. */
  lemma TypedRecordIn(env: Env, fs: Archive, pyi: Bytes, d: string)
    requires '/' !in d && EndsWith(d, ".dist-info")
    ensures d + "/RECORD" in Typed(env, fs, pyi) <==> d + "/RECORD" in fs
  {
    RecordApartTyped(d);
  }

  /**
   * RECORD of the rebuilt wheel is written from rows that describe the
   * rebuilt wheel's files; it lists itself exactly when it existed before.
   */
  lemma InjectRecord(env: Env, fs: Archive, pyi: Bytes, out: Archive)
    requires Inject(env, fs, pyi) == Success(out)
    ensures |DistInfos(fs)| == 1 && RecordAt(DistInfos(fs)) in out
    ensures var r := RecordAt(DistInfos(fs));
      var rows := Rows(env, Typed(env, fs, pyi), r);
      && out[r] == env.csv(rows)
      && Manifest(env, rows, out, r)
      && (r in rows <==> r in fs)
  {
    InjectShape(env, fs, pyi, out);
    var d := TheDistInfo(DistInfos(fs));
    RebuiltManifest(env, Typed(env, fs, pyi), d + "/RECORD");
    TypedRecordIn(env, fs, pyi, d);
  }

  /** A 32-byte digest makes the hash field of a RECORD row 50 characters: `sha256=` and 43 symbols. */
  lemma RecordDigestLength(env: Env, path: string, data: Bytes)
    requires |env.sha256(data)| == 32
    ensures |RecordRow(env, path, data)[1]| == 50
  {
    DigestLength(env.sha256(data));
  }

  /** Writing the four files of an injection leaves a path apart from all of them as writable as it was. */
  lemma RebuiltWritable(env: Env, fs: Archive, pyi: Bytes, r: string, path: string)
    requires !Under(path, StubPath) && !Under(StubPath, path)
    requires !Under(path, MarkerPath) && !Under(MarkerPath, path)
    requires !Under(path, InitPath) && !Under(InitPath, path)
    requires !Under(path, r) && !Under(r, path)
    ensures Writable(Rebuilt(env, Typed(env, fs, pyi), r), path) <==> Writable(fs, path)
  {
    var fs1 := fs[StubPath := pyi];
    var fs2 := fs1[MarkerPath := []];
    var ws := Typed(env, fs, pyi);
    WritableUpdate(fs, StubPath, pyi, path);
    WritableUpdate(fs1, MarkerPath, [], path);
    WritableUpdate(fs2, InitPath, env.utf8(PkgInit), path);
    WritableUpdate(ws, r, env.csv(Rows(env, ws, r)), path);
  }

  /** All four files of an injection stay writable in its output. */
  lemma RebuiltStillWritable(env: Env, fs: Archive, pyi: Bytes, d: string)
    requires '/' !in d && EndsWith(d, ".dist-info")
    requires Writable(fs, StubPath) && Writable(fs, MarkerPath) && Writable(fs, InitPath) && Writable(fs, d + "/RECORD")
    ensures var out := Rebuilt(env, Typed(env, fs, pyi), d + "/RECORD");
      Writable(out, StubPath) && Writable(out, MarkerPath) && Writable(out, InitPath) && Writable(out, d + "/RECORD")
  {
    var r := d + "/RECORD";
    Names();
    RecordApartTyped(d);
    SiblingsApart(StubName, MarkerName);
    SiblingsApart(StubName, InitName);
    SiblingsApart(MarkerName, InitName);
    NotUnderSelf(StubPath);
    NotUnderSelf(MarkerPath);
    NotUnderSelf(InitPath);
    NotUnderSelf(r);
    RebuiltWritable(env, fs, pyi, r, StubPath);
    RebuiltWritable(env, fs, pyi, r, MarkerPath);
    RebuiltWritable(env, fs, pyi, r, InitPath);
    RebuiltWritable(env, fs, pyi, r, r);
  }

  /** The `*.dist-info` directories depend only on the top-level names. */
  lemma DistInfosOfTop(a: Archive, b: Archive)
    requires TopNames(a) == TopNames(b)
    ensures DistInfos(a) == DistInfos(b)
  {
  }

  /** The output of an injection adds only the `*.dist-info` directory to the top-level names. */
  lemma RebuiltTopNames(env: Env, fs: Archive, pyi: Bytes, d: string)
    requires Present(fs, Pkg) && '/' !in d
    ensures TopNames(Rebuilt(env, Typed(env, fs, pyi), d + "/RECORD")) == TopNames(fs) + {d}
  {
    var ws := Typed(env, fs, pyi);
    var r := d + "/RECORD";
    TypedTopNames(env, fs, pyi);
    RecordTopNames(ws, d, env.csv(Rows(env, ws, r)));
  }

  /** Writing RECORD of a top-level directory adds that directory to the top-level names. */
  lemma RecordTopNames(ws: Archive, d: string, v: Bytes)
    requires '/' !in d
    ensures TopNames(ws[d + "/RECORD" := v]) == TopNames(ws) + {d}
  {
    TopOf(d, "RECORD");
    TopNamesUpdate(ws, d + "/RECORD", v);
  }

  lemma DistInfoIsTop(fs: Archive, d: string)
    requires d in DistInfos(fs)
    ensures TopNames(fs) + {d} == TopNames(fs)
  {
  }

  /** The output of an injection has the same `*.dist-info` directories as its input. */
  lemma RebuiltDistInfos(env: Env, fs: Archive, pyi: Bytes, d: string)
    requires Present(fs, Pkg) && d in DistInfos(fs) && '/' !in d
    ensures DistInfos(Rebuilt(env, Typed(env, fs, pyi), d + "/RECORD")) == DistInfos(fs)
  {
    RebuiltTopNames(env, fs, pyi, d);
    DistInfoIsTop(fs, d);
    DistInfosOfTop(Rebuilt(env, Typed(env, fs, pyi), d + "/RECORD"), fs);
  }

  /** Writing a file with the bytes it already has changes nothing. */
  lemma UpdateSame(m: Archive, k: string, v: Bytes)
    requires k in m && m[k] == v
    ensures m[k := v] == m
  {
  }

  /** The output of an injection already holds the typing files, so writing them again changes nothing. */
  lemma RebuiltTypedAgain(env: Env, fs: Archive, pyi: Bytes, d: string)
    requires '/' !in d && EndsWith(d, ".dist-info")
    ensures var out := Rebuilt(env, Typed(env, fs, pyi), d + "/RECORD");
      Typed(env, out, pyi) == out
  {
    var out := Rebuilt(env, Typed(env, fs, pyi), d + "/RECORD");
    RebuiltTyped(env, fs, pyi, d);
    RebuiltKeys(env, fs, pyi, d + "/RECORD");
    UpdateSame(out, StubPath, pyi);
    UpdateSame(out, MarkerPath, []);
    UpdateSame(out, InitPath, env.utf8(PkgInit));
  }

  /** The package directory exists once its stub is written. */
  lemma StubMakesPackage(fs: Archive)
    requires StubPath in fs
    ensures Present(fs, Pkg)
  {
    assert (StubPath)[..|Pkg| + 1] == Pkg + "/";
  }

  /**
   * Injecting again into the output succeeds and only rewrites RECORD,
   * now listing itself with a blank row.
   */
  lemma InjectAgain(env: Env, fs: Archive, pyi: Bytes, out: Archive)
    requires Inject(env, fs, pyi) == Success(out)
    ensures |DistInfos(fs)| == 1
    ensures Inject(env, out, pyi) == Success(Rebuilt(env, out, RecordAt(DistInfos(fs))))
  {
    InjectShape(env, fs, pyi, out);
    InjectSucceeds(env, fs, pyi);
    var d := TheDistInfo(DistInfos(fs));
    RebuiltStillWritable(env, fs, pyi, d);
    RebuiltDistInfos(env, fs, pyi, d);
    RebuiltTypedAgain(env, fs, pyi, d);
    RebuiltKeys(env, fs, pyi, d + "/RECORD");
    StubMakesPackage(out);
    TypedWritable(env, out, pyi);
  }

  /** The rows do not depend on what RECORD held. */
  lemma RowsIgnoreRecord(env: Env, a: Archive, b: Archive, r: string)
    requires a.Keys == b.Keys
    requires forall p :: p in a && p != r ==> a[p] == b[p]
    ensures Rows(env, a, r) == Rows(env, b, r)
  {
  }

  /** Rebuilding RECORD a second time changes nothing once RECORD is among the files. */
  lemma RebuiltTwice(env: Env, ws: Archive, r: string)
    requires r in ws
    ensures Rebuilt(env, Rebuilt(env, ws, r), r) == Rebuilt(env, ws, r)
  {
    var out := Rebuilt(env, ws, r);
    RowsIgnoreRecord(env, out, ws, r);
    UpdateSame(out, r, env.csv(Rows(env, out, r)));
  }

  /** Injecting into a wheel whose RECORD already existed, then injecting again, gives the same wheel. */
  lemma InjectIdempotent(env: Env, fs: Archive, pyi: Bytes, out: Archive)
    requires Inject(env, fs, pyi) == Success(out)
    requires |DistInfos(fs)| == 1 && RecordAt(DistInfos(fs)) in fs
    ensures Inject(env, out, pyi) == Success(out)
  {
    InjectShape(env, fs, pyi, out);
    InjectAgain(env, fs, pyi, out);
    var d := TheDistInfo(DistInfos(fs));
    TypedRecordIn(env, fs, pyi, d);
    RebuiltTwice(env, Typed(env, fs, pyi), d + "/RECORD");
  }

  /** Injecting twice reaches a wheel that a further injection leaves as it is. */
  lemma InjectStable(env: Env, fs: Archive, pyi: Bytes, out: Archive, out2: Archive)
    requires Inject(env, fs, pyi) == Success(out) && Inject(env, out, pyi) == Success(out2)
    ensures Inject(env, out2, pyi) == Success(out2)
  {
    InjectShape(env, fs, pyi, out);
    InjectSucceeds(env, fs, pyi);
    var d := TheDistInfo(DistInfos(fs));
    RebuiltDistInfos(env, fs, pyi, d);
    RebuiltKeys(env, fs, pyi, d + "/RECORD");
    InjectIdempotent(env, out, pyi, out2);
  }
}
