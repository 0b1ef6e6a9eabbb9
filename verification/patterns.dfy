/**
 * The line recognisers of the stub extractor: the four attribute and block
 * patterns, the `fn` header pattern, the brace counter and the line splitter
 * that feeds them.
 *
 * Each regular expression is written out as a recogniser that does what
 * Python's backtracking matcher does on it. Runs of `\s*` are `TrimLeft`
 * because every literal that follows them starts with a non-space, so the
 * greedy run can never give anything back.
 */
module Patterns {

  import opened Wrappers
  import opened Strings

  /** `\s*lit`: skip whitespace, then expect `lit`; the text after it. */
  function Lead(s: string, lit: string): (r: Option<string>)
    ensures r.Some? ==> |r.value| + |lit| <= |s|
  {
    var t := TrimLeft(s);
    if StartsWith(t, lit) then Some(t[|lit|..]) else None
  }

  /** What `Lead` consumed is whitespace followed by `lit`. */
  lemma LeadParts(s: string, lit: string)
    requires Lead(s, lit).Some?
    ensures var r := Lead(s, lit).value;
      && AllSpace(s[..|s| - |lit| - |r|])
      && s == s[..|s| - |lit| - |r|] + lit + r
  {
    var t := TrimLeft(s);
    var r := Lead(s, lit).value;
    TrimLeftSuffix(s);
    TrimLeftDrops(s);
    assert t == lit + r;
  }

  /** Whitespace padding, then `lit`, then anything: `Lead` finds `lit` and returns the rest. */
  lemma LeadPadded(w: string, lit: string, rest: string)
    requires AllSpace(w) && lit != [] && !IsSpace(lit[0])
    ensures Lead(w + lit + rest, lit) == Some(rest)
  {
    assert w + lit + rest == w + (lit + rest);
    TrimLeftPadded(w, lit + rest);
    assert (lit + rest)[..|lit|] == lit;
  }

  /** `^\s*#\[\s*word\s*\]\s*$`. */
  predicate Attr(line: string, word: string) {
    match Lead(line, "#[")
      case None => false
      case Some(a) =>
        match Lead(a, word)
          case None => false
          case Some(b) => Trim(b) == "]"
  }

  /** `_PYMETHODS`. */
  predicate IsPymethods(line: string) {
    Attr(line, "pymethods")
  }

  /** `_ATTR_NEW`. */
  predicate IsAttrNew(line: string) {
    Attr(line, "new")
  }

  /** `_IMPL_ENGINE_START`: `^\s*impl\s+Engine\s*\{\s*$`. */
  predicate IsImplEngine(line: string) {
    match Lead(line, "impl")
      case None => false
      case Some(a) =>
        a != [] && IsSpace(a[0]) &&
        match Lead(a, "Engine")
          case None => false
          case Some(b) => Trim(b) == "{"
  }

  /** `\s*t0\s*t1...`: each token in turn after optional whitespace; the text after the last. */
  function Tokens(s: string, toks: seq<string>): (r: Option<string>)
    decreases |toks|
  {
    if toks == [] then Some(s)
    else match Lead(s, toks[0])
      case None => None
      case Some(rest) => Tokens(rest, toks[1..])
  }

  /** The tokens with the given whitespace in front of each. */
  function Interleave(ws: seq<string>, toks: seq<string>): string
    requires |ws| == |toks|
  {
    if toks == [] then "" else ws[0] + toks[0] + Interleave(ws[1..], toks[1..])
  }

  /** Tokens laid out with whitespace before each are read in turn. */
  lemma {:induction false} TokensPadded(ws: seq<string>, toks: seq<string>, rest: string)
    requires |ws| == |toks|
    requires forall i :: 0 <= i < |toks| ==> AllSpace(ws[i]) && toks[i] != [] && !IsSpace(toks[i][0])
    ensures Tokens(Interleave(ws, toks) + rest, toks) == Some(rest)
  {
    if toks != [] {
      var tail := Interleave(ws[1..], toks[1..]) + rest;
      assert Interleave(ws, toks) + rest == ws[0] + toks[0] + tail;
      LeadPadded(ws[0], toks[0], tail);
      assert forall i :: 0 <= i < |toks| - 1 ==> ws[1..][i] == ws[i + 1] && toks[1..][i] == toks[i + 1];
      TokensPadded(ws[1..], toks[1..], rest);
      assert Tokens(Interleave(ws, toks) + rest, toks) == Tokens(tail, toks[1..]);
    } else {
      assert Interleave(ws, toks) + rest == rest;
    }
  }

  /** The fixed tokens of `_CFG_FEATURE` up to the opening quote. */
  function CfgTokens(): seq<string> {
    ["#[", "cfg", "(", "feature", "=", "\""]
  }

  /** `^\s*#\[\s*cfg\s*\(\s*feature\s*=\s*"`: what follows the opening quote. */
  function CfgOpen(line: string): Option<string> {
    Tokens(line, CfgTokens())
  }

  /** `([^"]+)"\s*\)\s*\]\s*$`: the group runs to the first `"` and may not be empty. */
  function CfgClose(f: string): (r: Option<string>)
    ensures r.Some? ==> r.value != [] && '"' !in r.value
  {
    match IndexOf(f, '"', 0)
      case None => None
      case Some(k) =>
        assert f[..k] == f[0..k];
        if k == 0 then None
        else match Lead(f[k + 1..], ")")
          case None => None
          case Some(g) => if Trim(g) == "]" then Some(f[..k]) else None
  }

  /** `_CFG_FEATURE`: `^\s*#\[\s*cfg\s*\(\s*feature\s*=\s*"([^"]+)"\s*\)\s*\]\s*$`. */
  function CfgFeature(line: string): (r: Option<string>)
    ensures r.Some? ==> r.value != [] && '"' !in r.value
  {
    match CfgOpen(line)
      case None => None
      case Some(f) => CfgClose(f)
  }

  /** The three groups of a matched `fn` header: the name, the raw argument text, the stripped return type. */
  datatype FnHeader = FnHeader(name: string, args: string, ret: string)

  /** The length of the run of `[A-Za-z0-9_]` characters that starts `s`. */
  function WordRun(s: string): (n: nat)
    ensures n <= |s|
    ensures forall i :: 0 <= i < n ==> IsWordChar(s[i])
    ensures n < |s| ==> !IsWordChar(s[n])
  {
    if s == [] || !IsWordChar(s[0]) then 0 else 1 + WordRun(s[1..])
  }

  /**
   * The tail `\s*(?:->\s*(?P<ret>.+?))?\s*\{\s*$` after the closing `)`,
   * giving `(ret or "").strip()`. With an arrow, the lazy group ends at the
   * last non-space before the final `{`; if nothing but that `{` follows the
   * arrow, the group can only take a single blank, which strips to "".
   */
  function RetText(tail: string): (r: Option<string>)
    ensures r.Some? ==> r.value == [] || (!IsSpace(r.value[0]) && !IsSpace(r.value[|r.value| - 1]))
  {
    var r1 := TrimLeft(tail);
    if StartsWith(r1, "->") then
      var x := r1[2..];
      var y := TrimLeft(x);
      var t := TrimRight(y);
      if t == [] || t[|t| - 1] != '{' then None
      else
        var z := t[..|t| - 1];
        if z != [] then
          TrimRightPrefix(y);
          assert z[0] == y[0];
          TrimRightKeepsFirst(z);
          TrimRightPrefix(z);
          Some(TrimRight(z))
        else if x != [] && IsSpace(x[0]) then Some("")
        else None
    else if TrimRight(r1) == "{" then Some("")
    else None
  }

  /** `^\s*(?:pub\s+)?fn\s+`: the text where the name starts. */
  function FnStart(line: string): (r: Option<string>)
    ensures r.Some? ==> r.value == [] || !IsSpace(r.value[0])
  {
    var a := match Lead(line, "pub")
      case Some(p) => if p != [] && IsSpace(p[0]) then p else line
      case None => line;
    match Lead(a, "fn")
      case None => None
      case Some(b) => if b == [] || !IsSpace(b[0]) then None else Some(TrimLeft(b))
  }

  /** `\s*\((?P<args>[^)]*)\)` and the tail: the argument text and the return text. */
  function FnRest(s: string): (r: Option<(string, string)>)
    ensures r.Some? ==> ')' !in r.value.0
  {
    match Lead(s, "(")
      case None => None
      case Some(d) =>
        match IndexOf(d, ')', 0)
          case None => None
          case Some(k) =>
            assert d[..k] == d[0..k];
            match RetText(d[k + 1..])
              case None => None
              case Some(ret) => Some((d[..k], ret))
  }

  /**
   * `_FN_RE`: `^\s*(?:pub\s+)?fn\s+(?P<name>[A-Za-z_][A-Za-z0-9_]*)\s*\((?P<args>[^)]*)\)`
   * followed by the tail `RetText` reads. The name is the whole identifier run,
   * since `\s*\(` cannot start inside it; the arguments run to the first `)`.
   */
  function MatchFn(line: string): (r: Option<FnHeader>)
    ensures r.Some? ==> IsIdent(r.value.name) && ')' !in r.value.args
  {
    match FnStart(line)
      case None => None
      case Some(c) =>
        var n := WordRun(c);
        if n == 0 || ('0' <= c[0] <= '9') then None
        else match FnRest(c[n..])
          case None => None
          case Some((args, ret)) => Some(FnHeader(c[..n], args, ret))
  }

  /** `_brace_delta`: opening minus closing braces on the line. */
  function BraceDelta(line: string): (r: int)
    ensures '{' !in line ==> r <= 0
    ensures '}' !in line ==> r >= 0
  {
    CountChar(line, '{') - CountChar(line, '}')
  }

  /** The characters `str.splitlines()` breaks at (`\r\n` counts as one break). */
  predicate IsLineBreak(c: char) {
    c == '\n' || c == '\r' || c == '\U{0B}' || c == '\U{0C}'
    || c == '\U{1C}' || c == '\U{1D}' || c == '\U{1E}'
    || c == '\U{85}' || c == '\U{2028}' || c == '\U{2029}'
  }

  /** The position of the first line break in `s`, or `|s|`. */
  function BreakAt(s: string): (i: nat)
    ensures i <= |s| && (i < |s| ==> IsLineBreak(s[i]))
    ensures forall j :: 0 <= j < i ==> !IsLineBreak(s[j])
  {
    if s == [] || IsLineBreak(s[0]) then 0 else 1 + BreakAt(s[1..])
  }

  /** `text.splitlines()`: no empty line after a final break, and `\r\n` is one break. */
  function SplitLines(text: string): (r: seq<string>)
    ensures r == [] <==> text == []
    ensures forall k :: 0 <= k < |r| ==> NoBreak(r[k])
    decreases |text|
  {
    if text == [] then []
    else
      var i := BreakAt(text);
      if i == |text| then [text]
      else
        var skip := if text[i] == '\r' && i + 1 < |text| && text[i + 1] == '\n' then 2 else 1;
        [text[..i]] + SplitLines(text[i + skip..])
  }

  predicate NoBreak(line: string) {
    forall j :: 0 <= j < |line| ==> !IsLineBreak(line[j])
  }

  /** No line `splitlines()` returns holds a line break. */
  lemma {:induction false} SplitLinesNoBreak(text: string)
    ensures forall k :: 0 <= k < |SplitLines(text)| ==> NoBreak(SplitLines(text)[k])
    decreases |text|
  {
    if text != [] {
      var i := BreakAt(text);
      if i < |text| {
        var skip := if text[i] == '\r' && i + 1 < |text| && text[i + 1] == '\n' then 2 else 1;
        SplitLinesNoBreak(text[i + skip..]);
      }
    }
  }

  /** A file written line by line, each line ended by `\n`. */
  function JoinLines(lines: seq<string>): string {
    if lines == [] then "" else lines[0] + "\n" + JoinLines(lines[1..])
  }

  /** `splitlines()` gives back the lines a file was written from. */
  lemma {:induction false} SplitJoinLines(lines: seq<string>)
    requires forall k :: 0 <= k < |lines| ==> NoBreak(lines[k])
    ensures SplitLines(JoinLines(lines)) == lines
  {
    if lines != [] {
      var l, rest := lines[0], JoinLines(lines[1..]);
      assert JoinLines(lines) == l + ("\n" + rest);
      SplitLinesCons(l, rest);
      SplitJoinLines(lines[1..]);
      assert lines == [l] + lines[1..];
    }
  }

  /** A line without breaks, then `\n`: the first line `splitlines()` returns. */
  lemma SplitLinesCons(l: string, rest: string)
    requires NoBreak(l)
    ensures SplitLines(l + ("\n" + rest)) == [l] + SplitLines(rest)
  {
    var text := l + ("\n" + rest);
    assert text[|l|] == '\n';
    assert forall j :: 0 <= j < |l| ==> text[j] == l[j];
    assert BreakAt(text) == |l|;
    assert text[..|l|] == l;
    assert text[|l| + 1..] == rest;
  }

  /** `indent + "#[" + word + "]"`: an attribute line as rustfmt writes it. */
  function AttrLine(indent: string, word: string): string {
    indent + "#[" + word + "]"
  }

  /** An attribute line is recognised, whatever its indentation. */
  lemma AttrLineMatches(indent: string, word: string)
    requires AllSpace(indent) && word != [] && !IsSpace(word[0])
    ensures Attr(AttrLine(indent, word), word)
  {
    assert AttrLine(indent, word) == indent + "#[" + (word + "]");
    LeadPadded(indent, "#[", word + "]");
    assert word + "]" == [] + word + "]";
    LeadPadded([], word, "]");
    TrimNoop("]");
  }

  /** `impl Engine {` at any indentation. */
  function ImplLine(indent: string): string {
    indent + "impl Engine {"
  }

  lemma ImplLineMatches(indent: string)
    requires AllSpace(indent)
    ensures IsImplEngine(ImplLine(indent))
  {
    assert ImplLine(indent) == indent + "impl" + " Engine {";
    LeadPadded(indent, "impl", " Engine {");
    assert " Engine {" == " " + "Engine" + " {";
    LeadPadded(" ", "Engine", " {");
    assert " {" == " " + "{" + [];
    TrimLeftPadded(" ", "{");
    TrimNoop("{");
  }

  /** `#[cfg(feature = "f")]` at any indentation. */
  function CfgLine(indent: string, feature: string): string {
    indent + "#[cfg(feature = \"" + (feature + "\")]")
  }

  lemma CfgLayout(indent: string)
    ensures indent + "#[cfg(feature = \"" == Interleave([indent, "", "", "", " ", " "], CfgTokens())
  {
    var w1, t1 := ["", "", "", " ", " "], ["cfg", "(", "feature", "=", "\""];
    assert [indent] + w1 == [indent, "", "", "", " ", " "] && ["#["] + t1 == CfgTokens();
    CfgLayoutTail();
    InterleaveCons(indent, "#[", w1, t1);
    assert "#[" + "cfg(feature = \"" == "#[cfg(feature = \"";
  }

  lemma CfgLayoutTail()
    ensures Interleave(["", "", "", " ", " "], ["cfg", "(", "feature", "=", "\""]) == "cfg(feature = \""
  {
    var w3, t3 := ["", " ", " "], ["feature", "=", "\""];
    assert ["", ""] + w3 == ["", "", "", " ", " "] && ["cfg", "("] + t3 == ["cfg", "(", "feature", "=", "\""];
    CfgLayoutFeature();
    InterleaveCons("", "(", w3, t3);
    InterleaveCons("", "cfg", [""] + w3, ["("] + t3);
    assert "cfg" + ("(" + "feature = \"") == "cfg(feature = \"";
  }

  lemma CfgLayoutFeature()
    ensures Interleave(["", " ", " "], ["feature", "=", "\""]) == "feature = \""
  {
    var w5, t5 := [" "], ["\""];
    assert Interleave(w5, t5) == " \"";
    InterleaveCons(" ", "=", w5, t5);
    InterleaveCons("", "feature", [" "] + w5, ["="] + t5);
    assert [""] + ([" "] + w5) == ["", " ", " "] && ["feature"] + (["="] + t5) == ["feature", "=", "\""];
    assert "feature" + (" " + "=" + " \"") == "feature = \"";
  }

  lemma InterleaveCons(w: string, t: string, ws: seq<string>, toks: seq<string>)
    requires |ws| == |toks|
    ensures Interleave([w] + ws, [t] + toks) == w + t + Interleave(ws, toks)
  {
    assert ([w] + ws)[1..] == ws && ([t] + toks)[1..] == toks;
  }

  lemma CfgOpenMatches(indent: string, f: string)
    requires AllSpace(indent)
    ensures CfgOpen(indent + "#[cfg(feature = \"" + f) == Some(f)
  {
    var ws := [indent, "", "", "", " ", " "];
    CfgLayout(indent);
    assert forall i :: 0 <= i < 6 ==> AllSpace(ws[i]);
    TokensPadded(ws, CfgTokens(), f);
  }

  lemma CfgCloseMatches(feature: string)
    requires feature != [] && '"' !in feature
    ensures CfgClose(feature + "\")]") == Some(feature)
  {
    var f := feature + "\")]";
    assert f[|feature|] == '"' && f[0..|feature|] == feature;
    IndexOfFirst(f, '"', 0, |feature|);
    assert f[..|feature|] == feature;
    assert f[|feature| + 1..] == [] + ")" + "]";
    LeadPadded([], ")", "]");
    TrimNoop("]");
  }

  /** A feature gate is recognised and its feature name read back, whatever its indentation. */
  lemma CfgLineMatches(indent: string, feature: string)
    requires AllSpace(indent) && feature != [] && '"' !in feature
    ensures CfgFeature(CfgLine(indent, feature)) == Some(feature)
  {
    CfgOpenMatches(indent, feature + "\")]");
    CfgCloseMatches(feature);
  }

  /** ` -> ret` when there is a return type, nothing otherwise. */
  function ArrowText(ret: string): string {
    if ret == [] then "" else " -> " + ret
  }

  /** A `fn` header as rustfmt writes it, with the opening brace of the body last. */
  function HeaderLine(indent: string, pub: bool, h: FnHeader): string {
    indent + (if pub then "pub fn " else "fn ") + h.name + ("(" + h.args + ")" + (ArrowText(h.ret) + " {"))
  }

  /** A header the pattern can read back: an identifier, no `)` in the arguments, a stripped return type. */
  predicate GoodHeader(h: FnHeader) {
    IsIdent(h.name) && ')' !in h.args
    && (h.ret == [] || (!IsSpace(h.ret[0]) && !IsSpace(h.ret[|h.ret| - 1])))
  }

  lemma RetTextPlain()
    ensures RetText(" {") == Some("")
  {
    assert " {" == " " + "{";
    TrimLeftPadded(" ", "{");
    TrimNoop("{");
  }

  lemma RetTextArrow(ret: string)
    requires ret != [] && !IsSpace(ret[0]) && !IsSpace(ret[|ret| - 1])
    ensures RetText(" -> " + ret + " {") == Some(ret)
  {
    var y := ret + " {";
    var x := " " + y;
    var r1 := "->" + x;
    assert " -> " + ret + " {" == " " + r1;
    TrimLeftPadded(" ", r1);
    assert r1[..2] == "->" && r1[2..] == x;
    TrimLeftPadded(" ", y);
    TrimNoop(y);
    assert y[..|y| - 1] == ret + " ";
    TrimRightPadded(ret, " ");
  }

  /** The tail after `)` yields the return type it was written with. */
  lemma RetTextOf(ret: string)
    requires ret == [] || (!IsSpace(ret[0]) && !IsSpace(ret[|ret| - 1]))
    ensures RetText(ArrowText(ret) + " {") == Some(ret)
  {
    if ret == [] {
      assert ArrowText(ret) + " {" == " {";
      RetTextPlain();
    } else {
      assert ArrowText(ret) + " {" == " -> " + ret + " {";
      RetTextArrow(ret);
    }
  }

  lemma FnRestOf(args: string, ret: string)
    requires ')' !in args
    requires ret == [] || (!IsSpace(ret[0]) && !IsSpace(ret[|ret| - 1]))
    ensures FnRest("(" + args + ")" + (ArrowText(ret) + " {")) == Some((args, ret))
  {
    var tail := ArrowText(ret) + " {";
    var d := args + ")" + tail;
    assert "(" + args + ")" + tail == [] + "(" + d;
    LeadPadded([], "(", d);
    assert d[|args|] == ')' && d[0..|args|] == args;
    IndexOfFirst(d, ')', 0, |args|);
    assert d[..|args|] == args && d[|args| + 1..] == tail;
    RetTextOf(ret);
  }

  /** The identifier run of `name + rest` is `name` when `rest` does not continue it. */
  lemma {:induction false} WordRunOf(name: string, rest: string)
    requires forall i :: 0 <= i < |name| ==> IsWordChar(name[i])
    requires rest == [] || !IsWordChar(rest[0])
    ensures WordRun(name + rest) == |name|
  {
    if name != [] {
      assert (name + rest)[1..] == name[1..] + rest;
      WordRunOf(name[1..], rest);
    } else {
      assert name + rest == rest;
    }
  }

  lemma FnStartPub(indent: string, x: string)
    requires AllSpace(indent) && x != [] && !IsSpace(x[0])
    ensures FnStart(indent + "pub fn " + x) == Some(x)
  {
    var b := " " + x;
    var p := " fn" + b;
    assert indent + "pub fn " + x == indent + "pub" + p;
    LeadPadded(indent, "pub", p);
    assert p == " " + "fn" + b;
    LeadPadded(" ", "fn", b);
    assert b == " " + x;
    TrimLeftPadded(" ", x);
  }

  lemma FnStartPlain(indent: string, x: string)
    requires AllSpace(indent) && x != [] && !IsSpace(x[0])
    ensures FnStart(indent + "fn " + x) == Some(x)
  {
    var b := " " + x;
    assert indent + "fn " + x == indent + "fn" + b;
    LeadPadded(indent, "fn", b);
    TrimLeftPadded(indent, "fn" + b);
    assert indent + "fn" + b == indent + ("fn" + b);
    assert !StartsWith("fn" + b, "pub") by {
      assert ("fn" + b)[0] == 'f';
    }
    TrimLeftPadded(" ", x);
  }

  /** The matcher's last step: once the name is read, the rest of the line decides. */
  lemma MatchFnOf(line: string, c: string, n: nat)
    requires FnStart(line) == Some(c) && 0 < n <= |c| && WordRun(c) == n && !('0' <= c[0] <= '9')
    ensures FnRest(c[n..]).None? ==> MatchFn(line).None?
    ensures FnRest(c[n..]).Some? ==> MatchFn(line) == Some(FnHeader(c[..n], FnRest(c[n..]).value.0, FnRest(c[n..]).value.1))
  {
  }

  /** The keywords of a header, with or without `pub`, lead to the name. */
  lemma StartOfHeader(indent: string, pub: bool, x: string)
    requires AllSpace(indent) && x != [] && !IsSpace(x[0])
    ensures FnStart(indent + (if pub then "pub fn " else "fn ") + x) == Some(x)
  {
    if pub {
      FnStartPub(indent, x);
    } else {
      FnStartPlain(indent, x);
    }
  }

  lemma HeaderSpelling(indent: string, pub: bool, h: FnHeader)
    ensures HeaderLine(indent, pub, h)
      == indent + (if pub then "pub fn " else "fn ") + (h.name + ("(" + h.args + ")" + (ArrowText(h.ret) + " {")))
  {
  }

  /** A header written out is matched, and its name, argument text and return type are read back. */
  lemma MatchHeaderLine(indent: string, pub: bool, h: FnHeader)
    requires AllSpace(indent) && GoodHeader(h)
    ensures MatchFn(HeaderLine(indent, pub, h)) == Some(h)
  {
    var rest := "(" + h.args + ")" + (ArrowText(h.ret) + " {");
    var x := h.name + rest;
    var line := indent + (if pub then "pub fn " else "fn ") + x;
    HeaderSpelling(indent, pub, h);
    assert x[0] == h.name[0];
    WordCharNotSpace(h.name[0]);
    StartOfHeader(indent, pub, x);
    WordRunOf(h.name, rest);
    assert x[..|h.name|] == h.name && x[|h.name|..] == rest;
    FnRestOf(h.args, h.ret);
    MatchFnOf(line, x, |h.name|);
  }


  /** A body on the header line (`{ }`) leaves the `{` short of the line's end: no match. */
  lemma RetTextClosed(ret: string)
    requires ret == [] || (!IsSpace(ret[0]) && !IsSpace(ret[|ret| - 1]))
    ensures RetText(ArrowText(ret) + " { }") == None
  {
    if ret == [] {
      assert ArrowText(ret) + " { }" == " " + "{ }";
      TrimLeftPadded(" ", "{ }");
      TrimNoop("{ }");
    } else {
      var y := ret + " { }";
      var x := " " + y;
      var r1 := "->" + x;
      assert ArrowText(ret) + " { }" == " " + r1;
      TrimLeftPadded(" ", r1);
      assert r1[..2] == "->" && r1[2..] == x;
      TrimLeftPadded(" ", y);
      TrimNoop(y);
    }
  }

  lemma FnRestClosed(args: string, ret: string)
    requires ')' !in args
    requires ret == [] || (!IsSpace(ret[0]) && !IsSpace(ret[|ret| - 1]))
    ensures FnRest("(" + args + ")" + (ArrowText(ret) + " { }")) == None
  {
    var tail := ArrowText(ret) + " { }";
    var d := args + ")" + tail;
    assert "(" + args + ")" + tail == [] + "(" + d;
    LeadPadded([], "(", d);
    assert d[|args|] == ')' && d[0..|args|] == args;
    IndexOfFirst(d, ')', 0, |args|);
    assert d[|args| + 1..] == tail;
    RetTextClosed(ret);
  }

  /**
   * A method whose empty body sits on the header line (`fn f(&self) -> T { }`)
   * is not matched: the pattern wants the `{` to end the line.
   */
  lemma SameLineBodyIgnored(indent: string, pub: bool, h: FnHeader)
    requires AllSpace(indent) && GoodHeader(h)
    ensures MatchFn(HeaderLine(indent, pub, h) + " }") == None
  {
    var rest := "(" + h.args + ")" + (ArrowText(h.ret) + " { }");
    var x := h.name + rest;
    var line := indent + (if pub then "pub fn " else "fn ") + x;
    ClosedSpelling(indent, pub, h);
    assert x[0] == h.name[0];
    WordCharNotSpace(h.name[0]);
    StartOfHeader(indent, pub, x);
    WordRunOf(h.name, rest);
    assert x[|h.name|..] == rest;
    FnRestClosed(h.args, h.ret);
    MatchFnOf(line, x, |h.name|);
  }

  lemma ClosedSpelling(indent: string, pub: bool, h: FnHeader)
    ensures HeaderLine(indent, pub, h) + " }"
      == indent + (if pub then "pub fn " else "fn ") + (h.name + ("(" + h.args + ")" + (ArrowText(h.ret) + " { }")))
  {
    assert " {" + " }" == " { }";
  }


  /** `Lead` returns a tail of its input and consumed `lit` from it. */
  lemma LeadChars(s: string, lit: string)
    requires Lead(s, lit).Some?
    ensures forall c :: c in Lead(s, lit).value ==> c in s
    ensures forall c :: c in lit ==> c in s
  {
    LeadParts(s, lit);
  }

  /** Only a line with a `#` can be an attribute. */
  lemma AttrHash(line: string, word: string)
    ensures Attr(line, word) ==> '#' in line
  {
    if Attr(line, word) {
      LeadChars(line, "#[");
    }
  }

  /** Only a line with a `#` can be a feature gate. */
  lemma CfgHash(line: string)
    ensures CfgFeature(line).Some? ==> '#' in line
  {
    if CfgFeature(line).Some? {
      assert Lead(line, "#[").Some?;
      LeadChars(line, "#[");
    }
  }

  /** Only a line with a `{` can open `impl Engine`. */
  lemma ImplBrace(line: string)
    ensures IsImplEngine(line) ==> '{' in line
  {
    if IsImplEngine(line) {
      ImplBraceIn(line);
    }
  }

  lemma ImplBraceIn(line: string)
    requires IsImplEngine(line)
    ensures '{' in line
  {
    var a := Lead(line, "impl").value;
    var b := Lead(a, "Engine").value;
    LeadChars(line, "impl");
    LeadChars(a, "Engine");
    TrimChars(b);
  }

  lemma RetTextBrace(tail: string)
    requires RetText(tail).Some?
    ensures '{' in tail
  {
    var r1 := TrimLeft(tail);
    TrimLeftChars(tail);
    if StartsWith(r1, "->") {
      var x := r1[2..];
      var y := TrimLeft(x);
      TrimLeftChars(x);
      TrimRightChars(y);
      var t := TrimRight(y);
      assert t[|t| - 1] in t;
    } else {
      TrimRightChars(r1);
      assert '{' in TrimRight(r1);
    }
  }

  /** Only a line with a `{` can be a `fn` header. */
  lemma FnBrace(line: string)
    ensures MatchFn(line).Some? ==> '{' in line
  {
    if MatchFn(line).Some? {
      FnBraceIn(line);
    }
  }

  lemma FnBraceIn(line: string)
    requires MatchFn(line).Some?
    ensures '{' in line
  {
    var c := FnStart(line).value;
    var a := match Lead(line, "pub")
      case Some(p) => if p != [] && IsSpace(p[0]) then p else line
      case None => line;
    if Lead(line, "pub").Some? {
      LeadChars(line, "pub");
    }
    assert forall ch :: ch in a ==> ch in line;
    var b := Lead(a, "fn").value;
    LeadChars(a, "fn");
    TrimLeftChars(b);
    var n := WordRun(c);
    var s := c[n..];
    assert forall ch :: ch in s ==> ch in c;
    var d := Lead(s, "(").value;
    LeadChars(s, "(");
    var k := IndexOf(d, ')', 0).value;
    RetTextBrace(d[k + 1..]);
    assert forall ch :: ch in d[k + 1..] ==> ch in d;
  }

  /** `Lead` fails when the first non-space character is not the start of `lit`. */
  lemma LeadMiss(w: string, x: string, lit: string)
    requires AllSpace(w) && x != [] && !IsSpace(x[0]) && lit != [] && x[0] != lit[0]
    ensures Lead(w + x, lit) == None
  {
    TrimLeftPadded(w, x);
  }

  /** An attribute line names one attribute: it is not one whose name starts differently. */
  lemma AttrLineOther(indent: string, word: string, other: string)
    requires AllSpace(indent) && word != [] && !IsSpace(word[0])
    requires other != [] && other[0] != word[0]
    ensures !Attr(AttrLine(indent, word), other)
  {
    assert AttrLine(indent, word) == indent + "#[" + (word + "]");
    LeadPadded(indent, "#[", word + "]");
    assert word + "]" == [] + (word + "]");
    LeadMiss([], word + "]", other);
  }

  /** An attribute line other than `cfg` is not a feature gate. */
  lemma AttrLineNotCfg(indent: string, word: string)
    requires AllSpace(indent) && word != [] && !IsSpace(word[0]) && word[0] != 'c'
    ensures CfgFeature(AttrLine(indent, word)) == None
  {
    assert AttrLine(indent, word) == indent + "#[" + (word + "]");
    LeadPadded(indent, "#[", word + "]");
    assert word + "]" == [] + (word + "]");
    LeadMiss([], word + "]", "cfg");
    assert CfgTokens()[0] == "#[" && CfgTokens()[1..][0] == "cfg";
  }

  /** A `fn` header does not open `impl Engine`. */
  lemma HeaderNotImpl(indent: string, pub: bool, h: FnHeader)
    requires AllSpace(indent)
    ensures !IsImplEngine(HeaderLine(indent, pub, h))
  {
    var x := (if pub then "pub fn " else "fn ") + h.name + ("(" + h.args + ")" + (ArrowText(h.ret) + " {"));
    assert HeaderLine(indent, pub, h) == indent + x;
    assert x[0] == 'p' || x[0] == 'f';
    LeadMiss(indent, x, "impl");
  }
}
