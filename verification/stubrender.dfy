/**
 * The `.pyi` text the stub generator writes for the `Engine` class: a fixed
 * preamble, then one `def` line per method (a comment line before each
 * method gated on a Cargo feature), or `...` for an empty class, each line
 * ended by a newline.
 */
module StubRender {

  import opened Strings
  import opened Patterns
  import opened Scanner
  import opened StubOrder
  import ArgSplit

  /** The module header and the opening of `class Engine`. */
  const Preamble: seq<string> := [
    "from __future__ import annotations",
    "from typing import Any",
    "",
    "__all__ = ['Engine']",
    "",
    "class Engine:",
    "    \"\"\"Regorus engine.\"\"\"",
    ""
  ]

  /** The body of a class with no methods. */
  const Ellipsis: string := "    ..."

  const NotePrefix: string := "    # "
  const DefPrefix: string := "    def "

  /** The stub line of a constructor: it takes no parameters. */
  const InitDef: string := DefPrefix + "__init__(self) -> None: ..."

  /** Python's `if feat:`: a gate that is present and not empty. */
  predicate Gated(m: Method) {
    m.feature.Some? && m.feature.value != ""
  }

  function Note(feature: string): string {
    NotePrefix + "Only present if compiled with Rust feature \"" + feature + "\""
  }

  function ParamText(p: ArgSplit.Param): string {
    p.name + ": " + p.typ
  }

  /** `["self"] + [f"{n}: {t}" for n, t in args]`. */
  function ParamTexts(ps: seq<ArgSplit.Param>): (r: seq<string>)
    ensures |r| == |ps| + 1 && r[0] == "self"
    ensures forall i :: 0 <= i < |ps| ==> r[i + 1] == ParamText(ps[i])
  {
    ["self"] + seq(|ps|, i requires 0 <= i < |ps| => ParamText(ps[i]))
  }

  function DefLine(m: Method): string {
    if m.name == "__init__" then InitDef
    else DefPrefix + m.name + "(" + Join(ParamTexts(m.params), ", ") + ") -> " + m.ret + ": ..."
  }

  /** The lines of one method: its gate comment, if any, then its `def`. */
  function MethodLines(m: Method): seq<string> {
    (if Gated(m) then [Note(m.feature.value)] else []) + [DefLine(m)]
  }

  function MethodsLines(ms: seq<Method>): seq<string> {
    if ms == [] then [] else MethodLines(ms[0]) + MethodsLines(ms[1..])
  }

  /** The class body. */
  function BodyLines(ms: seq<Method>): seq<string> {
    if ms == [] then [Ellipsis] else MethodsLines(ms)
  }

  /** The lines of the stub; the last, empty one makes the text end with a newline. */
  function StubLines(ms: seq<Method>): seq<string> {
    Preamble + BodyLines(ms) + [""]
  }

  /**
   * `"\n".join(out)` (the UTF-8 encoding is left out): the preamble and body
   * lines, each ended by a newline, which `splitlines()` gives back when no
   * line holds a break of its own.
   */
  function Render(ms: seq<Method>): (r: string)
    ensures r == JoinLines(Preamble + BodyLines(ms))
    ensures (forall k :: 0 <= k < |BodyLines(ms)| ==> NoBreak(BodyLines(ms)[k])) ==>
      SplitLines(r) == Preamble + BodyLines(ms)
  {
    JoinTrailing(Preamble + BodyLines(ms));
    PreambleNoBreak(BodyLines(ms));
    Join(StubLines(ms), "\n")
  }

  /** A line of printable ASCII holds no line break. */
  lemma PrintableNoBreak(line: string)
    requires forall j :: 0 <= j < |line| ==> ' ' <= line[j] <= '~'
    ensures NoBreak(line)
  {
  }

  /** No preamble line holds a line break. */
  lemma PreambleLinesNoBreak()
    ensures forall k :: 0 <= k < |Preamble| ==> NoBreak(Preamble[k])
  {
    forall k | 0 <= k < |Preamble|
      ensures NoBreak(Preamble[k])
    {
      PrintableNoBreak(Preamble[k]);
    }
  }

  /** The preamble followed by lines without breaks comes back from `splitlines()`. */
  lemma PreambleNoBreak(body: seq<string>)
    ensures (forall k :: 0 <= k < |body| ==> NoBreak(body[k])) ==>
      SplitLines(JoinLines(Preamble + body)) == Preamble + body
  {
    if forall k :: 0 <= k < |body| ==> NoBreak(body[k]) {
      var lines := Preamble + body;
      PreambleLinesNoBreak();
      forall k | 0 <= k < |lines|
        ensures NoBreak(lines[k])
      {
        if k < |Preamble| {
          assert lines[k] == Preamble[k];
        } else {
          assert lines[k] == body[k - |Preamble|];
        }
      }
      SplitJoinLines(lines);
    }
  }

  /**
   * The whole generator: read the lines of `lib.rs`, extract, drop repeats,
   * sort, render. The `def` lines of the stub are those of the extracted
   * methods, each exactly once, `__init__` first and the rest by name.
   */
  function Generate(text: string): (r: string)
    ensures var ms := Tidy(Extract(SplitLines(text)));
      && r == JoinLines(Preamble + BodyLines(ms))
      && Starting(BodyLines(ms), DefPrefix) == Defs(ms)
      && (forall m :: m in ms <==> m in Extract(SplitLines(text)))
      && NoDup(ms) && Sorted(ms)
  {
    BodyDefs(Tidy(Extract(SplitLines(text))));
    Render(Tidy(Extract(SplitLines(text))))
  }

  /** Joining with a final empty part is ending every part with the separator. */
  lemma {:induction false} JoinTrailing(lines: seq<string>)
    ensures Join(lines + [""], "\n") == JoinLines(lines)
  {
    if lines != [] {
      assert (lines + [""])[1..] == lines[1..] + [""];
      JoinTrailing(lines[1..]);
    }
  }

  /** The number of gated methods. */
  function GateCount(ms: seq<Method>): (n: nat)
    ensures n <= |ms|
  {
    if ms == [] then 0 else (if Gated(ms[0]) then 1 else 0) + GateCount(ms[1..])
  }

  lemma {:induction false} MethodsLinesCount(ms: seq<Method>)
    ensures |MethodsLines(ms)| == |ms| + GateCount(ms)
  {
    if ms != [] {
      MethodsLinesCount(ms[1..]);
    }
  }

  /** The stub has the preamble, one line per method and one per gate (or `...`), and the final empty line. */
  lemma StubLinesCount(ms: seq<Method>)
    ensures |StubLines(ms)| == |Preamble| + (if ms == [] then 1 else |ms| + GateCount(ms)) + 1
  {
    MethodsLinesCount(ms);
  }

  /** The lines that start with `prefix`, in order. */
  function Starting(lines: seq<string>, prefix: string): (r: seq<string>)
    ensures |r| <= |lines|
  {
    if lines == [] then []
    else (if StartsWith(lines[0], prefix) then [lines[0]] else []) + Starting(lines[1..], prefix)
  }

  lemma {:induction false} StartingAppend(a: seq<string>, b: seq<string>, prefix: string)
    ensures Starting(a + b, prefix) == Starting(a, prefix) + Starting(b, prefix)
  {
    if a == [] {
      assert a + b == b;
    } else {
      var head := if StartsWith(a[0], prefix) then [a[0]] else [];
      var ab := a + b;
      assert ab[0] == a[0] && ab[1..] == a[1..] + b;
      assert Starting(ab, prefix) == head + Starting(a[1..] + b, prefix);
      StartingAppend(a[1..], b, prefix);
      assert Starting(a, prefix) == head + Starting(a[1..], prefix);
    }
  }

  lemma PrefixedStarts(prefix: string, rest: string)
    ensures StartsWith(prefix + rest, prefix)
  {
    assert (prefix + rest)[..|prefix|] == prefix;
  }

  /** Neither prefix starts with the other: they differ at their fifth character. */
  lemma PrefixesDiffer(x: string, y: string)
    ensures !StartsWith(DefPrefix + x, NotePrefix)
    ensures !StartsWith(NotePrefix + y, DefPrefix)
  {
    assert (DefPrefix + x)[4] == 'd' && NotePrefix[4] == '#';
    assert (NotePrefix + y)[4] == '#' && DefPrefix[4] == 'd';
  }

  lemma DefLineStarts(m: Method)
    ensures StartsWith(DefLine(m), DefPrefix) && !StartsWith(DefLine(m), NotePrefix)
  {
    var rest := if m.name == "__init__" then "__init__(self) -> None: ..."
      else m.name + "(" + Join(ParamTexts(m.params), ", ") + ") -> " + m.ret + ": ...";
    assert DefLine(m) == DefPrefix + rest;
    PrefixedStarts(DefPrefix, rest);
    PrefixesDiffer(rest, "");
  }

  lemma NoteStarts(f: string)
    ensures StartsWith(Note(f), NotePrefix) && !StartsWith(Note(f), DefPrefix)
  {
    var rest := "Only present if compiled with Rust feature \"" + f + "\"";
    assert Note(f) == NotePrefix + rest;
    PrefixedStarts(NotePrefix, rest);
    PrefixesDiffer("", rest);
  }

  /** The `def` lines of the methods, in order. */
  function Defs(ms: seq<Method>): (r: seq<string>)
    ensures |r| == |ms|
    ensures forall i :: 0 <= i < |ms| ==> r[i] == DefLine(ms[i])
  {
    if ms == [] then [] else [DefLine(ms[0])] + Defs(ms[1..])
  }

  /** The gate comments of the gated methods, in order. */
  function Notes(ms: seq<Method>): seq<string> {
    if ms == [] then []
    else (if Gated(ms[0]) then [Note(ms[0].feature.value)] else []) + Notes(ms[1..])
  }

  lemma MethodLinesDefs(m: Method)
    ensures Starting(MethodLines(m), DefPrefix) == [DefLine(m)]
  {
    DefLineStarts(m);
    if Gated(m) {
      NoteStarts(m.feature.value);
      assert MethodLines(m) == [Note(m.feature.value), DefLine(m)];
      assert MethodLines(m)[1..] == [DefLine(m)];
    } else {
      assert MethodLines(m) == [DefLine(m)];
    }
  }

  lemma MethodLinesNotes(m: Method)
    ensures Starting(MethodLines(m), NotePrefix) == (if Gated(m) then [Note(m.feature.value)] else [])
  {
    DefLineStarts(m);
    if Gated(m) {
      NoteStarts(m.feature.value);
      assert MethodLines(m) == [Note(m.feature.value), DefLine(m)];
      assert MethodLines(m)[1..] == [DefLine(m)];
    } else {
      assert MethodLines(m) == [DefLine(m)];
    }
  }

  /** The stub has one `def` line per method, in the methods' order. */
  lemma {:induction false} MethodsLinesDefs(ms: seq<Method>)
    ensures Starting(MethodsLines(ms), DefPrefix) == Defs(ms)
  {
    if ms != [] {
      var head := MethodLines(ms[0]);
      var tail := MethodsLines(ms[1..]);
      assert MethodsLines(ms) == head + tail;
      MethodsLinesDefs(ms[1..]);
      MethodLinesDefs(ms[0]);
      StartingAppend(head, tail, DefPrefix);
    }
  }

  /** The stub has one gate comment per gated method, in the methods' order. */
  lemma {:induction false} MethodsLinesNotes(ms: seq<Method>)
    ensures Starting(MethodsLines(ms), NotePrefix) == Notes(ms)
  {
    if ms != [] {
      MethodsLinesNotes(ms[1..]);
      MethodLinesNotes(ms[0]);
      StartingAppend(MethodLines(ms[0]), MethodsLines(ms[1..]), NotePrefix);
    }
  }

  /** The gate comment of a gated method comes right before its `def` line. */
  lemma {:induction false} NoteBeforeDef(ms: seq<Method>, i: nat)
    requires i < |ms| && Gated(ms[i])
    ensures exists k :: (0 <= k < |MethodsLines(ms)| - 1
      && MethodsLines(ms)[k] == Note(ms[i].feature.value)
      && MethodsLines(ms)[k + 1] == DefLine(ms[i]))
  {
    var head := MethodLines(ms[0]);
    assert MethodsLines(ms) == head + MethodsLines(ms[1..]);
    if i == 0 {
      assert MethodsLines(ms)[0] == Note(ms[0].feature.value);
      assert MethodsLines(ms)[1] == DefLine(ms[0]);
    } else {
      NoteBeforeDef(ms[1..], i - 1);
      var k :| 0 <= k < |MethodsLines(ms[1..])| - 1
        && MethodsLines(ms[1..])[k] == Note(ms[i].feature.value) && MethodsLines(ms[1..])[k + 1] == DefLine(ms[i]);
      assert MethodsLines(ms)[|head| + k] == Note(ms[i].feature.value);
      assert MethodsLines(ms)[|head| + k + 1] == DefLine(ms[i]);
    }
  }

  /** A `lib.rs` with no `#[pymethods]` line gives the stub of an empty class. */
  lemma GenerateNoPymethods(text: string)
    requires forall k :: 0 <= k < |SplitLines(text)| ==> !IsPymethods(SplitLines(text)[k])
    ensures Generate(text) == Render([])
  {
    ExtractNoPymethods(SplitLines(text));
  }

  /** The `def` lines of the class body are those of the methods, one each, in order; `...` is none. */
  lemma BodyDefs(ms: seq<Method>)
    ensures Starting(BodyLines(ms), DefPrefix) == Defs(ms)
  {
    if ms != [] {
      MethodsLinesDefs(ms);
    } else {
      assert Starting([Ellipsis], DefPrefix) == [] by {
        assert Ellipsis[4] == '.' && DefPrefix[4] == 'd';
      }
    }
  }
}
