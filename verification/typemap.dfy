/**
 * The Rust-to-Python type translation used when stub files are generated
 * from `lib.rs` (`_map_type` in celine_regorus_builder/stubgen_rust.py).
 *
 * The source uses regular expressions; each one is written out here as a
 * recogniser with the same leftmost, greedy/backtracking outcome.  The
 * captures `([^>]+)` stop at the FIRST `>`, so a nested generic such as
 * `Option<Vec<String>>` sees the inner text `Vec<String` and degrades to
 * `Any`: the model keeps that behaviour.
 */
module TypeMap {

  import opened Wrappers
  import opened Strings

  /** The plain Python type names a Rust type can map to. */
  const Atoms: set<string> := {"None", "Engine", "str", "bool", "int", "float", "Any"}

  /** `T | None` for an atom `T`. */
  predicate IsOptional(r: string) {
    |r| >= 7 && r[|r| - 7..] == " | None" && r[..|r| - 7] in Atoms
  }

  /** `list[T]` for an atom `T`. */
  predicate IsList(r: string) {
    |r| >= 6 && r[..5] == "list[" && r[|r| - 1] == ']' && r[5..|r| - 1] in Atoms
  }

  const IntTypes: set<string> := {"usize", "u64", "u32", "i64", "i32", "isize"}
  const FloatTypes: set<string> := {"f64", "f32"}
  const StrTypes: set<string> := {"String", "&str"}

  /** `s.rstrip(";")`. */
  function StripSemicolons(s: string): (r: string)
    ensures |r| <= |s| && r == s[..|r|]
    ensures forall i :: |r| <= i < |s| ==> s[i] == ';'
    ensures r == [] || r[|r| - 1] != ';'
  {
    if s != [] && s[|s| - 1] == ';' then StripSemicolons(s[..|s| - 1]) else s
  }

  /**
   * The length of a match of `<\s*'[^>]*\s*>` at the start of `s`: a `<`,
   * optional whitespace, a quote, then everything up to the first `>`.
   */
  function LifetimeAt(s: string): (n: Option<nat>)
    ensures n.Some? ==> 0 < n.value <= |s| && s[0] == '<' && s[n.value - 1] == '>'
  {
    if s == [] || s[0] != '<' then None
    else
      var rest := TrimLeft(s[1..]);
      var k := |s| - |rest|;
      if rest == [] || rest[0] != '\'' then None
      else match IndexOf(s, '>', k + 1)
        case None => None
        case Some(j) => Some(j + 1)
  }

  /** `re.sub(r"<\s*'[^>]*\s*>", "", s)`: remove every lifetime group, left to right. */
  function StripLifetimes(s: string): (r: string)
    ensures |r| <= |s|
    ensures forall c :: c in r ==> c in s
    decreases |s|
  {
    if s == [] then []
    else match LifetimeAt(s)
      case Some(n) =>
        var r := StripLifetimes(s[n..]);
        assert forall c :: c in s[n..] ==> c in s;
        r
      case None =>
        var r := StripLifetimes(s[1..]);
        assert forall c :: c in s[1..] ==> c in s;
        [s[0]] + r
  }

  /**
   * The group captured by `re.match(head + r"\s*([^>]+)\s*>", t)`, where
   * `head` is a constructor name and its `<`: the text between `head` and
   * the first `>`, with its leading whitespace consumed by `\s*` (when that
   * text is all whitespace, backtracking leaves its last character to the
   * group).
   */
  function GenericArg(t: string, head: string): (g: Option<string>)
    ensures g.Some? ==> g.value != [] && '>' !in g.value && |g.value| + |head| + 1 <= |t|
    ensures g.Some? ==> StartsWith(t, head) && '>' in t
  {
    if !StartsWith(t, head) then None
    else match IndexOf(t, '>', |head|)
      case None => None
      case Some(j) =>
        var inner := t[|head|..j];
        if inner == [] then None
        else
          var lead := TrimLeft(inner);
          TrimLeftSuffix(inner);
          var g := if lead != [] then lead else inner[|inner| - 1..];
          assert forall c :: c in g ==> c in inner;
          Some(g)
  }

  /**
   * The first half of `_map_type`: trim, drop trailing `;`, strip again,
   * remove lifetime groups, then unwrap `Result<T>` and `PyResult<T>`.
   */
  function Unwrap(rt: string): (t: string)
    ensures |t| <= |rt|
    ensures '>' !in rt ==> '>' !in t
  {
    TrimChars(rt);
    Peel(Trim(rt))
  }

  /** `Unwrap` after the first `strip()`. */
  function Peel(s: string): (t: string)
    ensures |t| <= |s|
    ensures '>' !in s ==> '>' !in t
  {
    var t0 := Trim(StripSemicolons(s));
    assert forall c :: c in StripSemicolons(s) ==> c in s;
    TrimChars(StripSemicolons(s));
    var t1 := StripLifetimes(t0);
    var t2 := match GenericArg(t1, "Result<") case Some(g) => (TrimChars(g); Trim(g)) case None => t1;
    match GenericArg(t2, "PyResult<") case Some(g) => (TrimChars(g); Trim(g)) case None => t2
  }

  /** The primitive table of `_map_type`, reached when no generic matched. */
  function MapPrimitive(t: string): (r: string)
    ensures r in Atoms
  {
    if t in StrTypes then "str"
    else if t == "bool" then "bool"
    else if t in IntTypes then "int"
    else if t in FloatTypes then "float"
    // Python interop names (PyAny, Bound, ...) and everything else.
    else "Any"
  }

  lemma AtomShapes(a: string)
    requires a in Atoms
    ensures IsOptional(a + " | None") && IsList("list[" + a + "]")
  {
    var o := a + " | None";
    assert o[..|o| - 7] == a && o[|o| - 7..] == " | None";
    var l := "list[" + a + "]";
    assert l[..5] == "list[" && l[5..|l| - 1] == a;
  }

  /**
   * `_map_type`: every input maps to an atom, to `T | None` or to `list[T]`
   * with `T` an atom (generics never nest in the output), and an input
   * without any `>` always maps to an atom.
   */
  function MapType(rt: string): (r: string)
    ensures r in Atoms || IsOptional(r) || IsList(r)
    ensures '>' !in rt ==> r in Atoms
    decreases |rt|, 1
  {
    Classify(Unwrap(rt))
  }

  /** The second half of `_map_type`, applied to the unwrapped type text. */
  function Classify(t: string): (r: string)
    ensures r in Atoms || IsOptional(r) || IsList(r)
    ensures '>' !in t ==> r in Atoms
    decreases |t|, 0
  {
    if t == "()" || t == "" then "None"
    else if t == "Self" then "Engine"
    else match GenericArg(t, "Option<")
      case Some(g) =>
        var inner := MapType(g);
        AtomShapes(inner);
        inner + " | None"
      case None =>
        match GenericArg(t, "Vec<")
        case Some(g) =>
          var inner := MapType(g);
          AtomShapes(inner);
          "list[" + inner + "]"
        case None => MapPrimitive(t)
  }

  /** Text without a `>` contains no lifetime group, so `re.sub` leaves it alone. */
  lemma {:induction false} StripLifetimesNoClose(s: string)
    requires '>' !in s
    ensures StripLifetimes(s) == s
  {
    if s != [] {
      assert '>' !in s[1..];
      StripLifetimesNoClose(s[1..]);
    }
  }

  /** Text without a quote contains no lifetime group either. */
  lemma {:induction false} StripLifetimesNoQuote(s: string)
    requires '\'' !in s
    ensures StripLifetimes(s) == s
  {
    if s != [] {
      if s[0] == '<' {
        var rest := TrimLeft(s[1..]);
        TrimLeftSuffix(s[1..]);
        assert rest == s[|s| - |rest|..];
        assert rest != [] ==> rest[0] in s;
      }
      assert '\'' !in s[1..];
      StripLifetimesNoQuote(s[1..]);
    }
  }

  /** `_map_type` looks at its argument only after `strip()`. */
  lemma MapTypeTrim(a: string, b: string)
    requires Trim(a) == Trim(b)
    ensures MapType(a) == MapType(b)
  {
  }

  /** A trimmed type name without `>` or trailing `;` passes the unwrapping stage unchanged. */
  lemma UnwrapPlain(t: string)
    requires t == [] || (!IsSpace(t[0]) && !IsSpace(t[|t| - 1]) && t[|t| - 1] != ';')
    requires '>' !in t
    ensures Unwrap(t) == t
  {
    TrimNoop(t);
    assert StripSemicolons(t) == t;
    StripLifetimesNoClose(t);
  }

  /** A string cannot start with a prefix whose last character it lacks. */
  lemma NoPrefixEndingIn(t: string, head: string, c: char)
    requires head != [] && head[|head| - 1] == c && c !in t
    ensures !StartsWith(t, head)
  {
    if |head| <= |t| {
      assert t[..|head|][|head| - 1] == t[|head| - 1];
    }
  }

  /** Without a `<` no generic pattern can match: only the fixed names are looked up. */
  lemma ClassifyPlain(t: string)
    requires '<' !in t
    ensures Classify(t) == (if t == "()" || t == "" then "None" else if t == "Self" then "Engine" else MapPrimitive(t))
  {
    NoPrefixEndingIn(t, "Option<", '<');
    NoPrefixEndingIn(t, "Vec<", '<');
  }

  /** A bare name (no generics, no padding, no `;`) is classified as it stands. */
  lemma MapPlain(t: string)
    requires t == [] || (!IsSpace(t[0]) && !IsSpace(t[|t| - 1]) && t[|t| - 1] != ';')
    requires '>' !in t && '<' !in t
    ensures MapType(t) == (if t == "()" || t == "" then "None" else if t == "Self" then "Engine" else MapPrimitive(t))
  {
    UnwrapPlain(t);
    ClassifyPlain(t);
  }

  /** The primitive names are bare, distinct from the special names, and in one group each. */
  lemma PrimitiveNames(t: string)
    requires t in StrTypes || t in IntTypes || t in FloatTypes || t == "bool"
    ensures t != [] && !IsSpace(t[0]) && !IsSpace(t[|t| - 1]) && t[|t| - 1] != ';'
    ensures '>' !in t && '<' !in t
    ensures t != "()" && t != "Self"
    ensures t in StrTypes ==> t != "bool" && t !in IntTypes && t !in FloatTypes
    ensures t == "bool" ==> t !in StrTypes && t !in IntTypes && t !in FloatTypes
    ensures t in IntTypes ==> t !in StrTypes && t != "bool" && t !in FloatTypes
    ensures t in FloatTypes ==> t !in StrTypes && t != "bool" && t !in IntTypes
  {
  }

  /** The primitive rows of the translation table. */
  lemma PrimitiveTable(t: string)
    requires t in StrTypes || t in IntTypes || t in FloatTypes || t == "bool"
    ensures t in StrTypes ==> MapType(t) == "str"
    ensures t == "bool" ==> MapType(t) == "bool"
    ensures t in IntTypes ==> MapType(t) == "int"
    ensures t in FloatTypes ==> MapType(t) == "float"
  {
    PrimitiveNames(t);
    MapPlain(t);
  }

  /** `()` and the empty type map to `None`, `Self` to the engine class. */
  lemma SpecialTable(t: string)
    requires t == "()" || t == "" || t == "Self"
    ensures MapType(t) == (if t == "Self" then "Engine" else "None")
  {
    MapPlain(t);
  }

  /** The first `>` of `head + x + ">"` after `head` closes `x`. */
  lemma FirstCloseAfter(head: string, x: string)
    requires '>' !in x
    ensures IndexOf(head + x + ">", '>', |head|) == Some(|head| + |x|)
    ensures (head + x + ">")[|head|..|head| + |x|] == x
    ensures StartsWith(head + x + ">", head)
  {
    var t := head + x + ">";
    assert t[..|head|] == head;
    assert t[|head|..|head| + |x|] == x;
    IndexOfFirst(t, '>', |head|, |head| + |x|);
  }

  /** What `\s*([^>]+)` captures from a non-empty `x` strips to the same text as `x`. */
  lemma CaptureTrim(x: string)
    requires x != []
    ensures var lead := TrimLeft(x);
      Trim(if lead != [] then lead else x[|x| - 1..]) == Trim(x)
  {
    var lead := TrimLeft(x);
    AllSpaceTrim(x);
    if lead != [] {
      TrimAfterTrimLeft(x);
    } else {
      AllSpaceTrim(x[|x| - 1..]);
    }
  }

  /** The capture of `head x >` when `x` holds no `>`: it has the same stripped form as `x`. */
  lemma GenericArgOf(head: string, x: string)
    requires x != [] && '>' !in x
    ensures GenericArg(head + x + ">", head).Some?
    ensures Trim(GenericArg(head + x + ">", head).value) == Trim(x)
  {
    FirstCloseAfter(head, x);
    CaptureTrim(x);
  }

  /** A generic type spelled without padding or quotes passes unwrapping unchanged. */
  lemma UnwrapGeneric(t: string)
    requires t != [] && !IsSpace(t[0]) && t[|t| - 1] == '>' && '\'' !in t
    requires !StartsWith(t, "Result<") && !StartsWith(t, "PyResult<")
    ensures Unwrap(t) == t
  {
    TrimNoop(t);
    assert StripSemicolons(t) == t;
    StripLifetimesNoQuote(t);
  }

  /** Facts about `head x >` for the two collection constructors. */
  lemma CollectionShape(head: string, x: string)
    requires head == "Option<" || head == "Vec<"
    ensures var t := head + x + ">";
      t != [] && !IsSpace(t[0]) && t[|t| - 1] == '>'
      && !StartsWith(t, "Result<") && !StartsWith(t, "PyResult<")
      && t != "()" && t != "" && t != "Self"
      && (head == "Vec<" ==> !StartsWith(t, "Option<"))
  {
    var t := head + x + ">";
    assert t[0] == head[0];
  }

  /** `Option<T>` maps to `map(T) | None` when `T` is a flat type. */
  lemma OptionRow(x: string)
    requires x != [] && '>' !in x && '\'' !in x
    ensures MapType("Option<" + x + ">") == MapType(x) + " | None"
  {
    var t := "Option<" + x + ">";
    assert '\'' !in t;
    CollectionShape("Option<", x);
    UnwrapGeneric(t);
    GenericArgOf("Option<", x);
    MapTypeTrim(GenericArg(t, "Option<").value, x);
  }

  /** `Vec<T>` maps to `list[map(T)]` when `T` is a flat type. */
  lemma VecRow(x: string)
    requires x != [] && '>' !in x && '\'' !in x
    ensures MapType("Vec<" + x + ">") == "list[" + MapType(x) + "]"
  {
    var t := "Vec<" + x + ">";
    assert '\'' !in t;
    CollectionShape("Vec<", x);
    UnwrapGeneric(t);
    GenericArgOf("Vec<", x);
    MapTypeTrim(GenericArg(t, "Vec<").value, x);
  }

  /** A bare type text: non-empty, no padding, no trailing `;`, no `>` and no lifetime quote. */
  predicate Bare(x: string) {
    x != [] && !IsSpace(x[0]) && !IsSpace(x[|x| - 1]) && x[|x| - 1] != ';' && '>' !in x && '\'' !in x
  }

  /** A bare text is a fixed point of the unwrapping stage. */
  lemma UnwrapBare(x: string)
    requires Bare(x)
    ensures Peel(x) == x && Unwrap(x) == x
  {
    TrimNoop(x);
    assert StripSemicolons(x) == x;
    StripLifetimesNoQuote(x);
  }

  /** `Result<T>` and `PyResult<T>` are unwrapped to `T` before classification. */
  lemma ResultRow(x: string)
    requires Bare(x)
    ensures MapType("Result<" + x + ">") == MapType(x)
    ensures MapType("PyResult<" + x + ">") == MapType(x)
  {
    UnwrapBare(x);
    ResultUnwrap(x);
    PyResultUnwrap(x);
  }

  /** A padded-free, quote-free text ending in `>` is left alone by the clean-up steps of `Peel`. */
  lemma CleanGeneric(t: string)
    requires t != [] && !IsSpace(t[0]) && t[|t| - 1] == '>' && '\'' !in t
    ensures Trim(t) == t && Trim(StripSemicolons(t)) == t && StripLifetimes(Trim(StripSemicolons(t))) == t
  {
    assert !IsSpace(t[|t| - 1]);
    TrimNoop(t);
    assert StripSemicolons(t) == t;
    StripLifetimesNoQuote(t);
  }

  /** Facts about `head x >` for the two result constructors. */
  lemma ResultShape(head: string, x: string)
    requires head == "Result<" || head == "PyResult<"
    requires '\'' !in x
    ensures var t := head + x + ">";
      t != [] && !IsSpace(t[0]) && t[|t| - 1] == '>' && '\'' !in t
      && (head == "PyResult<" ==> !StartsWith(t, "Result<"))
  {
    var t := head + x + ">";
    assert t[0] == head[0];
  }

  lemma ResultUnwrap(x: string)
    requires Bare(x)
    ensures Unwrap("Result<" + x + ">") == x
  {
    var t := "Result<" + x + ">";
    ResultShape("Result<", x);
    CleanGeneric(t);
    GenericArgOf("Result<", x);
    TrimNoop(x);
    assert Trim(GenericArg(t, "Result<").value) == x;
  }

  lemma PyResultUnwrap(x: string)
    requires Bare(x)
    ensures Unwrap("PyResult<" + x + ">") == x
  {
    var t := "PyResult<" + x + ">";
    ResultShape("PyResult<", x);
    CleanGeneric(t);
    GenericArgOf("PyResult<", x);
    TrimNoop(x);
  }

  /** The first `>` of `head + x + ">" + tail` after `head` closes `x`. */
  lemma FirstCloseBefore(head: string, x: string, tail: string)
    requires '>' !in x
    ensures IndexOf(head + x + ">" + tail, '>', |head|) == Some(|head| + |x|)
    ensures (head + x + ">" + tail)[|head|..|head| + |x|] == x
    ensures StartsWith(head + x + ">" + tail, head)
  {
    var t := head + x + ">" + tail;
    assert t[..|head|] == head;
    assert t[|head|..|head| + |x|] == x;
    IndexOfFirst(t, '>', |head|, |head| + |x|);
  }

  /** No primitive name contains a `<`. */
  lemma PrimitiveNoAngle(t: string)
    ensures t in StrTypes || t in IntTypes || t in FloatTypes || t == "bool" ==> '<' !in t
  {
  }

  /** None of the names with a fixed mapping contains a `<`. */
  lemma SpecialNoAngle(t: string)
    ensures t == "()" || t == "" || t == "Self" ==> '<' !in t
  {
  }

  /** Unwrapped text with a `<` but no `>` matches no pattern and maps to `Any`. */
  lemma ClassifyUnknown(t: string)
    requires '<' in t && '>' !in t
    ensures Classify(t) == "Any"
  {
    SpecialNoAngle(t);
    PrimitiveNoAngle(t);
  }

  /** `"Vec<" + x` is bare when `x` is. */
  lemma BareOpenVec(x: string)
    requires Bare(x)
    ensures Bare("Vec<" + x) && '<' in "Vec<" + x
  {
    var t := "Vec<" + x;
    assert t[0] == 'V' && t[|t| - 1] == x[|x| - 1] && t[3] == '<';
  }

  /**
   * `Vec<T` without its closing `>` (what the capture of an enclosing
   * generic leaves over) is an unknown type and maps to `Any`.
   */
  lemma UnclosedVec(x: string)
    requires Bare(x)
    ensures MapType("Vec<" + x) == "Any"
  {
    var t := "Vec<" + x;
    BareOpenVec(x);
    UnwrapBare(t);
    ClassifyUnknown(t);
  }

  /** The capture of `head z >>` is `z` itself when `z` has no `>` and no leading space. */
  lemma CaptureUnclosed(head: string, z: string)
    requires z != [] && !IsSpace(z[0]) && '>' !in z
    ensures GenericArg(head + z + ">>", head) == Some(z)
  {
    FirstCloseBefore(head, z, ">");
    assert head + z + ">>" == head + z + ">" + ">";
  }

  /** `Classify` on an `Option<...>` match. */
  lemma ClassifyOption(t: string, g: string)
    requires t != "()" && t != "" && t != "Self"
    requires GenericArg(t, "Option<") == Some(g)
    ensures Classify(t) == MapType(g) + " | None"
  {
  }

  lemma AnyOrNone()
    ensures "Any" + " | None" == "Any | None"
  {
  }

  /** `Option<Vec<T>>` degrades to `Any | None`: the capture stops at the first `>`. */
  lemma NestedOptionVec(x: string)
    requires Bare(x)
    ensures MapType("Option<" + ("Vec<" + x) + ">>") == "Any | None"
  {
    var z := "Vec<" + x;
    var y := z + ">";
    var t := "Option<" + y + ">";
    assert t == "Option<" + z + ">>";
    BareOpenVec(x);
    assert '\'' !in y;
    CollectionShape("Option<", y);
    UnwrapGeneric(t);
    CaptureUnclosed("Option<", z);
    ClassifyOption(t, z);
    UnclosedVec(x);
    AnyOrNone();
  }

  /** The unwrapping stage on clean text that only `PyResult<...>` matches. */
  lemma UnwrapPyResult(t: string, g: string)
    requires Trim(t) == t && Trim(StripSemicolons(t)) == t && StripLifetimes(t) == t
    requires GenericArg(t, "Result<").None? && GenericArg(t, "PyResult<") == Some(g)
    ensures Unwrap(t) == Trim(g)
  {
  }

  /** `PyResult<Vec<T>>` degrades to `Any` for the same reason. */
  lemma NestedPyResultVec(x: string)
    requires Bare(x)
    ensures MapType("PyResult<" + ("Vec<" + x) + ">>") == "Any"
  {
    var z := "Vec<" + x;
    var y := z + ">";
    var t := "PyResult<" + y + ">";
    assert t == "PyResult<" + z + ">>";
    BareOpenVec(x);
    assert '\'' !in y;
    ResultShape("PyResult<", y);
    CleanGeneric(t);
    assert GenericArg(t, "Result<").None?;
    CaptureUnclosed("PyResult<", z);
    TrimNoop(z);
    UnwrapPyResult(t, z);
    ClassifyUnknown(z);
    assert MapType(t) == "Any";
  }
}
