/**
 * The parameter-list splitter of the stub generator (`_parse_args` in
 * celine_regorus_builder/stubgen_rust.py): the text between the parentheses
 * of a Rust `fn` header is cut at the commas that are not inside `<...>`,
 * the pieces are stripped, receiver and `py` parameters are dropped, and each
 * remaining `name: Type` becomes a name and a mapped Python type.
 *
 * The source does this with a character loop; it is modelled as a fold
 * (`Feed`) and related to a reference segmentation (`Segments`) that cuts
 * the text at its top-level commas.
 */
module ArgSplit {

  import opened Wrappers
  import opened Strings
  import TypeMap

  /** The `<>` nesting depth after reading `ch` at depth `d`; a stray `>` at depth 0 leaves it at 0. */
  function Step(d: nat, ch: char): nat {
    if ch == '<' then d + 1
    else if ch == '>' then (if d == 0 then 0 else d - 1)
    else d
  }

  /** The nesting depth after reading `s` from depth `d`. */
  function DepthAfter(d: nat, s: string): nat
    decreases |s|
  {
    if s == [] then d else DepthAfter(Step(d, s[0]), s[1..])
  }

  lemma {:induction false} DepthAfterAppend(d: nat, a: string, b: string)
    ensures DepthAfter(d, a + b) == DepthAfter(DepthAfter(d, a), b)
    decreases |a|
  {
    if a == [] {
      assert a + b == b;
    } else {
      assert (a + b)[0] == a[0] && (a + b)[1..] == a[1..] + b;
      DepthAfterAppend(Step(d, a[0]), a[1..], b);
    }
  }

  /** Text without angle brackets leaves the depth alone. */
  lemma {:induction false} DepthAfterFlat(d: nat, a: string)
    requires '<' !in a && '>' !in a
    ensures DepthAfter(d, a) == d
    decreases |a|
  {
    if a != [] {
      assert a[1..] == a[1..] && '<' !in a[1..] && '>' !in a[1..];
      DepthAfterFlat(d, a[1..]);
    }
  }

  /** A comma read at depth 0: the places where the source cuts. */
  predicate CutAt(s: string, d: nat, i: int) {
    0 <= i < |s| && s[i] == ',' && DepthAfter(d, s[..i]) == 0
  }

  /** The first top-level comma of `s` when reading starts at depth `d`. */
  function TopComma(s: string, d: nat): (r: Option<nat>)
    ensures r.Some? ==> r.value < |s|
  {
    if s == [] then None
    else if s[0] == ',' && d == 0 then Some(0)
    else
      match TopComma(s[1..], Step(d, s[0]))
      case None => None
      case Some(j) => Some(j + 1)
  }

  /** What `TopComma` reports is a cut. */
  lemma {:induction false} TopCommaCut(s: string, d: nat)
    ensures TopComma(s, d).Some? ==> CutAt(s, d, TopComma(s, d).value)
    decreases |s|
  {
    if s != [] {
      if s[0] == ',' && d == 0 {
        assert s[..0] == [];
      } else {
        var r := TopComma(s[1..], Step(d, s[0]));
        TopCommaCut(s[1..], Step(d, s[0]));
        if r.Some? {
          assert s[..r.value + 1][1..] == s[1..][..r.value];
        }
      }
    }
  }

  /** `TopComma` finds the first cut: there is none before it, and none at all when it finds nothing. */
  lemma {:induction false} TopCommaFirst(s: string, d: nat, i: int)
    requires CutAt(s, d, i)
    ensures TopComma(s, d).Some? && TopComma(s, d).value <= i
    decreases |s|
  {
    if !(s[0] == ',' && d == 0) {
      assert s[..0] == [] && DepthAfter(d, s[..0]) == d;
      assert s[..i][1..] == s[1..][..i - 1];
      TopCommaFirst(s[1..], Step(d, s[0]), i - 1);
    }
  }

  /** Text without commas has no cut. */
  lemma NoCommaNoCut(s: string, d: nat)
    requires ',' !in s
    ensures TopComma(s, d).None?
  {
  }

  /** A cut position moved `k` characters on, or still no cut. */
  function Shift(o: Option<nat>, k: nat): (r: Option<nat>)
    ensures r.Some? <==> o.Some?
    ensures r.Some? ==> r.value == o.value + k
  {
    if o.None? then None else Some(o.value + k)
  }

  /** Text whose cuts are all inside `a` is cut where `a` is, and otherwise after `a`. */
  lemma {:induction false} TopCommaAppend(a: string, b: string, d: nat)
    requires TopComma(a, d).None?
    ensures TopComma(a + b, d) == Shift(TopComma(b, DepthAfter(d, a)), |a|)
    decreases |a|
  {
    if a == [] {
      assert a + b == b;
    } else {
      var c, t := a[0], a[1..];
      assert a == [c] + t;
      TopCommaCons(c, t, d);
      TopCommaAppend(t, b, Step(d, c));
      TopCommaAppendStep(c, t, b, d);
    }
  }

  /** The inductive step: one more uncut character in front. */
  lemma TopCommaAppendStep(c: char, t: string, b: string, d: nat)
    requires TopComma([c] + t, d).None?
    requires TopComma(t + b, Step(d, c)) == Shift(TopComma(b, DepthAfter(Step(d, c), t)), |t|)
    ensures TopComma([c] + t + b, d) == Shift(TopComma(b, DepthAfter(d, [c] + t)), |t| + 1)
  {
    var q := TopComma(b, DepthAfter(Step(d, c), t));
    assert TopComma([c] + (t + b), d) == Shift(TopComma(t + b, Step(d, c)), 1) by {
      TopCommaCons(c, t, d);
      TopCommaCons(c, t + b, d);
    }
    ShiftTwice(q, |t|, 1);
    assert [c] + t + b == [c] + (t + b);
    DepthAfterCons(d, c, t);
  }

  lemma ShiftTwice(o: Option<nat>, j: nat, k: nat)
    ensures Shift(Shift(o, j), k) == Shift(o, j + k)
  {
  }

  lemma DepthAfterCons(d: nat, c: char, t: string)
    ensures DepthAfter(d, [c] + t) == DepthAfter(Step(d, c), t)
  {
    assert ([c] + t)[0] == c && ([c] + t)[1..] == t;
  }

  /** One character read, then the rest from the depth it leaves. */
  lemma TopCommaCons(c: char, s: string, d: nat)
    ensures c == ',' && d == 0 ==> TopComma([c] + s, d) == Some(0)
    ensures !(c == ',' && d == 0) ==> TopComma([c] + s, d) == Shift(TopComma(s, Step(d, c)), 1)
  {
    assert ([c] + s)[0] == c && ([c] + s)[1..] == s;
  }

  /**
   * The reference segmentation: `s` cut at every top-level comma, keeping
   * empty pieces.  The first piece is read from depth `d`; each later one
   * starts at depth 0, because a cut happens only at depth 0.
   */
  function Segments(s: string, d: nat): (r: seq<string>)
    ensures r != []
    decreases |s|
  {
    match TopComma(s, d)
    case None => [s]
    case Some(j) => [s[..j]] + Segments(s[j + 1..], 0)
  }

  /** Joining the pieces with commas gives back the text: nothing is lost or reordered. */
  lemma {:induction false} JoinSegments(s: string, d: nat)
    ensures Join(Segments(s, d), ",") == s
    decreases |s|
  {
    match TopComma(s, d)
    case None =>
    case Some(j) =>
      var rest := Segments(s[j + 1..], 0);
      JoinSegments(s[j + 1..], 0);
      TopCommaCut(s, d);
      assert ([s[..j]] + rest)[1..] == rest;
      assert s == s[..j] + "," + s[j + 1..];
  }

  /** No piece contains a top-level comma (each read from the depth it starts at). */
  lemma {:induction false} SegmentsUncut(s: string, d: nat)
    ensures var segs := Segments(s, d);
      forall k :: 0 <= k < |segs| ==> TopComma(segs[k], if k == 0 then d else 0).None?
    decreases |s|
  {
    match TopComma(s, d)
    case None =>
    case Some(j) =>
      SegmentsUncut(s[j + 1..], 0);
      var p := s[..j];
      assert forall i :: 0 <= i < j ==> p[..i] == s[..i];
      if TopComma(p, d).Some? {
        var i := TopComma(p, d).value;
        TopCommaCut(p, d);
        assert CutAt(s, d, i);
        TopCommaFirst(s, d, i);
      }
      assert Segments(s, d) == [p] + Segments(s[j + 1..], 0);
  }

  /** A piece the splitter passes over whole: no top-level comma, and brackets balanced. */
  predicate Balanced(x: string) {
    TopComma(x, 0).None? && DepthAfter(0, x) == 0
  }

  /** The first cut of `x + "," + rest` is the comma after a balanced `x`. */
  lemma SegmentsCons(x: string, rest: string)
    requires Balanced(x)
    ensures Segments(x + "," + rest, 0) == [x] + Segments(rest, 0)
  {
    var s := x + "," + rest;
    assert s == x + ("," + rest);
    TopCommaAppend(x, "," + rest, 0);
    assert TopComma(s, 0) == Some(|x|);
    assert s[..|x|] == x && s[|x| + 1..] == rest;
  }

  /** Cutting a comma-joined list of balanced pieces gives back the pieces. */
  lemma {:induction false} SegmentsOfJoin(xs: seq<string>)
    requires xs != []
    requires forall k :: 0 <= k < |xs| ==> Balanced(xs[k])
    ensures Segments(Join(xs, ","), 0) == xs
  {
    if |xs| == 1 {
      assert TopComma(xs[0], 0).None?;
    } else {
      SegmentsCons(xs[0], Join(xs[1..], ","));
      SegmentsOfJoin(xs[1..]);
      assert xs == [xs[0]] + xs[1..];
    }
  }

  /**
   * The loop state of `_parse_args`: the pieces emitted so far, the piece
   * being read, and the depth.
   */
  datatype Splitter = Splitter(parts: seq<string>, cur: string, depth: nat)

  /*
   * The loop and its reference take the piece normaliser `strip` as a
   * parameter: the structure of the fold does not depend on it, and
   * `_parse_args` instantiates it with `str.strip` (`Trim`).
   */

  /** `[strip(p)] if strip(p) else []`: one piece as the loop appends it. */
  function Piece(strip: string -> string, p: string): seq<string> {
    if strip(p) == [] then [] else [strip(p)]
  }

  /** The normalised pieces that are not blank, in order. */
  function Keep(strip: string -> string, pieces: seq<string>): (r: seq<string>)
    ensures |r| <= |pieces|
  {
    if pieces == [] then [] else Piece(strip, pieces[0]) + Keep(strip, pieces[1..])
  }

  /** Every kept piece is the non-blank normal form of some piece. */
  lemma {:induction false} KeepFrom(strip: string -> string, pieces: seq<string>)
    ensures forall x :: x in Keep(strip, pieces) ==> x != [] && exists p :: p in pieces && x == strip(p)
  {
    if pieces != [] {
      KeepFrom(strip, pieces[1..]);
      assert forall p :: p in pieces[1..] ==> p in pieces;
    }
  }

  /** Non-blank, with no whitespace at either end: what `strip()` leaves of a non-blank piece. */
  predicate Stripped(x: string) {
    x != [] && !IsSpace(x[0]) && !IsSpace(x[|x| - 1])
  }

  /** Pieces that each normalise to the non-blank `want[i]` are kept as exactly `want`. */
  lemma {:induction false} KeepMapped(strip: string -> string, pieces: seq<string>, want: seq<string>)
    requires |pieces| == |want|
    requires forall i :: 0 <= i < |pieces| ==> want[i] != [] && strip(pieces[i]) == want[i]
    ensures Keep(strip, pieces) == want
  {
    if pieces != [] {
      KeepMapped(strip, pieces[1..], want[1..]);
      assert want == [want[0]] + want[1..];
    }
  }

  /** Pieces that are already stripped and non-blank all survive `strip()` unchanged. */
  lemma KeepStripped(xs: seq<string>)
    requires forall x :: x in xs ==> Stripped(x)
    ensures Keep(Trim, xs) == xs
  {
    forall i | 0 <= i < |xs|
      ensures xs[i] != [] && Trim(xs[i]) == xs[i]
    {
      assert xs[i] in xs;
      TrimNoop(xs[i]);
    }
    KeepMapped(Trim, xs, xs);
  }

  /** One iteration of the character loop of `_parse_args`. */
  function Feed(strip: string -> string, st: Splitter, ch: char): Splitter {
    var depth := Step(st.depth, ch);
    if ch == ',' && depth == 0 then Splitter(st.parts + Piece(strip, st.cur), "", depth)
    else Splitter(st.parts, st.cur + [ch], depth)
  }

  /** The loop over every character of `s`. */
  function FeedAll(strip: string -> string, st: Splitter, s: string): Splitter
    decreases |s|
  {
    if s == [] then st else FeedAll(strip, Feed(strip, st, s[0]), s[1..])
  }

  /** The statement after the loop: the last piece is appended when it is not blank. */
  function Flush(strip: string -> string, st: Splitter): seq<string> {
    st.parts + Piece(strip, st.cur)
  }

  /** Reading one character that is not a cut extends the first piece. */
  lemma SegmentsStep(s: string, d: nat)
    requires s != [] && !(s[0] == ',' && d == 0)
    ensures var segs := Segments(s, d);
      var tail := Segments(s[1..], Step(d, s[0]));
      segs[0] == [s[0]] + tail[0] && segs[1..] == tail[1..]
  {
    var d1 := Step(d, s[0]);
    match TopComma(s[1..], d1)
    case None =>
      assert s == [s[0]] + s[1..];
    case Some(j) =>
      assert s[1..][j + 1..] == s[j + 2..];
      assert s[..j + 1] == [s[0]] + s[1..][..j];
  }

  /** What the loop from a state emits for `s`, in terms of the reference segmentation. */
  predicate FoldMatches(strip: string -> string, parts: seq<string>, cur: string, d: nat, s: string) {
    var segs := Segments(s, d);
    Flush(strip, FeedAll(strip, Splitter(parts, cur, d), s))
      == parts + Piece(strip, cur + segs[0]) + Keep(strip, segs[1..])
  }

  /** A top-level comma closes the current piece. */
  lemma FoldAtCut(strip: string -> string, parts: seq<string>, cur: string, s: string)
    requires s != [] && s[0] == ','
    requires FoldMatches(strip, parts + Piece(strip, cur), "", 0, s[1..])
    ensures FoldMatches(strip, parts, cur, 0, s)
  {
    var segs := Segments(s, 0);
    var tail := Segments(s[1..], 0);
    assert s[..0] == [] && DepthAfter(0, s[..0]) == 0;
    assert segs == [[]] + tail;
    assert "" + tail[0] == tail[0] && cur + segs[0] == cur;
    assert segs[1..] == tail;
  }

  /** Any other character extends the current piece. */
  lemma FoldInPiece(strip: string -> string, parts: seq<string>, cur: string, d: nat, s: string)
    requires s != [] && !(s[0] == ',' && d == 0)
    requires FoldMatches(strip, parts, cur + [s[0]], Step(d, s[0]), s[1..])
    ensures FoldMatches(strip, parts, cur, d, s)
  {
    var segs := Segments(s, d);
    var tail := Segments(s[1..], Step(d, s[0]));
    SegmentsStep(s, d);
    assert cur + [s[0]] + tail[0] == cur + segs[0];
  }

  /**
   * The loop from any state emits the kept pieces of the reference
   * segmentation, the first of them prefixed by the piece already begun.
   */
  lemma {:induction false} FeedAllSegments(strip: string -> string, parts: seq<string>, cur: string, d: nat, s: string)
    ensures FoldMatches(strip, parts, cur, d, s)
    decreases |s|
  {
    if s == [] {
      assert Segments(s, d) == [[]] && cur + [] == cur;
    } else if s[0] == ',' && d == 0 {
      FeedAllSegments(strip, parts + Piece(strip, cur), "", 0, s[1..]);
      FoldAtCut(strip, parts, cur, s);
    } else {
      FeedAllSegments(strip, parts, cur + [s[0]], Step(d, s[0]), s[1..]);
      FoldInPiece(strip, parts, cur, d, s);
    }
  }

  /** The loop from its initial state emits exactly the kept pieces of the segmentation. */
  lemma FoldFromStart(strip: string -> string, s: string)
    ensures Flush(strip, FeedAll(strip, Splitter([], "", 0), s)) == Keep(strip, Segments(s, 0))
  {
    var segs := Segments(s, 0);
    FeedAllSegments(strip, [], "", 0, s);
    assert "" + segs[0] == segs[0];
  }

  /** Every piece `str.strip()` keeps is stripped. */
  lemma KeepTrimStripped(pieces: seq<string>)
    ensures forall x :: x in Keep(Trim, pieces) ==> Stripped(x)
  {
    KeepFrom(Trim, pieces);
  }

  /**
   * The first half of `_parse_args`: the argument text cut at its top-level
   * commas, each piece stripped, blank pieces dropped, order kept.
   */
  function SplitTop(s: string): (r: seq<string>)
    ensures r == Keep(Trim, Segments(s, 0))
    ensures forall x :: x in r ==> Stripped(x)
  {
    FoldFromStart(Trim, s);
    KeepTrimStripped(Segments(s, 0));
    Flush(Trim, FeedAll(Trim, Splitter([], "", 0), s))
  }

  /** A parameter as the stub shows it: its name and its mapped Python type. */
  datatype Param = Param(name: string, typ: string)

  /** The receiver forms `_parse_args` drops. */
  predicate IsReceiver(ps: string) {
    ps == "self" || ps == "&self" || ps == "&mut self" || EndsWith(ps, " self")
  }

  /**
   * The second half of `_parse_args` for one piece, before the type mapping:
   * receivers, pieces without a `:` and the `py` token are dropped; otherwise
   * the piece is split at its first `:` into a stripped name and a stripped
   * type text.
   */
  function SplitParam(piece: string): (r: Option<(string, string)>)
    ensures r.Some? ==> ':' in piece && !IsReceiver(Trim(piece))
    ensures r.Some? ==> r.value.0 != "py" && ':' !in r.value.0
  {
    var ps := Trim(piece);
    TrimChars(piece);
    if IsReceiver(ps) then None
    else match IndexOf(ps, ':', 0)
      case None => None
      case Some(k) =>
        var name := Trim(ps[..k]);
        assert ps[..k] == ps[0..k];
        TrimChars(ps[..k]);
        if name == "py" then None
        else Some((name, Trim(ps[k + 1..])))
  }

  /** What a kept parameter can be: a name other than `py` without `:`, and a Python type. */
  predicate GoodParam(p: Param) {
    && p.name != "py" && ':' !in p.name
    && (p.typ in TypeMap.Atoms || TypeMap.IsOptional(p.typ) || TypeMap.IsList(p.typ))
  }

  /** One piece of `_parse_args`: the split piece with its type put through `_map_type`. */
  function ParamOf(piece: string): (r: Option<Param>)
    ensures r.Some? ==> ':' in piece && !IsReceiver(Trim(piece))
    ensures r.Some? ==> r.value.name != "py" && ':' !in r.value.name
    ensures r.Some? ==> r.value.typ in TypeMap.Atoms || TypeMap.IsOptional(r.value.typ) || TypeMap.IsList(r.value.typ)
  {
    match SplitParam(piece)
      case None => None
      case Some((name, typ)) => Some(Param(name, TypeMap.MapType(typ)))
  }

  /** `ParamOf` over a list of pieces, keeping the ones that yield a parameter, in order. */
  function Params(pieces: seq<string>): (r: seq<Param>)
    ensures |r| <= |pieces|
    ensures forall i :: 0 <= i < |r| ==> GoodParam(r[i])
  {
    if pieces == [] then []
    else match ParamOf(pieces[0])
      case None => Params(pieces[1..])
      case Some(p) => [p] + Params(pieces[1..])
  }

  /** `_parse_args`. */
  function ParseArgs(argText: string): (r: seq<Param>)
    ensures |r| <= |Segments(argText, 0)|
    ensures forall i :: 0 <= i < |r| ==> GoodParam(r[i])
  {
    Params(SplitTop(argText))
  }

  /** How a parameter is spelled in a Rust signature: `name: Type`. */
  function ParamText(name: string, ty: string): string {
    name + ": " + ty
  }

  /** A type text that can follow `name: ` and be read back: stripped, balanced, not a receiver. */
  predicate TypeText(ty: string) {
    ty != [] && !IsSpace(ty[0]) && !IsSpace(ty[|ty| - 1])
    && Balanced(ty) && ty != "self" && !EndsWith(ty, " self")
  }

  /** A parameter text with a plain name and a well-formed type. */
  predicate Canonical(name: string, ty: string) {
    IsIdent(name) && name != "py" && TypeText(ty)
  }

  lemma ReceiverNames()
    ensures ':' !in "self" && ':' !in "&self" && ':' !in "&mut self" && ':' !in " self"
    ensures " self"[0] == ' ' && " self"[1..] == "self"
  {
  }

  /** A parameter text is never mistaken for a receiver. */
  lemma NotReceiver(name: string, ty: string)
    requires Canonical(name, ty)
    ensures !IsReceiver(ParamText(name, ty))
  {
    var ps := ParamText(name, ty);
    ReceiverNames();
    assert ps[|name|] == ':';
    if |ty| >= 5 {
      assert ps[|ps| - 5..] == ty[|ty| - 5..];
    } else if |ty| == 4 {
      assert ps[|ps| - 5..] == [' '] + ty;
    } else if |ps| >= 5 {
      assert ps[|ps| - 5..][|name| - (|ps| - 5)] == ':';
    }
  }

  /** How `name: ty` falls apart at its first colon. */
  lemma ParamTextParts(name: string, ty: string)
    requires name != [] && !IsSpace(name[0]) && ty != [] && !IsSpace(ty[|ty| - 1]) && ':' !in name
    ensures var ps := ParamText(name, ty);
      && Trim(ps) == ps && ps[..|name|] == name && ps[|name|] == ':'
      && ':' !in name && ps[|name| + 1..] == " " + ty
  {
    var ps := ParamText(name, ty);
    assert ps[0] == name[0] && ps[|ps| - 1] == ty[|ty| - 1];
    TrimNoop(ps);
    assert ps[..|name|] == name;
    assert ps[|name| + 1..] == " " + ty;
  }

  /** Stripping a stripped text with one blank in front gives the text back. */
  lemma TrimBlankBefore(ty: string)
    requires ty != [] && !IsSpace(ty[0]) && !IsSpace(ty[|ty| - 1])
    ensures Trim(" " + ty) == ty
  {
    assert (" " + ty)[1..] == ty;
    TrimNoop(ty);
  }

  /** The first colon of `name: ty` is the one after the name. */
  lemma FirstColon(name: string, ty: string)
    requires ':' !in name
    ensures IndexOf(ParamText(name, ty), ':', 0) == Some(|name|)
  {
    var ps := ParamText(name, ty);
    assert ps[0..|name|] == name;
    IndexOfFirst(ps, ':', 0, |name|);
  }

  /**
   * `SplitParam` on a piece that strips to `ps`, whose first colon at `k` splits
   * it into `before` and `after`, which strip to `name` and `typ`.
   */
  lemma SplitParamAt(piece: string, ps: string, k: nat, before: string, after: string, name: string, typ: string)
    requires Trim(piece) == ps && !IsReceiver(ps) && IndexOf(ps, ':', 0) == Some(k)
    requires ps[..k] == before && ps[k + 1..] == after
    requires Trim(before) == name && name != "py" && Trim(after) == typ
    ensures SplitParam(piece) == Some((name, typ))
  {
  }

  /** Reading a parameter text back gives its name and its type text. */
  lemma SplitParamText(name: string, ty: string)
    requires Canonical(name, ty)
    ensures SplitParam(ParamText(name, ty)) == Some((name, ty))
  {
    var ps := ParamText(name, ty);
    IdentStripped(name);
    TrimNoop(name);
    TrimBlankBefore(ty);
    NotReceiver(name, ty);
    assert ':' !in name by {
      assert forall i :: 0 <= i < |name| ==> IsWordChar(name[i]);
    }
    ParamTextParts(name, ty);
    FirstColon(name, ty);
    SplitParamAt(ps, ps, |name|, name, " " + ty, name, ty);
  }

  /** Reading a parameter text back gives its name and the mapped type. */
  lemma ParamOfText(name: string, ty: string)
    requires Canonical(name, ty)
    ensures ParamOf(ParamText(name, ty)) == Some(Param(name, TypeMap.MapType(ty)))
  {
    SplitParamText(name, ty);
  }

  /** A text with none of `,`, `<`, `>` passes the splitter whole. */
  lemma BalancedFlat(x: string)
    requires ',' !in x && '<' !in x && '>' !in x
    ensures Balanced(x)
  {
    NoCommaNoCut(x, 0);
    DepthAfterFlat(0, x);
  }

  lemma BalancedAppend(a: string, b: string)
    requires Balanced(a) && Balanced(b)
    ensures Balanced(a + b)
  {
    TopCommaAppend(a, b, 0);
    DepthAfterAppend(0, a, b);
  }

  lemma SeparatorsFlat()
    ensures ',' !in ": " && '<' !in ": " && '>' !in ": "
    ensures ',' !in " " && '<' !in " " && '>' !in " "
  {
  }

  /** A parameter text, with or without the blank that follows a `,`, is one balanced piece. */
  lemma BalancedParamText(name: string, ty: string)
    requires Canonical(name, ty)
    ensures Balanced(ParamText(name, ty)) && Balanced(" " + ParamText(name, ty))
  {
    assert ',' !in name && '<' !in name && '>' !in name by {
      assert forall i :: 0 <= i < |name| ==> IsWordChar(name[i]);
    }
    SeparatorsFlat();
    BalancedFlat(name);
    BalancedFlat(": ");
    BalancedFlat(" ");
    BalancedAppend(name, ": ");
    BalancedAppend(name + ": ", ty);
    BalancedAppend(" ", ParamText(name, ty));
  }

  /** The pieces after the first, each with the blank that follows `, `. */
  function Indent(ys: seq<string>): (r: seq<string>)
    ensures |r| == |ys|
  {
    seq(|ys|, i requires 0 <= i < |ys| => " " + ys[i])
  }

  /** Joining with `", "` is joining with `","` the pieces indented by one blank. */
  lemma {:induction false} JoinIndent(ys: seq<string>)
    requires ys != []
    ensures Join(Indent(ys), ",") == " " + Join(ys, ", ")
  {
    if |ys| > 1 {
      JoinIndent(ys[1..]);
      assert Indent(ys)[1..] == Indent(ys[1..]);
    }
  }

  lemma JoinCommaSpace(xs: seq<string>)
    requires xs != []
    ensures Join(xs, ", ") == Join([xs[0]] + Indent(xs[1..]), ",")
  {
    var ys := [xs[0]] + Indent(xs[1..]);
    assert ys[1..] == Indent(xs[1..]);
    if |xs| > 1 {
      JoinIndent(xs[1..]);
    }
  }

  /** The parameter list of a Rust signature: `name: Type` pieces joined with `, `. */
  function Signature(ps: seq<(string, string)>): (r: string)
    ensures ps == [] ==> r == ""
  {
    Join(seq(|ps|, i requires 0 <= i < |ps| => ParamText(ps[i].0, ps[i].1)), ", ")
  }

  /** What `_parse_args` should yield for a signature: each name with its mapped type. */
  function Mapped(ps: seq<(string, string)>): (r: seq<Param>)
    ensures |r| == |ps|
  {
    seq(|ps|, i requires 0 <= i < |ps| => Param(ps[i].0, TypeMap.MapType(ps[i].1)))
  }

  /** Pieces that each read as `want[i]` read as `want`. */
  lemma {:induction false} ParamsExact(pieces: seq<string>, want: seq<Param>)
    requires |pieces| == |want|
    requires forall i :: 0 <= i < |pieces| ==> ParamOf(pieces[i]) == Some(want[i])
    ensures Params(pieces) == want
  {
    if pieces != [] {
      ParamsExact(pieces[1..], want[1..]);
      assert want == [want[0]] + want[1..];
    }
  }

  lemma ParamsOfTexts(ps: seq<(string, string)>)
    requires forall i :: 0 <= i < |ps| ==> Canonical(ps[i].0, ps[i].1)
    ensures Params(seq(|ps|, i requires 0 <= i < |ps| => ParamText(ps[i].0, ps[i].1))) == Mapped(ps)
  {
    var texts := seq(|ps|, i requires 0 <= i < |ps| => ParamText(ps[i].0, ps[i].1));
    forall i | 0 <= i < |ps|
      ensures ParamOf(texts[i]) == Some(Mapped(ps)[i])
    {
      ParamOfText(ps[i].0, ps[i].1);
    }
    ParamsExact(texts, Mapped(ps));
  }

  /** The rendered parameters of a signature, before they are joined. */
  function Texts(ps: seq<(string, string)>): (r: seq<string>)
    ensures |r| == |ps|
    ensures forall i :: 0 <= i < |ps| ==> r[i] == ParamText(ps[i].0, ps[i].1)
  {
    seq(|ps|, i requires 0 <= i < |ps| => ParamText(ps[i].0, ps[i].1))
  }

  /** The comma-separated pieces of a signature are balanced and strip to the rendered parameters. */
  lemma IndentedPieces(ps: seq<(string, string)>)
    requires ps != []
    requires forall i :: 0 <= i < |ps| ==> Canonical(ps[i].0, ps[i].1)
    ensures var texts := Texts(ps);
      var pieces := [texts[0]] + Indent(texts[1..]);
      forall k :: 0 <= k < |pieces| ==> Balanced(pieces[k]) && texts[k] != [] && Trim(pieces[k]) == texts[k]
  {
    var texts := Texts(ps);
    var pieces := [texts[0]] + Indent(texts[1..]);
    forall k | 0 <= k < |pieces|
      ensures Balanced(pieces[k]) && texts[k] != [] && Trim(pieces[k]) == texts[k]
    {
      var n := ps[k].0;
      var t := ps[k].1;
      BalancedParamText(n, t);
      IdentStripped(n);
      ParamTextParts(n, t);
      if k > 0 {
        assert pieces[k] == " " + texts[k];
        TrimBlankBefore(texts[k]);
      }
    }
  }

  /** Splitting a non-empty signature gives back its rendered parameters. */
  lemma SplitSignature(ps: seq<(string, string)>)
    requires ps != []
    requires forall i :: 0 <= i < |ps| ==> Canonical(ps[i].0, ps[i].1)
    ensures SplitTop(Signature(ps)) == Texts(ps)
  {
    var texts := Texts(ps);
    var pieces := [texts[0]] + Indent(texts[1..]);
    assert Signature(ps) == Join(texts, ", ");
    JoinCommaSpace(texts);
    IndentedPieces(ps);
    SegmentsOfJoin(pieces);
    KeepMapped(Trim, pieces, texts);
  }

  /**
   * `_parse_args` reads a well-formed parameter list back: every piece is a
   * plain name and a stripped, bracket-balanced type, and the result is each
   * name with its mapped type, in order.
   */
  lemma ParseArgsSignature(ps: seq<(string, string)>)
    requires forall i :: 0 <= i < |ps| ==> Canonical(ps[i].0, ps[i].1)
    ensures ParseArgs(Signature(ps)) == Mapped(ps)
  {
    ParamsOfTexts(ps);
    assert Texts(ps) == seq(|ps|, i requires 0 <= i < |ps| => ParamText(ps[i].0, ps[i].1));
    if ps == [] {
      assert Segments("", 0) == [""];
      assert Trim("") == [];
    } else {
      SplitSignature(ps);
    }
  }

}
