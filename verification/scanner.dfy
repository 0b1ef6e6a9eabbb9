/**
 * The line scanner of `generate_regorus_pyi_from_lib_rs`: a state machine
 * over the lines of `lib.rs` that arms on `#[pymethods]`, enters
 * `impl Engine {`, tracks the brace depth of that block, and records one
 * method per matched `fn` header, with the `#[new]` and feature-gate
 * attributes seen before it.
 */
module Scanner {

  import opened Wrappers
  import opened Strings
  import opened Patterns
  import TypeMap
  import ArgSplit

  /**
   * Where the scanner is: outside any block, armed by `#[pymethods]`
   * (`in_pymethods` without `in_impl`), or inside `impl Engine` at a brace
   * depth (`in_impl`, which the source only sets together with `in_pymethods`).
   */
  datatype Phase = Outside | Armed | InImpl(depth: int)

  /** One recorded method: name, parameters, mapped return type and feature gate. */
  datatype Method = Method(name: string, params: seq<ArgSplit.Param>, ret: string, feature: Option<string>)

  /**
   * A matched header as read, with the `#[new]` mark and the gate pending
   * when it was read. Mapping it to a `Method` is pure, so the model maps
   * the recorded entries once the scan is over (`Methods`), which gives the
   * same list as mapping each one as it is met.
   */
  datatype Entry = Entry(header: FnHeader, isNew: bool, feature: Option<string>)

  /** The loop variables of the scanner. */
  datatype Scan = Scan(phase: Phase, pendingNew: bool, pendingFeature: Option<string>, entries: seq<Entry>)

  const Start: Scan := Scan(Outside, false, None, [])

  /** Inside the block the depth stays positive: the block is left as soon as it drops to 0. */
  predicate DepthPositive(st: Scan) {
    st.phase.InImpl? ==> st.phase.depth >= 1
  }

  /** What the scanner can record: identifier names, and gates with a quote-free feature name. */
  predicate Readable(es: seq<Entry>) {
    forall i :: 0 <= i < |es| ==>
      IsIdent(es[i].header.name)
      && (es[i].feature.Some? ==> es[i].feature.value != [] && '"' !in es[i].feature.value)
  }

  /** Stub names are identifiers other than `new`; gates keep a feature name. */
  predicate WellFormed(ms: seq<Method>) {
    forall i :: 0 <= i < |ms| ==>
      IsIdent(ms[i].name) && ms[i].name != "new"
      && (ms[i].feature.Some? ==> ms[i].feature.value != [] && '"' !in ms[i].feature.value)
  }

  lemma InitName()
    ensures IsIdent("__init__") && "__init__" != "new"
  {
  }

  /**
   * The stub entry for a matched header: a constructor (marked `#[new]` or
   * named `new`) becomes `__init__(self) -> None`; any other method keeps its
   * name, its non-receiver parameters and its mapped return type.
   */
  function Emit(e: Entry): (m: Method)
    ensures m.feature == e.feature
    ensures m.name != "new"
    ensures (e.isNew || e.header.name == "new") ==> m == Method("__init__", [], "None", e.feature)
    ensures !(e.isNew || e.header.name == "new") ==>
      && m.name == e.header.name
      && m.params == ArgSplit.ParseArgs(e.header.args)
      && m.ret == TypeMap.MapType(e.header.ret)
  {
    var h := e.header;
    if e.isNew || h.name == "new" then Method("__init__", [], "None", e.feature)
    else Method(h.name, ArgSplit.ParseArgs(h.args), TypeMap.MapType(h.ret), e.feature)
  }

  /** The stub entries for the recorded headers, in order. */
  function Methods(es: seq<Entry>): (ms: seq<Method>)
    ensures |ms| == |es|
    ensures forall i :: 0 <= i < |es| ==> ms[i] == Emit(es[i])
  {
    if es == [] then [] else [Emit(es[0])] + Methods(es[1..])
  }

  lemma MethodsWellFormed(es: seq<Entry>)
    requires Readable(es)
    ensures WellFormed(Methods(es))
  {
    InitName();
  }

  /** What a line is to the scanner, checked in the order of the loop body. */
  datatype LineKind = FeatureGate(feature: string) | NewAttr | PymethodsAttr | ImplStart | Other

  /**
   * Everything the loop body asks of one line: which of the attribute and
   * block patterns it matches first, its `fn` header if any, and its brace
   * balance. The patterns are pure, so asking them all up front is the same
   * as asking them in the order of the loop body.
   */
  datatype LineInfo = LineInfo(kind: LineKind, header: Option<FnHeader>, delta: int)

  function Kind(line: string): (k: LineKind)
    ensures k.FeatureGate? ==> k.feature != [] && '"' !in k.feature
    ensures k == PymethodsAttr ==> IsPymethods(line)
  {
    match CfgFeature(line)
      case Some(f) => FeatureGate(f)
      case None =>
        if IsAttrNew(line) then NewAttr
        else if IsPymethods(line) then PymethodsAttr
        else if IsImplEngine(line) then ImplStart
        else Other
  }

  function Analyze(line: string): LineInfo {
    LineInfo(Kind(line), MatchFn(line), BraceDelta(line))
  }

  /** A line inside the block: record a header, then follow the braces. */
  function InBlock(st: Scan, info: LineInfo): (r: Scan)
    requires st.phase.InImpl?
    ensures DepthPositive(r)
    ensures |r.entries| == |st.entries| + (if info.header.Some? then 1 else 0)
    ensures r.entries[..|st.entries|] == st.entries
  {
    var emitted := match info.header
      case Some(h) =>
        st.(entries := st.entries + [Entry(h, st.pendingNew, st.pendingFeature)], pendingNew := false, pendingFeature := None)
      case None => st;
    var d := st.phase.depth + info.delta;
    if d <= 0 then Scan(Outside, false, None, emitted.entries)
    else emitted.(phase := InImpl(d))
  }

  /** One iteration of the scanner loop. */
  function Step(st: Scan, info: LineInfo): (r: Scan)
    ensures DepthPositive(st) ==> DepthPositive(r)
    ensures |st.entries| <= |r.entries| <= |st.entries| + (if info.header.Some? then 1 else 0)
    ensures r.entries[..|st.entries|] == st.entries
    ensures st.phase == Outside && info.kind != PymethodsAttr ==> r.phase == Outside && r.entries == st.entries
  {
    match info.kind
      case FeatureGate(f) => st.(pendingFeature := Some(f))
      case NewAttr => st.(pendingNew := true)
      case PymethodsAttr => st.(phase := if st.phase.InImpl? then st.phase else Armed)
      case ImplStart =>
        if st.phase != Outside then st.(phase := InImpl(1))
        else st
      case Other =>
        if st.phase.InImpl? then InBlock(st, info) else st
  }

  /**
   * The scanner loop: each line is analysed by `read` and fed to the loop
   * body. The extractor reads lines with `Analyze`; keeping the reader a
   * parameter lets the block lemmas rely only on what it returns for the
   * line forms they use.
   */
  function Scanning(read: string -> LineInfo, st: Scan, lines: seq<string>): Scan
    decreases |lines|
  {
    if lines == [] then st else Scanning(read, Step(st, read(lines[0])), lines[1..])
  }

  lemma {:induction false} ScanningAppend(read: string -> LineInfo, st: Scan, a: seq<string>, b: seq<string>)
    ensures Scanning(read, st, a + b) == Scanning(read, Scanning(read, st, a), b)
    decreases |a|
  {
    if a != [] {
      assert (a + b)[0] == a[0] && (a + b)[1..] == a[1..] + b;
      ScanningAppend(read, Step(st, read(a[0])), a[1..], b);
    } else {
      assert a + b == b;
    }
  }

  /** Scanning two stretches in turn is scanning their concatenation. */
  lemma ScanningChain(read: string -> LineInfo, st: Scan, a: seq<string>, mid: Scan, b: seq<string>, end: Scan)
    requires Scanning(read, st, a) == mid && Scanning(read, mid, b) == end
    ensures Scanning(read, st, a + b) == end
  {
    ScanningAppend(read, st, a, b);
  }

  /** The methods the scanner records for the lines of `lib.rs`, before de-duplication. */
  function Extract(lines: seq<string>): (ms: seq<Method>)
    ensures WellFormed(ms)
    ensures |ms| <= HeaderLines(lines)
  {
    ScanningInvariant(Start, lines);
    MethodsWellFormed(Scanning(Analyze, Start, lines).entries);
    ScanningAtMostHeaders(Start, lines);
    Methods(Scanning(Analyze, Start, lines).entries)
  }

  /** How many lines of the file match the `fn` header pattern. */
  function HeaderLines(lines: seq<string>): (n: nat)
    ensures n <= |lines|
  {
    if lines == [] then 0 else (if MatchFn(lines[0]).Some? then 1 else 0) + HeaderLines(lines[1..])
  }

  /** Every recorded entry comes from its own header line. */
  lemma {:induction false} ScanningAtMostHeaders(st: Scan, lines: seq<string>)
    ensures |Scanning(Analyze, st, lines).entries| <= |st.entries| + HeaderLines(lines)
    decreases |lines|
  {
    if lines != [] {
      ScanningAtMostHeaders(Step(st, Analyze(lines[0])), lines[1..]);
    }
  }

  /** Without `#[pymethods]` the scanner never leaves `Outside` and records nothing. */
  lemma {:induction false} ScanningNoPymethods(st: Scan, lines: seq<string>)
    requires st.phase == Outside
    requires forall k :: 0 <= k < |lines| ==> !IsPymethods(lines[k])
    ensures Scanning(Analyze, st, lines).entries == st.entries
    decreases |lines|
  {
    if lines != [] {
      ScanningNoPymethods(Step(st, Analyze(lines[0])), lines[1..]);
    }
  }

  /** A file without `#[pymethods]` yields no methods. */
  lemma ExtractNoPymethods(lines: seq<string>)
    requires forall k :: 0 <= k < |lines| ==> !IsPymethods(lines[k])
    ensures Extract(lines) == []
  {
    ScanningNoPymethods(Start, lines);
  }

  /** Gates come from `#[cfg(feature = "...")]` lines, names from identifiers. */
  predicate Recordable(st: Scan) {
    Readable(st.entries) && (st.pendingFeature.Some? ==> st.pendingFeature.value != [] && '"' !in st.pendingFeature.value)
  }

  /** What the analysis of a real line can hold. */
  predicate Analysed(info: LineInfo) {
    && (info.kind.FeatureGate? ==> info.kind.feature != [] && '"' !in info.kind.feature)
    && (info.header.Some? ==> IsIdent(info.header.value.name))
  }

  lemma StepKeepsRecordable(st: Scan, info: LineInfo)
    requires Recordable(st) && Analysed(info)
    ensures Recordable(Step(st, info))
  {
    var r := Step(st, info);
    if info.kind == Other && st.phase.InImpl? && info.header.Some? {
      assert r.entries == st.entries + [Entry(info.header.value, st.pendingNew, st.pendingFeature)];
    } else {
      assert r.entries == st.entries;
    }
  }

  /** Every reachable state keeps the depth positive inside the block, and records only readable entries. */
  lemma {:induction false} ScanningInvariant(st: Scan, lines: seq<string>)
    requires DepthPositive(st) && Recordable(st)
    ensures DepthPositive(Scanning(Analyze, st, lines)) && Recordable(Scanning(Analyze, st, lines))
    decreases |lines|
  {
    if lines != [] {
      StepKeepsRecordable(st, Analyze(lines[0]));
      ScanningInvariant(Step(st, Analyze(lines[0])), lines[1..]);
    }
  }
}

/**
 * What the scanner makes of a well-formed `#[pymethods] impl Engine { ... }`
 * block: the reaction of the loop body to each line form rustfmt writes, and
 * the methods recorded for a whole block.
 */
module ScannerBlocks {

  import opened Wrappers
  import opened Strings
  import opened Patterns
  import opened Scanner
  import TypeMap
  import ArgSplit

  /** A line the scanner has no use for: no attribute, no brace. */
  predicate Plain(s: string) {
    '#' !in s && '{' !in s && '}' !in s
  }

  lemma SpacesPlain(w: string)
    requires AllSpace(w)
    ensures Plain(w)
  {
    assert forall i :: 0 <= i < |w| ==> IsSpace(w[i]);
  }

  lemma IdentPlain(s: string)
    requires IsIdent(s)
    ensures Plain(s)
  {
    assert forall i :: 0 <= i < |s| ==> IsWordChar(s[i]);
  }

  /** A header whose argument and return texts are plain. */
  predicate PlainHeader(h: FnHeader) {
    GoodHeader(h) && Plain(h.args) && Plain(h.ret)
  }

  /** A plain line is no attribute, no block start and no header, and opens no brace. */
  lemma AnalyzePlain(line: string)
    requires Plain(line)
    ensures Analyze(line) == LineInfo(Other, None, 0)
  {
    CfgHash(line);
    AttrHash(line, "new");
    AttrHash(line, "pymethods");
    ImplBrace(line);
    FnBrace(line);
  }

  lemma AnalyzePymethods(indent: string)
    requires AllSpace(indent)
    ensures Analyze(AttrLine(indent, "pymethods")).kind == PymethodsAttr
  {
    AttrLineNotCfg(indent, "pymethods");
    AttrLineOther(indent, "pymethods", "new");
    AttrLineMatches(indent, "pymethods");
  }

  lemma AnalyzeNew(indent: string)
    requires AllSpace(indent)
    ensures Analyze(AttrLine(indent, "new")).kind == NewAttr
  {
    AttrLineNotCfg(indent, "new");
    AttrLineMatches(indent, "new");
  }

  lemma AnalyzeCfg(indent: string, feature: string)
    requires AllSpace(indent) && feature != [] && '"' !in feature
    ensures Analyze(CfgLine(indent, feature)).kind == FeatureGate(feature)
  {
    CfgLineMatches(indent, feature);
  }

  lemma AnalyzeImpl(indent: string)
    requires AllSpace(indent)
    ensures Analyze(ImplLine(indent)).kind == ImplStart
  {
    var line := ImplLine(indent);
    SpacesPlain(indent);
    assert '#' !in line;
    CfgHash(line);
    AttrHash(line, "new");
    AttrHash(line, "pymethods");
    ImplLineMatches(indent);
  }

  /** A closing brace at any indentation drops the depth by one. */
  lemma AnalyzeClose(indent: string)
    requires AllSpace(indent)
    ensures Analyze(indent + "}") == LineInfo(Other, None, -1)
  {
    var line := indent + "}";
    SpacesPlain(indent);
    CfgHash(line);
    AttrHash(line, "new");
    AttrHash(line, "pymethods");
    ImplBrace(line);
    FnBrace(line);
    CountCharAppend(indent, "}", '{');
    CountCharAppend(indent, "}", '}');
  }

  /** A header line up to its opening brace. */
  function HeaderHead(indent: string, pub: bool, h: FnHeader): string {
    indent + (if pub then "pub fn " else "fn ") + h.name + ("(" + h.args + ")" + ArrowText(h.ret))
  }

  lemma HeaderSplit(indent: string, pub: bool, h: FnHeader)
    requires AllSpace(indent) && PlainHeader(h)
    ensures HeaderLine(indent, pub, h) == HeaderHead(indent, pub, h) + " {"
    ensures Plain(HeaderHead(indent, pub, h))
  {
    SpacesPlain(indent);
    IdentPlain(h.name);
  }

  /** A plain text closed by ` {` has no `#` and opens exactly one brace. */
  lemma BraceEnd(p: string)
    requires Plain(p)
    ensures '#' !in p + " {" && BraceDelta(p + " {") == 1
  {
    CountCharAppend(p, " {", '{');
    CountCharAppend(p, " {", '}');
  }

  /** A header line is no attribute and no block start, and its header is read back. */
  lemma AnalyzeHeader(indent: string, pub: bool, h: FnHeader)
    requires AllSpace(indent) && PlainHeader(h)
    ensures Analyze(HeaderLine(indent, pub, h)) == LineInfo(Other, Some(h), 1)
  {
    var line := HeaderLine(indent, pub, h);
    HeaderSplit(indent, pub, h);
    BraceEnd(HeaderHead(indent, pub, h));
    CfgHash(line);
    AttrHash(line, "new");
    AttrHash(line, "pymethods");
    HeaderNotImpl(indent, pub, h);
    MatchHeaderLine(indent, pub, h);
  }

  /**
   * One method of the `impl Engine` block as rustfmt lays it out: an optional
   * feature gate, an optional `#[new]`, the header line, a body of plain
   * lines and the closing brace.
   */
  datatype Item = Item(feature: Option<string>, isNew: bool, pub: bool, header: FnHeader, body: seq<string>)

  predicate GoodItem(it: Item) {
    && (it.feature.Some? ==> it.feature.value != [] && '"' !in it.feature.value)
    && PlainHeader(it.header)
    && forall k :: 0 <= k < |it.body| ==> Plain(it.body[k])
  }

  function ItemLines(indent: string, it: Item): seq<string> {
    (if it.feature.Some? then [CfgLine(indent, it.feature.value)] else [])
    + (if it.isNew then [AttrLine(indent, "new")] else [])
    + [HeaderLine(indent, it.pub, it.header)]
    + it.body
    + [indent + "}"]
  }

  /** `#[pymethods]`, `impl Engine {`, the methods, and the closing brace of the block. */
  function BlockLines(outer: string, inner: string, items: seq<Item>): seq<string> {
    [AttrLine(outer, "pymethods"), ImplLine(outer)] + Flatten(ItemsChunks(inner, items)) + [outer + "}"]
  }

  /** What the scanner records for the method. */
  function ItemEntry(it: Item): Entry {
    Entry(it.header, it.isNew, it.feature)
  }

  /** What the scanner records for the methods, in declaration order. */
  function ItemEntries(items: seq<Item>): (es: seq<Entry>)
    ensures |es| == |items|
    ensures forall i :: 0 <= i < |items| ==> es[i] == ItemEntry(items[i])
  {
    if items == [] then [] else [ItemEntry(items[0])] + ItemEntries(items[1..])
  }

  /**
   * The stub entry the method should get: a constructor (marked `#[new]` or
   * named `new`) is `__init__(self) -> None`; anything else keeps its name,
   * its non-receiver parameters and its mapped return type.
   */
  function Declared(it: Item): Method {
    Emit(ItemEntry(it))
  }

  function DeclaredAll(items: seq<Item>): (ms: seq<Method>)
    ensures |ms| == |items|
    ensures forall i :: 0 <= i < |items| ==> ms[i] == Declared(items[i])
  {
    if items == [] then [] else [Declared(items[0])] + DeclaredAll(items[1..])
  }

  lemma ScanningOne(read: string -> LineInfo, st: Scan, line: string)
    ensures Scanning(read, st, [line]) == Step(st, read(line))
  {
  }

  /** What a reader says about the lines of one method. */
  ghost predicate ReadsItem(read: string -> LineInfo, indent: string, it: Item) {
    && (it.feature.Some? ==> read(CfgLine(indent, it.feature.value)).kind == FeatureGate(it.feature.value))
    && (it.isNew ==> read(AttrLine(indent, "new")).kind == NewAttr)
    && read(HeaderLine(indent, it.pub, it.header)) == LineInfo(Other, Some(it.header), 1)
    && (forall k :: 0 <= k < |it.body| ==> read(it.body[k]) == LineInfo(Other, None, 0))
    && read(indent + "}") == LineInfo(Other, None, -1)
  }

  /** Plain lines leave the scanner where it was. */
  lemma {:induction false} ScanningSkips(read: string -> LineInfo, st: Scan, lines: seq<string>)
    requires DepthPositive(st)
    requires forall k :: 0 <= k < |lines| ==> read(lines[k]) == LineInfo(Other, None, 0)
    ensures Scanning(read, st, lines) == st
    decreases |lines|
  {
    if lines != [] {
      ScanningSkips(read, st, lines[1..]);
    }
  }

  /** The lines ahead of a header only set the pending gate and constructor mark. */
  lemma ScanningAttrs(read: string -> LineInfo, es: seq<Entry>, indent: string, it: Item)
    requires ReadsItem(read, indent, it)
    ensures Scanning(read, Scan(InImpl(1), false, None, es),
              (if it.feature.Some? then [CfgLine(indent, it.feature.value)] else [])
              + (if it.isNew then [AttrLine(indent, "new")] else []))
         == Scan(InImpl(1), it.isNew, it.feature, es)
  {
    var st := Scan(InImpl(1), false, None, es);
    var gate := if it.feature.Some? then [CfgLine(indent, it.feature.value)] else [];
    var mark := if it.isNew then [AttrLine(indent, "new")] else [];
    var s1 := Scan(InImpl(1), false, it.feature, es);
    assert Scanning(read, st, gate) == s1;
    assert Scanning(read, s1, mark) == Scan(InImpl(1), it.isNew, it.feature, es);
    ScanningChain(read, st, gate, s1, mark, Scan(InImpl(1), it.isNew, it.feature, es));
  }

  /** Inside the block, the lines of one method add exactly its entry and return to depth 1. */
  lemma ScanningItem(read: string -> LineInfo, es: seq<Entry>, indent: string, it: Item)
    requires ReadsItem(read, indent, it)
    ensures Scanning(read, Scan(InImpl(1), false, None, es), ItemLines(indent, it))
         == Scan(InImpl(1), false, None, es + [ItemEntry(it)])
  {
    var st := Scan(InImpl(1), false, None, es);
    var attrs := (if it.feature.Some? then [CfgLine(indent, it.feature.value)] else [])
                 + (if it.isNew then [AttrLine(indent, "new")] else []);
    var head := HeaderLine(indent, it.pub, it.header);
    var close := indent + "}";
    var s2 := Scan(InImpl(1), it.isNew, it.feature, es);
    var s3 := Scan(InImpl(2), false, None, es + [ItemEntry(it)]);
    var s4 := Scan(InImpl(1), false, None, es + [ItemEntry(it)]);
    assert ItemLines(indent, it) == attrs + [head] + it.body + [close];
    ScanningAttrs(read, es, indent, it);
    assert Scanning(read, s2, [head]) == s3;
    ScanningChain(read, st, attrs, s2, [head], s3);
    ScanningSkips(read, s3, it.body);
    ScanningChain(read, st, attrs + [head], s3, it.body, s3);
    assert Scanning(read, s3, [close]) == s4;
    ScanningChain(read, st, attrs + [head] + it.body, s3, [close], s4);
  }

  /** The lines of the chunks, one chunk after another. */
  function Flatten(chunks: seq<seq<string>>): (r: seq<string>) {
    if chunks == [] then [] else chunks[0] + Flatten(chunks[1..])
  }

  /** Scanning chunk after chunk, each taking the scanner from one state to the next. */
  lemma {:induction false} ScanningChunks(read: string -> LineInfo, states: seq<Scan>, chunks: seq<seq<string>>)
    requires |states| == |chunks| + 1
    requires forall i :: 0 <= i < |chunks| ==> Scanning(read, states[i], chunks[i]) == states[i + 1]
    ensures Scanning(read, states[0], Flatten(chunks)) == states[|chunks|]
    decreases |chunks|
  {
    if chunks != [] {
      ScanningChunks(read, states[1..], chunks[1..]);
      ScanningChain(read, states[0], chunks[0], states[1], Flatten(chunks[1..]), states[|chunks|]);
    }
  }

  /** The lines of the methods, one method after another. */
  function ItemsChunks(indent: string, items: seq<Item>): (r: seq<seq<string>>)
    ensures |r| == |items|
    ensures forall i :: 0 <= i < |items| ==> r[i] == ItemLines(indent, items[i])
  {
    seq(|items|, i requires 0 <= i < |items| => ItemLines(indent, items[i]))
  }

  /** The scanner inside the block after the first `i` methods. */
  function After(es: seq<Entry>, items: seq<Item>, i: nat): Scan
    requires i <= |items|
  {
    Scan(InImpl(1), false, None, es + ItemEntries(items[..i]))
  }

  lemma AfterNext(es: seq<Entry>, items: seq<Item>, i: nat)
    requires i < |items|
    ensures After(es, items, i + 1).entries == After(es, items, i).entries + [ItemEntry(items[i])]
  {
    assert items[..i + 1] == items[..i] + [items[i]];
    var a := ItemEntries(items[..i + 1]);
    var b := ItemEntries(items[..i]) + [ItemEntry(items[i])];
    assert |a| == |b|;
    assert forall j :: 0 <= j < |a| ==> a[j] == b[j];
  }

  /** The scanner states between the methods of a block. */
  function Afters(es: seq<Entry>, items: seq<Item>): (r: seq<Scan>)
    ensures |r| == |items| + 1
    ensures forall i :: 0 <= i <= |items| ==> r[i] == After(es, items, i)
  {
    seq(|items| + 1, i requires 0 <= i <= |items| => After(es, items, i))
  }

  /** One method of the block takes the scanner from one state to the next. */
  lemma ScanningNth(read: string -> LineInfo, es: seq<Entry>, indent: string, items: seq<Item>, i: nat)
    requires i < |items| && ReadsItem(read, indent, items[i])
    ensures Scanning(read, After(es, items, i), ItemLines(indent, items[i])) == After(es, items, i + 1)
  {
    ScanningItem(read, After(es, items, i).entries, indent, items[i]);
    AfterNext(es, items, i);
  }

  lemma ScanningItems(read: string -> LineInfo, es: seq<Entry>, indent: string, items: seq<Item>)
    requires forall i :: 0 <= i < |items| ==> ReadsItem(read, indent, items[i])
    ensures Scanning(read, After(es, items, 0), Flatten(ItemsChunks(indent, items))) == After(es, items, |items|)
  {
    var chunks := ItemsChunks(indent, items);
    var states := Afters(es, items);
    forall i | 0 <= i < |chunks|
      ensures Scanning(read, states[i], chunks[i]) == states[i + 1]
    {
      ScanningNth(read, es, indent, items, i);
    }
    ScanningChunks(read, states, chunks);
  }

  /** What a reader says about a block and the lines around it. */
  ghost predicate ReadsBlock(read: string -> LineInfo, pre: seq<string>, outer: string, inner: string, items: seq<Item>, post: seq<string>) {
    && (forall k :: 0 <= k < |pre| ==> read(pre[k]) == LineInfo(Other, None, 0))
    && read(AttrLine(outer, "pymethods")).kind == PymethodsAttr
    && read(ImplLine(outer)).kind == ImplStart
    && (forall i :: 0 <= i < |items| ==> ReadsItem(read, inner, items[i]))
    && read(outer + "}") == LineInfo(Other, None, -1)
    && (forall k :: 0 <= k < |post| ==> read(post[k]) == LineInfo(Other, None, 0))
  }

  /** Skipped lines, then `#[pymethods]` and `impl Engine {`, open the block with nothing recorded. */
  lemma ScanningEnter(read: string -> LineInfo, pre: seq<string>, attr: string, impl: string)
    requires forall k :: 0 <= k < |pre| ==> read(pre[k]) == LineInfo(Other, None, 0)
    requires read(attr).kind == PymethodsAttr
    requires read(impl).kind == ImplStart
    ensures Scanning(read, Start, pre + [attr] + [impl]) == Scan(InImpl(1), false, None, [])
  {
    var armed := Scan(Armed, false, None, []);
    var open := Scan(InImpl(1), false, None, []);
    ScanningSkips(read, Start, pre);
    ScanningOne(read, Start, attr);
    assert Step(Start, read(attr)) == armed;
    ScanningChain(read, Start, pre, Start, [attr], armed);
    ScanningOne(read, armed, impl);
    assert Step(armed, read(impl)) == open;
    ScanningChain(read, Start, pre + [attr], armed, [impl], open);
  }


  /** The methods of an open block are recorded one after another. */
  lemma ScanningBody(read: string -> LineInfo, inner: string, items: seq<Item>)
    requires forall i :: 0 <= i < |items| ==> ReadsItem(read, inner, items[i])
    ensures Scanning(read, Scan(InImpl(1), false, None, []), Flatten(ItemsChunks(inner, items)))
         == Scan(InImpl(1), false, None, ItemEntries(items))
  {
    ScanningItems(read, [], inner, items);
    assert items[..0] == [] && items[..|items|] == items;
    assert [] + ItemEntries(items) == ItemEntries(items);
  }

  /** The closing brace of the block, then skipped lines, leave the scanner outside with its entries. */
  lemma ScanningLeave(read: string -> LineInfo, outer: string, post: seq<string>, es: seq<Entry>)
    requires read(outer + "}") == LineInfo(Other, None, -1)
    requires forall k :: 0 <= k < |post| ==> read(post[k]) == LineInfo(Other, None, 0)
    ensures Scanning(read, Scan(InImpl(1), false, None, es), [outer + "}"] + post) == Scan(Outside, false, None, es)
  {
    var open := Scan(InImpl(1), false, None, es);
    var done := Scan(Outside, false, None, es);
    ScanningOne(read, open, outer + "}");
    assert Step(open, LineInfo(Other, None, -1)) == done;
    ScanningSkips(read, done, post);
    ScanningChain(read, open, [outer + "}"], done, post, done);
  }

  /** A block with skipped lines around it records one entry per method, in order, and ends outside. */
  lemma ScanningBlock(read: string -> LineInfo, pre: seq<string>, outer: string, inner: string, items: seq<Item>, post: seq<string>)
    requires ReadsBlock(read, pre, outer, inner, items, post)
    ensures Scanning(read, Start, pre + BlockLines(outer, inner, items) + post) == Scan(Outside, false, None, ItemEntries(items))
  {
    var enter := pre + [AttrLine(outer, "pymethods")] + [ImplLine(outer)];
    var body := Flatten(ItemsChunks(inner, items));
    var open := Scan(InImpl(1), false, None, []);
    var full := Scan(InImpl(1), false, None, ItemEntries(items));
    assert pre + BlockLines(outer, inner, items) + post == enter + body + ([outer + "}"] + post);
    ScanningEnter(read, pre, AttrLine(outer, "pymethods"), ImplLine(outer));
    ScanningBody(read, inner, items);
    ScanningChain(read, Start, enter, open, body, full);
    ScanningLeave(read, outer, post, ItemEntries(items));
    ScanningChain(read, Start, enter + body, full, [outer + "}"] + post, Scan(Outside, false, None, ItemEntries(items)));
  }

  /** The extractor's reader sees one method of a well-formed block as such. */
  lemma AnalyzeItem(indent: string, it: Item)
    requires AllSpace(indent) && GoodItem(it)
    ensures ReadsItem(Analyze, indent, it)
  {
    if it.feature.Some? {
      AnalyzeCfg(indent, it.feature.value);
    }
    AnalyzeNew(indent);
    AnalyzeHeader(indent, it.pub, it.header);
    forall k | 0 <= k < |it.body|
      ensures Analyze(it.body[k]) == LineInfo(Other, None, 0)
    {
      AnalyzePlain(it.body[k]);
    }
    AnalyzeClose(indent);
  }

  /** The extractor's reader sees a well-formed block, with plain lines around it, as such. */
  lemma AnalyzeBlock(pre: seq<string>, outer: string, inner: string, items: seq<Item>, post: seq<string>)
    requires AllSpace(outer) && AllSpace(inner)
    requires forall i :: 0 <= i < |items| ==> GoodItem(items[i])
    requires forall k :: 0 <= k < |pre| ==> Plain(pre[k])
    requires forall k :: 0 <= k < |post| ==> Plain(post[k])
    ensures ReadsBlock(Analyze, pre, outer, inner, items, post)
  {
    forall k | 0 <= k < |pre|
      ensures Analyze(pre[k]) == LineInfo(Other, None, 0)
    {
      AnalyzePlain(pre[k]);
    }
    forall k | 0 <= k < |post|
      ensures Analyze(post[k]) == LineInfo(Other, None, 0)
    {
      AnalyzePlain(post[k]);
    }
    forall i | 0 <= i < |items|
      ensures ReadsItem(Analyze, inner, items[i])
    {
      AnalyzeItem(inner, items[i]);
    }
    AnalyzePymethods(outer);
    AnalyzeImpl(outer);
    AnalyzeClose(outer);
  }

  /** The stub entries of the recorded methods are the ones the methods declare. */
  lemma MethodsOfItems(items: seq<Item>)
    ensures Methods(ItemEntries(items)) == DeclaredAll(items)
  {
    var a := Methods(ItemEntries(items));
    var b := DeclaredAll(items);
    assert |a| == |b|;
    assert forall i :: 0 <= i < |a| ==> a[i] == b[i];
  }

  /**
   * A `#[pymethods] impl Engine { ... }` block, with plain lines around it,
   * yields one stub entry per method, in declaration order, each with its
   * gate, constructor handling, parameters and mapped return type.
   */
  lemma ExtractBlock(pre: seq<string>, outer: string, inner: string, items: seq<Item>, post: seq<string>)
    requires AllSpace(outer) && AllSpace(inner)
    requires forall i :: 0 <= i < |items| ==> GoodItem(items[i])
    requires forall k :: 0 <= k < |pre| ==> Plain(pre[k])
    requires forall k :: 0 <= k < |post| ==> Plain(post[k])
    ensures Extract(pre + BlockLines(outer, inner, items) + post) == DeclaredAll(items)
  {
    AnalyzeBlock(pre, outer, inner, items, post);
    ScanningBlock(Analyze, pre, outer, inner, items, post);
    MethodsOfItems(items);
  }
}
