# celine-regorus builder: a Dafny model of its pure core

The builder packages the Regorus policy engine's Python bindings as the
`celine-regorus` distribution. Around network queries, `git`, `maturin` and
file copies it has four pieces of pure logic, and this project models them
and proves what they promise:

1. **The stub generator** (`stubgen_rust.py`). It reads the lines of the
   bindings' `lib.rs` and keeps the methods of the `impl Engine { … }` block
   that follows a `#[pymethods]` attribute. For each method it records the
   name, the parameters and the return type, mapped from Rust to Python
   type names, and the `#[cfg(feature = "…")]` gate in force. It drops
   repeated methods, sorts `__init__` first and the rest by name, and
   renders the `regorus.pyi` text. Modules `TypeMap` (the type mapping),
   `ArgSplit` (the parameter list), `Patterns` (the line recognisers that
   stand for the regular expressions), `Scanner`/`ScannerBlocks` (the
   line-by-line state machine), `StubOrder` (de-duplication and the stable
   sort) and `StubRender` (the text).
2. **The wheel typing injection** (`wheel.py`). It writes the stub,
   `py.typed` and a fixed `__init__.py` into the `regorus/` package of a
   built wheel and rebuilds the wheel's `RECORD` manifest: one row per file,
   `sha256=` plus the URL-safe base64 digest without padding (section 5 of
   RFC 4648), then the byte length, with the manifest's own row left
   unsigned. Modules `Base64` and `Wheel`; the archive is a map from
   POSIX path to bytes.
3. **Version logic of the builder package** (`versions.py`, `cli.py`,
   `build.py`). It covers the leftmost `d+.d+.d+` in a tag and its
   normalised text, the "is GitHub newer than PyPI" decision, the forced
   build, and the post-release version chosen for a forced build. Modules
   `Semver`, `Cli` and `Build`; `Decimal` holds the digit-string helpers.
4. **The legacy script** (`main.py`). It has its own prefix stripping, an
   anchored version match with a `(0, 0, 0)` fallback, its own
   `needs_build`, and the choice of the latest tag from the tag list. Module
   `Legacy`.

`Wrappers` (`Option`, `Result`) and `Strings` (Python's whitespace set,
`strip`, prefix and suffix tests, `join`, lexicographic order) are shared
helpers.

Each operation is a pure function. The properties are stated as `ensures`
clauses on single calls and as lemmas across calls: round trips (base64
decoding undoes the digest text; splitting a rendered parameter list gives
back its parameters; parsing a rendered version gives back the version),
order laws, frame and idempotence facts for the archive, and exact
characterisations of the selectors.

## Model

| member | source | states |
|---|---|---|
| TypeMap.MapType | celine_regorus_builder/stubgen_rust.py:23-79 | The mapping is total and yields a Python atom (`str`, `int`, `float`, `bool`, `None`, `Engine`, `Any`), an optional `X \| None` or a list `list[X]`; a type with no `>` always yields an atom |
| TypeMap.MapTypeTrim | celine_regorus_builder/stubgen_rust.py:24 | Surrounding whitespace never changes the mapped type: types equal after `strip` map alike |
| TypeMap.StripSemicolons | celine_regorus_builder/stubgen_rust.py:24 | `rstrip(";")` keeps a prefix of the text, removes only `;` characters and leaves no trailing `;` |
| TypeMap.StripLifetimesNoClose | celine_regorus_builder/stubgen_rust.py:27 | Lifetime removal leaves a type without `>` unchanged |
| TypeMap.StripLifetimesNoQuote | celine_regorus_builder/stubgen_rust.py:27 | Lifetime removal leaves a type without `'` unchanged |
| TypeMap.GenericArgOf | celine_regorus_builder/stubgen_rust.py:45-52 | The capture `head<\s*([^>]+)\s*>` of `head + x + ">"` succeeds and is `x` up to surrounding spaces |
| TypeMap.CaptureUnclosed | celine_regorus_builder/stubgen_rust.py:45-52 | With a nested generic the capture stops at the first `>`, so `Option<Vec<T>>` captures `Vec<T` |
| TypeMap.ResultRow | celine_regorus_builder/stubgen_rust.py:29-37 | `Result<T>` and `PyResult<T>` map to what `T` maps to |
| TypeMap.SpecialTable | celine_regorus_builder/stubgen_rust.py:39-42 | `()` and the empty type map to `None`, `Self` to `Engine` |
| TypeMap.PrimitiveTable | celine_regorus_builder/stubgen_rust.py:54-62 | `String`/`&str` map to `str`, `bool` to `bool`, the six integer types to `int`, `f64`/`f32` to `float` |
| TypeMap.MapPlain | celine_regorus_builder/stubgen_rust.py:39-79 | A stripped type without angle brackets maps by the special-name and primitive tables |
| TypeMap.ClassifyUnknown | celine_regorus_builder/stubgen_rust.py:64-79 | A type with an unclosed `<` that is no special name maps to `Any`, the interop check and the default agreeing |
| TypeMap.OptionRow | celine_regorus_builder/stubgen_rust.py:44-47 | `Option<T>` with a flat `T` maps to the mapping of `T` followed by ` \| None` |
| TypeMap.VecRow | celine_regorus_builder/stubgen_rust.py:49-52 | `Vec<T>` with a flat `T` maps to `list[` + mapping of `T` + `]` |
| TypeMap.NestedOptionVec | celine_regorus_builder/stubgen_rust.py:45-52 | `Option<Vec<T>>` maps to `Any \| None`, the nested generic degrading to `Any` |
| TypeMap.NestedPyResultVec | celine_regorus_builder/stubgen_rust.py:30-52 | `PyResult<Vec<T>>` maps to `Any` |
| TypeMap.UnclosedVec | celine_regorus_builder/stubgen_rust.py:50-79 | An unclosed `Vec<T` maps to `Any` |
| ArgSplit.TopComma | celine_regorus_builder/stubgen_rust.py:90-95 | A reported cut is a comma at bracket depth 0, the depth counted with `max(0, depth - 1)` on `>` |
| ArgSplit.TopCommaFirst | celine_regorus_builder/stubgen_rust.py:90-95 | The reported cut is the first comma at depth 0 |
| ArgSplit.JoinSegments | celine_regorus_builder/stubgen_rust.py:87-102 | Joining the pieces with commas gives back the parameter text: the split loses nothing and keeps order |
| ArgSplit.SegmentsUncut | celine_regorus_builder/stubgen_rust.py:90-100 | No piece holds a comma at depth 0 |
| ArgSplit.SegmentsOfJoin | celine_regorus_builder/stubgen_rust.py:87-102 | Splitting the comma-join of bracket-balanced pieces gives back those pieces |
| ArgSplit.FoldFromStart | celine_regorus_builder/stubgen_rust.py:87-102 | The character loop with its `cur`/`depth` state computes the stripped, non-empty pieces in order |
| ArgSplit.KeepFrom | celine_regorus_builder/stubgen_rust.py:96-102 | Every kept part is non-empty and is the stripped text of one piece |
| ArgSplit.KeepStripped | celine_regorus_builder/stubgen_rust.py:96-102 | Pieces already stripped and non-empty are all kept |
| ArgSplit.SplitTop | celine_regorus_builder/stubgen_rust.py:87-102 | The parts are the stripped non-empty depth-0 pieces, and each is stripped |
| ArgSplit.SplitParam | celine_regorus_builder/stubgen_rust.py:104-113 | A part is kept only if it has a `:` and is no receiver; the name kept has no `:` and is not `py` |
| ArgSplit.ParamOf | celine_regorus_builder/stubgen_rust.py:104-114 | A kept parameter's type is a mapped Python type |
| ArgSplit.NotReceiver | celine_regorus_builder/stubgen_rust.py:107-108 | A `name: type` text with a real name is never taken for `self`, `&self`, `&mut self` or a `… self` |
| ArgSplit.SplitParamText | celine_regorus_builder/stubgen_rust.py:111-114 | Splitting `name: type` at the first `:` and stripping gives back the name and the type |
| ArgSplit.ParamOfText | celine_regorus_builder/stubgen_rust.py:111-114 | `name: type` reads back as the name and the mapped type |
| ArgSplit.ParamsExact | celine_regorus_builder/stubgen_rust.py:105-115 | Parameters come out one per kept part, in order |
| ArgSplit.ParseArgs | celine_regorus_builder/stubgen_rust.py:82-115 | There are at most as many parameters as depth-0 pieces, and each has a name other than `py` without `:` and a Python type (an atom, an optional or a list) |
| ArgSplit.ParseArgsSignature | celine_regorus_builder/stubgen_rust.py:82-115 | Parsing a rendered list `n1: t1, n2: t2, …` gives back each name with its mapped type, in order |
| Patterns.LeadPadded | celine_regorus_builder/stubgen_rust.py:8-11 | Leading whitespace before a token is skipped, as `^\s*` does |
| Patterns.AttrLineMatches | celine_regorus_builder/stubgen_rust.py:8-11 | A line `#[word]` with any indentation is recognised as that attribute |
| Patterns.AttrLineOther | celine_regorus_builder/stubgen_rust.py:8-11 | An attribute line is not taken for an attribute with another first letter |
| Patterns.AttrLineNotCfg | celine_regorus_builder/stubgen_rust.py:10-11 | An attribute other than `cfg` gives no feature gate |
| Patterns.ImplLineMatches | celine_regorus_builder/stubgen_rust.py:9 | An indented `impl Engine {` line is recognised |
| Patterns.ImplBrace | celine_regorus_builder/stubgen_rust.py:9 | A recognised `impl Engine` line contains `{` |
| Patterns.CfgFeature | celine_regorus_builder/stubgen_rust.py:10 | A recognised gate is a non-empty name without `"` |
| Patterns.CfgLineMatches | celine_regorus_builder/stubgen_rust.py:10 | `#[cfg(feature = "f")]` with any indentation yields the gate `f` |
| Patterns.WordRun | celine_regorus_builder/stubgen_rust.py:16 | The name is the longest run of word characters |
| Patterns.RetText | celine_regorus_builder/stubgen_rust.py:18-19 | The captured return type is empty or starts and ends with a non-space, as the lazy `.+?` before `\s*\{\s*$` makes it |
| Patterns.RetTextOf | celine_regorus_builder/stubgen_rust.py:18-19 | `-> ret {` captures exactly `ret`, and a missing arrow captures nothing |
| Patterns.MatchFn | celine_regorus_builder/stubgen_rust.py:14-20 | A recognised header has an identifier name and an argument text without `)` |
| Patterns.MatchHeaderLine | celine_regorus_builder/stubgen_rust.py:14-20 | Any well-formed header line, `pub` or not, reads back as its name, arguments and return type |
| Patterns.FnStartPub | celine_regorus_builder/stubgen_rust.py:15 | `pub fn` after indentation is accepted |
| Patterns.FnStartPlain | celine_regorus_builder/stubgen_rust.py:15 | `fn` after indentation is accepted |
| Patterns.SameLineBodyIgnored | celine_regorus_builder/stubgen_rust.py:14-20 | A header whose body closes on the same line is not recognised, since `{` must end the line |
| Patterns.FnBrace | celine_regorus_builder/stubgen_rust.py:14-20 | A recognised header line contains `{` |
| Patterns.BraceDelta | celine_regorus_builder/stubgen_rust.py:118-120 | A line without `{` never deepens, and one without `}` never closes |
| Patterns.SplitLines | celine_regorus_builder/stubgen_rust.py:124 | No line holds a line break, and there are no lines exactly when the text is empty |
| Patterns.SplitLinesNoBreak | celine_regorus_builder/stubgen_rust.py:124 | No line from `splitlines` contains a line-break character |
| Patterns.SplitJoinLines | celine_regorus_builder/stubgen_rust.py:124 | `splitlines` gives back lines that were joined, each ended by a newline |
| Scanner.Emit | celine_regorus_builder/stubgen_rust.py:156-164 | A header marked `#[new]` or named `new` becomes exactly `("__init__", [], "None", gate)`; any other header keeps its name, its parameters as `_parse_args` reads them and its return type as `_map_type` maps it; every method keeps the pending gate and none is called `new` |
| Scanner.Methods | celine_regorus_builder/stubgen_rust.py:155-164 | One method per recorded header, in scan order |
| Scanner.Kind | celine_regorus_builder/stubgen_rust.py:136-147 | A line classed as a gate carries a non-empty name; one classed as `#[pymethods]` is that attribute |
| Scanner.InBlock | celine_regorus_builder/stubgen_rust.py:154-178 | Inside the block a line appends at most one method, and only when it is a header |
| Scanner.Step | celine_regorus_builder/stubgen_rust.py:135-178 | One line never removes or changes recorded methods, appends at most one, and outside the block only `#[pymethods]` changes the phase |
| Scanner.ScanningAppend | celine_regorus_builder/stubgen_rust.py:135-178 | Scanning two runs of lines in turn is scanning their concatenation |
| Scanner.Extract | celine_regorus_builder/stubgen_rust.py:135-178 | At most one method per header-shaped line; every method has an identifier name other than `new` and a gate that is absent or names a feature |
| Scanner.ExtractNoPymethods | celine_regorus_builder/stubgen_rust.py:145-152 | Text without a `#[pymethods]` line yields no method |
| Scanner.ScanningInvariant | celine_regorus_builder/stubgen_rust.py:149-178 | Inside the block the depth stays positive, and every recorded name is an identifier with a well-formed gate |
| ScannerBlocks.AnalyzePlain | celine_regorus_builder/stubgen_rust.py:136-170 | A line with none of the markers is inert: no kind, no header, depth unchanged |
| ScannerBlocks.AnalyzeHeader | celine_regorus_builder/stubgen_rust.py:155-170 | A header line is read as its header and opens one brace |
| ScannerBlocks.AnalyzeClose | celine_regorus_builder/stubgen_rust.py:170-178 | An indented `}` closes one brace |
| ScannerBlocks.ScanningSkips | celine_regorus_builder/stubgen_rust.py:154-178 | Inert lines change nothing |
| ScannerBlocks.ScanningAttrs | celine_regorus_builder/stubgen_rust.py:136-143 | A method's `#[new]` and `cfg` lines leave the matching pending attributes |
| ScannerBlocks.ScanningItem | celine_regorus_builder/stubgen_rust.py:136-170 | A method's attributes, header, body and closing brace record exactly that method and return to depth 1 with nothing pending |
| ScannerBlocks.ScanningEnter | celine_regorus_builder/stubgen_rust.py:145-152 | `#[pymethods]` then `impl Engine {` enters the block at depth 1 |
| ScannerBlocks.ScanningLeave | celine_regorus_builder/stubgen_rust.py:170-178 | The closing `}` at depth 1 leaves the block and resets every flag |
| ScannerBlocks.ScanningBlock | celine_regorus_builder/stubgen_rust.py:135-178 | A whole block in inert context records its methods in order and ends outside |
| ScannerBlocks.AnalyzeBlock | celine_regorus_builder/stubgen_rust.py:136-170 | The line recognisers read such a block as the scan needs |
| ScannerBlocks.MethodsOfItems | celine_regorus_builder/stubgen_rust.py:156-164 | The methods emitted for a block are its declared methods |
| ScannerBlocks.ExtractBlock | celine_regorus_builder/stubgen_rust.py:123-178 | Extracting from text holding one `#[pymethods] impl Engine` block gives exactly its declared methods, in source order |
| StubOrder.Dedup | celine_regorus_builder/stubgen_rust.py:181-188 | De-duplication keeps exactly the methods of its input, each once |
| StubOrder.DedupOrder | celine_regorus_builder/stubgen_rust.py:181-188 | Kept methods appear in the order of their first occurrences |
| StubOrder.DedupNoDup | celine_regorus_builder/stubgen_rust.py:181-188 | A list without repeats is left unchanged |
| StubOrder.DedupIdempotent | celine_regorus_builder/stubgen_rust.py:181-188 | De-duplicating twice is de-duplicating once |
| StubOrder.Rank | celine_regorus_builder/stubgen_rust.py:190 | The first sort key is 0 exactly for `__init__` |
| StubOrder.KeyLessTransitive | celine_regorus_builder/stubgen_rust.py:190 | The sort order is transitive |
| StubOrder.KeyLessConnected | celine_regorus_builder/stubgen_rust.py:190 | Methods with different names are always ordered one way or the other |
| StubOrder.KeyLessSameName | celine_regorus_builder/stubgen_rust.py:190 | Methods with the same name tie |
| StubOrder.Insert | celine_regorus_builder/stubgen_rust.py:190 | Insertion adds exactly the one method |
| StubOrder.InsertSorted | celine_regorus_builder/stubgen_rust.py:190 | Insertion into a sorted list keeps it sorted |
| StubOrder.Sort | celine_regorus_builder/stubgen_rust.py:190 | The sort is a permutation |
| StubOrder.SortSorted | celine_regorus_builder/stubgen_rust.py:190 | The result is sorted: `__init__` first, the rest by name |
| StubOrder.SortStable | celine_regorus_builder/stubgen_rust.py:190 | Methods of equal name keep their relative order |
| StubOrder.StableSortUnique | celine_regorus_builder/stubgen_rust.py:190 | Two sorted lists with the same same-name subsequences are equal |
| StubOrder.SortIsStableSort | celine_regorus_builder/stubgen_rust.py:190 | Any sorted arrangement that keeps same-name order is the sort's result, as for Python's stable `list.sort` |
| StubOrder.NoDupPermutation | celine_regorus_builder/stubgen_rust.py:181-190 | Sorting a list without repeats leaves none |
| StubOrder.Tidy | celine_regorus_builder/stubgen_rust.py:180-190 | The final list holds exactly the extracted methods, each once, `__init__` first and the rest by name |
| StubRender.ParamTexts | celine_regorus_builder/stubgen_rust.py:212 | The rendered parameters are `self` then each `name: type`, in order |
| StubRender.Render | celine_regorus_builder/stubgen_rust.py:192-216 | The stub is the preamble and body lines, each ended by a newline, and `splitlines()` gives those lines back when no method line holds a break |
| StubRender.PreambleNoBreak | celine_regorus_builder/stubgen_rust.py:192-201 | The preamble followed by lines without breaks comes back from `splitlines()` |
| StubRender.StubLinesCount | celine_regorus_builder/stubgen_rust.py:192-215 | The stub has the 8 preamble lines, then one line per method plus one per gated method (or the single `...`), then the final empty line |
| StubRender.MethodsLinesDefs | celine_regorus_builder/stubgen_rust.py:206-213 | The `def` lines of the body are those of the methods, one each, in order |
| StubRender.MethodsLinesNotes | celine_regorus_builder/stubgen_rust.py:207-208 | The comment lines of the body are the gate notes of the gated methods, in order |
| StubRender.NoteBeforeDef | celine_regorus_builder/stubgen_rust.py:207-213 | A gated method's note sits right before its `def` line |
| StubRender.DefLineStarts | celine_regorus_builder/stubgen_rust.py:209-213 | Every method renders to a `def` line, never to a comment |
| StubRender.BodyDefs | celine_regorus_builder/stubgen_rust.py:203-213 | The `def` lines of the class body are those of the methods, one each, in order; an empty class has none |
| StubRender.GenerateNoPymethods | celine_regorus_builder/stubgen_rust.py:123-216 | A `lib.rs` without `#[pymethods]` yields the stub of an empty class |
| StubRender.Generate | celine_regorus_builder/stubgen_rust.py:123-216 | The stub is rendered from a list holding exactly the extracted methods, each once, `__init__` first and the rest by name, and its `def` lines are those methods' lines in that order |
| Base64.SymVal | celine_regorus_builder/wheel.py:17-18 | Each 6-bit value has a URL-safe symbol, never `=`, that decodes back to it |
| Base64.DigitsAlphabet | celine_regorus_builder/wheel.py:17-18 | The digits use only the URL-safe alphabet |
| Base64.DigitsLength | celine_regorus_builder/wheel.py:17-18 | `n` bytes give ⌈4n/3⌉ digits |
| Base64.EncodeLength | celine_regorus_builder/wheel.py:18 | The padded encoding's length is a multiple of 4 |
| Base64.StripEndPadding | celine_regorus_builder/wheel.py:18 | `rstrip("=")` removes the padding and nothing else |
| Base64.UrlB64 | celine_regorus_builder/wheel.py:17-18 | The unpadded text is the digits: ⌈4n/3⌉ URL-safe symbols, never `=` |
| Base64.DigestLength | celine_regorus_builder/wheel.py:17-18 | A 32-byte digest gives 43 characters |
| Base64.DecodeDigits | celine_regorus_builder/wheel.py:17-18 | Decoding the digits gives back the bytes |
| Base64.UrlB64RoundTrip | celine_regorus_builder/wheel.py:17-18 | Decoding the unpadded text gives back the bytes, so distinct digests have distinct texts |
| Wheel.DistInfos | celine_regorus_builder/wheel.py:43 | The candidates are exactly the top-level names ending in `.dist-info`: each candidate is one, and each one is a candidate |
| Wheel.Rows | celine_regorus_builder/wheel.py:50-58 | There is one manifest row per file of the workspace |
| Wheel.RecordRow | celine_regorus_builder/wheel.py:21-23 | A row has three fields: the path, `sha256=` plus text that decodes to the file's digest, and the size in canonical decimal that parses back to it |
| Wheel.RecordDigestLength | celine_regorus_builder/wheel.py:21-23 | A 32-byte digest gives a 50-character hash field |
| Wheel.InjectSucceeds | celine_regorus_builder/wheel.py:26-69 | Injection succeeds exactly when `regorus` exists, the three package entries can be written, exactly one `*.dist-info` exists and its `RECORD` can be written |
| Wheel.Inject | celine_regorus_builder/wheel.py:26-69 | Without `regorus` the call fails with the missing-package error; a success has exactly one `*.dist-info`, holds the input's paths plus the three package entries and `RECORD`, and keeps every other file's bytes |
| Wheel.InjectNoPackage | celine_regorus_builder/wheel.py:35-37 | Without `regorus` the call fails with the missing-package error, and the wheel is left unchanged |
| Wheel.InjectDistInfoCount | celine_regorus_builder/wheel.py:43-45 | With zero or several `*.dist-info` the call fails naming them, and the wheel is left unchanged |
| Wheel.InjectShape | celine_regorus_builder/wheel.py:39-61 | A success is the manifest rebuild of the injected workspace under the one `*.dist-info` |
| Wheel.TypedTopNames | celine_regorus_builder/wheel.py:39-43 | Writing the three entries adds no top-level name, so the `*.dist-info` count is the input's |
| Wheel.TypedWritable | celine_regorus_builder/wheel.py:39-41 | Writing one package entry does not block writing the next |
| Wheel.InjectFiles | celine_regorus_builder/wheel.py:39-69 | The result holds the input's files plus the three entries and `RECORD`: the stub, an empty `py.typed`, the fixed `__init__.py`, and every other file byte-identical |
| Wheel.RebuiltFrame | celine_regorus_builder/wheel.py:39-61 | Files other than the three entries and `RECORD` keep their bytes |
| Wheel.RebuiltTyped | celine_regorus_builder/wheel.py:39-41 | The three entries hold the stub, nothing and the fixed initialiser |
| Wheel.RebuiltKeys | celine_regorus_builder/wheel.py:39-61 | The rebuilt workspace holds exactly the input's paths plus the three entries and `RECORD` |
| Wheel.RebuiltManifest | celine_regorus_builder/wheel.py:50-61 | `RECORD` is written with rows for exactly the other files, each that file's row over its final bytes, and its own unsigned row exactly when it existed before |
| Wheel.InjectRecord | celine_regorus_builder/wheel.py:50-61 | After a successful injection the manifest describes every other file of the result by its final bytes |
| Wheel.RebuiltDistInfos | celine_regorus_builder/wheel.py:43-61 | The rebuild keeps the single `*.dist-info` |
| Wheel.InjectAgain | celine_regorus_builder/wheel.py:26-69 | Re-injecting the same stub succeeds and only rewrites `RECORD` |
| Wheel.RebuiltTwice | celine_regorus_builder/wheel.py:50-61 | Rebuilding the manifest twice gives the same files as rebuilding it once, `RECORD` written from the same rows |
| Wheel.RowsIgnoreRecord | celine_regorus_builder/wheel.py:50-58 | The rows do not depend on the old manifest's bytes |
| Wheel.InjectIdempotent | celine_regorus_builder/wheel.py:39-61 | When the input has a `RECORD`, re-injecting the same stub succeeds with the same files, every file other than `RECORD` byte for byte and `RECORD` written from the same rows |
| Wheel.InjectStable | celine_regorus_builder/wheel.py:26-69 | From the second injection on, re-injecting the same stub succeeds with the same files, every file other than `RECORD` byte for byte and `RECORD` written from the same rows |
| Wheel.StubMakesPackage | celine_regorus_builder/wheel.py:35-39 | An injected wheel has the package, so the package check passes again |
| Semver.RunMaximal | celine_regorus_builder/versions.py:5 | A digit run is greedy: all digits, and the next character is none |
| Semver.MatchPattern | celine_regorus_builder/versions.py:5 | A match at a position exists exactly when three digit runs separated by dots start there |
| Semver.ValueParse | celine_regorus_builder/versions.py:12 | A group's value is the decimal value of its digits, as `int` gives |
| Semver.Leftmost | celine_regorus_builder/versions.py:9 | The search finds the leftmost position with a match, or reports that there is none |
| Semver.ParseSemver | celine_regorus_builder/versions.py:14-18 | `parse_semver` is None exactly when the stripped text has no match, and otherwise gives the match at the leftmost position that has one |
| Semver.LeftmostAt | celine_regorus_builder/versions.py:14-18 | A match preceded by no match is the one found |
| Semver.ParseAfter | celine_regorus_builder/versions.py:14-18 | Text without digits in front of a match does not change the result |
| Semver.ParsePrefixedTag | celine_regorus_builder/versions.py:14-18 | `regorus-v0.5.0` parses to (0, 5, 0) |
| Semver.ParsePostRelease | celine_regorus_builder/versions.py:14-18 | `0.5.0.post1` parses to (0, 5, 0) |
| Semver.MatchParts | celine_regorus_builder/versions.py:5-12 | Three digit strings joined by dots, then a non-digit, match as their decimal values |
| Semver.MatchShow | celine_regorus_builder/versions.py:5-12 | A rendered version matches as itself, whatever non-digit follows |
| Semver.ParseShow | celine_regorus_builder/versions.py:7-18 | Parsing a rendered version gives it back |
| Semver.TagToVersion | celine_regorus_builder/versions.py:7-12 | `tag_to_version` fails, naming the stripped tag, exactly when `parse_semver` gives None, and otherwise gives the canonical rendering `a.b.c` of the parsed version, decimals without leading zeros, which parses back to the same version |
| Semver.ShowInjective | celine_regorus_builder/versions.py:12 | Distinct versions render differently |
| Semver.TagToVersionZeros | celine_regorus_builder/versions.py:7-12 | `v01.02.03` normalises to `1.2.3`, without leading zeros |
| Semver.IsNewerStrictOrder | celine_regorus_builder/versions.py:20-27 | "Newer" is irreflexive, asymmetric and transitive |
| Semver.IsNewerByVersion | celine_regorus_builder/versions.py:20-27 | "Newer" depends only on the parsed versions |
| Semver.IsNewer | celine_regorus_builder/versions.py:20-27 | A tag without a version is never newer; a tag with one is newer than a PyPI version without one, and otherwise exactly when its version is greater |
| Cli.NeedsBuild | celine_regorus_builder/cli.py:11-19 | A build is needed exactly when PyPI has no version (None or empty), or the tag parses and PyPI's does not or is smaller |
| Cli.ShouldBuild | celine_regorus_builder/cli.py:65 | A forced run always builds; otherwise it builds exactly when a build is needed |
| Cli.NoSemverNoBuild | celine_regorus_builder/cli.py:15-19 | A tag without a version never needs a build while PyPI has one |
| Cli.SameVersionNoBuild | celine_regorus_builder/cli.py:15-19 | Equal versions need no build |
| Cli.PublishedUpToDate | celine_regorus_builder/cli.py:11-19 | Once the tag's normalised version is on PyPI, no build is needed |
| Cli.NeedsBuildNewer | celine_regorus_builder/cli.py:15-19 | A tag newer than one that needs a build needs one too |
| Build.EffectiveVersion | celine_regorus_builder/build.py:23-41 | Unforced, the upstream version; forced with a timestamp, its post-release; forced otherwise, a post-release of the upstream version or the reused PyPI version |
| Build.FixedTimestampAgrees | celine_regorus_builder/build.py:31-32 | A fixed timestamp decides the version whatever PyPI has and whatever the clock says |
| Build.ForcedWithoutTimestamp | celine_regorus_builder/build.py:33-41 | Without a timestamp, a PyPI post-release of the same base is reused and otherwise the clock's post-release is used |
| Build.PostParses | celine_regorus_builder/build.py:31-41 | A post-release of a rendered version parses back to that version |
| Build.PyprojectVersion | celine_regorus_builder/build.py:53-61 | The written version fails exactly for tags without a version; unforced it is the tag's normalised version, and forced it is `effective_version` of that normalised version |
| Build.PyprojectVersionParses | celine_regorus_builder/build.py:53-61 | The written version parses to the tag's version, unless a PyPI post-release is reused |
| Legacy.StripVs | main.py:174 | `lstrip("v")` leaves no leading `v` |
| Legacy.StripVsSplit | main.py:174 | What `lstrip` removes is all `v`s, and the rest of the tag is kept |
| Legacy.TagToVersion | main.py:157-174 | The normalised tag is the tag without `regorus-v`, else without `regorus-`, else without its leading `v`s, after which no `v` leads |
| Legacy.VersionToTuple | main.py:177-182 | The tuple is the anchored match, or (0, 0, 0) when there is none |
| Legacy.NeedsBuild | main.py:185-210 | Without a PyPI release a build is always needed; with one, exactly when the tag's tuple is greater, which needs a tag that matches the pattern |
| Legacy.RestSplit | main.py:177-182 | The optional prefixes hold no digit |
| Legacy.AnchoredTagToVersion | main.py:157-182 | Normalising a matching tag keeps its tuple |
| Legacy.NeedsBuildMatching | main.py:185-210 | For a matching tag, a build is needed exactly when its tuple is greater than PyPI's |
| Legacy.NeedsBuildEmpty | main.py:185-210 | An empty PyPI version counts as (0, 0, 0) |
| Legacy.PublishedUpToDate | main.py:185-210 | Equal tuples need no build |
| Legacy.AnchoredAgreesWithParse | main.py:177-182 | Where the anchored pattern matches, the builder package's search finds the same version |
| Legacy.ParsersDiffer | main.py:177-182 | On `x1.2.3` the anchored pattern gives (0, 0, 0) while the search finds (1, 2, 3) |
| Legacy.BelowOrder | main.py:95 | The (major, minor, patch, name) order is a strict total order |
| Legacy.BestSpec | main.py:80-98 | The selector finds nothing exactly when no name matches, and otherwise a matching name maximal in that order |
| Legacy.LatestTag | main.py:75-101 | No tags gives None; no matching name gives the first tag; otherwise the result is a maximal matching tag in the (major, minor, patch, name) order |
| Legacy.LatestTagUnique | main.py:75-101 | Any maximal matching tag is the one selected |

## Left out

- Network access (GitHub and PyPI queries), `git clone`, `maturin` and other subprocesses, temporary directories, argument parsing and `GITHUB_OUTPUT`: these are I/O around the core.
- `update_pyproject_toml` beyond the choice of the version (build.py:53-61): the rest rewrites TOML text with multi-line regular expressions.
- Reading `lib.rs` and writing the stub: the lossy UTF-8 decode of the input and the final `.encode("utf-8")` of the stub text (stubgen_rust.py:216) are left out; the model reads and writes the text as characters, splitting it with `splitlines` (`Patterns.SplitLines`) and returning the joined text from `StubRender.Render`.
- `\d` is modelled as the ASCII digits only; Python also accepts other Unicode decimal digits.
- Zip reading and writing, DEFLATE and the entry order of `rglob`: the wheel is a map from POSIX path to bytes. Directories are implied by the paths, and a file that stands where a directory is needed makes the call fail with an I/O error.
- SHA-256, UTF-8 encoding and the `csv` writer's byte format are parameters of the wheel model (`Wheel.Env`). The SHA-256 function is any function.
- The atomic replace is one final step: a failure returns the input unchanged.
- The clock (`post_ts`) is the parameter `clockTs`.
- `base` is the function parameter `base`, because versions.py does not define it (see "## Quirks of the code").
- Wheel.InjectIdempotent: `RECORD` is equal as bytes only because the manifest writer `Env.csv` is given the rows keyed by path. The code writes the rows in `rglob` walk order, and a second run walks the files in the order the first run zipped them, so the order of the rows in `RECORD`, and with it its bytes, may differ between runs. The model promises the same rows, not the same row order.
- Wheel.InjectStable: the same holds: the files and the rows of `RECORD` stay fixed, but its row order is not modelled.
- Wheel.RebuiltTwice: the same holds for rebuilding the manifest twice.
- ScannerBlocks.ExtractBlock: stated for one block whose surrounding lines, method bodies and attribute lines use no `#`, braces or `fn`-shaped text other than the block's own, not for all `lib.rs` texts. The general facts are `Scanner.Step`, `Scanner.ScanningInvariant` and `Scanner.Extract`.
- Semver.ParseShow: stated for suffixes that do not end in whitespace, because `strip` would otherwise change the text.
- Semver.ParseAfter: stated for text that does not start or end with whitespace, for the same reason.
- Legacy.AnchoredAgreesWithParse: stated for text that does not end in whitespace.
- Build.PostParses: stated for timestamps that do not end in whitespace.
- Build.PyprojectVersionParses: stated for digit-only timestamps, the form `post_ts` produces.

## Quirks of the code

The model keeps these behaviours of the code as they are.

- build.py imports `base` from versions.py, which does not define it, so importing build.py raises `ImportError`, and so does importing cli.py, which imports build.py. This is a defect of the code; the model takes `base` as a parameter standing for the function the import evidently expects.
- A header whose `{` does not end the line is not recognised, so a method whose body closes on the header line (`pub fn add(…) -> i64 { }`) yields no stub entry (`Patterns.SameLineBodyIgnored`).
- `Option<Vec<String>>` maps to `Any | None`, not `list[str] | None`, because the capture stops at the first `>` (`TypeMap.NestedOptionVec`).
- The pending `#[new]` and feature gate are cleared only when a header matches or the block ends, not on every line.
- The package check only tests that `regorus` exists; it does not count candidate directories.
- The manifest has its own unsigned row only when the wheel already had a `RECORD`, because the rows are collected before `RECORD` is written (`Wheel.RebuiltManifest`).
