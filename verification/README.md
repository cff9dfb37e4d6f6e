# go-function-coverage in Dafny

A model of the function-coverage tool `funccover`. The tool runs in place of
the Go compiler and linker. When the compiler is called for a `main` package,
it instruments every source unit of the package: it inserts, right after the
opening brace of each top-level function, a statement that sets that
function's entry of a coverage table to `true`. It then appends a
declaration of that table (type `covcollect.Cover`) and, when a period is
configured, an `init` function that starts a periodic collector. At run time
the collector writes one `name:line:flag` line per function to a report file.

The model covers four parts of the tool.

- **Counter insertion and the declaration** (`cmd/funccover/helper.go`).
  - `Counters`: the single pass of `addCounters`, with an explicit start
    index. Its reference definition is `Weave`, and its inverse is
    `Unweave`.
  - `Declaration`: the text `declCover` renders, and a decoder that reads it
    back.
- **The build-session coordinators.**
  - `Sources`: `AddFile` and the shared calls into the Go toolchain.
  - `Session`: the top-level `instrumentation.go`, with one table for the
    whole session, a counter cursor threaded from unit to unit, and only the
    `main` unit augmented.
  - `PerFileSession`: `cmd/funccover/instrumentation.go`, where every unit
    is augmented on its own under a hash-derived suffix.
  - A `range` over a Go map visits entries in an unspecified order, so every
    visit order is an explicit input.
- **The interceptor's argument logic** (both `main.go` files).
  - `Paths`: the parts of `path/filepath` used.
  - `Arguments`: `parseFlags`, `isCompile`/`isLink`, `getSources`,
    `getOptions`/`parseOption`.
  - `Interceptor`: `pkgPath`, the import-configuration lines `link` appends,
    the decision of `instrumentPackage` and the dispatch in `main`.
- **The runtime collector** (`Collector`): `Cover.Collect`, the guard of
  `PeriodicalCollect`, and a reader of the report it writes. It covers both
  copies of the collector, `pkg/covcollect/covcollect.go` and
  `covercollect/covcollect.go`, which are identical.

Two helper modules support the rest. `ByteStrings` provides bytes, decimal
and hexadecimal rendering, and UTF-8 expansion. `Outcomes` provides the
`Ok`/`Err`/`Panic` result of a Go call.

Three behaviours of the code differ from what the code evidently intends.
The model has each one both as written and as intended, and Findings lists
them.

1. A captured flag in the `-flag=value` form panics. `strings.SplitN(_, "=", 2)`
   yields two parts, yet the value is read as `splitted[2]`, which is out of
   range; the value is part 1. `EqualsForm` chooses the reading.
2. The report flag is printed with `%d`. `Counts` is a `[]bool`, so Go prints a
   bad-verb note where `true`/`false` is intended. `FlagFormat` chooses the
   format.
3. The counter pass writes each byte through `string(content[i])`. That
   re-encodes every byte of 0x80 or more as two bytes, while the pass is
   meant to insert statements and leave the source as it was. `CopyMode`
   chooses the copy. Both sessions carry it as a setting, and their lemmas
   hold for either mode.

## Model

| member | source | states |
|---|---|---|
| Counters.Events | cmd/funccover/helper.go:55-61 | at most one event per top-level declaration; when every declaration is a function (methods included) the events are their opening braces in declaration order, and when none is there are no events |
| Counters.EventsConcat | cmd/funccover/helper.go:55-61 | the events of two declaration lists are the events of the first followed by those of the second |
| Counters.InsertCounters | cmd/funccover/helper.go:75-83 | the single pass writes the statement for counter `start + k` immediately before byte `events[k]` and copies every original byte once, in order, as the reference `Weave` describes; it returns `start` plus the number of events it met |
| Counters.EmittedWhenIncreasing | cmd/funccover/helper.go:77-78 | with strictly increasing events, event k is acted on exactly when it lies below the content length; an event at or past the end is never emitted |
| Counters.EmittedShape | cmd/funccover/helper.go:77-81 | the events the pass acts on form a strictly increasing run that stays below the content length |
| Counters.StmtInjective | cmd/funccover/helper.go:79 | two inserted statements of one table are equal only for the same counter index, so the indices of one unit are distinct |
| Counters.UnweaveWeave | cmd/funccover/helper.go:77-83 | deleting the inserted statements, knowing only their positions and lengths, gives back the original content byte for byte |
| Counters.AddCounters | cmd/funccover/helper.go:40-86 | the corrected pass (bytes copied verbatim) produces the reference text, and removing its statements gives the content back |
| Counters.AddCountersAsWritten | cmd/funccover/helper.go:77-83 | the pass as written copies each byte through `string(content[i])`; with no events the output is the UTF-8 expansion of the content |
| Counters.AddCountersFile | cmd/funccover/helper.go:40-83 | a parse error is returned and nothing is produced; a function declared without a body panics on its nil `Body`; otherwise the events are the function braces of the parsed file and each byte is copied as the mode says |
| Counters.RuneConversionCorruptsNonAscii | cmd/funccover/helper.go:82 | the two UTF-8 bytes of "é" come out as four bytes under the as-written copy |
| Counters.RuneConversionFaithfulIffAscii | cmd/funccover/helper.go:82 | with no insertions, the as-written copy reproduces the content exactly when every byte is below 0x80 |
| Counters.InstrumentedRestores | cmd/funccover/helper.go:77-83 | with the corrected copy, deleting the inserted statements from the pass's output gives the content back, for any events and any start index |
| ByteStrings.DecimalRoundTrip | cmd/funccover/helper.go:123 | the decimal rendering of a number reads back as that number |
| ByteStrings.HexRoundTrip | cmd/funccover/instrumentation.go:82 | `%x` of the six digest bytes is twelve lower-case hex digits that decode to those bytes |
| Declaration.ReadLinesOf | cmd/funccover/helper.go:122-123 | the `Lines` entries read back as the records' lines, in block order, one per block |
| Declaration.ReadNamesOf | cmd/funccover/helper.go:125-126 | the `Names` entries of quote-free names read back as the names, in block order |
| Declaration.ReadFalsesOf | cmd/funccover/helper.go:128-129 | the `Counts` section holds exactly one `false,` per block |
| Declaration.DecodeInitOf | cmd/funccover/helper.go:132-135 | the `init` tail reads back as the period text and the file name when the period is positive, and is empty otherwise |
| Declaration.DeclRoundTrip | cmd/funccover/helper.go:89-135 | the declaration reads back as `Len` equal to the block count, the lines, the names, that many counts, and the collector arguments exactly when the period is positive |
| Sources.AddFile | instrumentation.go:32-49 | a read error panics; otherwise the content is stored under the path and every other path keeps its content |
| Sources.AddFileReplaces | cmd/funccover/instrumentation.go:47-64 | adding a path again replaces its content: only the last read counts |
| Sources.AddFileCommutes | instrumentation.go:47 | adding two different paths gives the same files in either order |
| Session.SurveyOk | instrumentation.go:57-61 | the first loop fails exactly when some unit's records cannot be saved |
| Session.SurveyTableLength | instrumentation.go:62 | the session table holds as many records as all units together |
| Session.SurveyTableSlice | instrumentation.go:57-62 | the table is every unit's records in visit order, each unit's records at its own offsets |
| Session.SurveyMain | instrumentation.go:63-65 | the main unit is the last visited unit that declares `main` |
| Session.SurveyNoMain | instrumentation.go:53-66 | with no unit declaring `main`, the main path stays empty |
| Session.UnitOutput | instrumentation.go:72-105 | a unit succeeds exactly when it parses, every function has a body and, for the main unit, the re-print succeeds; a parse error is passed on with its reason, a function without a body panics, and a successful unit moves the cursor past exactly its own counters, whatever the copy mode |
| Session.PlaceCursor | instrumentation.go:68-75 | the cursor after n units is the number of counters of those units |
| Session.PlaceOk | instrumentation.go:70-89 | the second loop fails exactly when some unit fails at its own cursor |
| Session.PlaceKeys | instrumentation.go:70-106 | the files produced by the second loop are exactly the visited paths |
| Session.PlaceOutput | instrumentation.go:81-105 | each visited unit's file is its own output, computed from its own cursor |
| Session.InstrumentKeys | instrumentation.go:51-109 | a successful result holds one output per added path and nothing else |
| Session.InstrumentOutputs | instrumentation.go:70-105 | every unit parsed and no function without a body; a unit other than the main one gets its instrumented buffer (copied in the session's mode), counters starting at the number before it; the main one gets the buffer re-printed with the import, then the declaration of the whole session table |
| Session.CorrectedOutputRestores | instrumentation.go:72-84 | with the corrected copy, deleting the inserted statements from a unit other than the main one gives its source back |
| Session.AsWrittenReencodes | instrumentation.go:72-84 | as written, a unit other than the main one that gets no counters comes out unchanged exactly when it is pure ASCII |
| Session.InstrumentWithoutMain | instrumentation.go:81-84 | without a `main` unit no unit is re-parsed and none gets a declaration |
| Session.CounterRangesDisjoint | instrumentation.go:68-75 | the cursor never moves back, so unit i's counters (from its offset to the next one) end at or before the offset of any later unit j: the ranges do not overlap |
| Session.OffsetsAgree | instrumentation.go:57-75 | when every unit has one counter per record, the counter cursor and the table offset agree after every unit |
| Session.CountersMatchTable | instrumentation.go:57-75 | with one visit order, counter k of the session names table entry k |
| Session.CountersMismatchAsWritten | instrumentation.go:57-70 | when the two loops visit two units in different orders, the first unit's function is entry 0 of the session table, yet on success that unit's file is the unit pass run with the cursor at 2, so its counter is 2 |
| PerFileSession.SuffixShape | cmd/funccover/instrumentation.go:81-82 | the unit suffix is twelve lower-case hex digits that spell the first six digest bytes of the path's hash |
| PerFileSession.UnitDeclaresOwnRecords | cmd/funccover/instrumentation.go:72-109 | a unit fails on a save or parse error and panics on a function without a body; it succeeds exactly when the save, the parse, the body check and the re-print all succeed, and then its output is the re-printed buffer followed by a declaration of only its own records under its own suffix, collecting into `<fileName>_<path>` exactly when the period is positive |
| PerFileSession.GatherOk | cmd/funccover/instrumentation.go:72-93 | the loop fails exactly when some unit fails |
| PerFileSession.GatherOutputs | cmd/funccover/instrumentation.go:72-112 | the result holds exactly the visited paths, each mapped to its own unit's output |
| PerFileSession.OrderIndependent | cmd/funccover/instrumentation.go:66-113 | any two visit orders succeed together and give the same files, one per stored path |
| Collector.Collect | pkg/covcollect/covcollect.go:46-62 | the call panics exactly when there is no argument, the file cannot be created, or a name or line is missing for a count; on creation `args[0]` holds the report (one `name:line:flag` line per count, in index order, as `ReportRoundTrip` reads back) and no other file changes |
| Collector.CollectTruncates | pkg/covcollect/covcollect.go:48 | the report file's content does not depend on what it held before |
| Collector.CollectIdempotent | covercollect/covcollect.go:31-47 | collecting again with an unchanged table changes nothing |
| Collector.CollectIgnoresLenAndExtraArgs | pkg/covcollect/covcollect.go:25-30 | `Len` and every argument after the first have no effect |
| Collector.ReportRoundTrip | pkg/covcollect/covcollect.go:60-62 | the report reads back as exactly the writable entries, one line each, in index order, with the name and line at the same index as the count |
| Collector.PeriodicalCollect | pkg/covcollect/covcollect.go:32-37 | a period that does not parse or is not positive returns at once and writes nothing |
| Collector.TicksSettle | covercollect/covcollect.go:24-28 | any positive number of ticks with the same table leaves the files as one collection does |
| Collector.ReportExample | pkg/covcollect/covcollect.go:61 | the table a,b,c with lines 10,20,30 and flags true,false,true reports `a:10:true\nb:20:false\nc:30:true\n` in the corrected format |
| Collector.ReportExampleAsWritten | covercollect/covcollect.go:46 | as written, a set flag prints `%!d(bool=true)`, which differs from the corrected report |
| Paths.DirJoinBase | cmd/funccover/main.go:185 | splitting an absolute path at its last slash and joining the parts again gives the path back |
| Paths.StemOf | main.go:140-150 | a slash-free name is the stem of `<dir>/<name><ext>` for any single extension |
| Arguments.ParseFlags | main.go:100-115 | a negative period, then an empty output name, then a missing command is reported, first failure first; no error exactly when all three hold |
| Arguments.ToolRecognised | main.go:140-162 | `<dir>/<name><ext>` is recognised as tool `name` and as no other tool |
| Arguments.OnlyLastExtension | cmd/funccover/main.go:143-153 | only the last extension is stripped: `compile.go` names the compiler, `compile.go.exe` does not |
| Arguments.GetSources | main.go:117-128 | the Go files in their order and the other arguments in their order, together a permutation of the arguments |
| Arguments.KeepConcat | main.go:120-126 | the split respects concatenation, so argument order is kept |
| Arguments.KeepPartition | cmd/funccover/main.go:120-131 | every argument lands in exactly one of the two lists |
| Arguments.SetOption | main.go:306-312 | only `-o`, `-p` and `-importcfg` set an option, each its own, leaving the others as they were |
| Arguments.SplitEquals | main.go:295 | `SplitN(s, "=", 2)` is one part without `=`, or two parts split at the first `=` that rejoin to s |
| Arguments.ParseOption | main.go:294-316 | a step consumes two tokens exactly when there is no `=` and the next token is empty or does not start with `-`, and then sets the option; otherwise it consumes one; as written the `=` form of a captured flag panics |
| Arguments.Scan | main.go:274-292 | a scan whose first token is empty panics; one whose first token does not start with `-` ends at once with the options unchanged |
| Arguments.ScanPanics | main.go:280-304 | the scan panics exactly when the token it stops on (the first token it would start a step on that is not a flag) is empty, or, as written, when one of its steps is a captured flag in the `=` form; an empty token consumed as a value does no harm |
| Arguments.ScanIgnoresAfterStop | main.go:280-283 | unless the token the scan stops on is empty, the tokens from it on have no effect on the options |
| Arguments.ScanOrigin | cmd/funccover/main.go:307-349 | each option ends as its starting value or as the value that follows its own flag somewhere in the tokens |
| Arguments.LaterOverrides | main.go:280-313 | whatever tokens come before, when the scan starts a step on a captured flag followed by a value and no later token names that flag, the option ends as that value |
| Arguments.EqualsFormPanics | main.go:295-304 | as written, `-o=x` and the like panic whatever follows |
| Arguments.EqualsFormSets | cmd/funccover/main.go:328-337 | read as intended, the `=` form sets the option to the text after the first `=` and consumes one token |
| Interceptor.PkgPathOf | cmd/funccover/main.go:273 | for `<root>/<tools>/<platform>/<tool>` the archive directory is `<root>/<platform>` |
| Interceptor.ArchiveLineRoundTrip | cmd/funccover/main.go:275-276 | a `packagefile <path>=<archive>` line reads back as the path and the archive |
| Interceptor.CollectorLineReadsBack | cmd/funccover/main.go:272-275 | the first line names `covcollect` and `cov_pkg.a` in the configuration's directory |
| Interceptor.LinkLinesPassthrough | cmd/funccover/main.go:256-265 | `link` fails only when the scan does, and writes nothing exactly when the output or the configuration is missing |
| Interceptor.LinkLinesContent | cmd/funccover/main.go:272-302 | otherwise it writes 28 lines: the collector's archive, then the 27 standard packages in order, duplicates kept, each reading back as that package under `pkgPath` |
| Interceptor.StdPackagesRepeat | cmd/funccover/main.go:296-299 | `internal/syscall/unix` and `internal/reflectlite` are each listed twice |
| Interceptor.RewrittenArgsShape | main.go:233-236 | the rewritten command is the non-Go arguments in order, then one copy in `dir` per Go file, as many arguments as before |
| Interceptor.InstrumentPackageDecides | main.go:164-241 | a failed option scan panics; the compile is left alone exactly when an option is missing or the package is not `main`; a `main` compile without Go files panics; otherwise its Go files are instrumented into `direc` or the output's directory and compiled from there |
| Interceptor.DecideCases | cmd/funccover/main.go:167-254 | the same decision for any outcome of the option scan, failures passed on unchanged |
| Interceptor.InterceptChangesOnlyCompile | cmd/funccover/main.go:83-98 | only a compile command can be changed; any other command runs as given, and a bare link command panics only in the per-file variant |

## Left out

- Go parsing, printing and import insertion are not modelled: `parser.ParseFile`, `printer.Fprint`, `astutil.AddImport` and `astToByte`. They are uninterpreted `Frontend` functions. The same holds for `SaveFuncs`, which is not part of this model, so a unit's records and its `main` flag are inputs.
- SHA-256 is not modelled; it is an uninterpreted function that returns six bytes.
- The `text/template` engine is not modelled; `declCover` is rendered by concatenation.
- The period's `time.Duration` printing is not modelled; it is an input text `periodText`.
- The template never fails to parse or execute, so the `panic(err)` branches of `declCover` are not modelled.
- File and process I/O is not modelled.
  - `executeCommand` is left out.
  - So are the bash heredoc and the compile of `covcollect` (cmd/funccover/main.go:187-204).
  - So are the `os.OpenFile` appends; the lines to append are returned instead.
  - So are `WriteInstrumented`, `ioutil.ReadFile` (its outcome is an input), the debug `fmt.Println` calls and `usage`.
- The compile step's own `packagefile covcollect=...` append is not modelled: cmd/funccover/main.go:210, and main.go:187 with its hard-coded absolute path. The link step's version of this line (`CollectorLine`) is modelled.
- The hard-coded archive path of the root `link` (main.go:258) is left out, as is its dump of the configuration.
- The `log.Fatal` when `<buildDir>/importcfg` cannot be opened (main.go:192-196) is not modelled.
- `filepath.Abs` on the sources is not modelled.
- Interceptor.InstrumentPackageDecides: the instrumentation of the sources and the writing of the results is the `run` parameter, so what it writes is stated by the session modules and not here.
- The five-argument `addCounters(..., currentIndex)` that instrumentation.go:74 calls is not part of this model. It is taken to be the pass of cmd/funccover/helper.go:75-83 with counters numbered from `start`, returning the next free index (`Counters.Instrumented`).
- cmd/funccover/main.go:222-227 and 242 build the coordinator with a `suffix` field and call a two-argument `WriteInstrumented`. Both belong to the top-level instrumentation.go, not to cmd/funccover/instrumentation.go, whose `WriteInstrumented` (line 115) takes one argument. The model does not settle which coordinator that program is built with: the `run` parameter of `Interceptor` stands for either.
- The `flag` package is not modelled; `parseFlags` takes the period, the output name and the argument count.
- The ticker loop of `PeriodicalCollect` never ends and runs concurrently. Only its guard and a finite number of ticks (`Ticks`) are modelled.
- Paths.DirJoinBase: `Dir` and `Join` leave out `filepath.Clean`. The lemmas are stated for paths without `.` or `..` elements and without repeated slashes, where the two agree.
- Unicode: paths and arguments are sequences of `char`, and generated text is bytes. The per-file suffix's hash input is the path's bytes.

## Findings

| source | as written | input that shows it | evidently intended | confidence | as-written member | corrected member |
|---|---|---|---|---|---|---|
| cmd/funccover/helper.go:82 | each byte is written as `string(content[i])`, the UTF-8 encoding of the code point with that value | content `0xC3 0xA9` ("é") is written as `0xC3 0x83 0xC2 0xA9` | copy each original byte unchanged | not executed | Counters.RuneConversionCorruptsNonAscii | Counters.AddCounters |
| main.go:295-304 | after `SplitN(arg1, "=", 2)` returns two parts, the value is read as `splitted[2]` | `-o=out.a` panics with index out of range [2] with length 2 | read `splitted[1]` and consume one token | not executed | Arguments.EqualsFormPanics | Arguments.EqualsFormSets |
| pkg/covcollect/covcollect.go:61 | the flag is printed with `%d`, and Go renders a `bool` under `%d` as a bad-verb note | a set flag gives `a:10:%!d(bool=true)` | `a:10:true`: `Counts` is a `[]bool` | not executed | Collector.ReportExampleAsWritten | Collector.ReportExample |
| instrumentation.go:57-70 | the table is built in one `range` over the map and the counters are numbered in a second `range`, whose order may differ | units A (one function) and B (two), surveyed A, B but numbered B, A: A's function is table entry 0 but sets counter 2 | number the counters in the order the table was built | not executed | Session.CountersMismatchAsWritten | Session.CountersMatchTable |
