/** What both build-session coordinators share: the files added so far
    (`AddFile`), the order in which a `range` over them visits them, and the
    calls into the Go toolchain they make. */
module Sources {
  import opened ByteStrings
  import opened Outcomes
  import opened Counters
  import opened Declaration

  /** `h.AddFile(src)`: `read` is the outcome of `ioutil.ReadFile(src)`. A
      read error panics; otherwise the content is stored under the path,
      replacing whatever was stored there before. */
  function AddFile(files: map<Bytes, Bytes>, src: Bytes, read: Outcome<Bytes>): (r: Outcome<map<Bytes, Bytes>>)
    ensures r.Ok? <==> read.Ok?
    ensures !read.Ok? ==> r.Panic? && r.reason == read.reason
    ensures r.Ok? ==> && r.value.Keys == files.Keys + {src}
                      && r.value[src] == read.value
                      && forall p :: p in files && p != src ==> r.value[p] == files[p]
  {
    match read
    case Ok(content) => Ok(files[src := content])
    case Err(e) => Panic(e)
    case Panic(e) => Panic(e)
  }

  /** Adding a path again replaces its content: only the last read counts. */
  lemma AddFileReplaces(files: map<Bytes, Bytes>, src: Bytes, a: Bytes, b: Bytes)
    ensures AddFile(AddFile(files, src, Ok(a)).value, src, Ok(b)) == AddFile(files, src, Ok(b))
  {
    assert files[src := a][src := b] == files[src := b];
  }

  /** Adding two different paths gives the same files in either order. */
  lemma AddFileCommutes(files: map<Bytes, Bytes>, p: Bytes, a: Bytes, q: Bytes, b: Bytes)
    requires p != q
    ensures AddFile(AddFile(files, p, Ok(a)).value, q, Ok(b)) == AddFile(AddFile(files, q, Ok(b)).value, p, Ok(a))
  {
    assert files[p := a][q := b] == files[q := b][p := a];
  }

  /** A visit order of a `range` over the files: every stored path exactly
      once. Go leaves the order unspecified, so it is an input. */
  predicate Enumerates(order: seq<Bytes>, files: map<Bytes, Bytes>)
  {
    && Distinct(order)
    && Stored(order, files)
    && (forall p :: p in files ==> p in order)
  }

  predicate Distinct(order: seq<Bytes>)
  {
    forall i, j :: 0 <= i < j < |order| ==> order[i] != order[j]
  }

  /** Every path of the order is stored. */
  predicate Stored(order: seq<Bytes>, files: map<Bytes, Bytes>)
  {
    forall i :: 0 <= i < |order| ==> order[i] in files
  }

  /** The calls into the Go toolchain, which this model does not look into:
      `saveFuncs` is `SaveFuncs(src, content)` (the unit's function records
      and whether it declares `main`), `parse` is the parse inside
      `addCounters` (its top-level declarations), and `reprint` is the
      re-parse of the instrumented buffer with the `covcollect` import added
      and printed back (`parser.ParseFile`, `astutil.AddImport`,
      `astToByte`). */
  datatype Frontend = Frontend(
    saveFuncs: (Bytes, Bytes) -> Outcome<(seq<FuncBlock>, bool)>,
    parse: Bytes -> Outcome<seq<Decl>>,
    reprint: Bytes -> Outcome<Bytes>)

  /** The number of counters `addCounters` inserts into a unit. */
  function CounterCount(fe: Frontend, content: Bytes): nat
  {
    if fe.parse(content).Ok? then Emitted(Events(fe.parse(content).value), 0, |content|) else 0
  }
}
