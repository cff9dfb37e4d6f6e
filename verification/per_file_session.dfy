/** The build-session coordinator of cmd/funccover/instrumentation.go
    (`packageInstrumentation.Instrument`). Every unit is handled on its own:
    its counters are numbered from 0 under a suffix derived from the hash of
    its path, it gets the `covcollect` import, and it is followed by a
    declaration of its own function records, collected into the file named
    `<fileName>_<path>`. Whether a unit declares `main` plays no part. */
module PerFileSession {
  import opened ByteStrings
  import opened Outcomes
  import opened Counters
  import opened Declaration
  import opened Sources

  /** The coordinator's fields: the coverage file name, the period and its
      printed form (`fmt.Sprint(period)`), and how the counter pass copies
      the original bytes (`RuneConversion` as written, `Verbatim` as
      intended). */
  datatype Settings = Settings(fileName: Bytes, period: int, periodText: Bytes, mode: CopyMode)

  /** `fmt.Sprintf("%x", sum[:6])` of the path's SHA-256 sum: `hash` gives
      the six digest bytes. */
  function Suffix(hash: Bytes -> Digest6, src: Bytes): Bytes
  {
    Hex(hash(src))
  }

  /** The suffix is twelve lower-case hexadecimal digits that spell the
      digest prefix. */
  lemma SuffixShape(hash: Bytes -> Digest6, src: Bytes)
    ensures |Suffix(hash, src)| == 12
    ensures forall i :: 0 <= i < 12 ==> IsLowerHex(Suffix(hash, src)[i])
    ensures Unhex(Suffix(hash, src)) == hash(src)
  {
    HexRoundTrip(hash(src));
  }

  /** `h.fileName + "_" + src`: the file the unit's collector writes. */
  function CoverageArg(fileName: Bytes, src: Bytes): Bytes
  {
    fileName + Lit("_") + src
  }

  /** One unit: save its records, insert its counters from 0, re-print it
      with the import, then append its own declaration. */
  function UnitOutput(fe: Frontend, hash: Bytes -> Digest6, st: Settings, src: Bytes, content: Bytes): Outcome<Bytes>
  {
    var saved := fe.saveFuncs(src, content);
    if !saved.Ok? then Fail(saved)
    else
      var parsed := fe.parse(content);
      if !parsed.Ok? then Fail(parsed)
      else if !AllBodied(parsed.value) then Panic(NilBody)
      else
        var suffix := Suffix(hash, src);
        var buf := Instrumented(content, Events(parsed.value), suffix, 0, st.mode).0;
        var printed := fe.reprint(buf);
        if !printed.Ok? then Fail(printed)
        else Ok(printed.value + DeclCover(suffix, CoverageArg(st.fileName, src), st.period, st.periodText, saved.value.0))
  }

  /** Each step of the loop fails as soon as the unit's records, its counter
      pass or its re-parse fail, and panics on a function without a body; it
      succeeds exactly when none of these happens, and then the unit's text is the
      re-printed buffer followed by a declaration that reads back as the
      unit's own records under the unit's own suffix, with the collector
      started on `<fileName>_<path>` exactly when the period is positive. */
  lemma UnitDeclaresOwnRecords(fe: Frontend, hash: Bytes -> Digest6, st: Settings, src: Bytes, content: Bytes)
    requires NoQuote(st.periodText)
    requires fe.saveFuncs(src, content).Ok? ==> forall b :: b in fe.saveFuncs(src, content).value.0 ==> NoQuote(b.name)
    ensures var r := UnitOutput(fe, hash, st, src, content);
      && (!fe.saveFuncs(src, content).Ok? ==> !r.Ok? && r.reason == fe.saveFuncs(src, content).reason)
      && (fe.saveFuncs(src, content).Ok? && !fe.parse(content).Ok? ==> !r.Ok? && r.reason == fe.parse(content).reason)
      && (fe.saveFuncs(src, content).Ok? && fe.parse(content).Ok? && !AllBodied(fe.parse(content).value) ==> r.Panic?)
      && (r.Ok? <==>
            && fe.saveFuncs(src, content).Ok? && fe.parse(content).Ok? && AllBodied(fe.parse(content).value)
            && fe.reprint(Instrumented(content, Events(fe.parse(content).value), Suffix(hash, src), 0, st.mode).0).Ok?)
      && (r.Ok? ==>
            var blocks := fe.saveFuncs(src, content).value.0;
            var suffix := Suffix(hash, src);
            var buf := Instrumented(content, Events(fe.parse(content).value), suffix, 0, st.mode).0;
            && fe.reprint(buf).Ok?
            && |r.value| >= |fe.reprint(buf).value|
            && r.value[..|fe.reprint(buf).value|] == fe.reprint(buf).value
            && DecodeDecl(r.value[|fe.reprint(buf).value|..], suffix)
               == Some(DeclView(|blocks|, LinesOf(blocks), NamesOf(blocks), |blocks|,
                                if st.period > 0 then Some((st.periodText, CoverageArg(st.fileName, src))) else None)))
  {
    var r := UnitOutput(fe, hash, st, src, content);
    if r.Ok? {
      var blocks := fe.saveFuncs(src, content).value.0;
      var suffix := Suffix(hash, src);
      var buf := Instrumented(content, Events(fe.parse(content).value), suffix, 0, st.mode).0;
      var printed := fe.reprint(buf).value;
      var decl := DeclCover(suffix, CoverageArg(st.fileName, src), st.period, st.periodText, blocks);
      assert r.value == printed + decl;
      assert r.value[..|printed|] == printed && r.value[|printed|..] == decl;
      forall i | 0 <= i < |blocks| ensures NoQuote(blocks[i].name) {
        assert blocks[i] in blocks;
      }
      DeclRoundTrip(suffix, CoverageArg(st.fileName, src), st.period, st.periodText, blocks);
    }
  }

  /** The per-unit step, as a value: path and content in, output out. */
  type UnitStep = (Bytes, Bytes) -> Outcome<Bytes>

  function UnitFn(fe: Frontend, hash: Bytes -> Digest6, st: Settings): UnitStep
  {
    (src: Bytes, content: Bytes) => UnitOutput(fe, hash, st, src, content)
  }

  /** The loop over the first n units of `order`. */
  function Gather(files: map<Bytes, Bytes>, order: seq<Bytes>, unit: UnitStep, n: nat): Outcome<map<Bytes, Bytes>>
    requires Stored(order, files) && n <= |order|
  {
    if n == 0 then Ok(map[])
    else
      var acc := Gather(files, order, unit, n - 1);
      if !acc.Ok? then Fail(acc)
      else
        var u := unit(order[n - 1], files[order[n - 1]]);
        if !u.Ok? then Fail(u) else Ok(acc.value[order[n - 1] := u.value])
  }

  /** `Instrument`: the loop over all units in the order visited. */
  function Instrument(files: map<Bytes, Bytes>, order: seq<Bytes>, fe: Frontend, hash: Bytes -> Digest6, st: Settings): Outcome<map<Bytes, Bytes>>
    requires Stored(order, files)
  {
    Gather(files, order, UnitFn(fe, hash, st), |order|)
  }

  /** The loop fails exactly when some unit fails. */
  lemma {:induction false} GatherOk(files: map<Bytes, Bytes>, order: seq<Bytes>, unit: UnitStep, n: nat)
    requires Stored(order, files) && n <= |order|
    ensures Gather(files, order, unit, n).Ok? <==> forall i :: 0 <= i < n ==> unit(order[i], files[order[i]]).Ok?
  {
    if n > 0 {
      GatherOk(files, order, unit, n - 1);
    }
  }

  /** Every visited path gets exactly its own unit's output, and nothing
      else is produced. */
  lemma {:induction false} GatherOutputs(files: map<Bytes, Bytes>, order: seq<Bytes>, unit: UnitStep, n: nat)
    requires Stored(order, files) && n <= |order|
    ensures var r := Gather(files, order, unit, n);
      r.Ok? ==> forall p :: p in r.value <==> p in order[..n]
    ensures var r := Gather(files, order, unit, n);
      r.Ok? ==> forall p :: p in r.value ==> p in files && unit(p, files[p]).Ok? && r.value[p] == unit(p, files[p]).value
  {
    var r := Gather(files, order, unit, n);
    if n > 0 && r.Ok? {
      GatherOutputs(files, order, unit, n - 1);
      assert order[..n] == order[..n - 1] + [order[n - 1]];
    }
  }

  /** Unlike the session-wide coordinator, the result does not depend on
      the order in which the map is visited: any two visit orders succeed
      together and then produce the same files, one per stored path. */
  lemma OrderIndependent(files: map<Bytes, Bytes>, o1: seq<Bytes>, o2: seq<Bytes>, fe: Frontend, hash: Bytes -> Digest6, st: Settings)
    requires Enumerates(o1, files) && Enumerates(o2, files)
    ensures Instrument(files, o1, fe, hash, st).Ok? <==> Instrument(files, o2, fe, hash, st).Ok?
    ensures Instrument(files, o1, fe, hash, st).Ok? ==>
      && Instrument(files, o1, fe, hash, st).value == Instrument(files, o2, fe, hash, st).value
      && Instrument(files, o1, fe, hash, st).value.Keys == files.Keys
  {
    GatherIndependent(files, o1, o2, UnitFn(fe, hash, st));
  }

  lemma GatherIndependent(files: map<Bytes, Bytes>, o1: seq<Bytes>, o2: seq<Bytes>, unit: UnitStep)
    requires Enumerates(o1, files) && Enumerates(o2, files)
    ensures Gather(files, o1, unit, |o1|).Ok? <==> Gather(files, o2, unit, |o2|).Ok?
    ensures Gather(files, o1, unit, |o1|).Ok? ==>
      && Gather(files, o1, unit, |o1|).value == Gather(files, o2, unit, |o2|).value
      && Gather(files, o1, unit, |o1|).value.Keys == files.Keys
  {
    GatherOk(files, o1, unit, |o1|);
    GatherOk(files, o2, unit, |o2|);
    AllUnitsOk(files, o1, unit);
    AllUnitsOk(files, o2, unit);
    var r1 := Gather(files, o1, unit, |o1|);
    var r2 := Gather(files, o2, unit, |o2|);
    if r1.Ok? {
      GatherOutputs(files, o1, unit, |o1|);
      GatherOutputs(files, o2, unit, |o2|);
      assert o1[..|o1|] == o1 && o2[..|o2|] == o2;
      assert r1.value.Keys == files.Keys;
      assert r1.value.Keys == r2.value.Keys;
    }
  }

  /** Over a visit order, "every visited unit succeeds" is "every stored
      unit succeeds". */
  lemma AllUnitsOk(files: map<Bytes, Bytes>, order: seq<Bytes>, unit: UnitStep)
    requires Enumerates(order, files)
    ensures (forall i :: 0 <= i < |order| ==> unit(order[i], files[order[i]]).Ok?)
        <==> (forall p :: p in files ==> unit(p, files[p]).Ok?)
  {
    if forall i :: 0 <= i < |order| ==> unit(order[i], files[order[i]]).Ok? {
      forall p | p in files ensures unit(p, files[p]).Ok? {
        assert p in order;
        var i :| 0 <= i < |order| && order[i] == p;
      }
    }
  }
}
