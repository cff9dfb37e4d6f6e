/** The build-session coordinator of the top-level instrumentation.go
    (`packageInstrumentation.Instrument`). A first loop over the files
    collects every unit's function records into one table and remembers the
    unit that declares `main`; a second loop inserts counters into every
    unit, numbering them with one cursor carried from unit to unit, and gives
    the `main` unit the `covcollect` import and the declaration of the whole
    table. Both loops `range` over a Go map, so each visits the units in an
    order of its own: the two orders are inputs, and every fold below is over
    the first n units of an order. */
module Session {
  import opened ByteStrings
  import opened Outcomes
  import opened Counters
  import opened Declaration
  import opened Sources

  /** The coordinator's fields: the table's variable suffix, the coverage
      file name, the period and its printed form (`fmt.Sprint(period)`),
      and how the counter pass copies the original bytes (`RuneConversion`
      as written, `Verbatim` as intended). */
  datatype Settings = Settings(suffix: Bytes, fileName: Bytes, period: int, periodText: Bytes, mode: CopyMode)

  /** What the first loop leaves: the session table and the main unit's
      path (empty when no unit declares `main`). */
  datatype Survey = Survey(table: seq<FuncBlock>, main: Bytes)

  function Saved(files: map<Bytes, Bytes>, order: seq<Bytes>, fe: Frontend, i: nat): Outcome<(seq<FuncBlock>, bool)>
    requires Stored(order, files) && i < |order|
  {
    fe.saveFuncs(order[i], files[order[i]])
  }

  /** The records saved for unit i (none when saving fails). */
  function BlocksAt(files: map<Bytes, Bytes>, order: seq<Bytes>, fe: Frontend, i: nat): seq<FuncBlock>
    requires Stored(order, files) && i < |order|
  {
    var saved := Saved(files, order, fe, i);
    if saved.Ok? then saved.value.0 else []
  }

  /** Unit i declares `main`. */
  predicate HasMain(files: map<Bytes, Bytes>, order: seq<Bytes>, fe: Frontend, i: nat)
    requires Stored(order, files) && i < |order|
  {
    Saved(files, order, fe, i).Ok? && Saved(files, order, fe, i).value.1
  }

  /** The first loop over the first n units of `order`. */
  function SurveyUnits(files: map<Bytes, Bytes>, order: seq<Bytes>, fe: Frontend, n: nat): Outcome<Survey>
    requires Stored(order, files) && n <= |order|
  {
    if n == 0 then Ok(Survey([], []))
    else
      var acc := SurveyUnits(files, order, fe, n - 1);
      var saved := Saved(files, order, fe, n - 1);
      if !acc.Ok? then Fail(acc)
      else if !saved.Ok? then Fail(saved)
      else Ok(Survey(acc.value.table + saved.value.0, if saved.value.1 then order[n - 1] else acc.value.main))
  }

  /** The session table after the first loop (empty when it fails). */
  function Table(files: map<Bytes, Bytes>, order: seq<Bytes>, fe: Frontend, n: nat): seq<FuncBlock>
    requires Stored(order, files) && n <= |order|
  {
    var r := SurveyUnits(files, order, fe, n);
    if r.Ok? then r.value.table else []
  }

  /** Number of function records of the first n units. */
  function BlockOffset(files: map<Bytes, Bytes>, order: seq<Bytes>, fe: Frontend, n: nat): nat
    requires Stored(order, files) && n <= |order|
  {
    if n == 0 then 0 else BlockOffset(files, order, fe, n - 1) + |BlocksAt(files, order, fe, n - 1)|
  }

  /** The first loop fails exactly when some unit's records cannot be
      saved. */
  lemma {:induction false} SurveyOk(files: map<Bytes, Bytes>, order: seq<Bytes>, fe: Frontend, n: nat)
    requires Stored(order, files) && n <= |order|
    ensures SurveyUnits(files, order, fe, n).Ok? <==> forall i :: 0 <= i < n ==> Saved(files, order, fe, i).Ok?
  {
    if n > 0 {
      SurveyOk(files, order, fe, n - 1);
    }
  }

  /** The table holds the records of all units and nothing else. */
  lemma {:induction false} SurveyTableLength(files: map<Bytes, Bytes>, order: seq<Bytes>, fe: Frontend, n: nat)
    requires Stored(order, files) && n <= |order|
    ensures SurveyUnits(files, order, fe, n).Ok? ==> |Table(files, order, fe, n)| == BlockOffset(files, order, fe, n)
  {
    if n > 0 {
      SurveyTableLength(files, order, fe, n - 1);
    }
  }

  /** The table is every unit's records in visit order: unit i's records
      sit at offsets BlockOffset(i) to BlockOffset(i + 1). */
  lemma {:induction false} SurveyTableSlice(files: map<Bytes, Bytes>, order: seq<Bytes>, fe: Frontend, n: nat, i: nat)
    requires Stored(order, files) && i < n <= |order|
    ensures SurveyUnits(files, order, fe, n).Ok? ==>
      && BlockOffset(files, order, fe, i + 1) <= |Table(files, order, fe, n)|
      && Table(files, order, fe, n)[BlockOffset(files, order, fe, i)..BlockOffset(files, order, fe, i + 1)] == BlocksAt(files, order, fe, i)
  {
    if SurveyUnits(files, order, fe, n).Ok? {
      var acc := Table(files, order, fe, n - 1);
      var lo, hi := BlockOffset(files, order, fe, i), BlockOffset(files, order, fe, i + 1);
      SurveyTableLength(files, order, fe, n - 1);
      assert Table(files, order, fe, n) == acc + BlocksAt(files, order, fe, n - 1);
      if i < n - 1 {
        SurveyTableSlice(files, order, fe, n - 1, i);
        assert (acc + BlocksAt(files, order, fe, n - 1))[lo..hi] == acc[lo..hi];
      } else {
        assert (acc + BlocksAt(files, order, fe, n - 1))[|acc|..] == BlocksAt(files, order, fe, n - 1);
      }
    }
  }

  lemma {:induction false} BlockOffsetMonotone(files: map<Bytes, Bytes>, order: seq<Bytes>, fe: Frontend, i: nat, j: nat)
    requires Stored(order, files) && i <= j <= |order|
    ensures BlockOffset(files, order, fe, i) <= BlockOffset(files, order, fe, j)
    decreases j - i
  {
    if i < j {
      BlockOffsetMonotone(files, order, fe, i, j - 1);
    }
  }

  /** The main unit is the last visited unit that declares `main`. */
  lemma {:induction false} SurveyMain(files: map<Bytes, Bytes>, order: seq<Bytes>, fe: Frontend, n: nat, j: nat)
    requires Stored(order, files) && j < n <= |order|
    requires HasMain(files, order, fe, j)
    requires forall l :: j < l < n ==> !HasMain(files, order, fe, l)
    ensures SurveyUnits(files, order, fe, n).Ok? ==> SurveyUnits(files, order, fe, n).value.main == order[j]
  {
    var saved := Saved(files, order, fe, n - 1);
    if n - 1 > j {
      SurveyMain(files, order, fe, n - 1, j);
      assert !HasMain(files, order, fe, n - 1);
      assert saved.Ok? ==> !saved.value.1;
    } else {
      assert saved.Ok? && saved.value.1;
    }
  }

  /** Without a unit that declares `main`, the main path stays empty. */
  lemma {:induction false} SurveyNoMain(files: map<Bytes, Bytes>, order: seq<Bytes>, fe: Frontend, n: nat)
    requires Stored(order, files) && n <= |order|
    requires forall l :: 0 <= l < n ==> !HasMain(files, order, fe, l)
    ensures SurveyUnits(files, order, fe, n).Ok? ==> SurveyUnits(files, order, fe, n).value.main == []
  {
    if n > 0 {
      SurveyNoMain(files, order, fe, n - 1);
      var saved := Saved(files, order, fe, n - 1);
      assert !HasMain(files, order, fe, n - 1);
      assert saved.Ok? ==> !saved.value.1;
    }
  }

  /** One unit in the second loop: counters numbered from `cursor`; the
      main unit is re-parsed with the import and followed by the declaration
      of the whole table. Yields the unit's output and the next cursor. */
  function UnitOutput(fe: Frontend, st: Settings, sv: Survey, src: Bytes, content: Bytes, cursor: nat): (r: Outcome<(Bytes, nat)>)
    ensures r.Ok? <==> && fe.parse(content).Ok? && AllBodied(fe.parse(content).value)
                       && (sv.main == src ==> fe.reprint(Instrumented(content, Events(fe.parse(content).value), st.suffix, cursor, st.mode).0).Ok?)
    ensures !fe.parse(content).Ok? ==> r.reason == fe.parse(content).reason && (r.Err? <==> fe.parse(content).Err?)
    ensures fe.parse(content).Ok? && !AllBodied(fe.parse(content).value) ==> r == Panic(NilBody)
    ensures r.Ok? ==> r.value.1 == cursor + CounterCount(fe, content)
  {
    var parsed := fe.parse(content);
    if !parsed.Ok? then Fail(parsed)
    else if !AllBodied(parsed.value) then Panic(NilBody)
    else
      var counted := Instrumented(content, Events(parsed.value), st.suffix, cursor, st.mode);
      if sv.main != src then Ok(counted)
      else
        var printed := fe.reprint(counted.0);
        if !printed.Ok? then Fail(printed)
        else Ok((printed.value + DeclCover(st.suffix, st.fileName, st.period, st.periodText, sv.table), counted.1))
  }

  /** The counter cursor before unit n: the counters of the first n units. */
  function CounterOffset(files: map<Bytes, Bytes>, order: seq<Bytes>, fe: Frontend, n: nat): nat
    requires Stored(order, files) && n <= |order|
  {
    if n == 0 then 0 else CounterOffset(files, order, fe, n - 1) + CounterCount(fe, files[order[n - 1]])
  }

  /** The per-unit step of the second loop, as a value: source path,
      content and cursor in, output and next cursor out. */
  type UnitStep = (Bytes, Bytes, nat) -> Outcome<(Bytes, nat)>

  function UnitFn(fe: Frontend, st: Settings, sv: Survey): UnitStep
  {
    (src: Bytes, content: Bytes, cursor: nat) => UnitOutput(fe, st, sv, src, content, cursor)
  }

  /** A step that, when it succeeds, moves the cursor past the unit's
      counters. */
  ghost predicate Advances(unit: UnitStep, fe: Frontend)
  {
    forall src: Bytes, content: Bytes, cursor: nat :: unit(src, content, cursor).Ok? ==> unit(src, content, cursor).value.1 == cursor + CounterCount(fe, content)
  }

  lemma UnitAdvances(fe: Frontend, st: Settings, sv: Survey)
    ensures Advances(UnitFn(fe, st, sv), fe)
  {
    forall src: Bytes, content: Bytes, cursor: nat | UnitFn(fe, st, sv)(src, content, cursor).Ok?
      ensures UnitFn(fe, st, sv)(src, content, cursor).value.1 == cursor + CounterCount(fe, content)
    {
      assert UnitFn(fe, st, sv)(src, content, cursor) == UnitOutput(fe, st, sv, src, content, cursor);
    }
  }

  /** Unit i's outcome in the second loop, at its place in the order. */
  function UnitAt(files: map<Bytes, Bytes>, order: seq<Bytes>, fe: Frontend, unit: UnitStep, i: nat): Outcome<(Bytes, nat)>
    requires Stored(order, files) && i < |order|
  {
    unit(order[i], files[order[i]], CounterOffset(files, order, fe, i))
  }

  /** Unit i's output text (empty when it fails). */
  function UnitText(files: map<Bytes, Bytes>, order: seq<Bytes>, fe: Frontend, unit: UnitStep, i: nat): Bytes
    requires Stored(order, files) && i < |order|
  {
    var u := UnitAt(files, order, fe, unit, i);
    if u.Ok? then u.value.0 else []
  }

  /** The second loop over the first n units: the instrumented files so
      far and the cursor. */
  function Place(files: map<Bytes, Bytes>, order: seq<Bytes>, unit: UnitStep, n: nat): Outcome<(map<Bytes, Bytes>, nat)>
    requires Stored(order, files) && n <= |order|
  {
    if n == 0 then Ok((map[], 0))
    else
      var acc := Place(files, order, unit, n - 1);
      if !acc.Ok? then Fail(acc)
      else
        var u := unit(order[n - 1], files[order[n - 1]], acc.value.1);
        if !u.Ok? then Fail(u)
        else Ok((acc.value.0[order[n - 1] := u.value.0], u.value.1))
  }

  /** The cursor is threaded: when the loop succeeds, the cursor after n
      units is the number of counters of those units. */
  lemma {:induction false} PlaceCursor(files: map<Bytes, Bytes>, order: seq<Bytes>, fe: Frontend, unit: UnitStep, n: nat)
    requires Stored(order, files) && n <= |order| && Advances(unit, fe)
    ensures var r := Place(files, order, unit, n);
      r.Ok? ==> r.value.1 == CounterOffset(files, order, fe, n)
  {
    if n > 0 {
      PlaceCursor(files, order, fe, unit, n - 1);
    }
  }

  /** The loop fails exactly when some unit fails at its own cursor. */
  lemma {:induction false} PlaceOk(files: map<Bytes, Bytes>, order: seq<Bytes>, fe: Frontend, unit: UnitStep, n: nat)
    requires Stored(order, files) && n <= |order| && Advances(unit, fe)
    ensures Place(files, order, unit, n).Ok? <==> forall i :: 0 <= i < n ==> UnitAt(files, order, fe, unit, i).Ok?
  {
    if n > 0 {
      PlaceOk(files, order, fe, unit, n - 1);
      PlaceCursor(files, order, fe, unit, n - 1);
      var acc := Place(files, order, unit, n - 1);
      if acc.Ok? {
        assert UnitAt(files, order, fe, unit, n - 1) == unit(order[n - 1], files[order[n - 1]], acc.value.1);
      }
    }
  }

  /** The files produced are exactly the visited paths. */
  lemma {:induction false} PlaceKeys(files: map<Bytes, Bytes>, order: seq<Bytes>, unit: UnitStep, n: nat)
    requires Stored(order, files) && n <= |order|
    ensures var r := Place(files, order, unit, n);
      r.Ok? ==> forall p :: p in r.value.0 <==> p in order[..n]
  {
    var r := Place(files, order, unit, n);
    if n > 0 && r.Ok? {
      PlaceKeys(files, order, unit, n - 1);
      assert order[..n] == order[..n - 1] + [order[n - 1]];
    }
  }

  /** With every path visited once, unit i's file is its own output,
      computed from its own cursor. */
  lemma {:induction false} PlaceOutput(files: map<Bytes, Bytes>, order: seq<Bytes>, fe: Frontend, unit: UnitStep, n: nat, i: nat)
    requires Stored(order, files) && Distinct(order) && i < n <= |order| && Advances(unit, fe)
    ensures var r := Place(files, order, unit, n);
      r.Ok? ==> order[i] in r.value.0 && r.value.0[order[i]] == UnitText(files, order, fe, unit, i)
  {
    var r := Place(files, order, unit, n);
    if r.Ok? {
      PlaceCursor(files, order, fe, unit, n - 1);
      if i < n - 1 {
        PlaceOutput(files, order, fe, unit, n - 1, i);
        assert order[i] != order[n - 1];
      }
    }
  }

  /** `Instrument` as written: the table is built in the first order, the
      counters are numbered in the second. */
  function InstrumentAsWritten(files: map<Bytes, Bytes>, first: seq<Bytes>, second: seq<Bytes>, fe: Frontend, st: Settings): Outcome<map<Bytes, Bytes>>
    requires Stored(first, files) && Stored(second, files)
  {
    var sv := SurveyUnits(files, first, fe, |first|);
    if !sv.Ok? then Fail(sv)
    else
      var placed := Place(files, second, UnitFn(fe, st, sv.value), |second|);
      if !placed.Ok? then Fail(placed) else Ok(placed.value.0)
  }

  /** `Instrument` with both loops over one order. */
  function Instrument(files: map<Bytes, Bytes>, order: seq<Bytes>, fe: Frontend, st: Settings): Outcome<map<Bytes, Bytes>>
    requires Stored(order, files)
  {
    InstrumentAsWritten(files, order, order, fe, st)
  }

  /** The result holds exactly the added files: one output per path. */
  lemma InstrumentKeys(files: map<Bytes, Bytes>, first: seq<Bytes>, second: seq<Bytes>, fe: Frontend, st: Settings)
    requires Stored(first, files) && Enumerates(second, files)
    ensures var r := InstrumentAsWritten(files, first, second, fe, st);
      r.Ok? ==> r.value.Keys == files.Keys
  {
    var sv := SurveyUnits(files, first, fe, |first|);
    if sv.Ok? {
      PlaceKeys(files, second, UnitFn(fe, st, sv.value), |second|);
      assert second[..|second|] == second;
    }
  }

  /** Unit i's output. A unit other than the main one gets exactly its
      instrumented buffer; the main one gets the buffer re-printed with the
      import, then one declaration of the whole session table. Unit i's
      counters start at the number of counters before it. */
  lemma InstrumentOutputs(files: map<Bytes, Bytes>, first: seq<Bytes>, second: seq<Bytes>, fe: Frontend, st: Settings, i: nat)
    requires Stored(first, files) && Enumerates(second, files) && i < |second|
    ensures var r := InstrumentAsWritten(files, first, second, fe, st);
      var src := second[i];
      var parsed := fe.parse(files[src]);
      var sv := SurveyUnits(files, first, fe, |first|);
      r.Ok? ==> && src in r.value && parsed.Ok? && AllBodied(parsed.value) && sv.Ok?
                && var buf := Instrumented(files[src], Events(parsed.value), st.suffix, CounterOffset(files, second, fe, i), st.mode).0;
                   && (src != sv.value.main ==> r.value[src] == buf)
                   && (src == sv.value.main ==>
                         && fe.reprint(buf).Ok?
                         && r.value[src] == fe.reprint(buf).value + DeclCover(st.suffix, st.fileName, st.period, st.periodText, sv.value.table))
  {
    var sv := SurveyUnits(files, first, fe, |first|);
    if sv.Ok? {
      UnitAdvances(fe, st, sv.value);
      PlaceOk(files, second, fe, UnitFn(fe, st, sv.value), |second|);
      PlaceOutput(files, second, fe, UnitFn(fe, st, sv.value), |second|, i);
    }
  }

  /** Without a unit that declares `main` (and with no empty path), no unit
      is re-parsed and none gets a declaration. */
  lemma InstrumentWithoutMain(files: map<Bytes, Bytes>, first: seq<Bytes>, second: seq<Bytes>, fe: Frontend, st: Settings, i: nat)
    requires Stored(first, files) && Enumerates(second, files) && i < |second| && [] !in files
    requires forall l :: 0 <= l < |first| ==> !HasMain(files, first, fe, l)
    ensures var r := InstrumentAsWritten(files, first, second, fe, st);
      var src := second[i];
      r.Ok? ==> && src in r.value && fe.parse(files[src]).Ok?
                && r.value[src] == Instrumented(files[src], Events(fe.parse(files[src]).value), st.suffix, CounterOffset(files, second, fe, i), st.mode).0
  {
    SurveyNoMain(files, first, fe, |first|);
    InstrumentOutputs(files, first, second, fe, st, i);
  }

  /** With the corrected copy, deleting the inserted statements from a unit
      other than the main one, knowing only their positions and lengths,
      gives its source back. */
  lemma CorrectedOutputRestores(files: map<Bytes, Bytes>, first: seq<Bytes>, second: seq<Bytes>, fe: Frontend, st: Settings, i: nat)
    requires Stored(first, files) && Enumerates(second, files) && i < |second| && st.mode == Verbatim
    ensures var r := InstrumentAsWritten(files, first, second, fe, st);
      var src := second[i];
      var sv := SurveyUnits(files, first, fe, |first|);
      var m := CounterCount(fe, files[src]);
      r.Ok? ==> && sv.Ok? && src in r.value && fe.parse(files[src]).Ok?
                && (src != sv.value.main ==>
                      var events := Events(fe.parse(files[src]).value);
                      && m <= |events|
                      && Unweave(r.value[src], 0, events[..m], Lengths(Stmts(st.suffix, CounterOffset(files, second, fe, i), m))) == files[src])
  {
    InstrumentOutputs(files, first, second, fe, st, i);
    var src := second[i];
    if fe.parse(files[src]).Ok? {
      InstrumentedRestores(files[src], Events(fe.parse(files[src]).value), st.suffix, CounterOffset(files, second, fe, i));
    }
  }

  /** As written, a unit other than the main one that gets no counters
      comes out unchanged only when it is pure ASCII: every byte of 0x80 or
      more is re-encoded. */
  lemma AsWrittenReencodes(files: map<Bytes, Bytes>, first: seq<Bytes>, second: seq<Bytes>, fe: Frontend, st: Settings, i: nat)
    requires Stored(first, files) && Enumerates(second, files) && i < |second| && st.mode == RuneConversion
    ensures var r := InstrumentAsWritten(files, first, second, fe, st);
      var src := second[i];
      var sv := SurveyUnits(files, first, fe, |first|);
      r.Ok? ==> && sv.Ok? && src in r.value
                && (src != sv.value.main && CounterCount(fe, files[src]) == 0 ==>
                      (r.value[src] == files[src] <==> forall j :: 0 <= j < |files[src]| ==> files[src][j] < 0x80))
  {
    InstrumentOutputs(files, first, second, fe, st, i);
    var src := second[i];
    if fe.parse(files[src]).Ok? && CounterCount(fe, files[src]) == 0 {
      NoCountersFaithfulIffAscii(files[src], Events(fe.parse(files[src]).value), st.suffix, CounterOffset(files, second, fe, i));
    }
  }

  /** Unit i's counters are CounterOffset(i) .. CounterOffset(i + 1) - 1:
      the ranges of different units do not overlap, so every counter index
      of the session is used once. */
  lemma CounterRangesDisjoint(files: map<Bytes, Bytes>, order: seq<Bytes>, fe: Frontend, i: nat, j: nat)
    requires Stored(order, files) && i < j < |order|
    ensures CounterOffset(files, order, fe, i) <= CounterOffset(files, order, fe, i + 1) <= CounterOffset(files, order, fe, j)
  {
    CounterOffsetMonotone(files, order, fe, i + 1, j);
  }

  lemma {:induction false} CounterOffsetMonotone(files: map<Bytes, Bytes>, order: seq<Bytes>, fe: Frontend, i: nat, j: nat)
    requires Stored(order, files) && i <= j <= |order|
    ensures CounterOffset(files, order, fe, i) <= CounterOffset(files, order, fe, j)
    decreases j - i
  {
    if i < j {
      CounterOffsetMonotone(files, order, fe, i, j - 1);
    }
  }

  /** The frontend agrees with itself: a unit whose records are saved has
      one counter per record. */
  predicate Consistent(files: map<Bytes, Bytes>, fe: Frontend)
  {
    forall p :: p in files && fe.saveFuncs(p, files[p]).Ok? ==> |fe.saveFuncs(p, files[p]).value.0| == CounterCount(fe, files[p])
  }

  lemma {:induction false} OffsetsAgree(files: map<Bytes, Bytes>, order: seq<Bytes>, fe: Frontend, n: nat)
    requires Stored(order, files) && n <= |order| && Consistent(files, fe)
    requires SurveyUnits(files, order, fe, n).Ok?
    ensures CounterOffset(files, order, fe, n) == BlockOffset(files, order, fe, n)
  {
    if n > 0 {
      OffsetsAgree(files, order, fe, n - 1);
      assert order[n - 1] in files;
    }
  }

  /** A failed prefix fails the whole loop. */
  lemma {:induction false} SurveyPrefixOk(files: map<Bytes, Bytes>, order: seq<Bytes>, fe: Frontend, n: nat, m: nat)
    requires Stored(order, files) && n <= m <= |order|
    requires SurveyUnits(files, order, fe, m).Ok?
    ensures SurveyUnits(files, order, fe, n).Ok?
    decreases m - n
  {
    if n < m {
      SurveyPrefixOk(files, order, fe, n + 1, m);
    }
  }

  lemma SliceAt(table: seq<FuncBlock>, lo: nat, hi: nat, blocks: seq<FuncBlock>, k: nat)
    requires lo <= k < hi <= |table| && table[lo..hi] == blocks
    ensures k - lo < |blocks| && table[k] == blocks[k - lo]
  {
    assert table[lo..hi][k - lo] == table[k];
  }

  /** With one visit order, counter k of the session belongs to table entry
      k: a counter in unit i's range names the record of unit i at the same
      position. */
  lemma CountersMatchTable(files: map<Bytes, Bytes>, order: seq<Bytes>, fe: Frontend, i: nat, k: nat)
    requires Stored(order, files) && Consistent(files, fe) && i < |order|
    requires SurveyUnits(files, order, fe, |order|).Ok?
    requires CounterOffset(files, order, fe, i) <= k < CounterOffset(files, order, fe, i + 1)
    ensures var table := Table(files, order, fe, |order|);
      && k < |table| && k - CounterOffset(files, order, fe, i) < |BlocksAt(files, order, fe, i)|
      && table[k] == BlocksAt(files, order, fe, i)[k - CounterOffset(files, order, fe, i)]
  {
    var table := Table(files, order, fe, |order|);
    var lo, hi := BlockOffset(files, order, fe, i), BlockOffset(files, order, fe, i + 1);
    assert CounterOffset(files, order, fe, i) == lo by {
      SurveyPrefixOk(files, order, fe, i, |order|);
      OffsetsAgree(files, order, fe, i);
    }
    assert CounterOffset(files, order, fe, i + 1) == hi by {
      SurveyPrefixOk(files, order, fe, i + 1, |order|);
      OffsetsAgree(files, order, fe, i + 1);
    }
    assert hi <= |table| && table[lo..hi] == BlocksAt(files, order, fe, i) by {
      SurveyTableSlice(files, order, fe, |order|, i);
    }
    SliceAt(table, lo, hi, BlocksAt(files, order, fe, i), k);
  }

  /** As written, the two loops may visit the units in different orders. A
      unit A with one function and a unit B with two, surveyed as A, B but
      numbered as B, A: A's function is table entry 0, but A's output is the
      unit pass run with the cursor at 2, so its counter is 2. */
  lemma CountersMismatchAsWritten(files: map<Bytes, Bytes>, fe: Frontend, st: Settings, a: Bytes, b: Bytes)
    requires a in files && b in files && a != b && Consistent(files, fe)
    requires fe.saveFuncs(a, files[a]).Ok? && |fe.saveFuncs(a, files[a]).value.0| == 1
    requires fe.saveFuncs(b, files[b]).Ok? && |fe.saveFuncs(b, files[b]).value.0| == 2
    ensures var table := Table(files, [a, b], fe, 2);
      |table| == 3 && table[0] == fe.saveFuncs(a, files[a]).value.0[0]
    ensures CounterOffset(files, [b, a], fe, 1) == 2
    ensures var sv := SurveyUnits(files, [a, b], fe, 2);
      var r := InstrumentAsWritten(files, [a, b], [b, a], fe, st);
      r.Ok? ==> && sv.Ok? && a in r.value
                && UnitOutput(fe, st, sv.value, a, files[a], 2).Ok?
                && r.value[a] == UnitOutput(fe, st, sv.value, a, files[a], 2).value.0
  {
    var blocksA, blocksB := fe.saveFuncs(a, files[a]).value.0, fe.saveFuncs(b, files[b]).value.0;
    assert Table(files, [a, b], fe, 2) == blocksA + blocksB by {
      assert [a, b][0] == a && [a, b][1] == b;
      assert SurveyUnits(files, [a, b], fe, 1).Ok? && SurveyUnits(files, [a, b], fe, 1).value.table == blocksA;
    }
    assert CounterOffset(files, [b, a], fe, 1) == 2 by {
      assert [b, a][0] == b;
      assert CounterCount(fe, files[b]) == 2;
    }
    SecondUnitOutput(files, fe, st, [a, b], b, a);
  }

  /** The unit visited second in a two-unit order gets the unit pass at the
      cursor left by the first. */
  lemma SecondUnitOutput(files: map<Bytes, Bytes>, fe: Frontend, st: Settings, first: seq<Bytes>, b: Bytes, a: Bytes)
    requires Stored(first, files) && a in files && b in files && a != b
    ensures var sv := SurveyUnits(files, first, fe, |first|);
      var r := InstrumentAsWritten(files, first, [b, a], fe, st);
      r.Ok? ==> && sv.Ok? && a in r.value
                && UnitOutput(fe, st, sv.value, a, files[a], CounterOffset(files, [b, a], fe, 1)).Ok?
                && r.value[a] == UnitOutput(fe, st, sv.value, a, files[a], CounterOffset(files, [b, a], fe, 1)).value.0
  {
    var sv := SurveyUnits(files, first, fe, |first|);
    if InstrumentAsWritten(files, first, [b, a], fe, st).Ok? {
      var unit := UnitFn(fe, st, sv.value);
      UnitAdvances(fe, st, sv.value);
      PlaceOk(files, [b, a], fe, unit, 2);
      PlaceOutput(files, [b, a], fe, unit, 2, 1);
      assert [b, a][1] == a;
    }
  }
}
