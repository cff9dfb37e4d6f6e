/** The runtime collector linked into the instrumented program
    (`covcollect.Cover` of pkg/covcollect/covcollect.go; covercollect/covcollect.go
    is an identical copy). `Collect` rewrites one report file with a line
    `<name>:<line>:<flag>` per counter; `PeriodicalCollect` repeats it on a
    timer when the period is positive. Files are a map from path to
    content; whether a path can be created is a parameter. */
module Collector {
  import opened ByteStrings

  /** The counter table: `Len` is carried but never read. */
  datatype Cover = Cover(len: int, names: seq<Bytes>, lines: seq<uint32>, counts: seq<bool>)

  /** How the flag of a line is printed. The source prints the bool with
      `%d`, which Go renders as a bad-verb note (`BadVerb`). `Counts` is a
      `[]bool` and the report is meant to say which functions ran, so the
      intended text is `true`/`false` (`Boolean`, what `%v` or `%t` print). */
  datatype FlagFormat = BadVerb | Boolean

  function FlagText(b: bool, f: FlagFormat): Bytes
  {
    match f
    case BadVerb => if b then Lit("%!d(bool=true)") else Lit("%!d(bool=false)")
    case Boolean => if b then Lit("true") else Lit("false")
  }

  const Colon: byte := ':' as byte
  const Newline: byte := '\n' as byte

  /** Number of entries that can be written: an entry needs a name, a line
      and a count at the same index. */
  function Writable(c: Cover): (k: nat)
    ensures k <= |c.counts| && k <= |c.names| && k <= |c.lines|
    ensures k == |c.counts| || k == |c.names| || k == |c.lines|
  {
    var k := if |c.names| < |c.lines| then |c.names| else |c.lines|;
    if |c.counts| < k then |c.counts| else k
  }

  /** One report entry: name, line and flag. */
  datatype Entry = Entry(name: Bytes, line: nat, flag: bool)

  /** The writable entries of the table, in index order: entry i pairs the
      name and line at index i with count i. */
  function Entries(c: Cover): (es: seq<Entry>)
    ensures |es| == Writable(c)
  {
    seq(Writable(c), j requires 0 <= j < Writable(c) => Entry(c.names[j], c.lines[j] as nat, c.counts[j]))
  }

  /** `fmt.Fprintf(w, "%s:%d:%d\n", Names[i], Lines[i], Counts[i])`. */
  function Line(e: Entry, f: FlagFormat): Bytes
  {
    e.name + ([Colon] + (Decimal(e.line) + ([Colon] + (FlagText(e.flag, f) + [Newline]))))
  }

  /** The lines of es, one after another. */
  function Render(es: seq<Entry>, f: FlagFormat): Bytes
  {
    if es == [] then [] else Line(es[0], f) + Render(es[1..], f)
  }

  /** The whole report: every writable entry, in index order. */
  function Report(c: Cover, f: FlagFormat): Bytes
  {
    Render(Entries(c), f)
  }

  /** The file system after a call, and whether the call panicked. */
  datatype Run = Run(files: map<string, Bytes>, panicked: bool)

  /** `c.Collect(args...)`: `args[0]` is created (truncated), then one line
      per count is written; a missing name or line panics, and the deferred
      flush still writes the lines before it. */
  function Collect(files: map<string, Bytes>, c: Cover, args: seq<string>, creatable: string -> bool, f: FlagFormat): (r: Run)
    ensures r.panicked <==> |args| == 0 || !creatable(args[0]) || Writable(c) < |c.counts|
    ensures (|args| == 0 || !creatable(args[0])) ==> r.files == files
    ensures |args| > 0 && creatable(args[0]) ==>
              && r.files.Keys == files.Keys + {args[0]}
              && r.files[args[0]] == Report(c, f)
              && (forall p :: p in files && p != args[0] ==> r.files[p] == files[p])
  {
    if |args| == 0 || !creatable(args[0]) then Run(files, true)
    else Run(files[args[0] := Report(c, f)], Writable(c) < |c.counts|)
  }

  /** The report file's content depends only on the table: whatever the file
      held before is gone. */
  lemma CollectTruncates(files1: map<string, Bytes>, files2: map<string, Bytes>, c: Cover, args: seq<string>, creatable: string -> bool, f: FlagFormat)
    requires |args| > 0 && creatable(args[0])
    ensures Collect(files1, c, args, creatable, f).files[args[0]] == Collect(files2, c, args, creatable, f).files[args[0]]
  {
  }

  /** Collecting again without a change to the table changes nothing. */
  lemma CollectIdempotent(files: map<string, Bytes>, c: Cover, args: seq<string>, creatable: string -> bool, f: FlagFormat)
    ensures var r := Collect(files, c, args, creatable, f);
      Collect(r.files, c, args, creatable, f) == r
  {
  }

  /** `Len` is never consulted, and only the first argument matters. */
  lemma CollectIgnoresLenAndExtraArgs(files: map<string, Bytes>, c: Cover, len: int, args: seq<string>, more: seq<string>, creatable: string -> bool, f: FlagFormat)
    requires |args| > 0
    ensures Collect(files, c, args, creatable, f) == Collect(files, c.(len := len), args[..1] + more, creatable, f)
  {
    assert (args[..1] + more)[0] == args[0];
    assert Entries(c) == Entries(c.(len := len));
  }

  // Reading a report back.

  function ReadFlag(s: Bytes, f: FlagFormat): Option<bool>
  {
    if s == FlagText(true, f) then Some(true)
    else if s == FlagText(false, f) then Some(false)
    else None
  }

  /** Reads the first line of s: a name up to the first colon, then the
      rest of the entry. */
  function ReadEntry(s: Bytes, readFlag: Bytes -> Option<bool>): (r: Option<(Entry, Bytes)>)
    ensures r.Some? ==> |r.value.1| < |s|
  {
    var a := SpanUntil(s, Colon);
    if a == |s| then None else ReadLineNumber(s[..a], s[a + 1..], readFlag)
  }

  /** After the name's colon: decimal digits and a colon. */
  function ReadLineNumber(name: Bytes, t: Bytes, readFlag: Bytes -> Option<bool>): (r: Option<(Entry, Bytes)>)
    ensures r.Some? ==> |r.value.1| < |t|
  {
    var d := LeadingDigits(t);
    if d == 0 || d == |t| || t[d] != Colon then None
    else ReadFlagField(name, DecimalValue(t[..d]), t[d + 1..], readFlag)
  }

  /** After the number's colon: a flag up to the newline. */
  function ReadFlagField(name: Bytes, line: nat, u: Bytes, readFlag: Bytes -> Option<bool>): (r: Option<(Entry, Bytes)>)
    ensures r.Some? ==> |r.value.1| < |u|
  {
    var e := SpanUntil(u, Newline);
    if e == |u| then None
    else
      match readFlag(u[..e])
      case None => None
      case Some(b) => Some((Entry(name, line, b), u[e + 1..]))
  }

  function ReadReport(s: Bytes, readFlag: Bytes -> Option<bool>): Option<seq<Entry>>
    decreases |s|
  {
    if s == [] then Some([])
    else
      match ReadEntry(s, readFlag)
      case None => None
      case Some(p) =>
        match ReadReport(p.1, readFlag)
        case None => None
        case Some(es) => Some([p.0] + es)
  }

  predicate Plain(name: Bytes)
  {
    forall i :: 0 <= i < |name| ==> name[i] != Colon && name[i] != Newline
  }

  /** A flag reader that recognises both renderings of format f. */
  ghost predicate ReadsFlags(readFlag: Bytes -> Option<bool>, f: FlagFormat)
  {
    readFlag(FlagText(true, f)) == Some(true) && readFlag(FlagText(false, f)) == Some(false)
  }

  function FlagReader(f: FlagFormat): Bytes -> Option<bool>
  {
    s => ReadFlag(s, f)
  }

  lemma FlagReaderReads(f: FlagFormat)
    ensures ReadsFlags(FlagReader(f), f)
  {
  }

  lemma FlagTextPlain(b: bool, f: FlagFormat)
    ensures forall i :: 0 <= i < |FlagText(b, f)| ==> FlagText(b, f)[i] != Newline
  {
  }

  lemma ReadEntryOfLine(e: Entry, f: FlagFormat, readFlag: Bytes -> Option<bool>, rest: Bytes)
    requires Plain(e.name) && ReadsFlags(readFlag, f)
    ensures ReadEntry(Line(e, f) + rest, readFlag) == Some((e, rest))
  {
    var flag := FlagText(e.flag, f);
    FlagTextPlain(e.flag, f);
    assert readFlag(flag) == Some(e.flag);
    assert Line(e, f) + rest == e.name + ([Colon] + (Decimal(e.line) + ([Colon] + (flag + ([Newline] + rest)))));
    ReadLineOf(e.name, e.line, flag, e.flag, rest, readFlag);
  }

  /** One line `name:line:flag\n` reads back as its entry. */
  lemma ReadLineOf(name: Bytes, line: nat, flag: Bytes, b: bool, rest: Bytes, readFlag: Bytes -> Option<bool>)
    requires Plain(name) && readFlag(flag) == Some(b)
    requires forall i :: 0 <= i < |flag| ==> flag[i] != Newline
    ensures ReadEntry(name + ([Colon] + (Decimal(line) + ([Colon] + (flag + ([Newline] + rest))))), readFlag)
         == Some((Entry(name, line, b), rest))
  {
    var u := flag + ([Newline] + rest);
    var t := Decimal(line) + ([Colon] + u);
    ReadNameOf(name, t, readFlag);
    ReadNumberOf(name, line, u, readFlag);
    ReadFlagOf(name, line, flag, b, rest, readFlag);
  }

  /** A colon-free name is read up to its colon. */
  lemma ReadNameOf(name: Bytes, t: Bytes, readFlag: Bytes -> Option<bool>)
    requires Plain(name)
    ensures ReadEntry(name + ([Colon] + t), readFlag) == ReadLineNumber(name, t, readFlag)
  {
    var s := name + ([Colon] + t);
    SpanUntilStops(name, Colon, [Colon] + t);
    assert s[..|name|] == name && s[|name| + 1..] == t;
  }

  /** A decimal followed by a colon reads back as its value. */
  lemma ReadNumberOf(name: Bytes, line: nat, u: Bytes, readFlag: Bytes -> Option<bool>)
    ensures ReadLineNumber(name, Decimal(line) + ([Colon] + u), readFlag) == ReadFlagField(name, line, u, readFlag)
  {
    var dec := Decimal(line);
    var t := dec + ([Colon] + u);
    LeadingDigitsOfDecimal(line, [Colon] + u);
    DecimalRoundTrip(line);
    assert t[..|dec|] == dec && t[|dec|] == Colon && t[|dec| + 1..] == u;
  }

  /** A newline-free flag is read up to the newline. */
  lemma ReadFlagOf(name: Bytes, line: nat, flag: Bytes, b: bool, rest: Bytes, readFlag: Bytes -> Option<bool>)
    requires readFlag(flag) == Some(b)
    requires forall i :: 0 <= i < |flag| ==> flag[i] != Newline
    ensures ReadFlagField(name, line, flag + ([Newline] + rest), readFlag) == Some((Entry(name, line, b), rest))
  {
    var u := flag + ([Newline] + rest);
    SpanUntilStops(flag, Newline, [Newline] + rest);
    assert u[..|flag|] == flag && u[|flag| + 1..] == rest;
  }

  /** Rendered entries with plain names read back as themselves. */
  lemma {:induction false} ReadRender(es: seq<Entry>, f: FlagFormat, readFlag: Bytes -> Option<bool>)
    requires ReadsFlags(readFlag, f)
    requires forall j :: 0 <= j < |es| ==> Plain(es[j].name)
    ensures ReadReport(Render(es, f), readFlag) == Some(es)
  {
    if es != [] {
      ReadRender(es[1..], f, readFlag);
      ReadEntryOfLine(es[0], f, readFlag, Render(es[1..], f));
      ReadReportStep(Line(es[0], f) + Render(es[1..], f), es[0], Render(es[1..], f), es[1..], readFlag);
      assert [es[0]] + es[1..] == es;
    }
  }

  /** ReadReport after one entry has been read. */
  lemma ReadReportStep(s: Bytes, e: Entry, rest: Bytes, es: seq<Entry>, readFlag: Bytes -> Option<bool>)
    requires ReadEntry(s, readFlag) == Some((e, rest))
    requires ReadReport(rest, readFlag) == Some(es)
    ensures ReadReport(s, readFlag) == Some([e] + es)
  {
  }

  /** Round trip: the report file lists exactly the writable entries, one
      line each, in index order, with the name and line at the same index as
      the count. */
  lemma ReportRoundTrip(c: Cover, f: FlagFormat)
    requires forall j :: 0 <= j < Writable(c) ==> Plain(c.names[j])
    ensures ReadReport(Report(c, f), FlagReader(f)) == Some(Entries(c))
  {
    FlagReaderReads(f);
    ReadRender(Entries(c), f, FlagReader(f));
  }

  /** `PeriodicalCollect(period, args...)`: `parsed` is the outcome of
      parsing the period (None on a parse error). The timer loop never ends;
      `ticks` is how many times it has fired so far. */
  function PeriodicalCollect(files: map<string, Bytes>, c: Cover, parsed: Option<int>, args: seq<string>, creatable: string -> bool, ticks: nat, f: FlagFormat): (r: Run)
    ensures (parsed.None? || parsed.value <= 0) ==> r == Run(files, false)
  {
    if parsed.None? || parsed.value <= 0 then Run(files, false)
    else Ticks(files, c, args, creatable, ticks, f)
  }

  function Ticks(files: map<string, Bytes>, c: Cover, args: seq<string>, creatable: string -> bool, n: nat, f: FlagFormat): Run
    decreases n
  {
    if n == 0 then Run(files, false)
    else
      var r := Collect(files, c, args, creatable, f);
      if r.panicked then r else Ticks(r.files, c, args, creatable, n - 1, f)
  }

  /** With the same table, any positive number of ticks leaves the files
      exactly as one collection does. */
  lemma {:induction false} TicksSettle(files: map<string, Bytes>, c: Cover, args: seq<string>, creatable: string -> bool, n: nat, f: FlagFormat)
    requires n >= 1
    ensures Ticks(files, c, args, creatable, n, f) == Collect(files, c, args, creatable, f)
    decreases n
  {
    var r := Collect(files, c, args, creatable, f);
    if !r.panicked && n > 1 {
      CollectIdempotent(files, c, args, creatable, f);
      TicksSettle(r.files, c, args, creatable, n - 1, f);
    }
  }

  /** A three-function table, reported in the corrected format. */
  lemma ReportExample()
    ensures var c := Cover(3, [Lit("a"), Lit("b"), Lit("c")], [10, 20, 30], [true, false, true]);
      Report(c, Boolean) == Lit("a:10:true\n") + Lit("b:20:false\n") + Lit("c:30:true\n")
  {
    var c := Cover(3, [Lit("a"), Lit("b"), Lit("c")], [10, 20, 30], [true, false, true]);
    var es := [Entry(Lit("a"), 10, true), Entry(Lit("b"), 20, false), Entry(Lit("c"), 30, true)];
    assert Entries(c) == es;
    RenderThree(es[0], es[1], es[2], Boolean);
    ExampleLines();
  }

  /** Three entries render as their three lines. */
  lemma RenderThree(e0: Entry, e1: Entry, e2: Entry, f: FlagFormat)
    ensures Render([e0, e1, e2], f) == Line(e0, f) + Line(e1, f) + Line(e2, f)
  {
    assert [e2][0] == e2 && [e2][1..] == [];
    assert Render([e2], f) == Line(e2, f) + [] == Line(e2, f);
    assert [e1, e2][0] == e1 && [e1, e2][1..] == [e2];
    assert Render([e1, e2], f) == Line(e1, f) + Line(e2, f);
    assert [e0, e1, e2][0] == e0 && [e0, e1, e2][1..] == [e1, e2];
    assert Render([e0, e1, e2], f) == Line(e0, f) + (Line(e1, f) + Line(e2, f));
  }

  lemma ExampleLines()
    ensures Line(Entry(Lit("a"), 10, true), Boolean) == Lit("a:10:true\n")
    ensures Line(Entry(Lit("b"), 20, false), Boolean) == Lit("b:20:false\n")
    ensures Line(Entry(Lit("c"), 30, true), Boolean) == Lit("c:30:true\n")
  {
    ExampleLineA();
    ExampleLineB();
    ExampleLineC();
  }

  lemma ExampleLineA()
    ensures Line(Entry(Lit("a"), 10, true), Boolean) == Lit("a:10:true\n")
  {
    ExampleLine(Lit("a"), 10, true, Boolean, Lit("10"), Lit("a:10:true\n"));
  }

  lemma ExampleLineB()
    ensures Line(Entry(Lit("b"), 20, false), Boolean) == Lit("b:20:false\n")
  {
    ExampleLine(Lit("b"), 20, false, Boolean, Lit("20"), Lit("b:20:false\n"));
  }

  lemma ExampleLineC()
    ensures Line(Entry(Lit("c"), 30, true), Boolean) == Lit("c:30:true\n")
  {
    ExampleLine(Lit("c"), 30, true, Boolean, Lit("30"), Lit("c:30:true\n"));
  }

  /** A line of the example, given the rendering of its number. */
  lemma ExampleLine(name: Bytes, line: nat, flag: bool, f: FlagFormat, digits: Bytes, text: Bytes)
    requires Decimal(line) == digits
    requires text == name + [Colon] + digits + [Colon] + FlagText(flag, f) + [Newline]
    ensures Line(Entry(name, line, flag), f) == text
  {
  }

  /** As written, a set flag prints the bad-verb note `%!d(bool=true)`
      instead of `true`, so the line differs from the corrected one. */
  lemma ReportExampleAsWritten()
    ensures var c := Cover(1, [Lit("a")], [10], [true]);
      && Report(c, BadVerb) == Lit("a") + [Colon] + Lit("10") + [Colon] + Lit("%!d(bool=true)") + [Newline]
      && Report(c, BadVerb) != Report(c, Boolean)
  {
    var c := Cover(1, [Lit("a")], [10], [true]);
    var e := Entry(Lit("a"), 10, true);
    assert Entries(c) == [e];
    RenderOne(e, BadVerb);
    RenderOne(e, Boolean);
    ExampleLine(Lit("a"), 10, true, BadVerb, Lit("10"), Lit("a") + [Colon] + Lit("10") + [Colon] + Lit("%!d(bool=true)") + [Newline]);
    ExampleLineA();
    assert |Lit("a:10:true\n")| != |Report(c, BadVerb)|;
  }

  /** One entry renders as its line. */
  lemma RenderOne(e: Entry, f: FlagFormat)
    ensures Render([e], f) == Line(e, f)
  {
    assert [e][0] == e && [e][1..] == [];
    assert Line(e, f) + [] == Line(e, f);
  }
}
