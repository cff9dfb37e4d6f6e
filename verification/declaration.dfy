/** The coverage declaration (`declCover` of cmd/funccover/helper.go): the
    text appended to an instrumented unit that defines the table
    `cover_<suffix>` of type `covcollect.Cover` and, when a positive period
    is configured, an `init` function that starts the periodic collector.
    The template is rendered here by direct concatenation; a decoder reads
    the text back and the round trip states what the text says. */
module Declaration {
  import opened ByteStrings

  /** One function record: its name and its source line. */
  datatype FuncBlock = FuncBlock(name: Bytes, line: uint32)

  function LinesOf(blocks: seq<FuncBlock>): seq<nat>
  {
    seq(|blocks|, i requires 0 <= i < |blocks| => blocks[i].line as nat)
  }

  function NamesOf(blocks: seq<FuncBlock>): seq<Bytes>
  {
    seq(|blocks|, i requires 0 <= i < |blocks| => blocks[i].name)
  }

  // The fixed pieces of the template, in the order they appear.

  function LenOpen(suffix: Bytes): Bytes
  {
    Lit("\nvar cover_") + suffix + Lit(" = covcollect.Cover {\n\tLen: ")
  }

  function LinesOpen(): Bytes { Lit(",\n\tLines: []uint32{ ") }

  function EntryIndent(): Bytes { Lit("\n\t\t") }

  function Comma(): Bytes { Lit(",") }

  function Quote(): Bytes { Lit("\"") }

  function QuoteComma(): Bytes { Lit("\",") }

  function FalseComma(): Bytes { Lit("false,") }

  function NamesOpen(): Bytes { Lit("\n\t},\n\tNames: []string{ ") }

  function CountsOpen(): Bytes { Lit("\n\t},\n\tCounts: []bool{ ") }

  function Close(): Bytes { Lit("\n\t},\n}\n") }

  function InitOpen(suffix: Bytes): Bytes
  {
    Lit("\nfunc init() {\n    go cover_") + suffix + Lit(".PeriodicalCollect(\"")
  }

  function ArgSep(): Bytes { Lit("\",  \"") }

  function InitClose(): Bytes { Lit("\")\n}") }

  /** The `Lines` entries: one indented decimal per line, each followed by a comma. */
  function LinesText(lines: seq<nat>): Bytes
  {
    if lines == [] then []
    else EntryIndent() + (Decimal(lines[0]) + (Comma() + LinesText(lines[1..])))
  }

  /** The `Names` entries: one indented quoted name per block. */
  function NamesText(names: seq<Bytes>): Bytes
  {
    if names == [] then []
    else EntryIndent() + (Quote() + (names[0] + (QuoteComma() + NamesText(names[1..]))))
  }

  /** The `Counts` entries: n indented `false,`. */
  function FalsesText(n: nat): Bytes
  {
    if n == 0 then [] else EntryIndent() + (FalseComma() + FalsesText(n - 1))
  }

  /** The optional `init` function; `periodText` is how the period prints. */
  function InitText(suffix: Bytes, fileName: Bytes, period: int, periodText: Bytes): Bytes
  {
    if period > 0 then InitOpen(suffix) + (periodText + (ArgSep() + (fileName + InitClose()))) else []
  }

  /** What `declCover(w, suffix, fileName, period, funcCover)` writes. */
  function DeclCover(suffix: Bytes, fileName: Bytes, period: int, periodText: Bytes, blocks: seq<FuncBlock>): Bytes
  {
    LenOpen(suffix) + (Decimal(|blocks|) + (LinesOpen() + (LinesText(LinesOf(blocks))
      + (NamesOpen() + (NamesText(NamesOf(blocks)) + (CountsOpen() + (FalsesText(|blocks|)
      + (Close() + InitText(suffix, fileName, period, periodText)))))))))
  }

  /** What a reader of the declaration learns from it: the `Len` field, the
      `Lines` and `Names` entries, the number of `Counts` entries, and the
      arguments of the periodic collector when an `init` is present. */
  datatype DeclView = DeclView(len: nat, lines: seq<nat>, names: seq<Bytes>, counts: nat, init: Option<(Bytes, Bytes)>)

  const QuoteByte: byte := '"' as byte

  predicate NoQuote(s: Bytes) { forall i :: 0 <= i < |s| ==> s[i] != QuoteByte }

  /** Reads `Lines` entries off the front of s; returns them and the rest. */
  function ReadLines(s: Bytes): (r: (seq<nat>, Bytes))
    ensures |r.1| <= |s|
    decreases |s|
  {
    if !StartsWith(s, EntryIndent()) then ([], s)
    else
      var t := s[|EntryIndent()|..];
      var d := LeadingDigits(t);
      if d == 0 || !StartsWith(t[d..], Comma()) then ([], s)
      else
        var more := ReadLines(t[d + |Comma()|..]);
        ([DecimalValue(t[..d])] + more.0, more.1)
  }

  /** Reads `Names` entries off the front of s. */
  function ReadNames(s: Bytes): (r: (seq<Bytes>, Bytes))
    ensures |r.1| <= |s|
    decreases |s|
  {
    if !StartsWith(s, EntryIndent() + Quote()) then ([], s)
    else
      var t := s[|EntryIndent() + Quote()|..];
      var q := SpanUntil(t, QuoteByte);
      if !StartsWith(t[q..], QuoteComma()) then ([], s)
      else
        var more := ReadNames(t[q + |QuoteComma()|..]);
        ([t[..q]] + more.0, more.1)
  }

  /** Counts `false,` entries off the front of s. */
  function ReadFalses(s: Bytes): (r: (nat, Bytes))
    ensures |r.1| <= |s|
    decreases |s|
  {
    if !StartsWith(s, EntryIndent() + FalseComma()) then (0, s)
    else
      var more := ReadFalses(s[|EntryIndent() + FalseComma()|..]);
      (more.0 + 1, more.1)
  }

  /** Reads a declaration for table `cover_<suffix>`; None when the text
      does not have the template's shape. */
  function DecodeDecl(text: Bytes, suffix: Bytes): Option<DeclView>
  {
    match StripPrefix(LenOpen(suffix), text)
    case None => None
    case Some(t) =>
      var d := LeadingDigits(t);
      if d == 0 then None else DecodeLines(t[d..], DecimalValue(t[..d]), suffix)
  }

  function DecodeLines(t: Bytes, len: nat, suffix: Bytes): Option<DeclView>
  {
    match StripPrefix(LinesOpen(), t)
    case None => None
    case Some(t1) =>
      var (lines, t2) := ReadLines(t1);
      match StripPrefix(NamesOpen(), t2)
      case None => None
      case Some(t3) => DecodeNames(t3, len, lines, suffix)
  }

  function DecodeNames(t: Bytes, len: nat, lines: seq<nat>, suffix: Bytes): Option<DeclView>
  {
    var (names, t1) := ReadNames(t);
    match StripPrefix(CountsOpen(), t1)
    case None => None
    case Some(t2) =>
      var (counts, t3) := ReadFalses(t2);
      match StripPrefix(Close(), t3)
      case None => None
      case Some(t4) =>
        match DecodeInit(t4, suffix)
        case None => None
        case Some(init) => Some(DeclView(len, lines, names, counts, init))
  }

  /** The tail after the table: empty, or an `init` whose two string
      arguments are read back (the period up to its closing quote, the file
      name up to the fixed closing text). */
  function DecodeInit(t: Bytes, suffix: Bytes): Option<Option<(Bytes, Bytes)>>
  {
    if t == [] then Some(None)
    else
      match StripPrefix(InitOpen(suffix), t)
      case None => None
      case Some(t1) =>
        var q := SpanUntil(t1, QuoteByte);
        match StripPrefix(ArgSep(), t1[q..])
        case None => None
        case Some(t2) =>
          if EndsWith(t2, InitClose()) then Some(Some((t1[..q], t2[..|t2| - |InitClose()|]))) else None
  }

  // Reading each part back.

  lemma StripFront(p: Bytes, x: Bytes)
    ensures StartsWith(p + x, p) && (p + x)[|p|..] == x
  {
    assert (p + x)[..|p|] == p;
  }

  lemma {:induction false} ReadLinesOf(lines: seq<nat>, rest: Bytes)
    requires !StartsWith(rest, EntryIndent())
    ensures ReadLines(LinesText(lines) + rest) == (lines, rest)
    decreases |lines|
  {
    if lines == [] {
      assert LinesText(lines) + rest == rest;
    } else {
      var tail := LinesText(lines[1..]) + rest;
      assert LinesText(lines) + rest == EntryIndent() + (Decimal(lines[0]) + (Comma() + tail)) by {
        Regroup3(EntryIndent(), Decimal(lines[0]), Comma(), LinesText(lines[1..]), rest);
      }
      ReadLinesStep(lines[0], tail);
      ReadLinesOf(lines[1..], rest);
      assert [lines[0]] + lines[1..] == lines;
    }
  }

  /** One `Lines` entry in front of x is read back, then x is read on. */
  lemma ReadLinesStep(v: nat, x: Bytes)
    ensures ReadLines(EntryIndent() + (Decimal(v) + (Comma() + x))) == ([v] + ReadLines(x).0, ReadLines(x).1)
  {
    var d, y := Decimal(v), Comma() + x;
    var t := d + y;
    var s := EntryIndent() + t;
    assert StartsWith(s, EntryIndent()) && s[|EntryIndent()|..] == t by {
      StripFront(EntryIndent(), t);
    }
    assert LeadingDigits(t) == |d| by {
      assert y[0] == ',' as byte;
      LeadingDigitsOfDecimal(v, y);
    }
    assert StartsWith(t[|d|..], Comma()) && t[|d| + |Comma()|..] == x by {
      StripFront(d, y);
      StripFront(Comma(), x);
      assert t[|d| + |Comma()|..] == y[|Comma()|..];
    }
    assert DecimalValue(t[..|d|]) == v by {
      StripFront(d, y);
      DecimalRoundTrip(v);
    }
  }

  lemma Regroup3(a: Bytes, b: Bytes, c: Bytes, d: Bytes, e: Bytes)
    ensures a + (b + (c + d)) + e == a + (b + (c + (d + e)))
  {
  }

  lemma {:induction false} ReadNamesOf(names: seq<Bytes>, rest: Bytes)
    requires forall i :: 0 <= i < |names| ==> NoQuote(names[i])
    requires !StartsWith(rest, EntryIndent() + Quote())
    ensures ReadNames(NamesText(names) + rest) == (names, rest)
    decreases |names|
  {
    if names == [] {
      assert NamesText(names) + rest == rest;
    } else {
      var tail := NamesText(names[1..]) + rest;
      assert NamesText(names) + rest == EntryIndent() + (Quote() + (names[0] + (QuoteComma() + tail))) by {
        Regroup4(EntryIndent(), Quote(), names[0], QuoteComma(), NamesText(names[1..]), rest);
      }
      ReadNamesStep(names[0], tail);
      ReadNamesOf(names[1..], rest);
      assert [names[0]] + names[1..] == names;
    }
  }

  /** One quoted name in front of x is read back, then x is read on. */
  lemma ReadNamesStep(n: Bytes, x: Bytes)
    requires NoQuote(n)
    ensures ReadNames(EntryIndent() + (Quote() + (n + (QuoteComma() + x)))) == ([n] + ReadNames(x).0, ReadNames(x).1)
  {
    var y := QuoteComma() + x;
    var t := n + y;
    var p := EntryIndent() + Quote();
    var s := EntryIndent() + (Quote() + t);
    assert StartsWith(s, p) && s[|p|..] == t by {
      assert s == p + t;
      StripFront(p, t);
    }
    assert SpanUntil(t, QuoteByte) == |n| by {
      assert y[0] == QuoteByte;
      SpanUntilStops(n, QuoteByte, y);
    }
    assert t[..|n|] == n && StartsWith(t[|n|..], QuoteComma()) && t[|n| + |QuoteComma()|..] == x by {
      StripFront(n, y);
      StripFront(QuoteComma(), x);
      assert t[|n| + |QuoteComma()|..] == y[|QuoteComma()|..];
    }
  }

  lemma Regroup4(a: Bytes, b: Bytes, c: Bytes, d: Bytes, e: Bytes, f: Bytes)
    ensures a + (b + (c + (d + e))) + f == a + (b + (c + (d + (e + f))))
  {
  }

  lemma {:induction false} ReadFalsesOf(n: nat, rest: Bytes)
    requires !StartsWith(rest, EntryIndent() + FalseComma())
    ensures ReadFalses(FalsesText(n) + rest) == (n, rest)
  {
    if n == 0 {
      assert FalsesText(n) + rest == rest;
    } else {
      FalsesTextUnfold(n, rest);
      ReadFalsesStep(FalsesText(n - 1) + rest);
      ReadFalsesOf(n - 1, rest);
    }
  }

  lemma FalsesTextUnfold(n: nat, rest: Bytes)
    requires n > 0
    ensures FalsesText(n) + rest == EntryIndent() + FalseComma() + (FalsesText(n - 1) + rest)
  {
    Regroup(EntryIndent(), FalseComma(), FalsesText(n - 1), rest);
  }

  lemma Regroup(a: Bytes, b: Bytes, c: Bytes, d: Bytes)
    ensures a + (b + c) + d == a + b + (c + d)
  {
  }

  lemma ReadFalsesStep(x: Bytes)
    ensures ReadFalses(EntryIndent() + FalseComma() + x) == (ReadFalses(x).0 + 1, ReadFalses(x).1)
  {
    StripFront(EntryIndent() + FalseComma(), x);
  }

  lemma DecodeInitOf(suffix: Bytes, fileName: Bytes, period: int, periodText: Bytes)
    requires NoQuote(periodText)
    ensures DecodeInit(InitText(suffix, fileName, period, periodText), suffix)
         == Some(if period > 0 then Some((periodText, fileName)) else None)
  {
    if period > 0 {
      var t1 := periodText + (ArgSep() + (fileName + InitClose()));
      StripFront(InitOpen(suffix), t1);
      SpanUntilStops(periodText, QuoteByte, ArgSep() + (fileName + InitClose()));
      assert t1[..|periodText|] == periodText && t1[|periodText|..] == ArgSep() + (fileName + InitClose());
      StripFront(ArgSep(), fileName + InitClose());
      var t2 := fileName + InitClose();
      assert t2[|t2| - |InitClose()|..] == InitClose();
      assert t2[..|t2| - |InitClose()|] == fileName;
    }
  }

  /** The text after each list of entries does not look like another entry. */
  lemma SectionBoundaries(x: Bytes)
    ensures !StartsWith(NamesOpen() + x, EntryIndent())
    ensures !StartsWith(CountsOpen() + x, EntryIndent() + Quote())
    ensures !StartsWith(Close() + x, EntryIndent() + FalseComma())
  {
    assert (NamesOpen() + x)[2] != EntryIndent()[2];
    assert (CountsOpen() + x)[2] != (EntryIndent() + Quote())[2];
    assert (Close() + x)[2] != (EntryIndent() + FalseComma())[2];
  }

  lemma DecodeNamesOf(names: seq<Bytes>, k: nat, len: nat, lines: seq<nat>, suffix: Bytes, fileName: Bytes, period: int, periodText: Bytes)
    requires forall i :: 0 <= i < |names| ==> NoQuote(names[i])
    requires NoQuote(periodText)
    ensures var init := InitText(suffix, fileName, period, periodText);
      DecodeNames(NamesText(names) + (CountsOpen() + (FalsesText(k) + (Close() + init))), len, lines, suffix)
      == Some(DeclView(len, lines, names, k, if period > 0 then Some((periodText, fileName)) else None))
  {
    var init := InitText(suffix, fileName, period, periodText);
    var r4 := Close() + init;
    var r3 := CountsOpen() + (FalsesText(k) + r4);
    SectionBoundaries(FalsesText(k) + r4);
    ReadNamesOf(names, r3);
    StripFront(CountsOpen(), FalsesText(k) + r4);
    SectionBoundaries(init);
    ReadFalsesOf(k, r4);
    StripFront(Close(), init);
    DecodeInitOf(suffix, fileName, period, periodText);
  }

  lemma DecodeLinesOf(lines: seq<nat>, len: nat, suffix: Bytes, rest: Bytes)
    ensures DecodeLines(LinesOpen() + (LinesText(lines) + (NamesOpen() + rest)), len, suffix)
         == DecodeNames(rest, len, lines, suffix)
  {
    StripFront(LinesOpen(), LinesText(lines) + (NamesOpen() + rest));
    SectionBoundaries(rest);
    ReadLinesOf(lines, NamesOpen() + rest);
    StripFront(NamesOpen(), rest);
  }

  lemma DecodeLenOf(suffix: Bytes, n: nat, rest: Bytes)
    ensures DecodeDecl(LenOpen(suffix) + (Decimal(n) + (LinesOpen() + rest)), suffix)
         == DecodeLines(LinesOpen() + rest, n, suffix)
  {
    var t := Decimal(n) + (LinesOpen() + rest);
    StripFront(LenOpen(suffix), t);
    LeadingDigitsOfDecimal(n, LinesOpen() + rest);
    DecimalRoundTrip(n);
    assert t[..|Decimal(n)|] == Decimal(n) && t[|Decimal(n)|..] == LinesOpen() + rest;
  }

  /** Round trip: the declaration states `Len` equal to the number of
      blocks, one `Lines` and one `Names` entry per block in block order,
      exactly that many `false` counts, and an `init` calling the periodic
      collector with the period text and the file name exactly when the
      period is positive. */
  lemma DeclRoundTrip(suffix: Bytes, fileName: Bytes, period: int, periodText: Bytes, blocks: seq<FuncBlock>)
    requires NoQuote(periodText)
    requires forall i :: 0 <= i < |blocks| ==> NoQuote(blocks[i].name)
    ensures DecodeDecl(DeclCover(suffix, fileName, period, periodText, blocks), suffix)
         == Some(DeclView(|blocks|, LinesOf(blocks), NamesOf(blocks), |blocks|,
                          if period > 0 then Some((periodText, fileName)) else None))
  {
    var n := |blocks|;
    var init := InitText(suffix, fileName, period, periodText);
    var r2 := NamesText(NamesOf(blocks)) + (CountsOpen() + (FalsesText(n) + (Close() + init)));
    var r1 := LinesText(LinesOf(blocks)) + (NamesOpen() + r2);
    DecodeLenOf(suffix, n, r1);
    DecodeLinesOf(LinesOf(blocks), n, suffix, r2);
    DecodeNamesOf(NamesOf(blocks), n, n, LinesOf(blocks), suffix, fileName, period, periodText);
  }
}
