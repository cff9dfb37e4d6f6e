/** Counter insertion (`addCounters` of cmd/funccover/helper.go): one pass over
    a source file's bytes that writes `\ncover_<suffix>.Counts[<k>] = true;`
    immediately before byte `events[k]`, where the events are the 1-based
    positions of the `{` of every top-level function body. The root
    coordinator calls a variant that starts numbering at a given index and
    returns the next free one; `start` models that. */
module Counters {
  import opened ByteStrings
  import opened Outcomes

  /** A top-level declaration as the Go parser reports it. For a function or
      method, `lbrace` is the token position of its body's `{`; in a fresh
      file set that position is the byte offset plus one, so inserting before
      byte `lbrace` lands right after the brace. */
  datatype Decl =
    | FuncDecl(name: Bytes, isMethod: bool, lbrace: nat)
      /** A function declared without a body (`func f()`, implemented
          elsewhere): its `Body` is nil. */
    | BodylessFunc(name: Bytes, isMethod: bool)
    | OtherDecl

  /** Every function declaration has a body. Otherwise the event loop reads
      `t.Body.Lbrace` through a nil pointer and panics. */
  predicate AllBodied(decls: seq<Decl>)
  {
    forall i :: 0 <= i < |decls| ==> !decls[i].BodylessFunc?
  }

  const NilBody := "invalid memory address or nil pointer dereference"

  /** The insertion events: one per function declaration, methods included,
      in declaration order (used only when every function has a body). */
  function Events(decls: seq<Decl>): (r: seq<nat>)
    ensures |r| <= |decls|
    ensures (forall i :: 0 <= i < |decls| ==> decls[i].FuncDecl?) ==>
              |r| == |decls| && forall i :: 0 <= i < |decls| ==> r[i] == decls[i].lbrace
    ensures (forall i :: 0 <= i < |decls| ==> !decls[i].FuncDecl?) ==> r == []
  {
    if decls == [] then []
    else (if decls[0].FuncDecl? then [decls[0].lbrace] else []) + Events(decls[1..])
  }

  lemma {:induction false} EventsConcat(a: seq<Decl>, b: seq<Decl>)
    ensures Events(a + b) == Events(a) + Events(b)
  {
    if a == [] {
      assert a + b == b;
    } else {
      var h := if a[0].FuncDecl? then [a[0].lbrace] else [];
      assert Events(a + b) == h + Events(a[1..] + b) by {
        assert (a + b)[0] == a[0] && (a + b)[1..] == a[1..] + b;
      }
      EventsConcat(a[1..], b);
      assert h + (Events(a[1..]) + Events(b)) == (h + Events(a[1..])) + Events(b);
    }
  }

  /** How each original byte reaches the output. `RuneConversion` is what
      `fmt.Fprintf(w, "%s", string(content[i]))` does: Go's `string(b)` of a
      byte is the UTF-8 encoding of code point b. `Verbatim` copies the byte. */
  datatype CopyMode = RuneConversion | Verbatim

  function Copy(s: Bytes, mode: CopyMode): Bytes
  {
    if mode == Verbatim then s else RuneExpand(s)
  }

  lemma CopyConcat(a: Bytes, b: Bytes, mode: CopyMode)
    ensures Copy(a + b, mode) == Copy(a, mode) + Copy(b, mode)
  {
    if mode == RuneConversion {
      RuneExpandConcat(a, b);
    }
  }

  /** A byte-string map that respects concatenation, as any byte-by-byte
      copy does. */
  ghost predicate Homomorphic(copy: Bytes -> Bytes)
  {
    copy([]) == [] && forall a: Bytes, b: Bytes :: copy(Concat(a, b)) == copy(a) + copy(b)
  }

  /** Concatenation under a name of its own, so that the homomorphism law is
      used only where a proof asks for it. */
  function Concat(a: Bytes, b: Bytes): (r: Bytes)
    ensures r == a + b
  {
    a + b
  }

  function CopyFn(mode: CopyMode): Bytes -> Bytes
  {
    s => Copy(s, mode)
  }

  lemma CopyHomomorphic(mode: CopyMode)
    ensures Homomorphic(CopyFn(mode))
  {
    forall a: Bytes, b: Bytes ensures CopyFn(mode)(Concat(a, b)) == CopyFn(mode)(a) + CopyFn(mode)(b) {
      CopyConcat(a, b, mode);
    }
  }

  /** The statement that marks counter k of the table `cover_<suffix>`. */
  function Stmt(suffix: Bytes, k: nat): Bytes
  {
    Lit("\ncover_") + suffix + Lit(".Counts[") + Decimal(k) + Lit("] = true;")
  }

  /** The statements for counters start, start + 1, ..., start + n - 1. */
  function Stmts(suffix: Bytes, start: nat, n: nat): seq<Bytes>
  {
    seq(n, k requires 0 <= k < n => Stmt(suffix, start + k))
  }

  /** Two statements of one table are equal only for the same counter. */
  lemma StmtInjective(suffix: Bytes, a: nat, b: nat)
    requires Stmt(suffix, a) == Stmt(suffix, b)
    ensures a == b
  {
    var p := Lit("\ncover_") + suffix + Lit(".Counts[");
    var t := Lit("] = true;");
    assert Stmt(suffix, a) == p + Decimal(a) + t;
    assert Stmt(suffix, b) == p + Decimal(b) + t;
    assert |Decimal(a)| == |Decimal(b)|;
    assert Decimal(a) == Stmt(suffix, a)[|p|..|p| + |Decimal(a)|];
    assert Decimal(b) == Stmt(suffix, b)[|p|..|p| + |Decimal(b)|];
    DecimalInjective(a, b);
  }

  /** Cut positions (original byte offsets) in non-decreasing order, all
      within content that starts at offset `base` and has length `len`. */
  predicate Fits(cuts: seq<nat>, base: nat, len: nat)
    decreases |cuts|
  {
    cuts == [] || (base <= cuts[0] <= base + len && Fits(cuts[1..], cuts[0], base + len - cuts[0]))
  }

  lemma {:induction false} FitsBounds(cuts: seq<nat>, base: nat, len: nat, k: nat)
    requires Fits(cuts, base, len) && k < |cuts|
    ensures base <= cuts[k] <= base + len
    decreases k
  {
    if k > 0 {
      FitsBounds(cuts[1..], cuts[0], base + len - cuts[0], k - 1);
    }
  }

  lemma {:induction false} FitsExtend(cuts: seq<nat>, base: nat, len: nat, x: nat)
    requires Fits(cuts, base, len)
    requires (if cuts == [] then base else cuts[|cuts| - 1]) <= x <= base + len
    ensures Fits(cuts + [x], base, len)
    decreases |cuts|
  {
    if cuts != [] {
      assert (cuts + [x])[1..] == cuts[1..] + [x];
      FitsExtend(cuts[1..], cuts[0], base + len - cuts[0], x);
    }
  }

  lemma {:induction false} FitsGrow(cuts: seq<nat>, base: nat, len: nat)
    requires Fits(cuts, base, len)
    ensures Fits(cuts, base, len + 1)
    decreases |cuts|
  {
    if cuts != [] {
      FitsGrow(cuts[1..], cuts[0], base + len - cuts[0]);
    }
  }

  /** Reference definition of the instrumented text: c (whose first byte has
      original offset `base`) with pieces[k] placed immediately before the
      byte at original offset cuts[k], every original byte passed through `copy`. */
  function Weave(c: Bytes, base: nat, cuts: seq<nat>, pieces: seq<Bytes>, copy: Bytes -> Bytes): Bytes
    decreases |cuts|
  {
    if cuts == [] || pieces == [] || cuts[0] < base || cuts[0] - base > |c| then copy(c)
    else
      var at := cuts[0] - base;
      copy(c[..at]) + pieces[0] + Weave(c[at..], cuts[0], cuts[1..], pieces[1..], copy)
  }

  lemma {:induction false} WeaveAppendByte(c: Bytes, b: byte, base: nat, cuts: seq<nat>, pieces: seq<Bytes>, copy: Bytes -> Bytes)
    requires |cuts| == |pieces| && Fits(cuts, base, |c|) && Homomorphic(copy)
    ensures Weave(c + [b], base, cuts, pieces, copy) == Weave(c, base, cuts, pieces, copy) + copy([b])
    decreases |cuts|
  {
    if cuts == [] {
      assert copy(Concat(c, [b])) == copy(c) + copy([b]);
    } else {
      var at := cuts[0] - base;
      assert (c + [b])[..at] == c[..at];
      assert (c + [b])[at..] == c[at..] + [b];
      WeaveAppendByte(c[at..], b, cuts[0], cuts[1..], pieces[1..], copy);
    }
  }

  lemma {:induction false} WeaveAppendPiece(c: Bytes, base: nat, cuts: seq<nat>, pieces: seq<Bytes>, p: Bytes, copy: Bytes -> Bytes)
    requires |cuts| == |pieces| && Fits(cuts, base, |c|) && copy([]) == []
    ensures Weave(c, base, cuts + [base + |c|], pieces + [p], copy) == Weave(c, base, cuts, pieces, copy) + p
    decreases |cuts|
  {
    if cuts == [] {
      WeaveOnePieceAtEnd(c, base, p, copy);
    } else {
      var at := cuts[0] - base;
      assert cuts[0] + |c[at..]| == base + |c|;
      WeaveAppendPiece(c[at..], cuts[0], cuts[1..], pieces[1..], p, copy);
      WeaveAppendPieceStep(c, base, cuts, pieces, p, copy);
    }
  }

  lemma WeaveOnePieceAtEnd(c: Bytes, base: nat, p: Bytes, copy: Bytes -> Bytes)
    requires copy([]) == []
    ensures Weave(c, base, [base + |c|], [p], copy) == copy(c) + p
  {
    assert c[..|c|] == c;
    assert c[|c|..] == [];
    assert copy([]) == [];
    assert [base + |c|][1..] == [];
    assert [p][1..] == [];
  }

  lemma WeaveAppendPieceStep(c: Bytes, base: nat, cuts: seq<nat>, pieces: seq<Bytes>, p: Bytes, copy: Bytes -> Bytes)
    requires |cuts| == |pieces| && cuts != [] && base <= cuts[0] <= base + |c|
    requires Weave(c[cuts[0] - base..], cuts[0], cuts[1..] + [base + |c|], pieces[1..] + [p], copy)
          == Weave(c[cuts[0] - base..], cuts[0], cuts[1..], pieces[1..], copy) + p
    ensures Weave(c, base, cuts + [base + |c|], pieces + [p], copy) == Weave(c, base, cuts, pieces, copy) + p
  {
    var cuts', pieces' := cuts + [base + |c|], pieces + [p];
    assert cuts'[1..] == cuts[1..] + [base + |c|];
    assert pieces'[1..] == pieces[1..] + [p];
    var at := cuts[0] - base;
    var x := copy(c[..at]);
    var t := Weave(c[at..], cuts[0], cuts[1..], pieces[1..], copy);
    assert cuts'[0] == cuts[0] && pieces'[0] == pieces[0];
    WeaveUnfold(c, base, cuts', pieces', copy);
    WeaveUnfold(c, base, cuts, pieces, copy);
    var t' := Weave(c[at..], cuts[0], cuts'[1..], pieces'[1..], copy);
    assert t' == t + p;
    assert Weave(c, base, cuts', pieces', copy) == x + pieces[0] + t';
    assert Weave(c, base, cuts, pieces, copy) == x + pieces[0] + t;
    ConcatAssoc(x + pieces[0], t, p);
  }

  /** One step of Weave: the bytes before the first cut, the first piece,
      then the rest. */
  lemma WeaveUnfold(c: Bytes, base: nat, cuts: seq<nat>, pieces: seq<Bytes>, copy: Bytes -> Bytes)
    requires cuts != [] && pieces != [] && base <= cuts[0] <= base + |c|
    ensures Weave(c, base, cuts, pieces, copy)
         == copy(c[..cuts[0] - base]) + pieces[0] + Weave(c[cuts[0] - base..], cuts[0], cuts[1..], pieces[1..], copy)
  {
  }

  lemma ConcatAssoc(a: Bytes, b: Bytes, c: Bytes)
    ensures a + (b + c) == a + b + c
  {
  }

  /** Everything before piece k is the woven text of the content before cut
      k; everything after it is the woven text of the rest. */
  lemma {:induction false} WeaveSplit(c: Bytes, base: nat, cuts: seq<nat>, pieces: seq<Bytes>, copy: Bytes -> Bytes, k: nat)
    requires |cuts| == |pieces| && Fits(cuts, base, |c|) && k < |cuts|
    requires base <= cuts[k] <= base + |c|
    ensures Fits(cuts[..k], base, cuts[k] - base)
    ensures Fits(cuts[k + 1..], cuts[k], |c| - (cuts[k] - base))
    ensures Weave(c, base, cuts, pieces, copy)
         == Weave(c[..cuts[k] - base], base, cuts[..k], pieces[..k], copy)
            + pieces[k]
            + Weave(c[cuts[k] - base..], cuts[k], cuts[k + 1..], pieces[k + 1..], copy)
    decreases k
  {
    var at := cuts[k] - base;
    if k == 0 {
      assert cuts[..0] == [] && pieces[..0] == [];
      assert Fits(cuts[..0], base, 0);
    } else {
      var a0 := cuts[0] - base;
      var c' := c[a0..];
      FitsBounds(cuts[1..], cuts[0], base + |c| - cuts[0], k - 1);
      assert |c'| == base + |c| - cuts[0];
      assert cuts[1..][k - 1] == cuts[k] && pieces[1..][k - 1] == pieces[k];
      assert cuts[1..][k - 1 + 1..] == cuts[1..][k..];
      assert pieces[1..][k - 1 + 1..] == pieces[1..][k..];
      FitsBounds(cuts, base, |c|, 0);
      WeaveSplit(c', cuts[0], cuts[1..], pieces[1..], copy, k - 1);
      WeaveSplitStep(c, base, cuts, pieces, copy, k);
    }
  }

  lemma WeaveSplitStep(c: Bytes, base: nat, cuts: seq<nat>, pieces: seq<Bytes>, copy: Bytes -> Bytes, k: nat)
    requires |cuts| == |pieces| && Fits(cuts, base, |c|) && 0 < k < |cuts|
    requires base <= cuts[0] <= cuts[k] <= base + |c|
    requires Fits(cuts[1..][..k - 1], cuts[0], cuts[k] - cuts[0])
    requires Fits(cuts[1..][k..], cuts[k], |c[cuts[0] - base..]| - (cuts[k] - cuts[0]))
    requires Weave(c[cuts[0] - base..], cuts[0], cuts[1..], pieces[1..], copy)
          == Weave(c[cuts[0] - base..][..cuts[k] - cuts[0]], cuts[0], cuts[1..][..k - 1], pieces[1..][..k - 1], copy)
             + pieces[k]
             + Weave(c[cuts[0] - base..][cuts[k] - cuts[0]..], cuts[k], cuts[1..][k..], pieces[1..][k..], copy)
    ensures Fits(cuts[..k], base, cuts[k] - base)
    ensures Fits(cuts[k + 1..], cuts[k], |c| - (cuts[k] - base))
    ensures Weave(c, base, cuts, pieces, copy)
         == Weave(c[..cuts[k] - base], base, cuts[..k], pieces[..k], copy)
            + pieces[k]
            + Weave(c[cuts[k] - base..], cuts[k], cuts[k + 1..], pieces[k + 1..], copy)
  {
    var at := cuts[k] - base;
    var a0 := cuts[0] - base;
    var c' := c[a0..];
    assert cuts[1..][k..] == cuts[k + 1..];
    assert pieces[1..][k..] == pieces[k + 1..];
    assert c'[at - a0..] == c[at..];
    var x := copy(c[..a0]);
    var left := Weave(c'[..at - a0], cuts[0], cuts[1..][..k - 1], pieces[1..][..k - 1], copy);
    var right := Weave(c[at..], cuts[k], cuts[k + 1..], pieces[k + 1..], copy);
    WeavePrefixUnfold(c, base, cuts, pieces, copy, k);
    assert Weave(c, base, cuts, pieces, copy) == x + pieces[0] + (left + pieces[k] + right);
    ConcatAssoc(x + pieces[0], left + pieces[k], right);
    ConcatAssoc(x + pieces[0], left, pieces[k]);
  }

  /** One unfolding of Weave on the content before cut k. */
  lemma WeavePrefixUnfold(c: Bytes, base: nat, cuts: seq<nat>, pieces: seq<Bytes>, copy: Bytes -> Bytes, k: nat)
    requires |cuts| == |pieces| && 0 < k < |cuts|
    requires base <= cuts[0] <= cuts[k] <= base + |c|
    requires Fits(cuts[1..][..k - 1], cuts[0], cuts[k] - cuts[0])
    ensures Fits(cuts[..k], base, cuts[k] - base)
    ensures Weave(c[..cuts[k] - base], base, cuts[..k], pieces[..k], copy)
         == copy(c[..cuts[0] - base]) + pieces[0]
            + Weave(c[cuts[0] - base..][..cuts[k] - cuts[0]], cuts[0], cuts[1..][..k - 1], pieces[1..][..k - 1], copy)
  {
    var at := cuts[k] - base;
    var a0 := cuts[0] - base;
    assert cuts[1..][..k - 1] == cuts[..k][1..];
    assert pieces[1..][..k - 1] == pieces[..k][1..];
    assert c[a0..][..at - a0] == c[..at][a0..];
    assert c[..at][..a0] == c[..a0];
    assert cuts[..k][0] == cuts[0] && pieces[..k][0] == pieces[0];
  }

  /** Number of events the pass acts on for content of length n: the longest
      prefix of events that increases strictly from `from` and stays below n.
      An event that is not larger than its predecessor, or lies at or past
      the end, is never met by the pass, and neither is any later one. */
  function Emitted(events: seq<nat>, from: nat, n: nat): (m: nat)
    ensures m <= |events|
  {
    if events == [] || events[0] < from || events[0] >= n then 0
    else 1 + Emitted(events[1..], events[0] + 1, n)
  }

  /** Characterisation of Emitted by its stopping point. */
  lemma {:induction false} EmittedIs(events: seq<nat>, from: nat, n: nat, m: nat)
    requires m <= |events|
    requires m > 0 ==> from <= events[0]
    requires forall j :: 0 <= j < m ==> events[j] < n
    requires forall j :: 0 < j < m ==> events[j - 1] < events[j]
    requires m == |events| || events[m] >= n || events[m] < (if m == 0 then from else events[m - 1] + 1)
    ensures Emitted(events, from, n) == m
    decreases m
  {
    if m > 0 {
      EmittedIs(events[1..], events[0] + 1, n, m - 1);
    }
  }

  /** The emitted prefix starts at or after `from`, increases strictly and
      stays below n. */
  lemma {:induction false} EmittedShape(events: seq<nat>, from: nat, n: nat)
    ensures Emitted(events, from, n) > 0 ==> from <= events[0]
    ensures forall j :: 0 <= j < Emitted(events, from, n) ==> events[j] < n
    ensures forall j :: 0 < j < Emitted(events, from, n) ==> events[j - 1] < events[j]
  {
    if !(events == [] || events[0] < from || events[0] >= n) {
      EmittedShape(events[1..], events[0] + 1, n);
      var m := Emitted(events, from, n);
      forall j | 0 < j < m ensures events[j] < n && events[j - 1] < events[j] {
        assert events[j] == events[1..][j - 1];
        if j > 1 {
          assert events[j - 1] == events[1..][j - 2];
        }
      }
    }
  }

  predicate StrictlyIncreasing(events: seq<nat>)
  {
    forall i, j :: 0 <= i < j < |events| ==> events[i] < events[j]
  }

  /** Length of the leading run of events below n. */
  function LeadingBelow(events: seq<nat>, n: nat): (m: nat)
    ensures m <= |events|
    ensures forall j :: 0 <= j < m ==> events[j] < n
    ensures m < |events| ==> events[m] >= n
  {
    if events == [] || events[0] >= n then 0 else 1 + LeadingBelow(events[1..], n)
  }

  /** With strictly increasing events (what the parser delivers), the pass
      emits exactly the events that lie below the content length. */
  lemma EmittedWhenIncreasing(events: seq<nat>, n: nat)
    requires StrictlyIncreasing(events)
    ensures forall k :: 0 <= k < |events| ==> (k < Emitted(events, 0, n) <==> events[k] < n)
  {
    var m := LeadingBelow(events, n);
    EmittedIs(events, 0, n, m);
  }

  /** What one call produces: the instrumented bytes and the next free counter. */
  function Instrumented(content: Bytes, events: seq<nat>, suffix: Bytes, start: nat, mode: CopyMode): (Bytes, nat)
  {
    var m := Emitted(events, 0, |content|);
    EmittedFits(events, |content|);
    (Weave(content, 0, events[..m], Stmts(suffix, start, m), CopyFn(mode)), start + m)
  }

  lemma EmittedFits(events: seq<nat>, n: nat)
    ensures Fits(events[..Emitted(events, 0, n)], 0, n)
  {
    var m := Emitted(events, 0, n);
    EmittedShape(events, 0, n);
    FitsFromIncreasing(events[..m], 0, n);
  }

  lemma {:induction false} FitsFromIncreasing(cuts: seq<nat>, base: nat, len: nat)
    requires cuts != [] ==> base <= cuts[0]
    requires forall j :: 0 <= j < |cuts| ==> cuts[j] <= base + len
    requires forall j :: 0 < j < |cuts| ==> cuts[j - 1] < cuts[j]
    ensures Fits(cuts, base, len)
    decreases |cuts|
  {
    if cuts != [] {
      var t := cuts[1..];
      forall j | 0 < j < |t| ensures t[j - 1] < t[j] {
        assert t[j - 1] == cuts[j] && t[j] == cuts[j + 1];
      }
      FitsFromIncreasing(t, cuts[0], base + len - cuts[0]);
    }
  }

  /** What the pass knows after reading i bytes and emitting cur events:
      the emitted events lie before byte i in strictly increasing order, and
      the next event is not yet due (or can never be met). */
  predicate Scanned(events: seq<nat>, i: nat, cur: nat)
  {
    && cur <= |events|
    && (forall j :: 0 <= j < cur ==> events[j] < i)
    && (forall j :: 0 < j < cur ==> events[j - 1] < events[j])
    && (cur == |events| || events[cur] >= i || (cur > 0 && events[cur] <= events[cur - 1]))
    && Fits(events[..cur], 0, i)
  }

  /** The single pass of `addCounters`, passing each original byte through
      `copy`. */
  method InsertCounters(content: Bytes, events: seq<nat>, suffix: Bytes, start: nat, copy: Bytes -> Bytes)
    returns (out: Bytes, next: nat)
    requires Homomorphic(copy)
    ensures var m := Emitted(events, 0, |content|);
      && next == start + m
      && out == Weave(content, 0, events[..m], Stmts(suffix, start, m), copy)
  {
    out := [];
    var cur := 0;
    var i := 0;
    while i < |content|
      invariant i <= |content| && Scanned(events, i, cur)
      invariant out == Weave(content[..i], 0, events[..cur], Stmts(suffix, start, cur), copy)
    {
      var hit := cur < |events| && i == events[cur];
      var cur' := if hit then cur + 1 else cur;
      var out' := out + (if hit then Stmt(suffix, start + cur) else []) + copy([content[i]]);
      assert Scanned(events, i + 1, cur') && out' == Weave(content[..i + 1], 0, events[..cur'], Stmts(suffix, start, cur'), copy) by {
        Advance(content, events, suffix, start, copy, i, cur, cur');
      }
      out := out';
      cur, i := cur', i + 1;
    }
    assert content[..|content|] == content;
    assert Emitted(events, 0, |content|) == cur by {
      EmittedIs(events, 0, |content|, cur);
    }
    next := start + cur;
  }

  /** One iteration of InsertCounters: the statement for the next event when
      it is due at byte i, then byte i itself. */
  lemma Advance(content: Bytes, events: seq<nat>, suffix: Bytes, start: nat, copy: Bytes -> Bytes, i: nat, cur: nat, cur': nat)
    requires Homomorphic(copy) && i < |content| && Scanned(events, i, cur)
    requires cur' == if cur < |events| && i == events[cur] then cur + 1 else cur
    ensures Scanned(events, i + 1, cur')
    ensures Weave(content[..i + 1], 0, events[..cur'], Stmts(suffix, start, cur'), copy)
         == Weave(content[..i], 0, events[..cur], Stmts(suffix, start, cur), copy)
            + (if cur' > cur then Stmt(suffix, start + cur) else [])
            + copy([content[i]])
  {
    if cur' > cur {
      PieceStep(content, events, suffix, start, copy, i, cur);
    }
    ByteStep(content, events, suffix, start, copy, i, cur');
    ScannedStep(events, i, cur, cur');
  }

  /** The scan's bookkeeping survives one more byte. */
  lemma ScannedStep(events: seq<nat>, i: nat, cur: nat, cur': nat)
    requires Scanned(events, i, cur)
    requires cur' == if cur < |events| && i == events[cur] then cur + 1 else cur
    requires Fits(events[..cur'], 0, i + 1)
    ensures Scanned(events, i + 1, cur')
  {
  }

  /** Writing the statement for event cur right before byte i. */
  lemma PieceStep(content: Bytes, events: seq<nat>, suffix: Bytes, start: nat, copy: Bytes -> Bytes, i: nat, cur: nat)
    requires i <= |content| && cur < |events| && events[cur] == i && copy([]) == []
    requires Fits(events[..cur], 0, i)
    requires cur > 0 ==> events[cur - 1] < i
    ensures Fits(events[..cur + 1], 0, i)
    ensures Weave(content[..i], 0, events[..cur + 1], Stmts(suffix, start, cur + 1), copy)
         == Weave(content[..i], 0, events[..cur], Stmts(suffix, start, cur), copy) + Stmt(suffix, start + cur)
  {
    assert events[..cur + 1] == events[..cur] + [i];
    assert Stmts(suffix, start, cur + 1) == Stmts(suffix, start, cur) + [Stmt(suffix, start + cur)];
    if cur > 0 {
      assert events[..cur][cur - 1] == events[cur - 1];
    }
    FitsExtend(events[..cur], 0, i, i);
    WeaveAppendPiece(content[..i], 0, events[..cur], Stmts(suffix, start, cur), Stmt(suffix, start + cur), copy);
  }

  /** Copying byte i. */
  lemma ByteStep(content: Bytes, events: seq<nat>, suffix: Bytes, start: nat, copy: Bytes -> Bytes, i: nat, cur: nat)
    requires i < |content| && cur <= |events| && Homomorphic(copy)
    requires Fits(events[..cur], 0, i)
    ensures Fits(events[..cur], 0, i + 1)
    ensures Weave(content[..i + 1], 0, events[..cur], Stmts(suffix, start, cur), copy)
         == Weave(content[..i], 0, events[..cur], Stmts(suffix, start, cur), copy) + copy([content[i]])
  {
    assert content[..i + 1] == content[..i] + [content[i]];
    WeaveAppendByte(content[..i], content[i], 0, events[..cur], Stmts(suffix, start, cur), copy);
    FitsGrow(events[..cur], 0, i);
  }

  /** `addCounters` as written: every byte goes through `string(content[i])`. */
  method AddCountersAsWritten(content: Bytes, events: seq<nat>, suffix: Bytes, start: nat)
    returns (out: Bytes, next: nat)
    ensures (out, next) == Instrumented(content, events, suffix, start, RuneConversion)
    ensures events == [] ==> out == RuneExpand(content) && next == start
  {
    CopyHomomorphic(RuneConversion);
    out, next := InsertCounters(content, events, suffix, start, CopyFn(RuneConversion));
  }

  /** `addCounters` with each original byte written unchanged. */
  method AddCounters(content: Bytes, events: seq<nat>, suffix: Bytes, start: nat)
    returns (out: Bytes, next: nat)
    ensures (out, next) == Instrumented(content, events, suffix, start, Verbatim)
    ensures Unweave(out, 0, events[..next - start], Lengths(Stmts(suffix, start, next - start))) == content
  {
    CopyHomomorphic(Verbatim);
    out, next := InsertCounters(content, events, suffix, start, CopyFn(Verbatim));
    assert forall s :: CopyFn(Verbatim)(s) == s;
    EmittedFits(events, |content|);
    UnweaveWeave(content, 0, events[..next - start], Stmts(suffix, start, next - start), CopyFn(Verbatim));
  }

  /** `addCounters` including its parse and its event loop, with each
      original byte copied as `mode` says: a parse error is returned before
      anything is written, a function without a body panics, and otherwise
      the events are the function bodies' brace positions. */
  method AddCountersFile(parse: Bytes -> Outcome<seq<Decl>>, content: Bytes, suffix: Bytes, start: nat, mode: CopyMode)
    returns (r: Outcome<(Bytes, nat)>)
    ensures r.Ok? <==> parse(content).Ok? && AllBodied(parse(content).value)
    ensures !parse(content).Ok? ==> r.reason == parse(content).reason && (r.Err? <==> parse(content).Err?)
    ensures parse(content).Ok? && !AllBodied(parse(content).value) ==> r.Panic?
    ensures r.Ok? ==> r.value == Instrumented(content, Events(parse(content).value), suffix, start, mode)
  {
    var parsed := parse(content);
    if !parsed.Ok? {
      return if parsed.Err? then Err(parsed.reason) else Panic(parsed.reason);
    }
    if !AllBodied(parsed.value) {
      return Panic(NilBody);
    }
    var out, next;
    if mode == Verbatim {
      out, next := AddCounters(content, Events(parsed.value), suffix, start);
    } else {
      out, next := AddCountersAsWritten(content, Events(parsed.value), suffix, start);
    }
    r := Ok((out, next));
  }

  /** Removing the statements the corrected pass inserts gives the content
      back. */
  ghost predicate UnitRestores(content: Bytes, events: seq<nat>, suffix: Bytes, start: nat)
  {
    var m := Emitted(events, 0, |content|);
    Unweave(Instrumented(content, events, suffix, start, Verbatim).0, 0, events[..m], Lengths(Stmts(suffix, start, m))) == content
  }

  lemma InstrumentedRestores(content: Bytes, events: seq<nat>, suffix: Bytes, start: nat)
    ensures UnitRestores(content, events, suffix, start)
  {
    var m := Emitted(events, 0, |content|);
    EmittedFits(events, |content|);
    assert forall s :: CopyFn(Verbatim)(s) == s;
    UnweaveWeave(content, 0, events[..m], Stmts(suffix, start, m), CopyFn(Verbatim));
  }

  /** Without insertions, the as-written pass reproduces a unit exactly
      when every byte is ASCII; whichever events the parser reports, none
      is emitted when all lie at or past the end. */
  lemma NoCountersFaithfulIffAscii(content: Bytes, events: seq<nat>, suffix: Bytes, start: nat)
    requires Emitted(events, 0, |content|) == 0
    ensures Instrumented(content, events, suffix, start, RuneConversion).0 == content
        <==> forall i :: 0 <= i < |content| ==> content[i] < 0x80
  {
    assert Instrumented(content, events, suffix, start, RuneConversion).0 == Instrumented(content, [], suffix, start, RuneConversion).0 by {
      assert events[..0] == [];
      assert Emitted([], 0, |content|) == 0;
    }
    RuneConversionFaithfulIffAscii(content, suffix, start);
  }

  /** Lengths of the inserted pieces. */
  function Lengths(pieces: seq<Bytes>): seq<nat>
  {
    seq(|pieces|, k requires 0 <= k < |pieces| => |pieces[k]|)
  }

  /** Deletes from o the lens[k] bytes that sit at each original cut. It
      knows only where the pieces are and how long they are, not what they
      say, so it cannot confuse an inserted statement with original text. */
  function Unweave(o: Bytes, base: nat, cuts: seq<nat>, lens: seq<nat>): Bytes
    decreases |cuts|
  {
    if cuts == [] || lens == [] || cuts[0] < base || cuts[0] - base + lens[0] > |o| then o
    else
      var at := cuts[0] - base;
      o[..at] + Unweave(o[at + lens[0]..], cuts[0], cuts[1..], lens[1..])
  }

  /** Round trip: deleting the inserted statements gives back the original
      bytes, each exactly once and in order. */
  lemma {:induction false} UnweaveWeave(c: Bytes, base: nat, cuts: seq<nat>, pieces: seq<Bytes>, copy: Bytes -> Bytes)
    requires |cuts| == |pieces| && Fits(cuts, base, |c|)
    requires forall s :: copy(s) == s
    ensures Unweave(Weave(c, base, cuts, pieces, copy), base, cuts, Lengths(pieces)) == c
    decreases |cuts|
  {
    if cuts != [] {
      var at := cuts[0] - base;
      assert base <= cuts[0] <= base + |c|;
      assert Fits(cuts[1..], cuts[0], |c[at..]|);
      UnweaveWeaveStep(c, base, cuts, pieces, copy);
      UnweaveWeave(c[at..], cuts[0], cuts[1..], pieces[1..], copy);
      assert c[..at] + c[at..] == c;
    } else {
      assert copy(c) == c;
    }
  }

  /** Deleting the first piece: the bytes before it, then the rest still
      to be unwoven. */
  lemma UnweaveWeaveStep(c: Bytes, base: nat, cuts: seq<nat>, pieces: seq<Bytes>, copy: Bytes -> Bytes)
    requires |cuts| == |pieces| && cuts != [] && Fits(cuts, base, |c|)
    requires forall s :: copy(s) == s
    ensures Unweave(Weave(c, base, cuts, pieces, copy), base, cuts, Lengths(pieces))
         == c[..cuts[0] - base] + Unweave(Weave(c[cuts[0] - base..], cuts[0], cuts[1..], pieces[1..], copy), cuts[0], cuts[1..], Lengths(pieces[1..]))
  {
    var at := cuts[0] - base;
    var rest := Weave(c[at..], cuts[0], cuts[1..], pieces[1..], copy);
    var o := Weave(c, base, cuts, pieces, copy);
    var lens := Lengths(pieces);
    WeaveUnfold(c, base, cuts, pieces, copy);
    assert copy(c[..at]) == c[..at];
    assert o == c[..at] + pieces[0] + rest;
    assert lens[0] == |pieces[0]| && lens[1..] == Lengths(pieces[1..]);
    UnweaveStep(o, base, cuts, lens);
    assert o[..at] == c[..at];
    assert o[at + |pieces[0]|..] == rest;
  }

  lemma UnweaveStep(o: Bytes, base: nat, cuts: seq<nat>, lens: seq<nat>)
    requires cuts != [] && lens != [] && base <= cuts[0] && cuts[0] - base + lens[0] <= |o|
    ensures Unweave(o, base, cuts, lens)
         == o[..cuts[0] - base] + Unweave(o[cuts[0] - base + lens[0]..], cuts[0], cuts[1..], lens[1..])
  {
  }


  /** The source as written corrupts every byte at or above 0x80: the UTF-8
      text "é" (0xC3 0xA9) comes out as four bytes. */
  lemma RuneConversionCorruptsNonAscii(suffix: Bytes, start: nat)
    ensures Instrumented([0xC3, 0xA9], [], suffix, start, RuneConversion).0 == [0xC3, 0x83, 0xC2, 0xA9]
    ensures Instrumented([0xC3, 0xA9], [], suffix, start, RuneConversion).0 != [0xC3, 0xA9]
  {
    var c: Bytes := [0xC3, 0xA9];
    assert RuneExpand(c) == RuneBytes(0xC3) + RuneExpand([0xA9]);
  }

  /** Copying by rune conversion is faithful exactly on ASCII content. */
  lemma RuneConversionFaithfulIffAscii(content: Bytes, suffix: Bytes, start: nat)
    ensures Instrumented(content, [], suffix, start, RuneConversion).0 == content
        <==> forall i :: 0 <= i < |content| ==> content[i] < 0x80
  {
    RuneExpandIdentityIffAscii(content);
  }
}
