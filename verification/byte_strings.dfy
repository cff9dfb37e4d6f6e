/** Go strings and byte slices as sequences of bytes, with the two number
    renderings the tool emits into generated text: decimal (`%v`/`%d` on an
    integer) and lower-case hexadecimal (`%x` on a byte slice). */
module ByteStrings {

  newtype byte = b: int | 0 <= b < 256
  newtype uint32 = x: int | 0 <= x < 0x1_0000_0000

  type Bytes = seq<byte>

  /** A digest prefix of exactly six bytes (`sum[:6]` of a SHA-256 sum). */
  type Digest6 = s: Bytes | |s| == 6 witness [0, 0, 0, 0, 0, 0]

  /** The bytes of an ASCII string constant. Every constant this model writes
      is ASCII, so taking each code point modulo 256 is its UTF-8 encoding. */
  function Lit(s: string): Bytes
  {
    seq(|s|, i requires 0 <= i < |s| => (s[i] as int % 256) as byte)
  }

  lemma LitConcat(s: string, t: string)
    ensures Lit(s + t) == Lit(s) + Lit(t)
  {
  }

  predicate IsDigit(b: byte) { '0' as byte <= b <= '9' as byte }

  predicate AllDigits(s: Bytes) { forall i :: 0 <= i < |s| ==> IsDigit(s[i]) }

  function DigitByte(d: nat): byte
    requires d < 10
  {
    ('0' as int + d) as byte
  }

  /** Shortest decimal rendering of n, as fmt prints an unsigned integer. */
  function Decimal(n: nat): (r: Bytes)
    ensures 1 <= |r|
    ensures |r| > 1 ==> r[0] != '0' as byte
    decreases n
  {
    if n < 10 then [DigitByte(n)] else Decimal(n / 10) + [DigitByte(n % 10)]
  }

  lemma {:induction false} DecimalDigits(n: nat)
    ensures AllDigits(Decimal(n))
    decreases n
  {
    if n >= 10 {
      DecimalDigits(n / 10);
    }
  }

  /** Value of one decimal digit (0 for any other byte). */
  function DigitValue(b: byte): nat
  {
    if IsDigit(b) then b as int - '0' as int else 0
  }

  /** Value of a string of decimal digits (0 for the empty string). */
  function DecimalValue(s: Bytes): nat
  {
    if s == [] then 0
    else DecimalValue(s[..|s| - 1]) * 10 + DigitValue(s[|s| - 1])
  }

  lemma {:induction false} DecimalRoundTrip(n: nat)
    ensures DecimalValue(Decimal(n)) == n
    decreases n
  {
    if n >= 10 {
      var r := Decimal(n);
      assert r[..|r| - 1] == Decimal(n / 10);
      DecimalRoundTrip(n / 10);
    }
  }

  /** Distinct counters get distinct renderings. */
  lemma DecimalInjective(a: nat, b: nat)
    requires Decimal(a) == Decimal(b)
    ensures a == b
  {
    DecimalRoundTrip(a);
    DecimalRoundTrip(b);
  }

  /** Number of leading decimal digits of s. */
  function LeadingDigits(s: Bytes): (n: nat)
    ensures n <= |s|
  {
    if s == [] || !IsDigit(s[0]) then 0 else LeadingDigits(s[1..]) + 1
  }

  /** The leading digits are digits, and the byte after them is not. */
  lemma {:induction false} LeadingDigitsSpec(s: Bytes)
    ensures AllDigits(s[..LeadingDigits(s)])
    ensures LeadingDigits(s) < |s| ==> !IsDigit(s[LeadingDigits(s)])
  {
    if s != [] && IsDigit(s[0]) {
      LeadingDigitsSpec(s[1..]);
      var k := LeadingDigits(s[1..]);
      assert s[..k + 1] == [s[0]] + s[1..][..k];
    }
  }

  lemma {:induction false} LeadingDigitsOfDecimal(n: nat, rest: Bytes)
    requires rest == [] || !IsDigit(rest[0])
    ensures LeadingDigits(Decimal(n) + rest) == |Decimal(n)|
  {
    DecimalDigits(n);
    LeadingDigitsStop(Decimal(n), rest);
  }

  lemma {:induction false} LeadingDigitsStop(d: Bytes, rest: Bytes)
    requires AllDigits(d)
    requires rest == [] || !IsDigit(rest[0])
    ensures LeadingDigits(d + rest) == |d|
    decreases |d|
  {
    if d != [] {
      assert (d + rest)[1..] == d[1..] + rest;
      LeadingDigitsStop(d[1..], rest);
    } else {
      assert d + rest == rest;
    }
  }

  /** `%x` of one byte: two lower-case hexadecimal digits. */
  function HexDigit(d: nat): byte
    requires d < 16
  {
    if d < 10 then ('0' as int + d) as byte else ('a' as int + d - 10) as byte
  }

  predicate IsLowerHex(b: byte)
  {
    ('0' as byte <= b <= '9' as byte) || ('a' as byte <= b <= 'f' as byte)
  }

  function Hex(bs: Bytes): (r: Bytes)
    ensures |r| == 2 * |bs|
    ensures forall i :: 0 <= i < |r| ==> IsLowerHex(r[i])
  {
    if bs == [] then []
    else [HexDigit(bs[0] as int / 16), HexDigit(bs[0] as int % 16)] + Hex(bs[1..])
  }

  function HexValue(b: byte): int
  {
    if b <= '9' as byte then b as int - '0' as int else b as int - 'a' as int + 10
  }

  /** Reads pairs of hexadecimal digits back into bytes. */
  function Unhex(s: Bytes): Bytes
    decreases |s|
  {
    if |s| < 2 then []
    else [((HexValue(s[0]) * 16 + HexValue(s[1])) % 256) as byte] + Unhex(s[2..])
  }

  lemma {:induction false} HexRoundTrip(bs: Bytes)
    ensures Unhex(Hex(bs)) == bs
  {
    if bs != [] {
      var r := Hex(bs);
      assert r[2..] == Hex(bs[1..]);
      HexRoundTrip(bs[1..]);
    }
  }

  /** Go's `string(b)` for an integer b: the UTF-8 encoding of code point b.
      Below 0x80 it is the byte itself; otherwise a two-byte sequence. */
  function RuneBytes(b: byte): (r: Bytes)
    ensures 1 <= |r| <= 2
  {
    if b < 0x80 then [b] else [(0xC0 + b as int / 64) as byte, (0x80 + b as int % 64) as byte]
  }

  /** Every byte of s replaced by RuneBytes of it. */
  function RuneExpand(s: Bytes): Bytes
  {
    if s == [] then [] else RuneBytes(s[0]) + RuneExpand(s[1..])
  }

  /** The conversion never shortens, and lengthens by one byte per byte at or
      above 0x80. */
  lemma {:induction false} RuneExpandLength(s: Bytes)
    ensures |RuneExpand(s)| >= |s|
    ensures s != [] && s[0] >= 0x80 ==> |RuneExpand(s)| > |s|
  {
    if s != [] {
      RuneExpandLength(s[1..]);
    }
  }

  lemma {:induction false} RuneExpandConcat(a: Bytes, b: Bytes)
    ensures RuneExpand(a + b) == RuneExpand(a) + RuneExpand(b)
  {
    if a != [] {
      assert (a + b)[1..] == a[1..] + b;
      RuneExpandConcat(a[1..], b);
    } else {
      assert a + b == b;
    }
  }

  /** The conversion leaves a byte string unchanged exactly when it is ASCII. */
  lemma {:induction false} RuneExpandIdentityIffAscii(s: Bytes)
    ensures RuneExpand(s) == s <==> forall i :: 0 <= i < |s| ==> s[i] < 0x80
  {
    if s != [] {
      RuneExpandIdentityIffAscii(s[1..]);
      if s[0] < 0x80 {
        assert RuneExpand(s) == [s[0]] + RuneExpand(s[1..]);
        if RuneExpand(s) == s {
          assert RuneExpand(s[1..]) == s[1..];
        }
        if forall i :: 0 <= i < |s| ==> s[i] < 0x80 {
          assert forall i :: 0 <= i < |s[1..]| ==> s[1..][i] < 0x80 by {
            forall i | 0 <= i < |s[1..]| ensures s[1..][i] < 0x80 {
              assert s[1..][i] == s[i + 1];
            }
          }
          assert [s[0]] + s[1..] == s;
        }
      } else {
        RuneExpandLength(s);
      }
    }
  }

  /** Number of leading bytes of s that differ from `stop`. */
  function SpanUntil(s: Bytes, stop: byte): (n: nat)
    ensures n <= |s|
  {
    if s == [] || s[0] == stop then 0 else 1 + SpanUntil(s[1..], stop)
  }

  /** The span stops exactly at the first `stop` byte. */
  lemma {:induction false} SpanUntilStops(a: Bytes, stop: byte, rest: Bytes)
    requires forall i :: 0 <= i < |a| ==> a[i] != stop
    requires rest != [] && rest[0] == stop
    ensures SpanUntil(a + rest, stop) == |a|
  {
    if a == [] {
      assert a + rest == rest;
    } else {
      assert (a + rest)[0] == a[0];
      assert (a + rest)[1..] == a[1..] + rest;
      SpanUntilStops(a[1..], stop, rest);
    }
  }

  /** s ends with p. */
  predicate EndsWith(s: Bytes, p: Bytes) { |p| <= |s| && s[|s| - |p|..] == p }

  /** s begins with p. */
  predicate StartsWith(s: Bytes, p: Bytes) { |p| <= |s| && s[..|p|] == p }

  datatype Option<T> = None | Some(value: T)

  /** s without its prefix p, when it has that prefix. */
  function StripPrefix(p: Bytes, s: Bytes): (r: Option<Bytes>)
    ensures r.Some? <==> StartsWith(s, p)
    ensures r.Some? ==> s == p + r.value
  {
    if StartsWith(s, p) then Some(s[|p|..]) else None
  }

  lemma StripPrefixOfConcat(p: Bytes, rest: Bytes)
    ensures StripPrefix(p, p + rest) == Some(rest)
  {
    assert (p + rest)[..|p|] == p;
    assert (p + rest)[|p|..] == rest;
  }
}
