/** What the CommandParser guarantees: the decimal scan reads exactly one
    space-terminated token, never wraps, and reports NonDigit and Overflow
    precisely; numbers printed with "%u\n" or "%d\n" parse back to themselves
    or are refused with Range; errors are sticky. */
module CommandParserLemmas {
  import opened Machine
  import opened CommandParserSpec

  ghost predicate DigitsBetween(s: seq<char>, i: nat, j: nat)
    requires i <= j <= |s|
  {
    forall t :: i <= t < j ==> IsDigit(s[t])
  }

  /** The value of the decimal digits s[i..j]. */
  ghost function DecimalOf(s: seq<char>, i: nat, j: nat): nat
    requires i <= j <= |s| && DigitsBetween(s, i, j)
    decreases j - i
  {
    if j == i then 0 else DecimalOf(s, i, j - 1) * 10 + DigitValue(s[j - 1])
  }

  lemma {:induction false} DecimalOfMono(s: seq<char>, i: nat, j: nat, k: nat)
    requires i <= j <= k <= |s| && DigitsBetween(s, i, k)
    ensures DigitsBetween(s, i, j) && DecimalOf(s, i, j) <= DecimalOf(s, i, k)
    decreases k - j
  {
    if j < k {
      DecimalOfMono(s, i, j, k - 1);
    }
  }

  /** DecimalOf only looks at s[i..j]. */
  lemma {:induction false} DecimalOfPrefix(a: seq<char>, b: seq<char>, i: nat, j: nat)
    requires i <= j <= |a| && DigitsBetween(a, i, j)
    ensures DigitsBetween(a + b, i, j) && DecimalOf(a + b, i, j) == DecimalOf(a, i, j)
    decreases j - i
  {
    if j > i {
      DecimalOfPrefix(a, b, i, j - 1);
    }
  }

  lemma {:induction false} DecimalOfShift(a: seq<char>, b: seq<char>, i: nat, j: nat)
    requires i <= j <= |b| && DigitsBetween(b, i, j)
    ensures DigitsBetween(a + b, |a| + i, |a| + j)
    ensures DecimalOf(a + b, |a| + i, |a| + j) == DecimalOf(b, i, j)
    decreases j - i
  {
    if j > i {
      DecimalOfShift(a, b, i, j - 1);
    }
  }

  // ---------------------------------------------------------------------
  // The scan of get_int

  /** A token of digits s[i..j] followed by a space, whose value fits in 32
      bits, is read whole: its value is returned and the cursor ends just past
      the space. */
  lemma {:induction false} ScanToken(s: seq<char>, i: nat, k: nat, j: nat, limit: nat)
    requires i <= k < j <= limit < |s| && s[limit] == ' '
    requires DigitsBetween(s, i, j) && s[j] == ' ' && DecimalOf(s, i, j) <= U32_MAX
    ensures DigitsBetween(s, i, k) && DecimalOf(s, i, k) <= U32_MAX
    ensures ScanDigits(s, k, DecimalOf(s, i, k), limit) == Scan(NoError, DecimalOf(s, i, j), j + 1)
    decreases j - k
  {
    DecimalOfMono(s, i, k, j);
    DecimalOfMono(s, i, k + 1, j);
    if k + 1 < j {
      ScanToken(s, i, k + 1, j, limit);
    }
  }

  /** Digits whose value exceeds 0xFFFFFFFF give Overflow, at the latest on
      the last of them and before any wrap. */
  lemma {:induction false} ScanOverflow(s: seq<char>, i: nat, k: nat, j: nat, limit: nat)
    requires i <= k < j <= limit < |s| && s[limit] == ' '
    requires DigitsBetween(s, i, j) && DecimalOf(s, i, j) > U32_MAX
    requires DigitsBetween(s, i, k) && DecimalOf(s, i, k) <= U32_MAX
    ensures var r := ScanDigits(s, k, DecimalOf(s, i, k), limit);
              r.fault == Overflow && r.value == 0 && r.next <= j
    decreases j - k
  {
    DecimalOfMono(s, i, k + 1, j);
    if DecimalOf(s, i, k + 1) <= U32_MAX {
      ScanOverflow(s, i, k + 1, j, limit);
    }
  }

  /** A non-digit at k after digits s[i..k] that still fit gives NonDigit with
      the cursor just past it; this includes a token that starts with the
      space itself (k == i). */
  lemma {:induction false} ScanNonDigit(s: seq<char>, i: nat, m: nat, k: nat, limit: nat)
    requires i <= m <= k <= limit < |s| && s[limit] == ' '
    requires DigitsBetween(s, i, k) && !IsDigit(s[k]) && (k == i || s[k] != ' ')
    requires DecimalOf(s, i, k) <= U32_MAX
    ensures DigitsBetween(s, i, m) && DecimalOf(s, i, m) <= U32_MAX
    ensures ScanDigits(s, m, DecimalOf(s, i, m), limit) == Scan(NonDigit, 0, k + 1)
    decreases k - m
  {
    DecimalOfMono(s, i, m, k);
    if m < k {
      DecimalOfMono(s, i, m + 1, k);
      ScanNonDigit(s, i, m + 1, k, limit);
    }
  }

  /** Conversely, a successful scan has read a nonempty run of digits ending
      in a space, and returned their value. */
  lemma {:induction false} ScanSound(s: seq<char>, i: nat, k: nat, limit: nat)
    requires i <= k <= limit < |s| && s[limit] == ' '
    requires DigitsBetween(s, i, k) && DecimalOf(s, i, k) <= U32_MAX
    ensures var r := ScanDigits(s, k, DecimalOf(s, i, k), limit);
              r.fault == NoError ==>
                && k + 2 <= r.next
                && DigitsBetween(s, i, r.next - 1)
                && s[r.next - 1] == ' '
                && r.value == DecimalOf(s, i, r.next - 1)
    decreases limit - k
  {
    if IsDigit(s[k]) && DecimalOf(s, i, k) * 10 + DigitValue(s[k]) <= U32_MAX && s[k + 1] != ' ' {
      ScanSound(s, i, k + 1, limit);
    }
  }

  /** get_int from position i, in terms of the token s[i..j] up to the first
      space: it succeeds exactly when the token is a nonempty run of digits
      whose value fits in 32 bits, and then returns that value. */
  lemma ScanExact(s: seq<char>, i: nat, limit: nat)
    requires i <= limit < |s| && s[limit] == ' '
    ensures var r := ScanDigits(s, i, 0, limit);
            var j := WordEnd(s, i, limit);
            && (r.fault == NoError <==> i < j && DigitsBetween(s, i, j) && DecimalOf(s, i, j) <= U32_MAX)
            && (r.fault == NoError ==> r.value == DecimalOf(s, i, j) && r.next == j + 1)
            && (i < j && DigitsBetween(s, i, j) && DecimalOf(s, i, j) > U32_MAX ==> r.fault == Overflow)
            && (i == j ==> r == Scan(NonDigit, 0, i + 1))
  {
    var r := ScanDigits(s, i, 0, limit);
    var j := WordEnd(s, i, limit);
    assert DecimalOf(s, i, i) == 0;
    ScanSound(s, i, i, limit);
    if r.fault == NoError {
      assert forall t :: i <= t < r.next - 1 ==> s[t] != ' ';
    }
    if i < j && DigitsBetween(s, i, j) {
      if DecimalOf(s, i, j) <= U32_MAX {
        ScanToken(s, i, i, j, limit);
      } else {
        ScanOverflow(s, i, i, j, limit);
      }
    }
  }

  // ---------------------------------------------------------------------
  // Lines as the test harness prints them ("%u\n", "%d\n")

  function DigitChar(d: nat): (c: char)
    requires d <= 9
    ensures IsDigit(c) && DigitValue(c) == d
  {
    ('0' as int + d) as char
  }

  /** The decimal text of v, as printf's "%u" writes it. */
  function DecimalString(v: nat): (s: seq<char>)
    ensures 1 <= |s| && forall t :: 0 <= t < |s| ==> IsDigit(s[t])
    decreases v
  {
    if v < 10 then [DigitChar(v)] else DecimalString(v / 10) + [DigitChar(v % 10)]
  }

  /** The decimal text of v, as printf's "%d" writes it. */
  function SignedString(v: int): (s: seq<char>)
  {
    if v < 0 then "-" + DecimalString(-v) else DecimalString(v)
  }

  lemma {:induction false} DecimalStringValue(v: nat)
    ensures DigitsBetween(DecimalString(v), 0, |DecimalString(v)|)
    ensures DecimalOf(DecimalString(v), 0, |DecimalString(v)|) == v
    decreases v
  {
    var s := DecimalString(v);
    if v >= 10 {
      var a := DecimalString(v / 10);
      DecimalStringValue(v / 10);
      DecimalOfPrefix(a, [DigitChar(v % 10)], 0, |a|);
    }
  }

  lemma {:induction false} DecimalStringLength(v: nat, n: nat)
    requires 1 <= n && v < Pow10(n)
    ensures |DecimalString(v)| <= n
    decreases v
  {
    if v >= 10 {
      assert n >= 2;
      DecimalStringLength(v / 10, n - 1);
    }
  }

  function Pow10(n: nat): nat
  {
    if n == 0 then 1 else 10 * Pow10(n - 1)
  }

  /** A 32-bit value has at most ten decimal digits. */
  lemma U32Digits(v: u32)
    ensures |DecimalString(v)| <= 10
  {
    assert Pow10(10) == 10_000_000_000;
    DecimalStringLength(v, 10);
  }

  /** A line made of an optional '-' and the decimal text of a 32-bit value,
      ended by '\n', is accepted by the constructor, which turns the '\n'
      into the sentinel. */
  lemma NumberLineInit(pre: seq<char>, v: u32)
    requires pre == "" || pre == "-"
    ensures |pre + DecimalString(v) + "\n"| <= 12
    ensures Init(pre + DecimalString(v) + "\n")
            == Parser(pre + DecimalString(v) + " ", |pre| + |DecimalString(v)|, 0, NoError)
  {
    U32Digits(v);
    var ds := DecimalString(v);
    var line := pre + ds + "\n";
    assert line[|pre| + |ds| := ' '] == pre + ds + " ";
    assert line[0] == if pre == "" then ds[0] else '-';
  }

  /** get_int started after the sign reads the whole value and stops past
      the sentinel. */
  lemma NumberLineScan(pre: seq<char>, v: u32)
    requires pre == "" || pre == "-"
    ensures var buf := pre + DecimalString(v) + " ";
            var n := |pre| + |DecimalString(v)|;
            ScanDigits(buf, |pre|, 0, n) == Scan(NoError, v, n + 1)
  {
    var ds := DecimalString(v);
    var n := |ds|;
    var buf := pre + ds + " ";
    DecimalStringValue(v);
    DecimalOfPrefix(ds, " ", 0, n);
    DecimalOfShift(pre, ds + " ", 0, n);
    assert pre + (ds + " ") == buf;
    assert DecimalOf(buf, |pre|, |pre|) == 0;
    ScanToken(buf, |pre|, |pre|, |pre| + n, |pre| + n);
  }

  /** Any 32-bit value printed with "%u\n" (test_u_numbers) parses back to
      itself through the constructor and get_uint32(min, max) when it lies in
      [min, max], and is refused with Range and 0 otherwise. */
  lemma UnsignedLine(v: u32, min: u32, max: u32)
    ensures |DecimalString(v) + "\n"| <= 11
    ensures var r := GetUint32(Init(DecimalString(v) + "\n"), min, max);
            && (min <= v <= max ==> r.0.error == NoError && r.1 == v)
            && (!(min <= v <= max) ==> r.0.error == Range && r.1 == 0)
  {
    var ds := DecimalString(v);
    U32Digits(v);
    NumberLineInit("", v);
    NumberLineScan("", v);
    assert "" + ds + "\n" == ds + "\n";
    assert "" + ds + " " == ds + " ";
    var p := Init(ds + "\n");
    assert p == Parser(ds + " ", |ds|, 0, NoError);
    assert p.buf[0] != ' ';
    assert Prepare(p, true) == (p, false);
    assert CommandParserSpec.GetInt(p) == (p.(cursor := |ds| + 1), v);
  }

  /** Any 32-bit signed value printed with "%d\n" (test_s_numbers), including
      -0x80000000, parses back to itself through the constructor and
      get_int32(min, max) when it lies in [min, max], and is refused with Range
      and 0 otherwise. */
  lemma SignedLine(v: i32, min: i32, max: i32)
    ensures |SignedString(v) + "\n"| <= 12
    ensures var r := GetInt32(Init(SignedString(v) + "\n"), min, max);
            && (min <= v <= max ==> r.0.error == NoError && r.1 == v)
            && (!(min <= v <= max) ==> r.0.error == Range && r.1 == 0)
  {
    var pre := if v < 0 then "-" else "";
    var mag: u32 := if v < 0 then -(v as int) else v;
    NumberLineInit(pre, mag);
    NumberLineScan(pre, mag);
    var line := pre + DecimalString(mag) + "\n";
    assert SignedString(v) + "\n" == line;
    var p := Init(line);
    assert p.buf[0] != ' ' && p.buf[0] != '+';
    assert Prepare(p, true) == (p, false);
    var q0 := p.(cursor := |pre|);
    assert GetInt32(p, min, max) == SignedTail(q0, v < 0, min, max);
    SignedRangeExact(min, max, mag);
  }

  /** A line holding only digits whose value exceeds 0xFFFFFFFF is refused
      with Overflow, never a wrapped value. */
  lemma OverflowLine(ds: seq<char>, min: u32, max: u32)
    requires 1 <= |ds| <= 254 && DigitsBetween(ds, 0, |ds|) && DecimalOf(ds, 0, |ds|) > U32_MAX
    ensures var r := GetUint32(Init(ds + "\n"), min, max);
            r.0.error == Overflow && r.1 == 0
  {
    var n := |ds|;
    var line := ds + "\n";
    var buf := ds + " ";
    assert line[n := ' '] == buf;
    assert line[0] == ds[0];
    assert Init(line) == Parser(buf, n, 0, NoError);
    DecimalOfPrefix(ds, " ", 0, n);
    assert DecimalOf(buf, 0, 0) == 0;
    ScanOverflow(buf, 0, 0, n, n);
  }

  // ---------------------------------------------------------------------
  // The signed range test of get_int32

  /** The source's two rejection tests accept exactly the values in
      [min, max]: for "-<v>" the value is -v (down to -2^31), for "<v>" it is
      v; and when the scan faulted (v == 0 is returned) Range replaces the
      fault exactly when min > 0 or max < 0. */
  lemma SignedRangeExact(min: i32, max: i32, v: u32)
    ensures !NegativeRejected(min, max, v) <==> min <= -(v as int) <= max
    ensures !PositiveRejected(min, max, v) <==> min <= v <= max
    ensures NegativeRejected(min, max, 0) <==> min > 0 || max < 0
    ensures PositiveRejected(min, max, 0) <==> min > 0 || max < 0
  {
  }

  // ---------------------------------------------------------------------
  // Construction, sticky errors, missing fields

  /** The constructor refuses a line not ending in '\n' (BadTerm), refuses
      one holding only spaces before it (Empty), and otherwise leaves the
      ' ' sentinel at the new end with the rest of the line untouched. */
  lemma InitOutcome(line: seq<char>)
    requires |line| <= 255
    ensures var p := Init(line);
            && (p.error == BadTerm <==> |line| == 0 || line[|line| - 1] != '\n')
            && (p.error == Empty <==>
                  |line| > 0 && line[|line| - 1] == '\n' && forall j :: 0 <= j < |line| - 1 ==> line[j] == ' ')
            && (p.error == NoError || p.error == BadTerm || p.error == Empty)
            && (p.error == NoError ==>
                  && p.size == |line| - 1
                  && p.buf[p.size] == ' '
                  && p.buf[..p.size] == line[..p.size]
                  && p.cursor < p.size && p.buf[p.cursor] != ' ')
  {
  }

  /** Once an error is set every extraction returns its default and changes
      nothing; with no error, a cursor at or past the end after the optional
      space skip sets Missing. */
  lemma ErrorsAreSticky(p: Parser, umin: u32, umax: u32, imin: i32, imax: i32)
    requires Sound(p)
    ensures p.error != NoError ==>
              && GetChar(p) == (p, '\0')
              && GetBlob(p) == (p, "")
              && GetString(p) == (p, "")
              && GetUint32(p, umin, umax) == (p, 0)
              && GetInt32(p, imin, imax) == (p, 0)
    ensures p.error == NoError && p.cursor >= p.size ==>
              && GetChar(p).0.error == Missing
              && GetString(p).0.error == Missing
    ensures p.error == NoError && SkipSpaces(p.buf, p.cursor, p.size) >= p.size ==>
              && GetBlob(p).0.error == Missing
              && GetUint32(p, umin, umax).0.error == Missing
              && GetInt32(p, imin, imax).0.error == Missing
  {
  }

  /** The error codes are pairwise distinct bytes, and only NoError is 0. */
  lemma CodesDistinct(a: ErrorCode, b: ErrorCode)
    ensures Code(a) == Code(b) ==> a == b
    ensures a != NoError ==> Code(a) != '\0'
  {
  }

  // ---------------------------------------------------------------------
  // Findings: the source as written

  /** `const uint8_t last_char_pos = size_ - 1;` on 8-bit arithmetic. */
  function TerminatorIndexAsWritten(size: u8): (k: u8)
    ensures size > 0 ==> k == size - 1
  {
    (size - 1) % 0x100
  }

  /** An empty line (size 0) makes the source's constructor read
      buffer_[255], which lies outside a zero-length line. */
  lemma EmptyLineReadsOutside()
    ensures TerminatorIndexAsWritten(0) == 255
  {
  }

  /** `-int32_t(val)` as written: the negation is done on int32_t. */
  function NegateAsWritten(v: u32): (r: int)
    ensures v < 0x8000_0000 ==> r == -(v as int)
  {
    -(I32(v) as int)
  }

  /** `-max` as written: the negation is done on int32_t, and its value
      stays in int32_t for every max but -2^31. */
  function MagnitudeAsWritten(max: i32): (r: int)
    ensures -0x8000_0000 <= r <= 0x7FFF_FFFF <==> max != -0x8000_0000
    ensures max < 0 ==> r > 0
  {
    -(max as int)
  }

  /** At -2^31 both negations of get_int32 leave int32_t: "-2147483648\n"
      with the default range negates int32_t(2^31) == -2^31, and
      max == -0x80000000 negates max itself. */
  lemma NegationsOverflowAtMin()
    ensures NegateAsWritten(0x8000_0000) == 0x8000_0000 > 0x7FFF_FFFF
    ensures MagnitudeAsWritten(-0x8000_0000) == 0x8000_0000 > 0x7FFF_FFFF
  {
  }
}
