/** What each CommandParser operation does to the parser's state, as pure
    functions over a snapshot of that state. The class in command_parser.dfy
    is proved to follow these functions; the lemmas here and in
    command_parser_lemmas.dfy state what the functions guarantee. */
module CommandParserSpec {
  import opened Machine

  /** The parser's error codes; `Code` gives the byte each one is on the wire. */
  datatype ErrorCode = NoError | BadTerm | Empty | Missing | Overflow | NonDigit | Range | Extra

  function Code(e: ErrorCode): (c: char)
    ensures c == '\0' <==> e == NoError
  {
    match e
    case NoError => '\0'
    case BadTerm => 't'
    case Empty => 'e'
    case Missing => 'm'
    case Overflow => 'o'
    case NonDigit => 'd'
    case Range => 'r'
    case Extra => 'x'
  }

  /** A snapshot of the parser: the line buffer (modified in place), the
      effective size, the read cursor and the sticky error. */
  datatype Parser = Parser(buf: seq<char>, size: nat, cursor: nat, error: ErrorCode)

  /** The invariant every parser state keeps: while no error is set, the byte
      at `size` is reachable and, as long as the cursor is before it, it is the
      space sentinel that stops every scan. Nothing is ever read at or past
      `|buf|`, which is the caller's line. */
  ghost predicate Sound(p: Parser)
  {
    && |p.buf| <= 255
    && p.size <= |p.buf|
    && p.cursor <= |p.buf|
    && (p.error == NoError ==>
          && p.size < |p.buf|
          && p.cursor <= p.size + 1
          && (p.cursor < p.size ==> p.buf[p.size] == ' '))
  }

  predicate IsDigit(c: char) { '0' <= c <= '9' }

  function DigitValue(c: char): (d: nat)
    requires IsDigit(c)
    ensures d <= 9
  {
    c as int - '0' as int
  }

  /** Index of the first non-space at or after `i`, or `i` itself if `i` is
      already at or past `n` (skip_spaces). */
  function SkipSpaces(s: seq<char>, i: nat, n: nat): (k: nat)
    requires n <= |s|
    decreases if i < n then n - i else 0
    ensures i <= k
    ensures i >= n ==> k == i
    ensures i < n ==> k <= n
    ensures k < n ==> s[k] != ' '
    ensures forall j :: i <= j < k ==> s[j] == ' '
  {
    if i < n && s[i] == ' ' then SkipSpaces(s, i + 1, n) else i
  }

  /** Index of the first space at or after `i`; the sentinel at `limit`
      guarantees there is one. */
  function WordEnd(s: seq<char>, i: nat, limit: nat): (k: nat)
    requires i <= limit < |s| && s[limit] == ' '
    decreases limit - i
    ensures i <= k <= limit && s[k] == ' '
    ensures forall j :: i <= j < k ==> s[j] != ' '
  {
    if s[i] == ' ' then i else WordEnd(s, i + 1, limit)
  }

  /** The constructor: skip leading spaces, demand a final '\n', turn it into
      the ' ' sentinel and shorten the line by one. A zero-length line is
      refused with BadTerm (see the findings in README.md). */
  function Init(line: seq<char>): (p: Parser)
    requires |line| <= 255
    ensures Sound(p)
  {
    var start := SkipSpaces(line, 0, |line|);
    if |line| == 0 || line[|line| - 1] != '\n' then
      Parser(line, |line|, start, BadTerm)
    else
      var size := |line| - 1;
      Parser(line[size := ' '], size, start, if start >= size then Empty else NoError)
  }

  /** prepare(skip_space): true means "fault, return the default value". */
  function Prepare(p: Parser, skipSpace: bool): (r: (Parser, bool))
    requires Sound(p)
    ensures Sound(r.0)
    ensures r.0.buf == p.buf && r.0.size == p.size
    ensures !r.1 ==> r.0.error == NoError && r.0.cursor < r.0.size
  {
    if p.error != NoError then (p, true)
    else
      var c := if skipSpace then SkipSpaces(p.buf, p.cursor, p.size) else p.cursor;
      if c >= p.size then (p.(cursor := c, error := Missing), true)
      else (p.(cursor := c), false)
  }

  /** get_char(): the byte under the cursor, without skipping spaces. */
  function GetChar(p: Parser): (r: (Parser, char))
    requires Sound(p)
    ensures Sound(r.0)
  {
    var (q, fault) := Prepare(p, false);
    if fault then (q, '\0')
    else (q.(cursor := q.cursor + 1), q.buf[q.cursor])
  }

  /** get_blob() (declared as get_word): the next space-delimited word; the
      space that ends it is overwritten with '\0' in the buffer. */
  function GetBlob(p: Parser): (r: (Parser, seq<char>))
    requires Sound(p)
    ensures Sound(r.0)
  {
    var (q, fault) := Prepare(p, true);
    if fault then (q, "")
    else
      var k := WordEnd(q.buf, q.cursor, q.size);
      (q.(buf := q.buf[k := '\0'], cursor := k + 1), q.buf[q.cursor..k])
  }

  /** get_string(): everything from the cursor to the end of the line; the
      sentinel is overwritten with '\0' and the cursor moves to the end. */
  function GetString(p: Parser): (r: (Parser, seq<char>))
    requires Sound(p)
    ensures Sound(r.0)
  {
    var (q, fault) := Prepare(p, false);
    if fault then (q, "")
    else (q.(buf := q.buf[q.size := '\0'], cursor := q.size), q.buf[q.cursor..q.size])
  }

  /** The outcome of get_int's scan: the error it sets (or NoError), the value
      it returns and where it leaves the cursor. */
  datatype Scan = Scan(fault: ErrorCode, value: u32, next: nat)

  /** get_int's do-while loop, entered with byte `i` as the current `ch` and
      `acc` as the value so far. Overflow is the mathematical test "the next
      value exceeds 0xFFFFFFFF"; the class proves the source's wrap-free test
      equivalent to it. */
  function ScanDigits(s: seq<char>, i: nat, acc: u32, limit: nat): (r: Scan)
    requires i <= limit < |s| && s[limit] == ' '
    decreases limit - i
    ensures i < r.next <= limit + 1
    ensures r.fault == NoError || r.fault == NonDigit || r.fault == Overflow
    ensures r.fault != NoError ==> r.value == 0
    ensures r.fault == NoError ==> i + 2 <= r.next && s[r.next - 1] == ' '
  {
    var ch := s[i];
    if !IsDigit(ch) then Scan(NonDigit, 0, i + 1)
    else
      var v := acc * 10 + DigitValue(ch);
      if v > U32_MAX then Scan(Overflow, 0, i + 1)
      else if s[i + 1] == ' ' then Scan(NoError, v, i + 2)
      else ScanDigits(s, i + 1, v, limit)
  }

  /** get_int(): scan a decimal from the cursor; on a fault the error is set
      and 0 returned. The sentinel at `size` bounds the scan. */
  function GetInt(p: Parser): (r: (Parser, u32))
    requires Sound(p) && p.error == NoError && p.cursor <= p.size && p.buf[p.size] == ' '
    ensures Sound(r.0)
    ensures r.0.buf == p.buf && r.0.size == p.size
  {
    var sc := ScanDigits(p.buf, p.cursor, 0, p.size);
    (p.(cursor := sc.next, error := sc.fault), sc.value)
  }

  /** get_uint32(min, max). */
  function GetUint32(p: Parser, min: u32, max: u32): (r: (Parser, u32))
    requires Sound(p)
    ensures Sound(r.0)
  {
    var (q, fault) := Prepare(p, true);
    if fault then (q, 0)
    else
      var (q', v) := GetInt(q);
      if q'.error != NoError then (q', 0)
      else if v < min || v > max then (q'.(error := Range), 0)
      else (q', v)
  }

  /** The bound the source compares a negative magnitude with,
      `uint32_t(-(min + 10)) + 10`, evaluated only when min <= 0; every
      intermediate stays inside int32_t and the bound is exactly -min. */
  function NegativeLimit(min: i32): (r: u32)
    requires min <= 0
    ensures r == -(min as int)
  {
    var t: i32 := min + 10;
    var n: i32 := -t;
    U32(U32(n) + 10)
  }

  /** `uint32_t(-max)` for a negative max, computed without leaving int32_t
      (corrected form; the source negates max directly). */
  function Magnitude(max: i32): (r: u32)
    requires max < 0
    ensures r == -(max as int)
  {
    var t: i32 := max + 1;
    var n: i32 := -t;
    n + 1
  }

  /** `-int32_t(val)` for a magnitude up to 2^31, computed without leaving
      int32_t (corrected form; the source negates int32_t(val) directly). */
  function Negated(v: u32): (r: i32)
    requires v <= 0x8000_0000
    ensures r == -(v as int)
  {
    var t: i32 := v - 1;
    var n: i32 := -t;
    n - 1
  }

  /** The source's rejection test for "-<val>". */
  predicate NegativeRejected(min: i32, max: i32, v: u32)
  {
    min > 0 || v > NegativeLimit(min) || (max < 0 && v < Magnitude(max))
  }

  /** The source's rejection test for "<val>" and "+<val>". */
  predicate PositiveRejected(min: i32, max: i32, v: u32)
  {
    max < 0 || v > U32(max) || (min > 0 && v < U32(min))
  }

  /** What get_int32 does once the sign, if any, is consumed: scan the
      magnitude, then test the range. The range test runs even when the scan
      faulted (the magnitude is then 0), so Range can replace NonDigit or
      Overflow. */
  function SignedTail(q: Parser, negative: bool, min: i32, max: i32): (r: (Parser, i32))
    requires Sound(q) && q.error == NoError && q.cursor <= q.size && q.buf[q.size] == ' '
    ensures Sound(r.0)
  {
    var (q1, v) := GetInt(q);
    if negative then
      if NegativeRejected(min, max, v) then (q1.(error := Range), 0) else (q1, Negated(v))
    else
      if PositiveRejected(min, max, v) then (q1.(error := Range), 0) else (q1, v)
  }

  /** get_int32(min, max): an optional '-' or '+', then a decimal. */
  function GetInt32(p: Parser, min: i32, max: i32): (r: (Parser, i32))
    requires Sound(p)
    ensures Sound(r.0)
  {
    var (q, fault) := Prepare(p, true);
    if fault then (q, 0)
    else
      var c := q.buf[q.cursor];
      var q0 := if c == '-' || c == '+' then q.(cursor := q.cursor + 1) else q;
      SignedTail(q0, c == '-', min, max)
  }
}
