/** The CommandParser class: a cursor over one mutable command line. Every
    operation is proved to do exactly what the function of the same name in
    CommandParserSpec says, and to keep `Valid()`: all reads and writes stay
    inside the caller's line. */
module CommandParsing {
  import opened Machine
  import opened CommandParserSpec

  class CommandParser {
    var buffer: array<char>
    var size: u8
    var cursor: u8
    var error: ErrorCode

    ghost function State(): Parser
      reads this, buffer
    {
      Parser(buffer[..], size, cursor, error)
    }

    ghost predicate Valid()
      reads this, buffer
    {
      Sound(State())
    }

    /** CommandParser(buffer, size): `line` is the caller's buffer holding
        exactly `n` received bytes; it is modified in place. */
    constructor (line: array<char>, n: u8)
      requires line.Length == n
      modifies line
      ensures buffer == line && Valid()
      ensures State() == Init(old(line[..]))
    {
      buffer := line;
      size := n;
      cursor := 0;
      error := NoError;
      new;
      SkipSpaces();
      if size == 0 || buffer[size - 1] != '\n' {
        error := BadTerm;
        return;
      }
      buffer[size - 1] := ' ';
      size := size - 1;
      if cursor >= size {
        error := Empty;
        return;
      }
      error := NoError;
    }

    /** error(): the sticky error code. */
    function Error(): (e: ErrorCode)
      reads this
      ensures e == error
      ensures Code(e) == '\0' <==> e == NoError
    {
      error
    }

    /** peek(): the byte under the cursor, not consumed. */
    method Peek() returns (c: char)
      requires cursor < buffer.Length
      ensures c == buffer[cursor]
    {
      c := buffer[cursor];
    }

    /** skip_spaces(): advance to the next non-space or to the end. */
    method SkipSpaces()
      requires size <= buffer.Length
      modifies this`cursor
      ensures cursor == CommandParserSpec.SkipSpaces(buffer[..], old(cursor), size)
    {
      while cursor < size && buffer[cursor] == ' '
        invariant old(cursor) <= cursor
        invariant old(cursor) < size ==> cursor <= size
        invariant CommandParserSpec.SkipSpaces(buffer[..], cursor, size)
               == CommandParserSpec.SkipSpaces(buffer[..], old(cursor), size)
        decreases size - cursor
      {
        cursor := cursor + 1;
      }
    }

    method Prepare(skipSpace: bool) returns (fault: bool)
      requires Valid()
      modifies this`cursor, this`error
      ensures Valid()
      ensures (State(), fault) == CommandParserSpec.Prepare(old(State()), skipSpace)
    {
      if error != NoError {
        return true;
      }
      if skipSpace {
        SkipSpaces();
      }
      if cursor >= size {
        error := Missing;
        return true;
      }
      return false;
    }

    /** get_int(): the source's loop, with its overflow tests on 32-bit
        unsigned arithmetic (the multiply is guarded, the add may wrap and is
        caught by comparing with the value before it). */
    method GetInt() returns (val: u32)
      requires Valid() && error == NoError && cursor <= size && buffer[size] == ' '
      modifies this`cursor, this`error
      ensures Valid()
      ensures (State(), val) == CommandParserSpec.GetInt(old(State()))
    {
      ghost var p := State();
      ghost var s := buffer[..];
      var i := cursor;
      var fault := NoError;
      val := 0;
      while true
        invariant p.cursor <= i <= size && buffer[..] == s
        invariant ScanDigits(s, i, val, size) == ScanDigits(s, p.cursor, 0, size)
        decreases size - i
      {
        var ch := buffer[i];
        if ch < '0' || ch > '9' {
          fault := NonDigit;
          break;
        }
        var overflow, next := AppendDigit(val, ch as int - '0' as int);
        if overflow {
          fault := Overflow;
          break;
        }
        val := next;
        i := i + 1;
        if buffer[i] == ' ' {
          break;
        }
      }
      ghost var sc := ScanDigits(s, p.cursor, 0, size);
      assert sc == Scan(fault, if fault == NoError then val else 0, i + 1);
      cursor, error := i + 1, fault;
      if fault != NoError {
        val := 0;
      }
      assert State() == p.(cursor := sc.next, error := sc.fault);
    }

    /** get_char(). */
    method GetChar() returns (c: char)
      requires Valid()
      modifies this`cursor, this`error
      ensures Valid()
      ensures (State(), c) == CommandParserSpec.GetChar(old(State()))
    {
      var fault := Prepare(false);
      if fault {
        return '\0';
      }
      c := buffer[cursor];
      cursor := cursor + 1;
    }

    /** get_blob(): returns the word's bytes; in the buffer the space that
        ends it now holds '\0'. */
    method GetBlob() returns (word: seq<char>)
      requires Valid()
      modifies this`cursor, this`error, buffer
      ensures Valid()
      ensures (State(), word) == CommandParserSpec.GetBlob(old(State()))
    {
      var fault := Prepare(true);
      if fault {
        return "";
      }
      ghost var q := State();
      var k := cursor;
      while buffer[k] != ' '
        invariant q.cursor <= k <= size
        invariant WordEnd(q.buf, k, size) == WordEnd(q.buf, q.cursor, size)
        decreases size - k
      {
        k := k + 1;
      }
      word := buffer[cursor..k];
      buffer[k] := '\0';
      cursor := k + 1;
    }

    /** get_string(). */
    method GetString() returns (text: seq<char>)
      requires Valid()
      modifies this`cursor, this`error, buffer
      ensures Valid()
      ensures (State(), text) == CommandParserSpec.GetString(old(State()))
    {
      var fault := Prepare(false);
      if fault {
        return "";
      }
      text := buffer[cursor..size];
      buffer[size] := '\0';
      cursor := size;
    }

    /** get_uint32(min=0, max=0xFFFFFFFF). */
    method GetUint32(min: u32 := 0, max: u32 := U32_MAX) returns (r: u32)
      requires Valid()
      modifies this`cursor, this`error
      ensures Valid()
      ensures (State(), r) == CommandParserSpec.GetUint32(old(State()), min, max)
    {
      var fault := Prepare(true);
      if fault {
        return 0;
      }
      var val := GetInt();
      if error != NoError {
        return 0;
      }
      if val < min || val > max {
        error := Range;
        return 0;
      }
      return val;
    }

    /** get_int32(min=-0x80000000, max=0x7FFFFFFF): an optional '-' or '+'
        (consumed with get_char), then the magnitude and its range test. */
    method GetInt32(min: i32 := -0x8000_0000, max: i32 := 0x7FFF_FFFF) returns (r: i32)
      requires Valid()
      modifies this`cursor, this`error
      ensures Valid()
      ensures (State(), r) == CommandParserSpec.GetInt32(old(State()), min, max)
    {
      var fault := Prepare(true);
      if fault {
        return 0;
      }
      var ch := Peek();
      if ch == '-' || ch == '+' {
        var sign := GetChar();
      }
      r := GetMagnitude(ch == '-', min, max);
    }

    /** The rest of get_int32 once the sign is consumed: get_int, then the
        source's two range tests, which run even after a scan fault. */
    method GetMagnitude(negative: bool, min: i32, max: i32) returns (r: i32)
      requires Valid() && error == NoError && cursor <= size && buffer[size] == ' '
      modifies this`cursor, this`error
      ensures Valid()
      ensures (State(), r) == SignedTail(old(State()), negative, min, max)
    {
      var val := GetInt();
      if negative {
        if min > 0 || val > NegativeLimit(min) || (max < 0 && val < Magnitude(max)) {
          error := Range;
          return 0;
        }
        return Negated(val);
      }
      if max < 0 || val > U32(max) || (min > 0 && val < U32(min)) {
        error := Range;
        return 0;
      }
      return val;
    }
  }

  /** One step of get_int's loop on 32-bit unsigned arithmetic, as written:
      `val > 0xFFFFFFFF / 10` is tested before the multiply, and after the
      add, which may wrap, the sum is compared with `val * 10`. The test fires
      exactly when the next decimal value would not fit in 32 bits. */
  method AppendDigit(val: u32, digit: int) returns (overflow: bool, next: u32)
    requires 0 <= digit <= 9
    ensures overflow <==> val * 10 + digit > U32_MAX
    ensures !overflow ==> next == val * 10 + digit
  {
    if val > U32_MAX / 10 {
      return true, 0;
    }
    var scaled: u32 := val * 10;
    next := U32(scaled + digit);
    if next < scaled {
      assert next == scaled + digit - 0x1_0000_0000;
      return true, 0;
    }
    overflow := false;
  }
}
