/** FileTransfer: streams one file of the SD card over Serial as framed,
    escaped lines. Each call of transfer_line sends ' ', then the escaped
    bytes of the file up to the next newline, then an ending that says whether
    the line ended, the file ended, or the line was cut at the length limit.
    The SD card is a map from file names to contents, the open file its
    contents and a read index, and Serial's output is returned by each call. */
module FileTransfers {
  import opened Machine

  /** MAX_LINE_LEN: past this many escaped bytes a line is cut. */
  const MAX_LINE_LEN: nat := 200

  const NEWLINE: byte := 0x0A
  const SPACE: byte := 0x20
  const BACKSLASH: byte := 0x5C

  /** The bytes that are sent as themselves: printable ASCII except '\'. */
  predicate Verbatim(b: byte)
  {
    SPACE <= b <= 0x7E && b != BACKSLASH
  }

  predicate Printable(b: byte)
  {
    SPACE <= b <= 0x7E
  }

  /** The upper-case hexadecimal digit of `Print(d, HEX)`. */
  function HexDigit(d: nat): (c: byte)
    requires d < 16
    ensures Printable(c) && c != BACKSLASH
  {
    if d < 10 then 0x30 + d else 0x41 + (d - 10)
  }

  /** A hex digit decodes to its value. */
  lemma HexRoundTrip(d: nat)
    requires d < 16
    ensures HexValue(HexDigit(d)) == Some(d)
  {
  }

  function HexValue(c: byte): (r: Option<nat>)
    ensures r.Some? ==> r.value < 16
  {
    if 0x30 <= c <= 0x39 then Some(c - 0x30)
    else if 0x41 <= c <= 0x46 then Some(c - 0x41 + 10)
    else None
  }

  /** How the escape of one byte is sent: itself, or '\' and the two hex
      digits of its high and low nibbles (the byte read as unsigned). */
  function Escape(b: byte): (e: seq<byte>)
  {
    if Verbatim(b) then [b] else [BACKSLASH, HexDigit(b / 16), HexDigit(b % 16)]
  }

  lemma EscapeShape(b: byte)
    ensures |Escape(b)| == 1 <==> Verbatim(b)
    ensures |Escape(b)| == 1 || |Escape(b)| == 3
    ensures forall k :: 0 <= k < |Escape(b)| ==> Printable(Escape(b)[k])
  {
  }

  /** Decoding of an escaped payload: None if it is not a sequence of
      verbatim bytes and complete `\HH` escapes. */
  function Unescape(s: seq<byte>): (r: Option<seq<byte>>)
    decreases |s|
  {
    if s == [] then Some([])
    else if s[0] != BACKSLASH then
      if !Verbatim(s[0]) then None
      else match Unescape(s[1..]) {
        case None => None
        case Some(rest) => Some([s[0]] + rest)
      }
    else if |s| < 3 || HexValue(s[1]).None? || HexValue(s[2]).None? then None
    else match Unescape(s[3..]) {
      case None => None
      case Some(rest) => Some([(HexValue(s[1]).value * 16 + HexValue(s[2]).value) as byte] + rest)
    }
  }

  /** How a call's line ends, and what is sent for it. */
  datatype Ending =
    | LineEnd      // a newline was read and more of the file follows: "\n"
    | LastLineEnd  // a newline was read and the file is exhausted: "\n \XN\n"
    | NoNewline    // the file ended before a newline: "\XX\n"
    | Truncated    // more than MAX_LINE_LEN escaped bytes: "\XT\n"

  function Terminator(e: Ending): (t: seq<byte>)
  {
    match e
    case LineEnd => [NEWLINE]
    case LastLineEnd => [NEWLINE, SPACE, BACKSLASH, 'X' as byte, 'N' as byte, NEWLINE]
    case NoNewline => [BACKSLASH, 'X' as byte, 'X' as byte, NEWLINE]
    case Truncated => [BACKSLASH, 'X' as byte, 'T' as byte, NEWLINE]
  }

  /** The endings after which the transfer is finished. */
  predicate Finishes(e: Ending)
  {
    e == LastLineEnd || e == NoNewline
  }

  /** What transfer_line's loop does from read index `i` with `sent` escaped
      bytes already sent: the escaped bytes it sends next, the ending, and
      the read index it stops at. */
  datatype Line = Line(payload: seq<byte>, ending: Ending, next: nat)

  function LineFrom(data: seq<byte>, i: nat, sent: nat): (r: Line)
    requires i <= |data|
    decreases |data| - i
  {
    if i == |data| then Line([], NoNewline, i)
    else if data[i] == NEWLINE then Line([], if i + 1 == |data| then LastLineEnd else LineEnd, i + 1)
    else
      var e := Escape(data[i]);
      if sent + |e| > MAX_LINE_LEN then Line(e, Truncated, i + 1)
      else
        var rest := LineFrom(data, i + 1, sent + |e|);
        rest.(payload := e + rest.payload)
  }

  /** What one call of transfer_line sends from read index `i`. */
  function Framed(l: Line): (out: seq<byte>)
  {
    [SPACE] + l.payload + Terminator(l.ending)
  }

  /** The read index moves forward, and only stays put at the end of the
      file, where the ending finishes the transfer: repeated calls reach the
      end of any file. */
  lemma {:induction false} LineProgress(data: seq<byte>, i: nat, sent: nat)
    requires i <= |data|
    ensures var r := LineFrom(data, i, sent);
            && i <= r.next <= |data|
            && (r.next == i <==> i == |data|)
            && (i == |data| ==> r.ending == NoNewline)
            && (r.ending == NoNewline ==> r.next == |data|)
            && (r.ending == LastLineEnd ==> r.next == |data|)
            && (r.ending == LineEnd || r.ending == LastLineEnd ==> i < r.next && data[r.next - 1] == NEWLINE)
    decreases |data| - i
  {
    if i < |data| && data[i] != NEWLINE && sent + |Escape(data[i])| <= MAX_LINE_LEN {
      LineProgress(data, i + 1, sent + |Escape(data[i])|);
    }
  }

  /** A line carries at most MAX_LINE_LEN + 3 escaped bytes, and it is cut
      exactly when the escaped count went past MAX_LINE_LEN. */
  lemma {:induction false} LineLength(data: seq<byte>, i: nat, sent: nat)
    requires i <= |data| && sent <= MAX_LINE_LEN
    ensures var r := LineFrom(data, i, sent);
            && sent + |r.payload| <= MAX_LINE_LEN + 3
            && (r.ending == Truncated <==> sent + |r.payload| > MAX_LINE_LEN)
    decreases |data| - i
  {
    if i < |data| && data[i] != NEWLINE {
      EscapeShape(data[i]);
      if sent + |Escape(data[i])| <= MAX_LINE_LEN {
        LineLength(data, i + 1, sent + |Escape(data[i])|);
      }
    }
  }

  /** The payload is printable ASCII, so no newline of the file leaks into
      a line; a newline is consumed only as the line's last byte. */
  lemma {:induction false} LinePrintable(data: seq<byte>, i: nat, sent: nat)
    requires i <= |data|
    ensures var r := LineFrom(data, i, sent);
            && r.next <= |data|
            && (forall k :: 0 <= k < |r.payload| ==> Printable(r.payload[k]))
            && (forall k :: i <= k < r.next - 1 ==> data[k] != NEWLINE)
    decreases |data| - i
  {
    LineProgress(data, i, sent);
    if i < |data| && data[i] != NEWLINE {
      var e := Escape(data[i]);
      EscapeShape(data[i]);
      if sent + |e| <= MAX_LINE_LEN {
        LinePrintable(data, i + 1, sent + |e|);
      }
    }
  }

  /** The bytes a call consumes: up to and without the newline that ended
      the line, if one did. */
  function Consumed(data: seq<byte>, i: nat, r: Line): (s: seq<byte>)
    requires i <= r.next <= |data|
  {
    if (r.ending == LineEnd || r.ending == LastLineEnd) && i < r.next then data[i..r.next - 1]
    else data[i..r.next]
  }

  /** One escaped byte of a line that goes on: it heads both the payload
      and the consumed bytes. */
  lemma LineStep(data: seq<byte>, i: nat, sent: nat)
    requires i < |data| && data[i] != NEWLINE && sent + |Escape(data[i])| <= MAX_LINE_LEN
    ensures var r := LineFrom(data, i, sent);
            var rest := LineFrom(data, i + 1, sent + |Escape(data[i])|);
            && i + 1 <= rest.next <= |data|
            && r.payload == Escape(data[i]) + rest.payload
            && r.ending == rest.ending && r.next == rest.next
            && Consumed(data, i, r) == [data[i]] + Consumed(data, i + 1, rest)
  {
    var e := Escape(data[i]);
    var rest := LineFrom(data, i + 1, sent + |e|);
    var r := rest.(payload := e + rest.payload);
    assert LineFrom(data, i, sent) == r;
    LineProgress(data, i + 1, sent + |e|);
    var j := if rest.ending == LineEnd || rest.ending == LastLineEnd then rest.next - 1 else rest.next;
    assert Consumed(data, i + 1, rest) == data[i + 1..j];
    assert Consumed(data, i, r) == data[i..j];
    ConsSlice(data, i, j);
  }

  lemma ConsSlice(data: seq<byte>, i: nat, j: nat)
    requires i < j <= |data|
    ensures data[i..j] == [data[i]] + data[i + 1..j]
  {
  }

  lemma LineGoesOn(data: seq<byte>, i: nat, sent: nat)
    requires i < |data| && data[i] != NEWLINE && sent + |Escape(data[i])| <= MAX_LINE_LEN
    ensures LineFrom(data, i, sent) == Prefixed(Escape(data[i]), LineFrom(data, i + 1, sent + |Escape(data[i])|))
  {
  }

  /** Decoding the payload of the line from `i` gives back exactly the
      bytes the call consumed, without the newline that ended the line. */
  ghost predicate RoundTrips(data: seq<byte>, i: nat, sent: nat)
    requires i <= |data|
  {
    var r := LineFrom(data, i, sent);
    i <= r.next <= |data| && Unescape(r.payload) == Some(Consumed(data, i, r))
  }

  /** Every line round-trips. */
  lemma {:induction false} LineRoundTrip(data: seq<byte>, i: nat, sent: nat)
    requires i <= |data|
    ensures RoundTrips(data, i, sent)
    decreases |data| - i
  {
    if i == |data| || data[i] == NEWLINE {
      RoundTripStop(data, i, sent);
    } else if sent + |Escape(data[i])| <= MAX_LINE_LEN {
      LineRoundTrip(data, i + 1, sent + |Escape(data[i])|);
      RoundTripStep(data, i, sent);
    } else {
      RoundTripCut(data, i, sent);
    }
  }

  /** The round trip of a line that ends at `i`: nothing is sent and
      nothing but the newline is consumed. */
  lemma RoundTripStop(data: seq<byte>, i: nat, sent: nat)
    requires i == |data| || (i < |data| && data[i] == NEWLINE)
    ensures RoundTrips(data, i, sent)
  {
    var r := LineFrom(data, i, sent);
    assert r.payload == [] && r.next == if i == |data| then i else i + 1;
    assert Consumed(data, i, r) == [];
  }

  /** The round trip of a line that goes on, from that of its rest. */
  lemma RoundTripStep(data: seq<byte>, i: nat, sent: nat)
    requires i < |data| && data[i] != NEWLINE && sent + |Escape(data[i])| <= MAX_LINE_LEN
    requires RoundTrips(data, i + 1, sent + |Escape(data[i])|)
    ensures RoundTrips(data, i, sent)
  {
    var rest := LineFrom(data, i + 1, sent + |Escape(data[i])|);
    LineStep(data, i, sent);
    UnescapeOne(data[i], rest.payload);
  }

  /** The round trip of a line cut after the byte at `i`. */
  lemma RoundTripCut(data: seq<byte>, i: nat, sent: nat)
    requires i < |data| && data[i] != NEWLINE && sent + |Escape(data[i])| > MAX_LINE_LEN
    ensures RoundTrips(data, i, sent)
  {
    var e := Escape(data[i]);
    assert LineFrom(data, i, sent) == Line(e, Truncated, i + 1);
    UnescapeOne(data[i], []);
    assert Unescape([]) == Some([]);
    assert e + [] == e;
    assert Unescape(e) == Some([data[i]] + []);
    assert data[i..i + 1] == [data[i]] + [];
  }

  /** Decoding undoes the escape of one byte in front of any payload. */
  lemma UnescapeOne(b: byte, rest: seq<byte>)
    ensures Unescape(Escape(b) + rest) ==
              match Unescape(rest) {
                case None => None
                case Some(t) => Some([b] + t)
              }
  {
    var s := Escape(b) + rest;
    if Verbatim(b) {
      assert s[1..] == rest;
    } else {
      assert s[3..] == rest;
      HexRoundTrip(b / 16);
      HexRoundTrip(b % 16);
      assert HexValue(s[1]).value * 16 + HexValue(s[2]).value == b;
    }
  }

  class FileTransfer {
    /** The open file's contents (empty when it did not open). */
    var data: seq<byte>
    /** The file's read position. */
    var readIndex: nat
    var isOpen: bool
    var finished: bool

    ghost predicate Valid()
      reads this
    {
      readIndex <= |data| && (!isOpen ==> data == [])
    }

    /** FileTransfer(sd_card, filename): a file that does not open means
        the transfer is finished before it starts. */
    constructor (card: map<seq<char>, seq<byte>>, filename: seq<char>)
      ensures Valid() && readIndex == 0
      ensures isOpen == (filename in card) && finished == !isOpen
      ensures data == if filename in card then card[filename] else []
    {
      if filename in card {
        data := card[filename];
        isOpen := true;
        finished := false;
      } else {
        data := [];
        isOpen := false;
        finished := true;
      }
      readIndex := 0;
    }

    /** ~FileTransfer(): closes the file if it is open. This ends the
        object's life: no operation follows it, so `Valid()` is not kept. */
    method Close()
      requires Valid()
      modifies this`isOpen
      ensures !isOpen
    {
      if isOpen {
        isOpen := false;
      }
    }

    /** file_size(). */
    function FileSize(): (n: nat)
      reads this
      requires Valid()
      ensures readIndex <= n
    {
      |data|
    }

    /** finished(). */
    function Finished(): (f: bool)
      reads this
      ensures f == finished
    {
      finished
    }

    /** transfer_line(): sends one framed line and leaves the read index
        after the bytes it consumed; the transfer is finished once the file
        is exhausted by it, and is never unfinished again. */
    method TransferLine() returns (out: seq<byte>)
      requires Valid()
      modifies this`readIndex, this`finished
      ensures Valid()
      ensures var l := LineFrom(data, old(readIndex), 0);
              && out == Framed(l) && readIndex == l.next
              && finished == (old(finished) || Finishes(l.ending))
    {
      var next, ending;
      out, next, ending := SendLine(data, readIndex);
      readIndex := next;
      if Finishes(ending) {
        finished := true;
      }
    }
  }

  /** The loop of transfer_line over the file's bytes from read index
      `start`: what it sends, where it leaves the read index, and how the
      line ended. */
  method SendLine(content: seq<byte>, start: nat) returns (out: seq<byte>, next: nat, ending: Ending)
    requires start <= |content|
    ensures var l := LineFrom(content, start, 0);
            out == Framed(l) && next == l.next && ending == l.ending
    ensures start <= next <= |content|
  {
    LineProgress(content, start, 0);
    ghost var whole := LineFrom(content, start, 0);
    ghost var payload: seq<byte> := [];
    var i := start;
    var sent: nat := 0;
    out := [SPACE];
    while true
      invariant start <= i <= |content| && sent <= MAX_LINE_LEN
      invariant out == [SPACE] + payload
      invariant whole == Prefixed(payload, LineFrom(content, i, sent))
      decreases |content| - i
    {
      if i == |content| {
        assert LineFrom(content, i, sent) == Line([], NoNewline, i);
        AppendEmpty(payload);
        out, next, ending := out + Terminator(NoNewline), i, NoNewline;
        return;
      }
      var ch := content[i];
      if ch == NEWLINE {
        ending := if i + 1 == |content| then LastLineEnd else LineEnd;
        assert LineFrom(content, i, sent) == Line([], ending, i + 1);
        AppendEmpty(payload);
        out, next := out + Terminator(ending), i + 1;
        return;
      }
      var e := Escape(ch);
      AppendAssoc([SPACE], payload, e);
      if sent + |e| > MAX_LINE_LEN {
        assert LineFrom(content, i, sent) == Line(e, Truncated, i + 1);
        out, next, ending := out + e + Terminator(Truncated), i + 1, Truncated;
        return;
      }
      SendStep(content, i, sent, payload, whole);
      out, payload := out + e, payload + e;
      i, sent := i + 1, sent + |e|;
    }
  }

  /** One escaped byte of SendLine's loop moves from the payload still to
      come to the payload sent. */
  lemma SendStep(content: seq<byte>, i: nat, sent: nat, payload: seq<byte>, whole: Line)
    requires i < |content| && content[i] != NEWLINE && sent + |Escape(content[i])| <= MAX_LINE_LEN
    requires whole == Prefixed(payload, LineFrom(content, i, sent))
    ensures whole == Prefixed(payload + Escape(content[i]), LineFrom(content, i + 1, sent + |Escape(content[i])|))
  {
    var e := Escape(content[i]);
    var rest := LineFrom(content, i + 1, sent + |e|);
    LineGoesOn(content, i, sent);
    PrefixedStep(payload, e, rest);
  }

  /** The line whose payload starts with `p` and then goes on as `l`. */
  function Prefixed(p: seq<byte>, l: Line): (r: Line)
    ensures r.ending == l.ending && r.next == l.next && |r.payload| == |p| + |l.payload|
  {
    l.(payload := p + l.payload)
  }

  lemma PrefixedStep(p: seq<byte>, e: seq<byte>, rest: Line)
    ensures Prefixed(p + e, rest) == Prefixed(p, Prefixed(e, rest))
  {
    AppendAssoc(p, e, rest.payload);
  }

  lemma AppendAssoc(a: seq<byte>, b: seq<byte>, c: seq<byte>)
    ensures (a + b) + c == a + (b + c)
  {
  }

  lemma AppendEmpty(a: seq<byte>)
    ensures a + [] == a
  {
  }

  // ---------------------------------------------------------------------
  // Findings: the escape as written on a signed `char`

  /** The value of `const char ch` on the target, where `char` is signed. */
  function SignedChar(b: byte): (c: i8)
    ensures (c - b) % 0x100 == 0
  {
    if b < 0x80 then b else b - 0x100
  }

  /** The two numbers the source hands to `Print(int, HEX)`: `ch / 16` and
      `ch % 16`, in C's truncating arithmetic on the signed value. */
  function EscapeNibblesAsWritten(b: byte): (r: (int, int))
  {
    (CDiv(SignedChar(b), 16), CMod(SignedChar(b), 16))
  }

  /** As written, every byte from 0x80 up gives a negative nibble (0x80
      gives -8 and 0), which is not a hexadecimal digit of the byte. */
  lemma HighByteNibblesNegative(b: byte)
    requires b >= 0x80
    ensures EscapeNibblesAsWritten(b).0 < 0 || EscapeNibblesAsWritten(b).1 < 0
    ensures b == 0x80 ==> EscapeNibblesAsWritten(b) == (-8, 0)
  {
  }

  /** Read as unsigned, the nibbles are the two hex digits of the byte, and
      the escape `Escape` sends them; the round trip is `LineRoundTrip`. */
  lemma UnsignedNibbles(b: byte)
    ensures 0 <= b / 16 < 16 && 0 <= b % 16 < 16 && b == (b / 16) * 16 + b % 16
    ensures !Verbatim(b) ==> Escape(b)[1..] == [HexDigit(b / 16), HexDigit(b % 16)]
    ensures b < 0x80 ==> EscapeNibblesAsWritten(b) == (b / 16, b % 16)
  {
  }
}
