/** The older helpers the logger still uses: choosing the "LOGGERdd.CSV"
    log file and reading a bounded integer from the serial line. The card's
    directory is the set of names that exist on it, and the serial line is
    the sequence of values successive `Serial.parseInt()` calls return. */
module Junk {
  import opened Machine

  const NameTemplate: seq<char> := "LOGGER00.CSV"

  /** The name of log file `i`, for `0 <= i < 100`: the tens digit at
      index 6 and the units digit at index 7 of "LOGGER00.CSV". */
  function LoggerName(i: nat): (s: seq<char>)
    requires i < 100
    ensures |s| == 12 && s[..6] == "LOGGER" && s[8..] == ".CSV"
    ensures '0' <= s[6] <= '9' && '0' <= s[7] <= '9'
    ensures (s[6] as int - '0' as int) * 10 + (s[7] as int - '0' as int) == i
  {
    NameTemplate[6 := CharOf(i / 10 + '0' as int)][7 := CharOf(i % 10 + '0' as int)]
  }

  lemma LoggerNameInjective(i: nat, j: nat)
    requires i < 100 && j < 100 && LoggerName(i) == LoggerName(j)
    ensures i == j
  {
    assert LoggerName(i)[6] == LoggerName(j)[6] && LoggerName(i)[7] == LoggerName(j)[7];
  }

  /** Writes log file `i`'s digits into the name array. */
  method SetDigits(filename: array<char>, i: int)
    requires filename.Length == 12 && 0 <= i < 100
    modifies filename
    ensures filename[..] == old(filename[..])[6 := CharOf(i / 10 + '0' as int)][7 := CharOf(i % 10 + '0' as int)]
  {
    filename[6] := CharOf(i / 10 + '0' as int);
    filename[7] := CharOf(i % 10 + '0' as int);
  }

  /** get_next_file_number(): the first of "LOGGER00.CSV" ... "LOGGER99.CSV"
      that is not on the card. When all hundred exist the source calls
      `die`, which never returns; that outcome is `None`. */
  method GetNextFileNumber(existing: set<seq<char>>) returns (r: Option<nat>)
    ensures r.Some? ==> r.value < 100 && LoggerName(r.value) !in existing
    ensures r.Some? ==> forall j :: 0 <= j < r.value ==> LoggerName(j) in existing
    ensures r.None? <==> forall j :: 0 <= j < 100 ==> LoggerName(j) in existing
  {
    var filename := new char[12](k requires 0 <= k < 12 => NameTemplate[k]);
    assert filename[..] == NameTemplate;
    var i := 0;
    while i < 100
      invariant i <= 100 && filename.Length == 12
      invariant filename[..] == NameTemplate || (i > 0 && filename[..] == LoggerName(i - 1))
      invariant forall j :: 0 <= j < i ==> LoggerName(j) in existing
    {
      SetDigits(filename, i);
      assert filename[..] == LoggerName(i);
      if filename[..] !in existing {
        return Some(i);
      }
      i := i + 1;
    }
    return None;
  }

  /** The name set_log_file(file_num, mode) opens. `file_number` is a
      16-bit `int`, so the digits use C division; for 0 to 99 (all its
      callers pass) it is the name get_next_file_number checks. */
  function LogFileName(fileNum: i16): (s: seq<char>)
    ensures 0 <= fileNum < 100 ==> s == LoggerName(fileNum)
  {
    NameTemplate[6 := CharOf(CDiv(fileNum, 10) + '0' as int)][7 := CharOf(CMod(fileNum, 10) + '0' as int)]
  }

  /** The first value of `inputs`, read as a 16-bit `int`, that lies in
      `[min, max]`; `None` when there is none. */
  function FirstInRange(inputs: seq<i32>, min: int, max: int): Option<i16>
  {
    if inputs == [] then None
    else if min <= I16(inputs[0]) <= max then Some(I16(inputs[0]))
    else FirstInRange(inputs[1..], min, max)
  }

  /** FirstInRange finds a value exactly when some input is in range, and
      then it is the first such input and itself in range. */
  lemma {:induction false} FirstInRangeIsFirst(inputs: seq<i32>, min: int, max: int)
    ensures FirstInRange(inputs, min, max).None? <==>
              forall j :: 0 <= j < |inputs| ==> !(min <= I16(inputs[j]) <= max)
    ensures FirstInRange(inputs, min, max).Some? ==>
              exists j :: 0 <= j < |inputs| && I16(inputs[j]) == FirstInRange(inputs, min, max).value
                && min <= I16(inputs[j]) <= max
                && forall k :: 0 <= k < j ==> !(min <= I16(inputs[k]) <= max)
  {
    if inputs != [] {
      FirstInRangeIsFirst(inputs[1..], min, max);
      if !(min <= I16(inputs[0]) <= max) {
        assert forall j :: 1 <= j < |inputs| ==> inputs[j] == inputs[1..][j - 1];
        if FirstInRange(inputs, min, max).Some? {
          var j :| 0 <= j < |inputs[1..]| && I16(inputs[1..][j]) == FirstInRange(inputs, min, max).value
                    && min <= I16(inputs[1..][j]) <= max
                    && forall k :: 0 <= k < j ==> !(min <= I16(inputs[1..][k]) <= max);
          assert I16(inputs[j + 1]) == FirstInRange(inputs, min, max).value;
        }
      }
    }
  }

  /** get_int(min, max): reads values until one fits, each truncated from
      `long` to the 16-bit `int`. The source waits for ever when no value
      fits; here the input runs out and the result is `None`. `used` is the
      number of values consumed. */
  method GetInt(inputs: seq<i32>, min: int, max: int) returns (r: Option<i16>, used: nat)
    ensures r == FirstInRange(inputs, min, max)
    ensures used <= |inputs|
    ensures r.Some? ==> used > 0 && r.value == I16(inputs[used - 1])
    ensures r.None? ==> used == |inputs|
  {
    used := 0;
    while used < |inputs|
      invariant used <= |inputs|
      invariant FirstInRange(inputs[used..], min, max) == FirstInRange(inputs, min, max)
    {
      var val := I16(inputs[used]);
      assert inputs[used..][1..] == inputs[used + 1..];
      used := used + 1;
      if min <= val <= max {
        return Some(val), used;
      }
    }
    return None, used;
  }
}
