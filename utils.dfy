/** build_filename: the "LOG_ddd.CSV" names, written into one static
    character array that every call overwrites and returns. */
module Utils {
  import opened Machine

  /** The name build_filename gives `fileNum`. The digit arithmetic is done
      on the target's 16-bit `unsigned int` and stored in a `char`, which
      keeps the low 8 bits. */
  function LogName(fileNum: u16): (s: seq<char>)
  {
    "LOG_" + [CharOf(fileNum / 100 + '0' as int), CharOf((fileNum / 10) % 10 + '0' as int),
              CharOf(fileNum % 10 + '0' as int)] + ".CSV"
  }

  /** The shape every value of the static array has: the initial
      "LOG_000.CSV" with only positions 4 to 6 ever rewritten. */
  ghost predicate NameBuffer(filename: array<char>)
    reads filename
  {
    filename.Length == 11 && filename[..4] == "LOG_" && filename[7..] == ".CSV"
  }

  /** build_filename(file_num): rewrites the three digit positions of the
      static array and returns that same array, so an earlier result reads
      the latest name. */
  method BuildFilename(filename: array<char>, fileNum: u16) returns (r: array<char>)
    requires NameBuffer(filename)
    modifies filename
    ensures r == filename && NameBuffer(filename)
    ensures filename[..] == LogName(fileNum)
  {
    filename[4] := CharOf(fileNum / 100 + '0' as int);
    filename[5] := CharOf((fileNum / 10) % 10 + '0' as int);
    filename[6] := CharOf(fileNum % 10 + '0' as int);
    assert filename[..] == filename[..4] + filename[4..7] + filename[7..];
    return filename;
  }

  /** Two calls hand back the same array, which holds the second name. */
  method BuildTwice(filename: array<char>, first: u16, second: u16) returns (a: array<char>, b: array<char>)
    requires NameBuffer(filename)
    modifies filename
    ensures a == b == filename
    ensures a[..] == LogName(second)
  {
    a := BuildFilename(filename, first);
    b := BuildFilename(filename, second);
  }

  function DigitAt(s: seq<char>, i: nat): int
    requires i < |s|
  {
    s[i] as int - '0' as int
  }

  /** Every name is 11 characters, "LOG_" then three characters then
      ".CSV"; below 1000 the three are decimal digits that read back as the
      file number. */
  lemma LogNameRoundTrip(fileNum: u16)
    ensures var s := LogName(fileNum);
            && |s| == 11 && s[..4] == "LOG_" && s[7..] == ".CSV"
            && (fileNum < 1000 ==>
                  (forall i :: 4 <= i < 7 ==> '0' <= s[i] <= '9')
                  && DigitAt(s, 4) * 100 + DigitAt(s, 5) * 10 + DigitAt(s, 6) == fileNum)
  {
    var s := LogName(fileNum);
    if fileNum < 1000 {
      ThreeDigits(fileNum);
      DigitChar(fileNum / 100);
      DigitChar((fileNum / 10) % 10);
      DigitChar(fileNum % 10);
    }
  }

  /** A decimal digit stored as its character reads back as itself. */
  lemma DigitChar(d: int)
    requires 0 <= d < 10
    ensures '0' <= CharOf(d + '0' as int) <= '9'
    ensures CharOf(d + '0' as int) as int - '0' as int == d
  {
  }

  /** The decimal digits of a number below 1000 put it back together. */
  lemma ThreeDigits(n: nat)
    requires n < 1000
    ensures n / 100 < 10
    ensures (n / 100) * 100 + ((n / 10) % 10) * 10 + n % 10 == n
  {
    var h, r := n / 100, n % 100;
    assert n == 100 * h + r && r < 100;
    assert n / 10 == 10 * h + r / 10;
    assert (n / 10) % 10 == r / 10;
    assert n % 10 == r % 10;
  }

  /** Below 1000 different numbers get different names. */
  lemma LogNameInjective(a: u16, b: u16)
    requires a < 1000 && b < 1000 && LogName(a) == LogName(b)
    ensures a == b
  {
    LogNameRoundTrip(a);
    LogNameRoundTrip(b);
  }

  /** From 1000 on the hundreds position leaves the digits and the names
      repeat: 25600 gets the name of 0. */
  lemma LogNameWraps()
    ensures LogName(1000)[4] == ':'
    ensures LogName(25600) == LogName(0) == "LOG_000.CSV"
  {
  }
}
