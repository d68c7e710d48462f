/** Event masks. The logger keeps its enabled and triggered events in
    `uint16_t` words, bit i standing for event i of the schedule; a mask is
    modelled as the set of its set bits, so C's `|`, `&` and `& ~` on masks
    are union, intersection and difference, and no mask holds an event from
    16 up. */
module EventMasks {
  import opened Machine

  /** A 16-bit event mask: the set of its set bits. */
  type Mask = m: set<nat> | forall i :: i in m ==> i < 16

  /** The word 0xFFFF: all sixteen events. */
  const AllEvents: Mask := set i: nat | i < 16

  function Pow2(n: nat): (p: nat)
    ensures p >= 1
  {
    if n == 0 then 1 else 2 * Pow2(n - 1)
  }

  /** `1 << i` on 16 bits: event i alone; from 16 up the bit has left the word. */
  function Bit(i: nat): Mask
  {
    if i < 16 then {i} else {}
  }

  /** `mask <<= 1` on a `uint16_t`: every bit moves up one place and bit 15
      is lost. */
  function ShiftLeft(m: Mask): (r: Mask)
    ensures forall i :: i in r <==> 0 < i < 16 && i - 1 in m
  {
    set i | i in m && i + 1 < 16 :: i + 1
  }

  /** Shifting event i's mask gives event i + 1's. */
  lemma ShiftBit(i: nat)
    ensures ShiftLeft(Bit(i)) == Bit(i + 1)
  {
    if i < 15 {
      assert i + 1 in ShiftLeft(Bit(i));
    }
  }

  /** `(m & (1 << i)) != 0` tests whether event i is in the mask. */
  lemma Meets(m: Mask, i: nat)
    ensures m * Bit(i) != {} <==> i in m
  {
    if i in m {
      assert i in m * Bit(i);
    }
  }

  /** Bit i of a word, `(w >> i) & 1`, one halving at a time. */
  predicate BitOf(w: nat, i: nat)
  {
    if i == 0 then w % 2 == 1 else BitOf(w / 2, i - 1)
  }

  /** The mask a 16-bit word holds, as when a number read from the serial
      line is stored in a mask: event i for each bit i that is set. */
  function Bits(w: u16): Mask
  {
    set i: nat | i < 16 && BitOf(w, i)
  }

  /** The word is recovered from its mask, so a mask and its word carry
      the same information. */
  lemma WordOfMask(w: u16)
    ensures Word(Bits(w)) == w
  {
    WordOfBits(w, 0);
  }

  /** The `uint16_t` that holds a mask: bit i set for each event i in it. */
  function Word(m: Mask): (w: u16)
  {
    SixteenBits();
    WordFrom(m, 0)
  }

  /** The bits of the word from position j up, shifted down to position 0. */
  function WordFrom(m: Mask, j: nat): (w: nat)
    ensures j <= 16 ==> w < Pow2(16 - j)
    ensures j >= 16 ==> w == 0
    decreases 16 - j
  {
    if j >= 16 then 0 else (if j in m then 1 else 0) + 2 * WordFrom(m, j + 1)
  }

  /** Bit i of the word from position j is event j + i of the mask. */
  lemma {:induction false} BitOfWordFrom(m: Mask, j: nat, i: nat)
    ensures BitOf(WordFrom(m, j), i) <==> j + i < 16 && j + i in m
    decreases i
  {
    if j >= 16 {
      NoBitAbove(0, 0, i);
    } else {
      LowAndRest(WordFrom(m, j), if j in m then 1 else 0, WordFrom(m, j + 1), i);
      if i > 0 {
        BitOfWordFrom(m, j + 1, i - 1);
      }
    }
  }

  /** The low bit and the rest of a word. */
  lemma Halves(bit: nat, rest: nat)
    requires bit < 2
    ensures (bit + 2 * rest) % 2 == bit && (bit + 2 * rest) / 2 == rest
  {
  }

  /** Bit 0 of `bit + 2 * rest` is `bit`, and bit i + 1 is bit i of `rest`. */
  lemma LowAndRest(w: nat, bit: nat, rest: nat, i: nat)
    requires bit < 2 && w == bit + 2 * rest
    ensures BitOf(w, i) <==> if i == 0 then bit == 1 else BitOf(rest, i - 1)
  {
    Halves(bit, rest);
  }

  /** `w >> j`, one halving at a time. */
  function Shr(w: nat, j: nat): nat
  {
    if j == 0 then w else Shr(w / 2, j - 1)
  }

  lemma {:induction false} ShrStep(w: nat, j: nat)
    ensures Shr(w, j + 1) == Shr(w, j) / 2
    ensures BitOf(w, j) <==> Shr(w, j) % 2 == 1
  {
    if j > 0 {
      ShrStep(w / 2, j - 1);
    }
  }

  lemma {:induction false} ShrVanishes(w: nat, n: nat)
    requires w < Pow2(n)
    ensures Shr(w, n) == 0
  {
    if n > 0 {
      ShrVanishes(w / 2, n - 1);
    }
  }

  /** The word rebuilt from the bits of `w` from position j up is `w >> j`. */
  lemma {:induction false} WordOfBits(w: u16, j: nat)
    requires j <= 16
    ensures WordFrom(Bits(w), j) == Shr(w, j)
    decreases 16 - j
  {
    if j == 16 {
      SixteenBits();
      ShrVanishes(w, 16);
    } else {
      WordOfBits(w, j + 1);
      ShrStep(w, j);
      var x := Shr(w, j);
      assert (j in Bits(w)) == (x % 2 == 1);
      assert WordFrom(Bits(w), j) == x % 2 + 2 * (x / 2);
    }
  }

  lemma SixteenBits()
    ensures Pow2(16) == 0x1_0000
  {
    assert Pow2(4) == 0x10;
    assert Pow2(8) == 0x100;
    assert Pow2(12) == 0x1000;
  }

  /** Every mask is the mask of its word: Bits and Word are inverse. */
  lemma BitsOfWord(m: Mask)
    ensures Bits(Word(m)) == m
  {
    forall i | i < 16
      ensures BitOf(Word(m), i) <==> i in m
    {
      BitOfWordFrom(m, 0, i);
    }
  }

  /** C's `a | b` on non-negative integers, one bit at a time. */
  function Or(a: nat, b: nat): nat
    decreases a + b
  {
    if a == 0 && b == 0 then 0
    else (if a % 2 == 1 || b % 2 == 1 then 1 else 0) + 2 * Or(a / 2, b / 2)
  }

  /** C's `a & b`. */
  function And(a: nat, b: nat): nat
    decreases a + b
  {
    if a == 0 || b == 0 then 0
    else (if a % 2 == 1 && b % 2 == 1 then 1 else 0) + 2 * And(a / 2, b / 2)
  }

  /** C's `a & ~b`: the bits of `a` that are clear in `b`. */
  function AndNot(a: nat, b: nat): nat
    decreases a
  {
    if a == 0 then 0
    else (if a % 2 == 1 && b % 2 == 0 then 1 else 0) + 2 * AndNot(a / 2, b / 2)
  }

  lemma {:induction false} OrBit(a: nat, b: nat, i: nat)
    ensures BitOf(Or(a, b), i) <==> BitOf(a, i) || BitOf(b, i)
    decreases i
  {
    if a == 0 && b == 0 {
      NoBitAbove(0, 0, i);
    } else {
      var lo := if a % 2 == 1 || b % 2 == 1 then 1 else 0;
      LowAndRest(Or(a, b), lo, Or(a / 2, b / 2), i);
      LowAndRest(a, a % 2, a / 2, i);
      LowAndRest(b, b % 2, b / 2, i);
      if i > 0 {
        OrBit(a / 2, b / 2, i - 1);
      }
    }
  }

  lemma {:induction false} AndBit(a: nat, b: nat, i: nat)
    ensures BitOf(And(a, b), i) <==> BitOf(a, i) && BitOf(b, i)
    decreases i
  {
    if a == 0 || b == 0 {
      NoBitAbove(0, 0, i);
    } else {
      var lo := if a % 2 == 1 && b % 2 == 1 then 1 else 0;
      LowAndRest(And(a, b), lo, And(a / 2, b / 2), i);
      LowAndRest(a, a % 2, a / 2, i);
      LowAndRest(b, b % 2, b / 2, i);
      if i > 0 {
        AndBit(a / 2, b / 2, i - 1);
      }
    }
  }

  lemma {:induction false} AndNotBit(a: nat, b: nat, i: nat)
    ensures BitOf(AndNot(a, b), i) <==> BitOf(a, i) && !BitOf(b, i)
    decreases i
  {
    if a == 0 {
      NoBitAbove(0, 0, i);
    } else {
      var lo := if a % 2 == 1 && b % 2 == 0 then 1 else 0;
      LowAndRest(AndNot(a, b), lo, AndNot(a / 2, b / 2), i);
      LowAndRest(a, a % 2, a / 2, i);
      LowAndRest(b, b % 2, b / 2, i);
      if i > 0 {
        AndNotBit(a / 2, b / 2, i - 1);
      }
    }
  }

  /** None of the three operations leaves the `uint16_t` range. */
  lemma {:induction false} WordOps(a: nat, b: nat, n: nat)
    requires a < Pow2(n) && b < Pow2(n)
    ensures Or(a, b) < Pow2(n) && And(a, b) < Pow2(n) && AndNot(a, b) < Pow2(n)
  {
    if n > 0 && (a > 0 || b > 0) {
      WordOps(a / 2, b / 2, n - 1);
    }
  }

  /** `_event_enabled |= events` (enable_events) is the union of the masks. */
  lemma OrIsUnion(a: u16, b: u16)
    ensures Or(a, b) < 0x1_0000 && Bits(Or(a, b)) == Bits(a) + Bits(b)
  {
    SixteenBits();
    WordOps(a, b, 16);
    forall i | i < 16
      ensures BitOf(Or(a, b), i) <==> BitOf(a, i) || BitOf(b, i)
    {
      OrBit(a, b, i);
    }
  }

  /** `_event_enabled &= ~events` (disable_events, set_schedule) is the
      difference of the masks. */
  lemma AndNotIsDifference(a: u16, b: u16)
    ensures AndNot(a, b) < 0x1_0000 && Bits(AndNot(a, b)) == Bits(a) - Bits(b)
  {
    SixteenBits();
    WordOps(a, b, 16);
    forall i | i < 16
      ensures BitOf(AndNot(a, b), i) <==> BitOf(a, i) && !BitOf(b, i)
    {
      AndNotBit(a, b, i);
    }
  }

  /** `(a & b) != 0` (is_event, compute_next_time) holds exactly when the
      masks share an event. */
  lemma AndIsMeet(a: u16, b: u16)
    ensures And(a, b) < 0x1_0000 && Bits(And(a, b)) == Bits(a) * Bits(b)
    ensures And(a, b) != 0 <==> Bits(a) * Bits(b) != {}
  {
    SixteenBits();
    WordOps(a, b, 16);
    forall i | i < 16
      ensures BitOf(And(a, b), i) <==> BitOf(a, i) && BitOf(b, i)
    {
      AndBit(a, b, i);
    }
    ZeroWord(And(a, b));
  }

  /** Only the word 0 holds no event. */
  lemma ZeroWord(w: u16)
    ensures w == 0 <==> Bits(w) == {}
  {
    NoBits();
    WordOfMask(w);
    EmptyWord(0);
  }

  lemma {:induction false} EmptyWord(j: nat)
    ensures WordFrom({}, j) == 0
    decreases 16 - j
  {
    if j < 16 {
      EmptyWord(j + 1);
    }
  }

  /** `1 << i` for an event of a 16-bit word: the mask of event i alone. */
  lemma {:induction false} PowerIsBit(i: nat)
    requires i < 16
    ensures Pow2(i) < 0x1_0000 && Bits(Pow2(i)) == Bit(i)
  {
    SixteenBits();
    Pow2Monotone(i + 1, 16);
    forall k | k < 16
      ensures BitOf(Pow2(i), k) <==> k == i
    {
      PowerBit(i, k);
    }
  }

  lemma {:induction false} PowerBit(n: nat, i: nat)
    ensures BitOf(Pow2(n), i) <==> i == n
    decreases i
  {
    if i > 0 {
      if n > 0 {
        PowerBit(n - 1, i - 1);
      } else {
        NoBitAbove(0, 0, i - 1);
      }
    }
  }

  lemma {:induction false} Pow2Monotone(m: nat, n: nat)
    requires m <= n
    ensures Pow2(m) <= Pow2(n)
  {
    if m < n {
      Pow2Monotone(m, n - 1);
    }
  }

  /** A word below `2^n` has no bit from n up. */
  lemma {:induction false} NoBitAbove(w: nat, n: nat, i: nat)
    requires w < Pow2(n) && n <= i
    ensures !BitOf(w, i)
  {
    if i > 0 {
      if n > 0 {
        NoBitAbove(w / 2, n - 1, i - 1);
      } else {
        NoBitAbove(w / 2, 0, i - 1);
      }
    }
  }

  /** A word below `2^n` holds only events below n: the bound
      `(1 << num_events) - 1` keeps a mask read from the serial line within
      the schedule. */
  lemma BitsBelow(w: u16, n: nat)
    requires w < Pow2(n)
    ensures forall i :: i in Bits(w) ==> i < n
  {
    forall i | i in Bits(w)
      ensures i < n
    {
      if i >= n {
        NoBitAbove(w, n, i);
      }
    }
  }

  /** `2^n - 1` has every bit below n. */
  lemma {:induction false} AllBitsBelow(n: nat, i: nat)
    requires i < n
    ensures BitOf(Pow2(n) - 1, i)
  {
    if i > 0 {
      AllBitsBelow(n - 1, i - 1);
      assert (Pow2(n) - 1) / 2 == Pow2(n - 1) - 1;
    }
  }

  /** The initial `_event_enabled = 0xFFFF` enables all sixteen events. */
  lemma AllOnes()
    ensures Bits(0xFFFF) == AllEvents
  {
    assert Pow2(4) == 0x10;
    assert Pow2(8) == 0x100;
    assert Pow2(12) == 0x1000;
    assert Pow2(16) == 0x1_0000;
    forall i | i < 16
      ensures BitOf(0xFFFF, i)
    {
      AllBitsBelow(16, i);
    }
  }

  /** The zero word holds no event. */
  lemma NoBits()
    ensures Bits(0) == {}
  {
    forall i | i < 16
      ensures !BitOf(0, i)
    {
      NoBitAbove(0, 0, i);
    }
  }
}
