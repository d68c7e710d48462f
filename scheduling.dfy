/** Event schedules and the arithmetic of the logger's timetable: when each
    event is next due, the earliest due time over the enabled events and the
    mask of events due then (masks as in EventMasks). */
module Scheduling {
  import opened Machine
  import opened EventMasks

  /** EventCategory: a disabled event starts with its enable bit cleared. */
  datatype EventCategory = Normal | Disabled

  function CategoryCode(c: EventCategory): (ch: char)
    ensures ch == 'n' <==> c == Normal
    ensures ch == 'd' <==> c == Disabled
  {
    match c
    case Normal => 'n'
    case Disabled => 'd'
  }

  /** EventSchedule. */
  datatype EventSchedule = EventSchedule(category: EventCategory, name: seq<char>, interval: i16, offset: i16)

  /** event(name, interval, offset=0, category=Normal). */
  function Event(name: seq<char>, interval: i16, offset: i16 := 0, category: EventCategory := Normal): (e: EventSchedule)
    ensures e.name == name && e.interval == interval && e.offset == offset && e.category == category
  {
    EventSchedule(category, name, interval, offset)
  }

  /** HMS(hours, minutes, seconds) on the target's 16-bit `int`: every
      product and sum wraps, and the result is the number of seconds whenever
      it fits in int16_t. */
  function HMS(hours: i8, minutes: i8, seconds: i8): (r: i16)
    ensures (r - (hours * 3600 + minutes * 60 + seconds)) % 0x1_0000 == 0
    ensures -0x8000 <= hours * 3600 + minutes * 60 + seconds < 0x8000 ==>
              r == hours * 3600 + minutes * 60 + seconds
  {
    var h := I16(I16(hours * 60) * 60);
    var m := I16(minutes * 60);
    var r := I16(I16(h + m) + seconds);
    WrapCongruent(hours, minutes, seconds);
    r
  }

  lemma WrapCongruent(hours: int, minutes: int, seconds: int)
    ensures I16(I16(I16(I16(hours * 60) * 60) + I16(minutes * 60)) + seconds)
            == I16(hours * 3600 + minutes * 60 + seconds)
  {
    var a: int := I16(hours * 60);
    var h: int := I16(a * 60);
    var m: int := I16(minutes * 60);
    var s: int := I16(h + m);
    var r: int := I16(s + seconds);
    var x := hours * 3600 + minutes * 60 + seconds;
    var ka := Wraps(a, hours * 60);
    var kh := Wraps(h, a * 60);
    var km := Wraps(m, minutes * 60);
    var ks := Wraps(s, h + m);
    var kr := Wraps(r, s + seconds);
    assert r - x == (kr + ks + kh + 60 * ka + km) * 0x1_0000;
    WrapsBack(r - x, kr + ks + kh + 60 * ka + km);
    SameWrap(I16(s + seconds), x);
  }

  /** How many times 2^16 separates a value from its wrap. */
  lemma Wraps(w: int, x: int) returns (k: int)
    requires (w - x) % 0x1_0000 == 0
    ensures w - x == k * 0x1_0000
  {
    k := (w - x) / 0x1_0000;
  }

  lemma WrapsBack(d: int, k: int)
    requires d == k * 0x1_0000
    ensures d % 0x1_0000 == 0
  {
  }

  /** Two values congruent modulo 2^16, the first in int16_t range: the
      first is the wrap of the second. */
  lemma SameWrap(r: i16, x: int)
    requires (r - x) % 0x1_0000 == 0
    ensures r == I16(x)
  {
    var w := I16(x);
    assert (w - x) % 0x1_0000 == 0;
    var d := r - w;
    assert d % 0x1_0000 == 0 by {
      var kr := (r - x) / 0x1_0000;
      var kw := (w - x) / 0x1_0000;
      assert d == (kr - kw) * 0x1_0000;
    }
    assert -0x1_0000 < d < 0x1_0000;
  }

  /** next_time_for_event: `((now - offset) / interval + 1) * interval + offset`
      in 32-bit unsigned arithmetic (the int16_t operands convert to
      uint32_t, and the products and sums wrap), stored through an int32_t
      and returned as uint32_t. A zero interval divides by zero, so callers
      must not pass one. */
  function NextTimeForEvent(now: u32, interval: i16, offset: i16): (t: u32)
    requires interval != 0
  {
    var iv := U32(interval);
    var q := U32(now - U32(offset)) / iv;
    var sum := U32((q + 1) * iv + U32(offset));
    var next: i32 := I32(sum);
    U32(next)
  }

  /** For a positive interval and no 32-bit wrap, the next time is after
      `now`, at most one interval later, and on the event's grid of times
      `offset + k * interval`. */
  lemma NextTimeOnGrid(now: u32, interval: i16, offset: i16)
    requires interval > 0 && offset <= now && now - offset <= U32_MAX && now + interval <= U32_MAX
    ensures var t := NextTimeForEvent(now, interval, offset);
            && now < t <= now + interval
            && (t - offset) % interval == 0
  {
    var a := now - offset;
    var q := a / interval;
    DivBounds(a, interval);
    NextTimeExact(now, interval, offset);
    var t := NextTimeForEvent(now, interval, offset);
    var m := (q + 1) * interval;
    assert t - offset == m;
    MultipleMod(q + 1, interval);
  }

  /** Without wrap the C expression computes its mathematical value. */
  lemma NextTimeExact(now: u32, interval: i16, offset: i16)
    requires interval > 0 && offset <= now && now - offset <= U32_MAX && now + interval <= U32_MAX
    ensures NextTimeForEvent(now, interval, offset) == ((now - offset) / interval + 1) * interval + offset
  {
    var a := now - offset;
    assert U32(now - U32(offset)) == a by {
      if offset < 0 {
        U32Of(offset, offset + 0x1_0000_0000);
        U32Of(a - 0x1_0000_0000, a);
      }
    }
    var q := a / interval;
    var m := (q + 1) * interval;
    DivBounds(a, interval);
    assert U32(m + U32(offset)) == m + offset by {
      if offset < 0 {
        U32Of(offset, offset + 0x1_0000_0000);
        U32Of(m + offset + 0x1_0000_0000, m + offset);
      }
    }
    RoundTripI32(m + offset);
  }

  lemma DivBounds(a: nat, b: int)
    requires b > 0
    ensures (a / b) * b <= a < (a / b) * b + b
    ensures (a / b + 1) * b == (a / b) * b + b
  {
  }

  lemma MultipleMod(k: int, b: int)
    requires b > 0
    ensures (k * b) % b == 0
  {
    var d := (k * b) / b;
    var r := (k * b) % b;
    assert k * b == d * b + r;
    assert r == (k - d) * b;
    if k - d >= 1 {
      assert false;
    } else if k - d <= -1 {
      assert false;
    }
  }

  /** A u32 value congruent to `x` modulo 2^32 is the conversion of `x`. */
  lemma U32Of(x: int, y: u32)
    requires (x - y) % 0x1_0000_0000 == 0
    ensures U32(x) == y
  {
    var r := U32(x);
    var kr := (r - x) / 0x1_0000_0000;
    var ky := (x - y) / 0x1_0000_0000;
    assert r - y == (kr + ky) * 0x1_0000_0000;
  }

  /** Storing a uint32_t in an int32_t and reading it back as uint32_t
      gives the same value. */
  lemma RoundTripI32(x: u32)
    ensures U32(I32(x)) == x
  {
    if x >= 0x8000_0000 {
      assert I32(x) == x - 0x1_0000_0000;
    }
  }

  // ---------------------------------------------------------------------
  // The timetable over a schedule

  /** All schedules the logger can run: no event has a zero interval. */
  predicate Runnable(sched: seq<EventSchedule>)
  {
    forall i :: 0 <= i < |sched| ==> sched[i].interval != 0
  }

  /** When event i is next due after `now`. */
  function Candidate(sched: seq<EventSchedule>, now: u32, i: nat): u32
    requires Runnable(sched) && i < |sched|
  {
    NextTimeForEvent(now, sched[i].interval, sched[i].offset)
  }

  /** The earliest next time over the enabled events among the first `k`,
      or 0xFFFFFFFF when there is none. */
  function Earliest(sched: seq<EventSchedule>, now: u32, enabled: Mask, k: nat): u32
    requires Runnable(sched) && k <= |sched|
  {
    if k == 0 then U32_MAX
    else
      var e := Earliest(sched, now, enabled, k - 1);
      if k - 1 in enabled && Candidate(sched, now, k - 1) < e then Candidate(sched, now, k - 1) else e
  }

  /** The mask of the enabled events among the first `k` that are due at `t`. */
  function DueMask(sched: seq<EventSchedule>, now: u32, enabled: Mask, k: nat, t: u32): Mask
    requires Runnable(sched) && k <= |sched|
  {
    if k == 0 then {}
    else
      DueMask(sched, now, enabled, k - 1, t)
      + (if k - 1 in enabled && Candidate(sched, now, k - 1) == t then Bit(k - 1) else {})
  }

  /** Earliest is the minimum: no enabled event is due before it, and unless
      it is 0xFFFFFFFF some enabled event is due exactly then. */
  lemma {:induction false} EarliestIsMinimum(sched: seq<EventSchedule>, now: u32, enabled: Mask, k: nat)
    requires Runnable(sched) && k <= |sched|
    ensures forall i :: 0 <= i < k && i in enabled ==> Earliest(sched, now, enabled, k) <= Candidate(sched, now, i)
    ensures Earliest(sched, now, enabled, k) == U32_MAX ||
            exists i :: 0 <= i < k && i in enabled && Candidate(sched, now, i) == Earliest(sched, now, enabled, k)
  {
    if k > 0 {
      EarliestIsMinimum(sched, now, enabled, k - 1);
    }
  }

  /** Event i is in DueMask exactly when it is among the first `k` (and the
      first sixteen), enabled, and due at `t`. */
  lemma {:induction false} DueMaskBits(sched: seq<EventSchedule>, now: u32, enabled: Mask, k: nat, t: u32, i: nat)
    requires Runnable(sched) && k <= |sched|
    ensures i in DueMask(sched, now, enabled, k, t) <==>
              i < k && i in enabled && Candidate(sched, now, i) == t
  {
    if k > 0 {
      DueMaskBits(sched, now, enabled, k - 1, t, i);
    }
  }

  /** With no enabled event nothing is ever due and the earliest time is
      0xFFFFFFFF. */
  lemma {:induction false} NoneEnabled(sched: seq<EventSchedule>, now: u32, k: nat, t: u32)
    requires Runnable(sched) && k <= |sched|
    ensures Earliest(sched, now, {}, k) == U32_MAX
    ensures DueMask(sched, now, {}, k, t) == {}
  {
    if k > 0 {
      NoneEnabled(sched, now, k - 1, t);
    }
  }

  /** The triggered events are always among the enabled ones. */
  lemma {:induction false} DueMaskWithinEnabled(sched: seq<EventSchedule>, now: u32, enabled: Mask, k: nat, t: u32)
    requires Runnable(sched) && k <= |sched|
    ensures DueMask(sched, now, enabled, k, t) <= enabled
  {
    if k > 0 {
      DueMaskWithinEnabled(sched, now, enabled, k - 1, t);
    }
  }

  /** Unless the earliest time is 0xFFFFFFFF, at least one event is due then. */
  lemma SomethingDue(sched: seq<EventSchedule>, now: u32, enabled: Mask, k: nat)
    requires Runnable(sched) && k <= |sched|
    requires Earliest(sched, now, enabled, k) < U32_MAX
    ensures DueMask(sched, now, enabled, k, Earliest(sched, now, enabled, k)) != {}
  {
    var t := Earliest(sched, now, enabled, k);
    EarliestIsMinimum(sched, now, enabled, k);
    var i :| 0 <= i < k && i in enabled && Candidate(sched, now, i) == t;
    DueMaskBits(sched, now, enabled, k, t, i);
  }

  /** No enabled event is due before the earliest time. */
  lemma {:induction false} NothingDueBefore(sched: seq<EventSchedule>, now: u32, enabled: Mask, k: nat, t: u32)
    requires Runnable(sched) && k <= |sched|
    requires t < Earliest(sched, now, enabled, k)
    ensures DueMask(sched, now, enabled, k, t) == {}
  {
    if k > 0 {
      NothingDueBefore(sched, now, enabled, k - 1, t);
    }
  }

  /** One more event of the timetable: it is skipped when disabled or due
      later, replaces the next time and the mask when due earlier, and joins
      the mask when due at the same time. */
  lemma EarliestStep(sched: seq<EventSchedule>, now: u32, enabled: Mask, i: nat)
    requires Runnable(sched) && i < |sched|
    ensures var e := Earliest(sched, now, enabled, i);
            var c := Candidate(sched, now, i);
            && (i !in enabled || c > e ==>
                  Earliest(sched, now, enabled, i + 1) == e
                  && DueMask(sched, now, enabled, i + 1, e) == DueMask(sched, now, enabled, i, e))
            && (i in enabled && c < e ==>
                  Earliest(sched, now, enabled, i + 1) == c
                  && DueMask(sched, now, enabled, i + 1, c) == Bit(i))
            && (i in enabled && c == e ==>
                  Earliest(sched, now, enabled, i + 1) == e
                  && DueMask(sched, now, enabled, i + 1, e) == DueMask(sched, now, enabled, i, e) + Bit(i))
  {
    var e := Earliest(sched, now, enabled, i);
    var c := Candidate(sched, now, i);
    if i in enabled && c < e {
      NothingDueBefore(sched, now, enabled, i, c);
    }
  }

  /** The logger never schedules into the past: when every enabled event
      has a positive interval and nothing wraps, the next time lies after
      `now` (or is 0xFFFFFFFF, when no event is enabled). */
  lemma EarliestAfterNow(sched: seq<EventSchedule>, now: u32, enabled: Mask, k: nat)
    requires Runnable(sched) && k <= |sched|
    requires forall i :: 0 <= i < k && i in enabled ==>
               var e := sched[i];
               e.interval > 0 && e.offset <= now && now - e.offset <= U32_MAX && now + e.interval <= U32_MAX
    ensures Earliest(sched, now, enabled, k) > now || Earliest(sched, now, enabled, k) == U32_MAX
  {
    EarliestIsMinimum(sched, now, enabled, k);
    var t := Earliest(sched, now, enabled, k);
    if t != U32_MAX {
      var i :| 0 <= i < k && i in enabled && Candidate(sched, now, i) == t;
      CandidateAfterNow(sched, now, i);
    }
  }

  lemma CandidateAfterNow(sched: seq<EventSchedule>, now: u32, i: nat)
    requires Runnable(sched) && i < |sched|
    requires var e := sched[i];
             e.interval > 0 && e.offset <= now && now - e.offset <= U32_MAX && now + e.interval <= U32_MAX
    ensures Candidate(sched, now, i) > now
  {
    NextTimeOnGrid(now, sched[i].interval, sched[i].offset);
  }

  /** The mask of the events a schedule marks Disabled, among the first `k`. */
  function DisabledMask(sched: seq<EventSchedule>, k: nat): Mask
    requires k <= |sched|
  {
    if k == 0 then {}
    else DisabledMask(sched, k - 1) + (if sched[k - 1].category == Disabled then Bit(k - 1) else {})
  }

  /** Event i is in DisabledMask exactly when it is among the first `k` (and
      the first sixteen) and marked Disabled. */
  lemma {:induction false} DisabledMaskBits(sched: seq<EventSchedule>, k: nat, i: nat)
    requires k <= |sched|
    ensures i in DisabledMask(sched, k) <==> i < k && i < 16 && sched[i].category == Disabled
  {
    if k > 0 {
      DisabledMaskBits(sched, k - 1, i);
    }
  }
}
