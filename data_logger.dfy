/** The DataLogger: the statics of data_logger.cpp as one object. It waits
    for the next scheduled time or for a command from the management
    software, records which events fired, and builds each CSV line in the
    character stream before routing it to the log file or to the serial
    line. The clock and the serial line are inputs: each pass of the waiting
    loop reads one `Tick`. */
module Logging {
  import opened Machine
  import opened EventMasks
  import opened Scheduling
  import opened CharStreams
  import Junk

  /** WAITING, FILE_LOG and TERM_LOG. */
  datatype LoggerState = Waiting | FileLog | TermLog

  /** A command from the management software: its letter, and the values
      the following `Serial.parseInt()` calls return. */
  datatype Command = Command(code: char, args: seq<i32>)

  /** One pass of the waiting loop: what `get_unix_time()` returns, and the
      command on the serial line if one is available. */
  datatype Tick = Tick(clock: u32, command: Option<Command>)

  /** BUF_SIZE, the capacity of the line buffer. */
  const BufSize: u8 := 250

  const Comma: byte := ',' as byte
  const Prompt: byte := '>' as byte

  /** What `println("")` adds: carriage return and line feed. */
  const NewLine: seq<byte> := [13, 10]

  /** `(1 << num_events) - 1` on the 16-bit `int`, the largest mask the 'e'
      and 'E' commands accept. From 16 events on the shift leaves the word
      and the bound is -1, so no value is ever accepted. */
  function MaskLimit(n: u8): (r: i16)
    ensures n <= 15 ==> r == Pow2(n) - 1
    ensures n >= 16 ==> r == -1
  {
    if n <= 14 then
      Pow2Monotone(n, 14);
      assert Pow2(14) == 0x4000 by { Pow2Values(); }
      I16(I16(Pow2(n)) - 1)
    else if n == 15 then
      assert Pow2(15) == 0x8000 by { Pow2Values(); }
      I16(I16(Pow2(n)) - 1)
    else
      I16(0 - 1)
  }

  lemma Pow2Values()
    ensures Pow2(14) == 0x4000 && Pow2(15) == 0x8000
  {
    assert Pow2(4) == 0x10;
    assert Pow2(8) == 0x100;
    assert Pow2(12) == 0x1000;
  }

  /** A mask the 'e' and 'E' commands accept names only events of the
      schedule. */
  lemma AcceptedMaskWithinSchedule(v: i16, n: u8)
    requires 0 <= v <= MaskLimit(n)
    ensures forall i :: i in Bits(v) ==> i < n
  {
    BitsBelow(v, n);
  }

  /** The replies 'e' and 'E' wait for: the first value in
      `[0, (1 << num_events) - 1]`; `None` when no such value comes and
      get_int waits for ever. */
  function MaskArg(args: seq<i32>, n: u8): Option<i16>
  {
    Junk.FirstInRange(args, 0, MaskLimit(n))
  }

  /** The commands that read a number with get_int wait for ever when no
      value comes in range: 'e' and 'E' a mask, 'N' a file number in
      `[0, 99]`. */
  predicate WaitsForever(cmd: Command, n: u8)
  {
    || ((cmd.code == 'e' || cmd.code == 'E') && MaskArg(cmd.args, n).None?)
    || (cmd.code == 'N' && Junk.FirstInRange(cmd.args, 0, 99).None?)
  }

  /** The tick carries a command that waits for ever. */
  predicate Blocks(cmd: Option<Command>, n: u8)
  {
    cmd.Some? && WaitsForever(cmd.value, n)
  }

  /** None of the first n ticks shows the clock t. */
  predicate Unseen(ticks: seq<Tick>, n: nat, t: u32)
    requires n <= |ticks|
  {
    forall k :: 0 <= k < n ==> ticks[k].clock != t
  }

  lemma UnseenStep(ticks: seq<Tick>, n: nat, t: u32)
    requires n < |ticks| && Unseen(ticks, n, t) && ticks[n].clock != t
    ensures Unseen(ticks, n + 1, t)
  {
  }

  /** No tick carries a command. */
  predicate Quiet(ticks: seq<Tick>)
  {
    forall k :: 0 <= k < |ticks| ==> ticks[k].command.None?
  }

  /** The mask a value accepted by MaskArg stands for. */
  function MaskOf(v: Option<i16>): Mask
  {
    if v.Some? && 0 <= v.value then Bits(v.value) else {}
  }

  lemma MaskArgInRange(args: seq<i32>, n: u8)
    ensures var v := MaskArg(args, n);
            v.Some? ==> 0 <= v.value <= MaskLimit(n) && forall i :: i in MaskOf(v) ==> i < n
  {
    var v := MaskArg(args, n);
    Junk.FirstInRangeIsFirst(args, 0, MaskLimit(n));
    if v.Some? {
      AcceptedMaskWithinSchedule(v.value, n);
    }
  }

  /** `n` commas: what skip_entries(n) adds to the line. */
  function Commas(n: nat): (s: seq<byte>)
    ensures |s| == n && forall k :: 0 <= k < n ==> s[k] == Comma
  {
    if n == 0 then [] else Commas(n - 1) + [Comma]
  }

  /** What a write of `s` leaves in a stream of capacity `size` that held
      `w`: as much of `w + s` as fits. */
  function Fit(w: seq<byte>, s: seq<byte>, size: nat): seq<byte>
  {
    var full := w + s;
    if |full| <= size then full else full[..size]
  }

  class DataLogger {
    var schedule: seq<EventSchedule>
    var numEvents: u8
    var nextTime: u32
    var now: u32
    var triggered: Mask
    var enabled: Mask
    var state: LoggerState
    var showPrompt: bool
    /** The line buffer `char_stream` over `char_buf`. */
    const stream: CharStream
    /** The open log file's contents; `None` when the file is not open. */
    var logFile: Option<seq<byte>>
    /** What has gone out on the serial line (prompts and terminal lines). */
    var serialOut: seq<byte>
    /** The value of `now` when compute_next_time last ran. */
    ghost var scheduledAt: u32

    ghost predicate Valid()
      reads this, stream
    {
      stream.Valid() && stream.size == BufSize as nat
      && |schedule| == numEvents as nat && Runnable(schedule)
    }

    /** The logger at start-up: no schedule yet, every event enabled
        (`_event_enabled = 0xFFFF`), nothing triggered, WAITING. The log
        file is the one `setup` opened, passed in. */
    constructor (log: Option<seq<byte>>)
      ensures Valid() && fresh(stream) && fresh(stream.buffer) && stream.Written() == []
      ensures schedule == [] && numEvents == 0 && enabled == Bits(0xFFFF) && enabled == AllEvents
      ensures triggered == {} && state == Waiting && !showPrompt
      ensures nextTime == 0 && now == 0 && logFile == log && serialOut == []
    {
      var buf := new byte[BufSize];
      stream := new CharStream(buf, BufSize);
      schedule := [];
      numEvents := 0;
      nextTime := 0;
      now := 0;
      triggered := {};
      AllOnes();
      enabled := Bits(0xFFFF);
      state := Waiting;
      showPrompt := false;
      logFile := log;
      serialOut := [];
      scheduledAt := 0;
    }

    /** compute_next_time(): the earliest next time over the enabled events
        and the mask of the events due then (ties fire together). */
    method ComputeNextTime()
      requires Valid()
      modifies this`nextTime, this`triggered, this`scheduledAt
      ensures nextTime == Earliest(schedule, now, enabled, numEvents as nat)
      ensures triggered == DueMask(schedule, now, enabled, numEvents as nat, nextTime)
      ensures scheduledAt == now
    {
      nextTime := U32_MAX;
      triggered := {};
      var mask := Bit(0);
      var i: nat := 0;
      while i < numEvents as nat
        invariant i <= numEvents as nat
        invariant mask == Bit(i)
        invariant nextTime == Earliest(schedule, now, enabled, i)
        invariant triggered == DueMask(schedule, now, enabled, i, nextTime)
      {
        Meets(enabled, i);
        EarliestStep(schedule, now, enabled, i);
        if enabled * mask != {} {
          var candidate := NextTimeForEvent(now, schedule[i].interval, schedule[i].offset);
          assert candidate == Candidate(schedule, now, i);
          if candidate < nextTime {
            nextTime := candidate;
            triggered := mask;
          } else if candidate == nextTime {
            triggered := triggered + mask;
          }
        }
        ShiftBit(i);
        i, mask := i + 1, ShiftLeft(mask);
      }
      scheduledAt := now;
    }

    /** set_schedule(schedule, num_events): installs the schedule and clears
        the enabled bit of every event it marks Disabled. */
    method SetSchedule(sched: seq<EventSchedule>)
      requires Valid() && |sched| < 0x100 && Runnable(sched)
      modifies this`schedule, this`numEvents, this`enabled
      ensures Valid() && schedule == sched && numEvents as nat == |sched|
      ensures enabled == old(enabled) - DisabledMask(sched, |sched|)
    {
      schedule := sched;
      numEvents := |sched| as u8;
      var i: nat := 0;
      while i < |sched|
        invariant i <= |sched| && schedule == sched && numEvents as nat == |sched|
        invariant enabled == old(enabled) - DisabledMask(sched, i)
      {
        if sched[i].category == Disabled {
          enabled := enabled - Bit(i);
        }
        i := i + 1;
      }
    }

    /** enable_events(events): `_event_enabled |= events`. */
    method EnableEvents(events: Mask)
      modifies this`enabled
      ensures enabled == old(enabled) + events
    {
      enabled := enabled + events;
    }

    /** disable_events(events): `_event_enabled &= ~events`. */
    method DisableEvents(events: Mask)
      modifies this`enabled
      ensures enabled == old(enabled) - events
    {
      enabled := enabled - events;
    }

    /** is_event(event): some event of the mask is among those that fired. */
    function IsEvent(event: Mask): (r: bool)
      reads this
      ensures r <==> exists i :: i in event && i in triggered
    {
      if event * triggered == {} then
        assert forall i :: i in event && i in triggered ==> i in event * triggered;
        false
      else
        var i :| i in event * triggered;
        true
    }

    /** process_commands(): one command. `blocked` is true when 'e', 'E'
        or 'N' waits for ever for an acceptable value; `clock` is the time 's' sets
        the clock to. Replies on the serial line are not modelled. */
    method ProcessCommand(cmd: Command) returns (blocked: bool, clock: Option<u32>)
      requires Valid()
      modifies this`showPrompt, this`triggered, this`state, this`enabled, this`nextTime, this`scheduledAt
      ensures Valid()
      ensures blocked <==> WaitsForever(cmd, numEvents)
      ensures clock.Some? <==> cmd.code == 's'
      ensures clock.Some? ==> clock.value == U32(if cmd.args == [] then 0 else cmd.args[0])
      ensures showPrompt == !(cmd.code == 'e' && !blocked)
      ensures cmd.code == 'e' && !blocked ==>
                state == TermLog && triggered == MaskOf(MaskArg(cmd.args, numEvents))
                && enabled == old(enabled) && nextTime == old(nextTime)
      ensures cmd.code == 'E' && !blocked ==>
                enabled == MaskOf(MaskArg(cmd.args, numEvents)) && state == old(state)
      ensures (cmd.code == 'E' && !blocked) || cmd.code == 's' ==>
                nextTime == Earliest(schedule, now, enabled, numEvents as nat)
                && triggered == DueMask(schedule, now, enabled, numEvents as nat, nextTime)
                && scheduledAt == now
      ensures blocked || (cmd.code != 'e' && cmd.code != 'E' && cmd.code != 's') ==>
                state == old(state) && triggered == old(triggered) && enabled == old(enabled)
                && nextTime == old(nextTime) && scheduledAt == old(scheduledAt)
      ensures cmd.code == 's' ==> state == old(state) && enabled == old(enabled)
    {
      showPrompt := true;
      blocked, clock := false, None;
      if cmd.code == 'e' || cmd.code == 'E' {
        var r, used := Junk.GetInt(cmd.args, 0, MaskLimit(numEvents));
        if r.None? {
          return true, None;
        }
        MaskArgInRange(cmd.args, numEvents);
        if cmd.code == 'e' {
          triggered := Bits(r.value);
          state := TermLog;
          showPrompt := false;
        } else {
          enabled := Bits(r.value);
          ComputeNextTime();
        }
      } else if cmd.code == 's' {
        clock := Some(U32(if cmd.args == [] then 0 else cmd.args[0]));
        ComputeNextTime();
      } else if cmd.code == 'N' {
        var fileNum, used := Junk.GetInt(cmd.args, 0, 99);
        if fileNum.None? {
          return true, None;
        }
      }
    }

    /** The next time and the triggered events are those of the enabled
        events as compute_next_time left them. */
    ghost predicate Scheduled()
      reads this
      requires Runnable(schedule) && |schedule| == numEvents as nat
    {
      nextTime == Earliest(schedule, scheduledAt, enabled, numEvents as nat)
      && triggered == DueMask(schedule, scheduledAt, enabled, numEvents as nat, nextTime)
    }

    /** The triggered events are those an 'e' command named, all of them
        events of the schedule. */
    ghost predicate TriggeredBy(cmd: Option<Command>)
      reads this
    {
      cmd.Some? && cmd.value.code == 'e'
      && triggered == MaskOf(MaskArg(cmd.value.args, numEvents))
      && forall i :: i in triggered ==> i < numEvents as nat
    }

    /** One pass of wait_for_event's loop in WAITING: read the clock, show
        the prompt if due, then either the next time has come (FILE_LOG) or
        a waiting command is processed. `blocked` is true when that command
        waits for ever. */
    method Poll(tick: Tick) returns (blocked: bool)
      requires Valid() && state == Waiting && Scheduled()
      modifies this`now, this`state, this`showPrompt, this`triggered, this`enabled, this`nextTime,
               this`scheduledAt, this`serialOut
      ensures Valid() && now == tick.clock
      ensures serialOut == old(serialOut) + (if old(showPrompt) then [Prompt] else [])
      ensures blocked ==> state == Waiting && tick.command.Some?
      ensures state == Waiting ==> Scheduled()
      ensures state == FileLog ==> now == nextTime && Scheduled()
      ensures state == TermLog ==> TriggeredBy(tick.command)
      // the next time has come, or no command waits: the schedule stays as it was
      ensures tick.clock == old(nextTime) || tick.command.None? ==>
                !blocked && !showPrompt
                && (state == FileLog <==> tick.clock == old(nextTime))
                && (state == FileLog || state == Waiting)
                && enabled == old(enabled) && triggered == old(triggered)
                && nextTime == old(nextTime) && scheduledAt == old(scheduledAt)
      // otherwise the waiting command is processed
      ensures tick.clock != old(nextTime) && tick.command.Some? ==>
                var cmd := tick.command.value;
                var arg := MaskArg(cmd.args, numEvents);
                && (blocked <==> WaitsForever(cmd, numEvents))
                && showPrompt == !(cmd.code == 'e' && !blocked)
                && (cmd.code == 'e' && !blocked ==>
                      state == TermLog && triggered == MaskOf(arg)
                      && enabled == old(enabled) && nextTime == old(nextTime))
                && (cmd.code == 'E' && !blocked ==> state == Waiting && enabled == MaskOf(arg))
                && (cmd.code == 's' ==> state == Waiting && enabled == old(enabled))
                && ((cmd.code == 'E' && !blocked) || cmd.code == 's' ==>
                      nextTime == Earliest(schedule, tick.clock, enabled, numEvents as nat)
                      && triggered == DueMask(schedule, tick.clock, enabled, numEvents as nat, nextTime)
                      && scheduledAt == tick.clock)
                && (blocked || (cmd.code != 'e' && cmd.code != 'E' && cmd.code != 's') ==>
                      state == Waiting && enabled == old(enabled) && triggered == old(triggered)
                      && nextTime == old(nextTime) && scheduledAt == old(scheduledAt))
    {
      blocked := false;
      now := tick.clock;
      if showPrompt {
        serialOut := serialOut + [Prompt];
        showPrompt := false;
      }
      if now == nextTime {
        state := FileLog;
      } else if tick.command.Some? {
        var clock;
        blocked, clock := ProcessCommand(tick.command.value);
        if state == TermLog {
          MaskArgInRange(tick.command.value.args, numEvents);
        }
      }
    }

    /** wait_for_event(): reads the clock, recomputes the schedule and loops
        in WAITING until the clock reaches the next time (FILE_LOG) or an 'e'
        command triggers events by hand (TERM_LOG). `returned` is false when
        the ticks run out first or a command waits for ever; `used` is the
        number of ticks read. */
    method WaitForEvent(start: u32, ticks: seq<Tick>) returns (returned: bool, used: nat)
      requires Valid()
      modifies this`now, this`state, this`showPrompt, this`triggered, this`enabled, this`nextTime,
               this`scheduledAt, this`serialOut
      ensures Valid() && used <= |ticks|
      ensures returned <==> state != Waiting
      ensures state == Waiting ==> Scheduled()
      ensures state == FileLog ==> used > 0 && now == ticks[used - 1].clock && now == nextTime && Scheduled()
      ensures state == TermLog ==> used > 0 && TriggeredBy(ticks[used - 1].command)
      // the wait reads ticks until it returns, they run out, or a command blocks it
      ensures !returned && used < |ticks| ==> used > 0 && Blocks(ticks[used - 1].command, numEvents)
      // without commands it returns exactly at the first tick showing the next time
      ensures Quiet(ticks) ==>
                var t := Earliest(schedule, start, old(enabled), numEvents as nat);
                && enabled == old(enabled) && nextTime == t
                && (returned <==> exists k :: 0 <= k < |ticks| && ticks[k].clock == t)
                && (returned ==> state == FileLog && used > 0 && ticks[used - 1].clock == t)
                && (forall k :: 0 <= k < used - 1 ==> ticks[k].clock != t)
    {
      now := start;
      state := Waiting;
      ComputeNextTime();
      ghost var t := nextTime;
      used := 0;
      while state == Waiting && used < |ticks|
        invariant Valid() && used <= |ticks|
        invariant state == Waiting ==> Scheduled()
        invariant state == FileLog ==> used > 0 && now == ticks[used - 1].clock && now == nextTime && Scheduled()
        invariant state == TermLog ==> used > 0 && TriggeredBy(ticks[used - 1].command)
        invariant Quiet(ticks) ==> enabled == old(enabled) && nextTime == t && (state == Waiting || state == FileLog)
        invariant Quiet(ticks) && state == Waiting ==> Unseen(ticks, used, t)
        invariant Quiet(ticks) && state == FileLog ==> used > 0 && ticks[used - 1].clock == t && Unseen(ticks, used - 1, t)
        decreases |ticks| - used
      {
        ghost var quiet := Quiet(ticks);
        if quiet {
          assert ticks[used].command.None?;
        }
        var blocked := Poll(ticks[used]);
        if quiet && state == Waiting {
          UnseenStep(ticks, used, t);
        }
        used := used + 1;
        if blocked {
          return false, used;
        }
      }
      returned := state != Waiting;
    }

    /** new_log_line(): empties the line and writes the timestamp, the bytes
        the application's write_timestamp prints. */
    method NewLogLine(timestamp: seq<byte>)
      requires Valid()
      modifies stream, stream.buffer
      ensures Valid() && stream.buffer == old(stream.buffer)
      ensures stream.Written() == Fit([], timestamp, stream.size)
    {
      stream.Reset();
      var n := stream.WriteBytes(timestamp);
    }

    /** log_string(string): a comma, then the string's bytes. */
    method LogString(s: seq<byte>)
      requires Valid()
      modifies stream, stream.buffer
      ensures Valid() && stream.buffer == old(stream.buffer)
      ensures stream.Written() == Fit(old(stream.Written()), [Comma] + s, stream.size)
    {
      var n := stream.WriteByte(Comma);
      var m := stream.WriteBytes(s);
      assert old(stream.Written()) + ([Comma] + s) == old(stream.Written()) + [Comma] + s;
    }

    /** skip_entries(count): one comma per skipped column. */
    method SkipEntries(count: u8)
      requires Valid()
      modifies stream, stream.buffer
      ensures Valid() && stream.buffer == old(stream.buffer)
      ensures stream.Written() == Fit(old(stream.Written()), Commas(count as nat), stream.size)
    {
      var i: nat := 0;
      while i < count as nat
        invariant i <= count as nat && Valid() && stream.buffer == old(stream.buffer)
        invariant stream.Written() == Fit(old(stream.Written()), Commas(i), stream.size)
      {
        var n := stream.WriteByte(Comma);
        assert old(stream.Written()) + Commas(i + 1) == old(stream.Written()) + Commas(i) + [Comma];
        i := i + 1;
      }
    }

    /** end_log_line(): a non-empty line goes to the log file (and a line
        end) in FILE_LOG when the file is open, to the serial line in
        TERM_LOG, where the prompt is shown again; otherwise it stays. */
    method EndLogLine()
      requires Valid()
      modifies this`logFile, this`serialOut, this`showPrompt
      ensures var line := stream.Written();
              if line != [] && state == FileLog && old(logFile).Some? then
                logFile == Some(old(logFile).value + line + NewLine)
                && serialOut == old(serialOut) && showPrompt == old(showPrompt)
              else if line != [] && state == TermLog then
                serialOut == old(serialOut) + line + NewLine && showPrompt
                && logFile == old(logFile)
              else
                logFile == old(logFile) && serialOut == old(serialOut) && showPrompt == old(showPrompt)
    {
      if stream.BytesWritten() != 0 {
        if state == FileLog && logFile.Some? {
          var line := stream.Dump();
          logFile := Some(logFile.value + line + NewLine);
        } else if state == TermLog {
          var line := stream.Dump();
          serialOut := serialOut + line + NewLine;
          showPrompt := true;
        }
      }
    }
  }

  /** The number of column separators in a piece of a line. */
  function Columns(s: seq<byte>): nat
  {
    if s == [] then 0 else Columns(s[..|s| - 1]) + (if s[|s| - 1] == Comma then 1 else 0)
  }

  lemma {:induction false} ColumnsAppend(a: seq<byte>, b: seq<byte>)
    ensures Columns(a + b) == Columns(a) + Columns(b)
  {
    if b != [] {
      assert (a + b)[..|a + b| - 1] == a + b[..|b| - 1];
      ColumnsAppend(a, b[..|b| - 1]);
    } else {
      assert a + b == a;
    }
  }

  /** skip_entries(n) moves the line on by exactly n columns. */
  lemma {:induction false} SkipColumns(n: nat)
    ensures Columns(Commas(n)) == n
  {
    if n > 0 {
      SkipColumns(n - 1);
      ColumnsAppend(Commas(n - 1), [Comma]);
    }
  }

  /** log_string(s) moves the line on by exactly one column when, as the
      caller must ensure, `s` holds no comma. */
  lemma {:induction false} StringColumns(s: seq<byte>)
    requires forall k :: 0 <= k < |s| ==> s[k] != Comma
    ensures Columns([Comma] + s) == 1
  {
    NoColumns(s);
    ColumnsAppend([Comma], s);
  }

  lemma {:induction false} NoColumns(s: seq<byte>)
    requires forall k :: 0 <= k < |s| ==> s[k] != Comma
    ensures Columns(s) == 0
  {
    if s != [] {
      NoColumns(s[..|s| - 1]);
    }
  }
}
