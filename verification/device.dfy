/**
 * The device side of the bridge: the switch, the status heartbeat, the
 * line reader on the USB serial port, the parsing of status lines into the
 * display fields and the rendering of the two display rows.
 *
 * Sizes stay in whole MiB, exactly as they arrive on the wire; the device's
 * division by 1024 is folded into `FormatGb`, which prints the value in
 * GiB with the rounding of Python's `"{:.0f}"` and `"{:.1f}"` formats
 * (nearest value, ties to even), which is exact here because `mib / 1024`
 * is exactly representable.
 */
module Device {
  import opened Wrappers
  import opened Text
  import opened Decimal
  import opened StatusCodec
  import opened Lcd

  // ---------------------------------------------------------------------
  // Number formatting

  function Abs(x: int): nat
  {
    if x < 0 then -x else x
  }

  /** `q` is the multiple count of `d` nearest to `n`, an even one on a tie. */
  predicate NearestEven(n: int, d: int, q: int)
  {
    2 * Abs(n - q * d) <= d && (2 * Abs(n - q * d) == d ==> q % 2 == 0)
  }

  /** `n / d` rounded to the nearest integer, ties to even. */
  function RoundHalfEven(n: nat, d: nat): (q: nat)
    requires d > 0
    ensures NearestEven(n, d, q)
  {
    var q, r := n / d, n % d;
    assert n - q * d == r;
    if 2 * r < d then q
    else if 2 * r > d then
      assert n - (q + 1) * d == r - d;
      q + 1
    else if q % 2 == 0 then q
    else
      assert n - (q + 1) * d == r - d;
      q + 1
  }

  /** GiB that print with no decimal place: 10 GiB and above. */
  const WholeFrom: int := 10 * 1024

  /** `format_gb(mib / 1024.0)`: whole GiB with a `G` from 10 GiB on,
      otherwise GiB with one decimal place (a minus sign for negative
      sizes, even when they round to zero). */
  function FormatGb(mib: int): (r: string)
    ensures |r| >= 2 && r[|r| - 1] == 'G'
    ensures mib >= WholeFrom ==> '.' !in r
    ensures mib < WholeFrom ==> |r| >= 4 && r[|r| - 3] == '.'
  {
    if mib >= WholeFrom then NatToDecimal(RoundHalfEven(mib, 1024)) + "G"
    else
      var tenths := RoundHalfEven(Abs(mib) * 10, 1024);
      (if mib < 0 then "-" else "") + OneDecimal(tenths / 10, tenths % 10)
  }

  /** `q.d` followed by `G`. */
  function OneDecimal(q: nat, d: nat): string
    requires d < 10
  {
    NatToDecimal(q) + "." + [DigitChar(d)] + "G"
  }

  /** From 10 GiB on, the digits before the `G` are the size in GiB
      rounded to the nearest whole number (ties to even), at least 10. */
  lemma FormatGbWhole(mib: int)
    requires mib >= WholeFrom
    ensures var r := FormatGb(mib);
            var digits := r[..|r| - 1];
            && r[|r| - 1] == 'G' && AllDigits(digits)
            && NearestEven(mib, 1024, DigitsValue(digits)) && DigitsValue(digits) >= 10
  {
    var g := RoundHalfEven(mib, 1024);
    var r := FormatGb(mib);
    assert r[..|r| - 1] == NatToDecimal(g);
    DigitsValueOfDecimal(g);
  }

  /** `s` is digits, a point, one digit and `G`. */
  predicate SpellsTenths(s: string)
  {
    |s| >= 4 && s[|s| - 1] == 'G' && s[|s| - 3] == '.'
    && AllDigits(s[..|s| - 3]) && IsDigit(s[|s| - 2])
  }

  /** The number of tenths such a text reads as. */
  function TenthsValue(s: string): nat
    requires SpellsTenths(s)
  {
    DigitsValue(s[..|s| - 3]) * 10 + DigitValue(s[|s| - 2])
  }

  /** `q.d` followed by `G` reads back as `q` units and `d` tenths. */
  lemma TenthsText(q: nat, d: nat)
    requires d < 10
    ensures SpellsTenths(OneDecimal(q, d)) && TenthsValue(OneDecimal(q, d)) == q * 10 + d
  {
    var whole := NatToDecimal(q);
    var s := OneDecimal(q, d);
    var n := |s|;
    assert n == |whole| + 3;
    assert s[..n - 3] == whole;
    assert s[n - 3] == '.' && s[n - 2] == DigitChar(d) && s[n - 1] == 'G';
    DigitsValueOfDecimal(q);
  }

  /** Below 10 GiB, the text is an optional minus sign, then digits, a
      point and one digit, which together spell the size in tenths of a GiB
      rounded to the nearest tenth (ties to even). */
  lemma FormatGbTenths(mib: int)
    requires mib < WholeFrom
    ensures var r := FormatGb(mib);
            && (r[0] == '-' <==> mib < 0)
            && var body := if mib < 0 then r[1..] else r;
               SpellsTenths(body) && NearestEven(Abs(mib) * 10, 1024, TenthsValue(body))
  {
    var tenths := RoundHalfEven(Abs(mib) * 10, 1024);
    var q, d := tenths / 10, tenths % 10;
    var text := OneDecimal(q, d);
    TenthsText(q, d);
    assert q * 10 + d == tenths;
    var r := FormatGb(mib);
    if mib < 0 {
      assert r == "-" + text;
      assert r[1..] == text;
    } else {
      assert r == text;
      assert text[0] != '-';
    }
  }

  // ---------------------------------------------------------------------
  // The display rows

  /** `SPINNER`: the four frames of the busy indicator. */
  const Spinner: string := "|/-\\"

  /** `state_char()` as a function of the state token and the spinner
      index: the glyph, and the spinner index afterwards. */
  function Glyph(state: string, idx: nat): (r: (char, nat))
    ensures r.1 == idx || r.1 == idx + 1
  {
    if state == "running" then ('U', idx)
    else if state == "stopped" then ('D', idx)
    else if state == "starting" || state == "stopping" then (Spinner[idx % |Spinner|], idx + 1)
    else ('?', idx)
  }

  /** The spinner turns only while the server starts or stops, one frame
      per redraw, and consecutive frames differ; the settled states show a
      fixed letter and an unknown state a question mark. */
  lemma GlyphCases(state: string, idx: nat)
    ensures var (c, next) := Glyph(state, idx);
            && (state == "running" ==> c == 'U' && next == idx)
            && (state == "stopped" ==> c == 'D' && next == idx)
            && (state in {"starting", "stopping"} ==>
                  c in Spinner && next == idx + 1 && Glyph(state, next).0 != c
                  && Glyph(state, idx + 4).0 == c)
            && (state !in {"running", "stopped", "starting", "stopping"} ==> c == '?' && next == idx)
  {
  }

  /** `"VRAM {}/{}"` of the two VRAM sizes. */
  function VramText(t: Telemetry): string
  {
    "VRAM " + FormatGb(t.vramUsed) + "/" + FormatGb(t.vramTotal)
  }

  /** The first row: the VRAM text cut or padded to 15 characters, then
      the state glyph. */
  function Row1(t: Telemetry, glyph: char): (r: string)
    ensures |r| == 16 && r[15] == glyph
    ensures forall k :: 0 <= k < 15 ==> r[k] == if k < |VramText(t)| then VramText(t)[k] else ' '
  {
    FitWidth(VramText(t), 15) + [glyph]
  }

  /** The second row: `"RAM  {}/{}"` of the two RAM sizes. */
  function Row2(t: Telemetry): string
  {
    "RAM  " + FormatGb(t.ramUsed) + "/" + FormatGb(t.ramTotal)
  }

  /** The sizes of the redraw below: 512 and 8192 MiB of VRAM, 2048 and
      16384 MiB of RAM. */
  lemma FormatGbHalf()
    ensures FormatGb(512) == "0.5G"
  {
    var tenths := RoundHalfEven(5120, 1024);
    assert tenths == 5;
    assert NatToDecimal(0) == "0" && DigitChar(5) == '5';
    assert OneDecimal(0, 5) == "0.5G";
  }

  lemma FormatGbEight()
    ensures FormatGb(8192) == "8.0G"
  {
    var tenths := RoundHalfEven(81920, 1024);
    assert tenths == 80;
    assert NatToDecimal(8) == "8" && DigitChar(0) == '0';
    assert OneDecimal(8, 0) == "8.0G";
  }

  lemma FormatGbTwo()
    ensures FormatGb(2048) == "2.0G"
  {
    var tenths := RoundHalfEven(20480, 1024);
    assert tenths == 20;
    assert NatToDecimal(2) == "2" && DigitChar(0) == '0';
    assert OneDecimal(2, 0) == "2.0G";
  }

  lemma FormatGbSixteen()
    ensures FormatGb(16384) == "16G"
  {
    assert RoundHalfEven(16384, 1024) == 16;
    assert NatToDecimal(16) == "16";
  }

  /** The bus bytes of one redraw of the fields `t` with the glyph `c` on a
      display `cols` wide with backlight bit `bl`. */
  function Redraw(t: Telemetry, c: char, cols: nat, bl: Byte): seq<Byte>
  {
    EncodeTransfers(ShowTransfers(Row1(t, c), Row2(t), cols), bl)
  }

  /** A concrete redraw: a model that is starting, half a GiB of 8 GiB VRAM
      and 2 of 16 GiB RAM in use. */
  lemma RowsExample()
    ensures var t := Telemetry("starting", 512, 8192, 2048, 16384);
            && Row1(t, Glyph(t.serverState, 0).0) == "VRAM 0.5G/8.0G |"
            && Row2(t) == "RAM  2.0G/16G"
  {
    var t := Telemetry("starting", 512, 8192, 2048, 16384);
    FormatGbHalf();
    FormatGbEight();
    FormatGbTwo();
    FormatGbSixteen();
    assert VramText(t) == "VRAM 0.5G/8.0G";
    assert Glyph(t.serverState, 0).0 == '|';
  }

  /** Just below 10 GiB the one-decimal format applies: 9830 MiB is
      9.5996 GiB. */
  lemma FormatGbBelowTen()
    ensures FormatGb(9830) == "9.6G"
  {
    assert RoundHalfEven(98300, 1024) == 96 && NatToDecimal(9) == "9" && DigitChar(6) == '6';
    assert OneDecimal(9, 6) == "9.6G";
  }

  /** 10235 MiB is still below 10 GiB but rounds up to ten in the
      one-decimal format. */
  lemma FormatGbRoundsToTen()
    ensures FormatGb(10235) == "10.0G"
  {
    assert RoundHalfEven(102350, 1024) == 100 && NatToDecimal(10) == "10" && DigitChar(0) == '0';
    assert OneDecimal(10, 0) == "10.0G";
  }

  /** From 10 GiB on, whole GiB: 10650 MiB is 10.4 GiB, and the exact
      halves 10.5 and 11.5 GiB go to the even neighbour. */
  lemma FormatGbAboveTen()
    ensures FormatGb(10650) == "10G"
    ensures FormatGb(10752) == "10G"
    ensures FormatGb(11776) == "12G"
  {
    assert RoundHalfEven(10650, 1024) == 10 && RoundHalfEven(10752, 1024) == 10;
    assert RoundHalfEven(11776, 1024) == 12;
    assert NatToDecimal(10) == "10" && NatToDecimal(12) == "12";
  }

  /** A negative size keeps its sign even when it rounds to zero. */
  lemma FormatGbNegative()
    ensures FormatGb(-1) == "-0.0G"
  {
    assert RoundHalfEven(10, 1024) == 0 && NatToDecimal(0) == "0" && DigitChar(0) == '0';
    assert OneDecimal(0, 0) == "0.0G";
  }

  // ---------------------------------------------------------------------
  // The switch

  datatype Level = On | Off

  /** A pin reading of 1 (pulled up, switch open) is ON, anything else OFF. */
  function LevelOf(raw: int): Level
  {
    if raw == 1 then On else Off
  }

  function LevelName(l: Level): string
  {
    match l
    case On => "ON"
    case Off => "OFF"
  }

  /** `"CMD:" + current` with its line end. */
  function SwitchMessage(l: Level): string
  {
    "CMD:" + LevelName(l) + "\n"
  }

  /** The switch part of one pass of the main loop, given the two readings
      taken 50 ms apart: the remembered level afterwards and what is
      written to the serial port. */
  function SwitchStep(last: Option<Level>, first: int, second: int): (r: (Option<Level>, string))
  {
    if first == second && last != Some(LevelOf(first)) then (Some(LevelOf(first)), SwitchMessage(LevelOf(first)))
    else (last, "")
  }

  /** A command goes out exactly when both readings agree and differ from
      the remembered level, and the remembered level follows it; otherwise
      nothing changes. */
  lemma SwitchStepCases(last: Option<Level>, first: int, second: int)
    ensures var (next, msg) := SwitchStep(last, first, second);
            && (msg != "" <==> first == second && last != Some(LevelOf(first)))
            && (msg != "" ==> next == Some(LevelOf(first)) && msg == SwitchMessage(LevelOf(first)))
            && (msg == "" ==> next == last)
  {
  }

  /** The levels the switch reports over a run of reading pairs, and the
      remembered level at the end. */
  function SwitchRun(last: Option<Level>, readings: seq<(int, int)>): (Option<Level>, seq<Level>)
    decreases |readings|
  {
    if readings == [] then (last, [])
    else
      var (next, msg) := SwitchStep(last, readings[0].0, readings[0].1);
      var (held, sent) := SwitchRun(next, readings[1..]);
      if msg == "" then (held, sent) else (held, [next.value] + sent)
  }

  /** Over any run of readings the reported levels alternate: the first
      differs from the level remembered before, no level is reported twice
      in a row, and the level remembered at the end is the last one
      reported. */
  lemma {:induction false} SwitchRunAlternates(last: Option<Level>, readings: seq<(int, int)>)
    ensures var (held, sent) := SwitchRun(last, readings);
            && (sent == [] ==> held == last)
            && (sent != [] ==> Some(sent[0]) != last && held == Some(sent[|sent| - 1]))
            && (forall i :: 0 < i < |sent| ==> sent[i] != sent[i - 1])
    decreases |readings|
  {
    if readings != [] {
      var (next, msg) := SwitchStep(last, readings[0].0, readings[0].1);
      SwitchRunAlternates(next, readings[1..]);
      var (held, sent) := SwitchRun(next, readings[1..]);
      if msg != "" {
        assert SwitchRun(last, readings) == (held, [next.value] + sent);
      }
    }
  }

  // ---------------------------------------------------------------------
  // The heartbeat

  const StatusInterval: int := 2000

  /** The millisecond tick counter wraps at 2^30. */
  const TicksPeriod: int := 0x4000_0000

  /** `utime.ticks_diff(a, b)`: `a - b` taken modulo the tick period into
      the signed range [-2^29, 2^29). */
  function TicksDiff(a: int, b: int): (d: int)
    ensures -TicksPeriod / 2 <= d < TicksPeriod / 2
  {
    (a - b + TicksPeriod / 2) % TicksPeriod - TicksPeriod / 2
  }

  /** Two tick readings of instants less than half a period apart differ
      by the true elapsed time, wrap-around or not. */
  lemma TicksDiffElapsed(t0: int, t1: int)
    requires 0 <= t1 - t0 < TicksPeriod / 2
    ensures TicksDiff(t1 % TicksPeriod, t0 % TicksPeriod) == t1 - t0
  {
  }

  /** The heartbeat part of one pass: the time of the last status request
      afterwards and what is written to the serial port. */
  function Heartbeat(lastTime: int, now: int): (r: (int, string))
  {
    if TicksDiff(now, lastTime) >= StatusInterval then (now, "CMD:STATUS\n") else (lastTime, "")
  }

  /** The status request times over a run of passes. */
  function HeartbeatRun(lastTime: int, nows: seq<int>): seq<int>
    decreases |nows|
  {
    if nows == [] then []
    else
      var (next, msg) := Heartbeat(lastTime, nows[0]);
      if msg == "" then HeartbeatRun(next, nows[1..]) else [next] + HeartbeatRun(next, nows[1..])
  }

  /** Status requests are at least `StatusInterval` ticks apart: the first
      from the time remembered before the run, each later one from the one
      before it. */
  lemma {:induction false} HeartbeatSpacing(lastTime: int, nows: seq<int>)
    ensures var sent := HeartbeatRun(lastTime, nows);
            && (sent != [] ==> TicksDiff(sent[0], lastTime) >= StatusInterval)
            && (forall i :: 0 < i < |sent| ==> TicksDiff(sent[i], sent[i - 1]) >= StatusInterval)
    decreases |nows|
  {
    if nows != [] {
      var (next, msg) := Heartbeat(lastTime, nows[0]);
      HeartbeatSpacing(next, nows[1..]);
      if msg != "" {
        assert HeartbeatRun(lastTime, nows) == [next] + HeartbeatRun(next, nows[1..]);
      }
    }
  }

  // ---------------------------------------------------------------------
  // Reading lines from the serial port

  /** The index of the first line end in `s`, or `|s|` when there is none. */
  function FirstNewline(s: string): (k: nat)
    ensures k <= |s| && (k < |s| ==> s[k] == '\n')
    ensures forall j :: 0 <= j < k ==> s[j] != '\n'
  {
    if s == [] || s[0] == '\n' then 0 else 1 + FirstNewline(s[1..])
  }

  /** `serial_readline()` as a function of the partial line held and the
      characters waiting: the completed line if a line end is waiting,
      then the partial line and the waiting characters afterwards. */
  function ReadLine(buf: string, input: string): (Option<string>, string, string)
  {
    var k := FirstNewline(input);
    if k < |input| then (Some(buf + input[..k]), "", input[k + 1..]) else (None, buf + input, "")
  }

  /** Nothing is lost or reordered: a completed line, its line end and the
      characters left waiting are exactly the partial line and the input;
      without a line end, everything waiting moves into the partial line. */
  lemma ReadLineConserves(buf: string, input: string)
    ensures var (line, buf', rest) := ReadLine(buf, input);
            && (line.Some? ==> buf + input == line.value + "\n" + rest && buf' == ""
                               && '\n' !in line.value[|buf|..])
            && (line.None? ==> buf' == buf + input && rest == "" && '\n' !in input)
  {
    var k := FirstNewline(input);
    if k < |input| {
      assert input == input[..k] + "\n" + input[k + 1..];
    }
  }

  /** Everything `serial_readline` hands over while characters keep
      arriving in `input`, reading until no line end is left, and the
      partial line held at the end. */
  function ReadAll(buf: string, input: string): (seq<string>, string)
    decreases |input|
  {
    var (line, buf', rest) := ReadLine(buf, input);
    if line.None? then ([], buf')
    else
      var (lines, held) := ReadAll(buf', rest);
      ([line.value] + lines, held)
  }

  /** The device sees the stream as Python's `split("\n")` does: the lines
      it completes are the pieces before the last line end, and the piece
      after it is the partial line it keeps. */
  lemma {:induction false} ReadAllSplit(buf: string, input: string)
    requires '\n' !in buf
    ensures var (lines, held) := ReadAll(buf, input);
            lines + [held] == Split(buf + input, '\n')
    decreases |input|
  {
    var (line, buf', rest) := ReadLine(buf, input);
    ReadLineConserves(buf, input);
    if line.None? {
      SplitNoSep(buf + input, '\n');
    } else {
      ReadAllSplit(buf', rest);
      var l := line.value;
      assert l == buf + l[|buf|..];
      SplitCons(l, rest, '\n');
      assert buf + input == line.value + ['\n'] + rest;
      var (lines, held) := ReadAll(buf', rest);
      assert ReadAll(buf, input) == ([line.value] + lines, held);
      assert buf' + rest == rest;
    }
  }

  /** A status line the host writes, with its line end, arrives whole and
      sets the shown fields to exactly what the host reported. */
  lemma StatusLineArrives(before: Telemetry, t: Telemetry)
    requires Separator !in t.serverState && '\n' !in t.serverState
    ensures var (line, buf, rest) := ReadLine("", EncodeStatus(t) + "\n");
            && line == Some(EncodeStatus(t)) && buf == "" && rest == ""
            && ApplyStatus(before, line.value) == t
  {
    var s := EncodeStatus(t);
    var fs := Fields(t);
    assert forall k :: 0 <= k < |fs| ==> '\n' !in fs[k];
    JoinFree(fs, Separator, '\n');
    assert s == Prefix + Join(fs, Separator);
    var u := s + "\n";
    var k := FirstNewline(u);
    assert u[|s|] == '\n';
    assert u[..|s|] == s;
    assert k == |s| && "" + u[..k] == s && u[k + 1..] == "";
    StatusRoundTrip(before, t);
  }

  // ---------------------------------------------------------------------
  // The program

  /** The device program's state: the display it drives, the remembered
      switch level, the shown status fields, the time of the last status
      request, the spinner index, the partial line read so far, the
      characters waiting on the serial input and everything written to the
      serial output. */
  class Controller {
    const lcd: LCD
    var lastSwitch: Option<Level>
    var serverState: string
    var vramUsed: int
    var vramTotal: int
    var ramUsed: int
    var ramTotal: int
    var lastStatusTime: int
    var spinnerIdx: nat
    var readBuf: string
    var input: string
    var output: string

    /** The five status fields the display shows. */
    function Shown(): Telemetry
      reads this
    {
      Telemetry(serverState, vramUsed, vramTotal, ramUsed, ramTotal)
    }

    /** Start-up: the initial state and the greeting on the display. */
    constructor (display: LCD)
      modifies display`bus
      ensures lcd == display
      ensures lastSwitch == None && Shown() == Telemetry("unknown", 0, 0, 0, 0)
      ensures lastStatusTime == 0 && spinnerIdx == 0
      ensures readBuf == "" && input == "" && output == ""
      ensures display.bus
              == old(display.bus)
                 + EncodeTransfers(ShowTransfers("PicoSwitch", "Connecting...", display.cols), display.backlight)
    {
      lcd := display;
      lastSwitch := None;
      serverState := "unknown";
      vramUsed, vramTotal, ramUsed, ramTotal := 0, 0, 0, 0;
      lastStatusTime := 0;
      spinnerIdx := 0;
      readBuf, input, output := "", "", "";
      new;
      display.Show("PicoSwitch", "Connecting...");
    }

    /** Characters the host writes arrive on the serial input. */
    method Receive(data: string)
      modifies this`input
      ensures input == old(input) + data
    {
      input := input + data;
    }

    /** `serial_write(msg)`: the message and a line end. */
    method SerialWrite(msg: string)
      modifies this`output
      ensures output == old(output) + (msg + "\n")
    {
      output := output + (msg + "\n");
    }

    /** `serial_readline()`: take waiting characters one at a time until a
        line end completes the partial line. */
    method SerialReadLine() returns (line: Option<string>)
      modifies this`readBuf, this`input
      ensures (line, readBuf, input) == ReadLine(old(readBuf), old(input))
    {
      ghost var buf0, in0 := readBuf, input;
      ghost var i := 0;
      while input != []
        invariant 0 <= i <= |in0| && input == in0[i..] && readBuf == buf0 + in0[..i]
        invariant forall j :: 0 <= j < i ==> in0[j] != '\n'
        decreases |input|
      {
        var ch := input[0];
        input := input[1..];
        if ch == '\n' {
          line := Some(readBuf);
          readBuf := "";
          assert in0[i] == '\n' && FirstNewline(in0) == i;
          return;
        }
        readBuf := readBuf + [ch];
        assert in0[..i + 1] == in0[..i] + [ch];
        i := i + 1;
      }
      assert FirstNewline(in0) == |in0| && in0[..i] == in0;
      line := None;
    }

    /** `parse_status(line)`: the state token, then the numbers in order
        until one does not read as a number. */
    method ParseStatus(line: string)
      modifies this`serverState, this`vramUsed, this`vramTotal, this`ramUsed, this`ramTotal
      ensures Shown() == ApplyStatus(old(Shown()), line)
    {
      if !IsPrefix(Prefix, line) {
        return;
      }
      var parts := Split(line[|Prefix|..], Separator);
      if |parts| != 5 {
        return;
      }
      ghost var fields := parts[1..];
      serverState := parts[0];
      var v := ParseInt(parts[1]);
      if v.None? {
        return;
      }
      vramUsed := v.value;
      v := ParseInt(parts[2]);
      if v.None? {
        return;
      }
      vramTotal := v.value;
      v := ParseInt(parts[3]);
      if v.None? {
        return;
      }
      ramUsed := v.value;
      v := ParseInt(parts[4]);
      if v.None? {
        return;
      }
      ramTotal := v.value;
    }

    /** `state_char()`. */
    method StateChar() returns (c: char)
      modifies this`spinnerIdx
      ensures (c, spinnerIdx) == Glyph(serverState, old(spinnerIdx))
    {
      if serverState == "running" {
        return 'U';
      }
      if serverState == "stopped" {
        return 'D';
      }
      if serverState == "starting" || serverState == "stopping" {
        c := Spinner[spinnerIdx % |Spinner|];
        spinnerIdx := spinnerIdx + 1;
        return;
      }
      return '?';
    }

    /** `update_lcd()`: build both rows and show them; `written` is false
        when the bus raises `OSError`, which is swallowed. The glyph, and
        so the spinner, advances either way. */
    method UpdateLcd(written: bool)
      modifies this`spinnerIdx, lcd`bus
      ensures var (c, next) := Glyph(serverState, old(spinnerIdx));
              && spinnerIdx == next
              && lcd.bus == if written then old(lcd.bus) + Redraw(Shown(), c, lcd.cols, lcd.backlight)
                            else old(lcd.bus)
    {
      var vram := "VRAM " + FormatGb(vramUsed) + "/" + FormatGb(vramTotal);
      var line1 := if |vram| <= 15 then vram else vram[..15];
      var c := StateChar();
      line1 := line1 + Spaces(15 - |line1|) + [c];
      var line2 := "RAM  " + FormatGb(ramUsed) + "/" + FormatGb(ramTotal);
      assert line1 == Row1(Shown(), c);
      if written {
        lcd.Show(line1, line2);
      }
    }

    /** The switch part of a pass: a reading that is stable over the 50 ms
        debounce wait and differs from the remembered level is remembered
        and reported. */
    method PollSwitch(first: int, second: int)
      modifies this`lastSwitch, this`output
      ensures var (level, sent) := SwitchStep(old(lastSwitch), first, second);
              lastSwitch == level && output == old(output) + sent
    {
      if first == second {
        var current := LevelOf(first);
        if Some(current) != lastSwitch {
          lastSwitch := Some(current);
          SerialWrite("CMD:" + LevelName(current));
        }
      }
    }

    /** The heartbeat part of a pass: a status request once the interval
        has passed since the last one. */
    method PollStatus(now: int)
      modifies this`lastStatusTime, this`output
      ensures var (beat, sent) := Heartbeat(old(lastStatusTime), now);
              lastStatusTime == beat && output == old(output) + sent
    {
      if TicksDiff(now, lastStatusTime) >= StatusInterval {
        SerialWrite("CMD:STATUS");
        lastStatusTime := now;
      }
    }

    /** The receiving part of a pass: at most one completed line, which is
        parsed and followed by a redraw. */
    method PollSerial(written: bool)
      modifies this`readBuf, this`input, this`spinnerIdx, lcd`bus
      modifies this`serverState, this`vramUsed, this`vramTotal, this`ramUsed, this`ramTotal
      ensures var (line, buf, rest) := ReadLine(old(readBuf), old(input));
              && readBuf == buf && input == rest
              && (line.None? ==>
                    Shown() == old(Shown()) && spinnerIdx == old(spinnerIdx) && lcd.bus == old(lcd.bus))
              && (line.Some? ==>
                    && Shown() == ApplyStatus(old(Shown()), line.value)
                    && var (c, next) := Glyph(Shown().serverState, old(spinnerIdx));
                       && spinnerIdx == next
                       && lcd.bus == if written then old(lcd.bus) + Redraw(Shown(), c, lcd.cols, lcd.backlight)
                                     else old(lcd.bus))
    {
      ghost var shown0, idx0, bus0 := Shown(), spinnerIdx, lcd.bus;
      ghost var read := ReadLine(readBuf, input);
      var line := SerialReadLine();
      assert line == read.0 && readBuf == read.1 && input == read.2;
      if line.Some? {
        ParseStatus(line.value);
        ghost var t := Shown();
        assert t == ApplyStatus(shown0, line.value);
        UpdateLcd(written);
        ghost var (c, next) := Glyph(t.serverState, idx0);
        assert Shown() == t && spinnerIdx == next;
      }
    }

    /** One pass of the main loop at tick `now`: the switch read twice
        (`first`, `second`), the heartbeat, and at most one received line,
        which updates the fields and redraws the display. */
    method Tick(now: int, first: int, second: int, written: bool)
      modifies this, lcd`bus
      ensures var (level, switchOut) := SwitchStep(old(lastSwitch), first, second);
              var (beat, beatOut) := Heartbeat(old(lastStatusTime), now);
              && lastSwitch == level && lastStatusTime == beat
              && output == old(output) + switchOut + beatOut
      ensures var (line, buf, rest) := ReadLine(old(readBuf), old(input));
              && readBuf == buf && input == rest
              && (line.None? ==>
                    Shown() == old(Shown()) && spinnerIdx == old(spinnerIdx) && lcd.bus == old(lcd.bus))
              && (line.Some? ==>
                    && Shown() == ApplyStatus(old(Shown()), line.value)
                    && var (c, next) := Glyph(Shown().serverState, old(spinnerIdx));
                       && spinnerIdx == next
                       && lcd.bus == if written then old(lcd.bus) + Redraw(Shown(), c, lcd.cols, lcd.backlight)
                                     else old(lcd.bus))
    {
      PollSwitch(first, second);
      PollStatus(now);
      PollSerial(written);
    }
  }
}
