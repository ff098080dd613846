/**
 * The host daemon's decisions, with the outside world replaced by what it
 * returns: the text `ps` printed (or `None` when the query raised), the
 * text `nvidia-smi` printed (or `None`), the two kB figures found in
 * /proc/meminfo (each `None` when missing), and the device names the two
 * globs found.
 */
module Host {
  import opened Wrappers
  import opened Text
  import opened Decimal
  import opened StatusCodec

  // ---------------------------------------------------------------------
  // Container state

  /** The four state tokens the host can report. */
  predicate IsStateToken(s: string)
  {
    s == "running" || s == "starting" || s == "stopped" || s == "error"
  }

  /** `get_container_state`: the `ps` status text, stripped and lower-cased,
      classified by the words it contains. */
  function ContainerState(ps: Option<string>): (r: string)
    ensures IsStateToken(r)
  {
    match ps
    case None => "error"
    case Some(out) =>
      var status := Lower(Strip(out));
      if status == "" then "stopped"
      else if Contains(status, "up") then "running"
      else if Contains(status, "created") || Contains(status, "restarting") then "starting"
      else "stopped"
  }

  /** The classification, case by case: "up" wins over "created" and
      "restarting"; output made only of white space (or no output) reads as
      stopped, not as an error; only a failed query is an error. */
  lemma ContainerStateCases(out: string)
    ensures ContainerState(None) == "error"
    ensures ContainerState(Some(out)) != "error"
    ensures var status := Lower(Strip(out));
            && (ContainerState(Some(out)) == "running" <==> Contains(status, "up"))
            && (ContainerState(Some(out)) == "starting" <==>
                  !Contains(status, "up")
                  && (Contains(status, "created") || Contains(status, "restarting")))
            && (ContainerState(Some(out)) == "stopped" <==>
                  !Contains(status, "up") && !Contains(status, "created")
                  && !Contains(status, "restarting"))
    ensures AllSpace(out) ==> ContainerState(Some(out)) == "stopped"
  {
    StripEmpty(out);
  }

  // ---------------------------------------------------------------------
  // GPU memory

  predicate IsBlank(line: string)
  {
    Strip(line) == ""
  }

  /** One `nvidia-smi` CSV line `used, total`: exactly two comma-separated
      integers, else `None` (the `ValueError` of the unpacking or of `int`). */
  function ParseGpuLine(line: string): (r: Option<(int, int)>)
    ensures r.Some? ==> |Split(line, ',')| == 2
  {
    var fields := Split(line, ',');
    if |fields| != 2 then None
    else
      var used := ParseInt(Strip(fields[0]));
      var total := ParseInt(Strip(fields[1]));
      if used.Some? && total.Some? then Some((used.value, total.value)) else None
  }

  /** A non-blank line that is not a `used, total` pair. */
  predicate IsMalformed(line: string)
  {
    !IsBlank(line) && ParseGpuLine(line).None?
  }

  /** What one line adds to the sums: nothing for a blank line. */
  function LineValue(line: string): (r: Option<(int, int)>)
    ensures r.None? <==> IsMalformed(line)
  {
    if IsBlank(line) then Some((0, 0)) else ParseGpuLine(line)
  }

  /** Sums of the (used, total) pairs over the first `n` lines, blank
      lines adding nothing, or `None` as soon as one non-blank line among
      them is not such a pair. */
  function SumFirst(lines: seq<string>, n: nat): Option<(int, int)>
    requires n <= |lines|
  {
    if n == 0 then Some((0, 0)) else AddPairs(SumFirst(lines, n - 1), LineValue(lines[n - 1]))
  }

  /** Component-wise sum of two pairs; `None` if either is missing. */
  function AddPairs(a: Option<(int, int)>, b: Option<(int, int)>): Option<(int, int)>
  {
    if a.Some? && b.Some? then Some((a.value.0 + b.value.0, a.value.1 + b.value.1)) else None
  }

  /** The sums over all the lines. */
  function SumGpuLines(lines: seq<string>): Option<(int, int)>
  {
    SumFirst(lines, |lines|)
  }

  /** The lines `get_vram_usage` walks through. */
  function GpuLines(out: string): seq<string>
  {
    Split(Strip(out), '\n')
  }

  /** `get_vram_usage` as a value: the sums, or (0, 0) when the query
      failed or any non-blank line was malformed. */
  function VramTotals(smi: Option<string>): (int, int)
  {
    match smi
    case None => (0, 0)
    case Some(out) =>
      match SumGpuLines(GpuLines(out))
      case None => (0, 0)
      case Some(p) => p
  }

  /** The line `nvidia-smi --format=csv,noheader,nounits` prints for one
      GPU: its used and total MiB, separated by a comma and a space. */
  function GpuLine(usage: (int, int)): string
  {
    IntToDecimal(usage.0) + ", " + IntToDecimal(usage.1)
  }

  /** The report for several GPUs, one line each. */
  function GpuReport(gpus: seq<(int, int)>): (lines: seq<string>)
    ensures |lines| == |gpus|
    ensures forall i :: 0 <= i < |gpus| ==> lines[i] == GpuLine(gpus[i])
  {
    if gpus == [] then [] else [GpuLine(gpus[0])] + GpuReport(gpus[1..])
  }

  /** The sums of the used and of the total MiB of the first `n` GPUs. */
  function PairSum(gpus: seq<(int, int)>, n: nat): (int, int)
    requires n <= |gpus|
  {
    if n == 0 then (0, 0)
    else
      var prev := PairSum(gpus, n - 1);
      (prev.0 + gpus[n - 1].0, prev.1 + gpus[n - 1].1)
  }

  /** A decimal spelling holds no comma, and starts and ends with a
      character that is not white space. */
  lemma DecimalShape(i: int)
    ensures ',' !in IntToDecimal(i) && Trimmed(IntToDecimal(i))
  {
    var d := IntToDecimal(i);
    assert d[0] == '-' || IsDigit(d[0]);
    assert d[|d| - 1] == '-' || IsDigit(d[|d| - 1]);
    assert forall k :: 0 <= k < |d| ==> d[k] != ',';
  }

  /** A GPU line has no line end and is not padded with white space. */
  lemma GpuLineShape(usage: (int, int))
    ensures '\n' !in GpuLine(usage) && Trimmed(GpuLine(usage))
  {
    var a, b := IntToDecimal(usage.0), IntToDecimal(usage.1);
    DecimalShape(usage.0);
    DecimalShape(usage.1);
    var line := GpuLine(usage);
    assert line[0] == a[0];
    assert line[|line| - 1] == b[|b| - 1];
  }

  /** Two comma-free texts joined by a comma and a space split back into
      the first and the second behind its space. */
  lemma SplitPairLine(a: string, b: string)
    requires ',' !in a && ',' !in b
    ensures Split(a + ", " + b, ',') == [a, " " + b]
  {
    var sb := " " + b;
    assert ',' !in sb by {
      forall k | 0 <= k < |sb| ensures sb[k] != ',' {
        if k > 0 { assert sb[k] == b[k - 1]; }
      }
    }
    assert a + ", " + b == a + [','] + sb;
    SplitCons(a, sb, ',');
    SplitNoSep(sb, ',');
  }

  /** Reading a GPU line gives back the two numbers it was printed from. */
  lemma ParseGpuLineOfPair(usage: (int, int))
    ensures ParseGpuLine(GpuLine(usage)) == Some(usage)
  {
    var a, b := IntToDecimal(usage.0), IntToDecimal(usage.1);
    DecimalShape(usage.0);
    DecimalShape(usage.1);
    SplitPairLine(a, b);
    var fields := Split(GpuLine(usage), ',');
    assert fields == [a, " " + b];
    assert Strip(fields[0]) == a by {
      StripAround("", a, "");
      assert "" + a + "" == a;
    }
    assert Strip(fields[1]) == b by {
      StripAround(" ", b, "");
      assert " " + b + "" == " " + b;
    }
    ParseIntOfDecimal(usage.0);
    ParseIntOfDecimal(usage.1);
  }

  /** Each line of a report adds its GPU's two numbers. */
  lemma LineValueOfPair(usage: (int, int))
    ensures LineValue(GpuLine(usage)) == Some(usage)
  {
    var line := GpuLine(usage);
    GpuLineShape(usage);
    StripAround("", line, "");
    assert "" + line + "" == line;
    ParseGpuLineOfPair(usage);
  }

  /** Over the first `n` lines, when each line has the value of its GPU,
      the sum is that of the first `n` GPUs. */
  lemma {:induction false} SumFirstOfValues(lines: seq<string>, gpus: seq<(int, int)>, n: nat)
    requires n <= |lines| == |gpus|
    requires forall i :: 0 <= i < |lines| ==> LineValue(lines[i]) == Some(gpus[i])
    ensures SumFirst(lines, n) == Some(PairSum(gpus, n))
  {
    if n > 0 {
      SumFirstOfValues(lines, gpus, n - 1);
      assert SumFirst(lines, n) == AddPairs(Some(PairSum(gpus, n - 1)), Some(gpus[n - 1]));
    }
  }

  /** `get_vram_usage` on a report for one or more GPUs, followed by any
      white space (the final line end), is the sum of the used and the sum
      of the total MiB over all of them. */
  lemma VramTotalsOfReport(gpus: seq<(int, int)>, tail: string)
    requires gpus != [] && AllSpace(tail)
    ensures VramTotals(Some(Join(GpuReport(gpus), '\n') + tail)) == PairSum(gpus, |gpus|)
  {
    var lines := GpuReport(gpus);
    var text := Join(lines, '\n');
    forall k | 0 <= k < |lines| ensures Trimmed(lines[k]) && '\n' !in lines[k] {
      GpuLineShape(gpus[k]);
    }
    StripJoined(lines, '\n', tail);
    SplitJoin(lines, '\n');
    assert GpuLines(text + tail) == lines;
    forall k | 0 <= k < |lines| ensures LineValue(lines[k]) == Some(gpus[k]) {
      LineValueOfPair(gpus[k]);
    }
    SumFirstOfValues(lines, gpus, |gpus|);
  }

  /** Among the first `n` lines, one line without a value spoils the sum,
      and nothing else does. */
  lemma {:induction false} SumFirstFails(lines: seq<string>, n: nat)
    requires n <= |lines|
    ensures SumFirst(lines, n).None? <==> exists i :: 0 <= i < n && LineValue(lines[i]).None?
  {
    if n > 0 {
      SumFirstFails(lines, n - 1);
      var prev, v := SumFirst(lines, n - 1), LineValue(lines[n - 1]);
      assert SumFirst(lines, n) == AddPairs(prev, v);
      if prev.None? {
        var i :| 0 <= i < n - 1 && LineValue(lines[i]).None?;
        assert 0 <= i < n;
      }
    }
  }

  /** One malformed non-blank line spoils the whole sum, and nothing else does. */
  lemma SumGpuLinesFails(lines: seq<string>)
    ensures SumGpuLines(lines).None? <==> exists i :: 0 <= i < |lines| && IsMalformed(lines[i])
  {
    SumFirstFails(lines, |lines|);
    if SumGpuLines(lines).None? {
      var i :| 0 <= i < |lines| && LineValue(lines[i]).None?;
      assert IsMalformed(lines[i]);
    }
  }

  /** Once the first `n` lines have failed, the whole has failed. */
  lemma SumFirstFailsForward(lines: seq<string>, n: nat)
    requires n <= |lines|
    requires SumFirst(lines, n).None?
    ensures SumGpuLines(lines).None?
  {
    SumFirstFails(lines, n);
    SumGpuLinesFails(lines);
  }

  /** Any malformed non-blank line makes `get_vram_usage` report (0, 0),
      not a partial sum. */
  lemma VramTotalsMalformed(out: string, i: nat)
    requires i < |GpuLines(out)|
    requires IsMalformed(GpuLines(out)[i])
    ensures VramTotals(Some(out)) == (0, 0)
  {
    SumGpuLinesFails(GpuLines(out));
  }

  /** `get_vram_usage`: (0, 0) when the query failed, else the loop over
      the lines of its output. */
  method VramUsage(smi: Option<string>) returns (used: int, total: int)
    ensures (used, total) == VramTotals(smi)
  {
    if smi.None? {
      return 0, 0;
    }
    used, total := AccumulateGpuLines(GpuLines(smi.value));
  }

  /** The loop of `get_vram_usage`: accumulate the pairs line by line,
      skipping blank lines, and give up with (0, 0) at the first malformed
      one. */
  method AccumulateGpuLines(lines: seq<string>) returns (used: int, total: int)
    ensures SumGpuLines(lines).Some? ==> (used, total) == SumGpuLines(lines).value
    ensures SumGpuLines(lines).None? ==> (used, total) == (0, 0)
  {
    used, total := 0, 0;
    var i := 0;
    while i < |lines|
      invariant 0 <= i <= |lines|
      invariant SumFirst(lines, i) == Some((used, total))
    {
      var line := lines[i];
      assert SumFirst(lines, i + 1) == AddPairs(Some((used, total)), LineValue(line));
      if !IsBlank(line) {
        var pair := ParseGpuLine(line);
        assert LineValue(line) == pair;
        if pair.None? {
          SumFirstFailsForward(lines, i + 1);
          return 0, 0;
        }
        used := used + pair.value.0;
        total := total + pair.value.1;
      } else {
        assert LineValue(line) == Some((0, 0));
      }
      i := i + 1;
    }
  }

  // ---------------------------------------------------------------------
  // System memory

  /** `get_ram_usage` from the MemTotal and MemAvailable figures (kB):
      (used, total) in MiB, each rounded down; (0, 0) if a figure is
      missing. Used can come out negative when more is available than the
      total. */
  function RamUsage(memTotalKb: Option<nat>, memAvailableKb: Option<nat>): (r: (int, int))
    ensures memTotalKb.None? || memAvailableKb.None? ==> r == (0, 0)
    ensures memTotalKb.Some? && memAvailableKb.Some? ==>
              && r.1 * 1024 <= memTotalKb.value < (r.1 + 1) * 1024
              && r.0 * 1024 <= memTotalKb.value - memAvailableKb.value < (r.0 + 1) * 1024
  {
    if memTotalKb.None? || memAvailableKb.None? then (0, 0)
    else
      var total := memTotalKb.value;
      var available := memAvailableKb.value;
      ((total - available) / 1024, total / 1024)
  }

  // ---------------------------------------------------------------------
  // Serial port

  /** Python's `a <= b` on strings: code-point order, a prefix first. */
  predicate LexLe(a: string, b: string)
  {
    a == [] || (b != [] && (a[0] < b[0] || (a[0] == b[0] && LexLe(a[1..], b[1..]))))
  }

  lemma {:induction false} LexLeTotal(a: string, b: string)
    ensures LexLe(a, b) || LexLe(b, a)
  {
    if a != [] && b != [] && a[0] == b[0] {
      LexLeTotal(a[1..], b[1..]);
    }
  }

  lemma {:induction false} LexLeTransitive(a: string, b: string, c: string)
    requires LexLe(a, b) && LexLe(b, c)
    ensures LexLe(a, c)
  {
    if a != [] && b != [] && c != [] && a[0] == b[0] == c[0] {
      LexLeTransitive(a[1..], b[1..], c[1..]);
    }
  }

  /** `sorted(xs)[0]`: the least name. */
  function Least(xs: seq<string>): (m: string)
    requires xs != []
    ensures m in xs
    ensures forall y :: y in xs ==> LexLe(m, y)
  {
    if |xs| == 1 then
      LexLeTotal(xs[0], xs[0]);
      xs[0]
    else
      var rest := Least(xs[1..]);
      LexLeTotal(xs[0], rest);
      if LexLe(xs[0], rest) then
        assert forall y :: y in xs[1..] ==> LexLe(xs[0], y) by {
          forall y | y in xs[1..] ensures LexLe(xs[0], y) {
            LexLeTransitive(xs[0], rest, y);
          }
        }
        assert forall y :: y in xs ==> y == xs[0] || y in xs[1..];
        LexLeTotal(xs[0], xs[0]);
        xs[0]
      else
        assert forall y :: y in xs ==> y == xs[0] || y in xs[1..];
        rest
  }

  /** `find_serial_port`: the least ttyACM name if there is one, otherwise
      the least ttyUSB name, otherwise none. */
  function FindSerialPort(acm: seq<string>, usb: seq<string>): (r: Option<string>)
    ensures acm != [] ==> r.Some? && r.value in acm && forall y :: y in acm ==> LexLe(r.value, y)
    ensures acm == [] && usb != [] ==>
              r.Some? && r.value in usb && forall y :: y in usb ==> LexLe(r.value, y)
    ensures acm == [] && usb == [] ==> r == None
  {
    if acm != [] then Some(Least(acm))
    else if usb != [] then Some(Least(usb))
    else None
  }

  // ---------------------------------------------------------------------
  // Status and dispatch

  /** What the external queries returned for one status cycle. */
  datatype Probes = Probes(ps: Option<string>, smi: Option<string>,
                           memTotalKb: Option<nat>, memAvailableKb: Option<nat>)

  /** The state and the four numbers `build_status` reports. */
  function HostStatus(p: Probes): (t: Telemetry)
    ensures IsStateToken(t.serverState)
  {
    var vram := VramTotals(p.smi);
    var ram := RamUsage(p.memTotalKb, p.memAvailableKb);
    Telemetry(ContainerState(p.ps), vram.0, vram.1, ram.0, ram.1)
  }

  /** `build_status`. */
  function BuildStatus(p: Probes): string
  {
    EncodeStatus(HostStatus(p))
  }

  /** What the daemon does in answer to one line. */
  datatype Action = StartServer | StopServer | Send(data: string)

  /** One pass of the `main` loop over a received line. */
  function HandleLine(received: string, p: Probes): seq<Action>
  {
    var line := Strip(received);
    if line == "CMD:ON" then [StartServer, Send(BuildStatus(p) + "\n")]
    else if line == "CMD:OFF" then [StopServer, Send(BuildStatus(p) + "\n")]
    else if line == "CMD:STATUS" then [Send(BuildStatus(p) + "\n")]
    else []
  }

  /** Dispatch: ON and OFF issue one start or stop request and then one
      status write; STATUS writes the status and touches nothing; every
      other line, the empty one included, does nothing at all. */
  lemma HandleLineCases(received: string, p: Probes)
    ensures var line := Strip(received);
            var acts := HandleLine(received, p);
            var status := Send(BuildStatus(p) + "\n");
            && (line == "CMD:ON" ==> acts == [StartServer, status])
            && (line == "CMD:OFF" ==> acts == [StopServer, status])
            && (line == "CMD:STATUS" ==> acts == [status])
            && (line != "CMD:ON" && line != "CMD:OFF" && line != "CMD:STATUS" ==> acts == [])
    ensures StartServer in HandleLine(received, p) <==> Strip(received) == "CMD:ON"
    ensures StopServer in HandleLine(received, p) <==> Strip(received) == "CMD:OFF"
  {
  }

  /** Every write the daemon makes is one status line ending in a newline,
      and it writes at most once per received line, after any start or stop. */
  lemma HandleLineWrites(received: string, p: Probes)
    ensures var acts := HandleLine(received, p);
            && |acts| <= 2
            && (forall k :: 0 <= k < |acts| && acts[k].Send? ==>
                  k == |acts| - 1 && acts[k].data == BuildStatus(p) + "\n")
  {
  }

  /** End to end: the device reading the line the daemon wrote holds the
      daemon's state token and its four numbers, whatever it held before. */
  lemma BuildStatusReadBack(before: Telemetry, p: Probes)
    ensures ApplyStatus(before, BuildStatus(p)) == HostStatus(p)
  {
    StatusRoundTrip(before, HostStatus(p));
  }

  /** When the container runtime prints nothing, the daemon reports
      "stopped" (not "error"); a missing meminfo figure reports 0/0 RAM. */
  lemma EmptyPsReportsStopped(smi: Option<string>, memAvailableKb: Option<nat>)
    ensures HostStatus(Probes(Some(""), smi, None, memAvailableKb))
              == Telemetry("stopped", VramTotals(smi).0, VramTotals(smi).1, 0, 0)
  {
    assert Strip("") == "";
  }
}
