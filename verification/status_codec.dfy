/**
 * The status line the host sends and the device reads:
 * `STAT:<state>|<vram_used>|<vram_total>|<ram_used>|<ram_total>`, the four
 * numbers in MiB, base 10.
 *
 * `EncodeStatus` is the host's formatting; `ApplyStatus` is what the
 * device's `parse_status` does to its display fields. The device does not
 * update the four numbers all or nothing: it assigns them in order and
 * stops at the first field that does not read as a number, so the fields
 * before it already hold their new values.
 */
module StatusCodec {
  import opened Wrappers
  import opened Text
  import opened Decimal

  const Prefix: string := "STAT:"
  const Separator: char := '|'

  /** What one status line carries; on the device, the state token and the
      four numbers it keeps between lines. */
  datatype Telemetry = Telemetry(serverState: string, vramUsed: int, vramTotal: int,
                                 ramUsed: int, ramTotal: int)

  /** The four numbers in wire order. */
  function Numbers(t: Telemetry): (ns: seq<int>)
    ensures |ns| == 4
  {
    [t.vramUsed, t.vramTotal, t.ramUsed, t.ramTotal]
  }

  /** `t` with its `k`-th number (in wire order) replaced by `v`. */
  function SetNumber(t: Telemetry, k: nat, v: int): (u: Telemetry)
    requires k < 4
    ensures u.serverState == t.serverState
    ensures Numbers(u) == Numbers(t)[k := v]
  {
    if k == 0 then t.(vramUsed := v)
    else if k == 1 then t.(vramTotal := v)
    else if k == 2 then t.(ramUsed := v)
    else t.(ramTotal := v)
  }

  /** The five fields of the line after the prefix, as text. */
  function Fields(t: Telemetry): seq<string>
  {
    [t.serverState, IntToDecimal(t.vramUsed), IntToDecimal(t.vramTotal),
     IntToDecimal(t.ramUsed), IntToDecimal(t.ramTotal)]
  }

  /** The host's `"STAT:{}|{}|{}|{}|{}".format(...)`: the prefix, then the
      five fields joined by `|`. */
  function EncodeStatus(t: Telemetry): string
  {
    Prefix + Join(Fields(t), Separator)
  }

  /** Shape of a status line: the prefix, then exactly five `|`-separated
      fields, the state token and the four numbers in decimal, in the order
      vram used, vram total, ram used, ram total. */
  lemma EncodeStatusShape(t: Telemetry)
    requires Separator !in t.serverState
    ensures IsPrefix(Prefix, EncodeStatus(t))
    ensures Split(EncodeStatus(t)[|Prefix|..], Separator) == Fields(t)
  {
    var line := EncodeStatus(t);
    assert line[..|Prefix|] == Prefix && line[|Prefix|..] == Join(Fields(t), Separator);
    SplitJoin(Fields(t), Separator);
  }

  /** The device's reading of the four numeric fields, from the `k`-th on:
      each field that reads as a number is stored, and the first one that
      does not stops the assignment, leaving it and the later ones as they
      were. */
  function AssignNumbers(t: Telemetry, fields: seq<string>, k: nat): Telemetry
    requires |fields| == 4 && k <= 4
    decreases 4 - k
  {
    if k == 4 then t
    else match ParseInt(fields[k])
      case None => t
      case Some(v) => AssignNumbers(SetNumber(t, k, v), fields, k + 1)
  }

  /** The index of the first field, from the `k`-th on, that does not read
      as a number; 4 when they all do. */
  function FirstBad(fields: seq<string>, k: nat): (b: nat)
    requires |fields| == 4 && k <= 4
    ensures k <= b <= 4
    ensures b < 4 ==> ParseInt(fields[b]).None?
    ensures forall j :: k <= j < b ==> ParseInt(fields[j]).Some?
    decreases 4 - k
  {
    if k == 4 || ParseInt(fields[k]).None? then k else FirstBad(fields, k + 1)
  }

  /** `parse_status(line)` as a function of the fields before and after. */
  function ApplyStatus(t: Telemetry, line: string): Telemetry
  {
    if !IsPrefix(Prefix, line) then t
    else
      var parts := Split(line[|Prefix|..], Separator);
      if |parts| != 5 then t
      else AssignNumbers(t.(serverState := parts[0]), parts[1..], 0)
  }

  /** The numeric assignment is partial: the fields before the first bad one
      take their new values, that field and the later ones keep their old
      values, and the state token is left alone. */
  lemma {:induction false} AssignNumbersPartial(t: Telemetry, fields: seq<string>, k: nat)
    requires |fields| == 4 && k <= 4
    ensures AssignNumbers(t, fields, k).serverState == t.serverState
    ensures forall j :: 0 <= j < 4 ==>
      Numbers(AssignNumbers(t, fields, k))[j]
        == if k <= j < FirstBad(fields, k) then ParseInt(fields[j]).value else Numbers(t)[j]
    decreases 4 - k
  {
    if k < 4 && ParseInt(fields[k]).Some? {
      AssignNumbersPartial(SetNumber(t, k, ParseInt(fields[k]).value), fields, k + 1);
    }
  }

  /** A line without the `STAT:` prefix, or whose rest does not split into
      exactly five `|`-parts, changes nothing. */
  lemma ApplyStatusRejects(t: Telemetry, line: string)
    requires !IsPrefix(Prefix, line) || |Split(line[|Prefix|..], Separator)| != 5
    ensures ApplyStatus(t, line) == t
  {
  }

  /** A line with the prefix and five parts always takes the state token,
      whatever the numeric fields hold; the numbers are taken in order up to
      the first field that is not a number. */
  lemma ApplyStatusAccepts(t: Telemetry, line: string)
    requires IsPrefix(Prefix, line) && |Split(line[|Prefix|..], Separator)| == 5
    ensures var parts := Split(line[|Prefix|..], Separator);
            var u := ApplyStatus(t, line);
            var bad := FirstBad(parts[1..], 0);
            && u.serverState == parts[0]
            && (forall j :: 0 <= j < bad ==> Numbers(u)[j] == ParseInt(parts[1 + j]).value)
            && (forall j :: bad <= j < 4 ==> Numbers(u)[j] == Numbers(t)[j])
  {
    var parts := Split(line[|Prefix|..], Separator);
    AssignNumbersPartial(t.(serverState := parts[0]), parts[1..], 0);
  }

  /** Round trip across the link: the device reading a line the host wrote
      ends up with exactly the host's state token and four numbers,
      whatever it held before. */
  lemma StatusRoundTrip(before: Telemetry, t: Telemetry)
    requires Separator !in t.serverState
    ensures ApplyStatus(before, EncodeStatus(t)) == t
  {
    EncodeStatusShape(t);
    var fs := Fields(t);
    ParseIntOfDecimal(t.vramUsed);
    ParseIntOfDecimal(t.vramTotal);
    ParseIntOfDecimal(t.ramUsed);
    ParseIntOfDecimal(t.ramTotal);
    var u := ApplyStatus(before, EncodeStatus(t));
    AssignNumbersPartial(before.(serverState := fs[0]), fs[1..], 0);
    assert Numbers(u) == Numbers(t);
  }
}
