/**
 * The HD44780 character display behind a PCF8574 I2C expander, driven in
 * 4-bit mode. Each byte sent to the expander sets its eight output pins:
 * bit 0 is RS (0 for a command, 1 for a character), bit 2 is EN (the
 * controller latches on its falling edge), bit 3 switches the backlight and
 * bits 4-7 carry one nibble. A command or character byte therefore goes
 * out as two nibbles, each written once and then pulsed on EN: six bus
 * bytes per byte.
 *
 * The bus is modelled as the log of bytes written to the display's
 * address (`LCD.bus`); delays between writes are left out.
 */
module Lcd {
  import opened Wrappers
  import opened Text

  type Byte = bv8

  // Expander pins.
  const MaskRs: Byte := 0x01
  const MaskEn: Byte := 0x04
  const MaskBacklight: Byte := 0x08

  // Controller instructions and their flags.
  const LcdClear: Byte := 0x01
  const LcdEntryMode: Byte := 0x04
  const LcdDisplayControl: Byte := 0x08
  const LcdFunctionSet: Byte := 0x20
  const LcdSetDdram: Byte := 0x80
  const LcdEntryIncrement: Byte := 0x02
  const LcdDisplayOn: Byte := 0x04
  const LcdFunctionTwoLines: Byte := 0x08
  const LcdFunctionFourBit: Byte := 0x00

  /** Display memory address of the first column of each row. */
  const LineAddrs: seq<int> := [0x00, 0x40]

  /** The backlight bit is either on or off; no other pin is ever held. */
  predicate IsBacklight(bl: Byte)
  {
    bl == MaskBacklight || bl == 0
  }

  // ---------------------------------------------------------------------
  // Address choice

  /** `_scan` given the addresses that answered on the bus: 0x27 if present,
      else 0x3F if present, else the first one found; `None` is the
      "No I2C device found" error. */
  function Scan(devices: seq<int>): (r: Option<int>)
    ensures r.None? <==> devices == []
    ensures r.Some? ==> r.value in devices
    ensures 0x27 in devices ==> r == Some(0x27)
    ensures 0x3F in devices && 0x27 !in devices ==> r == Some(0x3F)
    ensures r.Some? && r.value != 0x27 && r.value != 0x3F ==>
              0x27 !in devices && 0x3F !in devices && r.value == devices[0]
  {
    if 0x27 in devices then Some(0x27)
    else if 0x3F in devices then Some(0x3F)
    else if devices != [] then Some(devices[0])
    else None
  }

  // ---------------------------------------------------------------------
  // Bytes on the bus

  /** The three bytes `_write_nibble(v)` sends: `v` itself, then the EN
      pulse (`v` with EN set, then with EN clear), each with the backlight
      bit added. */
  function NibbleBytes(v: Byte, bl: Byte): seq<Byte>
  {
    [v | bl, (v | MaskEn) | bl, (v & !MaskEn) | bl]
  }

  /** The EN pulse: the three bytes of a nibble agree on every pin except
      EN, which is set in the second and clear in the third, and all three
      carry the backlight bit. */
  lemma NibblePulse(v: Byte, bl: Byte)
    requires IsBacklight(bl) && v & MaskEn == 0
    ensures var bs := NibbleBytes(v, bl);
            && |bs| == 3
            && bs[0] & !MaskEn == bs[1] & !MaskEn == bs[2] & !MaskEn == v | bl
            && bs[1] & MaskEn == MaskEn && bs[0] & MaskEn == 0 && bs[2] & MaskEn == 0
  {
  }

  /** The high-nibble byte `_write(val, mode)` sends. */
  function HighNibble(val: Byte, mode: Byte): Byte
  {
    (val & 0xF0) | mode
  }

  /** The low-nibble byte `_write(val, mode)` sends. */
  function LowNibble(val: Byte, mode: Byte): Byte
  {
    ((val << 4) & 0xF0) | mode
  }

  /** The two nibbles put back together give the byte, and both carry the
      mode bits untouched. */
  lemma NibbleSplit(val: Byte, mode: Byte)
    requires mode & 0xF0 == 0
    ensures (HighNibble(val, mode) & 0xF0) | ((LowNibble(val, mode) & 0xF0) >> 4) == val
    ensures HighNibble(val, mode) & 0x0F == mode && LowNibble(val, mode) & 0x0F == mode
  {
  }

  /** One `_write(val, mode)` on the bus. */
  function WriteBytes(val: Byte, mode: Byte, bl: Byte): seq<Byte>
  {
    NibbleBytes(HighNibble(val, mode), bl) + NibbleBytes(LowNibble(val, mode), bl)
  }

  /** One byte handed to the controller: a command (`_cmd`, RS clear) or a
      character (`_data`, RS set). */
  datatype Transfer = Transfer(isData: bool, value: Byte)

  function Command(value: Byte): Transfer
  {
    Transfer(false, value)
  }

  function ModeOf(t: Transfer): Byte
  {
    if t.isData then MaskRs else 0
  }

  function TransferBytes(t: Transfer, bl: Byte): (bs: seq<Byte>)
    ensures |bs| == 6
  {
    WriteBytes(t.value, ModeOf(t), bl)
  }

  /** The bus bytes of a run of transfers, six per transfer. */
  function EncodeTransfers(ts: seq<Transfer>, bl: Byte): (bs: seq<Byte>)
    ensures |bs| == 6 * |ts|
  {
    if ts == [] then [] else TransferBytes(ts[0], bl) + EncodeTransfers(ts[1..], bl)
  }

  /** The transfer the controller latches from six bus bytes: RS from the
      first byte, the high nibble from the first and the low nibble from
      the fourth. */
  function DecodeOne(bs: seq<Byte>): Transfer
    requires |bs| >= 6
  {
    Transfer(bs[0] & MaskRs != 0, (bs[0] & 0xF0) | ((bs[3] & 0xF0) >> 4))
  }

  /** What the controller reads off the bus, six bytes at a time. */
  function DecodeTransfers(bs: seq<Byte>): (ts: seq<Transfer>)
    requires |bs| % 6 == 0
    ensures |ts| == |bs| / 6
  {
    if bs == [] then [] else [DecodeOne(bs)] + DecodeTransfers(bs[6..])
  }

  /** The controller, reading the bytes `bs`, latches exactly the
      commands and characters `ts`. */
  predicate ReadsBack(bs: seq<Byte>, ts: seq<Transfer>)
  {
    |bs| % 6 == 0 && DecodeTransfers(bs) == ts
  }

  /** One transfer survives the trip over the bus. */
  lemma DecodeOneTransfer(t: Transfer, bl: Byte)
    requires IsBacklight(bl)
    ensures DecodeOne(TransferBytes(t, bl)) == t
  {
    var bs := TransferBytes(t, bl);
    var m := ModeOf(t);
    assert bs[0] == HighNibble(t.value, m) | bl;
    assert bs[3] == LowNibble(t.value, m) | bl;
    assert (bs[0] & 0xF0) | ((bs[3] & 0xF0) >> 4) == t.value;
    assert (bs[0] & MaskRs != 0) == t.isData;
  }

  /** The bytes of two runs of transfers are the bytes of each, in order. */
  lemma {:induction false} EncodeConcat(a: seq<Transfer>, b: seq<Transfer>, bl: Byte)
    ensures EncodeTransfers(a + b, bl) == EncodeTransfers(a, bl) + EncodeTransfers(b, bl)
  {
    if a == [] {
      assert a + b == b;
    } else {
      EncodeConcat(a[1..], b, bl);
      assert (a + b)[0] == a[0];
      assert (a + b)[1..] == a[1..] + b;
      var x, y, z := TransferBytes(a[0], bl), EncodeTransfers(a[1..], bl), EncodeTransfers(b, bl);
      assert EncodeTransfers(a, bl) == x + y;
      calc {
        EncodeTransfers(a + b, bl);
        x + EncodeTransfers(a[1..] + b, bl);
        x + (y + z);
        { Assoc(x, y, z); }
        (x + y) + z;
      }
    }
  }

  lemma Assoc(x: seq<Byte>, y: seq<Byte>, z: seq<Byte>)
    ensures x + (y + z) == (x + y) + z
  {
  }

  lemma EncodeAppend(a: seq<Transfer>, t: Transfer, bl: Byte)
    ensures EncodeTransfers(a + [t], bl) == EncodeTransfers(a, bl) + TransferBytes(t, bl)
  {
    EncodeConcat(a, [t], bl);
    assert EncodeTransfers([t], bl) == TransferBytes(t, bl) + EncodeTransfers([], bl);
  }

  /** The controller reads back exactly the commands and characters sent,
      whichever way the backlight is set. */
  lemma {:induction false} DecodeEncode(ts: seq<Transfer>, bl: Byte)
    requires IsBacklight(bl)
    ensures DecodeTransfers(EncodeTransfers(ts, bl)) == ts
  {
    if ts != [] {
      var bs := EncodeTransfers(ts, bl);
      var first := TransferBytes(ts[0], bl);
      assert bs == first + EncodeTransfers(ts[1..], bl);
      assert bs[6..] == EncodeTransfers(ts[1..], bl);
      assert bs[0] == first[0] && bs[3] == first[3];
      DecodeOneTransfer(ts[0], bl);
      DecodeEncode(ts[1..], bl);
    }
  }

  /** The three bytes of one nibble all carry the backlight bit. */
  lemma NibbleKeepsBacklight(v: Byte, bl: Byte)
    ensures forall k :: 0 <= k < 3 ==> NibbleBytes(v, bl)[k] & bl == bl
  {
  }

  /** The six bytes of one transfer all carry the backlight bit. */
  lemma TransferKeepsBacklight(t: Transfer, bl: Byte)
    ensures forall k :: 0 <= k < 6 ==> TransferBytes(t, bl)[k] & bl == bl
  {
    var hi := NibbleBytes(HighNibble(t.value, ModeOf(t)), bl);
    var lo := NibbleBytes(LowNibble(t.value, ModeOf(t)), bl);
    NibbleKeepsBacklight(HighNibble(t.value, ModeOf(t)), bl);
    NibbleKeepsBacklight(LowNibble(t.value, ModeOf(t)), bl);
    assert TransferBytes(t, bl) == hi + lo;
    forall k | 0 <= k < 6 ensures TransferBytes(t, bl)[k] & bl == bl {
      if k < 3 {
        assert TransferBytes(t, bl)[k] == hi[k];
      } else {
        assert TransferBytes(t, bl)[k] == lo[k - 3];
      }
    }
  }

  /** Every bus byte carries the backlight bit. */
  lemma {:induction false} EncodeKeepsBacklight(ts: seq<Transfer>, bl: Byte)
    ensures forall k :: 0 <= k < |EncodeTransfers(ts, bl)| ==> EncodeTransfers(ts, bl)[k] & bl == bl
  {
    if ts != [] {
      var rest := EncodeTransfers(ts[1..], bl);
      var first := TransferBytes(ts[0], bl);
      EncodeKeepsBacklight(ts[1..], bl);
      TransferKeepsBacklight(ts[0], bl);
      assert EncodeTransfers(ts, bl) == first + rest;
      forall k | 0 <= k < |EncodeTransfers(ts, bl)|
        ensures EncodeTransfers(ts, bl)[k] & bl == bl
      {
        if k < 6 {
          assert EncodeTransfers(ts, bl)[k] == first[k];
        } else {
          assert EncodeTransfers(ts, bl)[k] == rest[k - 6];
        }
      }
    }
  }

  /** The character code `putstr` hands to `_data` for `c`: `ord(c)`, of
      which only the low byte reaches the bus. */
  function CharByte(c: char): Byte
  {
    ((c as int) % 256) as Byte
  }

  /** `putstr(s)` as transfers: one character write per character. */
  function DataTransfers(s: string): (ts: seq<Transfer>)
    ensures |ts| == |s|
    ensures forall k :: 0 <= k < |s| ==> ts[k] == Transfer(true, CharByte(s[k]))
  {
    if s == [] then [] else [Transfer(true, CharByte(s[0]))] + DataTransfers(s[1..])
  }

  lemma DataTransfersStep(s: string, i: nat)
    requires i < |s|
    ensures DataTransfers(s[..i + 1]) == DataTransfers(s[..i]) + [Transfer(true, CharByte(s[i]))]
  {
    var a := DataTransfers(s[..i + 1]);
    var b := DataTransfers(s[..i]) + [Transfer(true, CharByte(s[i]))];
    assert |a| == |b|;
    forall k | 0 <= k < |a| ensures a[k] == b[k] {
      assert s[..i + 1][k] == s[k];
    }
  }

  /** The Set-DDRAM-address command `move_to(col, row)` sends; a negative
      row counts from the end of `LineAddrs`, as Python indexing does. The
      address is reduced to its low byte, the only part that reaches the bus. */
  function DdramCommand(col: int, row: int): Byte
    requires -|LineAddrs| <= row < |LineAddrs|
  {
    var base := LineAddrs[if row < 0 then row + |LineAddrs| else row];
    LcdSetDdram | (((base + col) % 256) as Byte)
  }

  /** Inside a row, the cursor command has the Set-DDRAM-address bit (0x80)
      set and carries the row's base address plus the column in its low
      seven bits. */
  lemma DdramCommandValue(col: int, row: int)
    requires 0 <= row < 2 && 0 <= col < 0x40
    ensures DdramCommand(col, row) & 0x80 == 0x80
    ensures DdramCommand(col, row) & 0x7F == (LineAddrs[row] + col) as Byte
  {
    var a := LineAddrs[row] + col;
    assert 0 <= a < 0x80 && a % 256 == a;
    var b := a as Byte;
    assert b < 0x80;
    assert DdramCommand(col, row) == LcdSetDdram | b;
  }

  /** Everything `show(line1, line2)` sends, in order: cursor to row 0,
      the first line padded to `cols`, cursor to row 1, the second line
      padded to `cols`. */
  function ShowTransfers(line1: string, line2: string, cols: nat): seq<Transfer>
  {
    [Command(DdramCommand(0, 0))] + DataTransfers(FitWidth(line1, cols))
      + [Command(DdramCommand(0, 1))] + DataTransfers(FitWidth(line2, cols))
  }

  /** The layout of a `show`: 2 cursor commands (0x80, then 0xC0) and
      exactly `cols` characters per row, `line1` then `line2`, each cut or
      space-padded to the width. */
  lemma ShowLayout(line1: string, line2: string, cols: nat)
    ensures var ts := ShowTransfers(line1, line2, cols);
            && |ts| == 2 * cols + 2
            && ts[0] == Command(0x80) && ts[cols + 1] == Command(0xC0)
            && (forall k :: 0 <= k < cols ==>
                  ts[1 + k] == Transfer(true, CharByte(if k < |line1| then line1[k] else ' ')))
            && (forall k :: 0 <= k < cols ==>
                  ts[cols + 2 + k] == Transfer(true, CharByte(if k < |line2| then line2[k] else ' ')))
  {
    var ts := ShowTransfers(line1, line2, cols);
    var d1 := DataTransfers(FitWidth(line1, cols));
    var d2 := DataTransfers(FitWidth(line2, cols));
    RowStarts();
    assert ts == [Command(0x80)] + d1 + [Command(0xC0)] + d2;
    forall k | 0 <= k < cols
      ensures ts[1 + k] == d1[k] && ts[cols + 2 + k] == d2[k]
    {
    }
  }

  /** Column 0 of row 0 is DDRAM address 0x00, of row 1 address 0x40. */
  lemma RowStarts()
    ensures DdramCommand(0, 0) == 0x80 && DdramCommand(0, 1) == 0xC0
  {
  }

  /** The four commands that end the initialisation: function set (4-bit,
      two lines), display on, clear, entry mode (increment). */
  function InitCommands(): seq<Transfer>
  {
    [Command(LcdFunctionSet | LcdFunctionFourBit | LcdFunctionTwoLines),
     Command(LcdDisplayControl | LcdDisplayOn),
     Command(LcdClear),
     Command(LcdEntryMode | LcdEntryIncrement)]
  }

  /** Regrouping of the pieces of the initialisation stream. */
  lemma Concat6(b: seq<Byte>, w: seq<Byte>, n: seq<Byte>, t0: seq<Byte>, t1: seq<Byte>,
                t2: seq<Byte>, t3: seq<Byte>)
    ensures b + w + n + t0 + t1 + t2 + t3 == b + (w + (n + t0 + t1 + t2 + t3))
  {
  }

  /** Regrouping of five consecutive pieces of a byte stream, to the right. */
  lemma Regroup(p: seq<Byte>, a: seq<Byte>, b: seq<Byte>, c: seq<Byte>, d: seq<Byte>)
    ensures p + a + b + c + d == p + (a + (b + (c + d)))
  {
  }

  /** Regrouping of five consecutive pieces of a byte stream. */
  lemma Concat4(b: seq<Byte>, e0: seq<Byte>, e1: seq<Byte>, e2: seq<Byte>, e3: seq<Byte>)
    ensures b + e0 + e1 + e2 + e3 == b + (e0 + e1 + e2 + e3)
  {
  }

  /** The bytes of a `show`, piece by piece. */
  lemma ShowBytes(line1: string, line2: string, cols: nat, bl: Byte)
    ensures EncodeTransfers(ShowTransfers(line1, line2, cols), bl)
              == EncodeTransfers([Command(DdramCommand(0, 0))], bl)
                 + EncodeTransfers(DataTransfers(FitWidth(line1, cols)), bl)
                 + EncodeTransfers([Command(DdramCommand(0, 1))], bl)
                 + EncodeTransfers(DataTransfers(FitWidth(line2, cols)), bl)
  {
    var c0 := [Command(DdramCommand(0, 0))];
    var c1 := [Command(DdramCommand(0, 1))];
    var d1 := DataTransfers(FitWidth(line1, cols));
    var d2 := DataTransfers(FitWidth(line2, cols));
    EncodeConcat(c0, d1, bl);
    EncodeConcat(c0 + d1, c1, bl);
    EncodeConcat(c0 + d1 + c1, d2, bl);
  }

  /** `n` copies of the 0x30 wake-up nibble. */
  function WakeUps(n: nat, bl: Byte): (bs: seq<Byte>)
    ensures |bs| == 3 * n
  {
    if n == 0 then [] else WakeUps(n - 1, bl) + NibbleBytes(0x30, bl)
  }

  /** What `_init_display` sends after the wake-ups: the switch to 4-bit
      mode, then the four set-up commands one after the other. */
  function SetUpBytes(bl: Byte): seq<Byte>
  {
    NibbleBytes(0x20, bl)
    + TransferBytes(Command(LcdFunctionSet | LcdFunctionFourBit | LcdFunctionTwoLines), bl)
    + TransferBytes(Command(LcdDisplayControl | LcdDisplayOn), bl)
    + TransferBytes(Command(LcdClear), bl)
    + TransferBytes(Command(LcdEntryMode | LcdEntryIncrement), bl)
  }

  /** Everything `_init_display` sends. */
  function InitBytes(bl: Byte): seq<Byte>
  {
    WakeUps(3, bl) + SetUpBytes(bl)
  }

  /** The four set-up commands are the encoding of `InitCommands`. */
  lemma InitCommandsBytes(bl: Byte)
    ensures InitBytes(bl)[12..] == EncodeTransfers(InitCommands(), bl)
  {
    var w, nb, e := WakeUps(3, bl), NibbleBytes(0x20, bl), EncodeTransfers(InitCommands(), bl);
    SetUpSplit(bl);
    Assoc(w, nb, e);
    DropFront(w + nb, e);
  }

  /** Dropping a prefix from a concatenation leaves the rest. */
  lemma DropFront(a: seq<Byte>, b: seq<Byte>)
    ensures (a + b)[|a|..] == b
  {
  }

  /** After the 4-bit switch, `_init_display` sends the encoding of
      `InitCommands`. */
  lemma SetUpSplit(bl: Byte)
    ensures SetUpBytes(bl) == NibbleBytes(0x20, bl) + EncodeTransfers(InitCommands(), bl)
  {
    var cs := InitCommands();
    EncodeFourAfter(NibbleBytes(0x20, bl), cs, bl);
  }

  /** Four transfers sent one after the other, after some prefix `p`. */
  lemma EncodeFourAfter(p: seq<Byte>, cs: seq<Transfer>, bl: Byte)
    requires |cs| == 4
    ensures p + TransferBytes(cs[0], bl) + TransferBytes(cs[1], bl) + TransferBytes(cs[2], bl)
              + TransferBytes(cs[3], bl)
            == p + EncodeTransfers(cs, bl)
  {
    var t0, t1, t2, t3 := TransferBytes(cs[0], bl), TransferBytes(cs[1], bl),
                          TransferBytes(cs[2], bl), TransferBytes(cs[3], bl);
    assert EncodeTransfers(cs[3..], bl) == t3 + EncodeTransfers([], bl);
    assert EncodeTransfers(cs[2..], bl) == t2 + EncodeTransfers(cs[3..], bl);
    assert EncodeTransfers(cs[1..], bl) == t1 + EncodeTransfers(cs[2..], bl);
    assert EncodeTransfers(cs, bl) == t0 + (t1 + (t2 + t3));
    Regroup(p, t0, t1, t2, t3);
  }

  /** The initialisation: nibble 0x30 three times, nibble 0x20, then the
      commands 0x28, 0x0C, 0x01, 0x06 in that order. */
  lemma InitSequence(bl: Byte)
    requires IsBacklight(bl)
    ensures var bs := InitBytes(bl);
            && |bs| == 36
            && bs[..12] == NibbleBytes(0x30, bl) + NibbleBytes(0x30, bl) + NibbleBytes(0x30, bl)
                           + NibbleBytes(0x20, bl)
            && DecodeTransfers(bs[12..]) == [Command(0x28), Command(0x0C), Command(0x01), Command(0x06)]
  {
    var bs := InitBytes(bl);
    assert WakeUps(3, bl) == NibbleBytes(0x30, bl) + NibbleBytes(0x30, bl) + NibbleBytes(0x30, bl);
    InitCommandsBytes(bl);
    DecodeEncode(InitCommands(), bl);
  }

  // ---------------------------------------------------------------------
  // The driver object

  /** `LCD`: the display at `addr`, `cols` by `rows`, with its backlight
      bit; `bus` is every byte written to it so far. */
  class LCD {
    var addr: int
    const cols: nat
    const rows: nat
    var backlight: Byte
    var bus: seq<Byte>

    ghost predicate Valid()
      reads this
    {
      IsBacklight(backlight)
    }

    /** `LCD(i2c, addr, cols, rows)`: take the given address or scan for
        one (the scan must find a device), then initialise the display
        with the backlight on. */
    constructor (devices: seq<int>, addr: Option<int>, cols: nat, rows: nat)
      requires addr.Some? || devices != []
      ensures Valid()
      ensures this.addr == if addr.Some? then addr.value else Scan(devices).value
      ensures this.cols == cols && this.rows == rows && backlight == MaskBacklight
      ensures bus == InitBytes(MaskBacklight)
    {
      this.cols := cols;
      this.rows := rows;
      backlight := MaskBacklight;
      bus := [];
      if addr.Some? {
        this.addr := addr.value;
      } else {
        this.addr := Scan(devices).value;
      }
      new;
      InitDisplay();
    }

    /** `_write_byte`: one byte on the bus, with the backlight bit added. */
    method WriteByte(val: Byte)
      modifies this`bus
      ensures bus == old(bus) + [val | backlight]
    {
      bus := bus + [val | backlight];
    }

    /** `_pulse_enable`: `val` with EN set, then with EN clear. */
    method PulseEnable(val: Byte)
      modifies this`bus
      ensures bus == old(bus) + [(val | MaskEn) | backlight, (val & !MaskEn) | backlight]
    {
      WriteByte(val | MaskEn);
      WriteByte(val & !MaskEn);
    }

    /** `_write_nibble`: the nibble, then its EN pulse. */
    method WriteNibble(val: Byte)
      modifies this`bus
      ensures bus == old(bus) + NibbleBytes(val, backlight)
    {
      WriteByte(val);
      PulseEnable(val);
    }

    /** `_write(val, mode)`: high nibble, then low nibble, each with the
        mode bits. */
    method Write(val: Byte, mode: Byte)
      modifies this`bus
      ensures bus == old(bus) + WriteBytes(val, mode, backlight)
    {
      WriteNibble((val & 0xF0) | mode);
      WriteNibble(((val << 4) & 0xF0) | mode);
    }

    /** `_cmd`: a write with RS clear. */
    method Cmd(val: Byte)
      modifies this`bus
      ensures bus == old(bus) + TransferBytes(Command(val), backlight)
    {
      Write(val, 0);
    }

    /** `_data`: a write with RS set. */
    method Data(val: Byte)
      modifies this`bus
      ensures bus == old(bus) + TransferBytes(Transfer(true, val), backlight)
    {
      Write(val, MaskRs);
    }

    /** `_init_display`: the 4-bit mode wake-up and set-up sequence. */
    method InitDisplay()
      modifies this`bus
      ensures bus == old(bus) + InitBytes(backlight)
    {
      ghost var bl := backlight;
      for i := 0 to 3
        invariant bus == old(bus) + WakeUps(i, bl)
      {
        WriteNibble(0x30);
      }
      ghost var woken := bus;
      ghost var n, t0, t1, t2, t3 := NibbleBytes(0x20, bl),
        TransferBytes(Command(LcdFunctionSet | LcdFunctionFourBit | LcdFunctionTwoLines), bl),
        TransferBytes(Command(LcdDisplayControl | LcdDisplayOn), bl),
        TransferBytes(Command(LcdClear), bl),
        TransferBytes(Command(LcdEntryMode | LcdEntryIncrement), bl);
      WriteNibble(0x20);
      assert bus == woken + n;
      Cmd(LcdFunctionSet | LcdFunctionFourBit | LcdFunctionTwoLines);
      assert bus == woken + n + t0;
      Cmd(LcdDisplayControl | LcdDisplayOn);
      assert bus == woken + n + t0 + t1;
      Cmd(LcdClear);
      assert bus == woken + n + t0 + t1 + t2;
      Cmd(LcdEntryMode | LcdEntryIncrement);
      assert bus == woken + n + t0 + t1 + t2 + t3;
      Concat6(old(bus), WakeUps(3, bl), n, t0, t1, t2, t3);
    }

    /** `clear`. */
    method Clear()
      modifies this`bus
      ensures bus == old(bus) + EncodeTransfers([Command(LcdClear)], backlight)
    {
      Cmd(LcdClear);
    }

    /** `move_to(col, row)`; a row outside `LineAddrs` is the `IndexError`
        Python raises, which no caller provokes. */
    method MoveTo(col: int, row: int)
      requires -|LineAddrs| <= row < |LineAddrs|
      modifies this`bus
      ensures bus == old(bus) + EncodeTransfers([Command(DdramCommand(col, row))], backlight)
    {
      var a := LcdSetDdram | (((LineAddrs[if row < 0 then row + |LineAddrs| else row] + col) % 256) as Byte);
      Cmd(a);
    }

    /** `putstr`: one character write per character. */
    method PutStr(s: string)
      modifies this`bus
      ensures bus == old(bus) + EncodeTransfers(DataTransfers(s), backlight)
      ensures Valid() ==> ReadsBack(bus[|old(bus)|..], DataTransfers(s))
    {
      ghost var bl, b0 := backlight, bus;
      for i := 0 to |s|
        invariant bl == backlight
        invariant bus == b0 + EncodeTransfers(DataTransfers(s[..i]), bl)
      {
        ghost var before, t := DataTransfers(s[..i]), Transfer(true, CharByte(s[i]));
        Data(CharByte(s[i]));
        assert bus == b0 + EncodeTransfers(before, bl) + TransferBytes(t, bl);
        DataTransfersStep(s, i);
        EncodeAppend(before, t, bl);
        Assoc(b0, EncodeTransfers(before, bl), TransferBytes(t, bl));
      }
      assert s[..|s|] == s;
      DropFront(b0, EncodeTransfers(DataTransfers(s), bl));
      if Valid() {
        DecodeEncode(DataTransfers(s), bl);
      }
    }

    /** `_pad`: the text cut or space-padded to the display width. */
    function Pad(text: string): (r: string)
      reads this
      ensures |r| == cols
      ensures forall k :: 0 <= k < cols ==> r[k] == if k < |text| then text[k] else ' '
    {
      FitWidth(text, cols)
    }

    /** `show(line1, line2)`. */
    method Show(line1: string, line2: string)
      modifies this`bus
      ensures bus == old(bus) + EncodeTransfers(ShowTransfers(line1, line2, cols), backlight)
      ensures Valid() ==> ReadsBack(bus[|old(bus)|..], ShowTransfers(line1, line2, cols))
    {
      ghost var b0 := bus;
      ghost var e0 := EncodeTransfers([Command(DdramCommand(0, 0))], backlight);
      ghost var e1 := EncodeTransfers(DataTransfers(FitWidth(line1, cols)), backlight);
      ghost var e2 := EncodeTransfers([Command(DdramCommand(0, 1))], backlight);
      ghost var e3 := EncodeTransfers(DataTransfers(FitWidth(line2, cols)), backlight);
      MoveTo(0, 0);
      PutStr(Pad(line1));
      MoveTo(0, 1);
      PutStr(Pad(line2));
      assert bus == b0 + e0 + e1 + e2 + e3;
      ShowBytes(line1, line2, cols, backlight);
      Concat4(b0, e0, e1, e2, e3);
      DropFront(b0, EncodeTransfers(ShowTransfers(line1, line2, cols), backlight));
      if Valid() {
        DecodeEncode(ShowTransfers(line1, line2, cols), backlight);
      }
    }

    /** `set_backlight(on)`: switch the backlight bit and write it out on
        its own. */
    method SetBacklight(on: bool)
      modifies this`backlight, this`bus
      ensures backlight == if on then MaskBacklight else 0
      ensures bus == old(bus) + [backlight]
      ensures Valid()
    {
      backlight := if on then MaskBacklight else 0;
      WriteByte(0);
    }
  }
}
