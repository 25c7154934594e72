/**
 * The MAX7219 8x8 LED matrix driver of the ultrasonic board
 * (esp32-wifi-ultrasonic/src/matrix/mod.rs): three output lines (DIN, CLK,
 * CS) bit-banged through a `Port`, every pin error propagated with `?`.
 *
 * Each operation is specified by the events it puts on the wire when no
 * write fails (`...Events`) together with the `?` semantics of `Gpio.Run`:
 * on a failed write the operation returns `false` and the wire holds exactly
 * the events before that write.
 */
module Matrix {
  import opened Bits
  import opened Gpio
  import opened Decimal
  import opened Wrappers

  /** MAX7219 register addresses. */
  const REG_DECODE_MODE: Byte := 0x09
  const REG_INTENSITY: Byte := 0x0A
  const REG_SCAN_LIMIT: Byte := 0x0B
  const REG_SHUTDOWN: Byte := 0x0C
  const REG_DISPLAY_TEST: Byte := 0x0F

  /** One 16-bit MAX7219 command: a register address and the byte written to it. */
  datatype Command = Command(reg: Byte, data: Byte)

  /** `new`: CS high, CLK low, DIN low. */
  function NewEvents(): seq<Event> {
    [Write(Cs, true), Write(Clk, false), Write(Din, false)]
  }

  /** `send_bit`: DIN takes the bit, then one clock pulse of 1 µs high and 1 µs low. */
  function BitEvents(bit: bool): seq<Event> {
    [Write(Din, bit), Write(Clk, true), Wait(1), Write(Clk, false), Wait(1)]
  }

  /** `send_byte`: the eight bits, most significant first; events 5i to 5i + 4 clock out bit 7 - i. */
  function ByteEvents(b: Byte): (es: seq<Event>)
    ensures |es| == 40
  {
    seq(40, k requires 0 <= k < 40 => BitEvents(Bit(b, 7 - k / 5))[k % 5])
  }

  /** `send_command`: CS low, register byte, data byte, CS high. */
  function CommandEvents(c: Command): (es: seq<Event>)
    ensures |es| == 82
  {
    seq(82, k requires 0 <= k < 82 =>
      if k == 0 then Write(Cs, false)
      else if k <= 40 then ByteEvents(c.reg)[k - 1]
      else if k <= 80 then ByteEvents(c.data)[k - 41]
      else Write(Cs, true))
  }

  /** Bit i of a byte is clocked out by the i-th `send_bit` of `send_byte`. */
  lemma ByteEventsStep(b: Byte, i: nat)
    requires i < 8
    ensures ByteEvents(b)[..5 * (i + 1)] == ByteEvents(b)[..5 * i] + BitEvents(Bit(b, 7 - i))
  {
    var es := ByteEvents(b);
    var bits := BitEvents(Bit(b, 7 - i));
    forall j | 0 <= j < 5
      ensures es[5 * i + j] == bits[j]
    {
      SplitFive(i, j);
    }
  }

  /** `send_byte` is `send_bit` of each bit, most significant first. */
  lemma ByteEventsBits(b: Byte)
    ensures ByteEvents(b) == Flatten(MsbBits(b), BitEvents)
  {
    ByteEventsPrefix(b, 8);
    assert ByteEvents(b)[..40] == ByteEvents(b);
    assert MsbBits(b)[..8] == MsbBits(b);
  }

  lemma {:induction false} ByteEventsPrefix(b: Byte, i: nat)
    requires i <= 8
    ensures ByteEvents(b)[..5 * i] == Flatten(MsbBits(b)[..i], BitEvents)
  {
    if i > 0 {
      ByteEventsPrefix(b, i - 1);
      ByteEventsStep(b, i - 1);
      assert MsbBits(b)[..i] == MsbBits(b)[..i - 1] + [MsbBits(b)[i - 1]];
      FlattenSnoc(MsbBits(b)[..i - 1], MsbBits(b)[i - 1], BitEvents);
    }
  }

  /** A command frame is CS low, the register byte, the data byte and CS high. */
  lemma CommandEventsSplit(c: Command)
    ensures CommandEvents(c) == [Write(Cs, false)] + ByteEvents(c.reg) + ByteEvents(c.data) + [Write(Cs, true)]
  {
  }

  /** A command addresses one of the eight digit (row) registers. */
  predicate IsRow(c: Command) {
    1 <= c.reg <= 8
  }

  /** `display_row`: rows outside 1..8 are ignored without touching the wire. */
  function RowEvents(c: Command): (es: seq<Event>)
    ensures IsRow(c) ==> es == CommandEvents(c)
    ensures !IsRow(c) ==> es == []
  {
    if IsRow(c) then CommandEvents(c) else []
  }

  /** Row index i (from 0) addresses digit register i + 1. */
  lemma RowInRange(i: nat, d: Byte)
    requires i < 8
    ensures IsRow(Command((i + 1) as Byte, d))
  {
    match i
    case 0 => case 1 => case 2 => case 3 => case 4 => case 5 => case 6 => case 7 =>
  }

  /** The commands `init` sends, in order: set-up, blank rows, display on. */
  function InitCommands(): (cs: seq<Command>)
    ensures |cs| == 13
  {
    SetupCommands() + ClearCommands() + [Command(REG_SHUTDOWN, 1)]
  }

  /** Display test off, no decoding, all eight rows scanned, intensity 7 of 15. */
  function SetupCommands(): (cs: seq<Command>)
    ensures |cs| == 4
  {
    [Command(REG_DISPLAY_TEST, 0), Command(REG_DECODE_MODE, 0), Command(REG_SCAN_LIMIT, 7), Command(REG_INTENSITY, 0x07)]
  }

  /** The commands `clear` sends: 0 to rows 1 to 8 in increasing order. */
  function ClearCommands(): (cs: seq<Command>)
    ensures |cs| == 8
    ensures forall r :: 0 <= r < 8 ==> cs[r] == Command((r + 1) as Byte, 0)
  {
    seq(8, r requires 0 <= r < 8 => Command((r + 1) as Byte, 0))
  }

  /** The byte `display_pattern` computes for one row: bit c set iff cell c is lit. */
  function RowByte(row: seq<Byte>): (b: Byte)
    requires |row| == 8
    ensures forall c :: 0 <= c < 8 ==> Bit(b, c) == (row[c] != 0)
  {
    var bits := seq(8, c requires 0 <= c < 8 => row[c] != 0);
    LsbBitsOfFromLsb(bits);
    FromLsb(bits)
  }

  /** An 8x8 grid of cells, as `display_pattern` receives it. */
  predicate IsGrid(pattern: seq<seq<Byte>>) {
    |pattern| == 8 && forall r :: 0 <= r < 8 ==> |pattern[r]| == 8
  }

  /** The commands `display_pattern` sends: row r + 1 gets the packed cells of `pattern[r]`. */
  function PatternCommands(pattern: seq<seq<Byte>>): (cs: seq<Command>)
    requires IsGrid(pattern)
    ensures |cs| == 8 && forall r :: 0 <= r < 8 ==> cs[r].reg == (r + 1) as Byte && IsRow(cs[r])
  {
    seq(8, r requires 0 <= r < 8 => Command((r + 1) as Byte, RowByte(pattern[r])))
  }

  /** The characters `get_char_pattern` has a glyph for. */
  const GLYPHS: seq<char> := "HELOWRD!0123456789"

  /** `get_char_pattern`: the glyph of a character, blank for every character without one. */
  function CharPattern(ch: char): (p: Byte)
    ensures p != 0 <==> ch in GLYPHS
  {
    match ch
    case 'H' => 0x5D case 'E' => 0x79 case 'L' => 0x49 case 'O' => 0x3C
    case 'W' => 0x5D case 'R' => 0x7C case 'D' => 0x3D case '!' => 0x10
    case '0' => 0x3C case '1' => 0x18 case '2' => 0x76 case '3' => 0x73
    case '4' => 0x59 case '5' => 0x6B case '6' => 0x6F case '7' => 0x0E
    case '8' => 0xFE case '9' => 0xDE
    case _ => 0x00
  }

  /** The bit reversal `display_number` applies to each glyph. */
  function Mirror(p: Byte): (r: Byte)
    ensures forall k :: 0 <= k < 8 ==> Bit(r, k) == Bit(p, 7 - k)
  {
    var r := ((p & 0x01) << 7) | ((p & 0x02) << 5) | ((p & 0x04) << 3) | ((p & 0x08) << 1) |
             ((p & 0x10) >> 1) | ((p & 0x20) >> 3) | ((p & 0x40) >> 5) | ((p & 0x80) >> 7);
    MirrorBits(p, r);
    r
  }

  lemma MirrorBits(p: Byte, r: Byte)
    requires r == ((p & 0x01) << 7) | ((p & 0x02) << 5) | ((p & 0x04) << 3) | ((p & 0x08) << 1) |
                  ((p & 0x10) >> 1) | ((p & 0x20) >> 3) | ((p & 0x40) >> 5) | ((p & 0x80) >> 7)
    ensures forall k :: 0 <= k < 8 ==> Bit(r, k) == Bit(p, 7 - k)
  {
    forall k | 0 <= k < 8
      ensures Bit(r, k) == Bit(p, 7 - k)
    {
      match k
      case 0 => case 1 => case 2 => case 3 => case 4 => case 5 => case 6 => case 7 =>
    }
  }

  /** Mirroring a glyph twice gives it back. */
  lemma MirrorInvolution(p: Byte)
    ensures Mirror(Mirror(p)) == p
  {
    SameBits(Mirror(Mirror(p)), p);
  }

  /** The digits `display_number` shows: the first four characters of the decimal text. */
  function Leading(n: nat): (ds: seq<char>)
    ensures |ds| == if |Show(n)| < 4 then |Show(n)| else 4
    ensures ds <= Show(n)
  {
    var s := Show(n);
    if |s| <= 4 then s else s[..4]
  }

  /** The commands `display_number` sends: the mirrored glyphs of the leading digits, then blank rows. */
  function NumberCommands(n: nat): (cs: seq<Command>)
    ensures |cs| == 8
  {
    var ds := Leading(n);
    seq(8, i requires 0 <= i < 8 => Command((i + 1) as Byte, if i < |ds| then Mirror(CharPattern(ds[i])) else 0))
  }

  /** Bit c of row r + 1's byte tells whether cell (r, c) of the grid is lit. */
  lemma PatternCells(pattern: seq<seq<Byte>>, r: nat, c: nat)
    requires IsGrid(pattern) && r < 8 && c < 8
    ensures Bit(PatternCommands(pattern)[r].data, c) <==> pattern[r][c] != 0
  {
  }

  /**
   * Row i + 1 shows digit i of the number, mirrored, for each of the leading
   * (at most four) digits; the rows after them are blank.
   */
  lemma NumberRows(n: nat, i: nat)
    requires i < 8
    ensures NumberCommands(n)[i].reg == (i + 1) as Byte && IsRow(NumberCommands(n)[i])
    ensures i < |Show(n)| && i < 4 ==> Mirror(NumberCommands(n)[i].data) == CharPattern(Show(n)[i])
    ensures i >= |Show(n)| || i >= 4 ==> NumberCommands(n)[i].data == 0
  {
    RowInRange(i, NumberCommands(n)[i].data);
    var ds := Leading(n);
    if i < |ds| {
      MirrorInvolution(CharPattern(ds[i]));
    }
  }

  /** 12345 is shown as "1234": the leading digits, not the trailing ones. */
  lemma LeadingExample()
    ensures Leading(12345) == "1234"
  {
    assert Show(12345) == "12345";
  }

  /** The text after the last '.', the whole text when it has none (`split('.').last()`). */
  function LastField(s: string): (f: string)
    ensures |f| <= |s| && s[|s| - |f|..] == f && '.' !in f
    ensures |f| < |s| ==> s[|s| - |f| - 1] == '.'
  {
    if s == [] then []
    else if s[|s| - 1] == '.' then []
    else LastField(s[..|s| - 1]) + [s[|s| - 1]]
  }

  /** The number `display_ip_address` shows: the last field as a `u32`, or the error code 999. */
  function IpNumber(ip: string): (n: nat)
    ensures ParseU32(LastField(ip)).Some? ==> n == ParseU32(LastField(ip)).value
    ensures ParseU32(LastField(ip)).None? ==> n == 999
  {
    match ParseU32(LastField(ip))
    case Some(v) => v
    case None => 999
  }

  /** The last field of a text that ends in '.' and a field without '.' is that field. */
  lemma {:induction false} LastFieldAfterDot(s: string, t: string)
    requires '.' !in t
    ensures LastField(s + "." + t) == t
  {
    var u := s + "." + t;
    if t == [] {
      assert u[|u| - 1] == '.';
    } else {
      assert u[..|u| - 1] == s + "." + t[..|t| - 1];
      LastFieldAfterDot(s, t[..|t| - 1]);
      assert t[..|t| - 1] + [t[|t| - 1]] == t;
    }
  }

  /** An address ending in the decimal text of a `u32` shows that number. */
  lemma IpShowsLastField(prefix: string, n: nat)
    requires n < U32_LIMIT
    ensures IpNumber(prefix + "." + Show(n)) == n
  {
    forall i | 0 <= i < |Show(n)|
      ensures Show(n)[i] != '.'
    {
      assert IsDigit(Show(n)[i]);
    }
    LastFieldAfterDot(prefix, Show(n));
    ParseShow(n);
  }

  /** An address whose last field is empty shows the error code 999. */
  lemma IpEmptyLastField(prefix: string)
    ensures IpNumber(prefix + ".") == 999
  {
    LastFieldAfterDot(prefix, "");
    assert prefix + "." + "" == prefix + ".";
  }

  /** All three lines of the driver accept writes. */
  predicate PinsOk(faulty: set<Pin>) {
    Din !in faulty && Clk !in faulty && Cs !in faulty
  }

  /** Where a failing write cuts `new` short. */
  lemma NewRun(faulty: set<Pin>)
    ensures Fails(NewEvents(), faulty) == !PinsOk(faulty)
    ensures Run(NewEvents(), faulty) ==
      if Cs in faulty then [] else if Clk in faulty then NewEvents()[..1]
      else if Din in faulty then NewEvents()[..2] else NewEvents()
  {
    var es := NewEvents();
    if Cs in faulty { RunIs(es, 0, faulty); }
    else if Clk in faulty { RunIs(es, 1, faulty); }
    else if Din in faulty { RunIs(es, 2, faulty); }
    else { RunIs(es, 3, faulty); }
  }

  /** Where a failing write cuts `send_bit` short. */
  lemma BitRun(bit: bool, faulty: set<Pin>)
    ensures Fails(BitEvents(bit), faulty) == (Din in faulty || Clk in faulty)
    ensures Run(BitEvents(bit), faulty) ==
      if Din in faulty then [] else if Clk in faulty then BitEvents(bit)[..1] else BitEvents(bit)
  {
    var es := BitEvents(bit);
    if Din in faulty { RunIs(es, 0, faulty); }
    else if Clk in faulty { RunIs(es, 1, faulty); }
    else { RunIs(es, 5, faulty); }
  }

  /** How many events of `send_byte` reach the wire. */
  function ByteStop(faulty: set<Pin>): nat {
    if Din in faulty then 0 else if Clk in faulty then 1 else 40
  }

  /** `send_byte` fails on its first write to DIN, or else on its first clock edge, or not at all. */
  lemma ByteRun(b: Byte, faulty: set<Pin>)
    ensures Fails(ByteEvents(b), faulty) == (Din in faulty || Clk in faulty)
    ensures Run(ByteEvents(b), faulty) == ByteEvents(b)[..ByteStop(faulty)]
  {
    var es := ByteEvents(b);
    forall j | 0 <= j < ByteStop(faulty)
      ensures !Rejected(es[j], faulty)
    {
      ByteEventLines(b, j, faulty);
    }
    RunIs(es, ByteStop(faulty), faulty);
  }

  /** Every event of `send_byte` is a wait or a write to DIN or CLK. */
  lemma ByteEventLines(b: Byte, m: nat, faulty: set<Pin>)
    requires m < 40 && Din !in faulty && (m == 0 || Clk !in faulty)
    ensures !Rejected(ByteEvents(b)[m], faulty)
  {
    assert ByteEvents(b)[m] == BitEvents(Bit(b, 7 - m / 5))[m % 5];
  }

  /** `send_command` stops at CS, or inside the register byte, or goes through whole. */
  lemma CommandRunSplit(c: Command, faulty: set<Pin>)
    ensures Cs in faulty ==> Run(CommandEvents(c), faulty) == []
    ensures Cs !in faulty && !PinsOk(faulty) ==>
      Run(CommandEvents(c), faulty) == [Write(Cs, false)] + Run(ByteEvents(c.reg), faulty)
    ensures PinsOk(faulty) ==>
      Run(CommandEvents(c), faulty) == [Write(Cs, false)] + ByteEvents(c.reg) + ByteEvents(c.data) + [Write(Cs, true)]
  {
    CommandRun(c, faulty);
    ByteRun(c.reg, faulty);
    CommandEventsSplit(c);
    if Cs !in faulty && !PinsOk(faulty) {
      assert CommandEvents(c)[..CommandStop(faulty)] == [Write(Cs, false)] + ByteEvents(c.reg)[..ByteStop(faulty)];
    }
  }

  /** How many events of `send_command` reach the wire. */
  function CommandStop(faulty: set<Pin>): nat {
    if Cs in faulty then 0 else if Din in faulty then 1 else if Clk in faulty then 2 else 82
  }

  /** `send_command` fails on its first write to CS, DIN or CLK, whichever line is faulty first, or not at all. */
  lemma CommandRun(c: Command, faulty: set<Pin>)
    ensures Fails(CommandEvents(c), faulty) == !PinsOk(faulty)
    ensures Run(CommandEvents(c), faulty) == CommandEvents(c)[..CommandStop(faulty)]
  {
    var es := CommandEvents(c);
    forall j | 0 <= j < CommandStop(faulty)
      ensures !Rejected(es[j], faulty)
    {
      if 1 <= j <= 40 {
        ByteEventLines(c.reg, j - 1, faulty);
      } else if 41 <= j <= 80 {
        ByteEventLines(c.data, j - 41, faulty);
      }
    }
    assert es[1] == ByteEvents(c.reg)[0] == Write(Din, Bit(c.reg, 7));
    assert es[2] == ByteEvents(c.reg)[1] == Write(Clk, true);
    RunIs(es, CommandStop(faulty), faulty);
  }

  /** What one `send_command` puts on the wire: its events up to the first failing write. */
  function Attempt(c: Command, faulty: set<Pin>): (es: seq<Event>)
    ensures es <= CommandEvents(c)
  {
    CommandEvents(c)[..CommandStop(faulty)]
  }

  /**
   * The wire after `cmds` were attempted one `send_command` each, in order:
   * every attempt puts on the wire the events before its first failing write.
   */
  function Wire(cmds: seq<Command>, faulty: set<Pin>): seq<Event> {
    if cmds == [] then [] else Attempt(cmds[0], faulty) + Wire(cmds[1..], faulty)
  }

  lemma {:induction false} WireSnoc(cmds: seq<Command>, c: Command, faulty: set<Pin>)
    ensures Wire(cmds + [c], faulty) == Wire(cmds, faulty) + Attempt(c, faulty)
  {
    if cmds == [] {
      assert cmds + [c] == [c];
    } else {
      assert (cmds + [c])[1..] == cmds[1..] + [c];
      WireSnoc(cmds[1..], c, faulty);
      AppendAssoc(Attempt(cmds[0], faulty), Wire(cmds[1..], faulty), Attempt(c, faulty));
    }
  }

  /** With healthy lines every command goes out whole. */
  lemma {:induction false} WireHealthy(cmds: seq<Command>, faulty: set<Pin>)
    requires PinsOk(faulty)
    ensures Wire(cmds, faulty) == Flatten(cmds, CommandEvents)
  {
    if cmds != [] {
      WireHealthy(cmds[1..], faulty);
    }
  }

  /**
   * The commands an operation that sends `cmds` with `?` gets to attempt. A
   * line is faulty for every write or for none, so either the first command
   * already fails and ends the operation, or every command goes through.
   */
  function Sent(cmds: seq<Command>, faulty: set<Pin>): (r: seq<Command>)
    ensures r <= cmds
    ensures |r| == |cmds| <==> PinsOk(faulty) || |cmds| <= 1
  {
    if PinsOk(faulty) || cmds == [] then cmds else cmds[..1]
  }

  /** The command `display_row` sends: none for a row outside 1..8. */
  function RowCommands(c: Command): (r: seq<Command>)
    ensures r == [] <==> !IsRow(c)
    ensures forall d :: d in r ==> d == c
  {
    if IsRow(c) then [c] else []
  }

  lemma AppendAssoc4(t: seq<Event>, a: seq<Event>, b: seq<Event>, c: seq<Event>, d: seq<Event>)
    ensures t + a + b + c + d == t + (a + b + c + d)
  {
  }

  class Driver {
    const port: Port
    /** The wire as the driver found it. */
    ghost const base: seq<Event>
    /** Every command `send_command` has been called with, in order. */
    ghost var log: seq<Command>

    /** The wire holds what the driver found, then the attempted commands. */
    ghost predicate Valid()
      reads this, port
    {
      port.trace == base + Wire(log, port.faulty)
    }

    constructor Wrap(port: Port)
      ensures this.port == port && log == [] && Valid()
    {
      this.port := port;
      base := port.trace;
      log := [];
    }

    /** `Max7219MatrixDriver::new`: takes the pins and drives them to their idle levels. */
    static method New(port: Port) returns (r: Option<Driver>)
      modifies port
      ensures r.Some? == PinsOk(port.faulty)
      ensures r.Some? ==> r.value.port == port && r.value.log == [] && r.value.Valid()
      ensures port.trace == old(port.trace) + Run(NewEvents(), port.faulty)
    {
      NewRun(port.faulty);
      var ok := port.SetLevel(Cs, true);
      if !ok { return None; }
      ok := port.SetLevel(Clk, false);
      if !ok { return None; }
      ok := port.SetLevel(Din, false);
      if !ok { return None; }
      var d := new Driver.Wrap(port);
      return Some(d);
    }

    method SendBit(bit: bool) returns (ok: bool)
      modifies port
      ensures ok == !Fails(BitEvents(bit), port.faulty)
      ensures port.trace == old(port.trace) + Run(BitEvents(bit), port.faulty)
    {
      BitRun(bit, port.faulty);
      ok := port.SetLevel(Din, bit);
      if !ok { return; }
      ok := port.SetLevel(Clk, true);
      if !ok { return; }
      port.DelayUs(1);
      ok := port.SetLevel(Clk, false);
      if !ok { return; }
      port.DelayUs(1);
    }

    method SendByte(data: Byte) returns (ok: bool)
      modifies port
      ensures ok == !Fails(ByteEvents(data), port.faulty)
      ensures port.trace == old(port.trace) + Run(ByteEvents(data), port.faulty)
    {
      ByteRun(data, port.faulty);
      for i := 0 to 8
        invariant i > 0 ==> Din !in port.faulty && Clk !in port.faulty
        invariant port.trace == old(port.trace) + ByteEvents(data)[..5 * i]
      {
        var bit := ShiftedBit(data, 7 - i);
        BitRun(bit, port.faulty);
        ByteEventsStep(data, i);
        AppendAssoc(old(port.trace), ByteEvents(data)[..5 * i], BitEvents(bit));
        ok := SendBit(bit);
        if !ok { return; }
      }
      ok := true;
    }

    method SendCommand(reg: Byte, data: Byte) returns (ok: bool)
      requires Valid()
      modifies this, port
      ensures Valid()
      ensures ok == PinsOk(port.faulty)
      ensures log == old(log) + [Command(reg, data)]
    {
      ghost var c := Command(reg, data);
      ghost var t0 := port.trace;
      ghost var a, b, d, e := [Write(Cs, false)], ByteEvents(reg), ByteEvents(data), [Write(Cs, true)];
      CommandRunSplit(c, port.faulty);
      ByteRun(reg, port.faulty);
      ByteRun(data, port.faulty);
      WireSnoc(log, c, port.faulty);
      CommandRun(c, port.faulty);
      AppendAssoc(base, Wire(log, port.faulty), Attempt(c, port.faulty));
      AppendAssoc(t0, a, Run(b, port.faulty));
      AppendAssoc4(t0, a, b, d, e);
      log := log + [c];
      ok := port.SetLevel(Cs, false);
      if !ok { return; }
      ok := SendByte(reg);
      if !ok { return; }
      ok := SendByte(data);
      if !ok { return; }
      ok := port.SetLevel(Cs, true);
      if !ok { return; }
    }

    /** `init`: display test off, no decode, scan limit 7, intensity 7, rows cleared, display on. */
    method Init() returns (ok: bool)
      requires Valid()
      modifies this, port
      ensures Valid()
      ensures ok == PinsOk(port.faulty)
      ensures log == old(log) + Sent(InitCommands(), port.faulty)
    {
      ghost var cmds := InitCommands();
      ok := SendCommand(REG_DISPLAY_TEST, 0);
      SnocSlice(old(log), cmds, 0);
      if !ok { return; }
      ok := SendCommand(REG_DECODE_MODE, 0);
      SnocSlice(old(log), cmds, 1);
      if !ok { return; }
      ok := SendCommand(REG_SCAN_LIMIT, 7);
      SnocSlice(old(log), cmds, 2);
      if !ok { return; }
      ok := SendCommand(REG_INTENSITY, 0x07);
      SnocSlice(old(log), cmds, 3);
      if !ok { return; }
      for row := 1 to 9
        invariant Valid() && ok && PinsOk(port.faulty)
        invariant log == old(log) + cmds[..row + 3]
      {
        ok := SendCommand(row as Byte, 0);
        SnocSlice(old(log), cmds, row + 3);
        if !ok { return; }
      }
      ok := SendCommand(REG_SHUTDOWN, 1);
      SnocSlice(old(log), cmds, 12);
      if !ok { return; }
      assert cmds[..13] == cmds;
    }

    /** `display_row`: one row command, or nothing at all for a row outside 1..8. */
    method DisplayRow(row: Byte, data: Byte) returns (ok: bool)
      requires Valid()
      modifies this, port
      ensures Valid()
      ensures ok == (PinsOk(port.faulty) || !IsRow(Command(row, data)))
      ensures log == old(log) + RowCommands(Command(row, data))
    {
      if 1 <= row <= 8 {
        ok := SendCommand(row, data);
      } else {
        ok := true;
      }
    }

    /** `clear`: 0 to every row, top to bottom. */
    method Clear() returns (ok: bool)
      requires Valid()
      modifies this, port
      ensures Valid()
      ensures ok == PinsOk(port.faulty)
      ensures log == old(log) + Sent(ClearCommands(), port.faulty)
    {
      ghost var cmds := ClearCommands();
      ok := true;
      for row := 1 to 9
        invariant Valid()
        invariant row > 1 ==> ok == PinsOk(port.faulty)
        invariant log == old(log) + cmds[..row - 1]
      {
        ok := SendCommand(row as Byte, 0);
        SnocSlice(old(log), cmds, row - 1);
        if !ok { return; }
      }
      assert cmds[..8] == cmds;
    }

    /** The inner loop of `display_pattern`: bit c of the row byte is set iff cell c is nonzero. */
    static method PackRow(row: seq<Byte>) returns (b: Byte)
      requires |row| == 8
      ensures forall c :: 0 <= c < 8 ==> Bit(b, c) == (row[c] != 0)
      ensures b == RowByte(row)
    {
      b := 0;
      for c := 0 to 8
        invariant forall k :: 0 <= k < 8 ==> Bit(b, k) == (k < c && row[k] != 0)
      {
        if row[c] != 0 {
          b := WithBit(b, c);
        }
      }
      SameBits(b, RowByte(row));
    }

    /** `display_pattern`: each row of the grid packed into a byte and shown on its row, top to bottom. */
    method DisplayPattern(pattern: seq<seq<Byte>>) returns (ok: bool)
      requires IsGrid(pattern)
      requires Valid()
      modifies this, port
      ensures Valid()
      ensures ok == PinsOk(port.faulty)
      ensures log == old(log) + Sent(PatternCommands(pattern), port.faulty)
    {
      ghost var cmds := PatternCommands(pattern);
      ok := true;
      for r := 0 to 8
        invariant Valid()
        invariant r > 0 ==> ok == PinsOk(port.faulty)
        invariant log == old(log) + cmds[..r]
      {
        var data := PackRow(pattern[r]);
        RowInRange(r, data);
        ok := DisplayRow((r + 1) as Byte, data);
        SnocSlice(old(log), cmds, r);
        if !ok { return; }
      }
      assert cmds[..8] == cmds;
    }

    /** `display_number`: the leading (at most four) digits of the number, mirrored, then blank rows. */
    method DisplayNumber(number: nat) returns (ok: bool)
      requires number < U32_LIMIT
      requires Valid()
      modifies this, port
      ensures Valid()
      ensures ok == PinsOk(port.faulty)
      ensures log == old(log) + Sent(NumberCommands(number), port.faulty)
    {
      ghost var cmds := NumberCommands(number);
      var digits := Leading(number);
      ok := true;
      for i := 0 to |digits|
        invariant Valid()
        invariant i > 0 ==> ok == PinsOk(port.faulty)
        invariant log == old(log) + cmds[..i]
      {
        var pattern := CharPattern(digits[i]);
        var reversed := Mirror(pattern);
        RowInRange(i, reversed);
        ok := DisplayRow((i + 1) as Byte, reversed);
        SnocSlice(old(log), cmds, i);
        if !ok { return; }
      }
      for i := |digits| to 8
        invariant Valid()
        invariant i > 0 ==> ok == PinsOk(port.faulty)
        invariant log == old(log) + cmds[..i]
      {
        RowInRange(i, 0);
        ok := DisplayRow((i + 1) as Byte, 0);
        SnocSlice(old(log), cmds, i);
        if !ok { return; }
      }
      assert cmds[..8] == cmds;
    }

    /** `display_ip_address`: the number after the last '.', or 999 when that is not a `u32`. */
    method DisplayIpAddress(ip: string) returns (ok: bool)
      requires Valid()
      modifies this, port
      ensures Valid()
      ensures ok == PinsOk(port.faulty)
      ensures log == old(log) + Sent(NumberCommands(IpNumber(ip)), port.faulty)
    {
      var last := LastField(ip);
      match ParseU32(last)
      case Some(number) =>
        ok := DisplayNumber(number);
      case None =>
        ok := DisplayNumber(999);
    }
  }
}
