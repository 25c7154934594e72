/**
 * The HC-SR04 distance sensor and TM1637 four-digit display of the
 * ultrasonic board (esp32-wifi-ultrasonic/src/ultrasonic/mod.rs).
 *
 * The trigger line and the display's CLK and DIO lines are bit-banged
 * through two `Port`s; every pin error is propagated with `?`. The display
 * routines are specified by the transaction steps (`Tm1637.Op`) they attempt,
 * kept in a ghost log; the wire holds the events of each attempted step up
 * to its first failing write (`Attempt`). The echo line is an input: the
 * measurement reads it as a function of the time since the trigger pulse.
 */
module Ultrasonic {
  import opened Bits
  import opened Gpio
  import opened Decimal
  import opened Wrappers
  import opened Tm1637

  /** `tm1637_send_bit`: DIO takes the bit, then a clock pulse of 5 µs high and 5 µs low. */
  function BitEvents(bit: bool): seq<Event> {
    [Write(Dio, bit), Write(Clk, true), Wait(5), Write(Clk, false), Wait(5)]
  }

  /** The acknowledge slot closing `tm1637_send_byte`: one more clock pulse with DIO released high. */
  function AckEvents(): seq<Event> {
    [Write(Clk, false), Write(Dio, true), Wait(5), Write(Clk, true), Wait(5), Write(Clk, false), Wait(5)]
  }

  /** `tm1637_send_byte`: the eight bits, least significant first (events 5i to 5i + 4 carry bit i), then the acknowledge slot. */
  function ByteEvents(b: Byte): (es: seq<Event>)
    ensures |es| == 47
  {
    seq(47, k requires 0 <= k < 47 => if k < 40 then BitEvents(Bit(b, k / 5))[k % 5] else AckEvents()[k - 40])
  }

  /** `tm1637_start`: DIO falls while CLK is high, then CLK goes low. */
  function StartEvents(): seq<Event> {
    [Write(Clk, true), Write(Dio, true), Wait(5), Write(Dio, false), Wait(5), Write(Clk, false), Wait(5)]
  }

  /** `tm1637_stop`: both lines low, then CLK rises, then DIO rises while CLK is high. */
  function StopEvents(): seq<Event> {
    [Write(Clk, false), Write(Dio, false), Wait(5), Write(Clk, true), Wait(5), Write(Dio, true), Wait(5)]
  }

  /** The events of one transaction step. */
  function OpEvents(op: Op): seq<Event> {
    match op
    case Start => StartEvents()
    case Stop => StopEvents()
    case Send(b) => ByteEvents(b)
    case Pause(us) => [Wait(us)]
  }

  lemma ByteEventsStep(b: Byte, i: nat)
    requires i < 8
    ensures ByteEvents(b)[..5 * (i + 1)] == ByteEvents(b)[..5 * i] + BitEvents(Bit(b, i))
  {
    var es := ByteEvents(b);
    var bits := BitEvents(Bit(b, i));
    forall j | 0 <= j < 5
      ensures es[5 * i + j] == bits[j]
    {
      SplitFive(i, j);
    }
  }

  lemma ByteEventsAck(b: Byte)
    ensures ByteEvents(b) == ByteEvents(b)[..40] + AckEvents()
  {
  }

  /** `tm1637_send_byte` is `tm1637_send_bit` of each bit, least significant first, then the acknowledge slot. */
  lemma ByteEventsBits(b: Byte)
    ensures ByteEvents(b) == Flatten(LsbBits(b), BitEvents) + AckEvents()
  {
    ByteEventsPrefix(b, 8);
    assert LsbBits(b)[..8] == LsbBits(b);
    ByteEventsAck(b);
  }

  lemma {:induction false} ByteEventsPrefix(b: Byte, i: nat)
    requires i <= 8
    ensures ByteEvents(b)[..5 * i] == Flatten(LsbBits(b)[..i], BitEvents)
  {
    if i > 0 {
      ByteEventsPrefix(b, i - 1);
      ByteEventsStep(b, i - 1);
      assert LsbBits(b)[..i] == LsbBits(b)[..i - 1] + [LsbBits(b)[i - 1]];
      FlattenSnoc(LsbBits(b)[..i - 1], LsbBits(b)[i - 1], BitEvents);
    }
  }

  /** Both display lines accept writes. */
  predicate LinesOk(faulty: set<Pin>) {
    Clk !in faulty && Dio !in faulty
  }

  /** How many events of a step reach the wire before its first failing write. */
  function OpStop(op: Op, faulty: set<Pin>): nat {
    match op
    case Start => if Clk in faulty then 0 else if Dio in faulty then 1 else 7
    case Stop => if Clk in faulty then 0 else if Dio in faulty then 1 else 7
    case Send(_) => if Dio in faulty then 0 else if Clk in faulty then 1 else 47
    case Pause(_) => 1
  }

  lemma BitRun(bit: bool, faulty: set<Pin>)
    ensures Fails(BitEvents(bit), faulty) == !LinesOk(faulty)
    ensures Run(BitEvents(bit), faulty) ==
      if Dio in faulty then [] else if Clk in faulty then BitEvents(bit)[..1] else BitEvents(bit)
  {
    var es := BitEvents(bit);
    if Dio in faulty { RunIs(es, 0, faulty); }
    else if Clk in faulty { RunIs(es, 1, faulty); }
    else { RunIs(es, 5, faulty); }
  }

  /** Every event of `tm1637_send_byte` is a wait or a write to DIO or CLK, and the first one writes DIO. */
  lemma ByteEventLines(b: Byte, m: nat, faulty: set<Pin>)
    requires m < 47 && Dio !in faulty && (m == 0 || Clk !in faulty)
    ensures !Rejected(ByteEvents(b)[m], faulty)
  {
    if m < 40 {
      assert ByteEvents(b)[m] == BitEvents(Bit(b, m / 5))[m % 5];
    } else {
      assert ByteEvents(b)[m] == AckEvents()[m - 40];
    }
  }

  /**
   * A step fails at its first write to a faulty display line: `tm1637_start`
   * and `tm1637_stop` write CLK first, `tm1637_send_byte` writes DIO first.
   */
  lemma OpRun(op: Op, faulty: set<Pin>)
    ensures Fails(OpEvents(op), faulty) == (!op.Pause? && !LinesOk(faulty))
    ensures Run(OpEvents(op), faulty) == OpEvents(op)[..OpStop(op, faulty)]
  {
    var es := OpEvents(op);
    match op
    case Send(b) =>
      forall j | 0 <= j < OpStop(op, faulty)
        ensures !Rejected(es[j], faulty)
      {
        ByteEventLines(b, j, faulty);
      }
      assert es[1] == Write(Clk, true);
      RunIs(es, OpStop(op, faulty), faulty);
    case _ =>
      RunIs(es, OpStop(op, faulty), faulty);
  }

  /** What one step puts on the wire: its events up to the first failing write. */
  function Attempt(op: Op, faulty: set<Pin>): (es: seq<Event>)
    ensures es <= OpEvents(op)
  {
    OpEvents(op)[..OpStop(op, faulty)]
  }

  /** The wire after `ops` were attempted in order. */
  function Wire(ops: seq<Op>, faulty: set<Pin>): seq<Event> {
    if ops == [] then [] else Attempt(ops[0], faulty) + Wire(ops[1..], faulty)
  }

  lemma {:induction false} WireSnoc(ops: seq<Op>, op: Op, faulty: set<Pin>)
    ensures Wire(ops + [op], faulty) == Wire(ops, faulty) + Attempt(op, faulty)
  {
    if ops == [] {
      assert ops + [op] == [op];
    } else {
      assert (ops + [op])[1..] == ops[1..] + [op];
      WireSnoc(ops[1..], op, faulty);
      AppendAssoc(Attempt(ops[0], faulty), Wire(ops[1..], faulty), Attempt(op, faulty));
    }
  }

  /** With healthy lines every step goes out whole. */
  lemma {:induction false} WireHealthy(ops: seq<Op>, faulty: set<Pin>)
    requires LinesOk(faulty)
    ensures Wire(ops, faulty) == Flatten(ops, OpEvents)
  {
    if ops != [] {
      WireHealthy(ops[1..], faulty);
    }
  }

  /**
   * The steps an operation that performs `ops` with `?` gets to attempt: a
   * display line is faulty for every write or for none, so either the first
   * step fails and ends the operation, or every step goes through.
   */
  function Sent(ops: seq<Op>, faulty: set<Pin>): (r: seq<Op>)
    ensures r <= ops
    ensures |r| == |ops| <==> LinesOk(faulty) || |ops| <= 1
  {
    if LinesOk(faulty) || ops == [] then ops else ops[..1]
  }

  /** Seven events appended one at a time. */
  lemma Seven(t0: seq<Event>, es: seq<Event>)
    requires |es| == 7
    ensures t0 + [es[0]] + [es[1]] + [es[2]] + [es[3]] + [es[4]] + [es[5]] + [es[6]] == t0 + es[..7] == t0 + es
  {
    assert es == [es[0]] + [es[1]] + [es[2]] + [es[3]] + [es[4]] + [es[5]] + [es[6]];
  }

  /** `init_tm1637`: a single display-control transaction. */
  function InitOps(): (ops: seq<Op>)
    ensures ops == Frame([DISPLAY_ON])
  {
    [Start, Send(DISPLAY_ON), Stop]
  }

  /** Marker the digit loop of `display_number` stores where the number has run out; the segment table shows it blank. */
  const BLANK: nat := 0x7F

  /** n with its last p decimal digits dropped. */
  function Drop(n: nat, p: nat): (m: nat)
    ensures m <= n
  {
    if p == 0 then n else Drop(n / 10, p - 1)
  }

  lemma {:induction false} DropStep(n: nat, p: nat)
    ensures Drop(n, p + 1) == Drop(n, p) / 10
  {
    if p > 0 {
      DropStep(n / 10, p - 1);
    }
  }

  /**
   * The digits `display_number` stores, left to right: for 0 four zeros;
   * otherwise position k holds the digit p = 3 - k places from the right
   * while the number reaches that far, and the blank marker after that.
   */
  function Digits(n: nat): (ds: seq<nat>)
    ensures |ds| == 4
  {
    if n == 0 then [0, 0, 0, 0]
    else seq(4, k requires 0 <= k < 4 => if Drop(n, 3 - k) > 0 then Drop(n, 3 - k) % 10 else BLANK)
  }

  /** Dropping p digits leaves a nonzero number iff the text is longer than p; its last digit is then character p from the right. */
  lemma {:induction false} DropShow(n: nat, p: nat)
    requires n > 0
    ensures Drop(n, p) > 0 <==> p < |Show(n)|
    ensures p < |Show(n)| ==> DigitChar(Drop(n, p) % 10) == Show(n)[|Show(n)| - 1 - p]
  {
    if p > 0 && n >= 10 {
      DropShow(n / 10, p - 1);
    }
  }

  /**
   * Position k shows the matching one of the last four digits of the decimal
   * text, right-aligned; positions left of the text are blank; 0 shows as 0000.
   */
  lemma DigitsShow(n: nat, k: nat)
    requires k < 4
    ensures n == 0 ==> Digits(n)[k] == 0
    ensures n > 0 && k + |Show(n)| >= 4 ==> Digits(n)[k] < 10 && DigitChar(Digits(n)[k]) == Show(n)[k + |Show(n)| - 4]
    ensures n > 0 && k + |Show(n)| < 4 ==> Digits(n)[k] == BLANK
  {
    if n > 0 {
      DropShow(n, 3 - k);
    }
  }

  /** The four segment bytes `display_number` sends, left to right. */
  function SegmentBytes(n: nat): (bs: seq<Byte>)
    ensures |bs| == 4
  {
    var ds := Digits(n);
    seq(4, k requires 0 <= k < 4 => Segments(ds[k]))
  }

  /**
   * The glyphs shown: the last four digits of the number, right-aligned, with
   * blank positions to their left; a zero shows as four '0' glyphs.
   */
  lemma NumberGlyphs(n: nat, k: nat)
    requires k < 4
    ensures n == 0 ==> SegmentBytes(n)[k] == Segments(0)
    ensures n > 0 && k + |Show(n)| >= 4 ==> SegmentBytes(n)[k] == Segments(DigitValue(Show(n)[k + |Show(n)| - 4]))
    ensures n > 0 && k + |Show(n)| < 4 ==> SegmentBytes(n)[k] == 0
  {
    DigitsShow(n, k);
  }

  /** 12345 shows "2345", and 42 shows two blanks then "42". */
  lemma NumberGlyphsExample()
    ensures SegmentBytes(12345) == [Segments(2), Segments(3), Segments(4), Segments(5)]
    ensures SegmentBytes(42) == [0, 0, Segments(4), Segments(2)]
  {
    assert Drop(12345, 3) == 12 && Drop(12345, 2) == 123 && Drop(12345, 1) == 1234;
    assert Drop(42, 3) == 0 && Drop(42, 2) == 0 && Drop(42, 1) == 4;
  }

  /**
   * The steps `display_number` performs: the data command, the address
   * command with the four segment bytes, and display control, each framed.
   */
  function NumberOps(n: nat): (ops: seq<Op>)
    ensures |ops| == 13
  {
    var segs := SegmentBytes(n);
    seq(13, i requires 0 <= i < 13 =>
      if i == 0 || i == 3 || i == 10 then Start
      else if i == 2 || i == 9 || i == 12 then Stop
      else if i == 1 then Send(DATA_COMMAND)
      else if i == 4 then Send(ADDRESS_COMMAND)
      else if i == 11 then Send(DISPLAY_ON)
      else Send(segs[i - 5]))
  }

  /** `display_number` is three transactions: [0x40], [0xC0, s0, s1, s2, s3], [0x8F]. */
  lemma NumberFrames(n: nat)
    ensures NumberOps(n) == Frame([DATA_COMMAND]) + Frame([ADDRESS_COMMAND] + SegmentBytes(n)) + Frame([DISPLAY_ON])
  {
    var segs := SegmentBytes(n);
    var rhs := Frame([DATA_COMMAND]) + Frame([ADDRESS_COMMAND] + segs) + Frame([DISPLAY_ON]);
    assert |rhs| == 13;
    forall i | 0 <= i < 13
      ensures NumberOps(n)[i] == rhs[i]
    {
      if 3 <= i < 10 {
        assert rhs[i] == Frame([ADDRESS_COMMAND] + segs)[i - 3];
      } else if i >= 10 {
        assert rhs[i] == Frame([DISPLAY_ON])[i - 10];
      }
    }
  }

  /** Polling period of the echo line in the model, and the 100 ms timeouts of `measure_distance`. */
  const TIMEOUT_US: nat := 100000

  /** Ways `measure_distance` and `update_display` fail. */
  datatype Failure =
    | PinFailure       // a pin write failed
    | EchoHighTimeout  // the echo did not rise within 100 ms
    | EchoLowTimeout   // the echo did not fall within 100 ms of rising
    | Underflow        // `end - start` below zero: a debug build panics here

  /**
   * Polling `echo` once per microsecond from time t: the first time the
   * reading differs from `level`, or None once more than 100 ms have passed
   * since t0 without that.
   */
  function Scan(echo: nat -> bool, level: bool, t0: nat, t: nat): (r: Option<nat>)
    requires t0 <= t <= t0 + TIMEOUT_US + 1
    decreases t0 + TIMEOUT_US + 1 - t
    ensures r.Some? ==> t <= r.value <= t0 + TIMEOUT_US + 1 && echo(r.value) != level
    ensures r.Some? ==> forall s :: t <= s < r.value ==> echo(s) == level
    ensures r.None? ==> forall s :: t <= s <= t0 + TIMEOUT_US + 1 ==> echo(s) == level
  {
    if echo(t) != level then Some(t)
    else if t - t0 > TIMEOUT_US then None
    else Scan(echo, level, t0, t + 1)
  }

  /**
   * The two polling loops of `measure_distance` on an echo line read as a
   * function of the microseconds since the trigger went low: `start` is when
   * the echo rose, `end` how long it stayed high (the second timer is
   * restarted when the echo rises).
   */
  function EchoTimes(echo: nat -> bool): Result<(nat, nat), Failure> {
    match Scan(echo, false, 0, 0)
    case None => Err(EchoHighTimeout)
    case Some(rise) =>
      match Scan(echo, true, rise, rise)
      case None => Err(EchoLowTimeout)
      case Some(fall) => Ok((rise, fall - rise))
  }

  /** The echo is low until `rise`, within 100 ms, and high at `rise`. */
  predicate Rises(echo: nat -> bool, rise: nat) {
    rise <= TIMEOUT_US + 1 && (forall s :: 0 <= s < rise ==> !echo(s)) && echo(rise)
  }

  /** The echo rises at `rise` and falls `width` microseconds later, within 100 ms. */
  predicate Pulse(echo: nat -> bool, rise: nat, width: nat) {
    Rises(echo, rise) && 0 < width <= TIMEOUT_US + 1 &&
    (forall s :: rise <= s < rise + width ==> echo(s)) && !echo(rise + width)
  }

  /** The echo rises in time and then stays high for more than 100 ms. */
  predicate StuckHigh(echo: nat -> bool, rise: nat) {
    Rises(echo, rise) && forall s :: rise <= s <= rise + TIMEOUT_US + 1 ==> echo(s)
  }

  /** A first change the scan reaches is the one it reports. */
  lemma ScanFinds(echo: nat -> bool, level: bool, t0: nat, t: nat, r: nat)
    requires t0 <= t <= r <= t0 + TIMEOUT_US + 1
    requires forall s :: t <= s < r ==> echo(s) == level
    requires echo(r) != level
    ensures Scan(echo, level, t0, t) == Some(r)
  {
  }

  /** Times the loops report come from a pulse with that rise and width. */
  lemma EchoTimesPulse(echo: nat -> bool, rise: nat, width: nat)
    requires EchoTimes(echo) == Ok((rise, width))
    ensures Pulse(echo, rise, width)
  {
    var up := Scan(echo, false, 0, 0);
    assert up == Some(rise);
    var down := Scan(echo, true, rise, rise);
    assert down.Some? && down.value == rise + width;
  }

  /** The loops measure a pulse exactly when there is one: the times are its rise and its width. */
  lemma EchoPulse(echo: nat -> bool, rise: nat, width: nat)
    ensures EchoTimes(echo) == Ok((rise, width)) <==> Pulse(echo, rise, width)
  {
    if Pulse(echo, rise, width) {
      ScanFinds(echo, false, 0, 0, rise);
      ScanFinds(echo, true, rise, rise, rise + width);
    }
    if EchoTimes(echo) == Ok((rise, width)) {
      EchoTimesPulse(echo, rise, width);
    }
  }

  /** Each timeout is reported exactly when the echo fails to change in time. */
  lemma EchoTimeouts(echo: nat -> bool)
    ensures EchoTimes(echo) == Err(EchoHighTimeout) <==> forall s :: 0 <= s <= TIMEOUT_US + 1 ==> !echo(s)
    ensures EchoTimes(echo) == Err(EchoLowTimeout) <==> exists rise :: StuckHigh(echo, rise)
  {
    if exists rise :: StuckHigh(echo, rise) {
      var rise :| StuckHigh(echo, rise);
      ScanFinds(echo, false, 0, 0, rise);
    }
    if EchoTimes(echo) == Err(EchoLowTimeout) {
      var rise := Scan(echo, false, 0, 0).value;
      assert StuckHigh(echo, rise);
    }
  }

  /** `measure_distance` as written: the pulse width less the wait before the pulse, over 58. */
  function DistanceAsWritten(echo: nat -> bool): (r: Result<nat, Failure>)
    ensures r.Ok? ==> r.value <= (TIMEOUT_US + 1) / 58
  {
    match EchoTimes(echo)
    case Err(e) => Err(e)
    case Ok((start, end)) => if end < start then Err(Underflow) else Ok((end - start) / 58)
  }

  /** The distance the echo stands for: the pulse width in microseconds over 58, in centimetres. */
  function Distance(echo: nat -> bool): (r: Result<nat, Failure>)
    ensures r.Ok? ==> r.value <= (TIMEOUT_US + 1) / 58
  {
    match EchoTimes(echo)
    case Err(e) => Err(e)
    case Ok((_, width)) => Ok(width / 58)
  }

  /** As written, a pulse yields (width - rise) / 58, and an underflow when it is shorter than the wait before it. */
  lemma AsWrittenPulse(echo: nat -> bool, rise: nat, width: nat)
    requires Pulse(echo, rise, width)
    ensures DistanceAsWritten(echo) == if width < rise then Err(Underflow) else Ok((width - rise) / 58)
  {
    EchoPulse(echo, rise, width);
  }

  /** Corrected, a pulse yields its width over 58, whenever it rises. */
  lemma DistancePulse(echo: nat -> bool, rise: nat, width: nat)
    requires Pulse(echo, rise, width)
    ensures Distance(echo) == Ok(width / 58)
  {
    EchoPulse(echo, rise, width);
  }

  /** An echo that rises 450 µs after the trigger and lasts 5800 µs (1 m) reads 92 cm as written. */
  lemma FarEchoExample(echo: nat -> bool)
    requires forall s: nat :: echo(s) == (450 <= s < 6250)
    ensures DistanceAsWritten(echo) == Ok(92) && Distance(echo) == Ok(100)
  {
    assert Pulse(echo, 450, 5800);
    AsWrittenPulse(echo, 450, 5800);
    DistancePulse(echo, 450, 5800);
    Quotient58(5350, 92);
    Quotient58(5800, 100);
  }

  /** An echo that rises 450 µs after the trigger and lasts 290 µs (5 cm) underflows as written. */
  lemma NearEchoExample(echo: nat -> bool)
    requires forall s: nat :: echo(s) == (450 <= s < 740)
    ensures DistanceAsWritten(echo) == Err(Underflow) && Distance(echo) == Ok(5)
  {
    assert Pulse(echo, 450, 290);
    AsWrittenPulse(echo, 450, 290);
    DistancePulse(echo, 450, 290);
    Quotient58(290, 5);
  }

  lemma Quotient58(n: nat, q: nat)
    requires 58 * q <= n < 58 * q + 58
    ensures n / 58 == q
  {
  }

  /** `measure_distance`'s trigger pulse: high, 10 µs, low. */
  function TriggerEvents(): seq<Event> {
    [Write(Trig, true), Wait(10), Write(Trig, false)]
  }

  class Sensor {
    const trigger: Port
    const display: Port
    /** The display wire as the driver found it. */
    ghost const base: seq<Event>
    /** Every display step attempted, in order. */
    ghost var log: seq<Op>

    /** The display wire holds what the driver found, then the attempted steps. */
    ghost predicate Valid()
      reads this, display
    {
      trigger != display && display.trace == base + Wire(log, display.faulty)
    }

    /** `UltrasonicDisplay::new`: takes the pins as they are. */
    constructor (trigger: Port, display: Port)
      requires trigger != display
      ensures this.trigger == trigger && this.display == display && log == [] && Valid()
    {
      this.trigger := trigger;
      this.display := display;
      base := display.trace;
      log := [];
    }

    method SendBit(bit: bool) returns (ok: bool)
      modifies display
      ensures ok == !Fails(BitEvents(bit), display.faulty)
      ensures display.trace == old(display.trace) + Run(BitEvents(bit), display.faulty)
    {
      BitRun(bit, display.faulty);
      ok := display.SetLevel(Dio, bit);
      if !ok { return; }
      ok := display.SetLevel(Clk, true);
      if !ok { return; }
      display.DelayUs(5);
      ok := display.SetLevel(Clk, false);
      if !ok { return; }
      display.DelayUs(5);
    }

    /** Logs step `op` and returns the wire the step must leave behind. */
    ghost method Log(op: Op) returns (goal: seq<Event>)
      requires Valid()
      modifies this
      ensures log == old(log) + [op]
      ensures goal == display.trace + Attempt(op, display.faulty)
      ensures goal == base + Wire(log, display.faulty)
    {
      WireSnoc(log, op, display.faulty);
      AppendAssoc(base, Wire(log, display.faulty), Attempt(op, display.faulty));
      goal := display.trace + Attempt(op, display.faulty);
      log := log + [op];
    }

    /** The acknowledge slot of `tm1637_send_byte`; the acknowledge itself is never read. */
    method Acknowledge() returns (ok: bool)
      modifies display
      ensures ok == LinesOk(display.faulty)
      ensures display.trace == old(display.trace) + AckEvents()[..if Clk in display.faulty then 0 else if Dio in display.faulty then 1 else 7]
    {
      ok := display.SetLevel(Clk, false);
      if !ok { return; }
      ok := display.SetLevel(Dio, true);
      if !ok { return; }
      display.DelayUs(5);
      ok := display.SetLevel(Clk, true);
      if !ok { return; }
      display.DelayUs(5);
      ok := display.SetLevel(Clk, false);
      if !ok { return; }
      display.DelayUs(5);
    }

    method SendByte(data: Byte) returns (ok: bool)
      modifies display
      ensures ok == LinesOk(display.faulty)
      ensures display.trace == old(display.trace) + Attempt(Send(data), display.faulty)
    {
      ghost var t0 := display.trace;
      assert ByteEvents(data)[..1] == [Write(Dio, Bit(data, 0))];
      for i := 0 to 8
        invariant i > 0 ==> LinesOk(display.faulty)
        invariant display.trace == t0 + ByteEvents(data)[..5 * i]
      {
        var bit := ShiftedBit(data, i);
        BitRun(bit, display.faulty);
        ByteEventsStep(data, i);
        AppendAssoc(t0, ByteEvents(data)[..5 * i], BitEvents(bit));
        ok := SendBit(bit);
        if !ok { return; }
      }
      ok := Acknowledge();
      if !ok { return; }
      assert AckEvents()[..7] == AckEvents();
      ByteEventsAck(data);
      AppendAssoc(t0, ByteEvents(data)[..40], AckEvents());
      assert ByteEvents(data)[..47] == ByteEvents(data);
    }

    /** One `tm1637_send_byte`, logged. */
    method Put(data: Byte) returns (ok: bool)
      requires Valid()
      modifies this, display
      ensures Valid()
      ensures ok == LinesOk(display.faulty)
      ensures log == old(log) + [Send(data)]
    {
      ghost var goal := Log(Send(data));
      ok := SendByte(data);
    }

    /** `tm1637_start`. */
    method SendStart() returns (ok: bool)
      requires Valid()
      modifies this, display
      ensures Valid()
      ensures ok == LinesOk(display.faulty)
      ensures log == old(log) + [Start]
    {
      ghost var t0 := display.trace;
      ghost var goal := Log(Start);
      ok := display.SetLevel(Clk, true);
      if !ok { return; }
      ok := display.SetLevel(Dio, true);
      if !ok { return; }
      display.DelayUs(5);
      ok := display.SetLevel(Dio, false);
      if !ok { return; }
      display.DelayUs(5);
      ok := display.SetLevel(Clk, false);
      if !ok { return; }
      display.DelayUs(5);
      Seven(t0, StartEvents());
    }

    /** `tm1637_stop`. */
    method SendStop() returns (ok: bool)
      requires Valid()
      modifies this, display
      ensures Valid()
      ensures ok == LinesOk(display.faulty)
      ensures log == old(log) + [Stop]
    {
      ghost var t0 := display.trace;
      ghost var goal := Log(Stop);
      ok := display.SetLevel(Clk, false);
      if !ok { return; }
      ok := display.SetLevel(Dio, false);
      if !ok { return; }
      display.DelayUs(5);
      ok := display.SetLevel(Clk, true);
      if !ok { return; }
      display.DelayUs(5);
      ok := display.SetLevel(Dio, true);
      if !ok { return; }
      display.DelayUs(5);
      Seven(t0, StopEvents());
    }

    /** `init_tm1637`: display on. */
    method Init() returns (ok: bool)
      requires Valid()
      modifies this, display
      ensures Valid()
      ensures ok == LinesOk(display.faulty)
      ensures log == old(log) + Sent(InitOps(), display.faulty)
    {
      ghost var ops := InitOps();
      ok := SendStart();
      SnocSlice(old(log), ops, 0);
      if !ok { return; }
      ok := Put(DISPLAY_ON);
      SnocSlice(old(log), ops, 1);
      if !ok { return; }
      ok := SendStop();
      SnocSlice(old(log), ops, 2);
      if !ok { return; }
      assert ops[..3] == ops;
    }

    /** The digit loop of `display_number`: the last four decimal digits, right-aligned, blank where the number has run out. */
    static method DigitArray(number: nat) returns (digits: array<nat>)
      ensures fresh(digits) && digits[..] == Digits(number)
    {
      digits := new nat[4](_ => 0);
      var num := number;
      if number == 0 {
        digits[0] := 0;
      } else {
        for i := 4 downto 0
          invariant num == Drop(number, 4 - i)
          invariant forall k :: i <= k < 4 ==> digits[k] == Digits(number)[k]
        {
          DropStep(number, 3 - i);
          if num > 0 {
            digits[i] := num % 10;
            num := num / 10;
          } else {
            digits[i] := BLANK;
          }
        }
      }
    }

    /** `display_number`: the digits, then the three transactions. */
    method DisplayNumber(number: nat) returns (ok: bool)
      requires number < U32_LIMIT
      requires Valid()
      modifies this, display
      ensures Valid()
      ensures ok == LinesOk(display.faulty)
      ensures log == old(log) + Sent(NumberOps(number), display.faulty)
    {
      var digits := DigitArray(number);
      ghost var ops := NumberOps(number);
      ok := SendStart();
      SnocSlice(old(log), ops, 0);
      if !ok { return; }
      ok := Put(DATA_COMMAND);
      SnocSlice(old(log), ops, 1);
      if !ok { return; }
      ok := SendStop();
      SnocSlice(old(log), ops, 2);
      if !ok { return; }
      ok := SendStart();
      SnocSlice(old(log), ops, 3);
      if !ok { return; }
      ok := Put(ADDRESS_COMMAND);
      SnocSlice(old(log), ops, 4);
      if !ok { return; }
      for k := 0 to 4
        invariant Valid() && ok && LinesOk(display.faulty)
        invariant log == old(log) + ops[..5 + k]
        invariant digits[..] == Digits(number)
      {
        var segment := Segments(digits[k]);
        ok := Put(segment);
        SnocSlice(old(log), ops, 5 + k);
        if !ok { return; }
      }
      ok := SendStop();
      SnocSlice(old(log), ops, 9);
      if !ok { return; }
      ok := SendStart();
      SnocSlice(old(log), ops, 10);
      if !ok { return; }
      ok := Put(DISPLAY_ON);
      SnocSlice(old(log), ops, 11);
      if !ok { return; }
      ok := SendStop();
      SnocSlice(old(log), ops, 12);
      if !ok { return; }
      assert ops[..13] == ops;
    }

    /**
     * The two polling loops of `measure_distance`, reading the echo once per
     * microsecond; each gives up once more than 100 ms have passed.
     */
    static method TimeEcho(echo: nat -> bool) returns (r: Result<(nat, nat), Failure>)
      ensures r == EchoTimes(echo)
    {
      var now: nat := 0;
      while !echo(now)
        invariant now <= TIMEOUT_US + 1
        invariant Scan(echo, false, 0, now) == Scan(echo, false, 0, 0)
        decreases TIMEOUT_US + 1 - now
      {
        if now > TIMEOUT_US {
          assert Scan(echo, false, 0, now) == None;
          return Err(EchoHighTimeout);
        }
        assert Scan(echo, false, 0, now) == Scan(echo, false, 0, now + 1);
        now := now + 1;
      }
      var start: nat := now;
      assert Scan(echo, false, 0, 0) == Some(start);
      var restarted: nat := now;
      while echo(now)
        invariant restarted <= now <= restarted + TIMEOUT_US + 1
        invariant Scan(echo, true, restarted, now) == Scan(echo, true, restarted, restarted)
        decreases restarted + TIMEOUT_US + 1 - now
      {
        if now - restarted > TIMEOUT_US {
          assert Scan(echo, true, restarted, now) == None;
          return Err(EchoLowTimeout);
        }
        assert Scan(echo, true, restarted, now) == Scan(echo, true, restarted, now + 1);
        now := now + 1;
      }
      assert Scan(echo, true, restarted, restarted) == Some(now);
      var end: nat := now - restarted;
      return Ok((start, end));
    }

    /** `measure_distance` as written: trigger pulse, the two loops, `(end - start) / 58`. */
    method MeasureDistance(echo: nat -> bool) returns (r: Result<nat, Failure>)
      modifies trigger
      ensures trigger.trace == old(trigger.trace) + if Trig in trigger.faulty then [] else TriggerEvents()
      ensures r == if Trig in trigger.faulty then Err(PinFailure) else DistanceAsWritten(echo)
    {
      var ok := trigger.SetLevel(Trig, true);
      if !ok { return Err(PinFailure); }
      trigger.DelayUs(10);
      ok := trigger.SetLevel(Trig, false);
      if !ok { return Err(PinFailure); }
      var times := TimeEcho(echo);
      match times
      case Err(e) =>
        r := Err(e);
      case Ok((start, end)) =>
        if end < start {
          r := Err(Underflow);
        } else {
          r := Ok((end - start) / 58);
        }
    }

    /** `measure_distance` with the pulse width alone, `end / 58`. */
    method MeasureDistanceCorrected(echo: nat -> bool) returns (r: Result<nat, Failure>)
      modifies trigger
      ensures trigger.trace == old(trigger.trace) + if Trig in trigger.faulty then [] else TriggerEvents()
      ensures r == if Trig in trigger.faulty then Err(PinFailure) else Distance(echo)
    {
      var ok := trigger.SetLevel(Trig, true);
      if !ok { return Err(PinFailure); }
      trigger.DelayUs(10);
      ok := trigger.SetLevel(Trig, false);
      if !ok { return Err(PinFailure); }
      var times := TimeEcho(echo);
      match times
      case Err(e) =>
        r := Err(e);
      case Ok((_, end)) =>
        r := Ok(end / 58);
    }

    /** `update_display`: measure as written, then show the distance; a failed measurement is returned as it is, with nothing displayed. */
    method UpdateDisplay(echo: nat -> bool) returns (r: Result<(), Failure>)
      requires Valid()
      modifies this, display, trigger
      ensures Valid()
      ensures trigger.trace == old(trigger.trace) + if Trig in trigger.faulty then [] else TriggerEvents()
      ensures var m := if Trig in trigger.faulty then Err(PinFailure) else DistanceAsWritten(echo);
        (m.Err? ==> r == Err(m.error) && log == old(log) && display.trace == old(display.trace)) &&
        (m.Ok? ==> log == old(log) + Sent(NumberOps(m.value), display.faulty) &&
                   r == if LinesOk(display.faulty) then Ok(()) else Err(PinFailure))
    {
      var distance := MeasureDistance(echo);
      if distance.Err? {
        return Err(distance.error);
      }
      var ok := DisplayNumber(distance.value);
      if !ok {
        return Err(PinFailure);
      }
      return Ok(());
    }

    /** `update_display` over the corrected measurement: show the pulse width over 58; a failed measurement is returned as it is, with nothing displayed. */
    method UpdateDisplayCorrected(echo: nat -> bool) returns (r: Result<(), Failure>)
      requires Valid()
      modifies this, display, trigger
      ensures Valid()
      ensures trigger.trace == old(trigger.trace) + if Trig in trigger.faulty then [] else TriggerEvents()
      ensures var m := if Trig in trigger.faulty then Err(PinFailure) else Distance(echo);
        (m.Err? ==> r == Err(m.error) && log == old(log) && display.trace == old(display.trace)) &&
        (m.Ok? ==> log == old(log) + Sent(NumberOps(m.value), display.faulty) &&
                   r == if LinesOk(display.faulty) then Ok(()) else Err(PinFailure))
    {
      var distance := MeasureDistanceCorrected(echo);
      if distance.Err? {
        return Err(distance.error);
      }
      var ok := DisplayNumber(distance.value);
      if !ok {
        return Err(PinFailure);
      }
      return Ok(());
    }
  }

  // The receiving chip's view of this driver's wire.

  /** Inside a transaction, clock low, between bytes. */
  predicate Between(t: Chip) {
    t.open && !t.clk && t.bits == []
  }

  /** `tm1637_start` opens a transaction from an idle chip. */
  lemma StartReceive(t: Chip)
    requires Idle(t)
    ensures Receive(t, StartEvents()) == t.(clk := false, dio := false, open := true, bits := [], bytes := [])
  {
    var e0, e1, e2, e3, e4, e5, e6 :=
      Write(Clk, true), Write(Dio, true), Wait(5), Write(Dio, false), Wait(5), Write(Clk, false), Wait(5);
    var s6 := [e6];
    var s5 := [e5] + s6;
    var s4 := [e4] + s5;
    var s3 := [e3] + s4;
    var s2 := [e2] + s3;
    var s1 := [e1] + s2;
    assert StartEvents() == [e0] + s1;
    var t1 := t.(clk := true);
    var t2 := t1.(dio := true);
    var t4 := t2.(dio := false, open := true, bits := [], bytes := []);
    var t6 := t4.(clk := false);
    assert Step(t, e0) == t1;
    assert Step(t1, e1) == t2;
    assert Step(t2, e3) == t4;
    assert Step(t4, e5) == t6;
    ReceiveCons(t, e0, s1);
    ReceiveCons(t1, e1, s2);
    ReceiveCons(t2, e2, s3);
    ReceiveCons(t2, e3, s4);
    ReceiveCons(t4, e4, s5);
    ReceiveCons(t4, e5, s6);
    ReceiveCons(t6, e6, []);
    assert s6 == [e6] + [];
  }

  /** One bit of `tm1637_send_byte` is sampled on the rising clock edge. */
  lemma BitReceive(t: Chip, bit: bool)
    requires t.open && !t.clk && |t.bits| < 8
    ensures Receive(t, BitEvents(bit)) == t.(dio := bit, bits := t.bits + [bit])
  {
    var es := BitEvents(bit);
    assert es == [es[0]] + ([es[1]] + ([es[2]] + ([es[3]] + ([es[4]] + []))));
    ReceiveCons(t, es[0], es[1..]);
    var t1 := Step(t, es[0]);
    ReceiveCons(t1, es[1], es[2..]);
    var t2 := Step(t1, es[1]);
    ReceiveCons(t2, es[2], es[3..]);
    ReceiveCons(t2, es[3], es[4..]);
    var t4 := Step(t2, es[3]);
    ReceiveCons(t4, es[4], []);
  }

  /** Bits sent in turn are sampled in the order sent. */
  lemma {:induction false} BitsReceive(t: Chip, bits: seq<bool>)
    requires t.open && !t.clk && |t.bits| + |bits| <= 8 && bits != []
    ensures Receive(t, Flatten(bits, BitEvents)) == t.(dio := bits[|bits| - 1], bits := t.bits + bits)
    decreases bits
  {
    ReceiveAppend(t, BitEvents(bits[0]), Flatten(bits[1..], BitEvents));
    BitReceive(t, bits[0]);
    var next := t.(dio := bits[0], bits := t.bits + [bits[0]]);
    if |bits| == 1 {
      assert bits[1..] == [];
      assert t.bits + bits == t.bits + [bits[0]];
    } else {
      BitsReceive(next, bits[1..]);
      assert t.bits + [bits[0]] + bits[1..] == t.bits + bits;
    }
  }

  /** The acknowledge slot's clock pulse completes the byte. */
  lemma AckReceive(t: Chip)
    requires t.open && !t.clk && |t.bits| == 8
    ensures Receive(t, AckEvents()) == t.(dio := true, bits := [], bytes := t.bytes + [FromLsb(t.bits)])
  {
    var es := AckEvents();
    assert es == [es[0]] + ([es[1]] + ([es[2]] + ([es[3]] + ([es[4]] + ([es[5]] + ([es[6]] + []))))));
    ReceiveCons(t, es[0], es[1..]);
    var t1 := Step(t, es[0]);
    ReceiveCons(t1, es[1], es[2..]);
    var t2 := Step(t1, es[1]);
    ReceiveCons(t2, es[2], es[3..]);
    ReceiveCons(t2, es[3], es[4..]);
    var t4 := Step(t2, es[3]);
    ReceiveCons(t4, es[4], es[5..]);
    ReceiveCons(t4, es[5], es[6..]);
    var t6 := Step(t4, es[5]);
    ReceiveCons(t6, es[6], []);
  }

  /** `tm1637_send_byte` delivers its byte, least significant bit first. */
  lemma ByteReceive(t: Chip, b: Byte)
    requires Between(t)
    ensures Receive(t, ByteEvents(b)) == t.(dio := true, bytes := t.bytes + [b])
  {
    var bits := LsbBits(b);
    var f := Flatten(bits, BitEvents);
    ByteEventsBits(b);
    ReceiveAppend(t, f, AckEvents());
    BitsReceive(t, bits);
    assert t.bits + bits == bits;
    var t1 := t.(dio := bits[7], bits := bits);
    assert Receive(t, f) == t1;
    AckReceive(t1);
    LsbRoundTrip(b);
  }

  /** `tm1637_stop` closes the transaction with the bytes received. */
  lemma StopReceive(t: Chip)
    requires Between(t)
    ensures Receive(t, StopEvents()) == Closed(t, t.bytes)
  {
    var es := StopEvents();
    assert es == [es[0]] + ([es[1]] + ([es[2]] + ([es[3]] + ([es[4]] + ([es[5]] + ([es[6]] + []))))));
    ReceiveCons(t, es[0], es[1..]);
    var t1 := Step(t, es[0]);
    ReceiveCons(t1, es[1], es[2..]);
    var t2 := Step(t1, es[1]);
    ReceiveCons(t2, es[2], es[3..]);
    ReceiveCons(t2, es[3], es[4..]);
    var t4 := Step(t2, es[3]);
    ReceiveCons(t4, es[4], es[5..]);
    ReceiveCons(t4, es[5], es[6..]);
    var t6 := Step(t4, es[5]);
    ReceiveCons(t6, es[6], []);
  }

  /** The wire events of a run of `Send`s: the first byte's, then the rest's. */
  lemma SendsEvents(bs: seq<Byte>)
    requires bs != []
    ensures Flatten(Sends(bs), OpEvents) == ByteEvents(bs[0]) + Flatten(Sends(bs[1..]), OpEvents)
  {
    SendsCons(bs);
    assert Sends(bs)[1..] == Sends(bs[1..]);
  }

  /** Bytes sent in turn are received in the order sent. */
  lemma {:induction false} SendsReceive(t: Chip, bs: seq<Byte>)
    requires Between(t)
    ensures Between(Receive(t, Flatten(Sends(bs), OpEvents)))
    ensures Receive(t, Flatten(Sends(bs), OpEvents)) == t.(dio := Receive(t, Flatten(Sends(bs), OpEvents)).dio, bytes := t.bytes + bs)
    decreases bs
  {
    if bs == [] {
      assert Sends(bs) == [];
      assert t.bytes + bs == t.bytes;
    } else {
      SendsEvents(bs);
      var head, rest := ByteEvents(bs[0]), Flatten(Sends(bs[1..]), OpEvents);
      ByteReceive(t, bs[0]);
      ReceiveAppend(t, head, rest);
      var next := t.(dio := true, bytes := t.bytes + [bs[0]]);
      SendsReceive(next, bs[1..]);
      assert t.bytes + [bs[0]] + bs[1..] == t.bytes + bs;
    }
  }

  /** A whole transaction delivers exactly its bytes and leaves the chip idle. */
  lemma FrameReceive(t: Chip, bs: seq<Byte>)
    requires Idle(t)
    ensures Receive(t, Flatten(Frame(bs), OpEvents)) == Closed(t, bs)
  {
    var ops := Frame(bs);
    assert ops == [Start] + Sends(bs) + [Stop];
    FlattenAppend([Start] + Sends(bs), [Stop], OpEvents);
    FlattenAppend([Start], Sends(bs), OpEvents);
    var a, b, c := StartEvents(), Flatten(Sends(bs), OpEvents), StopEvents();
    assert Flatten([Start], OpEvents) == a;
    assert Flatten([Stop], OpEvents) == c;
    assert Flatten(ops, OpEvents) == a + b + c;
    ReceiveAppend(t, a + b, c);
    ReceiveAppend(t, a, b);
    StartReceive(t);
    var t1 := t.(clk := false, dio := false, open := true, bits := [], bytes := []);
    assert Receive(t, a) == t1;
    SendsReceive(t1, bs);
    var t2 := Receive(t1, b);
    assert t2.bytes == bs;
    StopReceive(t2);
  }

  /**
   * Round trip for `display_number`: with healthy lines, an idle chip that
   * watched the wire receives the three transactions, the digit glyphs in
   * the middle one, and is idle again.
   */
  lemma NumberReceive(t: Chip, n: nat, faulty: set<Pin>)
    requires LinesOk(faulty) && Idle(t)
    ensures var r := Receive(t, Wire(NumberOps(n), faulty));
      Idle(r) && r.frames == t.frames + [[DATA_COMMAND], [ADDRESS_COMMAND] + SegmentBytes(n), [DISPLAY_ON]]
  {
    WireHealthy(NumberOps(n), faulty);
    NumberFrames(n);
    var f1, f2, f3 := Frame([DATA_COMMAND]), Frame([ADDRESS_COMMAND] + SegmentBytes(n)), Frame([DISPLAY_ON]);
    FlattenAppend(f1 + f2, f3, OpEvents);
    FlattenAppend(f1, f2, OpEvents);
    var e1, e2, e3 := Flatten(f1, OpEvents), Flatten(f2, OpEvents), Flatten(f3, OpEvents);
    ReceiveAppend(t, e1 + e2, e3);
    ReceiveAppend(t, e1, e2);
    FrameReceive(t, [DATA_COMMAND]);
    var t1 := Closed(t, [DATA_COMMAND]);
    FrameReceive(t1, [ADDRESS_COMMAND] + SegmentBytes(n));
    var t2 := Closed(t1, [ADDRESS_COMMAND] + SegmentBytes(n));
    FrameReceive(t2, [DISPLAY_ON]);
  }

  /** `init_tm1637` with healthy lines turns the display on. */
  lemma InitReceive(t: Chip, faulty: set<Pin>)
    requires LinesOk(faulty) && Idle(t)
    ensures Receive(t, Wire(InitOps(), faulty)) == Closed(t, [DISPLAY_ON])
  {
    WireHealthy(InitOps(), faulty);
    FrameReceive(t, [DISPLAY_ON]);
  }
}
