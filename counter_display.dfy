/**
 * The TM1637 four-digit display driver of the counter board
 * (esp32-async-counter/src/display.rs): CLK and DIO bit-banged through a
 * `Port`, every pin error discarded with `.ok()`.
 *
 * Because errors are discarded, every write the driver schedules is
 * attempted, whatever fails: each routine is specified by the events it
 * attempts (`Port.attempts`), and the wire holds those of them that did not
 * fail (`Port.Consistent`). Steps of a routine are kept in a ghost log of
 * `Tm1637.Op`s, as for the ultrasonic board's driver.
 */
module CounterDisplay {
  import opened Bits
  import opened Gpio
  import opened Tm1637
  import opened Wrappers

  /** `start`: DIO high, CLK high, then DIO falls while CLK is high, then CLK low. */
  function StartEvents(): seq<Event> {
    [Write(Dio, true), Write(Clk, true), Write(Dio, false), Write(Clk, false)]
  }

  /** `stop`: both lines low, then CLK rises, then DIO rises while CLK is high. */
  function StopEvents(): seq<Event> {
    [Write(Clk, false), Write(Dio, false), Write(Clk, true), Write(Dio, true)]
  }

  /** One bit of `write_byte`: CLK low, DIO takes the bit, CLK high. */
  function BitEvents(bit: bool): seq<Event> {
    [Write(Clk, false), Write(Dio, bit), Write(Clk, true)]
  }

  /** The acknowledge slot closing `write_byte`: one more clock pulse with DIO released high. */
  function AckEvents(): seq<Event> {
    [Write(Clk, false), Write(Dio, true), Write(Clk, true)]
  }

  /** `write_byte`: the eight bits, least significant first (events 3i to 3i + 2 carry bit i), then the acknowledge slot. */
  function ByteEvents(b: Byte): (es: seq<Event>)
    ensures |es| == 27
  {
    seq(27, k requires 0 <= k < 27 => if k < 24 then BitEvents(Bit(b, k / 3))[k % 3] else AckEvents()[k - 24])
  }

  /** The events of one transaction step; a pause is `Ets::delay_ms`. */
  function OpEvents(op: Op): seq<Event> {
    match op
    case Start => StartEvents()
    case Stop => StopEvents()
    case Send(b) => ByteEvents(b)
    case Pause(us) => [Wait(us)]
  }

  /** In `write_byte`, data changes only while the clock is low: every DIO write comes right after a CLK low write. */
  lemma ByteEventsClockLow(b: Byte, k: nat)
    requires k < 27 && ByteEvents(b)[k].Write? && ByteEvents(b)[k].pin == Dio
    ensures k > 0 && ByteEvents(b)[k - 1] == Write(Clk, false)
  {
    if k < 24 {
      assert ByteEvents(b)[k] == BitEvents(Bit(b, k / 3))[k % 3];
      assert ByteEvents(b)[k - 1] == BitEvents(Bit(b, (k - 1) / 3))[(k - 1) % 3];
    } else {
      assert ByteEvents(b)[k] == AckEvents()[k - 24];
    }
  }

  /** Bit i of the byte is driven on DIO by the i-th rising clock edge of `write_byte`, least significant first. */
  lemma ByteEventsBitOrder(b: Byte, i: nat)
    requires i < 8
    ensures ByteEvents(b)[3 * i + 1] == Write(Dio, Bit(b, i)) && ByteEvents(b)[3 * i + 2] == Write(Clk, true)
  {
    assert (3 * i + 1) / 3 == i && (3 * i + 1) % 3 == 1;
    assert (3 * i + 2) / 3 == i && (3 * i + 2) % 3 == 2;
  }

  lemma ByteEventsStep(b: Byte, i: nat)
    requires i < 8
    ensures ByteEvents(b)[..3 * (i + 1)] == ByteEvents(b)[..3 * i] + BitEvents(Bit(b, i))
  {
    var es := ByteEvents(b);
    var bits := BitEvents(Bit(b, i));
    forall j | 0 <= j < 3
      ensures es[3 * i + j] == bits[j]
    {
      SplitThree(i, j);
    }
    assert es[..3 * (i + 1)] == es[..3 * i] + es[3 * i..3 * i + 3];
  }

  /** Event 3i + j of a byte belongs to bit i, at position j of it. */
  lemma SplitThree(i: nat, j: nat)
    requires j < 3
    ensures (3 * i + j) / 3 == i && (3 * i + j) % 3 == j
  {
  }

  lemma {:induction false} ByteEventsPrefix(b: Byte, i: nat)
    requires i <= 8
    ensures ByteEvents(b)[..3 * i] == Flatten(LsbBits(b)[..i], BitEvents)
  {
    if i > 0 {
      ByteEventsPrefix(b, i - 1);
      ByteEventsStep(b, i - 1);
      assert LsbBits(b)[..i] == LsbBits(b)[..i - 1] + [LsbBits(b)[i - 1]];
      FlattenSnoc(LsbBits(b)[..i - 1], LsbBits(b)[i - 1], BitEvents);
    }
  }

  /** `write_byte` is one bit after the other, least significant first, then the acknowledge slot. */
  lemma ByteEventsBits(b: Byte)
    ensures ByteEvents(b) == Flatten(LsbBits(b), BitEvents) + AckEvents()
  {
    ByteEventsPrefix(b, 8);
    assert LsbBits(b)[..8] == LsbBits(b);
    assert ByteEvents(b) == ByteEvents(b)[..24] + AckEvents();
  }

  /** The four digits `display_number` sends: thousands, hundreds, tens and units of the number. */
  function Digits(num: nat): (ds: seq<nat>)
    ensures |ds| == 4 && forall k :: 0 <= k < 4 ==> ds[k] < 10
  {
    [(num / 1000) % 10, (num / 100) % 10, (num / 10) % 10, num % 10]
  }

  /** The four segment bytes `display_number` sends, left to right. */
  function SegmentBytes(num: nat): (bs: seq<Byte>)
    ensures |bs| == 4
  {
    var ds := Digits(num);
    seq(4, k requires 0 <= k < 4 => Segments(ds[k]))
  }

  /**
   * The digits are those of `num mod 10000`, zero-padded to four: read as a
   * four-digit decimal numeral they give it back.
   */
  lemma DigitsValue(num: nat)
    ensures var ds := Digits(num); ds[0] * 1000 + ds[1] * 100 + ds[2] * 10 + ds[3] == num % 10000
  {
    var q, r := num / 10000, num % 10000;
    var a, b := r / 1000, r % 1000;
    var c, d := b / 100, b % 100;
    var e, f := d / 10, d % 10;
    DivOf1000(num, 10 * q + a, 100 * c + 10 * e + f);
    DivOf10(10 * q + a, q, a);
    DivOf100(num, 100 * q + 10 * a + c, 10 * e + f);
    DivOf10(100 * q + 10 * a + c, 10 * q + a, c);
    DivOf10(num, 1000 * q + 100 * a + 10 * c + e, f);
    DivOf10(1000 * q + 100 * a + 10 * c + e, 100 * q + 10 * a + c, e);
  }

  lemma DivOf10(n: nat, q: nat, r: nat)
    requires n == 10 * q + r && r < 10
    ensures n / 10 == q && n % 10 == r
  {
  }

  lemma DivOf100(n: nat, q: nat, r: nat)
    requires n == 100 * q + r && r < 100
    ensures n / 100 == q
  {
  }

  lemma DivOf1000(n: nat, q: nat, r: nat)
    requires n == 1000 * q + r && r < 1000
    ensures n / 1000 == q
  {
  }

  /** No position is ever blank: each byte is the glyph of a decimal digit, and reads back as that digit. */
  lemma SegmentsNeverBlank(num: nat, k: nat)
    requires k < 4
    ensures SegmentBytes(num)[k] != 0
    ensures GlyphDigit(SegmentBytes(num)[k]) == Some(Digits(num)[k])
  {
    GlyphDigitSegments(Digits(num)[k]);
  }

  /** 12345 shows "2345", 42 shows "0042" and 0 shows "0000". */
  lemma DigitsExample()
    ensures Digits(12345) == [2, 3, 4, 5] && Digits(42) == [0, 0, 4, 2] && Digits(0) == [0, 0, 0, 0]
  {
  }

  /** The steps `display_number` performs: three framed transactions, with a 1 ms pause after each of the first two. */
  function NumberOps(num: nat): (ops: seq<Op>)
    ensures |ops| == 15
  {
    var segs := SegmentBytes(num);
    seq(15, i requires 0 <= i < 15 =>
      if i == 0 || i == 4 || i == 12 then Start
      else if i == 2 || i == 10 || i == 14 then Stop
      else if i == 3 || i == 11 then Pause(1000)
      else if i == 1 then Send(DATA_COMMAND)
      else if i == 5 then Send(ADDRESS_COMMAND)
      else if i == 13 then Send(DISPLAY_ON)
      else Send(segs[i - 6]))
  }

  /** The steps of `display_number` before the digits. */
  function NumberHead(): seq<Op> {
    Frame([DATA_COMMAND]) + [Pause(1000), Start, Send(ADDRESS_COMMAND)]
  }

  /** The steps of `display_number` after the digits. */
  function NumberTail(): seq<Op> {
    [Stop, Pause(1000)] + Frame([DISPLAY_ON])
  }

  lemma NumberOpsSplit(num: nat)
    ensures NumberOps(num) == NumberHead() + Sends(SegmentBytes(num)) + NumberTail()
  {
  }

  /** `display_number` is [0x40], a pause, [0xC0, d0, d1, d2, d3], a pause, [0x8F]. */
  lemma NumberFrames(num: nat)
    ensures NumberOps(num) ==
      Frame([DATA_COMMAND]) + [Pause(1000)] + Frame([ADDRESS_COMMAND] + SegmentBytes(num)) + [Pause(1000)] + Frame([DISPLAY_ON])
  {
    var segs := SegmentBytes(num);
    var f1, f2, f3 := Frame([DATA_COMMAND]), Frame([ADDRESS_COMMAND] + segs), Frame([DISPLAY_ON]);
    var rhs := f1 + [Pause(1000)] + f2 + [Pause(1000)] + f3;
    assert |rhs| == 15;
    forall i | 0 <= i < 15
      ensures NumberOps(num)[i] == rhs[i]
    {
      if 4 <= i < 11 {
        assert rhs[i] == f2[i - 4];
      } else if i >= 12 {
        assert rhs[i] == f3[i - 12];
      }
    }
  }

  /** Three events appended one at a time. */
  lemma Three(t0: seq<Event>, es: seq<Event>)
    requires |es| == 3
    ensures t0 + [es[0]] + [es[1]] + [es[2]] == t0 + es
  {
    assert es == [es[0]] + [es[1]] + [es[2]];
  }

  /** Four events appended one at a time. */
  lemma Four(t0: seq<Event>, es: seq<Event>)
    requires |es| == 4
    ensures t0 + [es[0]] + [es[1]] + [es[2]] + [es[3]] == t0 + es
  {
    assert es == [es[0]] + [es[1]] + [es[2]] + [es[3]];
  }

  class Display {
    const port: Port
    /** The attempts on the port as the driver found them. */
    ghost const base: seq<Event>
    /** Every step attempted, in order. */
    ghost var log: seq<Op>

    /** The port has attempted what it had before, then the events of the logged steps. */
    ghost predicate Valid()
      reads this, port
    {
      port.Consistent() && port.attempts == base + Flatten(log, OpEvents)
    }

    /** `TM1637Display::new`: takes the pins as they are. */
    constructor (port: Port)
      requires port.Consistent()
      ensures this.port == port && log == [] && Valid()
    {
      this.port := port;
      base := port.attempts;
      log := [];
    }

    /** Logs step `op` and returns the attempts the step must leave behind. */
    ghost method Log(op: Op) returns (goal: seq<Event>)
      requires Valid()
      modifies this
      ensures log == old(log) + [op]
      ensures goal == port.attempts + OpEvents(op)
      ensures goal == base + Flatten(log, OpEvents)
    {
      FlattenSnoc(log, op, OpEvents);
      AppendAssoc(base, Flatten(log, OpEvents), OpEvents(op));
      goal := port.attempts + OpEvents(op);
      log := log + [op];
    }

    /** `start`. */
    method Start()
      requires Valid()
      modifies this, port
      ensures Valid() && log == old(log) + [Op.Start]
    {
      ghost var a0 := port.attempts;
      ghost var goal := Log(Op.Start);
      var ok := port.SetLevel(Dio, true);
      ok := port.SetLevel(Clk, true);
      ok := port.SetLevel(Dio, false);
      ok := port.SetLevel(Clk, false);
      Four(a0, StartEvents());
    }

    /** `stop`. */
    method Stop()
      requires Valid()
      modifies this, port
      ensures Valid() && log == old(log) + [Op.Stop]
    {
      ghost var a0 := port.attempts;
      ghost var goal := Log(Op.Stop);
      var ok := port.SetLevel(Clk, false);
      ok := port.SetLevel(Dio, false);
      ok := port.SetLevel(Clk, true);
      ok := port.SetLevel(Dio, true);
      Four(a0, StopEvents());
    }

    /** `Ets::delay_ms`. */
    method DelayMs(ms: nat)
      requires Valid()
      modifies this, port
      ensures Valid() && log == old(log) + [Pause(1000 * ms)]
    {
      ghost var goal := Log(Pause(1000 * ms));
      port.DelayUs(1000 * ms);
    }

    /** `write_byte`: always reports an acknowledge, which is never read. */
    method WriteByte(data: Byte) returns (ack: bool)
      requires Valid()
      modifies this, port
      ensures Valid() && log == old(log) + [Send(data)]
      ensures ack
    {
      ghost var a0 := port.attempts;
      ghost var goal := Log(Send(data));
      for i := 0 to 8
        invariant port.Consistent() && log == old(log) + [Send(data)]
        invariant port.attempts == a0 + ByteEvents(data)[..3 * i]
      {
        ghost var a1 := port.attempts;
        ByteEventsStep(data, i);
        var ok := port.SetLevel(Clk, false);
        if ShiftedBit(data, i) {
          ok := port.SetLevel(Dio, true);
        } else {
          ok := port.SetLevel(Dio, false);
        }
        ok := port.SetLevel(Clk, true);
        Three(a1, BitEvents(Bit(data, i)));
      }
      ghost var a2 := port.attempts;
      var ok := port.SetLevel(Clk, false);
      ok := port.SetLevel(Dio, true);
      ok := port.SetLevel(Clk, true);
      Three(a2, AckEvents());
      assert ByteEvents(data) == ByteEvents(data)[..24] + AckEvents();
      AppendAssoc(a0, ByteEvents(data)[..24], AckEvents());
      ack := true;
    }

    /** `start`, one `write_byte`, `stop`: the one-byte transaction `display_number` sends twice. */
    method Command(b: Byte)
      requires Valid()
      modifies this, port
      ensures Valid() && log == old(log) + Frame([b])
    {
      Start();
      var ack := WriteByte(b);
      Stop();
      assert Frame([b]) == [Op.Start, Send(b), Op.Stop];
    }

    /** The loop of `display_number` that writes the digit bytes in turn. */
    method WriteBytes(bs: seq<Byte>)
      requires Valid()
      modifies this, port
      ensures Valid() && log == old(log) + Sends(bs)
    {
      for k := 0 to |bs|
        invariant Valid()
        invariant log == old(log) + Sends(bs[..k])
      {
        var ack := WriteByte(bs[k]);
        assert Sends(bs[..k + 1]) == Sends(bs[..k]) + [Send(bs[k])];
      }
      assert bs[..|bs|] == bs;
    }

    /** `display_number`: the three transactions, whatever pin writes fail. */
    method DisplayNumber(num: nat)
      requires num < 0x1_0000
      requires Valid()
      modifies this, port
      ensures Valid() && log == old(log) + NumberOps(num)
      ensures port.attempts == old(port.attempts) + Flatten(NumberOps(num), OpEvents)
      ensures port.trace == old(port.trace) + Skip(Flatten(NumberOps(num), OpEvents), port.faulty)
    {
      ghost var l0 := log;
      Command(0x40);
      DelayMs(1);
      Start();
      var ack := WriteByte(0xC0);
      ghost var head := NumberHead();
      assert log == l0 + head;
      var digits := [Segments((num / 1000) % 10), Segments((num / 100) % 10), Segments((num / 10) % 10), Segments(num % 10)];
      assert digits == SegmentBytes(num);
      WriteBytes(digits);
      ghost var mid := log;
      Stop();
      DelayMs(1);
      Command(0x88 | 0x07);
      assert log == mid + NumberTail();
      ghost var ops := NumberOps(num);
      NumberOpsSplit(num);
      AppendAssoc(l0, head + Sends(digits), NumberTail());
      AppendAssoc(l0, head, Sends(digits));
      FlattenAppend(old(log), ops, OpEvents);
      AppendAssoc(base, Flatten(old(log), OpEvents), Flatten(ops, OpEvents));
      SkipAppend(old(port.attempts), Flatten(ops, OpEvents), port.faulty);
    }
  }

  // The receiving chip's view of this driver's wire.

  /** Inside a transaction, between bytes. */
  predicate Ready(t: Chip) {
    t.open && t.bits == []
  }

  /** `start` opens a transaction from an idle chip. */
  lemma StartReceive(t: Chip)
    requires Idle(t)
    ensures Receive(t, StartEvents()) == t.(clk := false, dio := false, open := true, bits := [], bytes := [])
  {
    var e0, e1, e2, e3 := Write(Dio, true), Write(Clk, true), Write(Dio, false), Write(Clk, false);
    var s3 := [e3];
    var s2 := [e2] + s3;
    var s1 := [e1] + s2;
    assert StartEvents() == [e0] + s1;
    var t1 := t.(dio := true);
    var t2 := t1.(clk := true);
    var t3 := t2.(dio := false, open := true, bits := [], bytes := []);
    var t4 := t3.(clk := false);
    assert Step(t, e0) == t1;
    assert Step(t1, e1) == t2;
    assert Step(t2, e2) == t3;
    assert Step(t3, e3) == t4;
    ReceiveCons(t, e0, s1);
    ReceiveCons(t1, e1, s2);
    ReceiveCons(t2, e2, s3);
    ReceiveCons(t3, e3, []);
    assert s3 == [e3] + [];
  }

  /** One bit of `write_byte` is sampled on its rising clock edge. */
  lemma BitReceive(t: Chip, bit: bool)
    requires t.open && |t.bits| < 8
    ensures Receive(t, BitEvents(bit)) == t.(clk := true, dio := bit, bits := t.bits + [bit])
  {
    var e0, e1, e2 := Write(Clk, false), Write(Dio, bit), Write(Clk, true);
    var s2 := [e2];
    var s1 := [e1] + s2;
    assert BitEvents(bit) == [e0] + s1;
    var t1 := t.(clk := false);
    var t2 := t1.(dio := bit);
    var t3 := t2.(clk := true, bits := t.bits + [bit]);
    assert Step(t, e0) == t1;
    assert Step(t1, e1) == t2;
    assert Step(t2, e2) == t3;
    ReceiveCons(t, e0, s1);
    ReceiveCons(t1, e1, s2);
    ReceiveCons(t2, e2, []);
    assert s2 == [e2] + [];
  }

  /** The acknowledge slot's clock pulse completes the byte. */
  lemma AckReceive(t: Chip)
    requires t.open && |t.bits| == 8
    ensures Receive(t, AckEvents()) == t.(clk := true, dio := true, bits := [], bytes := t.bytes + [FromLsb(t.bits)])
  {
    var e0, e1, e2 := Write(Clk, false), Write(Dio, true), Write(Clk, true);
    var s2 := [e2];
    var s1 := [e1] + s2;
    assert AckEvents() == [e0] + s1;
    var t1 := t.(clk := false);
    var t2 := t1.(dio := true);
    var t3 := t2.(clk := true, bits := [], bytes := t.bytes + [FromLsb(t.bits)]);
    assert Step(t, e0) == t1;
    assert Step(t1, e1) == t2;
    assert Step(t2, e2) == t3;
    ReceiveCons(t, e0, s1);
    ReceiveCons(t1, e1, s2);
    ReceiveCons(t2, e2, []);
    assert s2 == [e2] + [];
  }

  /** Bits sent in turn are sampled in the order sent. */
  lemma {:induction false} BitsReceive(t: Chip, bits: seq<bool>)
    requires t.open && |t.bits| + |bits| <= 8 && bits != []
    ensures Receive(t, Flatten(bits, BitEvents)) == t.(clk := true, dio := bits[|bits| - 1], bits := t.bits + bits)
    decreases bits
  {
    ReceiveAppend(t, BitEvents(bits[0]), Flatten(bits[1..], BitEvents));
    BitReceive(t, bits[0]);
    var next := t.(clk := true, dio := bits[0], bits := t.bits + [bits[0]]);
    assert Receive(t, BitEvents(bits[0])) == next;
    if |bits| == 1 {
      assert bits[1..] == [];
      assert t.bits + bits == t.bits + [bits[0]];
    } else {
      BitsReceive(next, bits[1..]);
      assert t.bits + [bits[0]] + bits[1..] == t.bits + bits;
    }
  }

  /** `write_byte` delivers its byte, least significant bit first. */
  lemma ByteReceive(t: Chip, b: Byte)
    requires Ready(t)
    ensures Receive(t, ByteEvents(b)) == t.(clk := true, dio := true, bytes := t.bytes + [b])
  {
    var bits := LsbBits(b);
    var f := Flatten(bits, BitEvents);
    ByteEventsBits(b);
    ReceiveAppend(t, f, AckEvents());
    BitsReceive(t, bits);
    assert t.bits + bits == bits;
    var t1 := t.(clk := true, dio := bits[7], bits := bits);
    assert Receive(t, f) == t1;
    AckReceive(t1);
    LsbRoundTrip(b);
  }

  /** `stop` closes the transaction with the bytes received. */
  lemma StopReceive(t: Chip)
    requires Ready(t)
    ensures Receive(t, StopEvents()) == Closed(t, t.bytes)
  {
    var e0, e1, e2, e3 := Write(Clk, false), Write(Dio, false), Write(Clk, true), Write(Dio, true);
    var s3 := [e3];
    var s2 := [e2] + s3;
    var s1 := [e1] + s2;
    assert StopEvents() == [e0] + s1;
    var t1 := t.(clk := false);
    var t2 := t1.(dio := false);
    var t3 := t2.(clk := true, bits := [false]);
    var t4 := Closed(t, t.bytes);
    assert Step(t, e0) == t1;
    assert Step(t1, e1) == t2;
    assert Step(t2, e2) == t3;
    assert Step(t3, e3) == t4;
    ReceiveCons(t, e0, s1);
    ReceiveCons(t1, e1, s2);
    ReceiveCons(t2, e2, s3);
    ReceiveCons(t3, e3, []);
    assert s3 == [e3] + [];
  }

  /** The wire events of a run of `Send`s: the first byte's, then the rest's. */
  lemma SendsEvents(bs: seq<Byte>)
    requires bs != []
    ensures Flatten(Sends(bs), OpEvents) == ByteEvents(bs[0]) + Flatten(Sends(bs[1..]), OpEvents)
  {
    SendsCons(bs);
    assert Sends(bs)[1..] == Sends(bs[1..]);
  }

  /** Bytes sent in turn are received in the order sent. */
  lemma {:induction false} SendsReceive(t: Chip, bs: seq<Byte>)
    requires Ready(t)
    ensures var r := Receive(t, Flatten(Sends(bs), OpEvents));
      Ready(r) && r.bytes == t.bytes + bs && r.frames == t.frames
    decreases bs
  {
    if bs == [] {
      assert Sends(bs) == [];
      assert t.bytes + bs == t.bytes;
    } else {
      SendsEvents(bs);
      var head, rest := ByteEvents(bs[0]), Flatten(Sends(bs[1..]), OpEvents);
      ByteReceive(t, bs[0]);
      ReceiveAppend(t, head, rest);
      var next := t.(clk := true, dio := true, bytes := t.bytes + [bs[0]]);
      assert Receive(t, head) == next;
      SendsReceive(next, bs[1..]);
      assert t.bytes + [bs[0]] + bs[1..] == t.bytes + bs;
    }
  }

  /** A whole transaction delivers exactly its bytes and leaves the chip idle. */
  lemma FrameReceive(t: Chip, bs: seq<Byte>)
    requires Idle(t)
    ensures Receive(t, Flatten(Frame(bs), OpEvents)) == Closed(t, bs)
  {
    var ops := Frame(bs);
    assert ops == [Start] + Sends(bs) + [Stop];
    FlattenAppend([Start] + Sends(bs), [Stop], OpEvents);
    FlattenAppend([Start], Sends(bs), OpEvents);
    var a, b, c := StartEvents(), Flatten(Sends(bs), OpEvents), StopEvents();
    assert Flatten([Start], OpEvents) == a;
    assert Flatten([Stop], OpEvents) == c;
    assert Flatten(ops, OpEvents) == a + b + c;
    ReceiveAppend(t, a + b, c);
    ReceiveAppend(t, a, b);
    StartReceive(t);
    var t1 := t.(clk := false, dio := false, open := true, bits := [], bytes := []);
    assert Receive(t, a) == t1;
    SendsReceive(t1, bs);
    var t2 := Receive(t1, b);
    assert t2.bytes == bs;
    StopReceive(t2);
  }

  /** A pause changes nothing on the chip. */
  lemma PauseReceive(t: Chip, us: nat)
    ensures Receive(t, Flatten([Pause(us)], OpEvents)) == t
  {
    assert Flatten([Pause(us)], OpEvents) == [Wait(us)];
    ReceiveCons(t, Wait(us), []);
  }

  /** Every step writes only CLK and DIO. */
  lemma OpLines(op: Op, faulty: set<Pin>)
    requires Clk !in faulty && Dio !in faulty
    ensures !Fails(OpEvents(op), faulty)
  {
    var es := OpEvents(op);
    forall j | 0 <= j < |es|
      ensures !Rejected(es[j], faulty)
    {
      match op
      case Send(b) =>
        if j < 24 {
          assert es[j] == BitEvents(Bit(b, j / 3))[j % 3];
        } else {
          assert es[j] == AckEvents()[j - 24];
        }
      case _ =>
    }
    RunIs(es, |es|, faulty);
  }

  /** With both lines healthy, the wire holds every event of the steps. */
  lemma {:induction false} HealthyWire(ops: seq<Op>, faulty: set<Pin>)
    requires Clk !in faulty && Dio !in faulty
    ensures Skip(Flatten(ops, OpEvents), faulty) == Flatten(ops, OpEvents)
  {
    if ops != [] {
      HealthyWire(ops[1..], faulty);
      OpLines(ops[0], faulty);
      SkipKeeps(OpEvents(ops[0]), faulty);
      SkipAppend(OpEvents(ops[0]), Flatten(ops[1..], OpEvents), faulty);
    }
  }

  /**
   * Round trip for `display_number`: with both lines healthy, an idle chip
   * that watched the wire receives the three transactions, the digit glyphs
   * in the middle one, and is idle again.
   */
  lemma NumberReceive(t: Chip, num: nat, faulty: set<Pin>)
    requires Clk !in faulty && Dio !in faulty && Idle(t)
    ensures var r := Receive(t, Skip(Flatten(NumberOps(num), OpEvents), faulty));
      Idle(r) && r.frames == t.frames + [[DATA_COMMAND], [ADDRESS_COMMAND] + SegmentBytes(num), [DISPLAY_ON]]
  {
    HealthyWire(NumberOps(num), faulty);
    NumberFrames(num);
    var f1, f2, f3 := Frame([DATA_COMMAND]), Frame([ADDRESS_COMMAND] + SegmentBytes(num)), Frame([DISPLAY_ON]);
    var p := [Pause(1000)];
    FlattenAppend(f1 + p + f2 + p, f3, OpEvents);
    FlattenAppend(f1 + p + f2, p, OpEvents);
    FlattenAppend(f1 + p, f2, OpEvents);
    FlattenAppend(f1, p, OpEvents);
    var e1, ep, e2, e3 := Flatten(f1, OpEvents), Flatten(p, OpEvents), Flatten(f2, OpEvents), Flatten(f3, OpEvents);
    assert Flatten(NumberOps(num), OpEvents) == e1 + ep + e2 + ep + e3;
    ReceiveAppend(t, e1 + ep + e2 + ep, e3);
    ReceiveAppend(t, e1 + ep + e2, ep);
    ReceiveAppend(t, e1 + ep, e2);
    ReceiveAppend(t, e1, ep);
    FrameReceive(t, [DATA_COMMAND]);
    var t1 := Closed(t, [DATA_COMMAND]);
    PauseReceive(t1, 1000);
    FrameReceive(t1, [ADDRESS_COMMAND] + SegmentBytes(num));
    var t2 := Closed(t1, [ADDRESS_COMMAND] + SegmentBytes(num));
    PauseReceive(t2, 1000);
    FrameReceive(t2, [DISPLAY_ON]);
  }
}
