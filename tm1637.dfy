/**
 * What the two TM1637 drivers have in common: the transaction steps they
 * perform, the seven-segment table, and the receiving chip.
 *
 * The TM1637's two-wire interface, as its data sheet describes it: DIO
 * falling while CLK is high is a START and opens a transaction; DIO rising
 * while CLK is high is a STOP and closes it. Inside a transaction DIO is
 * sampled on every rising edge of CLK, least significant bit first; after
 * eight data bits the ninth clock pulse is the acknowledge slot, which
 * completes the byte. The model keeps the bytes of every closed transaction.
 */
module Tm1637 {
  import opened Bits
  import opened Gpio
  import opened Wrappers

  /** Data command: write display registers, address auto-increment. */
  const DATA_COMMAND: Byte := 0x40
  /** Address command: start at the leftmost digit. */
  const ADDRESS_COMMAND: Byte := 0xC0
  /** Display control: display on, brightness 7. */
  const DISPLAY_ON: Byte := 0x8F

  /** The steps of a transaction, as the drivers' helper functions perform them. */
  datatype Op = Start | Stop | Send(b: Byte) | Pause(us: nat)

  /** Each byte sent in turn. */
  function Sends(bs: seq<Byte>): (ops: seq<Op>)
    ensures |ops| == |bs| && forall i :: 0 <= i < |bs| ==> ops[i] == Send(bs[i])
  {
    seq(|bs|, i requires 0 <= i < |bs| => Send(bs[i]))
  }

  /** One transaction: START, the bytes, STOP. */
  function Frame(bs: seq<Byte>): (ops: seq<Op>)
    ensures |ops| == |bs| + 2 && ops[0] == Start && ops[|ops| - 1] == Stop
    ensures forall i :: 0 <= i < |bs| ==> ops[i + 1] == Send(bs[i])
  {
    [Start] + Sends(bs) + [Stop]
  }

  lemma SendsCons(bs: seq<Byte>)
    requires bs != []
    ensures Sends(bs) == [Send(bs[0])] + Sends(bs[1..])
  {
  }

  /** Segments lit for a digit (bit 0 = segment a ... bit 6 = segment g); anything but 0..9 is blank. */
  function Segments(d: nat): (s: Byte)
    ensures s != 0 <==> d < 10
  {
    if d == 0 then 0x3F else if d == 1 then 0x06 else if d == 2 then 0x5B
    else if d == 3 then 0x4F else if d == 4 then 0x66 else if d == 5 then 0x6D
    else if d == 6 then 0x7D else if d == 7 then 0x07 else if d == 8 then 0x7F
    else if d == 9 then 0x6F else 0x00
  }

  /** No two digits share a glyph, so a glyph identifies its digit. */
  lemma SegmentsDistinct(d: nat, e: nat)
    requires d < 10 && e < 10 && Segments(d) == Segments(e)
    ensures d == e
  {
  }

  /** The digit a glyph shows, as someone reading the display would: None for a blank or unknown glyph. */
  function GlyphDigit(g: Byte): (r: Option<nat>)
    ensures r.Some? ==> r.value < 10 && Segments(r.value) == g
  {
    if g == 0x3F then Some(0) else if g == 0x06 then Some(1) else if g == 0x5B then Some(2)
    else if g == 0x4F then Some(3) else if g == 0x66 then Some(4) else if g == 0x6D then Some(5)
    else if g == 0x7D then Some(6) else if g == 0x07 then Some(7) else if g == 0x7F then Some(8)
    else if g == 0x6F then Some(9) else None
  }

  /** Every digit's glyph reads back as that digit, and anything else shows blank. */
  lemma GlyphDigitSegments(d: nat)
    ensures GlyphDigit(Segments(d)) == if d < 10 then Some(d) else None
  {
  }

  /** Line levels last seen, the open transaction (its bits and bytes so far), and every closed transaction. */
  datatype Chip = Chip(clk: bool, dio: bool, open: bool, bits: seq<bool>, bytes: seq<Byte>, frames: seq<seq<Byte>>)

  /** No transaction is open. */
  predicate Idle(t: Chip) {
    !t.open
  }

  /** A rising clock inside a transaction samples DIO; the ninth rising edge is the acknowledge slot and completes the byte. */
  function Sample(t: Chip): Chip {
    if |t.bits| == 8 then t.(clk := true, bits := [], bytes := t.bytes + [FromLsb(t.bits)])
    else t.(clk := true, bits := t.bits + [t.dio])
  }

  /** CLK driven to `high`. */
  function Clock(t: Chip, high: bool): Chip {
    if high && !t.clk && t.open then Sample(t) else t.(clk := high)
  }

  /** DIO driven to `high`: falling while CLK is high is START, rising while CLK is high is STOP. */
  function Data(t: Chip, high: bool): Chip {
    if t.clk && t.dio && !high then
      t.(dio := false, open := true, bits := [], bytes := [])
    else if t.clk && !t.dio && high && t.open then
      t.(dio := true, open := false, bits := [], bytes := [], frames := t.frames + [t.bytes])
    else t.(dio := high)
  }

  /** The chip's reaction to one event on the wire. */
  function Step(t: Chip, e: Event): Chip {
    match e
    case Wait(_) => t
    case Write(Clk, high) => Clock(t, high)
    case Write(Dio, high) => Data(t, high)
    case Write(_, _) => t
  }

  /** The chip after watching `es`, in order. */
  function Receive(t: Chip, es: seq<Event>): Chip
    decreases es
  {
    if es == [] then t else Receive(Step(t, es[0]), es[1..])
  }

  lemma {:induction false} ReceiveAppend(t: Chip, a: seq<Event>, b: seq<Event>)
    ensures Receive(t, a + b) == Receive(Receive(t, a), b)
    decreases a
  {
    if a == [] {
      assert a + b == b;
    } else {
      assert (a + b)[0] == a[0];
      assert (a + b)[1..] == a[1..] + b;
      ReceiveAppend(Step(t, a[0]), a[1..], b);
    }
  }

  lemma ReceiveCons(t: Chip, e: Event, es: seq<Event>)
    ensures Receive(t, [e] + es) == Receive(Step(t, e), es)
  {
    assert ([e] + es)[0] == e;
    assert ([e] + es)[1..] == es;
  }

  /** What a transaction looks like once its bytes are in: the chip is idle with both lines high. */
  function Closed(t: Chip, bs: seq<Byte>): Chip {
    t.(clk := true, dio := true, open := false, bits := [], bytes := [], frames := t.frames + [bs])
  }

  /** The eight bits sampled, least significant first, assemble the byte sent. */
  lemma AssembleByte(t: Chip, b: Byte)
    requires t.bits == LsbBits(b)
    ensures t.bytes + [FromLsb(t.bits)] == t.bytes + [b]
  {
    LsbRoundTrip(b);
  }
}
