/**
 * The receiving end of the matrix driver's wire: a MAX7219 as its data sheet
 * describes the serial interface. DIN is sampled into a shift register on each
 * rising edge of CLK, and the last sixteen bits shifted in (register address
 * first, most significant bit first) are latched as one command on the rising
 * edge of CS (LOAD). Writes to other lines and waits change nothing.
 *
 * This is the partner of `Matrix`: decoding what the driver puts on the wire
 * gives back the commands it meant to send.
 */
module Max7219 {
  import opened Bits
  import opened Gpio
  import opened Matrix

  /** Line levels last seen, every bit shifted in so far, and the commands latched so far. */
  datatype Chip = Chip(cs: bool, clk: bool, din: bool, bits: seq<bool>, latched: seq<Command>)

  /** Deselected with the clock low: ready for a command frame. */
  predicate Idle(ch: Chip) {
    ch.cs && !ch.clk
  }

  /** The command held by sixteen bits, address byte first, each most significant bit first. */
  function Decode(bits: seq<bool>): Command
    requires |bits| == 16
  {
    Command(FromMsb(bits[..8]), FromMsb(bits[8..]))
  }

  /** The chip's reaction to one event on the wire. */
  function Step(ch: Chip, e: Event): (r: Chip)
    ensures ch.latched <= r.latched && |r.latched| <= |ch.latched| + 1
  {
    match e
    case Wait(_) => ch
    case Write(pin, high) =>
      match pin
      case Din => ch.(din := high)
      case Clk => if high && !ch.clk then ch.(clk := high, bits := ch.bits + [ch.din]) else ch.(clk := high)
      case Cs =>
        if high && !ch.cs && |ch.bits| >= 16 then
          ch.(cs := high, latched := ch.latched + [Decode(ch.bits[|ch.bits| - 16..])])
        else ch.(cs := high)
      case _ => ch
  }

  /** The chip after watching `es`, in order. */
  function Receive(ch: Chip, es: seq<Event>): Chip
    decreases es
  {
    if es == [] then ch else Receive(Step(ch, es[0]), es[1..])
  }

  lemma {:induction false} ReceiveAppend(ch: Chip, a: seq<Event>, b: seq<Event>)
    ensures Receive(ch, a + b) == Receive(Receive(ch, a), b)
    decreases a
  {
    if a == [] {
      assert a + b == b;
    } else {
      assert (a + b)[0] == a[0];
      assert (a + b)[1..] == a[1..] + b;
      ReceiveAppend(Step(ch, a[0]), a[1..], b);
    }
  }

  lemma ReceiveCons(ch: Chip, e: Event, es: seq<Event>)
    ensures Receive(ch, [e] + es) == Receive(Step(ch, e), es)
  {
    assert ([e] + es)[0] == e;
    assert ([e] + es)[1..] == es;
  }

  /** One `send_bit` shifts its bit in and leaves the clock low. */
  lemma BitReceive(ch: Chip, bit: bool)
    requires !ch.clk
    ensures Receive(ch, BitEvents(bit)) == ch.(din := bit, bits := ch.bits + [bit])
  {
    var e0, e1, e2, e3, e4 := Write(Din, bit), Write(Clk, true), Wait(1), Write(Clk, false), Wait(1);
    assert BitEvents(bit) == [e0] + ([e1] + ([e2] + ([e3] + ([e4] + []))));
    ReceiveCons(ch, e0, [e1] + ([e2] + ([e3] + ([e4] + []))));
    var c1 := Step(ch, e0);
    ReceiveCons(c1, e1, [e2] + ([e3] + ([e4] + [])));
    var c2 := Step(c1, e1);
    ReceiveCons(c2, e2, [e3] + ([e4] + []));
    ReceiveCons(c2, e3, [e4] + []);
    var c4 := Step(c2, e3);
    ReceiveCons(c4, e4, []);
  }

  /** Bits sent by consecutive `send_bit`s are shifted in in the order sent. */
  lemma {:induction false} BitsReceive(ch: Chip, bits: seq<bool>)
    requires !ch.clk && bits != []
    ensures Receive(ch, Flatten(bits, BitEvents)) == ch.(din := bits[|bits| - 1], bits := ch.bits + bits)
    decreases bits
  {
    ReceiveAppend(ch, BitEvents(bits[0]), Flatten(bits[1..], BitEvents));
    BitReceive(ch, bits[0]);
    var next := ch.(din := bits[0], bits := ch.bits + [bits[0]]);
    if |bits| == 1 {
      assert bits[1..] == [];
      assert ch.bits + bits == ch.bits + [bits[0]];
    } else {
      BitsReceive(next, bits[1..]);
      assert ch.bits + [bits[0]] + bits[1..] == ch.bits + bits;
    }
  }

  /** One `send_byte` shifts in its eight bits, most significant first. */
  lemma ByteReceive(ch: Chip, b: Byte)
    requires !ch.clk
    ensures Receive(ch, ByteEvents(b)) == ch.(din := Bit(b, 0), bits := ch.bits + MsbBits(b))
  {
    ByteEventsBits(b);
    BitsReceive(ch, MsbBits(b));
  }

  /** The last sixteen bits shifted in after a register byte and a data byte decode to that command. */
  lemma DecodeLast(pre: seq<bool>, c: Command)
    ensures var bits := pre + MsbBits(c.reg) + MsbBits(c.data);
      |bits| >= 16 && Decode(bits[|bits| - 16..]) == c
  {
    var x, y := MsbBits(c.reg), MsbBits(c.data);
    var bits := pre + x + y;
    assert bits[|bits| - 16..] == x + y;
    assert (x + y)[..8] == x;
    assert (x + y)[8..] == y;
    MsbRoundTrip(c.reg);
    MsbRoundTrip(c.data);
  }

  /** One `send_command` frame latches exactly that command and leaves the chip idle. */
  lemma CommandReceive(ch: Chip, c: Command)
    requires Idle(ch)
    ensures Receive(ch, CommandEvents(c)) ==
      ch.(din := Bit(c.data, 0), bits := ch.bits + MsbBits(c.reg) + MsbBits(c.data), latched := ch.latched + [c])
  {
    CommandEventsSplit(c);
    var a, b, d, e := [Write(Cs, false)], ByteEvents(c.reg), ByteEvents(c.data), [Write(Cs, true)];
    ReceiveAppend(ch, a + b + d, e);
    ReceiveAppend(ch, a + b, d);
    ReceiveAppend(ch, a, b);
    ReceiveCons(ch, a[0], []);
    assert a == [a[0]] + [];
    var ch1 := ch.(cs := false);
    ByteReceive(ch1, c.reg);
    var ch2 := ch1.(din := Bit(c.reg, 0), bits := ch.bits + MsbBits(c.reg));
    ByteReceive(ch2, c.data);
    var ch3 := ch2.(din := Bit(c.data, 0), bits := ch.bits + MsbBits(c.reg) + MsbBits(c.data));
    DecodeLast(ch.bits, c);
    ReceiveCons(ch3, e[0], []);
    assert e == [e[0]] + [];
  }

  /** Frames sent back to back are latched in the order sent. */
  lemma {:induction false} FramesReceive(ch: Chip, cmds: seq<Command>)
    requires Idle(ch)
    decreases cmds
    ensures Idle(Receive(ch, Flatten(cmds, CommandEvents)))
    ensures Receive(ch, Flatten(cmds, CommandEvents)).latched == ch.latched + cmds
  {
    if cmds == [] {
      assert ch.latched + cmds == ch.latched;
    } else {
      ReceiveAppend(ch, CommandEvents(cmds[0]), Flatten(cmds[1..], CommandEvents));
      CommandReceive(ch, cmds[0]);
      var next := Receive(ch, CommandEvents(cmds[0]));
      FramesReceive(next, cmds[1..]);
      assert ch.latched + [cmds[0]] + cmds[1..] == ch.latched + cmds;
    }
  }

  /** `new` leaves the chip idle, whatever state it was in. */
  lemma NewIdles(ch: Chip)
    ensures Idle(Receive(ch, NewEvents()))
  {
    var e0, e1, e2 := Write(Cs, true), Write(Clk, false), Write(Din, false);
    assert NewEvents() == [e0] + ([e1] + ([e2] + []));
    ReceiveCons(ch, e0, [e1] + ([e2] + []));
    var c1 := Step(ch, e0);
    ReceiveCons(c1, e1, [e2] + []);
    var c2 := Step(c1, e1);
    ReceiveCons(c2, e2, []);
  }

  /**
   * Round trip for the driver: with healthy lines, a chip that watched the
   * wire from an idle state has latched exactly the commands in the driver's
   * log, in order.
   */
  lemma ChipLatchesLog(ch: Chip, log: seq<Command>, faulty: set<Pin>)
    requires PinsOk(faulty) && Idle(ch)
    ensures Receive(ch, Wire(log, faulty)).latched == ch.latched + log
    ensures Idle(Receive(ch, Wire(log, faulty)))
  {
    WireHealthy(log, faulty);
    FramesReceive(ch, log);
  }
}
