/**
 * The GPIO lines the drivers bit-bang, seen from outside: every level a driver
 * writes and every busy-wait it performs is one event on a wire trace.
 *
 * A pin write can fail (the HAL returns an error). Which writes fail is fixed by
 * the set of faulty pins of the port: a write to a faulty pin fails and changes
 * nothing on the wire. A driver that propagates errors with `?` stops at the
 * first failed write (`Run`); a driver that discards them with `.ok()` carries
 * on with the remaining writes (`Skip`).
 */
module Gpio {

  /** The logical lines used by the drivers: MAX7219 data-in, clock and chip
      select; TM1637 data; HC-SR04 trigger. */
  datatype Pin = Din | Clk | Cs | Dio | Trig

  /** `Write(p, true)` drives p high, `Write(p, false)` drives it low;
      `Wait(us)` is a busy-wait of `us` microseconds. */
  datatype Event = Write(pin: Pin, high: bool) | Wait(us: nat)

  predicate Rejected(e: Event, faulty: set<Pin>) {
    e.Write? && e.pin in faulty
  }

  /** Some write of `es` fails. */
  predicate Fails(es: seq<Event>, faulty: set<Pin>) {
    es != [] && (Rejected(es[0], faulty) || Fails(es[1..], faulty))
  }

  /** What reaches the wire when `es` is performed by code that aborts at the
      first failed write: exactly the events before that write. */
  function Run(es: seq<Event>, faulty: set<Pin>): (r: seq<Event>)
    ensures r == es <==> !Fails(es, faulty)
  {
    if es == [] then []
    else if Rejected(es[0], faulty) then []
    else [es[0]] + Run(es[1..], faulty)
  }

  /** What reaches the wire when `es` is performed by code that ignores failed
      writes: every event except the failed writes, in order. */
  function Skip(es: seq<Event>, faulty: set<Pin>): seq<Event> {
    if es == [] then []
    else if Rejected(es[0], faulty) then Skip(es[1..], faulty)
    else [es[0]] + Skip(es[1..], faulty)
  }

  /** What reaches the wire is exactly the events that are not failed writes; with no failed write, all of them. */
  lemma {:induction false} SkipKeeps(es: seq<Event>, faulty: set<Pin>)
    ensures forall e :: e in Skip(es, faulty) <==> e in es && !Rejected(e, faulty)
    ensures !Fails(es, faulty) ==> Skip(es, faulty) == es
  {
    if es != [] {
      SkipKeeps(es[1..], faulty);
      assert es == [es[0]] + es[1..];
    }
  }

  /** The events of each element of `xs` in turn. */
  function Flatten<T>(xs: seq<T>, f: T -> seq<Event>): seq<Event> {
    if xs == [] then [] else f(xs[0]) + Flatten(xs[1..], f)
  }

  lemma {:induction false} FlattenAppend<T>(xs: seq<T>, ys: seq<T>, f: T -> seq<Event>)
    ensures Flatten(xs + ys, f) == Flatten(xs, f) + Flatten(ys, f)
  {
    if xs != [] {
      assert (xs + ys)[1..] == xs[1..] + ys;
      FlattenAppend(xs[1..], ys, f);
    } else {
      assert xs + ys == ys;
    }
  }

  lemma FlattenSnoc<T>(xs: seq<T>, x: T, f: T -> seq<Event>)
    ensures Flatten(xs + [x], f) == Flatten(xs, f) + f(x)
  {
    FlattenAppend(xs, [x], f);
  }

  lemma {:induction false} FailsAppend(a: seq<Event>, b: seq<Event>, faulty: set<Pin>)
    ensures Fails(a + b, faulty) == (Fails(a, faulty) || Fails(b, faulty))
  {
    if a == [] {
      assert a + b == b;
    } else {
      assert (a + b)[0] == a[0];
      assert (a + b)[1..] == a[1..] + b;
      FailsAppend(a[1..], b, faulty);
    }
  }

  /** Performing `a` then `b` with `?`: `b` starts only if all of `a` succeeded. */
  lemma {:induction false} RunAppend(a: seq<Event>, b: seq<Event>, faulty: set<Pin>)
    ensures Fails(a + b, faulty) == (Fails(a, faulty) || Fails(b, faulty))
    ensures Run(a + b, faulty) == if Fails(a, faulty) then Run(a, faulty) else a + Run(b, faulty)
  {
    FailsAppend(a, b, faulty);
    if a == [] {
      assert a + b == b;
    } else if Rejected(a[0], faulty) {
      assert (a + b)[0] == a[0];
    } else {
      assert (a + b)[0] == a[0];
      assert (a + b)[1..] == a[1..] + b;
      RunAppend(a[1..], b, faulty);
      if !Fails(a, faulty) {
        calc {
          Run(a + b, faulty);
          [a[0]] + Run(a[1..] + b, faulty);
          [a[0]] + (a[1..] + Run(b, faulty));
          { AppendAssoc([a[0]], a[1..], Run(b, faulty)); }
          [a[0]] + a[1..] + Run(b, faulty);
          { assert [a[0]] + a[1..] == a; }
          a + Run(b, faulty);
        }
      }
    }
  }

  /** `?` code whose first failing write is at position k puts exactly the events before it on the wire. */
  lemma {:induction false} RunIs(es: seq<Event>, k: nat, faulty: set<Pin>)
    requires k <= |es| && forall j :: 0 <= j < k ==> !Rejected(es[j], faulty)
    requires k < |es| ==> Rejected(es[k], faulty)
    ensures Fails(es, faulty) == (k < |es|)
    ensures Run(es, faulty) == es[..k]
  {
    if k > 0 {
      RunIs(es[1..], k - 1, faulty);
      assert es[..k] == [es[0]] + es[1..][..k - 1];
    }
  }

  lemma AppendAssoc<T>(a: seq<T>, b: seq<T>, c: seq<T>)
    ensures a + b + c == a + (b + c)
  {
  }

  /** One more element of `xs` after the first i, appended to a log `l0`. */
  lemma SnocSlice<T>(l0: seq<T>, xs: seq<T>, i: nat)
    requires i < |xs|
    ensures l0 + xs[..i] + [xs[i]] == l0 + xs[..i + 1]
  {
    assert xs[..i + 1] == xs[..i] + [xs[i]];
  }

  /**
   * Step i of a loop that performs `f(xs[0])`, `f(xs[1])`, ... and propagates
   * errors with `?`, once the steps before i went through: a failing step ends
   * the whole run there, a successful one extends what went through.
   */
  lemma StepFlatten<T>(xs: seq<T>, i: nat, f: T -> seq<Event>, faulty: set<Pin>)
    requires i < |xs| && !Fails(Flatten(xs[..i], f), faulty)
    ensures Flatten(xs[..i + 1], f) == Flatten(xs[..i], f) + f(xs[i])
    ensures Fails(f(xs[i]), faulty) ==>
      Fails(Flatten(xs, f), faulty) && Run(Flatten(xs, f), faulty) == Flatten(xs[..i], f) + Run(f(xs[i]), faulty)
    ensures !Fails(f(xs[i]), faulty) ==> !Fails(Flatten(xs[..i + 1], f), faulty)
  {
    assert xs[..i + 1] == xs[..i] + [xs[i]];
    FlattenSnoc(xs[..i], xs[i], f);
    assert xs == xs[..i] + ([xs[i]] + xs[i + 1..]);
    FlattenAppend(xs[..i], [xs[i]] + xs[i + 1..], f);
    assert Flatten([xs[i]] + xs[i + 1..], f) == f(xs[i]) + Flatten(xs[i + 1..], f);
    RunAppend(Flatten(xs[..i], f), f(xs[i]), faulty);
    RunAppend(Flatten(xs[..i], f), f(xs[i]) + Flatten(xs[i + 1..], f), faulty);
    RunAppend(f(xs[i]), Flatten(xs[i + 1..], f), faulty);
  }

  /**
   * The wire after step i of such a loop, started on a wire holding `t0`:
   * either the run ended at this step, or the steps up to i went through.
   */
  lemma Progress<T>(t0: seq<Event>, xs: seq<T>, i: nat, f: T -> seq<Event>, faulty: set<Pin>)
    requires i < |xs| && !Fails(Flatten(xs[..i], f), faulty)
    ensures Fails(f(xs[i]), faulty) ==>
      Fails(Flatten(xs, f), faulty) &&
      t0 + Flatten(xs[..i], f) + Run(f(xs[i]), faulty) == t0 + Run(Flatten(xs, f), faulty)
    ensures !Fails(f(xs[i]), faulty) ==>
      !Fails(Flatten(xs[..i + 1], f), faulty) &&
      t0 + Flatten(xs[..i], f) + Run(f(xs[i]), faulty) == t0 + Flatten(xs[..i + 1], f)
  {
    StepFlatten(xs, i, f, faulty);
    AppendAssoc(t0, Flatten(xs[..i], f), Run(f(xs[i]), faulty));
  }

  /** Performing `a` then `b` while ignoring failed writes. */
  lemma {:induction false} SkipAppend(a: seq<Event>, b: seq<Event>, faulty: set<Pin>)
    ensures Skip(a + b, faulty) == Skip(a, faulty) + Skip(b, faulty)
  {
    if a == [] {
      assert a + b == b;
    } else {
      assert (a + b)[0] == a[0];
      assert (a + b)[1..] == a[1..] + b;
      SkipAppend(a[1..], b, faulty);
    }
  }

  /**
   * The port's pins: the levels written so far (successful writes and waits,
   * in order), every write and wait attempted so far, and the pins whose
   * writes fail.
   */
  class Port {
    const faulty: set<Pin>
    var trace: seq<Event>
    ghost var attempts: seq<Event>

    /** The wire holds exactly the attempts that did not fail. */
    ghost predicate Consistent()
      reads this
    {
      trace == Skip(attempts, faulty)
    }

    constructor (faulty: set<Pin>)
      ensures this.faulty == faulty && trace == [] && attempts == [] && Consistent()
    {
      this.faulty := faulty;
      trace := [];
      attempts := [];
    }

    /** `PinDriver::set_level`: fails on a faulty pin, leaving the wire as it was. */
    method SetLevel(pin: Pin, high: bool) returns (ok: bool)
      modifies this
      ensures ok == (pin !in faulty)
      ensures trace == old(trace) + if ok then [Write(pin, high)] else []
      ensures attempts == old(attempts) + [Write(pin, high)]
      ensures old(Consistent()) ==> Consistent()
    {
      SkipAppend(attempts, [Write(pin, high)], faulty);
      ok := pin !in faulty;
      if ok {
        trace := trace + [Write(pin, high)];
      }
      attempts := attempts + [Write(pin, high)];
    }

    /** `Ets::delay_us`. */
    method DelayUs(us: nat)
      modifies this
      ensures trace == old(trace) + [Wait(us)]
      ensures attempts == old(attempts) + [Wait(us)]
      ensures old(Consistent()) ==> Consistent()
    {
      SkipAppend(attempts, [Wait(us)], faulty);
      trace := trace + [Wait(us)];
      attempts := attempts + [Wait(us)];
    }
  }
}
