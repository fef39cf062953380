/** The register accesses that each call and macro is made of, in order. */
module LedAccess {
  import opened Words
  import opened Gpio
  import opened LedBoard

  // ---------------------------------------------------------------------
  // Register accesses
  // ---------------------------------------------------------------------

  /** One access to the port. The last two write what the context worked out
      from the copy of OUT it took earlier. */
  datatype Access =
    | ReadOut
    | Outset(m: bv32)
    | Outclr(m: bv32)
    | OutsetLow(m: bv32)
    | OutclrHigh(m: bv32)

  function OutAfter(a: Access, out: bv32, copy: bv32): bv32 {
    match a
    case ReadOut => out
    case Outset(m) => Or(out, m)
    case Outclr(m) => AndNot(out, m)
    case OutsetLow(m) => Or(out, AndNot(m, copy))
    case OutclrHigh(m) => AndNot(out, And(m, copy))
  }

  /** What the access does to the port's registers. */
  function EventOf(a: Access, copy: bv32): Event {
    match a
    case ReadOut => ReadsOut
    case Outset(m) => WritesOutset(m)
    case Outclr(m) => WritesOutclr(m)
    case OutsetLow(m) => WritesOutset(AndNot(m, copy))
    case OutclrHigh(m) => WritesOutclr(And(m, copy))
  }

  function CopyAfter(a: Access, out: bv32, copy: bv32): bv32 {
    if a.ReadOut? then out else copy
  }

  function WriteAccess(p: Pin, high: bool): Access {
    if high then Outset(PinBit(p)) else Outclr(PinBit(p))
  }

  function WriteAccesses(pins: seq<Pin>, high: bool): seq<Access> {
    if pins == [] then []
    else WriteAccesses(pins[..|pins| - 1], high) + [WriteAccess(pins[|pins| - 1], high)]
  }

  /** The accesses of a call or macro, in the order the code makes them. */
  function Accesses(h: Header, op: Op): seq<Access>
    requires Legal(h, op)
  {
    match op
    case LedOn(i) => [WriteAccess(h.leds[i], h.activeState != 0)]
    case LedOff(i) => [WriteAccess(h.leds[i], h.activeState == 0)]
    case LedInvert(i) => [ReadOut, OutsetLow(PinBit(h.leds[i])), OutclrHigh(PinBit(h.leds[i]))]
    case LedsOn => WriteAccesses(h.leds, h.activeState != 0)
    case LedsOff => WriteAccesses(h.leds, h.activeState == 0)
    case MaskOn(m) => [Outclr(Inverted(h, m)), Outset(Straight(h, m))]
    case MaskOff(m) => [Outset(Inverted(h, m)), Outclr(Straight(h, m))]
    case MaskInvert(m) => [ReadOut, OutsetLow(m), OutclrHigh(m)]
  }

  function Program(h: Header, ops: seq<Op>): seq<Access>
    requires AllLegal(h, ops)
  {
    if ops == [] then [] else Accesses(h, ops[0]) + Program(h, ops[1..])
  }

  // ---------------------------------------------------------------------
  // A context on its own
  // ---------------------------------------------------------------------

  /** OUT once the accesses have all been made with nothing in between. */
  function Alone(todo: seq<Access>, out: bv32, copy: bv32): bv32
    decreases |todo|
  {
    if todo == [] then out
    else Alone(todo[1..], OutAfter(todo[0], out, copy), CopyAfter(todo[0], out, copy))
  }

  function CopyAlone(todo: seq<Access>, out: bv32, copy: bv32): bv32
    decreases |todo|
  {
    if todo == [] then copy
    else CopyAlone(todo[1..], OutAfter(todo[0], out, copy), CopyAfter(todo[0], out, copy))
  }

  /** What happens on the port meanwhile. */
  function Events(todo: seq<Access>, out: bv32, copy: bv32): seq<Event>
    decreases |todo|
  {
    if todo == [] then []
    else
      [EventOf(todo[0], copy)] +
      Events(todo[1..], OutAfter(todo[0], out, copy), CopyAfter(todo[0], out, copy))
  }

  lemma {:induction false} AloneConcat(a: seq<Access>, b: seq<Access>, out: bv32, copy: bv32)
    ensures Alone(a + b, out, copy) == Alone(b, Alone(a, out, copy), CopyAlone(a, out, copy))
    decreases |a|
  {
    if a == [] {
      assert a + b == b;
    } else {
      assert (a + b)[1..] == a[1..] + b;
      AloneConcat(a[1..], b, OutAfter(a[0], out, copy), CopyAfter(a[0], out, copy));
    }
  }

  lemma {:induction false} EventsConcat(a: seq<Access>, b: seq<Access>, out: bv32, copy: bv32)
    ensures Events(a + b, out, copy) ==
            Events(a, out, copy) + Events(b, Alone(a, out, copy), CopyAlone(a, out, copy))
    decreases |a|
  {
    if a == [] {
      assert a + b == b;
    } else {
      assert (a + b)[1..] == a[1..] + b;
      EventsConcat(a[1..], b, OutAfter(a[0], out, copy), CopyAfter(a[0], out, copy));
    }
  }

  lemma EventsOne(a: Access, out: bv32, copy: bv32)
    ensures Events([a], out, copy) == [EventOf(a, copy)]
  {
    assert [a][1..] == [];
  }

  lemma EventsTwo(a: Access, b: Access, out: bv32, copy: bv32)
    ensures Events([a, b], out, copy) == [EventOf(a, copy), EventOf(b, CopyAfter(a, out, copy))]
  {
    assert [a, b][1..] == [b];
    EventsOne(b, OutAfter(a, out, copy), CopyAfter(a, out, copy));
  }

  lemma EventsInvert(m: bv32, out: bv32, copy: bv32)
    ensures Events([ReadOut, OutsetLow(m), OutclrHigh(m)], out, copy) ==
            [ReadsOut, WritesOutset(AndNot(m, out)), WritesOutclr(And(m, out))]
  {
    assert [ReadOut, OutsetLow(m), OutclrHigh(m)][1..] == [OutsetLow(m), OutclrHigh(m)];
    EventsTwo(OutsetLow(m), OutclrHigh(m), out, out);
  }

  /** The writes of a loop over the pins. */
  function WriteEvents(pins: seq<Pin>, high: bool): seq<Event> {
    if pins == [] then []
    else WriteEvents(pins[..|pins| - 1], high) + [EventOf(WriteAccess(pins[|pins| - 1], high), 0)]
  }

  lemma WriteEventsLast(pins: seq<Pin>, n: nat, high: bool)
    requires n < |pins|
    ensures WriteEvents(pins[..n + 1], high) ==
            WriteEvents(pins[..n], high) + [EventOf(WriteAccess(pins[n], high), 0)]
  {
    assert pins[..n + 1][..n] == pins[..n];
  }

  /** One write per pin, in the order of the list: OUTSET to put the pin high,
      OUTCLR to put it low, and no other bit in the word. */
  predicate OneWriteEach(events: seq<Event>, pins: seq<Pin>, high: bool) {
    && |events| == |pins|
    && forall i :: 0 <= i < |pins| ==>
         events[i] == if high then WritesOutset(PinBit(pins[i])) else WritesOutclr(PinBit(pins[i]))
  }

  lemma {:induction false} WriteEventsListed(pins: seq<Pin>, high: bool)
    ensures OneWriteEach(WriteEvents(pins, high), pins, high)
  {
    if pins != [] {
      WriteEventsListed(pins[..|pins| - 1], high);
    }
  }

  lemma {:induction false} EventsWrites(pins: seq<Pin>, high: bool, out: bv32, copy: bv32)
    ensures Events(WriteAccesses(pins, high), out, copy) == WriteEvents(pins, high)
  {
    if pins != [] {
      var n := |pins| - 1;
      var before, a := WriteAccesses(pins[..n], high), WriteAccess(pins[n], high);
      EventsWrites(pins[..n], high, out, copy);
      EventsConcat(before, [a], out, copy);
      EventsOne(a, Alone(before, out, copy), CopyAlone(before, out, copy));
    }
  }

  /** The loop over the index calls has written the first `n` pins of the
      table, `first` and `earlier` being OUT and the accesses before it. */
  ghost predicate LoopAt(
      h: Header, n: nat, high: bool, first: bv32, earlier: seq<Event>, out: bv32, trace: seq<Event>)
    requires n <= |h.leds|
  {
    out == WriteAll(first, h.leds[..n], high) && trace == earlier + WriteEvents(h.leds[..n], high)
  }

  lemma LoopStarts(h: Header, high: bool, first: bv32, earlier: seq<Event>)
    ensures LoopAt(h, 0, high, first, earlier, first, earlier)
  {
  }

  lemma LoopGoesOn(
      h: Header, n: nat, on: bool, high: bool, first: bv32, earlier: seq<Event>, out: bv32, trace: seq<Event>)
    requires n < |h.leds| && high == (on == (h.activeState != 0))
    requires LoopAt(h, n, high, first, earlier, out, trace)
    ensures LoopAt(h, n + 1, high, first, earlier,
                   Apply(h, Call(n, on), out), trace + Events(Accesses(h, Call(n, on)), out, 0))
  {
    CallInLoop(h, n, on, high, first);
    WriteEventsLast(h.leds, n, high);
    EventsOne(WriteAccess(h.leds[n], high), out, 0);
  }

  lemma LoopEnds(
      h: Header, on: bool, high: bool, first: bv32, earlier: seq<Event>, out: bv32, trace: seq<Event>)
    requires high == (on == (h.activeState != 0))
    requires LoopAt(h, |h.leds|, high, first, earlier, out, trace)
    ensures var op := if on then LedsOn else LedsOff;
            out == Apply(h, op, first) && trace == earlier + Events(Accesses(h, op), first, 0)
    ensures |earlier| <= |trace| && OneWriteEach(trace[|earlier|..], h.leds, high)
  {
    assert h.leds[..|h.leds|] == h.leds;
    EventsWrites(h.leds, high, first, 0);
    WriteEventsListed(h.leds, high);
    assert trace[|earlier|..] == WriteEvents(h.leds, high);
  }

  lemma AloneOne(a: Access, out: bv32, copy: bv32)
    ensures Alone([a], out, copy) == OutAfter(a, out, copy)
  {
    assert [a][1..] == [];
  }

  lemma AloneTwo(a: Access, b: Access, out: bv32, copy: bv32)
    ensures Alone([a, b], out, copy) ==
            OutAfter(b, OutAfter(a, out, copy), CopyAfter(a, out, copy))
  {
    assert [a, b][1..] == [b];
    AloneOne(b, OutAfter(a, out, copy), CopyAfter(a, out, copy));
  }

  /** What an access makes of the level of one pin, given the level the context
      copied. */
  function LevelAfter(a: Access, p: Pin, level: bool, copied: bool): bool {
    match a
    case ReadOut => level
    case Outset(m) => level || Bit(m, p)
    case Outclr(m) => level && !Bit(m, p)
    case OutsetLow(m) => level || (Bit(m, p) && !copied)
    case OutclrHigh(m) => level && !(Bit(m, p) && copied)
  }

  /** Every access acts pin by pin. */
  lemma AccessBit(a: Access, out: bv32, copy: bv32, p: Pin)
    ensures Bit(OutAfter(a, out, copy), p) == LevelAfter(a, p, Bit(out, p), Bit(copy, p))
  {
    match a
    case ReadOut =>
    case Outset(m) => BitOr(out, m, p);
    case Outclr(m) => BitAndNot(out, m, p);
    case OutsetLow(m) =>
      BitAndNot(m, copy, p);
      BitOr(out, AndNot(m, copy), p);
    case OutclrHigh(m) =>
      BitAnd(m, copy, p);
      BitAndNot(out, And(m, copy), p);
  }

  lemma AccessTwiceBit(a: Access, b: Access, out: bv32, copy: bv32, p: Pin)
    ensures Bit(OutAfter(b, OutAfter(a, out, copy), copy), p) ==
            LevelAfter(b, p, LevelAfter(a, p, Bit(out, p), Bit(copy, p)), Bit(copy, p))
  {
    AccessBit(a, out, copy, p);
    AccessBit(b, OutAfter(a, out, copy), copy, p);
  }

  lemma AloneInvert(m: bv32, out: bv32, copy: bv32)
    ensures Alone([ReadOut, OutsetLow(m), OutclrHigh(m)], out, copy) == Xor(out, m)
  {
    assert [ReadOut, OutsetLow(m), OutclrHigh(m)][1..] == [OutsetLow(m), OutclrHigh(m)];
    AloneTwo(OutsetLow(m), OutclrHigh(m), out, out);
    FlipByPartsIsXor(out, m);
  }

  lemma {:induction false} AloneWrites(pins: seq<Pin>, high: bool, out: bv32, copy: bv32)
    ensures Alone(WriteAccesses(pins, high), out, copy) == WriteAll(out, pins, high)
  {
    if pins != [] {
      var n := |pins| - 1;
      var first := WriteAccesses(pins[..n], high);
      AloneConcat(first, [WriteAccess(pins[n], high)], out, copy);
      AloneWrites(pins[..n], high, out, copy);
      AloneOne(WriteAccess(pins[n], high), Alone(first, out, copy), CopyAlone(first, out, copy));
    }
  }

  /** Uninterrupted, the accesses of an operation amount to the operation. */
  lemma AccessesApply(h: Header, op: Op, out: bv32, copy: bv32)
    requires Legal(h, op)
    ensures Alone(Accesses(h, op), out, copy) == Apply(h, op, out)
  {
    match op
    case LedOn(i) => AloneOne(WriteAccess(h.leds[i], h.activeState != 0), out, copy);
    case LedOff(i) => AloneOne(WriteAccess(h.leds[i], h.activeState == 0), out, copy);
    case LedInvert(i) => AloneInvert(PinBit(h.leds[i]), out, copy);
    case LedsOn => AloneWrites(h.leds, h.activeState != 0, out, copy);
    case LedsOff => AloneWrites(h.leds, h.activeState == 0, out, copy);
    case MaskOn(m) => AloneTwo(Outclr(Inverted(h, m)), Outset(Straight(h, m)), out, copy);
    case MaskOff(m) => AloneTwo(Outset(Inverted(h, m)), Outclr(Straight(h, m)), out, copy);
    case MaskInvert(m) => AloneInvert(m, out, copy);
  }

  lemma {:induction false} ProgramRuns(h: Header, ops: seq<Op>, out: bv32, copy: bv32)
    requires AllLegal(h, ops)
    ensures Alone(Program(h, ops), out, copy) == Run(h, ops, out)
    decreases |ops|
  {
    if ops != [] {
      var first := Accesses(h, ops[0]);
      AloneConcat(first, Program(h, ops[1..]), out, copy);
      AccessesApply(h, ops[0], out, copy);
      ProgramRuns(h, ops[1..], Apply(h, ops[0], out), CopyAlone(first, out, copy));
    }
  }
}
