/** The LEDs of a board over the 32-bit OUT word: what each call of the index
    interface and each mask macro makes of the word, and the vector of LED
    states a caller has in mind. */
module LedBoard {
  import opened Words

  const NOT_FOUND: nat := 0xFFFF_FFFF

  /** A pin table; its length is compared with a `uint32_t`. */
  type PinTable = pins: seq<Pin> | |pins| <= 0xFFFF_FFFF

  /** `BSP_LED_n` or `BSP_BUTTON_n`, which a board defines or not. */
  datatype Slot = Absent | At(pin: Pin)

  /** What a board header says of its LEDs. */
  datatype Header = Header(leds: PinTable, slots: seq<Slot>, activeState: int, invMask: bv32)

  function SlotPins(slots: seq<Slot>): seq<Pin> {
    if slots == [] then []
    else
      var n := |slots| - 1;
      SlotPins(slots[..n]) + match slots[n] case Absent => [] case At(pin) => [pin]
  }

  function SlotMask(slot: Slot): bv32 {
    match slot
    case Absent => 0
    case At(pin) => PinBit(pin)
  }

  /** The OR over the slots, absent ones contributing 0. */
  function SlotsMask(slots: seq<Slot>): bv32 {
    if slots == [] then 0 else Or(SlotsMask(slots[..|slots| - 1]), SlotMask(slots[|slots| - 1]))
  }

  /** `LEDS_MASK`. */
  function LedsMask(h: Header): bv32 {
    SlotsMask(h.slots)
  }

  // ---------------------------------------------------------------------
  // The calls and the macros, on the OUT word
  // ---------------------------------------------------------------------

  function Write(out: bv32, p: Pin, high: bool): bv32 {
    if high then Or(out, PinBit(p)) else AndNot(out, PinBit(p))
  }

  /** Writing the pins one after another. */
  function WriteAll(out: bv32, pins: seq<Pin>, high: bool): bv32 {
    if pins == [] then out else Write(WriteAll(out, pins[..|pins| - 1], high), pins[|pins| - 1], high)
  }

  /** The part of a mask whose LEDs are inverted, and the rest of its LEDs. */
  function Inverted(h: Header, m: bv32): bv32 {
    And(m, And(LedsMask(h), h.invMask))
  }

  function Straight(h: Header, m: bv32): bv32 {
    And(m, AndNot(LedsMask(h), h.invMask))
  }

  function MaskedOn(h: Header, out: bv32, m: bv32): bv32 {
    Or(AndNot(out, Inverted(h, m)), Straight(h, m))
  }

  function MaskedOff(h: Header, out: bv32, m: bv32): bv32 {
    AndNot(Or(out, Inverted(h, m)), Straight(h, m))
  }

  function LedIsOn(h: Header, out: bv32, m: bv32): bv32 {
    And(m, Xor(out, h.invMask))
  }

  datatype Op =
    | LedOn(i: nat) | LedOff(i: nat) | LedInvert(i: nat) | LedsOn | LedsOff
    | MaskOn(m: bv32) | MaskOff(m: bv32) | MaskInvert(m: bv32)

  /** The index calls assert that the index is in the table. */
  predicate Legal(h: Header, op: Op) {
    match op
    case LedOn(i) => i < |h.leds|
    case LedOff(i) => i < |h.leds|
    case LedInvert(i) => i < |h.leds|
    case _ => true
  }

  function Apply(h: Header, op: Op, out: bv32): bv32
    requires Legal(h, op)
  {
    match op
    case LedOn(i) => Write(out, h.leds[i], h.activeState != 0)
    case LedOff(i) => Write(out, h.leds[i], h.activeState == 0)
    case LedInvert(i) => Xor(out, PinBit(h.leds[i]))
    case LedsOn => WriteAll(out, h.leds, h.activeState != 0)
    case LedsOff => WriteAll(out, h.leds, h.activeState == 0)
    case MaskOn(m) => MaskedOn(h, out, m)
    case MaskOff(m) => MaskedOff(h, out, m)
    case MaskInvert(m) => Xor(out, m)
  }

  predicate AllLegal(h: Header, ops: seq<Op>) {
    forall op :: op in ops ==> Legal(h, op)
  }

  function Run(h: Header, ops: seq<Op>, out: bv32): bv32
    requires AllLegal(h, ops)
    decreases |ops|
  {
    if ops == [] then out else Run(h, ops[1..], Apply(h, ops[0], out))
  }

  // ---------------------------------------------------------------------
  // What the caller has in mind
  // ---------------------------------------------------------------------

  datatype Order = Leave | TurnOn | TurnOff | Toggle

  function Obey(order: Order, on: bool): bool {
    match order
    case Leave => on
    case TurnOn => true
    case TurnOff => false
    case Toggle => !on
  }

  /** What an operation asks of LED `i`, whichever way the board is wired. */
  function OrderFor(leds: PinTable, op: Op, i: nat): Order
    requires i < |leds|
  {
    match op
    case LedOn(j) => if i == j then TurnOn else Leave
    case LedOff(j) => if i == j then TurnOff else Leave
    case LedInvert(j) => if i == j then Toggle else Leave
    case LedsOn => TurnOn
    case LedsOff => TurnOff
    case MaskOn(m) => if Bit(m, leds[i]) then TurnOn else Leave
    case MaskOff(m) => if Bit(m, leds[i]) then TurnOff else Leave
    case MaskInvert(m) => if Bit(m, leds[i]) then Toggle else Leave
  }

  function Asked(leds: PinTable, op: Op, v: seq<bool>): (v': seq<bool>)
    requires |v| == |leds|
    ensures |v'| == |v|
  {
    seq(|v|, i requires 0 <= i < |v| => Obey(OrderFor(leds, op, i), v[i]))
  }

  function AskedRun(leds: PinTable, ops: seq<Op>, v: seq<bool>): (v': seq<bool>)
    requires |v| == |leds|
    ensures |v'| == |v|
  {
    if ops == [] then v else AskedRun(leds, ops[1..], Asked(leds, ops[0], v))
  }

  /** Whether LED `i` is lit: its pin is at the active level. */
  predicate Lit(h: Header, out: bv32, i: nat)
    requires i < |h.leds|
  {
    Bit(out, h.leds[i]) == (h.activeState != 0)
  }

  function View(h: Header, out: bv32): (v: seq<bool>)
    ensures |v| == |h.leds|
  {
    seq(|h.leds|, i requires 0 <= i < |h.leds| => Lit(h, out, i))
  }

  // ---------------------------------------------------------------------
  // What a header has to say for the two interfaces to agree
  // ---------------------------------------------------------------------

  ghost predicate Injective(pins: seq<Pin>) {
    forall i, j :: 0 <= i < j < |pins| ==> pins[i] != pins[j]
  }

  /** Every LED of the table is in `LEDS_MASK`. */
  ghost predicate CoversTable(h: Header) {
    forall i :: 0 <= i < |h.leds| ==> Bit(LedsMask(h), h.leds[i])
  }

  /** `LEDS_MASK` has no pin that is not in the table. */
  ghost predicate WithinTable(h: Header) {
    forall p: Pin :: Bit(LedsMask(h), p) ==> p in h.leds
  }

  /** An LED is inverted exactly when LEDs are lit by a low level. */
  ghost predicate PolarityMatches(h: Header) {
    forall i :: 0 <= i < |h.leds| ==> Bit(h.invMask, h.leds[i]) == (h.activeState == 0)
  }

  // ---------------------------------------------------------------------
  // Pin by pin
  // ---------------------------------------------------------------------

  datatype Drive = Keep | High | Low | Flip

  function Driven(d: Drive, level: bool): bool {
    match d
    case Keep => level
    case High => true
    case Low => false
    case Flip => !level
  }

  function Level(high: bool): Drive {
    if high then High else Low
  }

  /** What an operation does to the level of pin `p`. */
  function DriveOf(h: Header, op: Op, p: Pin): Drive
    requires Legal(h, op)
  {
    match op
    case LedOn(i) => if h.leds[i] == p then Level(h.activeState != 0) else Keep
    case LedOff(i) => if h.leds[i] == p then Level(h.activeState == 0) else Keep
    case LedInvert(i) => if h.leds[i] == p then Flip else Keep
    case LedsOn => if p in h.leds then Level(h.activeState != 0) else Keep
    case LedsOff => if p in h.leds then Level(h.activeState == 0) else Keep
    case MaskOn(m) => if Bit(m, p) && Bit(LedsMask(h), p) then Level(!Bit(h.invMask, p)) else Keep
    case MaskOff(m) => if Bit(m, p) && Bit(LedsMask(h), p) then Level(Bit(h.invMask, p)) else Keep
    case MaskInvert(m) => if Bit(m, p) then Flip else Keep
  }

  lemma WriteBit(out: bv32, q: Pin, high: bool, p: Pin)
    ensures Bit(Write(out, q, high), p) == if p == q then high else Bit(out, p)
  {
    PinBitAt(q, p);
    if high {
      BitOr(out, PinBit(q), p);
    } else {
      BitAndNot(out, PinBit(q), p);
    }
  }

  lemma {:induction false} WriteAllBit(out: bv32, pins: seq<Pin>, high: bool, p: Pin)
    ensures Bit(WriteAll(out, pins, high), p) == if p in pins then high else Bit(out, p)
  {
    if pins != [] {
      var n := |pins| - 1;
      WriteAllBit(out, pins[..n], high, p);
      WriteBit(WriteAll(out, pins[..n], high), pins[n], high, p);
      assert pins == pins[..n] + [pins[n]];
    }
  }

  lemma InvertedBit(h: Header, m: bv32, p: Pin)
    ensures Bit(Inverted(h, m), p) <==> Bit(m, p) && Bit(LedsMask(h), p) && Bit(h.invMask, p)
  {
    BitAnd(LedsMask(h), h.invMask, p);
    BitAnd(m, And(LedsMask(h), h.invMask), p);
  }

  lemma StraightBit(h: Header, m: bv32, p: Pin)
    ensures Bit(Straight(h, m), p) <==> Bit(m, p) && Bit(LedsMask(h), p) && !Bit(h.invMask, p)
  {
    BitAndNot(LedsMask(h), h.invMask, p);
    BitAnd(m, AndNot(LedsMask(h), h.invMask), p);
  }

  lemma MaskedOnBit(h: Header, out: bv32, m: bv32, p: Pin)
    ensures Bit(MaskedOn(h, out, m), p) ==
            if Bit(m, p) && Bit(LedsMask(h), p) then !Bit(h.invMask, p) else Bit(out, p)
  {
    InvertedBit(h, m, p);
    StraightBit(h, m, p);
    BitAndNot(out, Inverted(h, m), p);
    BitOr(AndNot(out, Inverted(h, m)), Straight(h, m), p);
  }

  lemma MaskedOffBit(h: Header, out: bv32, m: bv32, p: Pin)
    ensures Bit(MaskedOff(h, out, m), p) ==
            if Bit(m, p) && Bit(LedsMask(h), p) then Bit(h.invMask, p) else Bit(out, p)
  {
    InvertedBit(h, m, p);
    StraightBit(h, m, p);
    BitOr(out, Inverted(h, m), p);
    BitAndNot(Or(out, Inverted(h, m)), Straight(h, m), p);
  }

  lemma LedInvertBit(h: Header, i: nat, out: bv32, p: Pin)
    requires i < |h.leds|
    ensures Bit(Xor(out, PinBit(h.leds[i])), p) == if h.leds[i] == p then !Bit(out, p) else Bit(out, p)
  {
    BitXor(out, PinBit(h.leds[i]), p);
    PinBitAt(h.leds[i], p);
  }

  lemma IndexOpBit(h: Header, op: Op, out: bv32, p: Pin)
    requires Legal(h, op) && (op.LedOn? || op.LedOff? || op.LedInvert?)
    ensures Bit(Apply(h, op, out), p) == Driven(DriveOf(h, op, p), Bit(out, p))
  {
    match op
    case LedOn(i) => WriteBit(out, h.leds[i], h.activeState != 0, p);
    case LedOff(i) => WriteBit(out, h.leds[i], h.activeState == 0, p);
    case LedInvert(i) => LedInvertBit(h, i, out, p);
  }

  lemma TableOpBit(h: Header, op: Op, out: bv32, p: Pin)
    requires op.LedsOn? || op.LedsOff?
    ensures Bit(Apply(h, op, out), p) == Driven(DriveOf(h, op, p), Bit(out, p))
  {
    match op
    case LedsOn => WriteAllBit(out, h.leds, h.activeState != 0, p);
    case LedsOff => WriteAllBit(out, h.leds, h.activeState == 0, p);
  }

  lemma MacroOpBit(h: Header, op: Op, out: bv32, p: Pin)
    requires op.MaskOn? || op.MaskOff? || op.MaskInvert?
    ensures Bit(Apply(h, op, out), p) == Driven(DriveOf(h, op, p), Bit(out, p))
  {
    match op
    case MaskOn(m) => MaskedOnBit(h, out, m, p);
    case MaskOff(m) => MaskedOffBit(h, out, m, p);
    case MaskInvert(m) => BitXor(out, m, p);
  }

  /** Each operation does to each pin what `DriveOf` says and nothing else. */
  lemma ApplyBit(h: Header, op: Op, out: bv32, p: Pin)
    requires Legal(h, op)
    ensures Bit(Apply(h, op, out), p) == Driven(DriveOf(h, op, p), Bit(out, p))
  {
    if op.LedOn? || op.LedOff? || op.LedInvert? {
      IndexOpBit(h, op, out, p);
    } else if op.LedsOn? || op.LedsOff? {
      TableOpBit(h, op, out, p);
    } else {
      MacroOpBit(h, op, out, p);
    }
  }

  // ---------------------------------------------------------------------
  // Runs
  // ---------------------------------------------------------------------

  lemma RunOne(h: Header, op: Op, out: bv32)
    requires Legal(h, op)
    ensures Run(h, [op], out) == Apply(h, op, out)
  {
    assert [op][1..] == [];
  }

  lemma {:induction false} RunConcat(h: Header, a: seq<Op>, b: seq<Op>, out: bv32)
    requires AllLegal(h, a) && AllLegal(h, b)
    ensures AllLegal(h, a + b)
    ensures Run(h, a + b, out) == Run(h, b, Run(h, a, out))
    decreases |a|
  {
    if a == [] {
      assert a + b == b;
    } else {
      assert (a + b)[1..] == a[1..] + b;
      RunConcat(h, a[1..], b, Apply(h, a[0], out));
    }
  }

  function Call(i: nat, on: bool): Op {
    if on then LedOn(i) else LedOff(i)
  }

  /** The index calls for the first `n` LEDs whose pins are in the mask. */
  function LoopTo(h: Header, m: bv32, on: bool, n: nat): (ops: seq<Op>)
    requires n <= |h.leds|
    ensures AllLegal(h, ops)
  {
    if n == 0 then []
    else LoopTo(h, m, on, n - 1) + if Bit(m, h.leds[n - 1]) then [Call(n - 1, on)] else []
  }

  /** Switching the LEDs of a mask one by one. */
  function Loop(h: Header, m: bv32, on: bool): (ops: seq<Op>)
    ensures AllLegal(h, ops)
  {
    LoopTo(h, m, on, |h.leds|)
  }

  lemma SelectedLast(pins: seq<Pin>, m: bv32, n: nat)
    requires n < |pins|
    ensures Selected(pins[..n + 1], m) == Selected(pins[..n], m) + if Bit(m, pins[n]) then [pins[n]] else []
  {
    assert pins[..n + 1][..n] == pins[..n];
  }

  lemma WriteAllLast(out: bv32, pins: seq<Pin>, p: Pin, high: bool)
    ensures WriteAll(out, pins + [p], high) == Write(WriteAll(out, pins, high), p, high)
  {
    assert (pins + [p])[..|pins|] == pins;
  }

  /** One call after the first `i` pins have been written writes the next. */
  lemma CallInLoop(h: Header, i: nat, on: bool, high: bool, first: bv32)
    requires i < |h.leds| && high == (on == (h.activeState != 0))
    ensures Apply(h, Call(i, on), WriteAll(first, h.leds[..i], high)) == WriteAll(first, h.leds[..i + 1], high)
  {
    WriteAllLast(first, h.leds[..i], h.leds[i], high);
    assert h.leds[..i + 1] == h.leds[..i] + [h.leds[i]];
  }

  lemma CallWrites(h: Header, i: nat, on: bool, out: bv32)
    requires i < |h.leds|
    ensures Run(h, [Call(i, on)], out) == Write(out, h.leds[i], on == (h.activeState != 0))
  {
    RunOne(h, Call(i, on), out);
  }

  lemma LoopGrows(h: Header, before: seq<Op>, pins: seq<Pin>, i: nat, on: bool, out: bv32)
    requires i < |h.leds| && AllLegal(h, before)
    requires Run(h, before, out) == WriteAll(out, pins, on == (h.activeState != 0))
    ensures Run(h, before + [Call(i, on)], out) ==
            WriteAll(out, pins + [h.leds[i]], on == (h.activeState != 0))
  {
    RunConcat(h, before, [Call(i, on)], out);
    CallWrites(h, i, on, Run(h, before, out));
    WriteAllLast(out, pins, h.leds[i], on == (h.activeState != 0));
  }

  lemma {:induction false} LoopToWrites(h: Header, m: bv32, on: bool, n: nat, out: bv32)
    requires n <= |h.leds|
    ensures Run(h, LoopTo(h, m, on, n), out) ==
            WriteAll(out, Selected(h.leds[..n], m), on == (h.activeState != 0))
  {
    if n > 0 {
      var before, pins := LoopTo(h, m, on, n - 1), Selected(h.leds[..n - 1], m);
      LoopToWrites(h, m, on, n - 1, out);
      SelectedLast(h.leds, m, n - 1);
      if Bit(m, h.leds[n - 1]) {
        LoopGrows(h, before, pins, n - 1, on, out);
      } else {
        assert before + [] == before && pins + [] == pins;
      }
    }
  }

  /** The loop writes the pins of the mask that are in the table. */
  lemma LoopWrites(h: Header, m: bv32, on: bool, out: bv32)
    ensures Run(h, Loop(h, m, on), out) == WriteAll(out, Selected(h.leds, m), on == (h.activeState != 0))
  {
    LoopToWrites(h, m, on, |h.leds|, out);
    assert h.leds[..|h.leds|] == h.leds;
  }
}
