/** The two LED interfaces of a board, and when they are one. */
module LedTheorems {
  import opened Words
  import opened LedBoard

  // ---------------------------------------------------------------------
  // Masks
  // ---------------------------------------------------------------------

  lemma {:induction false} SlotsMaskIsPinMask(slots: seq<Slot>, p: Pin)
    ensures Bit(SlotsMask(slots), p) <==> p in SlotPins(slots)
  {
    if slots == [] {
      BitNone(p);
    } else {
      var n := |slots| - 1;
      SlotsMaskIsPinMask(slots[..n], p);
      BitOr(SlotsMask(slots[..n]), SlotMask(slots[n]), p);
      match slots[n]
      case Absent => BitNone(p);
      case At(pin) => PinBitAt(pin, p);
    }
  }

  /** `LEDS_MASK`, like `BUTTONS_MASK`, has the bit of a pin exactly when some
      slot of the header names it. */
  lemma {:induction false} MaskMembership(slots: seq<Slot>, p: Pin)
    ensures Bit(SlotsMask(slots), p) <==> At(p) in slots
  {
    SlotsMaskIsPinMask(slots, p);
    SlotPinsMembers(slots, p);
  }

  lemma {:induction false} SlotPinsMembers(slots: seq<Slot>, p: Pin)
    ensures p in SlotPins(slots) <==> At(p) in slots
  {
    if slots != [] {
      var n := |slots| - 1;
      SlotPinsMembers(slots[..n], p);
      assert slots == slots[..n] + [slots[n]];
    }
  }

  // ---------------------------------------------------------------------
  // The LED vector
  // ---------------------------------------------------------------------

  /** Each operation does to the LEDs what the caller has in mind. */
  ghost predicate Simulates(h: Header) {
    forall op, out :: Legal(h, op) ==> View(h, Apply(h, op, out)) == Asked(h.leds, op, View(h, out))
  }

  ghost predicate WellWired(h: Header) {
    Injective(h.leds) && CoversTable(h) && PolarityMatches(h)
  }

  /** The drive of an LED's own pin carries out the order given to the LED. */
  lemma DriveCarriesOut(h: Header, op: Op, i: nat, level: bool)
    requires WellWired(h) && Legal(h, op) && i < |h.leds|
    ensures var active := h.activeState != 0;
            (Driven(DriveOf(h, op, h.leds[i]), level) == active) ==
            Obey(OrderFor(h.leds, op, i), level == active)
  {
    var p := h.leds[i];
    assert p in h.leds && Bit(LedsMask(h), p) && Bit(h.invMask, p) == (h.activeState == 0);
    if op.LedOn? || op.LedOff? || op.LedInvert? {
      assert i != op.i ==> p != h.leds[op.i];
    }
  }

  lemma ApplySimulates(h: Header, op: Op, out: bv32)
    requires WellWired(h) && Legal(h, op)
    ensures View(h, Apply(h, op, out)) == Asked(h.leds, op, View(h, out))
  {
    forall i: nat | i < |h.leds|
      ensures Lit(h, Apply(h, op, out), i) == Obey(OrderFor(h.leds, op, i), Lit(h, out, i))
    {
      ApplyBit(h, op, out, h.leds[i]);
      DriveCarriesOut(h, op, i, Bit(out, h.leds[i]));
    }
  }

  /** A word in which every LED of the table is out. */
  function AllOut(h: Header): bv32 {
    if h.activeState != 0 then 0 else ALL
  }

  lemma AllOutIsOut(h: Header, i: nat)
    requires i < |h.leds|
    ensures !Lit(h, AllOut(h), i)
  {
    BitNone(h.leds[i]);
    BitAll(h.leds[i]);
  }

  lemma OnShows(h: Header, op: Op, i: nat)
    requires Simulates(h) && Legal(h, op) && i < |h.leds|
    ensures Lit(h, Apply(h, op, AllOut(h)), i) == Obey(OrderFor(h.leds, op, i), false)
  {
    AllOutIsOut(h, i);
    var out := AllOut(h);
    assert View(h, Apply(h, op, out))[i] == Asked(h.leds, op, View(h, out))[i];
  }

  lemma SimulatesInjective(h: Header)
    requires Simulates(h)
    ensures Injective(h.leds)
  {
    forall i, j | 0 <= i < j < |h.leds|
      ensures h.leds[i] != h.leds[j]
    {
      OnShows(h, LedOn(i), i);
      OnShows(h, LedOn(i), j);
    }
  }

  lemma SimulatesMask(h: Header)
    requires Simulates(h)
    ensures CoversTable(h) && PolarityMatches(h)
  {
    forall i | 0 <= i < |h.leds|
      ensures Bit(LedsMask(h), h.leds[i])
      ensures Bit(h.invMask, h.leds[i]) == (h.activeState == 0)
    {
      BitAll(h.leds[i]);
      OnShows(h, MaskOn(ALL), i);
      AllOutIsOut(h, i);
      MaskedOnBit(h, AllOut(h), ALL, h.leds[i]);
    }
  }

  /** The index calls and the macros together drive the LED vector as asked, on
      every OUT word, exactly when no two LEDs share a pin, `LEDS_MASK` has
      every LED, and the inverse mask has them all or none according to the
      active state. */
  lemma SimulationExactly(h: Header)
    ensures Simulates(h) <==> WellWired(h)
  {
    if Simulates(h) {
      SimulatesInjective(h);
      SimulatesMask(h);
    }
    if WellWired(h) {
      forall op, out | Legal(h, op)
        ensures View(h, Apply(h, op, out)) == Asked(h.leds, op, View(h, out))
      {
        ApplySimulates(h, op, out);
      }
    }
  }

  /** Any run of calls and macros, in any mixture. */
  lemma {:induction false} RunSimulates(h: Header, ops: seq<Op>, out: bv32)
    requires WellWired(h) && AllLegal(h, ops)
    ensures View(h, Run(h, ops, out)) == AskedRun(h.leds, ops, View(h, out))
    decreases |ops|
  {
    if ops != [] {
      ApplySimulates(h, ops[0], out);
      RunSimulates(h, ops[1..], Apply(h, ops[0], out));
    }
  }

  // ---------------------------------------------------------------------
  // What LED_IS_ON reports
  // ---------------------------------------------------------------------

  lemma LedIsOnBit(h: Header, out: bv32, m: bv32, p: Pin)
    ensures Bit(LedIsOn(h, out, m), p) <==> Bit(m, p) && Bit(out, p) != Bit(h.invMask, p)
  {
    BitXor(out, h.invMask, p);
    BitAnd(m, Xor(out, h.invMask), p);
  }

  ghost predicate SomeLit(h: Header, out: bv32, m: bv32) {
    exists i: nat :: i < |h.leds| && Bit(m, h.leds[i]) && Lit(h, out, i)
  }

  ghost predicate InMask(m: bv32, all: bv32) {
    forall p: Pin :: Bit(m, p) ==> Bit(all, p)
  }

  /** The LEDs that `LEDS_MASK` holds are inverted exactly when LEDs are lit by
      a low level. */
  ghost predicate MaskPolarityMatches(h: Header) {
    forall i | 0 <= i < |h.leds| && Bit(LedsMask(h), h.leds[i]) ::
      Bit(h.invMask, h.leds[i]) == (h.activeState == 0)
  }

  lemma LedIsOnReports(h: Header, out: bv32, m: bv32)
    requires WithinTable(h) && MaskPolarityMatches(h) && InMask(m, LedsMask(h))
    ensures LedIsOn(h, out, m) != 0 <==> SomeLit(h, out, m)
  {
    var reported := LedIsOn(h, out, m);
    if reported != 0 {
      BitNoneAnywhere();
      var p := DifferSomewhere(reported, 0);
      LedIsOnBit(h, out, m, p);
      var i: nat :| i < |h.leds| && h.leds[i] == p;
      assert Lit(h, out, i);
    }
    if SomeLit(h, out, m) {
      var i: nat :| i < |h.leds| && Bit(m, h.leds[i]) && Lit(h, out, i);
      LedIsOnBit(h, out, m, h.leds[i]);
      BitNone(h.leds[i]);
    }
  }

  /** For every mask inside `LEDS_MASK` and every word, `LED_IS_ON` is nonzero
      exactly when some LED of the mask is lit. */
  ghost predicate ReportsAlways(h: Header) {
    forall out, m :: InMask(m, LedsMask(h)) ==> (LedIsOn(h, out, m) != 0 <==> SomeLit(h, out, m))
  }

  /** The mask of one pin, on a word that has the pin at the level the inverse
      mask takes for lit, shows where the pin is in the table. */
  lemma ReportShowsPin(h: Header, p: Pin) returns (i: nat)
    requires ReportsAlways(h) && Bit(LedsMask(h), p)
    ensures i < |h.leds| && h.leds[i] == p
    ensures Bit(h.invMask, p) == (h.activeState == 0)
  {
    var m, out := PinBit(p), if Bit(h.invMask, p) then 0 else ALL;
    BitNone(p);
    BitAll(p);
    forall q: Pin
      ensures Bit(m, q) <==> q == p
    {
      PinBitAt(p, q);
    }
    LedIsOnBit(h, out, m, p);
    assert InMask(m, LedsMask(h)) && SomeLit(h, out, m);
    i :| i < |h.leds| && Bit(m, h.leds[i]) && Lit(h, out, i);
  }

  /** It does so exactly when `LEDS_MASK` has no pin outside the table and the
      LEDs it holds have the right polarity: those it leaves out do not matter. */
  lemma ReportsExactly(h: Header)
    ensures ReportsAlways(h) <==> WithinTable(h) && MaskPolarityMatches(h)
  {
    if ReportsAlways(h) {
      forall p: Pin | Bit(LedsMask(h), p)
        ensures p in h.leds
        ensures Bit(h.invMask, p) == (h.activeState == 0)
      {
        var i := ReportShowsPin(h, p);
      }
    }
    if WithinTable(h) && MaskPolarityMatches(h) {
      forall out, m | InMask(m, LedsMask(h))
        ensures LedIsOn(h, out, m) != 0 <==> SomeLit(h, out, m)
      {
        LedIsOnReports(h, out, m);
      }
    }
  }

  lemma BitNoneAnywhere()
    ensures forall p: Pin :: !Bit(0, p)
  {
    forall p: Pin
      ensures !Bit(0, p)
    {
      BitNone(p);
    }
  }

  /** After any run, the index interface and `LED_IS_ON` both report the vector
      the caller has in mind. */
  lemma RunReports(h: Header, ops: seq<Op>, out: bv32, m: bv32)
    requires WellWired(h) && WithinTable(h) && AllLegal(h, ops) && InMask(m, LedsMask(h))
    ensures var v := AskedRun(h.leds, ops, View(h, out));
            && (forall i: nat | i < |h.leds| :: Lit(h, Run(h, ops, out), i) == v[i])
            && (LedIsOn(h, Run(h, ops, out), m) != 0 <==>
                  exists i: nat :: i < |h.leds| && Bit(m, h.leds[i]) && v[i])
  {
    var end := Run(h, ops, out);
    var v := AskedRun(h.leds, ops, View(h, out));
    RunSimulates(h, ops, out);
    assert forall i: nat | i < |h.leds| :: Lit(h, end, i) == View(h, end)[i];
    LedIsOnReports(h, end, m);
  }

  // ---------------------------------------------------------------------
  // The macros and the loops over the index calls
  // ---------------------------------------------------------------------

  /** `LEDS_ON(m)` and `LEDS_OFF(m)` leave the OUT word that calling the index
      interface for each LED of the mask would leave. */
  predicate LoopsAt(h: Header, out: bv32, m: bv32) {
    && MaskedOn(h, out, m) == Run(h, Loop(h, m, true), out)
    && MaskedOff(h, out, m) == Run(h, Loop(h, m, false), out)
  }

  ghost predicate MacrosAreLoops(h: Header) {
    forall out, m :: LoopsAt(h, out, m)
  }

  lemma MaskedOnIsLoop(h: Header, out: bv32, m: bv32)
    requires CoversTable(h) && WithinTable(h) && PolarityMatches(h)
    ensures MaskedOn(h, out, m) == Run(h, Loop(h, m, true), out)
  {
    var chosen := Selected(h.leds, m);
    var loop := WriteAll(out, chosen, h.activeState != 0);
    LoopWrites(h, m, true, out);
    forall p: Pin
      ensures Bit(MaskedOn(h, out, m), p) == Bit(loop, p)
    {
      MaskedOnBit(h, out, m, p);
      WriteAllBit(out, chosen, h.activeState != 0, p);
      SelectedPins(h.leds, m, p);
    }
    WordsByBits(MaskedOn(h, out, m), loop);
  }

  lemma MaskedOffIsLoop(h: Header, out: bv32, m: bv32)
    requires CoversTable(h) && WithinTable(h) && PolarityMatches(h)
    ensures MaskedOff(h, out, m) == Run(h, Loop(h, m, false), out)
  {
    var chosen := Selected(h.leds, m);
    var loop := WriteAll(out, chosen, h.activeState == 0);
    LoopWrites(h, m, false, out);
    forall p: Pin
      ensures Bit(MaskedOff(h, out, m), p) == Bit(loop, p)
    {
      MaskedOffBit(h, out, m, p);
      WriteAllBit(out, chosen, h.activeState == 0, p);
      SelectedPins(h.leds, m, p);
    }
    WordsByBits(MaskedOff(h, out, m), loop);
  }

  /** What a macro naming every bit does to one pin shows how it is wired. */
  lemma LoopShowsPin(h: Header, p: Pin)
    requires MacrosAreLoops(h)
    ensures p in h.leds <==> Bit(LedsMask(h), p)
    ensures p in h.leds ==> Bit(h.invMask, p) == (h.activeState == 0)
  {
    var all := ALL;
    var active := h.activeState != 0;
    BitAll(p);
    BitNone(p);
    SelectedPins(h.leds, all, p);
    LoopWrites(h, all, true, 0);
    LoopWrites(h, all, true, all);
    assert LoopsAt(h, 0, all) && LoopsAt(h, all, all);
    MaskedOnBit(h, 0, all, p);
    MaskedOnBit(h, all, all, p);
    WriteAllBit(0, Selected(h.leds, all), active, p);
    WriteAllBit(all, Selected(h.leds, all), active, p);
  }

  /** They do so for all masks and words exactly when `LEDS_MASK` is the LED
      table and the polarity matches; the table need not be injective. */
  lemma MacrosAreLoopsExactly(h: Header)
    ensures MacrosAreLoops(h) <==> CoversTable(h) && WithinTable(h) && PolarityMatches(h)
  {
    if MacrosAreLoops(h) {
      forall p: Pin
        ensures p in h.leds <==> Bit(LedsMask(h), p)
        ensures p in h.leds ==> Bit(h.invMask, p) == (h.activeState == 0)
      {
        LoopShowsPin(h, p);
      }
    }
    if CoversTable(h) && WithinTable(h) && PolarityMatches(h) {
      forall out, m
        ensures LoopsAt(h, out, m)
      {
        MaskedOnIsLoop(h, out, m);
        MaskedOffIsLoop(h, out, m);
      }
    }
  }

  /** The same board with its LEDs lit by the other level. */
  function Turned(h: Header): Header {
    h.(activeState := if h.activeState == 0 then 1 else 0)
  }

  /** The macros do not look at the active state, and every index call does the
      opposite. */
  lemma TurnedLoops(h: Header, out: bv32, m: bv32, on: bool)
    ensures MaskedOn(Turned(h), out, m) == MaskedOn(h, out, m)
    ensures MaskedOff(Turned(h), out, m) == MaskedOff(h, out, m)
    ensures Run(Turned(h), Loop(Turned(h), m, on), out) == Run(h, Loop(h, m, !on), out)
  {
    LoopWrites(Turned(h), m, on, out);
    LoopWrites(h, m, !on, out);
  }

  /** `LEDS_ON` does what the off calls do, and `LEDS_OFF` what the on calls do. */
  predicate SwapsAt(h: Header, out: bv32, m: bv32) {
    && MaskedOn(h, out, m) == Run(h, Loop(h, m, false), out)
    && MaskedOff(h, out, m) == Run(h, Loop(h, m, true), out)
  }

  ghost predicate MacrosSwapped(h: Header) {
    forall out, m :: SwapsAt(h, out, m)
  }

  lemma TurnedSwaps(h: Header, out: bv32, m: bv32)
    ensures SwapsAt(h, out, m) <==> LoopsAt(Turned(h), out, m)
  {
    TurnedLoops(h, out, m, true);
    TurnedLoops(h, out, m, false);
  }

  ghost predicate PolarityReversed(h: Header) {
    forall i :: 0 <= i < |h.leds| ==> Bit(h.invMask, h.leds[i]) == (h.activeState != 0)
  }

  /** The macros trade places exactly when `LEDS_MASK` is the LED table and
      every LED is inverted the wrong way. */
  lemma MacrosSwappedExactly(h: Header)
    ensures MacrosSwapped(h) <==> CoversTable(h) && WithinTable(h) && PolarityReversed(h)
  {
    MacrosAreLoopsExactly(Turned(h));
    forall out, m
      ensures SwapsAt(h, out, m) <==> LoopsAt(Turned(h), out, m)
    {
      TurnedSwaps(h, out, m);
    }
    TurnedConditions(h);
  }

  lemma TurnedConditions(h: Header)
    ensures CoversTable(Turned(h)) <==> CoversTable(h)
    ensures WithinTable(Turned(h)) <==> WithinTable(h)
    ensures PolarityMatches(Turned(h)) <==> PolarityReversed(h)
  {
    assert LedsMask(Turned(h)) == LedsMask(h);
  }

  ghost predicate SomeDark(h: Header, out: bv32, m: bv32) {
    exists i: nat :: i < |h.leds| && Bit(m, h.leds[i]) && !Lit(h, out, i)
  }

  /** For every mask inside `LEDS_MASK` and every word, `LED_IS_ON` is nonzero
      exactly when some LED of the mask is out. */
  ghost predicate ReportsDark(h: Header) {
    forall out, m :: InMask(m, LedsMask(h)) ==> (LedIsOn(h, out, m) != 0 <==> SomeDark(h, out, m))
  }

  ghost predicate MaskPolarityReversed(h: Header) {
    forall i | 0 <= i < |h.leds| && Bit(LedsMask(h), h.leds[i]) ::
      Bit(h.invMask, h.leds[i]) == (h.activeState != 0)
  }

  lemma TurnedReport(h: Header, out: bv32, m: bv32)
    ensures LedIsOn(Turned(h), out, m) == LedIsOn(h, out, m)
    ensures SomeLit(Turned(h), out, m) <==> SomeDark(h, out, m)
  {
    forall i: nat | i < |h.leds|
      ensures Lit(Turned(h), out, i) <==> !Lit(h, out, i)
    {
    }
  }

  /** It reports the opposite exactly when the LEDs that `LEDS_MASK` holds are
      inverted the wrong way. */
  lemma ReportsDarkExactly(h: Header)
    ensures ReportsDark(h) <==> WithinTable(h) && MaskPolarityReversed(h)
  {
    ReportsExactly(Turned(h));
    TurnedConditions(h);
    assert LedsMask(Turned(h)) == LedsMask(h);
    assert MaskPolarityMatches(Turned(h)) <==> MaskPolarityReversed(h);
    forall out, m
      ensures LedIsOn(Turned(h), out, m) == LedIsOn(h, out, m)
      ensures SomeLit(Turned(h), out, m) <==> SomeDark(h, out, m)
    {
      TurnedReport(h, out, m);
    }
    assert ReportsDark(h) <==> ReportsAlways(Turned(h));
  }

  // ---------------------------------------------------------------------
  // What stays as it was
  // ---------------------------------------------------------------------

  /** Whether an operation names pin `p` to be inverted. */
  predicate Inverts(h: Header, op: Op, p: Pin)
    requires Legal(h, op)
  {
    match op
    case LedInvert(i) => h.leds[i] == p
    case MaskInvert(m) => Bit(m, p)
    case _ => false
  }

  function Inversions(h: Header, ops: seq<Op>, p: Pin): nat
    requires AllLegal(h, ops)
  {
    if ops == [] then 0 else (if Inverts(h, ops[0], p) then 1 else 0) + Inversions(h, ops[1..], p)
  }

  /** Over a whole run a pin outside the LEDs keeps its level but for the
      inversions that name it, whose parity it shows. */
  lemma {:induction false} RunFrame(h: Header, ops: seq<Op>, out: bv32, p: Pin)
    requires WithinTable(h) && AllLegal(h, ops) && p !in h.leds
    ensures Bit(Run(h, ops, out), p) == (Bit(out, p) != (Inversions(h, ops, p) % 2 == 1))
    decreases |ops|
  {
    if ops != [] {
      ApplyBit(h, ops[0], out, p);
      RunFrame(h, ops[1..], Apply(h, ops[0], out), p);
    }
  }

  predicate OnlyInversions(ops: seq<Op>) {
    forall op :: op in ops ==> op.LedInvert? || op.MaskInvert?
  }

  lemma InversionDrive(h: Header, op: Op, p: Pin)
    requires Legal(h, op) && (op.LedInvert? || op.MaskInvert?)
    ensures DriveOf(h, op, p) == if Inverts(h, op, p) then Flip else Keep
  {
  }

  /** A run of inversions, by index or by mask, leaves every pin at its first
      level or the other according to how many of them name it. */
  lemma {:induction false} InversionParity(h: Header, ops: seq<Op>, out: bv32, p: Pin)
    requires AllLegal(h, ops) && OnlyInversions(ops)
    ensures Bit(Run(h, ops, out), p) == (Bit(out, p) != (Inversions(h, ops, p) % 2 == 1))
    decreases |ops|
  {
    if ops != [] {
      ApplyBit(h, ops[0], out, p);
      InversionDrive(h, ops[0], p);
      InversionParity(h, ops[1..], Apply(h, ops[0], out), p);
    }
  }

  lemma {:induction false} InversionsConcat(h: Header, a: seq<Op>, b: seq<Op>, p: Pin)
    requires AllLegal(h, a) && AllLegal(h, b)
    ensures AllLegal(h, a + b)
    ensures Inversions(h, a + b, p) == Inversions(h, a, p) + Inversions(h, b, p)
  {
    if a == [] {
      assert a + b == b;
    } else {
      assert (a + b)[1..] == a[1..] + b;
      InversionsConcat(h, a[1..], b, p);
    }
  }

  /** Inverting twice over is doing nothing. */
  lemma InvertTwice(h: Header, ops: seq<Op>, out: bv32)
    requires AllLegal(h, ops) && OnlyInversions(ops)
    ensures AllLegal(h, ops + ops)
    ensures Run(h, ops + ops, out) == out
  {
    var twice := Run(h, ops + ops, out);
    forall p: Pin
      ensures Bit(twice, p) == Bit(out, p)
    {
      InversionsConcat(h, ops, ops, p);
      InversionParity(h, ops + ops, out, p);
    }
    WordsByBits(twice, out);
  }

  // ---------------------------------------------------------------------
  // Turning everything off
  // ---------------------------------------------------------------------

  /** `bsp_board_leds_off` puts every LED out and touches no other pin, for any
      table, even one that lists a pin twice. */
  lemma AllOffTurnsOff(h: Header, out: bv32)
    ensures forall i: nat | i < |h.leds| :: !Lit(h, Apply(h, LedsOff, out), i)
    ensures forall p: Pin | p !in h.leds :: Bit(Apply(h, LedsOff, out), p) == Bit(out, p)
  {
    forall i: nat | i < |h.leds|
      ensures !Lit(h, Apply(h, LedsOff, out), i)
    {
      ApplyBit(h, LedsOff, out, h.leds[i]);
    }
    forall p: Pin | p !in h.leds
      ensures Bit(Apply(h, LedsOff, out), p) == Bit(out, p)
    {
      ApplyBit(h, LedsOff, out, p);
    }
  }
}
