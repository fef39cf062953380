/** The board support calls and macros, as they drive the port. */
module Board {
  import opened Words
  import opened LedBoard
  import opened LedTheorems
  import opened LedAccess
  import opened Gpio

  /** What a board header says of its buttons. */
  datatype Buttons = Buttons(pins: PinTable, activeState: int, pull: bv32)

  /** `r` is the least index at which the table holds the pin number, or
      `NOT_FOUND` when it does not. */
  ghost predicate IsFirstIndex(pins: PinTable, pin: bv32, r: nat) {
    if r < |pins| then
      pins[r] as bv32 == pin && forall i :: 0 <= i < r ==> pins[i] as bv32 != pin
    else
      r == NOT_FOUND && forall i :: 0 <= i < |pins| ==> pins[i] as bv32 != pin
  }

  lemma MacroMasks(h: Header, m: bv32)
    ensures m & (LedsMask(h) & h.invMask) == Inverted(h, m)
    ensures m & (LedsMask(h) & !h.invMask) == Straight(h, m)
  {
  }

  /** The two words that `LEDS_ON` and `LEDS_OFF` write, pin by pin. */
  lemma MacroParts(h: Header, m: bv32)
    ensures forall p: Pin :: Bit(Inverted(h, m), p) <==> Bit(m, p) && Bit(LedsMask(h), p) && Bit(h.invMask, p)
    ensures forall p: Pin :: Bit(Straight(h, m), p) <==> Bit(m, p) && Bit(LedsMask(h), p) && !Bit(h.invMask, p)
  {
    forall p: Pin
      ensures Bit(Inverted(h, m), p) <==> Bit(m, p) && Bit(LedsMask(h), p) && Bit(h.invMask, p)
      ensures Bit(Straight(h, m), p) <==> Bit(m, p) && Bit(LedsMask(h), p) && !Bit(h.invMask, p)
    {
      InvertedBit(h, m, p);
      StraightBit(h, m, p);
    }
  }

  /** The two words that `LEDS_INVERT` writes, pin by pin. */
  lemma InvertParts(m: bv32, out: bv32)
    ensures forall p: Pin :: Bit(AndNot(m, out), p) <==> Bit(m, p) && !Bit(out, p)
    ensures forall p: Pin :: Bit(And(m, out), p) <==> Bit(m, p) && Bit(out, p)
  {
    forall p: Pin
      ensures Bit(AndNot(m, out), p) <==> Bit(m, p) && !Bit(out, p)
      ensures Bit(And(m, out), p) <==> Bit(m, p) && Bit(out, p)
    {
      BitAndNot(m, out, p);
      BitAnd(m, out, p);
    }
  }

  /** `r` has exactly the pins of the mask whose level in `out` differs from
      their bit in the inverse mask. */
  ghost predicate TellsPins(r: bv32, m: bv32, out: bv32, inverse: bv32) {
    forall p: Pin :: Bit(r, p) <==> Bit(m, p) && Bit(out, p) != Bit(inverse, p)
  }

  lemma LedIsOnTells(h: Header, out: bv32, m: bv32)
    ensures TellsPins(LedIsOn(h, out, m), m, out, h.invMask)
  {
    forall p: Pin
      ensures Bit(LedIsOn(h, out, m), p) <==> Bit(m, p) && Bit(out, p) != Bit(h.invMask, p)
    {
      LedIsOnBit(h, out, m, p);
    }
  }

  lemma TellsTheSame(r: bv32, s: bv32, m: bv32, out: bv32, inverse: bv32)
    requires TellsPins(r, m, out, inverse) && TellsPins(s, m, out, inverse)
    ensures r == s
  {
    WordsByBits(r, s);
  }

  /** A word that tells the pins is what `LED_IS_ON` computes. */
  lemma TellsLedIsOn(h: Header, out: bv32, m: bv32, r: bv32)
    requires TellsPins(r, m, out, h.invMask)
    ensures r == LedIsOn(h, out, m)
  {
    LedIsOnTells(h, out, m);
    TellsTheSame(r, LedIsOn(h, out, m), m, out, h.invMask);
  }

  /** Pin `p` is named by the mask and the scan has passed it. */
  ghost predicate Scanned(m: bv32, p: Pin, upTo: bv8) {
    p < upTo && Bit(m, p)
  }

  lemma ScanStart(m: bv32)
    ensures forall p: Pin :: !Scanned(m, p, 0)
  {
  }

  lemma ScanStep(m: bv32, upTo: Pin, next: bv8, p: Pin)
    requires next == upTo + 1
    ensures Scanned(m, p, next) <==> Scanned(m, p, upTo) || (p == upTo && Bit(m, upTo))
  {
  }

  lemma ScanEnd(m: bv32, p: Pin)
    ensures Scanned(m, p, 32) <==> Bit(m, p)
  {
  }

  class BoardSupport {
    const header: Header
    const buttons: Buttons
    const gpio: Port

    constructor (header: Header, buttons: Buttons, gpio: Port)
      ensures this.header == header && this.buttons == buttons && this.gpio == gpio
    {
      this.header, this.buttons, this.gpio := header, buttons, gpio;
    }

    /** What an operation does on the port, when OUT holds `out` at first. */
    ghost function Made(op: Op, out: bv32): seq<Event>
      requires Legal(header, op)
    {
      Events(Accesses(header, op), out, 0)
    }

    // -------------------------------------------------------------------
    // The index interface
    // -------------------------------------------------------------------

    function LedStateGet(i: nat): (on: bool)
      requires i < |header.leds|
      reads this, gpio
      ensures on == Lit(header, gpio.out, i)
    {
      var pinSet := gpio.PinOutRead(header.leds[i]) != 0;
      pinSet == (header.activeState != 0)
    }

    method LedOn(i: nat)
      requires i < |header.leds|
      modifies gpio`out, gpio`trace
      ensures gpio.out == Apply(header, Op.LedOn(i), old(gpio.out))
      ensures gpio.trace == old(gpio.trace) + Made(Op.LedOn(i), old(gpio.out))
      ensures gpio.trace == old(gpio.trace) +
              [if header.activeState != 0 then WritesOutset(PinBit(header.leds[i]))
               else WritesOutclr(PinBit(header.leds[i]))]
    {
      EventsOne(WriteAccess(header.leds[i], header.activeState != 0), gpio.out, 0);
      gpio.PinWrite(header.leds[i], if header.activeState != 0 then 1 else 0);
    }

    method LedOff(i: nat)
      requires i < |header.leds|
      modifies gpio`out, gpio`trace
      ensures gpio.out == Apply(header, Op.LedOff(i), old(gpio.out))
      ensures gpio.trace == old(gpio.trace) + Made(Op.LedOff(i), old(gpio.out))
      ensures gpio.trace == old(gpio.trace) +
              [if header.activeState == 0 then WritesOutset(PinBit(header.leds[i]))
               else WritesOutclr(PinBit(header.leds[i]))]
    {
      EventsOne(WriteAccess(header.leds[i], header.activeState == 0), gpio.out, 0);
      gpio.PinWrite(header.leds[i], if header.activeState != 0 then 0 else 1);
    }

    method LedInvert(i: nat)
      requires i < |header.leds|
      modifies gpio`out, gpio`trace
      ensures gpio.out == Apply(header, Op.LedInvert(i), old(gpio.out))
      ensures gpio.trace == old(gpio.trace) + Made(Op.LedInvert(i), old(gpio.out))
      ensures gpio.trace == old(gpio.trace) +
              [ReadsOut,
               WritesOutset(AndNot(PinBit(header.leds[i]), old(gpio.out))),
               WritesOutclr(And(PinBit(header.leds[i]), old(gpio.out)))]
    {
      EventsInvert(PinBit(header.leds[i]), gpio.out, 0);
      gpio.PinToggle(header.leds[i]);
    }

    method LedsOff()
      modifies gpio`out, gpio`trace
      ensures gpio.out == Apply(header, Op.LedsOff, old(gpio.out))
      ensures gpio.trace == old(gpio.trace) + Made(Op.LedsOff, old(gpio.out))
      ensures |old(gpio.trace)| <= |gpio.trace|
      ensures OneWriteEach(gpio.trace[|old(gpio.trace)|..], header.leds, header.activeState == 0)
    {
      ghost var high := header.activeState == 0;
      LoopStarts(header, high, gpio.out, gpio.trace);
      var i := 0;
      while i < |header.leds|
        invariant 0 <= i <= |header.leds|
        invariant LoopAt(header, i, high, old(gpio.out), old(gpio.trace), gpio.out, gpio.trace)
      {
        LoopGoesOn(header, i, false, high, old(gpio.out), old(gpio.trace), gpio.out, gpio.trace);
        LedOff(i);
        i := i + 1;
      }
      LoopEnds(header, false, high, old(gpio.out), old(gpio.trace), gpio.out, gpio.trace);
    }

    method LedsOn()
      modifies gpio`out, gpio`trace
      ensures gpio.out == Apply(header, Op.LedsOn, old(gpio.out))
      ensures gpio.trace == old(gpio.trace) + Made(Op.LedsOn, old(gpio.out))
      ensures |old(gpio.trace)| <= |gpio.trace|
      ensures OneWriteEach(gpio.trace[|old(gpio.trace)|..], header.leds, header.activeState != 0)
    {
      ghost var high := header.activeState != 0;
      LoopStarts(header, high, gpio.out, gpio.trace);
      var i := 0;
      while i < |header.leds|
        invariant 0 <= i <= |header.leds|
        invariant LoopAt(header, i, high, old(gpio.out), old(gpio.trace), gpio.out, gpio.trace)
      {
        LoopGoesOn(header, i, true, high, old(gpio.out), old(gpio.trace), gpio.out, gpio.trace);
        LedOn(i);
        i := i + 1;
      }
      LoopEnds(header, true, high, old(gpio.out), old(gpio.trace), gpio.out, gpio.trace);
    }

    /** Afterwards every LED pin is an output and every LED is out, and every
        other pin is as it was, whether or not the table lists a pin twice. */
    method LedsInit()
      requires gpio.Valid()
      modifies gpio`out, gpio`trace, gpio.cnf
      ensures forall p: Pin ::
                gpio.Cnf(p) == if p in header.leds then OUTPUT_CNF else old(gpio.Cnf(p))
      ensures forall p: Pin | p in header.leds :: ReadsAs(gpio.Cnf(p), 1, 1, 0, 0, 0)
      ensures forall i: nat | i < |header.leds| :: !LedStateGet(i)
      ensures forall p: Pin | p !in header.leds :: Bit(gpio.out, p) == Bit(old(gpio.out), p)
      ensures gpio.trace == old(gpio.trace) + Made(Op.LedsOff, old(gpio.out))
    {
      var i := 0;
      while i < |header.leds|
        invariant 0 <= i <= |header.leds|
        invariant gpio.out == old(gpio.out) && gpio.trace == old(gpio.trace)
        invariant forall p: Pin ::
                    gpio.Cnf(p) == if p in header.leds[..i] then OUTPUT_CNF else old(gpio.Cnf(p))
      {
        gpio.CfgOutput(header.leds[i]);
        assert header.leds[..i + 1] == header.leds[..i] + [header.leds[i]];
        i := i + 1;
      }
      assert header.leds[..i] == header.leds;
      OutputWord();
      LedsOff();
      AllOffTurnsOff(header, old(gpio.out));
    }

    /** In a table without repetition the lookup leads back to the index. */
    function LedIdxToPin(i: nat): (pin: bv32)
      requires i < |header.leds|
      ensures header.leds[i] as bv32 == pin
      ensures Injective(header.leds) ==> IsFirstIndex(header.leds, pin, i)
    {
      header.leds[i] as bv32
    }

    method PinToLedIdx(pin: bv32) returns (r: nat)
      ensures IsFirstIndex(header.leds, pin, r) && (r >= |header.leds| ==> r == 0xFFFF_FFFF)
    {
      r := NOT_FOUND;
      var i := 0;
      while i < |header.leds|
        invariant 0 <= i <= |header.leds|
        invariant r == NOT_FOUND
        invariant forall j :: 0 <= j < i ==> header.leds[j] as bv32 != pin
      {
        if header.leds[i] as bv32 == pin {
          r := i;
          break;
        }
        i := i + 1;
      }
    }

    // -------------------------------------------------------------------
    // The mask macros
    // -------------------------------------------------------------------

    method MaskOff(m: bv32)
      modifies gpio`out, gpio`trace
      ensures gpio.out == Apply(header, Op.MaskOff(m), old(gpio.out))
      ensures gpio.trace == old(gpio.trace) + Made(Op.MaskOff(m), old(gpio.out))
      ensures gpio.trace == old(gpio.trace) + [WritesOutset(Inverted(header, m)), WritesOutclr(Straight(header, m))]
      ensures forall p: Pin ::
                Bit(Inverted(header, m), p) <==> Bit(m, p) && Bit(LedsMask(header), p) && Bit(header.invMask, p)
      ensures forall p: Pin ::
                Bit(Straight(header, m), p) <==> Bit(m, p) && Bit(LedsMask(header), p) && !Bit(header.invMask, p)
    {
      MacroMasks(header, m);
      MacroParts(header, m);
      var inverted := m & (LedsMask(header) & header.invMask);
      var straight := m & (LedsMask(header) & !header.invMask);
      EventsTwo(Outset(inverted), Outclr(straight), gpio.out, 0);
      gpio.WriteOutset(inverted);
      gpio.WriteOutclr(straight);
    }

    method MaskOn(m: bv32)
      modifies gpio`out, gpio`trace
      ensures gpio.out == Apply(header, Op.MaskOn(m), old(gpio.out))
      ensures gpio.trace == old(gpio.trace) + Made(Op.MaskOn(m), old(gpio.out))
      ensures gpio.trace == old(gpio.trace) + [WritesOutclr(Inverted(header, m)), WritesOutset(Straight(header, m))]
      ensures forall p: Pin ::
                Bit(Inverted(header, m), p) <==> Bit(m, p) && Bit(LedsMask(header), p) && Bit(header.invMask, p)
      ensures forall p: Pin ::
                Bit(Straight(header, m), p) <==> Bit(m, p) && Bit(LedsMask(header), p) && !Bit(header.invMask, p)
    {
      MacroMasks(header, m);
      MacroParts(header, m);
      var inverted := m & (LedsMask(header) & header.invMask);
      var straight := m & (LedsMask(header) & !header.invMask);
      EventsTwo(Outclr(inverted), Outset(straight), gpio.out, 0);
      gpio.WriteOutclr(inverted);
      gpio.WriteOutset(straight);
    }

    method MaskInvert(m: bv32)
      modifies gpio`out, gpio`trace
      ensures gpio.out == Apply(header, Op.MaskInvert(m), old(gpio.out))
      ensures gpio.trace == old(gpio.trace) + Made(Op.MaskInvert(m), old(gpio.out))
      ensures gpio.trace == old(gpio.trace) +
              [ReadsOut, WritesOutset(AndNot(m, old(gpio.out))), WritesOutclr(And(m, old(gpio.out)))]
      ensures forall p: Pin :: Bit(AndNot(m, old(gpio.out)), p) <==> Bit(m, p) && !Bit(old(gpio.out), p)
      ensures forall p: Pin :: Bit(And(m, old(gpio.out)), p) <==> Bit(m, p) && Bit(old(gpio.out), p)
    {
      InvertParts(m, gpio.out);
      EventsInvert(m, gpio.out, 0);
      var state := gpio.ReadOut();
      AndCommutes(state, m);
      AndCommutes(m, state);
      gpio.WriteOutset(m & !state);
      gpio.WriteOutclr(m & state);
      FlipByPartsIsXor(state, m);
    }

    /** `LED_IS_ON`: the pins of the mask whose level differs from their bit in
        the inverse mask. */
    function MaskIsOn(m: bv32): (r: bv32)
      reads this, gpio
      ensures TellsPins(r, m, gpio.out, header.invMask)
    {
      LedIsOnTells(header, gpio.out, m);
      And(m, Xor(gpio.out, header.invMask))
    }

    /** Makes an output of exactly the pins of the mask. */
    method Configure(m: bv32)
      requires gpio.Valid()
      modifies gpio.cnf
      ensures forall p: Pin ::
                gpio.Cnf(p) == if Bit(m, p) then OUTPUT_CNF else old(gpio.Cnf(p))
      ensures forall p: Pin | Bit(m, p) :: ReadsAs(gpio.Cnf(p), 1, 1, 0, 0, 0)
    {
      var pin: bv8 := 0;
      ScanStart(m);
      while pin < 32
        invariant pin <= 32
        invariant forall p: Pin ::
                    gpio.Cnf(p) == if Scanned(m, p, pin) then OUTPUT_CNF else old(gpio.Cnf(p))
        decreases 32 - pin as int
      {
        var here: Pin := pin;
        var next: bv8 := pin + 1;
        forall p: Pin
          ensures Scanned(m, p, next) <==> Scanned(m, p, here) || (p == here && Bit(m, here))
        {
          ScanStep(m, here, next, p);
        }
        if m & (1 << here) != 0 {
          gpio.CfgOutput(here);
        }
        pin := next;
      }
      forall p: Pin
        ensures Scanned(m, p, 32) <==> Bit(m, p)
      {
        ScanEnd(m, p);
      }
      OutputWord();
    }

    // -------------------------------------------------------------------
    // Buttons
    // -------------------------------------------------------------------

    /** A button is pressed when its pin reads its active level. */
    function ButtonStateGet(i: nat): (pressed: bool)
      requires i < |buttons.pins|
      reads this, gpio
      ensures pressed <==> (Bit(gpio.input, buttons.pins[i]) <==> buttons.activeState != 0)
    {
      var pinSet := gpio.PinRead(buttons.pins[i]) != 0;
      pinSet == (buttons.activeState != 0)
    }

    method ButtonsInit()
      requires gpio.Valid()
      modifies gpio.cnf
      ensures forall p: Pin ::
                gpio.Cnf(p) == if p in buttons.pins then InputCnf(buttons.pull) else old(gpio.Cnf(p))
      ensures buttons.pull <= 3 ==>
                forall p: Pin | p in buttons.pins :: ReadsAs(gpio.Cnf(p), 0, 0, buttons.pull, 0, 0)
    {
      var i := 0;
      while i < |buttons.pins|
        invariant 0 <= i <= |buttons.pins|
        invariant forall p: Pin ::
                    gpio.Cnf(p) == if p in buttons.pins[..i] then InputCnf(buttons.pull) else old(gpio.Cnf(p))
      {
        gpio.CfgInput(buttons.pins[i], buttons.pull);
        assert buttons.pins[..i + 1] == buttons.pins[..i] + [buttons.pins[i]];
        i := i + 1;
      }
      assert buttons.pins[..i] == buttons.pins;
      InputWord(buttons.pull);
    }

    method PinToButtonIdx(pin: bv32) returns (r: nat)
      ensures IsFirstIndex(buttons.pins, pin, r) && (r >= |buttons.pins| ==> r == 0xFFFF_FFFF)
    {
      var i := 0;
      r := NOT_FOUND;
      while i < |buttons.pins|
        invariant 0 <= i <= |buttons.pins|
        invariant r == NOT_FOUND
        invariant forall j :: 0 <= j < i ==> buttons.pins[j] as bv32 != pin
      {
        if buttons.pins[i] as bv32 == pin {
          r := i;
          break;
        }
        i := i + 1;
      }
    }

    function ButtonIdxToPin(i: nat): (pin: bv32)
      requires i < |buttons.pins|
      ensures buttons.pins[i] as bv32 == pin
      ensures Injective(buttons.pins) ==> IsFirstIndex(buttons.pins, pin, i)
    {
      buttons.pins[i] as bv32
    }
  }

  // ---------------------------------------------------------------------
  // What LED_IS_ON tells
  // ---------------------------------------------------------------------

  /** On a board wired for it, `LED_IS_ON` of a mask of LEDs is nonzero exactly
      when one of them is lit. */
  lemma MaskIsOnReports(board: BoardSupport, m: bv32)
    requires MaskPolarityMatches(board.header) && WithinTable(board.header)
    requires InMask(m, LedsMask(board.header))
    ensures board.MaskIsOn(m) != 0 <==> SomeLit(board.header, board.gpio.out, m)
  {
    TellsLedIsOn(board.header, board.gpio.out, m, board.MaskIsOn(m));
    LedIsOnReports(board.header, board.gpio.out, m);
  }

  /** On a board wired the other way, exactly when one of them is out. */
  lemma MaskIsOnReportsDark(board: BoardSupport, m: bv32)
    requires MaskPolarityReversed(board.header) && WithinTable(board.header)
    requires InMask(m, LedsMask(board.header))
    ensures board.MaskIsOn(m) != 0 <==> SomeDark(board.header, board.gpio.out, m)
  {
    TellsLedIsOn(board.header, board.gpio.out, m, board.MaskIsOn(m));
    ReportsDarkExactly(board.header);
  }

  // ---------------------------------------------------------------------
  // The lookups undo one another
  // ---------------------------------------------------------------------

  /** From pin to index and back, for any table; the index is in range exactly
      when the table holds the pin. */
  lemma FoundPinReturns(pins: PinTable, p: Pin, r: nat)
    requires IsFirstIndex(pins, p as bv32, r)
    ensures r != NOT_FOUND <==> p in pins
    ensures r != NOT_FOUND ==> r < |pins| && pins[r] == p
  {
  }

  /** Looking up the pin of index `i` yields `r`. */
  ghost predicate LooksUp(pins: PinTable, i: nat, r: nat) {
    i < |pins| && IsFirstIndex(pins, pins[i] as bv32, r)
  }

  /** From index to pin and back: every index returns exactly when no pin is
      listed twice. */
  lemma IndexReturnsExactly(pins: PinTable)
    ensures (forall i: nat, r: nat :: LooksUp(pins, i, r) ==> r == i) <==> Injective(pins)
  {
    if Injective(pins) {
      forall i: nat, r: nat | LooksUp(pins, i, r)
        ensures r == i
      {
        FoundPinReturns(pins, pins[i], r);
      }
    } else {
      var i, j :| 0 <= i < j < |pins| && pins[i] == pins[j];
      var r := FirstIndexExists(pins, i);
      assert LooksUp(pins, i, r) && LooksUp(pins, j, r);
    }
  }

  lemma FirstIndexExists(pins: PinTable, i: nat) returns (r: nat)
    requires i < |pins|
    ensures r <= i && IsFirstIndex(pins, pins[i] as bv32, r)
  {
    r := 0;
    while pins[r] as bv32 != pins[i] as bv32
      invariant r <= i
      invariant forall j :: 0 <= j < r ==> pins[j] as bv32 != pins[i] as bv32
      decreases i - r
    {
      r := r + 1;
    }
  }

  /** Looking up pin `p` yields `r`. */
  ghost predicate Finds(pins: PinTable, p: Pin, r: nat) {
    IsFirstIndex(pins, p as bv32, r)
  }

  /** The lookup of pin `p` succeeds exactly when `LEDS_MASK` has it. */
  ghost predicate LookupAgrees(h: Header, p: Pin) {
    forall r: nat :: Finds(h.leds, p, r) ==> (Bit(LedsMask(h), p) <==> r != NOT_FOUND)
  }

  /** The slots and the table agree on pin `p`. */
  predicate Listed(h: Header, p: Pin) {
    At(p) in h.slots <==> p in h.leds
  }

  lemma LookUp(pins: PinTable, p: Pin) returns (r: nat)
    ensures Finds(pins, p, r)
  {
    if p in pins {
      var i: nat :| i < |pins| && pins[i] == p;
      r := FirstIndexExists(pins, i);
    } else {
      r := NOT_FOUND;
    }
  }

  lemma LookupAgreesAt(h: Header, p: Pin)
    ensures LookupAgrees(h, p) <==> Listed(h, p)
  {
    MaskMembership(h.slots, p);
    var found := LookUp(h.leds, p);
    forall r: nat | Finds(h.leds, p, r)
      ensures r != NOT_FOUND <==> p in h.leds
    {
      FoundPinReturns(h.leds, p, r);
    }
  }

  /** Mask and lookup agree on every pin exactly when slots and table name the
      same pins. */
  lemma MaskAgreesWithLookupExactly(h: Header)
    ensures (forall p: Pin :: LookupAgrees(h, p)) <==> (forall p: Pin :: Listed(h, p))
  {
    forall p: Pin
      ensures LookupAgrees(h, p) <==> Listed(h, p)
    {
      LookupAgreesAt(h, p);
    }
  }

  // ---------------------------------------------------------------------
  // The two ways of configuring LED pins
  // ---------------------------------------------------------------------

  /** `LEDS_CONFIGURE(LEDS_MASK)` leaves the PIN_CNF registers as the loop of
      `bsp_board_leds_init` does exactly when slots and table name the same
      pins, those already configured as outputs aside. */
  lemma ConfigureMatchesInitExactly(
      h: Header, before: Pin -> bv32, byMask: Pin -> bv32, byTable: Pin -> bv32)
    requires forall p: Pin :: byMask(p) == if Bit(LedsMask(h), p) then OUTPUT_CNF else before(p)
    requires forall p: Pin :: byTable(p) == if p in h.leds then OUTPUT_CNF else before(p)
    ensures (forall p: Pin :: byMask(p) == byTable(p)) <==>
            (forall p: Pin :: before(p) != OUTPUT_CNF ==> Listed(h, p))
  {
    forall p: Pin
      ensures Bit(LedsMask(h), p) <==> At(p) in h.slots
    {
      MaskMembership(h.slots, p);
    }
    if forall p: Pin :: byMask(p) == byTable(p) {
      forall p: Pin | before(p) != OUTPUT_CNF
        ensures Listed(h, p)
      {
        assert byMask(p) == byTable(p);
      }
    }
  }
}
