/** Boards whose headers keep the two LED interfaces together, and two whose
    headers do not. */
module Boards {
  import opened Words
  import opened LedBoard
  import opened LedTheorems
  import opened Board

  /** A board whose `LEDS_INV_MASK` is `LEDS_MASK`. */
  function AllInverted(leds: PinTable, slots: seq<Slot>, activeState: int): Header {
    Header(leds, slots, activeState, SlotsMask(slots))
  }

  const PCA10040: Header := AllInverted([17, 18, 19, 20], [At(17), At(18), At(19), At(20)], 0)
  const PCA10031: Header := AllInverted([21, 22, 23], [At(21), At(22), At(23)], 1)
  const ARDUINO_PRIMO: Header := Header([25], [At(25)], 0, 0)

  /** The slots name the pins of the table, in order, and nothing else. */
  predicate SlotsListTable(h: Header) {
    |h.slots| == |h.leds| && forall i :: 0 <= i < |h.leds| ==> h.slots[i] == At(h.leds[i])
  }

  lemma ListedSlotsAgree(h: Header)
    requires SlotsListTable(h)
    ensures CoversTable(h) && WithinTable(h)
  {
    forall p: Pin
      ensures Bit(LedsMask(h), p) <==> p in h.leds
    {
      MaskMembership(h.slots, p);
      if p in h.leds {
        var i :| 0 <= i < |h.leds| && h.leds[i] == p;
        assert h.slots[i] == At(p);
      }
    }
  }

  /** The active-low kit with every LED inverted. */
  lemma Pca10040WellWired()
    ensures WellWired(PCA10040) && WithinTable(PCA10040)
  {
    ListedSlotsAgree(PCA10040);
  }

  /** One header says its LEDs are active high and inverts them all the same,
      the other that its LED is active low and inverts nothing: on both boards
      LEDS_ON does what switching the named LEDs off does, LEDS_OFF what
      switching them on does, and LED_IS_ON tells that one of them is out. */
  lemma MiswiredBoards()
    ensures MacrosSwapped(PCA10031) && ReportsDark(PCA10031) && !Simulates(PCA10031)
    ensures MacrosSwapped(ARDUINO_PRIMO) && ReportsDark(ARDUINO_PRIMO) && !Simulates(ARDUINO_PRIMO)
  {
    Miswired(PCA10031);
    ReversedSwaps(PCA10031);
    BitNone(25);
    ReversedSwaps(ARDUINO_PRIMO);
  }

  lemma Miswired(h: Header)
    requires SlotsListTable(h) && h.activeState != 0 && h.invMask == SlotsMask(h.slots)
    ensures PolarityReversed(h)
  {
    ListedSlotsAgree(h);
  }

  lemma ReversedSwaps(h: Header)
    requires SlotsListTable(h) && PolarityReversed(h) && |h.leds| > 0
    ensures MacrosSwapped(h) && ReportsDark(h) && !Simulates(h)
  {
    ListedSlotsAgree(h);
    ReportsDarkExactly(h);
    MacrosSwappedExactly(h);
    SimulationExactly(h);
    assert Bit(h.invMask, h.leds[0]) == (h.activeState != 0);
  }

  // ---------------------------------------------------------------------
  // The words of the three headers
  // ---------------------------------------------------------------------

  lemma SlotsMaskMore(slots: seq<Slot>, pin: Pin)
    ensures SlotsMask(slots + [At(pin)]) == Or(SlotsMask(slots), PinBit(pin))
  {
    assert (slots + [At(pin)])[..|slots|] == slots;
  }

  lemma Pca10040Mask()
    ensures LedsMask(PCA10040) == 0x1E_0000 && PCA10040.invMask == 0x1E_0000
  {
    SlotsMaskMore([], 17);
    SlotsMaskMore([At(17)], 18);
    SlotsMaskMore([At(17), At(18)], 19);
    SlotsMaskMore([At(17), At(18), At(19)], 20);
    assert [] + [At(17)] == [At(17)];
    assert [At(17)] + [At(18)] == [At(17), At(18)];
    assert [At(17), At(18)] + [At(19)] == [At(17), At(18), At(19)];
    assert [At(17), At(18), At(19)] + [At(20)] == [At(17), At(18), At(19), At(20)];
  }

  lemma Pca10031Mask()
    ensures LedsMask(PCA10031) == 0xE0_0000 && PCA10031.invMask == 0xE0_0000
  {
    SlotsMaskMore([], 21);
    SlotsMaskMore([At(21)], 22);
    SlotsMaskMore([At(21), At(22)], 23);
    assert [] + [At(21)] == [At(21)];
    assert [At(21)] + [At(22)] == [At(21), At(22)];
    assert [At(21), At(22)] + [At(23)] == [At(21), At(22), At(23)];
  }

  lemma ArduinoPrimoMask()
    ensures LedsMask(ARDUINO_PRIMO) == 0x200_0000 && ARDUINO_PRIMO.invMask == 0
  {
    SlotsMaskMore([], 25);
    assert [] + [At(25)] == [At(25)];
  }

  /** `LED_IS_ON` on the three boards: for a mask of LEDs it is nonzero exactly
      when one of them is lit, and on the two miswired boards exactly when one
      of them is out. */
  lemma BoardsReport(board: BoardSupport, m: bv32)
    requires InMask(m, LedsMask(board.header))
    ensures board.header == PCA10040 ==> (board.MaskIsOn(m) != 0 <==> SomeLit(board.header, board.gpio.out, m))
    ensures board.header == PCA10031 ==> (board.MaskIsOn(m) != 0 <==> SomeDark(board.header, board.gpio.out, m))
    ensures board.header == ARDUINO_PRIMO ==> (board.MaskIsOn(m) != 0 <==> SomeDark(board.header, board.gpio.out, m))
  {
    Pca10040WellWired();
    MiswiredBoards();
    ReportsDarkExactly(PCA10031);
    ReportsDarkExactly(ARDUINO_PRIMO);
    if board.header == PCA10040 {
      MaskIsOnReports(board, m);
    } else if board.header == PCA10031 || board.header == ARDUINO_PRIMO {
      MaskIsOnReportsDark(board, m);
    }
  }
}
