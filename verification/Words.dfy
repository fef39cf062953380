/** 32-bit port words and the pins their bits stand for. */
module Words {
  /** A pin of a 32-pin port, kept in a `uint8_t` as the pin tables do. */
  type Pin = p: bv8 | p < 32

  function PinBit(p: Pin): bv32 {
    1 << p
  }

  predicate Bit(w: bv32, p: Pin) {
    w & PinBit(p) != 0
  }

  /** The bit read by shifting it down to position 0, as the port reads it. */
  lemma BitByShift(w: bv32, p: Pin)
    ensures (w >> p) & 1 == if Bit(w, p) then 1 else 0
  {
  }

  lemma PinBitAt(p: Pin, q: Pin)
    ensures Bit(PinBit(p), q) <==> p == q
  {
  }

  // ---------------------------------------------------------------------
  // The word operations, bit by bit
  // ---------------------------------------------------------------------

  predicate OneHot(h: bv32) {
    h != 0 && h & (h - 1) == 0
  }

  lemma PinBitOneHot(p: Pin)
    ensures OneHot(PinBit(p))
  {
  }

  // The operations by name, so that proofs can speak of their results.

  function Or(a: bv32, b: bv32): bv32 {
    a | b
  }

  function And(a: bv32, b: bv32): bv32 {
    a & b
  }

  function AndNot(a: bv32, b: bv32): bv32 {
    a & !b
  }

  function Xor(a: bv32, b: bv32): bv32 {
    a ^ b
  }

  /** `c` is at mask `h` what an operation makes of `a` and `b` there. */
  ghost predicate OrAt(a: bv32, b: bv32, c: bv32, h: bv32) {
    c & h != 0 <==> a & h != 0 || b & h != 0
  }

  ghost predicate AndAt(a: bv32, b: bv32, c: bv32, h: bv32) {
    c & h != 0 <==> a & h != 0 && b & h != 0
  }

  ghost predicate AndNotAt(a: bv32, b: bv32, c: bv32, h: bv32) {
    c & h != 0 <==> a & h != 0 && b & h == 0
  }

  ghost predicate XorAt(a: bv32, b: bv32, c: bv32, h: bv32) {
    c & h != 0 <==> (a & h != 0) != (b & h != 0)
  }

  lemma OrHolds(a: bv32, b: bv32, h: bv32)
    ensures OrAt(a, b, a | b, h)
  {
  }

  lemma AndHolds(a: bv32, b: bv32, h: bv32)
    requires OneHot(h)
    ensures AndAt(a, b, a & b, h)
  {
  }

  lemma AndNotHolds(a: bv32, b: bv32, h: bv32)
    requires OneHot(h)
    ensures AndNotAt(a, b, a & !b, h)
  {
  }

  lemma XorHolds(a: bv32, b: bv32, h: bv32)
    requires OneHot(h)
    ensures XorAt(a, b, a ^ b, h)
  {
  }

  lemma OrAtBit(a: bv32, b: bv32, c: bv32, p: Pin)
    requires OrAt(a, b, c, PinBit(p))
    ensures Bit(c, p) <==> Bit(a, p) || Bit(b, p)
  {
  }

  lemma AndAtBit(a: bv32, b: bv32, c: bv32, p: Pin)
    requires AndAt(a, b, c, PinBit(p))
    ensures Bit(c, p) <==> Bit(a, p) && Bit(b, p)
  {
  }

  lemma AndNotAtBit(a: bv32, b: bv32, c: bv32, p: Pin)
    requires AndNotAt(a, b, c, PinBit(p))
    ensures Bit(c, p) <==> Bit(a, p) && !Bit(b, p)
  {
  }

  lemma XorAtBit(a: bv32, b: bv32, c: bv32, p: Pin)
    requires XorAt(a, b, c, PinBit(p))
    ensures Bit(c, p) <==> Bit(a, p) != Bit(b, p)
  {
  }

  lemma BitOr(a: bv32, b: bv32, p: Pin)
    ensures Bit(Or(a, b), p) <==> Bit(a, p) || Bit(b, p)
  {
    OrHolds(a, b, PinBit(p));
    OrAtBit(a, b, a | b, p);
  }

  lemma BitAnd(a: bv32, b: bv32, p: Pin)
    ensures Bit(And(a, b), p) <==> Bit(a, p) && Bit(b, p)
  {
    PinBitOneHot(p);
    AndHolds(a, b, PinBit(p));
    AndAtBit(a, b, a & b, p);
  }

  lemma BitAndNot(a: bv32, b: bv32, p: Pin)
    ensures Bit(AndNot(a, b), p) <==> Bit(a, p) && !Bit(b, p)
  {
    PinBitOneHot(p);
    AndNotHolds(a, b, PinBit(p));
    AndNotAtBit(a, b, a & !b, p);
  }

  lemma BitXor(a: bv32, b: bv32, p: Pin)
    ensures Bit(Xor(a, b), p) <==> Bit(a, p) != Bit(b, p)
  {
    PinBitOneHot(p);
    XorHolds(a, b, PinBit(p));
    XorAtBit(a, b, a ^ b, p);
  }

  const ALL: bv32 := 0xFFFF_FFFF

  lemma BitAll(p: Pin)
    ensures Bit(ALL, p)
  {
  }

  lemma BitNone(p: Pin)
    ensures !Bit(0, p)
  {
  }

  // ---------------------------------------------------------------------
  // A word is its bits
  // ---------------------------------------------------------------------

  predicate AnyFrom(w: bv32, p: Pin) {
    w >> p != 0
  }

  lemma NoneAtTheTop(w: bv32)
    requires AnyFrom(w, 31)
    ensures Bit(w, 31)
  {
  }

  lemma AnyAbove(w: bv32, p: Pin, next: Pin)
    requires AnyFrom(w, p) && !Bit(w, p) && p < 31 && next == p + 1
    ensures AnyFrom(w, next)
  {
  }

  /** A word that is not zero from pin `p` up has a bit there. */
  lemma {:induction false} SomeBit(w: bv32, p: Pin) returns (q: Pin)
    requires AnyFrom(w, p)
    ensures Bit(w, q)
    decreases 32 - p as int
  {
    if Bit(w, p) {
      q := p;
    } else if p == 31 {
      NoneAtTheTop(w);
      q := p;
    } else {
      var next: Pin := p + 1;
      AnyAbove(w, p, next);
      q := SomeBit(w, next);
    }
  }

  lemma XorNonzero(a: bv32, b: bv32)
    requires a != b
    ensures AnyFrom(Xor(a, b), 0)
  {
  }

  lemma DifferSomewhere(a: bv32, b: bv32) returns (p: Pin)
    requires a != b
    ensures Bit(a, p) != Bit(b, p)
  {
    XorNonzero(a, b);
    p := SomeBit(Xor(a, b), 0);
    BitXor(a, b, p);
  }

  ghost predicate SameBits(a: bv32, b: bv32) {
    forall p: Pin :: Bit(a, p) == Bit(b, p)
  }

  /** A word is its bits. */
  lemma WordsByBits(a: bv32, b: bv32)
    ensures a == b <==> SameBits(a, b)
  {
    if a != b {
      var p := DifferSomewhere(a, b);
    }
  }

  /** Setting the low bits of a mask, then clearing those that were high. */
  function FlipByParts(w: bv32, m: bv32): bv32 {
    AndNot(Or(w, AndNot(m, w)), And(m, w))
  }

  /** Which flips the mask. */
  lemma FlipByPartsIsXor(w: bv32, m: bv32)
    ensures FlipByParts(w, m) == Xor(w, m)
  {
  }

  lemma AndCommutes(a: bv32, b: bv32)
    ensures !a & b == AndNot(b, a)
    ensures a & b == And(b, a)
  {
  }

  // ---------------------------------------------------------------------
  // Masks of pin lists
  // ---------------------------------------------------------------------

  /** The OR of the bits of the pins. */
  function PinMask(pins: seq<Pin>): bv32 {
    if pins == [] then 0 else Or(PinMask(pins[..|pins| - 1]), PinBit(pins[|pins| - 1]))
  }

  /** A mask has exactly the bits of the listed pins. */
  lemma {:induction false} PinMaskBits(pins: seq<Pin>, p: Pin)
    ensures Bit(PinMask(pins), p) <==> p in pins
  {
    if pins == [] {
      BitNone(p);
    } else {
      var n := |pins| - 1;
      PinMaskBits(pins[..n], p);
      BitOr(PinMask(pins[..n]), PinBit(pins[n]), p);
      PinBitAt(pins[n], p);
      assert pins == pins[..n] + [pins[n]];
    }
  }

  /** The pins of the list whose bit is in the mask. */
  function Selected(pins: seq<Pin>, m: bv32): seq<Pin> {
    if pins == [] then []
    else
      var n := |pins| - 1;
      Selected(pins[..n], m) + if Bit(m, pins[n]) then [pins[n]] else []
  }

  lemma {:induction false} SelectedPins(pins: seq<Pin>, m: bv32, p: Pin)
    ensures p in Selected(pins, m) <==> p in pins && Bit(m, p)
  {
    if pins != [] {
      var n := |pins| - 1;
      SelectedPins(pins[..n], m, p);
      assert pins == pins[..n] + [pins[n]];
    }
  }

  lemma SelectedMaskAt(pins: seq<Pin>, m: bv32, p: Pin)
    ensures Bit(PinMask(Selected(pins, m)), p) == Bit(And(PinMask(pins), m), p)
  {
    PinMaskBits(Selected(pins, m), p);
    PinMaskBits(pins, p);
    SelectedPins(pins, m, p);
    BitAnd(PinMask(pins), m, p);
  }

  lemma SelectedMaskBits(pins: seq<Pin>, m: bv32)
    ensures SameBits(PinMask(Selected(pins, m)), And(PinMask(pins), m))
  {
    forall p: Pin
      ensures Bit(PinMask(Selected(pins, m)), p) == Bit(And(PinMask(pins), m), p)
    {
      SelectedMaskAt(pins, m, p);
    }
  }

  /** Selecting by a mask is masking the mask of the list. */
  lemma SelectedMask(pins: seq<Pin>, m: bv32)
    ensures PinMask(Selected(pins, m)) == And(PinMask(pins), m)
  {
    SelectedMaskBits(pins, m);
    WordsByBits(PinMask(Selected(pins, m)), And(PinMask(pins), m));
  }
}
