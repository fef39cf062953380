/** No call or macro makes a pin flicker: on the way each pin goes to its final
    level once, if it is not there already, and stays. */
module LedSettling {
  import opened Words
  import opened LedBoard
  import opened LedAccess

  /** The level of pin `p` once the accesses have been made, given the level the
      context copied before. */
  function LevelAlone(todo: seq<Access>, p: Pin, level: bool, copied: bool): bool
    decreases |todo|
  {
    if todo == [] then level
    else
      var a := todo[0];
      LevelAlone(todo[1..], p, LevelAfter(a, p, level, copied), if a.ReadOut? then level else copied)
  }

  lemma {:induction false} AloneBit(todo: seq<Access>, out: bv32, copy: bv32, p: Pin)
    ensures Bit(Alone(todo, out, copy), p) == LevelAlone(todo, p, Bit(out, p), Bit(copy, p))
    decreases |todo|
  {
    if todo != [] {
      var a := todo[0];
      AccessBit(a, out, copy, p);
      AloneBit(todo[1..], OutAfter(a, out, copy), CopyAfter(a, out, copy), p);
    }
  }

  /** The accesses only write, and none of them takes the pin away from `goal`. */
  ghost predicate Towards(todo: seq<Access>, p: Pin, copied: bool, goal: bool) {
    forall a :: a in todo ==> !a.ReadOut? && LevelAfter(a, p, goal, copied) == goal
  }

  lemma {:induction false} StaysAtGoal(todo: seq<Access>, p: Pin, copied: bool, goal: bool)
    requires Towards(todo, p, copied, goal)
    ensures LevelAlone(todo, p, goal, copied) == goal
    decreases |todo|
  {
    if todo != [] {
      assert todo[0] in todo;
      StaysAtGoal(todo[1..], p, copied, goal);
    }
  }

  lemma {:induction false} LevelConcat(a: seq<Access>, b: seq<Access>, p: Pin, level: bool, copied: bool)
    requires forall x :: x in a ==> !x.ReadOut?
    ensures LevelAlone(a + b, p, level, copied) == LevelAlone(b, p, LevelAlone(a, p, level, copied), copied)
    decreases |a|
  {
    if a == [] {
      assert a + b == b;
    } else {
      assert (a + b)[1..] == a[1..] + b;
      assert a[0] in a;
      LevelConcat(a[1..], b, p, LevelAfter(a[0], p, level, copied), copied);
    }
  }

  /** Once at the goal, at the goal after every longer part. */
  lemma GoalKept(todo: seq<Access>, p: Pin, level: bool, copied: bool, goal: bool, i: nat, j: nat)
    requires Towards(todo, p, copied, goal) && i <= j <= |todo|
    requires LevelAlone(todo[..i], p, level, copied) == goal
    ensures LevelAlone(todo[..j], p, level, copied) == goal
  {
    assert todo[..j] == todo[..i] + todo[i..j];
    LevelConcat(todo[..i], todo[i..j], p, level, copied);
    StaysAtGoal(todo[i..j], p, copied, goal);
  }

  /** Writes towards a goal settle the pin: once at its final level it stays. */
  lemma WritesSettle(todo: seq<Access>, p: Pin, level: bool, copied: bool, goal: bool, i: nat, j: nat)
    requires Towards(todo, p, copied, goal) && i <= j <= |todo|
    requires LevelAlone(todo[..i], p, level, copied) == LevelAlone(todo, p, level, copied)
    ensures LevelAlone(todo[..j], p, level, copied) == LevelAlone(todo, p, level, copied)
  {
    assert todo[..|todo|] == todo;
    if LevelAlone(todo[..i], p, level, copied) == goal {
      GoalKept(todo, p, level, copied, goal, i, j);
    } else if LevelAlone(todo[..j], p, level, copied) == goal {
      GoalKept(todo, p, level, copied, goal, j, |todo|);
    }
  }

  // ---------------------------------------------------------------------
  // The calls and macros
  // ---------------------------------------------------------------------

  lemma {:induction false} WriteAccessesAre(pins: seq<Pin>, high: bool, a: Access)
    requires a in WriteAccesses(pins, high)
    ensures if high then a.Outset? else a.Outclr?
  {
    var n := |pins| - 1;
    if a != WriteAccess(pins[n], high) {
      WriteAccessesAre(pins[..n], high, a);
    }
  }

  lemma WriteAccessesTowards(pins: seq<Pin>, high: bool, p: Pin, copied: bool)
    ensures Towards(WriteAccesses(pins, high), p, copied, high)
  {
    forall a | a in WriteAccesses(pins, high)
      ensures !a.ReadOut? && LevelAfter(a, p, high, copied) == high
    {
      WriteAccessesAre(pins, high, a);
    }
  }

  lemma OneTowards(q: Pin, high: bool, p: Pin, copied: bool)
    ensures Towards([WriteAccess(q, high)], p, copied, high)
  {
  }

  /** Nothing `LEDS_ON` and `LEDS_OFF` set do they clear. */
  lemma PartsTowards(h: Header, m: bv32, p: Pin, copied: bool)
    ensures Towards([Outclr(Inverted(h, m)), Outset(Straight(h, m))], p, copied, !Bit(Inverted(h, m), p))
    ensures Towards([Outset(Inverted(h, m)), Outclr(Straight(h, m))], p, copied, Bit(Inverted(h, m), p))
  {
    InvertedBit(h, m, p);
    StraightBit(h, m, p);
  }

  lemma InvertTowards(m: bv32, p: Pin, copied: bool)
    ensures Towards([OutsetLow(m), OutclrHigh(m)], p, copied, !copied)
  {
  }

  /** Where an operation that starts with writing takes pin `p`. */
  lemma WritesTowards(h: Header, op: Op, p: Pin, copied: bool) returns (goal: bool)
    requires Legal(h, op) && !op.LedInvert? && !op.MaskInvert?
    ensures Towards(Accesses(h, op), p, copied, goal)
  {
    match op
    case LedOn(i) =>
      goal := h.activeState != 0;
      OneTowards(h.leds[i], goal, p, copied);
    case LedOff(i) =>
      goal := h.activeState == 0;
      OneTowards(h.leds[i], goal, p, copied);
    case LedsOn =>
      goal := h.activeState != 0;
      WriteAccessesTowards(h.leds, goal, p, copied);
    case LedsOff =>
      goal := h.activeState == 0;
      WriteAccessesTowards(h.leds, goal, p, copied);
    case MaskOn(m) =>
      goal := !Bit(Inverted(h, m), p);
      PartsTowards(h, m, p, copied);
    case MaskOff(m) =>
      goal := Bit(Inverted(h, m), p);
      PartsTowards(h, m, p, copied);
  }

  lemma InvertStarts(m: bv32, p: Pin, level: bool, copied: bool, n: nat)
    requires n <= 3
    ensures LevelAlone([ReadOut, OutsetLow(m), OutclrHigh(m)][..n], p, level, copied) ==
            LevelAlone([OutsetLow(m), OutclrHigh(m)][..if n == 0 then 0 else n - 1], p, level, level)
  {
    var all, writes := [ReadOut, OutsetLow(m), OutclrHigh(m)], [OutsetLow(m), OutclrHigh(m)];
    if n > 0 {
      assert all[..n] == [ReadOut] + writes[..n - 1];
      assert all[..n][1..] == writes[..n - 1];
    }
  }

  lemma InvertSettles(m: bv32, p: Pin, level: bool, copied: bool, i: nat, j: nat)
    requires i <= j <= 3
    ensures var all := [ReadOut, OutsetLow(m), OutclrHigh(m)];
            LevelAlone(all[..i], p, level, copied) == LevelAlone(all, p, level, copied)
            ==> LevelAlone(all[..j], p, level, copied) == LevelAlone(all, p, level, copied)
  {
    var all, writes := [ReadOut, OutsetLow(m), OutclrHigh(m)], [OutsetLow(m), OutclrHigh(m)];
    assert all[..3] == all && writes[..2] == writes;
    InvertStarts(m, p, level, copied, i);
    InvertStarts(m, p, level, copied, j);
    InvertStarts(m, p, level, copied, 3);
    InvertTowards(m, p, level);
    var i', j' := if i == 0 then 0 else i - 1, if j == 0 then 0 else j - 1;
    if LevelAlone(writes[..i'], p, level, level) == LevelAlone(writes, p, level, level) {
      WritesSettle(writes, p, level, level, !level, i', j');
    }
  }

  lemma LevelSettles(h: Header, op: Op, p: Pin, level: bool, copied: bool, i: nat, j: nat)
    requires Legal(h, op) && i <= j <= |Accesses(h, op)|
    requires LevelAlone(Accesses(h, op)[..i], p, level, copied) == LevelAlone(Accesses(h, op), p, level, copied)
    ensures LevelAlone(Accesses(h, op)[..j], p, level, copied) == LevelAlone(Accesses(h, op), p, level, copied)
  {
    match op
    case LedInvert(k) => InvertSettles(PinBit(h.leds[k]), p, level, copied, i, j);
    case MaskInvert(m) => InvertSettles(m, p, level, copied, i, j);
    case _ =>
      var goal := WritesTowards(h, op, p, copied);
      WritesSettle(Accesses(h, op), p, level, copied, goal, i, j);
  }

  /** OUT after the first `n` accesses of an operation. */
  function Midway(h: Header, op: Op, n: nat, out: bv32, copy: bv32): bv32
    requires Legal(h, op) && n <= |Accesses(h, op)|
  {
    Alone(Accesses(h, op)[..n], out, copy)
  }

  /** A pin that has reached the level the operation leaves it at stays there
      for the rest of the operation. */
  lemma SettlesOnce(h: Header, op: Op, i: nat, j: nat, out: bv32, copy: bv32, p: Pin)
    requires Legal(h, op) && i <= j <= |Accesses(h, op)|
    requires Bit(Midway(h, op, i, out, copy), p) == Bit(Apply(h, op, out), p)
    ensures Bit(Midway(h, op, j, out, copy), p) == Bit(Apply(h, op, out), p)
  {
    var todo := Accesses(h, op);
    AccessesApply(h, op, out, copy);
    AloneBit(todo, out, copy, p);
    AloneBit(todo[..i], out, copy, p);
    AloneBit(todo[..j], out, copy, p);
    LevelSettles(h, op, p, Bit(out, p), Bit(copy, p), i, j);
  }

  /** So a pin that the operation leaves as it was never moves on the way. */
  lemma NeverDisturbed(h: Header, op: Op, n: nat, out: bv32, copy: bv32, p: Pin)
    requires Legal(h, op) && n <= |Accesses(h, op)|
    requires Bit(Apply(h, op, out), p) == Bit(out, p)
    ensures Bit(Midway(h, op, n, out, copy), p) == Bit(out, p)
  {
    assert Accesses(h, op)[..0] == [];
    SettlesOnce(h, op, 0, n, out, copy, p);
  }
}
