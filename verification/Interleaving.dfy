/** Several contexts, a main loop and interrupt handlers say, drive the LEDs of
    one port at the same time. Between any two register accesses of one context
    any accesses of the others may come. */
module Interleaving {
  import opened Words
  import opened LedBoard
  import opened LedTheorems
  import opened LedAccess

  // ---------------------------------------------------------------------
  // Contexts side by side
  // ---------------------------------------------------------------------

  /** A context: the accesses it has yet to make, and its copy of OUT. */
  datatype Context = Context(todo: seq<Access>, copy: bv32)

  datatype SharedPort = SharedPort(out: bv32, contexts: seq<Context>)

  /** Context `j` makes its next access, if it has one. */
  function Advance(s: SharedPort, j: nat): SharedPort {
    if j < |s.contexts| && s.contexts[j].todo != [] then
      var c := s.contexts[j];
      var a := c.todo[0];
      SharedPort(OutAfter(a, s.out, c.copy),
           s.contexts[j := Context(c.todo[1..], CopyAfter(a, s.out, c.copy))])
    else s
  }

  function Play(s: SharedPort, schedule: seq<nat>): SharedPort
    decreases |schedule|
  {
    if schedule == [] then s else Play(Advance(s, schedule[0]), schedule[1..])
  }

  predicate Finished(s: SharedPort) {
    forall j :: 0 <= j < |s.contexts| ==> s.contexts[j].todo == []
  }

  /** Where context `k` would leave OUT if it ran on alone from here. */
  function Prospect(s: SharedPort, k: nat): bv32
    requires k < |s.contexts|
  {
    Alone(s.contexts[k].todo, s.out, s.contexts[k].copy)
  }

  function AccessMask(a: Access): bv32 {
    match a
    case ReadOut => 0
    case Outset(m) => m
    case Outclr(m) => m
    case OutsetLow(m) => m
    case OutclrHigh(m) => m
  }

  /** No access to come of any context but `k` writes pin `p`. */
  ghost predicate OnlyWriter(s: SharedPort, k: nat, p: Pin) {
    forall j, a :: 0 <= j < |s.contexts| && j != k && a in s.contexts[j].todo ==> !Bit(AccessMask(a), p)
  }

  lemma AccessElsewhere(a: Access, out: bv32, copy: bv32, p: Pin)
    requires !Bit(AccessMask(a), p)
    ensures Bit(OutAfter(a, out, copy), p) == Bit(out, p)
  {
    AccessBit(a, out, copy, p);
  }

  /** On one pin, contexts that see the same levels do the same. */
  lemma {:induction false} AloneLocal(todo: seq<Access>, p: Pin, x: bv32, cx: bv32, y: bv32, cy: bv32)
    requires Bit(x, p) == Bit(y, p) && Bit(cx, p) == Bit(cy, p)
    ensures Bit(Alone(todo, x, cx), p) == Bit(Alone(todo, y, cy), p)
    decreases |todo|
  {
    if todo != [] {
      var a := todo[0];
      AccessBit(a, x, cx, p);
      AccessBit(a, y, cy, p);
      AloneLocal(todo[1..], p, OutAfter(a, x, cx), CopyAfter(a, x, cx), OutAfter(a, y, cy), CopyAfter(a, y, cy));
    }
  }

  /** A step of any context leaves what the only writer of a pin has in
      prospect for it. */
  lemma AdvanceKeepsProspect(s: SharedPort, j: nat, k: nat, p: Pin)
    requires k < |s.contexts| && OnlyWriter(s, k, p)
    ensures |Advance(s, j).contexts| == |s.contexts| && OnlyWriter(Advance(s, j), k, p)
    ensures Bit(Prospect(Advance(s, j), k), p) == Bit(Prospect(s, k), p)
  {
    if j < |s.contexts| && s.contexts[j].todo != [] {
      var c := s.contexts[j];
      var a := c.todo[0];
      forall i, b | 0 <= i < |s.contexts| && i != k && b in Advance(s, j).contexts[i].todo
        ensures !Bit(AccessMask(b), p)
      {
        assert b in s.contexts[i].todo;
      }
      if j != k {
        assert a in s.contexts[j].todo;
        AccessElsewhere(a, s.out, c.copy, p);
        var d := s.contexts[k];
        AloneLocal(d.todo, p, Advance(s, j).out, d.copy, s.out, d.copy);
      }
    }
  }

  /** At every point of every interleaving the only writer of a pin is on its
      way to what it would have done to that pin alone. */
  lemma {:induction false} ProspectInvariant(s: SharedPort, schedule: seq<nat>, k: nat, p: Pin)
    requires k < |s.contexts| && OnlyWriter(s, k, p)
    ensures |Play(s, schedule).contexts| == |s.contexts|
    ensures Bit(Prospect(Play(s, schedule), k), p) == Bit(Prospect(s, k), p)
    decreases |schedule|
  {
    if schedule != [] {
      AdvanceKeepsProspect(s, schedule[0], k, p);
      ProspectInvariant(Advance(s, schedule[0]), schedule[1..], k, p);
    }
  }

  // ---------------------------------------------------------------------
  // Programs of calls and macros
  // ---------------------------------------------------------------------

  /** A port whose contexts are about to run these programs; what their copies
      of OUT hold beforehand does not matter. */
  ghost predicate Launched(h: Header, programs: seq<seq<Op>>, s: SharedPort) {
    && |s.contexts| == |programs|
    && forall k :: 0 <= k < |programs| ==>
         AllLegal(h, programs[k]) && s.contexts[k].todo == Program(h, programs[k])
  }

  predicate LeavesAlone(h: Header, ops: seq<Op>, p: Pin)
    requires AllLegal(h, ops)
  {
    forall op :: op in ops ==> DriveOf(h, op, p) == Keep
  }

  /** Pin `p` belongs to program `k`: no other program drives it. */
  ghost predicate Owns(h: Header, programs: seq<seq<Op>>, k: nat, p: Pin)
    requires forall j :: 0 <= j < |programs| ==> AllLegal(h, programs[j])
  {
    forall j :: 0 <= j < |programs| && j != k ==> LeavesAlone(h, programs[j], p)
  }

  lemma {:induction false} WritesInList(pins: seq<Pin>, high: bool, a: Access, p: Pin)
    requires a in WriteAccesses(pins, high) && Bit(AccessMask(a), p)
    ensures p in pins
  {
    var n := |pins| - 1;
    assert pins == pins[..n] + [pins[n]];
    if a == WriteAccess(pins[n], high) {
      PinBitAt(pins[n], p);
    } else {
      WritesInList(pins[..n], high, a, p);
    }
  }

  /** The accesses of an operation write only pins it drives. */
  lemma AccessesDrive(h: Header, op: Op, a: Access, p: Pin)
    requires Legal(h, op) && a in Accesses(h, op) && Bit(AccessMask(a), p)
    ensures DriveOf(h, op, p) != Keep
  {
    BitNone(p);
    match op
    case LedOn(i) => PinBitAt(h.leds[i], p);
    case LedOff(i) => PinBitAt(h.leds[i], p);
    case LedInvert(i) => PinBitAt(h.leds[i], p);
    case LedsOn => WritesInList(h.leds, h.activeState != 0, a, p);
    case LedsOff => WritesInList(h.leds, h.activeState == 0, a, p);
    case MaskOn(m) =>
      InvertedBit(h, m, p);
      StraightBit(h, m, p);
    case MaskOff(m) =>
      InvertedBit(h, m, p);
      StraightBit(h, m, p);
    case MaskInvert(m) =>
  }

  lemma {:induction false} ProgramDrives(h: Header, ops: seq<Op>, a: Access, p: Pin)
    requires AllLegal(h, ops) && LeavesAlone(h, ops, p) && a in Program(h, ops)
    ensures !Bit(AccessMask(a), p)
    decreases |ops|
  {
    assert ops[0] in ops;
    if a in Accesses(h, ops[0]) {
      if Bit(AccessMask(a), p) {
        AccessesDrive(h, ops[0], a, p);
      }
    } else {
      ProgramDrives(h, ops[1..], a, p);
    }
  }

  lemma OwnsOnlyWriter(h: Header, programs: seq<seq<Op>>, s: SharedPort, k: nat, p: Pin)
    requires Launched(h, programs, s) && Owns(h, programs, k, p)
    ensures OnlyWriter(s, k, p)
  {
    forall j, a | 0 <= j < |s.contexts| && j != k && a in s.contexts[j].todo
      ensures !Bit(AccessMask(a), p)
    {
      ProgramDrives(h, programs[j], a, p);
    }
  }

  /** Whatever the interleaving, once all contexts are done a pin is as its
      owner would have left it running alone. */
  lemma NoUpdateLost(h: Header, programs: seq<seq<Op>>, s: SharedPort, schedule: seq<nat>, k: nat, p: Pin)
    requires Launched(h, programs, s) && k < |programs| && Owns(h, programs, k, p)
    requires Finished(Play(s, schedule))
    ensures Bit(Play(s, schedule).out, p) == Bit(Run(h, programs[k], s.out), p)
  {
    OwnsOnlyWriter(h, programs, s, k, p);
    ProspectInvariant(s, schedule, k, p);
    ProgramRuns(h, programs[k], s.out, s.contexts[k].copy);
  }

  /** Each context's LEDs end as its own program asks, as though the others
      were not there. */
  lemma ConcurrentSimulation(
      h: Header, programs: seq<seq<Op>>, s: SharedPort, schedule: seq<nat>, k: nat, i: nat)
    requires WellWired(h) && i < |h.leds|
    requires Launched(h, programs, s) && k < |programs| && Owns(h, programs, k, h.leds[i])
    requires Finished(Play(s, schedule))
    ensures Lit(h, Play(s, schedule).out, i) == AskedRun(h.leds, programs[k], View(h, s.out))[i]
  {
    NoUpdateLost(h, programs, s, schedule, k, h.leds[i]);
    RunSimulates(h, programs[k], s.out);
    assert Lit(h, Run(h, programs[k], s.out), i) == View(h, Run(h, programs[k], s.out))[i];
  }

  // ---------------------------------------------------------------------
  // Any interleaving is as good as running one after another
  // ---------------------------------------------------------------------

  function Joined(programs: seq<seq<Op>>): seq<Op> {
    if programs == [] then [] else programs[0] + Joined(programs[1..])
  }

  lemma {:induction false} JoinedLegal(h: Header, programs: seq<seq<Op>>)
    requires forall j :: 0 <= j < |programs| ==> AllLegal(h, programs[j])
    ensures AllLegal(h, Joined(programs))
  {
    if programs != [] {
      JoinedLegal(h, programs[1..]);
    }
  }

  lemma {:induction false} RunKeeps(h: Header, ops: seq<Op>, out: bv32, p: Pin)
    requires AllLegal(h, ops) && LeavesAlone(h, ops, p)
    ensures Bit(Run(h, ops, out), p) == Bit(out, p)
    decreases |ops|
  {
    if ops != [] {
      assert ops[0] in ops;
      ApplyBit(h, ops[0], out, p);
      RunKeeps(h, ops[1..], Apply(h, ops[0], out), p);
    }
  }

  lemma {:induction false} RunLocal(h: Header, ops: seq<Op>, x: bv32, y: bv32, p: Pin)
    requires AllLegal(h, ops) && Bit(x, p) == Bit(y, p)
    ensures Bit(Run(h, ops, x), p) == Bit(Run(h, ops, y), p)
    decreases |ops|
  {
    if ops != [] {
      ApplyBit(h, ops[0], x, p);
      ApplyBit(h, ops[0], y, p);
      RunLocal(h, ops[1..], Apply(h, ops[0], x), Apply(h, ops[0], y), p);
    }
  }

  /** On a pin of program `k`, all the programs in a row do what `k` does. */
  lemma {:induction false} JoinedOnOwnPin(h: Header, programs: seq<seq<Op>>, k: nat, p: Pin, out: bv32)
    requires forall j :: 0 <= j < |programs| ==> AllLegal(h, programs[j])
    requires k < |programs| && Owns(h, programs, k, p)
    ensures AllLegal(h, Joined(programs))
    ensures Bit(Run(h, Joined(programs), out), p) == Bit(Run(h, programs[k], out), p)
    decreases |programs|
  {
    var rest := programs[1..];
    JoinedLegal(h, rest);
    RunConcat(h, programs[0], Joined(rest), out);
    if k == 0 {
      JoinedKeeps(h, rest, p, Run(h, programs[0], out));
    } else {
      RunKeeps(h, programs[0], out, p);
      JoinedOnOwnPin(h, rest, k - 1, p, Run(h, programs[0], out));
      RunLocal(h, programs[k], Run(h, programs[0], out), out, p);
    }
  }

  lemma {:induction false} JoinedKeeps(h: Header, programs: seq<seq<Op>>, p: Pin, out: bv32)
    requires forall j :: 0 <= j < |programs| ==> AllLegal(h, programs[j]) && LeavesAlone(h, programs[j], p)
    ensures AllLegal(h, Joined(programs))
    ensures Bit(Run(h, Joined(programs), out), p) == Bit(out, p)
    decreases |programs|
  {
    if programs != [] {
      var rest := programs[1..];
      JoinedLegal(h, rest);
      RunConcat(h, programs[0], Joined(rest), out);
      RunKeeps(h, programs[0], out, p);
      JoinedKeeps(h, rest, p, Run(h, programs[0], out));
    }
  }

  /** Every pin has an owner. */
  ghost predicate PinsDivided(h: Header, programs: seq<seq<Op>>)
    requires forall j :: 0 <= j < |programs| ==> AllLegal(h, programs[j])
  {
    forall p: Pin :: Owned(h, programs, p)
  }

  ghost predicate Owned(h: Header, programs: seq<seq<Op>>, p: Pin)
    requires forall j :: 0 <= j < |programs| ==> AllLegal(h, programs[j])
  {
    exists k :: 0 <= k < |programs| && Owns(h, programs, k, p)
  }

  /** Contexts that keep to pins of their own leave, whatever the interleaving,
      exactly the OUT word of running their programs one after another. */
  lemma {:induction false} Serializable(h: Header, programs: seq<seq<Op>>, s: SharedPort, schedule: seq<nat>)
    requires Launched(h, programs, s) && PinsDivided(h, programs)
    requires Finished(Play(s, schedule))
    ensures AllLegal(h, Joined(programs))
    ensures Play(s, schedule).out == Run(h, Joined(programs), s.out)
  {
    JoinedLegal(h, programs);
    var end, serial := Play(s, schedule).out, Run(h, Joined(programs), s.out);
    forall p: Pin
      ensures Bit(end, p) == Bit(serial, p)
    {
      assert Owned(h, programs, p);
      var k: nat :| k < |programs| && Owns(h, programs, k, p);
      NoUpdateLost(h, programs, s, schedule, k, p);
      JoinedOnOwnPin(h, programs, k, p, s.out);
    }
    WordsByBits(end, serial);
  }

  /** Accesses not made yet. */
  function Pending(contexts: seq<Context>): nat {
    if contexts == [] then 0 else |contexts[0].todo| + Pending(contexts[1..])
  }

  lemma {:induction false} PendingLess(contexts: seq<Context>, j: nat, c: Context)
    requires j < |contexts| && |c.todo| < |contexts[j].todo|
    ensures Pending(contexts[j := c]) < Pending(contexts)
  {
    if j == 0 {
      assert contexts[j := c][1..] == contexts[1..];
    } else {
      assert contexts[j := c][1..] == contexts[1..][j - 1 := c];
      PendingLess(contexts[1..], j - 1, c);
    }
  }

  /** From any point all contexts can still get done. */
  lemma {:induction false} CanFinish(s: SharedPort) returns (schedule: seq<nat>)
    ensures Finished(Play(s, schedule))
    decreases Pending(s.contexts)
  {
    schedule := [];
    if !Finished(s) {
      var j :| 0 <= j < |s.contexts| && s.contexts[j].todo != [];
      PendingLess(s.contexts, j, Advance(s, j).contexts[j]);
      var rest := CanFinish(Advance(s, j));
      schedule := [j] + rest;
      assert schedule[1..] == rest;
    }
  }

  // ---------------------------------------------------------------------
  // Exactly when two inversions can lose an update
  // ---------------------------------------------------------------------

  /** Every interleaving of LEDS_INVERT(a) and LEDS_INVERT(b) inverts both. */
  ghost predicate InvertsBoth(h: Header, a: bv32, b: bv32) {
    forall s, schedule ::
      Launched(h, BothInvert(a, b), s) && Finished(Play(s, schedule))
      ==> Play(s, schedule).out == Xor(Xor(s.out, a), b)
  }

  ghost predicate Apart(a: bv32, b: bv32) {
    forall p: Pin :: !(Bit(a, p) && Bit(b, p))
  }

  function BothInvert(a: bv32, b: bv32): seq<seq<Op>> {
    [[MaskInvert(a)], [MaskInvert(b)]]
  }

  lemma PairDivided(h: Header, a: bv32, b: bv32)
    requires Apart(a, b)
    ensures PinsDivided(h, BothInvert(a, b))
  {
    forall p: Pin
      ensures Owned(h, BothInvert(a, b), p)
    {
      if Bit(a, p) {
        assert Owns(h, BothInvert(a, b), 0, p);
      } else {
        assert Owns(h, BothInvert(a, b), 1, p);
      }
    }
  }

  lemma PairRuns(h: Header, a: bv32, b: bv32, out: bv32)
    ensures AllLegal(h, Joined(BothInvert(a, b)))
    ensures Run(h, Joined(BothInvert(a, b)), out) == Xor(Xor(out, a), b)
  {
    var first: seq<Op>, second: seq<Op> := [MaskInvert(a)], [MaskInvert(b)];
    assert BothInvert(a, b)[1..] == [second];
    assert [second][1..] == [];
    assert Joined([second]) == second + [] == second;
    assert Joined(BothInvert(a, b)) == first + second;
    RunConcat(h, first, second, out);
    RunOne(h, MaskInvert(a), out);
    RunOne(h, MaskInvert(b), Xor(out, a));
  }

  /** Apart, the two inversions never lose an update. */
  lemma ApartInvertsBoth(h: Header, a: bv32, b: bv32)
    requires Apart(a, b)
    ensures InvertsBoth(h, a, b)
  {
    forall s, schedule | Launched(h, BothInvert(a, b), s) && Finished(Play(s, schedule))
      ensures Play(s, schedule).out == Xor(Xor(s.out, a), b)
    {
      PairDivided(h, a, b);
      Serializable(h, BothInvert(a, b), s, schedule);
      PairRuns(h, a, b, s.out);
    }
  }

  /** The interleaving in which both copy OUT before either writes. */
  const BOTH_COPY_FIRST: seq<nat> := [0, 1, 0, 0, 1, 1]

  function Two(out: bv32, a: Context, b: Context): SharedPort {
    SharedPort(out, [a, b])
  }

  lemma FirstSteps(out: bv32, x: Access, todo: seq<Access>, copy: bv32, b: Context, rest: seq<nat>)
    ensures Play(Two(out, Context([x] + todo, copy), b), [0] + rest) ==
            Play(Two(OutAfter(x, out, copy), Context(todo, CopyAfter(x, out, copy)), b), rest)
  {
    var s := Two(out, Context([x] + todo, copy), b);
    assert ([x] + todo)[1..] == todo && ([0] + rest)[1..] == rest;
    assert Advance(s, 0) == Two(OutAfter(x, out, copy), Context(todo, CopyAfter(x, out, copy)), b);
  }

  lemma SecondSteps(out: bv32, a: Context, x: Access, todo: seq<Access>, copy: bv32, rest: seq<nat>)
    ensures Play(Two(out, a, Context([x] + todo, copy)), [1] + rest) ==
            Play(Two(OutAfter(x, out, copy), a, Context(todo, CopyAfter(x, out, copy))), rest)
  {
    var s := Two(out, a, Context([x] + todo, copy));
    assert ([x] + todo)[1..] == todo && ([1] + rest)[1..] == rest;
    assert Advance(s, 1) == Two(OutAfter(x, out, copy), a, Context(todo, CopyAfter(x, out, copy)));
  }

  /** A context about to write what follows from its copy. */
  function Writing(m: bv32, copy: bv32): Context {
    Context([OutsetLow(m)] + [OutclrHigh(m)], copy)
  }

  /** Both contexts hold copies of a low port and write one after the other. */
  lemma BothWrite(a: bv32, b: bv32)
    ensures Play(Two(0, Writing(a, 0), Writing(b, 0)), [0, 0, 1, 1]) ==
            Two(WrittenFrom(WrittenFrom(0, a, 0), b, 0), Context([], 0), Context([], 0))
  {
    var x := OutAfter(OutsetLow(a), 0, 0);
    var y := OutAfter(OutclrHigh(a), x, 0);
    var z := OutAfter(OutsetLow(b), y, 0);
    FirstSteps(0, OutsetLow(a), [OutclrHigh(a)], 0, Writing(b, 0), [0, 1, 1]);
    assert [0] + [0, 1, 1] == [0, 0, 1, 1];
    assert [OutclrHigh(a)] + [] == [OutclrHigh(a)];
    FirstSteps(x, OutclrHigh(a), [], 0, Writing(b, 0), [1, 1]);
    assert [0] + [1, 1] == [0, 1, 1];
    SecondSteps(y, Context([], 0), OutsetLow(b), [OutclrHigh(b)], 0, [1]);
    assert [1] + [1] == [1, 1];
    assert [OutclrHigh(b)] + [] == [OutclrHigh(b)];
    SecondSteps(z, Context([], 0), OutclrHigh(b), [], 0, []);
    assert [1] + [] == [1];
  }

  /** The two writes of an inversion, from its copy. */
  function WrittenFrom(out: bv32, m: bv32, copy: bv32): bv32 {
    OutAfter(OutclrHigh(m), OutAfter(OutsetLow(m), out, copy), copy)
  }

  lemma WrittenLevels(m: bv32, p: Pin, level: bool, copied: bool)
    requires !copied
    ensures LevelAfter(OutclrHigh(m), p, LevelAfter(OutsetLow(m), p, level, copied), copied) ==
            (level || Bit(m, p))
  {
  }

  lemma WrittenFromBit(out: bv32, m: bv32, copy: bv32, p: Pin)
    requires !Bit(copy, p)
    ensures Bit(WrittenFrom(out, m, copy), p) <==> Bit(out, p) || Bit(m, p)
  {
    AccessTwiceBit(OutsetLow(m), OutclrHigh(m), out, copy, p);
    WrittenLevels(m, p, Bit(out, p), Bit(copy, p));
  }

  function Launch(a: bv32, b: bv32): SharedPort {
    Two(0, Context([ReadOut] + Writing(a, 0).todo, 0), Context([ReadOut] + Writing(b, 0).todo, 0))
  }

  lemma BothCopyFirst(a: bv32, b: bv32)
    ensures Play(Launch(a, b), BOTH_COPY_FIRST) ==
            Two(WrittenFrom(WrittenFrom(0, a, 0), b, 0), Context([], 0), Context([], 0))
  {
    FirstSteps(0, ReadOut, Writing(a, 0).todo, 0, Launch(a, b).contexts[1], [1, 0, 0, 1, 1]);
    assert [0] + [1, 0, 0, 1, 1] == BOTH_COPY_FIRST;
    SecondSteps(0, Writing(a, 0), ReadOut, Writing(b, 0).todo, 0, [0, 0, 1, 1]);
    assert [1] + [0, 0, 1, 1] == [1, 0, 0, 1, 1];
    BothWrite(a, b);
  }

  lemma LaunchIsLaunched(h: Header, a: bv32, b: bv32)
    ensures Launched(h, BothInvert(a, b), Launch(a, b))
  {
    var first: seq<Op>, second: seq<Op> := [MaskInvert(a)], [MaskInvert(b)];
    assert first[1..] == [] && second[1..] == [];
    assert Accesses(h, first[0]) == Launch(a, b).contexts[0].todo;
    assert Accesses(h, second[0]) == Launch(a, b).contexts[1].todo;
  }

  lemma SharedPinFlippedOnce(h: Header, a: bv32, b: bv32, p: Pin)
    requires Bit(a, p) && Bit(b, p)
    ensures !InvertsBoth(h, a, b)
  {
    var end := WrittenFrom(WrittenFrom(0, a, 0), b, 0);
    BitNone(p);
    BothCopyFirst(a, b);
    LaunchIsLaunched(h, a, b);
    WrittenFromBit(WrittenFrom(0, a, 0), b, 0, p);
    BitXor(0, a, p);
    BitXor(Xor(0, a), b, p);
    assert Bit(end, p) != Bit(Xor(Xor(0, a), b), p);
    assert Finished(Play(Launch(a, b), BOTH_COPY_FIRST));
    assert Play(Launch(a, b), BOTH_COPY_FIRST).out != Xor(Xor(Launch(a, b).out, a), b);
  }

  /** Two inversions keep both updates under every interleaving exactly when
      their masks share no pin. */
  lemma InvertsBothExactly(h: Header, a: bv32, b: bv32)
    ensures InvertsBoth(h, a, b) <==> Apart(a, b)
  {
    if Apart(a, b) {
      ApartInvertsBoth(h, a, b);
    } else {
      var p: Pin :| Bit(a, p) && Bit(b, p);
      SharedPinFlippedOnce(h, a, b, p);
    }
  }
}
