/** The registers of one GPIO port and the pin functions over them. */
module Gpio {
  import opened Words

  // Fields of a PIN_CNF register.
  const DIR_INPUT: bv32 := 0
  const DIR_OUTPUT: bv32 := 1
  const INPUT_CONNECT: bv32 := 0
  const INPUT_DISCONNECT: bv32 := 1
  const PULL_DISABLED: bv32 := 0
  const DRIVE_S0S1: bv32 := 0
  const SENSE_DISABLED: bv32 := 0

  function PinCnf(dir: bv32, input: bv32, pull: bv32, drive: bv32, sense: bv32): bv32 {
    dir | (input << 1) | (pull << 2) | (drive << 8) | (sense << 16)
  }

  const OUTPUT_CNF: bv32 := PinCnf(DIR_OUTPUT, INPUT_DISCONNECT, PULL_DISABLED, DRIVE_S0S1, SENSE_DISABLED)

  function InputCnf(pull: bv32): bv32 {
    PinCnf(DIR_INPUT, INPUT_CONNECT, pull, DRIVE_S0S1, SENSE_DISABLED)
  }

  /** Each field of a PIN_CNF word reads back as it was written. */
  lemma PinCnfFields(dir: bv32, input: bv32, pull: bv32, drive: bv32, sense: bv32)
    requires dir <= 1 && input <= 1 && pull <= 3 && drive <= 7 && sense <= 3
    ensures var cnf := PinCnf(dir, input, pull, drive, sense);
            && cnf & 1 == dir && (cnf >> 1) & 1 == input && (cnf >> 2) & 3 == pull
            && (cnf >> 8) & 7 == drive && (cnf >> 16) & 3 == sense
  {
  }

  /** The fields of a PIN_CNF word, read by shift and mask: bit 0 is the
      direction, bit 1 the input buffer, bits 2 and 3 the pull, bits 8 to 10 the
      drive, bits 16 and 17 the sense. */
  predicate ReadsAs(cnf: bv32, dir: bv32, input: bv32, pull: bv32, drive: bv32, sense: bv32) {
    && cnf & 1 == dir
    && (cnf >> 1) & 1 == input
    && (cnf >> 2) & 3 == pull
    && (cnf >> 8) & 7 == drive
    && (cnf >> 16) & 3 == sense
  }

  /** The output word: direction output, input buffer disconnected, the rest 0. */
  lemma OutputWord()
    ensures OUTPUT_CNF == 3 && ReadsAs(OUTPUT_CNF, 1, 1, 0, 0, 0)
  {
  }

  /** The input word: direction input, input buffer connected, the given pull. */
  lemma InputWord(pull: bv32)
    ensures InputCnf(pull) == pull << 2
    ensures pull <= 3 ==> ReadsAs(InputCnf(pull), 0, 0, pull, 0, 0)
  {
  }

  /** An access to the registers that move OUT. */
  datatype Event = ReadsOut | WritesOutset(m: bv32) | WritesOutclr(m: bv32)

  /** One 32-pin port. `input` is the IN register, which the code only reads.
      `trace` lists the accesses of the code that changes OUT. */
  class Port {
    var out: bv32
    var input: bv32
    ghost var trace: seq<Event>
    const cnf: array<bv32>

    ghost predicate Valid()
      reads this
    {
      cnf.Length == 32
    }

    /** The PIN_CNF register of a pin. */
    function Cnf(p: Pin): bv32
      requires Valid()
      reads this, cnf
    {
      cnf[p as int]
    }

    /** `reset` is what every PIN_CNF register holds at first. */
    constructor (out: bv32, input: bv32, reset: bv32)
      ensures Valid() && fresh(cnf)
      ensures this.out == out && this.input == input && this.trace == []
      ensures forall p: Pin :: Cnf(p) == reset
    {
      this.out, this.input, this.trace := out, input, [];
      cnf := new bv32[32](_ => reset);
    }

    /** Taking a copy of OUT. */
    method ReadOut() returns (copy: bv32)
      modifies `trace
      ensures copy == out && trace == old(trace) + [ReadsOut]
    {
      copy := out;
      trace := trace + [ReadsOut];
    }

    /** Writing OUTSET: the ones of the word go high. */
    method WriteOutset(m: bv32)
      modifies `out, `trace
      ensures out == Or(old(out), m) && trace == old(trace) + [WritesOutset(m)]
    {
      out := out | m;
      trace := trace + [WritesOutset(m)];
    }

    /** Writing OUTCLR: the ones of the word go low. */
    method WriteOutclr(m: bv32)
      modifies `out, `trace
      ensures out == AndNot(old(out), m) && trace == old(trace) + [WritesOutclr(m)]
    {
      out := out & !m;
      trace := trace + [WritesOutclr(m)];
    }

    method PinSet(p: Pin)
      modifies `out, `trace
      ensures out == Or(old(out), PinBit(p)) && trace == old(trace) + [WritesOutset(PinBit(p))]
    {
      WriteOutset(1 << p);
    }

    method PinClear(p: Pin)
      modifies `out, `trace
      ensures out == AndNot(old(out), PinBit(p)) && trace == old(trace) + [WritesOutclr(PinBit(p))]
    {
      WriteOutclr(1 << p);
    }

    /** Reads OUT, then sets or clears the pin by what it read. */
    method PinToggle(p: Pin)
      modifies `out, `trace
      ensures out == Xor(old(out), PinBit(p))
      ensures trace == old(trace) +
              [ReadsOut, WritesOutset(AndNot(PinBit(p), old(out))), WritesOutclr(And(PinBit(p), old(out)))]
    {
      var state := ReadOut();
      var bit := PinBit(p);
      AndCommutes(state, bit);
      WriteOutset(!state & bit);
      WriteOutclr(state & bit);
      FlipByPartsIsXor(state, bit);
    }

    method PinWrite(p: Pin, value: nat)
      modifies `out, `trace
      ensures out == if value == 0 then AndNot(old(out), PinBit(p)) else Or(old(out), PinBit(p))
      ensures trace == old(trace) + [if value == 0 then WritesOutclr(PinBit(p)) else WritesOutset(PinBit(p))]
    {
      if value == 0 {
        PinClear(p);
      } else {
        PinSet(p);
      }
    }

    function PinOutRead(p: Pin): (level: bv32)
      reads this
      ensures level == if Bit(out, p) then 1 else 0
    {
      BitByShift(out, p);
      (out >> p) & 1
    }

    function PinRead(p: Pin): (level: bv32)
      reads this
      ensures level == if Bit(input, p) then 1 else 0
    {
      BitByShift(input, p);
      (input >> p) & 1
    }

    method CfgOutput(p: Pin)
      requires Valid()
      modifies cnf
      ensures Cnf(p) == 3 && ReadsAs(Cnf(p), 1, 1, 0, 0, 0)
      ensures forall q: Pin :: Cnf(q) == if q == p then OUTPUT_CNF else old(Cnf(q))
    {
      OutputWord();
      cnf[p as int] := PinCnf(DIR_OUTPUT, INPUT_DISCONNECT, PULL_DISABLED, DRIVE_S0S1, SENSE_DISABLED);
    }

    method CfgInput(p: Pin, pull: bv32)
      requires Valid()
      modifies cnf
      ensures Cnf(p) == pull << 2 && (pull <= 3 ==> ReadsAs(Cnf(p), 0, 0, pull, 0, 0))
      ensures forall q: Pin :: Cnf(q) == if q == p then InputCnf(pull) else old(Cnf(q))
    {
      InputWord(pull);
      cnf[p as int] := PinCnf(DIR_INPUT, INPUT_CONNECT, pull, DRIVE_S0S1, SENSE_DISABLED);
    }
  }
}
