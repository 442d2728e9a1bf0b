/** Shared GPIO output words: single-access set, clear and toggle, and output-enable configuration. */
module Gpio {
  import opened BitWord

  datatype PinOp = Drive(high: bool) | Toggle

  datatype Access = Access(pin: Position, op: PinOp)

  /** What one operation does to its own pin. */
  function Level(level: bool, op: PinOp): bool {
    match op
    case Drive(high) => high
    case Toggle => !level
  }

  /** What its one write to the set, clear or toggle alias does to the latch word. */
  function Latch(word: Word, a: Access): Word {
    var mask := Single(a.pin);
    match a.op
    case Drive(true) => Or(word, mask)
    case Drive(false) => AndNot(word, mask)
    case Toggle => Xor(word, mask)
  }

  function LatchAll(word: Word, accesses: seq<Access>): Word
    decreases |accesses|
  {
    if accesses == [] then word
    else Latch(LatchAll(word, accesses[..|accesses| - 1]), accesses[|accesses| - 1])
  }

  function LevelAll(level: bool, ops: seq<PinOp>): bool
    decreases |ops|
  {
    if ops == [] then level else Level(LevelAll(level, ops[..|ops| - 1]), ops[|ops| - 1])
  }

  /** The operations addressed to one pin, in order. */
  function OpsOf(accesses: seq<Access>, pin: Position): seq<PinOp>
    decreases |accesses|
  {
    if accesses == [] then []
    else
      var last := accesses[|accesses| - 1];
      OpsOf(accesses[..|accesses| - 1], pin) + if last.pin == pin then [last.op] else []
  }

  lemma LatchMovesOnePin(word: Word, a: Access, pin: Position)
    ensures Latch(word, a)[pin] == if a.pin == pin then Level(word[pin], a.op) else word[pin]
  {}

  lemma LevelAppend(level: bool, ops: seq<PinOp>, op: PinOp)
    ensures LevelAll(level, ops + [op]) == Level(LevelAll(level, ops), op)
  {
    assert (ops + [op])[..|ops|] == ops;
  }

  /** However accesses to different pins interleave, each latch bit is the fold of its own pin's operations. */
  lemma {:induction false} PinIsolation(word: Word, accesses: seq<Access>, pin: Position)
    ensures LatchAll(word, accesses)[pin] == LevelAll(word[pin], OpsOf(accesses, pin))
    decreases |accesses|
  {
    if accesses == [] {
    } else {
      var before, last := accesses[..|accesses| - 1], accesses[|accesses| - 1];
      PinIsolation(word, before, pin);
      LatchMovesOnePin(LatchAll(word, before), last, pin);
      if last.pin == pin {
        LevelAppend(word[pin], OpsOf(before, pin), last.op);
      } else {
        assert OpsOf(accesses, pin) == OpsOf(before, pin);
      }
    }
  }

  /** So only each pin's own order matters: two schedules that agree pin by pin leave the same word. */
  lemma SchedulesAgree(word: Word, first: seq<Access>, second: seq<Access>)
    requires forall pin: Position :: OpsOf(first, pin) == OpsOf(second, pin)
    ensures LatchAll(word, first) == LatchAll(word, second)
  {
    forall pin: Position ensures LatchAll(word, first)[pin] == LatchAll(word, second)[pin] {
      PinIsolation(word, first, pin);
      PinIsolation(word, second, pin);
    }
  }

  /** A pin nobody addresses keeps its level. */
  lemma UnownedBits(word: Word, accesses: seq<Access>, pin: Position)
    requires OpsOf(accesses, pin) == []
    ensures LatchAll(word, accesses)[pin] == word[pin]
  {
    PinIsolation(word, accesses, pin);
  }

  datatype Configuration = Unrouted | PushPullOutput

  class Bank {
    var latch: Word                  // DOUT31_0
    var enables: Word                // DOE31_0
    var routing: seq<Configuration>  // IOCFG

    ghost predicate Valid()
      reads this
    {
      |routing| == BITS
    }

    constructor (latch: Word, enables: Word)
      ensures Valid() && this.latch == latch && this.enables == enables
      ensures forall k | 0 <= k < BITS :: routing[k].Unrouted?
    {
      this.latch, this.enables := latch, enables;
      routing := seq(BITS, _ => Unrouted);
    }

    /** Write the output enables. A driver may only be turned on with its pin routed and its level loaded low. */
    method WriteEnables(word: Word)
      requires Valid()
      requires forall k: Position :: word[k] && !enables[k] ==> !latch[k] && routing[k].PushPullOutput?
      modifies this`enables
      ensures enables == word
    {
      enables := word;
    }

    /** Load a low level, route the pin, and only then enable its driver; an invalid pin panics untouched. */
    method ConfigureOutput(dio: nat) returns (ok: bool)
      requires Valid()
      modifies this
      ensures Valid()
      ensures ok == (dio < BITS)
      ensures forall k: Position :: latch[k] == (old(latch)[k] && k != dio)
      ensures forall k: Position :: enables[k] == (old(enables)[k] || k == dio)
      ensures forall k: Position ::
                routing[k] == if k == dio then PushPullOutput else old(routing)[k]
    {
      if dio >= BITS {
        return false;
      }
      var mask := Single(dio);
      latch := AndNot(latch, mask);
      routing := routing[dio := PushPullOutput];
      WriteEnables(Or(enables, mask));
      ok := true;
    }

    /** Any sequence of configurations leaves the output enables as the union of old and configured pins. */
    method ConfigureAll(dios: seq<nat>)
      requires Valid()
      modifies this
      ensures Valid()
      ensures forall k: Position :: enables[k] == (old(enables)[k] || k in dios)
      ensures forall k: Position :: latch[k] == (old(latch)[k] && k !in dios)
    {
      for i := 0 to |dios|
        invariant Valid()
        invariant forall k: Position :: enables[k] == (old(enables)[k] || k in dios[..i])
        invariant forall k: Position :: latch[k] == (old(latch)[k] && k !in dios[..i])
      {
        var _ := ConfigureOutput(dios[i]);
        assert dios[..i + 1] == dios[..i] + [dios[i]];
      }
      assert dios[..|dios|] == dios;
    }

    method Set(pin: Position, high: bool)
      requires Valid()
      modifies this`latch
      ensures latch == Latch(old(latch), Access(pin, Drive(high)))
      ensures forall k: Position :: latch[k] == if k == pin then high else old(latch)[k]
    {
      if high {
        latch := Or(latch, Single(pin));
      } else {
        latch := AndNot(latch, Single(pin));
      }
    }

    method ToggleLevel(pin: Position)
      requires Valid()
      modifies this`latch
      ensures latch == Latch(old(latch), Access(pin, Toggle))
      ensures forall k: Position :: latch[k] == if k == pin then !old(latch)[k] else old(latch)[k]
    {
      latch := Xor(latch, Single(pin));
    }
  }
}
