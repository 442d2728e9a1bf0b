/** NVIC priority words: four one-byte priorities to a 32-bit register. */
module Priorities {
  import opened BitWord

  const IRQ_COUNT: int := 47
  const WORDS: int := 12
  const LEVELS: int := 8

  type Byte = b: seq<bool> | |b| == 8 witness seq(8, _ => false)

  type Registers = r: seq<Word> | |r| == WORDS witness seq(WORDS, _ => seq(BITS, _ => false))

  /** `0xff << shift`. */
  function ByteMask(shift: nat): Word
    requires shift <= 24
  {
    seq(BITS, k requires 0 <= k < BITS => shift <= k < shift + 8)
  }

  function Power(n: nat): nat {
    if n == 0 then 1 else if n == 1 then 2 else 4
  }

  /** `priority << 5 << shift`: three bits at the top of the byte. */
  function PriorityBits(priority: nat, shift: nat): Word
    requires shift <= 24
  {
    seq(BITS, k requires 0 <= k < BITS =>
      shift + 5 <= k < shift + 8 && priority / Power(k - shift - 5) % 2 == 1)
  }

  /** The priority byte of one interrupt, wherever it is packed. */
  function PriorityByte(ipr: Registers, irq: nat): Byte
    requires irq < 4 * WORDS
  {
    ipr[irq / 4][irq % 4 * 8..irq % 4 * 8 + 8]
  }

  function Encode(priority: nat): Byte {
    seq(8, k requires 0 <= k < 8 => k >= 5 && priority / Power(k - 5) % 2 == 1)
  }

  function Decode(byte: Byte): nat {
    (if byte[5] then 1 else 0) + (if byte[6] then 2 else 0) + if byte[7] then 4 else 0
  }

  lemma DecodeEncode(priority: nat)
    requires priority < LEVELS
    ensures Decode(Encode(priority)) == priority
  {}

  datatype Request = Request(irq: nat, priority: nat)

  predicate InRange(r: Request) {
    r.irq < IRQ_COUNT && r.priority < LEVELS
  }

  /** The word read, changed in one byte, and written back. */
  function Update(ipr: Registers, r: Request): Registers
    requires InRange(r)
  {
    var shift := r.irq % 4 * 8;
    ipr[r.irq / 4 := Or(AndNot(ipr[r.irq / 4], ByteMask(shift)), PriorityBits(r.priority, shift))]
  }

  /** It is that interrupt's byte that changes, and only it. */
  lemma UpdateChangesOneByte(ipr: Registers, r: Request, irq: nat)
    requires InRange(r) && irq < 4 * WORDS
    ensures PriorityByte(Update(ipr, r), irq) ==
            if irq == r.irq then Encode(r.priority) else PriorityByte(ipr, irq)
  {
    var s, t := r.irq % 4 * 8, irq % 4 * 8;
    var after := Update(ipr, r)[irq / 4];
    if irq == r.irq {
      assert after[s..s + 8] == Encode(r.priority);
    } else if irq / 4 == r.irq / 4 {
      assert s != t;
      assert after[t..t + 8] == ipr[irq / 4][t..t + 8];
    }
  }

  /** Bit `j` of a priority, from its number. */
  predicate PriorityBit(priority: nat, j: nat) {
    match j
    case 0 => priority % 2 == 1
    case 1 => priority / 2 % 2 == 1
    case 2 => priority / 4 % 2 == 1
    case _ => false
  }

  /** The registers bit by bit: the top three bits of byte `irq % 4` of word `irq / 4` are the priority's, the
      five below are clear, and every other bit of every word is as it was. */
  predicate Written(before: Registers, after: Registers, irq: nat, priority: nat) {
    forall w: nat, i: nat | w < WORDS && i < BITS ::
      after[w][i] ==
        if w == irq / 4 && 8 * (irq % 4) <= i < 8 * (irq % 4) + 8
        then i >= 8 * (irq % 4) + 5 && PriorityBit(priority, i - 8 * (irq % 4) - 5)
        else before[w][i]
  }

  lemma DigitOfPriority(priority: nat, j: nat)
    requires j < 3
    ensures PriorityBit(priority, j) <==> priority / Power(j) % 2 == 1
  {}

  lemma UpdateWrites(ipr: Registers, r: Request)
    requires InRange(r)
    ensures Written(ipr, Update(ipr, r), r.irq, r.priority)
  {
    var after, base := Update(ipr, r), 8 * (r.irq % 4);
    forall w: nat, i: nat | w < WORDS && i < BITS
      ensures after[w][i] ==
                if w == r.irq / 4 && base <= i < base + 8 then i >= base + 5 && PriorityBit(r.priority, i - base - 5)
                else ipr[w][i]
    {
      if base + 5 <= i < base + 8 {
        DigitOfPriority(r.priority, i - base - 5);
      }
    }
  }

  function UpdateAll(ipr: Registers, requests: seq<Request>): Registers
    requires forall r <- requests :: InRange(r)
    decreases |requests|
  {
    if requests == [] then ipr
    else Update(UpdateAll(ipr, requests[..|requests| - 1]), requests[|requests| - 1])
  }

  function PriorityMap(ipr: Registers): map<nat, Byte> {
    map irq: nat | irq < IRQ_COUNT :: PriorityByte(ipr, irq)
  }

  function AssignAll(m: map<nat, Byte>, requests: seq<Request>): map<nat, Byte>
    decreases |requests|
  {
    if requests == [] then m
    else
      var last := requests[|requests| - 1];
      AssignAll(m, requests[..|requests| - 1])[last.irq := Encode(last.priority)]
  }

  lemma UpdateRefinesAssignment(ipr: Registers, r: Request)
    requires InRange(r)
    ensures PriorityMap(Update(ipr, r)) == PriorityMap(ipr)[r.irq := Encode(r.priority)]
  {
    var packed, expected := PriorityMap(Update(ipr, r)), PriorityMap(ipr)[r.irq := Encode(r.priority)];
    assert packed.Keys == expected.Keys;
    forall irq | irq in packed.Keys ensures packed[irq] == expected[irq] {
      UpdateChangesOneByte(ipr, r, irq);
    }
  }

  /** Any sequence of calls is, interrupt by interrupt, the same sequence of map updates. */
  lemma {:induction false} PackedWordsRefineMap(ipr: Registers, requests: seq<Request>)
    requires forall r <- requests :: InRange(r)
    ensures PriorityMap(UpdateAll(ipr, requests)) == AssignAll(PriorityMap(ipr), requests)
    decreases |requests|
  {
    if requests == [] {
    } else {
      var before, last := requests[..|requests| - 1], requests[|requests| - 1];
      PackedWordsRefineMap(ipr, before);
      UpdateRefinesAssignment(UpdateAll(ipr, before), last);
    }
  }

  class Nvic {
    var ipr: Registers

    constructor (ipr: Registers)
      ensures this.ipr == ipr
    {
      this.ipr := ipr;
    }

    /** An out-of-range interrupt or priority panics before the register is read. */
    method SetPriority(irq: nat, priority: nat) returns (ok: bool)
      modifies this
      ensures ok == InRange(Request(irq, priority))
      ensures ipr == if ok then Update(old(ipr), Request(irq, priority)) else old(ipr)
      ensures ok ==> Written(old(ipr), ipr, irq, priority)
      ensures ok ==> Decode(PriorityByte(ipr, irq)) == priority
      ensures ok ==> forall other: nat | other < 4 * WORDS && other != irq ::
                PriorityByte(ipr, other) == PriorityByte(old(ipr), other)
    {
      if irq >= IRQ_COUNT || priority >= LEVELS {
        return false;
      }
      ghost var before := ipr;
      var shift := irq % 4 * 8;
      var bits := ipr[irq / 4];
      bits := Or(AndNot(bits, ByteMask(shift)), PriorityBits(priority, shift));
      ipr := ipr[irq / 4 := bits];
      forall other: nat | other < 4 * WORDS
        ensures PriorityByte(ipr, other) == if other == irq then Encode(priority) else PriorityByte(before, other)
      {
        UpdateChangesOneByte(before, Request(irq, priority), other);
      }
      DecodeEncode(priority);
      UpdateWrites(before, Request(irq, priority));
      ok := true;
    }
  }
}
