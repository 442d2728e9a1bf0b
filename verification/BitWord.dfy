/** A 32-bit register as its bits, with the mask operations of set, clear and toggle accesses. */
module BitWord {
  const BITS: int := 32

  type Word = w: seq<bool> | |w| == BITS witness seq(BITS, _ => false)

  type Position = p: nat | p < BITS

  /** `1 << p`. */
  function Single(p: Position): Word {
    seq(BITS, k => k == p)
  }

  function Or(word: Word, mask: Word): Word {
    seq(BITS, k requires 0 <= k < BITS => word[k] || mask[k])
  }

  /** `word & !mask`. */
  function AndNot(word: Word, mask: Word): Word {
    seq(BITS, k requires 0 <= k < BITS => word[k] && !mask[k])
  }

  function Xor(word: Word, mask: Word): Word {
    seq(BITS, k requires 0 <= k < BITS => word[k] != mask[k])
  }
}
