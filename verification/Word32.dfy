/** 32-bit wrapping time: what a counter that shows its ticks modulo 2^32 can and cannot tell. */
module Word32 {
  const MODULUS: int := 0x1_0000_0000
  const HALF: int := 0x8000_0000

  type u32 = x: nat | x < MODULUS

  type u8 = x: nat | x < 256

  function Wrap(x: int): u32 {
    x % MODULUS
  }

  function WrappingSub(a: u32, b: u32): u32 {
    Wrap(a - b)
  }

  /** The half-range comparison of foundation/lib.rs. */
  predicate DeadlineReached(now: u32, deadline: u32) {
    WrappingSub(now, deadline) < HALF
  }

  lemma ModuloAddsMultiples(x: int, k: int)
    ensures Wrap(x + k * MODULUS) == Wrap(x)
  {
    assert x + k * MODULUS == (x / MODULUS + k) * MODULUS + x % MODULUS;
  }

  /** Subtracting two displayed readings loses nothing but whole wraps. */
  lemma WrappingSubOfReadings(later: int, earlier: int)
    ensures WrappingSub(Wrap(later), Wrap(earlier)) == Wrap(later - earlier)
  {
    var p, q := later / MODULUS, earlier / MODULUS;
    var d := Wrap(later) - Wrap(earlier);
    assert later - earlier == d + (p - q) * MODULUS;
    ModuloAddsMultiples(d, p - q);
  }

  lemma WrapNear(x: int)
    requires -MODULUS <= x < MODULUS
    ensures Wrap(x) == if x < 0 then x + MODULUS else x
  {}

  /** A reading of elapsed time is the true one exactly when less than one wrap has passed. */
  lemma ElapsedIsExact(start: nat, now: nat)
    requires start <= now
    ensures WrappingSub(Wrap(now), Wrap(start)) == now - start <==> now - start < MODULUS
  {
    WrappingSubOfReadings(now, start);
  }

  lemma HalfCycles(d: int)
    ensures Wrap(d) < HALF <==> d / HALF % 2 == 0
  {
    var q, r := d / HALF, d % HALF;
    assert q == q / 2 * 2 + q % 2;
    assert d == q % 2 * HALF + r + q / 2 * MODULUS;
    ModuloAddsMultiples(q % 2 * HALF + r, q / 2);
  }

  /** The comparison is right exactly in the even half-cycles ahead of the deadline and the odd ones behind it. */
  lemma DeadlineAgreement(now: int, deadline: int)
    ensures var halves := (now - deadline) / HALF;
            (DeadlineReached(Wrap(now), Wrap(deadline)) <==> now >= deadline) <==>
            (halves % 2 == 0 <==> now >= deadline)
    ensures -HALF <= now - deadline < HALF ==>
            (DeadlineReached(Wrap(now), Wrap(deadline)) <==> now >= deadline)
  {
    WrappingSubOfReadings(now, deadline);
    HalfCycles(now - deadline);
  }

  /** Against an elapsed-time check with the same timeout, agreement ends exactly half a cycle past the deadline. */
  lemma DeadlineMatchesElapsed(start: nat, elapsed: nat, timeout: nat)
    requires elapsed < MODULUS && timeout <= HALF
    ensures (DeadlineReached(Wrap(start + elapsed), Wrap(start + timeout)) <==>
             WrappingSub(Wrap(start + elapsed), Wrap(start)) >= timeout) <==>
            elapsed < timeout + HALF
  {
    var now, deadline := Wrap(start + elapsed), Wrap(start + timeout);
    assert WrappingSub(now, Wrap(start)) == elapsed by {
      WrappingSubOfReadings(start + elapsed, start);
      WrapNear(elapsed);
    }
    assert WrappingSub(now, deadline)
        == if elapsed < timeout then elapsed - timeout + MODULUS else elapsed - timeout by {
      WrappingSubOfReadings(start + elapsed, start + timeout);
      WrapNear(elapsed - timeout);
    }
  }
}
