/** The UART baud divisor: a clock ratio rounded in 64ths. */
module Baud {
  import opened Arithmetic
  import opened Word32
  import opened Wrappers

  const CLOCK_HZ: int := 48_000_000
  const SCALED_CLOCK: int := CLOCK_HZ * 4 // 64 * clock / 16

  datatype Divisors = Divisors(integer: nat, fraction: nat) {
    /** The divisor in 64ths. */
    function Scaled(): nat {
      64 * integer + fraction
    }
  }

  function RoundedDivisor(baud: u32): nat
    requires baud > 0
  {
    (SCALED_CLOCK + baud / 2) / baud
  }

  function BaudDivisors(baud: u32): Option<Divisors> {
    if baud == 0 || baud > CLOCK_HZ / 16 then None
    else
      var scaled := RoundedDivisor(baud);
      var integer, fraction := scaled / 64, scaled % 64;
      if integer == 0 || integer > 65535 || (integer == 65535 && fraction != 0) then None
      else Some(Divisors(integer, fraction))
  }

  /** Divisors the hardware permits: 1 through 65535 in steps of 1/64. */
  predicate Representable(s: int) {
    64 <= s <= 65535 * 64
  }

  function Abs(x: int): nat {
    if x < 0 then -x else x
  }

  /** No intermediate value leaves 32 bits, for any 32-bit request. */
  lemma NoOverflow(baud: u32)
    ensures SCALED_CLOCK + baud / 2 < MODULUS
  {}

  /** Rounding to nearest, in exact arithmetic. */
  lemma RoundingError(baud: u32)
    requires baud > 0
    ensures 2 * Abs(RoundedDivisor(baud) * baud - SCALED_CLOCK) <= baud
  {}

  lemma AddedProduct(t: nat, low: nat, gap: nat)
    requires t > 0
    ensures t * (low + gap) >= t * low + gap
  {
    assert t * (low + gap) == t * low + t * gap;
  }

  lemma Halves(low: nat, high: nat)
    requires low <= high
    ensures high / 2 - low / 2 <= high - low
  {}

  lemma NoRise(c: nat, low: nat, high: nat, s: nat, t: nat)
    requires 0 < low <= high
    requires c + low / 2 < (s + 1) * low && t * high <= c + high / 2
    ensures s >= t
  {
    if t > 0 {
      AddedProduct(t, low, high - low);
      Halves(low, high);
      LessFromProduct(t, s + 1, low);
    }
  }

  lemma QuotientAntitone(c: nat, low: nat, high: nat, s: nat, t: nat)
    requires 0 < low <= high
    requires s == (c + low / 2) / low && t == (c + high / 2) / high
    ensures s >= t
  {
    DivisionBounds(c + low / 2, low);
    DivisionBounds(c + high / 2, high);
    NoRise(c, low, high, s, t);
  }

  /** Smaller requests get larger divisors. */
  lemma Antitone(low: u32, high: u32)
    requires 0 < low <= high
    ensures RoundedDivisor(low) >= RoundedDivisor(high)
  {
    QuotientAntitone(SCALED_CLOCK, low, high, RoundedDivisor(low), RoundedDivisor(high));
  }

  /** The requests the driver accepts. */
  predicate Accepted(baud: u32) {
    46 <= baud <= 3_000_000
  }

  /** Accepted exactly from 46 to 3,000,000 baud, with both fields in range. */
  lemma AcceptedRange(baud: u32)
    ensures BaudDivisors(baud).Some? <==> Accepted(baud)
    ensures BaudDivisors(baud).Some? ==>
              var d := BaudDivisors(baud).value;
              d.Scaled() == RoundedDivisor(baud) && Representable(d.Scaled()) && d.fraction < 64
  {
    if 0 < baud <= 3_000_000 {
      Antitone(baud, 3_000_000);
      if baud <= 45 {
        Antitone(baud, 45);
      } else {
        Antitone(46, baud);
      }
    }
  }

  /** A multiple within half a step of a target is nearest to it. */
  lemma NearestMultiple(target: int, s: int, other: int, step: nat)
    requires 2 * Abs(s * step - target) <= step
    ensures Abs(s * step - target) <= Abs(other * step - target)
  {
    if other > s {
      ProductOrder(s + 1, other, step);
      assert (s + 1) * step == s * step + step;
    } else if other < s {
      ProductOrder(other, s - 1, step);
      assert (s - 1) * step == s * step - step;
    }
  }

  /** The chosen divisor is nearest to the exact ratio among all integers of 64ths (distances times `baud`). */
  lemma NearestDivisor(baud: u32, other: int)
    requires Accepted(baud)
    ensures BaudDivisors(baud).Some?
    ensures Abs(BaudDivisors(baud).value.Scaled() * baud - SCALED_CLOCK) <= Abs(other * baud - SCALED_CLOCK)
  {
    AcceptedRange(baud);
    RoundingError(baud);
    NearestMultiple(SCALED_CLOCK, RoundedDivisor(baud), other, baud);
  }

  /** The baud actually generated. */
  function ActualBaud(d: Divisors): real
    requires d.Scaled() > 0
  {
    SCALED_CLOCK as real / d.Scaled() as real
  }

  function Distance(x: real, y: real): real {
    if x < y then y - x else x - y
  }

  lemma OrderScales(x: real, y: real, k: real)
    requires k > 0.0
    ensures x <= y <==> x * k <= y * k
  {
    if x <= y {
      assert (y - x) * k >= 0.0;
    } else {
      assert (x - y) * k > 0.0;
    }
  }

  lemma DistanceScales(x: real, y: real, k: real)
    requires k > 0.0
    ensures Distance(x, y) * k == Distance(x * k, y * k)
  {
    OrderScales(x, y, k);
    OrderScales(y, x, k);
  }

  lemma RatioError(s: int, baud: nat)
    requires s > 0 && 2 * Abs(s * baud - SCALED_CLOCK) <= baud
    ensures Distance(SCALED_CLOCK as real / s as real, baud as real) <= baud as real / (2 * s) as real
  {
    var q, b, rs := SCALED_CLOCK as real / s as real, baud as real, s as real;
    assert q * rs == SCALED_CLOCK as real;
    assert (s * baud) as real == rs * b;
    var half := b / (2 * s) as real;
    assert half * rs == b / 2.0;
    var x := Distance(q, b);
    assert x * rs == Distance(q * rs, b * rs) by {
      DistanceScales(q, b, rs);
    }
    OrderScales(x, half, rs);
  }

  lemma HalfStep(s: real, baud: real)
    requires s >= 64.0 && baud >= 0.0
    ensures baud / (2.0 * s) <= baud / 128.0
  {
    var x := baud / (2.0 * s);
    assert x * (2.0 * s) == baud;
    assert x >= 0.0;
    assert x * 128.0 <= x * (2.0 * s);
  }

  /** Off by at most half a step of the divisor, so never by more than one part in 128. */
  lemma BaudErrorBound(baud: u32)
    requires Accepted(baud)
    ensures BaudDivisors(baud).Some?
    ensures var d := BaudDivisors(baud).value;
            && d.Scaled() >= 64
            && Distance(ActualBaud(d), baud as real) <= baud as real / (2 * d.Scaled()) as real
            && Distance(ActualBaud(d), baud as real) <= baud as real / 128.0
  {
    AcceptedRange(baud);
    RoundingError(baud);
    var d := BaudDivisors(baud).value;
    RatioError(d.Scaled(), baud);
    HalfStep(d.Scaled() as real, baud as real);
  }

  /** One divisor's baud is no further from the request than another's: |C/s - b| <= |C/t - b|, cleared of fractions. */
  predicate NoFurther(s: int, t: int, baud: nat) {
    t * Abs(SCALED_CLOCK - s * baud) <= s * Abs(SCALED_CLOCK - t * baud)
  }

  /** The driver's choice gives the representable baud nearest to the request. */
  ghost predicate NearestBaud(baud: u32) {
    var d := BaudDivisors(baud);
    d.Some? && forall t: int :: Representable(t) ==> NoFurther(d.value.Scaled(), t, baud)
  }

  lemma CompareScaled(m: int, n: int, x: real, y: real, k: real)
    requires k > 0.0 && m as real == x * k && n as real == y * k
    ensures m <= n <==> x <= y
  {
    OrderScales(x, y, k);
  }

  function BaudDistance(s: int, baud: nat): real
    requires s > 0
  {
    Distance(SCALED_CLOCK as real / s as real, baud as real)
  }

  lemma CrossMultiply(s: int, t: int, baud: nat)
    requires s > 0 && t > 0
    ensures (t * Abs(SCALED_CLOCK - s * baud)) as real ==
            BaudDistance(s, baud) * (s as real * t as real)
  {
    var c, rs, rt, b := SCALED_CLOCK as real, s as real, t as real, baud as real;
    assert (s * baud) as real == rs * b;
    var q := c / rs;
    assert q * rs == c;
    assert (q - b) * (rs * rt) == rt * (c - rs * b);
    assert (t * Abs(SCALED_CLOCK - s * baud)) as real == rt * (Abs(SCALED_CLOCK - s * baud) as real);
    assert q < b <==> c < rs * b by {
      if q < b {
        assert q * rs < b * rs;
      } else {
        assert q * rs >= b * rs;
      }
    }
  }

  lemma NoFurtherMeansNearer(s: int, t: int, baud: nat)
    requires s > 0 && t > 0
    ensures NoFurther(s, t, baud) <==> BaudDistance(s, baud) <= BaudDistance(t, baud)
  {
    var x, y, k := BaudDistance(s, baud), BaudDistance(t, baud), s as real * t as real;
    var m, n := t * Abs(SCALED_CLOCK - s * baud), s * Abs(SCALED_CLOCK - t * baud);
    assert m as real == x * k by {
      CrossMultiply(s, t, baud);
    }
    assert n as real == y * k by {
      CrossMultiply(t, s, baud);
    }
    CompareScaled(m, n, x, y, k);
  }

  lemma NearerIsTransitive(s: int, t: int, u: int, baud: nat)
    requires s > 0 && t > 0 && u > 0 && NoFurther(s, t, baud) && NoFurther(t, u, baud)
    ensures NoFurther(s, u, baud)
  {
    NoFurtherMeansNearer(s, t, baud);
    NoFurtherMeansNearer(t, u, baud);
    NoFurtherMeansNearer(s, u, baud);
  }

  lemma FloorIsNearestBelow(f: int, t: int, baud: nat)
    requires 0 < t <= f && f * baud <= SCALED_CLOCK
    ensures NoFurther(f, t, baud)
  {
    var x, y, p := f * baud, t * baud, t * (f * baud);
    assert y <= x;
    assert t * (SCALED_CLOCK - x) == t * SCALED_CLOCK - p;
    assert f * (SCALED_CLOCK - y) == f * SCALED_CLOCK - p by {
      assert f * (t * baud) == p;
    }
  }

  lemma CeilingIsNearestAbove(g: int, t: int, baud: nat)
    requires 0 < g <= t && SCALED_CLOCK < g * baud
    ensures NoFurther(g, t, baud)
  {
    var x, y, p := g * baud, t * baud, t * (g * baud);
    assert x <= y;
    assert t * (x - SCALED_CLOCK) == p - t * SCALED_CLOCK;
    assert g * (y - SCALED_CLOCK) == p - g * SCALED_CLOCK by {
      assert g * (t * baud) == p;
    }
  }

  /** Between floor and ceiling, the remainder decides. */
  lemma FloorOrCeiling(f: int, r: int, baud: nat)
    requires 0 < f && 0 <= r < baud && SCALED_CLOCK == f * baud + r
    ensures NoFurther(f, f + 1, baud) <==> (2 * f + 1) * r <= f * baud
    ensures NoFurther(f + 1, f, baud) <==> (2 * f + 1) * r >= f * baud
  {
    assert (f + 1) * baud - SCALED_CLOCK == baud - r;
    assert (f + 1) * r == f * r + r && f * (baud - r) == f * baud - f * r;
    assert (2 * f + 1) * r == 2 * (f * r) + r;
  }

  lemma CeilingWins(f: nat, r: nat, baud: nat)
    ensures 2 * r >= baud ==> (2 * f + 1) * r >= f * baud
  {
    if 2 * r >= baud {
      ProductOrder(baud, 2 * r, f);
      assert (2 * f + 1) * r == f * (2 * r) + r;
    }
  }

  lemma HalfUp(c: nat, d: nat, f: int, r: int)
    requires 0 <= r < d && c == f * d + r
    ensures (c + d / 2) / d == if 2 * r < d then f else f + 1
  {
    var s := if 2 * r < d then f else f + 1;
    assert (f + 1) * d == f * d + d;
    QuotientOf(c + d / 2, s, c + d / 2 - s * d, d);
  }

  /** Down below half a step, up from half a step on. */
  lemma RoundingDirection(baud: u32)
    requires baud > 0
    ensures var f, r := SCALED_CLOCK / baud, SCALED_CLOCK % baud;
            RoundedDivisor(baud) == if 2 * r < baud then f else f + 1
  {
    HalfUp(SCALED_CLOCK, baud, SCALED_CLOCK / baud, SCALED_CLOCK % baud);
  }

  lemma WinnerBeatsAll(f: int, s: int, t: int, baud: nat)
    requires 0 < f && 0 < t && f * baud <= SCALED_CLOCK < (f + 1) * baud
    requires (s == f && NoFurther(f, f + 1, baud)) || (s == f + 1 && NoFurther(f + 1, f, baud))
    ensures NoFurther(s, t, baud)
  {
    if t <= f {
      FloorIsNearestBelow(f, t, baud);
      if s != f {
        NearerIsTransitive(f + 1, f, t, baud);
      }
    } else {
      CeilingIsNearestAbove(f + 1, t, baud);
      if s == f {
        NearerIsTransitive(f, f + 1, t, baud);
      }
    }
  }

  lemma FloorRange(baud: u32, f: int)
    requires Accepted(baud) && f * baud <= SCALED_CLOCK < f * baud + baud
    ensures 64 <= f && Representable(f + 1)
  {
    if f < 64 {
      ProductOrder(f, 63, baud);
    } else if f + 1 > 65535 * 64 {
      ProductOrder(65535 * 64, f, baud);
      ProductOrder(46, baud, 65535 * 64);
    }
  }

  /** The choice is nearest in baud exactly when it rounds up, or the remainder is small enough that the
      floor also wins in baud. Between those, the driver rounds down although the next divisor is closer. */
  lemma NearestBaudExactly(baud: u32)
    requires Accepted(baud)
    ensures var f, r := SCALED_CLOCK / baud, SCALED_CLOCK % baud;
            NearestBaud(baud) <==> 2 * r >= baud || (2 * f + 1) * r <= f * baud
  {
    AcceptedRange(baud);
    var f, r := SCALED_CLOCK / baud, SCALED_CLOCK % baud;
    var s := RoundedDivisor(baud);
    assert (f + 1) * baud == f * baud + baud;
    RoundingDirection(baud);
    FloorOrCeiling(f, r, baud);
    FloorRange(baud, f);
    CeilingWins(f, r, baud);
    if 2 * r >= baud || (2 * f + 1) * r <= f * baud {
      forall t: int | Representable(t) ensures NoFurther(s, t, baud) {
        WinnerBeatsAll(f, s, t, baud);
      }
    } else {
      assert Representable(f + 1) && !NoFurther(s, f + 1, baud);
    }
  }

  /** At 2,976,800 baud the driver generates 3,000,000 although 65/64 would be closer. */
  lemma NotNearestBaud()
    ensures BaudDivisors(2_976_800) == Some(Divisors(1, 0))
    ensures !NearestBaud(2_976_800)
  {
    NearestBaudExactly(2_976_800);
  }
}
