/** Programming the PLL of the Promise PATA controllers (pata_pdc2027x.c): the output is the input
  * clock times (F + 2) / (R + 2).
  */
module Plls {

  const PDC_100_MHZ := 100_000_000
  const PDC_133_MHZ := 133_333_333

  /** How pdc_adjust_pll ends: a division by zero, one of its three give-up branches, or a value
    * written to the PLL control register. */
  datatype Outcome = DivideFault | InvalidClock | InvalidRatio | InvalidF | Written(pllCtl: nat)

  /** C's division. */
  function TruncDiv(a: int, b: int): (q: int)
    requires b != 0
    ensures a >= 0 && b > 0 ==> q == a / b
    ensures a < 0 && b > 0 ==> q == -(-a / b)
  {
    if a >= 0 then a / b else -(-a / b)
  }

  function Target(fast: bool): nat {
    if fast then PDC_133_MHZ else PDC_100_MHZ
  }

  /** The output frequency for an input of `clock` Hz. */
  function Output(clock: nat, f: nat, r: nat): real {
    clock as real * (f + 2) as real / (r + 2) as real
  }

  lemma Grows(a: int, b: int, k: nat)
    requires a <= b
    ensures a * k <= b * k
  {
  }

  lemma Expand(khz: nat, ratio: nat, lost: nat, d: nat, g: nat, rest: nat)
    requires ratio * d == 1000 * g + rest
    ensures (khz * ratio + lost) * d == khz * 1000 * g + khz * rest + lost * d
  {}

  lemma Small(khz: nat, lost: nat, d: nat, rest: nat)
    requires lost < khz && rest < 1000 && d > 0
    ensures 0 <= khz * rest + lost * d < khz * d + 1000 * khz
  {
    Grows(lost, khz, d);
    Grows(rest, 999, khz);
    Grows(0, rest, khz);
    Grows(0, lost, d);
  }

  /** The whole-kHz clock times g stays below the target times d, by a bounded amount. */
  predicate Near(t: nat, khz: nat, g: nat, d: nat) {
    khz * 1000 * g <= t * d < khz * 1000 * g + khz * d + 1000 * khz
  }

  /** Two roundings down, with what they can lose. */
  lemma Rounding(target: nat, khz: nat, d: nat)
    requires khz > 0 && d > 0
    ensures Near(target, khz, target / khz * d / 1000, d)
  {
    var ratio, lost := target / khz, target % khz;
    assert target == khz * ratio + lost;
    RoundingOf(target, khz, ratio, lost, d, ratio * d / 1000, ratio * d % 1000);
  }

  lemma RoundingOf(target: nat, khz: nat, ratio: nat, lost: nat, d: nat, g: nat, rest: nat)
    requires target == khz * ratio + lost && lost < khz
    requires ratio * d == 1000 * g + rest && rest < 1000 && d > 0
    ensures Near(target, khz, g, d)
  {
    Expand(khz, ratio, lost, d, g, rest);
    Small(khz, lost, d, rest);
  }

  lemma QuotientBetween(t: nat, khz: nat, low: nat, high: nat)
    requires khz > 0 && low * khz <= t < (high + 1) * khz
    ensures low <= t / khz <= high
  {
    var q := t / khz;
    assert q * khz <= t < (q + 1) * khz;
    if q < low {
      Grows(q + 1, low, khz);
    } else if q > high {
      Grows(high + 1, q, khz);
    }
  }

  /** Which R goes with which ratio (in thousandths). */
  predicate Picks(ratio: nat, r: nat) {
    && (ratio < 8600 ==> r == 13) && (8600 <= ratio < 12900 ==> r == 8)
    && (12900 <= ratio < 16100 ==> r == 6) && (16100 <= ratio ==> r == 0)
  }

  /** F for this R fits the seven bits the register has for it. */
  predicate Fits(ratio: nat, r: nat) {
    2 <= ratio * (r + 2) / 1000 <= 129
  }

  predicate Largest(ratio: nat, r: nat) {
    Fits(ratio, r) && forall other :: other in {0, 6, 8, 13} && Fits(ratio, other) ==> other <= r
  }

  /** The R picked is the largest for which F fits, that is the finest step, if and only if the ratio is not
    * just above one of the three limits. */
  lemma PickExact(ratio: nat, r: nat)
    requires 1428 <= ratio <= 26666 && Picks(ratio, r)
    ensures Fits(ratio, r)
    ensures Largest(ratio, r) <==> !(8600 <= ratio < 8667 || 12900 <= ratio < 13000 || 16100 <= ratio < 16250)
  {
    assert Fits(ratio, 13) <==> ratio < 8667;
    assert Fits(ratio, 8) <==> ratio < 13000;
    assert Fits(ratio, 6) <==> ratio < 16250;
    assert Fits(ratio, 0);
  }

  /** For an accepted clock the ratio is in range. */
  lemma RatioRange(fast: bool, khz: nat)
    requires 5000 <= khz <= 70000
    ensures 1428 <= Target(fast) / khz <= 26666
  {
    QuotientBetween(Target(fast), khz, 1428, 26666);
  }

  predicate Divides(fast: bool, khz: nat, f: nat, r: nat)
    requires khz > 0
  {
    f + 2 == Target(fast) / khz * (r + 2) / 1000
  }

  /** The output computed from the clock in whole kHz never exceeds the target and misses it by less
    * than clock / (R + 2) + clock / 1000. */
  ghost predicate Accurate(t: nat, khz: nat, clock: nat, f: nat, r: nat) {
    var out := Output(khz * 1000, f, r);
    out <= t as real && t as real - out < clock as real / (r + 2) as real + clock as real / 1000.0
  }

  /** The output for the clock itself can exceed the target, by less than one part in khz. */
  ghost predicate Overshoots(t: nat, khz: nat, clock: nat, f: nat, r: nat)
    requires khz > 0
  {
    Output(clock, f, r) < t as real + t as real / khz as real
  }

  lemma Accuracy(fast: bool, khz: nat, clock: nat, f: nat, r: nat)
    requires 0 < khz == clock / 1000 && Divides(fast, khz, f, r)
    ensures Accurate(Target(fast), khz, clock, f, r)
    ensures Overshoots(Target(fast), khz, clock, f, r)
  {
    Rounding(Target(fast), khz, r + 2);
    Scaled(Target(fast), khz, clock, f, r);
    Overshoot(Target(fast), khz, clock, f, r);
  }

  lemma Scaled(t: nat, khz: nat, clock: nat, f: nat, r: nat)
    requires Near(t, khz, f + 2, r + 2) && 1000 * khz <= clock
    ensures Accurate(t, khz, clock, f, r)
  {}

  lemma Overshoot(t: nat, khz: nat, clock: nat, f: nat, r: nat)
    requires khz > 0 && Near(t, khz, f + 2, r + 2) && clock < (khz + 1) * 1000
    ensures Overshoots(t, khz, clock, f, r)
  {}

  /** The overshoot is real: 5.000999 MHz programs a little more than 100 MHz. */
  lemma OvershootExample()
    ensures Divides(false, 5_000_999 / 1000, 38, 0)
    ensures Output(5_000_999, 38, 0) > Target(false) as real
  {
  }

  /** pdc_adjust_pll.  For every clock whatsoever: the two later give-up branches are unreachable, a
    * clock below 1 kHz divides by zero before it is checked, and an accepted one gets an F of seven
    * bits and an output as `Accuracy` says. */
  method PdcAdjustPll(pllClock: int, fast: bool) returns (o: Outcome)
    ensures o.DivideFault? <==> -1000 < pllClock < 1000
    ensures o.Written? <==> 5_000_000 <= pllClock < 70_001_000
    ensures o.DivideFault? || o.InvalidClock? || o.Written?
    ensures o.Written? ==> Programs(o.pllCtl, fast, pllClock)
  {
    var khz := TruncDiv(pllClock, 1000);
    var required := PDC_100_MHZ;
    if fast {
      required := PDC_133_MHZ;
    }
    if khz == 0 {
      return DivideFault;
    }
    var ratio := TruncDiv(required, khz);
    if khz < 5000 || khz > 70000 {
      return InvalidClock;
    }
    RatioRange(fast, khz);
    o := RegisterFor(ratio, fast, pllClock);
  }

  /** The part of pdc_adjust_pll that looks for R and F. */
  method RegisterFor(ratio: nat, ghost fast: bool, ghost clock: nat) returns (o: Outcome)
    requires clock >= 1000 && ratio == Target(fast) / (clock / 1000) && 1428 <= ratio <= 26666
    ensures o.Written? && Programs(o.pllCtl, fast, clock)
  {
    var r: nat;
    if ratio < 8600 {
      r := 0x0d;
    } else if ratio < 12900 {
      r := 0x08;
    } else if ratio < 16100 {
      r := 0x06;
    } else if ratio < 64000 {
      r := 0x00;
    } else {
      return InvalidRatio;
    }
    PickExact(ratio, r);
    var f := TruncDiv(ratio * (r + 2), 1000) - 2;
    if f < 0 || f > 127 {
      return InvalidF;
    }
    Fields(f, r);
    Accuracy(fast, clock / 1000, clock, f, r);
    o := Written(r * 256 + f);
  }

  lemma Fields(f: nat, r: nat)
    requires f <= 127
    ensures (r * 256 + f) % 256 == f && (r * 256 + f) / 256 == r
  {}

  /** What a register value makes of a clock: R is the one for the ratio and F fits, the output at the whole-kHz
    * clock is at most the target and close to it, and the true output overshoots by little. */
  ghost predicate Programs(pllCtl: nat, fast: bool, clock: int)
    requires clock >= 1000
  {
    var f, r := pllCtl % 256, pllCtl / 256;
    && f <= 127 && Picks(Target(fast) / (clock / 1000), r) && Divides(fast, clock / 1000, f, r)
    && Accurate(Target(fast), clock / 1000, clock, f, r)
    && Overshoots(Target(fast), clock / 1000, clock, f, r)
  }
}
