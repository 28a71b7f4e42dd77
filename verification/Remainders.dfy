/** The few facts about integer division the ring buffers need. */
module Remainders {

  /** Division with remainder is unique. */
  lemma RemainderIs(x: int, n: nat, q: int, r: nat)
    requires x == n * q + r && r < n
    ensures x % n == r
  {
    var k := x / n - q;
    assert k <= 0 || n * k >= n;
    assert k >= 0 || n * k <= 0 - n;
    assert n * k == r - x % n;
  }

  lemma RemaindersDiffer(x: nat, d: nat, n: nat)
    requires 0 < d < n
    ensures x % n != (x + d) % n
  {
    var k := (x + d) / n - x / n;
    assert d == n * k + (x + d) % n - x % n;
    if k <= 0 {
      assert n * k <= 0;
    } else {
      assert n * k >= n;
    }
  }
}
