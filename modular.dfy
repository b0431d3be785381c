/** Arithmetic modulo 26, the size of the alphabet. */
module Modular {

  /** Adding a multiple of 26 does not change the remainder. */
  lemma ModShift(x: int, q: int)
    ensures (x + 26 * q) % 26 == x % 26
  {
    var r := x % 26;
    var p := x / 26;
    assert x + 26 * q == 26 * (p + q) + r;
  }

  /** Reducing an operand first does not change the remainder of a sum. */
  lemma ModAdd(a: int, b: int)
    ensures (a % 26 + b) % 26 == (a + b) % 26
  {
    var q := a / 26;
    assert a == 26 * q + a % 26;
    ModShift(a % 26 + b, q);
  }

  lemma StepIndex(i: int, k: int)
    ensures ((i + 1) % 26 + (k - 1)) % 26 == (i + k) % 26
  {
    ModAdd(i + 1, k - 1);
  }

  /** One place back then forward, or forward then back, returns to the start. */
  lemma Neighbours(p: int)
    requires 0 <= p < 26
    ensures ((p - 1) % 26 + 1) % 26 == p
    ensures ((p + 1) % 26 - 1) % 26 == p
  {
    ModAdd(p - 1, 1);
    ModAdd(p + 1, -1);
  }

  lemma ShiftIndex(x: int, k: int)
    ensures ((x - (k - 1)) % 26 - 1) % 26 == (x - k) % 26
    ensures ((x + (k - 1)) % 26 + 1) % 26 == (x + k) % 26
  {
    ModAdd(x - (k - 1), -1);
    ModAdd(x + (k - 1), 1);
  }

  /** Turning 26 - n % 26 places forward is turning n places back, and the other way round. */
  lemma RingIndex(x: int, n: int)
    ensures (x + (26 - n % 26)) % 26 == (x - n) % 26
    ensures (x - (26 - n % 26)) % 26 == (x + n) % 26
  {
    var q := n / 26;
    assert n % 26 == n - 26 * q;
    ModShift(x - n, q + 1);
    ModShift(x + n, -q - 1);
  }

  /** From offset `from`, (t - from) % 26 steps arrive at t. */
  lemma Arrive(from: int, t: int)
    requires 0 <= t < 26
    ensures 0 <= (t - from) % 26 < 26
    ensures (from + (t - from) % 26) % 26 == t
  {
    ModAdd(t - from, from);
  }

  /** Each step not yet at t brings t one step closer. */
  lemma CountDown(r: int, t: int)
    requires 0 <= r < 26 && 0 <= t < 26 && r != t
    ensures 0 < (t - r) % 26
    ensures (t - (r + 1) % 26) % 26 == (t - r) % 26 - 1
  {
    if r == 25 {
      assert (r + 1) % 26 == 0;
      assert (t - r) % 26 == t + 1;
    } else if t > r {
      assert (r + 1) % 26 == r + 1;
    } else {
      assert (r + 1) % 26 == r + 1;
      assert (t - r) % 26 == t - r + 26;
      assert (t - r - 1) % 26 == t - r - 1 + 26;
    }
  }

  lemma PeriodIndex(x: int, k: int)
    requires 0 <= x < 26 && k % 26 == 0
    ensures (x + k) % 26 == x && (x - k) % 26 == x
  {
    var q := k / 26;
    assert k == 26 * q;
    ModShift(x, q);
    ModShift(x, -q);
  }
}
