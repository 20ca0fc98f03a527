/** The few facts about division and remainder that the clock and the arrays need. */
module Arith {

  lemma DivModUnique(x: nat, n: nat, q: nat, r: nat)
    requires n > 0 && r < n && x == n * q + r
    ensures x / n == q && x % n == r
  {
    var d := x / n - q;
    assert n * d == r - x % n;
    assert d >= 1 ==> n * d >= n;
    assert d <= -1 ==> n * d <= 0 - n;
  }

  lemma ModShift(a: nat, q: nat, n: nat)
    requires n > 0
    ensures (a + n * q) % n == a % n
  {
    assert a == n * (a / n) + a % n;
    assert a + n * q == n * (a / n + q) + a % n;
    DivModUnique(a + n * q, n, a / n + q, a % n);
  }

  lemma ModAdd(x: nat, k: nat, n: nat)
    requires n > 0
    ensures (x % n + k) % n == (x + k) % n
  {
    ModShift(x % n + k, x / n, n);
    assert x % n + k + n * (x / n) == x + k;
  }

  /** Two moments with the same remainder are at least n apart. */
  lemma SameResidueApart(a: nat, b: nat, n: nat)
    requires n > 0 && a < b && a % n == b % n
    ensures b >= a + n
  {
    var d := b / n - a / n;
    assert n * d == b - a;
    assert d <= 0 ==> n * d <= 0;
    assert d >= 1 ==> n * d >= n;
  }

  /** Any n consecutive numbers meet every remainder. */
  lemma ResidueWithin(from: nat, r: nat, n: nat) returns (t: nat)
    requires n > 0 && r < n
    ensures from <= t < from + n && t % n == r
  {
    var h := from % n;
    t := if h <= r then from + (r - h) else from + (r + n - h);
    var q := if h <= r then from / n else from / n + 1;
    assert t == n * q + r;
    DivModUnique(t, n, q, r);
  }
}
