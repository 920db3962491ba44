// Bitwise "and" on natural numbers, powers of two, and x & (x - 1).

module Bits {
  function And(a: nat, b: nat): nat
  {
    if a == 0 || b == 0 then 0 else (a % 2) * (b % 2) + 2 * And(a / 2, b / 2)
  }

  predicate IsPower(x: nat)
  {
    x == 1 || (x > 1 && x % 2 == 0 && IsPower(x / 2))
  }

  function Pow2(k: nat): (r: nat)
    ensures r > 0
  {
    if k == 0 then 1 else 2 * Pow2(k - 1)
  }

  // x & (n - 1) is x mod n when n is a power of two.
  lemma {:induction false} AndMask(x: nat, n: nat)
    requires IsPower(n)
    ensures And(x, n - 1) == x % n && And(x, n - 1) < n
    decreases n
  {
    if n > 1 {
      AndMask(x / 2, n / 2);
      assert (n - 1) / 2 == n / 2 - 1 && (n - 1) % 2 == 1;
      ModHalf(x, n / 2);
      if x == 0 { assert x % n == 0; }
    }
  }

  lemma ModHalf(x: nat, m: nat)
    requires m > 0
    ensures x % (2 * m) == x % 2 + 2 * (x / 2 % m)
  {
    var q, r := x / 2 / m, x / 2 % m;
    assert x / 2 == q * m + r;
    assert x == 2 * (x / 2) + x % 2;
    assert x == q * (2 * m) + (2 * r + x % 2);
    ModUnique(x, 2 * m, q, 2 * r + x % 2);
  }

  lemma ModUnique(x: nat, n: nat, q: nat, r: nat)
    requires n > 0 && x == q * n + r && r < n
    ensures x % n == r
  {
    var d: int := q - x / n;
    assert x == x / n * n + x % n;
    assert d * n == x % n - r;
    assert d <= 0 || d * n >= n;
    assert d >= 0 || d * n + n <= 0;
  }

  // turn_off_least_1bit
  function TurnOff(x: nat): nat
    requires x > 0
  {
    And(x, x - 1)
  }

  lemma AndSelf(m: nat)
    ensures And(m, m) == m
  {
  }

  lemma TurnOffOdd(m: nat)
    ensures TurnOff(2 * m + 1) == 2 * m
  {
    assert (2 * m + 1) / 2 == m && 2 * m / 2 == m && 2 * m % 2 == 0;
    AndSelf(m);
  }

  lemma TurnOffEven(m: nat)
    requires m > 0
    ensures TurnOff(2 * m) == 2 * TurnOff(m)
  {
    assert 2 * m / 2 == m && 2 * m % 2 == 0 && (2 * m - 1) / 2 == m - 1;
  }

  // Turning off the lowest bit reaches 0 exactly on powers of two, ...
  lemma {:induction false} TurnOffZero(x: nat)
    requires x > 0
    ensures TurnOff(x) == 0 <==> IsPower(x)
    ensures TurnOff(x) < x
  {
    var m := x / 2;
    if x % 2 == 1 {
      assert x == 2 * m + 1;
      TurnOffOdd(m);
    } else {
      assert x == 2 * m;
      TurnOffEven(m);
      TurnOffZero(m);
    }
  }

  // ... and otherwise keeps the highest bit.
  lemma {:induction false} TurnOffTop(x: nat, p: nat)
    requires IsPower(p) && p <= x < 2 * p && !IsPower(x)
    ensures p <= TurnOff(x)
    decreases x
  {
    var m := x / 2;
    if x % 2 == 1 {
      assert x == 2 * m + 1;
      TurnOffOdd(m);
    } else {
      assert x == 2 * m;
      TurnOffEven(m);
      TurnOffTop(m, p / 2);
    }
  }

  // Every positive number lies between a power of two and its double.
  lemma {:induction false} TopBit(x: nat) returns (p: nat)
    requires x > 0
    ensures IsPower(p) && p <= x < 2 * p
  {
    if x == 1 { p := 1; } else {
      var q := TopBit(x / 2);
      p := 2 * q;
      assert p / 2 == q;
    }
  }

  lemma {:induction false} PowersApart(p: nat, q: nat)
    requires IsPower(p) && IsPower(q) && p <= q < 2 * p
    ensures p == q
  {
    if p > 1 && q > 1 { PowersApart(p / 2, q / 2); }
  }
}
