/** Bitwise and with a mask, on integers in two's complement of unbounded width. */
module Bits {

  /** x & m; x / 2 is an arithmetic shift since Dafny's division rounds down for a positive divisor. */
  function And(x: int, m: nat): nat
    decreases m
  {
    if m == 0 then 0 else (x % 2) * (m % 2) + 2 * And(x / 2, m / 2)
  }

  function Pow2(k: nat): nat {
    if k == 0 then 1 else 2 * Pow2(k - 1)
  }

  ghost predicate IsPow2(n: nat) {
    n >= 1 && exists k: nat :: n == Pow2(k)
  }

  lemma {:induction false} Pow2Positive(k: nat)
    ensures Pow2(k) >= 1
  {
    if k > 0 { Pow2Positive(k - 1); }
  }

  /** Masking with one less than a power of two is the remainder, for negative numbers too. */
  lemma {:induction false} MaskIsMod(x: int, k: nat)
    ensures Pow2(k) >= 1 && And(x, Pow2(k) - 1) == x % Pow2(k)
    decreases k
  {
    Pow2Positive(k);
    if k == 0 {
      assert And(x, 0) == 0;
    } else {
      Pow2Double(k);
      hide And, Pow2;
      var h := Pow2(k - 1);
      Pow2Positive(k - 1);
      MaskIsMod(x / 2, k - 1);
      AndOdd(x, h);
      DoubleMod(x, h);
    }
  }

  lemma Pow2Double(k: nat)
    requires k > 0
    ensures Pow2(k) == 2 * Pow2(k - 1)
  {
  }

  lemma AndOdd(x: int, h: nat)
    requires h >= 1
    ensures And(x, 2 * h - 1) == x % 2 + 2 * And(x / 2, h - 1)
  {
    assert (2 * h - 1) / 2 == h - 1 && (2 * h - 1) % 2 == 1;
  }

  lemma DoubleMod(x: int, h: nat)
    requires h > 0
    ensures x % (2 * h) == x % 2 + 2 * ((x / 2) % h)
  {
    var q, r := (x / 2) / h, (x / 2) % h;
    assert x == x % 2 + 2 * (h * q + r);
    assert 2 * (h * q + r) == (2 * h) * q + 2 * r by { assert 2 * (h * q) == (2 * h) * q; }
    ModUnique(x, 2 * h, q, x % 2 + 2 * r);
  }

  lemma ModUnique(x: int, n: nat, q: int, r: int)
    requires n > 0 && x == n * q + r && 0 <= r < n
    ensures x % n == r && x / n == q
  {
    var q2, r2 := x / n, x % n;
    var d := q2 - q;
    assert n * d == n * q2 - n * q == r - r2;
    assert n * -d == -(n * d);
    if d >= 1 { MulLeast(n, d); }
    if d <= -1 { MulLeast(n, -d); }
  }

  lemma MulLeast(n: int, d: int)
    requires n >= 0 && d >= 1
    ensures n * d >= n
  {
  }

  /** x folded into [0, n) when it is at most one turn away. */
  function Fold(x: int, n: nat): int {
    if x < 0 then x + n else if x < n then x else x - n
  }

  /** Within one turn of the ring, masking adds or subtracts at most one capacity. */
  lemma MaskFolds(x: int, n: nat)
    requires IsPow2(n) && 0 <= x + n < 3 * n
    ensures n >= 1 && And(x, n - 1) == Fold(x, n)
  {
    var k: nat :| n == Pow2(k);
    MaskIsMod(x, k);
    if x < 0 { ModUnique(x, n, -1, x + n); } else if x < n { ModUnique(x, n, 0, x); } else { ModUnique(x, n, 1, x - n); }
  }

  lemma MaskFoldsAll(n: nat)
    requires IsPow2(n)
    ensures n >= 1 && forall x :: 0 <= x + n < 3 * n ==> And(x, n - 1) == Fold(x, n)
  {
    var k: nat :| n == Pow2(k);
    Pow2Positive(k);
    forall x | 0 <= x + n < 3 * n ensures And(x, n - 1) == Fold(x, n) { MaskFolds(x, n); }
  }
}
