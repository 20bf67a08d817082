/**
 Packed registers as numbers: field k of a word is its k-th digit in a base that is a power of two.
 Base 2 gives single bits (BIT(k)), base 0x10000 halfwords. Reading is a shift and mask; writing is the
 read-modify-write that clears the field and ors the new value in.
 */
module Digits {
  function Digit(n: nat, k: nat, base: nat): (d: nat)
    requires base >= 2
    ensures d < base
  {
    if k == 0 then n % base else Digit(n / base, k - 1, base)
  }

  function SetDigit(n: nat, k: nat, base: nat, v: nat): nat
    requires base >= 2 && v < base
  {
    if k == 0 then n / base * base + v else SetDigit(n / base, k - 1, base, v) * base + n % base
  }

  function Power(base: nat, k: nat): (p: nat)
    requires base >= 1
    ensures p >= 1
  {
    if k == 0 then 1 else base * Power(base, k - 1)
  }

  lemma DivDiv(n: nat, a: nat, b: nat)
    requires a > 0 && b > 0
    ensures a * b > 0 && n / a / b == n / (a * b)
  {
    var q := n / a / b;
    var r := n / a % b;
    assert n == (q * b + r) * a + n % a;
    assert (q * b + r) * a == q * (a * b) + r * a;
    assert r * a <= (b - 1) * a;
    assert (b - 1) * a == a * b - a;
    var m := n - q * (a * b);
    assert 0 <= m < a * b;
    Quotient(n, a * b, q, m);
  }

  lemma Quotient(n: nat, d: nat, q: nat, m: nat)
    requires d > 0 && n == q * d + m && m < d
    ensures n / d == q
  {
    Recompose(q, m, d);
  }

  /** A digit is a shift and a mask. */
  lemma {:induction false} DigitIsField(n: nat, k: nat, base: nat)
    requires base >= 2
    ensures Digit(n, k, base) == n / Power(base, k) % base
    decreases k
  {
    if k > 0 {
      DigitIsField(n / base, k - 1, base);
      DivDiv(n, base, Power(base, k - 1));
    }
  }

  lemma Recompose(q: nat, r: nat, base: nat)
    requires base >= 1 && r < base
    ensures q * base + r >= 0
    ensures (q * base + r) / base == q && (q * base + r) % base == r
  {
    var n := q * base + r;
    assert n / base * base + n % base == n;
    var d := n / base - q;
    assert d * base == r - n % base by {
      assert d * base == n / base * base - q * base;
    }
  }

  lemma {:induction false} DigitOfSet(n: nat, k: nat, base: nat, v: nat, j: nat)
    requires base >= 2 && v < base
    ensures Digit(SetDigit(n, k, base, v), j, base) == if j == k then v else Digit(n, j, base)
    decreases k, j
  {
    if k == 0 {
      Recompose(n / base, v, base);
    } else {
      Recompose(SetDigit(n / base, k - 1, base, v), n % base, base);
      if j > 0 { DigitOfSet(n / base, k - 1, base, v, j - 1); }
    }
  }

  lemma {:induction false} SetSame(n: nat, k: nat, base: nat)
    requires base >= 2
    ensures SetDigit(n, k, base, Digit(n, k, base)) == n
    decreases k
  {
    assert n / base * base + n % base == n;
    if k > 0 { SetSame(n / base, k - 1, base); }
  }

  lemma {:induction false} SetTwice(n: nat, k: nat, base: nat, v: nat, w: nat)
    requires base >= 2 && v < base && w < base
    ensures SetDigit(SetDigit(n, k, base, v), k, base, w) == SetDigit(n, k, base, w)
    decreases k
  {
    if k == 0 {
      Recompose(n / base, v, base);
    } else {
      Recompose(SetDigit(n / base, k - 1, base, v), n % base, base);
      SetTwice(n / base, k - 1, base, v, w);
    }
  }

  lemma {:induction false} SetCommutes(n: nat, i: nat, v: nat, j: nat, w: nat, base: nat)
    requires base >= 2 && v < base && w < base && i < j
    ensures SetDigit(SetDigit(n, i, base, v), j, base, w) == SetDigit(SetDigit(n, j, base, w), i, base, v)
    decreases i
  {
    var q := SetDigit(n / base, j - 1, base, w);
    Recompose(q, n % base, base);
    if i == 0 {
      Recompose(n / base, v, base);
    } else {
      Recompose(SetDigit(n / base, i - 1, base, v), n % base, base);
      SetCommutes(n / base, i - 1, v, j - 1, w, base);
    }
  }
}
