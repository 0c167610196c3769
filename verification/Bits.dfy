// Machine words and the bit operators the kernel uses on them.
//
// Words are natural numbers below 2^64; `&`, `|`, `>>` and `<<` are defined bit by bit, and the
// lemmas below are the mask and flag identities that address arithmetic rests on.
module Bits {
  type Word = n: nat | n < 0x1_0000_0000_0000_0000

  function Pow2(k: nat): (r: nat)
    ensures r >= 1
  {
    if k == 0 then 1 else 2 * Pow2(k - 1)
  }

  function And(a: nat, b: nat): nat {
    if a == 0 || b == 0 then 0
    else (if a % 2 == 1 && b % 2 == 1 then 1 else 0) + 2 * And(a / 2, b / 2)
  }

  function Or(a: nat, b: nat): nat {
    if a == 0 then b
    else if b == 0 then a
    else (if a % 2 == 1 || b % 2 == 1 then 1 else 0) + 2 * Or(a / 2, b / 2)
  }

  function Shr(a: nat, k: nat): nat {
    if k == 0 then a else Shr(a / 2, k - 1)
  }

  lemma Pow2Values()
    ensures Pow2(2) == 4 && Pow2(6) == 64 && Pow2(9) == 512
    ensures Pow2(12) == 0x1000 && Pow2(21) == 0x20_0000 && Pow2(30) == 0x4000_0000
    ensures Pow2(39) == 0x80_0000_0000 && Pow2(64) == 0x1_0000_0000_0000_0000
  {
    assert Pow2(6) == 64 && Pow2(9) == 512;
    Pow2Sum(6, 64, 6, 64);
    Pow2Sum(12, 0x1000, 9, 512);
    Pow2Sum(21, 0x20_0000, 9, 512);
    Pow2Sum(30, 0x4000_0000, 9, 512);
    Pow2Sum(30, 0x4000_0000, 30, 0x4000_0000);
    Pow2Sum(60, 0x1000_0000_0000_0000, 2, 4);
    Pow2Sum(62, 0x4000_0000_0000_0000, 2, 4);
  }

  lemma Pow2Sum(a: nat, x: nat, b: nat, y: nat)
    requires Pow2(a) == x && Pow2(b) == y
    ensures Pow2(a + b) == x * y
  {
    Pow2Add(a, b);
  }

  lemma {:induction false} Pow2Add(a: nat, b: nat)
    ensures Pow2(a + b) == Pow2(a) * Pow2(b)
  {
    if a == 0 {
    } else {
      Pow2Add(a - 1, b);
    }
  }

  // Masking with the low k bits set is the remainder by 2^k.
  lemma {:induction false} AndLowMask(x: nat, k: nat)
    ensures And(x, Pow2(k) - 1) == x % Pow2(k)
  {
    if k > 0 {
      AndLowMask(x / 2, k - 1);
      AndOddStep(x, Pow2(k - 1));
    } else {
      RemainderUnique(x, 1, x, 0);
    }
  }

  lemma AndUnfolds(a: nat, b: nat)
    ensures And(a, b) == (if a % 2 == 1 && b % 2 == 1 then 1 else 0) + 2 * And(a / 2, b / 2)
  {
  }

  lemma AndOddStep(x: nat, h: nat)
    requires h > 0 && And(x / 2, h - 1) == x / 2 % h
    ensures And(x, 2 * h - 1) == x % (2 * h)
  {
    hide And;
    RemainderUnique(2 * h - 1, 2, h - 1, 1);
    AndUnfolds(x, 2 * h - 1);
    HalfModulus(x, h);
  }

  lemma HalfModulus(x: nat, h: nat)
    requires h > 0
    ensures x % (2 * h) == 2 * (x / 2 % h) + x % 2
  {
    var q, r := x / 2 / h, x / 2 % h;
    assert x == (2 * h) * q + (2 * r + x % 2);
    RemainderUnique(x, 2 * h, q, 2 * r + x % 2);
  }

  lemma {:induction false} ShrIsDivision(a: nat, k: nat)
    ensures Shr(a, k) == a / Pow2(k)
  {
    if k > 0 {
      ShrIsDivision(a / 2, k - 1);
      HalfDivision(a, Pow2(k - 1));
    } else {
      RemainderUnique(a, 1, a, 0);
    }
  }

  lemma HalfDivision(x: nat, h: nat)
    requires h > 0
    ensures x / 2 / h == x / (2 * h)
  {
    var q, r := x / 2 / h, x / 2 % h;
    assert x == (2 * h) * q + (2 * r + x % 2);
    RemainderUnique(x, 2 * h, q, 2 * r + x % 2);
  }

  lemma RemainderUnique(x: nat, m: nat, q: nat, r: nat)
    requires m > 0 && r < m && x == m * q + r
    ensures x % m == r && x / m == q
  {
    var q', r' := x / m, x % m;
    MultipleBounds(m, q - q');
  }

  lemma MultipleBounds(m: int, d: int)
    requires m > 0
    ensures d >= 1 ==> m * d >= m
    ensures d <= -1 ==> m * d <= -m
  {
    if d >= 1 {
      assert m * (d - 1) >= 0;
    } else if d <= -1 {
      assert m * (-d - 1) >= 0;
    }
  }

  // The low nine bits of a number and the rest of it, below a bound of 512 * h.
  lemma LowNineBits(x: nat, h: nat)
    requires h > 0
    ensures x % (512 * h) % 512 == x % 512 && x % (512 * h) / 512 == x / 512 % h
  {
    var q, r := x / 512 / h, x / 512 % h;
    assert x == (512 * h) * q + (512 * r + x % 512);
    RemainderUnique(x, 512 * h, q, 512 * r + x % 512);
  }

  // Masking an n-bit number with every bit from k to n-1 set clears its low k bits.
  lemma {:induction false} AndHighMask(x: nat, k: nat, n: nat)
    requires k <= n && x < Pow2(n)
    ensures Pow2(k) <= Pow2(n)
    ensures And(x, Pow2(n) - Pow2(k)) == x - x % Pow2(k)
  {
    if k == 0 {
      AndLowMask(x, n);
      RemainderUnique(x, Pow2(n), 0, x);
      RemainderUnique(x, 1, x, 0);
    } else {
      assert x / 2 < Pow2(n - 1);
      AndHighMask(x / 2, k - 1, n - 1);
      var g := Pow2(n - 1) - Pow2(k - 1);
      AndHighStep(x, Pow2(k - 1), g);
      assert Pow2(n) - Pow2(k) == 2 * g;
    }
  }

  lemma AndHighStep(x: nat, h: nat, g: nat)
    requires 0 < h && And(x / 2, g) == x / 2 - x / 2 % h
    ensures And(x, 2 * g) == x - x % (2 * h)
  {
    var r := x / 2 % h;
    HalfModulus(x, h);
    AndEven(x, g);
    assert And(x, 2 * g) == 2 * (x / 2 - r);
  }

  lemma AndEven(x: nat, m: nat)
    ensures And(x, 2 * m) == 2 * And(x / 2, m)
  {
    RemainderUnique(2 * m, 2, m, 0);
    AndUnfolds(x, 2 * m);
  }

  // Or-ing flags into a number whose low k bits are clear adds them.
  lemma {:induction false} OrAligned(a: nat, b: nat, k: nat)
    requires a % Pow2(k) == 0 && b < Pow2(k)
    ensures Or(a, b) == a + b
  {
    if k == 0 || a == 0 || b == 0 {
    } else {
      var h := Pow2(k - 1);
      HalfModulus(a, h);
      OrAligned(a / 2, b / 2, k - 1);
    }
  }
}
