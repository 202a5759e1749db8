/**
 Bit operations on integers of any size, in two's complement, as the source's language defines them on its
 big integers and, after conversion to 32 bits, on its numbers.
 */
module Bits {

  function Pow2(n: nat): (p: int)
    ensures p > 0
  {
    if n == 0 then 1 else 2 * Pow2(n - 1)
  }

  function And(x: int, y: int): int
    decreases if x < 0 then -x else x
  {
    if x == 0 then 0
    else if x == -1 then y
    else 2 * And(x / 2, y / 2) + (if x % 2 == 1 && y % 2 == 1 then 1 else 0)
  }

  function Not(x: int): int {
    -x - 1
  }

  function Or(x: int, y: int): int {
    Not(And(Not(x), Not(y)))
  }

  function ShiftLeft(x: int, n: nat): int {
    x * Pow2(n)
  }

  const WORD := 0x1_0000_0000

  /** The signed 32-bit integer with the same low bits. */
  function ToInt32(x: int): int {
    (x + WORD / 2) % WORD - WORD / 2
  }

  /** The unsigned 32-bit integer with the same low bits. */
  function ToUint32(x: int): nat {
    x % WORD
  }

  lemma Halve(x: int, k: nat)
    ensures x % Pow2(k + 1) == 2 * (x / 2 % Pow2(k)) + x % 2
    ensures x / Pow2(k + 1) == x / 2 / Pow2(k)
  {
    var p := Pow2(k);
    var q, r := x / 2 / p, x / 2 % p;
    assert x / 2 == q * p + r && x == 2 * (x / 2) + x % 2;
    assert x == q * (2 * p) + (2 * r + x % 2) by {
      assert q * (2 * p) == 2 * (q * p);
    }
    DivModUnique(x, 2 * p, q, 2 * r + x % 2);
  }

  lemma DivModUnique(x: int, d: int, q: int, r: int)
    requires d > 0 && 0 <= r < d && x == q * d + r
    ensures x / d == q && x % d == r
  {
    var e := x / d - q;
    assert e * d == r - x % d by {
      assert x == (x / d) * d + x % d;
      assert (x / d) * d == e * d + q * d;
    }
    Multiple(e, d);
  }

  /** Counting round and round. */
  lemma NextModulo(n: nat, m: nat)
    requires m > 0
    ensures (n + 1) % m == if n % m + 1 == m then 0 else n % m + 1
  {
    var q, r := n / m, n % m;
    if r + 1 == m {
      DivModUnique(n + 1, m, q + 1, 0);
    } else {
      DivModUnique(n + 1, m, q, r + 1);
    }
  }

  lemma Multiple(e: int, d: int)
    requires d > 0
    ensures e > 0 ==> e * d >= d
    ensures e < 0 ==> e * d <= -d
  {
  }

  /** Masking off all but the low bits. */
  lemma {:induction false} AndLow(x: int, k: nat)
    ensures And(x, Pow2(k) - 1) == x % Pow2(k)
    decreases k
  {
    if k == 0 {
      AndZero(x);
    } else {
      Halve(x, k - 1);
      assert (Pow2(k) - 1) / 2 == Pow2(k - 1) - 1 && (Pow2(k) - 1) % 2 == 1;
      if x == 0 || x == -1 {
        Extremes(k);
      } else {
        AndLow(x / 2, k - 1);
      }
    }
  }

  lemma {:induction false} AndZero(x: int)
    ensures And(x, 0) == 0
    decreases if x < 0 then -x else x
  {
    if x != 0 && x != -1 {
      AndZero(x / 2);
    }
  }

  lemma Extremes(k: nat)
    ensures 0 % Pow2(k) == 0 && -1 % Pow2(k) == Pow2(k) - 1
  {
    DivModUnique(-1, Pow2(k), -1, Pow2(k) - 1);
  }

  /** Clearing the low bits. */
  lemma {:induction false} AndHigh(x: int, k: nat)
    ensures And(x, -Pow2(k)) == x - x % Pow2(k)
    decreases k
  {
    if k == 0 {
      AndAllOnes(x);
    } else {
      Halve(x, k - 1);
      assert -Pow2(k) / 2 == -Pow2(k - 1) && -Pow2(k) % 2 == 0;
      if x == 0 || x == -1 {
        Extremes(k);
      } else {
        AndHigh(x / 2, k - 1);
      }
    }
  }

  lemma {:induction false} AndAllOnes(x: int)
    ensures And(x, -1) == x
    decreases if x < 0 then -x else x
  {
    if x != 0 && x != -1 {
      AndAllOnes(x / 2);
    }
  }

  /** Setting low bits that are clear adds them. */
  lemma {:induction false} OrLow(x: int, y: int, k: nat)
    requires x % Pow2(k) == 0 && 0 <= y < Pow2(k)
    ensures Or(x, y) == x + y
    decreases k
  {
    AndNots(x, y, k);
  }

  lemma {:induction false} AndNots(x: int, y: int, k: nat)
    requires x % Pow2(k) == 0 && 0 <= y < Pow2(k)
    ensures And(Not(x), Not(y)) == Not(x + y)
    decreases k
  {
    if k == 0 {
      AndAllOnes(Not(x));
    } else {
      Halve(x, k - 1);
      var a, b := Not(x), Not(y);
      assert a % 2 == 1 && a / 2 == Not(x / 2) && b / 2 == Not(y / 2) && b % 2 == 1 - y % 2;
      if a != -1 {
        AndNots(x / 2, y / 2, k - 1);
      }
    }
  }

  lemma AddMultiple(x: int, m: int, d: int)
    requires d > 0
    ensures (x + m * d) % d == x % d && (x + m * d) / d == x / d + m
  {
    assert (x / d + m) * d == (x / d) * d + m * d;
    DivModUnique(x + m * d, d, x / d + m, x % d);
  }

  lemma AddMultiples(x: int, n: int, word: int, m: int, d: int)
    requires d > 0 && word == m * d
    ensures (x + n * word) % d == x % d
  {
    assert n * word == (n * m) * d;
    AddMultiple(x, n * m, d);
  }

  lemma MultiplesApart(a: int, b: int, d: int)
    requires d > 0 && a % d == 0 && b % d == 0 && a < b
    ensures a + d <= b
  {
    var e := b / d - a / d;
    assert b - a == e * d by {
      assert a == (a / d) * d && b == (b / d) * d;
    }
    Multiple(e, d);
  }

  lemma ModAtMost(x: int, d: int)
    requires x >= 0 && d > 0
    ensures 0 <= x % d <= x
  {
    if x < d {
      DivModUnique(x, d, 0, x);
    }
  }

  lemma RoundedDown(x: int, d: int)
    requires d > 0
    ensures (x - x % d) % d == 0
  {
    DivModUnique(x - x % d, d, x / d, 0);
  }

  /** Keeping the bits from k up to n. */
  lemma {:induction false} AndMask(x: int, k: nat, n: nat)
    requires k <= n
    ensures And(x, Pow2(n) - Pow2(k)) == x % Pow2(n) - x % Pow2(k)
    decreases k
  {
    if k == 0 {
      AndLow(x, n);
    } else {
      Halve(x, k - 1);
      Halve(x, n - 1);
      assert (Pow2(n) - Pow2(k)) / 2 == Pow2(n - 1) - Pow2(k - 1) && (Pow2(n) - Pow2(k)) % 2 == 0;
      if x == 0 || x == -1 {
        Extremes(k);
        Extremes(n);
      } else {
        AndMask(x / 2, k - 1, n - 1);
      }
    }
  }

  lemma {:induction false} Pow2Sum(a: nat, b: nat)
    ensures Pow2(a + b) == Pow2(a) * Pow2(b)
  {
    if a > 0 {
      Pow2Sum(a - 1, b);
      assert Pow2(a) * Pow2(b) == 2 * (Pow2(a - 1) * Pow2(b));
    }
  }

  /** The numbers between a multiple of 2^k and the next share a quotient. */
  lemma SameBlock(v: int, base: int, k: nat)
    ensures base - base % Pow2(k) <= v <= base - base % Pow2(k) + (Pow2(k) - 1) <==> v / Pow2(k) == base / Pow2(k)
  {
    var p := Pow2(k);
    var q := base / p;
    assert base == q * p + base % p && v == (v / p) * p + v % p;
    if q * p <= v < q * p + p {
      DivModUnique(v, p, q, v - q * p);
    }
  }

  lemma HalveQuotient(x: int, k: nat)
    ensures x / Pow2(k + 1) == x / Pow2(k) / 2
  {
    var p := Pow2(k);
    var q, r := x / p, x % p;
    assert x == q * p + r;
    assert q * p == (q / 2) * (2 * p) + (q % 2) * p;
    assert 0 <= (q % 2) * p <= p;
    DivModUnique(x, 2 * p, q / 2, (q % 2) * p + r);
  }
}
