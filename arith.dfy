/** Arithmetic facts the verifier does not find unaided: bytes of a number, Euclidean division. */
module Arith {
  /** One more than a byte below 255, in bv8 arithmetic, is one more as a number. */
  lemma ByteSucc(b: bv8)
    requires b as nat < 255
    ensures (b + 1) as nat == b as nat + 1
  {
  }

  /** The byte whose value is x, counted up from 0 in bv8 arithmetic. */
  function ByteOf(x: nat): (b: bv8)
    requires x < 256
    ensures b as nat == x
  {
    if x == 0 then 0 else ByteSucc(ByteOf(x - 1)); ByteOf(x - 1) + 1
  }

  lemma MulGe(d: int, m: int)
    requires d >= 1 && m > 0
    ensures d * m >= m
  {
    assert (d - 1) * m >= 0;
  }

  lemma MulLe(d: int, m: int)
    requires d <= -1 && m > 0
    ensures d * m <= -m
  {
    assert (-1 - d) * m >= 0;
  }

  /** Quotient and remainder are the unique a and r with y == a * m + r and 0 <= r < m. */
  lemma DivModUnique(y: int, a: int, m: int, r: int)
    requires m > 0 && 0 <= r < m && y == a * m + r
    ensures y % m == r && y / m == a
  {
    var q := y / m;
    var e := y % m;
    assert y == q * m + e;
    var d := q - a;
    assert d * m == r - e;
    if d >= 1 {
      MulGe(d, m);
    } else if d <= -1 {
      MulLe(d, m);
    }
  }

  /** Padding by (m - len % m) % m reaches a multiple of m, and pads nothing onto a multiple. */
  lemma PaddingReachesMultiple(len: nat, m: int)
    requires m > 0
    ensures 0 <= (m - len % m) % m < m
    ensures (len + (m - len % m) % m) % m == 0
    ensures len % m == 0 ==> (m - len % m) % m == 0
  {
    var r := len % m;
    var q := len / m;
    DivModUnique(len, q, m, r);
    if r == 0 {
      DivModUnique(m, 1, m, 0);
      DivModUnique(len, q, m, 0);
    } else {
      DivModUnique(m - r, 0, m, m - r);
      DivModUnique(len + (m - r), q + 1, m, 0);
    }
  }

  lemma ModTransitive(n: nat, m: nat, p: nat)
    requires m > 0 && p > 0 && n % m == 0 && m % p == 0
    ensures n % p == 0
  {
    var a := n / m;
    var b := m / p;
    DivModUnique(n, a, m, 0);
    DivModUnique(m, b, p, 0);
    assert n == a * (b * p);
    assert n == (a * b) * p;
    DivModUnique(n, a * b, p, 0);
  }

  lemma MultipleMinus(n: nat, m: nat)
    requires m > 0 && n >= m && n % m == 0
    ensures (n - m) % m == 0
  {
    var q := n / m;
    DivModUnique(n, q, m, 0);
    DivModUnique(n - m, q - 1, m, 0);
  }

  lemma MultiplePlus(n: nat, m: nat)
    requires m > 0 && n % m == 0
    ensures (n + m) % m == 0
  {
    var q := n / m;
    DivModUnique(n, q, m, 0);
    DivModUnique(n + m, q + 1, m, 0);
  }

  lemma MultipleTimes(q: nat, m: nat)
    requires m > 0
    ensures (q * m) % m == 0 && (q * m) / m == q
  {
    DivModUnique(q * m, q, m, 0);
  }
}
