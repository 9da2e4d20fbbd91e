/** Powers of two and remainders. */
module Powers {
  import opened Common

  function Pow2(n: nat): (p: nat)
    ensures p > 0
  {
    if n == 0 then 1 else 2 * Pow2(n - 1)
  }

  lemma Pow2Of64()
    ensures Pow2(64) == TWO_TO_64
  {
    assert Pow2(8) == 256 by { assert Pow2(4) == 16; }
    Pow2Add(8, 8);
    Pow2Add(16, 16);
    Pow2Add(32, 32);
  }

  lemma {:induction false} Pow2Add(m: nat, n: nat)
    ensures Pow2(m + n) == Pow2(m) * Pow2(n)
  {
    if m > 0 { Pow2Add(m - 1, n); }
  }

  lemma {:induction false} Pow2Grows(k: nat, w: nat)
    requires k <= w
    ensures Pow2(k) <= Pow2(w)
  {
    if k < w { Pow2Grows(k, w - 1); }
  }

  lemma Pow2Increases(k: nat, w: nat)
    requires k < w
    ensures Pow2(k) < Pow2(w)
  {
    Pow2Grows(k, w - 1);
  }

  lemma Difference(d: nat, a: int, b: int)
    ensures d * a - d * b == d * (a - b)
  {
  }

  lemma AtLeast(d: nat, e: int)
    ensures 1 <= e ==> d <= d * e
    ensures e <= -1 ==> d * e + d <= 0
  {
    Difference(d, e, 1);
    Difference(d, e, -1);
    Signs(d, e - 1);
    Signs(d, e + 1);
  }

  lemma Signs(d: nat, e: int)
    ensures 0 <= e ==> 0 <= d * e
    ensures e <= 0 ==> d * e <= 0
  {
  }

  lemma RemainderIs(x: nat, d: nat, q: nat, r: nat)
    requires x == d * q + r && r < d
    ensures x % d == r
  {
    var p := x / d;
    assert x == d * p + x % d;
    Difference(d, q, p);
    AtLeast(d, q - p);
  }

  /** The remainder by twice m is found one bit at a time. */
  lemma RemainderBit(x: nat, m: nat)
    requires 0 < m
    ensures x % (2 * m) == x % 2 + 2 * (x / 2 % m)
  {
    var h := x / 2;
    var q, r := h / m, h % m;
    assert h == m * q + r;
    assert 2 * (m * q) == 2 * m * q;
    RemainderIs(x, 2 * m, q, 2 * r + x % 2);
  }
}
