/** Division facts the solver needs spelled out, and 32-bit wrap-around. */
module Arith {

  function Min(a: nat, b: nat): nat { if a < b then a else b }

  /** The value in an unsigned 32-bit variable. */
  function Wrap32(a: nat): (r: nat)
    ensures r < 0x1_0000_0000
  {
    a % 0x1_0000_0000
  }

  /** Division, by name. */
  function Over(a: nat, d: nat): nat
    requires 0 < d
  {
    a / d
  }

  lemma OverAdd(a: nat, d: nat)
    requires 0 < d
    ensures Over(a + d, d) == Over(a, d) + 1
  {
    var q, r := a / d, a % d;
    OverIs(a + d, d, q + 1, r) by { assert (q + 1) * d == q * d + d; }
  }

  lemma OverIs(a: nat, d: nat, q: nat, m: nat)
    requires 0 < d && a == q * d + m && m < d
    ensures Over(a, d) == q
  {
    DivUnique(a, d, q, m);
  }

  lemma OverSmall(a: nat, d: nat)
    requires a < d
    ensures Over(a, d) == 0
  {
    assert 0 * d == 0;
    OverIs(a, d, 0, a);
  }

  lemma OverMonotone(a: nat, b: nat, d: nat)
    requires 0 < d && a <= b
    ensures Over(a, d) <= Over(b, d)
  {
    var x, q := a / d, b / d;
    NonZeroMultiple(x - q, d);
    assert (x - q) * d == x * d - q * d;
    assert a == x * d + a % d && b == q * d + b % d;
  }

  function CeilDiv(a: nat, b: nat): nat
    requires 0 < b
  {
    Over(a + b - 1, b)
  }

  lemma CeilStep(len: nat, blen: nat)
    requires 0 < blen
    ensures len > blen ==> CeilDiv(len, blen) == 1 + CeilDiv(len - blen, blen)
    ensures 0 < len <= blen ==> CeilDiv(len, blen) == 1
    ensures CeilDiv(0, blen) == 0
  {
    hide Over;
    OverSmall(blen - 1, blen);
    if 0 < len {
      OverAdd(len - 1, blen);
      assert len - 1 + blen == len + blen - 1;
      if len <= blen { OverSmall(len - 1, blen); } else { assert len - blen + blen - 1 == len - 1; }
    }
  }

  lemma DivUnique(a: nat, b: nat, q: nat, m: nat)
    requires 0 < b && a == q * b + m && m < b
    ensures a / b == q && a % b == m
  {
    assert (a / b - q) * b == (a / b) * b - q * b == m - a % b;
    NonZeroMultiple(a / b - q, b);
  }

  lemma NonZeroMultiple(d: int, b: nat)
    ensures d >= 1 ==> d * b >= b
    ensures d <= -1 ==> d * b <= -(b as int)
  {
    if d >= 1 { assert (d - 1) * b >= 0; }
    if d <= -1 { assert (-d - 1) * b >= 0; }
  }

  lemma WrapAdd(a: nat, b: nat)
    ensures Wrap32(Wrap32(a) + b) == Wrap32(a + b)
    ensures a < 0x1_0000_0000 ==> Wrap32(a) == a
  {
  }

  lemma QuotientOf(h: nat, size: nat)
    requires 0 < size
    ensures h * size / size == h
  {
    DivUnique(h * size, size, h, 0);
  }

  lemma Distribute(x: int, y: int, d: int)
    ensures (x + y) * d == x * d + y * d
  {
  }

  /** Only the remainder of a summand matters. */
  lemma ModPlus(a: nat, b: nat, d: nat)
    requires 0 < d
    ensures (a % d + b) % d == (a + b) % d
  {
    SumRest(a, b, d, a / d, a % d, (a % d + b) / d, (a % d + b) % d);
  }

  lemma SumRest(a: nat, b: nat, d: nat, x: nat, s: nat, q: nat, r: nat)
    requires a == x * d + s && s + b == q * d + r && r < d
    ensures (a + b) % d == r
  {
    Distribute(x, q, d);
    DivUnique(a + b, d, x + q, r);
  }
}
