/** Integer division that truncates toward zero. */
module Division {

  function Abs(x: int): nat {
    if x < 0 then -x else x
  }

  function TruncDiv(x: int, y: int): int
    requires y != 0
  {
    var q := Abs(x) / Abs(y);
    if (x < 0) == (y < 0) then q else -q
  }

  function TruncRem(x: int, y: int): int
    requires y != 0
  {
    x - y * TruncDiv(x, y)
  }

  function Times(d: int, k: int): int { d * k }

  ghost predicate Divides(d: int, x: int) {
    exists k: int :: x == Times(d, k)
  }

  lemma DividesZero(d: int)
    ensures Divides(d, 0)
  {
    assert 0 == Times(d, 0);
  }

  lemma DividesCombination(d: int, x: int, q: int, y: int)
    requires Divides(d, x) && Divides(d, y)
    ensures Divides(d, x - q * y)
  {
    var k, l :| x == Times(d, k) && y == Times(d, l);
    assert x - q * y == Times(d, k - q * l) by {
      assert q * (d * l) == d * (q * l);
    }
  }

  /** The remainder is smaller than the divisor, and it vanishes exactly on multiples. */
  lemma RemainderMeaning(x: int, y: int)
    requires y != 0
    ensures Abs(TruncRem(x, y)) < Abs(y)
    ensures TruncRem(x, y) == 0 <==> Divides(y, x)
    ensures TruncRem(x, y) == 0 ==> x == y * TruncDiv(x, y)
  {
    RemainderSmall(x, y);
    if TruncRem(x, y) == 0 {
      assert x == Times(y, TruncDiv(x, y));
    }
    if Divides(y, x) {
      var k :| x == Times(y, k);
      SmallMultiple(y, k, TruncDiv(x, y));
    }
  }

  /** Two multiples of y less than |y| apart are equal. */
  lemma SmallMultiple(y: int, k: int, l: int)
    requires y != 0 && Abs(y * k - y * l) < Abs(y)
    ensures k == l
  {
    if k != l {
      assert y * k - y * l == y * (k - l);
      ProductAtLeast(y, k - l);
    }
  }

  lemma ProductAtLeast(y: int, e: int)
    requires e != 0
    ensures Abs(y * e) >= Abs(y)
  {
    if e >= 1 {
      if y >= 0 { assert y * e >= y; } else { assert y * e <= y; }
    } else {
      if y >= 0 { assert y * e <= -y; } else { assert y * e >= -y; }
    }
  }

  lemma RemainderSmall(x: int, y: int)
    requires y != 0
    ensures Abs(TruncRem(x, y)) < Abs(y)
  {
    var ax, ay := Abs(x), Abs(y);
    var q: int := ax / ay;
    assert ax == ay * q + ax % ay;
    if (x < 0) == (y < 0) {
      assert y * q == if y < 0 then -(ay * q) else ay * q;
    } else {
      assert y * -q == if y < 0 then ay * q else -(ay * q);
    }
  }

  /** A multiple of d is d times its truncated quotient; the quotient is unique. */
  lemma QuotientUnique(d: int, x: int, k: int)
    requires d != 0 && x == d * k
    ensures TruncRem(x, d) == 0 && TruncDiv(x, d) == k
  {
    assert x == Times(d, k);
    RemainderMeaning(x, d);
    SmallMultiple(d, k, TruncDiv(x, d));
  }
}
