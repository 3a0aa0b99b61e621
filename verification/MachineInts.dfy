/** 64-bit results of integer arithmetic, as Go computes them. */
module MachineInts {

  const TWO_63: int := 0x8000_0000_0000_0000
  const TWO_64: int := 0x1_0000_0000_0000_0000

  /** A result kept in a uint64. */
  function ToUint64(x: int): int {
    x % TWO_64
  }

  /** The int64 with the same bits. */
  function ToInt64(x: int): int {
    var u := x % TWO_64;
    if u < TWO_63 then u else u - TWO_64
  }

  /** Division as Go does it, toward zero. */
  function Quotient(a: int, b: int): int
    requires b != 0
  {
    var q := (if a < 0 then -a else a) / (if b < 0 then -b else b);
    ToInt64(if (a < 0) == (b < 0) then q else -q)
  }

  /** The cast difference of two uint64 is the true difference exactly when that fits an int64. */
  lemma SignedDifference(a: int, b: int)
    requires 0 <= a < TWO_64 && 0 <= b < TWO_64
    ensures ToInt64(ToUint64(a - b)) == a - b <==> -TWO_63 <= a - b < TWO_63
  {
    if a >= b {
      assert (a - b) % TWO_64 == a - b;
    } else {
      assert (a - b) % TWO_64 == a - b + TWO_64;
    }
  }

  /** A positive quotient is reached exactly when the multiple is. */
  lemma QuotientAtLeast(a: int, b: int, m: int)
    requires 0 < b && 0 < m && -TWO_63 <= a < TWO_63
    ensures Quotient(a, b) >= m <==> a >= m * b
  {
    if a >= 0 {
      DivideAtLeast(a, b, m);
      DivideBelow(a, b);
    } else {
      DivideBelow(-a, b);
      Multiple(m, b);
    }
  }

  lemma DivideAtLeast(a: int, b: int, m: int)
    requires 0 <= a && 0 < b && 0 < m
    ensures a / b >= m <==> a >= m * b
  {
    var q := a / b;
    assert q * b <= a < q * b + b;
    if q >= m {
      MultipleOrder(m, q, b);
    } else {
      MultipleOrder(q + 1, m, b);
      assert (q + 1) * b == q * b + b;
    }
  }

  lemma MultipleOrder(m: int, n: int, b: int)
    requires m <= n && 0 < b
    ensures m * b <= n * b
  {
  }

  lemma Multiple(m: int, b: int)
    requires 0 < m && 0 < b
    ensures m * b > 0
  {
  }

  lemma DivideBelow(a: int, b: int)
    requires 0 <= a && 0 < b
    ensures 0 <= a / b <= a
  {
    DivideAtLeast(a, b, a + 1);
    MultipleOrder(1, b, a + 1);
    assert (a + 1) * b == b * (a + 1);
    assert a < (a + 1) * b;
  }
}
