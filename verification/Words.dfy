// 64-bit unsigned words; wrap-around is written out where the source relies on it.
module Words {

  const TWO64: nat := 0x1_0000_0000_0000_0000
  const MAX_U64: nat := TWO64 - 1
  const MAX_I64: nat := 0x7FFF_FFFF_FFFF_FFFF

  type u64 = x: int | 0 <= x < 0x1_0000_0000_0000_0000
  type byte = x: int | 0 <= x < 256

  // a + b modulo 2^64, with the source's "did not wrap" flag.
  function AddUint64(a: u64, b: u64): (u64, bool)
  {
    var c := (a + b) % TWO64;
    (c, c >= a)
  }

  // a * b modulo 2^64, with the source's division test for wrap-around.
  function MulUint64(a: u64, b: u64): (u64, bool)
  {
    if a == 0 || b == 0 then (0, true)
    else
      var c := WrapMul(a, b);
      (c, c / a == b)
  }

  function WrapMul(a: u64, b: u64): u64
  {
    (a * b) % TWO64
  }

  // The addition flag is exact: it is true precisely when nothing wrapped, and
  // then the word is the mathematical sum.
  lemma AddIsExact(a: u64, b: u64)
    ensures AddUint64(a, b).1 <==> a + b <= MAX_U64
    ensures AddUint64(a, b).1 ==> AddUint64(a, b).0 == a + b
  {
    if a + b >= TWO64 {
      assert (a + b) % TWO64 == a + b - TWO64;
    }
  }

  // The division test is exact too.
  lemma MulIsExact(a: u64, b: u64)
    ensures MulUint64(a, b).1 <==> a * b <= MAX_U64
    ensures MulUint64(a, b).1 ==> MulUint64(a, b).0 == a * b
  {
    if a != 0 && b != 0 {
      var p, c := a * b, WrapMul(a, b);
      if p < TWO64 {
        ModSmall(p);
        QuotientOf(a, b);
      } else {
        ModBelow(p);
        BelowProduct(a, b, c);
      }
    }
  }

  lemma ModSmall(p: nat)
    requires p < TWO64
    ensures p % TWO64 == p
  {}

  lemma ModBelow(p: nat)
    requires p >= TWO64
    ensures p % TWO64 <= p - TWO64
  {}

  // Quotient and remainder are determined by q * a + r with r < a.
  lemma QuotientIs(n: nat, a: nat, q: nat, r: nat)
    requires a > 0 && r < a && n == q * a + r
    ensures n / a == q
  {
    var d := n / a - q;
    assert d * a == r - n % a;
    MulMonotone(d, a);
  }

  lemma MulMonotone(d: int, a: nat)
    ensures d >= 1 ==> d * a >= a
    ensures d <= -1 ==> d * a <= -(a as int)
  {}

  lemma QuotientOf(a: nat, b: nat)
    requires a > 0
    ensures (a * b) / a == b
  {
    QuotientIs(a * b, a, b, 0);
  }

  lemma BelowProduct(a: nat, b: nat, c: nat)
    requires 0 < a < TWO64 && b > 0 && c <= a * b - TWO64
    ensures c / a != b
  {
    assert c == (c / a) * a + c % a;
    assert b * a == a * b;
  }
}
