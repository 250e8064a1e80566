/**
 * Java `int` arithmetic on unbounded Dafny integers: 32-bit two's complement
 * wrap-around and division/remainder that truncate toward zero.
 */
module JavaInt {

  const MinValue: int := -0x8000_0000
  /** `Integer.MAX_VALUE`. */
  const MaxValue: int := 0x7fff_ffff
  const Modulus: int := 0x1_0000_0000

  type int32 = x: int | -0x8000_0000 <= x <= 0x7fff_ffff

  function Abs(x: int): nat {
    if x < 0 then -x else x
  }

  /** Reduces `x` into the 32-bit range, as Java does on overflow. */
  function Wrap(x: int): (r: int32)
    ensures MinValue <= x <= MaxValue ==> r == x
    ensures (x - r) % Modulus == 0
  {
    (x - MinValue) % Modulus + MinValue
  }

  /** Java `a + b` on two `int`s. */
  function Add(a: int32, b: int32): (r: int32)
    ensures MinValue <= a + b <= MaxValue ==> r == a + b
    ensures (a + b - r) % Modulus == 0
  {
    Wrap(a + b)
  }

  /** The mathematical quotient of `a` by `b`, rounded toward zero. */
  function Quot(a: int, b: int): int
    requires b != 0
  {
    if (a < 0) == (b < 0) then Abs(a) / Abs(b) else -(Abs(a) / Abs(b))
  }

  /** Division of naturals brackets the dividend between two multiples. */
  lemma NatDivBounds(n: nat, d: nat)
    requires d > 0
    ensures 0 <= n / d <= n
    ensures d * (n / d) <= n < d * (n / d + 1)
  {
    var q, m := n / d, n % d;
    assert n == d * q + m && 0 <= m < d;
    assert q <= d * q by {
      if q > 0 {
        MulMonotone(q, d);
      }
    }
    assert d * (q + 1) == d * q + d;
  }

  lemma MulMonotone(q: nat, d: nat)
    requires d >= 1
    ensures q <= d * q
  {
    assert d * q == q + (d - 1) * q;
  }

  /** Quotient and remainder are the only ones that bracket `x` between multiples of `n`. */
  lemma DivModUnique(x: int, n: int, q: int, m: int)
    requires n > 0 && 0 <= m < n && x == n * q + m
    ensures x / n == q && x % n == m
  {
    var k := q - x / n;
    assert n * k == x % n - m;
  }

  lemma QuotAbs(a: int, b: int)
    requires b != 0
    ensures Abs(Quot(a, b)) == Abs(a) / Abs(b)
    ensures Abs(a) / Abs(b) <= Abs(a)
  {
    NatDivBounds(Abs(a), Abs(b));
  }

  /** Java `a / b` on two `int`s; the caller rules out `b == 0`, which throws. */
  function Div(a: int32, b: int32): (r: int32)
    requires b != 0
    ensures a >= 0 && b > 0 ==> r == a / b
    ensures !(a == MinValue && b == -1) ==> r == Quot(a, b)
    ensures a == MinValue && b == -1 ==> r == MinValue
  {
    QuotAbs(a, b);
    NatDivBounds(Abs(a), Abs(b));
    var q := Quot(a, b);
    assert !(a == MinValue && b == -1) ==> MinValue <= q <= MaxValue;
    Wrap(q)
  }

  /**
   * Java division rounds toward zero: the magnitude of the quotient is the
   * largest number of whole divisors that fit in the dividend.
   */
  lemma DivTruncates(a: int32, b: int32)
    requires b != 0 && !(a == MinValue && b == -1)
    ensures Abs(b) * Abs(Div(a, b)) <= Abs(a) < Abs(b) * (Abs(Div(a, b)) + 1)
    ensures Div(a, b) != 0 ==> (Div(a, b) < 0 <==> (a < 0) != (b < 0))
  {
    QuotAbs(a, b);
    NatDivBounds(Abs(a), Abs(b));
  }

  /** Java `a % b` on two `int`s: the sign follows the dividend. */
  function Rem(a: int32, b: int32): (r: int32)
    requires b != 0
    ensures a >= 0 && b > 0 ==> r == a % b
    ensures Abs(r) < Abs(b)
    ensures r != 0 ==> (r < 0 <==> a < 0)
  {
    if a < 0 then -(Abs(a) % Abs(b)) else Abs(a) % Abs(b)
  }

  /** Section 15.17.3 of the Java Language Specification: `(a / b) * b + a % b == a`. */
  lemma DivRemIdentity(a: int32, b: int32)
    requires b != 0
    ensures b * Quot(a, b) + Rem(a, b) == a
  {
    var n, d := Abs(a), Abs(b);
    var q: int, m := n / d, n % d;
    var p := d * q;
    assert p + m == n;
    assert Rem(a, b) == if a < 0 then -m else m;
    if (a < 0) == (b < 0) {
      assert Quot(a, b) == q;
      assert b * q == if b < 0 then -p else p;
    } else {
      assert Quot(a, b) == -q;
      assert b * -q == if b < 0 then p else -p;
    }
  }
}
