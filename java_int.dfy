/** Java's 32-bit `int` arithmetic: every `+` and `*` on `int` wraps modulo 2^32. */
module JavaInt {
  const TwoTo31: int := 0x8000_0000
  const TwoTo32: int := 0x1_0000_0000

  predicate IsInt32(x: int)
  {
    -TwoTo31 <= x < TwoTo31
  }

  /** The `int` a Java expression yields for the mathematical value `x`. */
  function Int32(x: int): (r: int)
    ensures IsInt32(r)
    ensures IsInt32(x) ==> r == x
    ensures (r - x) % TwoTo32 == 0
  {
    (x + TwoTo31) % TwoTo32 - TwoTo31
  }

  /** Values that differ by a multiple of 2^32 wrap to the same `int`. */
  lemma Int32Congruent(x: int, y: int)
    requires (x - y) % TwoTo32 == 0
    ensures Int32(x) == Int32(y)
  {
    var k := (x - y) / TwoTo32;
    assert x == y + k * TwoTo32;
    var a := Int32(x);
    var b := Int32(y);
    assert (a - b) % TwoTo32 == 0 by {
      assert a - b == (a - x) + (x - y) + (y - b);
    }
    var d := (a - b) / TwoTo32;
    assert a - b == d * TwoTo32;
    if d != 0 {
      assert false;
    }
  }

  /** Wrapping an intermediate result does not change the wrapped sum. */
  lemma Int32AddWrapped(a: int, b: int)
    ensures Int32(a + Int32(b)) == Int32(a + b)
  {
    assert (a + Int32(b) - (a + b)) % TwoTo32 == 0 by {
      assert a + Int32(b) - (a + b) == Int32(b) - b;
    }
    Int32Congruent(a + Int32(b), a + b);
  }

  /** Java's `/` on `int`: the quotient truncated toward zero (Dafny's `/` is Euclidean). */
  function JavaDiv(a: int, b: int): (q: int)
    requires b != 0
    ensures a >= 0 && b > 0 ==> q == a / b
  {
    var m := Abs(a) / Abs(b);
    if (a < 0) != (b < 0) then -m else m
  }

  function Abs(x: int): nat
  {
    if x < 0 then -x else x
  }

  /** The remainder left by `JavaDiv` has the dividend's sign and is smaller than the divisor:
      the quotient is truncated, not floored. */
  lemma JavaDivTruncates(a: int, b: int)
    requires b != 0
    ensures var rem := a - JavaDiv(a, b) * b;
      && (rem == 0 || (rem < 0) == (a < 0))
      && Abs(rem) < Abs(b)
  {
    var m := Abs(a) / Abs(b);
    var r0 := Abs(a) % Abs(b);
    assert Abs(a) == m * Abs(b) + r0 && 0 <= r0 < Abs(b);
    var q := JavaDiv(a, b);
    var mb := m * Abs(b);
    if b < 0 {
      assert m * b == -mb;
    } else {
      assert m * b == mb;
    }
    if (a < 0) != (b < 0) {
      assert q * b == -(m * b);
    } else {
      assert q * b == m * b;
    }
    if a < 0 {
      assert q * b == -mb;
      assert a - q * b == -r0;
    } else {
      assert q * b == mb;
      assert a - q * b == r0;
    }
  }
}
