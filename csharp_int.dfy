/** C# integer semantics that differ from Dafny's unbounded, Euclidean `int`:
    the remainder `%` that truncates toward zero, `Math.Abs`, the 32-bit
    wrap-around of `int`, and the shift operators, which use only the low five
    bits of the shift count. */
module CSharpInt {

  function Abs(x: int): (r: int)
    ensures r >= 0 && (r == x || r == -x)
  {
    if x < 0 then -x else x
  }

  /** C#'s `a % b`: the sign follows the dividend. */
  function TruncRem(a: int, b: int): (r: int)
    requires b != 0
    ensures a >= 0 ==> r == a % b
    ensures Abs(r) < Abs(b)
    ensures a < 0 ==> r <= 0
  {
    if a >= 0 then a % b else -((-a) % b)
  }

  /** The cast of a `float` or `double` to `int`, which drops the fraction. */
  function TruncToInt(x: real): (r: int)
    ensures 0.0 <= x ==> r >= 0 && r as real <= x < r as real + 1.0
    ensures x < 0.0 ==> r <= 0 && r as real - 1.0 < x <= r as real
  {
    if x >= 0.0 then x.Floor else -((-x).Floor)
  }

  /** `(int)Math.Ceiling((double)a / b)` for a positive divisor, with the
      division carried out exactly. */
  function CeilDiv(a: int, b: int): int
    requires b > 0
  {
    -((-a) / b)
  }

  function Pow2(k: nat): (p: nat)
    ensures p >= 1
  {
    if k == 0 then 1 else 2 * Pow2(k - 1)
  }

  lemma {:induction false} Pow2Add(a: nat, b: nat)
    ensures Pow2(a + b) == Pow2(a) * Pow2(b)
  {
    if a > 0 {
      Pow2Add(a - 1, b);
      assert Pow2(a + b) == 2 * Pow2(a - 1 + b);
    }
  }

  lemma {:induction false} Pow2Monotone(a: nat, b: nat)
    requires a <= b
    ensures Pow2(a) <= Pow2(b)
  {
    if a < b {
      Pow2Monotone(a, b - 1);
    }
  }

  /** Dividing a power of two by a smaller one. */
  lemma Pow2Div(a: nat, b: nat)
    ensures Pow2(a + b) / Pow2(b) == Pow2(a)
    ensures Pow2(a + b) % Pow2(b) == 0
  {
    Pow2Add(a, b);
    DivExact(Pow2(a), Pow2(b));
  }

  lemma DivExact(q: int, n: int)
    requires n > 0
    ensures (q * n) / n == q && (q * n) % n == 0
  {
    var t := q * n;
    assert t == (t / n) * n + t % n;
    assert (t / n - q) * n == - (t % n);
    SmallMultiple(t / n - q, n);
  }

  /** A multiple of `n` strictly between -n and n is 0. */
  lemma SmallMultiple(x: int, n: int)
    requires n > 0 && -n < x * n < n
    ensures x == 0
  {
  }

  /** The C# remainder of a non-negative number lies between 0 and the
      number, whatever the sign of the divisor. */
  lemma TruncRemBelow(a: int, b: int)
    requires a >= 0 && b != 0
    ensures 0 <= TruncRem(a, b) <= a
  {
    var n := Abs(b);
    var q := a / b;
    assert a == q * b + a % b;
    var x := if b > 0 then q else -q;
    assert x * n == q * b;
    if a < n {
      SmallMultiple(x, n);
    }
  }

  /** A non-negative number below the divisor divides to 0. */
  lemma DivSmall(a: int, b: int)
    requires 0 <= a < b
    ensures a / b == 0
  {
    assert a == (a / b) * b + a % b;
    SmallMultiple(a / b, b);
  }

  /** Adding a whole number of `n`s does not change a remainder modulo `n`. */
  lemma ModMultiple(t: int, k: int, r: int, n: int)
    requires n > 0 && t == k * n + r
    ensures t % n == r % n
  {
    var q := r / n;
    assert r == q * n + r % n;
    assert t == (k + q) * n + r % n;
    assert t == (t / n) * n + t % n;
    var x := t / n - (k + q);
    assert x * n == r % n - t % n;
    SmallMultiple(x, n);
  }

  const TwoTo31: int := 0x8000_0000
  const TwoTo32: int := 0x1_0000_0000

  predicate IsInt32(x: int)
  {
    -TwoTo31 <= x < TwoTo31
  }

  /** The 32-bit two's-complement value of `x`. */
  function ToInt32(x: int): (r: int)
    ensures IsInt32(r)
    ensures IsInt32(x) ==> r == x
  {
    (x + TwoTo31) % TwoTo32 - TwoTo31
  }

  /** `x << count` on an `int`. */
  function ShiftLeft(x: int, count: int): int
  {
    ToInt32(x * Pow2(count % 32))
  }

  /** `x >> count` on an `int`: an arithmetic shift, which rounds toward minus
      infinity just as Dafny's division by a positive number does. */
  function ShiftRight(x: int, count: int): int
  {
    x / Pow2(count % 32)
  }

  /** Powers of two up to `2^30` are 32-bit values. */
  lemma Pow2IsInt32(e: nat)
    requires e <= 30
    ensures IsInt32(Pow2(e))
  {
    Pow2Monotone(e, 30);
    assert Pow2(10) == 0x400;
    Pow2Add(10, 10);
    Pow2Add(20, 10);
  }

  /** Shifting a power of two left without overflow adds to the exponent. */
  lemma ShiftLeftPow2(p: nat, c: nat)
    requires p + c <= 30
    ensures ShiftLeft(Pow2(p), c) == Pow2(p + c)
  {
    assert c % 32 == c;
    Pow2Add(p, c);
    Pow2IsInt32(p + c);
  }

  /** Shifting a power of two right by at most its exponent subtracts from the
      exponent; shifting it further leaves nothing. */
  lemma ShiftRightPow2(p: nat, c: nat)
    requires c < 32
    ensures c <= p ==> ShiftRight(Pow2(p), c) == Pow2(p - c)
    ensures p < c ==> ShiftRight(Pow2(p), c) == 0
  {
    assert c % 32 == c;
    if c <= p {
      Pow2Div(p - c, c);
    } else {
      Pow2Monotone(p + 1, c);
      assert Pow2(p + 1) == 2 * Pow2(p);
      DivSmall(Pow2(p), Pow2(c));
    }
  }
}
