/**
 * Java's 32-bit `int` and its wrap-around addition and subtraction. The
 * facts about wrapping are lemmas, called where a proof needs them, so that
 * the solver does not reason about remainders everywhere `Wrap` appears.
 */
module JavaInt {

  const MinInt: int := -0x8000_0000
  const MaxInt: int := 0x7fff_ffff
  const Modulus: int := 0x1_0000_0000

  type Int32 = x: int | MinInt <= x <= MaxInt

  predicate InRange(x: int)
  {
    MinInt <= x <= MaxInt
  }

  /** The two's-complement value Java keeps of the mathematical result `x`. */
  function Wrap(x: int): Int32
  {
    (x - MinInt) % Modulus + MinInt
  }

  /** Java's `a + b` on `int`. */
  function Add(a: Int32, b: Int32): (r: Int32)
    ensures InRange(a + b) ==> r == a + b
  {
    WrapSpec(a + b);
    Wrap(a + b)
  }

  /** Java's `a - b` on `int`. */
  function Sub(a: Int32, b: Int32): (r: Int32)
    ensures InRange(a - b) ==> r == a - b
  {
    WrapSpec(a - b);
    Wrap(a - b)
  }

  /** Wrapping keeps the value modulo 2^32, and changes nothing that already fits. */
  lemma WrapSpec(x: int)
    ensures (Wrap(x) - x) % Modulus == 0
    ensures InRange(x) ==> Wrap(x) == x
  {
  }

  /** Sums and differences of multiples of 2^32 are multiples of 2^32. */
  lemma MultiplesCombine(a: int, b: int)
    requires a % Modulus == 0 && b % Modulus == 0
    ensures (a + b) % Modulus == 0 && (a - b) % Modulus == 0
  {
    var ka, kb := a / Modulus, b / Modulus;
    assert a == Modulus * ka;
    assert b == Modulus * kb;
    assert a + b == Modulus * (ka + kb);
    assert a - b == Modulus * (ka - kb);
  }

  /** The `int` that agrees with `x` modulo 2^32 is unique: it is `Wrap(x)`. */
  lemma WrapUnique(r: Int32, x: int)
    requires (r - x) % Modulus == 0
    ensures r == Wrap(x)
  {
    WrapSpec(x);
    var w := Wrap(x);
    MultiplesCombine(r - x, w - x);
    assert r - w == (r - x) - (w - x);
  }

  /** Adding to a wrapped intermediate is adding to the exact value, then wrapping. */
  lemma AddStep(t: Int32, x: int, c: Int32)
    requires t == Wrap(x)
    ensures Add(t, c) == Wrap(x + c)
  {
    WrapSpec(x);
    WrapSpec(t + c);
    MultiplesCombine(Wrap(t + c) - (t + c), t - x);
    assert Wrap(t + c) - (x + c) == (Wrap(t + c) - (t + c)) + (t - x);
    WrapUnique(Wrap(t + c), x + c);
  }

  /** Subtracting from a wrapped intermediate is subtracting from the exact value, then wrapping. */
  lemma SubStep(t: Int32, x: int, c: Int32)
    requires t == Wrap(x)
    ensures Sub(t, c) == Wrap(x - c)
  {
    WrapSpec(x);
    WrapSpec(t - c);
    MultiplesCombine(Wrap(t - c) - (t - c), t - x);
    assert Wrap(t - c) - (x - c) == (Wrap(t - c) - (t - c)) + (t - x);
    WrapUnique(Wrap(t - c), x - c);
  }
}
