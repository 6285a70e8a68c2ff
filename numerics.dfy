/** Exact-arithmetic stand-ins for the parts of JavaScript's `Math` that the
    calculator uses.  Numbers are reals: there is no rounding, overflow,
    NaN or Infinity inside a `real`, and every place where the source can
    produce NaN is modelled with `Option` instead. */
module Numerics {
  import opened Wrappers

  /** `Math.sqrt`, `Math.exp`, `Math.log` and `Math.log10` are not computed
      by the model: a caller supplies them, and only `Lawful` is assumed of
      them. */
  datatype Math = Math(
    sqrt: real -> real,
    exp: real -> real,
    log: real -> real,
    log10: real -> real)

  /** What the model relies on: a square root of a non-negative number is a
      non-negative number whose square is that number, and `exp` is
      positive and at most 1 on the non-positive numbers. */
  ghost predicate Lawful(m: Math) {
    && (forall x :: 0.0 <= x ==> 0.0 <= m.sqrt(x) && m.sqrt(x) * m.sqrt(x) == x)
    && (forall y :: 0.0 < m.exp(y))
    && (forall y :: y <= 0.0 ==> m.exp(y) <= 1.0)
  }

  lemma SqrtPositive(m: Math, x: real)
    requires Lawful(m) && 0.0 < x
    ensures 0.0 < m.sqrt(x)
  {
    assert m.sqrt(x) * m.sqrt(x) == x;
  }

  /** `Math.sqrt`, which is NaN below zero. */
  function SqrtOf(m: Math, x: real): Option<real> {
    if x < 0.0 then None else Some(m.sqrt(x))
  }

  /** JavaScript `+` on numbers that may be NaN: NaN absorbs. */
  function Plus(a: Option<real>, b: Option<real>): Option<real> {
    if a.Some? && b.Some? then Some(a.value + b.value) else None
  }

  /** JavaScript `-` on numbers that may be NaN. */
  function Minus(a: Option<real>, b: Option<real>): Option<real> {
    if a.Some? && b.Some? then Some(a.value - b.value) else None
  }

  /** JavaScript `/`: a division by zero gives an infinity or NaN, neither
      of which is a real. */
  function Divide(a: real, b: real): Option<real> {
    if b == 0.0 then None else Some(a / b)
  }

  /** `1 - x` on a number that may be NaN. */
  function Complement(a: Option<real>): Option<real> {
    if a.Some? then Some(1.0 - a.value) else None
  }

  /** `Math.floor`. */
  function Floor(x: real): (r: int)
    ensures r as real <= x < r as real + 1.0
  {
    x.Floor
  }

  /** `Math.ceil`. */
  function Ceil(x: real): (r: int)
    ensures r as real - 1.0 < x <= r as real
  {
    -((-x).Floor)
  }

  /** `Math.round`: the nearest integer, halves rounded towards +infinity. */
  function Round(x: real): (r: int)
    ensures x - 0.5 < r as real <= x + 0.5
  {
    (x + 0.5).Floor
  }

  /** `Number.isInteger`. */
  predicate IsInteger(x: real) {
    x.Floor as real == x
  }

  /** `Math.abs`. */
  function Abs(x: real): (r: real)
    ensures 0.0 <= r && (r == x || r == -x)
  {
    if x < 0.0 then -x else x
  }

  function Min(a: real, b: real): (r: real)
    ensures r <= a && r <= b && (r == a || r == b)
  {
    if a <= b then a else b
  }

  function Max(a: real, b: real): (r: real)
    ensures a <= r && b <= r && (r == a || r == b)
  {
    if a <= b then b else a
  }

  /** `Math.pow(x, k)` for a non-negative integer exponent. */
  function Pow(x: real, k: nat): real {
    if k == 0 then 1.0 else x * Pow(x, k - 1)
  }

  lemma {:induction false} PowNonNegative(x: real, n: nat)
    requires 0.0 <= x
    ensures 0.0 <= Pow(x, n)
  {
    if n > 0 {
      PowNonNegative(x, n - 1);
    }
  }

  /** n! as an exact natural number. */
  function Fact(n: nat): (r: nat)
    ensures 1 <= r
  {
    if n == 0 then 1 else n * Fact(n - 1)
  }

  /** Left-to-right sum, the order of `reduce((acc, v) => acc + v, 0)`. */
  function Sum(s: seq<real>): real {
    if s == [] then 0.0 else Sum(s[..|s| - 1]) + s[|s| - 1]
  }

  lemma SumPrefixStep(s: seq<real>, i: nat)
    requires i < |s|
    ensures Sum(s[..i + 1]) == Sum(s[..i]) + s[i]
  {
    assert s[..i + 1][..i] == s[..i];
  }

  lemma {:induction false} SumNonNegative(s: seq<real>)
    requires forall i :: 0 <= i < |s| ==> 0.0 <= s[i]
    ensures 0.0 <= Sum(s)
  {
    if s != [] {
      SumNonNegative(s[..|s| - 1]);
    }
  }

  /** Integer sum, for the tallies of the histogram and the frequency table. */
  function SumNat(s: seq<nat>): nat {
    if s == [] then 0 else SumNat(s[..|s| - 1]) + s[|s| - 1]
  }

  lemma SumNatPrefixStep(s: seq<nat>, i: nat)
    requires i < |s|
    ensures SumNat(s[..i + 1]) == SumNat(s[..i]) + s[i]
  {
    assert s[..i + 1][..i] == s[..i];
  }

  /** A non-negative number over a positive one. */
  lemma QuotientNonNegative(a: real, b: real)
    requires 0.0 <= a && 0.0 < b
    ensures 0.0 <= a / b
  {
  }
}
