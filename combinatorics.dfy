/** Counting in services/StatService.ts: `factorial`,
    `calculateCombinations`, `calculatePermutations`,
    `calculateBasicProbability` and `calculateConditionalProbability`. */
module Combinatorics {
  import opened Wrappers
  import opened Numerics

  /** The binomial coefficient by Pascal's rule: the reference the loops
      are proved against. */
  function Choose(n: nat, k: nat): nat {
    if k > n then 0
    else if k == 0 || k == n then 1
    else Choose(n - 1, k - 1) + Choose(n - 1, k)
  }

  /** n (n-1) ... (n-r+1), the count of ordered selections. */
  function FallingFact(n: nat, r: nat): nat
    requires r <= n
  {
    if r == 0 then 1 else FallingFact(n, r - 1) * (n - r + 1)
  }

  /** The arithmetic of one Pascal step: if a (k-1)! (n-k)! = (n-1)! and
      b k! (n-k-1)! = (n-1)!, then (a + b) k! (n-k)! = n (n-1)!. */
  lemma PascalArith(a: int, b: int, k: int, n: int, fk1: int, fnk1: int, f1: int)
    requires a * fk1 * ((n - k) * fnk1) == f1
    requires b * (k * fk1) * fnk1 == f1
    ensures (a + b) * (k * fk1) * ((n - k) * fnk1) == n * f1
  {
    var x, y := k * fk1, (n - k) * fnk1;
    calc {
      (a + b) * x * y;
      a * x * y + b * x * y;
      { assert a * x * y == k * (a * fk1 * y); }
      k * (a * fk1 * y) + b * x * y;
      { assert b * x * y == (n - k) * (b * x * fnk1); }
      k * f1 + (n - k) * (b * x * fnk1);
      k * f1 + (n - k) * f1;
      n * f1;
    }
  }

  lemma {:induction false} ChooseFactorial(n: nat, k: nat)
    requires k <= n
    ensures Choose(n, k) * Fact(k) * Fact(n - k) == Fact(n)
  {
    if 0 < k < n {
      ChooseFactorial(n - 1, k - 1);
      ChooseFactorial(n - 1, k);
      assert n - 1 - (k - 1) == n - k && n - 1 - k == n - k - 1;
      assert Fact(k) == k * Fact(k - 1);
      assert Fact(n - k) == (n - k) * Fact(n - k - 1);
      assert Fact(n) == n * Fact(n - 1);
      PascalArith(Choose(n - 1, k - 1), Choose(n - 1, k), k, n, Fact(k - 1), Fact(n - k - 1), Fact(n - 1));
    }
  }

  lemma CancelPositive(a: int, b: int, c: int)
    requires 0 < c && a * c == b * c
    ensures a == b
  {
  }

  /** C(n, k) = C(n, n - k), which is why the source may replace k by n - k
      when k > n/2. */
  lemma ChooseSymmetric(n: nat, k: nat)
    requires k <= n
    ensures Choose(n, k) == Choose(n, n - k)
  {
    ChooseFactorial(n, k);
    ChooseFactorial(n, n - k);
    assert n - (n - k) == k;
    SymArith(Choose(n, k), Choose(n, n - k), Fact(k), Fact(n - k), Fact(n));
  }

  lemma SymArith(c1: int, c2: int, x: int, y: int, f: int)
    requires 0 < x && 0 < y && c1 * x * y == f && c2 * y * x == f
    ensures c1 == c2
  {
    assert c1 * (x * y) == c2 * (x * y);
    Positive(x, y);
    CancelPositive(c1, c2, x * y);
  }

  lemma Positive(x: int, y: int)
    requires 0 < x && 0 < y
    ensures 0 < x * y
  {
  }

  /** The arithmetic of one loop step: from c i! (n-i)! = c' (i-1)! (n-i+1)!
      follows c i = c' (n - i + 1). */
  lemma StepArith(c: int, c1: int, i: int, n: int, fi1: int, fni: int)
    requires 0 < fi1 && 0 < fni
    requires c * (i * fi1) * fni == c1 * fi1 * ((n - i + 1) * fni)
    ensures c * i == c1 * (n - i + 1)
  {
    assert (c * i) * (fi1 * fni) == c * (i * fi1) * fni;
    assert (c1 * (n - i + 1)) * (fi1 * fni) == c1 * fi1 * ((n - i + 1) * fni);
    Positive(fi1, fni);
    CancelPositive(c * i, c1 * (n - i + 1), fi1 * fni);
  }

  /** One step of the multiplicative loop: C(n, i) * i = C(n, i - 1) * (n - i + 1). */
  lemma ChooseStep(n: nat, i: nat)
    requires 1 <= i <= n
    ensures Choose(n, i) * i == Choose(n, i - 1) * (n - i + 1)
  {
    ChooseFactorial(n, i);
    ChooseFactorial(n, i - 1);
    assert n - (i - 1) == n - i + 1;
    assert Fact(i) == i * Fact(i - 1);
    assert Fact(n - i + 1) == (n - i + 1) * Fact(n - i);
    StepArith(Choose(n, i), Choose(n, i - 1), i, n, Fact(i - 1), Fact(n - i));
  }

  /** n! / (n - r)! is the falling factorial, and equals C(n, r) r!. */
  lemma {:induction false} FallingFactorial(n: nat, r: nat)
    requires r <= n
    ensures FallingFact(n, r) * Fact(n - r) == Fact(n)
    ensures FallingFact(n, r) == Choose(n, r) * Fact(r)
  {
    if r > 0 {
      FallingFactorial(n, r - 1);
      assert n - (r - 1) == n - r + 1;
      assert Fact(n - r + 1) == (n - r + 1) * Fact(n - r);
      ShiftArith(FallingFact(n, r), FallingFact(n, r - 1), n - r + 1, Fact(n - r), Fact(n));
    }
    ChooseFactorial(n, r);
    QuotientArith(FallingFact(n, r), Choose(n, r), Fact(r), Fact(n - r), Fact(n));
  }

  lemma ShiftArith(ff: int, f: int, t: int, g: int, total: int)
    requires ff == f * t && f * (t * g) == total
    ensures ff * g == total
  {
  }

  lemma QuotientArith(ff: int, c: int, x: int, g: int, total: int)
    requires 0 < g && ff * g == total && c * x * g == total
    ensures ff == c * x
  {
    CancelPositive(ff, c * x, g);
  }

  // ----- factorial -----

  /** A JavaScript number that the model keeps apart from the reals:
      `Infinity` and `NaN`. */
  datatype Extended = Finite(value: real) | Infinite | NotANumber

  const FACTORIAL_LIMIT: nat := 170

  /** `factorial(n)`: NaN below 0, Infinity above 170, n! otherwise. */
  function FactorialOf(n: int): (r: Extended)
    ensures 0 <= n <= FACTORIAL_LIMIT <==> r.Finite?
    ensures r.Finite? ==> 1.0 <= r.value
  {
    if n < 0 then NotANumber
    else if n > FACTORIAL_LIMIT then Infinite
    else Finite(Fact(n) as real)
  }

  method Factorial(n: int) returns (r: Extended)
    ensures r == FactorialOf(n)
  {
    if n < 0 {
      return NotANumber;
    }
    if n > FACTORIAL_LIMIT {
      return Infinite;
    }
    if n == 0 || n == 1 {
      return Finite(1.0);
    }
    var result: real := 1.0;
    for i := 2 to n + 1
      invariant result == Fact(i - 1) as real
    {
      result := result * i as real;
    }
    r := Finite(result);
  }

  // ----- combinations -----

  const EXACT_COMBINATIONS_LIMIT: nat := 30

  /** The `logFactorial` closure: log 1 + log 2 + ... + log num. */
  function LogFactorialOf(m: Math, num: nat): real {
    if num == 0 then 0.0 else LogFactorialOf(m, num - 1) + m.log(num as real)
  }

  method LogFactorial(m: Math, num: nat) returns (sum: real)
    ensures sum == LogFactorialOf(m, num)
  {
    sum := 0.0;
    for i := 1 to num + 1
      invariant sum == LogFactorialOf(m, i - 1)
    {
      sum := sum + m.log(i as real);
    }
  }

  /** `calculateCombinations(n, k)`: 0 outside 0 <= k <= n, 1 at the ends;
      otherwise k is replaced by n - k when k > n/2, and the result is the
      exact multiplicative product up to n = 30 and the rounded
      exponential of a log-factorial difference above. */
  function CombinationsOf(n: int, k: int, m: Math): real {
    if k < 0 || k > n then 0.0
    else if k == 0 || k == n then 1.0
    else
      var kk := if k as real > n as real / 2.0 then n - k else k;
      if n > EXACT_COMBINATIONS_LIMIT then
        Round(m.exp(LogFactorialOf(m, n) - LogFactorialOf(m, kk) - LogFactorialOf(m, n - kk))) as real
      else
        Choose(n, kk) as real
  }

  method Combinations(n: int, k: int, m: Math) returns (res: real)
    ensures res == CombinationsOf(n, k, m)
  {
    if k < 0 || k > n {
      return 0.0;
    }
    if k == 0 || k == n {
      return 1.0;
    }
    var kk := k;
    if kk as real > n as real / 2.0 {
      kk := n - kk;
    }
    if n > EXACT_COMBINATIONS_LIMIT {
      var ln := LogFactorial(m, n);
      var lk := LogFactorial(m, kk);
      var lnk := LogFactorial(m, n - kk);
      return Round(m.exp(ln - lk - lnk)) as real;
    }
    res := MultiplicativeChoose(n, kk);
  }

  /** The loop `res = res * (n - i + 1) / i` for i = 1..k: after step i it
      holds C(n, i). */
  method MultiplicativeChoose(n: nat, k: nat) returns (res: real)
    requires k <= n
    ensures res == Choose(n, k) as real
  {
    res := 1.0;
    for i := 1 to k + 1
      invariant res == Choose(n, i - 1) as real
    {
      NextChoose(n, i, res);
      res := res * (n - i + 1) as real / i as real;
    }
  }

  /** One step of the loop takes C(n, i - 1) to C(n, i). */
  lemma NextChoose(n: nat, i: nat, res: real)
    requires 1 <= i <= n && res == Choose(n, i - 1) as real
    ensures res * (n - i + 1) as real / i as real == Choose(n, i) as real
  {
    ChooseStep(n, i);
    DivStep(res, Choose(n, i), Choose(n, i - 1), n - i + 1, i);
  }

  lemma DivStep(res: real, c: int, c1: int, t: int, i: int)
    requires 0 < i && c * i == c1 * t && res == c1 as real
    ensures res * t as real / i as real == c as real
  {
    assert (c * i) as real == c as real * i as real;
    assert (c1 * t) as real == c1 as real * t as real;
  }

  /** Up to n = 30 the result is the binomial coefficient C(n, k), which
      `ChooseFactorial` shows to be n!/(k!(n-k)!), and 0 outside
      0 <= k <= n. */
  lemma CombinationsIsChoose(n: int, k: int, m: Math)
    requires n <= EXACT_COMBINATIONS_LIMIT
    ensures 0 <= k <= n ==> CombinationsOf(n, k, m) == Choose(n, k) as real
    ensures !(0 <= k <= n) ==> CombinationsOf(n, k, m) == 0.0
  {
    if 0 <= k <= n {
      ChooseSymmetric(n, k);
    }
  }

  // ----- permutations -----

  /** `calculatePermutations(n, r)`: 0 outside 0 <= r <= n; above 170 with
      r < n - 170 the product n (n-1) ... (n-r+1); otherwise
      factorial(n) / factorial(n - r), which is Infinity once n > 170.  The
      source's two guards for a zero denominator are not written: a
      factorial is never 0. */
  function PermutationsOf(n: int, r: int): Extended {
    if r < 0 || r > n then Finite(0.0)
    else if n > FACTORIAL_LIMIT && r < n - FACTORIAL_LIMIT then Finite(FallingFact(n, r) as real)
    else if n > FACTORIAL_LIMIT then Infinite
    else Finite(Fact(n) as real / Fact(n - r) as real)
  }

  method Permutations(n: int, r: int) returns (res: Extended)
    ensures res == PermutationsOf(n, r)
  {
    if r < 0 || r > n {
      return Finite(0.0);
    }
    if n > FACTORIAL_LIMIT && r < n - FACTORIAL_LIMIT {
      var acc: real := 1.0;
      for i := 0 to r
        invariant acc == FallingFact(n, i) as real
      {
        acc := acc * (n - i) as real;
      }
      return Finite(acc);
    }
    var num := Factorial(n);
    var den := Factorial(n - r);
    if num.Infinite? {
      return Infinite;
    }
    res := Finite(num.value / den.value);
  }

  /** nPr counts the ordered selections: n!/(n-r)! = C(n, r) r! whenever it
      is finite, 0 outside 0 <= r <= n, and Infinity only when n > 170 and
      n - r <= 170. */
  lemma PermutationsCount(n: int, r: int)
    ensures !(0 <= r <= n) ==> PermutationsOf(n, r) == Finite(0.0)
    ensures 0 <= r <= n && (n <= FACTORIAL_LIMIT || r < n - FACTORIAL_LIMIT) ==>
      PermutationsOf(n, r) == Finite(FallingFact(n, r) as real)
      && FallingFact(n, r) == Choose(n, r) * Fact(r)
    ensures PermutationsOf(n, r).Infinite? <==> 0 <= r <= n && n > FACTORIAL_LIMIT && r >= n - FACTORIAL_LIMIT
  {
    if 0 <= r <= n {
      FallingFactorial(n, r);
      if n <= FACTORIAL_LIMIT {
        RealQuotient(FallingFact(n, r), Fact(n - r), Fact(n));
      }
    }
  }

  lemma RealQuotient(a: int, b: int, total: int)
    requires 0 < b && a * b == total
    ensures total as real / b as real == a as real
  {
    assert (a * b) as real == a as real * b as real;
  }

  // ----- basic and conditional probability -----

  /** `calculateBasicProbability`: favorable / possible, NaN when there
      are no possible cases. */
  function BasicProbability(favorable: real, possible: real): Option<real> {
    if possible == 0.0 then None else Some(favorable / possible)
  }

  /** `calculateConditionalProbability`: P(A and B) / P(B), NaN when
      P(B) = 0. */
  function ConditionalProbability(probIntersection: real, probB: real): Option<real> {
    if probB == 0.0 then None else Some(probIntersection / probB)
  }

  /** Both quotients are NaN exactly when the denominator is 0, and lie in
      [0, 1] when the numerator is between 0 and a positive denominator. */
  lemma ProbabilityQuotients(num: real, den: real)
    ensures BasicProbability(num, den).None? <==> den == 0.0
    ensures ConditionalProbability(num, den).None? <==> den == 0.0
    ensures 0.0 <= num <= den && 0.0 < den ==>
      0.0 <= BasicProbability(num, den).value <= 1.0 && BasicProbability(num, den) == ConditionalProbability(num, den)
  {
    if 0.0 <= num <= den && 0.0 < den {
      assert num / den <= den / den;
    }
  }
}
