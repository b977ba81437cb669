/**
 * The integer and string helpers of maths.py: prime factorisation by
 * repeatedly peeling off the smallest divisor, a tokenizer that splits a
 * string into runs of digits and single other characters, and `product`.
 */
module Maths {

  // ---------------------------------------------------------------------
  // Prime factorisation (maths.py:3-22)
  // ---------------------------------------------------------------------

  /** `p` is a prime: at least 2, and no number from 2 to `p` - 1 divides it. */
  predicate IsPrime(p: int) {
    p >= 2 && forall k :: 2 <= k < p ==> p % k != 0
  }

  /**
   * Where the search `while i < n: if n % i == 0 ...; i += 1` started at
   * `i` stops: the first divisor of `n` from `i` on below `n`, or `n` when
   * there is none (as when `i` >= `n` from the start).
   */
  function SmallestDivisorFrom(n: int, i: int): (d: int)
    requires i >= 2
    ensures i >= n ==> d == n
    ensures i < n ==> i <= d <= n
    ensures d < n ==> n % d == 0
    ensures forall k :: i <= k < d && k < n ==> n % k != 0
    decreases n - i
  {
    if i >= n then n
    else if n % i == 0 then i
    else SmallestDivisorFrom(n, i + 1)
  }

  /** The measure under which `get_prime_factors` terminates: `-n` is next for negative `n`, and a proper quotient for positive. */
  function FactorMeasure(n: int): nat {
    if n < 0 then 1 - n else n
  }

  /**
   * `get_prime_factors(n)`: `[-1]` before the factors of `-n` for negative
   * `n`; otherwise the smallest divisor `d` below `n`, followed by the
   * factors of `n // d`, or `[n]` itself when there is no such divisor.
   */
  function PrimeFactors(n: int): (r: seq<int>)
    ensures |r| > 0
    decreases FactorMeasure(n)
  {
    if n < 0 then [-1] + PrimeFactors(-n)
    else
      var d := SmallestDivisorFrom(n, 2);
      if d < n then
        QuotientBelow(n, d);
        [d] + PrimeFactors(n / d)
      else [n]
  }

  /**
   * `get_prime_factors`: the recursion of the source, with its search loop
   * for the smallest divisor.
   */
  method GetPrimeFactors(n: int) returns (factors: seq<int>)
    ensures factors == PrimeFactors(n)
    decreases FactorMeasure(n)
  {
    var i := 2;
    if n < 0 {
      var rest := GetPrimeFactors(-n);
      return [-1] + rest;
    }
    while i < n
      invariant 2 <= i
      invariant SmallestDivisorFrom(n, 2) == SmallestDivisorFrom(n, i)
      decreases n - i
    {
      if n % i == 0 {
        QuotientBelow(n, i);
        var rest := GetPrimeFactors(n / i);
        return [i] + rest;
      }
      i := i + 1;
    }
    return [n];
  }

  /** The product of the numbers in `xs`, 1 when there are none. */
  function SeqProduct(xs: seq<int>): int {
    if |xs| == 0 then 1 else xs[0] * SeqProduct(xs[1..])
  }

  /** The numbers in `xs` never decrease. */
  predicate Nondecreasing(xs: seq<int>) {
    forall i, j :: 0 <= i < j < |xs| ==> xs[i] <= xs[j]
  }

  /** Multiplying both sides of `a` >= `b` by `c` >= 0. */
  lemma MulMono(a: int, b: int, c: int)
    requires a >= b && c >= 0
    ensures a * c >= b * c
  {
    assert a * c - b * c == (a - b) * c;
  }

  /** Dividing a positive number by 2 or more gives a smaller, non-negative quotient. */
  lemma QuotientBelow(n: int, d: int)
    requires n > 0 && d >= 2
    ensures 0 <= n / d < n
  {
    var q := n / d;
    assert n == d * q + n % d;
    if q >= n {
      MulMono(d, 2, q);
    }
    if q < 0 {
      MulMono(d, 0, -q);
    }
  }

  /** `k` divides every multiple of itself. */
  lemma ModOfMultiple(k: int, t: int)
    requires k > 0
    ensures (k * t) % k == 0
  {
    var x := k * t;
    var u := t - x / k;
    assert x == k * (x / k) + x % k;
    assert k * u == x % k;
    if u >= 1 {
      MulMono(u, 1, k);
    } else if u <= -1 {
      MulMono(-1, u, k);
    }
  }

  /** A multiple of a multiple of `k` is a multiple of `k`. */
  lemma MultipleOfMultiple(k: int, m: int, n: int)
    requires k > 0 && m > 0 && m % k == 0 && n % m == 0
    ensures n % k == 0
  {
    var a, b := m / k, n / m;
    assert m == k * a;
    assert n == m * b;
    assert n == k * (a * b);
    ModOfMultiple(k, a * b);
  }

  /** The smallest divisor of a number from 2 up is a prime. */
  lemma SmallestDivisorIsPrime(n: int)
    requires n >= 2
    ensures IsPrime(SmallestDivisorFrom(n, 2))
  {
    var d := SmallestDivisorFrom(n, 2);
    forall k | 2 <= k < d
      ensures d % k != 0
    {
      if d % k == 0 && d < n {
        MultipleOfMultiple(k, d, n);
      }
    }
  }

  /** The smallest divisor of `n` >= 2 divides it (it is `n` itself when there is no other). */
  lemma SmallestDivisorDivides(n: int)
    requires n >= 2
    ensures n % SmallestDivisorFrom(n, 2) == 0
  {
    if SmallestDivisorFrom(n, 2) == n {
      ModOfMultiple(n, 1);
    }
  }

  /** Every divisor of `n` from 2 up is at least its smallest one. */
  lemma SmallestDivisorIsLeast(n: int, k: int)
    requires n >= 2 && 2 <= k && n % k == 0
    ensures SmallestDivisorFrom(n, 2) <= k
  {
  }

  /** A proper divisor `d` of `n` leaves a cofactor from 2 to `n` - 1. */
  lemma CofactorBounds(n: int, d: int)
    requires 2 <= d < n && n % d == 0
    ensures n == d * (n / d) && 2 <= n / d < n
  {
    QuotientBelow(n, d);
    var q := n / d;
    if q <= 1 {
      MulMono(1, q, d);
    }
  }

  /** Putting a number no larger than any of them in front of numbers in order keeps them in order. */
  lemma PrependInOrder(d: int, rest: seq<int>)
    requires Nondecreasing(rest) && forall i :: 0 <= i < |rest| ==> d <= rest[i]
    ensures Nondecreasing([d] + rest)
  {
  }

  /** Every factor of `n` >= 2 is a prime. */
  lemma {:induction false} FactorsArePrime(n: int)
    requires n >= 2
    ensures forall i :: 0 <= i < |PrimeFactors(n)| ==> IsPrime(PrimeFactors(n)[i])
    decreases n
  {
    var d := SmallestDivisorFrom(n, 2);
    SmallestDivisorIsPrime(n);
    if d < n {
      CofactorBounds(n, d);
      FactorsArePrime(n / d);
      assert PrimeFactors(n) == [d] + PrimeFactors(n / d);
    }
  }

  /**
   * The factors of `n` >= 2 are in nondecreasing order, none smaller than
   * the smallest divisor of `n`: each step peels off the smallest divisor,
   * and the cofactor has no smaller one.
   */
  lemma {:induction false} FactorsInOrder(n: int)
    requires n >= 2
    ensures Nondecreasing(PrimeFactors(n))
    ensures forall i :: 0 <= i < |PrimeFactors(n)| ==> SmallestDivisorFrom(n, 2) <= PrimeFactors(n)[i]
    decreases n
  {
    var d := SmallestDivisorFrom(n, 2);
    if d < n {
      CofactorBounds(n, d);
      var m := n / d;
      FactorsInOrder(m);
      var e := SmallestDivisorFrom(m, 2);
      SmallestDivisorDivides(m);
      ModOfMultiple(m, d);
      assert n == m * d;
      MultipleOfMultiple(e, m, n);
      SmallestDivisorIsLeast(n, e);
      var rest := PrimeFactors(m);
      PrependInOrder(d, rest);
      assert PrimeFactors(n) == [d] + rest;
    }
  }

  /** The factors multiply back to `n`, for every integer `n`. */
  lemma {:induction false} FactorsMultiplyBack(n: int)
    ensures SeqProduct(PrimeFactors(n)) == n
    decreases FactorMeasure(n)
  {
    if n < 0 {
      FactorsMultiplyBack(-n);
    } else {
      var d := SmallestDivisorFrom(n, 2);
      if d < n {
        CofactorBounds(n, d);
        FactorsMultiplyBack(n / d);
        assert PrimeFactors(n)[1..] == PrimeFactors(n / d);
      }
    }
  }

  /**
   * The special cases: 0 gives `[0]`, 1 gives `[1]`, and a negative `n`
   * gives -1 followed by the factors of `-n`, which are primes in order.
   */
  lemma FactorsSpecialCases(n: int)
    ensures PrimeFactors(0) == [0] && PrimeFactors(1) == [1]
    ensures n < 0 ==> PrimeFactors(n) == [-1] + PrimeFactors(-n)
    ensures n < -1 ==> var f := PrimeFactors(n);
      f[0] == -1 && (forall i :: 1 <= i < |f| ==> IsPrime(f[i])) && Nondecreasing(f[1..])
  {
    if n < -1 {
      FactorsArePrime(-n);
      FactorsInOrder(-n);
      assert PrimeFactors(n)[1..] == PrimeFactors(-n);
    }
  }

  /** The first example of the documentation: 6 is 2 times 3. */
  lemma FactorsOfSix()
    ensures PrimeFactors(6) == [2, 3]
  {
    assert SmallestDivisorFrom(3, 2) == 3;
  }

  /** The second example: -8 is -1 times 2 times 2 times 2. */
  lemma FactorsOfMinusEight()
    ensures PrimeFactors(-8) == [-1, 2, 2, 2]
  {
    assert SmallestDivisorFrom(2, 2) == 2 && PrimeFactors(2) == [2];
    assert SmallestDivisorFrom(4, 2) == 2 && 4 / 2 == 2;
    assert PrimeFactors(4) == [2, 2];
    assert SmallestDivisorFrom(8, 2) == 2 && 8 / 2 == 4;
    assert PrimeFactors(8) == [2, 2, 2];
  }

  /** No number from 2 to 10 divides 11 or 121. */
  lemma ElevenIsLeast()
    ensures SmallestDivisorFrom(11, 2) == 11 && SmallestDivisorFrom(121, 2) == 11
  {
    var k := 10;
    while k >= 2
      invariant 1 <= k <= 10
      invariant SmallestDivisorFrom(11, k + 1) == 11 && SmallestDivisorFrom(121, k + 1) == 11
    {
      assert 11 % k != 0 && 121 % k != 0;
      k := k - 1;
    }
  }

  /** The third example: 242 is 2 times 11 times 11. */
  lemma FactorsOfTwoFortyTwo()
    ensures PrimeFactors(242) == [2, 11, 11]
  {
    ElevenIsLeast();
    assert PrimeFactors(11) == [11];
    assert PrimeFactors(121) == [11, 11];
  }

  // ---------------------------------------------------------------------
  // Tokens (maths.py:24-48)
  // ---------------------------------------------------------------------

  /** A token: a number read from a run of digits, or a single other character. */
  datatype Token = Num(value: nat) | Text(c: char)

  /** `char.isdigit()` for the ASCII digits. */
  predicate IsDigit(c: char) {
    '0' <= c <= '9'
  }

  predicate AllDigits(s: string) {
    forall i :: 0 <= i < |s| ==> IsDigit(s[i])
  }

  /** `s` is empty or ends in a character that is not a digit: no run of digits continues past it. */
  predicate AtBoundary(s: string) {
    |s| == 0 || !IsDigit(s[|s| - 1])
  }

  /** `int(s)` for a string of decimal digits. */
  function DigitsValue(s: string): nat
    requires AllDigits(s)
  {
    if |s| == 0 then 0 else DigitsValue(s[..|s| - 1]) * 10 + ((s[|s| - 1] as int) - ('0' as int))
  }

  /** The length of the run of digits at the start of `s`. */
  function LeadingDigits(s: string): (k: nat)
    ensures k <= |s| && AllDigits(s[..k]) && (k == |s| || !IsDigit(s[k]))
  {
    if |s| == 0 || !IsDigit(s[0]) then 0
    else
      var k := 1 + LeadingDigits(s[1..]);
      assert s[..k] == [s[0]] + s[1..][..k - 1];
      k
  }

  /**
   * The tokens of `s`: each maximal run of digits becomes the number it
   * spells, and every other character becomes a token of its own, in the
   * order of the string.
   */
  function Tokens(s: string): seq<Token>
    decreases |s|
  {
    if |s| == 0 then []
    else if IsDigit(s[0]) then
      var k := LeadingDigits(s);
      [Num(DigitsValue(s[..k]))] + Tokens(s[k..])
    else [Text(s[0])] + Tokens(s[1..])
  }

  /** A string that ends at a boundary tokenizes independently of what follows it. */
  lemma {:induction false} TokensConcat(x: string, y: string)
    requires AtBoundary(x)
    ensures Tokens(x + y) == Tokens(x) + Tokens(y)
    decreases |x|
  {
    if |x| > 0 {
      var xy := x + y;
      if IsDigit(x[0]) {
        RunInPrefix(x, y);
      }
      var k := if IsDigit(x[0]) then LeadingDigits(x) else 1;
      assert 0 < k <= |x|;
      assert xy[0] == x[0] && xy[k..] == x[k..] + y && xy[..k] == x[..k];
      var head := if IsDigit(x[0]) then Num(DigitsValue(x[..k])) else Text(x[0]);
      assert Tokens(x) == [head] + Tokens(x[k..]);
      assert Tokens(xy) == [head] + Tokens(xy[k..]);
      TokensConcat(x[k..], y);
    } else {
      assert x + y == y;
    }
  }

  /** The run of digits at the start of `x` ends inside `x` when `x` ends at a boundary. */
  lemma {:induction false} RunInPrefix(x: string, y: string)
    requires AtBoundary(x) && |x| > 0
    ensures LeadingDigits(x + y) == LeadingDigits(x) < |x|
    decreases |x|
  {
    if IsDigit(x[0]) {
      assert (x + y)[1..] == x[1..] + y;
      if |x| > 1 {
        RunInPrefix(x[1..], y);
      }
    }
  }

  /** A run of digits alone is one number. */
  lemma RunTokens(d: string)
    requires AllDigits(d) && |d| > 0
    ensures Tokens(d) == [Num(DigitsValue(d))]
  {
    AllDigitsRun(d);
    assert d[..|d|] == d;
  }

  /** Every character of an all-digit string belongs to its leading run. */
  lemma {:induction false} AllDigitsRun(d: string)
    requires AllDigits(d)
    ensures LeadingDigits(d) == |d|
    decreases |d|
  {
    if |d| > 0 {
      AllDigitsRun(d[1..]);
    }
  }

  /** A run of digits followed by one other character. */
  lemma RunThenText(d: string, c: char)
    requires AllDigits(d) && !IsDigit(c)
    ensures Tokens(d + [c]) == (if |d| == 0 then [] else [Num(DigitsValue(d))]) + [Text(c)]
  {
    if |d| == 0 {
      assert d + [c] == [c];
    } else {
      TokensConcat([c], []);
      assert Tokens([c]) == [Text(c)] by {
        assert [c][1..] == [];
      }
      RunTokens(d);
      RunEndsAt(d, c);
    }
  }

  /** The leading run of `d + [c]` is `d` when `c` is not a digit. */
  lemma {:induction false} RunEndsAt(d: string, c: char)
    requires AllDigits(d) && !IsDigit(c) && |d| > 0
    ensures Tokens(d + [c]) == Tokens(d) + [Text(c)]
  {
    var s := d + [c];
    LeadingDigitsOfRun(d, c);
    assert s[..|d|] == d && s[|d|..] == [c];
    assert [c][1..] == [];
    RunTokens(d);
  }

  /** The leading run of `d + [c]` has the length of `d`. */
  lemma {:induction false} LeadingDigitsOfRun(d: string, c: char)
    requires AllDigits(d) && !IsDigit(c)
    ensures LeadingDigits(d + [c]) == |d|
    decreases |d|
  {
    if |d| > 0 {
      assert (d + [c])[1..] == d[1..] + [c];
      LeadingDigitsOfRun(d[1..], c);
    }
  }

  /** The loop's step at a character that is not a digit: the pending run, then the character. */
  lemma FlushStep(done: string, current: string, c: char)
    requires AtBoundary(done) && AllDigits(current) && !IsDigit(c)
    ensures AtBoundary(done + current + [c])
    ensures Tokens(done + current + [c])
         == Tokens(done) + (if |current| == 0 then [] else [Num(DigitsValue(current))]) + [Text(c)]
  {
    assert done + current + [c] == done + (current + [c]);
    TokensConcat(done, current + [c]);
    RunThenText(current, c);
  }

  /**
   * `get_math_tokens_from_string`: the loop that collects digits in
   * `current` and flushes them as a number before every other character
   * and at the end.
   */
  method GetMathTokens(s: string) returns (tokens: seq<Token>)
    ensures tokens == Tokens(s)
  {
    tokens := [];
    var current := "";
    for i := 0 to |s|
      invariant AllDigits(current) && |current| <= i
      invariant s[..i] == s[..i - |current|] + current
      invariant AtBoundary(s[..i - |current|])
      invariant tokens == Tokens(s[..i - |current|])
    {
      var c := s[i];
      var done := s[..i - |current|];
      assert s[..i + 1] == s[..i] + [c];
      if IsDigit(c) {
        current := current + [c];
      } else {
        FlushStep(done, current, c);
        if current != "" {
          tokens := tokens + [Num(DigitsValue(current))];
          current := "";
        }
        tokens := tokens + [Text(c)];
      }
    }
    assert s[..|s|] == s;
    var done := s[..|s| - |current|];
    TokensConcat(done, current);
    if current != "" {
      RunTokens(current);
      tokens := tokens + [Num(DigitsValue(current))];
    } else {
      assert Tokens(current) == [];
      assert done + current == done;
    }
  }

  /** The characters of `s` that are not digits, in order. */
  function NonDigits(s: string): (r: string)
    ensures |r| <= |s|
  {
    if |s| == 0 then [] else (if IsDigit(s[0]) then [] else [s[0]]) + NonDigits(s[1..])
  }

  /** The characters of the `Text` tokens, in order. */
  function Texts(t: seq<Token>): string {
    if |t| == 0 then [] else (if t[0].Text? then [t[0].c] else []) + Texts(t[1..])
  }

  lemma {:induction false} TextsConcat(a: seq<Token>, b: seq<Token>)
    ensures Texts(a + b) == Texts(a) + Texts(b)
    decreases |a|
  {
    if |a| == 0 {
      assert a + b == b;
    } else {
      var ab := a + b;
      var head := if a[0].Text? then [a[0].c] else [];
      assert ab[0] == a[0];
      assert ab[1..] == a[1..] + b;
      assert Texts(ab) == head + Texts(a[1..] + b);
      TextsConcat(a[1..], b);
      assert Texts(a) == head + Texts(a[1..]);
    }
  }

  /** A leading run of digits contributes no character that is not a digit. */
  lemma {:induction false} NonDigitsSkipRun(s: string, k: nat)
    requires k <= |s| && AllDigits(s[..k])
    ensures NonDigits(s) == NonDigits(s[k..])
    decreases k
  {
    if k > 0 {
      assert s[1..][..k - 1] == s[1..k];
      assert s[1..][k - 1..] == s[k..];
      assert IsDigit(s[..k][0]);
      NonDigitsSkipRun(s[1..], k - 1);
    }
  }

  /**
   * The `Text` tokens are exactly the characters of `s` that are not
   * digits, in the order of the string; so there are as many of them as
   * there are such characters.
   */
  lemma {:induction false} TextsAreNonDigits(s: string)
    ensures Texts(Tokens(s)) == NonDigits(s)
    ensures |Texts(Tokens(s))| == |NonDigits(s)|
    decreases |s|
  {
    if |s| > 0 {
      var k := if IsDigit(s[0]) then LeadingDigits(s) else 1;
      var head := if IsDigit(s[0]) then Num(DigitsValue(s[..k])) else Text(s[0]);
      assert Tokens(s) == [head] + Tokens(s[k..]);
      TextsConcat([head], Tokens(s[k..]));
      assert Texts([head]) == (if IsDigit(s[0]) then [] else [s[0]]) by {
        assert [head][1..] == [];
      }
      TextsAreNonDigits(s[k..]);
      if IsDigit(s[0]) {
        NonDigitsSkipRun(s, k);
      }
    }
  }

  /** No two numbers are next to each other. */
  predicate NoAdjacentNums(t: seq<Token>) {
    forall i :: 0 <= i < |t| - 1 ==> !(t[i].Num? && t[i + 1].Num?)
  }

  /** A number token is always followed by a text token or by nothing: runs of digits are maximal. */
  lemma {:induction false} NumbersNeverAdjacent(s: string)
    ensures NoAdjacentNums(Tokens(s))
    decreases |s|
  {
    if |s| > 0 {
      var k := if IsDigit(s[0]) then LeadingDigits(s) else 1;
      var rest := Tokens(s[k..]);
      NumbersNeverAdjacent(s[k..]);
      if IsDigit(s[0]) && k < |s| {
        assert rest[0] == Text(s[k]);
      }
      var t := Tokens(s);
      assert forall i :: 1 <= i < |t| ==> t[i] == rest[i - 1];
    }
  }

  /** The examples of the documentation: "123ab", "g4" and "6xy". */
  lemma TokensExamples()
    ensures Tokens("123ab") == [Num(123), Text('a'), Text('b')]
    ensures Tokens("g4") == [Text('g'), Num(4)]
    ensures Tokens("6xy") == [Num(6), Text('x'), Text('y')]
  {
    TokensExampleNumberFirst();
    TokensExampleLetterFirst();
    TokensExampleSingleDigit();
  }

  lemma TokensExampleNumberFirst()
    ensures Tokens("123ab") == [Num(123), Text('a'), Text('b')]
  {
    assert LeadingDigits("123ab") == 3;
    assert "123ab"[..3] == "123" && "123ab"[3..] == "ab";
    assert DigitsValue("123") == 123 by {
      assert "123"[..2] == "12" && "12"[..1] == "1" && "1"[..0] == "";
    }
    assert "ab"[1..] == "b" && "b"[1..] == "";
  }

  lemma TokensExampleLetterFirst()
    ensures Tokens("g4") == [Text('g'), Num(4)]
  {
    assert "g4"[1..] == "4";
    RunTokens("4");
    assert DigitsValue("4") == 4 by {
      assert "4"[..0] == "";
    }
  }

  lemma TokensExampleSingleDigit()
    ensures Tokens("6xy") == [Num(6), Text('x'), Text('y')]
  {
    assert LeadingDigits("6xy") == 1;
    assert "6xy"[..1] == "6" && "6xy"[1..] == "xy";
    assert DigitsValue("6") == 6 by {
      assert "6"[..0] == "";
    }
    assert "xy"[1..] == "y" && "y"[1..] == "";
  }

  // ---------------------------------------------------------------------
  // product (maths.py:50-55)
  // ---------------------------------------------------------------------

  /** The sum of the items, added from the left. */
  function Sum(xs: seq<int>): int {
    if |xs| == 0 then 0 else Sum(xs[..|xs| - 1]) + xs[|xs| - 1]
  }

  /** `product` as written: the accumulator starts at 1 and the loop adds each item to it. */
  method ProductAsWritten(items: seq<int>) returns (acc: int)
    ensures acc == 1 + Sum(items)
  {
    acc := 1;
    for i := 0 to |items|
      invariant acc == 1 + Sum(items[..i])
    {
      assert items[..i + 1][..i] == items[..i];
      acc := acc + items[i];
    }
    assert items[..|items|] == items;
  }

  /** On `[2, 2]` the loop as written gives 5, where the product is 4. */
  lemma ProductAsWrittenIsNotProduct()
    ensures 1 + Sum([2, 2]) == 5 && SeqProduct([2, 2]) == 4
  {
    assert [2, 2][..1] == [2] && [2][..0] == [];
  }

  /** One more item multiplies the product by it. */
  lemma {:induction false} ProductAppend(xs: seq<int>, x: int)
    ensures SeqProduct(xs + [x]) == SeqProduct(xs) * x
    decreases |xs|
  {
    if |xs| == 0 {
      assert xs + [x] == [x];
      assert [x][1..] == [];
    } else {
      assert (xs + [x])[1..] == xs[1..] + [x];
      ProductAppend(xs[1..], x);
      assert xs[0] * (SeqProduct(xs[1..]) * x) == (xs[0] * SeqProduct(xs[1..])) * x;
    }
  }

  /** The product of a concatenation is the product of the products, and the empty product is 1. */
  lemma {:induction false} ProductConcat(xs: seq<int>, ys: seq<int>)
    ensures SeqProduct([]) == 1
    ensures SeqProduct(xs + ys) == SeqProduct(xs) * SeqProduct(ys)
    decreases |xs|
  {
    if |xs| == 0 {
      assert xs + ys == ys;
    } else {
      assert (xs + ys)[1..] == xs[1..] + ys;
      ProductConcat(xs[1..], ys);
      assert xs[0] * (SeqProduct(xs[1..]) * SeqProduct(ys)) == (xs[0] * SeqProduct(xs[1..])) * SeqProduct(ys);
    }
  }

  /** `product` as its documentation describes it: one times all of the items. */
  method Product(items: seq<int>) returns (acc: int)
    ensures acc == SeqProduct(items)
  {
    acc := 1;
    for i := 0 to |items|
      invariant acc == SeqProduct(items[..i])
    {
      assert items[..i + 1] == items[..i] + [items[i]];
      ProductAppend(items[..i], items[i]);
      acc := acc * items[i];
    }
    assert items[..|items|] == items;
  }
}
