/**
 Money amounts as exact fractions in lowest terms (big.Rat), and their conversion to the integers the
 payment services take: toMinorUnits and fromMinorUnits of stripe/types.go, jpyAmount of
 fincode/gateway.go. Lowest terms matter: the code reads the numerator as the value once the
 denominator is 1.
 */
module Money {
  import opened Common

  datatype Currency = JPY | USD | EUR | Other(code: string)

  datatype Money = Money(currency: Currency, num: int, den: int)

  datatype Converted = Units(v: int) | UnsupportedCurrency | NotRepresentable | ExceedsInt64 | NotPositive

  const MAX_INT64 := 0x7fff_ffff_ffff_ffff

  predicate IsInt64(v: int) { -MAX_INT64 - 1 <= v <= MAX_INT64 }

  // ---- lowest terms ----

  /** Euclid */
  function Gcd(a: nat, b: nat): (g: nat)
    ensures a > 0 || b > 0 ==> g > 0
    ensures g > 0 ==> a % g == 0 && b % g == 0
    decreases b
  {
    if b == 0 then a
    else
      var g := Gcd(b, a % b);
      DividesBoth(a, b, g);
      g
  }

  lemma DividesBoth(a: nat, b: nat, g: nat)
    requires b > 0 && g > 0 && b % g == 0 && (a % b) % g == 0
    ensures a % g == 0
  {
    var k, m, q := b / g, (a % b) / g, a / b;
    assert b == g * k && a % b == g * m;
    assert a == b * q + a % b;
    assert a == g * (k * q + m) by {
      assert b * q == g * (k * q) by { Assoc(g, k, q); }
    }
    MultipleOf(g, k * q + m);
  }

  lemma Assoc(a: int, b: int, c: int)
    ensures (a * b) * c == a * (b * c)
  {
  }

  lemma AtLeastFactor(g: int, t: int)
    requires g > 0 && t > 0
    ensures g * t >= g
    decreases t
  {
    if t > 1 {
      AtLeastFactor(g, t - 1);
      assert g * t == g * (t - 1) + g;
    }
  }

  lemma BelowOneMultiple(g: int, t: int)
    requires g > 0 && 0 <= g * t < g
    ensures t == 0
  {
    assert g * (-t) == -(g * t);
    if t < 0 {
      AtLeastFactor(g, -t);
    } else if t > 0 {
      AtLeastFactor(g, t);
    }
  }

  lemma ZeroFactor(a: int, g: int)
    requires g > 0 && a * g == 0
    ensures a == 0
  {
    assert g * a == a * g;
    BelowOneMultiple(g, a);
  }

  lemma MultipleOf(g: int, k: int)
    requires g > 0
    ensures (g * k) % g == 0 && (g * k) / g == k
  {
    var n := g * k;
    assert g * (k - n / g) == n % g;
    BelowOneMultiple(g, k - n / g);
  }

  function Abs(n: int): nat { if n < 0 then -n else n }

  predicate LowestTerms(num: int, den: int) { den > 0 && Gcd(Abs(num), den) == 1 }

  /** The combination of a and b that gives their greatest common divisor. */
  lemma {:induction false} Bezout(a: nat, b: nat) returns (x: int, y: int)
    ensures x * a + y * b == Gcd(a, b)
    decreases b
  {
    if b == 0 {
      x, y := 1, 0;
    } else {
      var x', y' := Bezout(b, a % b);
      var q := a / b;
      x, y := y', x' - y' * q;
      EuclidStep(x', y', a, b, q);
      assert a % b == a - b * q;
    }
  }

  lemma EuclidStep(x: int, y: int, a: int, b: int, q: int)
    ensures x * b + y * (a - b * q) == y * a + (x - y * q) * b
  {
    var t := b * q;
    assert y * (a - t) == y * a - y * t;
    assert (x - y * q) * b == x * b - (y * q) * b;
    Assoc(y, q, b);
  }

  lemma CoprimeDivides(a: int, b: int, c: int, d: int)
    requires LowestTerms(a, b) && d > 0 && a * d == c * b
    ensures d % b == 0
  {
    var x, y := Bezout(Abs(a), b);
    var s := if a < 0 then -x else x;
    assert s * a + y * b == 1;
    assert d == b * (s * c + y * d) by {
      assert d == (s * a + y * b) * d == (s * a) * d + (y * b) * d;
      assert (s * a) * d == s * (c * b) == (s * c) * b by { Assoc(s, a, d); Assoc(s, c, b); }
      assert (y * b) * d == (y * d) * b by { Assoc(y, b, d); Assoc(y, d, b); }
      assert b * (s * c + y * d) == (s * c) * b + (y * d) * b;
    }
    MultipleOf(b, s * c + y * d);
  }

  lemma SmallerDivisor(b: int, d: int)
    requires b > 0 && d > 0 && d % b == 0
    ensures b <= d
  {
  }

  /** A value has one fraction in lowest terms. */
  lemma LowestTermsUnique(a: int, b: int, c: int, d: int)
    requires LowestTerms(a, b) && LowestTerms(c, d) && a * d == c * b
    ensures a == c && b == d
  {
    CoprimeDivides(a, b, c, d);
    CoprimeDivides(c, d, a, b);
    SmallerDivisor(b, d);
    SmallerDivisor(d, b);
    assert (a - c) * b == a * b - c * b;
    ZeroFactor(a - c, b);
  }

  /** What big.Rat keeps after every operation. */
  function Reduced(num: int, den: int): (int, int)
    requires den > 0
  {
    (num / Gcd(Abs(num), den), den / Gcd(Abs(num), den))
  }

  lemma ReducedIsLowest(num: int, den: int)
    requires den > 0
    ensures var (n, d) := Reduced(num, den); LowestTerms(n, d) && n * den == num * d
  {
    var g := Gcd(Abs(num), den);
    var (n, d) := Reduced(num, den);
    assert Abs(num) % g == 0 && den % g == 0;
    assert num == n * g && den == d * g && d > 0 by { ExactQuotient(num, g); ExactQuotient(den, g); }
    var x, y := Bezout(Abs(num), den);
    CoprimeQuotients(n, d, g, x, y);
    assert n * den == num * d by { Assoc(n, d, g); Assoc(n, g, d); }
  }

  lemma ExactQuotient(a: int, g: nat)
    requires g > 0 && Abs(a) % g == 0
    ensures a == (a / g) * g && (a > 0 ==> a / g > 0)
  {
    if a < 0 {
      var k := (-a) / g;
      assert -a == g * k;
      MultipleOf(g, -k);
      assert g * (-k) == a;
    }
  }

  lemma CoprimeQuotients(n: int, d: int, g: nat, x: int, y: int)
    requires g > 0 && d > 0 && x * Abs(n * g) + y * (d * g) == g
    ensures LowestTerms(n, d)
  {
    AbsOfMultiple(n, g);
    var c := x * Abs(n) + y * d;
    assert (c - 1) * g == 0 by {
      Assoc(x, Abs(n), g);
      Assoc(y, d, g);
      assert (c - 1) * g == (x * Abs(n)) * g + (y * d) * g - g;
    }
    ZeroFactor(c - 1, g);
    CombinationIsCoprime(n, d, x, y);
  }

  lemma AbsOfMultiple(n: int, g: nat)
    ensures Abs(n * g) == Abs(n) * g
  {
    assert (-n) * g == -(n * g);
  }

  lemma CombinationIsCoprime(n: int, d: int, x: int, y: int)
    requires d > 0 && x * Abs(n) + y * d == 1
    ensures LowestTerms(n, d)
  {
    var h := Gcd(Abs(n), d);
    var p, q := Abs(n) / h, d / h;
    assert Abs(n) == h * p && d == h * q;
    hide Gcd;
    assert h * (x * p + y * q) == 1 by {
      assert x * (h * p) == h * (x * p) && y * (h * q) == h * (y * q) by {
        Assoc(x, h, p); Assoc(h, x, p); Assoc(y, h, q); Assoc(h, y, q);
      }
    }
    UnitFactor(h, x * p + y * q);
  }

  lemma UnitFactor(h: int, k: int)
    requires h > 0 && h * k == 1
    ensures h == 1
  {
    if h > 1 {
      BelowOneMultiple(h, k);
    }
  }

  // ---- minor units ----

  function Pow10(n: nat): (p: int)
    ensures p > 0
  {
    if n == 0 then 1 else 10 * Pow10(n - 1)
  }

  predicate Supported(c: Currency) { !c.Other? }

  /** currencyExponent */
  function Exponent(c: Currency): nat { if c.JPY? then 0 else 2 }

  function ToMinorUnits(m: Money): Converted
    requires m.den > 0
  {
    if !Supported(m.currency) then UnsupportedCurrency
    else
      var (n, d) := Reduced(m.num * Pow10(Exponent(m.currency)), m.den);
      if d != 1 then NotRepresentable
      else if !IsInt64(n) then ExceedsInt64
      else if n <= 0 then NotPositive
      else Units(n)
  }

  /** None: the response currency is not supported. */
  function FromMinorUnits(amount: int, c: Currency): Option<Money> {
    if !Supported(c) then None
    else
      var (n, d) := Reduced(amount, Pow10(Exponent(c)));
      Some(Money(c, n, d))
  }

  /** jpyAmount; the amount is in lowest terms, so it is an integer exactly when its denominator is 1. */
  function JpyAmount(m: Money): Converted {
    if !m.currency.JPY? then UnsupportedCurrency
    else if m.den != 1 then NotRepresentable
    else if !IsInt64(m.num) then ExceedsInt64
    else if m.num <= 0 then NotPositive
    else Units(m.num)
  }

  lemma WholeNumber(num: int, den: int, n: int, d: int, v: int)
    requires den > 0 && LowestTerms(n, d) && n * den == num * d && v * den == num
    ensures n == v && d == 1
  {
    assert Gcd(Abs(v), 1) == Gcd(1, 0) == 1;
    assert (n - v * d) * den == 0 by {
      assert (n - v * d) * den == n * den - (v * d) * den;
      assert (v * d) * den == (v * den) * d by { Assoc(v, d, den); Assoc(v, den, d); }
    }
    ZeroFactor(n - v * d, den);
    LowestTermsUnique(n, d, v, 1);
  }

  lemma ReducedToInteger(num: int, den: int)
    requires den > 0
    ensures var (n, d) := Reduced(num, den); d == 1 <==> exists v :: v * den == num
    ensures var (n, d) := Reduced(num, den); forall v :: v * den == num ==> d == 1 && n == v
  {
    ReducedIsLowest(num, den);
    var (n, d) := Reduced(num, den);
    assert d == 1 ==> n * den == num;
    forall v | v * den == num ensures d == 1 && n == v {
      WholeNumber(num, den, n, d, v);
    }
  }

  lemma ConversionByExponent(m: Money, v: int)
    requires m.den > 0
    ensures ToMinorUnits(m) == Units(v)
       <==> Supported(m.currency) && v * m.den == m.num * Pow10(Exponent(m.currency)) && 1 <= v <= MAX_INT64
  {
    if Supported(m.currency) {
      ReducedToInteger(m.num * Pow10(Exponent(m.currency)), m.den);
      ReducedIsLowest(m.num * Pow10(Exponent(m.currency)), m.den);
    }
  }

  /** The conversion gives v exactly when the amount is v yen, or v cents, v is positive and fits 64 bits:
      nothing is rounded, wrapped or truncated, and no other currency is converted. */
  lemma ConversionIsExact(m: Money, v: int)
    requires m.den > 0
    ensures ToMinorUnits(m) == Units(v)
       <==> 1 <= v <= 9223372036854775807
            && match m.currency
               case JPY => v * m.den == m.num
               case USD => v * m.den == 100 * m.num
               case EUR => v * m.den == 100 * m.num
               case Other(_) => false
  {
    ConversionByExponent(m, v);
    assert Pow10(0) == 1 && Pow10(1) == 10 && Pow10(2) == 100;
    hide ToMinorUnits, Pow10;
  }

  lemma SameFraction(n: int, d: int, num: int, den: int, v: int, p: int)
    requires p > 0 && n * p == v * d && v * den == num * p
    ensures n * den == num * d
  {
    var a := n * den - num * d;
    assert a * p == 0 by {
      assert a * p == (n * den) * p - (num * d) * p;
      assert (n * den) * p == (n * p) * den by { Assoc(n, den, p); Assoc(n, p, den); }
      assert (v * d) * den == (v * den) * d by { Assoc(v, d, den); Assoc(v, den, d); }
      assert (num * d) * p == (num * p) * d by { Assoc(num, d, p); Assoc(num, p, d); }
    }
    ZeroFactor(a, p);
  }

  /** What is sent and read back is the amount itself. */
  lemma SentAndReadBack(m: Money)
    requires LowestTerms(m.num, m.den)
    ensures ToMinorUnits(m).Units? ==> FromMinorUnits(ToMinorUnits(m).v, m.currency) == Some(m)
  {
    if ToMinorUnits(m).Units? {
      var v, p := ToMinorUnits(m).v, Pow10(Exponent(m.currency));
      ConversionByExponent(m, v);
      ReducedIsLowest(v, p);
      var (n, d) := Reduced(v, p);
      SameFraction(n, d, m.num, m.den, v, p);
      LowestTermsUnique(n, d, m.num, m.den);
    }
  }

  /** What is read can be sent again, if and only if it is positive. */
  lemma ReadAndSentAgain(v: int, c: Currency)
    requires Supported(c) && IsInt64(v)
    ensures var m := FromMinorUnits(v, c);
            m.Some? && m.value.den > 0 && (ToMinorUnits(m.value) == Units(v) <==> v > 0)
  {
    var p := Pow10(Exponent(c));
    ReducedIsLowest(v, p);
    ConversionByExponent(FromMinorUnits(v, c).value, v);
  }

  /** For yen the two adapters accept the same amounts, as the same integer. */
  lemma YenAmountsAgree(m: Money)
    requires LowestTerms(m.num, m.den) && m.currency.JPY?
    ensures JpyAmount(m) == ToMinorUnits(m)
  {
    assert Pow10(0) == 1;
    ReducedIsLowest(m.num, m.den);
    var (n, d) := Reduced(m.num, m.den);
    LowestTermsUnique(n, d, m.num, m.den);
  }

  /** fincode is sent v exactly for v yen, v positive and within 64 bits. */
  lemma JpyAmountIsExact(m: Money, v: int)
    requires LowestTerms(m.num, m.den)
    ensures JpyAmount(m) == Units(v) <==> m.currency.JPY? && v * m.den == m.num && 1 <= v <= 9223372036854775807
    ensures JpyAmount(m).UnsupportedCurrency? <==> !m.currency.JPY?
  {
    if m.currency.JPY? {
      YenAmountsAgree(m);
      ConversionIsExact(m, v);
    }
  }
}
