/** pi-bbp's modular powers: Barrett reduction on 64-bit words, and the plain divider form. */
module Barrett {
  import opened Arithmetic

  const WORD: nat := 0x1_0000_0000_0000_0000

  /** A 64-bit machine word's value of any integer result. */
  function Wrap(x: int): (w: nat)
    ensures w < WORD && (0 <= x < WORD ==> w == x)
  {
    x % WORD
  }

  /** The high word of a 128-bit product. */
  function HighWord(a: nat, b: nat): nat { a * b / WORD }

  // ------------------------------------------------------------ Barrett's bound

  lemma DivBounds(a: nat, b: nat)
    requires b > 0
    ensures a / b * b <= a < a / b * b + b
  {
  }

  /** mu*m misses 2^64 by at least one and at most m. */
  lemma Reciprocal(m: nat)
    requires m > 0
    ensures WORD - m <= (WORD - 1) / m * m <= WORD - 1
  {
    DivBounds(WORD - 1, m);
  }

  /** The estimated quotient never exceeds the true one, and falls short by at most one. */
  lemma Estimate(p: nat, m: nat)
    requires 0 < m && p < WORD
    ensures var q := HighWord(p, (WORD - 1) / m); q * m <= p < q * m + 2 * m
  {
    var mu := (WORD - 1) / m;
    var q := HighWord(p, mu);
    Reciprocal(m);
    DivBounds(p * mu, WORD);
    Under(p, m, mu, q);
    Over(p, m, mu, q);
  }

  lemma Under(p: nat, m: nat, mu: nat, q: nat)
    requires m > 0 && mu * m <= WORD - 1 && q * WORD <= p * mu
    ensures q * m <= p
  {
    MulMonotone(q * WORD, p * mu, m);
    MulMonotone(mu * m, WORD - 1, p);
    assert q * WORD * m == q * m * WORD;
    assert p * mu * m == mu * m * p;
    assert q * m * WORD <= (WORD - 1) * p <= p * WORD;
  }

  lemma Over(p: nat, m: nat, mu: nat, q: nat)
    requires 0 < m && p < WORD && WORD - m <= mu * m && p * mu < q * WORD + WORD
    ensures p < q * m + 2 * m
  {
    if m >= WORD {
      assert q * m + 2 * m >= p;
    } else {
      MulMonotone(p * mu + 1, q * WORD + WORD, m);
      MulMonotone(WORD - m, mu * m, p);
      assert (p * mu + 1) * m == mu * m * p + m;
      assert (q * WORD + WORD) * m == (q * m + m) * WORD;
      assert (WORD - m) * p == p * WORD - m * p;
      MulMonotone(p, WORD, m);
      assert p * WORD - m * p + m <= (q * m + m) * WORD;
      assert p * WORD < (q * m + m) * WORD + m * WORD;
      assert (q * m + m) * WORD + m * WORD == (q * m + 2 * m) * WORD;
    }
  }

  lemma ModOfDifference(p: nat, q: nat, m: nat)
    requires m > 0 && q * m <= p
    ensures (p - q * m) % m == p % m
    decreases q
  {
    if q > 0 {
      assert q * m == (q - 1) * m + m;
      ModOfDifference(p, q - 1, m);
      AddModulus(p - q * m, m);
    }
  }

  lemma AddModulus(x: nat, m: nat)
    requires m > 0
    ensures (x + m) % m == x % m
  {
    DivBounds(x, m);
    Remainder(x + m, x / m + 1, x % m, m);
  }

  lemma Remainder(x: nat, k: nat, r: nat, m: nat)
    requires r < m && x == k * m + r
    ensures x % m == r
  {
    DivBounds(x, m);
    if x / m < k {
      MulMonotone(x / m + 1, k, m);
    } else if x / m > k {
      MulMonotone(k + 1, x / m, m);
    }
  }

  predicate IsReciprocal(m: nat, mu: nat)
    requires m > 0
  {
    mu == (WORD - 1) / m
  }

  /** `mulmod`: the product is exact, nothing underflows, and the loop subtracts at most once. */
  method MulMod(a: nat, b: nat, m: nat, mu: nat) returns (r: nat, ghost turns: nat)
    requires 1 <= m < WORD && a < WORD && b < WORD && a * b < WORD && IsReciprocal(m, mu)
    ensures r == a * b % m && turns <= 1
  {
    hide Wrap, IsReciprocal;
    var p := Wrap(a * b);
    r, turns := ModWord(p, m, mu);
  }

  /** The steps after the multiplication, on its one-word product. */
  method ModWord(p: nat, m: nat, mu: nat) returns (r: nat, ghost turns: nat)
    requires 1 <= m < WORD && p < WORD && IsReciprocal(m, mu)
    ensures r == p % m && turns <= 1
  {
    hide HighWord, Wrap, IsReciprocal;
    var q := Wrap(HighWord(p, mu));
    ghost var product := HighWord(p, mu) * m;
    Corrected(p, m, mu, product);
    var qm := Wrap(q * m);
    assert qm == product;
    r := Wrap(p - qm);
    r, turns := Reduce(r, p - qm, m);
  }

  /** The estimate fits a word, its product does not pass p, and what is left is p modulo m and under 2m. */
  lemma Corrected(p: nat, m: nat, mu: nat, product: nat)
    requires 0 < m && p < WORD && IsReciprocal(m, mu) && product == HighWord(p, mu) * m
    ensures HighWord(p, mu) < WORD && product <= p < product + 2 * m && (p - product) % m == p % m
  {
    hide HighWord;
    Estimate(p, m);
    QuotientFits(p, m);
    ModOfDifference(p, HighWord(p, mu), m);
  }

  /** The correction loop. */
  method Reduce(r0: nat, ghost x: nat, m: nat) returns (r: nat, ghost turns: nat)
    requires 1 <= m < WORD && r0 == x < 2 * m && x < WORD
    ensures r == x % m && turns <= 1 && r == r0 - (if turns == 1 then m else 0)
  {
    r := r0;
    turns := 0;
    while r >= m
      invariant turns <= 1 && r < (if turns == 0 then 2 * m else m) && r < WORD
      invariant r % m == x % m && r == r0 - (if turns == 1 then m else 0)
      decreases r
    {
      AddModulus(r - m, m);
      r := Wrap(r - m);
      turns := turns + 1;
    }
    Remainder(r, 0, r, m);
  }

  lemma QuotientFits(p: nat, m: nat)
    requires 0 < m && p < WORD
    ensures HighWord(p, (WORD - 1) / m) < WORD
  {
    Estimate(p, m);
    MulMonotone(1, m, HighWord(p, (WORD - 1) / m));
  }

  // ------------------------------------------------------------ powers

  function Power(b: nat, e: nat): nat { if e == 0 then 1 else b * Power(b, e - 1) }

  lemma ModMul(a: nat, b: nat, m: nat)
    requires m > 0
    ensures a % m * b % m == a * b % m
  {
    DivBounds(a, m);
    var k, r := a / m, a % m;
    assert a == k * m + r;
    ModMulParts(a, k, r, b, m);
  }

  lemma ModMulParts(a: nat, k: nat, r: nat, b: nat, m: nat)
    requires m > 0 && a == k * m + r
    ensures r * b % m == a * b % m
  {
    Distribute(k * m, r, b);
    Swap(k, m, b);
    ModOfDifference(a * b, k * b, m);
  }

  lemma Distribute(x: nat, y: nat, b: nat)
    ensures (x + y) * b == x * b + y * b
  {
  }

  lemma Swap(k: nat, m: nat, b: nat)
    ensures k * m * b == k * b * m
  {
  }

  lemma PowerTwice(b: nat, e: nat)
    ensures Power(b, e + 2) == b * b * Power(b, e)
  {
    var x := Power(b, e);
    assert Power(b, e + 2) == b * (b * x) by { assert Power(b, e + 1) == b * x; }
    Regroup(b, x);
  }

  lemma Regroup(b: nat, x: nat)
    ensures b * (b * x) == b * b * x
  {
  }

  lemma {:induction false} PowerDouble(b: nat, n: nat)
    ensures Power(b, 2 * n) == Power(b * b, n)
    decreases n
  {
    if n > 0 {
      PowerDouble(b, n - 1);
      PowerTwice(b, 2 * (n - 1));
    }
  }

  lemma {:induction false} PowerMod(b: nat, e: nat, m: nat)
    requires m > 0
    ensures Power(b % m, e) % m == Power(b, e) % m
  {
    if e > 0 {
      PowerMod(b, e - 1, m);
      var x, y := Power(b % m, e - 1), Power(b, e - 1);
      ModMul(b, x, m);
      assert b * x == x * b && b * y == y * b;
      ModMul(x, b, m);
      ModMul(y, b, m);
    }
  }

  /** One round of square and multiply leaves r * b^e unchanged modulo m. */
  lemma Round(r: nat, b: nat, e: nat, m: nat)
    requires m > 0 && e > 0
    ensures var r' := if e % 2 == 1 then r * b % m else r;
      r' * Power(b * b % m, e / 2) % m == r * Power(b, e) % m
  {
    var h := e / 2;
    PowerDouble(b, h);
    PowerMod(b * b, h, m);
    var x, y := Power(b * b % m, h), Power(b * b, h);
    assert x % m == y % m;
    if e % 2 == 1 {
      assert Power(b, e) == b * Power(b, 2 * h);
      assert r * (b * y) == r * b * y;
      ModMul(r * b, x, m);
      SameFactor(x, y, r * b, m);
    } else {
      SameFactor(x, y, r, m);
    }
  }

  lemma SameFactor(x: nat, y: nat, c: nat, m: nat)
    requires m > 0 && x % m == y % m
    ensures c * x % m == c * y % m
  {
    ModMul(x, c, m);
    ModMul(y, c, m);
    assert c * x == x * c && c * y == y * c;
  }

  /** What both variants return: 16^e mod m, but for 16^0 modulo 1, which comes out as 1. */
  function Expected(e: nat, m: nat): nat
    requires m > 0
  {
    if e == 0 then 1 else Power(16, e) % m
  }

  lemma PowersIff(e: nat, m: nat)
    requires m > 0
    ensures Expected(e, m) == Power(16, e) % m <==> !(e == 0 && m == 1)
  {
    if e == 0 && m > 1 {
      Remainder(1, 0, 1, m);
    }
  }

  lemma SmallProduct(x: nat, y: nat)
    requires x < 0x1_0000_0000 && y < 0x1_0000_0000
    ensures x * y < WORD
  {
    MulMonotone(x, 0xffff_ffff, y);
    MulMonotone(y, 0xffff_ffff, 0xffff_ffff);
  }

  /** `modpow16` with -DBARRETT: no product leaves 64 bits. */
  method ModPow16Barrett(e: nat, m: nat) returns (r: nat)
    requires 1 <= m < 0x1_0000_0000 && e < WORD
    ensures r == Expected(e, m)
  {
    hide Power;
    var mu := (WORD - 1) / m;
    var b: nat, left: nat := 16 % m, e;
    r := 1;
    StartPower(e, m);
    while left != 0
      invariant r < 0x1_0000_0000 && b < m && (left == 0 ==> if e == 0 then r == 1 else r < m)
      invariant r * Power(b, left) % m == Power(16, e) % m
      decreases left
    {
      r, b := RoundBarrett(r, b, left, m, mu);
      left := left / 2;
    }
    EndPower(r, b, m);
  }

  method RoundBarrett(r: nat, b: nat, e: nat, m: nat, mu: nat) returns (r': nat, b': nat)
    requires 1 <= m < 0x1_0000_0000 && r < 0x1_0000_0000 && b < m && e > 0 && IsReciprocal(m, mu)
    ensures r' < 0x1_0000_0000 && b' < m && (e % 2 == 1 ==> r' < m)
    ensures r' * Power(b', e / 2) % m == r * Power(b, e) % m
  {
    hide Power, Wrap, IsReciprocal;
    Round(r, b, e, m);
    SmallProduct(r, b);
    SmallProduct(b, b);
    r' := r;
    ghost var turns;
    if e % 2 == 1 {
      r', turns := MulMod(r, b, m, mu);
    }
    b', turns := MulMod(b, b, m, mu);
  }

  /** `modpow16` by the divider: every product fits 64 bits. */
  method ModPow16(e: nat, m: nat) returns (r: nat)
    requires 1 <= m < 0x1_0000_0000 && e < WORD
    ensures r == Expected(e, m)
  {
    hide Power;
    var b: nat, left: nat := 16 % m, e;
    r := 1;
    StartPower(e, m);
    while left != 0
      invariant r < 0x1_0000_0000 && b < m && (left == 0 ==> if e == 0 then r == 1 else r < m)
      invariant r * Power(b, left) % m == Power(16, e) % m
      decreases left
    {
      r, b := RoundDivider(r, b, left, m);
      left := left / 2;
    }
    EndPower(r, b, m);
  }

  /** The 64-bit multiplication and the divider. */
  method MulDiv(a: nat, b: nat, m: nat) returns (r: nat)
    requires m > 0 && a * b < WORD
    ensures r == a * b % m
  {
    hide Wrap;
    r := Wrap(a * b) % m;
  }

  method RoundDivider(r: nat, b: nat, e: nat, m: nat) returns (r': nat, b': nat)
    requires 1 <= m < 0x1_0000_0000 && r < 0x1_0000_0000 && b < m && e > 0
    ensures r' < 0x1_0000_0000 && b' < m && (e % 2 == 1 ==> r' < m)
    ensures r' * Power(b', e / 2) % m == r * Power(b, e) % m
  {
    hide Power;
    Round(r, b, e, m);
    SmallProduct(r, b);
    SmallProduct(b, b);
    r' := r;
    if e % 2 == 1 {
      r' := MulDiv(r, b, m);
    }
    b' := MulDiv(b, b, m);
  }

  lemma StartPower(e: nat, m: nat)
    requires m > 0
    ensures 1 * Power(16 % m, e) % m == Power(16, e) % m
  {
    PowerMod(16, e, m);
  }

  lemma EndPower(r: nat, b: nat, m: nat)
    requires m > 0
    ensures Power(b, 0) == 1 && r * Power(b, 0) % m == r % m
    ensures r < m ==> r % m == r
  {
    if r < m {
      Remainder(r, 0, r, m);
    }
  }
}
