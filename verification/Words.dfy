/** 32-bit words as bit sequences, least significant bit first, and vectors of sixteen of them. */
module Words {
  const TWO32: nat := 0x1_0000_0000

  /** A sequence of `n` copies of `x`. */
  function Fill<T>(n: nat, x: T): (s: seq<T>)
    ensures |s| == n
    ensures forall i | 0 <= i < n :: s[i] == x
  {
    seq(n, _ => x)
  }

  type Word = w: seq<bool> | |w| == 32 witness Fill(32, false)

  /** One 512-bit register: sixteen 32-bit lanes. */
  type Vec = v: seq<Word> | |v| == 16 witness Fill(16, ZERO)

  const ZERO: Word := Fill(32, false)
  const ONES: Word := Fill(32, true)

  function And(a: Word, b: Word): Word { seq(32, i requires 0 <= i < 32 => a[i] && b[i]) }

  function Or(a: Word, b: Word): Word { seq(32, i requires 0 <= i < 32 => a[i] || b[i]) }

  /** Logical shifts; a count above 31 gives zero. */
  function Srl(a: Word, n: nat): Word { seq(32, i requires 0 <= i < 32 => i + n < 32 && a[i + n]) }

  function Sll(a: Word, n: nat): Word { seq(32, i requires 0 <= i < 32 => i >= n && a[i - n]) }

  /** `0xFFFFFFFF >> (32 - bits)`. */
  function Mask(bits: nat): Word
    requires bits <= 32
  {
    Srl(ONES, 32 - bits)
  }

  function Pow2(n: nat): (p: nat)
    ensures p > 0
  {
    if n == 0 then 1 else 2 * Pow2(n - 1)
  }

  /** The number a bit sequence denotes. */
  function ToNat(s: seq<bool>): (n: nat)
    ensures n < Pow2(|s|)
  {
    if s == [] then 0 else (if s[0] then 1 else 0) + 2 * ToNat(s[1..])
  }

  /** The low `k` bits of `n`. */
  function FromNat(n: nat, k: nat): (s: seq<bool>)
    ensures |s| == k
  {
    if k == 0 then [] else [n % 2 == 1] + FromNat(n / 2, k - 1)
  }

  /** Wrapping 32-bit addition and subtraction. */
  function Add(a: Word, b: Word): Word { FromNat((ToNat(a) + ToNat(b)) % TWO32, 32) }

  function Sub(a: Word, b: Word): Word { FromNat((ToNat(a) - ToNat(b)) % TWO32, 32) }

  function VAnd(a: Vec, b: Vec): Vec { seq(16, l requires 0 <= l < 16 => And(a[l], b[l])) }

  function VOr(a: Vec, b: Vec): Vec { seq(16, l requires 0 <= l < 16 => Or(a[l], b[l])) }

  function VSrl(a: Vec, n: nat): Vec { seq(16, l requires 0 <= l < 16 => Srl(a[l], n)) }

  function VSll(a: Vec, n: nat): Vec { seq(16, l requires 0 <= l < 16 => Sll(a[l], n)) }

  function VAdd(a: Vec, b: Vec): Vec { seq(16, l requires 0 <= l < 16 => Add(a[l], b[l])) }

  function VSub(a: Vec, b: Vec): Vec { seq(16, l requires 0 <= l < 16 => Sub(a[l], b[l])) }

  function Splat(w: Word): Vec { Fill(16, w) }

  // ------------------------------------------------------------ numbers and bits

  lemma Pow2Is32()
    ensures Pow2(32) == TWO32
  {
    assert Pow2(8) == 0x100;
    assert Pow2(16) == 0x1_0000 by { Pow2Adds(8, 8); }
    Pow2Adds(16, 16);
  }

  lemma {:induction false} Pow2Adds(a: nat, b: nat)
    ensures Pow2(a + b) == Pow2(a) * Pow2(b)
  {
    if a > 0 {
      Pow2Adds(a - 1, b);
      assert Pow2(a) * Pow2(b) == 2 * (Pow2(a - 1) * Pow2(b));
    }
  }

  lemma {:induction false} ToFrom(n: nat, k: nat)
    requires n < Pow2(k)
    ensures ToNat(FromNat(n, k)) == n
  {
    if k > 0 {
      ToFrom(n / 2, k - 1);
      assert FromNat(n, k)[1..] == FromNat(n / 2, k - 1);
    }
  }

  lemma {:induction false} FromTo(s: seq<bool>)
    ensures FromNat(ToNat(s), |s|) == s
  {
    if s != [] {
      FromTo(s[1..]);
      assert ToNat(s) / 2 == ToNat(s[1..]);
    }
  }

  lemma WrapSub(v: nat, b: nat)
    requires v < TWO32 && b < TWO32
    ensures (b + (v - b) % TWO32) % TWO32 == v
  {
  }

  lemma WrapCancel(b: nat, x: nat, y: nat)
    requires b < TWO32 && x < TWO32 && y < TWO32
    requires (b + x) % TWO32 == (b + y) % TWO32
    ensures x == y
  {
  }

  /** Adding back what was subtracted restores the word, through any wrap-around. */
  lemma AddSub(v: Word, b: Word)
    ensures Add(b, Sub(v, b)) == v
  {
    hide ToNat, FromNat, Pow2;
    Pow2Is32();
    ToFrom((ToNat(v) - ToNat(b)) % TWO32, 32);
    WrapSub(ToNat(v), ToNat(b));
    FromTo(v);
  }

  /** Addition cancels: two different residues never decode to one value. */
  lemma AddInjective(b: Word, x: Word, y: Word)
    requires Add(b, x) == Add(b, y)
    ensures x == y
  {
    hide ToNat, FromNat, Pow2;
    Pow2Is32();
    ToFrom((ToNat(b) + ToNat(x)) % TWO32, 32);
    ToFrom((ToNat(b) + ToNat(y)) % TWO32, 32);
    WrapCancel(ToNat(b), ToNat(x), ToNat(y));
    FromTo(x);
    FromTo(y);
  }

  /** A number is below `2^k` exactly when every bit from `k` up is clear. */
  lemma {:induction false} SmallIffClear(s: seq<bool>, k: nat)
    requires k <= |s|
    ensures ToNat(s) < Pow2(k) <==> forall i | k <= i < |s| :: !s[i]
  {
    if s == [] {
    } else if k == 0 {
      SmallIffClear(s[1..], 0);
      assert forall i | 1 <= i < |s| :: s[i] == s[1..][i - 1];
      assert forall i | 0 <= i < |s| - 1 :: s[1..][i] == s[i + 1];
    } else {
      SmallIffClear(s[1..], k - 1);
      assert forall i | k <= i < |s| :: s[i] == s[1..][i - 1];
      assert forall i | k - 1 <= i < |s| - 1 :: s[1..][i] == s[i + 1];
    }
  }

  /** A word survives masking to `bits` bits exactly when its value is below `2^bits`. */
  lemma MaskKeepsIffSmall(w: Word, bits: nat)
    requires bits <= 32
    ensures And(w, Mask(bits)) == w <==> ToNat(w) < Pow2(bits)
  {
    SmallIffClear(w, bits);
    var m := And(w, Mask(bits));
    assert forall i | 0 <= i < 32 :: m[i] == (w[i] && i < bits);
    if forall i | bits <= i < |w| :: !w[i] {
      assert m == w;
    }
  }
}
