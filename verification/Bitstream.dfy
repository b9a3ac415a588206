/** The ordinary packing the lane layout is measured against: one contiguous bit stream over all 1024 values. */
module Bitstream {
  import opened Arithmetic
  import opened Words
  import opened Layout

  const VALUES: nat := 1024

  /** Bit `k` of the stream the first `n` values make. */
  predicate StreamBitOf(v: seq<Word>, bits: nat, n: nat, k: nat)
    requires 1 <= bits <= 32
  {
    k / bits < n && k / bits < |v| && v[k / bits][k % bits]
  }

  /** Word `w` of that stream. */
  function StreamWord(v: seq<Word>, bits: nat, n: nat, w: nat): (r: Word)
    requires 1 <= bits <= 32
    ensures forall t | 0 <= t < 32 :: r[t] == StreamBitOf(v, bits, n, 32 * w + t)
  {
    seq(32, t requires 0 <= t < 32 => StreamBitOf(v, bits, n, 32 * w + t))
  }

  /** The bits value `i` puts into word `w`. */
  function Part(val: Word, bits: nat, i: nat, w: nat): (r: Word)
    requires 1 <= bits <= 32
  {
    var (first, s) := Place(bits, i);
    if w == first then Sll(val, s) else if w == first + 1 && s + bits > 32 then Srl(val, 32 - s) else ZERO
  }

  /** Which of the value's bits lands on bit `t` of word `w`; 32 for none. */
  function Landing(bits: nat, i: nat, w: nat, t: nat): nat
    requires t < 32
  {
    var (first, s) := Place(bits, i);
    if w == first && t >= s then t - s
    else if w == first + 1 && s + bits > 32 && t < s then t + 32 - s
    else 32
  }

  lemma PartLands(val: Word, bits: nat, i: nat, w: nat, t: nat)
    requires 1 <= bits <= 32 && t < 32
    ensures var j := Landing(bits, i, w, t); Part(val, bits, i, w)[t] == (j < 32 && val[j])
  {
  }

  lemma LandsAt(bits: nat, i: nat, w: nat, t: nat)
    requires 1 <= bits <= 32 && t < 32
    ensures var j, k := Landing(bits, i, w, t), 32 * w + t;
      j < bits <==> k / bits == i
    ensures var j, k := Landing(bits, i, w, t), 32 * w + t;
      j < bits ==> k % bits == j
  {
    var j, k := Landing(bits, i, w, t), 32 * w + t;
    if j < bits {
      assert k == bits * i + j;
      DivModUnique(bits, i, j);
    }
    if k / bits == i {
      NatDiv(k, bits);
      StreamIndex(bits, i, k % bits);
    }
  }

  lemma NatDiv(k: nat, bits: nat)
    requires bits > 0
    ensures 0 <= k / bits && 0 <= k % bits < bits && k == bits * (k / bits) + k % bits
  {
  }

  lemma PartBit(v: seq<Word>, bits: nat, i: nat, w: nat, t: nat)
    requires 1 <= bits <= 32 && i < |v| && t < 32
    ensures Part(And(v[i], Mask(bits)), bits, i, w)[t] ==
            ((32 * w + t) / bits == i && v[i][(32 * w + t) % bits])
  {
    hide Part, Landing;
    var val := And(v[i], Mask(bits));
    assert forall j: nat | j < 32 :: val[j] == (j < bits && v[i][j]);
    PartLands(val, bits, i, w, t);
    LandsAt(bits, i, w, t);
    NatDiv(32 * w + t, bits);
  }

  /** One more value or-ed into its one or two words. */
  lemma StreamStep(v: seq<Word>, bits: nat, i: nat, w: nat)
    requires 1 <= bits <= 32 && i < |v|
    ensures StreamWord(v, bits, i + 1, w) == Or(StreamWord(v, bits, i, w), Part(And(v[i], Mask(bits)), bits, i, w))
  {
    hide Part, And, Mask;
    var a, p := StreamWord(v, bits, i, w), Part(And(v[i], Mask(bits)), bits, i, w);
    forall t | 0 <= t < 32
      ensures StreamWord(v, bits, i + 1, w)[t] == (a[t] || p[t])
    {
      PartBit(v, bits, i, w, t);
    }
  }

  ghost predicate Streamed(p: seq<Word>, v: seq<Word>, bits: nat, n: nat)
    requires 1 <= bits <= 32
  {
    forall w | 0 <= w < |p| :: p[w] == StreamWord(v, bits, n, w)
  }

  lemma OrZero(a: Word)
    ensures Or(a, ZERO) == a
  {
  }

  lemma StreamedStep(p: seq<Word>, q: seq<Word>, v: seq<Word>, bits: nat, i: nat)
    requires 1 <= bits <= 32 && i < |v| && |q| == |p| && Streamed(p, v, bits, i)
    requires forall w | 0 <= w < |p| :: q[w] == Or(p[w], Part(And(v[i], Mask(bits)), bits, i, w))
    ensures Streamed(q, v, bits, i + 1)
  {
    hide Part, And, Mask, Or, StreamWord;
    forall w | 0 <= w < |p|
      ensures q[w] == StreamWord(v, bits, i + 1, w)
    {
      StreamStep(v, bits, i, w);
    }
  }

  lemma InStream(bits: nat, i: nat)
    requires 1 <= bits <= 32 && i < VALUES
    ensures var (w, s) := Place(bits, i); w < 32 * bits && (s + bits > 32 ==> w + 1 < 32 * bits)
  {
    MulMonotone(i + 1, VALUES, bits);
  }

  lemma NothingYet(v: seq<Word>, bits: nat, w: nat)
    requires 1 <= bits <= 32
    ensures StreamWord(v, bits, 0, w) == ZERO
  {
    forall t | 0 <= t < 32
      ensures !StreamWord(v, bits, 0, w)[t]
    {
      NatDiv(32 * w + t, bits);
    }
  }

  lemma EmptyStream(p: seq<Word>, v: seq<Word>, bits: nat)
    requires 1 <= bits <= 32 && forall w | 0 <= w < |p| :: p[w] == ZERO
    ensures Streamed(p, v, bits, 0)
  {
    hide StreamWord;
    forall w | 0 <= w < |p|
      ensures StreamWord(v, bits, 0, w) == ZERO
    {
      NothingYet(v, bits, w);
    }
  }

  /** `pack_stream`: every bit of the words is the bit of the value it belongs to. */
  method PackStream(p: array<Word>, v: array<Word>, bits: nat)
    requires 1 <= bits <= 32 && p.Length == 32 * bits && v.Length == VALUES && p != v
    modifies p
    ensures Streamed(p[..], v[..], bits, VALUES)
  {
    hide Part, And, Mask, Or, Sll, Srl, StreamWord;
    for k := 0 to p.Length
      invariant forall x: nat | x < k :: p[x] == ZERO
    {
      p[k] := ZERO;
    }
    ghost var vs := v[..];
    EmptyStream(p[..], vs, bits);
    for i := 0 to VALUES
      invariant v[..] == vs && Streamed(p[..], vs, bits, i)
    {
      var (w, s) := Place(bits, i);
      InStream(bits, i);
      var val := And(v[i], Mask(bits));
      ghost var before := p[..];
      p[w] := Or(p[w], Sll(val, s));
      if s + bits > 32 {
        p[w + 1] := Or(p[w + 1], Srl(val, 32 - s));
      }
      Touched(before, p[..], val, bits, i);
      StreamedStep(before, p[..], vs, bits, i);
    }
  }

  lemma Touched(p: seq<Word>, q: seq<Word>, val: Word, bits: nat, i: nat)
    requires 1 <= bits <= 32 && |p| == |q| && Place(bits, i).0 < |p|
    requires Place(bits, i).1 + bits > 32 ==> Place(bits, i).0 + 1 < |p|
    requires var (w, s) := Place(bits, i);
      var once := p[w := Or(p[w], Sll(val, s))];
      q == if s + bits > 32 then once[w + 1 := Or(once[w + 1], Srl(val, 32 - s))] else once
    ensures forall w | 0 <= w < |p| :: q[w] == Or(p[w], Part(val, bits, i, w))
  {
    hide Or, Sll, Srl;
    forall w | 0 <= w < |p|
      ensures q[w] == Or(p[w], Part(val, bits, i, w))
    {
      OrZero(p[w]);
    }
  }

  /** `unpack_stream` of one value. */
  function FromStream(p: seq<Word>, bits: nat, i: nat): Word
    requires 1 <= bits <= 32 && i < VALUES && |p| == 32 * bits
  {
    InStream(bits, i);
    var (w, s) := Place(bits, i);
    And(if s + bits > 32 then Or(Srl(p[w], s), Sll(p[w + 1], 32 - s)) else Srl(p[w], s), Mask(bits))
  }

  lemma FromStreamExtracts(p: seq<Word>, bits: nat, i: nat, j: nat)
    requires 1 <= bits <= 32 && |p| == 32 * bits && i < VALUES && j < bits
    ensures var (w, s) := Place(bits, i);
      w < |p| && (s + bits > 32 ==> w + 1 < |p|) &&
      FromStream(p, bits, i)[j] == if s + j < 32 then p[w][s + j] else p[w + 1][s + j - 32]
  {
    InStream(bits, i);
    var (w, s) := Place(bits, i);
    ExtractBit(p[w], if s + bits > 32 then p[w + 1] else p[w], bits, s, j);
  }

  /** Bit `j` of the value read is stream bit `k`. */
  lemma FromStreamBit(p: seq<Word>, bits: nat, i: nat, j: nat, k: nat)
    requires 1 <= bits <= 32 && |p| == 32 * bits && i < VALUES && j < bits && k == bits * i + j
    ensures k / 32 < |p| && FromStream(p, bits, i)[j] == p[k / 32][k % 32]
  {
    hide FromStream;
    FromStreamExtracts(p, bits, i, j);
    StreamIndex(bits, i, j);
  }

  /** Bit `j` of the value read back. */
  lemma StreamBitBack(p: seq<Word>, v: seq<Word>, bits: nat, i: nat, j: nat)
    requires 1 <= bits <= 32 && |p| == 32 * bits && |v| == VALUES && Streamed(p, v, bits, VALUES) && i < VALUES && j < bits
    ensures FromStream(p, bits, i)[j] == v[i][j]
  {
    hide StreamWord, Place, FromStream;
    var k := bits * i + j;
    FromStreamBit(p, bits, i, j, k);
    StreamBitHere(v, bits, i, j);
    assert p[k / 32] == StreamWord(v, bits, VALUES, k / 32);
  }

  /** Each value comes back masked to the width. */
  lemma StreamRoundTrip(p: seq<Word>, v: seq<Word>, bits: nat, i: nat)
    requires 1 <= bits <= 32 && |p| == 32 * bits && |v| == VALUES && Streamed(p, v, bits, VALUES) && i < VALUES
    ensures FromStream(p, bits, i) == And(v[i], Mask(bits))
  {
    hide Streamed, Place, StreamWord;
    var x := FromStream(p, bits, i);
    forall j | 0 <= j < 32
      ensures x[j] == And(v[i], Mask(bits))[j]
    {
      if j < bits {
        StreamBitBack(p, v, bits, i, j);
      }
    }
  }

  lemma StreamBitHere(v: seq<Word>, bits: nat, i: nat, j: nat)
    requires 1 <= bits <= 32 && i < |v| == VALUES && j < bits
    ensures var k := bits * i + j; StreamWord(v, bits, VALUES, k / 32)[k % 32] == v[i][j]
  {
    DivModUnique(bits, i, j);
    var k := bits * i + j;
    assert 32 * (k / 32) + k % 32 == k;
  }

  /** `unpack_stream` after `pack_stream`, for every width and any values. */
  method StreamThrough(v: array<Word>, bits: nat) returns (out: array<Word>)
    requires 1 <= bits <= 32 && v.Length == VALUES
    ensures out.Length == VALUES && forall i | 0 <= i < VALUES :: out[i] == And(v[i], Mask(bits))
  {
    hide And, Mask, Streamed, FromStream;
    var p := new Word[32 * bits];
    PackStream(p, v, bits);
    out := UnpackStream(p, bits);
    forall i | 0 <= i < VALUES
      ensures out[i] == And(v[i], Mask(bits))
    {
      StreamRoundTrip(p[..], v[..], bits, i);
    }
  }

  method UnpackStream(p: array<Word>, bits: nat) returns (out: array<Word>)
    requires 1 <= bits <= 32 && p.Length == 32 * bits
    ensures fresh(out) && out.Length == VALUES && forall i | 0 <= i < VALUES :: out[i] == FromStream(p[..], bits, i)
  {
    hide And, Mask, Or, Sll, Srl;
    out := new Word[VALUES];
    var m := Mask(bits);
    ghost var ps := p[..];
    for i := 0 to VALUES
      invariant p[..] == ps && forall x | 0 <= x < i :: out[x] == FromStream(ps, bits, x)
    {
      var (w, s) := Place(bits, i);
      InStream(bits, i);
      var val := Srl(p[w], s);
      if s + bits > 32 {
        val := Or(val, Sll(p[w + 1], 32 - s));
      }
      out[i] := And(val, m);
    }
  }
}
