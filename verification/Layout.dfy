/** The lane-interleaved layout as a bit stream a lane: value `v` of a lane occupies stream bits
    `bits * v` to `bits * v + bits - 1`, and stream bit `k` is bit `k % 32` of the lane's word `k / 32`.
    Everything else about packing is proved against this. */
module Layout {
  import opened Arithmetic
  import opened Words

  /** The word value `v` starts in, and how far up it. */
  function Place(bits: nat, v: nat): (nat, nat) { (bits * v / 32, bits * v % 32) }

  ghost predicate Holds(ws: seq<Vec>, bits: nat, v: nat) {
    1 <= bits <= 32 && bits * v + bits <= 32 * |ws|
  }

  function StreamBit(ws: seq<Vec>, l: nat, k: nat): bool
    requires l < 16 && k < 32 * |ws|
  {
    ws[k / 32][l][k % 32]
  }

  /** Value `v` of lane `l`, zero-extended. */
  function Field(ws: seq<Vec>, bits: nat, v: nat, l: nat): (r: Word)
    requires Holds(ws, bits, v) && l < 16
    ensures forall j | 0 <= j < 32 :: r[j] == (j < bits && StreamBit(ws, l, bits * v + j))
  {
    seq(32, j requires 0 <= j < 32 => j < bits && StreamBit(ws, l, bits * v + j))
  }

  function FieldVec(ws: seq<Vec>, bits: nat, v: nat): (r: Vec)
    requires Holds(ws, bits, v)
    ensures forall l | 0 <= l < 16 :: r[l] == Field(ws, bits, v, l)
  {
    seq(16, l requires 0 <= l < 16 => Field(ws, bits, v, l))
  }

  /** Bit `k` of the stream lane `l`'s values make at `bits` bits each; zero past the last value. */
  function BlockBit(vs: seq<Vec>, bits: nat, l: nat, k: nat): bool
    requires 1 <= bits <= 32 && l < 16
  {
    k / bits < |vs| && vs[k / bits][l][k % bits]
  }

  /** Word `w` of the packed block: every bit taken from the value it belongs to. */
  function PackedWord(vs: seq<Vec>, bits: nat, w: nat, l: nat): (r: Word)
    requires 1 <= bits <= 32 && l < 16
    ensures forall t | 0 <= t < 32 :: r[t] == BlockBit(vs, bits, l, 32 * w + t)
  {
    seq(32, t requires 0 <= t < 32 => BlockBit(vs, bits, l, 32 * w + t))
  }

  function PackedVec(vs: seq<Vec>, bits: nat, w: nat): (r: Vec)
    requires 1 <= bits <= 32
    ensures forall l | 0 <= l < 16 :: r[l] == PackedWord(vs, bits, w, l)
  {
    seq(16, l requires 0 <= l < 16 => PackedWord(vs, bits, w, l))
  }

  // ------------------------------------------------------------ arithmetic

  lemma DivBelow(k: nat, bits: nat, n: nat)
    requires bits >= 1 && k < bits * n
    ensures k / bits < n && k % bits < bits
  {
    if k / bits >= n {
      MulMonotone(n, k / bits, bits);
    }
  }

  lemma DivModUnique(bits: nat, v: nat, j: nat)
    requires j < bits
    ensures (bits * v + j) / bits == v && (bits * v + j) % bits == j
  {
    var k := bits * v + j;
    var q := k / bits;
    assert k == bits * q + k % bits;
    if q < v {
      MulMonotone(q + 1, v, bits);
    } else if q > v {
      MulMonotone(v + 1, q, bits);
    }
  }

  /** Where the bits of a value sit relative to its starting word. */
  lemma StreamIndex(bits: nat, v: nat, j: nat)
    requires j < bits <= 32
    ensures var (w, s) := Place(bits, v);
      var k := bits * v + j;
      if s + j < 32 then k / 32 == w && k % 32 == s + j else k / 32 == w + 1 && k % 32 == s + j - 32
  {
  }

  // ------------------------------------------------------------ extraction

  /** What shifting, merging and masking two neighbouring words yields. */
  function Extract(lo: Word, hi: Word, bits: nat, s: nat): Word
    requires bits <= 32 && s < 32
  {
    And(if s + bits > 32 then Or(Srl(lo, s), Sll(hi, 32 - s)) else Srl(lo, s), Mask(bits))
  }

  /** The word after value `v`'s first, where there is one to read. */
  function NextWord(ws: seq<Vec>, bits: nat, v: nat): (r: Vec)
    requires Holds(ws, bits, v)
  {
    var (w, s) := Place(bits, v);
    if s + bits > 32 then ws[w + 1] else ws[w]
  }

  lemma ExtractBit(lo: Word, hi: Word, bits: nat, s: nat, j: nat)
    requires bits <= 32 && s < 32 && j < 32
    ensures Extract(lo, hi, bits, s)[j] == (j < bits && (if s + j < 32 then lo[s + j] else hi[s + j - 32]))
  {
  }

  lemma ExtractIsField(ws: seq<Vec>, bits: nat, v: nat, l: nat)
    requires Holds(ws, bits, v) && l < 16
    ensures Extract(ws[Place(bits, v).0][l], NextWord(ws, bits, v)[l], bits, Place(bits, v).1) == Field(ws, bits, v, l)
  {
    hide Extract;
    var (w, s) := Place(bits, v);
    var x := Extract(ws[w][l], NextWord(ws, bits, v)[l], bits, s);
    forall j: nat | j < 32 ensures x[j] == Field(ws, bits, v, l)[j] {
      ExtractBit(ws[w][l], NextWord(ws, bits, v)[l], bits, s, j);
      if j < bits {
        StreamIndex(bits, v, j);
      }
    }
  }

  lemma ExtractCases(lo: Word, hi: Word, bits: nat, s: nat)
    requires bits <= 32 && s < 32
    ensures Extract(lo, hi, bits, s) ==
      if s == 0 then if bits == 32 then lo else And(lo, Mask(bits))
      else if s + bits == 32 then Srl(lo, s)
      else if s + bits < 32 then And(Srl(lo, s), Mask(bits))
      else And(Or(Srl(lo, s), Sll(hi, 32 - s)), Mask(bits))
  {
    if s == 0 {
      assert Srl(lo, 0) == lo;
      assert And(lo, ONES) == lo && Mask(32) == ONES;
    } else if s + bits == 32 {
      assert And(Srl(lo, s), Mask(bits)) == Srl(lo, s);
    }
  }

  /** The five instruction sequences an extraction comes in. */
  lemma FieldVecCases(ws: seq<Vec>, bits: nat, v: nat)
    requires Holds(ws, bits, v)
    ensures var (w, s) := Place(bits, v);
      var lo, m := VSrl(ws[w], s), Splat(Mask(bits));
      FieldVec(ws, bits, v) ==
        if s == 0 then if bits == 32 then ws[w] else VAnd(ws[w], m)
        else if s + bits == 32 then lo
        else if s + bits < 32 then VAnd(lo, m)
        else VAnd(VOr(lo, VSll(ws[w + 1], 32 - s)), m)
  {
    hide Extract, And, Or, Srl, Sll, Mask, Field;
    var (w, s) := Place(bits, v);
    forall l | 0 <= l < 16
      ensures Field(ws, bits, v, l) ==
        if s == 0 then if bits == 32 then ws[w][l] else And(ws[w][l], Mask(bits))
        else if s + bits == 32 then Srl(ws[w][l], s)
        else if s + bits < 32 then And(Srl(ws[w][l], s), Mask(bits))
        else And(Or(Srl(ws[w][l], s), Sll(ws[w + 1][l], 32 - s)), Mask(bits))
    {
      ExtractIsField(ws, bits, v, l);
      ExtractCases(ws[w][l], NextWord(ws, bits, v)[l], bits, s);
    }
  }
}
