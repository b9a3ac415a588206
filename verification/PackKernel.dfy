/** The libknc pack kernels: word-driven, four words in flight, two partial accumulators a word. */
module PackKernel {
  import opened Arithmetic
  import opened Words
  import opened Options
  import opened Machine
  import opened Layout
  import opened Extraction
  import opened UnpackKernel

  /** One value's contribution to one packed word: its low bits shifted up, or its high bits shifted down. */
  datatype Piece = Piece(value: nat, left: bool, amount: nat)

  const PACK_WORDS: nat := 4
  const WAYS: nat := 2

  function Acc(j: nat, way: nat): Zmm
    requires j < PACK_WORDS && way < WAYS
  {
    WAYS * j + way
  }

  function Tmp(j: nat): Zmm
    requires j < PACK_WORDS
  {
    PACK_WORDS * WAYS + j
  }

  // ------------------------------------------------------------ pieces

  /** Value `v`'s piece of word `w`, if it has one. */
  function PieceOf(bits: nat, v: nat, w: nat): Option<Piece> {
    var (first, s) := Place(bits, v);
    if first == w then Some(Piece(v, true, s))
    else if s + bits > 32 && first + 1 == w then Some(Piece(v, false, 32 - s))
    else None
  }

  /** The pieces of word `w` that the first `n` values contribute, in value order. */
  function Pieces(bits: nat, w: nat, n: nat): (ps: seq<Piece>)
    ensures |ps| <= n
    ensures forall i | 0 <= i < |ps| :: ps[i].value < n && PieceOf(bits, ps[i].value, w) == Some(ps[i])
    ensures forall v: nat | v < n && PieceOf(bits, v, w).Some? :: PieceOf(bits, v, w).value in ps
  {
    if n == 0 then []
    else Pieces(bits, w, n - 1) + PieceSeq(bits, n - 1, w)
  }

  function PieceSeq(bits: nat, v: nat, w: nat): seq<Piece> {
    match PieceOf(bits, v, w) case None => [] case Some(p) => [p]
  }

  lemma PiecesSnoc(bits: nat, w: nat, v: nat)
    ensures Pieces(bits, w, v + 1) == Pieces(bits, w, v) + PieceSeq(bits, v, w)
  {
  }

  lemma NoPieces(bits: nat)
    ensures forall w: nat :: Pieces(bits, w, 0) == []
  {
  }

  lemma PlaceInBlock(bits: nat, v: nat)
    requires 1 <= bits <= 32 && v < POSITIONS
    ensures var (w, s) := Place(bits, v);
      s < 32 && w < 2 * bits && (s + bits > 32 ==> w + 1 < 2 * bits)
  {
    MulMonotone(v + 1, POSITIONS, bits);
    assert bits * v + bits <= 64 * bits;
  }

  /** The generator's table: every word's pieces, pushed value by value. */
  method PieceTable(bits: nat) returns (table: seq<seq<Piece>>)
    requires 1 <= bits <= 32
    ensures |table| == 2 * bits && forall w | 0 <= w < 2 * bits :: table[w] == Pieces(bits, w, POSITIONS)
  {
    hide Pieces, Place;
    assert forall w: nat | w < 2 * bits :: Pieces(bits, w, 0) == [] by { NoPieces(bits); }
    table := Fill(2 * bits, []);
    for v := 0 to POSITIONS
      invariant |table| == 2 * bits
      invariant forall w | 0 <= w < 2 * bits :: table[w] == Pieces(bits, w, v)
    {
      var (w, s) := Place(bits, v);
      PlaceInBlock(bits, v);
      forall x: nat | x < 2 * bits ensures Pieces(bits, x, v + 1) == Pieces(bits, x, v) + PieceSeq(bits, v, x) {
        PiecesSnoc(bits, x, v);
      }
      table := table[w := table[w] + [Piece(v, true, s)]];
      if s + bits > 32 {
        table := table[w + 1 := table[w + 1] + [Piece(v, false, 32 - s)]];
      }
    }
  }

  /** A piece's sixteen lanes: the masked value moved into place. */
  function PieceVec(vs: seq<Vec>, bits: nat, p: Piece): Vec
    requires 1 <= bits <= 32 && p.value < |vs|
  {
    var m := VAnd(vs[p.value], Splat(Mask(bits)));
    if p.left then VSll(m, p.amount) else VSrl(m, p.amount)
  }

  /** The `or` of those of the first `n` pieces whose index has parity `way`. */
  function Partial(vs: seq<Vec>, bits: nat, ps: seq<Piece>, n: nat, way: nat): Vec
    requires 1 <= bits <= 32 && n <= |ps| && forall i | 0 <= i < |ps| :: ps[i].value < |vs|
  {
    if n == 0 then Splat(ZERO)
    else if (n - 1) % WAYS == way then VOr(Partial(vs, bits, ps, n - 1, way), PieceVec(vs, bits, ps[n - 1]))
    else Partial(vs, bits, ps, n - 1, way)
  }

  // ------------------------------------------------------------ the pieces make the word

  lemma BitOwner(bits: nat, v: nat, k: nat)
    requires bits >= 1
    ensures k / bits == v <==> bits * v <= k < bits * v + bits
    ensures k / bits == v ==> k % bits == k - bits * v
  {
    if bits * v <= k < bits * v + bits {
      DivModUnique(bits, v, k - bits * v);
    }
  }

  /** Bit `t` of a piece is bit `j` of its value, `j` counting from the value's place in the stream. */
  lemma PieceBitAt(vs: seq<Vec>, bits: nat, w: nat, p: Piece, l: nat, t: nat)
    requires 1 <= bits <= 32 && p.value < |vs| && PieceOf(bits, p.value, w) == Some(p) && l < 16 && t < 32
    ensures var j := 32 * w + t - bits * p.value;
      PieceVec(vs, bits, p)[l][t] == (0 <= j < bits && vs[p.value][l][j])
  {
    MaskedBits(vs, bits, p.value, l);
    hide VAnd, Mask;
    var m := VAnd(vs[p.value], Splat(Mask(bits)));
    var j := 32 * w + t - bits * p.value;
    if p.left {
      assert j == t - p.amount;
      assert PieceVec(vs, bits, p)[l] == Sll(m[l], p.amount);
    } else {
      assert j == t + p.amount;
      assert PieceVec(vs, bits, p)[l] == Srl(m[l], p.amount);
    }
  }

  lemma PieceBit(vs: seq<Vec>, bits: nat, w: nat, p: Piece, l: nat, t: nat, k: nat)
    requires 1 <= bits <= 32 && p.value < |vs| && PieceOf(bits, p.value, w) == Some(p) && l < 16 && t < 32
    requires k == 32 * w + t
    ensures PieceVec(vs, bits, p)[l][t] <==> k / bits == p.value && vs[p.value][l][k % bits]
  {
    hide PieceVec, PieceOf;
    PieceBitAt(vs, bits, w, p, l, t);
    BitOwner(bits, p.value, k);
  }

  lemma PieceValue(bits: nat, v: nat, w: nat)
    ensures PieceOf(bits, v, w).Some? ==> PieceOf(bits, v, w).value.value == v
  {
  }

  lemma MaskedBits(vs: seq<Vec>, bits: nat, v: nat, l: nat)
    requires 1 <= bits <= 32 && v < |vs| && l < 16
    ensures forall i | 0 <= i < 32 ::
              VAnd(vs[v], Splat(Mask(bits)))[l][i] == (i < bits && vs[v][l][i])
  {
  }

  ghost predicate SomePiece(vs: seq<Vec>, bits: nat, ps: seq<Piece>, n: nat, way: nat, l: nat, t: nat)
    requires 1 <= bits <= 32 && n <= |ps| && (forall i | 0 <= i < |ps| :: ps[i].value < |vs|) && l < 16 && t < 32
  {
    exists i | 0 <= i < n :: i % WAYS == way && PieceVec(vs, bits, ps[i])[l][t]
  }

  lemma {:induction false} PartialBit(vs: seq<Vec>, bits: nat, ps: seq<Piece>, n: nat, way: nat, l: nat, t: nat)
    requires 1 <= bits <= 32 && n <= |ps| && (forall i | 0 <= i < |ps| :: ps[i].value < |vs|) && l < 16 && t < 32
    ensures Partial(vs, bits, ps, n, way)[l][t] == SomePiece(vs, bits, ps, n, way, l, t)
  {
    hide PieceVec;
    if n > 0 {
      PartialBit(vs, bits, ps, n - 1, way, l, t);
    }
  }

  lemma InBlock(bits: nat, w: nat, t: nat)
    requires w < 2 * bits && t < 32
    ensures 32 * w + t < bits * POSITIONS
  {
  }

  /** Value `v` owns bit `t` of word `w`, so it has a piece there. */
  lemma OwnerHasPiece(bits: nat, v: nat, w: nat, t: nat)
    requires 1 <= bits <= 32 && t < 32 && bits * v <= 32 * w + t < bits * v + bits
    ensures PieceOf(bits, v, w).Some?
  {
    var at := bits * v;
    assert at / 32 == w || (at / 32 + 1 == w && at % 32 + bits > 32);
  }

  lemma OwnerInBlock(bits: nat, k: nat)
    requires bits >= 1 && k < bits * POSITIONS
    ensures var v := k / bits;
      v < POSITIONS && bits * v <= k < bits * v + bits
  {
    DivBelow(k, bits, POSITIONS);
    BitOwner(bits, k / bits, k);
  }

  /** The value stream bit `k` belongs to has a piece in the bit's word. */
  lemma BitHasPiece(bits: nat, w: nat, t: nat, k: nat)
    requires 1 <= bits <= 32 && w < 2 * bits && t < 32 && k == 32 * w + t
    ensures k / bits < POSITIONS && PieceOf(bits, k / bits, w).Some?
  {
    hide PieceOf;
    InBlock(bits, w, t);
    OwnerInBlock(bits, k);
    OwnerHasPiece(bits, k / bits, w, t);
  }

  lemma WordHasPieces(bits: nat, w: nat)
    requires 1 <= bits <= 32 && w < 2 * bits
    ensures |Pieces(bits, w, POSITIONS)| > 0
  {
    hide PieceOf;
    BitHasPiece(bits, w, 0, 32 * w);
  }

  lemma OredWord(x: Word, y: Word, z: Word)
    requires forall t | 0 <= t < 32 :: (x[t] || y[t]) == z[t]
    ensures Or(x, y) == z
  {
  }

  lemma OredVec(a: Vec, b: Vec, c: Vec)
    requires forall l, t | 0 <= l < 16 && 0 <= t < 32 :: (a[l][t] || b[l][t]) == c[l][t]
    ensures VOr(a, b) == c
  {
    hide Or;
    forall l | 0 <= l < 16
      ensures VOr(a, b)[l] == c[l]
    {
      OredWord(a[l], b[l], c[l]);
    }
  }

  lemma PiecesMakeBit(vs: seq<Vec>, bits: nat, w: nat, l: nat, t: nat)
    requires 1 <= bits <= 32 && |vs| == POSITIONS && w < 2 * bits && l < 16 && t < 32
    ensures var ps := Pieces(bits, w, POSITIONS);
      (Partial(vs, bits, ps, |ps|, 0)[l][t] || Partial(vs, bits, ps, |ps|, 1)[l][t]) == PackedVec(vs, bits, w)[l][t]
  {
    hide PieceVec, Partial, PieceOf, SomePiece, BlockBit;
    var ps := Pieces(bits, w, POSITIONS);
    PartialBit(vs, bits, ps, |ps|, 0, l, t);
    PartialBit(vs, bits, ps, |ps|, 1, l, t);
    SomePieceIsBit(vs, bits, w, l, t, 32 * w + t);
  }

  /** Or-ing a word's pieces in two interleaved chains gives the packed word, and no word is without a
      piece, so the first accumulator is always written. */
  lemma PiecesMakeWord(vs: seq<Vec>, bits: nat, w: nat)
    requires 1 <= bits <= 32 && |vs| == POSITIONS && w < 2 * bits
    ensures var ps := Pieces(bits, w, POSITIONS);
      |ps| > 0 &&
      VOr(Partial(vs, bits, ps, |ps|, 0), Partial(vs, bits, ps, |ps|, 1)) == PackedVec(vs, bits, w)
  {
    hide PieceVec, Partial, PieceOf, VOr, PackedVec, Pieces;
    var ps := Pieces(bits, w, POSITIONS);
    WordHasPieces(bits, w);
    var a, b, c := Partial(vs, bits, ps, |ps|, 0), Partial(vs, bits, ps, |ps|, 1), PackedVec(vs, bits, w);
    forall l: nat, t: nat | l < 16 && t < 32
      ensures (a[l][t] || b[l][t]) == c[l][t]
    {
      PiecesMakeBit(vs, bits, w, l, t);
    }
    OredVec(a, b, c);
  }

  /** The piece of the value that owns bit `k`. */
  lemma OwnersPiece(bits: nat, w: nat, t: nat, k: nat) returns (i: nat)
    requires 1 <= bits <= 32 && w < 2 * bits && t < 32 && k == 32 * w + t
    ensures var ps := Pieces(bits, w, POSITIONS);
      i < |ps| && ps[i].value == k / bits
  {
    hide PieceOf;
    BitHasPiece(bits, w, t, k);
    PieceValue(bits, k / bits, w);
    var p := PieceOf(bits, k / bits, w).value;
    i :| i < |Pieces(bits, w, POSITIONS)| && Pieces(bits, w, POSITIONS)[i] == p;
  }

  lemma SomePieceIsBit(vs: seq<Vec>, bits: nat, w: nat, l: nat, t: nat, k: nat)
    requires 1 <= bits <= 32 && |vs| == POSITIONS && w < 2 * bits && l < 16 && t < 32 && k == 32 * w + t
    ensures var ps := Pieces(bits, w, POSITIONS);
      (SomePiece(vs, bits, ps, |ps|, 0, l, t) || SomePiece(vs, bits, ps, |ps|, 1, l, t)) == BlockBit(vs, bits, l, k)
  {
    hide PieceVec, PieceOf, Pieces;
    var ps := Pieces(bits, w, POSITIONS);
    if BlockBit(vs, bits, l, k) {
      var i := OwnersPiece(bits, w, t, k);
      PieceBit(vs, bits, w, ps[i], l, t, k);
      assert i % WAYS == 0 || i % WAYS == 1;
    } else {
      forall i | 0 <= i < |ps| ensures !PieceVec(vs, bits, ps[i])[l][t] {
        PieceBit(vs, bits, w, ps[i], l, t, k);
      }
    }
  }

  // ------------------------------------------------------------ the generated code

  /** The pieces of the `j`th word of the group starting at word `b`. */
  function PiecesAt(bits: nat, b: nat, j: nat): (ps: seq<Piece>)
    ensures forall i | 0 <= i < |ps| :: ps[i].value < POSITIONS && PieceOf(bits, ps[i].value, b + j) == Some(ps[i])
  {
    Pieces(bits, b + j, POSITIONS)
  }

  /** How many words the group starting at word `b` builds. */
  function InFlight(bits: nat, b: nat): nat
    requires b <= 2 * bits
  {
    if b + PACK_WORDS <= 2 * bits then PACK_WORDS else 2 * bits - b
  }

  /** The first two pieces of a word land straight in its accumulators. */
  function Dst(i: nat, j: nat): Zmm
    requires j < PACK_WORDS
  {
    if i < WAYS then Acc(j, i) else Tmp(j)
  }

  function LoadPiece(bits: nat, b: nat, i: nat, j: nat): Option<Insn>
    requires j < PACK_WORDS
  {
    var ps := PiecesAt(bits, b, j);
    if i < |ps| then Some(VLoad(Dst(i, j), Mem(Rsi, 64 * ps[i].value))) else None
  }

  function MaskPiece(bits: nat, b: nat, i: nat, j: nat): Option<Insn>
    requires j < PACK_WORDS
  {
    if bits < 32 && i < |PiecesAt(bits, b, j)| then Some(AndD(Dst(i, j), Dst(i, j), MASKREG)) else None
  }

  function ShiftPiece(bits: nat, b: nat, i: nat, j: nat): Option<Insn>
    requires j < PACK_WORDS
  {
    var ps := PiecesAt(bits, b, j);
    if i >= |ps| || ps[i].amount == 0 then None
    else if ps[i].left then Some(ShiftLeft(Dst(i, j), Dst(i, j), ps[i].amount))
    else Some(ShiftRight(Dst(i, j), Dst(i, j), ps[i].amount))
  }

  function OrPiece(bits: nat, b: nat, i: nat, j: nat): Option<Insn>
    requires j < PACK_WORDS
  {
    if i >= WAYS && i < |PiecesAt(bits, b, j)| then Some(OrD(Acc(j, i % WAYS), Acc(j, i % WAYS), Tmp(j))) else None
  }

  function Combine(bits: nat, b: nat, j: nat): Option<Insn>
    requires j < PACK_WORDS
  {
    if |PiecesAt(bits, b, j)| > 1 then Some(OrD(Acc(j, 0), Acc(j, 0), Acc(j, 1))) else None
  }

  datatype Phase = LoadPhase | MaskPhase | ShiftPhase | OrPhase | CombinePhase

  function SlotAt(ph: Phase, bits: nat, b: nat, i: nat, j: nat): Option<Insn>
    requires j < PACK_WORDS
  {
    match ph
    case LoadPhase => LoadPiece(bits, b, i, j)
    case MaskPhase => MaskPiece(bits, b, i, j)
    case ShiftPhase => ShiftPiece(bits, b, i, j)
    case OrPhase => OrPiece(bits, b, i, j)
    case CombinePhase => Combine(bits, b, j)
  }

  function Slots(ph: Phase, bits: nat, b: nat, i: nat): (r: seq<Option<Insn>>)
    requires b <= 2 * bits
    ensures |r| == InFlight(bits, b) && forall j | 0 <= j < |r| :: r[j] == SlotAt(ph, bits, b, i, j)
  {
    seq(InFlight(bits, b), j requires 0 <= j < InFlight(bits, b) => SlotAt(ph, bits, b, i, j))
  }

  function StepCode(bits: nat, b: nat, i: nat): seq<Insn>
    requires b <= 2 * bits
  {
    Flat(Slots(LoadPhase, bits, b, i)) + Flat(Slots(MaskPhase, bits, b, i))
    + Flat(Slots(ShiftPhase, bits, b, i)) + Flat(Slots(OrPhase, bits, b, i))
  }

  function StepsCode(bits: nat, b: nat, n: nat): seq<Insn>
    requires b <= 2 * bits
  {
    if n == 0 then [] else StepsCode(bits, b, n - 1) + StepCode(bits, b, n - 1)
  }

  /** The longest piece list among the first `n` words of the group. */
  function MostPieces(bits: nat, b: nat, n: nat): (r: nat)
    ensures forall j | 0 <= j < n :: |PiecesAt(bits, b, j)| <= r
  {
    if n == 0 then 0
    else
      var m := MostPieces(bits, b, n - 1);
      if |PiecesAt(bits, b, n - 1)| > m then |PiecesAt(bits, b, n - 1)| else m
  }

  function AccRegs(n: nat): (r: seq<Zmm>)
    requires n <= PACK_WORDS
    ensures |r| == n && forall j | 0 <= j < n :: r[j] == Acc(j, 0)
  {
    seq(n, j requires 0 <= j < n => Acc(j, 0))
  }

  function PackGroupCode(bits: nat, b: nat): seq<Insn>
    requires b <= 2 * bits
  {
    StepsCode(bits, b, MostPieces(bits, b, InFlight(bits, b)))
    + Flat(Slots(CombinePhase, bits, b, 0))
    + Stores(Mem(Rdi, 0), 64, b, AccRegs(InFlight(bits, b)))
  }

  function PackGroups(bits: nat, n: nat): seq<Insn>
    requires 1 <= bits && PACK_WORDS * n < 2 * bits + PACK_WORDS
  {
    if n == 0 then [] else PackGroups(bits, n - 1) + PackGroupCode(bits, PACK_WORDS * (n - 1))
  }

  function GroupCount(bits: nat): nat { (2 * bits + PACK_WORDS - 1) / PACK_WORDS }

  function PackCode(bits: nat): seq<Insn>
    requires 1 <= bits <= 32
  {
    Prologue(bits, Plain) + PackGroups(bits, GroupCount(bits))
  }

  // ------------------------------------------------------------ running it

  ghost predicate CanPack(bits: nat, st: State) {
    && 1 <= bits <= 32 && MaskReady(bits, st)
    && st.rdi % 64 == 0 && Mapped(st.mem, st.rdi, 128 * bits)
    && st.rsi % 64 == 0 && Mapped(st.mem, st.rsi, 4096)
    && Disjoint(st.rdi, 128 * bits, st.rsi, 4096)
  }

  function PackedTo(vs: seq<Vec>, bits: nat, n: nat): (r: seq<Vec>)
    requires 1 <= bits <= 32
    ensures |r| == n && forall w | 0 <= w < n :: r[w] == PackedVec(vs, bits, w)
  {
    seq(n, w requires 0 <= w < n => PackedVec(vs, bits, w))
  }

  ghost predicate Packing(bits: nat, st0: State, st: State, b: nat) {
    && CanPack(bits, st0) && SamePointers(st0, st) && b <= 2 * bits
    && Written(st0.mem, st.mem, st0.rdi, 64, PackedTo(VecsAt(st0.mem, st0.rsi, POSITIONS), bits, b))
    && (bits < 32 ==> st.zmm[MASKREG] == Splat(Mask(bits)))
  }

  /** After `n` steps: an accumulator a piece has reached holds the `or` of its parity's pieces. */
  ghost predicate AccAt(vs: seq<Vec>, bits: nat, b: nat, j: nat, n: nat, way: nat, zmm: Regs)
    requires 1 <= bits <= 32 && |vs| == POSITIONS && j < PACK_WORDS && way < WAYS
  {
    var ps := PiecesAt(bits, b, j);
    var k := Least(n, |ps|);
    way < k ==> zmm[Acc(j, way)] == Partial(vs, bits, ps, k, way)
  }

  ghost predicate Accumulated(vs: seq<Vec>, bits: nat, b: nat, n: nat, zmm: Regs)
    requires 1 <= bits <= 32 && |vs| == POSITIONS && b <= 2 * bits
  {
    forall j: nat, way: nat | j < InFlight(bits, b) && way < WAYS :: AccAt(vs, bits, b, j, n, way, zmm)
  }

  /** The vector a piece's register holds after each of the three placing phases. */
  ghost function Placed(ph: Phase, vs: seq<Vec>, bits: nat, p: Piece): Vec
    requires 1 <= bits <= 32 && p.value < |vs|
  {
    match ph
    case LoadPhase => vs[p.value]
    case MaskPhase => VAnd(vs[p.value], Splat(Mask(bits)))
    case _ => PieceVec(vs, bits, p)
  }

  ghost predicate PlacedAt(ph: Phase, vs: seq<Vec>, bits: nat, b: nat, i: nat, j: nat, zmm: Regs)
    requires 1 <= bits <= 32 && |vs| == POSITIONS && j < PACK_WORDS
  {
    i < |PiecesAt(bits, b, j)| ==> zmm[Dst(i, j)] == Placed(ph, vs, bits, PiecesAt(bits, b, j)[i])
  }

  /** Only destinations of live pieces of step `i` differ. */
  ghost predicate DstsOnly(bits: nat, b: nat, i: nat, a: Regs, z: Regs)
    requires b <= 2 * bits
  {
    forall r: Zmm | (forall j: nat | j < InFlight(bits, b) && i < |PiecesAt(bits, b, j)| :: Dst(i, j) != r) :: a[r] == z[r]
  }

  lemma WholeMask(v: Vec)
    ensures VAnd(v, Splat(Mask(32))) == v
  {
    forall l | 0 <= l < 16 ensures And(v[l], Mask(32)) == v[l] {
      assert Mask(32) == ONES;
    }
  }

  lemma NoShift(v: Vec)
    ensures VSll(v, 0) == v && VSrl(v, 0) == v
  {
    forall l | 0 <= l < 16 ensures Sll(v[l], 0) == v[l] && Srl(v[l], 0) == v[l] {
    }
  }

  lemma ZeroOr(v: Vec)
    ensures VOr(Splat(ZERO), v) == v
  {
    forall l | 0 <= l < 16 ensures Or(ZERO, v[l]) == v[l] {
    }
  }

  lemma ValueReads(bits: nat, st0: State, st: State, b: nat, v: nat)
    requires Packing(bits, st0, st, b) && v < POSITIONS
    ensures (st.rsi + 64 * v) % 64 == 0
    ensures Mapped(st.mem, st.rsi + 64 * v, 64)
    ensures LoadVec(st.mem, st.rsi + 64 * v) == VecsAt(st0.mem, st0.rsi, POSITIONS)[v]
  {
    hide LoadVec, Written, PackedVec;
    var vs := VecsAt(st0.mem, st0.rsi, POSITIONS);
    OutsideIntact(st0.mem, st.mem, st0.rdi, PackedTo(vs, bits, b), st.rsi + 64 * v);
  }

  lemma RunLoadPhase(bits: nat, st0: State, st: State, b: nat, i: nat) returns (e: State)
    requires Packing(bits, st0, st, b)
    ensures Run(Flat(Slots(LoadPhase, bits, b, i)), st) == Some(e)
    ensures e == st.(zmm := e.zmm) && DstsOnly(bits, b, i, st.zmm, e.zmm)
    ensures forall j: nat | j < InFlight(bits, b) ::
              PlacedAt(LoadPhase, VecsAt(st0.mem, st0.rsi, POSITIONS), bits, b, i, j, e.zmm)
  {
    hide LoadVec, Written, PackedTo, PackedVec, VecsAt, Splat, Mask, PiecesAt, MaskReady, Mapped, Disjoint;
    hide Parallel, Ok;
    var slots := Slots(LoadPhase, bits, b, i);
    LoadsParallel(bits, st0, st, b, i);
    e := RunSlots(slots, st);
    forall j: nat | j < InFlight(bits, b)
      ensures PlacedAt(LoadPhase, VecsAt(st0.mem, st0.rsi, POSITIONS), bits, b, i, j, e.zmm)
    {
      if slots[j].Some? {
        LoadPieceReads(bits, st0, st, b, i, j);
      }
    }
  }

  lemma LoadPieceReads(bits: nat, st0: State, st: State, b: nat, i: nat, j: nat)
    requires Packing(bits, st0, st, b) && j < InFlight(bits, b) && i < |PiecesAt(bits, b, j)|
    ensures var x := LoadPiece(bits, b, i, j).value;
      Ok(x, st) && Eval(x, st) == VecsAt(st0.mem, st0.rsi, POSITIONS)[PiecesAt(bits, b, j)[i].value]
  {
    hide LoadVec, Written, PackedTo, PackedVec, VecsAt, Splat, Mask, PiecesAt, MaskReady, Mapped, Disjoint;
    ValueReads(bits, st0, st, b, PiecesAt(bits, b, j)[i].value);
  }

  lemma LoadsParallel(bits: nat, st0: State, st: State, b: nat, i: nat)
    requires Packing(bits, st0, st, b)
    ensures Parallel(Slots(LoadPhase, bits, b, i), st)
  {
    hide LoadVec, Written, PackedTo, PackedVec, VecsAt, Splat, Mask, PiecesAt, MaskReady, Mapped, Disjoint, Ok, Eval;
    var slots := Slots(LoadPhase, bits, b, i);
    forall j | 0 <= j < |slots| && slots[j].Some?
      ensures slots[j] == LoadPiece(bits, b, i, j) && Ok(slots[j].value, st)
    {
      LoadPieceReads(bits, st0, st, b, i, j);
    }
  }

  lemma MasksParallel(bits: nat, b: nat, i: nat, st: State)
    requires b <= 2 * bits
    ensures Parallel(Slots(MaskPhase, bits, b, i), st)
  {
    hide PiecesAt;
    var slots := Slots(MaskPhase, bits, b, i);
    assert forall j | 0 <= j < |slots| :: slots[j] == MaskPiece(bits, b, i, j);
  }

  /** A phase whose slots write only their own step's destinations. */
  lemma OnlyDsts(ph: Phase, bits: nat, b: nat, i: nat, st: State, zmm: Regs)
    requires ph == MaskPhase || ph == ShiftPhase
    requires b <= 2 * bits && Parallel(Slots(ph, bits, b, i), st) && SlotsDone(Slots(ph, bits, b, i), st, zmm)
    ensures DstsOnly(bits, b, i, st.zmm, zmm)
  {
    hide PiecesAt, Parallel, Dst;
    var slots := Slots(ph, bits, b, i);
    assert forall j | 0 <= j < |slots| :: slots[j] == SlotAt(ph, bits, b, i, j);
  }

  lemma MaskSlot(vs: seq<Vec>, bits: nat, st: State, b: nat, i: nat, zmm: Regs, j: nat)
    requires 1 <= bits <= 32 && |vs| == POSITIONS && b <= 2 * bits && j < InFlight(bits, b)
    requires bits < 32 ==> st.zmm[MASKREG] == Splat(Mask(bits))
    requires PlacedAt(LoadPhase, vs, bits, b, i, j, st.zmm)
    requires Parallel(Slots(MaskPhase, bits, b, i), st) && SlotsDone(Slots(MaskPhase, bits, b, i), st, zmm)
    ensures PlacedAt(MaskPhase, vs, bits, b, i, j, zmm)
  {
    hide Splat, Mask, PiecesAt, VAnd, Parallel, Dst;
    var slots := Slots(MaskPhase, bits, b, i);
    assert slots[j] == MaskPiece(bits, b, i, j);
    if i < |PiecesAt(bits, b, j)| && bits == 32 {
      WholeMask(vs[PiecesAt(bits, b, j)[i].value]);
      assert forall k | 0 <= k < |slots| :: slots[k] == MaskPiece(bits, b, i, k);
    }
  }

  lemma RunMaskPhase(vs: seq<Vec>, bits: nat, st: State, b: nat, i: nat) returns (e: State)
    requires 1 <= bits <= 32 && |vs| == POSITIONS && b <= 2 * bits
    requires bits < 32 ==> st.zmm[MASKREG] == Splat(Mask(bits))
    requires forall j: nat | j < InFlight(bits, b) :: PlacedAt(LoadPhase, vs, bits, b, i, j, st.zmm)
    ensures Run(Flat(Slots(MaskPhase, bits, b, i)), st) == Some(e)
    ensures e == st.(zmm := e.zmm) && DstsOnly(bits, b, i, st.zmm, e.zmm)
    ensures forall j: nat | j < InFlight(bits, b) :: PlacedAt(MaskPhase, vs, bits, b, i, j, e.zmm)
  {
    hide Splat, Mask, PiecesAt, VAnd, Parallel, SlotsDone, PlacedAt, DstsOnly, SlotAt;
    MasksParallel(bits, b, i, st);
    e := RunSlots(Slots(MaskPhase, bits, b, i), st);
    OnlyDsts(MaskPhase, bits, b, i, st, e.zmm);
    forall j: nat | j < InFlight(bits, b) ensures PlacedAt(MaskPhase, vs, bits, b, i, j, e.zmm) {
      assert PlacedAt(LoadPhase, vs, bits, b, i, j, st.zmm);
      MaskSlot(vs, bits, st, b, i, e.zmm, j);
    }
  }

  lemma ShiftSlot(vs: seq<Vec>, bits: nat, st: State, b: nat, i: nat, zmm: Regs, j: nat)
    requires 1 <= bits <= 32 && |vs| == POSITIONS && b <= 2 * bits && j < InFlight(bits, b)
    requires PlacedAt(MaskPhase, vs, bits, b, i, j, st.zmm)
    requires Parallel(Slots(ShiftPhase, bits, b, i), st) && SlotsDone(Slots(ShiftPhase, bits, b, i), st, zmm)
    ensures PlacedAt(ShiftPhase, vs, bits, b, i, j, zmm)
  {
    hide Splat, Mask, PiecesAt, VAnd, VSll, VSrl, Parallel, Dst, PlacedAt;
    var slots := Slots(ShiftPhase, bits, b, i);
    assert slots[j] == ShiftPiece(bits, b, i, j);
    match slots[j] {
      case Some(ShiftLeft(d, a, n)) => assert zmm[d] == VSll(st.zmm[a], n);
      case Some(ShiftRight(d, a, n)) => assert zmm[d] == VSrl(st.zmm[a], n);
      case None =>
        DstsApart(i);
        assert forall k | 0 <= k < |slots| :: slots[k] == ShiftPiece(bits, b, i, k);
        assert zmm[Dst(i, j)] == st.zmm[Dst(i, j)];
    }
    ShiftedPiece(vs, bits, b, i, j, st.zmm, zmm);
  }

  lemma RunShiftPhase(vs: seq<Vec>, bits: nat, st: State, b: nat, i: nat) returns (e: State)
    requires 1 <= bits <= 32 && |vs| == POSITIONS && b <= 2 * bits
    requires forall j: nat | j < InFlight(bits, b) :: PlacedAt(MaskPhase, vs, bits, b, i, j, st.zmm)
    ensures Run(Flat(Slots(ShiftPhase, bits, b, i)), st) == Some(e)
    ensures e == st.(zmm := e.zmm) && DstsOnly(bits, b, i, st.zmm, e.zmm)
    ensures forall j: nat | j < InFlight(bits, b) :: PlacedAt(ShiftPhase, vs, bits, b, i, j, e.zmm)
  {
    hide PiecesAt, Parallel, SlotsDone, PlacedAt, DstsOnly, SlotAt;
    ShiftsParallel(bits, b, i, st);
    e := RunSlots(Slots(ShiftPhase, bits, b, i), st);
    OnlyDsts(ShiftPhase, bits, b, i, st, e.zmm);
    forall j: nat | j < InFlight(bits, b) ensures PlacedAt(ShiftPhase, vs, bits, b, i, j, e.zmm) {
      assert PlacedAt(MaskPhase, vs, bits, b, i, j, st.zmm);
      ShiftSlot(vs, bits, st, b, i, e.zmm, j);
    }
  }

  lemma DstsApart(i: nat)
    ensures forall j: nat, k: nat | j < PACK_WORDS && k < PACK_WORDS && j != k :: Dst(i, j) != Dst(i, k)
  {
  }

  lemma ShiftsParallel(bits: nat, b: nat, i: nat, st: State)
    requires b <= 2 * bits
    ensures Parallel(Slots(ShiftPhase, bits, b, i), st)
  {
    hide PiecesAt;
    var slots := Slots(ShiftPhase, bits, b, i);
    assert forall j | 0 <= j < |slots| :: slots[j] == ShiftPiece(bits, b, i, j);
  }

  lemma ShiftedPiece(vs: seq<Vec>, bits: nat, b: nat, i: nat, j: nat, before: Regs, after: Regs)
    requires 1 <= bits <= 32 && |vs| == POSITIONS && j < PACK_WORDS
    requires PlacedAt(MaskPhase, vs, bits, b, i, j, before)
    requires ShiftPiece(bits, b, i, j).Some? ==>
               ShiftPiece(bits, b, i, j).value.ShiftLeft? || ShiftPiece(bits, b, i, j).value.ShiftRight?
    requires i < |PiecesAt(bits, b, j)| ==>
      after[Dst(i, j)] == match ShiftPiece(bits, b, i, j)
                          case None => before[Dst(i, j)]
                          case Some(x) => if x.ShiftLeft? then VSll(before[x.a], x.count) else VSrl(before[x.a], x.count)
    ensures PlacedAt(ShiftPhase, vs, bits, b, i, j, after)
  {
    hide Splat, Mask, PiecesAt, VAnd, VSll, VSrl;
    if i < |PiecesAt(bits, b, j)| {
      NoShift(VAnd(vs[PiecesAt(bits, b, j)[i].value], Splat(Mask(bits))));
    }
  }

  /** Loading, masking and shifting step `i`'s pieces leaves each in its destination register. */
  lemma RunPlacing(bits: nat, st0: State, st: State, b: nat, i: nat) returns (e: State)
    requires Packing(bits, st0, st, b)
    ensures Run(Flat(Slots(LoadPhase, bits, b, i)) + Flat(Slots(MaskPhase, bits, b, i))
                + Flat(Slots(ShiftPhase, bits, b, i)), st) == Some(e)
    ensures e == st.(zmm := e.zmm) && DstsOnly(bits, b, i, st.zmm, e.zmm)
    ensures forall j: nat | j < InFlight(bits, b) ::
              PlacedAt(ShiftPhase, VecsAt(st0.mem, st0.rsi, POSITIONS), bits, b, i, j, e.zmm)
  {
    hide Written, PackedTo, VecsAt, Splat, Mask, PlacedAt, SlotAt, PiecesAt, MaskReady, Mapped, Disjoint;
    var vs := VecsAt(st0.mem, st0.rsi, POSITIONS);
    var loads, masks, shifts :=
      Flat(Slots(LoadPhase, bits, b, i)), Flat(Slots(MaskPhase, bits, b, i)), Flat(Slots(ShiftPhase, bits, b, i));
    var e1 := RunLoadPhase(bits, st0, st, b, i);
    var e2 := RunMaskPhase(vs, bits, e1, b, i);
    e := RunShiftPhase(vs, bits, e2, b, i);
    RunAppend(loads, masks, st);
    RunAppend(loads + masks, shifts, st);
  }

  lemma {:induction false} RunStep(bits: nat, st0: State, st: State, b: nat, i: nat) returns (e: State)
    requires Packing(bits, st0, st, b)
    requires Accumulated(VecsAt(st0.mem, st0.rsi, POSITIONS), bits, b, i, st.zmm)
    ensures Run(StepCode(bits, b, i), st) == Some(e) && Packing(bits, st0, e, b) && e.mem == st.mem
    ensures Accumulated(VecsAt(st0.mem, st0.rsi, POSITIONS), bits, b, i + 1, e.zmm)
  {
    hide Written, PackedTo, VecsAt, Splat, Mask, PlacedAt, SlotAt, PiecesAt, MaskReady, Mapped, Disjoint, VOr, AccAt;
    hide Parallel;
    var vs := VecsAt(st0.mem, st0.rsi, POSITIONS);
    var ors := Slots(OrPhase, bits, b, i);
    var e1 := RunPlacing(bits, st0, st, b, i);
    OrsParallel(bits, b, i, e1);
    e := RunSlots(ors, e1);
    RunAppend(Flat(Slots(LoadPhase, bits, b, i)) + Flat(Slots(MaskPhase, bits, b, i))
              + Flat(Slots(ShiftPhase, bits, b, i)), Flat(ors), st);
    KeepsMask(bits, b, i, e1, e);
    var n := i + 1;
    forall j: nat, way: nat | j < InFlight(bits, b) && way < WAYS ensures AccAt(vs, bits, b, j, n, way, e.zmm) {
      assert AccAt(vs, bits, b, j, i, way, st.zmm) && PlacedAt(ShiftPhase, vs, bits, b, i, j, e1.zmm);
      AccStep(bits, b, i, j, way, st.zmm, e1, e);
      StepAcc(vs, bits, b, i, j, way, st.zmm, e1.zmm, e.zmm);
    }
  }

  lemma OrsParallel(bits: nat, b: nat, i: nat, st: State)
    requires b <= 2 * bits
    ensures Parallel(Slots(OrPhase, bits, b, i), st)
  {
    hide PiecesAt;
    var slots := Slots(OrPhase, bits, b, i);
    assert forall j | 0 <= j < |slots| :: slots[j] == OrPiece(bits, b, i, j);
  }

  lemma KeepsMask(bits: nat, b: nat, i: nat, st: State, e: State)
    requires b <= 2 * bits && Parallel(Slots(OrPhase, bits, b, i), st)
    requires SlotsDone(Slots(OrPhase, bits, b, i), st, e.zmm)
    ensures e.zmm[MASKREG] == st.zmm[MASKREG]
  {
    hide PiecesAt, Parallel;
    var slots := Slots(OrPhase, bits, b, i);
    assert forall j | 0 <= j < |slots| :: slots[j] == OrPiece(bits, b, i, j);
  }

  /** What one step does to one accumulator register. */
  ghost predicate AccStepped(bits: nat, b: nat, i: nat, j: nat, way: nat, before: Regs, mid: Regs, after: Regs)
    requires j < PACK_WORDS && way < WAYS
  {
    var r := Acc(j, way);
    if i >= |PiecesAt(bits, b, j)| || i % WAYS != way then after[r] == before[r]
    else if i < WAYS then after[r] == mid[Dst(i, j)]
    else after[r] == VOr(before[r], mid[Dst(i, j)])
  }

  lemma OrsElsewhere(bits: nat, b: nat, i: nat, r: Zmm, st: State, zmm: Regs)
    requires b <= 2 * bits && Parallel(Slots(OrPhase, bits, b, i), st) && SlotsDone(Slots(OrPhase, bits, b, i), st, zmm)
    requires forall k: nat | k < InFlight(bits, b) && OrPiece(bits, b, i, k).Some? :: OrPiece(bits, b, i, k).value.dst != r
    ensures zmm[r] == st.zmm[r]
  {
    hide PiecesAt, Parallel;
    var slots := Slots(OrPhase, bits, b, i);
    assert forall k | 0 <= k < |slots| :: slots[k] == OrPiece(bits, b, i, k);
  }

  lemma OrDone(bits: nat, b: nat, i: nat, j: nat, st: State, zmm: Regs)
    requires b <= 2 * bits && Parallel(Slots(OrPhase, bits, b, i), st) && SlotsDone(Slots(OrPhase, bits, b, i), st, zmm)
    requires j < InFlight(bits, b) && OrPiece(bits, b, i, j).Some?
    ensures zmm[Acc(j, i % WAYS)] == VOr(st.zmm[Acc(j, i % WAYS)], st.zmm[Tmp(j)])
  {
    hide PiecesAt, Parallel, VOr;
    assert Slots(OrPhase, bits, b, i)[j] == OrPiece(bits, b, i, j);
  }

  /** The placing phases leave every accumulator but one a first piece lands in. */
  lemma PlacingElsewhere(bits: nat, b: nat, i: nat, j: nat, way: nat, before: Regs, after: Regs)
    requires b <= 2 * bits && j < InFlight(bits, b) && way < WAYS && DstsOnly(bits, b, i, before, after)
    requires i >= WAYS || i >= |PiecesAt(bits, b, j)| || i % WAYS != way
    ensures after[Acc(j, way)] == before[Acc(j, way)]
  {
    hide PiecesAt;
  }

  lemma AccStep(bits: nat, b: nat, i: nat, j: nat, way: nat, before: Regs, mid: State, e: State)
    requires b <= 2 * bits && j < InFlight(bits, b) && way < WAYS
    requires DstsOnly(bits, b, i, before, mid.zmm)
    requires Parallel(Slots(OrPhase, bits, b, i), mid) && SlotsDone(Slots(OrPhase, bits, b, i), mid, e.zmm)
    ensures AccStepped(bits, b, i, j, way, before, mid.zmm, e.zmm)
  {
    hide PiecesAt, Parallel, VOr, SlotsDone, DstsOnly;
    if i < WAYS || i % WAYS != way || i >= |PiecesAt(bits, b, j)| {
      OrsElsewhere(bits, b, i, Acc(j, way), mid, e.zmm);
    } else {
      OrDone(bits, b, i, j, mid, e.zmm);
    }
    if i >= WAYS || i >= |PiecesAt(bits, b, j)| || i % WAYS != way {
      PlacingElsewhere(bits, b, i, j, way, before, mid.zmm);
    }
  }

  /** One accumulator across one step. */
  lemma StepAcc(vs: seq<Vec>, bits: nat, b: nat, i: nat, j: nat, way: nat, before: Regs, mid: Regs, after: Regs)
    requires 1 <= bits <= 32 && |vs| == POSITIONS && j < PACK_WORDS && way < WAYS
    requires AccAt(vs, bits, b, j, i, way, before) && PlacedAt(ShiftPhase, vs, bits, b, i, j, mid)
    requires AccStepped(bits, b, i, j, way, before, mid, after)
    ensures AccAt(vs, bits, b, j, i + 1, way, after)
  {
    hide PiecesAt, VOr, PieceVec;
    var ps := PiecesAt(bits, b, j);
    if i < |ps| && i < WAYS && i % WAYS == way {
      ZeroOr(PieceVec(vs, bits, ps[i]));
      assert Partial(vs, bits, ps, i, way) == Splat(ZERO);
    }
  }

  lemma {:induction false} RunSteps(bits: nat, st0: State, st: State, b: nat, n: nat) returns (e: State)
    requires Packing(bits, st0, st, b)
    ensures Run(StepsCode(bits, b, n), st) == Some(e) && Packing(bits, st0, e, b) && e.mem == st.mem
    ensures Accumulated(VecsAt(st0.mem, st0.rsi, POSITIONS), bits, b, n, e.zmm)
  {
    hide Written, PackedTo, VecsAt, Splat, Mask, PiecesAt, MaskReady, Disjoint, StepCode;
    e := st;
    if n > 0 {
      var before := RunSteps(bits, st0, st, b, n - 1);
      e := RunStep(bits, st0, before, b, n - 1);
      RunAppend(StepsCode(bits, b, n - 1), StepCode(bits, b, n - 1), st);
    }
  }

  /** Combining the two accumulators leaves the packed word in the first. */
  lemma CombineSlot(bits: nat, st: State, b: nat, zmm: Regs, j: nat)
    requires b <= 2 * bits && j < InFlight(bits, b)
    requires Parallel(Slots(CombinePhase, bits, b, 0), st) && SlotsDone(Slots(CombinePhase, bits, b, 0), st, zmm)
    ensures zmm[Acc(j, 0)] == if |PiecesAt(bits, b, j)| > 1 then VOr(st.zmm[Acc(j, 0)], st.zmm[Acc(j, 1)])
                              else st.zmm[Acc(j, 0)]
  {
    hide PiecesAt, VOr, Parallel;
    var slots := Slots(CombinePhase, bits, b, 0);
    assert forall k | 0 <= k < |slots| :: slots[k] == Combine(bits, b, k);
    assert slots[j].None? ==> zmm[Acc(j, 0)] == st.zmm[Acc(j, 0)];
  }

  lemma CombinesKeepMask(bits: nat, st: State, b: nat, zmm: Regs)
    requires b <= 2 * bits
    requires Parallel(Slots(CombinePhase, bits, b, 0), st) && SlotsDone(Slots(CombinePhase, bits, b, 0), st, zmm)
    ensures zmm[MASKREG] == st.zmm[MASKREG]
  {
    hide PiecesAt, VOr, Parallel;
    var slots := Slots(CombinePhase, bits, b, 0);
    assert forall k | 0 <= k < |slots| :: slots[k] == Combine(bits, b, k);
  }

  lemma RunCombine(vs: seq<Vec>, bits: nat, st: State, b: nat, n: nat) returns (e: State)
    requires 1 <= bits <= 32 && |vs| == POSITIONS && b <= 2 * bits
    requires Accumulated(vs, bits, b, n, st.zmm)
    requires forall j: nat | j < InFlight(bits, b) :: |PiecesAt(bits, b, j)| <= n
    ensures Run(Flat(Slots(CombinePhase, bits, b, 0)), st) == Some(e)
    ensures e == st.(zmm := e.zmm) && e.zmm[MASKREG] == st.zmm[MASKREG]
    ensures forall j: nat | j < InFlight(bits, b) :: e.zmm[Acc(j, 0)] == PackedVec(vs, bits, b + j)
  {
    hide PiecesAt, VOr, PieceVec, PackedVec, AccAt, Parallel, SlotsDone, Slots, Flat;
    CombinesParallel(bits, b, st);
    e := RunSlots(Slots(CombinePhase, bits, b, 0), st);
    CombinesKeepMask(bits, st, b, e.zmm);
    forall j: nat | j < InFlight(bits, b) ensures e.zmm[Acc(j, 0)] == PackedVec(vs, bits, b + j) {
      assert AccAt(vs, bits, b, j, n, 0, st.zmm) && AccAt(vs, bits, b, j, n, 1, st.zmm);
      CombineSlot(bits, st, b, e.zmm, j);
      CombinedWord(vs, bits, b, j, n, st.zmm, e.zmm);
    }
  }

  lemma CombinesParallel(bits: nat, b: nat, st: State)
    requires b <= 2 * bits
    ensures Parallel(Slots(CombinePhase, bits, b, 0), st)
  {
    hide PiecesAt;
    var slots := Slots(CombinePhase, bits, b, 0);
    assert forall j | 0 <= j < |slots| :: slots[j] == Combine(bits, b, j);
  }

  lemma CombinedWord(vs: seq<Vec>, bits: nat, b: nat, j: nat, n: nat, before: Regs, after: Regs)
    requires 1 <= bits <= 32 && |vs| == POSITIONS && b + j < 2 * bits && j < PACK_WORDS
    requires AccAt(vs, bits, b, j, n, 0, before) && AccAt(vs, bits, b, j, n, 1, before)
    requires |PiecesAt(bits, b, j)| <= n
    requires after[Acc(j, 0)] == if |PiecesAt(bits, b, j)| > 1 then VOr(before[Acc(j, 0)], before[Acc(j, 1)])
                                 else before[Acc(j, 0)]
    ensures after[Acc(j, 0)] == PackedVec(vs, bits, b + j)
  {
    hide PieceVec, PackedVec, VOr, Pieces;
    PiecesMakeWord(vs, bits, b + j);
    var ps := PiecesAt(bits, b, j);
    if |ps| == 1 {
      assert Partial(vs, bits, ps, 1, 1) == Splat(ZERO);
      OrZero(Partial(vs, bits, ps, 1, 0));
    }
  }

  lemma OrZero(v: Vec)
    ensures VOr(v, Splat(ZERO)) == v
  {
    forall l | 0 <= l < 16 ensures Or(v[l], ZERO) == v[l] {
    }
  }

  /** The group's words, built in their first accumulators. */
  lemma RunWords(bits: nat, st0: State, st: State, b: nat) returns (e: State)
    requires Packing(bits, st0, st, b)
    ensures Run(StepsCode(bits, b, MostPieces(bits, b, InFlight(bits, b))) + Flat(Slots(CombinePhase, bits, b, 0)), st)
         == Some(e)
    ensures Packing(bits, st0, e, b)
    ensures forall j: nat | j < InFlight(bits, b) ::
              e.zmm[Acc(j, 0)] == PackedVec(VecsAt(st0.mem, st0.rsi, POSITIONS), bits, b + j)
  {
    hide Written, VecsAt, Splat, Mask, PiecesAt, MaskReady, Disjoint, StepsCode, PackedVec, PackedTo, AccAt, Slots;
    var n := MostPieces(bits, b, InFlight(bits, b));
    var e1 := RunSteps(bits, st0, st, b, n);
    e := RunCombine(VecsAt(st0.mem, st0.rsi, POSITIONS), bits, e1, b, n);
    RunAppend(StepsCode(bits, b, n), Flat(Slots(CombinePhase, bits, b, 0)), st);
  }

  lemma RunPackStores(bits: nat, st0: State, st: State, b: nat) returns (e: State)
    requires Packing(bits, st0, st, b) && b < 2 * bits
    requires forall j: nat | j < InFlight(bits, b) ::
               st.zmm[Acc(j, 0)] == PackedVec(VecsAt(st0.mem, st0.rsi, POSITIONS), bits, b + j)
    ensures Run(Stores(Mem(Rdi, 0), 64, b, AccRegs(InFlight(bits, b))), st) == Some(e)
    ensures Packing(bits, st0, e, b + InFlight(bits, b))
  {
    hide Written, VecsAt, Splat, Mask, MaskReady, Disjoint, PackedVec, PackedTo, LoadVec, Stores;
    var vs, c := VecsAt(st0.mem, st0.rsi, POSITIONS), InFlight(bits, b);
    var out := Contents(st.zmm, AccRegs(c));
    PackedAppend(vs, bits, b, out);
    hide Contents, AccRegs;
    e := RunRowStores(st0.rdi, PackedTo(vs, bits, b), AccRegs(c), PackedTo(vs, bits, b + c), st0.mem, st);
  }

  lemma RunPackGroup(bits: nat, st0: State, st: State, b: nat) returns (e: State)
    requires Packing(bits, st0, st, b) && b < 2 * bits
    ensures Run(PackGroupCode(bits, b), st) == Some(e)
    ensures Packing(bits, st0, e, b + InFlight(bits, b))
  {
    hide Packing, StepsCode, Slots, MostPieces, PackedVec;
    var c := InFlight(bits, b);
    var e1 := RunWords(bits, st0, st, b);
    e := RunPackStores(bits, st0, e1, b);
    RunAppend(StepsCode(bits, b, MostPieces(bits, b, c)) + Flat(Slots(CombinePhase, bits, b, 0)),
              Stores(Mem(Rdi, 0), 64, b, AccRegs(c)), st);
  }

  lemma PackedAppend(vs: seq<Vec>, bits: nat, b: nat, out: seq<Vec>)
    requires 1 <= bits <= 32
    requires forall j: nat | j < |out| :: out[j] == PackedVec(vs, bits, b + j)
    ensures PackedTo(vs, bits, b) + out == PackedTo(vs, bits, b + |out|)
  {
    hide PackedVec;
  }

  lemma {:induction false} RunPackGroups(bits: nat, st0: State, st: State, n: nat) returns (e: State)
    requires 1 <= bits && Packing(bits, st0, st, 0) && PACK_WORDS * n < 2 * bits + PACK_WORDS
    ensures Run(PackGroups(bits, n), st) == Some(e)
    ensures Packing(bits, st0, e, if PACK_WORDS * n < 2 * bits then PACK_WORDS * n else 2 * bits)
  {
    hide Packing, PackGroupCode;
    e := st;
    if n > 0 {
      var before := RunPackGroups(bits, st0, st, n - 1);
      e := RunPackGroup(bits, st0, before, PACK_WORDS * (n - 1));
      RunAppend(PackGroups(bits, n - 1), PackGroupCode(bits, PACK_WORDS * (n - 1)), st);
    }
  }

  lemma RunMaskPrologue(bits: nat, st: State) returns (e: State)
    requires CanPack(bits, st)
    ensures Run(Prologue(bits, Plain), st) == Some(e) && Packing(bits, st, e, 0)
  {
    hide LoadVec, Splat, Mask;
    if bits < 32 {
      var lea, load := LeaMask(bits), VLoad(MASKREG, Mem(Rax, 0));
      RunOne(lea, st);
      var e1 := Step(lea, st);
      RunOne(load, e1);
      e := Step(load, e1);
      RunAppend([lea], [load], st);
      assert [lea] + [load] == Prologue(bits, Plain);
    } else {
      e := st;
    }
  }

  /** Running `code` from `st` does not fault, stores the packed block, and changes no other memory. */
  ghost predicate Packs(code: seq<Insn>, bits: nat, st: State)
    requires CanPack(bits, st)
  {
    && Run(code, st).Some?
    && var m := Run(code, st).value.mem;
    && OnlyChanges(st.mem, m, st.rdi, 128 * bits)
    && VecsAt(m, st.rdi, 2 * bits) == PackedTo(VecsAt(st.mem, st.rsi, POSITIONS), bits, 2 * bits)
  }

  /** The packing kernel theorem, for arbitrary values, rubbish above the width included. */
  lemma PackRuns(bits: nat, st: State)
    requires CanPack(bits, st)
    ensures Packs(PackCode(bits), bits, st)
  {
    hide LoadVec, PackedVec;
    var e0 := RunMaskPrologue(bits, st);
    var e := RunPackGroups(bits, st, e0, GroupCount(bits));
    RunAppend(Prologue(bits, Plain), PackGroups(bits, GroupCount(bits)), st);
    RowsCoverBuffer(st.mem, e.mem, st.rdi, PackedTo(VecsAt(st.mem, st.rsi, POSITIONS), bits, 2 * bits));
  }

  // ------------------------------------------------------------ the generator

  /** One phase of one step: the slots of the words in flight, in order. */
  method EmitPhase(ph: Phase, table: seq<seq<Piece>>, bits: nat, b: nat, i: nat) returns (out: seq<Insn>)
    requires 1 <= bits <= 32 && b <= 2 * bits && |table| == 2 * bits
    requires forall w | 0 <= w < 2 * bits :: table[w] == Pieces(bits, w, POSITIONS)
    ensures out == Flat(Slots(ph, bits, b, i))
  {
    hide Pieces, Flat, Place, PieceOf;
    ghost var slots := Slots(ph, bits, b, i);
    assert slots[..0] == [] && Flat(slots[..0]) == [] by { FlatEmpty(); }
    out := [];
    for j := 0 to InFlight(bits, b)
      invariant out == Flat(slots[..j])
    {
      var ps := table[b + j];
      assert ps == PiecesAt(bits, b, j);
      match ph {
        case LoadPhase =>
          if i < |ps| {
            out := out + [VLoad(Dst(i, j), Mem(Rsi, 64 * ps[i].value))];
          }
        case MaskPhase =>
          if bits < 32 && |ps| > i {
            out := out + [AndD(Dst(i, j), Dst(i, j), MASKREG)];
          }
        case ShiftPhase =>
          if i < |ps| && ps[i].amount != 0 {
            out := out + [if ps[i].left then ShiftLeft(Dst(i, j), Dst(i, j), ps[i].amount)
                          else ShiftRight(Dst(i, j), Dst(i, j), ps[i].amount)];
          }
        case OrPhase =>
          if i >= WAYS && |ps| > i {
            out := out + [OrD(Acc(j, i % WAYS), Acc(j, i % WAYS), Tmp(j))];
          }
        case CombinePhase =>
          if |ps| > 1 {
            out := out + [OrD(Acc(j, 0), Acc(j, 0), Acc(j, 1))];
          }
      }
      FlatSnoc(slots, j);
    }
    FlatWhole(slots);
  }

  method EmitPackGroup(table: seq<seq<Piece>>, bits: nat, b: nat) returns (out: seq<Insn>)
    requires 1 <= bits <= 32 && b <= 2 * bits && |table| == 2 * bits
    requires forall w | 0 <= w < 2 * bits :: table[w] == Pieces(bits, w, POSITIONS)
    ensures out == PackGroupCode(bits, b)
  {
    hide Pieces, Flat;
    var c, steps := InFlight(bits, b), 0;
    for j := 0 to c
      invariant steps == MostPieces(bits, b, j)
    {
      assert table[b + j] == PiecesAt(bits, b, j);
      if |table[b + j]| > steps {
        steps := |table[b + j]|;
      }
    }
    out := [];
    for i := 0 to steps
      invariant out == StepsCode(bits, b, i)
    {
      var loads := EmitPhase(LoadPhase, table, bits, b, i);
      var masks := EmitPhase(MaskPhase, table, bits, b, i);
      var shifts := EmitPhase(ShiftPhase, table, bits, b, i);
      var ors := EmitPhase(OrPhase, table, bits, b, i);
      out := out + (loads + masks + shifts + ors);
    }
    var combines := EmitPhase(CombinePhase, table, bits, b, 0);
    var stores := EmitStores(b, AccRegs(c));
    out := out + combines + stores;
  }

  /** `knc_pack_bN`: the generator's output, and what running it does from every machine state. */
  method EmitPack(bits: nat) returns (out: seq<Insn>)
    requires 1 <= bits <= 32
    ensures out == PackCode(bits)
    ensures forall st | CanPack(bits, st) :: Packs(out, bits, st)
  {
    hide PackGroupCode, CanPack, Packs, Pieces;
    var table := PieceTable(bits);
    out := [];
    if bits < 32 {
      out := [LeaMask(bits), VLoad(MASKREG, Mem(Rax, 0))];
    }
    assert out == Prologue(bits, Plain);
    for g := 0 to GroupCount(bits)
      invariant out == Prologue(bits, Plain) + PackGroups(bits, g)
    {
      var group := EmitPackGroup(table, bits, PACK_WORDS * g);
      out := out + group;
    }
    forall st | CanPack(bits, st) ensures Packs(out, bits, st) {
      PackRuns(bits, st);
    }
  }
}
