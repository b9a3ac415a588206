/** The scalar layout model the card's conformance test checks every kernel against, loop for loop,
    proved against the same stream specification as the generated kernels. */
module Scalar {
  import opened Words
  import opened Options
  import opened Layout
  import opened UnpackKernel
  import opened PackKernel
  import opened TransformKernel
  import Codec

  const BLOCK: nat := 1024
  const LANES: nat := 16

  /** A flat array of words as rows of sixteen lanes. */
  function Rows(s: seq<Word>): (r: seq<Vec>)
    ensures |r| == |s| / LANES
    ensures forall w: nat, l: nat {:trigger r[w][l]} | w < |r| && l < LANES :: r[w][l] == s[LANES * w + l]
  {
    seq(|s| / LANES, w requires 0 <= w < |s| / LANES => s[LANES * w..LANES * w + LANES])
  }

  lemma RowsAt(s: seq<Word>, i: nat)
    requires i < |s| && |s| % LANES == 0
    ensures i / LANES < |Rows(s)| && Rows(s)[i / LANES][i % LANES] == s[i]
  {
    assert LANES * (i / LANES) + i % LANES == i;
  }

  /** Value `i` of a block: lane `i % 16` at position `i / 16`. */
  function At(vs: seq<Vec>, i: nat): Word
    requires i < LANES * |vs|
  {
    vs[i / LANES][i % LANES]
  }

  /** Rows agree when every word does. */
  lemma RowsEqual(s: seq<Word>, vs: seq<Vec>)
    requires |s| == LANES * |vs|
    requires forall i: nat | i < |s| :: s[i] == At(vs, i)
    ensures Rows(s) == vs
  {
    forall w: nat | w < |vs| ensures Rows(s)[w] == vs[w] {
      forall l: nat | l < LANES ensures Rows(s)[w][l] == vs[w][l] {
        assert s[LANES * w + l] == At(vs, LANES * w + l);
        assert (LANES * w + l) / LANES == w && (LANES * w + l) % LANES == l;
      }
    }
  }

  // ------------------------------------------------------------ pack

  /** A packed word with only the first `n` positions in. */
  function PartWord(vs: seq<Vec>, bits: nat, w: nat, l: nat, n: nat): (r: Word)
    requires 1 <= bits <= 32 && l < 16
    ensures forall t | 0 <= t < 32 :: r[t] == ((32 * w + t) / bits < n && BlockBit(vs, bits, l, 32 * w + t))
  {
    seq(32, t requires 0 <= t < 32 => (32 * w + t) / bits < n && BlockBit(vs, bits, l, 32 * w + t))
  }

  lemma PartStep(vs: seq<Vec>, bits: nat, w: nat, l: nat, pos: nat)
    requires 1 <= bits <= 32 && |vs| == POSITIONS && w < 2 * bits && l < 16 && pos < POSITIONS
    ensures PartWord(vs, bits, w, l, pos + 1) ==
            match PieceOf(bits, pos, w)
            case None => PartWord(vs, bits, w, l, pos)
            case Some(p) => Or(PartWord(vs, bits, w, l, pos), PieceVec(vs, bits, p)[l])
  {
    hide PieceVec;
    var piece := PieceOf(bits, pos, w);
    var before, after := PartWord(vs, bits, w, l, pos), PartWord(vs, bits, w, l, pos + 1);
    forall t: nat | t < 32
      ensures after[t] == (before[t] || (piece.Some? && PieceVec(vs, bits, piece.value)[l][t]))
    {
      BitHasPiece(bits, w, t, 32 * w + t);
      if piece.Some? {
        PieceBit(vs, bits, w, piece.value, l, t, 32 * w + t);
      }
    }
    if piece.Some? {
      assert after == Or(before, PieceVec(vs, bits, piece.value)[l]);
    } else {
      assert after == before;
    }
  }

  /** How many of the first `i` values are in lane `l`. */
  function InLane(i: nat, l: nat): nat
    requires l < LANES
  {
    (i + LANES - 1 - l) / LANES
  }

  ghost predicate PackedSoFar(p: seq<Word>, vs: seq<Vec>, bits: nat, i: nat)
    requires 1 <= bits <= 32
  {
    |p| == LANES * (2 * bits) &&
    forall w: nat, l: nat {:trigger PartWord(vs, bits, w, l, InLane(i, l))} | w < 2 * bits && l < LANES ::
      p[Cell(w, l)] == PartWord(vs, bits, w, l, InLane(i, l))
  }

  /** Lane `l` of row `w` in the flat array. */
  function Cell(w: nat, l: nat): nat { LANES * w + l }

  lemma CellIn(w: nat, l: nat, n: nat)
    requires w < n && l < LANES
    ensures Cell(w, l) < LANES * n
  {
  }

  lemma CellsApart(w: nat, l: nat, w': nat, l': nat)
    requires l < LANES && l' < LANES
    ensures Cell(w, l) == Cell(w', l') <==> w == w' && l == l'
  {
  }

  /** `val` is or-ed in at shift `s` of row `w`, what passes the word's end into the next row. */
  ghost predicate Added(p: seq<Word>, q: seq<Word>, bits: nat, lane: nat, val: Word, w: nat, s: nat)
    requires 1 <= bits <= 32 && |p| == LANES * (2 * bits) && lane < LANES && s < 32
  {
    w < 2 * bits && (s + bits > 32 ==> w + 1 < 2 * bits) &&
    var once := p[Cell(w, lane) := Or(p[Cell(w, lane)], Sll(val, s))];
    q == if s + bits > 32 then once[Cell(w + 1, lane) := Or(once[Cell(w + 1, lane)], Srl(val, 32 - s))] else once
  }

  /** What one word of lane `lane` becomes. */
  function WordAdded(p: Word, bits: nat, val: Word, w: nat, s: nat, x: nat): Word
    requires s < 32
  {
    if x == w then Or(p, Sll(val, s)) else if x == w + 1 && s + bits > 32 then Or(p, Srl(val, 32 - s)) else p
  }

  lemma AddedAt(p: seq<Word>, q: seq<Word>, bits: nat, lane: nat, val: Word, w: nat, s: nat, x: nat, l: nat)
    requires 1 <= bits <= 32 && |p| == LANES * (2 * bits) && lane < LANES && s < 32
    requires Added(p, q, bits, lane, val, w, s) && x < 2 * bits && l < LANES
    ensures Cell(x, l) < |p| == |q|
    ensures q[Cell(x, l)] == if l == lane then WordAdded(p[Cell(x, l)], bits, val, w, s, x) else p[Cell(x, l)]
  {
    hide Cell, Or, Sll, Srl;
    CellIn(x, l, 2 * bits);
    CellIn(w, lane, 2 * bits);
    CellsApart(x, l, w, lane);
    if s + bits > 32 {
      CellIn(w + 1, lane, 2 * bits);
      CellsApart(x, l, w + 1, lane);
      CellsApart(w, lane, w + 1, lane);
    }
  }

  /** One word of the lane that value `i` is packed into. */
  lemma PackWord(p: Word, vs: seq<Vec>, bits: nat, i: nat, x: nat)
    requires 1 <= bits <= 32 && |vs| == POSITIONS && i < BLOCK && x < 2 * bits
    requires p == PartWord(vs, bits, x, i % LANES, i / LANES)
    ensures var (w, s) := Place(bits, i / LANES);
      WordAdded(p, bits, And(vs[i / LANES][i % LANES], Mask(bits)), w, s, x)
      == PartWord(vs, bits, x, i % LANES, i / LANES + 1)
  {
    hide PieceVec, PieceOf, PartWord, Place, And, Or, Sll, Srl, Mask;
    ScalarPieces(vs, bits, i / LANES, i % LANES);
    PartStep(vs, bits, x, i % LANES, i / LANES);
  }

  /** Or-ing value `i` into its one or two words. */
  lemma PackOne(p: seq<Word>, q: seq<Word>, vs: seq<Vec>, bits: nat, i: nat)
    requires 1 <= bits <= 32 && |vs| == POSITIONS && i < BLOCK && PackedSoFar(p, vs, bits, i)
    requires Added(p, q, bits, i % LANES, And(vs[i / LANES][i % LANES], Mask(bits)),
                   Place(bits, i / LANES).0, Place(bits, i / LANES).1)
    ensures PackedSoFar(q, vs, bits, i + 1)
  {
    hide PartWord, Place, And, Mask, InLane, Cell, Added, WordAdded;
    PlaceInBlock(bits, i / LANES);
    var (w, s) := Place(bits, i / LANES);
    AddedAt(p, q, bits, i % LANES, And(vs[i / LANES][i % LANES], Mask(bits)), w, s, 0, 0);
    forall x: nat, l: nat | x < 2 * bits && l < LANES
      ensures Cell(x, l) < |q| == |p| && q[Cell(x, l)] == PartWord(vs, bits, x, l, InLane(i + 1, l))
    {
      AddedAt(p, q, bits, i % LANES, And(vs[i / LANES][i % LANES], Mask(bits)), w, s, x, l);
      LaneCount(i, l);
      if l == i % LANES {
        PackWord(p[Cell(x, l)], vs, bits, i, x);
      }
    }
  }

  lemma LaneCount(i: nat, l: nat)
    requires l < LANES
    ensures if l == i % LANES then InLane(i, l) == i / LANES && InLane(i + 1, l) == i / LANES + 1
            else InLane(i + 1, l) == InLane(i, l)
  {
  }

  /** One value into its one or two words. */
  method OrIn(p: array<Word>, bits: nat, lane: nat, val: Word, w: nat, s: nat)
    requires 1 <= bits <= 32 && p.Length == LANES * (2 * bits) && lane < LANES && s < 32
    requires w < 2 * bits && (s + bits > 32 ==> w + 1 < 2 * bits)
    modifies p
    ensures Added(old(p[..]), p[..], bits, lane, val, w, s)
  {
    hide Or, Sll, Srl;
    p[w * LANES + lane] := Or(p[w * LANES + lane], Sll(val, s));
    if s + bits > 32 {
      p[(w + 1) * LANES + lane] := Or(p[(w + 1) * LANES + lane], Srl(val, 32 - s));
    }
  }

  /** `scalar_pack`. */
  method ScalarPack(p: array<Word>, v: array<Word>, bits: nat)
    requires 1 <= bits <= 32 && p.Length == 32 * bits && v.Length == BLOCK && p != v
    modifies p
    ensures Rows(p[..]) == PackedTo(Rows(v[..]), bits, 2 * bits)
  {
    hide PartWord, PieceVec, PieceOf, And, Mask, Place, Added, PackedSoFar, Rows;
    var m := Mask(bits);
    for k := 0 to p.Length
      invariant forall x: nat | x < k :: p[x] == ZERO
    {
      p[k] := ZERO;
    }
    ghost var vs := Rows(v[..]);
    assert PackedSoFar(p[..], vs, bits, 0) by { NothingPacked(p[..], vs, bits); }
    for i := 0 to BLOCK
      invariant PackedSoFar(p[..], vs, bits, i)
      invariant v[..] == old(v[..])
    {
      var lane, pos := i % LANES, i / LANES;
      var (w, s) := Place(bits, pos);
      PlaceInBlock(bits, pos);
      RowsAt(v[..], i);
      var val := And(v[i], m);
      ghost var before := p[..];
      OrIn(p, bits, lane, val, w, s);
      PackOne(before, p[..], vs, bits, i);
    }
    AllPacked(p[..], vs, bits);
  }

  lemma ScalarPieces(vs: seq<Vec>, bits: nat, pos: nat, lane: nat)
    requires 1 <= bits <= 32 && |vs| == POSITIONS && pos < POSITIONS && lane < LANES
    ensures var (w, s) := Place(bits, pos);
      var val := And(vs[pos][lane], Mask(bits));
      s < 32
      && PieceOf(bits, pos, w) == Some(Piece(pos, true, s))
      && PieceVec(vs, bits, Piece(pos, true, s))[lane] == Sll(val, s)
      && (s + bits > 32 ==> PieceOf(bits, pos, w + 1) == Some(Piece(pos, false, 32 - s))
                            && PieceVec(vs, bits, Piece(pos, false, 32 - s))[lane] == Srl(val, 32 - s))
      && (forall x: nat | x != w && (x != w + 1 || s + bits <= 32) :: PieceOf(bits, pos, x).None?)
  {
    hide Mask, And, Sll, Srl;
  }

  lemma NothingPacked(p: seq<Word>, vs: seq<Vec>, bits: nat)
    requires 1 <= bits <= 32 && |p| == LANES * (2 * bits) && forall x: nat | x < |p| :: p[x] == ZERO
    ensures PackedSoFar(p, vs, bits, 0)
  {
    hide PartWord;
    forall w: nat, l: nat | w < 2 * bits && l < LANES
      ensures p[Cell(w, l)] == PartWord(vs, bits, w, l, InLane(0, l))
    {
      EmptyWord(vs, bits, w, l);
    }
  }

  lemma EmptyWord(vs: seq<Vec>, bits: nat, w: nat, l: nat)
    requires 1 <= bits <= 32 && l < LANES
    ensures PartWord(vs, bits, w, l, InLane(0, l)) == ZERO
  {
    hide PartWord;
    assert InLane(0, l) == 0;
    NoPositions(PartWord(vs, bits, w, l, 0), bits, w);
  }

  lemma NoPositions(r: Word, bits: nat, w: nat)
    requires bits >= 1 && forall t | 0 <= t < 32 :: r[t] ==> (32 * w + t) / bits < 0
    ensures r == ZERO
  {
    forall t | 0 <= t < 32
      ensures !r[t]
    {
      assert (32 * w + t) / bits >= 0;
    }
  }

  lemma AllPacked(p: seq<Word>, vs: seq<Vec>, bits: nat)
    requires 1 <= bits <= 32 && |vs| == POSITIONS && PackedSoFar(p, vs, bits, BLOCK)
    ensures Rows(p) == PackedTo(vs, bits, 2 * bits)
  {
    forall i: nat | i < |p| ensures p[i] == At(PackedTo(vs, bits, 2 * bits), i) {
      var w, l := i / LANES, i % LANES;
      assert p[Cell(w, l)] == PartWord(vs, bits, w, l, InLane(BLOCK, l));
      assert InLane(BLOCK, l) == POSITIONS;
      WholeWord(vs, bits, w, l);
    }
    RowsEqual(p, PackedTo(vs, bits, 2 * bits));
  }

  lemma WholeWord(vs: seq<Vec>, bits: nat, w: nat, l: nat)
    requires 1 <= bits <= 32 && |vs| == POSITIONS && l < 16
    ensures PartWord(vs, bits, w, l, POSITIONS) == PackedWord(vs, bits, w, l)
  {
  }

  // ------------------------------------------------------------ unpack

  /** `scalar_unpack`. */
  method ScalarUnpack(out: array<Word>, p: array<Word>, bits: nat)
    requires 1 <= bits <= 32 && p.Length == 32 * bits && out.Length == BLOCK && out != p
    modifies out
    ensures Rows(out[..]) == DecodedTo(Plain, Rows(old(p[..])), Splat(ZERO), bits, POSITIONS)
  {
    hide At, DecodedTo, And, Or, Srl, Sll, Mask, Place, Rows;
    var m := Mask(bits);
    ghost var ws := Rows(p[..]);
    ghost var want := DecodedTo(Plain, ws, Splat(ZERO), bits, POSITIONS);
    for i := 0 to BLOCK
      invariant p[..] == old(p[..])
      invariant forall k: nat | k < i :: out[k] == At(want, k)
    {
      var lane, pos := i % LANES, i / LANES;
      var (w, s) := Place(bits, pos);
      PlaceInBlock(bits, pos);
      var val := Srl(p[w * LANES + lane], s);
      if s + bits > 32 {
        val := Or(val, Sll(p[(w + 1) * LANES + lane], 32 - s));
      }
      UnpackOne(p[..], bits, i);
      out[i] := And(val, m);
    }
    RowsEqual(out[..], want);
  }

  lemma UnpackOne(p: seq<Word>, bits: nat, i: nat)
    requires 1 <= bits <= 32 && |p| == 32 * bits && i < BLOCK
    ensures var (w, s) := Place(bits, i / LANES);
      var lane := i % LANES;
      var want := At(DecodedTo(Plain, Rows(p), Splat(ZERO), bits, POSITIONS), i);
      LANES * w + lane < |p| && (s + bits > 32 ==> LANES * (w + 1) + lane < |p|) && s < 32 &&
      want == And(if s + bits > 32 then Or(Srl(p[LANES * w + lane], s), Sll(p[LANES * (w + 1) + lane], 32 - s))
                  else Srl(p[LANES * w + lane], s), Mask(bits))
  {
    hide And, Or, Srl, Sll, Mask, Field;
    var ws, pos, lane := Rows(p), i / LANES, i % LANES;
    PlaceInBlock(bits, pos);
    HoldsBelow(ws, bits, pos);
    ExtractIsField(ws, bits, pos, lane);
    var (w, s) := Place(bits, pos);
    assert ws[w][lane] == p[LANES * w + lane];
    if s + bits > 32 {
      assert ws[w + 1][lane] == p[LANES * (w + 1) + lane];
    }
  }

  // ------------------------------------------------------------ the cascaded encodings

  /** `scalar_encode_for` and `scalar_encode_delta`. */
  method ScalarEncode(mode: Mode, out: array<Word>, v: array<Word>, base: array<Word>)
    requires mode != Plain && out.Length == v.Length == BLOCK && base.Length == LANES && out != v && out != base
    modifies out
    ensures Rows(out[..]) == EncodedTo(mode, Rows(old(v[..])), old(base[..]), POSITIONS)
  {
    hide Sub, At, EncodedTo, Rows;
    ghost var vs, b := Rows(v[..]), base[..];
    ghost var want := EncodedTo(mode, vs, b, POSITIONS);
    for i := 0 to BLOCK
      invariant v[..] == old(v[..]) && base[..] == b
      invariant forall k: nat | k < i :: out[k] == At(want, k)
    {
      var reference := if mode == For || i < LANES then base[i % LANES] else v[i - LANES];
      EncodedWord(mode, v[..], b, i);
      out[i] := Sub(v[i], reference);
    }
    RowsEqual(out[..], want);
  }

  lemma EncodedWord(mode: Mode, v: seq<Word>, base: Vec, i: nat)
    requires mode != Plain && |v| == BLOCK && i < BLOCK
    ensures At(EncodedTo(mode, Rows(v), base, POSITIONS), i)
         == Sub(v[i], if mode == For || i < LANES then base[i % LANES] else v[i - LANES])
  {
    hide Sub;
    RowsAt(v, i);
    if i >= LANES {
      RowsAt(v, i - LANES);
    }
  }

  /** `scalar_decode_for` and `scalar_decode_delta`, which rebuild from the residues' own output. */
  method ScalarDecode(mode: Mode, out: array<Word>, residues: array<Word>, base: array<Word>)
    requires mode != Plain && out.Length == residues.Length == BLOCK && base.Length == LANES
    requires out != residues && out != base
    modifies out
    ensures Rows(out[..]) == Rebuilt(mode, Rows(old(residues[..])), old(base[..]), POSITIONS)
  {
    hide Add, Rebuilt, At, Rows;
    ghost var rs, b := Rows(residues[..]), base[..];
    ghost var want := Rebuilt(mode, rs, b, POSITIONS);
    for i := 0 to BLOCK
      invariant residues[..] == old(residues[..]) && base[..] == b
      invariant forall k: nat | k < i :: out[k] == At(want, k)
    {
      var prev := if mode == For || i < LANES then base[i % LANES] else out[i - LANES];
      RebuiltWord(mode, residues[..], b, i);
      out[i] := Add(prev, residues[i]);
    }
    RowsEqual(out[..], want);
  }

  /** What the first `n` rows of residues decode to. */
  function Rebuilt(mode: Mode, rs: seq<Vec>, base: Vec, n: nat): (r: seq<Vec>)
    requires n <= |rs|
    ensures |r| == n
  {
    if n == 0 then []
    else
      var before := Rebuilt(mode, rs, base, n - 1);
      before + [VAdd(if mode == Delta && n > 1 then before[n - 2] else base, rs[n - 1])]
  }

  lemma {:induction false} RebuiltAt(mode: Mode, rs: seq<Vec>, base: Vec, n: nat, v: nat)
    requires v < n <= |rs|
    ensures Rebuilt(mode, rs, base, n)[v]
         == VAdd(if mode == Delta && v > 0 then Rebuilt(mode, rs, base, n)[v - 1] else base, rs[v])
  {
    if v < n - 1 {
      RebuiltAt(mode, rs, base, n - 1, v);
    }
  }

  lemma RebuiltWord(mode: Mode, residues: seq<Word>, base: Vec, i: nat)
    requires mode != Plain && |residues| == BLOCK && i < BLOCK
    ensures var want := Rebuilt(mode, Rows(residues), base, POSITIONS);
      At(want, i) == Add(if mode == For || i < LANES then base[i % LANES] else At(want, i - LANES), residues[i])
  {
    hide Add, Rebuilt;
    RowsAt(residues, i);
    RebuiltAt(mode, Rows(residues), base, POSITIONS, i / LANES);
  }

  /** The scalar decode undoes the scalar encode for every wrapping value, width playing no part. */
  lemma {:induction false} RebuiltEncoded(mode: Mode, vs: seq<Vec>, base: Vec, n: nat)
    requires mode != Plain && n <= |vs|
    ensures Rebuilt(mode, EncodedTo(mode, vs, base, |vs|), base, n) == vs[..n]
  {
    hide VAdd, VSub;
    if n > 0 {
      RebuiltEncoded(mode, vs, base, n - 1);
      Codec.VAddSub(vs[n - 1], Reference(mode, vs, base, n - 1));
      RebuiltStep(mode, vs, base, n, EncodedTo(mode, vs, base, |vs|));
    }
  }

  lemma RebuiltStep(mode: Mode, vs: seq<Vec>, base: Vec, n: nat, es: seq<Vec>)
    requires mode != Plain && 0 < n <= |vs| == |es| && Rebuilt(mode, es, base, n - 1) == vs[..n - 1]
    requires VAdd(Reference(mode, vs, base, n - 1), es[n - 1]) == vs[n - 1]
    ensures Rebuilt(mode, es, base, n) == vs[..n]
  {
    hide VAdd;
    assert vs[..n] == vs[..n - 1] + [vs[n - 1]];
    assert mode == Delta && n > 1 ==> vs[..n - 1][n - 2] == vs[n - 2];
  }
}
