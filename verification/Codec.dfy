/** The codec as a whole: what unpacking makes of packing, when the cascaded encodings are lossless, and
    the same at the level of the library's entry points and memory. */
module Codec {
  import opened Words
  import opened Options
  import opened Machine
  import opened Layout
  import opened UnpackKernel
  import opened PackKernel
  import opened TransformKernel

  // ------------------------------------------------------------ values

  /** Unpacking a packed block returns every value masked to the width. */
  lemma UnpackOfPack(vs: seq<Vec>, bits: nat, v: nat)
    requires 1 <= bits <= 32 && |vs| == POSITIONS && v < POSITIONS
    ensures Holds(PackedTo(vs, bits, 2 * bits), bits, v)
    ensures FieldVec(PackedTo(vs, bits, 2 * bits), bits, v) == VAnd(vs[v], Splat(Mask(bits)))
  {
    var ws := PackedTo(vs, bits, 2 * bits);
    HoldsBelow(ws, bits, v);
    forall l: nat | l < 16 ensures FieldVec(ws, bits, v)[l] == VAnd(vs[v], Splat(Mask(bits)))[l] {
      FieldOfPacked(vs, bits, v, l);
    }
  }

  lemma FieldOfPacked(vs: seq<Vec>, bits: nat, v: nat, l: nat)
    requires 1 <= bits <= 32 && |vs| == POSITIONS && v < POSITIONS && l < 16
    ensures Holds(PackedTo(vs, bits, 2 * bits), bits, v)
    ensures Field(PackedTo(vs, bits, 2 * bits), bits, v, l) == And(vs[v][l], Mask(bits))
  {
    var ws := PackedTo(vs, bits, 2 * bits);
    HoldsBelow(ws, bits, v);
    var masked := And(vs[v][l], Mask(bits));
    forall j: nat | j < 32 ensures Field(ws, bits, v, l)[j] == masked[j] {
      if j < bits {
        var k := bits * v + j;
        DivModUnique(bits, v, j);
        assert 32 * (k / 32) + k % 32 == k;
        assert StreamBit(ws, l, k) == BlockBit(vs, bits, l, k);
      }
    }
  }

  /** The vectors the decoder sees: the encoder's output, packed. */
  function Stored(mode: Mode, vs: seq<Vec>, base: Vec): (r: seq<Vec>)
    requires |vs| == POSITIONS
    ensures |r| == POSITIONS
  {
    if mode == Plain then vs else EncodedTo(mode, vs, base, POSITIONS)
  }

  function RoundTrip(mode: Mode, vs: seq<Vec>, base: Vec, bits: nat): (r: seq<Vec>)
    requires 1 <= bits <= 32 && |vs| == POSITIONS
    ensures |r| == POSITIONS
  {
    DecodedTo(mode, PackedTo(Stored(mode, vs, base), bits, 2 * bits), base, bits, POSITIONS)
  }

  /** Every stored residue, read as an unsigned number, is below `2^bits`. */
  ghost predicate Fits(stored: seq<Vec>, bits: nat) {
    forall v: nat, l: nat | v < |stored| && l < 16 :: ToNat(stored[v][l]) < Pow2(bits)
  }

  ghost predicate MaskedSame(v: Vec, bits: nat)
    requires bits <= 32
  {
    VAnd(v, Splat(Mask(bits))) == v
  }

  lemma MaskedSameIff(v: Vec, bits: nat)
    requires bits <= 32
    ensures MaskedSame(v, bits) <==> forall l: nat | l < 16 :: ToNat(v[l]) < Pow2(bits)
  {
    hide ToNat, Pow2, And, Mask;
    forall l: nat | l < 16 ensures VAnd(v, Splat(Mask(bits)))[l] == v[l] <==> ToNat(v[l]) < Pow2(bits) {
      MaskKeepsIffSmall(v[l], bits);
    }
  }

  lemma FitsIff(stored: seq<Vec>, bits: nat)
    requires bits <= 32
    ensures Fits(stored, bits) <==> forall v: nat | v < |stored| :: MaskedSame(stored[v], bits)
  {
    hide MaskedSame, ToNat, Pow2;
    forall v: nat | v < |stored|
      ensures MaskedSame(stored[v], bits) <==> forall l: nat | l < 16 :: ToNat(stored[v][l]) < Pow2(bits)
    {
      MaskedSameIff(stored[v], bits);
    }
  }

  lemma VAddSub(v: Vec, b: Vec)
    ensures VAdd(b, VSub(v, b)) == v
  {
    hide Add, Sub;
    forall l: nat | l < 16 ensures VAdd(b, VSub(v, b))[l] == v[l] {
      AddSub(v[l], b[l]);
    }
  }

  lemma VAddInjective(b: Vec, x: Vec, y: Vec)
    requires VAdd(b, x) == VAdd(b, y)
    ensures x == y
  {
    hide Add;
    forall l: nat | l < 16 ensures x[l] == y[l] {
      assert VAdd(b, x)[l] == VAdd(b, y)[l];
      AddInjective(b[l], x[l], y[l]);
    }
  }

  /** One position decodes to its value exactly when its residue survives the mask, provided the
      positions before it (delta's references) were restored. */
  lemma PositionRoundTrip(mode: Mode, vs: seq<Vec>, base: Vec, bits: nat, v: nat)
    requires 1 <= bits <= 32 && |vs| == POSITIONS && v < POSITIONS
    requires mode == Delta && v > 0 ==> RoundTrip(mode, vs, base, bits)[v - 1] == vs[v - 1]
    ensures RoundTrip(mode, vs, base, bits)[v] == vs[v] <==> MaskedSame(Stored(mode, vs, base)[v], bits)
  {
    hide VAdd, VSub, VAnd, FieldVec, PackedTo, Splat, Mask;
    var stored := Stored(mode, vs, base);
    UnpackOfPack(stored, bits, v);
    var masked := VAnd(stored[v], Splat(Mask(bits)));
    if mode != Plain {
      var r := Reference(mode, vs, base, v);
      assert RoundTrip(mode, vs, base, bits)[v] == VAdd(r, masked);
      VAddSub(vs[v], r);
      if VAdd(r, masked) == vs[v] {
        VAddInjective(r, masked, stored[v]);
      }
    }
  }

  lemma {:induction false} PrefixRoundTrip(mode: Mode, vs: seq<Vec>, base: Vec, bits: nat, n: nat)
    requires 1 <= bits <= 32 && |vs| == POSITIONS && n <= POSITIONS
    ensures (forall v: nat | v < n :: RoundTrip(mode, vs, base, bits)[v] == vs[v])
       <==> (forall v: nat | v < n :: MaskedSame(Stored(mode, vs, base)[v], bits))
  {
    hide MaskedSame, RoundTrip, Stored;
    if n > 0 {
      PrefixRoundTrip(mode, vs, base, bits, n - 1);
      if forall v: nat | v < n - 1 :: RoundTrip(mode, vs, base, bits)[v] == vs[v] {
        PositionRoundTrip(mode, vs, base, bits, n - 1);
      }
    }
  }

  /** Decode of pack of encode is the identity exactly when every stored residue fits the width. */
  lemma RoundTripIff(mode: Mode, vs: seq<Vec>, base: Vec, bits: nat)
    requires 1 <= bits <= 32 && |vs| == POSITIONS
    ensures RoundTrip(mode, vs, base, bits) == vs <==> Fits(Stored(mode, vs, base), bits)
  {
    hide MaskedSame, Stored, Fits;
    PrefixRoundTrip(mode, vs, base, bits, POSITIONS);
    FitsIff(Stored(mode, vs, base), bits);
    assert RoundTrip(mode, vs, base, bits) == vs <==>
           forall v: nat | v < POSITIONS :: RoundTrip(mode, vs, base, bits)[v] == vs[v];
  }

  // ------------------------------------------------------------ entry points

  /** A call with arguments in `rdi`, `rsi`, `rdx`. */
  function WithArgs(st: State, rdi: int, rsi: int, rdx: int): State {
    st.(rdi := rdi, rsi := rsi, rdx := rdx)
  }

  /** A width table: entry 0 is null, then one kernel a width. */
  type Table = seq<Option<seq<Insn>>>

  function UnpackTable(mode: Mode): (t: Table)
    ensures |t| == 33 && t[0] == None && forall n | 1 <= n <= 32 :: t[n] == Some(UnpackCode(n, mode))
  {
    hide UnpackCode;
    seq(33, n requires 0 <= n < 33 => if n == 0 then None else Some(UnpackCode(n, mode)))
  }

  function PackTable(): (t: Table)
    ensures |t| == 33 && t[0] == None && forall n | 1 <= n <= 32 :: t[n] == Some(PackCode(n))
  {
    hide PackCode;
    seq(33, n requires 0 <= n < 33 => if n == 0 then None else Some(PackCode(n)))
  }

  /** `dispatch_tables` for one decode mode. */
  method EmitUnpackTable(mode: Mode) returns (t: Table)
    ensures t == UnpackTable(mode)
  {
    hide UnpackCode;
    t := [None];
    for bits := 1 to 33
      invariant |t| == bits && t[0] == None && forall n | 1 <= n < bits :: t[n] == Some(UnpackCode(n, mode))
    {
      t := t + [Some(UnpackCode(bits, mode))];
    }
    assert t == UnpackTable(mode);
  }

  method EmitPackTable() returns (t: Table)
    ensures t == PackTable()
  {
    hide PackCode;
    t := [None];
    for bits := 1 to 33
      invariant |t| == bits && t[0] == None && forall n | 1 <= n < bits :: t[n] == Some(PackCode(n))
    {
      t := t + [Some(PackCode(bits))];
    }
    assert t == PackTable();
  }

  /** A dispatch thunk, the width in edx and a base pointer, where there is one, in rcx: the width is counted down
      in 32 bits and compared unsigned with 31, and the jump goes through the table one entry up. A null entry
      faults. */
  ghost function Thunk(t: Table, base: bool, rcx: int, st: State): Option<State>
    requires |t| == 33
  {
    var eax := (st.rdx - 1) % TWO32;
    if eax > 31 then Some(st)
    else
      match t[eax + 1]
      case None => None
      case Some(code) => Run(code, if base then st.(rdx := rcx) else st)
  }

  ghost function KncUnpack(mode: Mode, rcx: int, st: State): Option<State> {
    Thunk(UnpackTable(mode), mode != Plain, rcx, st)
  }

  ghost function KncPack(st: State): Option<State> { Thunk(PackTable(), false, 0, st) }

  ghost function KncEncode(mode: Mode, st: State): Option<State> { Run(EncodeCode(mode), st) }

  /** Buffers a whole encode, pack and decode uses: values, base, residues, packed block, output. */
  datatype Buffers = Buffers(values: int, base: int, residues: int, packed: int, out: int)

  /** 64-byte aligned, mapped, and apart wherever a later step reads what an earlier one must not touch. */
  ghost predicate Proper(b: Buffers, bits: nat, st: State) {
    && 1 <= bits <= 32 && MaskReady(bits, st)
    && b.values % 64 == 0 && b.base % 64 == 0 && b.residues % 64 == 0 && b.packed % 64 == 0 && b.out % 64 == 0
    && Mapped(st.mem, b.values, 4096) && Mapped(st.mem, b.base, 64) && Mapped(st.mem, b.residues, 4096)
    && Mapped(st.mem, b.packed, 128 * bits) && Mapped(st.mem, b.out, 4096)
    && Disjoint(b.values, 4096, b.residues, 4096) && Disjoint(b.residues, 4096, b.packed, 128 * bits)
    && Disjoint(b.base, 64, b.residues, 4096) && Disjoint(b.base, 64, b.packed, 128 * bits)
    && Disjoint(b.packed, 128 * bits, b.out, 4096)
    && var mask := st.rodata + 64 * (bits - 1);
    && Disjoint(mask, 64, b.residues, 4096) && Disjoint(mask, 64, b.packed, 128 * bits)
  }

  /** Encode the values into the residues, pack those, and decode the packed block. */
  ghost function ThroughCodec(b: Buffers, mode: Mode, bits: nat, st: State): Option<State> {
    match KncEncode(mode, WithArgs(st, b.residues, b.values, b.base))
    case None => None
    case Some(e1) =>
      match KncPack(WithArgs(e1, b.packed, b.residues, bits))
      case None => None
      case Some(e2) => KncUnpack(mode, b.base, WithArgs(e2, b.out, b.packed, bits))
  }

  lemma KeepsPointers(code: seq<Insn>, st: State)
    requires Run(code, st).Some?
    ensures SamePointers(st, Run(code, st).value)
  {
    if code != [] {
      StepKeepsPointers(code[0], st);
      KeepsPointers(code[1..], Step(code[0], st));
    }
  }

  lemma StepKeepsPointers(i: Insn, st: State)
    requires Ok(i, st)
    ensures SamePointers(st, Step(i, st))
  {
    hide Eval;
  }

  lemma MaskStays(bits: nat, st: State, st': State, a: int, n: int)
    requires MaskReady(bits, st) && st'.rodata == st.rodata && OnlyChanges(st.mem, st'.mem, a, n)
    requires bits < 32 ==> Disjoint(st.rodata + 64 * (bits - 1), 64, a, n)
    ensures MaskReady(bits, st')
  {
    hide LoadVec, Splat, Mask;
    if bits < 32 {
      LoadFrame(st.mem, st'.mem, st.rodata + 64 * (bits - 1));
    }
  }

  /** The countdown, the unsigned comparison and the entry reached: for every 32-bit width the entry is the one of
      that width, never the null one and never past the end. */
  lemma WidthReachesKernel(width: nat, base: bool, rcx: int, st: State)
    requires width < TWO32 && st.rdx == width
    ensures forall t: Table | |t| == 33 && t[0] == None ::
      Thunk(t, base, rcx, st) ==
        if !(1 <= width <= 32) then Some(st)
        else match t[width] case None => None case Some(code) => Run(code, if base then st.(rdx := rcx) else st)
  {
    hide Run;
    if width == 0 {
      assert (width - 1) % TWO32 == TWO32 - 1;
    } else {
      assert (width - 1) % TWO32 == width - 1;
    }
  }

  /** Encoding into the residue buffer. */
  lemma EncodeStage(b: Buffers, mode: Mode, bits: nat, st: State) returns (e: State)
    requires mode != Plain && Proper(b, bits, st)
    ensures KncEncode(mode, WithArgs(st, b.residues, b.values, b.base)) == Some(e)
    ensures OnlyChanges(st.mem, e.mem, b.residues, 4096) && e.rodata == st.rodata && Proper(b, bits, e)
    ensures VecsAt(e.mem, b.residues, POSITIONS)
         == Stored(mode, VecsAt(st.mem, b.values, POSITIONS), LoadVec(st.mem, b.base))
    ensures LoadVec(e.mem, b.base) == LoadVec(st.mem, b.base)
  {
    hide LoadVec, EncodedTo, EncodeCode, VecsAt, MaskReady;
    var s1 := WithArgs(st, b.residues, b.values, b.base);
    EncodeRuns(mode, s1);
    e := Run(EncodeCode(mode), s1).value;
    KeepsPointers(EncodeCode(mode), s1);
    MaskStays(bits, st, e, b.residues, 4096);
    LoadFrame(st.mem, e.mem, b.base);
  }

  lemma PackStage(b: Buffers, bits: nat, st: State) returns (e: State)
    requires Proper(b, bits, st)
    ensures KncPack(WithArgs(st, b.packed, b.residues, bits)) == Some(e)
    ensures OnlyChanges(st.mem, e.mem, b.packed, 128 * bits) && Proper(b, bits, e)
    ensures VecsAt(e.mem, b.packed, 2 * bits) == PackedTo(VecsAt(st.mem, b.residues, POSITIONS), bits, 2 * bits)
    ensures LoadVec(e.mem, b.base) == LoadVec(st.mem, b.base)
  {
    hide LoadVec, PackedTo, PackCode, VecsAt, MaskReady;
    var s1 := WithArgs(st, b.packed, b.residues, bits);
    WidthReachesKernel(bits, false, 0, s1);
    MaskReadyArgs(bits, st, s1);
    PackRuns(bits, s1);
    e := Run(PackCode(bits), s1).value;
    KeepsPointers(PackCode(bits), s1);
    MaskStays(bits, st, e, b.packed, 128 * bits);
    LoadFrame(st.mem, e.mem, b.base);
  }

  lemma UnpackStage(b: Buffers, mode: Mode, bits: nat, st: State) returns (e: State)
    requires mode != Plain && Proper(b, bits, st)
    ensures KncUnpack(mode, b.base, WithArgs(st, b.out, b.packed, bits)) == Some(e)
    ensures OnlyChanges(st.mem, e.mem, b.out, 4096)
    ensures VecsAt(e.mem, b.out, POSITIONS)
         == DecodedTo(mode, VecsAt(st.mem, b.packed, 2 * bits), LoadVec(st.mem, b.base), bits, POSITIONS)
  {
    hide LoadVec, DecodedTo, UnpackCode, VecsAt, MaskReady;
    WidthReachesKernel(bits, true, b.base, WithArgs(st, b.out, b.packed, bits));
    var s1 := WithArgs(st, b.out, b.packed, b.base);
    MaskReadyArgs(bits, st, s1);
    UnpackRuns(bits, mode, s1);
    e := Run(UnpackCode(bits, mode), s1).value;
  }

  /** End to end in memory: three generated programs run one after the other restore the 1024 values
      exactly when every residue the encoder stored fits the width. */
  lemma CodecInMemory(b: Buffers, mode: Mode, bits: nat, st: State)
    requires mode != Plain && Proper(b, bits, st)
    ensures ThroughCodec(b, mode, bits, st).Some?
    ensures var e := ThroughCodec(b, mode, bits, st).value;
      Mapped(e.mem, b.out, 4096) &&
      var values, base := VecsAt(st.mem, b.values, POSITIONS), LoadVec(st.mem, b.base);
      VecsAt(e.mem, b.out, POSITIONS) == values <==> Fits(Stored(mode, values, base), bits)
  {
    hide KncEncode, KncPack, KncUnpack, PackedTo, DecodedTo, Stored, Fits, MaskReady, VecsAt, LoadVec;
    var values, base := VecsAt(st.mem, b.values, POSITIONS), LoadVec(st.mem, b.base);
    var e1 := EncodeStage(b, mode, bits, st);
    var e2 := PackStage(b, bits, e1);
    var e3 := UnpackStage(b, mode, bits, e2);
    assert VecsAt(e3.mem, b.out, POSITIONS) == RoundTrip(mode, values, base, bits);
    RoundTripIff(mode, values, base, bits);
  }

  /** For every 32-bit width: outside 1 to 32 neither memory nor an argument or vector register changes; inside, the table's entry
      is that width's kernel, which runs and decodes or packs the block. */
  lemma WidthGuard(width: nat, mode: Mode, rcx: int, st: State)
    requires width < TWO32 && st.rdx == width
    ensures !(1 <= width <= 32) ==> KncUnpack(mode, rcx, st) == Some(st) && KncPack(st) == Some(st)
    ensures var call := if mode != Plain then st.(rdx := rcx) else st;
      CanUnpack(width, mode, call) ==>
        KncUnpack(mode, rcx, st) == Run(UnpackCode(width, mode), call)
        && Unpacks(UnpackCode(width, mode), width, mode, call)
    ensures CanPack(width, st) ==> KncPack(st) == Run(PackCode(width), st) && Packs(PackCode(width), width, st)
  {
    hide Unpacks, Packs, UnpackCode, PackCode, MaskReady, Run, Thunk;
    WidthReachesKernel(width, mode != Plain, rcx, st);
    WidthReachesKernel(width, false, 0, st);
    var call := if mode != Plain then st.(rdx := rcx) else st;
    if CanUnpack(width, mode, call) {
      UnpackRuns(width, mode, call);
    }
    if CanPack(width, st) {
      PackRuns(width, st);
    }
  }
}
