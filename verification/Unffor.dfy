/** The FastLanes 32-bit `unffor` dispatcher: direct, staged through an aligned buffer, or scalar. */
module Unffor {
  import opened Words
  import opened Options
  import opened Machine
  import opened Layout
  import opened UnpackKernel
  import opened FlsKernel

  const TWO64: nat := 0x1_0000_0000_0000_0000

  /** Bytes of the staging buffer, and the stack frame: it and the base's 4-byte copy. */
  const SCRATCH: nat := 4 * (1024 + 16)
  const FRAME: nat := SCRATCH + 4

  /** `memcpy`. */
  function Copied(m: Memory, dst: int, src: int, n: nat): Memory
    requires forall x | src <= x < src + n :: x in m
  {
    map x | x in m :: if dst <= x < dst + n then m[src + (x - dst)] else m[x]
  }

  lemma CopiedFrame(m: Memory, dst: int, src: int, n: nat)
    requires Mapped(m, src, n)
    ensures OnlyChanges(m, Copied(m, dst, src, n), dst, n)
  {
  }

  /** The `n` bytes at `a` and at `b`. */
  ghost predicate SameBytes(m: Memory, a: int, m': Memory, b: int, n: int) {
    Mapped(m, a, n) && Mapped(m', b, n) && forall x | a <= x < a + n :: m'[x + (b - a)] == m[x]
  }

  lemma SameWord(m: Memory, a: int, m': Memory, b: int)
    requires SameBytes(m, a, m', b, 4)
    ensures WordAt(m', b) == WordAt(m, a)
  {
    assert m'[b] == m[a] && m'[b + 1] == m[a + 1] && m'[b + 2] == m[a + 2] && m'[b + 3] == m[a + 3];
  }

  lemma SamePart(m: Memory, a: int, m': Memory, b: int, n: int, at: int, size: int)
    requires SameBytes(m, a, m', b, n) && 0 <= at && 0 <= size && at + size <= n
    ensures SameBytes(m, a + at, m', b + at, size)
  {
  }

  lemma SameLoad(m: Memory, a: int, m': Memory, b: int)
    requires SameBytes(m, a, m', b, 64)
    ensures LoadVec(m', b) == LoadVec(m, a)
  {
    hide WordAt, SameBytes;
    assert Mapped(m, a, 64) && Mapped(m', b, 64) by { SamePart(m, a, m', b, 64, 0, 64); PartMapped(m, a, m', b, 64); }
    forall l | 0 <= l < 16
      ensures WordAt(m', b + 4 * l) == WordAt(m, a + 4 * l)
    {
      SamePart(m, a, m', b, 64, 4 * l, 4);
      SameWord(m, a + 4 * l, m', b + 4 * l);
    }
  }

  lemma PartMapped(m: Memory, a: int, m': Memory, b: int, n: int)
    requires SameBytes(m, a, m', b, n)
    ensures Mapped(m, a, n) && Mapped(m', b, n)
  {
  }

  ghost predicate SameHalves(m: Memory, m': Memory, a: int, b: int, bits: nat) {
    && Mapped(m, a, 128 * bits) && Mapped(m', b, 128 * bits)
    && forall h: nat | h < 2 :: HalfWords(m', b, bits, h) == HalfWords(m, a, bits, h)
  }

  /** So a packed block reads the same wherever its bytes lie. */
  lemma SameInputHalves(m: Memory, a: int, m': Memory, b: int, bits: nat)
    requires SameBytes(m, a, m', b, 128 * bits)
    ensures SameHalves(m, m', a, b, bits)
  {
    hide LoadVec, SameBytes;
    PartMapped(m, a, m', b, 128 * bits);
    forall h: nat | h < 2 ensures HalfWords(m', b, bits, h) == HalfWords(m, a, bits, h) {
      forall w: nat | w < bits ensures HalfWords(m', b, bits, h)[w] == HalfWords(m, a, bits, h)[w] {
        SamePart(m, a, m', b, 128 * bits, 128 * w + 64 * h, 64);
        SameLoad(m, a + (128 * w + 64 * h), m', b + (128 * w + 64 * h));
      }
    }
  }

  lemma CopiedSame(m: Memory, dst: int, src: int, n: nat)
    requires Mapped(m, src, n) && Mapped(m, dst, n)
    ensures SameBytes(m, src, Copied(m, dst, src, n), dst, n)
  {
  }

  /** The packed block reads the same from where it was copied to. */
  lemma CopiedHalves(m: Memory, dst: int, src: int, bits: nat)
    requires Mapped(m, src, 128 * bits) && Mapped(m, dst, 128 * bits)
    ensures SameHalves(m, Copied(m, dst, src, 128 * bits), src, dst, bits)
  {
    hide SameBytes, SameHalves, Copied;
    CopiedSame(m, dst, src, 128 * bits);
    SameInputHalves(m, src, Copied(m, dst, src, 128 * bits), dst, bits);
  }

  lemma KeptHalves(m: Memory, m': Memory, a: int, bits: nat)
    requires Mapped(m, a, 128 * bits)
    requires forall x | a <= x < a + 128 * bits :: x in m' && m'[x] == m[x]
    ensures SameHalves(m, m', a, a, bits)
  {
    hide SameHalves;
    SameInputHalves(m, a, m', a, bits);
  }

  /** Nothing differs outside the output and the dispatcher's own stack frame. */
  ghost predicate OutputOnly(m: Memory, m': Memory, out: int, frame: int) {
    m'.Keys == m.Keys
    && forall x | x in m && !(out <= x < out + 4096) && !(frame <= x < frame + FRAME) :: m'[x] == m[x]
  }

  /** What a caller owes: mapped buffers at any byte alignment, the output apart from the input, and a
      stack frame and mask constants apart from everything. */
  ghost predicate Callable(st: State, inp: int, out: int, bw: nat, base: int, frame: int) {
    && Mapped(st.mem, inp, 128 * bw) && Mapped(st.mem, out, 4096) && Mapped(st.mem, base, 4)
    && frame % 64 == 0 && Mapped(st.mem, frame, FRAME)
    && Disjoint(out, 4096, inp, 128 * bw)
    && Disjoint(frame, FRAME, inp, 128 * bw) && Disjoint(frame, FRAME, out, 4096) && Disjoint(frame, FRAME, base, 4)
    && (0 < bw < 32 ==> MaskReady(bw, st) && Disjoint(frame, FRAME, st.rodata + 64 * (bw - 1), 64))
  }

  /** FastLanes' own generated scalar code, which is not part of this model: for widths up to 32 it writes
      the layout and nothing else. */
  ghost predicate WritesLayout(scalar: (Memory, int, int, nat, int) -> Memory) {
    forall m: Memory, inp: int, out: int, bw: nat, base: int |
      bw <= 32 && Mapped(m, inp, 128 * bw) && Mapped(m, out, 4096) && Mapped(m, base, 4)
      && Disjoint(out, 4096, inp, 128 * bw) ::
      FlsWritten(m, scalar(m, inp, out, bw, base), inp, out, bw, WordAt(m, base))
      && OnlyChanges(m, scalar(m, inp, out, bw, base), out, 4096)
  }

  /** A scalar decoder of the layout: the 64 rows stored one after the other at any alignment. */
  ghost function StoreRows(m: Memory, out: int, vs: seq<Vec>): Memory {
    if vs == [] then m
    else StoreVec(StoreRows(m, out, vs[..|vs| - 1]), Row(out, 64, |vs| - 1), vs[|vs| - 1])
  }

  ghost function LayoutRows(m: Memory, inp: int, bw: nat, base: Word): (vs: seq<Vec>)
    requires bw <= 32 && Mapped(m, inp, 128 * bw)
    ensures |vs| == POSITIONS && forall r | 0 <= r < POSITIONS :: vs[r] == FlsValue(m, inp, bw, base, r / 2, r % 2)
  {
    seq(POSITIONS, r requires 0 <= r < POSITIONS => FlsValue(m, inp, bw, base, r / 2, r % 2))
  }

  ghost function ScalarLayout(m: Memory, inp: int, out: int, bw: nat, base: int): Memory {
    if bw <= 32 && Mapped(m, inp, 128 * bw) && Mapped(m, out, 4096) && Mapped(m, base, 4)
    then StoreRows(m, out, LayoutRows(m, inp, bw, WordAt(m, base)))
    else m
  }

  lemma {:induction false} StoredRows(m: Memory, out: int, vs: seq<Vec>)
    requires RowsMapped(m, out, 64, |vs|)
    ensures Written(m, StoreRows(m, out, vs), out, 64, vs)
  {
    hide StoreVec, LoadVec, Written;
    if vs == [] {
      NothingStored(m, out);
    } else {
      var n := |vs| - 1;
      StoredRows(m, out, vs[..n]);
      WrittenKeepsMap(m, StoreRows(m, out, vs[..n]), out, 64, vs[..n], Row(out, 64, n));
      StoreRow(m, StoreRows(m, out, vs[..n]), out, 64, vs[..n], vs[n]);
      assert vs[..n] + [vs[n]] == vs;
    }
  }

  lemma NothingStored(m: Memory, out: int)
    ensures Written(m, m, out, 64, [])
  {
  }

  /** The assumption on FastLanes' scalar code can be met: this decoder meets it. */
  lemma ScalarLayoutWrites()
    ensures WritesLayout((m, inp, out, bw, base) => ScalarLayout(m, inp, out, bw, base))
  {
    hide LoadVec, FlsValue, FlsWritten, StoreRows, Written, WordAt;
    forall m: Memory, inp: int, out: int, bw: nat, base: int |
      bw <= 32 && Mapped(m, inp, 128 * bw) && Mapped(m, out, 4096) && Mapped(m, base, 4)
      && Disjoint(out, 4096, inp, 128 * bw)
      ensures FlsWritten(m, ScalarLayout(m, inp, out, bw, base), inp, out, bw, WordAt(m, base))
      ensures OnlyChanges(m, ScalarLayout(m, inp, out, bw, base), out, 4096)
    {
      var vs := LayoutRows(m, inp, bw, WordAt(m, base));
      RowsInBuffer(m, out, POSITIONS);
      StoredRows(m, out, vs);
      RowsCoverBuffer(m, StoreRows(m, out, vs), out, vs);
      RowsAreLayout(m, StoreRows(m, out, vs), inp, out, bw, WordAt(m, base), vs);
    }
  }

  lemma RowsAreLayout(m: Memory, e: Memory, inp: int, out: int, bw: nat, base: Word, vs: seq<Vec>)
    requires bw <= 32 && Mapped(m, inp, 128 * bw) && vs == LayoutRows(m, inp, bw, base)
    requires Written(m, e, out, 64, vs)
    ensures FlsWritten(m, e, inp, out, bw, base)
  {
    hide LoadVec, FlsValue, FlsRow, Written, LayoutRows;
    forall v: nat, h: nat | v < FLS_POSITIONS && h < 2 ensures FlsRow(m, e, inp, out, bw, base, v, h) {
      RowIsLayout(m, e, inp, out, bw, base, vs, v, h);
    }
  }

  lemma RowIndex(out: int, v: nat, h: nat)
    requires h < 2
    ensures var r := 2 * v + h;
      r / 2 == v && r % 2 == h && Row(out + 64 * h, 128, v) == Row(out, 64, r)
  {
  }

  lemma RowIsLayout(m: Memory, e: Memory, inp: int, out: int, bw: nat, base: Word, vs: seq<Vec>, v: nat, h: nat)
    requires bw <= 32 && Mapped(m, inp, 128 * bw) && vs == LayoutRows(m, inp, bw, base)
    requires Written(m, e, out, 64, vs) && v < FLS_POSITIONS && h < 2
    ensures FlsRow(m, e, inp, out, bw, base, v, h)
  {
    hide LoadVec, FlsValue, LayoutRows, Row;
    RowIndex(out, v, h);
    var r := 2 * v + h;
    assert vs[r] == FlsValue(m, inp, bw, base, v, h);
    assert LoadVec(e, Row(out, 64, r)) == vs[r];
  }

  predicate TakesVector(enabled: int, out: int, bw: nat) { enabled != 0 && bw <= 32 && out % 64 == 0 }

  ghost function DirectCall(st: State, inp: int, out: int, base: int, frame: int): State
    requires Mapped(st.mem, base, 4)
  {
    st.(mem := Copied(st.mem, frame + SCRATCH, base, 4), rdi := inp, rsi := out, rdx := frame + SCRATCH)
  }

  ghost function StagedCall(st: State, inp: int, out: int, bw: nat, base: int, frame: int): State
    requires Mapped(st.mem, base, 4) && Mapped(st.mem, inp, 128 * bw)
  {
    var m := Copied(st.mem, frame + SCRATCH, base, 4);
    st.(mem := Copied(m, frame, inp, 128 * bw), rdi := frame, rsi := out, rdx := frame + SCRATCH)
  }

  lemma FrameAligned(frame: int)
    requires frame % 64 == 0
    ensures frame % 4 == 0 && (frame + SCRATCH) % 4 == 0
  {
    var k := frame / 64;
    FourTimes(16 * k);
    FourTimes(16 * k + 1040);
    assert frame == 64 * k && 4 * (16 * k) == frame && 4 * (16 * k + 1040) == frame + SCRATCH;
  }

  lemma FourTimes(x: int)
    ensures (4 * x) % 4 == 0
  {
  }

  lemma MaskKept(bits: nat, st: State, st': State, frame: int)
    requires 0 < bits < 32 && MaskReady(bits, st) && st'.rodata == st.rodata
    requires Disjoint(frame, FRAME, st.rodata + 64 * (bits - 1), 64)
    requires forall x | x in st.mem && !(frame <= x < frame + FRAME) :: x in st'.mem && st'.mem[x] == st.mem[x]
    ensures MaskReady(bits, st')
  {
    hide LoadVec, Splat, Mask;
    LoadFrame(st.mem, st'.mem, st.rodata + 64 * (bits - 1));
  }

  lemma BaseCopied(m: Memory, dst: int, src: int)
    requires Mapped(m, src, 4) && Mapped(m, dst, 4)
    ensures Mapped(Copied(m, dst, src, 4), dst, 4) && WordAt(Copied(m, dst, src, 4), dst) == WordAt(m, src)
  {
    hide WordAt;
    CopiedSame(m, dst, src, 4);
    SameWord(m, src, Copied(m, dst, src, 4), dst);
  }

  /** The kernel, called on the caller's own 4-byte aligned input. */
  lemma DirectRuns(st: State, inp: int, out: int, bw: nat, base: int, frame: int)
    requires Callable(st, inp, out, bw, base, frame) && bw <= 32 && out % 64 == 0 && inp % 4 == 0
    ensures Run(FlsCode(bw), DirectCall(st, inp, out, base, frame)).Some?
    ensures var m := Run(FlsCode(bw), DirectCall(st, inp, out, base, frame)).value.mem;
      FlsWritten(st.mem, m, inp, out, bw, WordAt(st.mem, base)) && OutputOnly(st.mem, m, out, frame)
  {
    hide LoadVec, Splat, Mask, FlsCode, WordAt, Run, FlsValue, FlsWritten, Copied, MaskReady, HalfWords;
    var s := DirectCall(st, inp, out, base, frame);
    CopiedFrame(st.mem, frame + SCRATCH, base, 4);
    BaseCopied(st.mem, frame + SCRATCH, base);
    FrameAligned(frame);
    if 0 < bw < 32 {
      MaskKept(bw, st, s, frame);
    }
    assert CanUnffor(bw, s);
    UnfforRuns(bw, s);
    KeptHalves(st.mem, s.mem, inp, bw);
    MovedBlock(st.mem, s.mem, Run(FlsCode(bw), s).value.mem, inp, inp, out, bw, WordAt(st.mem, base));
  }

  lemma MovedBlock(m: Memory, m': Memory, e: Memory, a: int, b: int, out: int, bits: nat, base: Word)
    requires bits <= 32 && SameHalves(m, m', a, b, bits) && FlsWritten(m', e, b, out, bits, base)
    ensures FlsWritten(m, e, a, out, bits, base)
  {
    hide LoadVec, Splat, VAdd, FieldVec;
    forall v: nat, h: nat | v < FLS_POSITIONS && h < 2 ensures FlsRow(m, e, a, out, bits, base, v, h) {
      assert FlsRow(m', e, b, out, bits, base, v, h);
    }
  }

  lemma StagedHalves(st: State, inp: int, out: int, bw: nat, base: int, frame: int)
    requires Callable(st, inp, out, bw, base, frame) && bw <= 32
    ensures SameHalves(st.mem, StagedCall(st, inp, out, bw, base, frame).mem, inp, frame, bw)
  {
    hide LoadVec;
    var m1 := Copied(st.mem, frame + SCRATCH, base, 4);
    KeptHalves(st.mem, m1, inp, bw);
    CopiedHalves(m1, frame, inp, bw);
    var m2 := Copied(m1, frame, inp, 128 * bw);
    assert forall h: nat | h < 2 :: HalfWords(m2, frame, bw, h) == HalfWords(m1, inp, bw, h);
  }

  lemma StagedReady(st: State, inp: int, out: int, bw: nat, base: int, frame: int)
    requires Callable(st, inp, out, bw, base, frame) && bw <= 32 && out % 64 == 0
    ensures var s := StagedCall(st, inp, out, bw, base, frame);
      CanUnffor(bw, s) && WordAt(s.mem, s.rdx) == WordAt(st.mem, base) && OutputOnly(st.mem, s.mem, out, frame)
  {
    hide LoadVec, Splat, Mask, WordAt, Copied, MaskReady;
    var s := StagedCall(st, inp, out, bw, base, frame);
    var m1 := Copied(st.mem, frame + SCRATCH, base, 4);
    CopiedFrame(st.mem, frame + SCRATCH, base, 4);
    CopiedFrame(m1, frame, inp, 128 * bw);
    BaseCopied(st.mem, frame + SCRATCH, base);
    WordFrame(m1, s.mem, frame + SCRATCH);
    FrameAligned(frame);
    assert Disjoint(out, 4096, frame, 128 * bw);
    hide Disjoint;
    if 0 < bw < 32 {
      MaskKept(bw, st, s, frame);
    }
  }

  /** The kernel, called on the staged copy of an input at any byte alignment. */
  lemma StagedRuns(st: State, inp: int, out: int, bw: nat, base: int, frame: int)
    requires Callable(st, inp, out, bw, base, frame) && bw <= 32 && out % 64 == 0
    ensures Run(FlsCode(bw), StagedCall(st, inp, out, bw, base, frame)).Some?
    ensures var m := Run(FlsCode(bw), StagedCall(st, inp, out, bw, base, frame)).value.mem;
      FlsWritten(st.mem, m, inp, out, bw, WordAt(st.mem, base)) && OutputOnly(st.mem, m, out, frame)
  {
    hide LoadVec, FlsCode, WordAt, Run, FlsValue, FlsWritten, CanUnffor, HalfWords, MaskReady;
    var s := StagedCall(st, inp, out, bw, base, frame);
    StagedReady(st, inp, out, bw, base, frame);
    UnfforRuns(bw, s);
    StagedHalves(st, inp, out, bw, base, frame);
    MovedBlock(st.mem, s.mem, Run(FlsCode(bw), s).value.mem, inp, frame, out, bw, WordAt(st.mem, base));
  }

  lemma WordFrame(m: Memory, m': Memory, a: int)
    requires Mapped(m, a, 4)
    requires forall x | a <= x < a + 4 :: x in m' && m'[x] == m[x]
    ensures Mapped(m', a, 4) && WordAt(m', a) == WordAt(m, a)
  {
  }

  // ------------------------------------------------------------ the path cannot be seen

  /** A loaded word determines its bytes. */
  lemma WordBytes(m: Memory, a: int, j: int)
    requires Mapped(m, a, 4) && 0 <= j < 4
    ensures WordAt(m, a)[8 * j..8 * j + 8] == m[a + j]
  {
  }

  lemma LoadBytes(m: Memory, a: int, k: int)
    requires Mapped(m, a, 64) && 0 <= k < 64
    ensures LoadVec(m, a)[k / 4][8 * (k % 4)..8 * (k % 4) + 8] == m[a + k]
  {
    hide WordAt;
    var l, j := k / 4, k % 4;
    assert LoadVec(m, a)[l] == WordAt(m, a + 4 * l);
    WordBytes(m, a + 4 * l, j);
  }

  /** What the layout says at one row is what both memories hold there. */
  lemma LayoutIsUnique(m: Memory, e: Memory, e': Memory, a: int, out: int, out': int, bits: nat, base: Word, v: nat, h: nat)
    requires bits <= 32 && Mapped(m, a, 128 * bits) && v < FLS_POSITIONS && h < 2
    requires FlsWritten(m, e, a, out, bits, base) && FlsWritten(m, e', a, out', bits, base)
    ensures var row, row' := Row(out + 64 * h, 128, v), Row(out' + 64 * h, 128, v);
      Mapped(e, row, 64) && Mapped(e', row', 64) && LoadVec(e, row) == LoadVec(e', row')
  {
    hide FlsValue, LoadVec;
    assert FlsRow(m, e, a, out, bits, base, v, h) && FlsRow(m, e', a, out', bits, base, v, h);
  }

  lemma OutputByte(m: Memory, e: Memory, e': Memory, a: int, out: int, out': int, bits: nat, base: Word, k: int)
    requires bits <= 32 && Mapped(m, a, 128 * bits) && 0 <= k < 4096
    requires FlsWritten(m, e, a, out, bits, base) && FlsWritten(m, e', a, out', bits, base)
    ensures out + k in e && out' + k in e' && e'[out' + k] == e[out + k]
  {
    hide FlsWritten, LoadVec;
    var r, j := k / 64, k % 64;
    var v, h := r / 2, r % 2;
    LayoutIsUnique(m, e, e', a, out, out', bits, base, v, h);
    var row, row' := Row(out + 64 * h, 128, v), Row(out' + 64 * h, 128, v);
    assert row + j == out + k && row' + j == out' + k;
    LoadBytes(e, row, j);
    LoadBytes(e', row', j);
  }

  /** Equal blocks decoded to the layout, wherever they lie and wherever it goes, are equal in all 4096 bytes. */
  lemma SameOutput(m: Memory, e: Memory, a: int, out: int, m': Memory, e': Memory, a': int, out': int, bits: nat, base: Word)
    requires bits <= 32 && SameBytes(m, a, m', a', 128 * bits)
    requires FlsWritten(m, e, a, out, bits, base) && FlsWritten(m', e', a', out', bits, base)
    ensures SameBytes(e, out, e', out', 4096)
  {
    hide FlsWritten, LoadVec, FlsValue;
    PartMapped(m, a, m', a', 128 * bits);
    SameInputHalves(m, a, m', a', bits);
    MovedBlock(m, m', e', a, a', out', bits, base);
    forall x | out <= x < out + 4096
      ensures x in e && x + (out' - out) in e' && e'[x + (out' - out)] == e[x]
    {
      OutputByte(m, e, e', a, out, out', bits, base, x - out);
    }
    assert Mapped(e', out', 4096) by {
      forall y | out' <= y < out' + 4096
        ensures y in e'
      {
        OutputByte(m, e, e', a, out, out', bits, base, y - out');
      }
    }
  }

  /** Two calls on the same packed bytes and base, each direct, staged or scalar as its own switch and its own
      addresses have it, put the same 4096 bytes out. */
  method CallBoth(
    p: Dispatcher, inp: int, out: int, base: int, frame: int,
    q: Dispatcher, inp': int, out': int, base': int, frame': int, bw: nat)
    requires p != q && WritesLayout(p.scalar) && WritesLayout(q.scalar) && bw <= 32
    requires Callable(p.cpu, inp, out, bw, base, frame) && Callable(q.cpu, inp', out', bw, base', frame')
    requires SameBytes(p.cpu.mem, inp, q.cpu.mem, inp', 128 * bw) && SameBytes(p.cpu.mem, base, q.cpu.mem, base', 4)
    modifies p, q
    ensures SameBytes(p.cpu.mem, out, q.cpu.mem, out', 4096)
  {
    hide WritesLayout, Callable, FlsWritten, WordAt, SameBytes, OutputOnly;
    ghost var m, m' := p.cpu.mem, q.cpu.mem;
    PartMapped(m, base, m', base', 4);
    SameWord(m, base, m', base');
    p.Unffor(inp, out, bw, base, frame);
    q.Unffor(inp', out', bw, base', frame');
    SameOutput(m, p.cpu.mem, inp, out, m', q.cpu.mem, inp', out', bw, WordAt(m, base));
  }

  /** The dispatcher's globals, and the processor its callers share. */
  class Dispatcher {
    var enabled: int
    var callsVector: nat
    var callsScalar: nat
    var callsStaged: nat
    ghost var cpu: State
    ghost const scalar: (Memory, int, int, nat, int) -> Memory

    constructor (cpu: State, scalar: (Memory, int, int, nat, int) -> Memory)
      requires WritesLayout(scalar)
      ensures enabled == 1 && callsVector == callsScalar == callsStaged == 0
      ensures this.cpu == cpu && this.scalar == scalar
    {
      enabled, callsVector, callsScalar, callsStaged := 1, 0, 0, 0;
      this.cpu := cpu;
      this.scalar := scalar;
    }

    /** Whatever path it takes, the output holds `base + field` for all 1024 values of the layout; the
        counters say which path that was. */
    method Unffor(inp: int, out: int, bw: nat, base: int, frame: int)
      requires WritesLayout(scalar) && bw < 256 && Callable(cpu, inp, out, bw, base, frame)
      modifies this
      ensures bw <= 32 ==> FlsWritten(old(cpu.mem), cpu.mem, inp, out, bw, WordAt(old(cpu.mem), base))
      ensures bw <= 32 ==> OutputOnly(old(cpu.mem), cpu.mem, out, frame)
      ensures bw > 32 ==> cpu.mem == scalar(old(cpu.mem), inp, out, bw, base)
      ensures enabled == old(enabled)
      ensures var vector := TakesVector(enabled, out, bw);
        && callsVector == (if vector then (old(callsVector) + 1) % TWO64 else old(callsVector))
        && callsScalar == (if vector then old(callsScalar) else (old(callsScalar) + 1) % TWO64)
        && callsStaged == (if vector && inp % 4 != 0 then (old(callsStaged) + 1) % TWO64 else old(callsStaged))
    {
      hide LoadVec, FlsWritten, WordAt, Run, FlsCode;
      if enabled != 0 && bw <= 32 && out % 64 == 0 {
        callsVector := (callsVector + 1) % TWO64;
        if inp % 4 == 0 {
          DirectRuns(cpu, inp, out, bw, base, frame);
          cpu := Run(FlsCode(bw), DirectCall(cpu, inp, out, base, frame)).value;
          return;
        }
        callsStaged := (callsStaged + 1) % TWO64;
        StagedRuns(cpu, inp, out, bw, base, frame);
        cpu := Run(FlsCode(bw), StagedCall(cpu, inp, out, bw, base, frame)).value;
        return;
      }
      callsScalar := (callsScalar + 1) % TWO64;
      cpu := cpu.(mem := scalar(cpu.mem, inp, out, bw, base));
    }
  }
}
