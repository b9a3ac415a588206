/** The FastLanes `unffor` kernels: the sixteen-lane extraction run twice at a stride of 128 bytes, over an
    input that is only 4-byte aligned, adding one broadcast base. */
module FlsKernel {
  import opened Arithmetic
  import opened Words
  import opened Options
  import opened Machine
  import opened Layout
  import opened Extraction
  import opened UnpackKernel

  const FLS_POSITIONS: nat := 32

  // ------------------------------------------------------------ the layout

  /** Half `h` of the packed block: word `w` of lanes `16 h` to `16 h + 15`. */
  ghost function HalfWords(m: Memory, a: int, bits: nat, h: nat): (ws: seq<Vec>)
    requires h < 2 && Mapped(m, a, 128 * bits)
    ensures |ws| == bits && forall w | 0 <= w < bits :: ws[w] == LoadVec(m, a + 128 * w + 64 * h)
  {
    seq(bits, w requires 0 <= w < bits => LoadVec(m, a + 128 * w + 64 * h))
  }

  /** Position `v`, half `h` of the output. At width 0 every value is the base. */
  ghost function FlsValue(m: Memory, a: int, bits: nat, base: Word, v: nat, h: nat): Vec
    requires bits <= 32 && Mapped(m, a, 128 * bits) && v < FLS_POSITIONS && h < 2
  {
    if bits == 0 then Splat(base)
    else
      FlsHolds(HalfWords(m, a, bits, h), bits, v);
      VAdd(Splat(base), FieldVec(HalfWords(m, a, bits, h), bits, v))
  }

  lemma FlsHolds(ws: seq<Vec>, bits: nat, v: nat)
    requires 1 <= bits <= 32 && |ws| == bits && v < FLS_POSITIONS
    ensures Holds(ws, bits, v)
  {
    MulMonotone(v + 1, FLS_POSITIONS, bits);
  }

  /** All 1024 values of the 32-lane layout are in `m'` at `out`. */
  ghost predicate FlsWritten(m: Memory, m': Memory, a: int, out: int, bits: nat, base: Word)
    requires bits <= 32 && Mapped(m, a, 128 * bits)
  {
    forall v: nat, h: nat | v < FLS_POSITIONS && h < 2 :: FlsRow(m, m', a, out, bits, base, v, h)
  }

  ghost predicate FlsRow(m: Memory, m': Memory, a: int, out: int, bits: nat, base: Word, v: nat, h: nat)
    requires bits <= 32 && Mapped(m, a, 128 * bits) && v < FLS_POSITIONS && h < 2
  {
    var row := Row(out + 64 * h, 128, v);
    Mapped(m', row, 64) && LoadVec(m', row) == FlsValue(m, a, bits, base, v, h)
  }

  ghost function FlsTo(m: Memory, a: int, bits: nat, base: Word, h: nat, n: nat): (vs: seq<Vec>)
    requires bits <= 32 && Mapped(m, a, 128 * bits) && n <= FLS_POSITIONS && h < 2
    ensures |vs| == n && forall v | 0 <= v < n :: vs[v] == FlsValue(m, a, bits, base, v, h)
  {
    seq(n, v requires 0 <= v < n => FlsValue(m, a, bits, base, v, h))
  }

  // ------------------------------------------------------------ the generated code

  function LoAt(bits: nat, h: nat, start: nat, w: nat): Insn
    requires 1 <= bits <= 32 && w < WORD_REGS
  {
    LoadUnpackLo(w, Mem(Rdi, 128 * (FirstWord(bits, start) + w) + 64 * h))
  }

  function HiAt(bits: nat, h: nat, start: nat, w: nat): Insn
    requires 1 <= bits <= 32 && w < WORD_REGS
  {
    LoadUnpackHi(w, Mem(Rdi, 128 * (FirstWord(bits, start) + w) + 64 * h + 64))
  }

  function LoadLos(bits: nat, h: nat, start: nat): (r: seq<Option<Insn>>)
    requires 1 <= bits <= 32
    ensures |r| == WordCount(bits, start) && forall w | 0 <= w < |r| :: r[w] == Some(LoAt(bits, h, start, w))
  {
    seq(WordCount(bits, start), w requires 0 <= w < WordCount(bits, start) => Some(LoAt(bits, h, start, w)))
  }

  function LoadHis(bits: nat, h: nat, start: nat): (r: seq<Option<Insn>>)
    requires 1 <= bits <= 32
    ensures |r| == WordCount(bits, start) && forall w | 0 <= w < |r| :: r[w] == Some(HiAt(bits, h, start, w))
  {
    seq(WordCount(bits, start), w requires 0 <= w < WordCount(bits, start) => Some(HiAt(bits, h, start, w)))
  }

  function FlsGroupCode(bits: nat, h: nat, start: nat): seq<Insn>
    requires 1 <= bits <= 32
  {
    Flat(LoadLos(bits, h, start)) + Flat(LoadHis(bits, h, start)) + ExtractCode(bits, start)
    + Flat(Adds(bits, start, 1)) + Stores(Mem(Rsi, 64 * h), 128, start, TempRegs(1))
  }

  function FlsGroups(bits: nat, h: nat, n: nat): seq<Insn>
    requires 1 <= bits <= 32
  {
    if n == 0 then [] else FlsGroups(bits, h, n - 1) + FlsGroupCode(bits, h, GROUP * (n - 1))
  }

  function FlsPrologue(bits: nat): seq<Insn> {
    [Broadcast(BASEREG, Mem(Rdx, 0))]
    + if 0 < bits < 32 then [LeaMask(bits), VLoad(MASKREG, Mem(Rax, 0))] else []
  }

  function FlsCode(bits: nat): seq<Insn>
    requires bits <= 32
  {
    FlsPrologue(bits)
    + if bits == 0 then Stores(Mem(Rsi, 0), 64, 0, Fill(2 * FLS_POSITIONS, BASEREG))
      else FlsGroups(bits, 0, FLS_POSITIONS / GROUP) + FlsGroups(bits, 1, FLS_POSITIONS / GROUP)
  }

  // ------------------------------------------------------------ running it

  /** A 64-byte aligned output, a 4-byte aligned input and base, the output apart from the input. The
      input need not be padded: no byte outside it is transferred. */
  ghost predicate CanUnffor(bits: nat, st: State) {
    && bits <= 32 && (0 < bits < 32 ==> MaskReady(bits, st))
    && st.rsi % 64 == 0 && Mapped(st.mem, st.rsi, 4096)
    && st.rdi % 4 == 0 && Mapped(st.mem, st.rdi, 128 * bits)
    && st.rdx % 4 == 0 && Mapped(st.mem, st.rdx, 4)
    && Disjoint(st.rsi, 4096, st.rdi, 128 * bits)
  }

  /** During half `h`, which started from memory `mh`: `n` of its positions are written. */
  ghost predicate InHalf(bits: nat, h: nat, st0: State, mh: Memory, st: State, n: nat) {
    && 1 <= bits && h < 2 && n <= FLS_POSITIONS && CanUnffor(bits, st0) && SamePointers(st0, st)
    && OnlyChanges(st0.mem, mh, st0.rsi, 4096)
    && var base := WordAt(st0.mem, st0.rdx);
    && Written(mh, st.mem, st0.rsi + 64 * h, 128, FlsTo(st0.mem, st0.rdi, bits, base, h, n))
    && (bits < 32 ==> st.zmm[MASKREG] == Splat(Mask(bits)))
    && st.zmm[BASEREG] == Splat(base)
  }

  lemma RowsStayInside(m0: Memory, m: Memory, out: int, h: nat, vs: seq<Vec>)
    requires h < 2 && |vs| <= FLS_POSITIONS && Written(m0, m, out + 64 * h, 128, vs)
    ensures OnlyChanges(m0, m, out, 4096)
  {
    hide LoadVec;
    var a := out + 64 * h;
    forall x | x in m0 && !(out <= x < out + 4096) ensures m[x] == m0[x] {
      assert forall p: nat | p < |vs| :: !(Row(a, 128, p) <= x < Row(a, 128, p) + 64);
    }
  }

  /** The packed words are still what they were on entry. */
  lemma PackedIntact(bits: nat, h: nat, st0: State, mh: Memory, st: State, n: nat, w: nat)
    requires InHalf(bits, h, st0, mh, st, n) && w < bits
    ensures var a := st0.rdi + 128 * w + 64 * h;
      Mapped(st.mem, a, 64) && LoadVec(st.mem, a) == HalfWords(st0.mem, st0.rdi, bits, h)[w]
  {
    hide LoadVec, FlsTo, Written, Splat, Mask, MaskReady;
    var base := WordAt(st0.mem, st0.rdx);
    RowsStayInside(mh, st.mem, st0.rsi, h, FlsTo(st0.mem, st0.rdi, bits, base, h, n));
    LoadFrame(st0.mem, st.mem, st0.rdi + 128 * w + 64 * h);
  }

  /** The two halves of the unaligned pair make one whole vector, whatever the alignment. */
  lemma PairIsLoad(lo: Insn, hi: Insn, st: State, st': State, a: int)
    requires lo.LoadUnpackLo? && hi.LoadUnpackHi? && lo.dst == hi.dst
    requires Addr(lo.at, st) == a && Addr(hi.at, st') == a + 64
    requires st'.mem == st.mem && Mapped(st.mem, a, 64) && a % 4 == 0
    ensures Ok(lo, st) && Ok(hi, st')
    ensures st'.zmm[lo.dst] == Eval(lo, st) ==> Eval(hi, st') == LoadVec(st.mem, a)
  {
    hide LoadVec;
    if st'.zmm[lo.dst] == Eval(lo, st) {
      SplitPoint(a);
      forall l: nat | l < 16 ensures Eval(hi, st')[l] == WordAt(st.mem, a + 4 * l) {
      }
    }
  }

  lemma SplitPoint(a: int)
    requires a % 4 == 0
    ensures (a + 64) % 64 == a % 64 && 16 - a % 64 / 4 == (64 - a % 64) / 4
  {
    var q := a % 64;
    assert a == 64 * (a / 64) + q;
    Quarters(q / 4);
  }

  lemma Quarters(j: int)
    ensures (64 - 4 * j) / 4 == 16 - j
  {
  }

  lemma RunPairs(bits: nat, h: nat, st0: State, mh: Memory, st: State, start: nat) returns (e: State)
    requires InHalf(bits, h, st0, mh, st, start) && start + GROUP <= FLS_POSITIONS
    ensures Run(Flat(LoadLos(bits, h, start)) + Flat(LoadHis(bits, h, start)), st) == Some(e)
    ensures InHalf(bits, h, st0, mh, e, start)
    ensures WordsLoaded(HalfWords(st0.mem, st0.rdi, bits, h), bits, start, e.zmm)
  {
    hide LoadVec, FlsTo, Written, Splat, Mask, MaskReady, Mapped, HalfWords, FirstWord, Ok, Eval, Disjoint, Parallel;
    FlsLastWordFits(bits, start);
    var los, his := LoadLos(bits, h, start), LoadHis(bits, h, start);
    PairsParallel(bits, h, st0, mh, st, start);
    var e1 := RunSlots(los, st);
    assert InHalf(bits, h, st0, mh, e1, start);
    PairsParallel(bits, h, st0, mh, e1, start);
    e := RunSlots(his, e1);
    RunAppend(Flat(los), Flat(his), st);
    forall r: Zmm | r < WordCount(bits, start)
      ensures e.zmm[r] == HalfWords(st0.mem, st0.rdi, bits, h)[FirstWord(bits, start) + r]
    {
      assert los[r].Some? && his[r].Some?;
      PairReads(bits, h, st0, mh, st, start, r, e1);
    }
  }

  lemma PairsParallel(bits: nat, h: nat, st0: State, mh: Memory, st: State, start: nat)
    requires InHalf(bits, h, st0, mh, st, start) && start + GROUP <= FLS_POSITIONS
    ensures Parallel(LoadLos(bits, h, start), st) && Parallel(LoadHis(bits, h, start), st)
  {
    hide LoadVec, FlsTo, Written, Splat, Mask, MaskReady, Mapped, HalfWords, FirstWord, Ok, Eval, Disjoint;
    var los, his := LoadLos(bits, h, start), LoadHis(bits, h, start);
    forall w: nat | w < |los| ensures Ok(LoAt(bits, h, start, w), st) && Ok(HiAt(bits, h, start, w), st) {
      PairReads(bits, h, st0, mh, st, start, w, st);
    }
  }

  lemma PairReads(bits: nat, h: nat, st0: State, mh: Memory, st: State, start: nat, w: nat, st': State)
    requires InHalf(bits, h, st0, mh, st, start) && start + GROUP <= FLS_POSITIONS && w < WordCount(bits, start)
    requires SamePointers(st, st') && st'.mem == st.mem
    ensures FirstWord(bits, start) + w < bits
    ensures Ok(LoAt(bits, h, start, w), st) && Ok(HiAt(bits, h, start, w), st')
    ensures st'.zmm[w] == Eval(LoAt(bits, h, start, w), st) ==>
              Eval(HiAt(bits, h, start, w), st') == HalfWords(st0.mem, st0.rdi, bits, h)[FirstWord(bits, start) + w]
  {
    hide LoadVec, FlsTo, Written, Splat, Mask, MaskReady, Mapped, HalfWords, FirstWord, Ok, Eval, Disjoint;
    FlsLastWordFits(bits, start);
    var word := FirstWord(bits, start) + w;
    PackedIntact(bits, h, st0, mh, st, start, word);
    PairIsLoad(LoAt(bits, h, start, w), HiAt(bits, h, start, w), st, st', st0.rdi + 128 * word + 64 * h);
  }

  lemma FlsLastWordFits(bits: nat, start: nat)
    requires 1 <= bits <= 32 && start + GROUP <= FLS_POSITIONS
    ensures FirstWord(bits, start) + WordCount(bits, start) <= bits
  {
    assert bits * (start + GROUP - 1) + bits == bits * (start + GROUP);
    MulMonotone(start + GROUP, FLS_POSITIONS, bits);
  }

  lemma RunFlsStores(bits: nat, h: nat, st0: State, mh: Memory, st: State, start: nat) returns (e: State)
    requires InHalf(bits, h, st0, mh, st, start) && start + GROUP <= FLS_POSITIONS
    requires forall p: nat | p < GROUP ::
               AddedAt(HalfWords(st0.mem, st0.rdi, bits, h), bits, start, p, 1, Splat(WordAt(st0.mem, st0.rdx)), st.zmm)
    ensures Run(Stores(Mem(Rsi, 64 * h), 128, start, TempRegs(1)), st) == Some(e)
    ensures InHalf(bits, h, st0, mh, e, start + GROUP)
  {
    hide LoadVec, FlsTo, Written, Splat, Mask, MaskReady, HalfWords, Disjoint, VAdd, FieldVec;
    var base, regs := WordAt(st0.mem, st0.rdx), TempRegs(1);
    var before := FlsTo(st0.mem, st0.rdi, bits, base, h, start);
    FlsRowsMapped(mh, st0.rsi, h, start + GROUP);
    assert Addr(Mem(Rsi, 64 * h), st) == st0.rsi + 64 * h;
    e := RunStores(Mem(Rsi, 64 * h), 128, before, regs, mh, st);
    var out := Contents(st.zmm, regs);
    forall p: nat | p < GROUP ensures out[p] == FlsValue(st0.mem, st0.rdi, bits, base, start + p, h) {
      assert AddedAt(HalfWords(st0.mem, st0.rdi, bits, h), bits, start, p, 1, Splat(base), st.zmm);
    }
    FlsAppend(st0.mem, st0.rdi, bits, base, h, start, out);
  }

  lemma FlsAppend(m: Memory, a: int, bits: nat, base: Word, h: nat, n: nat, vs: seq<Vec>)
    requires bits <= 32 && Mapped(m, a, 128 * bits) && h < 2 && n + |vs| <= FLS_POSITIONS
    requires forall p: nat | p < |vs| :: vs[p] == FlsValue(m, a, bits, base, n + p, h)
    ensures FlsTo(m, a, bits, base, h, n) + vs == FlsTo(m, a, bits, base, h, n + |vs|)
  {
    hide FlsValue;
  }

  lemma FlsRowsMapped(m: Memory, out: int, h: nat, n: nat)
    requires Mapped(m, out, 4096) && h < 2 && n <= FLS_POSITIONS
    ensures RowsMapped(m, out + 64 * h, 128, n)
  {
  }

  lemma RunFlsGroup(bits: nat, h: nat, st0: State, mh: Memory, st: State, start: nat) returns (e: State)
    requires InHalf(bits, h, st0, mh, st, start) && start + GROUP <= FLS_POSITIONS
    ensures Run(FlsGroupCode(bits, h, start), st) == Some(e)
    ensures InHalf(bits, h, st0, mh, e, start + GROUP)
  {
    hide LoadVec, FlsTo, Written, Splat, Mask, MaskReady, Mapped, HalfWords, Disjoint, WordsLoaded, ExtractedAt;
    hide AddedAt, LoadLos, LoadHis, ExtractCode, Adds, Stores, Ok, Step;
    var ws := HalfWords(st0.mem, st0.rdi, bits, h);
    var pairs := Flat(LoadLos(bits, h, start)) + Flat(LoadHis(bits, h, start));
    var e1 := RunPairs(bits, h, st0, mh, st, start);
    FlsHolds(ws, bits, start + GROUP - 1);
    var e2 := RunExtract(ws, bits, start, e1);
    var e3 := RunAdds(ws, bits, start, 1, e2);
    assert InHalf(bits, h, st0, mh, e3, start);
    e := RunFlsStores(bits, h, st0, mh, e3, start);
    RunAppend(pairs, ExtractCode(bits, start), st);
    RunAppend(pairs + ExtractCode(bits, start), Flat(Adds(bits, start, 1)), st);
    RunAppend(pairs + ExtractCode(bits, start) + Flat(Adds(bits, start, 1)),
              Stores(Mem(Rsi, 64 * h), 128, start, TempRegs(1)), st);
  }

  lemma {:induction false} RunFlsGroups(bits: nat, h: nat, st0: State, mh: Memory, st: State, n: nat) returns (e: State)
    requires 1 <= bits <= 32 && InHalf(bits, h, st0, mh, st, 0) && n <= FLS_POSITIONS / GROUP
    ensures Run(FlsGroups(bits, h, n), st) == Some(e)
    ensures InHalf(bits, h, st0, mh, e, GROUP * n)
  {
    hide InHalf, FlsGroupCode;
    e := st;
    if n > 0 {
      var before := RunFlsGroups(bits, h, st0, mh, st, n - 1);
      e := RunFlsGroup(bits, h, st0, mh, before, GROUP * (n - 1));
      RunAppend(FlsGroups(bits, h, n - 1), FlsGroupCode(bits, h, GROUP * (n - 1)), st);
    }
  }

  lemma RunFlsPrologue(bits: nat, st: State) returns (e: State)
    requires CanUnffor(bits, st)
    ensures Run(FlsPrologue(bits), st) == Some(e)
    ensures e.mem == st.mem && SamePointers(st, e) && e.zmm[BASEREG] == Splat(WordAt(st.mem, st.rdx))
    ensures 0 < bits < 32 ==> e.zmm[MASKREG] == Splat(Mask(bits))
  {
    hide LoadVec, Splat, Mask, MaskReady;
    var cast := Broadcast(BASEREG, Mem(Rdx, 0));
    RunOne(cast, st);
    var e0 := Step(cast, st);
    e := e0;
    if 0 < bits < 32 {
      MaskReadyArgs(bits, st, e0);
      e := RunMaskLoad(bits, e0);
      RunAppend([cast], [LeaMask(bits), VLoad(MASKREG, Mem(Rax, 0))], st);
    } else {
      assert [cast] + [] == [cast];
    }
  }

  /** Width zero: sixty-four stores of the base. */
  lemma RunZeroWidth(st: State, e0: State) returns (e: State)
    requires CanUnffor(0, st) && e0.mem == st.mem && SamePointers(st, e0)
    requires e0.zmm[BASEREG] == Splat(WordAt(st.mem, st.rdx))
    ensures Run(Stores(Mem(Rsi, 0), 64, 0, Fill(2 * FLS_POSITIONS, BASEREG)), e0) == Some(e)
    ensures OnlyChanges(st.mem, e.mem, st.rsi, 4096)
    ensures FlsWritten(st.mem, e.mem, st.rdi, st.rsi, 0, WordAt(st.mem, st.rdx))
  {
    hide LoadVec, Splat, WordAt, Written, FlsWritten;
    var regs := Fill(2 * FLS_POSITIONS, BASEREG);
    RowsInBuffer(st.mem, st.rsi, POSITIONS);
    assert Written(st.mem, e0.mem, st.rsi, 64, []) by { NothingWritten(st.mem, st.rsi); }
    e := RunStores(Mem(Rsi, 0), 64, [], regs, st.mem, e0);
    var out := Contents(e0.zmm, regs);
    assert [] + out == out;
    assert Addr(Mem(Rsi, 0), e0) == st.rsi;
    RowsCoverBuffer(st.mem, e.mem, st.rsi, out);
    BaseRows(st.mem, e.mem, st.rdi, st.rsi, WordAt(st.mem, st.rdx), out);
  }

  lemma NothingWritten(m: Memory, a: int)
    ensures Written(m, m, a, 64, [])
  {
  }

  lemma BaseRows(m: Memory, m': Memory, a: int, out: int, base: Word, rows: seq<Vec>)
    requires |rows| == 2 * FLS_POSITIONS && Written(m, m', out, 64, rows)
    requires forall r: nat | r < |rows| :: rows[r] == Splat(base)
    ensures FlsWritten(m, m', a, out, 0, base)
  {
    hide LoadVec, Splat;
    forall v: nat, h: nat | v < FLS_POSITIONS && h < 2
      ensures FlsRow(m, m', a, out, 0, base, v, h)
    {
      var r := 2 * v + h;
      assert Row(out + 64 * h, 128, v) == Row(out, 64, r) && rows[r] == Splat(base);
    }
  }

  /** The second half leaves the first half's rows alone. */
  lemma BothHalves(bits: nat, st: State, e1: State, e2: State)
    requires InHalf(bits, 0, st, st.mem, e1, FLS_POSITIONS) && InHalf(bits, 1, st, e1.mem, e2, FLS_POSITIONS)
    ensures OnlyChanges(st.mem, e2.mem, st.rsi, 4096)
    ensures FlsWritten(st.mem, e2.mem, st.rdi, st.rsi, bits, WordAt(st.mem, st.rdx))
  {
    hide LoadVec, Splat, WordAt, Mask, MaskReady, FlsValue;
    var base := WordAt(st.mem, st.rdx);
    var first, second := FlsTo(st.mem, st.rdi, bits, base, 0, FLS_POSITIONS), FlsTo(st.mem, st.rdi, bits, base, 1, FLS_POSITIONS);
    RowsStayInside(st.mem, e1.mem, st.rsi, 0, first);
    RowsStayInside(e1.mem, e2.mem, st.rsi, 1, second);
    forall v: nat | v < FLS_POSITIONS
      ensures Mapped(e2.mem, Row(st.rsi, 128, v), 64) && LoadVec(e2.mem, Row(st.rsi, 128, v)) == first[v]
    {
      var a := Row(st.rsi, 128, v);
      var b := st.rsi + 64;
      forall x | a <= x < a + 64 ensures !InRows(x, b, 128, |second|) {
        assert forall p: nat | p < |second| :: !(Row(b, 128, p) <= x < Row(b, 128, p) + 64);
      }
      assert Row(st.rsi + 64 * 0, 128, v) == a;
      LoadFrame(e1.mem, e2.mem, a);
    }
    forall v: nat, h: nat | v < FLS_POSITIONS && h < 2
      ensures FlsRow(st.mem, e2.mem, st.rdi, st.rsi, bits, base, v, h)
    {
      if h == 0 {
        assert Row(st.rsi + 64 * h, 128, v) == Row(st.rsi, 128, v);
      }
    }
  }

  ghost predicate Unffors(code: seq<Insn>, bits: nat, st: State)
    requires CanUnffor(bits, st)
  {
    && Run(code, st).Some?
    && var m := Run(code, st).value.mem;
    && OnlyChanges(st.mem, m, st.rsi, 4096)
    && FlsWritten(st.mem, m, st.rdi, st.rsi, bits, WordAt(st.mem, st.rdx))
  }

  lemma RunBothHalves(bits: nat, st: State, e0: State) returns (e: State)
    requires 1 <= bits && CanUnffor(bits, st) && InHalf(bits, 0, st, st.mem, e0, 0)
    ensures Run(FlsGroups(bits, 0, FLS_POSITIONS / GROUP) + FlsGroups(bits, 1, FLS_POSITIONS / GROUP), e0) == Some(e)
    ensures OnlyChanges(st.mem, e.mem, st.rsi, 4096)
    ensures FlsWritten(st.mem, e.mem, st.rdi, st.rsi, bits, WordAt(st.mem, st.rdx))
  {
    hide LoadVec, Splat, Mask, MaskReady, FlsWritten, WordAt, FlsTo, Written, FlsGroups, Disjoint;
    var n := FLS_POSITIONS / GROUP;
    var e1 := RunFlsGroups(bits, 0, st, st.mem, e0, n);
    RowsStayInside(st.mem, e1.mem, st.rsi, 0,
                   FlsTo(st.mem, st.rdi, bits, WordAt(st.mem, st.rdx), 0, FLS_POSITIONS));
    StartHalf(e1.mem, st.mem, st.rdi, bits, WordAt(st.mem, st.rdx), st.rsi + 64);
    assert InHalf(bits, 1, st, e1.mem, e1, 0);
    e := RunFlsGroups(bits, 1, st, e1.mem, e1, n);
    BothHalves(bits, st, e1, e);
    RunAppend(FlsGroups(bits, 0, n), FlsGroups(bits, 1, n), e0);
  }

  lemma StartHalf(m: Memory, m0: Memory, a: int, bits: nat, base: Word, b: int)
    requires bits <= 32 && Mapped(m0, a, 128 * bits)
    ensures Written(m, m, b, 128, FlsTo(m0, a, bits, base, 1, 0))
    ensures Written(m, m, b, 128, FlsTo(m0, a, bits, base, 0, 0))
  {
  }

  /** The FastLanes kernel theorem, for every width 0 to 32 and every 4-byte aligned input. */
  lemma UnfforRuns(bits: nat, st: State)
    requires CanUnffor(bits, st)
    ensures Unffors(FlsCode(bits), bits, st)
  {
    hide LoadVec, Splat, Mask, MaskReady, FlsWritten, WordAt, FlsPrologue, FlsGroups, Written, FlsTo;
    var e0 := RunFlsPrologue(bits, st);
    if bits == 0 {
      var e := RunZeroWidth(st, e0);
      RunAppend(FlsPrologue(0), Stores(Mem(Rsi, 0), 64, 0, Fill(2 * FLS_POSITIONS, BASEREG)), st);
    } else {
      StartHalf(st.mem, st.mem, st.rdi, bits, WordAt(st.mem, st.rdx), st.rsi);
      assert st.rsi + 64 * 0 == st.rsi;
      assert InHalf(bits, 0, st, st.mem, e0, 0);
      var e := RunBothHalves(bits, st, e0);
      var n := FLS_POSITIONS / GROUP;
      RunAppend(FlsPrologue(bits), FlsGroups(bits, 0, n) + FlsGroups(bits, 1, n), st);
    }
  }

  // ------------------------------------------------------------ the generator

  /** All low-half loads of a group before any of its high-half merges. */
  method EmitPairs(bits: nat, h: nat, start: nat) returns (out: seq<Insn>)
    requires 1 <= bits <= 32 && h < 2
    ensures out == Flat(LoadLos(bits, h, start)) + Flat(LoadHis(bits, h, start))
  {
    hide Flat;
    var first, n := FirstWord(bits, start), WordCount(bits, start);
    ghost var los, his := LoadLos(bits, h, start), LoadHis(bits, h, start);
    assert Flat(los[..0]) == Flat(his[..0]) == [] by { FlatEmpty(); }
    out := [];
    for w := 0 to n
      invariant out == Flat(los[..w])
    {
      out := out + [LoadUnpackLo(w, Mem(Rdi, 128 * (first + w) + 64 * h))];
      FlatSnoc(los, w);
    }
    FlatWhole(los);
    for w := 0 to n
      invariant out == Flat(los) + Flat(his[..w])
    {
      out := out + [LoadUnpackHi(w, Mem(Rdi, 128 * (first + w) + 64 * h + 64))];
      FlatSnoc(his, w);
    }
    FlatWhole(his);
  }

  method EmitFlsTail(bits: nat, h: nat, start: nat) returns (out: seq<Insn>)
    requires 1 <= bits <= 32 && h < 2
    ensures out == Flat(Adds(bits, start, 1)) + Stores(Mem(Rsi, 64 * h), 128, start, TempRegs(1))
  {
    ghost var adds, regs := Adds(bits, start, 1), TempRegs(1);
    out := [];
    for p := 0 to GROUP
      invariant out == Flat(adds[..p])
    {
      out := out + [AddD(Temp(p, 1), BASEREG, ResultReg(bits, start, p))];
      FlatSnoc(adds, p);
    }
    FlatWhole(adds);
    for p := 0 to GROUP
      invariant out == Flat(adds) + Stores(Mem(Rsi, 64 * h), 128, start, regs[..p])
    {
      out := out + [VStore(Mem(Rsi, 128 * (start + p) + 64 * h), Temp(p, 1))];
      assert regs[..p + 1][..p] == regs[..p];
    }
    assert regs[..GROUP] == regs;
  }

  method EmitHalf(bits: nat, h: nat) returns (out: seq<Insn>)
    requires 1 <= bits <= 32 && h < 2
    ensures out == FlsGroups(bits, h, FLS_POSITIONS / GROUP)
  {
    hide FlsGroupCode, Flat, ExtractCode;
    out := [];
    for g := 0 to FLS_POSITIONS / GROUP
      invariant out == FlsGroups(bits, h, g)
    {
      var start := GROUP * g;
      var pairs := EmitPairs(bits, h, start);
      var extract := EmitExtract(bits, start);
      var tail := EmitFlsTail(bits, h, start);
      out := out + (pairs + extract + tail);
      FlsGroupParts(bits, h, start);
    }
  }

  /** `knc_fls_unffor_bN`. */
  method EmitUnffor(bits: nat) returns (out: seq<Insn>)
    requires bits <= 32
    ensures out == FlsCode(bits)
    ensures forall st | CanUnffor(bits, st) :: Unffors(out, bits, st)
  {
    hide Unffors, CanUnffor, FlsGroups, Stores;
    forall st | CanUnffor(bits, st) ensures Unffors(FlsCode(bits), bits, st) {
      UnfforRuns(bits, st);
    }
    out := [Broadcast(BASEREG, Mem(Rdx, 0))];
    if bits == 0 {
      ghost var regs := Fill(2 * FLS_POSITIONS, BASEREG);
      assert Stores(Mem(Rsi, 0), 64, 0, regs[..0]) == [] by { NoStores(); }
      for v := 0 to FLS_POSITIONS
        invariant out == FlsPrologue(0) + Stores(Mem(Rsi, 0), 64, 0, regs[..2 * v])
      {
        for h := 0 to 2
          invariant out == FlsPrologue(0) + Stores(Mem(Rsi, 0), 64, 0, regs[..2 * v + h])
        {
          out := out + [VStore(Mem(Rsi, 128 * v + 64 * h), BASEREG)];
          NextStore(regs, 2 * v + h);
        }
      }
      assert regs[..2 * FLS_POSITIONS] == regs;
    } else {
      if bits < 32 {
        out := out + [LeaMask(bits), VLoad(MASKREG, Mem(Rax, 0))];
      }
      var first := EmitHalf(bits, 0);
      var second := EmitHalf(bits, 1);
      out := out + (first + second);
    }
  }

  lemma NoStores()
    ensures Stores(Mem(Rsi, 0), 64, 0, []) == []
  {
  }

  lemma NextStore(regs: seq<Zmm>, r: nat)
    requires r < |regs|
    ensures Stores(Mem(Rsi, 0), 64, 0, regs[..r + 1])
         == Stores(Mem(Rsi, 0), 64, 0, regs[..r]) + [VStore(Mem(Rsi, 64 * r), regs[r])]
  {
    assert regs[..r + 1][..r] == regs[..r];
  }

  lemma FlsGroupParts(bits: nat, h: nat, start: nat)
    requires 1 <= bits <= 32
    ensures FlsGroupCode(bits, h, start)
         == Flat(LoadLos(bits, h, start)) + Flat(LoadHis(bits, h, start)) + ExtractCode(bits, start)
            + (Flat(Adds(bits, start, 1)) + Stores(Mem(Rsi, 64 * h), 128, start, TempRegs(1)))
  {
  }
}
