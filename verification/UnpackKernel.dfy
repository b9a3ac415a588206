/** The libknc unpack kernels: the generator's straight-line code for every width and mode, and what
    running it does to memory. */
module UnpackKernel {
  import opened Arithmetic
  import opened Words
  import opened Options
  import opened Machine
  import opened Layout
  import opened Extraction

  /** What happens to a value after extraction: nothing, a base added, or a running sum. */
  datatype Mode = Plain | For | Delta

  const POSITIONS: nat := 64
  const BASEREG: Zmm := 26
  const ACCREG: Zmm := 27

  // ------------------------------------------------------------ what the block decodes to

  /** Position `v` of all sixteen lanes. */
  function Decoded(mode: Mode, ws: seq<Vec>, base: Vec, bits: nat, v: nat): Vec
    requires 1 <= bits <= 32 && |ws| == 2 * bits && v < POSITIONS
  {
    HoldsBelow(ws, bits, v);
    var field := FieldVec(ws, bits, v);
    match mode
    case Plain => field
    case For => VAdd(base, field)
    case Delta => VAdd(if v == 0 then base else Decoded(mode, ws, base, bits, v - 1), field)
  }

  function DecodedTo(mode: Mode, ws: seq<Vec>, base: Vec, bits: nat, n: nat): (vs: seq<Vec>)
    requires 1 <= bits <= 32 && |ws| == 2 * bits && n <= POSITIONS
    ensures |vs| == n && forall v | 0 <= v < n :: vs[v] == Decoded(mode, ws, base, bits, v)
  {
    seq(n, v requires 0 <= v < n => Decoded(mode, ws, base, bits, v))
  }

  lemma HoldsBelow(ws: seq<Vec>, bits: nat, v: nat)
    requires 1 <= bits <= 32 && |ws| == 2 * bits && v < POSITIONS
    ensures Holds(ws, bits, v)
  {
    MulMonotone(v + 1, POSITIONS, bits);
  }

  // ------------------------------------------------------------ the generated code

  function BaseLoad(mode: Mode): seq<Insn> {
    match mode
    case Plain => []
    case For => [VLoad(BASEREG, Mem(Rdx, 0))]
    case Delta => [VLoad(ACCREG, Mem(Rdx, 0))]
  }

  function Prologue(bits: nat, mode: Mode): seq<Insn> {
    BaseLoad(mode) + if bits < 32 then [LeaMask(bits), VLoad(MASKREG, Mem(Rax, 0))] else []
  }

  function LoadAt(bits: nat, start: nat, w: nat): Option<Insn>
    requires 1 <= bits <= 32 && w < WORD_REGS
  {
    Some(VLoad(w, Mem(Rsi, 64 * (FirstWord(bits, start) + w))))
  }

  function Loads(bits: nat, start: nat): (r: seq<Option<Insn>>)
    requires 1 <= bits <= 32
    ensures |r| == WordCount(bits, start) && forall w | 0 <= w < |r| :: r[w] == LoadAt(bits, start, w)
  {
    seq(WordCount(bits, start), w requires 0 <= w < WordCount(bits, start) => LoadAt(bits, start, w))
  }

  function ResultRegs(bits: nat, start: nat): (r: seq<Zmm>)
    requires 1 <= bits <= 32
    ensures |r| == GROUP && forall p | 0 <= p < GROUP :: r[p] == ResultReg(bits, start, p)
  {
    seq(GROUP, p requires 0 <= p < GROUP => ResultReg(bits, start, p))
  }

  function TempRegs(half: nat): (r: seq<Zmm>)
    requires half < 2
    ensures |r| == GROUP && forall p | 0 <= p < GROUP :: r[p] == Temp(p, half)
  {
    seq(GROUP, p requires 0 <= p < GROUP => Temp(p, half))
  }

  /** The base added to every value of the group. */
  function Adds(bits: nat, start: nat, half: nat): (r: seq<Option<Insn>>)
    requires 1 <= bits <= 32 && half < 2
    ensures |r| == GROUP
    ensures forall p | 0 <= p < GROUP :: r[p] == Some(AddD(Temp(p, half), BASEREG, ResultReg(bits, start, p)))
  {
    seq(GROUP, p requires 0 <= p < GROUP => Some(AddD(Temp(p, half), BASEREG, ResultReg(bits, start, p))))
  }

  /** The running sum: each add waits on the one before it and is stored at once. */
  function Sums(bits: nat, start: nat, n: nat): seq<Insn>
    requires 1 <= bits <= 32 && n <= GROUP
  {
    if n == 0 then []
    else
      Sums(bits, start, n - 1)
      + [AddD(ACCREG, ACCREG, ResultReg(bits, start, n - 1)), VStore(Mem(Rdi, 64 * (start + n - 1)), ACCREG)]
  }

  function Tail(bits: nat, mode: Mode, start: nat): seq<Insn>
    requires 1 <= bits <= 32
  {
    match mode
    case Plain => Stores(Mem(Rdi, 0), 64, start, ResultRegs(bits, start))
    case For => Flat(Adds(bits, start, 0)) + Stores(Mem(Rdi, 0), 64, start, TempRegs(0))
    case Delta => Sums(bits, start, GROUP)
  }

  function GroupCode(bits: nat, mode: Mode, start: nat): seq<Insn>
    requires 1 <= bits <= 32
  {
    Flat(Loads(bits, start)) + ExtractCode(bits, start) + Tail(bits, mode, start)
  }

  function Groups(bits: nat, mode: Mode, n: nat): seq<Insn>
    requires 1 <= bits <= 32
  {
    if n == 0 then [] else Groups(bits, mode, n - 1) + GroupCode(bits, mode, GROUP * (n - 1))
  }

  function UnpackCode(bits: nat, mode: Mode): seq<Insn>
    requires 1 <= bits <= 32
  {
    Prologue(bits, mode) + Groups(bits, mode, POSITIONS / GROUP)
  }

  // ------------------------------------------------------------ running it

  ghost predicate Disjoint(a: int, n: int, b: int, k: int) { a + n <= b || b + k <= a }

  ghost predicate MaskReady(bits: nat, st: State) {
    bits < 32 ==>
      var a := st.rodata + 64 * (bits - 1);
      a % 64 == 0 && Mapped(st.mem, a, 64) && LoadVec(st.mem, a) == Splat(Mask(bits))
  }

  /** What the kernel's signature asks of its caller: 64-byte aligned buffers, the output apart from the
      input. The base vector is read before anything is written, so it may overlap either. */
  ghost predicate CanUnpack(bits: nat, mode: Mode, st: State) {
    && 1 <= bits <= 32 && MaskReady(bits, st)
    && st.rdi % 64 == 0 && Mapped(st.mem, st.rdi, 4096)
    && st.rsi % 64 == 0 && Mapped(st.mem, st.rsi, 128 * bits)
    && Disjoint(st.rdi, 4096, st.rsi, 128 * bits)
    && (mode != Plain ==> st.rdx % 64 == 0 && Mapped(st.mem, st.rdx, 64))
  }

  /** `n` consecutive 64-byte vectors. */
  ghost function VecsAt(m: Memory, a: int, n: nat): (vs: seq<Vec>)
    requires Mapped(m, a, 64 * n)
    ensures |vs| == n && forall w | 0 <= w < n :: vs[w] == LoadVec(m, a + 64 * w)
  {
    seq(n, w requires 0 <= w < n => LoadVec(m, a + 64 * w))
  }

  ghost function BaseVec(mode: Mode, st: State): Vec
    requires mode != Plain ==> Mapped(st.mem, st.rdx, 64)
  {
    if mode == Plain then Splat(ZERO) else LoadVec(st.mem, st.rdx)
  }

  ghost predicate SamePointers(a: State, b: State) {
    a.rdi == b.rdi && a.rsi == b.rsi && a.rdx == b.rdx && a.rodata == b.rodata
  }

  /** Between groups: `8 * n` positions are written and the registers live across groups are right. */
  ghost predicate Between(bits: nat, mode: Mode, st0: State, st: State, n: nat) {
    && CanUnpack(bits, mode, st0) && SamePointers(st0, st) && n <= POSITIONS
    && var ws, base := VecsAt(st0.mem, st0.rsi, 2 * bits), BaseVec(mode, st0);
    && Written(st0.mem, st.mem, st0.rdi, 64, DecodedTo(mode, ws, base, bits, n))
    && (bits < 32 ==> st.zmm[MASKREG] == Splat(Mask(bits)))
    && (mode == For ==> st.zmm[BASEREG] == base)
    && (mode == Delta ==> st.zmm[ACCREG] == if n == 0 then base else Decoded(mode, ws, base, bits, n - 1))
  }

  /** The mask's address into rax, and the mask. */
  lemma RunMaskLoad(bits: nat, st: State) returns (e: State)
    requires 1 <= bits < 32 && MaskReady(bits, st)
    ensures Run([LeaMask(bits), VLoad(MASKREG, Mem(Rax, 0))], st) == Some(e)
    ensures e == st.(rax := e.rax, zmm := st.zmm[MASKREG := Splat(Mask(bits))])
  {
    hide LoadVec, Splat, Mask, Mapped;
    var lea, load := LeaMask(bits), VLoad(MASKREG, Mem(Rax, 0));
    RunOne(lea, st);
    var e1 := Step(lea, st);
    RunOne(load, e1);
    e := Step(load, e1);
    RunAppend([lea], [load], st);
    assert [lea] + [load] == [lea, load];
  }

  lemma RunBaseLoad(bits: nat, mode: Mode, st: State) returns (e: State)
    requires CanUnpack(bits, mode, st)
    ensures Run(BaseLoad(mode), st) == Some(e) && e == st.(zmm := e.zmm)
    ensures mode == For ==> e.zmm[BASEREG] == BaseVec(mode, st)
    ensures mode == Delta ==> e.zmm[ACCREG] == BaseVec(mode, st)
  {
    hide LoadVec, Splat, Mask, Mapped;
    if mode == Plain {
      e := st;
    } else {
      var load := BaseLoad(mode)[0];
      RunOne(load, st);
      e := Step(load, st);
    }
  }

  lemma RunPrologue(bits: nat, mode: Mode, st: State) returns (e: State)
    requires CanUnpack(bits, mode, st)
    ensures Run(Prologue(bits, mode), st) == Some(e)
    ensures Between(bits, mode, st, e, 0)
  {
    hide LoadVec, Splat, Mask, Decoded, Mapped, Step, Ok, Run, MaskReady;
    var first := BaseLoad(mode);
    var e0 := RunBaseLoad(bits, mode, st);
    e := e0;
    if bits < 32 {
      MaskReadyArgs(bits, st, e0);
      e := RunMaskLoad(bits, e0);
      RunAppend(first, [LeaMask(bits), VLoad(MASKREG, Mem(Rax, 0))], st);
    } else {
      assert first + [] == first;
    }
  }

  lemma MaskReadyArgs(bits: nat, st: State, st': State)
    requires MaskReady(bits, st) && st'.rodata == st.rodata && st'.mem == st.mem
    ensures MaskReady(bits, st')
  {
    hide LoadVec, Splat, Mask, Mapped;
  }

  lemma OutsideIntact(m0: Memory, m: Memory, a: int, vs: seq<Vec>, b: int)
    requires Written(m0, m, a, 64, vs) && Disjoint(a, 64 * |vs|, b, 64) && Mapped(m0, b, 64)
    ensures Mapped(m, b, 64) && LoadVec(m, b) == LoadVec(m0, b)
  {
    hide LoadVec;
    LoadFrame(m0, m, b);
  }

  lemma InputIntact(bits: nat, mode: Mode, st0: State, st: State, n: nat, w: nat)
    requires Between(bits, mode, st0, st, n) && w < 2 * bits
    ensures Mapped(st.mem, st.rsi + 64 * w, 64)
    ensures LoadVec(st.mem, st.rsi + 64 * w) == VecsAt(st0.mem, st0.rsi, 2 * bits)[w]
  {
    hide LoadVec, Written, DecodedTo, Decoded;
    var ws, base := VecsAt(st0.mem, st0.rsi, 2 * bits), BaseVec(mode, st0);
    OutsideIntact(st0.mem, st.mem, st0.rdi, DecodedTo(mode, ws, base, bits, n), st.rsi + 64 * w);
  }

  lemma LoadReads(bits: nat, mode: Mode, st0: State, st: State, start: nat, w: nat)
    requires Between(bits, mode, st0, st, start) && start + GROUP <= POSITIONS && w < WordCount(bits, start)
    ensures FirstWord(bits, start) + w < 2 * bits
    ensures var i := LoadAt(bits, start, w).value;
      Ok(i, st) && Eval(i, st) == VecsAt(st0.mem, st0.rsi, 2 * bits)[FirstWord(bits, start) + w]
  {
    hide LoadVec, FieldVec, DecodedTo, Decoded, Written, Splat, Mask, VecsAt, FirstWord, WordCount, Mapped;
    LastWordFits(bits, start);
    InputIntact(bits, mode, st0, st, start, FirstWord(bits, start) + w);
  }

  lemma LoadsParallel(bits: nat, mode: Mode, st0: State, st: State, start: nat)
    requires Between(bits, mode, st0, st, start) && start + GROUP <= POSITIONS
    ensures Parallel(Loads(bits, start), st)
  {
    hide LoadVec, FieldVec, DecodedTo, Decoded, Written, Splat, Mask, VecsAt, FirstWord, Mapped, Ok, Eval;
    var loads := Loads(bits, start);
    forall w | 0 <= w < |loads|
      ensures loads[w] == LoadAt(bits, start, w) && Ok(loads[w].value, st)
    {
      LoadReads(bits, mode, st0, st, start, w);
    }
  }

  lemma LoadsElsewhere(bits: nat, start: nat, st: State, zmm: Regs)
    requires 1 <= bits <= 32 && Parallel(Loads(bits, start), st) && SlotsDone(Loads(bits, start), st, zmm)
    ensures forall r: Zmm | r >= WORD_REGS :: zmm[r] == st.zmm[r]
  {
    hide Parallel, FirstWord, Eval;
    var loads := Loads(bits, start);
    assert forall w | 0 <= w < |loads| :: loads[w] == LoadAt(bits, start, w);
  }

  lemma RunLoads(bits: nat, mode: Mode, st0: State, st: State, start: nat) returns (e: State)
    requires Between(bits, mode, st0, st, start) && start + GROUP <= POSITIONS
    ensures Run(Flat(Loads(bits, start)), st) == Some(e)
    ensures Between(bits, mode, st0, e, start)
    ensures WordsLoaded(VecsAt(st0.mem, st0.rsi, 2 * bits), bits, start, e.zmm)
  {
    hide LoadVec, FieldVec, DecodedTo, Decoded, Written, Splat, Mask, VecsAt, FirstWord, Mapped, Ok, Eval, Parallel;
    var loads := Loads(bits, start);
    LoadsParallel(bits, mode, st0, st, start);
    e := RunSlots(loads, st);
    LoadsElsewhere(bits, start, st, e.zmm);
    LastWordFits(bits, start);
    var ws := VecsAt(st0.mem, st0.rsi, 2 * bits);
    forall r: Zmm | r < WordCount(bits, start) ensures e.zmm[r] == ws[FirstWord(bits, start) + r] {
      LoadReads(bits, mode, st0, st, start, r);
      assert loads[r].Some?;
    }
  }

  lemma LastWordFits(bits: nat, start: nat)
    requires 1 <= bits <= 32 && start + GROUP <= POSITIONS
    ensures FirstWord(bits, start) + WordCount(bits, start) <= 2 * bits
  {
    assert bits * (start + GROUP - 1) + bits == bits * (start + GROUP);
    MulMonotone(start + GROUP, POSITIONS, bits);
  }

  lemma DecodedAppend(mode: Mode, ws: seq<Vec>, base: Vec, bits: nat, n: nat, vs: seq<Vec>)
    requires 1 <= bits <= 32 && |ws| == 2 * bits && n + |vs| <= POSITIONS
    requires forall p: nat | p < |vs| :: vs[p] == Decoded(mode, ws, base, bits, n + p)
    ensures DecodedTo(mode, ws, base, bits, n) + vs == DecodedTo(mode, ws, base, bits, n + |vs|)
  {
  }

  /** Storing `regs` from `[rdi + 64 * first]` on extends the written rows to `after`. */
  lemma RunRowStores(out: int, before: seq<Vec>, regs: seq<Zmm>, after: seq<Vec>, m0: Memory, st: State)
    returns (e: State)
    requires st.rdi == out && out % 64 == 0 && Mapped(m0, out, 64 * (|before| + |regs|))
    requires Written(m0, st.mem, out, 64, before) && before + Contents(st.zmm, regs) == after
    ensures Run(Stores(Mem(Rdi, 0), 64, |before|, regs), st) == Some(e)
    ensures e == st.(mem := e.mem) && Written(m0, e.mem, out, 64, after)
  {
    hide Written, Contents, LoadVec;
    RowsInBuffer(m0, out, |before| + |regs|);
    e := RunStores(Mem(Rdi, 0), 64, before, regs, m0, st);
  }

  lemma RowsInBuffer(m: Memory, a: int, n: nat)
    requires Mapped(m, a, 64 * n)
    ensures RowsMapped(m, a, 64, n)
  {
  }

  lemma RunPlainTail(bits: nat, st0: State, st: State, start: nat) returns (e: State)
    requires Between(bits, Plain, st0, st, start) && start + GROUP <= POSITIONS
    requires forall p: nat | p < GROUP ::
               ExtractedAt(VecsAt(st0.mem, st0.rsi, 2 * bits), bits, start, p, st.zmm)
    ensures Run(Tail(bits, Plain, start), st) == Some(e)
    ensures Between(bits, Plain, st0, e, start + GROUP)
  {
    hide LoadVec, FieldVec, Written, Splat, Mask, ResultReg, DecodedTo, VecsAt, MaskReady, Disjoint, BaseVec, Stores;
    var ws, base := VecsAt(st0.mem, st0.rsi, 2 * bits), BaseVec(Plain, st0);
    var regs := ResultRegs(bits, start);
    var out := Contents(st.zmm, regs);
    forall p: nat | p < GROUP ensures out[p] == Decoded(Plain, ws, base, bits, start + p) {
      assert ExtractedAt(ws, bits, start, p, st.zmm);
    }
    DecodedAppend(Plain, ws, base, bits, start, out);
    hide Decoded, Contents;
    e := RunRowStores(st0.rdi, DecodedTo(Plain, ws, base, bits, start), regs,
                      DecodedTo(Plain, ws, base, bits, start + GROUP), st0.mem, st);
  }

  lemma RunForTail(bits: nat, st0: State, st: State, start: nat) returns (e: State)
    requires Between(bits, For, st0, st, start) && start + GROUP <= POSITIONS
    requires forall p: nat | p < GROUP ::
               ExtractedAt(VecsAt(st0.mem, st0.rsi, 2 * bits), bits, start, p, st.zmm)
    ensures Run(Tail(bits, For, start), st) == Some(e)
    ensures Between(bits, For, st0, e, start + GROUP)
  {
    hide LoadVec, FieldVec, VAdd, Written, Splat, Mask, DecodedTo, VecsAt, MaskReady, Disjoint, BaseVec, Stores, Adds;
    hide ExtractedAt;
    var ws, base := VecsAt(st0.mem, st0.rsi, 2 * bits), BaseVec(For, st0);
    var e1 := RunAdds(ws, bits, start, 0, st);
    var regs := TempRegs(0);
    var out := Contents(e1.zmm, regs);
    forall p: nat | p < GROUP ensures out[p] == Decoded(For, ws, base, bits, start + p) {
      assert AddedAt(ws, bits, start, p, 0, base, e1.zmm);
    }
    DecodedAppend(For, ws, base, bits, start, out);
    hide Decoded, Contents;
    e := RunRowStores(st0.rdi, DecodedTo(For, ws, base, bits, start), regs,
                      DecodedTo(For, ws, base, bits, start + GROUP), st0.mem, e1);
    RunAppend(Flat(Adds(bits, start, 0)), Stores(Mem(Rdi, 0), 64, start, regs), st);
  }

  ghost predicate AddedAt(ws: seq<Vec>, bits: nat, start: nat, p: nat, half: nat, base: Vec, zmm: Regs)
    requires p < GROUP && half < 2
  {
    Holds(ws, bits, start + p) && zmm[Temp(p, half)] == VAdd(base, FieldVec(ws, bits, start + p))
  }

  lemma RunAdds(ws: seq<Vec>, bits: nat, start: nat, half: nat, st: State) returns (e: State)
    requires 1 <= bits <= 32 && half < 2
    requires forall p: nat | p < GROUP :: ExtractedAt(ws, bits, start, p, st.zmm)
    ensures Run(Flat(Adds(bits, start, half)), st) == Some(e)
    ensures e == st.(zmm := e.zmm) && TempsOnly(st.zmm, e.zmm)
    ensures forall p: nat | p < GROUP :: AddedAt(ws, bits, start, p, half, st.zmm[BASEREG], e.zmm)
  {
    hide FieldVec, VAdd, PlaceAt, WordCount, FirstWord;
    var adds := Adds(bits, start, half);
    assert Parallel(adds, st);
    e := RunSlots(adds, st);
    forall p: nat | p < GROUP ensures AddedAt(ws, bits, start, p, half, st.zmm[BASEREG], e.zmm) {
      assert adds[p].Some? && ExtractedAt(ws, bits, start, p, st.zmm);
    }
  }

  lemma RunSum(bits: nat, st0: State, st: State, start: nat, p: nat) returns (e: State)
    requires p < GROUP && Between(bits, Delta, st0, st, start + p) && start + GROUP <= POSITIONS
    requires ExtractedAt(VecsAt(st0.mem, st0.rsi, 2 * bits), bits, start, p, st.zmm)
    ensures Run([AddD(ACCREG, ACCREG, ResultReg(bits, start, p)), VStore(Mem(Rdi, 64 * (start + p)), ACCREG)], st)
         == Some(e)
    ensures Between(bits, Delta, st0, e, start + p + 1)
    ensures forall r: Zmm | r != ACCREG :: e.zmm[r] == st.zmm[r]
  {
    hide LoadVec, FieldVec, VAdd, Written, Splat, Mask, StoreVec, VecsAt, ResultReg, Mapped, DecodedTo, Disjoint;
    var ws, base, v := VecsAt(st0.mem, st0.rsi, 2 * bits), BaseVec(Delta, st0), start + p;
    var add, store := AddD(ACCREG, ACCREG, ResultReg(bits, start, p)), VStore(Mem(Rdi, 64 * v), ACCREG);
    RunOne(add, st);
    var mid := Step(add, st);
    assert mid.zmm[ACCREG] == Decoded(Delta, ws, base, bits, v);
    RowsInBuffer(st0.mem, st0.rdi, POSITIONS);
    assert Row(st0.rdi, 64, v) == Addr(store.at, mid);
    var vs := DecodedTo(Delta, ws, base, bits, v);
    WrittenKeepsMap(st0.mem, mid.mem, st0.rdi, 64, vs, Row(st0.rdi, 64, v));
    RunOne(store, mid);
    e := Step(store, mid);
    RunAppend([add], [store], st);
    assert [add] + [store] == [add, store];
    StoreRow(st0.mem, mid.mem, st0.rdi, 64, vs, mid.zmm[ACCREG]);
    DecodedAppend(Delta, ws, base, bits, v, [mid.zmm[ACCREG]]);
  }

  lemma {:induction false} RunSums(bits: nat, st0: State, st: State, start: nat, n: nat) returns (e: State)
    requires Between(bits, Delta, st0, st, start) && start + GROUP <= POSITIONS && n <= GROUP
    requires forall p: nat | p < GROUP ::
               ExtractedAt(VecsAt(st0.mem, st0.rsi, 2 * bits), bits, start, p, st.zmm)
    ensures Run(Sums(bits, start, n), st) == Some(e)
    ensures Between(bits, Delta, st0, e, start + n)
    ensures forall r: Zmm | r != ACCREG :: e.zmm[r] == st.zmm[r]
  {
    hide Written, DecodedTo, Decoded, LoadVec, FieldVec, Ok, Step, Eval, ExtractedAt, ResultReg, VecsAt, Splat, Mask;
    e := st;
    if n > 0 {
      var before := RunSums(bits, st0, st, start, n - 1);
      SameResult(VecsAt(st0.mem, st0.rsi, 2 * bits), bits, start, n - 1, st.zmm, before.zmm);
      e := RunSum(bits, st0, before, start, n - 1);
      RunAppend(Sums(bits, start, n - 1),
                [AddD(ACCREG, ACCREG, ResultReg(bits, start, n - 1)), VStore(Mem(Rdi, 64 * (start + n - 1)), ACCREG)], st);
    }
  }

  lemma SameResult(ws: seq<Vec>, bits: nat, start: nat, p: nat, a: Regs, b: Regs)
    requires p < GROUP && ExtractedAt(ws, bits, start, p, a)
    requires forall r: Zmm | r != ACCREG :: b[r] == a[r]
    ensures ExtractedAt(ws, bits, start, p, b)
  {
    hide FieldVec;
  }

  lemma RunGroup(bits: nat, mode: Mode, st0: State, st: State, start: nat) returns (e: State)
    requires Between(bits, mode, st0, st, start) && start + GROUP <= POSITIONS
    ensures Run(GroupCode(bits, mode, start), st) == Some(e)
    ensures Between(bits, mode, st0, e, start + GROUP)
  {
    hide LoadVec, FieldVec, Written, DecodedTo, Decoded, Splat, Mask, ExtractedAt, WordsLoaded, ExtractCode, Loads;
    hide VecsAt, Ok, Step, Eval, Stores, Adds, Sums;
    var ws := VecsAt(st0.mem, st0.rsi, 2 * bits);
    var e1 := RunLoads(bits, mode, st0, st, start);
    HoldsBelow(ws, bits, start + GROUP - 1);
    var e2 := RunExtract(ws, bits, start, e1);
    match mode {
      case Plain => e := RunPlainTail(bits, st0, e2, start);
      case For => e := RunForTail(bits, st0, e2, start);
      case Delta => e := RunSums(bits, st0, e2, start, GROUP);
    }
    RunAppend(Flat(Loads(bits, start)), ExtractCode(bits, start), st);
    RunAppend(Flat(Loads(bits, start)) + ExtractCode(bits, start), Tail(bits, mode, start), st);
  }

  lemma {:induction false} RunGroups(bits: nat, mode: Mode, st0: State, st: State, n: nat) returns (e: State)
    requires 1 <= bits <= 32 && Between(bits, mode, st0, st, 0) && n <= POSITIONS / GROUP
    ensures Run(Groups(bits, mode, n), st) == Some(e)
    ensures Between(bits, mode, st0, e, GROUP * n)
  {
    hide Between, GroupCode;
    e := st;
    if n > 0 {
      var before := RunGroups(bits, mode, st0, st, n - 1);
      e := RunGroup(bits, mode, st0, before, GROUP * (n - 1));
      RunAppend(Groups(bits, mode, n - 1), GroupCode(bits, mode, GROUP * (n - 1)), st);
    }
  }

  lemma RowsCoverBuffer(m0: Memory, m: Memory, a: int, vs: seq<Vec>)
    requires Written(m0, m, a, 64, vs) && Mapped(m0, a, 64 * |vs|)
    ensures Mapped(m, a, 64 * |vs|) && VecsAt(m, a, |vs|) == vs
    ensures OnlyChanges(m0, m, a, 64 * |vs|)
  {
    hide LoadVec;
    forall w: nat | w < |vs| ensures LoadVec(m, a + 64 * w) == vs[w] {
      assert Row(a, 64, w) == a + 64 * w;
    }
    forall x | x in m0 && !(a <= x < a + 64 * |vs|) ensures m[x] == m0[x] {
      assert forall p: nat | p < |vs| :: !(Row(a, 64, p) <= x < Row(a, 64, p) + 64);
    }
  }

  /** Running `code` from `st` does not fault, leaves in the output exactly the decoded block, and changes
      no other memory. */
  ghost predicate Unpacks(code: seq<Insn>, bits: nat, mode: Mode, st: State)
    requires CanUnpack(bits, mode, st)
  {
    && Run(code, st).Some?
    && var m := Run(code, st).value.mem;
    && OnlyChanges(st.mem, m, st.rdi, 4096)
    && VecsAt(m, st.rdi, POSITIONS)
       == DecodedTo(mode, VecsAt(st.mem, st.rsi, 2 * bits), BaseVec(mode, st), bits, POSITIONS)
  }

  /** The kernel theorem, from any machine state with proper buffers. */
  lemma UnpackRuns(bits: nat, mode: Mode, st: State)
    requires CanUnpack(bits, mode, st)
    ensures Unpacks(UnpackCode(bits, mode), bits, mode, st)
  {
    hide LoadVec, FieldVec, Decoded, DecodedTo;
    var e0 := RunPrologue(bits, mode, st);
    var e := RunGroups(bits, mode, st, e0, POSITIONS / GROUP);
    RunAppend(Prologue(bits, mode), Groups(bits, mode, POSITIONS / GROUP), st);
    RowsCoverBuffer(st.mem, e.mem, st.rdi,
                    DecodedTo(mode, VecsAt(st.mem, st.rsi, 2 * bits), BaseVec(mode, st), bits, POSITIONS));
  }

  // ------------------------------------------------------------ the generator

  lemma FlatSnoc(slots: seq<Option<Insn>>, p: nat)
    requires p < |slots|
    ensures Flat(slots[..p + 1]) == Flat(slots[..p]) + match slots[p] case None => [] case Some(i) => [i]
  {
    assert slots[..p + 1][..p] == slots[..p];
  }

  lemma FlatWhole(slots: seq<Option<Insn>>)
    ensures slots[..|slots|] == slots
  {
  }

  /** The extraction phases of one group, as the generator's loops emit them. */
  method EmitExtract(bits: nat, start: nat) returns (out: seq<Insn>)
    requires 1 <= bits <= 32
    ensures out == ExtractCode(bits, start)
  {
    hide Flat;
    var first := FirstWord(bits, start);
    ghost var lows, highs := Lows(bits, start), Highs(bits, start);
    ghost var merges, masks := Merges(bits, start), Masks(bits, start);
    assert Flat(lows[..0]) == Flat(highs[..0]) == Flat(merges[..0]) == Flat(masks[..0]) == [] by { FlatEmpty(); }
    out := [];
    for p := 0 to GROUP
      invariant out == Flat(lows[..p])
    {
      var (w, s) := PlaceAt(bits, start, p);
      WordInGroup(bits, start, p);
      if s != 0 {
        out := out + [ShiftRight(Temp(p, 0), w - first, s)];
      }
      FlatSnoc(lows, p);
    }
    FlatWhole(lows);
    for p := 0 to GROUP
      invariant out == Flat(lows) + Flat(highs[..p])
    {
      var (w, s) := PlaceAt(bits, start, p);
      WordInGroup(bits, start, p);
      if s + bits > 32 {
        out := out + [ShiftLeft(Temp(p, 1), w + 1 - first, 32 - s)];
      }
      FlatSnoc(highs, p);
    }
    FlatWhole(highs);
    for p := 0 to GROUP
      invariant out == Flat(lows) + Flat(highs) + Flat(merges[..p])
    {
      var (_, s) := PlaceAt(bits, start, p);
      if s + bits > 32 {
        out := out + [OrD(Temp(p, 0), Temp(p, 0), Temp(p, 1))];
      }
      FlatSnoc(merges, p);
    }
    FlatWhole(merges);
    for p := 0 to GROUP
      invariant out == Flat(lows) + Flat(highs) + Flat(merges) + Flat(masks[..p])
    {
      var (w, s) := PlaceAt(bits, start, p);
      WordInGroup(bits, start, p);
      if s + bits != 32 {
        out := out + [AndD(Temp(p, 0), if s == 0 then w - first else Temp(p, 0), MASKREG)];
      }
      FlatSnoc(masks, p);
    }
    FlatWhole(masks);
  }

  lemma FlatEmpty()
    ensures Flat([]) == []
  {
  }

  /** Stores of a group's registers in position order. */
  method EmitStores(start: nat, regs: seq<Zmm>) returns (out: seq<Insn>)
    ensures out == Stores(Mem(Rdi, 0), 64, start, regs)
  {
    out := [];
    for p := 0 to |regs|
      invariant out == Stores(Mem(Rdi, 0), 64, start, regs[..p])
    {
      out := out + [VStore(Mem(Rdi, 64 * (start + p)), regs[p])];
      assert regs[..p + 1][..p] == regs[..p];
    }
    assert regs[..|regs|] == regs;
  }

  /** `knc_unpack*_bN`: the generator's output, and what running it does from every machine state. */
  method EmitUnpack(bits: nat, mode: Mode) returns (out: seq<Insn>)
    requires 1 <= bits <= 32
    ensures out == UnpackCode(bits, mode)
    ensures forall st | CanUnpack(bits, mode, st) :: Unpacks(out, bits, mode, st)
  {
    hide Unpacks, CanUnpack, GroupCode, Flat, ExtractCode, Tail;
    out := [];
    if mode == For {
      out := out + [VLoad(BASEREG, Mem(Rdx, 0))];
    }
    if mode == Delta {
      out := out + [VLoad(ACCREG, Mem(Rdx, 0))];
    }
    if bits < 32 {
      out := out + [LeaMask(bits), VLoad(MASKREG, Mem(Rax, 0))];
    }
    for g := 0 to POSITIONS / GROUP
      invariant out == Prologue(bits, mode) + Groups(bits, mode, g)
    {
      var start := GROUP * g;
      var loads := EmitLoads(bits, start);
      var extract := EmitExtract(bits, start);
      var tail := EmitTail(bits, mode, start);
      out := out + (loads + extract + tail);
      GroupParts(bits, mode, start);
    }
    forall st | CanUnpack(bits, mode, st) ensures Unpacks(out, bits, mode, st) {
      UnpackRuns(bits, mode, st);
    }
  }

  lemma GroupParts(bits: nat, mode: Mode, start: nat)
    requires 1 <= bits <= 32
    ensures GroupCode(bits, mode, start) == Flat(Loads(bits, start)) + ExtractCode(bits, start) + Tail(bits, mode, start)
  {
  }

  method EmitLoads(bits: nat, start: nat) returns (out: seq<Insn>)
    requires 1 <= bits <= 32
    ensures out == Flat(Loads(bits, start))
  {
    var n := WordCount(bits, start);
    ghost var loads := Loads(bits, start);
    FlatEmpty();
    out := [];
    for w := 0 to n
      invariant out == Flat(loads[..w])
    {
      out := out + [VLoad(w, Mem(Rsi, 64 * (FirstWord(bits, start) + w)))];
      FlatSnoc(loads, w);
    }
    FlatWhole(loads);
  }

  method EmitTail(bits: nat, mode: Mode, start: nat) returns (out: seq<Insn>)
    requires 1 <= bits <= 32
    ensures out == Tail(bits, mode, start)
  {
    out := [];
    match mode {
      case Plain =>
        out := EmitStores(start, ResultRegs(bits, start));
      case For =>
        ghost var adds := Adds(bits, start, 0);
        for p := 0 to GROUP
          invariant out == Flat(adds[..p])
        {
          out := out + [AddD(Temp(p, 0), BASEREG, ResultReg(bits, start, p))];
          FlatSnoc(adds, p);
        }
        FlatWhole(adds);
        var stores := EmitStores(start, TempRegs(0));
        out := out + stores;
      case Delta =>
        for p := 0 to GROUP
          invariant out == Sums(bits, start, p)
        {
          out := out + [AddD(ACCREG, ACCREG, ResultReg(bits, start, p)), VStore(Mem(Rdi, 64 * (start + p)), ACCREG)];
        }
    }
  }
}
