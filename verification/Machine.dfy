/** The part of the Knights Corner vector machine the generated kernels use: 32 registers of sixteen
    32-bit lanes, byte-addressed little-endian memory, and one instruction per encoder function. */
module Machine {
  import opened Options
  import opened Words

  type Octet = b: seq<bool> | |b| == 8 witness Fill(8, false)
  type Memory = map<int, Octet>
  type Zmm = n: nat | n < 32
  type Regs = r: seq<Vec> | |r| == 32 witness Fill(32, Splat(ZERO))

  datatype Gpr = Rax | Rdx | Rsi | Rdi

  /** `[base + disp]`. */
  datatype Mem = Mem(base: Gpr, disp: int)

  datatype Insn =
    | VStore(at: Mem, src: Zmm)                   // vmovaps mt, zmm
    | VLoad(dst: Zmm, at: Mem)                    // vmovaps zmm, mt
    | LoadUnpackLo(dst: Zmm, at: Mem)             // vloadunpackld
    | LoadUnpackHi(dst: Zmm, at: Mem)             // vloadunpackhd
    | Broadcast(dst: Zmm, at: Mem)                // vpbroadcastd
    | ShiftRight(dst: Zmm, a: Zmm, count: nat)    // vpsrld, immediate count
    | ShiftLeft(dst: Zmm, a: Zmm, count: nat)     // vpslld, immediate count
    | AndD(dst: Zmm, a: Zmm, b: Zmm)              // vpandd
    | OrD(dst: Zmm, a: Zmm, b: Zmm)               // vpord
    | AddD(dst: Zmm, a: Zmm, b: Zmm)              // vpaddd
    | SubD(dst: Zmm, a: Zmm, b: Zmm)              // vpsubd
    | Move(dst: Zmm, a: Zmm)                      // vmovapd zmm, zmm
    | LeaMask(bits: nat)                          // leaq knc_mask_bN(%rip), %rax

  /** `rodata` is where the mask constants start: one 64-byte row a width, widths 1 to 31 in order. */
  datatype State = State(zmm: Regs, rax: int, rdx: int, rsi: int, rdi: int, rodata: int, mem: Memory)

  function Base(g: Gpr, st: State): int {
    match g
    case Rax => st.rax
    case Rdx => st.rdx
    case Rsi => st.rsi
    case Rdi => st.rdi
  }

  function Addr(m: Mem, st: State): int { Base(m.base, st) + m.disp }

  // ------------------------------------------------------------ memory

  ghost predicate Mapped(m: Memory, a: int, n: int) {
    forall x | a <= x < a + n :: x in m
  }

  function WordAt(m: Memory, a: int): Word
    requires Mapped(m, a, 4)
  {
    var b0: seq<bool>, b1: seq<bool>, b2: seq<bool>, b3: seq<bool> := m[a], m[a + 1], m[a + 2], m[a + 3];
    b0 + b1 + b2 + b3
  }

  function LoadVec(m: Memory, a: int): (v: Vec)
    requires Mapped(m, a, 64)
    ensures forall l | 0 <= l < 16 :: v[l] == WordAt(m, a + 4 * l)
  {
    seq(16, l requires 0 <= l < 16 => WordAt(m, a + 4 * l))
  }

  function OctetOf(v: Vec, k: nat): Octet
    requires k < 64
  {
    v[k / 4][8 * (k % 4)..8 * (k % 4) + 8]
  }

  function StoreVec(m: Memory, a: int, v: Vec): Memory {
    map x | x in m :: if a <= x < a + 64 then OctetOf(v, x - a) else m[x]
  }

  /** `m'` differs from `m` at most in `[a, a + n)`. */
  ghost predicate OnlyChanges(m: Memory, m': Memory, a: int, n: int) {
    m'.Keys == m.Keys && forall x | x in m && !(a <= x < a + n) :: m'[x] == m[x]
  }

  lemma StoreFrame(m: Memory, a: int, v: Vec)
    ensures OnlyChanges(m, StoreVec(m, a, v), a, 64)
  {
  }

  lemma StoredOctet(m: Memory, a: int, v: Vec, l: nat, b: nat)
    requires Mapped(m, a, 64) && l < 16 && b < 4
    ensures a + 4 * l + b in StoreVec(m, a, v)
    ensures StoreVec(m, a, v)[a + 4 * l + b] == v[l][8 * b..8 * b + 8]
  {
    var x, k := a + 4 * l + b, 4 * l + b;
    assert k / 4 == l && k % 4 == b;
    assert x - a == k && StoreVec(m, a, v)[x] == OctetOf(v, k);
  }

  lemma FourOctets(w: Word)
    ensures w[0..8] + w[8..16] + w[16..24] + w[24..32] == w
  {
  }

  lemma StoredWord(m: Memory, a: int, v: Vec, l: nat)
    requires Mapped(m, a, 64) && l < 16
    ensures Mapped(StoreVec(m, a, v), a + 4 * l, 4)
    ensures WordAt(StoreVec(m, a, v), a + 4 * l) == v[l]
  {
    hide StoreVec, OctetOf;
    StoredOctet(m, a, v, l, 0);
    StoredOctet(m, a, v, l, 1);
    StoredOctet(m, a, v, l, 2);
    StoredOctet(m, a, v, l, 3);
    FourOctets(v[l]);
  }

  lemma StoredIsLoaded(m: Memory, a: int, v: Vec)
    requires Mapped(m, a, 64)
    ensures Mapped(StoreVec(m, a, v), a, 64)
    ensures LoadVec(StoreVec(m, a, v), a) == v
  {
    var m' := StoreVec(m, a, v);
    forall l | 0 <= l < 16 ensures LoadVec(m', a)[l] == v[l] {
      StoredWord(m, a, v, l);
    }
  }

  lemma LoadFrame(m: Memory, m': Memory, a: int)
    requires Mapped(m, a, 64)
    requires forall x | a <= x < a + 64 :: x in m' && m'[x] == m[x]
    ensures Mapped(m', a, 64) && LoadVec(m', a) == LoadVec(m, a)
  {
  }

  // ------------------------------------------------------------ execution

  /** The instruction does not fault: vmovaps wants a 64-byte boundary, the unaligned pair and the
      broadcast a 4-byte one. The pair's whole lines are mapped with the bytes it transfers. */
  ghost predicate Ok(i: Insn, st: State) {
    match i
    case VStore(at, _) => Addr(at, st) % 64 == 0 && Mapped(st.mem, Addr(at, st), 64)
    case VLoad(_, at) => Addr(at, st) % 64 == 0 && Mapped(st.mem, Addr(at, st), 64)
    case LoadUnpackLo(_, at) =>
      var a := Addr(at, st);
      a % 4 == 0 && Mapped(st.mem, a, 64 - a % 64)
    case LoadUnpackHi(_, at) =>
      var a := Addr(at, st);
      a % 4 == 0 && Mapped(st.mem, a - a % 64, a % 64)
    case Broadcast(_, at) => Addr(at, st) % 4 == 0 && Mapped(st.mem, Addr(at, st), 4)
    case _ => true
  }

  /** What a register-writing instruction leaves in its destination. The low half of the unaligned pair
      fills the lanes up to the end of the address's line, the high half those from the line's start. */
  ghost function Eval(i: Insn, st: State): Vec
    requires !i.VStore? && !i.LeaMask? && Ok(i, st)
  {
    match i
    case VLoad(_, at) => LoadVec(st.mem, Addr(at, st))
    case LoadUnpackLo(d, at) =>
      var a := Addr(at, st);
      seq(16, l requires 0 <= l < 16 => if l < (64 - a % 64) / 4 then WordAt(st.mem, a + 4 * l) else st.zmm[d][l])
    case LoadUnpackHi(d, at) =>
      var a := Addr(at, st);
      seq(16, l requires 0 <= l < 16 =>
        if l >= 16 - a % 64 / 4 then WordAt(st.mem, a - 64 + 4 * l) else st.zmm[d][l])
    case Broadcast(_, at) => Splat(WordAt(st.mem, Addr(at, st)))
    case ShiftRight(_, a, n) => VSrl(st.zmm[a], n)
    case ShiftLeft(_, a, n) => VSll(st.zmm[a], n)
    case AndD(_, a, b) => VAnd(st.zmm[a], st.zmm[b])
    case OrD(_, a, b) => VOr(st.zmm[a], st.zmm[b])
    case AddD(_, a, b) => VAdd(st.zmm[a], st.zmm[b])
    case SubD(_, a, b) => VSub(st.zmm[a], st.zmm[b])
    case Move(_, a) => st.zmm[a]
  }

  ghost function Step(i: Insn, st: State): State
    requires Ok(i, st)
  {
    match i
    case VStore(at, src) => st.(mem := StoreVec(st.mem, Addr(at, st), st.zmm[src]))
    case LeaMask(bits) => st.(rax := st.rodata + 64 * (bits - 1))
    case _ => st.(zmm := st.zmm[i.dst := Eval(i, st)])
  }

  /** Straight-line execution; `None` is a fault. */
  ghost function Run(code: seq<Insn>, st: State): Option<State> {
    if code == [] then Some(st)
    else if !Ok(code[0], st) then None
    else Run(code[1..], Step(code[0], st))
  }

  lemma {:induction false} RunAppend(a: seq<Insn>, b: seq<Insn>, st: State)
    ensures Run(a + b, st) == match Run(a, st) case None => None case Some(e) => Run(b, e)
  {
    if a == [] {
      assert a + b == b;
    } else if Ok(a[0], st) {
      RunAppend(a[1..], b, Step(a[0], st));
      assert (a + b)[1..] == a[1..] + b;
    }
  }

  lemma RunOne(i: Insn, st: State)
    requires Ok(i, st)
    ensures Run([i], st) == Some(Step(i, st))
  {
    assert [i][1..] == [];
  }

  // ------------------------------------------------------------ phases

  /** A phase of a schedule has one slot a value or word; a slot may stay empty. */
  function Flat(slots: seq<Option<Insn>>): seq<Insn> {
    if slots == [] then []
    else Flat(slots[..|slots| - 1]) + (match slots[|slots| - 1] case None => [] case Some(i) => [i])
  }

  predicate Reads(i: Insn, r: Zmm) {
    match i
    case VStore(_, s) => r == s
    case LoadUnpackLo(d, _) => r == d
    case LoadUnpackHi(d, _) => r == d
    case ShiftRight(_, a, _) => r == a
    case ShiftLeft(_, a, _) => r == a
    case AndD(_, a, b) => r == a || r == b
    case OrD(_, a, b) => r == a || r == b
    case AddD(_, a, b) => r == a || r == b
    case SubD(_, a, b) => r == a || r == b
    case Move(_, a) => r == a
    case _ => false
  }

  /** No slot reads or rewrites what an earlier slot of the same phase wrote, and none faults. */
  ghost predicate Parallel(slots: seq<Option<Insn>>, st: State) {
    && (forall p | 0 <= p < |slots| && slots[p].Some? ::
          var i := slots[p].value;
          !i.VStore? && !i.LeaMask? && Ok(i, st))
    && (forall p, q | 0 <= p < q < |slots| && slots[p].Some? && slots[q].Some? ::
          slots[p].value.dst != slots[q].value.dst && !Reads(slots[q].value, slots[p].value.dst))
  }

  lemma EvalFrame(i: Insn, st: State, st': State)
    requires !i.VStore? && !i.LeaMask? && Ok(i, st)
    requires st' == st.(zmm := st'.zmm)
    requires forall r: Zmm | Reads(i, r) :: st'.zmm[r] == st.zmm[r]
    ensures Ok(i, st') && Eval(i, st') == Eval(i, st)
  {
    hide VAnd, VOr, VAdd, VSub, VSrl, VSll, Splat, LoadVec, WordAt, Mapped;
    match i {
      case AndD(_, a, b) => assert Reads(i, a) && Reads(i, b);
      case OrD(_, a, b) => assert Reads(i, a) && Reads(i, b);
      case AddD(_, a, b) => assert Reads(i, a) && Reads(i, b);
      case SubD(_, a, b) => assert Reads(i, a) && Reads(i, b);
      case ShiftRight(_, a, _) => assert Reads(i, a);
      case ShiftLeft(_, a, _) => assert Reads(i, a);
      case Move(_, a) => assert Reads(i, a);
      case LoadUnpackLo(d, _) => assert Reads(i, d);
      case LoadUnpackHi(d, _) => assert Reads(i, d);
      case _ =>
    }
  }

  /** Every slot's destination holds what it computes from `st`; the other registers are as in `st`. */
  ghost predicate SlotsDone(slots: seq<Option<Insn>>, st: State, zmm: Regs)
    requires Parallel(slots, st)
  {
    && (forall p | 0 <= p < |slots| && slots[p].Some? :: zmm[slots[p].value.dst] == Eval(slots[p].value, st))
    && (forall r: Zmm :: (forall p | 0 <= p < |slots| && slots[p].Some? :: slots[p].value.dst != r)
          ==> zmm[r] == st.zmm[r])
  }

  lemma SlotStep(init: seq<Option<Insn>>, i: Insn, st: State, before: State)
    requires Parallel(init + [Some(i)], st) && Parallel(init, st)
    requires before == st.(zmm := before.zmm) && SlotsDone(init, st, before.zmm)
    ensures Ok(i, before) && SlotsDone(init + [Some(i)], st, Step(i, before).zmm)
  {
    hide Eval;
    var slots := init + [Some(i)];
    assert slots[|init|] == Some(i);
    forall r: Zmm | Reads(i, r) ensures before.zmm[r] == st.zmm[r] {
      assert forall p | 0 <= p < |init| && init[p].Some? :: slots[p] == init[p] && init[p].value.dst != r;
    }
    EvalFrame(i, st, before);
    var after := Step(i, before).zmm;
    forall p | 0 <= p < |slots| && slots[p].Some? ensures after[slots[p].value.dst] == Eval(slots[p].value, st) {
      if p < |init| {
        assert slots[p] == init[p];
      }
    }
    forall r: Zmm | forall p | 0 <= p < |slots| && slots[p].Some? :: slots[p].value.dst != r
      ensures after[r] == st.zmm[r]
    {
      assert forall p | 0 <= p < |init| && init[p].Some? :: slots[p] == init[p];
    }
  }

  /** A parallel phase computes every slot from the state before the phase. */
  lemma {:induction false} RunSlots(slots: seq<Option<Insn>>, st: State) returns (e: State)
    requires Parallel(slots, st)
    ensures Run(Flat(slots), st) == Some(e)
    ensures e == st.(zmm := e.zmm) && SlotsDone(slots, st, e.zmm)
  {
    hide Eval, Ok, Step;
    if slots == [] {
      return st;
    }
    var n := |slots| - 1;
    var init := slots[..n];
    assert slots == init + [slots[n]];
    var before := RunSlots(init, st);
    e := before;
    assert Flat(init) + [] == Flat(init);
    if slots[n].Some? {
      var i := slots[n].value;
      SlotStep(init, i, st, before);
      RunAppend(Flat(init), [i], st);
      RunOne(i, before);
      e := Step(i, before);
      StepsRegister(i, before);
    }
  }

  lemma StepsRegister(i: Insn, st: State)
    requires !i.VStore? && !i.LeaMask? && Ok(i, st)
    ensures Step(i, st) == st.(zmm := Step(i, st).zmm)
  {
    hide Eval;
  }

  // ------------------------------------------------------------ rows of stored vectors

  ghost function Row(a: int, stride: int, p: nat): int { a + stride * p }

  /** Byte `x` lies in one of the first `n` 64-byte rows at `a`, `a + stride`, ... */
  ghost predicate InRows(x: int, a: int, stride: int, n: nat) {
    exists p: nat :: p < n && Row(a, stride, p) <= x < Row(a, stride, p) + 64
  }

  ghost predicate RowsMapped(m: Memory, a: int, stride: int, n: nat) {
    forall p: nat {:trigger Row(a, stride, p)} | p < n :: Mapped(m, Row(a, stride, p), 64)
  }

  /** `m` is `m0` with the vectors `vs` written to the rows at `a` and nothing else changed. */
  ghost predicate Written(m0: Memory, m: Memory, a: int, stride: int, vs: seq<Vec>) {
    && m.Keys == m0.Keys
    && (forall p: nat {:trigger Row(a, stride, p)} | p < |vs| ::
          Mapped(m, Row(a, stride, p), 64) && LoadVec(m, Row(a, stride, p)) == vs[p])
    && (forall x | x in m0 && !InRows(x, a, stride, |vs|) :: m[x] == m0[x])
  }

  lemma StoreRow(m0: Memory, m: Memory, a: int, stride: int, vs: seq<Vec>, v: Vec)
    requires Written(m0, m, a, stride, vs)
    requires stride >= 64 && Mapped(m, Row(a, stride, |vs|), 64)
    ensures Written(m0, StoreVec(m, Row(a, stride, |vs|), v), a, stride, vs + [v])
  {
    hide StoreVec, LoadVec;
    var n := |vs|;
    var m' := StoreVec(m, Row(a, stride, n), v);
    StoreFrame(m, Row(a, stride, n), v);
    StoredIsLoaded(m, Row(a, stride, n), v);
    forall p: nat | p < n
      ensures Mapped(m', Row(a, stride, p), 64) && LoadVec(m', Row(a, stride, p)) == vs[p]
    {
      RowsApart(a, stride, p, n);
      LoadFrame(m, m', Row(a, stride, p));
    }
    forall x | x in m0 && !InRows(x, a, stride, n + 1) ensures m'[x] == m0[x] {
      assert !(Row(a, stride, n) <= x < Row(a, stride, n) + 64);
      assert !InRows(x, a, stride, n);
    }
  }

  /** Stores of the registers `regs` to the rows from number `first` on. */
  function Stores(at: Mem, stride: int, first: nat, regs: seq<Zmm>): seq<Insn> {
    if regs == [] then []
    else
      var n := |regs| - 1;
      Stores(at, stride, first, regs[..n]) + [VStore(Mem(at.base, at.disp + stride * (first + n)), regs[n])]
  }

  function Contents(zmm: Regs, regs: seq<Zmm>): (vs: seq<Vec>)
    ensures |vs| == |regs| && forall p | 0 <= p < |regs| :: vs[p] == zmm[regs[p]]
  {
    seq(|regs|, p requires 0 <= p < |regs| => zmm[regs[p]])
  }

  lemma {:induction false} RunStores(at: Mem, stride: int, vs: seq<Vec>, regs: seq<Zmm>, m0: Memory, st: State)
    returns (e: State)
    requires stride >= 64 && stride % 64 == 0 && Addr(at, st) % 64 == 0
    requires Written(m0, st.mem, Addr(at, st), stride, vs)
    requires RowsMapped(m0, Addr(at, st), stride, |vs| + |regs|)
    ensures Run(Stores(at, stride, |vs|, regs), st) == Some(e)
    ensures e == st.(mem := e.mem)
    ensures Written(m0, e.mem, Addr(at, st), stride, vs + Contents(st.zmm, regs))
  {
    hide Eval, StoreVec, LoadVec, Written, InRows;
    if regs == [] {
      assert vs + Contents(st.zmm, regs) == vs;
      return st;
    }
    var n := |regs| - 1;
    var a := Addr(at, st);
    var before := RunStores(at, stride, vs, regs[..n], m0, st);
    var i := VStore(Mem(at.base, at.disp + stride * (|vs| + n)), regs[n]);
    var done := vs + Contents(st.zmm, regs[..n]);
    assert Addr(i.at, before) == Row(a, stride, |done|);
    RowAligned(a, stride, |done|);
    WrittenKeepsMap(m0, before.mem, a, stride, done, Row(a, stride, |done|));
    RunAppend(Stores(at, stride, |vs|, regs[..n]), [i], st);
    RunOne(i, before);
    e := Step(i, before);
    StoreRow(m0, before.mem, a, stride, done, st.zmm[regs[n]]);
    assert vs + Contents(st.zmm, regs) == done + [st.zmm[regs[n]]];
  }

  lemma WrittenKeepsMap(m0: Memory, m: Memory, a: int, stride: int, vs: seq<Vec>, b: int)
    requires Written(m0, m, a, stride, vs) && Mapped(m0, b, 64)
    ensures Mapped(m, b, 64)
  {
    assert m.Keys == m0.Keys;
  }

  lemma RowAligned(a: int, stride: int, p: nat)
    requires a % 64 == 0 && stride % 64 == 0
    ensures Row(a, stride, p) % 64 == 0
  {
    var k := stride / 64;
    assert stride * p == 64 * (k * p) by { assert stride == 64 * k; }
  }

  lemma RowsApart(a: int, stride: int, p: nat, q: nat)
    requires p < q && stride >= 64
    ensures Row(a, stride, p) + 64 <= Row(a, stride, q)
  {
    MulAtLeast(stride, q - p);
    assert stride * q == stride * p + stride * (q - p);
  }

  lemma MulAtLeast(x: nat, k: nat)
    requires k >= 1
    ensures x * k >= x
  {
  }
}
