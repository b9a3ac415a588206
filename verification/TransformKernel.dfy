/** The encode-side transforms: one pass subtracting the frame of reference or the value before. */
module TransformKernel {
  import opened Words
  import opened Options
  import opened Machine
  import opened UnpackKernel

  const VALUEREG: Zmm := 27
  const DIFFREG: Zmm := 28

  /** What position `v` is stored relative to. */
  function Reference(mode: Mode, vs: seq<Vec>, base: Vec, v: nat): Vec
    requires v <= |vs|
  {
    if mode == Delta && v > 0 then vs[v - 1] else base
  }

  function EncodedTo(mode: Mode, vs: seq<Vec>, base: Vec, n: nat): (r: seq<Vec>)
    requires n <= |vs|
    ensures |r| == n && forall v | 0 <= v < n :: r[v] == VSub(vs[v], Reference(mode, vs, base, v))
  {
    seq(n, v requires 0 <= v < n => VSub(vs[v], Reference(mode, vs, base, v)))
  }

  function EncodeAt(mode: Mode, v: nat): seq<Insn> {
    [VLoad(VALUEREG, Mem(Rsi, 64 * v)), SubD(DIFFREG, VALUEREG, BASEREG), VStore(Mem(Rdi, 64 * v), DIFFREG)]
    + if mode == Delta then [Move(BASEREG, VALUEREG)] else []
  }

  function EncodeSteps(mode: Mode, n: nat): seq<Insn> {
    if n == 0 then [] else EncodeSteps(mode, n - 1) + EncodeAt(mode, n - 1)
  }

  function EncodeCode(mode: Mode): seq<Insn> { [VLoad(BASEREG, Mem(Rdx, 0))] + EncodeSteps(mode, POSITIONS) }

  /** 64-byte aligned buffers; encoding in place is fine, a partial overlap is not. */
  ghost predicate CanEncode(mode: Mode, st: State) {
    && mode != Plain
    && st.rdi % 64 == 0 && Mapped(st.mem, st.rdi, 4096)
    && st.rsi % 64 == 0 && Mapped(st.mem, st.rsi, 4096)
    && st.rdx % 64 == 0 && Mapped(st.mem, st.rdx, 64)
    && (st.rdi == st.rsi || Disjoint(st.rdi, 4096, st.rsi, 4096))
  }

  ghost predicate Encoding(mode: Mode, st0: State, st: State, n: nat) {
    && CanEncode(mode, st0) && SamePointers(st0, st) && n <= POSITIONS
    && var vs, base := VecsAt(st0.mem, st0.rsi, POSITIONS), LoadVec(st0.mem, st0.rdx);
    && Written(st0.mem, st.mem, st0.rdi, 64, EncodedTo(mode, vs, base, n))
    && st.zmm[BASEREG] == Reference(mode, vs, base, n)
  }

  /** Value `v` is loaded and its difference taken. */
  ghost predicate Subtracted(mode: Mode, st0: State, st: State, v: nat) {
    Encoding(mode, st0, st, v) && v < POSITIONS &&
    var vs := VecsAt(st0.mem, st0.rsi, POSITIONS);
    st.zmm[DIFFREG] == VSub(vs[v], Reference(mode, vs, LoadVec(st0.mem, st0.rdx), v)) && st.zmm[VALUEREG] == vs[v]
  }

  /** Load and subtract. */
  lemma RunDiff(mode: Mode, st0: State, st: State, v: nat) returns (e: State)
    requires Encoding(mode, st0, st, v) && v < POSITIONS
    ensures Run([VLoad(VALUEREG, Mem(Rsi, 64 * v)), SubD(DIFFREG, VALUEREG, BASEREG)], st) == Some(e)
    ensures Subtracted(mode, st0, e, v)
  {
    hide LoadVec, Written, VSub, VecsAt, Mapped, EncodedTo, Disjoint, Reference;
    ValueIntact(mode, st0, st, v);
    var load, sub := VLoad(VALUEREG, Mem(Rsi, 64 * v)), SubD(DIFFREG, VALUEREG, BASEREG);
    RunOne(load, st);
    var e1 := Step(load, st);
    RunOne(sub, e1);
    e := Step(sub, e1);
    RunAppend([load], [sub], st);
    assert [load] + [sub] == [load, sub];
  }

  lemma RowFree(mode: Mode, st0: State, st: State, v: nat)
    requires Encoding(mode, st0, st, v) && v < POSITIONS
    ensures Row(st0.rdi, 64, v) == st.rdi + 64 * v && (st.rdi + 64 * v) % 64 == 0
    ensures Mapped(st.mem, Row(st0.rdi, 64, v), 64)
  {
    hide LoadVec, Written, VecsAt, Mapped, EncodedTo, Disjoint, Reference;
    RowsInBuffer(st0.mem, st0.rdi, POSITIONS);
    var vs, base := VecsAt(st0.mem, st0.rsi, POSITIONS), LoadVec(st0.mem, st0.rdx);
    WrittenKeepsMap(st0.mem, st.mem, st0.rdi, 64, EncodedTo(mode, vs, base, v), Row(st0.rdi, 64, v));
  }

  lemma EncodedGrows(mode: Mode, vs: seq<Vec>, base: Vec, v: nat)
    requires v < |vs|
    ensures EncodedTo(mode, vs, base, v) + [VSub(vs[v], Reference(mode, vs, base, v))] == EncodedTo(mode, vs, base, v + 1)
  {
    hide VSub, Reference;
    Snoc(EncodedTo(mode, vs, base, v), VSub(vs[v], Reference(mode, vs, base, v)), EncodedTo(mode, vs, base, v + 1));
  }

  lemma Snoc<T>(a: seq<T>, x: T, b: seq<T>)
    requires |b| == |a| + 1 && b[|a|] == x && forall i | 0 <= i < |a| :: b[i] == a[i]
    ensures a + [x] == b
  {
  }

  lemma StoreDiff(mode: Mode, st0: State, st: State, v: nat)
    requires Subtracted(mode, st0, st, v)
    ensures var store, vs := VStore(Mem(Rdi, 64 * v), DIFFREG), VecsAt(st0.mem, st0.rsi, POSITIONS);
      && Ok(store, st) && Step(store, st) == st.(mem := Step(store, st).mem)
      && Written(st0.mem, Step(store, st).mem, st0.rdi, 64, EncodedTo(mode, vs, LoadVec(st0.mem, st0.rdx), v + 1))
  {
    hide LoadVec, Written, StoreVec, VSub, VecsAt, Mapped, EncodedTo, Disjoint, Reference;
    var vs, base := VecsAt(st0.mem, st0.rsi, POSITIONS), LoadVec(st0.mem, st0.rdx);
    RowFree(mode, st0, st, v);
    StoreRow(st0.mem, st.mem, st0.rdi, 64, EncodedTo(mode, vs, base, v), st.zmm[DIFFREG]);
    EncodedGrows(mode, vs, base, v);
  }

  /** Store the difference and, for delta, keep the value as the next reference. */
  lemma RunKeep(mode: Mode, st0: State, st: State, v: nat) returns (e: State)
    requires Subtracted(mode, st0, st, v)
    ensures Run([VStore(Mem(Rdi, 64 * v), DIFFREG)] + (if mode == Delta then [Move(BASEREG, VALUEREG)] else []), st)
         == Some(e)
    ensures Encoding(mode, st0, e, v + 1)
  {
    hide LoadVec, Written, VSub, VecsAt, Mapped, EncodedTo, Disjoint, Run;
    var store := VStore(Mem(Rdi, 64 * v), DIFFREG);
    StoreDiff(mode, st0, st, v);
    RunOne(store, st);
    var e1 := Step(store, st);
    if mode == Delta {
      var move := Move(BASEREG, VALUEREG);
      RunOne(move, e1);
      e := Step(move, e1);
      RunAppend([store], [move], st);
    } else {
      e := e1;
      assert [store] + [] == [store];
    }
  }

  lemma RunEncodeAt(mode: Mode, st0: State, st: State, v: nat) returns (e: State)
    requires Encoding(mode, st0, st, v) && v < POSITIONS
    ensures Run(EncodeAt(mode, v), st) == Some(e) && Encoding(mode, st0, e, v + 1)
  {
    hide LoadVec, VSub, VecsAt, Reference, Step, Ok;
    var e1 := RunDiff(mode, st0, st, v);
    e := RunKeep(mode, st0, e1, v);
    var load, sub, store := VLoad(VALUEREG, Mem(Rsi, 64 * v)), SubD(DIFFREG, VALUEREG, BASEREG), VStore(Mem(Rdi, 64 * v), DIFFREG);
    var keep: seq<Insn> := if mode == Delta then [Move(BASEREG, VALUEREG)] else [];
    RunAppend([load, sub], [store] + keep, st);
    assert [load, sub] + ([store] + keep) == EncodeAt(mode, v);
  }

  /** A value is still what it was when its turn comes, in place or not. */
  lemma ValueIntact(mode: Mode, st0: State, st: State, v: nat)
    requires Encoding(mode, st0, st, v) && v < POSITIONS
    ensures (st.rsi + 64 * v) % 64 == 0 && Mapped(st.mem, st.rsi + 64 * v, 64)
    ensures LoadVec(st.mem, st.rsi + 64 * v) == VecsAt(st0.mem, st0.rsi, POSITIONS)[v]
  {
    hide LoadVec, Written, VSub, EncodedTo, Reference;
    var vs, base := VecsAt(st0.mem, st0.rsi, POSITIONS), LoadVec(st0.mem, st0.rdx);
    var a := st.rsi + 64 * v;
    assert a % 64 == 0 by { RowAligned(st.rsi, 64, v); }
    assert Disjoint(st0.rdi, 64 * v, a, 64);
    assert Mapped(st0.mem, a, 64);
    hide Disjoint, Mapped;
    OutsideIntact(st0.mem, st.mem, st0.rdi, EncodedTo(mode, vs, base, v), a);
  }

  lemma {:induction false} RunEncodeSteps(mode: Mode, st0: State, st: State, n: nat) returns (e: State)
    requires Encoding(mode, st0, st, 0) && n <= POSITIONS
    ensures Run(EncodeSteps(mode, n), st) == Some(e) && Encoding(mode, st0, e, n)
  {
    hide Encoding, EncodeAt, Step, Ok;
    e := st;
    if n > 0 {
      var before := RunEncodeSteps(mode, st0, st, n - 1);
      e := RunEncodeAt(mode, st0, before, n - 1);
      RunAppend(EncodeSteps(mode, n - 1), EncodeAt(mode, n - 1), st);
    }
  }

  ghost predicate Encodes(code: seq<Insn>, mode: Mode, st: State)
    requires CanEncode(mode, st)
  {
    && Run(code, st).Some?
    && var m := Run(code, st).value.mem;
    && OnlyChanges(st.mem, m, st.rdi, 4096)
    && VecsAt(m, st.rdi, POSITIONS)
       == EncodedTo(mode, VecsAt(st.mem, st.rsi, POSITIONS), LoadVec(st.mem, st.rdx), POSITIONS)
  }

  lemma RunBase(mode: Mode, st: State) returns (e: State)
    requires CanEncode(mode, st)
    ensures Run([VLoad(BASEREG, Mem(Rdx, 0))], st) == Some(e) && Encoding(mode, st, e, 0)
  {
    hide LoadVec, VSub, VecsAt, Mapped, Disjoint;
    var load := VLoad(BASEREG, Mem(Rdx, 0));
    RunOne(load, st);
    e := Step(load, st);
    assert Written(st.mem, e.mem, st.rdi, 64, []);
  }

  lemma EncodeRuns(mode: Mode, st: State)
    requires CanEncode(mode, st)
    ensures Encodes(EncodeCode(mode), mode, st)
  {
    hide LoadVec, VSub, Run, Written, EncodeSteps, VecsAt, EncodedTo, Mapped, Disjoint, Reference;
    var e0 := RunBase(mode, st);
    var e := RunEncodeSteps(mode, st, e0, POSITIONS);
    RunAppend([VLoad(BASEREG, Mem(Rdx, 0))], EncodeSteps(mode, POSITIONS), st);
    RowsCoverBuffer(st.mem, e.mem, st.rdi,
                    EncodedTo(mode, VecsAt(st.mem, st.rsi, POSITIONS), LoadVec(st.mem, st.rdx), POSITIONS));
  }

  lemma NoSteps(mode: Mode)
    ensures EncodeSteps(mode, 0) == []
  {
  }

  lemma StepsSnoc(mode: Mode, v: nat)
    ensures forall front :: front + EncodeSteps(mode, v) + EncodeAt(mode, v) == front + EncodeSteps(mode, v + 1)
  {
    hide EncodeAt;
    forall front: seq<Insn>
      ensures front + EncodeSteps(mode, v) + EncodeAt(mode, v) == front + EncodeSteps(mode, v + 1)
    {
      assert front + (EncodeSteps(mode, v) + EncodeAt(mode, v)) == front + EncodeSteps(mode, v) + EncodeAt(mode, v);
    }
  }

  /** `knc_encode_for` and `knc_encode_delta`. */
  method EmitEncode(mode: Mode) returns (out: seq<Insn>)
    requires mode != Plain
    ensures out == EncodeCode(mode)
    ensures forall st | CanEncode(mode, st) :: Encodes(out, mode, st)
  {
    hide Encodes, CanEncode, EncodeSteps;
    out := [VLoad(BASEREG, Mem(Rdx, 0))];
    NoSteps(mode);
    for v := 0 to POSITIONS
      invariant out == [VLoad(BASEREG, Mem(Rdx, 0))] + EncodeSteps(mode, v)
    {
      out := out + ([VLoad(VALUEREG, Mem(Rsi, 64 * v)), SubD(DIFFREG, VALUEREG, BASEREG), VStore(Mem(Rdi, 64 * v), DIFFREG)]
                    + if mode == Delta then [Move(BASEREG, VALUEREG)] else []);
      StepsSnoc(mode, v);
    }
    forall st | CanEncode(mode, st) ensures Encodes(out, mode, st) {
      EncodeRuns(mode, st);
    }
  }
}
