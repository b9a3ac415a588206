/** The MVEX encoder and, in another crate, the auditor that must find each instruction's end again. */
module Mvex {
  import opened Options

  // ------------------------------------------------------------ the encoder

  /** The r/m operand: a vector register, or a base register and a displacement. */
  datatype Rm = RegRm(z: bv8) | MemRm(base: bv8, disp: bv32)

  datatype Fields = Fields(
    opmap: bv8, pp: bv8, w: bool, reg: bv8, vvvv: bv8, rm: Rm, aaa: bv8, sss: bv8, eh: bool, opcode: bv8, imm: Option<bv8>)

  /** What the constructors hand over: opcode maps 0F, 0F38 and 0F3A, 32 registers, 8 masks, and no base that
      would need a SIB byte. */
  predicate WellFormed(f: Fields) {
    && 1 <= f.opmap <= 3 && (f.pp == 0 || f.pp == 1 || f.pp == 3) && f.reg < 32 && f.vvvv < 32 && f.aaa < 8 && f.sss < 8
    && match f.rm
       case RegRm(z) => z < 32
       case MemRm(base, _) => base < 16 && base & 7 != 4
  }

  function Bit(b: bool): bv8 { if b then 1 else 0 }

  function DispBytes(d: bv32): (s: seq<bv8>)
    ensures |s| == 4
  {
    [(d & 0xff) as bv8, ((d >> 8) & 0xff) as bv8, ((d >> 16) & 0xff) as bv8, ((d >> 24) & 0xff) as bv8]
  }

  function P0(opmap: bv8, reg: bv8, rm: Rm): bv8 {
    var b := match rm case RegRm(z) => (z >> 3) & 1 case MemRm(base, _) => (base >> 3) & 1;
    var x := match rm case RegRm(z) => (z >> 4) & 1 case MemRm(_, _) => 0;
    ((!((reg >> 3) & 1) & 1) << 7) | ((!x & 1) << 6) | ((!b & 1) << 5) | ((!((reg >> 4) & 1) & 1) << 4) | opmap
  }

  function P1(w: bool, vvvv: bv8, pp: bv8): bv8 { (Bit(w) << 7) | ((!vvvv & 0xf) << 3) | pp }

  function P2(vvvv: bv8, aaa: bv8): bv8 { ((!(vvvv >> 4) & 1) << 3) | aaa }

  function ModRm(reg: bv8, rm: Rm): bv8 {
    match rm
    case RegRm(z) => 0xc0 | ((reg & 7) << 3) | (z & 7)
    case MemRm(base, _) => 0x80 | ((reg & 7) << 3) | (base & 7)
  }

  function Displacement(rm: Rm): seq<bv8> { if rm.MemRm? then DispBytes(rm.disp) else [] }

  function Immediate(imm: Option<bv8>): seq<bv8> { if imm.Some? then [imm.value] else [] }

  /** `mvex` */
  function Assemble(f: Fields): (r: seq<bv8>)
    ensures |r| >= 6
  {
    [0x62, P0(f.opmap, f.reg, f.rm), P1(f.w, f.vvvv, f.pp), P2(f.vvvv, f.aaa), f.opcode, ModRm(f.reg, f.rm)]
      + Displacement(f.rm) + Immediate(f.imm)
  }

  /** `with_sss` */
  function WithSss(b: seq<bv8>, sss: bv8): seq<bv8>
    requires |b| >= 6
  {
    b[3 := b[3] | (sss << 4)]
  }

  /** The EH bit of the no-read, not globally ordered store. */
  function WithEh(b: seq<bv8>): seq<bv8>
    requires |b| >= 6
  {
    b[3 := b[3] | 0x80]
  }

  function Encode(f: Fields): (r: seq<bv8>)
    ensures |r| == 6 + |Displacement(f.rm)| + |Immediate(f.imm)|
  {
    var b := WithSss(Assemble(f), f.sss);
    if f.eh then WithEh(b) else b
  }

  // ------------------------------------------------------------ reading the fields back

  function RegOf(b: seq<bv8>): bv8
    requires |b| >= 6
  {
    ((!(b[1] >> 7) & 1) << 3) | ((!(b[1] >> 4) & 1) << 4) | ((b[5] >> 3) & 7)
  }

  function VvvvOf(b: seq<bv8>): bv8
    requires |b| >= 6
  {
    (!(b[2] >> 3) & 0xf) | ((!(b[3] >> 3) & 1) << 4)
  }

  function DispOf(b: seq<bv8>): bv32
    requires |b| >= 10
  {
    (b[6] as bv32) | ((b[7] as bv32) << 8) | ((b[8] as bv32) << 16) | ((b[9] as bv32) << 24)
  }

  function RmOf(b: seq<bv8>): Rm
    requires |b| >= 6
  {
    if b[5] >> 6 == 3 then RegRm((b[5] & 7) | ((!(b[1] >> 5) & 1) << 3) | ((!(b[1] >> 6) & 1) << 4))
    else MemRm((b[5] & 7) | ((!(b[1] >> 5) & 1) << 3), if |b| >= 10 then DispOf(b) else 0)
  }

  function FieldsOf(b: seq<bv8>): Fields
    requires |b| >= 6
  {
    var rm := RmOf(b);
    var end := if rm.MemRm? then 10 else 6;
    Fields(b[1] & 3, b[2] & 3, b[2] >> 7 == 1, RegOf(b), VvvvOf(b), rm, b[3] & 7, (b[3] >> 4) & 7, b[3] >> 7 == 1, b[4],
           if |b| > end then Some(b[end]) else None)
  }

  lemma P0Fields(opmap: bv8, reg: bv8, rm: Rm)
    requires 1 <= opmap <= 3 && reg < 32
    ensures var p := P0(opmap, reg, rm);
      && p & 3 == opmap
      && ((!(p >> 7) & 1) << 3) | ((!(p >> 4) & 1) << 4) | (((ModRm(reg, rm)) >> 3) & 7) == reg
  {
  }

  lemma RmFields(opmap: bv8, reg: bv8, rm: Rm)
    requires 1 <= opmap <= 3 && reg < 32
    ensures var p, m := P0(opmap, reg, rm), ModRm(reg, rm);
      match rm
      case RegRm(z) => z < 32 ==> m >> 6 == 3 && (m & 7) | ((!(p >> 5) & 1) << 3) | ((!(p >> 6) & 1) << 4) == z
      case MemRm(base, _) => base < 16 ==> m >> 6 == 2 && (m & 7) | ((!(p >> 5) & 1) << 3) == base && m & 7 == base & 7
  {
  }

  function P2With(vvvv: bv8, aaa: bv8, sss: bv8, eh: bool): bv8 {
    var p := P2(vvvv, aaa) | (sss << 4);
    if eh then p | 0x80 else p
  }

  lemma P2Fields(w: bool, vvvv: bv8, pp: bv8, aaa: bv8, sss: bv8, eh: bool)
    requires (pp == 0 || pp == 1 || pp == 3) && vvvv < 32 && aaa < 8 && sss < 8
    ensures var p1, p2 := P1(w, vvvv, pp), P2With(vvvv, aaa, sss, eh);
      && p1 & 3 == pp && (p1 >> 7 == 1) == w && p1 & 4 == 0 && p2 & 7 == aaa && (p2 >> 4) & 7 == sss
      && (p2 >> 7 == 1) == eh && (!(p1 >> 3) & 0xf) | ((!(p2 >> 3) & 1) << 4) == vvvv
  {
  }

  lemma DispFields(d: bv32)
    ensures var b := DispBytes(d);
      (b[0] as bv32) | ((b[1] as bv32) << 8) | ((b[2] as bv32) << 16) | ((b[3] as bv32) << 24) == d
  {
  }

  lemma AssembledBytes(f: Fields)
    ensures var a := Assemble(f);
      && a[0] == 0x62 && a[1] == P0(f.opmap, f.reg, f.rm) && a[2] == P1(f.w, f.vvvv, f.pp) && a[3] == P2(f.vvvv, f.aaa)
      && a[4] == f.opcode && a[5] == ModRm(f.reg, f.rm) && a[6..] == Displacement(f.rm) + Immediate(f.imm)
  {
    hide P0, P1, P2, ModRm, Displacement, Immediate;
    assert Assemble(f)[6..] == Displacement(f.rm) + Immediate(f.imm);
  }

  /** `c` is `b` but for the byte of the second prefix. */
  ghost predicate SameButThird(b: seq<bv8>, c: seq<bv8>)
    requires |b| >= 6
  {
    && |c| == |b| && c[0] == b[0] && c[1] == b[1] && c[2] == b[2] && c[4] == b[4] && c[5] == b[5]
    && c[6..] == b[6..]
  }

  lemma ThirdByte(b: seq<bv8>, x: bv8)
    requires |b| >= 6
    ensures SameButThird(b, b[3 := x])
  {
  }

  lemma SssByte(b: seq<bv8>, sss: bv8)
    requires |b| >= 6
    ensures SameButThird(b, WithSss(b, sss)) && WithSss(b, sss)[3] == b[3] | (sss << 4)
  {
    hide SameButThird;
    ThirdByte(b, b[3] | (sss << 4));
  }

  lemma EhByte(b: seq<bv8>)
    requires |b| >= 6
    ensures SameButThird(b, WithEh(b)) && WithEh(b)[3] == b[3] | 0x80
  {
    hide SameButThird;
    ThirdByte(b, b[3] | 0x80);
  }

  lemma WithSssByte(f: Fields)
    ensures var b := WithSss(Assemble(f), f.sss);
      |b| >= 6 && SameButThird(Assemble(f), b) && b[3] == P2With(f.vvvv, f.aaa, f.sss, false)
  {
    hide P0, P1, P2, ModRm, Displacement, Immediate, Assemble, WithSss;
    AssembledBytes(f);
    SssByte(Assemble(f), f.sss);
  }

  lemma SameTwice(a: seq<bv8>, b: seq<bv8>, c: seq<bv8>)
    requires |a| >= 6 && |b| >= 6 && SameButThird(a, b) && SameButThird(b, c)
    ensures SameButThird(a, c)
  {
  }

  lemma EncodedSecondPrefix(f: Fields)
    ensures SameButThird(Assemble(f), Encode(f)) && Encode(f)[3] == P2With(f.vvvv, f.aaa, f.sss, f.eh)
  {
    hide P0, P1, P2, ModRm, Displacement, Immediate, Assemble, WithSss, WithEh, SameButThird;
    WithSssByte(f);
    if f.eh {
      var a, b := Assemble(f), WithSss(Assemble(f), f.sss);
      EhByte(b);
      SameTwice(a, b, WithEh(b));
    }
  }

  lemma EncodedBytes(f: Fields)
    ensures var e := Encode(f);
      && e[0] == 0x62 && e[1] == P0(f.opmap, f.reg, f.rm) && e[2] == P1(f.w, f.vvvv, f.pp)
      && e[3] == P2With(f.vvvv, f.aaa, f.sss, f.eh) && e[4] == f.opcode && e[5] == ModRm(f.reg, f.rm)
      && e[6..] == Displacement(f.rm) + Immediate(f.imm)
  {
    hide P0, P1, P2, P2With, ModRm, Displacement, Immediate, Assemble, Encode;
    AssembledBytes(f);
    EncodedSecondPrefix(f);
  }

  lemma DispAt(e: seq<bv8>, d: bv32)
    requires |e| >= 10 && e[6..10] == DispBytes(d)
    ensures DispOf(e) == d
  {
    hide DispBytes;
    DispFields(d);
    var b := DispBytes(d);
    assert e[6] == e[6..10][0] && e[7] == e[6..10][1] && e[8] == e[6..10][2] && e[9] == e[6..10][3];
  }

  lemma TailFields(f: Fields)
    ensures var e, end := Encode(f), if f.rm.MemRm? then 10 else 6;
      && |e| == end + (if f.imm.Some? then 1 else 0)
      && (f.imm.Some? ==> e[end] == f.imm.value)
      && (f.rm.MemRm? ==> DispOf(e) == f.rm.disp)
  {
    hide P0, P1, P2, P2With, ModRm, Encode, DispBytes, DispOf;
    var e, end := Encode(f), if f.rm.MemRm? then 10 else 6;
    EncodedBytes(f);
    assert e[6..end] == e[6..][..end - 6] == Displacement(f.rm);
    assert e[end..] == e[6..][end - 6..] == Immediate(f.imm);
    if f.rm.MemRm? {
      DispAt(e, f.rm.disp);
    }
  }

  lemma RmBack(f: Fields)
    requires WellFormed(f)
    ensures RmOf(Encode(f)) == f.rm
  {
    hide P0, P1, P2, P2With, ModRm, Encode, DispOf;
    EncodedBytes(f);
    TailFields(f);
    RmFields(f.opmap, f.reg, f.rm);
  }

  lemma RegistersBack(f: Fields)
    requires WellFormed(f)
    ensures RegOf(Encode(f)) == f.reg && VvvvOf(Encode(f)) == f.vvvv
  {
    hide P0, P1, P2, P2With, ModRm, Encode;
    EncodedBytes(f);
    P0Fields(f.opmap, f.reg, f.rm);
    P2Fields(f.w, f.vvvv, f.pp, f.aaa, f.sss, f.eh);
  }

  /** Every operand can be read back off the bytes: no two instructions share an encoding. */
  lemma FieldsRoundTrip(f: Fields)
    requires WellFormed(f)
    ensures FieldsOf(Encode(f)) == f
  {
    hide P0, P1, P2, P2With, ModRm, Encode, DispOf, RmOf, RegOf, VvvvOf;
    EncodedBytes(f);
    TailFields(f);
    RmBack(f);
    RegistersBack(f);
    P0Fields(f.opmap, f.reg, f.rm);
    P2Fields(f.w, f.vvvv, f.pp, f.aaa, f.sss, f.eh);
  }

  lemma EncodeInjective(f: Fields, g: Fields)
    requires WellFormed(f) && WellFormed(g) && Encode(f) == Encode(g)
    ensures f == g
  {
    FieldsRoundTrip(f);
    FieldsRoundTrip(g);
  }

  // ------------------------------------------------------------ the auditor

  predicate TakesImmediate(opmap: bv8, opcode: bv8) {
    opmap == 3 || (opmap == 1 && (opcode == 0x70 || opcode == 0x72 || opcode == 0xc2))
  }

  /** `mvex_length` */
  function MvexLength(b: seq<bv8>): (r: Option<nat>)
    ensures r.Some? ==> 6 <= r.value <= |b|
  {
    if |b| < 6 || b[0] != 0x62 || b[2] & 0x04 != 0 then None
    else
      var opmap := b[1] & 3;
      if opmap == 0 then None
      else
        var m, rm := b[5] >> 6, b[5] & 7;
        var sib := if m != 3 && rm == 4 then 1 else 0;
        var disp := if m == 3 then 0 else if m == 0 then (if rm == 5 then 4 else 0) else if m == 1 then 1 else 4;
        var len := 6 + sib + disp + if TakesImmediate(opmap, b[4]) then 1 else 0;
        if |b| >= len then Some(len) else None
  }

  /** An immediate byte where the opcode takes one and nowhere else. */
  predicate FollowsRule(f: Fields) { f.imm.Some? <==> TakesImmediate(f.opmap, f.opcode) }

  /** Whatever bytes follow, the auditor finds exactly the end of an instruction, if and only if it carries an
      immediate exactly where its opcode takes one. */
  lemma LengthExactIff(f: Fields, rest: seq<bv8>)
    requires WellFormed(f)
    ensures MvexLength(Encode(f) + rest) == Some(|Encode(f)|) <==> FollowsRule(f)
  {
    hide P0, P1, P2, P2With, ModRm, DispBytes, Encode;
    var e := Encode(f);
    EncodedBytes(f);
    P0Fields(f.opmap, f.reg, f.rm);
    RmFields(f.opmap, f.reg, f.rm);
    P2Fields(f.w, f.vvvv, f.pp, f.aaa, f.sss, f.eh);
  }

  /** What may follow an opcode in 64-bit mode: ModRM, the SIB byte r/m 100 calls for outside register form, and
      the displacement. */
  datatype Form = Form(mod: bv8, reg: bv8, rm: bv8, sib: Option<bv8>, disp: seq<bv8>)

  /** No base register: mod 00 with r/m 101, which is RIP-relative, or with SIB base 101. Four bytes follow. */
  predicate Baseless(f: Form) { f.mod == 0 && (f.rm == 5 || (f.sib.Some? && f.sib.value & 7 == 5)) }

  /** The encodings of the architecture, with every size of displacement. */
  predicate ArchitectureForm(f: Form) {
    && f.mod < 4 && f.reg < 8 && f.rm < 8 && (f.sib.Some? <==> f.mod != 3 && f.rm == 4)
    && |f.disp| == if Baseless(f) || f.mod == 2 then 4 else if f.mod == 1 then 1 else 0
  }

  function ModRmByte(f: Form): bv8 { (f.mod << 6) | (f.reg << 3) | f.rm }

  function FormBytes(f: Form): seq<bv8> { [ModRmByte(f)] + Immediate(f.sib) + f.disp }

  /** A base less SIB form has four bytes of displacement the auditor does not count. */
  predicate Miscounted(f: Form) { f.mod == 0 && f.sib.Some? && f.sib.value & 7 == 5 }

  lemma ModRmParts(f: Form)
    requires f.mod < 4 && f.reg < 8 && f.rm < 8
    ensures ModRmByte(f) >> 6 == f.mod && ModRmByte(f) & 7 == f.rm
  {
  }

  /** Every ModRM byte is one of these forms. */
  lemma EveryModRm(m: bv8, sib: bv8, bytes: seq<bv8>) returns (f: Form)
    requires |bytes| == 4
    ensures ArchitectureForm(f) && ModRmByte(f) == m
  {
    var mod, reg, rm := m >> 6, (m >> 3) & 7, m & 7;
    var s := if mod != 3 && rm == 4 then Some(sib) else None;
    var bare := Form(mod, reg, rm, s, []);
    f := bare.(disp := if Baseless(bare) || mod == 2 then bytes else if mod == 1 then bytes[..1] else []);
    ModRmWhole(m);
  }

  lemma ModRmWhole(m: bv8)
    ensures m >> 6 < 4 && (m >> 3) & 7 < 8 && m & 7 < 8 && ((m >> 6) << 6) | (((m >> 3) & 7) << 3) | (m & 7) == m
  {
  }

  /** Over all forms: the length is exact, whatever follows, if and only if the immediate keeps the rule and the
      form is not the one with a SIB byte and no base. */
  lemma FormLengthIff(p0: bv8, p1: bv8, p2: bv8, opcode: bv8, f: Form, imm: Option<bv8>, rest: seq<bv8>)
    requires ArchitectureForm(f) && p0 & 3 != 0 && p1 & 4 == 0
    ensures var e := [0x62, p0, p1, p2, opcode] + FormBytes(f) + Immediate(imm);
      MvexLength(e + rest) == Some(|e|) <==> (imm.Some? <==> TakesImmediate(p0 & 3, opcode)) && !Miscounted(f)
  {
    hide ModRmByte;
    ModRmParts(f);
    var e := [0x62, p0, p1, p2, opcode] + FormBytes(f) + Immediate(imm);
    assert (e + rest)[5] == ModRmByte(f);
  }

  /** vmovaps of zmm0 from an absolute address: eleven bytes, taken for seven. */
  lemma MiscountedForm(rest: seq<bv8>)
    ensures var e: seq<bv8> := [0x62, 0xf1, 0x78, 0x08, 0x28, 0x04, 0x25, 0, 0, 0, 0];
      MvexLength(e + rest) == Some(7) && ArchitectureForm(Form(0, 0, 4, Some(0x25), [0, 0, 0, 0]))
      && e[5..] == FormBytes(Form(0, 0, 4, Some(0x25), [0, 0, 0, 0]))
  {
    var e: seq<bv8> := [0x62, 0xf1, 0x78, 0x08, 0x28, 0x04, 0x25, 0, 0, 0, 0];
    var f := Form(0, 0, 4, Some(0x25), [0, 0, 0, 0]);
    assert [0x62, 0xf1, 0x78, 0x08, 0x28] + FormBytes(f) == e;
  }

  // ------------------------------------------------------------ the sweep

  /** What the disassembler says of the bytes at a position: the length of the instruction there and whether it
      is one the card lacks. It is taken as given. */
  type Decoder = seq<bv8> -> (nat, bool)

  /** It always moves on, and stays in the buffer. */
  ghost predicate Sound(other: Decoder) { forall s | s != [] :: 1 <= other(s).0 <= |s| }

  datatype Counts = Counts(count: nat, vector: nat, hits: seq<nat>)

  function Plus(vector: bool, hit: bool, pos: nat, c: Counts): Counts {
    Counts(c.count + 1, c.vector + (if vector then 1 else 0), (if hit then [pos] else []) + c.hits)
  }

  /** The sweep over the code `here`, which starts at address `pos`. */
  ghost function Sweep(here: seq<bv8>, pos: nat, other: Decoder): Counts
    requires Sound(other)
    decreases |here|
  {
    if here == [] then Counts(0, 0, [])
    else
      match MvexLength(here)
      case Some(n) => Plus(true, false, pos, Sweep(here[n..], pos + n, other))
      case None => Plus(false, other(here).1, pos, Sweep(here[other(here).0..], pos + other(here).0, other))
  }

  function Joined(a: Counts, b: Counts): Counts { Counts(a.count + b.count, a.vector + b.vector, a.hits + b.hits) }

  lemma JoinedPlus(a: Counts, vector: bool, hit: bool, pos: nat, c: Counts)
    ensures Joined(a, Plus(vector, hit, pos, c)) ==
            Joined(Counts(a.count + 1, a.vector + (if vector then 1 else 0), a.hits + (if hit then [pos] else [])), c)
  {
    assert a.hits + ((if hit then [pos] else []) + c.hits) == a.hits + (if hit then [pos] else []) + c.hits;
  }

  lemma SweepStep(code: seq<bv8>, pos: nat, other: Decoder, done: Counts)
    requires Sound(other) && pos < |code|
    ensures var here := code[pos..];
      var len := MvexLength(here);
      var n, hit := if len.Some? then len.value else other(here).0, len.None? && other(here).1;
      && pos + n <= |code|
      && Joined(done, Sweep(here, pos, other)) ==
         Joined(Counts(done.count + 1, done.vector + (if len.Some? then 1 else 0), done.hits + if hit then [pos] else []),
                Sweep(code[pos + n..], pos + n, other))
  {
    hide MvexLength, Joined, Plus;
    var here := code[pos..];
    var len := MvexLength(here);
    var n, hit := if len.Some? then len.value else other(here).0, len.None? && other(here).1;
    assert here[n..] == code[pos + n..];
    JoinedPlus(done, len.Some?, hit, pos, Sweep(here[n..], pos + n, other));
  }

  /** One step: a vector instruction is legal and opaque to the disassembler, anything else is its business. */
  method Advance(code: seq<bv8>, pos: nat, other: Decoder, done: Counts) returns (after: Counts, next: nat)
    requires Sound(other) && pos < |code|
    ensures pos < next <= |code|
    ensures Joined(after, Sweep(code[next..], next, other)) == Joined(done, Sweep(code[pos..], pos, other))
  {
    hide MvexLength, Sweep, Joined;
    SweepStep(code, pos, other, done);
    var here := code[pos..];
    var len := MvexLength(here);
    if len.Some? {
      next := pos + len.value;
      after := Counts(done.count + 1, done.vector + 1, done.hits + []);
    } else {
      var (n, hit) := other(here);
      next := pos + n;
      after := Counts(done.count + 1, done.vector + 0, done.hits + if hit then [pos] else []);
    }
  }

  /** `scan_bytes_counting` */
  method ScanBytes(code: seq<bv8>, other: Decoder) returns (counts: Counts)
    requires Sound(other)
    ensures counts == Sweep(code, 0, other)
  {
    hide Sweep, Joined;
    counts := Counts(0, 0, []);
    var pos := 0;
    assert code[0..] == code;
    JoinedNothing(Sweep(code, 0, other));
    while pos < |code|
      invariant pos <= |code|
      invariant Joined(counts, Sweep(code[pos..], pos, other)) == Sweep(code, 0, other)
    {
      counts, pos := Advance(code, pos, other, counts);
    }
    EmptySweep(pos, other);
    assert code[pos..] == [];
    JoinedEmpty(counts);
  }

  lemma JoinedEmpty(c: Counts)
    ensures Joined(c, Counts(0, 0, [])) == c
  {
    assert c.hits + [] == c.hits;
  }

  lemma JoinedNothing(c: Counts)
    ensures Joined(Counts(0, 0, []), c) == c
  {
    assert [] + c.hits == c.hits;
  }

  lemma EmptySweep(pos: nat, other: Decoder)
    requires Sound(other)
    ensures Sweep([], pos, other) == Counts(0, 0, [])
  {
  }

  /** A stretch of code: a vector instruction, or another the disassembler knows whatever follows it. */
  datatype Piece = Vector(f: Fields) | Plain(bytes: seq<bv8>, hit: bool)

  function PieceBytes(p: Piece): seq<bv8> {
    match p
    case Vector(f) => Encode(f)
    case Plain(bytes, _) => bytes
  }

  ghost predicate Known(p: Piece, other: Decoder) {
    match p
    case Vector(f) => WellFormed(f) && FollowsRule(f)
    case Plain(bytes, hit) =>
      bytes != [] && forall rest :: MvexLength(bytes + rest) == None && other(bytes + rest) == (|bytes|, hit)
  }

  function Code(ps: seq<Piece>): seq<bv8> { if ps == [] then [] else PieceBytes(ps[0]) + Code(ps[1..]) }

  function Vectors(ps: seq<Piece>): nat { if ps == [] then 0 else (if ps[0].Vector? then 1 else 0) + Vectors(ps[1..]) }

  /** Where the flagged pieces start. */
  function Flagged(ps: seq<Piece>, at: nat): seq<nat> {
    if ps == [] then []
    else (if ps[0].Plain? && ps[0].hit then [at] else []) + Flagged(ps[1..], at + |PieceBytes(ps[0])|)
  }

  lemma SyncStep(p: Piece, rest: seq<bv8>, pos: nat, other: Decoder)
    requires Sound(other) && Known(p, other)
    ensures var b := PieceBytes(p);
      Sweep(b + rest, pos, other) == Plus(p.Vector?, p.Plain? && p.hit, pos, Sweep(rest, pos + |b|, other))
  {
    hide Encode, MvexLength, FollowsRule, WellFormed, Plus;
    var b := PieceBytes(p);
    if p.Vector? {
      LengthExactIff(p.f, rest);
    }
    assert (b + rest)[|b|..] == rest;
  }

  /** The sweep never loses its place: it counts exactly the pieces, the vector ones among them, and flags exactly
      the flagged ones where they start. */
  lemma {:induction false} SweepInSync(pos: nat, ps: seq<Piece>, other: Decoder)
    requires Sound(other) && forall i | 0 <= i < |ps| :: Known(ps[i], other)
    ensures Sweep(Code(ps), pos, other) == Counts(|ps|, Vectors(ps), Flagged(ps, pos))
    decreases |ps|
  {
    hide Sweep, Sound, Known, PieceBytes;
    if ps == [] {
      EmptySweep(pos, other);
    } else {
      SyncStep(ps[0], Code(ps[1..]), pos, other);
      SweepInSync(pos + |PieceBytes(ps[0])|, ps[1..], other);
    }
  }
}
