/** The bytes of the emitted kernels, and what the auditor makes of them. */
module KernelAudit {
  import opened Options
  import Machine
  import opened Mvex

  /** A register number's five bits. */
  function RegisterBits(z: nat): (b: bv8)
    requires z < 32
    ensures b < 32
  {
    Bit(z % 2 == 1) | (Bit(z / 2 % 2 == 1) << 1) | (Bit(z / 4 % 2 == 1) << 2) | (Bit(z / 8 % 2 == 1) << 3)
      | (Bit(z / 16 % 2 == 1) << 4)
  }

  /** A byte's eight bits. */
  function ByteBits(n: nat): bv8
    requires n < 256
  {
    RegisterBits(n % 32) | (Bit(n / 32 % 2 == 1) << 5) | (Bit(n / 64 % 2 == 1) << 6) | (Bit(n / 128 % 2 == 1) << 7)
  }

  function BaseBits(g: Machine.Gpr): bv8 {
    match g
    case Rax => 0
    case Rdx => 2
    case Rsi => 6
    case Rdi => 7
  }

  /** The 32 bits of a displacement, from its four little-endian bytes. */
  function DispBits(disp: int): bv32 {
    var n := disp % 0x1_0000_0000;
    OfBytes(ByteBits(n % 256), ByteBits(n / 0x100 % 256), ByteBits(n / 0x1_0000 % 256), ByteBits(n / 0x100_0000 % 256))
  }

  function OfBytes(a: bv8, b: bv8, c: bv8, d: bv8): bv32 {
    (a as bv32) | ((b as bv32) << 8) | ((c as bv32) << 16) | ((d as bv32) << 24)
  }

  function MemOf(m: Machine.Mem): Rm { MemRm(BaseBits(m.base), DispBits(m.disp)) }

  function Reg(z: Machine.Zmm): Rm { RegRm(RegisterBits(z)) }

  const M0F: bv8 := 1
  const M0F38: bv8 := 2
  const NOPREFIX: bv8 := 0
  const P66: bv8 := 1

  /** The constructor each emitted instruction is built by. */
  function Plainly(opmap: bv8, pp: bv8, w: bool, reg: bv8, vvvv: bv8, rm: Rm, opcode: bv8, imm: Option<bv8>): Fields {
    Fields(opmap, pp, w, reg, vvvv, rm, 0, 0, false, opcode, imm)
  }

  function Arith(opcode: bv8, dst: Machine.Zmm, a: Machine.Zmm, b: Machine.Zmm): Fields {
    Plainly(M0F, P66, false, RegisterBits(dst), RegisterBits(a), Reg(b), opcode, None)
  }

  /** `shift_imm`: the destination is vvvv and the opcode extension ModRM.reg. */
  function Shift(ext: bv8, dst: Machine.Zmm, a: Machine.Zmm, count: nat): Fields {
    Plainly(M0F, P66, false, ext, RegisterBits(dst), Reg(a), 0x72, Some(ByteBits(count % 256)))
  }

  /** `leaq knc_mask_bN(%rip), %rax`, before relocation. */
  const LEA: seq<bv8> := [0x48, 0x8d, 0x05, 0, 0, 0, 0]

  function PieceOf(i: Machine.Insn): Piece {
    match i
    case VStore(at, src) => Vector(Plainly(M0F, NOPREFIX, false, RegisterBits(src), 0, MemOf(at), 0x29, None))
    case VLoad(dst, at) => Vector(Plainly(M0F, NOPREFIX, false, RegisterBits(dst), 0, MemOf(at), 0x28, None))
    case LoadUnpackLo(dst, at) => Vector(Plainly(M0F38, NOPREFIX, false, RegisterBits(dst), 0, MemOf(at), 0xd0, None))
    case LoadUnpackHi(dst, at) => Vector(Plainly(M0F38, NOPREFIX, false, RegisterBits(dst), 0, MemOf(at), 0xd4, None))
    case Broadcast(dst, at) => Vector(Plainly(M0F38, P66, false, RegisterBits(dst), 0, MemOf(at), 0x58, None))
    case ShiftRight(dst, a, count) => Vector(Shift(2, dst, a, count))
    case ShiftLeft(dst, a, count) => Vector(Shift(6, dst, a, count))
    case AndD(dst, a, b) => Vector(Arith(0xdb, dst, a, b))
    case OrD(dst, a, b) => Vector(Arith(0xeb, dst, a, b))
    case AddD(dst, a, b) => Vector(Arith(0xfe, dst, a, b))
    case SubD(dst, a, b) => Vector(Arith(0xfa, dst, a, b))
    case Move(dst, a) => Vector(Plainly(M0F, P66, true, RegisterBits(dst), 0, Reg(a), 0x28, None))
    case LeaMask(_) => Plain(LEA, false)
  }

  function PiecesOf(prog: seq<Machine.Insn>): (ps: seq<Piece>)
    ensures |ps| == |prog| && forall i | 0 <= i < |prog| :: ps[i] == PieceOf(prog[i])
  {
    seq(|prog|, i requires 0 <= i < |prog| => PieceOf(prog[i]))
  }

  /** The disassembler knows the one ordinary instruction the kernels use. */
  ghost predicate KnowsLea(other: Decoder) { forall rest :: other(LEA + rest) == (7, false) }

  lemma VectorWellFormed(i: Machine.Insn)
    requires !i.LeaMask?
    ensures PieceOf(i).Vector? && WellFormed(PieceOf(i).f) && FollowsRule(PieceOf(i).f)
  {
    hide RegisterBits, DispBits, ByteBits;
  }

  lemma LeaPiece(i: Machine.Insn)
    requires i.LeaMask?
    ensures PieceOf(i) == Plain(LEA, false)
  {
  }

  lemma InsnKnown(i: Machine.Insn, other: Decoder)
    requires KnowsLea(other)
    ensures Known(PieceOf(i), other)
  {
    hide PieceOf, WellFormed, FollowsRule;
    if !i.LeaMask? {
      VectorWellFormed(i);
    } else {
      LeaPiece(i);
      forall rest
        ensures MvexLength(LEA + rest) == None
      {
        assert (LEA + rest)[0] == 0x48;
      }
    }
  }

  function VectorInsns(prog: seq<Machine.Insn>): nat {
    if prog == [] then 0 else (if prog[0].LeaMask? then 0 else 1) + VectorInsns(prog[1..])
  }

  lemma {:induction false} NothingFlagged(prog: seq<Machine.Insn>, at: nat)
    ensures Vectors(PiecesOf(prog)) == VectorInsns(prog) && Flagged(PiecesOf(prog), at) == []
    decreases |prog|
  {
    hide PieceBytes, PieceOf, WellFormed, FollowsRule;
    if prog != [] {
      var ps := PiecesOf(prog);
      if prog[0].LeaMask? {
        LeaPiece(prog[0]);
      } else {
        VectorWellFormed(prog[0]);
      }
      assert ps[1..] == PiecesOf(prog[1..]);
      NothingFlagged(prog[1..], at + |PieceBytes(ps[0])|);
    }
  }

  /** Every program the generator can emit is swept instruction by instruction, every vector instruction is counted
      as one, and nothing is flagged. */
  lemma EmittedCodeIsClean(prog: seq<Machine.Insn>, other: Decoder)
    requires Sound(other) && KnowsLea(other)
    ensures Sweep(Code(PiecesOf(prog)), 0, other) == Counts(|prog|, VectorInsns(prog), [])
  {
    hide Sweep, Code, PieceOf, Known, Vectors, VectorInsns, Flagged;
    forall i | 0 <= i < |prog|
      ensures Known(PiecesOf(prog)[i], other)
    {
      InsnKnown(prog[i], other);
    }
    SweepInSync(0, PiecesOf(prog), other);
    NothingFlagged(prog, 0);
  }
}
