/** What the bytes of the emitted kernels mean: an instruction reader written from the instruction set's opcode
    table, and the proof that it reads every emitted program back. */
module KernelBytes {
  import opened Options
  import Machine
  import opened Mvex
  import opened KernelAudit

  // ------------------------------------------------------------ the opcode table

  datatype Operation =
    | StoreAligned | LoadAligned | UnpackLow | UnpackHigh | SplatWord
    | MoveDoubles | ShiftBy | BitAnd | BitOr | AddWords | SubWords

  /** Map, prefix, W and opcode of the ISA reference: MVEX.512.{prefix}.{map}.{W} {opcode}. */
  function Table(opmap: bv8, pp: bv8, w: bool, opcode: bv8): Option<Operation> {
    if opmap == 1 && pp == 0 && !w then          // 0F, no prefix, W0
      (if opcode == 0x29 then Some(StoreAligned) else if opcode == 0x28 then Some(LoadAligned) else None)
    else if opmap == 2 && pp == 0 && !w then     // 0F38, no prefix, W0
      (if opcode == 0xd0 then Some(UnpackLow) else if opcode == 0xd4 then Some(UnpackHigh) else None)
    else if opmap == 2 && pp == 1 && !w then     // 0F38, 66, W0
      (if opcode == 0x58 then Some(SplatWord) else None)
    else if opmap == 1 && pp == 1 && w then      // 0F, 66, W1
      (if opcode == 0x28 then Some(MoveDoubles) else None)
    else if opmap == 1 && pp == 1 && !w then     // 0F, 66, W0
      (if opcode == 0x72 then Some(ShiftBy)
       else if opcode == 0xdb then Some(BitAnd)
       else if opcode == 0xeb then Some(BitOr)
       else if opcode == 0xfe then Some(AddWords)
       else if opcode == 0xfa then Some(SubWords)
       else None)
    else None
  }

  /** The number five bits spell. */
  function Number(b: bv8): (n: nat)
    ensures n < 32
  {
    (if b & 1 != 0 then 1 else 0) + (if b & 2 != 0 then 2 else 0) + (if b & 4 != 0 then 4 else 0)
    + (if b & 8 != 0 then 8 else 0) + (if b & 16 != 0 then 16 else 0)
  }

  /** The number eight bits spell. */
  function ByteNumber(b: bv8): nat {
    Number(b) + (if b & 32 != 0 then 32 else 0) + (if b & 64 != 0 then 64 else 0) + (if b & 128 != 0 then 128 else 0)
  }

  /** The general registers the kernels address by, numbered as in ModRM. */
  function BaseOf(b: bv8): Option<Machine.Gpr> {
    if b == 0 then Some(Machine.Rax)
    else if b == 2 then Some(Machine.Rdx)
    else if b == 6 then Some(Machine.Rsi)
    else if b == 7 then Some(Machine.Rdi)
    else None
  }

  /** A displacement is four little-endian bytes, signed. */
  function SignedDisp(d: bv32): int {
    var b := DispBytes(d);
    var n := ByteNumber(b[0]) + 0x100 * ByteNumber(b[1]) + 0x1_0000 * ByteNumber(b[2]) + 0x100_0000 * ByteNumber(b[3]);
    if n < 0x8000_0000 then n else n - 0x1_0000_0000
  }

  /** The instruction these fields are, when it is unmasked, unconverted and unhinted. Two-operand forms leave vvvv
      at its neutral value; the shifts have their destination there and their kind in ModRM.reg. */
  function Read(f: Fields): Option<Machine.Insn> {
    var op := Table(f.opmap, f.pp, f.w, f.opcode);
    if op.None? || f.aaa != 0 || f.sss != 0 || f.eh then None
    else
      match f.rm
      case MemRm(base, disp) =>
        var g := BaseOf(base);
        if g.None? || f.vvvv != 0 || f.imm.Some? then None
        else
          var at, z := Machine.Mem(g.value, SignedDisp(disp)), Number(f.reg);
          (match op.value
           case StoreAligned => Some(Machine.VStore(at, z))
           case LoadAligned => Some(Machine.VLoad(z, at))
           case UnpackLow => Some(Machine.LoadUnpackLo(z, at))
           case UnpackHigh => Some(Machine.LoadUnpackHi(z, at))
           case SplatWord => Some(Machine.Broadcast(z, at))
           case _ => None)
      case RegRm(r) =>
        var dst, first, second := Number(f.reg), Number(f.vvvv), Number(r);
        if op.value == ShiftBy then
          if f.imm.None? then None
          else if f.reg == 2 then Some(Machine.ShiftRight(first, second, ByteNumber(f.imm.value)))
          else if f.reg == 6 then Some(Machine.ShiftLeft(first, second, ByteNumber(f.imm.value)))
          else None
        else if f.imm.Some? then None
        else
          match op.value
          case MoveDoubles => if f.vvvv == 0 then Some(Machine.Move(dst, second)) else None
          case BitAnd => Some(Machine.AndD(dst, first, second))
          case BitOr => Some(Machine.OrD(dst, first, second))
          case AddWords => Some(Machine.AddD(dst, first, second))
          case SubWords => Some(Machine.SubD(dst, first, second))
          case _ => None
  }

  // ------------------------------------------------------------ one instruction

  /** A displacement fits 32 signed bits, a shift count a byte. */
  predicate Encodable(i: Machine.Insn) {
    match i
    case VStore(at, _) => FitsDisp(at.disp)
    case VLoad(_, at) => FitsDisp(at.disp)
    case LoadUnpackLo(_, at) => FitsDisp(at.disp)
    case LoadUnpackHi(_, at) => FitsDisp(at.disp)
    case Broadcast(_, at) => FitsDisp(at.disp)
    case ShiftRight(_, _, count) => count < 256
    case ShiftLeft(_, _, count) => count < 256
    case _ => true
  }

  predicate FitsDisp(d: int) { -0x8000_0000 <= d < 0x8000_0000 }

  lemma RegisterBack(z: nat)
    requires z < 32
    ensures Number(RegisterBits(z)) == z
  {
    hide Number;
    FiveBits(z % 2 == 1, z / 2 % 2 == 1, z / 4 % 2 == 1, z / 8 % 2 == 1, z / 16 % 2 == 1);
    Binary(z);
  }

  function Weight(b: bool, n: nat): nat { if b then n else 0 }

  lemma FiveBits(a: bool, b: bool, c: bool, d: bool, e: bool)
    ensures var r := Bit(a) | (Bit(b) << 1) | (Bit(c) << 2) | (Bit(d) << 3) | (Bit(e) << 4);
      Number(r) == Weight(a, 1) + Weight(b, 2) + Weight(c, 4) + Weight(d, 8) + Weight(e, 16)
  {
  }

  lemma Binary(z: nat)
    requires z < 32
    ensures z == Weight(z % 2 == 1, 1) + Weight(z / 2 % 2 == 1, 2) + Weight(z / 4 % 2 == 1, 4)
                 + Weight(z / 8 % 2 == 1, 8) + Weight(z / 16 % 2 == 1, 16)
  {
    Halved(z);
    var a, b, c, d := z / 2, z / 4, z / 8, z / 16;
    assert d < 2;
    Pieces(z, a, b, c, d);
  }

  lemma Halved(z: nat)
    ensures z / 4 == z / 2 / 2 && z / 8 == z / 4 / 2 && z / 16 == z / 8 / 2
  {
  }

  lemma Pieces(z: nat, a: nat, b: nat, c: nat, d: nat)
    requires a == z / 2 && b == a / 2 && c == b / 2 && d == c / 2 && d < 2
    ensures z == Weight(z % 2 == 1, 1) + Weight(a % 2 == 1, 2) + Weight(b % 2 == 1, 4) + Weight(c % 2 == 1, 8)
                 + Weight(d % 2 == 1, 16)
  {
    Half(z);
    Half(a);
    Half(b);
    Half(c);
    Half(d);
  }

  lemma Half(x: nat)
    ensures x == 2 * (x / 2) + Weight(x % 2 == 1, 1)
  {
  }

  lemma ByteBack(n: nat)
    requires n < 256
    ensures ByteNumber(ByteBits(n)) == n
  {
    hide Number, RegisterBits;
    ThreeBits(RegisterBits(n % 32), n / 32 % 2 == 1, n / 64 % 2 == 1, n / 128 % 2 == 1);
    RegisterBack(n % 32);
    HighBits(n);
  }

  lemma ThreeBits(low: bv8, f: bool, g: bool, h: bool)
    requires low < 32
    ensures ByteNumber(low | (Bit(f) << 5) | (Bit(g) << 6) | (Bit(h) << 7))
         == Number(low) + Weight(f, 32) + Weight(g, 64) + Weight(h, 128)
  {
  }

  lemma HighBits(n: nat)
    requires n < 256
    ensures n == n % 32 + Weight(n / 32 % 2 == 1, 32) + Weight(n / 64 % 2 == 1, 64) + Weight(n / 128 % 2 == 1, 128)
  {
    var a, b, c := n / 32, n / 64, n / 128;
    assert n == 32 * a + n % 32 && a == 2 * b + a % 2 && b == 2 * c + b % 2 && c < 2;
  }

  lemma DispBack(d: int)
    requires FitsDisp(d)
    ensures SignedDisp(DispBits(d)) == d
  {
    hide SignedDisp, OfBytes, ByteBits;
    var n := d % 0x1_0000_0000;
    assert n == if d < 0 then d + 0x1_0000_0000 else d;
    BytesBack(n);
  }

  lemma BytesBack(n: nat)
    requires n < 0x1_0000_0000
    ensures var d := OfBytes(ByteBits(n % 256), ByteBits(n / 0x100 % 256), ByteBits(n / 0x1_0000 % 256),
                             ByteBits(n / 0x100_0000 % 256));
      SignedDisp(d) == if n < 0x8000_0000 then n else n - 0x1_0000_0000
  {
    hide DispBytes, OfBytes, ByteBits, ByteNumber;
    var a, b, c, e := n % 256, n / 0x100 % 256, n / 0x1_0000 % 256, n / 0x100_0000 % 256;
    FourBytes(ByteBits(a), ByteBits(b), ByteBits(c), ByteBits(e));
    ByteBack(a);
    ByteBack(b);
    ByteBack(c);
    ByteBack(e);
    Digits(n);
  }

  lemma FourBytes(a: bv8, b: bv8, c: bv8, d: bv8)
    ensures DispBytes(OfBytes(a, b, c, d)) == [a, b, c, d]
  {
    BytesApart(a, b, c, d);
  }

  lemma BytesApart(a: bv8, b: bv8, c: bv8, d: bv8)
    ensures var w := OfBytes(a, b, c, d);
      (w & 0xff) as bv8 == a && ((w >> 8) & 0xff) as bv8 == b && ((w >> 16) & 0xff) as bv8 == c
      && ((w >> 24) & 0xff) as bv8 == d
  {
  }

  lemma Digits(n: nat)
    requires n < 0x1_0000_0000
    ensures n == n % 256 + 0x100 * (n / 0x100 % 256) + 0x1_0000 * (n / 0x1_0000 % 256) + 0x100_0000 * (n / 0x100_0000 % 256)
  {
    assert n / 0x100 / 0x100 == n / 0x1_0000 && n / 0x1_0000 / 0x100 == n / 0x100_0000;
  }

  lemma CountBack(n: nat)
    requires n < 256
    ensures ByteNumber(ByteBits(n % 256)) == n
  {
    hide ByteNumber, ByteBits;
    assert n % 256 == n;
    ByteBack(n);
  }

  lemma MemoryRead(i: Machine.Insn)
    requires i.VStore? || i.VLoad? || i.LoadUnpackLo? || i.LoadUnpackHi? || i.Broadcast?
    requires Encodable(i)
    ensures Read(PieceOf(i).f) == Some(i)
  {
    hide RegisterBits, Number, SignedDisp, DispBits, ByteBits, ByteNumber;
    RegisterBack(if i.VStore? then i.src else i.dst);
    DispBack(i.at.disp);
  }

  lemma ShiftRead(i: Machine.Insn)
    requires (i.ShiftRight? || i.ShiftLeft?) && Encodable(i)
    ensures Read(PieceOf(i).f) == Some(i)
  {
    hide RegisterBits, Number, SignedDisp, DispBits, ByteBits, ByteNumber;
    RegisterBack(i.dst);
    RegisterBack(i.a);
    CountBack(i.count);
  }

  lemma ArithmeticRead(i: Machine.Insn)
    requires i.AndD? || i.OrD? || i.AddD? || i.SubD?
    ensures Read(PieceOf(i).f) == Some(i)
  {
    hide RegisterBits, Number, SignedDisp, DispBits, ByteBits, ByteNumber;
    RegisterBack(i.dst);
    RegisterBack(i.a);
    RegisterBack(i.b);
  }

  lemma MoveRead(i: Machine.Insn)
    requires i.Move?
    ensures Read(PieceOf(i).f) == Some(i)
  {
    hide RegisterBits, Number, SignedDisp, DispBits, ByteBits, ByteNumber;
    RegisterBack(i.dst);
    RegisterBack(i.a);
  }

  /** The fields built for an instruction read as that instruction. */
  lemma FieldsRead(i: Machine.Insn)
    requires !i.LeaMask? && Encodable(i)
    ensures PieceOf(i).Vector? && Read(PieceOf(i).f) == Some(i)
  {
    hide Read, Plainly, Arith, Shift, MemOf;
    if i.ShiftRight? || i.ShiftLeft? {
      ShiftRead(i);
    } else if i.AndD? || i.OrD? || i.AddD? || i.SubD? {
      ArithmeticRead(i);
    } else if i.Move? {
      MoveRead(i);
    } else {
      MemoryRead(i);
    }
  }

  /** And so do the bytes: what the card finds there is the instruction the program has. */
  lemma BytesRead(i: Machine.Insn)
    requires !i.LeaMask? && Encodable(i)
    ensures |PieceBytes(PieceOf(i))| >= 6 && Read(FieldsOf(PieceBytes(PieceOf(i)))) == Some(i)
  {
    hide Read, FieldsOf, Encode;
    FieldsRead(i);
    VectorWellFormed(i);
    FieldsRoundTrip(PieceOf(i).f);
  }

  // ------------------------------------------------------------ a whole program

  /** `code`, which starts at offset `at`, as instructions: each vector instruction ends where the prefix, opcode and
      ModRM say; the one ordinary instruction loads the mask constant its relocation names. */
  function Disassemble(code: seq<bv8>, at: nat, relocs: map<nat, nat>): Option<seq<Machine.Insn>>
    decreases |code|
  {
    if code == [] then Some([])
    else
      match MvexLength(code)
      case Some(n) => Cons(if PlainForm(code[5]) then Read(FieldsOf(code[..n])) else None, Disassemble(code[n..], at + n, relocs))
      case None =>
        if |code| >= 7 && code[..3] == [0x48, 0x8d, 0x05] && at + 3 in relocs  // REX.W 8D /r, rax, RIP-relative
        then Cons(Some(Machine.LeaMask(relocs[at + 3])), Disassemble(code[7..], at + 7, relocs))
        else None
  }

  function Cons(i: Option<Machine.Insn>, rest: Option<seq<Machine.Insn>>): Option<seq<Machine.Insn>> {
    if i.Some? && rest.Some? then Some([i.value] + rest.value) else None
  }

  /** A register, or a base without SIB and a 32-bit displacement. */
  predicate PlainForm(modrm: bv8) { modrm >> 6 == 3 || (modrm >> 6 == 2 && modrm & 7 != 4) }

  /** Where the linker is to put which mask constant's address: behind the opcode of every load of one. */
  function Relocations(prog: seq<Machine.Insn>, at: nat): map<nat, nat>
    decreases |prog|
  {
    if prog == [] then map[]
    else
      var rest := Relocations(prog[1..], at + |PieceBytes(PieceOf(prog[0]))|);
      if prog[0].LeaMask? then rest[at + 3 := prog[0].bits] else rest
  }

  ghost predicate Relocated(prog: seq<Machine.Insn>, at: nat, relocs: map<nat, nat>)
    decreases |prog|
  {
    prog != [] ==>
      && (prog[0].LeaMask? ==> at + 3 in relocs && relocs[at + 3] == prog[0].bits)
      && Relocated(prog[1..], at + |PieceBytes(PieceOf(prog[0]))|, relocs)
  }

  lemma {:induction false} MoreRelocated(prog: seq<Machine.Insn>, at: nat, a: map<nat, nat>, b: map<nat, nat>)
    requires Relocated(prog, at, a) && forall k | k in a && k >= at :: k in b && b[k] == a[k]
    ensures Relocated(prog, at, b)
    decreases |prog|
  {
    hide PieceBytes, PieceOf;
    if prog != [] {
      MoreRelocated(prog[1..], at + |PieceBytes(PieceOf(prog[0]))|, a, b);
    }
  }

  lemma {:induction false} RelocationsServe(prog: seq<Machine.Insn>, at: nat)
    ensures Relocated(prog, at, Relocations(prog, at))
    decreases |prog|
  {
    hide PieceBytes, PieceOf;
    if prog != [] {
      var next := at + |PieceBytes(PieceOf(prog[0]))|;
      RelocationsServe(prog[1..], next);
      if prog[0].LeaMask? {
        LeaSize(prog[0]);
      }
      MoreRelocated(prog[1..], next, Relocations(prog[1..], next), Relocations(prog, at));
    }
  }

  lemma LeaSize(i: Machine.Insn)
    requires i.LeaMask?
    ensures PieceBytes(PieceOf(i)) == LEA && |LEA| == 7
  {
  }

  /** The ModRM byte of a vector instruction, and where it ends whatever follows. */
  lemma VectorStep(i: Machine.Insn, rest: seq<bv8>)
    requires !i.LeaMask?
    ensures var b := PieceBytes(PieceOf(i));
      |b| >= 6 && MvexLength(b + rest) == Some(|b|) && PlainForm((b + rest)[5])
  {
    hide P0, P1, P2, P2With, ModRm, Encode, MvexLength, PieceOf, FollowsRule;
    VectorWellFormed(i);
    var f := PieceOf(i).f;
    LengthExactIff(f, rest);
    EncodedBytes(f);
    RmFields(f.opmap, f.reg, f.rm);
  }

  lemma LeaStep(rest: seq<bv8>)
    ensures MvexLength(LEA + rest) == None && (LEA + rest)[..3] == [0x48, 0x8d, 0x05] && (LEA + rest)[7..] == rest
  {
    assert (LEA + rest)[0] == 0x48;
  }

  predicate AllEncodable(prog: seq<Machine.Insn>) { forall i | 0 <= i < |prog| :: Encodable(prog[i]) }

  lemma VectorHead(i: Machine.Insn, rest: seq<bv8>, at: nat, relocs: map<nat, nat>)
    requires !i.LeaMask? && Encodable(i)
    ensures var b := PieceBytes(PieceOf(i));
      Disassemble(b + rest, at, relocs) == Cons(Some(i), Disassemble(rest, at + |b|, relocs))
  {
    hide PieceBytes, PieceOf, MvexLength, FieldsOf, Read, PlainForm, Encodable;
    var b := PieceBytes(PieceOf(i));
    VectorStep(i, rest);
    BytesRead(i);
    assert (b + rest)[..|b|] == b && (b + rest)[|b|..] == rest;
  }

  lemma LeaHead(i: Machine.Insn, rest: seq<bv8>, at: nat, relocs: map<nat, nat>)
    requires i.LeaMask? && at + 3 in relocs && relocs[at + 3] == i.bits
    ensures var b := PieceBytes(PieceOf(i));
      Disassemble(b + rest, at, relocs) == Cons(Some(i), Disassemble(rest, at + |b|, relocs))
  {
    hide PieceBytes, PieceOf, MvexLength, FieldsOf, Read, PlainForm;
    LeaSize(i);
    LeaStep(rest);
  }

  lemma NothingRead(at: nat, relocs: map<nat, nat>)
    ensures Disassemble([], at, relocs) == Some([])
  {
  }

  /** The bytes of a program, read back, are that program. */
  lemma {:induction false} ReadBack(prog: seq<Machine.Insn>, at: nat, relocs: map<nat, nat>)
    requires AllEncodable(prog) && Relocated(prog, at, relocs)
    ensures Disassemble(Code(PiecesOf(prog)), at, relocs) == Some(prog)
    decreases |prog|
  {
    hide PieceBytes, PieceOf, Encodable, Disassemble;
    if prog == [] {
      assert PiecesOf(prog) == [];
      NothingRead(at, relocs);
    } else {
      var b, rest := PieceBytes(PieceOf(prog[0])), Code(PiecesOf(prog[1..]));
      assert PiecesOf(prog)[1..] == PiecesOf(prog[1..]);
      assert Code(PiecesOf(prog)) == b + rest;
      ReadBack(prog[1..], at + |b|, relocs);
      assert prog == [prog[0]] + prog[1..];
      if prog[0].LeaMask? {
        LeaHead(prog[0], rest, at, relocs);
      } else {
        VectorHead(prog[0], rest, at, relocs);
      }
    }
  }

  /** The bytes and relocations the assembler is given for a program mean that program. */
  lemma ListingMeans(prog: seq<Machine.Insn>)
    requires AllEncodable(prog)
    ensures Listing(prog) == Some(prog)
  {
    hide Disassemble, Relocations, Relocated, AllEncodable;
    RelocationsServe(prog, 0);
    ReadBack(prog, 0, Relocations(prog, 0));
  }

  /** A program written out as bytes and relocations, and read again. */
  function Listing(prog: seq<Machine.Insn>): Option<seq<Machine.Insn>> {
    Disassemble(Code(PiecesOf(prog)), 0, Relocations(prog, 0))
  }
}
