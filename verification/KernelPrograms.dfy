/** The four kinds of kernel, from their bytes: every displacement and shift count the generator emits can be
    encoded, so the bytes mean the programs, and running what the bytes mean does what the programs do. */
module KernelPrograms {
  import opened Arithmetic
  import opened Words
  import opened Options
  import opened Machine
  import opened Layout
  import opened Extraction
  import opened UnpackKernel
  import opened PackKernel
  import opened TransformKernel
  import opened FlsKernel
  import opened KernelBytes

  // ------------------------------------------------------------ programs put together

  lemma JoinEncodable(a: seq<Insn>, b: seq<Insn>)
    requires AllEncodable(a) && AllEncodable(b)
    ensures AllEncodable(a + b)
  {
    hide Encodable;
  }

  lemma {:induction false} FlatEncodable(slots: seq<Option<Insn>>)
    requires forall p | 0 <= p < |slots| && slots[p].Some? :: Encodable(slots[p].value)
    ensures AllEncodable(Flat(slots))
  {
    hide Encodable;
    if slots != [] {
      var init, last := slots[..|slots| - 1], slots[|slots| - 1];
      FlatEncodable(init);
      JoinEncodable(Flat(init), match last case None => [] case Some(i) => [i]);
    }
  }

  lemma {:induction false} StoresEncodable(at: Mem, stride: nat, first: nat, regs: seq<Zmm>)
    requires 0 <= at.disp <= 4096 && stride <= 128 && first + |regs| <= 1024
    ensures AllEncodable(Stores(at, stride, first, regs))
    decreases |regs|
  {
    if regs != [] {
      var n := |regs| - 1;
      StoresEncodable(at, stride, first, regs[..n]);
      MulMonotone(stride, 128, first + n);
      JoinEncodable(Stores(at, stride, first, regs[..n]),
                    [VStore(Mem(at.base, at.disp + stride * (first + n)), regs[n])]);
    }
  }

  lemma FirstWordSmall(bits: nat, start: nat)
    requires bits <= 32
    ensures FirstWord(bits, start) <= start
  {
    MulMonotone(bits, 32, start);
  }

  lemma ExtractEncodable(bits: nat, start: nat)
    requires 1 <= bits <= 32
    ensures AllEncodable(ExtractCode(bits, start))
  {
    hide PlaceAt, WordReg, Flat, AllEncodable;
    FlatEncodable(Lows(bits, start));
    FlatEncodable(Highs(bits, start));
    FlatEncodable(Merges(bits, start));
    FlatEncodable(Masks(bits, start));
    JoinEncodable(Flat(Lows(bits, start)), Flat(Highs(bits, start)));
    JoinEncodable(Flat(Lows(bits, start)) + Flat(Highs(bits, start)), Flat(Merges(bits, start)));
    JoinEncodable(Flat(Lows(bits, start)) + Flat(Highs(bits, start)) + Flat(Merges(bits, start)), Flat(Masks(bits, start)));
  }

  // ------------------------------------------------------------ unpack

  lemma LoadsEncodable(bits: nat, start: nat)
    requires 1 <= bits <= 32 && start <= POSITIONS
    ensures AllEncodable(Flat(Loads(bits, start)))
  {
    hide FirstWord, WordCount, AllEncodable;
    FirstWordSmall(bits, start);
    var loads := Loads(bits, start);
    assert forall w | 0 <= w < |loads| :: loads[w] == LoadAt(bits, start, w);
    FlatEncodable(loads);
  }

  lemma {:induction false} SumsEncodable(bits: nat, start: nat, n: nat)
    requires 1 <= bits <= 32 && n <= GROUP && start <= POSITIONS
    ensures AllEncodable(Sums(bits, start, n))
  {
    hide ResultReg;
    if n > 0 {
      SumsEncodable(bits, start, n - 1);
      JoinEncodable(Sums(bits, start, n - 1),
                    [AddD(ACCREG, ACCREG, ResultReg(bits, start, n - 1)), VStore(Mem(Rdi, 64 * (start + n - 1)), ACCREG)]);
    }
  }

  lemma TailEncodable(bits: nat, mode: Mode, start: nat)
    requires 1 <= bits <= 32 && start <= POSITIONS
    ensures AllEncodable(Tail(bits, mode, start))
  {
    hide AllEncodable, ResultReg, Flat, Stores, Sums;
    match mode {
      case Plain => StoresEncodable(Mem(Rdi, 0), 64, start, ResultRegs(bits, start));
      case For =>
        FlatEncodable(Adds(bits, start, 0));
        StoresEncodable(Mem(Rdi, 0), 64, start, TempRegs(0));
        JoinEncodable(Flat(Adds(bits, start, 0)), Stores(Mem(Rdi, 0), 64, start, TempRegs(0)));
      case Delta => SumsEncodable(bits, start, GROUP);
    }
  }

  lemma {:induction false} GroupsEncodable(bits: nat, mode: Mode, n: nat)
    requires 1 <= bits <= 32 && GROUP * n <= POSITIONS
    ensures AllEncodable(Groups(bits, mode, n))
  {
    hide AllEncodable, Flat, Tail, ExtractCode, Loads;
    if n == 0 {
      NothingToEncode();
    } else {
      var start := GROUP * (n - 1);
      GroupsEncodable(bits, mode, n - 1);
      LoadsEncodable(bits, start);
      ExtractEncodable(bits, start);
      TailEncodable(bits, mode, start);
      JoinEncodable(Flat(Loads(bits, start)), ExtractCode(bits, start));
      JoinEncodable(Flat(Loads(bits, start)) + ExtractCode(bits, start), Tail(bits, mode, start));
      JoinEncodable(Groups(bits, mode, n - 1), GroupCode(bits, mode, start));
    }
  }

  lemma NothingToEncode()
    ensures AllEncodable([])
  {
  }

  lemma PrologueEncodable(bits: nat, mode: Mode)
    ensures AllEncodable(Prologue(bits, mode))
  {
  }

  lemma UnpackEncodable(bits: nat, mode: Mode)
    requires 1 <= bits <= 32
    ensures AllEncodable(UnpackCode(bits, mode))
  {
    hide AllEncodable, Groups, Prologue;
    PrologueEncodable(bits, mode);
    GroupsEncodable(bits, mode, POSITIONS / GROUP);
    JoinEncodable(Prologue(bits, mode), Groups(bits, mode, POSITIONS / GROUP));
  }

  /** What the bytes of an unpack kernel mean is that kernel, and running it decodes the block. */
  lemma UnpackBytes(bits: nat, mode: Mode)
    requires 1 <= bits <= 32
    ensures Listing(UnpackCode(bits, mode)) == Some(UnpackCode(bits, mode))
    ensures forall st | CanUnpack(bits, mode, st) :: Unpacks(Listing(UnpackCode(bits, mode)).value, bits, mode, st)
  {
    hide Listing, UnpackCode, CanUnpack, Unpacks;
    UnpackEncodable(bits, mode);
    ListingMeans(UnpackCode(bits, mode));
    forall st | CanUnpack(bits, mode, st)
      ensures Unpacks(UnpackCode(bits, mode), bits, mode, st)
    {
      UnpackRuns(bits, mode, st);
    }
  }

  // ------------------------------------------------------------ pack

  lemma PieceSmall(bits: nat, b: nat, i: nat, j: nat)
    requires i < |PiecesAt(bits, b, j)|
    ensures PiecesAt(bits, b, j)[i].value < POSITIONS && PiecesAt(bits, b, j)[i].amount <= 32
  {
    var p := PiecesAt(bits, b, j)[i];
    assert PieceOf(bits, p.value, b + j) == Some(p);
  }

  lemma SlotEncodable(ph: Phase, bits: nat, b: nat, i: nat, j: nat)
    requires j < PACK_WORDS
    ensures SlotAt(ph, bits, b, i, j).Some? ==> Encodable(SlotAt(ph, bits, b, i, j).value)
  {
    hide PiecesAt, Dst;
    if i < |PiecesAt(bits, b, j)| {
      PieceSmall(bits, b, i, j);
    }
  }

  lemma SlotsEncodable(ph: Phase, bits: nat, b: nat, i: nat)
    requires b <= 2 * bits
    ensures AllEncodable(Flat(Slots(ph, bits, b, i)))
  {
    hide SlotAt, Encodable, AllEncodable, Flat;
    var slots := Slots(ph, bits, b, i);
    forall j | 0 <= j < |slots| && slots[j].Some?
      ensures Encodable(slots[j].value)
    {
      SlotEncodable(ph, bits, b, i, j);
    }
    FlatEncodable(slots);
  }

  lemma StepEncodable(bits: nat, b: nat, i: nat)
    requires b <= 2 * bits
    ensures AllEncodable(StepCode(bits, b, i))
  {
    hide AllEncodable, Flat, Slots;
    var loads, masks := Flat(Slots(LoadPhase, bits, b, i)), Flat(Slots(MaskPhase, bits, b, i));
    var shifts, ors := Flat(Slots(ShiftPhase, bits, b, i)), Flat(Slots(OrPhase, bits, b, i));
    SlotsEncodable(LoadPhase, bits, b, i);
    SlotsEncodable(MaskPhase, bits, b, i);
    SlotsEncodable(ShiftPhase, bits, b, i);
    SlotsEncodable(OrPhase, bits, b, i);
    JoinEncodable(loads, masks);
    JoinEncodable(loads + masks, shifts);
    JoinEncodable(loads + masks + shifts, ors);
  }

  lemma {:induction false} StepsEncodable(bits: nat, b: nat, n: nat)
    requires b <= 2 * bits
    ensures AllEncodable(StepsCode(bits, b, n))
  {
    hide AllEncodable, StepCode;
    if n == 0 {
      NothingToEncode();
    } else {
      StepsEncodable(bits, b, n - 1);
      StepEncodable(bits, b, n - 1);
      JoinEncodable(StepsCode(bits, b, n - 1), StepCode(bits, b, n - 1));
    }
  }

  lemma PackGroupEncodable(bits: nat, b: nat)
    requires b <= 2 * bits <= 64
    ensures AllEncodable(PackGroupCode(bits, b))
  {
    hide AllEncodable, Flat, Slots, StepsCode, Stores, MostPieces;
    var steps, combine := StepsCode(bits, b, MostPieces(bits, b, InFlight(bits, b))), Flat(Slots(CombinePhase, bits, b, 0));
    var stores := Stores(Mem(Rdi, 0), 64, b, AccRegs(InFlight(bits, b)));
    StepsEncodable(bits, b, MostPieces(bits, b, InFlight(bits, b)));
    SlotsEncodable(CombinePhase, bits, b, 0);
    StoresEncodable(Mem(Rdi, 0), 64, b, AccRegs(InFlight(bits, b)));
    JoinEncodable(steps, combine);
    JoinEncodable(steps + combine, stores);
  }

  lemma {:induction false} PackGroupsEncodable(bits: nat, n: nat)
    requires 1 <= bits <= 32 && PACK_WORDS * n < 2 * bits + PACK_WORDS
    ensures AllEncodable(PackGroups(bits, n))
  {
    hide AllEncodable, PackGroupCode;
    if n == 0 {
      NothingToEncode();
    } else {
      PackGroupsEncodable(bits, n - 1);
      PackGroupEncodable(bits, PACK_WORDS * (n - 1));
      JoinEncodable(PackGroups(bits, n - 1), PackGroupCode(bits, PACK_WORDS * (n - 1)));
    }
  }

  lemma PackEncodable(bits: nat)
    requires 1 <= bits <= 32
    ensures AllEncodable(PackCode(bits))
  {
    hide AllEncodable, PackGroups, Prologue;
    PrologueEncodable(bits, Plain);
    PackGroupsEncodable(bits, GroupCount(bits));
    JoinEncodable(Prologue(bits, Plain), PackGroups(bits, GroupCount(bits)));
  }

  lemma PackBytes(bits: nat)
    requires 1 <= bits <= 32
    ensures Listing(PackCode(bits)) == Some(PackCode(bits))
    ensures forall st | CanPack(bits, st) :: Packs(Listing(PackCode(bits)).value, bits, st)
  {
    hide Listing, PackCode, CanPack, Packs;
    PackEncodable(bits);
    ListingMeans(PackCode(bits));
    forall st | CanPack(bits, st)
      ensures Packs(PackCode(bits), bits, st)
    {
      PackRuns(bits, st);
    }
  }

  // ------------------------------------------------------------ encode

  lemma {:induction false} StepsOfEncode(mode: Mode, n: nat)
    requires n <= POSITIONS
    ensures AllEncodable(EncodeSteps(mode, n))
  {
    hide AllEncodable, EncodeAt;
    if n == 0 {
      NothingToEncode();
    } else {
      StepsOfEncode(mode, n - 1);
      StepOfEncode(mode, n - 1);
      JoinEncodable(EncodeSteps(mode, n - 1), EncodeAt(mode, n - 1));
    }
  }

  lemma StepOfEncode(mode: Mode, v: nat)
    requires v < POSITIONS
    ensures AllEncodable(EncodeAt(mode, v))
  {
  }

  lemma EncodeBytes(mode: Mode)
    ensures Listing(EncodeCode(mode)) == Some(EncodeCode(mode))
    ensures forall st | CanEncode(mode, st) :: Encodes(Listing(EncodeCode(mode)).value, mode, st)
  {
    hide Listing, EncodeSteps, CanEncode, Encodes;
    StepsOfEncode(mode, POSITIONS);
    JoinEncodable([VLoad(BASEREG, Mem(Rdx, 0))], EncodeSteps(mode, POSITIONS));
    ListingMeans(EncodeCode(mode));
    hide EncodeCode;
    forall st | CanEncode(mode, st)
      ensures Encodes(EncodeCode(mode), mode, st)
    {
      EncodeRuns(mode, st);
    }
  }

  // ------------------------------------------------------------ FastLanes

  lemma PairsEncodable(bits: nat, h: nat, start: nat)
    requires 1 <= bits <= 32 && h < 2 && start <= POSITIONS
    ensures AllEncodable(Flat(LoadLos(bits, h, start))) && AllEncodable(Flat(LoadHis(bits, h, start)))
  {
    hide FirstWord, WordCount, AllEncodable;
    FirstWordSmall(bits, start);
    FlatEncodable(LoadLos(bits, h, start));
    FlatEncodable(LoadHis(bits, h, start));
  }

  lemma FlsGroupEncodable(bits: nat, h: nat, start: nat)
    requires 1 <= bits <= 32 && h < 2 && start <= POSITIONS
    ensures AllEncodable(FlsGroupCode(bits, h, start))
  {
    hide AllEncodable, Flat, ExtractCode, Stores, ResultReg;
    var los, his := Flat(LoadLos(bits, h, start)), Flat(LoadHis(bits, h, start));
    var extract, adds := ExtractCode(bits, start), Flat(Adds(bits, start, 1));
    var stores := Stores(Mem(Rsi, 64 * h), 128, start, TempRegs(1));
    PairsEncodable(bits, h, start);
    ExtractEncodable(bits, start);
    FlatEncodable(Adds(bits, start, 1));
    StoresEncodable(Mem(Rsi, 64 * h), 128, start, TempRegs(1));
    JoinEncodable(los, his);
    JoinEncodable(los + his, extract);
    JoinEncodable(los + his + extract, adds);
    JoinEncodable(los + his + extract + adds, stores);
  }

  lemma {:induction false} FlsGroupsEncodable(bits: nat, h: nat, n: nat)
    requires 1 <= bits <= 32 && h < 2 && GROUP * n <= POSITIONS
    ensures AllEncodable(FlsGroups(bits, h, n))
  {
    hide AllEncodable, FlsGroupCode;
    if n == 0 {
      NothingToEncode();
    } else {
      FlsGroupsEncodable(bits, h, n - 1);
      FlsGroupEncodable(bits, h, GROUP * (n - 1));
      JoinEncodable(FlsGroups(bits, h, n - 1), FlsGroupCode(bits, h, GROUP * (n - 1)));
    }
  }

  lemma FlsPrologueEncodable(bits: nat)
    ensures AllEncodable(FlsPrologue(bits))
  {
  }

  lemma FlsEncodable(bits: nat)
    requires bits <= 32
    ensures AllEncodable(FlsCode(bits))
  {
    hide AllEncodable, FlsGroups, FlsPrologue, Stores;
    FlsPrologueEncodable(bits);
    if bits == 0 {
      var stores := Stores(Mem(Rsi, 0), 64, 0, Fill(2 * FLS_POSITIONS, BASEREG));
      StoresEncodable(Mem(Rsi, 0), 64, 0, Fill(2 * FLS_POSITIONS, BASEREG));
      JoinEncodable(FlsPrologue(bits), stores);
    } else {
      var first, second := FlsGroups(bits, 0, FLS_POSITIONS / GROUP), FlsGroups(bits, 1, FLS_POSITIONS / GROUP);
      FlsGroupsEncodable(bits, 0, FLS_POSITIONS / GROUP);
      FlsGroupsEncodable(bits, 1, FLS_POSITIONS / GROUP);
      JoinEncodable(first, second);
      JoinEncodable(FlsPrologue(bits), first + second);
    }
  }

  lemma FlsBytes(bits: nat)
    requires bits <= 32
    ensures Listing(FlsCode(bits)) == Some(FlsCode(bits))
    ensures forall st | CanUnffor(bits, st) :: Unffors(Listing(FlsCode(bits)).value, bits, st)
  {
    hide Listing, FlsCode, CanUnffor, Unffors;
    FlsEncodable(bits);
    ListingMeans(FlsCode(bits));
    forall st | CanUnffor(bits, st)
      ensures Unffors(FlsCode(bits), bits, st)
    {
      UnfforRuns(bits, st);
    }
  }
}
