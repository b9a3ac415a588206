/** One group of eight values taken out of the packed words, phase by phase: the part the libknc and
    the FastLanes unpack kernels share. */
module Extraction {
  import opened Arithmetic
  import opened Words
  import opened Options
  import opened Machine
  import opened Layout

  /** Values processed together, and the registers `zmm0` upward that hold their packed words. */
  const GROUP: nat := 8
  const WORD_REGS: nat := 10
  const MASKREG: Zmm := 30

  function Temp(p: nat, half: nat): Zmm
    requires p < GROUP && half < 2
  {
    WORD_REGS + 2 * p + half
  }

  function FirstWord(bits: nat, start: nat): nat { Place(bits, start).0 }

  function LastWord(bits: nat, start: nat): nat
    requires bits >= 1
  {
    (bits * (start + GROUP - 1) + bits - 1) / 32
  }

  /** A group of eight values never touches more than nine words, at any width. */
  function WordCount(bits: nat, start: nat): (n: nat)
    requires 1 <= bits <= 32
    ensures 1 <= n <= 9 && n < WORD_REGS
  {
    assert bits * (start + GROUP - 1) == bits * start + 7 * bits;
    LastWord(bits, start) - FirstWord(bits, start) + 1
  }

  /** Where value `p` of the group starting at `start` sits. */
  function PlaceAt(bits: nat, start: nat, p: nat): (r: (nat, nat))
    ensures r.1 < 32
  {
    Place(bits, start + p)
  }

  predicate Straddles(bits: nat, start: nat, p: nat) { PlaceAt(bits, start, p).1 + bits > 32 }

  /** Every word a value of the group reads is among the words loaded for it. */
  lemma WordInGroup(bits: nat, start: nat, p: nat)
    requires 1 <= bits <= 32 && p < GROUP
    ensures var w := PlaceAt(bits, start, p).0;
      FirstWord(bits, start) <= w && (if Straddles(bits, start, p) then w + 1 else w) <= LastWord(bits, start)
  {
    hide Place;
    var x, y, z := bits * start, bits * (start + p), bits * (start + GROUP - 1);
    MulMonotone(start, start + p, bits);
    MulMonotone(start + p, start + GROUP - 1, bits);
    PlaceParts(bits, start);
    PlaceParts(bits, start + p);
    WordsBetween(x, y, z, bits);
  }

  lemma PlaceParts(bits: nat, v: nat)
    ensures Place(bits, v) == (bits * v / 32, bits * v % 32)
  {
  }

  lemma WordsBetween(x: nat, y: nat, z: nat, bits: nat)
    requires x <= y <= z && bits >= 1
    ensures x / 32 <= y / 32 <= (z + bits - 1) / 32
    ensures y % 32 + bits > 32 ==> y / 32 + 1 <= (z + bits - 1) / 32
  {
  }

  function WordReg(bits: nat, start: nat, p: nat, next: nat): (r: Zmm)
    requires 1 <= bits <= 32 && p < GROUP && (next == 0 || (next == 1 && Straddles(bits, start, p)))
    ensures r < WordCount(bits, start) && FirstWord(bits, start) + r == PlaceAt(bits, start, p).0 + next
  {
    WordInGroup(bits, start, p);
    PlaceAt(bits, start, p).0 + next - FirstWord(bits, start)
  }

  /** Where a finished value ends up: its own temporary, except at 32 bits, where the word register
      already holds it. */
  function ResultReg(bits: nat, start: nat, p: nat): Zmm
    requires 1 <= bits <= 32 && p < GROUP
  {
    if bits == 32 then WordReg(bits, start, p, 0) else Temp(p, 0)
  }

  function LowAt(bits: nat, start: nat, p: nat): Option<Insn>
    requires 1 <= bits <= 32 && p < GROUP
  {
    var s := PlaceAt(bits, start, p).1;
    if s != 0 then Some(ShiftRight(Temp(p, 0), WordReg(bits, start, p, 0), s)) else None
  }

  function HighAt(bits: nat, start: nat, p: nat): Option<Insn>
    requires 1 <= bits <= 32 && p < GROUP
  {
    var s := PlaceAt(bits, start, p).1;
    if s + bits > 32 then Some(ShiftLeft(Temp(p, 1), WordReg(bits, start, p, 1), 32 - s)) else None
  }

  function MergeAt(bits: nat, start: nat, p: nat): Option<Insn>
    requires 1 <= bits <= 32 && p < GROUP
  {
    if Straddles(bits, start, p) then Some(OrD(Temp(p, 0), Temp(p, 0), Temp(p, 1))) else None
  }

  function MaskAt(bits: nat, start: nat, p: nat): Option<Insn>
    requires 1 <= bits <= 32 && p < GROUP
  {
    var s := PlaceAt(bits, start, p).1;
    if s + bits != 32
    then Some(AndD(Temp(p, 0), if s == 0 then WordReg(bits, start, p, 0) else Temp(p, 0), MASKREG))
    else None
  }

  function Lows(bits: nat, start: nat): (r: seq<Option<Insn>>)
    requires 1 <= bits <= 32
    ensures |r| == GROUP && forall p | 0 <= p < GROUP :: r[p] == LowAt(bits, start, p)
  {
    seq(GROUP, p requires 0 <= p < GROUP => LowAt(bits, start, p))
  }

  function Highs(bits: nat, start: nat): (r: seq<Option<Insn>>)
    requires 1 <= bits <= 32
    ensures |r| == GROUP && forall p | 0 <= p < GROUP :: r[p] == HighAt(bits, start, p)
  {
    seq(GROUP, p requires 0 <= p < GROUP => HighAt(bits, start, p))
  }

  function Merges(bits: nat, start: nat): (r: seq<Option<Insn>>)
    requires 1 <= bits <= 32
    ensures |r| == GROUP && forall p | 0 <= p < GROUP :: r[p] == MergeAt(bits, start, p)
  {
    seq(GROUP, p requires 0 <= p < GROUP => MergeAt(bits, start, p))
  }

  function Masks(bits: nat, start: nat): (r: seq<Option<Insn>>)
    requires 1 <= bits <= 32
    ensures |r| == GROUP && forall p | 0 <= p < GROUP :: r[p] == MaskAt(bits, start, p)
  {
    seq(GROUP, p requires 0 <= p < GROUP => MaskAt(bits, start, p))
  }

  function ExtractCode(bits: nat, start: nat): seq<Insn>
    requires 1 <= bits <= 32
  {
    Flat(Lows(bits, start)) + Flat(Highs(bits, start)) + Flat(Merges(bits, start)) + Flat(Masks(bits, start))
  }

  ghost predicate WordsLoaded(ws: seq<Vec>, bits: nat, start: nat, zmm: Regs)
    requires 1 <= bits <= 32
  {
    && FirstWord(bits, start) + WordCount(bits, start) <= |ws|
    && (forall r: Zmm | r < WordCount(bits, start) :: zmm[r] == ws[FirstWord(bits, start) + r])
    && (bits < 32 ==> zmm[MASKREG] == Splat(Mask(bits)))
  }

  /** Only the value temporaries differ. */
  ghost predicate TempsOnly(a: Regs, b: Regs) {
    forall r: Zmm | r < WORD_REGS || r >= WORD_REGS + 2 * GROUP :: a[r] == b[r]
  }


  /** The shifted low part of value `p`, its shifted high part, and the two merged. */
  ghost function LowPart(ws: seq<Vec>, bits: nat, start: nat, p: nat): Vec
    requires PlaceAt(bits, start, p).0 < |ws|
  {
    VSrl(ws[PlaceAt(bits, start, p).0], PlaceAt(bits, start, p).1)
  }

  ghost function HighPart(ws: seq<Vec>, bits: nat, start: nat, p: nat): Vec
    requires PlaceAt(bits, start, p).0 + 1 < |ws|
  {
    VSll(ws[PlaceAt(bits, start, p).0 + 1], 32 - PlaceAt(bits, start, p).1)
  }

  ghost predicate InWords(ws: seq<Vec>, bits: nat, start: nat, p: nat) {
    PlaceAt(bits, start, p).0 + (if Straddles(bits, start, p) then 1 else 0) < |ws|
  }

  ghost predicate ShiftedAt(ws: seq<Vec>, bits: nat, start: nat, p: nat, zmm: Regs)
    requires p < GROUP
  {
    && InWords(ws, bits, start, p)
    && (PlaceAt(bits, start, p).1 != 0 ==> zmm[Temp(p, 0)] == LowPart(ws, bits, start, p))
    && (Straddles(bits, start, p) ==> zmm[Temp(p, 1)] == HighPart(ws, bits, start, p))
  }

  ghost predicate MergedAt(ws: seq<Vec>, bits: nat, start: nat, p: nat, zmm: Regs)
    requires p < GROUP
  {
    && InWords(ws, bits, start, p)
    && (PlaceAt(bits, start, p).1 != 0 ==>
          zmm[Temp(p, 0)] == if Straddles(bits, start, p)
                             then VOr(LowPart(ws, bits, start, p), HighPart(ws, bits, start, p))
                             else LowPart(ws, bits, start, p))
  }

  ghost predicate ExtractedAt(ws: seq<Vec>, bits: nat, start: nat, p: nat, zmm: Regs)
    requires p < GROUP
  {
    Holds(ws, bits, start + p) && zmm[ResultReg(bits, start, p)] == FieldVec(ws, bits, start + p)
  }

  /** Slots that write temporaries alone. */
  lemma TempSlots(slots: seq<Option<Insn>>, st: State, zmm: Regs)
    requires Parallel(slots, st) && SlotsDone(slots, st, zmm)
    requires forall p | 0 <= p < |slots| && slots[p].Some? :: WORD_REGS <= slots[p].value.dst < WORD_REGS + 2 * GROUP
    ensures TempsOnly(st.zmm, zmm)
  {
    hide Parallel;
  }

  lemma LowsParallel(bits: nat, start: nat, st: State)
    requires 1 <= bits <= 32
    ensures Parallel(Lows(bits, start), st)
  {
    hide PlaceAt, WordReg, WordCount, FirstWord;
    var lows := Lows(bits, start);
    assert forall p | 0 <= p < GROUP :: lows[p] == LowAt(bits, start, p);
  }

  lemma LowDone(ws: seq<Vec>, bits: nat, start: nat, st: State, zmm: Regs, p: nat)
    requires 1 <= bits <= 32 && WordsLoaded(ws, bits, start, st.zmm) && p < GROUP && PlaceAt(bits, start, p).1 != 0
    requires Parallel(Lows(bits, start), st) && SlotsDone(Lows(bits, start), st, zmm)
    ensures PlaceAt(bits, start, p).0 < |ws| && zmm[Temp(p, 0)] == LowPart(ws, bits, start, p)
  {
    hide VSrl, PlaceAt, FirstWord, WordCount, WordReg, Parallel;
    assert Lows(bits, start)[p] == LowAt(bits, start, p);
  }

  lemma RunLows(ws: seq<Vec>, bits: nat, start: nat, st: State) returns (e: State)
    requires 1 <= bits <= 32 && WordsLoaded(ws, bits, start, st.zmm)
    ensures Run(Flat(Lows(bits, start)), st) == Some(e)
    ensures e == st.(zmm := e.zmm) && TempsOnly(st.zmm, e.zmm)
    ensures forall p: nat | p < GROUP && PlaceAt(bits, start, p).1 != 0 ::
              PlaceAt(bits, start, p).0 < |ws| && e.zmm[Temp(p, 0)] == LowPart(ws, bits, start, p)
  {
    hide VSrl, PlaceAt, FirstWord, WordCount, WordReg, Parallel, SlotsDone, LowPart, WordsLoaded;
    var lows := Lows(bits, start);
    LowsParallel(bits, start, st);
    e := RunSlots(lows, st);
    assert forall p | 0 <= p < GROUP :: lows[p] == LowAt(bits, start, p);
    TempSlots(lows, st, e.zmm);
    forall p: nat | p < GROUP && PlaceAt(bits, start, p).1 != 0
      ensures PlaceAt(bits, start, p).0 < |ws| && e.zmm[Temp(p, 0)] == LowPart(ws, bits, start, p)
    {
      LowDone(ws, bits, start, st, e.zmm, p);
    }
  }

  lemma HighsParallel(bits: nat, start: nat, st: State)
    requires 1 <= bits <= 32
    ensures Parallel(Highs(bits, start), st)
  {
    hide PlaceAt, WordReg, WordCount, FirstWord;
    var highs := Highs(bits, start);
    assert forall p | 0 <= p < GROUP :: highs[p] == HighAt(bits, start, p);
  }

  lemma HighsElsewhere(bits: nat, start: nat, st: State, zmm: Regs)
    requires 1 <= bits <= 32 && Parallel(Highs(bits, start), st) && SlotsDone(Highs(bits, start), st, zmm)
    ensures TempsOnly(st.zmm, zmm) && forall p: nat | p < GROUP :: zmm[Temp(p, 0)] == st.zmm[Temp(p, 0)]
  {
    hide PlaceAt, WordReg, WordCount, FirstWord, Eval, Ok;
  }

  lemma HighDone(ws: seq<Vec>, bits: nat, start: nat, st: State, zmm: Regs, p: nat)
    requires 1 <= bits <= 32 && WordsLoaded(ws, bits, start, st.zmm) && p < GROUP && Straddles(bits, start, p)
    requires Parallel(Highs(bits, start), st) && SlotsDone(Highs(bits, start), st, zmm)
    ensures PlaceAt(bits, start, p).0 + 1 < |ws| && zmm[Temp(p, 1)] == HighPart(ws, bits, start, p)
  {
    hide VSll, PlaceAt, FirstWord, WordCount, WordReg, Parallel;
    assert Highs(bits, start)[p] == HighAt(bits, start, p);
  }

  lemma RunHighs(ws: seq<Vec>, bits: nat, start: nat, st: State) returns (e: State)
    requires 1 <= bits <= 32 && WordsLoaded(ws, bits, start, st.zmm)
    ensures Run(Flat(Highs(bits, start)), st) == Some(e)
    ensures e == st.(zmm := e.zmm) && TempsOnly(st.zmm, e.zmm)
    ensures forall p: nat | p < GROUP :: e.zmm[Temp(p, 0)] == st.zmm[Temp(p, 0)]
    ensures forall p: nat | p < GROUP && Straddles(bits, start, p) ::
              PlaceAt(bits, start, p).0 + 1 < |ws| && e.zmm[Temp(p, 1)] == HighPart(ws, bits, start, p)
  {
    hide VSll, PlaceAt, FirstWord, WordCount, WordReg, Parallel, SlotsDone, HighAt, HighPart;
    HighsParallel(bits, start, st);
    e := RunSlots(Highs(bits, start), st);
    HighsElsewhere(bits, start, st, e.zmm);
    forall p: nat | p < GROUP && Straddles(bits, start, p)
      ensures PlaceAt(bits, start, p).0 + 1 < |ws| && e.zmm[Temp(p, 1)] == HighPart(ws, bits, start, p)
    {
      HighDone(ws, bits, start, st, e.zmm, p);
    }
  }

  lemma MergesParallel(bits: nat, start: nat, st: State)
    requires 1 <= bits <= 32
    ensures Parallel(Merges(bits, start), st)
  {
    hide PlaceAt;
    var merges := Merges(bits, start);
    assert forall p | 0 <= p < GROUP :: merges[p] == MergeAt(bits, start, p);
  }

  lemma MergeDone(ws: seq<Vec>, bits: nat, start: nat, st: State, zmm: Regs, p: nat)
    requires 1 <= bits <= 32 && p < GROUP && ShiftedAt(ws, bits, start, p, st.zmm)
    requires Parallel(Merges(bits, start), st) && SlotsDone(Merges(bits, start), st, zmm)
    ensures MergedAt(ws, bits, start, p, zmm)
  {
    hide LowPart, HighPart, VOr, PlaceAt, Parallel;
    var merges := Merges(bits, start);
    assert forall q | 0 <= q < GROUP :: merges[q] == MergeAt(bits, start, q);
    assert merges[p].Some? == Straddles(bits, start, p);
  }

  lemma RunMerges(ws: seq<Vec>, bits: nat, start: nat, st: State) returns (e: State)
    requires 1 <= bits <= 32
    requires forall p: nat | p < GROUP :: ShiftedAt(ws, bits, start, p, st.zmm)
    ensures Run(Flat(Merges(bits, start)), st) == Some(e)
    ensures e == st.(zmm := e.zmm) && TempsOnly(st.zmm, e.zmm)
    ensures forall p: nat | p < GROUP :: MergedAt(ws, bits, start, p, e.zmm)
  {
    hide PlaceAt, Parallel, SlotsDone, ShiftedAt, MergedAt;
    var merges := Merges(bits, start);
    MergesParallel(bits, start, st);
    e := RunSlots(merges, st);
    assert forall p | 0 <= p < GROUP :: merges[p] == MergeAt(bits, start, p);
    TempSlots(merges, st, e.zmm);
    forall p: nat | p < GROUP ensures MergedAt(ws, bits, start, p, e.zmm) {
      assert ShiftedAt(ws, bits, start, p, st.zmm);
      MergeDone(ws, bits, start, st, e.zmm, p);
    }
  }

  lemma MasksParallel(bits: nat, start: nat, st: State)
    requires 1 <= bits <= 32
    ensures Parallel(Masks(bits, start), st)
  {
    hide PlaceAt, WordReg, WordCount, FirstWord;
    var masks := Masks(bits, start);
    assert forall p | 0 <= p < GROUP :: masks[p] == MaskAt(bits, start, p);
  }

  lemma MaskDone(ws: seq<Vec>, bits: nat, start: nat, st: State, zmm: Regs, p: nat)
    requires p < GROUP && Holds(ws, bits, start + GROUP - 1) && WordsLoaded(ws, bits, start, st.zmm)
    requires MergedAt(ws, bits, start, p, st.zmm) && TempsOnly(st.zmm, zmm)
    requires Parallel(Masks(bits, start), st) && SlotsDone(Masks(bits, start), st, zmm)
    ensures ExtractedAt(ws, bits, start, p, zmm)
  {
    hide VOr, VAnd, FieldVec, Mask, Splat, PlaceAt, FirstWord, WordCount, WordReg, LowPart, HighPart, Parallel, Holds;
    hide MergedAt, WordsLoaded, ExtractedAt;
    assert 1 <= bits <= 32 by { HoldsWidth(ws, bits, start + GROUP - 1); }
    var masks := Masks(bits, start);
    assert forall q | 0 <= q < GROUP :: masks[q] == MaskAt(bits, start, q);
    assert masks[p].None? ==> zmm[Temp(p, 0)] == st.zmm[Temp(p, 0)];
    MaskedValue(ws, bits, start, p, st.zmm, zmm);
  }

  lemma HoldsWidth(ws: seq<Vec>, bits: nat, v: nat)
    requires Holds(ws, bits, v)
    ensures 1 <= bits <= 32
  {
  }

  lemma RunMasks(ws: seq<Vec>, bits: nat, start: nat, st: State) returns (e: State)
    requires Holds(ws, bits, start + GROUP - 1) && WordsLoaded(ws, bits, start, st.zmm)
    requires forall p: nat | p < GROUP :: MergedAt(ws, bits, start, p, st.zmm)
    ensures Run(Flat(Masks(bits, start)), st) == Some(e)
    ensures e == st.(zmm := e.zmm) && TempsOnly(st.zmm, e.zmm)
    ensures forall p: nat | p < GROUP :: ExtractedAt(ws, bits, start, p, e.zmm)
  {
    hide PlaceAt, WordReg, WordsLoaded, MergedAt, ExtractedAt, Parallel, SlotsDone;
    var masks := Masks(bits, start);
    MasksParallel(bits, start, st);
    e := RunSlots(masks, st);
    assert forall p | 0 <= p < GROUP :: masks[p] == MaskAt(bits, start, p);
    TempSlots(masks, st, e.zmm);
    forall p: nat | p < GROUP ensures ExtractedAt(ws, bits, start, p, e.zmm) {
      assert MergedAt(ws, bits, start, p, st.zmm);
      MaskDone(ws, bits, start, st, e.zmm, p);
    }
  }

  lemma MaskedValue(ws: seq<Vec>, bits: nat, start: nat, p: nat, before: Regs, after: Regs)
    requires p < GROUP && Holds(ws, bits, start + GROUP - 1) && WordsLoaded(ws, bits, start, before)
    requires MergedAt(ws, bits, start, p, before) && TempsOnly(before, after)
    requires after[Temp(p, 0)] == match MaskAt(bits, start, p)
                                  case Some(i) => VAnd(before[i.a], before[MASKREG])
                                  case None => before[Temp(p, 0)]
    ensures ExtractedAt(ws, bits, start, p, after)
  {
    hide VOr, VAnd, FieldVec, Mask, Splat, PlaceAt, FirstWord, WordCount, WordReg, LowPart, HighPart;
    FieldAtCases(ws, bits, start, p);
    assert before[WordReg(bits, start, p, 0)] == ws[PlaceAt(bits, start, p).0];
  }

  lemma FieldAtCases(ws: seq<Vec>, bits: nat, start: nat, p: nat)
    requires Holds(ws, bits, start + GROUP - 1) && p < GROUP
    ensures Holds(ws, bits, start + p) && InWords(ws, bits, start, p)
    ensures bits == 32 ==> PlaceAt(bits, start, p).1 == 0
    ensures var (w, s) := PlaceAt(bits, start, p);
      FieldVec(ws, bits, start + p) ==
        if s == 0 then if bits == 32 then ws[w] else VAnd(ws[w], Splat(Mask(bits)))
        else if s + bits == 32 then LowPart(ws, bits, start, p)
        else if s + bits < 32 then VAnd(LowPart(ws, bits, start, p), Splat(Mask(bits)))
        else VAnd(VOr(LowPart(ws, bits, start, p), HighPart(ws, bits, start, p)), Splat(Mask(bits)))
  {
    hide VSrl, VSll, VOr, VAnd, FieldVec, Mask, Splat, Holds, Place;
    EarlierHolds(ws, bits, start + p, start + GROUP - 1);
    PlaceFits(ws, bits, start + p);
    FieldVecCases(ws, bits, start + p);
  }

  lemma EarlierHolds(ws: seq<Vec>, bits: nat, v: nat, v': nat)
    requires Holds(ws, bits, v') && v <= v'
    ensures Holds(ws, bits, v)
  {
    MulMonotone(v, v', bits);
  }

  lemma PlaceFits(ws: seq<Vec>, bits: nat, v: nat)
    requires Holds(ws, bits, v)
    ensures 1 <= bits <= 32 && (bits == 32 ==> Place(bits, v).1 == 0)
    ensures var (w, s) := Place(bits, v);
      s < 32 && w < |ws| && (s + bits > 32 ==> w + 1 < |ws|)
  {
  }

  /** Running a group's extraction leaves every value of the group in its result register; the packed
      words, the mask and the registers from 26 up are untouched. */
  lemma RunExtract(ws: seq<Vec>, bits: nat, start: nat, st: State) returns (e: State)
    requires Holds(ws, bits, start + GROUP - 1) && WordsLoaded(ws, bits, start, st.zmm)
    ensures Run(ExtractCode(bits, start), st) == Some(e)
    ensures e == st.(zmm := e.zmm) && TempsOnly(st.zmm, e.zmm)
    ensures forall p: nat | p < GROUP :: ExtractedAt(ws, bits, start, p, e.zmm)
  {
    hide LowPart, HighPart, ExtractedAt, MergedAt, PlaceAt, FirstWord, WordCount;
    var lows, highs, merges, masks := Lows(bits, start), Highs(bits, start), Merges(bits, start), Masks(bits, start);
    var e1 := RunLows(ws, bits, start, st);
    var e2 := RunHighs(ws, bits, start, e1);
    forall p: nat | p < GROUP ensures ShiftedAt(ws, bits, start, p, e2.zmm) {
      FieldAtCases(ws, bits, start, p);
    }
    var e3 := RunMerges(ws, bits, start, e2);
    e := RunMasks(ws, bits, start, e3);
    RunAppend(Flat(lows), Flat(highs), st);
    RunAppend(Flat(lows) + Flat(highs), Flat(merges), st);
    RunAppend(Flat(lows) + Flat(highs) + Flat(merges), Flat(masks), st);
  }
}
