/** FastLanes' layout value by value: value `i` is in lane `i % 32` at position `i / 32`, and a lane's bits are one
    stream through the words `32 * w + lane`. */
module FlsLanes {
  import opened Arithmetic
  import opened Words
  import opened Machine
  import opened Layout
  import opened UnpackKernel
  import opened FlsKernel

  const LANES: nat := 32

  /** Bit `k` of a lane's stream. */
  function LaneBit(m: Memory, a: int, lane: nat, k: nat): bool
    requires Mapped(m, a + 4 * (LANES * (k / 32) + lane), 4)
  {
    WordAt(m, a + 4 * (LANES * (k / 32) + lane))[k % 32]
  }

  ghost predicate LaneMapped(m: Memory, a: int, bits: nat) { Mapped(m, a, 128 * bits) }

  lemma LaneWordMapped(m: Memory, a: int, bits: nat, lane: nat, k: nat)
    requires LaneMapped(m, a, bits) && lane < LANES && k < 32 * bits
    ensures Mapped(m, a + 4 * (LANES * (k / 32) + lane), 4)
  {
    assert k / 32 < bits;
  }

  /** The stored value `i`: `bits` bits of its lane's stream. */
  function LaneField(m: Memory, a: int, bits: nat, i: nat): (r: Word)
    requires bits <= 32 && LaneMapped(m, a, bits) && i < 1024
  {
    seq(32, j requires 0 <= j < 32 =>
      j < bits && (LanePlace(bits, i, j); LaneWordMapped(m, a, bits, i % LANES, bits * (i / LANES) + j);
                   LaneBit(m, a, i % LANES, bits * (i / LANES) + j)))
  }

  lemma LanePlace(bits: nat, i: nat, j: nat)
    requires i < 1024 && j < bits
    ensures bits * (i / LANES) + j < 32 * bits
  {
    MulMonotone(i / LANES + 1, LANES, bits);
  }

  lemma HalfBit(m: Memory, a: int, bits: nat, h: nat, l: nat, k: nat)
    requires LaneMapped(m, a, bits) && h < 2 && l < 16 && k < 32 * bits
    ensures Mapped(m, a + 4 * (LANES * (k / 32) + (16 * h + l)), 4)
    ensures StreamBit(HalfWords(m, a, bits, h), l, k) == LaneBit(m, a, 16 * h + l, k)
  {
    hide WordAt;
    LaneWordMapped(m, a, bits, 16 * h + l, k);
    var w := k / 32;
    assert w < bits && a + 128 * w + 64 * h + 4 * l == a + 4 * (LANES * w + (16 * h + l));
    assert HalfWords(m, a, bits, h)[w] == LoadVec(m, a + 128 * w + 64 * h);
  }

  lemma FieldIsLaneField(m: Memory, a: int, bits: nat, i: nat)
    requires 1 <= bits <= 32 && LaneMapped(m, a, bits) && i < 1024
    ensures var v, h, l := i / LANES, i % LANES / 16, i % LANES % 16;
      Holds(HalfWords(m, a, bits, h), bits, v) && Field(HalfWords(m, a, bits, h), bits, v, l) == LaneField(m, a, bits, i)
  {
    hide LaneBit, StreamBit;
    var v, h, l := i / LANES, i % LANES / 16, i % LANES % 16;
    var ws := HalfWords(m, a, bits, h);
    FlsHolds(ws, bits, v);
    assert 16 * h + l == i % LANES;
    var x, y := Field(ws, bits, v, l), LaneField(m, a, bits, i);
    forall j | 0 <= j < 32
      ensures x[j] == y[j]
    {
      if j < bits {
        LanePlace(bits, i, j);
        HalfBit(m, a, bits, h, l, bits * v + j);
      }
    }
  }

  /** Every output word is the base plus its value, or the base alone at width 0. */
  lemma LanesDecoded(m: Memory, e: Memory, a: int, out: int, bits: nat, base: Word, i: nat)
    requires bits <= 32 && LaneMapped(m, a, bits) && i < 1024 && FlsWritten(m, e, a, out, bits, base)
    ensures Mapped(e, out + 4 * i, 4)
    ensures WordAt(e, out + 4 * i) == if bits == 0 then base else Add(base, LaneField(m, a, bits, i))
  {
    hide WordAt, Add, LaneField, FieldVec;
    var v, h, l := i / LANES, i % LANES / 16, i % LANES % 16;
    var row := Row(out + 64 * h, 128, v);
    assert FlsRow(m, e, a, out, bits, base, v, h);
    assert row + 4 * l == out + 4 * i;
    assert WordAt(e, row + 4 * l) == LoadVec(e, row)[l];
    if bits > 0 {
      FieldIsLaneField(m, a, bits, i);
    }
  }
}
