/** phi-rpc's codec: what a frame body decodes to, the frame of a message, and the laws between them. */
module Rpc {
  import opened Options
  import opened Utf8
  import opened Wire
  import opened Messages

  const MAX_FRAME: nat := 0x10_0000

  datatype DecodeError = Length(n: nat) | Tag(tag: byte) | Malformed
  datatype Result<+T> = Ok(value: T) | Err(error: DecodeError)

  /** Every decoded value fits its layout. */
  lemma DecodedFits(sc: Schema, b: seq<byte>)
    requires Closed(sc) || sc == Tail
    ensures Dec(sc, b).Got? ==> Fits(sc, Dec(sc, b).value)
  {
    hide Enc, Norm;
    if sc != Tail && Dec(sc, b).Got? {
      DecodeIsCanonical(sc, b);
    }
  }

  lemma LayoutsClosed(tag: byte)
    requires Layout(tag).Some?
    ensures Closed(Layout(tag).value) || Layout(tag).value == Tail
    ensures Layout(tag).value == Tail <==> tag in {2, 4, 5, 8, 11}
  {
    ClosedParts();
  }

  lemma ClosedParts()
    ensures Closed(CPU) && Closed(DEV) && Closed(PROC) && Closed(ENTRY) && Closed(SIX) && Closed(LOADS) && Closed(CLOCKS)
    ensures Closed(EXEC) && Closed(STAT) && Closed(PUT) && Closed(STAT_DISKS)
  {
    assert Closed(TWO32) && Closed(TWO64) && Closed(CPU) && Closed(DEV) && Closed(ENTRY) && Closed(CLOCKS) && Closed(PUT);
    assert Closed(PROC4) && Closed(PROC3) && Closed(PROC2) && Closed(PROC1) && Closed(PROC_NUMBERS) && Closed(PROC);
    assert Closed(THREE) && Closed(FOUR) && Closed(FIVE) && Closed(SIX);
    assert Closed(LOADS3) && Closed(LOADS2) && Closed(LOADS);
    assert Closed(STAT_PROCS) && Closed(STAT_NETS) && Closed(STAT_DISKS) && Closed(STAT_CLOCKS) && Closed(STAT_TEMPS);
    assert Closed(STAT_LOADS) && Closed(STAT_MEM) && Closed(STAT_CPUS) && Closed(STAT) && Closed(EXEC_ENV) && Closed(EXEC);
  }

  /** What a body means: the message its tag's layout reads off it; bytes after the last field are ignored. */
  function DecodeBody(tag: byte, body: seq<byte>): Result<Msg> {
    hide Dec, Fits, OfMsg, Closed;
    var sc := Layout(tag);
    if sc.None? then Err(Tag(tag))
    else
      LayoutsClosed(tag);
      DecodedFits(sc.value, body);
      match Dec(sc.value, body)
      case Short => Err(Malformed)
      case Got(v, _) => Ok(OfMsg(tag, v))
  }

  function Body(m: Msg): seq<byte> { Enc(LayoutOf(m), MsgVal(m)) }

  /** The frame of a message; the length field is a u32. */
  function Frame(m: Msg): seq<byte> { LittleEndian(1 + |Body(m)|, 4) + [TagOf(m)] + Body(m) }

  /** A message whose body is fields, not raw bytes. */
  predicate Structured(m: Msg) { !(m.Stdin? || m.Stdout? || m.Stderr? || m.PutData? || m.GetData?) }

  lemma StructuredIffClosed(m: Msg)
    ensures Structured(m) ==> Closed(LayoutOf(m))
    ensures !Structured(m) ==> LayoutOf(m) == Tail && Body(m) == m.data && Clipped(m) == m
  {
    hide Closed;
    ClosedParts();
    ClosedLeaves();
    if !Structured(m) {
      DataIsBody(m);
    }
  }

  lemma ClosedLeaves()
    ensures Closed(Text) && Closed(U32) && Closed(U64) && Closed(Unit)
  {
  }

  lemma DataIsBody(m: Msg)
    requires !Structured(m)
    ensures LayoutOf(m) == Tail && Body(m) == m.data && Clipped(m) == m
  {
  }

  /** Decoding an encoded body gives the message clipped to the wire's limits; after a structured body any
      bytes may follow. */
  lemma BodyRoundTrip(m: Msg, extra: seq<byte>)
    requires Structured(m) || extra == []
    ensures DecodeBody(TagOf(m), Body(m) + extra) == Ok(Clipped(m))
  {
    hide Dec, Enc, Fits, Norm, Closed, Layout, LayoutOf, MsgVal, OfMsg, TagOf, ClipStr, Cut;
    StructuredIffClosed(m);
    TagLayout(m);
    if Structured(m) {
      RoundTrip(LayoutOf(m), MsgVal(m), extra);
    } else {
      TailRoundTrip(m);
      assert Body(m) + extra == Body(m);
    }
    ClipMsgVal(m);
    ClippedKind(m);
    ClippedDirectory(m);
    MsgBack(Clipped(m));
  }

  lemma TailRoundTrip(m: Msg)
    requires LayoutOf(m) == Tail
    ensures Dec(Tail, Body(m)) == Got(Norm(Tail, MsgVal(m)), [])
  {
  }

  lemma ClippedDirectory(m: Msg)
    ensures Clipped(m).Exec? ==> Clipped(m).cwd != Some([])
  {
  }

  /** A structured body cut short anywhere is malformed. */
  lemma PrefixIsMalformed(m: Msg, cut: nat)
    requires Structured(m) && cut < |Body(m)|
    ensures DecodeBody(TagOf(m), Body(m)[..cut]) == Err(Malformed)
  {
    hide Dec, Enc, Fits, Norm, Closed, Layout, LayoutOf, MsgVal, OfMsg, TagOf;
    StructuredIffClosed(m);
    TagLayout(m);
    ProperPrefixIsShort(LayoutOf(m), MsgVal(m), cut);
  }

  /** Two messages have the same frame only if they are the same to the receiver. */
  lemma FrameInjective(m: Msg, n: Msg)
    requires Frame(m) == Frame(n)
    ensures Clipped(m) == Clipped(n)
  {
    hide Enc, LayoutOf, MsgVal, TagOf, Clipped, DecodeBody;
    assert Frame(m)[5..] == Body(m) && Frame(n)[5..] == Body(n);
    assert Frame(m)[4] == TagOf(m) && Frame(n)[4] == TagOf(n);
    assert Body(m) + [] == Body(m) && Body(n) + [] == Body(n);
    BodyRoundTrip(m, []);
    BodyRoundTrip(n, []);
  }
}
