/** The card agent's own reading end: the body checker, and the buffer that is filled from the device and cut
    into frames. Both are proved against the definitions phi-rpc is proved against. */
module AgentWire {
  import opened Options
  import opened Utf8
  import opened Blocks
  import opened Wire
  import opened Messages
  import opened Rpc
  import opened FrameDecoder

  const READ_CHUNK: nat := 65536
  const RXCAP: nat := 4 + MAX_FRAME + READ_CHUNK

  // ------------------------------------------------------------ the body checker

  /** A check that fails exactly when decoding does, and otherwise leaves the cursor where decoding would. */
  ghost predicate Skips(sc: Schema, s: seq<byte>, carry: bool, left: seq<byte>) {
    match Dec(sc, s)
    case Short => carry
    case Got(_, rest) => !carry && left == rest
  }

  lemma SkipsPair(a: Schema, b: Schema, s: seq<byte>)
    ensures Dec(a, s).Short? ==> Dec(Pair(a, b), s).Short?
    ensures Dec(a, s).Got? ==>
      var p := Dec(b, Dec(a, s).rest);
      (p.Short? ==> Dec(Pair(a, b), s).Short?) && (p.Got? ==> Dec(Pair(a, b), s).Got? && Dec(Pair(a, b), s).rest == p.rest)
  {
    hide Dec;
    DecPair(a, b, s);
  }

  /** What follows `n` items, when they are all there. */
  ghost function AfterItems(item: Schema, n: nat, s: seq<byte>): Option<seq<byte>> {
    match DecItems(item, n, s)
    case None => None
    case Some((_, rest)) => Some(rest)
  }

  lemma ItemsStep(item: Schema, n: nat, s: seq<byte>)
    ensures AfterItems(item, 0, s) == Some(s)
    ensures n > 0 && Dec(item, s).Short? ==> AfterItems(item, n, s) == None
    ensures n > 0 && Dec(item, s).Got? ==> AfterItems(item, n, s) == AfterItems(item, n - 1, Dec(item, s).rest)
  {
    hide Dec;
  }

  lemma SkipsList(item: Schema, s: seq<byte>)
    ensures |s| < 2 ==> Dec(List(item), s).Short?
    ensures |s| >= 2 ==>
      match AfterItems(item, FromLittleEndian(s[..2]), s[2..])
      case None => Dec(List(item), s).Short?
      case Some(rest) => Dec(List(item), s).Got? && Dec(List(item), s).rest == rest
  {
    hide FromLittleEndian;
  }

  /** rbx and r12 of `validate`: a cursor and the end of the body. */
  class Checker {
    const buf: seq<byte>
    var pos: nat

    constructor (body: seq<byte>)
      ensures buf == body && Valid() && Left() == body
    {
      buf := body;
      pos := 0;
    }

    ghost predicate Valid()
      reads this
    {
      pos <= |buf|
    }

    ghost function Left(): seq<byte>
      requires Valid()
      reads this
    {
      buf[pos..]
    }

    method Need(n: nat) returns (carry: bool)
      requires Valid()
      modifies this
      ensures Valid() && carry == (|old(Left())| < n)
      ensures !carry ==> Left() == old(Left())[n..]
    {
      if |buf| - pos < n {
        return true;
      }
      assert buf[pos + n..] == buf[pos..][n..];
      pos := pos + n;
      return false;
    }

    /** A block of numbers is checked by its size alone. */
    method Block(ghost sc: Schema, n: nat) returns (carry: bool)
      requires Valid() && Width(sc) == Some(n)
      modifies this
      ensures Valid() && Skips(sc, old(Left()), carry, Left())
    {
      NumbersDecode(sc, Left());
      carry := Need(n);
    }

    method Short() returns (carry: bool, n: nat)
      requires Valid()
      modifies this
      ensures Valid() && carry == (|old(Left())| < 2)
      ensures !carry ==> n == FromLittleEndian(old(Left())[..2]) && Left() == old(Left())[2..]
    {
      ghost var s := Left();
      n := 0;
      carry := Need(2);
      if !carry {
        assert buf[pos - 2..pos] == s[..2];
        n := FromLittleEndian(buf[pos - 2..pos]);
      }
    }

    method Str() returns (carry: bool)
      requires Valid()
      modifies this
      ensures Valid() && Skips(Text, old(Left()), carry, Left())
    {
      hide FromLittleEndian, Utf8.Valid;
      ghost var s := Left();
      var n;
      carry, n := Short();
      if carry {
        return true;
      }
      var at := pos;
      carry := Need(n);
      if carry {
        return true;
      }
      assert buf[at..at + n] == s[2..2 + n] && s[2..][n..] == s[2 + n..];
      var ok := Utf8Ok(buf[at..at + n]);
      return !ok;
    }

    method Devs() returns (carry: bool)
      requires Valid()
      modifies this
      ensures Valid() && Skips(List(DEV), old(Left()), carry, Left())
    {
      hide Dec, FromLittleEndian, AfterItems, Width;
      Widths();
      SkipsList(DEV, Left());
      var n;
      carry, n := Short();
      if carry {
        return true;
      }
      ghost var rest := AfterItems(DEV, n, Left());
      while n != 0
        invariant Valid() && rest == AfterItems(DEV, n, Left())
      {
        ItemsStep(DEV, n, Left());
        SkipsPair(Text, TWO64, Left());
        carry := Str();
        if carry {
          return true;
        }
        carry := Block(TWO64, 16);
        if carry {
          return true;
        }
        n := n - 1;
      }
      ItemsStep(DEV, 0, Left());
      return false;
    }

    /** A list of fixed-size items is checked by multiplying out its count. */
    method FixedList(ghost item: Schema, size: nat) returns (carry: bool)
      requires Valid() && Width(item) == Some(size)
      modifies this
      ensures Valid() && Skips(List(item), old(Left()), carry, Left())
    {
      hide Dec, FromLittleEndian, Width;
      SkipsList(item, Left());
      var n;
      carry, n := Short();
      if carry {
        return true;
      }
      NumberItemsDecode(item, n, Left());
      carry := Need(n * size);
    }

    method Words() returns (carry: bool)
      requires Valid()
      modifies this
      ensures Valid() && Skips(List(Text), old(Left()), carry, Left())
    {
      hide Dec, FromLittleEndian, AfterItems;
      SkipsList(Text, Left());
      var n;
      carry, n := Short();
      if carry {
        return true;
      }
      ghost var rest := AfterItems(Text, n, Left());
      while n != 0
        invariant Valid() && rest == AfterItems(Text, n, Left())
      {
        ItemsStep(Text, n, Left());
        carry := Str();
        if carry {
          return true;
        }
        n := n - 1;
      }
      ItemsStep(Text, 0, Left());
      return false;
    }

    method Entries() returns (carry: bool)
      requires Valid()
      modifies this
      ensures Valid() && Skips(List(ENTRY), old(Left()), carry, Left())
    {
      hide Dec, FromLittleEndian, AfterItems;
      SkipsList(ENTRY, Left());
      var n;
      carry, n := Short();
      if carry {
        return true;
      }
      ghost var rest := AfterItems(ENTRY, n, Left());
      while n != 0
        invariant Valid() && rest == AfterItems(ENTRY, n, Left())
      {
        ItemsStep(ENTRY, n, Left());
        SkipsPair(Text, Text, Left());
        carry := Str();
        if carry {
          return true;
        }
        carry := Str();
        if carry {
          return true;
        }
        n := n - 1;
      }
      ItemsStep(ENTRY, 0, Left());
      return false;
    }

    method Procs() returns (carry: bool)
      requires Valid()
      modifies this
      ensures Valid() && Skips(List(PROC), old(Left()), carry, Left())
    {
      hide Dec, FromLittleEndian, AfterItems, Width;
      Widths();
      SkipsList(PROC, Left());
      var n;
      carry, n := Short();
      if carry {
        return true;
      }
      ghost var rest := AfterItems(PROC, n, Left());
      while n != 0
        invariant Valid() && rest == AfterItems(PROC, n, Left())
      {
        ItemsStep(PROC, n, Left());
        SkipsPair(PROC_NUMBERS, Text, Left());
        carry := Block(PROC_NUMBERS, 26);
        if carry {
          return true;
        }
        carry := Str();
        if carry {
          return true;
        }
        n := n - 1;
      }
      ItemsStep(PROC, 0, Left());
      return false;
    }

    /** Memory, load and task counts are checked as one block. */
    method MemAndLoads(ghost after: Schema) returns (carry: bool)
      requires Valid()
      modifies this
      ensures Valid()
      ensures carry ==> Dec(Pair(SIX, Pair(LOADS, after)), old(Left())).Short?
      ensures !carry ==> Dec(SIX, old(Left())).Got? && Skips(LOADS, Dec(SIX, old(Left())).rest, false, Left())
    {
      hide Dec, Width;
      Widths();
      ghost var s := Left();
      SkipsPair(SIX, Pair(LOADS, after), s);
      NumbersDecode(SIX, s);
      if |s| >= 48 {
        SkipsPair(LOADS, after, s[48..]);
        NumbersDecode(LOADS, s[48..]);
      }
      carry := Need(48 + 6 + 8);
    }

    method Stat() returns (carry: bool)
      requires Valid()
      modifies this
      ensures Valid() && Skips(STAT, old(Left()), carry, Left())
    {
      hide Dec, FromLittleEndian, AfterItems, Width;
      Widths();
      SkipsPair(U64, STAT_CPUS, Left());
      carry := Block(U64, 8);
      if carry {
        return true;
      }
      SkipsPair(List(CPU), STAT_MEM, Left());
      carry := FixedList(CPU, 10);
      if carry {
        return true;
      }
      SkipsPair(SIX, STAT_LOADS, Left());
      ghost var s := Left();
      carry := MemAndLoads(STAT_TEMPS);
      if carry {
        return true;
      }
      SkipsPair(LOADS, STAT_TEMPS, Dec(SIX, s).rest);
      SkipsPair(List(U16), STAT_CLOCKS, Left());
      carry := FixedList(U16, 2);
      if carry {
        return true;
      }
      SkipsPair(CLOCKS, STAT_DISKS, Left());
      carry := Block(CLOCKS, 2 + 4 + 4);
      if carry {
        return true;
      }
      SkipsPair(List(DEV), STAT_NETS, Left());
      carry := Devs();
      if carry {
        return true;
      }
      SkipsPair(List(DEV), STAT_PROCS, Left());
      carry := Devs();
      if carry {
        return true;
      }
      SkipsPair(List(PROC), TWO32, Left());
      carry := Procs();
      if carry {
        return true;
      }
      carry := Block(TWO32, 8);
    }

    method Command() returns (carry: bool)
      requires Valid()
      modifies this
      ensures Valid() && Skips(EXEC, old(Left()), carry, Left())
    {
      hide Dec, FromLittleEndian, AfterItems;
      SkipsPair(List(Text), EXEC_ENV, Left());
      carry := Words();
      if carry {
        return true;
      }
      SkipsPair(List(ENTRY), Text, Left());
      carry := Entries();
      if carry {
        return true;
      }
      carry := Str();
    }

    method Put() returns (carry: bool)
      requires Valid()
      modifies this
      ensures Valid() && Skips(PUT, old(Left()), carry, Left())
    {
      hide Dec, FromLittleEndian, Width;
      Widths();
      SkipsPair(Text, U32, Left());
      carry := Str();
      if carry {
        return true;
      }
      carry := Block(U32, 4);
    }
  }

  /** `validate`'s answer: 0 when phi-rpc decodes the body, 1 for a tag it does not know, 2 when malformed. */
  function Code(r: Result<Msg>): (n: nat) {
    match r
    case Ok(_) => 0
    case Err(Tag(_)) => 1
    case Err(_) => 2
  }

  lemma CodeFromSkips(tag: byte, body: seq<byte>, carry: bool, left: seq<byte>)
    requires Layout(tag).Some? && Skips(Layout(tag).value, body, carry, left)
    ensures Code(DecodeBody(tag, body)) == if carry then 2 else 0
  {
    hide Dec, OfMsg, Fits, Layout;
  }

  lemma AlwaysDecodes(tag: byte, body: seq<byte>)
    requires Layout(tag) == Some(Tail) || Layout(tag) == Some(Unit)
    ensures Code(DecodeBody(tag, body)) == 0
  {
    hide OfMsg, Fits, Layout;
  }

  lemma LayoutTable()
    ensures Layout(1) == Some(EXEC) && Layout(6) == Some(U32) && Layout(7) == Some(PUT) && Layout(10) == Some(Text)
    ensures Layout(12) == Some(U64) && Layout(13) == Some(Text) && Layout(15) == Some(Text) && Layout(17) == Some(Text)
    ensures Layout(19) == Some(STAT) && Layout(21) == Some(SIX)
    ensures forall t | t in {2, 3, 4, 5, 8, 9, 11, 14, 16, 18, 20} :: Layout(t) == Some(Tail) || Layout(t) == Some(Unit)
  {
  }

  /** `validate`: the jump table of checks agrees with phi-rpc's decoder on every tag and every body. */
  method Validate(tag: byte, body: seq<byte>) returns (eax: nat)
    ensures eax == Code(DecodeBody(tag, body))
  {
    hide Dec, Skips, DecodeBody, Width, Code, Layout;
    Widths();
    LayoutTable();
    if tag > 21 {
      UnknownTag(tag, body);
      return 1;
    }
    var c := new Checker(body);
    var carry := false;
    match tag {
      case 0 => UnknownTag(tag, body); return 1;
      case 1 => carry := c.Command();
      case 6 => carry := c.Block(U32, 4);
      case 7 => carry := c.Put();
      case 10 => carry := c.Str();
      case 12 => carry := c.Block(U64, 8);
      case 13 => carry := c.Str();
      case 15 => carry := c.Str();
      case 17 => carry := c.Str();
      case 19 => carry := c.Stat();
      case 21 => carry := c.Block(SIX, 48);
      case _ => AlwaysDecodes(tag, body); return 0;
    }
    CodeFromSkips(tag, body, carry, c.Left());
    return if carry then 2 else 0;
  }

  lemma UnknownTag(tag: byte, body: seq<byte>)
    requires tag == 0 || tag > 21
    ensures Code(DecodeBody(tag, body)) == 1
  {
  }

  // ------------------------------------------------------------ the receive buffer

  /** The messages among a decoder's results: the agent logs and drops the errors. */
  function Good(rs: seq<Result<Msg>>): seq<Msg> {
    if rs == [] then [] else Kept(rs[0]) + Good(rs[1..])
  }

  function Kept(r: Result<Msg>): seq<Msg> { if r.Ok? then [r.value] else [] }

  lemma {:induction false} GoodJoin(a: seq<Result<Msg>>, b: seq<Result<Msg>>)
    ensures Good(a + b) == Good(a) + Good(b)
  {
    hide Good, Kept;
    if a == [] {
      GoodNone();
      assert a + b == b && [] + Good(b) == Good(b);
    } else {
      var t := a[1..];
      GoodJoin(t, b);
      FirstApart(a, b);
      GoodCons(a[0], t);
      GoodCons(a[0], t + b);
      JoinThrice(Kept(a[0]), Good(t), Good(b));
    }
  }

  lemma FirstApart<T>(a: seq<T>, b: seq<T>)
    requires a != []
    ensures a == [a[0]] + a[1..] && a + b == [a[0]] + (a[1..] + b)
  {
  }

  lemma JoinThrice<T>(x: seq<T>, y: seq<T>, z: seq<T>)
    ensures x + (y + z) == x + y + z
  {
  }

  lemma GoodNone()
    ensures Good([]) == []
  {
  }

  lemma GoodCons(r: Result<Msg>, rs: seq<Result<Msg>>)
    ensures Good([r] + rs) == Kept(r) + Good(rs)
  {
    hide Kept;
    assert ([r] + rs)[1..] == rs;
  }

  lemma {:induction false} FeedSnoc(pending: seq<byte>, chunks: seq<seq<byte>>, c: seq<byte>)
    ensures var f := Feed(pending, chunks);
      Feed(pending, chunks + [c]) == After(f.results, Drain(f.pending + c))
    decreases |chunks|
  {
    hide Drain;
    if chunks == [] {
      var none: seq<seq<byte>> := [];
      assert (chunks + [c])[1..] == none;
      var d := Drain(pending + c);
      assert Feed(d.pending, none) == Drained([], d.pending);
      AfterTwice(d.results, [], Drained([], d.pending));
      assert d.results + [] == d.results;
      AfterTwice([], [], d);
    } else {
      var d := Drain(pending + chunks[0]);
      FeedSnoc(d.pending, chunks[1..], c);
      assert (chunks + [c])[1..] == chunks[1..] + [c];
      var f := Feed(d.pending, chunks[1..]);
      AfterTwice(d.results, f.results, Drain(f.pending + c));
    }
  }

  /** What has been handed out, and what the buffer still holds, make up what a `Decoder` fed the same reads
      and drained after each would have given. */
  ghost predicate Refines(inputs: seq<seq<byte>>, delivered: seq<Msg>, buffered: seq<byte>) {
    var f, d := Feed([], inputs), Drain(buffered);
    Good(f.results) == delivered + Good(d.results) && f.pending == d.pending
  }

  lemma RefinesRead(inputs: seq<seq<byte>>, delivered: seq<Msg>, buffered: seq<byte>, data: seq<byte>)
    requires Refines(inputs, delivered, buffered) && FrontOf(buffered).Wait?
    ensures Refines(inputs + [data], delivered, buffered + data)
  {
    hide FrontOf, DecodeBody;
    assert Drain(buffered) == Drained([], buffered);
    FeedSnoc([], inputs, data);
    GoodJoin(Feed([], inputs).results, Drain(buffered + data).results);
    assert delivered + [] == delivered;
  }

  lemma GoodOne(r: Result<Msg>, rs: seq<Result<Msg>>)
    ensures Good([r] + rs) == Kept(r) + Good(rs)
  {
    hide Kept;
    assert ([r] + rs)[1..] == rs;
  }

  lemma RefinesFrame(inputs: seq<seq<byte>>, delivered: seq<Msg>, buffered: seq<byte>)
    requires Refines(inputs, delivered, buffered) && FrontOf(buffered).Whole?
    ensures var Whole(tag, body, rest) := FrontOf(buffered);
      Refines(inputs, delivered + Kept(DecodeBody(tag, body)), rest)
  {
    hide FrontOf, DecodeBody, Kept, Good, Feed;
    var Whole(tag, body, rest) := FrontOf(buffered);
    var m := DecodeBody(tag, body);
    GoodOne(m, Drain(rest).results);
    assert delivered + (Kept(m) + Good(Drain(rest).results)) == delivered + Kept(m) + Good(Drain(rest).results);
  }

  lemma RefinesBadLength(inputs: seq<seq<byte>>, delivered: seq<Msg>, buffered: seq<byte>)
    requires Refines(inputs, delivered, buffered) && FrontOf(buffered).BadLength?
    ensures Refines(inputs, delivered, [])
  {
    hide DecodeBody;
    var n := FrontOf(buffered).n;
    GoodJoin([Err(Length(n))], []);
    assert Good([Err(Length(n))]) == [];
  }

  lemma WaitingIsShort(b: seq<byte>)
    requires FrontOf(b).Wait?
    ensures |b| < 4 + MAX_FRAME
  {
  }

  lemma SliceOfSlice(a: seq<byte>, head: nat, tail: nat, i: nat, j: nat)
    requires head <= tail <= |a| && i <= j <= tail - head
    ensures a[head..tail][i..j] == a[head + i..head + j]
  {
    var x, y := a[head..tail][i..j], a[head + i..head + j];
    assert forall k | 0 <= k < j - i :: x[k] == a[head + i + k];
    assert x == y;
  }

  lemma TwoBlocks(a: seq<byte>, at: nat, end: nat)
    requires at <= end <= |a|
    ensures a[0..end] == a[..at] + a[at..end]
  {
  }

  lemma FrontOfSlice(a: seq<byte>, head: nat, tail: nat)
    requires head <= tail <= |a|
    ensures var n, f := tail - head, FrontOf(a[head..tail]);
      if n < 4 then f == Wait
      else
        var len := FromLittleEndian(a[head..head + 4]);
        if len == 0 || len > MAX_FRAME then f == BadLength(len)
        else if n < 4 + len then f == Wait
        else f == Whole(a[head + 4], a[head + 5..head + 4 + len], a[head + 4 + len..tail])
  {
    hide FromLittleEndian;
    var b := a[head..tail];
    if |b| >= 4 {
      assert b[..4] == a[head..head + 4];
      var len := FromLittleEndian(b[..4]);
      if |b| >= 4 + len && len > 0 {
        SliceOfSlice(a, head, tail, 5, 4 + len);
        SliceOfSlice(a, head, tail, 4 + len, tail - head);
      }
    }
  }

  lemma KeptByCode(r: Result<Msg>)
    ensures Code(r) == 0 ==> r.Ok? && Kept(r) == [r.value]
    ensures Code(r) != 0 ==> Kept(r) == []
  {
  }

  /** `rx_buf` with its head and tail. The ghosts are the reads so far and the messages handed out. */
  class Receiver {
    const rxBuf: array<byte>
    var head: nat
    var tail: nat
    ghost var inputs: seq<seq<byte>>
    ghost var delivered: seq<Msg>

    constructor ()
      ensures Valid() && fresh(rxBuf) && inputs == [] && delivered == [] && Buffered() == []
    {
      rxBuf := new byte[RXCAP];
      head, tail, inputs, delivered := 0, 0, [], [];
      new;
      EmptyWaits();
    }

    ghost predicate InBounds()
      reads this
    {
      head <= tail <= rxBuf.Length == RXCAP
    }

    ghost function Buffered(): seq<byte>
      requires InBounds()
      reads this, rxBuf
    {
      rxBuf[head..tail]
    }

    ghost predicate Valid()
      reads this, rxBuf
    {
      InBounds() && Refines(inputs, delivered, Buffered())
    }

    /** `fill`: move what is buffered to the front, then read up to READ_CHUNK bytes behind it. It is called
        only when no whole frame is buffered, and then the read always has room. */
    method Fill(data: seq<byte>)
      requires Valid() && FrontOf(Buffered()).Wait? && 1 <= |data| <= READ_CHUNK
      modifies this, rxBuf
      ensures Valid() && Buffered() == old(Buffered()) + data && head == 0
      ensures inputs == old(inputs) + [data] && delivered == old(delivered)
    {
      hide FrontOf, Refines;
      ghost var held := Buffered();
      WaitingIsShort(held);
      Compact();
      assert tail == |held| && tail + READ_CHUNK <= rxBuf.Length;
      assert rxBuf[..tail] == held;
      CopyIn(rxBuf, tail, data);
      tail := tail + |data|;
      inputs := inputs + [data];
      TwoBlocks(rxBuf[..], |held|, tail);
      RefinesRead(old(inputs), delivered, held, data);
    }

    method Compact()
      requires InBounds()
      modifies this`head, this`tail, rxBuf
      ensures InBounds() && head == 0 && Buffered() == old(Buffered())
    {
      ghost var held := Buffered();
      if head == tail {
        head, tail := 0, 0;
        return;
      }
      if head != 0 {
        var n, from := tail - head, head;
        tail, head := n, 0;
        MoveToFront(rxBuf, from, n);
      }
    }

    /** One round of `next_frame`: the front of the buffer is handed out, dropped or left to wait. */
    method Cut() returns (done: bool, fr: Option<(byte, nat, nat)>)
      requires Valid()
      modifies this`head, this`tail, this`delivered
      ensures Valid() && inputs == old(inputs) && (fr.Some? ==> done)
      ensures done && fr.None? ==> FrontOf(Buffered()).Wait?
      ensures fr.None? ==> delivered == old(delivered) && |Buffered()| <= |old(Buffered())|
      ensures !done ==> |Buffered()| < |old(Buffered())|
      ensures fr.Some? ==>
        var (tag, at, len) := fr.value;
        at + len <= rxBuf.Length && DecodeBody(tag, rxBuf[at..at + len]).Ok? &&
        delivered == old(delivered) + [DecodeBody(tag, rxBuf[at..at + len]).value] &&
        |Buffered()| + 5 + len <= |old(Buffered())|
    {
      hide DecodeBody, Refines, Kept, FromLittleEndian, FrontOf, Code;
      ghost var a := rxBuf[..];
      FrontOfSlice(a, head, tail);
      assert a[head..tail] == rxBuf[head..tail];
      var n := tail - head;
      if n < 4 {
        return true, None;
      }
      assert rxBuf[head..head + 4] == a[head..head + 4];
      var len := FromLittleEndian(rxBuf[head..head + 4]);
      if len == 0 || len > MAX_FRAME {
        RefinesBadLength(inputs, delivered, a[head..tail]);
        head, tail := 0, 0;
        assert Buffered() == [];
        return false, None;
      }
      if n < 4 + len {
        return true, None;
      }
      var tag, at := rxBuf[head + 4], head + 5;
      var body := rxBuf[at..at + (len - 1)];
      assert body == a[head + 5..head + 4 + len];
      RefinesFrame(inputs, delivered, a[head..tail]);
      head := head + 4 + len;
      assert Buffered() == a[head..tail];
      var eax := Validate(tag, body);
      KeptByCode(DecodeBody(tag, body));
      assert delivered + [] == delivered;
      if eax != 0 {
        return false, None;
      }
      delivered := delivered + [DecodeBody(tag, body).value];
      return true, Some((tag, at, len - 1));
    }

    /** `next_frame`: the next body that decodes, with its place in the buffer; bodies that do not are dropped,
        and a bad length drops everything. None when no whole frame is left. */
    method NextFrame() returns (fr: Option<(byte, nat, nat)>)
      requires Valid()
      modifies this`head, this`tail, this`delivered
      ensures Valid() && inputs == old(inputs)
      ensures fr.None? ==> FrontOf(Buffered()).Wait? && delivered == old(delivered)
      ensures |Buffered()| + (if fr.Some? then 5 + fr.value.2 else 0) <= |old(Buffered())|
      ensures fr.Some? ==>
        var (tag, at, len) := fr.value;
        at + len <= rxBuf.Length && DecodeBody(tag, rxBuf[at..at + len]).Ok? &&
        delivered == old(delivered) + [DecodeBody(tag, rxBuf[at..at + len]).value]
    {
      hide DecodeBody, Refines, FrontOf;
      var done := false;
      fr := None;
      while !done
        invariant Valid() && inputs == old(inputs)
        invariant fr.None? ==> delivered == old(delivered) && (done ==> FrontOf(Buffered()).Wait?)
        invariant |Buffered()| + (if fr.Some? then 5 + fr.value.2 else 0) <= |old(Buffered())|
        invariant fr.Some? ==>
          var (tag, at, len) := fr.value;
          done && at + len <= rxBuf.Length && DecodeBody(tag, rxBuf[at..at + len]).Ok? &&
          delivered == old(delivered) + [DecodeBody(tag, rxBuf[at..at + len]).value]
        decreases !done, |Buffered()|
      {
        done, fr := Cut();
      }
    }

    /** `next_blocking`, on a device that gives these reads: a frame, or the reads are used up. */
    method NextBlocking(device: seq<seq<byte>>) returns (fr: Option<(byte, nat, nat)>, used: nat)
      requires Valid() && forall i | 0 <= i < |device| :: 1 <= |device[i]| <= READ_CHUNK
      modifies this, rxBuf
      ensures Valid() && used <= |device| && inputs == old(inputs) + device[..used]
      ensures fr.None? ==> used == |device| && FrontOf(Buffered()).Wait? && delivered == old(delivered)
      ensures fr.Some? ==>
        var (tag, at, len) := fr.value;
        at + len <= rxBuf.Length && DecodeBody(tag, rxBuf[at..at + len]).Ok? &&
        delivered == old(delivered) + [DecodeBody(tag, rxBuf[at..at + len]).value]
    {
      hide DecodeBody, Refines, FrontOf;
      used := 0;
      assert inputs == old(inputs) + device[..0];
      fr := NextFrame();
      while fr.None? && used < |device|
        invariant Valid() && used <= |device| && inputs == old(inputs) + device[..used]
        invariant fr.None? ==> FrontOf(Buffered()).Wait? && delivered == old(delivered)
        invariant fr.Some? ==>
          var (tag, at, len) := fr.value;
          at + len <= rxBuf.Length && DecodeBody(tag, rxBuf[at..at + len]).Ok? &&
          delivered == old(delivered) + [DecodeBody(tag, rxBuf[at..at + len]).value]
        decreases |device| - used
      {
        Fill(device[used]);
        used := used + 1;
        assert device[..used] == device[..used - 1] + [device[used - 1]];
        fr := NextFrame();
      }
    }
  }

  /** Once no whole frame is buffered, the messages handed out are exactly those of phi-rpc's `Decoder` fed the
      same reads, its errors skipped, and the bytes kept are the decoder's. */
  lemma SameAsDecoder(inputs: seq<seq<byte>>, delivered: seq<Msg>, buffered: seq<byte>)
    requires Refines(inputs, delivered, buffered) && FrontOf(buffered).Wait?
    ensures delivered == Good(Feed([], inputs).results) && buffered == Feed([], inputs).pending
  {
    assert delivered + [] == delivered;
  }

  // ------------------------------------------------------------ the transmit buffer

  const TXCAP: nat := 2 * MAX_FRAME

  /** `tx_buf` and its write cursor: one frame at a time, its length filled in last. The ghost is every byte
      given to the device. */
  class Transmitter {
    const txBuf: array<byte>
    var wp: nat
    ghost var sent: seq<byte>

    constructor ()
      ensures txBuf.Length == TXCAP && fresh(txBuf) && sent == []
    {
      txBuf := new byte[TXCAP];
      wp, sent := 0, [];
    }

    ghost predicate Open()
      reads this
    {
      5 <= wp <= txBuf.Length
    }

    /** The frame being built. */
    ghost function Building(): Raw
      requires Open()
      reads this, txBuf
    {
      Raw(txBuf[4], txBuf[5..wp])
    }

    /** `f_begin` */
    method Begin(tag: byte)
      requires txBuf.Length == TXCAP
      modifies this`wp, txBuf
      ensures Open() && wp == 5 && Building() == Raw(tag, []) && txBuf[5..] == old(txBuf[5..])
    {
      txBuf[4] := tag;
      wp := 5;
    }

    /** read(2) to where the body goes, before the frame is begun. */
    method ReadIn(data: seq<byte>)
      requires 5 + |data| <= txBuf.Length
      modifies txBuf
      ensures txBuf[5..5 + |data|] == data
    {
      CopyIn(txBuf, 5, data);
    }

    /** The next `n` bytes, already in place, join the frame. */
    method Claim(n: nat)
      requires Open() && wp + n <= txBuf.Length
      modifies this`wp
      ensures Open() && wp == old(wp) + n
    {
      wp := wp + n;
    }

    /** A field written through the cursor. */
    method Write(b: seq<byte>)
      requires Open() && wp + |b| <= txBuf.Length
      modifies this`wp, txBuf
      ensures Open() && Building() == Raw(old(Building()).tag, old(Building()).body + b)
    {
      ghost var front := txBuf[..wp];
      CopyIn(txBuf, wp, b);
      assert txBuf[..wp] == front;
      assert txBuf[4] == front[4] && txBuf[5..wp] == txBuf[..wp][5..] == front[5..];
      wp := wp + |b|;
      assert txBuf[5..wp] == front[5..] + b;
    }

    /** `f_send`: the length goes in front, and what the device is given is the frame: a decoder gets the tag
        and body back whenever they fit a frame. */
    method Send() returns (frame: seq<byte>)
      requires Open()
      modifies this`sent, txBuf
      ensures frame == RawFrame(old(Building())) && sent == old(sent) + frame
      ensures 1 + |old(Building()).body| <= MAX_FRAME ==>
        FrontOf(frame) == Whole(old(Building()).tag, old(Building()).body, [])
    {
      hide FrontOf, LittleEndian;
      ghost var r := Building();
      var n := LittleEndian(wp - 4, 4);
      txBuf[0], txBuf[1], txBuf[2], txBuf[3] := n[0], n[1], n[2], n[3];
      frame := txBuf[..wp];
      sent := sent + frame;
      assert frame[..4] == n && frame[4] == r.tag && frame[5..] == r.body;
      assert frame == frame[..4] + [frame[4]] + frame[5..];
      if 1 + |r.body| <= MAX_FRAME {
        FrontOfFrame(r, []);
        assert RawFrame(r) + [] == RawFrame(r);
      }
    }
  }
}
