/** phi-rpc's `Reader`: a cursor over one frame body, each read proved to take what the layout says is next. */
module RpcReader {
  import opened Options
  import opened Utf8
  import opened Wire
  import opened Messages
  import opened Rpc

  // ------------------------------------------------------------ typed decoding

  /** The next field, read off as a `T`, and the bytes after it. */
  ghost function Typed<T>(sc: Schema, of: Value --> T, s: seq<byte>): Option<(T, seq<byte>)>
    requires Closed(sc) && forall w | Fits(sc, w) :: of.requires(w)
  {
    DecodedFits(sc, s);
    match Dec(sc, s)
    case Short => None
    case Got(v, rest) => Some((of(v), rest))
  }

  ghost function TypedItems<T>(item: Schema, of: Value --> T, n: nat, s: seq<byte>): Option<(seq<T>, seq<byte>)>
    requires Closed(item) && forall w | Fits(item, w) :: of.requires(w)
  {
    if n == 0 then Some(([], s))
    else
      match Typed(item, of, s)
      case None => None
      case Some((x, rest)) => Prepended([x], TypedItems(item, of, n - 1, rest))
  }

  ghost function TypedList<T(!new)>(item: Schema, of: Value --> T, s: seq<byte>): Option<(seq<T>, seq<byte>)>
    requires Closed(item) && forall w | Fits(item, w) :: of.requires(w)
  {
    DecodedFits(List(item), s);
    match Dec(List(item), s)
    case Short => None
    case Got(v, rest) => Some((MapOf(item, of, v), rest))
  }

  ghost function Prepended<T>(done: seq<T>, o: Option<(seq<T>, seq<byte>)>): Option<(seq<T>, seq<byte>)> {
    match o
    case None => None
    case Some((xs, rest)) => Some((done + xs, rest))
  }

  /** What a read method returned and left behind. */
  ghost function Outcome<T>(r: Option<T>, left: seq<byte>): Option<(T, seq<byte>)> {
    match r
    case None => None
    case Some(x) => Some((x, left))
  }

  lemma {:induction false} ItemsAreTyped<T(!new)>(item: Schema, of: Value --> T, n: nat, s: seq<byte>)
    requires Closed(item) && forall w | Fits(item, w) :: of.requires(w)
    ensures DecItems(item, n, s).None? ==> TypedItems(item, of, n, s) == None
    ensures DecItems(item, n, s).Some? ==>
      var (vs, rest) := DecItems(item, n, s).value;
      Fits(List(item), Items(vs)) && TypedItems(item, of, n, s) == Some((MapOf(item, of, Items(vs)), rest))
  {
    hide Dec, Fits, MapOf;
    DecodedFits(item, s);
    if n > 0 && Dec(item, s).Got? {
      var Got(v, rest) := Dec(item, s);
      ItemsAreTyped(item, of, n - 1, rest);
      if DecItems(item, n - 1, rest).Some? {
        OneMoreItem(item, of, v, DecItems(item, n - 1, rest).value.0);
      }
    } else if n == 0 {
      NoItems(item, of);
    }
  }

  lemma OneMoreItem<T(!new)>(item: Schema, of: Value --> T, v: Value, vs: seq<Value>)
    requires (forall w | Fits(item, w) :: of.requires(w)) && Fits(item, v) && Fits(List(item), Items(vs))
    ensures Fits(List(item), Items([v] + vs)) && MapOf(item, of, Items([v] + vs)) == [of(v)] + MapOf(item, of, Items(vs))
  {
  }

  lemma NoItems<T(!new)>(item: Schema, of: Value --> T)
    requires forall w | Fits(item, w) :: of.requires(w)
    ensures Fits(List(item), Items([])) && MapOf(item, of, Items([])) == []
  {
  }

  lemma ListIsTyped<T(!new)>(item: Schema, of: Value --> T, s: seq<byte>)
    requires Closed(item) && forall w | Fits(item, w) :: of.requires(w)
    ensures TypedList(item, of, s) ==
      if |s| < 2 then None else TypedItems(item, of, FromLittleEndian(s[..2]), s[2..])
  {
    hide FromLittleEndian, MapOf;
    if |s| >= 2 {
      ItemsAreTyped(item, of, FromLittleEndian(s[..2]), s[2..]);
    }
  }

  lemma PrependedTwice<T>(a: seq<T>, x: T, o: Option<(seq<T>, seq<byte>)>)
    ensures Prepended(a, Prepended([x], o)) == Prepended(a + [x], o)
  {
    if o.Some? {
      assert a + ([x] + o.value.0) == a + [x] + o.value.0;
    }
  }

  lemma PrependedNothing<T>(o: Option<(seq<T>, seq<byte>)>)
    ensures Prepended([], o) == o
  {
    if o.Some? {
      assert [] + o.value.0 == o.value.0;
    }
  }

  function OfU8(v: Value): u8
    requires Fits(U8, v)
  {
    Limits();
    OfNumber(1, v)
  }

  function OfU16(v: Value): u16
    requires Fits(U16, v)
  {
    Limits();
    OfNumber(2, v)
  }

  function OfU32(v: Value): u32
    requires Fits(U32, v)
  {
    Limits();
    OfNumber(4, v)
  }

  function OfU64(v: Value): u64
    requires Fits(U64, v)
  {
    Limits();
    OfNumber(8, v)
  }

  ghost function TypedStat(s: seq<byte>): Option<(StatData, seq<byte>)> {
    ClosedParts();
    Typed(STAT, OfStat, s)
  }

  // ------------------------------------------------------------ the cursor

  class Reader {
    const buf: seq<byte>
    var pos: nat

    constructor (body: seq<byte>)
      ensures buf == body && Valid() && Left() == body
    {
      buf := body;
      pos := 0;
    }

    ghost predicate Valid()
      reads this
    {
      pos <= |buf|
    }

    ghost function Left(): seq<byte>
      requires Valid()
      reads this
    {
      buf[pos..]
    }

    method Take(n: nat) returns (r: Option<seq<byte>>)
      requires Valid()
      modifies this
      ensures Valid()
      ensures n > |old(Left())| ==> r == None
      ensures n <= |old(Left())| ==> r == Some(old(Left())[..n]) && Left() == old(Left())[n..]
    {
      if n > |buf| - pos {
        return None;
      }
      var s := buf[pos..pos + n];
      assert s == buf[pos..][..n] && buf[pos + n..] == buf[pos..][n..];
      pos := pos + n;
      return Some(s);
    }

    method U8() returns (r: Option<u8>)
      requires Valid()
      modifies this
      ensures Valid() && Outcome(r, Left()) == Typed(Messages.U8, OfU8, old(Left()))
    {
      var b :- Take(1);
      Limits();
      return Some(b[0]);
    }

    method U16() returns (r: Option<u16>)
      requires Valid()
      modifies this
      ensures Valid() && Outcome(r, Left()) == Typed(Messages.U16, OfU16, old(Left()))
    {
      var b :- Take(2);
      Limits();
      FewBytes(b);
      return Some(Join2(b[0], b[1]));
    }

    method U32() returns (r: Option<u32>)
      requires Valid()
      modifies this
      ensures Valid() && Outcome(r, Left()) == Typed(Messages.U32, OfU32, old(Left()))
    {
      var b :- Take(4);
      Limits();
      FewBytes(b);
      return Some(Join4(b[0], b[1], b[2], b[3]));
    }

    method U64() returns (r: Option<u64>)
      requires Valid()
      modifies this
      ensures Valid() && Outcome(r, Left()) == Typed(Messages.U64, OfU64, old(Left()))
    {
      var b :- Take(8);
      Limits();
      return Some(FromLittleEndian(b));
    }

    method I16() returns (r: Option<i16>)
      requires Valid()
      modifies this
      ensures Valid() && Outcome(r, Left()) == Typed(Messages.U16, OfShort, old(Left()))
    {
      var n :- U16();
      Limits();
      return Some(Signed(n, 2));
    }

    method Text() returns (r: Option<Str>)
      requires Valid()
      modifies this
      ensures Valid() && Outcome(r, Left()) == Typed(Wire.Text, OfWord, old(Left()))
    {
      hide FromLittleEndian, Utf8.Valid;
      ghost var s := Left();
      var n :- U16();
      assert n == FromLittleEndian(s[..2]) && Left() == s[2..];
      var b :- Take(n);
      assert s[2..][..n] == s[2..2 + n] && s[2..][n..] == s[2 + n..];
      if !Utf8.Valid(b) {
        return None;
      }
      return Some(b);
    }

    method Dev() returns (r: Option<DevStat>)
      requires Valid()
      modifies this
      ensures Valid() && Outcome(r, Left()) == Typed(DEV, OfDev, old(Left()))
    {
      hide Dec, Fits, Utf8.Valid;
      DecPair(Wire.Text, TWO64, Left());
      var name :- Text();
      DecPair(Messages.U64, Messages.U64, Left());
      var read :- U64();
      var written :- U64();
      return Some(DevStat(name, read, written));
    }

    method Devs() returns (r: Option<seq<DevStat>>)
      requires Valid()
      modifies this
      ensures Valid() && Outcome(r, Left()) == TypedList(DEV, OfDev, old(Left()))
    {
      hide Typed, TypedList, OfDev, FromLittleEndian, Fits;
      var n :- Count(DEV, OfDev);
      ghost var all := TypedItems(DEV, OfDev, n, Left());
      PrependedNothing(all);
      var v := [];
      for i := 0 to n
        invariant Valid() && all == Prepended(v, TypedItems(DEV, OfDev, n - i, Left()))
      {
        var d :- Dev();
        PrependedTwice(v, d, TypedItems(DEV, OfDev, n - i - 1, Left()));
        v := v + [d];
      }
      assert v + [] == v;
      return Some(v);
    }

    /** The count a list starts with. */
    method Count<T(!new)>(ghost item: Schema, ghost of: Value --> T) returns (r: Option<u16>)
      requires Valid() && Closed(item) && forall w | Fits(item, w) :: of.requires(w)
      modifies this
      ensures Valid() && (r.None? ==> TypedList(item, of, old(Left())) == None)
      ensures r.Some? ==> TypedList(item, of, old(Left())) == TypedItems(item, of, r.value, Left())
    {
      hide FromLittleEndian, TypedList, TypedItems;
      ListIsTyped(item, of, Left());
      var n :- U16();
      return Some(n);
    }

    method Cpu() returns (r: Option<CpuStat>)
      requires Valid()
      modifies this
      ensures Valid() && Outcome(r, Left()) == Typed(CPU, OfCpu, old(Left()))
    {
      hide Dec, Fits;
      DecPair(Messages.U16, TWO32, Left());
      var core :- U16();
      DecPair(Messages.U32, Messages.U32, Left());
      var busy :- U32();
      var idle :- U32();
      return Some(CpuStat(core, busy, idle));
    }

    method Proc() returns (r: Option<ProcStat>)
      requires Valid()
      modifies this
      ensures Valid() && Outcome(r, Left()) == Typed(PROC, OfProc, old(Left()))
    {
      hide Dec, Fits, Utf8.Valid;
      DecPair(PROC_NUMBERS, Wire.Text, Left());
      DecPair(Messages.U32, PROC1, Left());
      var pid :- U32();
      DecPair(Messages.U8, PROC2, Left());
      var state :- U8();
      DecPair(Messages.U8, PROC3, Left());
      var kthread :- U8();
      DecPair(Messages.U64, PROC4, Left());
      var ticks :- U64();
      DecPair(Messages.U64, Messages.U32, Left());
      var rss :- U64();
      var threads :- U32();
      var comm :- Text();
      return Some(ProcStat(pid, state, kthread != 0, ticks, rss, threads, comm));
    }

    method Six() returns (r: Option<(u64, u64, u64, u64, u64, u64)>)
      requires Valid()
      modifies this
      ensures Valid() && Outcome(r, Left()) == Typed(SIX, OfSix, old(Left()))
    {
      hide Dec, Fits;
      DecPair(Messages.U64, FIVE, Left());
      var a :- U64();
      DecPair(Messages.U64, FOUR, Left());
      var b :- U64();
      DecPair(Messages.U64, THREE, Left());
      var c :- U64();
      DecPair(Messages.U64, TWO64, Left());
      var d :- U64();
      DecPair(Messages.U64, Messages.U64, Left());
      var e :- U64();
      var f :- U64();
      return Some((a, b, c, d, e, f));
    }

    method Loads() returns (r: Option<(u16, u16, u16, u32, u32)>)
      requires Valid()
      modifies this
      ensures Valid() && Outcome(r, Left()) == Typed(LOADS, OfLoads, old(Left()))
    {
      hide Dec, Fits;
      DecPair(Messages.U16, LOADS2, Left());
      var a :- U16();
      DecPair(Messages.U16, LOADS3, Left());
      var b :- U16();
      DecPair(Messages.U16, TWO32, Left());
      var c :- U16();
      DecPair(Messages.U32, Messages.U32, Left());
      var running :- U32();
      var tasks :- U32();
      return Some((a, b, c, running, tasks));
    }

    method Clocks() returns (r: Option<(i16, u32, u32)>)
      requires Valid()
      modifies this
      ensures Valid() && Outcome(r, Left()) == Typed(CLOCKS, OfClocks, old(Left()))
    {
      hide Dec, Fits;
      DecPair(Messages.U16, TWO32, Left());
      var peak :- I16();
      DecPair(Messages.U32, Messages.U32, Left());
      var vcore :- U32();
      var mhz :- U32();
      return Some((peak, vcore, mhz));
    }

    method Cpus() returns (r: Option<seq<CpuStat>>)
      requires Valid()
      modifies this
      ensures Valid() && Outcome(r, Left()) == TypedList(CPU, OfCpu, old(Left()))
    {
      hide Typed, TypedList, OfCpu, FromLittleEndian, Fits;
      var n :- Count(CPU, OfCpu);
      ghost var all := TypedItems(CPU, OfCpu, n, Left());
      PrependedNothing(all);
      var v := [];
      for i := 0 to n
        invariant Valid() && all == Prepended(v, TypedItems(CPU, OfCpu, n - i, Left()))
      {
        var c :- Cpu();
        PrependedTwice(v, c, TypedItems(CPU, OfCpu, n - i - 1, Left()));
        v := v + [c];
      }
      assert v + [] == v;
      return Some(v);
    }

    method Temps() returns (r: Option<seq<i16>>)
      requires Valid()
      modifies this
      ensures Valid() && Outcome(r, Left()) == TypedList(Messages.U16, OfShort, old(Left()))
    {
      hide Typed, TypedList, OfShort, FromLittleEndian, Fits;
      var n :- Count(Messages.U16, OfShort);
      ghost var all := TypedItems(Messages.U16, OfShort, n, Left());
      PrependedNothing(all);
      var v := [];
      for i := 0 to n
        invariant Valid() && all == Prepended(v, TypedItems(Messages.U16, OfShort, n - i, Left()))
      {
        var t :- I16();
        PrependedTwice(v, t, TypedItems(Messages.U16, OfShort, n - i - 1, Left()));
        v := v + [t];
      }
      assert v + [] == v;
      return Some(v);
    }

    method Procs() returns (r: Option<seq<ProcStat>>)
      requires Valid()
      modifies this
      ensures Valid() && Outcome(r, Left()) == TypedList(PROC, OfProc, old(Left()))
    {
      hide Typed, TypedList, OfProc, FromLittleEndian, Fits, Closed, Utf8.Valid;
      ClosedParts();
      var n :- Count(PROC, OfProc);
      ghost var all := TypedItems(PROC, OfProc, n, Left());
      PrependedNothing(all);
      var v := [];
      for i := 0 to n
        invariant Valid() && all == Prepended(v, TypedItems(PROC, OfProc, n - i, Left()))
      {
        var p :- Proc();
        PrependedTwice(v, p, TypedItems(PROC, OfProc, n - i - 1, Left()));
        v := v + [p];
      }
      assert v + [] == v;
      return Some(v);
    }

    method Stat() returns (r: Option<StatData>)
      requires Valid()
      modifies this
      ensures Valid() && Outcome(r, Left()) == TypedStat(old(Left()))
    {
      hide Dec, Fits, Utf8.Valid, MapOf, OfCpu, OfDev, OfProc, OfShort, OfSix, OfLoads, OfClocks;
      DecPair(Messages.U64, STAT_CPUS, Left());
      var uptime :- U64();
      DecPair(List(CPU), STAT_MEM, Left());
      var cpus :- Cpus();
      DecPair(SIX, STAT_LOADS, Left());
      var mem :- Six();
      DecPair(LOADS, STAT_TEMPS, Left());
      var loads :- Loads();
      DecPair(List(Messages.U16), STAT_CLOCKS, Left());
      var temps :- Temps();
      DecPair(CLOCKS, STAT_DISKS, Left());
      var clocks :- Clocks();
      DecPair(List(DEV), STAT_NETS, Left());
      var disks :- Devs();
      DecPair(List(DEV), STAT_PROCS, Left());
      var nets :- Devs();
      DecPair(List(PROC), TWO32, Left());
      var procs :- Procs();
      DecPair(Messages.U32, Messages.U32, Left());
      var nprocs :- U32();
      var nkthreads :- U32();
      return Some(StatData(
        uptime, cpus, MemStat(mem.0, mem.1, mem.2, mem.3, mem.4, mem.5), (loads.0, loads.1, loads.2), loads.3, loads.4,
        temps, clocks.0, clocks.1, clocks.2, disks, nets, procs, nprocs, nkthreads));
    }

    method Words() returns (r: Option<seq<Str>>)
      requires Valid()
      modifies this
      ensures Valid() && Outcome(r, Left()) == TypedList(Wire.Text, OfWord, old(Left()))
    {
      hide Typed, TypedList, OfWord, FromLittleEndian, Fits;
      var n :- Count(Wire.Text, OfWord);
      ghost var all := TypedItems(Wire.Text, OfWord, n, Left());
      PrependedNothing(all);
      var v := [];
      for i := 0 to n
        invariant Valid() && all == Prepended(v, TypedItems(Wire.Text, OfWord, n - i, Left()))
      {
        var w :- Text();
        PrependedTwice(v, w, TypedItems(Wire.Text, OfWord, n - i - 1, Left()));
        v := v + [w];
      }
      assert v + [] == v;
      return Some(v);
    }

    method Entry() returns (r: Option<(Str, Str)>)
      requires Valid()
      modifies this
      ensures Valid() && Outcome(r, Left()) == Typed(ENTRY, OfEntry, old(Left()))
    {
      hide Dec, Fits, Utf8.Valid;
      DecPair(Wire.Text, Wire.Text, Left());
      var k :- Text();
      var v :- Text();
      return Some((k, v));
    }

    method Entries() returns (r: Option<seq<(Str, Str)>>)
      requires Valid()
      modifies this
      ensures Valid() && Outcome(r, Left()) == TypedList(ENTRY, OfEntry, old(Left()))
    {
      hide Typed, TypedList, OfEntry, FromLittleEndian, Fits;
      var n :- Count(ENTRY, OfEntry);
      ghost var all := TypedItems(ENTRY, OfEntry, n, Left());
      PrependedNothing(all);
      var v := [];
      for i := 0 to n
        invariant Valid() && all == Prepended(v, TypedItems(ENTRY, OfEntry, n - i, Left()))
      {
        var e :- Entry();
        PrependedTwice(v, e, TypedItems(ENTRY, OfEntry, n - i - 1, Left()));
        v := v + [e];
      }
      assert v + [] == v;
      return Some(v);
    }

    method Command() returns (r: Option<Msg>)
      requires Valid()
      modifies this
      ensures Valid() && Outcome(r, Left()) == Typed(EXEC, OfExec, old(Left()))
    {
      hide Dec, Fits, Utf8.Valid, MapOf, OfWord, OfEntry;
      DecPair(List(Wire.Text), EXEC_ENV, Left());
      var argv :- Words();
      DecPair(List(ENTRY), Wire.Text, Left());
      var env :- Entries();
      var cwd :- Text();
      return Some(Exec(argv, env, if cwd == [] then None else Some(cwd)));
    }

    method Put() returns (r: Option<Msg>)
      requires Valid()
      modifies this
      ensures Valid() && Outcome(r, Left()) == Typed(PUT, OfPut, old(Left()))
    {
      hide Dec, Fits, Utf8.Valid;
      DecPair(Wire.Text, Messages.U32, Left());
      var path :- Text();
      var mode :- U32();
      return Some(PutOpen(path, mode));
    }

    method Rest() returns (s: seq<byte>)
      requires Valid()
      modifies this
      ensures Valid() && s == old(Left()) && Left() == []
    {
      s := buf[pos..];
      pos := |buf|;
    }
  }

  function Join2(a: int, b: int): int { a + 0x100 * b }

  function Join4(a: int, b: int, c: int, d: int): int { a + 0x100 * b + 0x1_0000 * c + 0x100_0000 * d }

  lemma FewBytes(b: seq<byte>)
    ensures |b| == 2 ==> FromLittleEndian(b) == Join2(b[0], b[1])
    ensures |b| == 4 ==> FromLittleEndian(b) == Join4(b[0], b[1], b[2], b[3])
  {
    if |b| == 2 {
      assert FromLittleEndian(b[1..]) == b[1];
    } else if |b| == 4 {
      assert b[2..][1..] == b[3..] && b[1..][1..] == b[2..];
      assert FromLittleEndian(b[3..]) == b[3];
      assert FromLittleEndian(b[2..]) == b[2] + 0x100 * FromLittleEndian(b[3..]);
      assert FromLittleEndian(b[1..]) == b[1] + 0x100 * FromLittleEndian(b[2..]);
    }
  }

  function OrMalformed(o: Option<Msg>): Result<Msg> {
    match o
    case None => Err(Malformed)
    case Some(m) => Ok(m)
  }

  method WordMsg(rd: Reader, tag: byte) returns (r: Result<Msg>)
    requires rd.Valid() && tag in {10, 13, 15, 17}
    modifies rd
    ensures r == DecodeBody(tag, old(rd.Left()))
  {
    hide Dec, Fits, Utf8.Valid;
    var s := rd.Text();
    if s.None? {
      return Err(Malformed);
    }
    match tag {
      case 10 => return Ok(Get(s.value));
      case 13 => return Ok(Error(s.value));
      case 15 => return Ok(Pong(s.value));
      case _ => return Ok(SensorsReply(s.value));
    }
  }

  method NumberMsg(rd: Reader, tag: byte) returns (r: Result<Msg>)
    requires rd.Valid() && tag in {6, 12, 21}
    modifies rd
    ensures r == DecodeBody(tag, old(rd.Left()))
  {
    hide Dec, Fits, OfSix, Closed;
    Limits();
    ClosedParts();
    if tag == 6 {
      var n := rd.U32();
      return OrMalformed(if n.None? then None else Some(Exit(Signed(n.value, 4))));
    } else if tag == 12 {
      var n := rd.U64();
      return OrMalformed(if n.None? then None else Some(GetEnd(n.value)));
    } else {
      var t := rd.Six();
      if t.None? {
        return Err(Malformed);
      }
      var (a, b, c, d, e, f) := t.value;
      return Ok(TrafficReply(TrafficData(a, b, c, d, e, f)));
    }
  }

  method RestMsg(rd: Reader, tag: byte) returns (r: Result<Msg>)
    requires rd.Valid() && tag in {2, 4, 5, 8, 11}
    modifies rd
    ensures r == DecodeBody(tag, old(rd.Left()))
  {
    var d := rd.Rest();
    match tag {
      case 2 => return Ok(Stdin(d));
      case 4 => return Ok(Stdout(d));
      case 5 => return Ok(Stderr(d));
      case 8 => return Ok(PutData(d));
      case _ => return Ok(GetData(d));
    }
  }

  method FieldsMsg(rd: Reader, tag: byte) returns (r: Result<Msg>)
    requires rd.Valid() && tag in {1, 7, 19}
    modifies rd
    ensures r == DecodeBody(tag, old(rd.Left()))
  {
    hide Dec, Fits, OfExec, OfStat, OfPut, Closed;
    ClosedParts();
    if tag == 1 {
      var m := rd.Command();
      return OrMalformed(m);
    } else if tag == 7 {
      var m := rd.Put();
      return OrMalformed(m);
    } else {
      var s := rd.Stat();
      return OrMalformed(if s.None? then None else Some(StatReply(s.value)));
    }
  }

  /** `decode_body`: the cursor's reads give exactly what the layouts say. */
  method DecodeBodyWithReader(tag: byte, body: seq<byte>) returns (r: Result<Msg>)
    ensures r == DecodeBody(tag, body)
  {
    hide Dec, Fits;
    var rd := new Reader(body);
    match tag {
      case 1 => r := FieldsMsg(rd, 1);
      case 2 => r := RestMsg(rd, 2);
      case 3 => EmptyBody(tag, body); r := Ok(StdinEof);
      case 4 => r := RestMsg(rd, 4);
      case 5 => r := RestMsg(rd, 5);
      case 6 => r := NumberMsg(rd, 6);
      case 7 => r := FieldsMsg(rd, 7);
      case 8 => r := RestMsg(rd, 8);
      case 9 => EmptyBody(tag, body); r := Ok(PutClose);
      case 10 => r := WordMsg(rd, 10);
      case 11 => r := RestMsg(rd, 11);
      case 12 => r := NumberMsg(rd, 12);
      case 13 => r := WordMsg(rd, 13);
      case 14 => EmptyBody(tag, body); r := Ok(Ping);
      case 15 => r := WordMsg(rd, 15);
      case 16 => EmptyBody(tag, body); r := Ok(Sensors);
      case 17 => r := WordMsg(rd, 17);
      case 18 => EmptyBody(tag, body); r := Ok(Msg.Stat);
      case 19 => r := FieldsMsg(rd, 19);
      case 20 => EmptyBody(tag, body); r := Ok(Traffic);
      case 21 => r := NumberMsg(rd, 21);
      case _ => r := Err(Tag(tag));
    }
  }

  function BodyLess(tag: byte): Msg {
    match tag
    case 3 => StdinEof
    case 9 => PutClose
    case 14 => Ping
    case 16 => Sensors
    case 18 => Msg.Stat
    case _ => Traffic
  }

  lemma EmptyBody(tag: byte, body: seq<byte>)
    requires Layout(tag) == Some(Unit)
    ensures DecodeBody(tag, body) == Ok(BodyLess(tag))
  {
  }
}
