/** The messages of the rpc channel, their tags and layouts, and what a trip over the wire does to one. */
module Messages {
  import opened Options
  import opened Utf8
  import opened Wire

  type u8 = x: int | 0 <= x < 0x100
  type u16 = x: int | 0 <= x < 0x1_0000
  type u32 = x: int | 0 <= x < 0x1_0000_0000
  type u64 = x: int | 0 <= x < 0x1_0000_0000_0000_0000
  type i16 = x: int | -0x8000 <= x < 0x8000
  type i32 = x: int | -0x8000_0000 <= x < 0x8000_0000

  datatype CpuStat = CpuStat(core: u16, busy: u32, idle: u32)
  datatype MemStat = MemStat(total: u64, avail: u64, buffers: u64, cached: u64, swapTotal: u64, swapFree: u64)
  datatype DevStat = DevStat(name: Str, read: u64, written: u64)
  datatype ProcStat =
    ProcStat(pid: u32, state: u8, kthread: bool, ticks: u64, rss: u64, threads: u32, comm: Str)
  datatype StatData = StatData(
    uptime: u64, cpus: seq<CpuStat>, mem: MemStat, load: (u16, u16, u16), running: u32, tasks: u32,
    temps: seq<i16>, tempPeak: i16, vcore: u32, coreMhz: u32, disks: seq<DevStat>, nets: seq<DevStat>,
    procs: seq<ProcStat>, nprocs: u32, nkthreads: u32)
  datatype TrafficData = TrafficData(
    dmaTo: u64, dmaFrom: u64, apertureTo: u64, apertureFrom: u64, copiesTo: u64, copiesFrom: u64)

  datatype Msg =
    | Exec(argv: seq<Str>, env: seq<(Str, Str)>, cwd: Option<Str>)
    | Stdin(data: seq<byte>)
    | StdinEof
    | Stdout(data: seq<byte>)
    | Stderr(data: seq<byte>)
    | Exit(code: i32)
    | PutOpen(path: Str, mode: u32)
    | PutData(data: seq<byte>)
    | PutClose
    | Get(path: Str)
    | GetData(data: seq<byte>)
    | GetEnd(size: u64)
    | Error(text: Str)
    | Ping
    | Pong(version: Str)
    | Sensors
    | SensorsReply(text: Str)
    | Stat
    | StatReply(stat: StatData)
    | Traffic
    | TrafficReply(traffic: TrafficData)

  function TagOf(m: Msg): (t: byte)
    ensures 1 <= t <= 21
  {
    match m
    case Exec(_, _, _) => 1
    case Stdin(_) => 2
    case StdinEof => 3
    case Stdout(_) => 4
    case Stderr(_) => 5
    case Exit(_) => 6
    case PutOpen(_, _) => 7
    case PutData(_) => 8
    case PutClose => 9
    case Get(_) => 10
    case GetData(_) => 11
    case GetEnd(_) => 12
    case Error(_) => 13
    case Ping => 14
    case Pong(_) => 15
    case Sensors => 16
    case SensorsReply(_) => 17
    case Stat => 18
    case StatReply(_) => 19
    case Traffic => 20
    case TrafficReply(_) => 21
  }

  // ------------------------------------------------------------ layouts

  const U8: Schema := Fixed(1)
  const U16: Schema := Fixed(2)
  const U32: Schema := Fixed(4)
  const U64: Schema := Fixed(8)
  const ENTRY: Schema := Pair(Text, Text)
  const EXEC_ENV: Schema := Pair(List(ENTRY), Text)
  const EXEC: Schema := Pair(List(Text), EXEC_ENV)
  const PUT: Schema := Pair(Text, U32)
  const TWO32: Schema := Pair(U32, U32)
  const TWO64: Schema := Pair(U64, U64)
  const CPU: Schema := Pair(U16, TWO32)
  const DEV: Schema := Pair(Text, TWO64)
  const PROC4: Schema := Pair(U64, U32)
  const PROC3: Schema := Pair(U64, PROC4)
  const PROC2: Schema := Pair(U8, PROC3)
  const PROC1: Schema := Pair(U8, PROC2)
  const PROC_NUMBERS: Schema := Pair(U32, PROC1)
  const PROC: Schema := Pair(PROC_NUMBERS, Text)
  const THREE: Schema := Pair(U64, TWO64)
  const FOUR: Schema := Pair(U64, THREE)
  const FIVE: Schema := Pair(U64, FOUR)
  const SIX: Schema := Pair(U64, FIVE)
  const LOADS3: Schema := Pair(U16, TWO32)
  const LOADS2: Schema := Pair(U16, LOADS3)
  const LOADS: Schema := Pair(U16, LOADS2)
  const CLOCKS: Schema := Pair(U16, TWO32)
  const STAT_PROCS: Schema := Pair(List(PROC), TWO32)
  const STAT_NETS: Schema := Pair(List(DEV), STAT_PROCS)
  const STAT_DISKS: Schema := Pair(List(DEV), STAT_NETS)
  const STAT_CLOCKS: Schema := Pair(CLOCKS, STAT_DISKS)
  const STAT_TEMPS: Schema := Pair(List(U16), STAT_CLOCKS)
  const STAT_LOADS: Schema := Pair(LOADS, STAT_TEMPS)
  const STAT_MEM: Schema := Pair(SIX, STAT_LOADS)
  const STAT_CPUS: Schema := Pair(List(CPU), STAT_MEM)
  const STAT: Schema := Pair(U64, STAT_CPUS)

  function Layout(tag: byte): (sc: Option<Schema>)
    ensures sc.Some? <==> 1 <= tag <= 21
  {
    match tag
    case 1 => Some(EXEC)
    case 2 | 4 | 5 | 8 | 11 => Some(Tail)
    case 3 | 9 | 14 | 16 | 18 | 20 => Some(Unit)
    case 6 => Some(U32)
    case 7 => Some(PUT)
    case 10 | 13 | 15 | 17 => Some(Text)
    case 12 => Some(U64)
    case 19 => Some(STAT)
    case 21 => Some(SIX)
    case _ => None
  }

  // ------------------------------------------------------------ building and taking apart values

  function Both(ghost a: Schema, ghost b: Schema, x: Value, y: Value): (v: Value)
    requires Fits(a, x) && Fits(b, y)
    ensures Fits(Pair(a, b), v) && v == Two(x, y)
  {
    Two(x, y)
  }

  function Fst(ghost a: Schema, ghost b: Schema, v: Value): (x: Value)
    requires Fits(Pair(a, b), v)
    ensures Fits(a, x) && v.Two? && x == v.a
  {
    v.a
  }

  function Snd(ghost a: Schema, ghost b: Schema, v: Value): (y: Value)
    requires Fits(Pair(a, b), v)
    ensures Fits(b, y) && v.Two? && y == v.b
  {
    v.b
  }

  function Number(ghost size: nat, n: nat): (v: Value)
    requires n < Limit(size)
    ensures Fits(Fixed(size), v) && v == Num(n)
  {
    Num(n)
  }

  function OfNumber(ghost size: nat, v: Value): (n: nat)
    requires Fits(Fixed(size), v)
    ensures v == Num(n) && n < Limit(size)
  {
    v.n
  }

  function Word(s: Str): (v: Value)
    ensures Fits(Text, v) && v == Chars(s)
  {
    Chars(s)
  }

  function OfWord(v: Value): (s: Str)
    requires Fits(Text, v)
    ensures v == Chars(s)
  {
    v.s
  }

  function MapVal<T(!new)>(item: Schema, f: T -> Value, xs: seq<T>): (v: Value)
    requires forall x: T :: Fits(item, f(x))
    ensures Fits(List(item), v) && v.Items? && |v.vs| == |xs|
    ensures forall i | 0 <= i < |xs| :: v.vs[i] == f(xs[i])
  {
    Items(seq(|xs|, i requires 0 <= i < |xs| => f(xs[i])))
  }

  function MapOf<T(!new)>(item: Schema, of: Value --> T, v: Value): (xs: seq<T>)
    requires Fits(List(item), v) && forall w | Fits(item, w) :: of.requires(w)
    ensures v.Items? && |xs| == |v.vs|
    ensures forall i | 0 <= i < |xs| :: Fits(item, v.vs[i]) && xs[i] == of(v.vs[i])
  {
    seq(|v.vs|, i requires 0 <= i < |v.vs| => of(v.vs[i]))
  }

  /** A list after the trip: cut to the wire's limit, each item changed by `g`. */
  function Cut<T>(g: T -> T, xs: seq<T>): (ys: seq<T>)
    ensures |ys| == Shorter(|xs|) && forall i | 0 <= i < |ys| :: ys[i] == g(xs[i])
  {
    seq(Shorter(|xs|), i requires 0 <= i < Shorter(|xs|) => g(xs[i]))
  }

  lemma MapBack<T(!new)>(item: Schema, f: T -> Value, of: Value --> T, xs: seq<T>)
    requires forall x: T :: Fits(item, f(x))
    requires forall w | Fits(item, w) :: of.requires(w)
    requires forall x: T :: of(f(x)) == x
    ensures MapOf(item, of, MapVal(item, f, xs)) == xs
  {
  }

  lemma MapNorm<T(!new)>(item: Schema, f: T -> Value, g: T -> T, xs: seq<T>)
    requires forall x: T :: Fits(item, f(x))
    requires forall x: T :: Norm(item, f(x)) == f(g(x))
    ensures Norm(List(item), MapVal(item, f, xs)) == MapVal(item, f, Cut(g, xs))
  {
    var v := MapVal(item, f, xs);
    var n := NormItems(item, v.vs[..Shorter(|xs|)]);
    assert n == MapVal(item, f, Cut(g, xs)).vs;
  }

  lemma NormPair(a: Schema, b: Schema, x: Value, y: Value)
    requires Fits(a, x) && Fits(b, y)
    ensures Fits(Pair(a, b), Two(x, y)) && Norm(Pair(a, b), Two(x, y)) == Two(Norm(a, x), Norm(b, y))
  {
  }

  lemma NormLeaf(sc: Schema, v: Value)
    requires Fits(sc, v)
    ensures sc.Fixed? || sc.Tail? || sc.Unit? ==> Norm(sc, v) == v
    ensures sc.Text? ==> Norm(sc, v) == Chars(Clip(v.s, MAX_STRING))
  {
  }

  // ------------------------------------------------------------ integers of the Rust types

  /** The bits of a signed number, as `as u16` and `to_le_bytes` see them. */
  function Unsigned(x: int, size: nat): (n: nat)
    requires 0 <= 2 * x + Limit(size) < 2 * Limit(size)
    ensures n < Limit(size)
  {
    if x < 0 then x + Limit(size) else x
  }

  function Signed(n: int, size: nat): (x: int)
    requires 0 <= n < Limit(size)
    ensures 0 <= 2 * x + Limit(size) < 2 * Limit(size)
    ensures Unsigned(x, size) == n
  {
    if 2 * n >= Limit(size) then n - Limit(size) else n
  }

  // ------------------------------------------------------------ records and values

  function CpuVal(c: CpuStat): (v: Value)
    ensures Fits(CPU, v)
  {
    hide Fits;
    Limits();
    Both(U16, TWO32, Number(2, c.core), Both(U32, U32, Number(4, c.busy), Number(4, c.idle)))
  }

  function OfCpu(v: Value): CpuStat
    requires Fits(CPU, v)
  {
    hide Fits;
    Limits();
    var r := Snd(U16, TWO32, v);
    CpuStat(OfNumber(2, Fst(U16, TWO32, v)), OfNumber(4, Fst(U32, U32, r)), OfNumber(4, Snd(U32, U32, r)))
  }

  function DevVal(d: DevStat): (v: Value)
    ensures Fits(DEV, v)
  {
    hide Fits;
    Limits();
    Both(Text, TWO64, Word(d.name), Both(U64, U64, Number(8, d.read), Number(8, d.written)))
  }

  function OfDev(v: Value): DevStat
    requires Fits(DEV, v)
  {
    hide Fits;
    Limits();
    var r := Snd(Text, TWO64, v);
    DevStat(OfWord(Fst(Text, TWO64, v)), OfNumber(8, Fst(U64, U64, r)), OfNumber(8, Snd(U64, U64, r)))
  }

  function ProcVal(p: ProcStat): (v: Value)
    ensures Fits(PROC, v)
  {
    hide Fits;
    Limits();
    var n4 := Both(U64, U32, Number(8, p.rss), Number(4, p.threads));
    var n3 := Both(U64, PROC4, Number(8, p.ticks), n4);
    var n2 := Both(U8, PROC3, Number(1, if p.kthread then 1 else 0), n3);
    var n1 := Both(U8, PROC2, Number(1, p.state), n2);
    Both(PROC_NUMBERS, Text, Both(U32, PROC1, Number(4, p.pid), n1), Word(p.comm))
  }

  function OfProc(v: Value): ProcStat
    requires Fits(PROC, v)
  {
    hide Fits;
    Limits();
    var n := Fst(PROC_NUMBERS, Text, v);
    var n1 := Snd(U32, PROC1, n);
    var n2 := Snd(U8, PROC2, n1);
    var n3 := Snd(U8, PROC3, n2);
    var n4 := Snd(U64, PROC4, n3);
    ProcStat(OfNumber(4, Fst(U32, PROC1, n)), OfNumber(1, Fst(U8, PROC2, n1)), OfNumber(1, Fst(U8, PROC3, n2)) != 0,
             OfNumber(8, Fst(U64, PROC4, n3)), OfNumber(8, Fst(U64, U32, n4)), OfNumber(4, Snd(U64, U32, n4)),
             OfWord(Snd(PROC_NUMBERS, Text, v)))
  }

  function SixVal(a: u64, b: u64, c: u64, d: u64, e: u64, f: u64): (v: Value)
    ensures Fits(SIX, v)
  {
    hide Fits;
    Limits();
    var t2 := Both(U64, U64, Number(8, e), Number(8, f));
    var t3 := Both(U64, TWO64, Number(8, d), t2);
    var t4 := Both(U64, THREE, Number(8, c), t3);
    var t5 := Both(U64, FOUR, Number(8, b), t4);
    Both(U64, FIVE, Number(8, a), t5)
  }

  function OfSix(v: Value): (u64, u64, u64, u64, u64, u64)
    requires Fits(SIX, v)
  {
    hide Fits;
    Limits();
    var t5 := Snd(U64, FIVE, v);
    var t4 := Snd(U64, FOUR, t5);
    var t3 := Snd(U64, THREE, t4);
    var t2 := Snd(U64, TWO64, t3);
    (OfNumber(8, Fst(U64, FIVE, v)), OfNumber(8, Fst(U64, FOUR, t5)), OfNumber(8, Fst(U64, THREE, t4)),
     OfNumber(8, Fst(U64, TWO64, t3)), OfNumber(8, Fst(U64, U64, t2)), OfNumber(8, Snd(U64, U64, t2)))
  }

  function MemVal(m: MemStat): (v: Value)
    ensures Fits(SIX, v)
  {
    SixVal(m.total, m.avail, m.buffers, m.cached, m.swapTotal, m.swapFree)
  }

  function OfMem(v: Value): MemStat
    requires Fits(SIX, v)
  {
    var (a, b, c, d, e, f) := OfSix(v);
    MemStat(a, b, c, d, e, f)
  }

  function LoadsVal(s: StatData): (v: Value)
    ensures Fits(LOADS, v)
  {
    hide Fits;
    Limits();
    var l2 := Both(U32, U32, Number(4, s.running), Number(4, s.tasks));
    var l3 := Both(U16, TWO32, Number(2, s.load.2), l2);
    Both(U16, LOADS2, Number(2, s.load.0), Both(U16, LOADS3, Number(2, s.load.1), l3))
  }

  function OfLoads(v: Value): (u16, u16, u16, u32, u32)
    requires Fits(LOADS, v)
  {
    hide Fits;
    Limits();
    var l2 := Snd(U16, LOADS2, v);
    var l3 := Snd(U16, LOADS3, l2);
    var l4 := Snd(U16, TWO32, l3);
    (OfNumber(2, Fst(U16, LOADS2, v)), OfNumber(2, Fst(U16, LOADS3, l2)), OfNumber(2, Fst(U16, TWO32, l3)),
     OfNumber(4, Fst(U32, U32, l4)), OfNumber(4, Snd(U32, U32, l4)))
  }

  function ShortVal(t: i16): (v: Value)
    ensures Fits(U16, v)
  {
    Limits();
    Number(2, Unsigned(t, 2))
  }

  function OfShort(v: Value): i16
    requires Fits(U16, v)
  {
    Limits();
    Signed(OfNumber(2, v), 2)
  }

  function ClocksVal(s: StatData): (v: Value)
    ensures Fits(CLOCKS, v)
  {
    hide Fits;
    Limits();
    Both(U16, TWO32, ShortVal(s.tempPeak), Both(U32, U32, Number(4, s.vcore), Number(4, s.coreMhz)))
  }

  function OfClocks(v: Value): (i16, u32, u32)
    requires Fits(CLOCKS, v)
  {
    hide Fits;
    Limits();
    var r := Snd(U16, TWO32, v);
    (OfShort(Fst(U16, TWO32, v)), OfNumber(4, Fst(U32, U32, r)), OfNumber(4, Snd(U32, U32, r)))
  }

  function CountsVal(s: StatData): (v: Value)
    ensures Fits(TWO32, v)
  {
    Limits();
    Both(U32, U32, Number(4, s.nprocs), Number(4, s.nkthreads))
  }

  function ListsVal(s: StatData): (v: Value)
    ensures Fits(STAT_DISKS, v)
  {
    hide Fits;
    var procs := Both(List(PROC), TWO32, MapVal(PROC, ProcVal, s.procs), CountsVal(s));
    var nets := Both(List(DEV), STAT_PROCS, MapVal(DEV, DevVal, s.nets), procs);
    Both(List(DEV), STAT_NETS, MapVal(DEV, DevVal, s.disks), nets)
  }

  function StatVal(s: StatData): (v: Value)
    ensures Fits(STAT, v)
  {
    hide Fits;
    Limits();
    var clocks := Both(CLOCKS, STAT_DISKS, ClocksVal(s), ListsVal(s));
    var temps := Both(List(U16), STAT_CLOCKS, MapVal(U16, ShortVal, s.temps), clocks);
    var loads := Both(LOADS, STAT_TEMPS, LoadsVal(s), temps);
    var mem := Both(SIX, STAT_LOADS, MemVal(s.mem), loads);
    var cpus := Both(List(CPU), STAT_MEM, MapVal(CPU, CpuVal, s.cpus), mem);
    Both(U64, STAT_CPUS, Number(8, s.uptime), cpus)
  }

  function OfStat(v: Value): StatData
    requires Fits(STAT, v)
  {
    hide Fits;
    Limits();
    var vc := Snd(U64, STAT_CPUS, v);
    var vm := Snd(List(CPU), STAT_MEM, vc);
    var vl := Snd(SIX, STAT_LOADS, vm);
    var vt := Snd(LOADS, STAT_TEMPS, vl);
    var vk := Snd(List(U16), STAT_CLOCKS, vt);
    var vd := Snd(CLOCKS, STAT_DISKS, vk);
    var vn := Snd(List(DEV), STAT_NETS, vd);
    var vp := Snd(List(DEV), STAT_PROCS, vn);
    var vo := Snd(List(PROC), TWO32, vp);
    var loads := OfLoads(Fst(LOADS, STAT_TEMPS, vl));
    var clocks := OfClocks(Fst(CLOCKS, STAT_DISKS, vk));
    StatData(
      OfNumber(8, Fst(U64, STAT_CPUS, v)), MapOf(CPU, OfCpu, Fst(List(CPU), STAT_MEM, vc)),
      OfMem(Fst(SIX, STAT_LOADS, vm)), (loads.0, loads.1, loads.2), loads.3, loads.4,
      MapOf(U16, OfShort, Fst(List(U16), STAT_CLOCKS, vt)), clocks.0, clocks.1, clocks.2,
      MapOf(DEV, OfDev, Fst(List(DEV), STAT_NETS, vd)), MapOf(DEV, OfDev, Fst(List(DEV), STAT_PROCS, vn)),
      MapOf(PROC, OfProc, Fst(List(PROC), TWO32, vp)), OfNumber(4, Fst(U32, U32, vo)), OfNumber(4, Snd(U32, U32, vo)))
  }

  function EntryVal(e: (Str, Str)): (v: Value)
    ensures Fits(ENTRY, v)
  {
    Both(Text, Text, Word(e.0), Word(e.1))
  }

  function OfEntry(v: Value): (Str, Str)
    requires Fits(ENTRY, v)
  {
    (OfWord(Fst(Text, Text, v)), OfWord(Snd(Text, Text, v)))
  }

  function Rest(data: seq<byte>): (v: Value)
    ensures Fits(Tail, v) && v == Blob(data)
  {
    Blob(data)
  }

  function Empty(): (v: Value)
    ensures Fits(Unit, v) && v == Nothing
  {
    Nothing
  }

  function ExecVal(argv: seq<Str>, env: seq<(Str, Str)>, cwd: Option<Str>): (v: Value)
    ensures Fits(EXEC, v)
  {
    hide Fits;
    var dir := Word(if cwd.Some? then cwd.value else []);
    Both(List(Text), EXEC_ENV, MapVal(Text, Word, argv), Both(List(ENTRY), Text, MapVal(ENTRY, EntryVal, env), dir))
  }

  function PutVal(path: Str, mode: u32): (v: Value)
    ensures Fits(PUT, v)
  {
    hide Fits;
    Limits();
    Both(Text, U32, Word(path), Number(4, mode))
  }

  function TrafficVal(t: TrafficData): (v: Value)
    ensures Fits(SIX, v)
  {
    SixVal(t.dmaTo, t.dmaFrom, t.apertureTo, t.apertureFrom, t.copiesTo, t.copiesFrom)
  }

  function ExitVal(code: i32): (v: Value)
    ensures Fits(U32, v)
  {
    Limits();
    Number(4, Unsigned(code, 4))
  }

  function SizeVal(size: u64): (v: Value)
    ensures Fits(U64, v)
  {
    Limits();
    Number(8, size)
  }

  /** The layout of a message's body. */
  function LayoutOf(m: Msg): Schema {
    match m
    case Exec(_, _, _) => EXEC
    case Exit(_) => U32
    case PutOpen(_, _) => PUT
    case Get(_) => Text
    case GetEnd(_) => U64
    case Error(_) => Text
    case Pong(_) => Text
    case SensorsReply(_) => Text
    case StatReply(_) => STAT
    case TrafficReply(_) => SIX
    case Stdin(_) => Tail
    case Stdout(_) => Tail
    case Stderr(_) => Tail
    case PutData(_) => Tail
    case GetData(_) => Tail
    case _ => Unit
  }

  lemma TagLayout(m: Msg)
    ensures Layout(TagOf(m)) == Some(LayoutOf(m))
  {
  }

  function MsgVal(m: Msg): (v: Value)
    ensures Fits(LayoutOf(m), v)
  {
    hide Fits, Limit, Unsigned, Valid, ExecVal, PutVal, StatVal, TrafficVal, Word, Number, Rest, Empty;
    match m
    case Exec(argv, env, cwd) => ExecVal(argv, env, cwd)
    case Exit(code) => ExitVal(code)
    case PutOpen(path, mode) => PutVal(path, mode)
    case Get(path) => Word(path)
    case GetEnd(size) => SizeVal(size)
    case Error(text) => Word(text)
    case Pong(version) => Word(version)
    case SensorsReply(text) => Word(text)
    case StatReply(s) => StatVal(s)
    case TrafficReply(t) => TrafficVal(t)
    case Stdin(d) => Rest(d)
    case Stdout(d) => Rest(d)
    case Stderr(d) => Rest(d)
    case PutData(d) => Rest(d)
    case GetData(d) => Rest(d)
    case _ => Empty()
  }

  function OfExec(v: Value): (m: Msg)
    requires Fits(EXEC, v)
    ensures m.Exec?
  {
    hide Fits;
    var rest := Snd(List(Text), EXEC_ENV, v);
    var dir := OfWord(Snd(List(ENTRY), Text, rest));
    var argv, env := MapOf(Text, OfWord, Fst(List(Text), EXEC_ENV, v)), MapOf(ENTRY, OfEntry, Fst(List(ENTRY), Text, rest));
    Exec(argv, env, if dir == [] then None else Some(dir))
  }

  function OfPut(v: Value): (m: Msg)
    requires Fits(PUT, v)
    ensures m.PutOpen?
  {
    hide Fits;
    Limits();
    PutOpen(OfWord(Fst(Text, U32, v)), OfNumber(4, Snd(Text, U32, v)))
  }

  function OfExit(v: Value): (m: Msg)
    requires Fits(U32, v)
    ensures m.Exit?
  {
    Limits();
    Exit(Signed(OfNumber(4, v), 4))
  }

  function OfSize(v: Value): (m: Msg)
    requires Fits(U64, v)
    ensures m.GetEnd?
  {
    Limits();
    GetEnd(OfNumber(8, v))
  }

  function OfTraffic(v: Value): (m: Msg)
    requires Fits(SIX, v)
    ensures m.TrafficReply?
  {
    var (a, b, c, d, e, f) := OfSix(v);
    TrafficReply(TrafficData(a, b, c, d, e, f))
  }

  function OfRest(v: Value): (d: seq<byte>)
    requires Fits(Tail, v)
    ensures v == Blob(d)
  {
    v.bytes
  }

  /** The message a body's value stands for. */
  function OfMsg(tag: byte, v: Value): (m: Msg)
    requires Layout(tag).Some? && Fits(Layout(tag).value, v)
  {
    hide Fits, Valid, OfExec, OfRest, OfExit, OfPut, OfSize, OfWord, OfStat, OfTraffic;
    match tag
    case 1 => OfExec(v)
    case 2 => Stdin(OfRest(v))
    case 3 => StdinEof
    case 4 => Stdout(OfRest(v))
    case 5 => Stderr(OfRest(v))
    case 6 => OfExit(v)
    case 7 => OfPut(v)
    case 8 => PutData(OfRest(v))
    case 9 => PutClose
    case 10 => Get(OfWord(v))
    case 11 => GetData(OfRest(v))
    case 12 => OfSize(v)
    case 13 => Error(OfWord(v))
    case 14 => Ping
    case 15 => Pong(OfWord(v))
    case 16 => Sensors
    case 17 => SensorsReply(OfWord(v))
    case 18 => Stat
    case 19 => StatReply(OfStat(v))
    case 20 => Traffic
    case _ => OfTraffic(v)
  }

  // ------------------------------------------------------------ what survives the trip

  function ClipStr(s: Str): (r: Str)
    ensures LongestWithin(s, MAX_STRING, r) && (r == [] <==> s == [])
  {
    hide IsBoundary, ClipAt;
    ClipLongest(s, MAX_STRING);
    FirstCharFits(s);
    Clip(s, MAX_STRING)
  }

  lemma FirstCharFits(s: Str)
    ensures s != [] ==> 1 <= CharLength(s) <= 4 && Valid(s[..CharLength(s)])
  {
    if s != [] {
      LongPrefix(s, CharLength(s));
    }
  }

  function ClipEntry(e: (Str, Str)): (Str, Str) { (ClipStr(e.0), ClipStr(e.1)) }

  function ClipDev(d: DevStat): DevStat { d.(name := ClipStr(d.name)) }

  function ClipProc(p: ProcStat): ProcStat { p.(comm := ClipStr(p.comm)) }

  function Same<T>(x: T): T { x }

  function ClipStat(s: StatData): StatData {
    s.(cpus := Cut(Same, s.cpus), temps := Cut(Same, s.temps), disks := Cut(ClipDev, s.disks),
       nets := Cut(ClipDev, s.nets), procs := Cut(ClipProc, s.procs))
  }

  /** A message as the other end sees it: strings clipped, lists cut, an empty directory no directory. */
  function Clipped(m: Msg): Msg {
    match m
    case Exec(argv, env, cwd) =>
      Exec(Cut(ClipStr, argv), Cut(ClipEntry, env), if cwd.None? || cwd.value == [] then None else Some(ClipStr(cwd.value)))
    case PutOpen(path, mode) => PutOpen(ClipStr(path), mode)
    case Get(path) => Get(ClipStr(path))
    case Error(text) => Error(ClipStr(text))
    case Pong(version) => Pong(ClipStr(version))
    case SensorsReply(text) => SensorsReply(ClipStr(text))
    case StatReply(s) => StatReply(ClipStat(s))
    case _ => m
  }

  lemma ClipWord(s: Str)
    ensures Norm(Text, Word(s)) == Word(ClipStr(s))
  {
    NormLeaf(Text, Word(s));
  }

  lemma Widths()
    ensures Width(U8) == Some(1) && Width(U16) == Some(2) && Width(U32) == Some(4) && Width(U64) == Some(8)
    ensures Width(CPU) == Some(10) && Width(SIX) == Some(48) && Width(LOADS) == Some(14) && Width(CLOCKS) == Some(10)
    ensures Width(PROC_NUMBERS) == Some(26) && Width(TWO32) == Some(8) && Width(TWO64) == Some(16)
  {
    assert Width(TWO32) == Some(8) && Width(TWO64) == Some(16) && Width(THREE) == Some(24) && Width(FOUR) == Some(32);
    assert Width(FIVE) == Some(40) && Width(LOADS3) == Some(10) && Width(LOADS2) == Some(12);
    assert Width(PROC4) == Some(12) && Width(PROC3) == Some(20) && Width(PROC2) == Some(21) && Width(PROC1) == Some(22);
  }

  lemma ClipCpu(c: CpuStat)
    ensures Norm(CPU, CpuVal(c)) == CpuVal(c) && OfCpu(CpuVal(c)) == c
  {
    hide Fits, Norm, Limit, Width;
    Limits();
    Widths();
    NumbersSurvive(CPU, CpuVal(c));
  }

  lemma ClipShort(t: i16)
    ensures Norm(U16, ShortVal(t)) == ShortVal(t) && OfShort(ShortVal(t)) == t
  {
    hide Fits, Norm, Limit;
    Limits();
    NumbersSurvive(U16, ShortVal(t));
  }

  lemma ClipDevVal(d: DevStat)
    ensures Norm(DEV, DevVal(d)) == DevVal(ClipDev(d)) && OfDev(DevVal(d)) == d
  {
    hide Fits, Norm, Limit, Width, ClipStr;
    Limits();
    Widths();
    var n := Both(U64, U64, Number(8, d.read), Number(8, d.written));
    NormPair(Text, TWO64, Word(d.name), n);
    NumbersSurvive(TWO64, n);
    ClipWord(d.name);
  }

  lemma ClipProcVal(p: ProcStat)
    ensures Norm(PROC, ProcVal(p)) == ProcVal(ClipProc(p)) && OfProc(ProcVal(p)) == p
  {
    hide Fits, Norm, Limit, Width, ClipStr;
    Limits();
    Widths();
    var v := ProcVal(p);
    NormPair(PROC_NUMBERS, Text, v.a, v.b);
    NumbersSurvive(PROC_NUMBERS, v.a);
    ClipWord(p.comm);
  }

  lemma ClipEntryVal(e: (Str, Str))
    ensures Norm(ENTRY, EntryVal(e)) == EntryVal(ClipEntry(e)) && OfEntry(EntryVal(e)) == e
  {
    hide Fits, Norm, ClipStr;
    NormPair(Text, Text, Word(e.0), Word(e.1));
    ClipWord(e.0);
    ClipWord(e.1);
  }

  lemma ClipListsVal(s: StatData)
    ensures Norm(STAT_DISKS, ListsVal(s)) == ListsVal(ClipStat(s))
  {
    hide Fits, Norm, Limit, Width, ClipStr, MapVal, DevVal, ProcVal, Cut;
    Widths();
    forall d: DevStat
      ensures Norm(DEV, DevVal(d)) == DevVal(ClipDev(d))
    {
      ClipDevVal(d);
    }
    forall p: ProcStat
      ensures Norm(PROC, ProcVal(p)) == ProcVal(ClipProc(p))
    {
      ClipProcVal(p);
    }
    MapNorm(DEV, DevVal, ClipDev, s.disks);
    MapNorm(DEV, DevVal, ClipDev, s.nets);
    MapNorm(PROC, ProcVal, ClipProc, s.procs);
    NumbersSurvive(TWO32, CountsVal(s));
    var v := ListsVal(s);
    NormPair(List(DEV), STAT_NETS, v.a, v.b);
    NormPair(List(DEV), STAT_PROCS, v.b.a, v.b.b);
    NormPair(List(PROC), TWO32, v.b.b.a, v.b.b.b);
  }

  lemma ClipStatVal(s: StatData)
    ensures Norm(STAT, StatVal(s)) == StatVal(ClipStat(s))
  {
    hide Fits, Norm, Limit, Width, ClipStr, MapVal, CpuVal, ShortVal, Cut, ListsVal, MemVal;
    Limits();
    Widths();
    forall c: CpuStat
      ensures Norm(CPU, CpuVal(c)) == CpuVal(Same(c))
    {
      ClipCpu(c);
    }
    forall t: i16
      ensures Norm(U16, ShortVal(t)) == ShortVal(Same(t))
    {
      ClipShort(t);
    }
    MapNorm(CPU, CpuVal, Same, s.cpus);
    MapNorm(U16, ShortVal, Same, s.temps);
    ClipListsVal(s);
    NumbersSurvive(U64, Number(8, s.uptime));
    NumbersSurvive(SIX, MemVal(s.mem));
    NumbersSurvive(LOADS, LoadsVal(s));
    NumbersSurvive(CLOCKS, ClocksVal(s));
    var v := StatVal(s);
    NormPair(U64, STAT_CPUS, v.a, v.b);
    NormPair(List(CPU), STAT_MEM, v.b.a, v.b.b);
    NormPair(SIX, STAT_LOADS, v.b.b.a, v.b.b.b);
    NormPair(LOADS, STAT_TEMPS, v.b.b.b.a, v.b.b.b.b);
    NormPair(List(U16), STAT_CLOCKS, v.b.b.b.b.a, v.b.b.b.b.b);
    NormPair(CLOCKS, STAT_DISKS, v.b.b.b.b.b.a, v.b.b.b.b.b.b);
  }

  lemma StatBack(s: StatData)
    ensures OfStat(StatVal(s)) == s
  {
    hide Fits, Limit, MapVal, MapOf, CpuVal, OfCpu, ShortVal, OfShort, DevVal, OfDev, ProcVal, OfProc;
    Limits();
    forall c: CpuStat
      ensures OfCpu(CpuVal(c)) == c
    {
      ClipCpu(c);
    }
    forall t: i16
      ensures OfShort(ShortVal(t)) == t
    {
      ClipShort(t);
    }
    forall d: DevStat
      ensures OfDev(DevVal(d)) == d
    {
      ClipDevVal(d);
    }
    forall p: ProcStat
      ensures OfProc(ProcVal(p)) == p
    {
      ClipProcVal(p);
    }
    MapBack(CPU, CpuVal, OfCpu, s.cpus);
    MapBack(U16, ShortVal, OfShort, s.temps);
    MapBack(DEV, DevVal, OfDev, s.disks);
    MapBack(DEV, DevVal, OfDev, s.nets);
    MapBack(PROC, ProcVal, OfProc, s.procs);
    ClipShort(s.tempPeak);
  }

  lemma ClipExecVal(argv: seq<Str>, env: seq<(Str, Str)>, cwd: Option<Str>)
    ensures var m := Clipped(Exec(argv, env, cwd));
      Norm(EXEC, ExecVal(argv, env, cwd)) == ExecVal(m.argv, m.env, m.cwd) &&
      OfExec(ExecVal(argv, env, cwd)) == Exec(argv, env, if cwd == Some([]) then None else cwd)
  {
    hide Fits, Norm, ClipStr, MapVal, MapOf, EntryVal, OfEntry, Cut, Word, OfWord;
    forall s: Str
      ensures Norm(Text, Word(s)) == Word(ClipStr(s)) && OfWord(Word(s)) == s
    {
      ClipWord(s);
    }
    forall e: (Str, Str)
      ensures Norm(ENTRY, EntryVal(e)) == EntryVal(ClipEntry(e)) && OfEntry(EntryVal(e)) == e
    {
      ClipEntryVal(e);
    }
    MapNorm(Text, Word, ClipStr, argv);
    MapNorm(ENTRY, EntryVal, ClipEntry, env);
    MapBack(Text, Word, OfWord, argv);
    MapBack(ENTRY, EntryVal, OfEntry, env);
    var v := ExecVal(argv, env, cwd);
    NormPair(List(Text), EXEC_ENV, v.a, v.b);
    NormPair(List(ENTRY), Text, v.b.a, v.b.b);
  }

  lemma ClippedKind(m: Msg)
    ensures LayoutOf(Clipped(m)) == LayoutOf(m) && TagOf(Clipped(m)) == TagOf(m)
  {
  }

  /** What the layouts do to a message's value is what `Clipped` says of the message. */
  lemma ClipMsgVal(m: Msg)
    ensures Norm(LayoutOf(m), MsgVal(m)) == MsgVal(Clipped(m))
  {
    hide Fits, Norm, ClipStr, ExecVal, StatVal, Word, ClipStat, Cut, ExitVal, SizeVal, TrafficVal, Rest, Empty, PutVal, Plain, Width;
    match m {
      case Exec(argv, env, cwd) => ClipExecVal(argv, env, cwd);
      case PutOpen(path, mode) => ClipPutVal(path, mode);
      case Get(path) => ClipWord(path);
      case Error(text) => ClipWord(text);
      case Pong(version) => ClipWord(version);
      case SensorsReply(text) => ClipWord(text);
      case StatReply(s) => ClipStatVal(s);
      case _ => ClipPlainVal(m);
    }
  }

  lemma ClipPlainVal(m: Msg)
    requires !m.Exec? && !m.PutOpen? && !m.Get? && !m.Error? && !m.Pong? && !m.SensorsReply? && !m.StatReply?
    ensures Clipped(m) == m && Norm(LayoutOf(m), MsgVal(m)) == MsgVal(m)
  {
    hide Norm, MsgVal, LayoutOf, Plain;
    PlainLayout(m);
    PlainSurvives(LayoutOf(m), MsgVal(m));
  }

  predicate Plain(sc: Schema) { Width(sc).Some? || sc.Tail? || sc.Unit? }

  lemma PlainLayout(m: Msg)
    ensures m.Exit? || m.GetEnd? || m.TrafficReply? ==> Plain(LayoutOf(m))
    ensures m.Stdin? || m.Stdout? || m.Stderr? || m.PutData? || m.GetData? ==> Plain(LayoutOf(m))
    ensures m.StdinEof? || m.PutClose? || m.Ping? || m.Sensors? || m.Stat? || m.Traffic? ==> Plain(LayoutOf(m))
  {
    hide Width;
    Widths();
  }

  lemma PlainSurvives(sc: Schema, v: Value)
    requires Plain(sc) && Fits(sc, v)
    ensures Norm(sc, v) == v
  {
    if Width(sc).Some? {
      NumbersSurvive(sc, v);
    }
  }

  lemma ClipPutVal(path: Str, mode: u32)
    ensures Norm(PUT, PutVal(path, mode)) == PutVal(ClipStr(path), mode)
    ensures OfPut(PutVal(path, mode)) == PutOpen(path, mode)
  {
    hide Fits, Norm, ClipStr;
    Limits();
    NormPair(Text, U32, Word(path), Number(4, mode));
    ClipWord(path);
    NormLeaf(U32, Number(4, mode));
  }

  function Back(m: Msg): Msg {
    hide Fits, TagOf, Layout, LayoutOf, MsgVal;
    TagLayout(m);
    OfMsg(TagOf(m), MsgVal(m))
  }

  /** The message a value stands for is the one it was made from, but for an empty directory. */
  lemma MsgBack(m: Msg)
    requires m.Exec? ==> m.cwd != Some([])
    ensures Back(m) == m
  {
    hide Fits, Norm, ClipStr, ExecVal, OfExec, StatVal, OfStat, SixVal, OfSix, ClipStat, Cut, PutVal, OfPut;
    TagLayout(m);
    match m {
      case Exec(argv, env, cwd) => ClipExecVal(argv, env, cwd);
      case PutOpen(path, mode) => ClipPutVal(path, mode);
      case StatReply(s) => StatBack(s);
      case TrafficReply(t) => SixBack(t.dmaTo, t.dmaFrom, t.apertureTo, t.apertureFrom, t.copiesTo, t.copiesFrom);
      case _ =>
    }
  }

  lemma SixBack(a: u64, b: u64, c: u64, d: u64, e: u64, f: u64)
    ensures OfSix(SixVal(a, b, c, d, e, f)) == (a, b, c, d, e, f)
  {
    hide Fits, Limit;
    Limits();
  }

  lemma OfMsgTag(tag: byte, v: Value)
    requires Layout(tag).Some? && Fits(Layout(tag).value, v)
    ensures TagOf(OfMsg(tag, v)) == tag
  {
    hide Fits, OfExec, OfExit, OfPut, OfSize, OfStat, OfTraffic, OfWord, OfRest;
  }
}
