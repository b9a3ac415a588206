/** phi-rpc's `Msg::encode`: the `put_*` functions append to a buffer, and what they append is the frame. */
module RpcWriter {
  import opened Options
  import opened Utf8
  import opened Wire
  import opened Messages
  import opened Rpc

  /** A pair's fields, appended one after the other. */
  lemma PairAppends(out: seq<byte>, a: Schema, b: Schema, x: Value, y: Value)
    requires Fits(a, x) && Fits(b, y)
    ensures Fits(Pair(a, b), Two(x, y))
    ensures out + Enc(Pair(a, b), Two(x, y)) == out + Enc(a, x) + Enc(b, y)
  {
    hide Dec, Norm;
    assert out + (Enc(a, x) + Enc(b, y)) == out + Enc(a, x) + Enc(b, y);
  }

  lemma {:induction false} ItemsAppend(item: Schema, vs: seq<Value>, i: nat)
    requires i < |vs| && forall k | 0 <= k < |vs| :: Fits(item, vs[k])
    ensures EncItems(item, vs[..i + 1]) == EncItems(item, vs[..i]) + Enc(item, vs[i])
  {
    hide Enc, Fits;
    if i == 0 {
      assert vs[..1][1..] == [] && vs[..0] == [];
    } else {
      ItemsAppend(item, vs[1..], i - 1);
      assert vs[..i + 1][1..] == vs[1..][..i] && vs[..i][1..] == vs[1..][..i - 1];
    }
  }

  /** The buffer once a list's count and its first `i` items are in. */
  ghost function Started<T(!new)>(out: seq<byte>, item: Schema, f: T -> Value, xs: seq<T>, i: nat): seq<byte>
    requires (forall x: T :: Fits(item, f(x))) && i <= Shorter(|xs|)
  {
    out + LittleEndian(Shorter(|xs|), 2) + EncItems(item, MapVal(item, f, xs).vs[..i])
  }

  lemma StartedSteps<T(!new)>(out: seq<byte>, item: Schema, f: T -> Value, xs: seq<T>, i: nat)
    requires (forall x: T :: Fits(item, f(x))) && i < Shorter(|xs|)
    ensures Started(out, item, f, xs, i + 1) == Started(out, item, f, xs, i) + Enc(item, f(xs[i]))
  {
    hide Enc, EncItems, Fits, LittleEndian;
    ItemsAppend(item, MapVal(item, f, xs).vs, i);
  }

  lemma StartedEnds<T(!new)>(out: seq<byte>, item: Schema, f: T -> Value, xs: seq<T>)
    requires forall x: T :: Fits(item, f(x))
    ensures Started(out, item, f, xs, 0) == out + LittleEndian(Shorter(|xs|), 2)
    ensures Started(out, item, f, xs, Shorter(|xs|)) == out + Enc(List(item), MapVal(item, f, xs))
  {
    hide LittleEndian, Fits, MapVal;
  }

  class Writer {
    var out: seq<byte>

    constructor ()
      ensures out == []
    {
      out := [];
    }

    method PutU8(v: u8)
      modifies this
      ensures out == old(out) + Enc(U8, Num(v)) && Fits(U8, Num(v))
    {
      Limits();
      out := out + [v];
    }

    method PutU16(v: u16)
      modifies this
      ensures Fits(U16, Num(v)) && out == old(out) + Enc(U16, Num(v))
    {
      Limits();
      out := out + LittleEndian(v, 2);
    }

    method PutU32(v: u32)
      modifies this
      ensures Fits(U32, Num(v)) && out == old(out) + Enc(U32, Num(v))
    {
      Limits();
      out := out + LittleEndian(v, 4);
    }

    method PutU64(v: u64)
      modifies this
      ensures Fits(U64, Num(v)) && out == old(out) + Enc(U64, Num(v))
    {
      Limits();
      out := out + LittleEndian(v, 8);
    }

    method PutCount(n: nat) returns (k: nat)
      modifies this
      ensures k == Shorter(n) && out == old(out) + LittleEndian(k, 2)
    {
      k := if n < MAX_LIST then n else MAX_LIST;
      out := out + LittleEndian(k, 2);
    }

    method PutStr(s: Str)
      modifies this
      ensures out == old(out) + Enc(Text, Word(s))
    {
      var b := RustClip(s, MAX_STRING);
      out := out + LittleEndian(|b|, 2);
      out := out + b;
      assert out == old(out) + (LittleEndian(|b|, 2) + b);
    }

    method PutDev(d: DevStat)
      modifies this
      ensures out == old(out) + Enc(DEV, DevVal(d))
    {
      hide Enc, Fits;
      ghost var v := DevVal(d);
      PairAppends(out, Text, TWO64, v.a, v.b);
      PutStr(d.name);
      PairAppends(out, U64, U64, v.b.a, v.b.b);
      PutU64(d.read);
      PutU64(d.written);
    }

    method PutDevs(ds: seq<DevStat>)
      modifies this
      ensures out == old(out) + Enc(List(DEV), MapVal(DEV, DevVal, ds))
    {
      hide Enc, Fits, DevVal, LittleEndian, Started, MapVal;
      StartedEnds(out, DEV, DevVal, ds);
      var n := PutCount(|ds|);
      for i := 0 to n
        invariant out == Started(old(out), DEV, DevVal, ds, i)
      {
        StartedSteps(old(out), DEV, DevVal, ds, i);
        PutDev(ds[i]);
      }
    }

    method PutCpu(c: CpuStat)
      modifies this
      ensures out == old(out) + Enc(CPU, CpuVal(c))
    {
      hide Enc, Fits;
      ghost var v := CpuVal(c);
      PairAppends(out, U16, TWO32, v.a, v.b);
      PutU16(c.core);
      PairAppends(out, U32, U32, v.b.a, v.b.b);
      PutU32(c.busy);
      PutU32(c.idle);
    }

    method PutCpus(cs: seq<CpuStat>)
      modifies this
      ensures out == old(out) + Enc(List(CPU), MapVal(CPU, CpuVal, cs))
    {
      hide Enc, Fits, CpuVal, LittleEndian, Started, MapVal;
      StartedEnds(out, CPU, CpuVal, cs);
      var n := PutCount(|cs|);
      for i := 0 to n
        invariant out == Started(old(out), CPU, CpuVal, cs, i)
      {
        StartedSteps(old(out), CPU, CpuVal, cs, i);
        PutCpu(cs[i]);
      }
    }

    method PutI16(t: i16)
      modifies this
      ensures out == old(out) + Enc(U16, ShortVal(t))
    {
      hide Enc, Fits;
      ghost var v := ShortVal(t);
      Limits();
      PutU16(Unsigned(t, 2));
    }

    method PutTemps(ts: seq<i16>)
      modifies this
      ensures out == old(out) + Enc(List(U16), MapVal(U16, ShortVal, ts))
    {
      hide Enc, Fits, ShortVal, LittleEndian, Started, MapVal;
      StartedEnds(out, U16, ShortVal, ts);
      var n := PutCount(|ts|);
      for i := 0 to n
        invariant out == Started(old(out), U16, ShortVal, ts, i)
      {
        StartedSteps(old(out), U16, ShortVal, ts, i);
        PutI16(ts[i]);
      }
    }

    method PutProc(p: ProcStat)
      modifies this
      ensures out == old(out) + Enc(PROC, ProcVal(p))
    {
      hide Enc, Fits;
      ghost var v := ProcVal(p);
      ghost var n := v.a;
      PairAppends(out, PROC_NUMBERS, Text, n, v.b);
      PairAppends(out, U32, PROC1, n.a, n.b);
      PutU32(p.pid);
      PairAppends(out, U8, PROC2, n.b.a, n.b.b);
      PutU8(p.state);
      PairAppends(out, U8, PROC3, n.b.b.a, n.b.b.b);
      PutU8(if p.kthread then 1 else 0);
      PairAppends(out, U64, PROC4, n.b.b.b.a, n.b.b.b.b);
      PutU64(p.ticks);
      PairAppends(out, U64, U32, n.b.b.b.b.a, n.b.b.b.b.b);
      PutU64(p.rss);
      PutU32(p.threads);
      PutStr(p.comm);
    }

    method PutProcs(ps: seq<ProcStat>)
      modifies this
      ensures out == old(out) + Enc(List(PROC), MapVal(PROC, ProcVal, ps))
    {
      hide Enc, Fits, ProcVal, LittleEndian, Started, MapVal;
      StartedEnds(out, PROC, ProcVal, ps);
      var n := PutCount(|ps|);
      for i := 0 to n
        invariant out == Started(old(out), PROC, ProcVal, ps, i)
      {
        StartedSteps(old(out), PROC, ProcVal, ps, i);
        PutProc(ps[i]);
      }
    }

    method PutSix(a: u64, b: u64, c: u64, d: u64, e: u64, f: u64)
      modifies this
      ensures out == old(out) + Enc(SIX, SixVal(a, b, c, d, e, f))
    {
      hide Enc, Fits;
      ghost var v := SixVal(a, b, c, d, e, f);
      PairAppends(out, U64, FIVE, v.a, v.b);
      PutU64(a);
      PairAppends(out, U64, FOUR, v.b.a, v.b.b);
      PutU64(b);
      PairAppends(out, U64, THREE, v.b.b.a, v.b.b.b);
      PutU64(c);
      PairAppends(out, U64, TWO64, v.b.b.b.a, v.b.b.b.b);
      PutU64(d);
      PairAppends(out, U64, U64, v.b.b.b.b.a, v.b.b.b.b.b);
      PutU64(e);
      PutU64(f);
    }

    method PutLoads(s: StatData)
      modifies this
      ensures out == old(out) + Enc(LOADS, LoadsVal(s))
    {
      hide Enc, Fits;
      ghost var v := LoadsVal(s);
      PairAppends(out, U16, LOADS2, v.a, v.b);
      PutU16(s.load.0);
      PairAppends(out, U16, LOADS3, v.b.a, v.b.b);
      PutU16(s.load.1);
      PairAppends(out, U16, TWO32, v.b.b.a, v.b.b.b);
      PutU16(s.load.2);
      PairAppends(out, U32, U32, v.b.b.b.a, v.b.b.b.b);
      PutU32(s.running);
      PutU32(s.tasks);
    }

    method PutClocks(s: StatData)
      modifies this
      ensures out == old(out) + Enc(CLOCKS, ClocksVal(s))
    {
      hide Enc, Fits;
      ghost var v := ClocksVal(s);
      PairAppends(out, U16, TWO32, v.a, v.b);
      PutI16(s.tempPeak);
      PairAppends(out, U32, U32, v.b.a, v.b.b);
      PutU32(s.vcore);
      PutU32(s.coreMhz);
    }

    method PutLists(s: StatData)
      modifies this
      ensures out == old(out) + Enc(STAT_DISKS, ListsVal(s))
    {
      hide Enc, Fits, MapVal, DevVal, ProcVal;
      ghost var v := ListsVal(s);
      PairAppends(out, List(DEV), STAT_NETS, v.a, v.b);
      PutDevs(s.disks);
      PairAppends(out, List(DEV), STAT_PROCS, v.b.a, v.b.b);
      PutDevs(s.nets);
      PairAppends(out, List(PROC), TWO32, v.b.b.a, v.b.b.b);
      PutProcs(s.procs);
      PairAppends(out, U32, U32, v.b.b.b.a, v.b.b.b.b);
      PutU32(s.nprocs);
      PutU32(s.nkthreads);
    }

    method PutStat(s: StatData)
      modifies this
      ensures out == old(out) + Enc(STAT, StatVal(s))
    {
      hide Enc, Fits, MapVal, CpuVal, ShortVal, ListsVal, LoadsVal, ClocksVal, SixVal;
      ghost var v := StatVal(s);
      PairAppends(out, U64, STAT_CPUS, v.a, v.b);
      PutU64(s.uptime);
      PairAppends(out, List(CPU), STAT_MEM, v.b.a, v.b.b);
      PutCpus(s.cpus);
      PairAppends(out, SIX, STAT_LOADS, v.b.b.a, v.b.b.b);
      PutSix(s.mem.total, s.mem.avail, s.mem.buffers, s.mem.cached, s.mem.swapTotal, s.mem.swapFree);
      PairAppends(out, LOADS, STAT_TEMPS, v.b.b.b.a, v.b.b.b.b);
      PutLoads(s);
      PairAppends(out, List(U16), STAT_CLOCKS, v.b.b.b.b.a, v.b.b.b.b.b);
      PutTemps(s.temps);
      PairAppends(out, CLOCKS, STAT_DISKS, v.b.b.b.b.b.a, v.b.b.b.b.b.b);
      PutClocks(s);
      PutLists(s);
    }

    method PutWords(ws: seq<Str>)
      modifies this
      ensures out == old(out) + Enc(List(Text), MapVal(Text, Word, ws))
    {
      hide Enc, Fits, Word, LittleEndian, Started, MapVal;
      StartedEnds(out, Text, Word, ws);
      var n := PutCount(|ws|);
      for i := 0 to n
        invariant out == Started(old(out), Text, Word, ws, i)
      {
        StartedSteps(old(out), Text, Word, ws, i);
        PutStr(ws[i]);
      }
    }

    method PutEntry(e: (Str, Str))
      modifies this
      ensures out == old(out) + Enc(ENTRY, EntryVal(e))
    {
      hide Enc, Fits;
      ghost var v := EntryVal(e);
      PairAppends(out, Text, Text, v.a, v.b);
      PutStr(e.0);
      PutStr(e.1);
    }

    method PutEntries(es: seq<(Str, Str)>)
      modifies this
      ensures out == old(out) + Enc(List(ENTRY), MapVal(ENTRY, EntryVal, es))
    {
      hide Enc, Fits, EntryVal, LittleEndian, Started, MapVal;
      StartedEnds(out, ENTRY, EntryVal, es);
      var n := PutCount(|es|);
      for i := 0 to n
        invariant out == Started(old(out), ENTRY, EntryVal, es, i)
      {
        StartedSteps(old(out), ENTRY, EntryVal, es, i);
        PutEntry(es[i]);
      }
    }

    method PutExec(argv: seq<Str>, env: seq<(Str, Str)>, cwd: Option<Str>)
      modifies this
      ensures out == old(out) + Enc(EXEC, ExecVal(argv, env, cwd))
    {
      hide Enc, Fits, MapVal, EntryVal;
      ghost var v := ExecVal(argv, env, cwd);
      PairAppends(out, List(Text), EXEC_ENV, v.a, v.b);
      PutWords(argv);
      PairAppends(out, List(ENTRY), Text, v.b.a, v.b.b);
      PutEntries(env);
      PutStr(if cwd.Some? then cwd.value else []);
    }

    method PutBytes(d: seq<byte>)
      modifies this
      ensures out == old(out) + Enc(Tail, Rest(d))
    {
      out := out + d;
    }

    method PutPath(path: Str, mode: u32)
      modifies this
      ensures out == old(out) + Enc(PUT, PutVal(path, mode))
    {
      hide Enc, Fits, Word;
      Limits();
      PairAppends(out, Text, U32, Word(path), Number(4, mode));
      PutStr(path);
      PutU32(mode);
    }

    method PutBody(m: Msg)
      modifies this
      ensures out == old(out) + Body(m)
    {
      hide Enc, Fits, ExecVal, StatVal, SixVal, PutVal, Word, Rest;
      Limits();
      match m {
        case Exec(argv, env, cwd) => PutExec(argv, env, cwd);
        case Stdin(d) => PutBytes(d);
        case Stdout(d) => PutBytes(d);
        case Stderr(d) => PutBytes(d);
        case Exit(code) => PutU32(Unsigned(code, 4));
        case PutOpen(path, mode) => PutPath(path, mode);
        case PutData(d) => PutBytes(d);
        case Get(path) => PutStr(path);
        case GetData(d) => PutBytes(d);
        case GetEnd(size) => PutU64(size);
        case Error(text) => PutStr(text);
        case Pong(version) => PutStr(version);
        case SensorsReply(text) => PutStr(text);
        case StatReply(s) => PutStat(s);
        case TrafficReply(t) => PutSix(t.dmaTo, t.dmaFrom, t.apertureTo, t.apertureFrom, t.copiesTo, t.copiesFrom);
        case _ => BodyLessIsEmpty(m);
      }
    }
  }

  lemma BodyLessIsEmpty(m: Msg)
    requires LayoutOf(m) == Unit
    ensures Body(m) == []
  {
  }

  /** `Msg::encode`: the fields in wire order, behind the length and the tag. */
  method Encode(m: Msg) returns (frame: seq<byte>)
    ensures frame == Frame(m)
  {
    hide Body, LittleEndian, TagOf;
    var w := new Writer();
    w.PutBody(m);
    assert w.out == Body(m);
    frame := LittleEndian(1 + |w.out|, 4);
    frame := frame + [TagOf(m)];
    frame := frame + w.out;
  }
}
