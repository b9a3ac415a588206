/** The card agent's sessions over its reading end: every frame received and sent is logged, and the log keeps
    to the grammar. System calls may do anything they may do; loops are watched for a number of passes. */
module Agent {
  import opened Options
  import opened Utf8
  import opened Blocks
  import opened Syscalls
  import opened Wire
  import opened Messages
  import opened Rpc
  import opened FrameDecoder
  import opened AgentWire
  import opened Sessions

  const INPUT_BACKLOG: nat := 0x10_0000
  const INCAP: nat := 4 * 0x10_0000

  // ------------------------------------------------------------ the input queue

  /** `in_buf` and the command's input pipe. The ghosts are every byte queued, and how many the pipe's descriptor
      had taken before this command. */
  class InputQueue {
    const inBuf: array<byte>
    const pipe: Sink
    var head: nat
    var tail: nat
    var open: bool
    var eof: bool
    ghost var taken: seq<byte>
    ghost var before: nat
    ghost var drained: bool

    constructor ()
      ensures Valid() && fresh(inBuf) && fresh(pipe) && !open && taken == []
    {
      inBuf := new byte[INCAP];
      pipe := new Sink();
      head, tail, open, eof, taken, before, drained := 0, 0, false, false, [], 0, false;
    }

    /** What the command's pipe took. */
    ghost function Written(): seq<byte>
      requires before <= |pipe.wrote|
      reads this, pipe
    {
      pipe.wrote[before..]
    }

    ghost predicate InBounds()
      reads this
    {
      head <= tail <= inBuf.Length == INCAP
    }

    ghost function Queue(): seq<byte>
      requires InBounds()
      reads this, inBuf
    {
      inBuf[head..tail]
    }

    /** Nothing lost, doubled or reordered: while the pipe is open, what was written and what is queued are
        together what was taken; afterwards what was written is a prefix of it, and all of it when the pipe
        was closed because the input ended. */
    ghost predicate Valid()
      reads this, inBuf, pipe
    {
      && InBounds() && before <= |pipe.wrote|
      && (if open then taken == Written() + Queue() else Written() <= taken)
      && (drained ==> eof && !open && Written() == taken)
    }

    method Start()
      requires InBounds()
      modifies this
      ensures Valid() && open && !eof && taken == [] && Written() == [] && Queue() == []
    {
      head, tail, open, eof := 0, 0, true, false;
      taken, before, drained := [], |pipe.wrote|, false;
    }

    /** `in_push`: the payload is queued unless the input has ended or the pipe is gone, or unless even after
        compaction it does not fit. */
    method Push(body: seq<byte>)
      requires Valid()
      modifies this`head, this`tail, this`taken, inBuf
      ensures Valid()
      ensures open && !eof && |old(Queue())| + |body| <= INCAP ==> taken == old(taken) + body && Queue() == old(Queue()) + body
      ensures !(open && !eof && |old(Queue())| + |body| <= INCAP) ==> taken == old(taken) && Queue() == old(Queue())
    {
      if eof || !open {
        return;
      }
      if tail + |body| > INCAP {
        Compact();
        if tail + |body| > INCAP {
          return;
        }
      }
      Append(body);
    }

    method Append(body: seq<byte>)
      requires Valid() && open && tail + |body| <= INCAP
      modifies this`tail, this`taken, inBuf
      ensures Valid() && taken == old(taken) + body && Queue() == old(Queue()) + body
    {
      ghost var q := Queue();
      CopyIn(inBuf, tail, body);
      assert inBuf[head..tail] == inBuf[..tail][head..] == q;
      tail := tail + |body|;
      assert Queue() == q + body;
      assert Written() + q + body == Written() + (q + body);
      taken := taken + body;
    }

    method Compact()
      requires InBounds()
      modifies this`head, this`tail, inBuf
      ensures InBounds() && head == 0 && Queue() == old(Queue())
    {
      var n, from := tail - head, head;
      tail, head := n, 0;
      MoveToFront(inBuf, from, n);
    }

    /** `in_flush`: write what the pipe takes now; close it when all is written after the end of input, or
        when it breaks. `tries` bounds the interrupted writes watched. It stops only with an empty queue, a closed
        pipe, a pipe that took no more, or its tries spent. */
    method Flush(tries: nat)
      requires Valid()
      modifies this`head, this`tail, this`open, this`drained, pipe
      ensures Valid() && |Queue()| <= |old(Queue())| && taken == old(taken) && old(Written()) <= Written()
      ensures (open ==> old(open)) && (drained ==> old(drained) || old(open))
      ensures !open || (Queue() == [] && !eof) || pipe.refusals > old(pipe.refusals) ||
              pipe.interrupts > old(pipe.interrupts) + tries
      ensures old(open) && old(Queue()) != [] ==> pipe.writes > old(pipe.writes)
    {
      var left := tries;
      while open
        invariant Valid() && |Queue()| <= |old(Queue())| && old(Written()) <= Written()
        invariant (open ==> old(open)) && (drained ==> old(drained) || old(open))
        invariant pipe.interrupts == old(pipe.interrupts) + (tries - left) && 0 <= left <= tries
        invariant pipe.writes >= old(pipe.writes) && pipe.refusals >= old(pipe.refusals)
        invariant pipe.writes == old(pipe.writes) ==> open == old(open) && Queue() == old(Queue())
        decreases tail - head, open, left
      {
        if head == tail {
          head, tail := 0, 0;
          if eof {
            open, drained := false, true;
          }
          return;
        }
        var n := WriteSome();
        if n == 0 || n == EAGAIN {
          return;
        } else if n == EINTR {
          if left == 0 {
            return;
          }
          left := left - 1;
        } else if n < 0 {
          open, head, tail := false, 0, 0;
        }
      }
    }

    /** One write of the whole queue: the pipe takes what it takes. */
    method WriteSome() returns (n: int)
      requires Valid() && open && head < tail
      modifies this`head, pipe
      ensures Valid() && n <= |old(Queue())| && |Queue()| == |old(Queue())| - (if n > 0 then n else 0)
      ensures old(Written()) <= Written() && pipe.writes == old(pipe.writes) + 1
      ensures head <= tail && (n <= 0 ==> head == old(head))
      ensures pipe.refusals == old(pipe.refusals) + (if n == 0 || n == EAGAIN then 1 else 0)
      ensures pipe.interrupts == old(pipe.interrupts) + (if n == EINTR then 1 else 0)
    {
      ghost var w, q := Written(), Queue();
      n := pipe.Write(inBuf[head..tail]);
      if n > 0 {
        head := head + n;
        assert Written() == w + q[..n] && Queue() == q[n..] && q == q[..n] + q[n..];
        assert w + q[..n] + q[n..] == w + (q[..n] + q[n..]);
      } else {
        assert Written() == w;
      }
    }

    method Close()
      requires Valid()
      modifies this`open
      ensures Valid() && !open
    {
      open := false;
    }
  }

  /** `write_all`: 0 when every byte was written, else 1 for a write of nothing or -errno, with some prefix
      written; None when no longer watched. */
  method WriteAll(f: Sink, data: seq<byte>, tries: nat) returns (rax: Option<int>)
    modifies f
    ensures old(f.wrote) <= f.wrote <= old(f.wrote) + data
    ensures rax == Some(0) <==> f.wrote == old(f.wrote) + data
    ensures rax.Some? ==> rax.value <= 1 && rax.value != EINTR
    ensures f.failed == (old(f.failed) || (rax.Some? && rax.value != 0))
    ensures f.interrupts >= old(f.interrupts) + (if rax.None? then tries + 1 else 0)
  {
    ghost var w := f.wrote;
    var at, left := 0, tries;
    while at < |data|
      invariant at <= |data| && f.wrote == w + data[..at] && f.failed == old(f.failed)
      invariant f.interrupts == old(f.interrupts) + (tries - left) && 0 <= left <= tries
      decreases |data| - at, left
    {
      var n := f.Write(data[at..]);
      OnePart(w, data, at, n);
      if n == EINTR {
        if left == 0 {
          return None;
        }
        left := left - 1;
      } else if n < 0 {
        return Some(n);
      } else if n == 0 {
        return Some(1);
      } else {
        at := at + n;
      }
    }
    assert data[..at] == data;
    return Some(0);
  }

  lemma OnePart(w: seq<byte>, data: seq<byte>, at: nat, n: int)
    requires at < |data| && n <= |data| - at
    ensures w + data[..at] + [] == w + data[..at] && w <= w + data[..at] <= w + data && w + data[..at] != w + data
    ensures n > 0 ==> w + data[..at] + data[at..][..n] == w + data[..at + n]
  {
    assert data == data[..at] + data[at..];
    assert |w + data[..at]| < |w + data|;
    assert (w + data)[..|w| + at] == w + data[..at];
  }

  // ------------------------------------------------------------ the agent

  datatype Arrival = Arrival(tag: byte, body: seq<byte>)

  lemma DecodedKind(tag: byte, body: seq<byte>)
    requires DecodeBody(tag, body).Ok?
    ensures TagOf(DecodeBody(tag, body).value) == tag
  {
    hide Dec, Fits, OfMsg, TagOf, Layout;
    LayoutsClosed(tag);
    DecodedFits(Layout(tag).value, body);
    OfMsgTag(tag, Dec(Layout(tag).value, body).value);
  }

  lemma DecodedPayload(tag: byte, body: seq<byte>)
    ensures DecodeBody(2, body) == Ok(Stdin(body)) && DecodeBody(8, body) == Ok(PutData(body))
  {
  }

  function Inputs(log: seq<Event>): seq<Msg> {
    if log == [] then []
    else (if log[0].In? then [log[0].m] else []) + Inputs(log[1..])
  }

  lemma {:induction false} InputsSnoc(log: seq<Event>, e: Event)
    ensures Inputs(log + [e]) == Inputs(log) + (if e.In? then [e.m] else [])
  {
    if log == [] {
      assert ([] + [e])[1..] == [];
    } else {
      InputsSnoc(log[1..], e);
      assert (log + [e])[1..] == log[1..] + [e];
    }
  }

  lemma {:induction false} FlattenSnoc(a: seq<seq<byte>>, x: seq<byte>)
    ensures Flatten(a + [x]) == Flatten(a) + x
  {
    if a == [] {
      assert ([] + [x])[1..] == [];
      assert x + [] == x && [] + x == x;
      NothingFlat();
    } else {
      FlattenSnoc(a[1..], x);
      assert (a + [x])[1..] == a[1..] + [x];
      assert a[0] + (Flatten(a[1..]) + x) == a[0] + Flatten(a[1..]) + x;
    }
  }

  lemma NothingFlat()
    ensures Flatten([]) == []
  {
  }

  /** What a decoder of encoded messages hands out. */
  lemma {:induction false} GoodReceived(ms: seq<Msg>)
    ensures |Good(Received(ms))| == |ms| && forall i | 0 <= i < |ms| :: Good(Received(ms))[i] == Clipped(ms[i])
  {
    hide Clipped;
    if ms != [] {
      GoodReceived(ms[1..]);
      assert Received(ms)[1..] == Received(ms[1..]);
      assert forall i | 0 <= i < |ms| - 1 :: ms[1..][i] == ms[i + 1];
    }
  }

  lemma {:induction false} SentSnoc(log: seq<Event>, e: Event)
    ensures Sent(log + [e]) == Sent(log) + (if e.Out? then [e.m] else [])
  {
    if log == [] {
      assert ([] + [e])[1..] == [];
    } else {
      SentSnoc(log[1..], e);
      assert (log + [e])[1..] == log[1..] + [e];
    }
  }

  lemma {:induction false} FramesSnoc(ms: seq<Msg>, m: Msg)
    ensures Frames(ms + [m]) == Frames(ms) + Frame(m)
  {
    hide Frame;
    if ms == [] {
      assert ([] + [m])[1..] == [];
    } else {
      FramesSnoc(ms[1..], m);
      assert (ms + [m])[1..] == ms[1..] + [m];
    }
  }

  /** The messages fit frames, and the stream is those frames. */
  ghost predicate Written(ms: seq<Msg>, stream: seq<byte>) {
    stream == Frames(ms) && forall i | 0 <= i < |ms| :: |Body(ms[i])| < MAX_FRAME
  }

  /** What `log` means: it is accepted and leads to `phase`; what it received is what was delivered, and what
      it sent was written. */
  ghost predicate Keeps(log: seq<Event>, phase: Phase, delivered: seq<Msg>, stream: seq<byte>) {
    Follow(Idle, log) == Some(phase) && Inputs(log) == delivered && Written(Sent(log), stream)
  }

  lemma FreshKeeps()
    ensures Keeps([], Idle, [], [])
  {
  }

  lemma KeepsIn(log: seq<Event>, phase: Phase, delivered: seq<Msg>, stream: seq<byte>, m: Msg)
    requires Keeps(log, phase, delivered, stream) && Step(phase, In(m)).Some?
    ensures Keeps(log + [In(m)], Step(phase, In(m)).value, delivered + [m], stream)
  {
    hide Step, Follow, Inputs, Written, Sent;
    FollowSnoc(Idle, log, In(m));
    InputsSnoc(log, In(m));
    SentSnoc(log, In(m));
    assert Sent(log) + [] == Sent(log);
  }

  lemma KeepsOut(log: seq<Event>, phase: Phase, delivered: seq<Msg>, stream: seq<byte>, m: Msg)
    requires Keeps(log, phase, delivered, stream) && Step(phase, Out(m)).Some? && |Body(m)| < MAX_FRAME
    ensures Keeps(log + [Out(m)], Step(phase, Out(m)).value, delivered, stream + Frame(m))
  {
    hide Step, Follow, Inputs, Sent, Frames, Frame, Body;
    FollowSnoc(Idle, log, Out(m));
    InputsSnoc(log, Out(m));
    SentSnoc(log, Out(m));
    FramesSnoc(Sent(log), m);
    assert delivered + [] == delivered;
  }

  /** Every frame but a sample has room to spare. */
  lemma FitsFrame(m: Msg)
    ensures m.Error? || m.Pong? || m.Exit? || m.GetEnd? ==> |Body(m)| < MAX_FRAME
    ensures m.Stdout? || m.Stderr? || m.GetData? ==> Body(m) == m.data
  {
    hide Clip;
    if m.Error? {
      ClipLongest(m.text, MAX_STRING);
    } else if m.Pong? {
      ClipLongest(m.version, MAX_STRING);
    }
  }

  /** A value whose lists are empty, and the size of its encoding without text. */
  predicate Bare(sc: Schema, v: Value) {
    match sc
    case Text => v == Chars([])
    case List(_) => v == Items([])
    case Pair(a, b) => v.Two? && Bare(a, v.a) && Bare(b, v.b)
    case _ => true
  }

  function BareSize(sc: Schema): nat {
    match sc
    case Fixed(k) => k
    case Pair(a, b) => BareSize(a) + BareSize(b)
    case Unit | Tail => 0
    case _ => 2
  }

  lemma {:induction false} BareEncoding(sc: Schema, v: Value)
    requires Fits(sc, v) && Bare(sc, v) && !sc.Tail? && (sc.Pair? ==> Closed(sc))
    ensures |Enc(sc, v)| == BareSize(sc)
  {
    if sc.Pair? {
      BareEncoding(sc.first, v.a);
      BareEncoding(sc.second, v.b);
    }
  }

  const BARE: StatData :=
    StatData(0, [], MemStat(0, 0, 0, 0, 0, 0), (0, 0, 0), 0, 0, [], 0, 0, 0, [], [], [], 0, 0)

  lemma BareLists()
    ensures Bare(STAT_DISKS, ListsVal(BARE)) && BareSize(STAT_DISKS) == 14
  {
    assert Bare(STAT_NETS, ListsVal(BARE).b) && BareSize(STAT_NETS) == 12;
  }

  lemma BareSizes()
    ensures BareSize(SIX) == 48 && BareSize(LOADS) == 14 && BareSize(CLOCKS) == 10
  {
    assert BareSize(TWO64) == 16 && BareSize(THREE) == 24 && BareSize(FOUR) == 32 && BareSize(FIVE) == 40;
    assert BareSize(TWO32) == 8 && BareSize(LOADS3) == 10 && BareSize(LOADS2) == 12;
  }

  lemma {:induction false} NumbersAreBare(sc: Schema, v: Value)
    requires Width(sc).Some? && Fits(sc, v)
    ensures Bare(sc, v)
  {
    if sc.Pair? {
      NumbersAreBare(sc.first, v.a);
      NumbersAreBare(sc.second, v.b);
    }
  }

  lemma BarePair(a: Schema, b: Schema, v: Value)
    requires v.Two? && Bare(a, v.a) && Bare(b, v.b)
    ensures Bare(Pair(a, b), v) && BareSize(Pair(a, b)) == BareSize(a) + BareSize(b)
  {
  }

  lemma BareLeaves()
    ensures Bare(List(U16), Items([])) && Bare(List(CPU), Items([]))
    ensures BareSize(List(U16)) == 2 && BareSize(List(CPU)) == 2 && BareSize(U64) == 8
  {
  }

  lemma BareSample()
    ensures |Body(StatReply(BARE))| < MAX_FRAME
  {
    hide Fits, Enc, Closed, Bare, BareSize, Width, ListsVal, LoadsVal, MemVal, ClocksVal;
    ClosedParts();
    BareLists();
    BareSizes();
    BareLeaves();
    Widths();
    var v := StatVal(BARE);
    NumbersAreBare(SIX, MemVal(BARE.mem));
    NumbersAreBare(LOADS, LoadsVal(BARE));
    NumbersAreBare(CLOCKS, ClocksVal(BARE));
    NumbersAreBare(U64, v.a);
    BarePair(CLOCKS, STAT_DISKS, v.b.b.b.b.b);
    BarePair(List(U16), STAT_CLOCKS, v.b.b.b.b);
    BarePair(LOADS, STAT_TEMPS, v.b.b.b);
    BarePair(SIX, STAT_LOADS, v.b.b);
    BarePair(List(CPU), STAT_MEM, v.b);
    BarePair(U64, STAT_CPUS, v);
    BareEncoding(STAT, v);
  }

  /** The events since `mark` lead from `start` to `phase`, inside one session if one is open. */
  ghost predicate Segment(log: seq<Event>, mark: nat, start: Phase, phase: Phase) {
    mark <= |log| && Leads(start, log[mark..], phase)
  }

  lemma SegmentSnoc(log: seq<Event>, mark: nat, start: Phase, phase: Phase, e: Event)
    requires Segment(log, mark, start, phase) && Step(phase, e).Some? && phase != Idle
    ensures var q := Step(phase, e).value;
      Segment(log + [e], mark, start, q) &&
      (Inner(phase) != Idle && q == Idle ==> OneSession(start, (log + [e])[mark..]))
  {
    hide Leads, Step, OneSession;
    LeadsSnoc(start, log[mark..], phase, e);
    assert (log + [e])[mark..] == log[mark..] + [e];
  }

  lemma FreshSegment(log: seq<Event>, phase: Phase)
    requires Proper(phase)
    ensures Segment(log, |log|, phase, phase) && Carried(log[|log|..]) == NOTHING
  {
    assert log[|log|..] == [];
  }

  lemma CarriedGrows(log: seq<Event>, mark: nat, e: Event)
    requires mark <= |log|
    ensures var c := Carried(log[mark..]);
      Carried((log + [e])[mark..]) == if e.Out? then Add(c, e.m) else c
  {
    hide Carried, Add;
    CarriedSnoc(log[mark..], e);
    assert (log + [e])[mark..] == log[mark..] + [e];
  }

  /** The kinds of message the sessions tell apart by tag. */
  lemma Kinds(m: Msg)
    ensures (TagOf(m) == 1 <==> m.Exec?) && (TagOf(m) == 2 <==> m.Stdin?) && (TagOf(m) == 3 <==> m.StdinEof?)
    ensures (TagOf(m) == 7 <==> m.PutOpen?) && (TagOf(m) == 8 <==> m.PutData?) && (TagOf(m) == 9 <==> m.PutClose?)
    ensures (TagOf(m) == 10 <==> m.Get?) && (TagOf(m) == 14 <==> m.Ping?) && (TagOf(m) == 18 <==> m.Stat?)
    ensures TagOf(m) == 15 <==> m.Pong?
  {
  }

  /** The exit status, or 128 and the signal. */
  function ExitCode(status: nat): (code: nat)
    ensures code <= 255
  {
    if status % 128 != 0 then 128 + status % 128 else status / 256 % 256
  }

  /** Over wait(2)'s encoding that is the exit status, or 128 and the signal, with or without a core. */
  lemma ExitCodeMeans(e: End)
    ensures ExitCode(WaitStatus(e)) == Reported(e)
  {
  }

  /** What a client is told of a command's end. */
  function Reported(e: End): (code: nat)
    ensures code <= 255
  {
    match e
    case Exited(n) => n
    case Killed(s, _) => 128 + s
  }

  class Agent {
    const rx: Receiver
    const tx: Transmitter
    const inq: InputQueue
    const dev: Source
    const out: Source
    const err: Source
    const file: Source
    const disk: Sink
    const child: Child
    var live: bool
    ghost var log: seq<Event>
    ghost var phase: Phase
    ghost var mark: nat
    ghost var start: Phase
    ghost var base: Content

    constructor ()
      ensures Valid() && phase == Idle && log == [] && live && fresh(Footprint())
    {
      hide Core, Valid, Receiver.Valid, InputQueue.Valid, Receiver.Buffered, InputQueue.Queue, Refines, FrontOf, Carried;
      rx := new Receiver();
      tx := new Transmitter();
      inq := new InputQueue();
      dev := new Source();
      out := new Source();
      err := new Source();
      file := new Source();
      disk := new Sink();
      child := new Child();
      live, log, phase, mark, start, base := true, [], Idle, 0, Idle, NOTHING;
      new;
      Settled();
    }

    lemma Settled()
      requires rx.Valid() && rx.inputs == [] && rx.delivered == [] && inq.Valid() && tx.txBuf.Length == TXCAP
      requires tx.sent == [] && Apart() && dev.got == [] && out.got == [] && err.got == [] && file.got == []
      requires log == [] && phase == Idle && mark == 0 && start == Idle && base == NOTHING
      ensures Valid()
    {
      hide Keeps, Segment, Refines, Carried, Flatten, Plus, InputQueue.Valid, Receiver.Valid;
      FreshSegment([], Idle);
      FreshKeeps();
      NothingFlat();
      PlusNothing(NOTHING);
    }

    ghost function Footprint(): set<object> {
      {this, rx, rx.rxBuf, inq, inq.inBuf, inq.pipe, tx, tx.txBuf, dev, out, err, file, disk, child}
    }

    ghost predicate Apart() {
      && rx.rxBuf != inq.inBuf && rx.rxBuf != tx.txBuf && inq.inBuf != tx.txBuf
      && out != err && out != file && err != file && dev != out && dev != err && dev != file
      && disk != inq.pipe
    }

    /** How much the agent was seen to do: device reads, frames taken, waits for the command, file reads and
        interrupted file writes. */
    ghost function Work(): nat
      reads dev, rx, child, file, disk
    {
      dev.calls + |rx.delivered| + child.waits + file.calls + disk.interrupts
    }

    lemma AllApart()
      requires Valid()
      ensures Apart() && mark <= |log|
    {
      hide Core;
    }

    /** The log is accepted, what it received is what the reading end delivered from what the device gave, and what
        it sent is what the device was given; `mark` is where the last session opened. */
    ghost predicate Core()
      reads this, rx, rx.rxBuf, inq, inq.inBuf, inq.pipe, tx, dev
    {
      && Apart() && rx.Valid() && inq.Valid() && tx.txBuf.Length == TXCAP && Flatten(rx.inputs) == dev.got
      && Keeps(log, phase, rx.delivered, tx.sent) && mark <= |log| && Segment(log, mark, start, phase)
    }

    /** Everything read of the command's outputs and of files. */
    ghost function Gathered(): Content
      reads out, err, file
    {
      Content(out.got, err.got, file.got)
    }

    /** And since the last session opened, what was sent of them is what was read. */
    ghost predicate Valid()
      reads this, rx, rx.rxBuf, inq, inq.inBuf, inq.pipe, tx, dev, out, err, file
    {
      Core() && Apart() && mark <= |log| && Plus(base, Carried(log[mark..])) == Gathered()
    }

    // -------------------------------------------------------- one step

    /** `next_frame`, logged; a frame received outside a session starts a new segment. */
    method Receive() returns (a: Option<Arrival>)
      requires Valid() && forall m :: Step(phase, In(m)).Some?
      modifies this`log, this`phase, this`mark, this`start, this`base, rx`head, rx`tail, rx`delivered
      ensures Valid() && old(log) <= log && (a.None? ==> log == old(log) && phase == old(phase))
      ensures a.None? ==> mark == old(mark) && start == old(start) && FrontOf(rx.Buffered()).Wait?
      ensures a.Some? ==> Arrived(a.value, old(phase), phase)
      ensures a.Some? && old(phase) == Idle ==> mark == |log| && start == phase
      ensures old(phase) != Idle ==> mark == old(mark) && start == old(start) && base == old(base)
      ensures old(phase) == Idle && a.Some? ==> base == Gathered()
      ensures |rx.Buffered()| + (if a.Some? then |a.value.body| else 0) <= |old(rx.Buffered())|
      ensures Work() == old(Work()) + if a.Some? then 1 else 0
    {
      hide DecodeBody, Keeps, Segment, Step, FrontOf, Refines, TagOf, Carried;
      var fr := rx.NextFrame();
      if fr.None? {
        return None;
      }
      var (tag, at, len) := fr.value;
      var body := rx.rxBuf[at..at + len];
      ghost var m := DecodeBody(tag, body).value;
      DecodedKind(tag, body);
      KeepsIn(log, phase, old(rx.delivered), tx.sent, m);
      if phase == Idle {
        log, phase := log + [In(m)], Step(phase, In(m)).value;
        mark, start, base := |log|, phase, Gathered();
        ProperStart(m);
        FreshSegment(log, phase);
        PlusNothing(base);
      } else {
        SegmentSnoc(log, mark, start, phase, In(m));
        CarriedGrows(log, mark, In(m));
        log, phase := log + [In(m)], Step(phase, In(m)).value;
      }
      return Some(Arrival(tag, body));
    }

    /** `f_send` of the frame that was built, logged: what was read and not yet sent is what it carries. */
    method Transmit(ghost m: Msg)
      requires Core() && phase != Idle && Step(phase, Out(m)).Some? && |Body(m)| < MAX_FRAME
      requires tx.Open() && tx.Building() == Raw(TagOf(m), Body(m))
      requires Add(Plus(base, Carried(log[mark..])), m) == Gathered()
      modifies this`log, this`phase, tx`sent, tx.txBuf
      ensures Valid() && log == old(log) + [Out(m)] && Some(phase) == Step(old(phase), Out(m))
      ensures tx.sent == old(tx.sent) + Frame(m)
      ensures Inner(old(phase)) != Idle && phase == Idle ==> OneSession(start, log[mark..])
    {
      hide Keeps, Segment, Step, Refines, Carried, Add, Plus, OneSession, Body, TagOf, FrontOf, LittleEndian;
      PlusAdd(base, Carried(log[mark..]), m);
      KeepsOut(log, phase, rx.delivered, tx.sent, m);
      SegmentSnoc(log, mark, start, phase, Out(m));
      CarriedGrows(log, mark, Out(m));
      var frame := tx.Send();
      log, phase := log + [Out(m)], Step(phase, Out(m)).value;
    }

    /** A frame of fields: begun, written and sent. */
    method Send(m: Msg)
      requires Valid() && phase != Idle && Step(phase, Out(m)).Some? && |Body(m)| < MAX_FRAME
      requires Add(Gathered(), m) == Gathered()
      modifies this`log, this`phase, tx, tx.txBuf
      ensures Valid() && log == old(log) + [Out(m)] && Some(phase) == Step(old(phase), Out(m))
      ensures tx.sent == old(tx.sent) + Frame(m)
      ensures Inner(old(phase)) != Idle && phase == Idle ==> OneSession(start, log[mark..])
    {
      hide Keeps, Segment, Step, Refines, Carried, Add, Plus, OneSession, Frame, Body, TagOf;
      var body := Body(m);
      tx.Begin(TagOf(m));
      tx.Write(body);
      assert [] + body == body;
      Transmit(m);
    }

    /** At most CHUNK bytes just read, straight into the transmit buffer, go out as one frame: they are all that was
        read and not yet sent. */
    method SendRead(data: seq<byte>, m: Msg)
      requires Core() && phase != Idle && Step(phase, Out(m)).Some? && |data| <= CHUNK
      requires m == Stdout(data) || m == Stderr(data) || m == GetData(data)
      requires Add(Plus(base, Carried(log[mark..])), m) == Gathered()
      modifies this`log, this`phase, tx, tx.txBuf
      ensures Valid() && log == old(log) + [Out(m)] && Some(phase) == Step(old(phase), Out(m))
      ensures Inner(old(phase)) != Idle && phase == Idle ==> OneSession(start, log[mark..])
    {
      hide Keeps, Segment, Step, Refines, Carried, Add, Plus, OneSession, Body, Frame, TagOf;
      FitsFrame(m);
      tx.ReadIn(data);
      tx.Begin(TagOf(m));
      tx.Claim(|data|);
      Transmit(m);
    }

    method DeviceReadable() returns (r: bool)
      requires Valid()
      modifies dev`ready, dev`polled
      ensures Valid() && r == dev.ready && Work() == old(Work())
    {
      hide Keeps, Segment, Refines, Carried, Plus;
      r := dev.Poll();
    }

    /** One read of the device; a closed device or a failed read ends the agent. */
    method ReadDevice()
      requires Valid() && live && FrontOf(rx.Buffered()).Wait?
      modifies this`live, rx, rx.rxBuf, dev
      ensures Valid() && |rx.Buffered()| <= RXCAP && dev.calls == old(dev.calls) + 1 && Work() == old(Work()) + 1
    {
      hide Keeps, Segment, FrontOf, Refines, Carried, Plus;
      WaitingIsShort(rx.Buffered());
      var n, data := dev.Read(READ_CHUNK);
      if n > 0 {
        FlattenSnoc(rx.inputs, data);
        rx.Fill(data);
      } else {
        assert dev.got == old(dev.got);
        live := n == EINTR;
      }
    }

    /** A sample goes back for a Stat. */
    method StatReplyFrame()
      requires Valid() && phase.Owes? && phase.reply == STAT_REPLY
      modifies this`log, this`phase, tx, tx.txBuf
      ensures Valid() && phase == old(phase).back && old(log) <= log
    {
      hide Keeps, Segment, Refines, Body, Carried;
      var s := AnySample();
      Send(StatReply(s));
    }

    /** `next_blocking`, for up to `fuel` reads. */
    method NextBlocking(fuel: nat) returns (a: Option<Arrival>)
      requires Valid() && live && forall m :: Step(phase, In(m)).Some?
      modifies this`live, this`log, this`phase, this`mark, this`start, this`base, rx, rx.rxBuf, dev
      ensures Valid() && old(log) <= log && (a.None? ==> phase == old(phase) && log == old(log)) && (a.Some? ==> live)
      ensures a.Some? ==> Arrived(a.value, old(phase), phase)
      ensures a.Some? && old(phase) == Idle ==> mark == |log| && start == phase
      ensures old(phase) != Idle ==> mark == old(mark) && start == old(start) && base == old(base)
      ensures old(phase) == Idle && a.Some? ==> base == Gathered()
      ensures Work() >= old(Work()) + (if a.Some? then 1 else if live then fuel else 0)
    {
      hide DecodeBody, Keeps, Segment, Step, FrontOf, Refines, TagOf, Carried;
      var left := fuel;
      a := Receive();
      while a.None? && left > 0
        invariant Valid() && live && old(log) <= log
        invariant a.None? ==> phase == old(phase) && log == old(log) && FrontOf(rx.Buffered()).Wait?
        invariant a.Some? ==> Arrived(a.value, old(phase), phase)
        invariant a.Some? && old(phase) == Idle ==> mark == |log| && start == phase
        invariant old(phase) != Idle ==> mark == old(mark) && start == old(start) && base == old(base)
        invariant old(phase) == Idle && a.Some? ==> base == Gathered()
        invariant Work() == old(Work()) + (fuel - left) + (if a.Some? then 1 else 0) && 0 <= left <= fuel
        decreases left
      {
        left := left - 1;
        ReadDevice();
        if !live {
          return None;
        }
        a := Receive();
      }
    }

    // -------------------------------------------------------- one command

    /** The queue serves the command running at `p`: what was taken is the input it is owed while its pipe is
        open, a prefix of it once the pipe broke, and all of it when the pipe was closed at the end of input. */
    ghost predicate Relays(p: Phase)
      reads this, inq
    {
      && p.Running? && inq.eof == p.eof
      && (if inq.open then inq.taken == p.input else inq.taken <= p.input)
      && (inq.drained ==> inq.taken == p.input)
    }

    /** Back-pressure: the queue and everything the reading end still holds fit the queue's buffer. */
    ghost predicate Roomy()
      reads rx, rx.rxBuf, inq, inq.inBuf
    {
      inq.InBounds() && rx.InBounds() && |inq.Queue()| + |rx.Buffered()| < INPUT_BACKLOG + RXCAP
    }

    /** An Error where one may be sent ends whatever is open. */
    method ErrorFrame()
      requires Valid()
      requires (phase.Running? && !phase.started) || phase.Putting? || phase.Getting? || phase == Owes(ERROR, Idle)
      modifies this`log, this`phase, tx, tx.txBuf
      ensures Valid() && phase == Idle && |log| == |old(log)| + 1 && old(log) <= log
      ensures log[|log| - 1].Out? && log[|log| - 1].m.Error? && mark <= |log|
      ensures old(phase) != Owes(ERROR, Idle) ==> OneSession(start, log[mark..])
    {
      hide Keeps, Segment, Refines, Follow, Body, Carried, OneSession;
      var text: Str := *;
      FitsFrame(Error(text));
      Send(Error(text));
    }

    /** An Error ends the session that is open, which it answers. */
    method SessionFails()
      requires Valid() && Opening(start)
      requires phase == Running(false, [], false) || phase.Putting? || phase.Getting?
      modifies this`log, this`phase, tx, tx.txBuf
      ensures Valid() && phase == Idle && old(log) < log && |log| == |old(log)| + 1
      ensures log[|log| - 1].Out? && log[|log| - 1].m.Error?
      ensures mark <= |log| && OneSession(start, log[mark..]) && Answered(start, log[mark..])
    {
      hide Valid, OneSession, Answered;
      AllApart();
      ErrorFrame();
      SessionIsAnswered(start, log[mark..]);
    }

    /** `ex_frame`: input is queued, its end noted, Stat answered, anything else dropped. */
    method ExFrame(a: Arrival, ghost before: Phase)
      requires Valid() && Arrived(a, before, phase) && Relays(before)
      requires |inq.Queue()| + |a.body| <= INCAP
      modifies this`log, this`phase, inq, inq.inBuf, tx, tx.txBuf
      ensures Valid() && old(log) <= log && Relays(phase) && phase.started
      ensures |inq.Queue()| <= |old(inq.Queue())| + |a.body|
    {
      hide Keeps, Segment, Refines, DecodeBody, TagOf, Follow, Carried;
      ghost var m := DecodeBody(a.tag, a.body).value;
      Kinds(m);
      DecodedPayload(a.tag, a.body);
      if a.tag == 2 {
        inq.Push(a.body);
      } else if a.tag == 3 {
        inq.eof := true;
      } else if a.tag == 18 {
        StatReplyFrame();
      }
    }

    /** `pump_read`: at most CHUNK bytes of one of the two outputs become one frame; end of file or an error closes
        the pipe. */
    method PumpRead(pipe: Source, tag: byte)
      requires Valid() && phase.Running? && ((pipe == out && tag == STDOUT) || (pipe == err && tag == STDERR))
      modifies this`log, this`phase, pipe`open, pipe`got, pipe`calls, pipe`last, tx, tx.txBuf
      ensures Valid() && old(log) <= log && phase.Running? && phase.(started := true) == old(phase).(started := true)
      ensures pipe.calls == old(pipe.calls) + 1
      ensures pipe.open == (old(pipe.open) && (pipe.last > 0 || pipe.last == EINTR))
    {
      hide Core, TagOf, Carried, OneSession;
      var n, data := pipe.Read(CHUNK);
      if n > 0 {
        SendRead(data, if tag == STDOUT then Stdout(data) else Stderr(data));
      } else if n != EINTR {
        pipe.Close();
      }
    }

    /** `pump_poll`: what output is there is passed on. */
    method PumpPoll()
      requires Valid() && phase.Running?
      modifies this`log, this`phase, out, err, tx, tx.txBuf
      ensures Valid() && old(log) <= log && phase.Running? && phase.(started := true) == old(phase).(started := true)
      ensures out.polled == old(out.polled) + 1
      ensures old(out.open) && out.ready ==> out.calls > old(out.calls)
      ensures old(err.open) && err.ready ==> err.calls > old(err.calls)
    {
      hide Core, Carried, Plus;
      var outReady := out.Poll();
      var errReady := err.Poll();
      if out.open && outReady {
        PumpRead(out, STDOUT);
      }
      if err.open && errReady {
        PumpRead(err, STDERR);
      }
    }

    method Stop()
      requires Valid()
      modifies this`live
      ensures Valid() && !live
    {
      hide Keeps, Segment, Refines, Carried, Plus;
      live := false;
    }

    method CloseInput()
      requires Valid() && Relays(phase)
      modifies inq`open
      ensures Valid() && Relays(phase) && !inq.open
    {
      hide Keeps, Segment, Refines, Carried, Plus;
      inq.Close();
    }

    /** `ex_done`: the input goes, the output drains, until both pipes are closed or for `grace` polls, and Exit with
        the way the command ended is the last frame of the session. */
    method ExDone(status: nat, grace: nat)
      requires Valid() && Relays(phase) && Inner(start).Running? && !Inner(start).eof && Inner(start).input == []
      requires !start.Owes? && status == WaitStatus(child.end)
      modifies this`log, this`phase, out, err, inq`open, tx, tx.txBuf
      ensures Valid() && old(log) < log && phase == Idle && log[|log| - 1] == Out(Exit(Reported(child.end)))
      ensures OneSession(start, log[mark..])
      ensures (!out.open && !err.open) || out.polled == old(out.polled) + grace
      ensures mark < |log| && inq.Written() <= StdinBytes(log[mark..|log| - 1])
      ensures inq.drained ==> inq.Written() == StdinBytes(log[mark..|log| - 1])
    {
      hide Valid, StdinBytes, Carried, OneSession, Body, ExitCode, WaitStatus, Reported;
      AllApart();
      CloseInput();
      var left := grace;
      while left > 0 && (out.open || err.open)
        invariant Valid() && Relays(phase) && old(log) <= log && !inq.open
        invariant out.polled == old(out.polled) + (grace - left) && 0 <= left <= grace
        decreases left
      {
        left := left - 1;
        PumpPoll();
      }
      InputSoFar();
      ghost var before := log;
      ExitCodeMeans(child.end);
      FitsFrame(Exit(ExitCode(status)));
      ExitEnds(phase, ExitCode(status));
      Send(Exit(ExitCode(status)));
      assert log[mark..|log| - 1] == before[mark..];
    }

    /** So its pipe got a prefix of them, all of them when it was closed at the end of the input. */
    lemma InputSoFar()
      requires Valid() && Relays(phase) && start.Running? && !start.eof && start.input == [] && !inq.open
      ensures mark <= |log| && inq.before <= |inq.pipe.wrote| && inq.Written() <= StdinBytes(log[mark..])
      ensures inq.drained ==> inq.Written() == StdinBytes(log[mark..])
    {
      hide Keeps, Refines, Segment, Follow, StdinBytes, Carried;
      SessionInput();
    }

    /** The input the running command is owed is what its Stdin frames carried. */
    lemma SessionInput()
      requires Valid() && phase.Running? && start.Running? && !start.eof && start.input == []
      ensures mark <= |log| && phase.input == StdinBytes(log[mark..])
    {
      hide Keeps, Refines, Follow, StdinBytes, Carried;
      InputIsStdin(start, log[mark..]);
      assert [] + StdinBytes(log[mark..]) == StdinBytes(log[mark..]);
    }

    /** `run_exec`: a command from Exec to Exit, or to the Error that answers it; `false` when the agent ended
        or is no longer watched. */
    method RunExec(a: Arrival, fuel: nat) returns (ended: bool)
      requires Valid() && live && phase == start == Running(false, [], false) && mark == |log|
      requires DecodeBody(a.tag, a.body).Ok? && DecodeBody(a.tag, a.body).value.Exec?
      modifies Footprint()
      ensures Valid() && old(log) <= log && (ended ==> live && phase == Idle && old(log) < log)
      ensures ended ==> log[|log| - 1].Out? && (log[|log| - 1].m.Error? || log[|log| - 1].m.Exit?)
      ensures ended ==> OneSession(old(phase), log[|old(log)|..]) && Answered(old(phase), log[|old(log)|..])
      ensures Work() >= old(Work()) + if !ended && live then fuel else 0
      ensures ended ==> (log[|log| - 1].m.Error? <==> DecodeBody(a.tag, a.body).value.argv == [] || !child.started)
      ensures ended && log[|log| - 1].m.Exit? ==> log[|log| - 1].m == Exit(Reported(child.end))
      ensures out.got == old(out.got) + Carried(log[|old(log)|..]).out
      ensures err.got == old(err.got) + Carried(log[|old(log)|..]).err
      ensures ended && log[|log| - 1].m.Exit? ==>
        inq.Written() <= StdinBytes(log[|old(log)|..|log| - 1]) &&
        (inq.drained ==> inq.Written() == StdinBytes(log[|old(log)|..|log| - 1]))
    {
      hide Valid, Roomy, StdinBytes, DecodeBody, Step, Carried, OneSession, Answered, Reported;
      AllApart();
      BaseNow();
      if DecodeBody(a.tag, a.body).value.argv == [] {
        SessionFails();
        SinceBase();
        return true;
      }
      var ok := child.Start();
      if !ok {
        SessionFails();
        SinceBase();
        return true;
      }
      Attach();
      ended := ExLoop(fuel);
      SinceBase();
      if ended {
        SessionIsAnswered(start, log[mark..]);
      }
    }

    /** The pipes of a new command. */
    method Attach()
      requires Valid() && phase == Running(false, [], false)
      modifies inq, out, err
      ensures Valid() && Relays(phase) && Roomy() && Gathered() == old(Gathered())
    {
      hide Keeps, Segment, Refines, Carried, Plus;
      inq.Start();
      out.Attach();
      err.Attach();
    }

    /** What was gathered since the last session opened. */
    lemma SinceBase()
      requires Valid()
      ensures mark <= |log| && var c := Carried(log[mark..]);
        out.got == base.out + c.out && err.got == base.err + c.err && file.got == base.file + c.file
    {
      hide Core, Carried;
    }

    /** Nothing was sent yet since the last session opened. */
    lemma BaseNow()
      requires Valid() && mark == |log|
      ensures base == Gathered()
    {
      assert log[mark..] == [];
      PlusNothing(base);
    }

    /** A frame already buffered is acted on; what it brings always fits the queue. */
    method TakeFrame() returns (got: bool)
      requires Valid() && Relays(phase) && Roomy()
      modifies this`log, this`phase, this`mark, this`start, this`base
      modifies rx`head, rx`tail, rx`delivered, inq, inq.inBuf, tx, tx.txBuf
      ensures Valid() && Relays(phase) && Roomy() && old(log) <= log && mark == old(mark) && start == old(start)
      ensures base == old(base) && Work() >= old(Work())
      ensures !got ==> FrontOf(rx.Buffered()).Wait?
    {
      hide Keeps, Segment, Refines, Follow, DecodeBody, Step, FrontOf, Arrived, Carried, OneSession;
      RunningListens(phase);
      ghost var before := phase;
      var a := Receive();
      if a.Some? {
        ExFrame(a.value, before);
      }
      return a.Some?;
    }

    /** The device is polled only while the queue is under INPUT_BACKLOG. */
    method ReadUnlessBacklogged(backlogged: bool)
      requires Valid() && live && Roomy() && FrontOf(rx.Buffered()).Wait?
      requires !backlogged ==> inq.InBounds() && |inq.Queue()| < INPUT_BACKLOG
      modifies this`live, rx, rx.rxBuf, dev
      ensures Valid() && Roomy() && Work() >= old(Work())
      ensures !backlogged && dev.ready ==> dev.calls == old(dev.calls) + 1
    {
      hide Keeps, Segment, Refines, FrontOf, Carried, Plus;
      var readable := DeviceReadable();
      if !backlogged && readable {
        ReadDevice();
      }
    }

    /** `in_flush` while a command runs. */
    method FlushInput(tries: nat)
      requires Valid() && Relays(phase) && Roomy()
      modifies inq`head, inq`tail, inq`open, inq`drained, inq.pipe
      ensures Valid() && Relays(phase) && Roomy()
      ensures old(inq.open) && old(inq.Queue()) != [] ==> inq.pipe.writes > old(inq.pipe.writes)
    {
      hide Keeps, Segment, Refines, Carried, Plus;
      inq.Flush(tries);
    }

    method Backlogged() returns (b: bool)
      requires Valid()
      ensures !b ==> inq.InBounds() && |inq.Queue()| < INPUT_BACKLOG
    {
      hide Keeps, Segment, Refines, Carried, Plus;
      b := inq.tail - inq.head >= INPUT_BACKLOG;
    }

    /** One pass of `ex_loop` while the command runs: what is queued for it is offered to its pipe. */
    method Pass(left: nat)
      requires Valid() && live && Relays(phase) && Roomy()
      modifies Footprint()
      ensures Valid() && Relays(phase) && Roomy() && old(log) <= log && mark == old(mark) && start == old(start)
      ensures base == old(base) && child.started == old(child.started) && Work() >= old(Work())
      ensures old(inq.open) && old(inq.Queue()) != [] ==> inq.pipe.writes > old(inq.pipe.writes)
    {
      hide Valid, Roomy, FrontOf;
      AllApart();
      FlushInput(left);
      var got := TakeFrame();
      if got {
        PumpWhileRunning();
        return;
      }
      if * {
        // poll timed out
        return;
      }
      Listen();
    }

    /** What poll said is there: output, and the device unless the backlog is full. */
    method Listen()
      requires Valid() && live && Relays(phase) && Roomy() && FrontOf(rx.Buffered()).Wait?
      modifies this`live, this`log, this`phase, this`mark, this`start, this`base, rx, rx.rxBuf, dev, out, err
      modifies inq, inq.inBuf, tx, tx.txBuf
      ensures Valid() && Relays(phase) && Roomy() && old(log) <= log && mark == old(mark) && start == old(start)
      ensures base == old(base) && Work() >= old(Work())
    {
      hide Valid, Roomy, FrontOf;
      AllApart();
      var backlogged := Backlogged();
      PumpWhileRunning();
      ReadUnlessBacklogged(backlogged);
      if live {
        var got := TakeFrame();
      }
    }

    method PumpWhileRunning()
      requires Valid() && Relays(phase) && Roomy()
      modifies this`log, this`phase, out, err, tx, tx.txBuf
      ensures Valid() && Relays(phase) && Roomy() && old(log) <= log
      ensures old(out.open) && out.ready ==> out.calls > old(out.calls)
      ensures old(err.open) && err.ready ==> err.calls > old(err.calls)
    {
      hide Valid, Roomy;
      AllApart();
      PumpPoll();
    }

    /** `ex_loop`, for up to `fuel` passes: the device is read only while the queue is under INPUT_BACKLOG, so
        every frame that still arrives fits the queue. */
    method ExLoop(fuel: nat) returns (ended: bool)
      requires Valid() && live && Relays(phase) && Roomy() && start == Running(false, [], false) && mark <= |log|
      modifies Footprint()
      ensures Valid() && old(log) <= log && mark == old(mark) && start == old(start)
      ensures base == old(base) && child.started == old(child.started)
      ensures Work() >= old(Work()) + if !ended && live then fuel else 0
      ensures ended ==> OneSession(start, log[mark..])
      ensures ended ==>
        live && phase == Idle && old(log) < log && log[|log| - 1] == Out(Exit(Reported(child.end))) && mark < |log| &&
        inq.Written() <= StdinBytes(log[mark..|log| - 1]) &&
        (inq.drained ==> inq.Written() == StdinBytes(log[mark..|log| - 1]))
    {
      hide Valid, Roomy, StdinBytes, FrontOf, Carried, OneSession, Reported, WaitStatus;
      AllApart();
      var left := fuel;
      while left > 0
        invariant Valid() && live && Relays(phase) && Roomy() && old(log) <= log
        invariant mark == old(mark) && start == old(start) && base == old(base) && child.started == old(child.started)
        invariant Work() >= old(Work()) + (fuel - left) && 0 <= left <= fuel
        decreases left
      {
        left := left - 1;
        var r, status := child.Wait();
        if r > 0 {
          var grace: nat := *;
          ExDone(status, grace);
          return true;
        } else if r < 0 {
          // wait4 failed: the agent ends
          Stop();
          return false;
        }
        Pass(left);
        if !live {
          return false;
        }
      }
      return false;
    }

    // -------------------------------------------------------- file transfers

    lemma SessionData()
      requires Valid() && phase.Putting? && start == Putting([], false)
      ensures mark <= |log| && phase.data == PutBytes(log[mark..])
    {
      hide Keeps, Refines, Follow, PutBytes, Carried;
      DataIsPutData(start, log[mark..]);
      assert [] + PutBytes(log[mark..]) == PutBytes(log[mark..]);
    }

    /** PutClose: the file is on disk and Exit(0) says so, or an Error does not. `w` is what the descriptor took for
        earlier files. */
    method PutDone(ghost w: seq<byte>)
      requires Valid() && phase.Putting? && phase.closed && start == Putting([], false)
      requires !disk.failed && disk.wrote == w + phase.data
      modifies this`log, this`phase, tx, tx.txBuf, disk`failed, disk`synced
      ensures Valid() && phase == Idle && old(log) < log && mark < |log|
      ensures OneSession(start, log[mark..]) && Answered(start, log[mark..])
      ensures log[|log| - 1].Out? && (log[|log| - 1].m.Error? || log[|log| - 1].m == Exit(0))
      ensures (log[|log| - 1].m.Error? <==> disk.failed) && (log[|log| - 1].m.Exit? ==> disk.synced)
      ensures disk.wrote == w + PutBytes(log[mark..|log| - 1])
    {
      hide Valid, PutBytes, Step, Carried, OneSession, Answered, Body;
      AllApart();
      SessionData();
      PutExit(phase);
      ghost var before := log;
      var synced := disk.Sync();
      if !synced {
        SessionFails();
      } else {
        FitsFrame(Exit(0));
        Send(Exit(0));
        SessionIsAnswered(start, log[mark..]);
      }
      assert log[mark..|log| - 1] == before[mark..];
    }

    /** The file could not be opened or written: an Error says so. */
    method PutFails(ghost w: seq<byte>)
      requires Valid() && phase.Putting? && start == Putting([], false) && disk.wrote <= w + phase.data
      modifies this`log, this`phase, tx, tx.txBuf
      ensures Valid() && phase == Idle && old(log) < log && mark < |log|
      ensures OneSession(start, log[mark..]) && Answered(start, log[mark..])
      ensures log[|log| - 1].Out? && log[|log| - 1].m.Error? && disk.wrote <= w + PutBytes(log[mark..|log| - 1])
    {
      hide Valid, PutBytes, Step, Carried, OneSession, Answered;
      AllApart();
      SessionData();
      ghost var before := log;
      SessionFails();
      assert log[mark..|log| - 1] == before[mark..];
    }

    /** PutData: the file takes the payload, or an Error says that it did not. */
    method StoreData(body: seq<byte>, tries: nat, ghost w: seq<byte>) returns (rax: Option<int>)
      requires Valid() && phase.Putting? && !phase.closed && start == Putting([], false)
      requires !disk.failed && disk.wrote + body == w + phase.data
      modifies this`log, this`phase, tx, tx.txBuf, disk
      ensures Valid() && old(log) <= log
      ensures disk.interrupts >= old(disk.interrupts) + if rax.None? then tries + 1 else 0
      ensures rax == Some(0) ==> log == old(log) && phase == old(phase) && disk.wrote == w + phase.data && !disk.failed
      ensures rax.Some? && rax != Some(0) ==>
        phase == Idle && old(log) < log && mark < |log| && OneSession(start, log[mark..]) && Answered(start, log[mark..]) &&
        log[|log| - 1].Out? && log[|log| - 1].m.Error? && disk.failed && disk.wrote <= w + PutBytes(log[mark..|log| - 1])
    {
      hide Valid, Gathered, PutBytes, Carried, OneSession, Answered;
      AllApart();
      rax := WriteAll(disk, body, tries);
      if rax.Some? && rax.value != 0 {
        PutFails(w);
      }
    }

    /** `run_put`: the file took what the PutData frames carried, and is on disk, when Exit(0) is sent; an Error is
        sent exactly when opening, a write or the sync failed; `false` when the agent ended or is no longer watched. */
    method RunPut(fuel: nat) returns (ended: bool)
      requires Valid() && live && phase == start == Putting([], false) && mark == |log|
      modifies this`live, this`log, this`phase, this`mark, this`start, this`base, rx, rx.rxBuf, dev, disk, tx, tx.txBuf
      ensures Valid() && old(log) <= log && (ended ==> live && phase == Idle && old(log) < log)
      ensures Work() >= old(Work()) + if !ended && live then fuel else 0
      ensures ended ==> log[|log| - 1].Out? && (log[|log| - 1].m.Error? || log[|log| - 1].m == Exit(0))
      ensures ended ==> OneSession(old(phase), log[|old(log)|..]) && Answered(old(phase), log[|old(log)|..])
      ensures ended ==> (log[|log| - 1].m.Error? <==> disk.failed)
      ensures ended ==> disk.wrote <= old(disk.wrote) + PutBytes(log[|old(log)|..|log| - 1])
      ensures ended && log[|log| - 1].m.Exit? ==>
        disk.synced && disk.wrote == old(disk.wrote) + PutBytes(log[|old(log)|..|log| - 1])
    {
      hide Valid, PutBytes, Step, Arrived, OneSession, Answered;
      AllApart();
      ghost var w := disk.wrote;
      assert w + [] == w;
      var left := fuel;
      // a NUL byte in the path is one way to fail
      var ok := disk.Open();
      if !ok {
        PutFails(w);
        return true;
      }
      while left > 0
        invariant Valid() && live && old(log) <= log && mark == |old(log)| && start == Putting([], false)
        invariant phase.Putting? && !phase.closed && disk.wrote == w + phase.data && !disk.failed
        invariant Work() >= old(Work()) + (fuel - left) && 0 <= left <= fuel
        decreases left
      {
        var done;
        done, ended := PutFrame(left, w);
        if done {
          return;
        }
        left := left - 1;
      }
      return false;
    }

    /** One frame of a put, within `fuel` reads: stored, closing the file, answered or dropped. */
    method PutFrame(fuel: nat, ghost w: seq<byte>) returns (done: bool, ended: bool)
      requires Valid() && live && phase.Putting? && !phase.closed && start == Putting([], false) && fuel > 0
      requires disk.wrote == w + phase.data && !disk.failed
      modifies this`live, this`log, this`phase, this`mark, this`start, this`base, rx, rx.rxBuf, dev, disk, tx, tx.txBuf
      ensures Valid() && old(log) <= log && mark == old(mark) && start == old(start)
      ensures Work() >= old(Work()) + (if done && !ended && live then fuel else if done then 0 else 1)
      ensures !done ==> live && phase.Putting? && !phase.closed && disk.wrote == w + phase.data && !disk.failed
      ensures done && ended ==>
        live && phase == Idle && old(log) < log && mark < |log| && OneSession(start, log[mark..]) && Answered(start, log[mark..])
      ensures done && ended ==> log[|log| - 1].Out? && (log[|log| - 1].m.Error? || log[|log| - 1].m == Exit(0))
      ensures done && ended ==>
        (log[|log| - 1].m.Error? <==> disk.failed) && disk.wrote <= w + PutBytes(log[mark..|log| - 1]) &&
        (log[|log| - 1].m.Exit? ==> disk.synced && disk.wrote == w + PutBytes(log[mark..|log| - 1]))
    {
      hide Valid, PutBytes, Step, Arrived, OneSession, Answered;
      AllApart();
      RunningListens(phase);
      ghost var before := phase;
      var a := NextBlocking(fuel);
      if a.None? {
        return true, false;
      }
      PutStep(a.value, before, phase);
      if a.value.tag == 8 {
        assert w + before.data + a.value.body == w + (before.data + a.value.body);
        var rax := StoreData(a.value.body, fuel, w);
        return rax != Some(0), rax.Some? && rax != Some(0);
      } else if a.value.tag == 9 {
        PutDone(w);
        return true, true;
      } else if a.value.tag == 18 {
        StatReplyFrame();
      }
      return false, false;
    }

    /** What was read of the file goes out as one frame. */
    method SendChunk(size: nat, data: seq<byte>)
      requires Core() && phase == Getting(size) && 1 <= |data| <= CHUNK
      requires Add(Plus(base, Carried(log[mark..])), GetData(data)) == Gathered()
      modifies this`log, this`phase, tx, tx.txBuf
      ensures Valid() && old(log) <= log && phase == Getting(size + |data|)
    {
      hide Keeps, Segment, Refines, Step, Carried, Plus, OneSession;
      GetSends(size, data);
      SendRead(data, GetData(data));
    }

    /** A frame already here, or one that arrives with the next read. */
    method ReceiveSoon() returns (a: Option<Arrival>)
      requires Valid() && live && phase.Getting?
      modifies this`live, this`log, this`phase, this`mark, this`start, this`base, rx, rx.rxBuf, dev
      ensures Valid() && old(log) <= log && (a.Some? ==> live && Arrived(a.value, old(phase), phase))
      ensures a.None? ==> phase == old(phase)
      ensures mark == old(mark) && start == old(start) && base == old(base)
      ensures Work() >= old(Work()) + if a.Some? then 1 else 0
    {
      hide Keeps, Segment, Refines, Follow, DecodeBody, Step, FrontOf, Arrived, Carried;
      RunningListens(phase);
      a := Receive();
      var readable := DeviceReadable();
      if a.None? && readable {
        ReadDevice();
        if !live {
          return None;
        }
        a := Receive();
      }
    }

    /** Such a frame is answered or dropped. */
    method GetFrame(size: nat) returns (got: bool)
      requires Valid() && live && phase == Getting(size)
      modifies this`live, this`log, this`phase, this`mark, this`start, this`base, rx, rx.rxBuf, dev, tx, tx.txBuf
      ensures Valid() && old(log) <= log && phase == Getting(size)
      ensures mark == old(mark) && start == old(start) && base == old(base)
      ensures Work() >= old(Work()) + if got then 1 else 0
    {
      hide Keeps, Segment, Refines, Follow, DecodeBody, Step, FrontOf, Arrived, Carried;
      var a := ReceiveSoon();
      if a.Some? {
        GetStep(a.value, size, phase);
        if a.value.tag == 18 {
          StatReplyFrame();
        }
      }
      return a.Some?;
    }

    /** The end of the file: GetEnd gives the bytes sent. */
    method GetDone(size: nat)
      requires Valid() && phase == Getting(size) && start == Getting(0)
      modifies this`log, this`phase, tx, tx.txBuf
      ensures Valid() && phase == Idle && old(log) < log && log[|log| - 1].Out?
      ensures log[|log| - 1].m == GetEnd(size % 0x1_0000_0000_0000_0000)
      ensures OneSession(start, log[mark..]) && Answered(start, log[mark..])
    {
      hide Valid, Step, Carried, OneSession, Answered, Body;
      AllApart();
      GetSends(size, []);
      FitsFrame(GetEnd(size % 0x1_0000_0000_0000_0000));
      Send(GetEnd(size % 0x1_0000_0000_0000_0000));
      SessionIsAnswered(start, log[mark..]);
    }

    /** One read of the file: a chunk goes out, or the get ends, with GetEnd at the end of the file and Error when
        the read failed. */
    method GetMore(size: nat) returns (ended: bool, size': nat)
      requires Valid() && live && phase == Getting(size) && start == Getting(0)
      requires |file.got| == |base.file| + size
      modifies this`log, this`phase, file, tx, tx.txBuf
      ensures Valid() && old(log) <= log && file.calls == old(file.calls) + 1 && file.opens == old(file.opens)
      ensures Work() == old(Work()) + 1
      ensures !ended ==> phase == Getting(size') && |file.got| == |base.file| + size'
      ensures ended ==> phase == Idle && old(log) < log && OneSession(start, log[mark..]) && Answered(start, log[mark..])
      ensures ended ==> log[|log| - 1].Out? && (log[|log| - 1].m.Error? || log[|log| - 1].m.GetEnd?)
      ensures ended && log[|log| - 1].m.GetEnd? ==>
        file.last == 0 &&
        log[|log| - 1].m.size == (|file.got| - |base.file|) % 0x1_0000_0000_0000_0000
      ensures ended && log[|log| - 1].m.Error? ==> file.last < 0 && file.last != EINTR
    {
      hide Core, Step, Carried, OneSession, Answered;
      var n, data := file.Read(CHUNK);
      if n > 0 {
        SendChunk(size, data);
        return false, size + n;
      }
      assert file.got == old(file.got);
      if n == EINTR {
        return false, size;
      } else if n < 0 {
        SessionFails();
        return true, size;
      }
      GetDone(size);
      return true, size;
    }

    /** A frame that is here comes first; without one the file is read once more. */
    method GetPass(size: nat) returns (ended: bool, size': nat)
      requires Valid() && live && phase == Getting(size) && start == Getting(0)
      requires |file.got| == |base.file| + size
      modifies this`live, this`log, this`phase, this`mark, this`start, this`base, rx, rx.rxBuf, dev, file, tx, tx.txBuf
      ensures Valid() && old(log) <= log && mark == old(mark) && start == old(start) && base == old(base)
      ensures file.calls >= old(file.calls) && file.opens == old(file.opens)
      ensures Work() >= old(Work()) + if live then 1 else 0
      ensures !ended && live ==> phase == Getting(size') && |file.got| == |base.file| + size'
      ensures ended ==> live && phase == Idle && old(log) < log
      ensures ended ==> OneSession(start, log[mark..]) && Answered(start, log[mark..])
      ensures ended ==> log[|log| - 1].Out? && (log[|log| - 1].m.Error? || log[|log| - 1].m.GetEnd?)
      ensures ended && log[|log| - 1].m.GetEnd? ==>
        file.calls > old(file.calls) && file.last == 0 &&
        log[|log| - 1].m.size == (|file.got| - |base.file|) % 0x1_0000_0000_0000_0000
      ensures ended && log[|log| - 1].m.Error? ==> file.last < 0 && file.last != EINTR
    {
      hide Valid, Step, Carried, OneSession, Answered;
      AllApart();
      var got := GetFrame(size);
      if got || !live {
        return false, size;
      }
      ended, size' := GetMore(size);
    }

    /** `run_get`: the file goes back in chunks, Stat is answered between them, and GetEnd counts the bytes once the
        file has ended; an Error is sent when opening or a read failed. */
    method RunGet(fuel: nat) returns (ended: bool)
      requires Valid() && live && phase == start == Getting(0) && mark == |log|
      modifies this`live, this`log, this`phase, this`mark, this`start, this`base, rx, rx.rxBuf, dev, file, tx, tx.txBuf
      ensures Valid() && old(log) <= log && (ended ==> live && phase == Idle && old(log) < log)
      ensures ended ==> log[|log| - 1].Out? && (log[|log| - 1].m.Error? || log[|log| - 1].m.GetEnd?)
      ensures ended ==> OneSession(old(phase), log[|old(log)|..]) && Answered(old(phase), log[|old(log)|..])
      ensures Work() >= old(Work()) + if !ended && live then fuel else 0
      ensures file.got == old(file.got) + Carried(log[|old(log)|..]).file
      ensures ended && log[|log| - 1].m.GetEnd? ==>
        file.calls > old(file.calls) && file.last == 0 &&
        log[|log| - 1].m.size == (|file.got| - |old(file.got)|) % 0x1_0000_0000_0000_0000
      ensures ended && log[|log| - 1].m.Error? ==> file.opens == old(file.opens) + 1 && file.last < 0 && file.last != EINTR
    {
      hide Valid, Step, Carried, OneSession, Answered;
      AllApart();
      BaseNow();
      // a NUL byte in the path is one way to fail
      SinceBase();
      var ok := OpenFile();
      if !ok {
        SessionFails();
        SinceBase();
        return true;
      }
      var size := 0;
      var left := fuel;
      while left > 0
        invariant Valid() && live && old(log) <= log && phase == Getting(size)
        invariant mark == |old(log)| && start == Getting(0) && base == old(Gathered())
        invariant |file.got| == |base.file| + size
        invariant file.opens == old(file.opens) + 1 && file.calls >= old(file.calls)
        invariant Work() >= old(Work()) + (fuel - left) && 0 <= left <= fuel
        decreases left
      {
        left := left - 1;
        ended, size := GetPass(size);
        if ended || !live {
          SinceBase();
          return;
        }
      }
      SinceBase();
      return false;
    }

    method OpenFile() returns (ok: bool)
      requires Valid()
      modifies file`open, file`opens, file`last
      ensures Valid() && Gathered() == old(Gathered())
      ensures file.opens == old(file.opens) + 1 && file.last == (if ok then 1 else -1) && Work() == old(Work())
    {
      hide Core, Carried, Plus;
      ok := file.Open();
    }

    // -------------------------------------------------------- outside a session

    /** The agent hears what the host sent: if the device gave the frames of some messages, however cut into reads,
        and no whole frame is left to take, the messages received are those, clipped and in order. */
    lemma AgentHears(ms: seq<Msg>)
      requires Valid() && dev.got == Frames(ms) && FrontOf(rx.Buffered()).Wait?
      requires forall i | 0 <= i < |ms| :: |Body(ms[i])| < MAX_FRAME
      ensures |Inputs(log)| == |ms| && forall i | 0 <= i < |ms| :: Inputs(log)[i] == Clipped(ms[i])
    {
      hide Segment, Follow, Carried, Inputs, Body, Feed, Frames, FrontOf, Written, Clipped;
      SameAsDecoder(rx.inputs, rx.delivered, rx.Buffered());
      MessagesArrive(ms, rx.inputs);
      GoodReceived(ms);
    }

    /** However the bytes given to the device are cut into reads, the host's decoder gets back the messages of
        the log, clipped, in order and with nothing left over. */
    lemma HostHears(chunks: seq<seq<byte>>)
      requires Valid() && Flatten(chunks) == tx.sent
      ensures Feed([], chunks) == Drained(Received(Sent(log)), [])
    {
      hide Segment, Refines, Follow, Carried, Inputs, Body, Feed, Frames;
      MessagesArrive(Sent(log), chunks);
    }

    /** `main_loop`, for up to `fuel` frames: whatever arrives, every session opened is answered as its kind is,
        and the host hears what was sent. */
    method MainLoop(fuel: nat)
      requires Valid() && live && phase == Idle
      modifies Footprint()
      ensures Valid() && old(log) <= log && Conversation(log)
      ensures forall chunks | Flatten(chunks) == tx.sent :: Feed([], chunks) == Drained(Received(Sent(log)), [])
      ensures live ==> Work() >= old(Work()) + fuel
    {
      hide Conversation, Flatten, Feed, Received, Sent;
      Serve(fuel);
      Accepted();
      forall chunks | Flatten(chunks) == tx.sent
        ensures Feed([], chunks) == Drained(Received(Sent(log)), [])
      {
        HostHears(chunks);
      }
    }

    lemma Accepted()
      requires Valid()
      ensures Conversation(log)
    {
      hide Segment, Refines, Follow, Carried, Inputs, Written, Conversation;
      AcceptedIsConversation(log);
    }

    /** Until the agent ends or was seen to do as much as `fuel` asks. */
    method Serve(fuel: nat)
      requires Valid() && live && phase == Idle
      modifies Footprint()
      ensures Valid() && old(log) <= log && (live ==> Work() >= old(Work()) + fuel)
    {
      hide Valid, Step, StdinBytes, PutBytes, Carried, OneSession, Answered, Body, Arrived, Reported, DecodeBody;
      AllApart();
      var left := fuel;
      while left > 0
        invariant Valid() && live && phase == Idle && old(log) <= log
        invariant Work() >= old(Work()) + (fuel - left) && 0 <= left <= fuel
        decreases left
      {
        RunningListens(phase);
        var a := NextBlocking(left);
        if a.None? {
          return;
        }
        left := left - 1;
        Opens(a.value, phase);
        var ended := true;
        match a.value.tag {
          case 1 => ended := RunExec(a.value, left);
          case 7 => ended := RunPut(left);
          case 10 => ended := RunGet(left);
          case 14 =>
            var version: Str := *;
            PongOwed(version);
            FitsFrame(Pong(version));
            Send(Pong(version));
          case 18 => StatReplyFrame();
          case 2 =>
          case 3 =>
          case 8 =>
          case 9 =>
          case _ => ErrorFrame();
        }
        if !ended {
          return;
        }
      }
    }
  }

  /** A sample that fits a frame, as `stat_reply` makes every sample fit. */
  method AnySample() returns (s: StatData)
    ensures |Body(StatReply(s))| < MAX_FRAME
  {
    BareSample();
    assert |Body(StatReply(BARE))| < MAX_FRAME;
    s :| |Body(StatReply(s))| < MAX_FRAME;
  }

  lemma PutStep(a: Arrival, p: Phase, q: Phase)
    requires Arrived(a, p, q) && p.Putting? && !p.closed
    ensures a.tag == 8 ==> q == p.(data := p.data + a.body)
    ensures a.tag == 9 ==> q == p.(closed := true)
    ensures a.tag == 18 ==> q == Owes(STAT_REPLY, p)
    ensures a.tag != 8 && a.tag != 9 && a.tag != 18 ==> q == p
  {
    hide DecodeBody, TagOf;
    Kinds(DecodeBody(a.tag, a.body).value);
    DecodedPayload(a.tag, a.body);
  }

  lemma ExitEnds(p: Phase, code: nat)
    requires p.Running? && code <= 255
    ensures Step(p, Out(Exit(code))) == Some(Idle)
  {
  }

  lemma PutExit(p: Phase)
    requires p.Putting? && p.closed
    ensures Step(p, Out(Exit(0))) == Some(Idle)
  {
  }

  lemma GetStep(a: Arrival, size: nat, q: Phase)
    requires Arrived(a, Getting(size), q)
    ensures q == if a.tag == 18 then Owes(STAT_REPLY, Getting(size)) else Getting(size)
  {
    hide DecodeBody, TagOf;
    Kinds(DecodeBody(a.tag, a.body).value);
  }

  lemma GetSends(size: nat, data: seq<byte>)
    ensures IsChunk(data) ==> Step(Getting(size), Out(GetData(data))) == Some(Getting(size + |data|))
    ensures Step(Getting(size), Out(GetEnd(size % 0x1_0000_0000_0000_0000))) == Some(Idle)
  {
  }

  lemma PongOwed(version: Str)
    ensures Step(Owes(PONG, Idle), Out(Pong(version))) == Some(Idle)
  {
  }

  /** Where a frame received outside a session leads. */
  lemma Opens(a: Arrival, q: Phase)
    requires Arrived(a, Idle, q)
    ensures DecodeBody(a.tag, a.body).Ok?
    ensures a.tag == 1 ==> q == Running(false, [], false) && DecodeBody(a.tag, a.body).value.Exec?
    ensures a.tag == 7 ==> q == Putting([], false)
    ensures a.tag == 10 ==> q == Getting(0)
    ensures a.tag == 14 ==> q == Owes(PONG, Idle)
    ensures a.tag == 18 ==> q == Owes(STAT_REPLY, Idle)
    ensures a.tag in {2, 3, 8, 9} ==> q == Idle
    ensures a.tag !in {1, 2, 3, 7, 8, 9, 10, 14, 18} ==> q == Owes(ERROR, Idle)
  {
    hide DecodeBody, TagOf;
    Kinds(DecodeBody(a.tag, a.body).value);
  }

  lemma RunningListens(p: Phase)
    requires p.Running? || p.Getting? || p == Idle || (p.Putting? && !p.closed)
    ensures forall m :: Step(p, In(m)).Some?
  {
  }

  lemma ProperStart(m: Msg)
    ensures Proper(Step(Idle, In(m)).value)
  {
  }

  /** A frame arrived: it decodes, and the conversation took its step. */
  ghost predicate Arrived(a: Arrival, before: Phase, after: Phase) {
    DecodeBody(a.tag, a.body).Ok? &&
    var m := DecodeBody(a.tag, a.body).value;
    TagOf(m) == a.tag && Step(before, In(m)) == Some(after)
  }
}
