/** The agent's side of the conversation, as a grammar over frames received and sent: one session at a time,
    each ended by exactly one terminal frame. */
module Sessions {
  import opened Options
  import opened Utf8
  import opened Messages

  const CHUNK: nat := 32768
  const PONG: byte := 15
  const STAT_REPLY: byte := 19
  const ERROR: byte := 13
  const STDOUT: byte := 4
  const STDERR: byte := 5

  datatype Event = In(m: Msg) | Out(m: Msg)

  /** Where the conversation stands. A running command remembers the input it is owed, a put the file's
      contents so far, a get how much was sent. */
  datatype Phase =
    | Idle
    | Owes(reply: byte, back: Phase)
    | Running(started: bool, input: seq<byte>, eof: bool)
    | Putting(data: seq<byte>, closed: bool)
    | Getting(size: nat)

  predicate IsChunk(d: seq<byte>) { 1 <= |d| <= CHUNK }

  function StepIdle(m: Msg): Phase {
    match m
    case Exec(_, _, _) => Running(false, [], false)
    case PutOpen(_, _) => Putting([], false)
    case Get(_) => Getting(0)
    case Ping => Owes(PONG, Idle)
    case Stat => Owes(STAT_REPLY, Idle)
    case Stdin(_) => Idle
    case StdinEof => Idle
    case PutData(_) => Idle
    case PutClose => Idle
    case _ => Owes(ERROR, Idle)
  }

  function StepRunning(p: Phase, e: Event): Option<Phase>
    requires p.Running?
  {
    var p' := p.(started := true);
    match e
    case In(m) =>
      (match m
       case Stat => Some(Owes(STAT_REPLY, p'))
       case Stdin(d) => Some(if p.eof then p' else p'.(input := p.input + d))
       case StdinEof => Some(p'.(eof := true))
       case _ => Some(p'))
    case Out(m) =>
      match m
      case Stdout(d) => if IsChunk(d) then Some(p') else None
      case Stderr(d) => if IsChunk(d) then Some(p') else None
      case Exit(code) => if 0 <= code <= 255 then Some(Idle) else None
      case Error(_) => if p.started then None else Some(Idle)
      case _ => None
  }

  function StepPutting(p: Phase, e: Event): Option<Phase>
    requires p.Putting?
  {
    match e
    case In(m) =>
      if p.closed then None
      else
        (match m
         case Stat => Some(Owes(STAT_REPLY, p))
         case PutData(d) => Some(p.(data := p.data + d))
         case PutClose => Some(p.(closed := true))
         case _ => Some(p))
    case Out(m) =>
      match m
      case Exit(code) => if p.closed && code == 0 then Some(Idle) else None
      case Error(_) => Some(Idle)
      case _ => None
  }

  function StepGetting(p: Phase, e: Event): Option<Phase>
    requires p.Getting?
  {
    match e
    case In(m) => if m.Stat? then Some(Owes(STAT_REPLY, p)) else Some(p)
    case Out(m) =>
      match m
      case GetData(d) => if IsChunk(d) then Some(Getting(p.size + |d|)) else None
      case GetEnd(size) => if size == p.size % 0x1_0000_0000_0000_0000 then Some(Idle) else None
      case Error(_) => Some(Idle)
      case _ => None
  }

  /** What may happen next, and where it leads. */
  function Step(p: Phase, e: Event): Option<Phase> {
    match p
    case Idle => if e.In? then Some(StepIdle(e.m)) else None
    case Owes(reply, back) => if e.Out? && TagOf(e.m) == reply then Some(back) else None
    case Running(_, _, _) => StepRunning(p, e)
    case Putting(_, _) => StepPutting(p, e)
    case Getting(_) => StepGetting(p, e)
  }

  function Follow(p: Phase, log: seq<Event>): Option<Phase>
    decreases |log|
  {
    if log == [] then Some(p)
    else
      match Step(p, log[0])
      case None => None
      case Some(p') => Follow(p', log[1..])
  }

  lemma {:induction false} FollowSnoc(p: Phase, log: seq<Event>, e: Event)
    ensures Follow(p, log + [e]) ==
      match Follow(p, log)
      case None => None
      case Some(p') => Step(p', e)
    decreases |log|
  {
    hide Step;
    if log == [] {
      var q := Step(p, e);
      assert ([] + [e])[1..] == [];
      assert q.Some? ==> Follow(q.value, []) == q;
    } else if Step(p, log[0]).Some? {
      assert (log + [e])[1..] == log[1..] + [e];
      FollowSnoc(Step(p, log[0]).value, log[1..], e);
    }
  }

  // ------------------------------------------------------------ one session

  /** The session open at `p`: itself, or the one a reply is owed in. */
  function Inner(p: Phase): Phase { if p.Owes? then p.back else p }

  /** Inside a session only a stat reply is ever owed. */
  predicate Proper(p: Phase) { p.Owes? ==> !p.back.Owes? && (p.reply == STAT_REPLY || p.back == Idle) }

  /** A frame that ends a session. */
  predicate Terminal(m: Msg) { m.Exit? || m.Error? || m.GetEnd? }

  /** No terminal frame was sent. */
  ghost predicate Quiet(seg: seq<Event>) {
    forall i | 0 <= i < |seg| :: seg[i].Out? ==> !Terminal(seg[i].m)
  }

  /** From `p`, the log stays inside one session until its last event ends it. */
  predicate OneSession(p: Phase, log: seq<Event>)
    decreases |log|
  {
    log != [] && Step(p, log[0]).Some? &&
    var q := Step(p, log[0]).value;
    if |log| == 1 then q == Idle else Inner(q) != Idle && OneSession(q, log[1..])
  }

  /** A session ends exactly with a terminal frame; until then it stays open. */
  lemma StaysOrEnds(p: Phase, e: Event)
    requires Step(p, e).Some? && Proper(p) && Inner(p) != Idle
    ensures var q := Step(p, e).value;
      Proper(q) && (if e.Out? && Terminal(e.m) then q == Idle else Inner(q) != Idle)
  {
    hide TagOf;
    if e.Out? {
      StatReplyTag(e.m);
    }
  }

  /** Events that end an open session with their last, and none before, are one session. */
  lemma {:induction false} WholeSession(p: Phase, seg: seq<Event>, e: Event)
    requires Inner(p) != Idle && Proper(p) && Quiet(seg)
    requires Follow(p, seg + [e]) == Some(Idle)
    ensures OneSession(p, seg + [e])
    decreases |seg|
  {
    hide Step, Proper, Terminal;
    var log := seg + [e];
    if seg == [] {
      assert log[1..] == [];
    } else {
      assert log[0] == seg[0] && log[1..] == seg[1..] + [e];
      StaysOrEnds(p, seg[0]);
      WholeSession(Step(p, seg[0]).value, seg[1..], e);
    }
  }

  /** `seg` leads from `start` to `phase`, and inside the session open there, if one is. */
  ghost predicate Leads(start: Phase, seg: seq<Event>, phase: Phase) {
    Follow(start, seg) == Some(phase) && Proper(phase) &&
    (Inner(phase) != Idle ==> Inner(start) != Idle && Proper(start) && Quiet(seg))
  }

  /** One event more: the session goes on, or has ended with it. */
  lemma LeadsSnoc(start: Phase, seg: seq<Event>, phase: Phase, e: Event)
    requires Leads(start, seg, phase) && Step(phase, e).Some? && phase != Idle
    ensures Leads(start, seg + [e], Step(phase, e).value)
    ensures Inner(phase) != Idle && Step(phase, e).value == Idle ==> OneSession(start, seg + [e])
  {
    hide Follow, Step, TagOf, Proper, Terminal, OneSession;
    FollowSnoc(start, seg, e);
    if Inner(phase) != Idle {
      StaysOrEnds(phase, e);
      if Step(phase, e).value == Idle {
        WholeSession(start, seg, e);
      }
    } else {
      ReplyOutside(phase, e);
    }
  }

  lemma ReplyOutside(p: Phase, e: Event)
    requires Step(p, e).Some? && p != Idle && Inner(p) == Idle
    ensures Step(p, e).value == Idle && Proper(Idle)
  {
  }

  /** What follows an opening: still that session, or the whole of it first. */
  lemma {:induction false} SessionEnds(p: Phase, seg: seq<Event>) returns (n: nat)
    requires Inner(p) != Idle && Proper(p) && Follow(p, seg).Some?
    ensures n <= |seg|
    ensures n == 0 ==> StillOpen(p, seg)
    ensures n > 0 ==> OneSession(p, seg[..n])
    decreases |seg|
  {
    hide Step, Proper, Terminal;
    if seg == [] {
      return 0;
    }
    var q := Step(p, seg[0]).value;
    StaysOrEnds(p, seg[0]);
    if q == Idle {
      return 1;
    }
    n := SessionEnds(q, seg[1..]);
    if n > 0 {
      assert seg[..n + 1][0] == seg[0] && seg[..n + 1][1..] == seg[1..][..n];
      n := n + 1;
    }
  }

  /** The session opened at `p` has not ended. */
  ghost predicate StillOpen(p: Phase, seg: seq<Event>) {
    Quiet(seg) && Follow(p, seg).Some? && Inner(Follow(p, seg).value) != Idle
  }

  // ------------------------------------------------------------ what the grammar says

  function Sent(log: seq<Event>): seq<Msg> {
    if log == [] then []
    else (if log[0].Out? then [log[0].m] else []) + Sent(log[1..])
  }

  function StatRequests(log: seq<Event>): nat {
    if log == [] then 0
    else (if log[0] == In(Msg.Stat) then 1 else 0) + StatRequests(log[1..])
  }

  function StatReplies(ms: seq<Msg>): nat {
    if ms == [] then 0
    else (if ms[0].StatReply? then 1 else 0) + StatReplies(ms[1..])
  }

  function GotBytes(ms: seq<Msg>): nat {
    if ms == [] then 0
    else (if ms[0].GetData? then |ms[0].data| else 0) + GotBytes(ms[1..])
  }

  ghost predicate AllOf(ms: seq<Msg>, ok: Msg -> bool) { forall i | 0 <= i < |ms| :: ok(ms[i]) }

  predicate ExecStream(m: Msg) { m.Stdout? || m.Stderr? || m.StatReply? }

  predicate GetStream(m: Msg) { m.GetData? || m.StatReply? }

  /** Stream frames, then one terminal frame. */
  ghost predicate Answer(ms: seq<Msg>, stream: Msg -> bool, last: Msg -> bool) {
    ms != [] && AllOf(ms[..|ms| - 1], stream) && last(ms[|ms| - 1])
  }

  lemma AnswerGrows(m: Msg, ms: seq<Msg>, stream: Msg -> bool, last: Msg -> bool)
    requires Answer(ms, stream, last) && stream(m)
    ensures Answer([m] + ms, stream, last)
  {
    var all := [m] + ms;
    assert all[..|all| - 1] == [m] + ms[..|ms| - 1];
  }

  lemma OneEvent(log: seq<Event>)
    requires |log| == 1 && log[0].Out?
    ensures Sent(log) == [log[0].m] && StatRequests(log) == 0
    ensures StatReplies(Sent(log)) == if log[0].m.StatReply? then 1 else 0
    ensures GotBytes(Sent(log)) == if log[0].m.GetData? then |log[0].m.data| else 0
  {
    assert log[1..] == [] && Sent(log)[1..] == [];
  }

  /** How many stat requests still wait for their reply. */
  function Owed(p: Phase): nat { if p.Owes? then 1 else 0 }

  lemma SentStep(log: seq<Event>)
    requires log != []
    ensures log[0].In? ==> Sent(log) == Sent(log[1..])
    ensures log[0].Out? ==> Sent(log) == [log[0].m] + Sent(log[1..])
    ensures log[0].Out? ==>
      StatReplies(Sent(log)) == (if log[0].m.StatReply? then 1 else 0) + StatReplies(Sent(log[1..]))
    ensures log[0].Out? ==>
      GotBytes(Sent(log)) == (if log[0].m.GetData? then |log[0].m.data| else 0) + GotBytes(Sent(log[1..]))
  {
    if log[0].Out? {
      assert Sent(log)[1..] == Sent(log[1..]);
    } else {
      assert [] + Sent(log[1..]) == Sent(log[1..]);
    }
  }

  lemma StatReplyTag(m: Msg)
    ensures TagOf(m) == STAT_REPLY <==> m.StatReply?
  {
  }

  /** A command that is answered gives one Error and nothing else, or any stream of output and stat replies
      and then one Exit; every Stat asked meanwhile is answered. */
  lemma {:induction false} ExecAnswer(p: Phase, log: seq<Event>)
    requires OneSession(p, log)
    requires p.Running? || (p.Owes? && p.reply == STAT_REPLY && p.back.Running? && p.back.started)
    ensures Answer(Sent(log), ExecStream, (m: Msg) => m.Exit? || m.Error?)
    ensures Sent(log)[|Sent(log)| - 1].Error? ==> |log| == 1 && p.Running? && !p.started
    ensures StatReplies(Sent(log)) == StatRequests(log) + Owed(p)
    decreases |log|
  {
    hide Answer, TagOf, StepPutting, StepGetting, StepIdle, StatReplies, Sent, GotBytes;
    if log[0].Out? {
      StatReplyTag(log[0].m);
    }
    var last := (m: Msg) => m.Exit? || m.Error?;
    var q := Step(p, log[0]).value;
    SentStep(log);
    if |log| == 1 {
      OneEvent(log);
      Alone(log[0].m, ExecStream, last);
    } else {
      ExecAnswer(q, log[1..]);
      if log[0].Out? {
        AnswerGrows(log[0].m, Sent(log[1..]), ExecStream, last);
      }
    }
  }

  lemma Alone(m: Msg, stream: Msg -> bool, last: Msg -> bool)
    requires last(m)
    ensures Answer([m], stream, last)
  {
  }

  predicate InPut(p: Phase) { p.Putting? || (p.Owes? && p.reply == STAT_REPLY && p.back.Putting? && !p.back.closed) }

  lemma PutMoves(p: Phase, e: Event)
    requires InPut(p) && Step(p, e).Some?
    ensures var q := Step(p, e).value;
      if q == Idle then e.Out? && (e.m == Exit(0) || e.m.Error?) && (e.m.Exit? ==> Inner(p).closed) && !p.Owes?
      else
        && (Inner(q) != Idle ==> InPut(q)) && (Inner(q).Putting? && Inner(q).closed ==> Inner(p).closed || e == In(PutClose))
        && (e.Out? ==> e.m.StatReply? && p.Owes? && !q.Owes?)
        && (e.In? ==> !p.Owes? && (q.Owes? <==> e.m.Stat?))
  {
    if e.Out? {
      StatReplyTag(e.m);
    }
  }

  /** A put is answered with stat replies, then Exit(0), only after its PutClose, or Error. */
  lemma {:induction false} PutAnswer(p: Phase, log: seq<Event>)
    requires OneSession(p, log)
    requires p.Putting? || (p.Owes? && p.reply == STAT_REPLY && p.back.Putting? && !p.back.closed)
    ensures Answer(Sent(log), (m: Msg) => m.StatReply?, (m: Msg) => m == Exit(0) || m.Error?)
    ensures Sent(log)[|Sent(log)| - 1].Exit? ==> Inner(p).closed || In(PutClose) in log
    ensures StatReplies(Sent(log)) == StatRequests(log) + Owed(p)
    decreases |log|
  {
    hide Answer, Step, TagOf, StatReplies, Sent, GotBytes;
    var stream, last := (m: Msg) => m.StatReply?, (m: Msg) => m == Exit(0) || m.Error?;
    var q := Step(p, log[0]).value;
    PutMoves(p, log[0]);
    SentStep(log);
    if |log| == 1 {
      OneEvent(log);
      Alone(log[0].m, stream, last);
    } else {
      PutAnswer(q, log[1..]);
      if log[0].Out? {
        AnswerGrows(log[0].m, Sent(log[1..]), stream, last);
      }
    }
  }

  /** A get is answered with file data and stat replies, then GetEnd with the number of bytes sent, or Error. */
  lemma {:induction false} GetAnswer(p: Phase, log: seq<Event>)
    requires OneSession(p, log)
    requires p.Getting? || (p.Owes? && p.reply == STAT_REPLY && p.back.Getting?)
    ensures Answer(Sent(log), GetStream, (m: Msg) => m.GetEnd? || m.Error?)
    ensures var last := Sent(log)[|Sent(log)| - 1];
      last.GetEnd? ==> last.size == (Inner(p).size + GotBytes(Sent(log))) % 0x1_0000_0000_0000_0000
    ensures StatReplies(Sent(log)) == StatRequests(log) + Owed(p)
    decreases |log|
  {
    hide Answer, TagOf, StepPutting, StepRunning, StepIdle, StatReplies, Sent, GotBytes;
    if log[0].Out? {
      StatReplyTag(log[0].m);
    }
    var last := (m: Msg) => m.GetEnd? || m.Error?;
    var q := Step(p, log[0]).value;
    SentStep(log);
    if |log| == 1 {
      OneEvent(log);
      Alone(log[0].m, GetStream, last);
    } else {
      GetAnswer(q, log[1..]);
      if log[0].Out? {
        AnswerGrows(log[0].m, Sent(log[1..]), GetStream, last);
      }
    }
  }

  // ------------------------------------------------------------ whole conversations

  predicate Opening(p: Phase) { p == Running(false, [], false) || p == Putting([], false) || p == Getting(0) }

  /** How a session is answered, by its kind. A command: one Error and nothing else, or output and then Exit.
      A put: Exit(0), only after its PutClose, or Error. A get: file data, then GetEnd with the number of
      bytes sent, or Error. Every Stat asked meanwhile is answered before the end. */
  ghost predicate Answered(p: Phase, log: seq<Event>) {
    var ms := Sent(log);
    StatReplies(ms) == StatRequests(log) &&
    match p
    case Running(_, _, _) =>
      Answer(ms, ExecStream, (m: Msg) => m.Exit? || m.Error?) && (ms[|ms| - 1].Error? ==> |log| == 1)
    case Putting(_, _) =>
      Answer(ms, (m: Msg) => m.StatReply?, (m: Msg) => m == Exit(0) || m.Error?) &&
      (ms[|ms| - 1].Exit? ==> In(PutClose) in log)
    case Getting(_) =>
      Answer(ms, GetStream, (m: Msg) => m.GetEnd? || m.Error?) &&
      (ms[|ms| - 1].GetEnd? ==> ms[|ms| - 1].size == GotBytes(ms) % 0x1_0000_0000_0000_0000)
    case _ => true
  }

  lemma SessionIsAnswered(p: Phase, log: seq<Event>)
    requires Opening(p) && OneSession(p, log)
    ensures Answered(p, log)
  {
    hide OneSession, Answer, Sent, StatReplies, StatRequests, GotBytes;
    match p {
      case Running(_, _, _) => ExecAnswer(p, log);
      case Putting(_, _) => PutAnswer(p, log);
      case Getting(_) => GetAnswer(p, log);
      case _ =>
    }
  }

  /** The event at `i` opens a session. */
  predicate OpensAt(log: seq<Event>, i: nat)
    requires i < |log|
  {
    Follow(Idle, log[..i]) == Some(Idle) && log[i].In? && Opening(StepIdle(log[i].m))
  }

  /** Up to `j` the event at `i` had one session, ended and answered. */
  ghost predicate SessionOf(log: seq<Event>, i: nat, j: nat) {
    i < j <= |log| && log[i].In? &&
    var p, seg := StepIdle(log[i].m), log[i + 1..j];
    OneSession(p, seg) && Answered(p, seg)
  }

  /** Every session opened in the log is answered, but for one still open at its end. */
  ghost predicate Conversation(log: seq<Event>) {
    forall i | 0 <= i < |log| && OpensAt(log, i) ::
      StillOpen(StepIdle(log[i].m), log[i + 1..]) || exists j :: SessionOf(log, i, j)
  }

  lemma {:induction false} FollowCut(p: Phase, a: seq<Event>, b: seq<Event>)
    ensures Follow(p, a + b) ==
      match Follow(p, a)
      case None => None
      case Some(q) => Follow(q, b)
    decreases |a|
  {
    hide Step;
    if a == [] {
      assert [] + b == b;
    } else if Step(p, a[0]).Some? {
      assert (a + b)[1..] == a[1..] + b;
      FollowCut(Step(p, a[0]).value, a[1..], b);
    }
  }

  /** Whatever the grammar accepts is such a conversation. */
  lemma AcceptedIsConversation(log: seq<Event>)
    requires Follow(Idle, log).Some?
    ensures Conversation(log)
  {
    hide Follow, StepIdle, Answered, OneSession, StillOpen;
    forall i | 0 <= i < |log| && OpensAt(log, i)
      ensures StillOpen(StepIdle(log[i].m), log[i + 1..]) || exists j :: SessionOf(log, i, j)
    {
      var p, seg := StepIdle(log[i].m), log[i + 1..];
      assert log == log[..i] + log[i..];
      FollowCut(Idle, log[..i], log[i..]);
      assert Follow(Idle, log[i..]) == Follow(p, seg) by {
        assert log[i..][1..] == seg;
        OpeningStep(log[i..]);
      }
      var n := SessionEnds(p, seg);
      if n > 0 {
        SessionIsAnswered(p, seg[..n]);
        assert log[i + 1..i + 1 + n] == seg[..n];
        assert SessionOf(log, i, i + 1 + n);
      }
    }
  }

  lemma OpeningStep(log: seq<Event>)
    requires log != [] && log[0].In?
    ensures Follow(Idle, log) == Follow(StepIdle(log[0].m), log[1..])
  {
    hide StepIdle;
  }

  /** Frames no client has a use for outside a session. */
  predicate Unexpected(m: Msg) { !Stray(m) && !m.Exec? && !m.PutOpen? && !m.Get? && !m.Ping? && !m.Stat? }

  /** Outside a session a Ping, a Stat or an unexpected frame is answered before anything else happens. */
  lemma RepliesAtOnce(log: seq<Event>, i: nat)
    requires Follow(Idle, log).Some? && i + 1 < |log| && Follow(Idle, log[..i]) == Some(Idle) && log[i].In?
    ensures log[i].m.Ping? ==> log[i + 1].Out? && log[i + 1].m.Pong?
    ensures log[i].m.Stat? ==> log[i + 1].Out? && log[i + 1].m.StatReply?
    ensures Unexpected(log[i].m) ==> log[i + 1].Out? && log[i + 1].m.Error?
  {
    hide Follow;
    var rest := log[i..];
    assert log == log[..i] + rest && rest[0] == log[i] && rest[1] == log[i + 1];
    FollowCut(Idle, log[..i], rest);
    TwoSteps(rest);
    if log[i + 1].Out? {
      ReplyTags(log[i + 1].m);
    }
  }

  lemma TwoSteps(log: seq<Event>)
    requires |log| >= 2 && Follow(Idle, log).Some? && log[0].In?
    ensures Step(StepIdle(log[0].m), log[1]).Some?
  {
    hide StepIdle, StepRunning, StepPutting, StepGetting;
    assert log[1..][0] == log[1];
  }

  lemma ReplyTags(m: Msg)
    ensures (TagOf(m) == PONG <==> m.Pong?) && (TagOf(m) == STAT_REPLY <==> m.StatReply?) && (TagOf(m) == ERROR <==> m.Error?)
  {
  }

  // ------------------------------------------------------------ what a session carried

  /** The payloads of the Stdin frames before the first StdinEof. */
  function StdinBytes(log: seq<Event>): seq<byte> {
    if log == [] || log[0] == In(StdinEof) then [] else StdinOf(log[0]) + StdinBytes(log[1..])
  }

  function StdinOf(e: Event): seq<byte> { if e.In? && e.m.Stdin? then e.m.data else [] }

  /** An event that leaves the session open. */
  lemma InputIsStdinStep(p: Phase, e: Event)
    requires Inner(p).Running? && Step(p, e).Some? && (p.Owes? ==> p.reply == STAT_REPLY)
    requires e.Out? ==> !Terminal(e.m)
    ensures var q := Step(p, e).value;
      && Inner(q).Running? && (q.Owes? ==> q.reply == STAT_REPLY)
      && Inner(q).input == Inner(p).input + (if Inner(p).eof then [] else StdinOf(e))
      && Inner(q).eof == (Inner(p).eof || e == In(StdinEof))
  {
    hide TagOf, StepPutting, StepGetting, StepIdle;
  }

  /** The input a running command is owed is exactly what was sent for it. */
  lemma {:induction false} InputIsStdin(p: Phase, log: seq<Event>)
    requires Inner(p).Running? && Follow(p, log).Some? && (p.Owes? ==> p.reply == STAT_REPLY)
    requires Quiet(log)
    ensures var q := Inner(Follow(p, log).value);
      q.Running? && q.input == Inner(p).input + if Inner(p).eof then [] else StdinBytes(log)
    decreases |log|
  {
    hide Step, StdinOf;
    EndsEmpty();
    assert Inner(p).input + [] == Inner(p).input;
    if log != [] {
      InputIsStdinStep(p, log[0]);
      InputIsStdin(Step(p, log[0]).value, log[1..]);
      var i, d := Inner(p).input, StdinOf(log[0]);
      assert i + d + StdinBytes(log[1..]) == i + (d + StdinBytes(log[1..]));
    }
  }

  /** The payloads of the PutData frames before the PutClose. */
  function PutBytes(log: seq<Event>): seq<byte> {
    if log == [] || log[0] == In(PutClose) then [] else PutOf(log[0]) + PutBytes(log[1..])
  }

  function PutOf(e: Event): seq<byte> { if e.In? && e.m.PutData? then e.m.data else [] }

  /** An event that leaves the session open. */
  lemma DataIsPutDataStep(p: Phase, e: Event)
    requires Inner(p).Putting? && Step(p, e).Some? && (p.Owes? ==> p.reply == STAT_REPLY)
    requires e.Out? ==> !Terminal(e.m)
    ensures var q := Step(p, e).value;
      && Inner(q).Putting? && (q.Owes? ==> q.reply == STAT_REPLY)
      && Inner(q).data == Inner(p).data + (if Inner(p).closed then [] else PutOf(e))
      && Inner(q).closed == (Inner(p).closed || e == In(PutClose))
  {
    hide TagOf, StepRunning, StepGetting, StepIdle;
  }

  /** The contents a put is owed are exactly what was sent for it. */
  lemma {:induction false} DataIsPutData(p: Phase, log: seq<Event>)
    requires Inner(p).Putting? && Follow(p, log).Some? && (p.Owes? ==> p.reply == STAT_REPLY)
    requires Quiet(log)
    ensures var q := Inner(Follow(p, log).value);
      q.Putting? && q.data == Inner(p).data + if Inner(p).closed then [] else PutBytes(log)
    decreases |log|
  {
    hide Step, PutOf;
    EndsEmpty();
    assert Inner(p).data + [] == Inner(p).data;
    if log != [] {
      DataIsPutDataStep(p, log[0]);
      DataIsPutData(Step(p, log[0]).value, log[1..]);
      var i, d := Inner(p).data, PutOf(log[0]);
      assert i + d + PutBytes(log[1..]) == i + (d + PutBytes(log[1..]));
    }
  }

  lemma EndsEmpty()
    ensures StdinOf(In(StdinEof)) == [] && PutOf(In(PutClose)) == []
  {
  }

  /** The bytes of a command's two outputs and of a file. */
  datatype Content = Content(out: seq<byte>, err: seq<byte>, file: seq<byte>)

  const NOTHING: Content := Content([], [], [])

  function Add(c: Content, m: Msg): Content {
    match m
    case Stdout(d) => c.(out := c.out + d)
    case Stderr(d) => c.(err := c.err + d)
    case GetData(d) => c.(file := c.file + d)
    case _ => c
  }

  function Plus(a: Content, b: Content): Content { Content(a.out + b.out, a.err + b.err, a.file + b.file) }

  lemma PlusNothing(a: Content)
    ensures Plus(a, NOTHING) == a
  {
  }

  lemma PlusAdd(a: Content, b: Content, m: Msg)
    ensures Add(Plus(a, b), m) == Plus(a, Add(b, m))
  {
    match m {
      case Stdout(d) => assert a.out + b.out + d == a.out + (b.out + d);
      case Stderr(d) => assert a.err + b.err + d == a.err + (b.err + d);
      case GetData(d) => assert a.file + b.file + d == a.file + (b.file + d);
      case _ =>
    }
  }

  /** The payloads sent, each kind in order. */
  function Carried(log: seq<Event>): Content
    decreases |log|
  {
    if log == [] then NOTHING
    else
      var e, before := log[|log| - 1], Carried(log[..|log| - 1]);
      if e.Out? then Add(before, e.m) else before
  }

  lemma CarriedSnoc(log: seq<Event>, e: Event)
    ensures Carried(log + [e]) == if e.Out? then Add(Carried(log), e.m) else Carried(log)
  {
    hide Add;
    assert (log + [e])[..|log|] == log;
  }

  predicate Stray(m: Msg) { m.Stdin? || m.StdinEof? || m.PutData? || m.PutClose? }

  /** Stream frames that come outside a session are never answered: the next frame sent, if any, answers
      something received after them. */
  lemma {:induction false} StrayIsSilent(strays: seq<Event>, e: Event, rest: seq<Event>)
    requires forall i | 0 <= i < |strays| :: strays[i].In? && Stray(strays[i].m)
    requires Follow(Idle, strays + [e] + rest).Some?
    ensures e.In?
    decreases |strays|
  {
    var log := strays + [e] + rest;
    if strays != [] {
      assert log[0] == strays[0] && log[1..] == strays[1..] + [e] + rest;
      StrayIsSilent(strays[1..], e, rest);
    }
  }
}
