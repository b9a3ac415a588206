/** phi-rpc's incremental frame decoder: what a byte stream decodes to, and when the way it is cut into
    pushes cannot be told from the results. */
module FrameDecoder {
  import opened Options
  import opened Utf8
  import opened Wire
  import opened Messages
  import opened Rpc

  /** What the front of a buffer holds. */
  datatype Front = Wait | BadLength(n: nat) | Whole(tag: byte, body: seq<byte>, rest: seq<byte>)

  function FrontOf(b: seq<byte>): (f: Front)
    ensures f.Whole? ==> |f.rest| < |b|
  {
    if |b| < 4 then Wait
    else
      var n := FromLittleEndian(b[..4]);
      if n == 0 || n > MAX_FRAME then BadLength(n)
      else if |b| < 4 + n then Wait
      else Whole(b[4], b[5..4 + n], b[4 + n..])
  }

  datatype Drained = Drained(results: seq<Result<Msg>>, pending: seq<byte>)

  function After(done: seq<Result<Msg>>, d: Drained): Drained { Drained(done + d.results, d.pending) }

  /** Every result a buffer yields before it must wait for more, and what is left then. */
  function Drain(b: seq<byte>): Drained
    decreases |b|
  {
    match FrontOf(b)
    case Wait => Drained([], b)
    case BadLength(n) => Drained([Err(Length(n))], [])
    case Whole(tag, body, rest) => After([DecodeBody(tag, body)], Drain(rest))
  }

  /** No length out of range is reached, unless the stream ends with it. */
  predicate Tame(b: seq<byte>)
    decreases |b|
  {
    match FrontOf(b)
    case Wait => true
    case BadLength(_) => |b| == 4
    case Whole(_, _, rest) => Tame(rest)
  }

  function Flatten(chunks: seq<seq<byte>>): seq<byte> {
    if chunks == [] then [] else chunks[0] + Flatten(chunks[1..])
  }

  /** Push each chunk and drain after it. */
  function Feed(pending: seq<byte>, chunks: seq<seq<byte>>): Drained
    decreases |chunks|
  {
    if chunks == [] then Drained([], pending)
    else
      var d := Drain(pending + chunks[0]);
      After(d.results, Feed(d.pending, chunks[1..]))
  }

  // ------------------------------------------------------------ laws

  lemma AfterTwice(a: seq<Result<Msg>>, b: seq<Result<Msg>>, d: Drained)
    ensures After(a, After(b, d)) == After(a + b, d) && After([], d) == d
  {
    assert a + (b + d.results) == a + b + d.results;
  }

  lemma FrontExtends(b: seq<byte>, c: seq<byte>)
    ensures FrontOf(b).BadLength? ==> FrontOf(b + c) == FrontOf(b)
    ensures FrontOf(b).Whole? ==> FrontOf(b + c) == FrontOf(b).(rest := FrontOf(b).rest + c)
  {
    if |b| >= 4 {
      assert (b + c)[..4] == b[..4];
      var n := FromLittleEndian(b[..4]);
      if |b| >= 4 + n && n > 0 {
        assert (b + c)[5..4 + n] == b[5..4 + n] && (b + c)[4 + n..] == b[4 + n..] + c;
      }
    }
  }

  /** Draining early changes nothing. */
  lemma {:induction false} DrainEarly(b: seq<byte>, c: seq<byte>)
    requires Tame(b + c)
    ensures Tame(Drain(b).pending + c)
    ensures Drain(b + c) == After(Drain(b).results, Drain(Drain(b).pending + c))
    decreases |b|
  {
    hide FromLittleEndian, DecodeBody;
    FrontExtends(b, c);
    match FrontOf(b) {
      case Wait => AfterTwice([], [], Drain(b + c));
      case BadLength(n) =>
        assert c == [] && [] + c == [];
      case Whole(tag, body, rest) =>
        DrainEarly(rest, c);
        AfterTwice([DecodeBody(tag, body)], Drain(rest).results, Drain(Drain(rest).pending + c));
    }
  }

  /** However a tame stream is cut into pushes, the results and the bytes left over are the same. */
  lemma {:induction false} ChunkingIndependent(pending: seq<byte>, chunks: seq<seq<byte>>)
    requires Tame(pending + Flatten(chunks)) && Drain(pending) == Drained([], pending)
    ensures Feed(pending, chunks) == Drain(pending + Flatten(chunks))
    decreases |chunks|
  {
    hide FromLittleEndian, DecodeBody, FrontOf;
    if chunks == [] {
      assert pending + [] == pending;
    } else {
      var b, c := pending + chunks[0], Flatten(chunks[1..]);
      assert pending + Flatten(chunks) == b + c;
      DrainEarly(b, c);
      DrainSettles(b);
      ChunkingIndependent(Drain(b).pending, chunks[1..]);
    }
  }

  lemma {:induction false} DrainSettles(b: seq<byte>)
    ensures Drain(Drain(b).pending) == Drained([], Drain(b).pending)
    decreases |b|
  {
    hide FromLittleEndian, DecodeBody;
    if FrontOf(b).Whole? {
      DrainSettles(FrontOf(b).rest);
    }
  }

  /** The first bad header of a stream that is not tame ends here. */
  function BadEnd(b: seq<byte>): (k: nat)
    requires !Tame(b)
    ensures 4 <= k < |b|
    decreases |b|
  {
    var f := FrontOf(b);
    if f.BadLength? then 4 else |b| - |f.rest| + BadEnd(f.rest)
  }

  lemma {:induction false} UpToBadEnd(b: seq<byte>)
    requires !Tame(b)
    ensures Drain(b[..BadEnd(b)]) == Drain(b) && Drain(b).pending == []
    decreases |b|
  {
    hide FromLittleEndian, DecodeBody;
    var f, k := FrontOf(b), BadEnd(b);
    assert b == b[..k] + b[k..];
    if f.BadLength? {
      HeaderAlone(b);
    } else {
      UpToBadEnd(f.rest);
      WholeShortened(b, k);
    }
  }

  lemma HeaderAlone(b: seq<byte>)
    requires FrontOf(b).BadLength?
    ensures FrontOf(b[..4]) == FrontOf(b)
  {
    assert b[..4][..4] == b[..4];
  }

  lemma WholeShortened(b: seq<byte>, k: nat)
    requires FrontOf(b).Whole? && |b| - |FrontOf(b).rest| <= k <= |b|
    ensures FrontOf(b[..k]) == FrontOf(b).(rest := FrontOf(b).rest[..k - (|b| - |FrontOf(b).rest|)])
  {
    assert b[..k][..4] == b[..4];
    var n := FromLittleEndian(b[..4]);
    assert b[..k][5..4 + n] == b[5..4 + n] && b[..k][4 + n..] == b[4 + n..][..k - 4 - n];
  }

  /** And only a tame stream has that property. */
  lemma ChunkingIffTame(s: seq<byte>)
    ensures Tame(s) <==> forall chunks | Flatten(chunks) == s :: Feed([], chunks) == Drain(s)
  {
    hide FromLittleEndian, DecodeBody;
    if Tame(s) {
      forall chunks | Flatten(chunks) == s
        ensures Feed([], chunks) == Drain(s)
      {
        assert [] + s == s;
        ChunkingIndependent([], chunks);
      }
    } else {
      var k := BadEnd(s);
      var chunks := [s[..k], s[k..]];
      assert chunks[1..] == [s[k..]];
      var none: seq<seq<byte>> := [];
      assert chunks[1..][1..] == none;
      assert Flatten(chunks[1..]) == s[k..];
      assert Flatten(chunks) == s;
      UpToBadEnd(s);
      assert [] + s[..k] == s[..k] && [] + s[k..] == s[k..];
      assert Feed([], chunks) == After(Drain(s).results, Feed([], [s[k..]]));
      TwoPieces(s[k..]);
    }
  }

  lemma TwoPieces(tail: seq<byte>)
    requires tail != []
    ensures Feed([], [tail]).results != [] || Feed([], [tail]).pending != []
  {
    hide FromLittleEndian, DecodeBody;
    assert [] + tail == tail;
    var none: seq<seq<byte>> := [];
    assert [tail][1..] == none;
    assert Feed(Drain(tail).pending, none) == Drained([], Drain(tail).pending);
    assert Feed([], [tail]) == After(Drain(tail).results, Feed(Drain(tail).pending, none));
  }

  /** The claim fails without the condition: a zero length followed by a Ping. */
  lemma ResyncDependsOnCutting()
    ensures var bad, ping := [0, 0, 0, 0], [1, 0, 0, 0, 14];
      Feed([], [bad + ping]).results == [Err(Length(0))] &&
      Feed([], [bad, ping]).results == [Err(Length(0)), Ok(Ping)]
  {
    hide DecodeBody, FrontOf, Drain;
    var bad: seq<byte>, ping: seq<byte> := [0, 0, 0, 0], [1, 0, 0, 0, 14];
    ZeroThenPing(bad, ping);
    FeedOne(bad + ping);
    FeedOne(ping);
    assert [] + bad == bad;
    assert [bad, ping][1..] == [ping];
    assert Feed([], [bad, ping]) == After(Drain(bad).results, Feed([], [ping]));
  }

  lemma FeedOne(b: seq<byte>)
    ensures Feed([], [b]) == Drain(b)
  {
    hide Drain;
    var none: seq<seq<byte>> := [];
    assert [] + b == b && [b][1..] == none;
    assert Feed(Drain(b).pending, none) == Drained([], Drain(b).pending);
    assert Drain(b).results + [] == Drain(b).results;
  }

  lemma ZeroThenPing(bad: seq<byte>, ping: seq<byte>)
    requires bad == [0, 0, 0, 0] && ping == [1, 0, 0, 0, 14]
    ensures Drain(bad) == Drained([Err(Length(0))], []) && Drain(bad + ping) == Drain(bad)
    ensures Drain(ping) == Drained([Ok(Ping)], [])
  {
    hide DecodeBody;
    var zeros: seq<byte> := [0, 0, 0];
    assert FromLittleEndian(zeros[2..]) == 0;
    assert FromLittleEndian(zeros[1..]) == 0 by { assert zeros[1..][1..] == zeros[2..]; }
    assert FromLittleEndian(zeros) == 0;
    assert FromLittleEndian(bad) == 0 by { assert bad[1..] == zeros; }
    assert FromLittleEndian(ping[..4]) == 1 by { assert ping[..4][1..] == zeros; }
    assert bad[..4] == bad && (bad + ping)[..4] == bad;
    assert ping[5..5] == [] && ping[5..] == [];
    assert FrontOf(ping) == Whole(14, [], []);
    PingBody();
  }

  lemma PingBody()
    ensures DecodeBody(14, []) == Ok(Ping)
  {
  }

  // ------------------------------------------------------------ whole frames

  datatype Raw = Raw(tag: byte, body: seq<byte>)

  function RawFrame(r: Raw): seq<byte> { LittleEndian(1 + |r.body|, 4) + [r.tag] + r.body }

  function Stream(rs: seq<Raw>): seq<byte> { if rs == [] then [] else RawFrame(rs[0]) + Stream(rs[1..]) }

  function Meanings(rs: seq<Raw>): (ms: seq<Result<Msg>>)
    ensures |ms| == |rs| && forall i | 0 <= i < |rs| :: ms[i] == DecodeBody(rs[i].tag, rs[i].body)
  {
    seq(|rs|, i requires 0 <= i < |rs| => DecodeBody(rs[i].tag, rs[i].body))
  }

  lemma FrontOfFrame(r: Raw, more: seq<byte>)
    requires 1 + |r.body| <= MAX_FRAME
    ensures FrontOf(RawFrame(r) + more) == Whole(r.tag, r.body, more)
  {
    Limits();
    var n := 1 + |r.body|;
    NumberRoundTrip(n, 4);
    var b := RawFrame(r) + more;
    assert b[..4] == LittleEndian(n, 4) && b[5..4 + n] == r.body && b[4 + n..] == more;
  }

  lemma {:induction false} DrainStream(rs: seq<Raw>)
    requires forall i | 0 <= i < |rs| :: 1 + |rs[i].body| <= MAX_FRAME
    ensures Tame(Stream(rs)) && Drain(Stream(rs)) == Drained(Meanings(rs), [])
  {
    hide FrontOf, FromLittleEndian, LittleEndian, DecodeBody, RawFrame;
    if rs == [] {
      assert FrontOf([]) == Wait by { EmptyWaits(); }
    } else {
      FrontOfFrame(rs[0], Stream(rs[1..]));
      DrainStream(rs[1..]);
      assert Meanings(rs) == [DecodeBody(rs[0].tag, rs[0].body)] + Meanings(rs[1..]);
    }
  }

  lemma EmptyWaits()
    ensures FrontOf([]) == Wait
  {
  }

  /** A stream of well-framed bodies, cut anywhere, gives one result a frame, in order: a body that does not
      decode costs exactly itself. */
  lemma EachFrameAnswersForItself(rs: seq<Raw>, chunks: seq<seq<byte>>)
    requires forall i | 0 <= i < |rs| :: 1 + |rs[i].body| <= MAX_FRAME
    requires Flatten(chunks) == Stream(rs)
    ensures Feed([], chunks) == Drained(Meanings(rs), [])
  {
    hide FrontOf, DecodeBody;
    DrainStream(rs);
    assert [] + Flatten(chunks) == Flatten(chunks);
    EmptyWaits();
    ChunkingIndependent([], chunks);
  }

  function Frames(ms: seq<Msg>): seq<byte> { if ms == [] then [] else Frame(ms[0]) + Frames(ms[1..]) }

  function Received(ms: seq<Msg>): (rs: seq<Result<Msg>>)
    ensures |rs| == |ms| && forall i | 0 <= i < |ms| :: rs[i] == Ok(Clipped(ms[i]))
  {
    seq(|ms|, i requires 0 <= i < |ms| => Ok(Clipped(ms[i])))
  }

  function Raws(ms: seq<Msg>): (rs: seq<Raw>)
    ensures |rs| == |ms| && forall i | 0 <= i < |ms| :: rs[i] == Raw(TagOf(ms[i]), Body(ms[i]))
  {
    seq(|ms|, i requires 0 <= i < |ms| => Raw(TagOf(ms[i]), Body(ms[i])))
  }

  lemma {:induction false} FramesAreRaw(ms: seq<Msg>)
    ensures Frames(ms) == Stream(Raws(ms))
  {
    hide Body, TagOf, LittleEndian;
    if ms != [] {
      FramesAreRaw(ms[1..]);
      assert Raws(ms)[1..] == Raws(ms[1..]);
    }
  }

  /** The round trip over the stream: encoded messages, cut anywhere, arrive clipped and in order. */
  lemma MessagesArrive(ms: seq<Msg>, chunks: seq<seq<byte>>)
    requires forall i | 0 <= i < |ms| :: |Body(ms[i])| < MAX_FRAME
    requires Flatten(chunks) == Frames(ms)
    ensures Feed([], chunks) == Drained(Received(ms), [])
  {
    hide Body, TagOf, LittleEndian, DecodeBody, Clipped, Drain, Feed, Stream;
    FramesAreRaw(ms);
    EachFrameAnswersForItself(Raws(ms), chunks);
    forall i | 0 <= i < |ms|
      ensures Meanings(Raws(ms))[i] == Received(ms)[i]
    {
      BodyRoundTrip(ms[i], []);
      assert Body(ms[i]) + [] == Body(ms[i]);
    }
    assert Meanings(Raws(ms)) == Received(ms);
  }

  // ------------------------------------------------------------ the decoder

  /** Whatever comes next, the results so far followed by those still to come are those of the whole stream. */
  ghost predicate Accounts(pushed: seq<byte>, results: seq<Result<Msg>>, buf: seq<byte>, next: seq<byte>) {
    Tame(pushed + next) ==> Tame(buf + next) && Drain(pushed + next) == After(results, Drain(buf + next))
  }

  lemma AccountsPushed(pushed: seq<byte>, results: seq<Result<Msg>>, buf: seq<byte>, data: seq<byte>, next: seq<byte>)
    requires Accounts(pushed, results, buf, data + next)
    ensures Accounts(pushed + data, results, buf + data, next)
  {
    hide Tame, Drain;
    assert pushed + data + next == pushed + (data + next) && buf + data + next == buf + (data + next);
  }

  lemma AccountsTaken(pushed: seq<byte>, results: seq<Result<Msg>>, buf: seq<byte>, next: seq<byte>)
    requires Accounts(pushed, results, buf, next) && !FrontOf(buf).Wait?
    ensures var f := FrontOf(buf);
      if f.BadLength? then Accounts(pushed, results + [Err(Length(f.n))], [], next)
      else Accounts(pushed, results + [DecodeBody(f.tag, f.body)], f.rest, next)
  {
    hide FromLittleEndian, DecodeBody;
    FrontExtends(buf, next);
    if Tame(pushed + next) {
      match FrontOf(buf) {
        case BadLength(n) =>
          assert next == [] && [] + next == [];
          AfterTwice(results, [Err(Length(n))], Drain([]));
        case Whole(tag, body, rest) =>
          AfterTwice(results, [DecodeBody(tag, body)], Drain(rest + next));
      }
    }
  }

  function Asked(m: Result<Msg>): Result<Option<Msg>> {
    match m
    case Ok(v) => Ok(Some(v))
    case Err(e) => Err(e)
  }

  /** `Decoder`, with everything pushed and every result so far kept as ghosts. */
  class Decoder {
    var buf: seq<byte>
    ghost var pushed: seq<byte>
    ghost var results: seq<Result<Msg>>

    constructor ()
      ensures Valid() && buf == [] && pushed == [] && results == []
    {
      buf, pushed, results := [], [], [];
      new;
      hide Drain, Tame;
      forall next
        ensures Accounts([], [], [], next)
      {
        AfterTwice([], [], Drain([] + next));
      }
    }

    /** Holds after any interleaving of the operations. */
    ghost predicate Valid()
      reads this
    {
      forall next :: Accounts(pushed, results, buf, next)
    }

    method Push(data: seq<byte>)
      requires Valid()
      modifies this
      ensures Valid() && buf == old(buf) + data && pushed == old(pushed) + data && results == old(results)
    {
      hide Accounts;
      buf := buf + data;
      pushed := pushed + data;
      forall next
        ensures Accounts(pushed, results, buf, next)
      {
        AccountsPushed(old(pushed), results, old(buf), data, next);
      }
    }

    /** One result is taken off the front of those the buffer holds, unless the buffer must wait. */
    method NextFrame() returns (r: Result<Option<Msg>>)
      requires Valid()
      modifies this
      ensures Valid() && pushed == old(pushed)
      ensures r == Ok(None) ==> Drain(old(buf)) == Drained([], buf) && buf == old(buf) && results == old(results)
      ensures r != Ok(None) ==>
        |buf| < |old(buf)| && exists m :: results == old(results) + [m] && r == Asked(m) &&
                                          Drain(old(buf)) == After([m], Drain(buf))
    {
      hide DecodeBody, Accounts, Tame;
      if |buf| < 4 {
        return Ok(None);
      }
      var n := FromLittleEndian(buf[..4]);
      if n == 0 || n > MAX_FRAME {
        buf := [];
        results := results + [Err(Length(n))];
        forall next
          ensures Accounts(pushed, results, buf, next)
        {
          AccountsTaken(pushed, old(results), old(buf), next);
        }
        return Err(Length(n));
      }
      var total := 4 + n;
      if |buf| < total {
        return Ok(None);
      }
      var m := DecodeBody(buf[4], buf[5..total]);
      buf := buf[total..];
      results := results + [m];
      forall next
        ensures Accounts(pushed, results, buf, next)
      {
        AccountsTaken(pushed, old(results), old(buf), next);
      }
      r := Asked(m);
    }

    /** The next result, if there is one. */
    method Next() returns (r: Option<Result<Msg>>)
      requires Valid()
      modifies this
      ensures Valid() && pushed == old(pushed)
      ensures r.None? ==> Drain(old(buf)) == Drained([], buf) && buf == old(buf) && results == old(results)
      ensures r.Some? ==>
        |buf| < |old(buf)| && results == old(results) + [r.value] && Drain(old(buf)) == After([r.value], Drain(buf))
    {
      hide DecodeBody, Accounts, Tame, Drain, Asked, After;
      ghost var before := results;
      var f := NextFrame();
      if f == Ok(None) {
        return None;
      }
      ghost var m :| results == before + [m] && f == Asked(m) && Drain(old(buf)) == After([m], Drain(buf));
      AskedBack(m);
      return Some(if f.Ok? then Ok(f.value.value) else Err(f.error));
    }

    /** What every caller does after a push. */
    method DrainAll() returns (rs: seq<Result<Msg>>)
      requires Valid()
      modifies this
      ensures Valid() && pushed == old(pushed)
      ensures Drain(old(buf)) == Drained(rs, buf) && results == old(results) + rs
    {
      hide DecodeBody, Accounts, Tame, Drain;
      rs := [];
      AfterTwice([], [], Drain(buf));
      var more := true;
      while more
        invariant Valid() && pushed == old(pushed) && results == old(results) + rs
        invariant Drain(old(buf)) == After(rs, Drain(buf))
        invariant !more ==> Drain(buf) == Drained([], buf)
        decreases |buf|, more
      {
        var r := Next();
        if r.None? {
          more := false;
        } else {
          AfterTwice(rs, [r.value], Drain(buf));
          rs := rs + [r.value];
        }
      }
      assert rs + [] == rs;
    }
  }

  lemma AskedBack(m: Result<Msg>)
    ensures var r := Asked(m);
      (r.Ok? ==> r.value.Some?) && m == if r.Ok? then Ok(r.value.value) else Err(r.error)
  {
  }
}
