/** The arena of one command: every block `ex_decode` and `ex_env` take from it fits, whatever the body. */
module Arena {
  import opened Options
  import opened Utf8
  import opened Wire
  import opened Messages
  import opened Rpc
  import opened RpcReader
  import opened Environment

  const ARENACAP: nat := 8 * 0x10_0000

  // ------------------------------------------------------------ sizes on the wire

  function WordBytes(ws: seq<Str>): nat { if ws == [] then 0 else WordBytes(ws[..|ws| - 1]) + |ws[|ws| - 1]| }

  function EntrySize(e: Entry): nat { |e.key| + |e.value| }

  function EntryBytes(es: seq<Entry>): nat { if es == [] then 0 else EntryBytes(es[..|es| - 1]) + EntrySize(es[|es| - 1]) }

  function Records(env: seq<(Str, Str)>): (rs: seq<Entry>)
    ensures |rs| == |env| && forall i | 0 <= i < |env| :: rs[i] == Entry(env[i].0, env[i].1)
  {
    seq(|env|, i requires 0 <= i < |env| => Entry(env[i].0, env[i].1))
  }

  lemma {:induction false} WordBytesCons(w: Str, ws: seq<Str>)
    ensures WordBytes([w] + ws) == |w| + WordBytes(ws)
  {
    var all := [w] + ws;
    if ws == [] {
      assert all[..0] == [];
    } else {
      WordBytesCons(w, ws[..|ws| - 1]);
      assert all[..|all| - 1] == [w] + ws[..|ws| - 1];
    }
  }

  lemma {:induction false} EntryBytesCons(e: Entry, es: seq<Entry>)
    ensures EntryBytes([e] + es) == EntrySize(e) + EntryBytes(es)
  {
    var all := [e] + es;
    if es == [] {
      assert all[..0] == [];
    } else {
      EntryBytesCons(e, es[..|es| - 1]);
      assert all[..|all| - 1] == [e] + es[..|es| - 1];
    }
  }

  lemma WordSize(s: seq<byte>)
    requires Typed(Text, OfWord, s).Some?
    ensures var (w, rest) := Typed(Text, OfWord, s).value; |s| == 2 + |w| + |rest|
  {
    hide FromLittleEndian, Valid;
    DecodedFits(Text, s);
  }

  lemma {:induction false} WordsSize(n: nat, s: seq<byte>)
    requires TypedItems(Text, OfWord, n, s).Some?
    ensures var (ws, rest) := TypedItems(Text, OfWord, n, s).value;
      |ws| == n && |s| == 2 * n + WordBytes(ws) + |rest|
  {
    hide Typed, OfWord, WordBytes;
    if n == 0 {
      assert WordBytes([]) == 0 by { NoWords(); }
    } else {
      WordSize(s);
      var (w, rest) := Typed(Text, OfWord, s).value;
      WordsSize(n - 1, rest);
      WordBytesCons(w, TypedItems(Text, OfWord, n - 1, rest).value.0);
    }
  }

  lemma NoWords()
    ensures WordBytes([]) == 0 && EntryBytes([]) == 0
  {
  }

  lemma EntryWireSize(s: seq<byte>)
    requires Typed(ENTRY, OfEntry, s).Some?
    ensures var (e, rest) := Typed(ENTRY, OfEntry, s).value; |s| == 4 + |e.0| + |e.1| + |rest|
  {
    hide Dec, Fits, Valid;
    DecPair(Text, Text, s);
    WordSize(s);
    WordSize(Typed(Text, OfWord, s).value.1);
  }

  lemma {:induction false} EntriesSize(n: nat, s: seq<byte>)
    requires TypedItems(ENTRY, OfEntry, n, s).Some?
    ensures var (es, rest) := TypedItems(ENTRY, OfEntry, n, s).value;
      |es| == n && |s| == 4 * n + EntryBytes(Records(es)) + |rest|
  {
    hide Typed, OfEntry, EntryBytes;
    NoWords();
    if n == 0 {
      assert Records([]) == [];
    } else {
      EntryWireSize(s);
      var (e, rest) := Typed(ENTRY, OfEntry, s).value;
      EntriesSize(n - 1, rest);
      var es := TypedItems(ENTRY, OfEntry, n - 1, rest).value.0;
      EntryBytesCons(Entry(e.0, e.1), Records(es));
      assert Records([e] + es) == [Entry(e.0, e.1)] + Records(es);
    }
  }

  function Directory(cwd: Option<Str>): Str { if cwd.Some? then cwd.value else [] }

  /** A decoded command's lists are short and its strings lie in its body. */
  lemma CommandFits(body: seq<byte>, argv: seq<Str>, env: seq<(Str, Str)>, cwd: Option<Str>)
    requires DecodeBody(1, body) == Ok(Exec(argv, env, cwd))
    ensures |argv| <= 65535 && |env| <= 65535
    ensures 6 + 2 * |argv| + WordBytes(argv) + 4 * |env| + EntryBytes(Records(env)) + |Directory(cwd)| <= |body|
  {
    hide Dec, Fits, Valid, MapOf, OfWord, OfEntry, Typed, TypedItems, FromLittleEndian, WordBytes, EntryBytes;
    var b1, b2 := CommandParts(body, argv, env, cwd);
    ListIsTyped(Text, OfWord, body);
    ListIsTyped(ENTRY, OfEntry, b1);
    CountLimit(body);
    CountLimit(b1);
    WordsSize(FromLittleEndian(body[..2]), body[2..]);
    EntriesSize(FromLittleEndian(b1[..2]), b1[2..]);
    WordSize(b2);
  }

  lemma CountLimit(s: seq<byte>)
    ensures |s| >= 2 ==> FromLittleEndian(s[..2]) <= 65535
  {
    Limits();
  }

  lemma CommandParts(body: seq<byte>, argv: seq<Str>, env: seq<(Str, Str)>, cwd: Option<Str>)
    returns (b1: seq<byte>, b2: seq<byte>)
    requires DecodeBody(1, body) == Ok(Exec(argv, env, cwd))
    ensures TypedList(Text, OfWord, body) == Some((argv, b1)) && TypedList(ENTRY, OfEntry, b1) == Some((env, b2))
    ensures Typed(Text, OfWord, b2).Some? && Typed(Text, OfWord, b2).value.0 == Directory(cwd)
  {
    hide Dec, Fits, Valid, MapOf, OfWord, OfEntry;
    DecPair(List(Text), EXEC_ENV, body);
    b1 := Dec(List(Text), body).rest;
    DecPair(List(ENTRY), Text, b1);
    b2 := Dec(List(ENTRY), b1).rest;
  }

  // ------------------------------------------------------------ the entries kept

  function Picked(recs: seq<Entry>, s: seq<nat>): (r: seq<Entry>)
    requires Indices(recs, s)
    ensures |r| == |s| && forall x | 0 <= x < |s| :: r[x] == recs[s[x]]
  {
    seq(|s|, x requires 0 <= x < |s| => recs[s[x]])
  }

  lemma RemoveOne(a: seq<nat>, b: seq<nat>, i: nat)
    requires a != [] && i < |b| && b[i] == a[0] && multiset(a) == multiset(b)
    ensures multiset(a[1..]) == multiset(b[..i] + b[i + 1..])
  {
    assert a == [a[0]] + a[1..] && b == b[..i] + [b[i]] + b[i + 1..];
    assert multiset(a[1..]) == multiset(a) - multiset{a[0]};
    assert multiset(b) == multiset(b[..i]) + multiset{b[i]} + multiset(b[i + 1..]);
  }

  /** The same indices in any order name as many bytes. */
  lemma {:induction false} OrderIrrelevant(recs: seq<Entry>, a: seq<nat>, b: seq<nat>)
    requires Indices(recs, a) && Indices(recs, b) && multiset(a) == multiset(b)
    ensures EntryBytes(Picked(recs, a)) == EntryBytes(Picked(recs, b))
    decreases |a|
  {
    hide EntryBytes;
    if a == [] {
      assert |multiset(b)| == 0;
    } else {
      var x := a[0];
      assert x in multiset(b);
      var i :| 0 <= i < |b| && b[i] == x;
      var c := b[..i] + b[i + 1..];
      RemoveOne(a, b, i);
      OrderIrrelevant(recs, a[1..], c);
      PickedParts(recs, a, b, i);
      EntryBytesCons(recs[x], Picked(recs, a[1..]));
      TakenOut(Picked(recs, b), i);
    }
  }

  lemma PickedParts(recs: seq<Entry>, a: seq<nat>, b: seq<nat>, i: nat)
    requires Indices(recs, a) && Indices(recs, b) && a != [] && i < |b|
    ensures Indices(recs, b[..i] + b[i + 1..])
    ensures Picked(recs, a) == [recs[a[0]]] + Picked(recs, a[1..])
    ensures Picked(recs, b[..i] + b[i + 1..]) == Picked(recs, b)[..i] + Picked(recs, b)[i + 1..]
  {
    var c := b[..i] + b[i + 1..];
    assert Picked(recs, c) == Picked(recs, b)[..i] + Picked(recs, b)[i + 1..];
    assert Picked(recs, a) == [recs[a[0]]] + Picked(recs, a[1..]);
  }

  lemma {:induction false} TakenOut(es: seq<Entry>, i: nat)
    requires i < |es|
    ensures EntryBytes(es) == EntryBytes(es[..i] + es[i + 1..]) + EntrySize(es[i])
  {
    hide EntryBytes;
    if i == 0 {
      EntryBytesCons(es[0], es[1..]);
      assert es == [es[0]] + es[1..] && es[..0] + es[1..] == es[1..];
    } else {
      TakenOut(es[1..], i - 1);
      var rest := es[1..][..i - 1] + es[1..][i..];
      EntryBytesCons(es[0], rest);
      EntryBytesCons(es[0], es[1..]);
      assert es == [es[0]] + es[1..] && es[..i] + es[i + 1..] == [es[0]] + rest;
    }
  }

  lemma {:induction false} KeptIsLess(recs: seq<Entry>, s: seq<nat>, t: nat)
    requires Indices(recs, s) && t <= |s|
    ensures var k := Kept(recs, s, t);
      |k| <= t && EntryBytes(Chosen(recs, s, k)) <= EntryBytes(Picked(recs, s)[..t])
  {
    hide Kept, EndsRun, EntryBytes, EntrySize, Chosen, Picked, Indices;
    var p := Picked(recs, s);
    if t == 0 {
      KeptStart(recs, s);
      assert p[..0] == [];
    } else {
      KeptIsLess(recs, s, t - 1);
      KeptStep(recs, s, t - 1);
      LastOf(p, t);
      EntryBytesSnoc(p[..t - 1], p[t - 1]);
      MaybeOneMore(Chosen(recs, s, Kept(recs, s, t - 1)), p[t - 1], EndsRun(recs, s, t - 1));
    }
  }

  lemma MaybeOneMore(es: seq<Entry>, e: Entry, more: bool)
    ensures var r := es + if more then [e] else [];
      |r| <= |es| + 1 && EntryBytes(r) <= EntryBytes(es) + EntrySize(e)
  {
    hide EntryBytes, EntrySize;
    if more {
      EntryBytesSnoc(es, e);
    } else {
      assert es + [] == es;
    }
  }

  lemma LastOf(p: seq<Entry>, t: nat)
    requires 0 < t <= |p|
    ensures p[..t] == p[..t - 1] + [p[t - 1]]
  {
  }

  lemma EntryBytesSnoc(es: seq<Entry>, e: Entry)
    ensures EntryBytes(es + [e]) == EntryBytes(es) + EntrySize(e)
  {
    assert (es + [e])[..|es|] == es;
  }

  lemma KeptBytes(recs: seq<Entry>, s: seq<nat>)
    requires Run(recs, s, 0, |recs|)
    ensures var out := Chosen(recs, s, Kept(recs, s, |s|));
      |out| <= |recs| && EntryBytes(out) <= EntryBytes(recs)
  {
    hide Run, EntryBytes, Kept, Chosen;
    RunParts(recs, s);
    KeptIsLess(recs, s, |s|);
    var p, r := Picked(recs, s), Range(0, |recs|);
    assert p[..|s|] == p && Indices(recs, r) && Picked(recs, r) == recs;
    RunMultiset(recs, s);
    OrderIrrelevant(recs, s, r);
  }

  lemma RunMultiset(recs: seq<Entry>, s: seq<nat>)
    requires Run(recs, s, 0, |recs|)
    ensures multiset(s) == multiset(Range(0, |recs|))
  {
  }

  // ------------------------------------------------------------ the arena

  /** `ab`: taking a block is only allowed where it fits. */
  class Arena {
    var ab: nat

    constructor ()
      ensures ab == 0
    {
      ab := 0;
    }

    method Take(n: nat)
      requires ab + n <= ARENACAP
      modifies this
      ensures ab == old(ab) + n
    {
      ab := ab + n;
    }

    /** `ab_align` */
    method Align()
      requires ab + 7 <= ARENACAP
      modifies this
      ensures ab % 8 == 0 && old(ab) <= ab <= old(ab) + 7
    {
      ab := (ab + 7) / 8 * 8;
    }

    method TakeWords(ws: seq<Str>)
      requires ab + WordBytes(ws) + |ws| <= ARENACAP
      modifies this
      ensures ab == old(ab) + WordBytes(ws) + |ws|
    {
      NoWords();
      assert ws[..0] == [];
      for i := 0 to |ws|
        invariant ab == old(ab) + WordBytes(ws[..i]) + i
      {
        WordPrefix(ws, i);
        Take(|ws[i]| + 1);
      }
      assert ws[..|ws|] == ws;
    }

    /** Two strings an entry, each with a byte after it: key and value apart, or "key=value". */
    method TakeEntries(es: seq<Entry>)
      requires ab + EntryBytes(es) + 2 * |es| <= ARENACAP
      modifies this
      ensures ab == old(ab) + EntryBytes(es) + 2 * |es|
    {
      NoWords();
      assert es[..0] == [];
      for i := 0 to |es|
        invariant ab == old(ab) + EntryBytes(es[..i]) + 2 * i
      {
        EntryPrefix(es, i);
        Take(|es[i].key| + 1);
        Take(|es[i].value| + 1);
      }
      assert es[..|es|] == es;
    }
  }

  lemma {:induction false} WordPrefix(ws: seq<Str>, i: nat)
    requires i < |ws|
    ensures WordBytes(ws[..i + 1]) == WordBytes(ws[..i]) + |ws[i]| <= WordBytes(ws)
    decreases |ws|
  {
    if i + 1 == |ws| {
      assert ws[..i + 1] == ws;
    } else {
      var front := ws[..|ws| - 1];
      WordPrefix(front, i);
      assert front[..i + 1] == ws[..i + 1] && front[..i] == ws[..i];
    }
  }

  lemma {:induction false} EntryPrefix(es: seq<Entry>, i: nat)
    requires i < |es|
    ensures EntryBytes(es[..i + 1]) == EntryBytes(es[..i]) + EntrySize(es[i]) <= EntryBytes(es)
    decreases |es|
  {
    if i + 1 == |es| {
      assert es[..i + 1] == es;
    } else {
      var front := es[..|es| - 1];
      EntryPrefix(front, i);
      assert front[..i + 1] == es[..i + 1] && front[..i] == es[..i];
    }
  }

  /** `ex_decode` and `ex_env` over the arena: any Exec that passes `validate` in a frame within the limit fits,
      block by block. */
  method UseArena(body: seq<byte>, argv: seq<Str>, env: seq<(Str, Str)>, cwd: Option<Str>) returns (top: nat)
    requires |body| < MAX_FRAME && DecodeBody(1, body) == Ok(Exec(argv, env, cwd))
    ensures top <= ARENACAP
  {
    hide WordBytes, EntryBytes, DecodeBody, Run, Chosen, Kept, Increasing, Lists, LastWins, HasNul;
    CommandFits(body, argv, env, cwd);
    var a := new Arena();
    var recs := Records(env);
    a.Take(8 + 8 * |argv|);
    a.TakeWords(argv);
    a.Align();
    a.Take(32 * |env| + 4 * |env| + 4 * |env|);
    a.Align();
    a.Take(8 + 8 * |env|);
    a.TakeEntries(recs);
    a.Take(|Directory(cwd)| + 1);
    ghost var s;
    var out, nul, path;
    out, nul, path, s := BuildEnvironment(recs);
    KeptBytes(recs, s);
    a.TakeEntries(out);
    top := a.ab;
  }
}
