/** The agent's kernel-thread table: rebuilt at every sample, sorted by pid, searched by bisection, and re-read
    from /proc only every fourth sample. */
module Kthreads {
  import opened Options
  import Wire
  import Messages
  import Rpc

  const KM_MAX: nat := 65536
  const KTHREAD_EVERY: nat := 4
  const WRAP: nat := 0x1_0000_0000
  const MAX_PROCS: nat := 16384

  datatype Row = Row(pid: nat, ticks: nat)
  /** The length of a name read through a 64 KiB buffer. */
  type NameLength = n: nat | n < 0x1_0000

  /** What /proc/<pid>/stat says, when it can be read: of the name, only its length. */
  datatype StatLine = StatLine(kthread: bool, ticks: nat, name: NameLength)
  /** One directory entry: its pid and its stat. */
  datatype Process = Process(pid: nat, stat: Option<StatLine>)
  /** One listing of /proc, and how far the frame was built when it began. */
  datatype Listing = Listing(ps: seq<Process>, at: nat)

  // ------------------------------------------------------------ tables

  predicate Sorted(s: seq<Row>) { forall i, j | 0 <= i < j < |s| :: s[i].pid <= s[j].pid }

  predicate Strict(s: seq<Row>) { forall i, j | 0 <= i < j < |s| :: s[i].pid < s[j].pid }

  predicate Distinct(s: seq<Row>) { forall i, j | 0 <= i < j < |s| :: s[i].pid != s[j].pid }

  function Lookup(s: seq<Row>, pid: nat): (r: Option<nat>)
    ensures r.None? ==> forall i | 0 <= i < |s| :: s[i].pid != pid
    ensures r.Some? ==> exists i | 0 <= i < |s| :: s[i] == Row(pid, r.value)
  {
    if s == [] then None
    else if s[|s| - 1].pid == pid then Some(s[|s| - 1].ticks)
    else Lookup(s[..|s| - 1], pid)
  }

  lemma {:induction false} LookupAt(s: seq<Row>, i: nat)
    requires Distinct(s) && i < |s|
    ensures Lookup(s, s[i].pid) == Some(s[i].ticks)
  {
    if i < |s| - 1 {
      LookupAt(s[..|s| - 1], i);
    }
  }

  /** A row put into its place in a sorted table, after those of the same pid. */
  function Insert(s: seq<Row>, x: Row): (r: seq<Row>)
    ensures |r| == |s| + 1
  {
    if s == [] || s[|s| - 1].pid <= x.pid then s + [x] else Insert(s[..|s| - 1], x) + [s[|s| - 1]]
  }

  function InsertionSorted(s: seq<Row>): (r: seq<Row>)
    ensures |r| == |s|
  {
    if s == [] then [] else Insert(InsertionSorted(s[..|s| - 1]), s[|s| - 1])
  }

  lemma {:induction false} InsertAt(s: seq<Row>, x: Row, d: nat)
    requires d <= |s| && (d > 0 ==> s[d - 1].pid <= x.pid) && forall i | d <= i < |s| :: x.pid < s[i].pid
    ensures Insert(s, x) == s[..d] + [x] + s[d..]
  {
    if d == |s| {
      assert s[..d] == s && s[d..] == [];
    } else {
      hide Insert;
      var t, e := s[..|s| - 1], s[|s| - 1];
      assert s == t + [e];
      InsertBefore(t, e, x);
      InsertAt(t, x, d);
      LastApart(t, e, d);
      var front, back := t[..d] + [x], t[d..];
      assert front + back + [e] == front + (back + [e]);
    }
  }

  lemma InsertBefore(t: seq<Row>, e: Row, x: Row)
    requires x.pid < e.pid
    ensures Insert(t + [e], x) == Insert(t, x) + [e]
  {
    assert (t + [e])[..|t|] == t;
  }

  lemma LastApart(t: seq<Row>, e: Row, d: nat)
    requires d <= |t|
    ensures (t + [e])[..d] == t[..d] && (t + [e])[d..] == t[d..] + [e]
  {
  }

  lemma {:induction false} InsertKeeps(s: seq<Row>, x: Row)
    requires Sorted(s)
    ensures Sorted(Insert(s, x)) && multiset(Insert(s, x)) == multiset(s) + multiset{x}
  {
    if s != [] && s[|s| - 1].pid > x.pid {
      var t, e := s[..|s| - 1], s[|s| - 1];
      InsertKeeps(t, x);
      InsertWithin(t, x, e.pid);
      SortedSnoc(Insert(t, x), e);
      CountedSnoc(s, Insert(t, x), x);
    }
  }

  lemma SortedSnoc(s: seq<Row>, e: Row)
    requires Sorted(s) && forall i | 0 <= i < |s| :: s[i].pid <= e.pid
    ensures Sorted(s + [e])
  {
  }

  lemma CountedSnoc(s: seq<Row>, t: seq<Row>, x: Row)
    requires s != [] && multiset(t) == multiset(s[..|s| - 1]) + multiset{x}
    ensures multiset(t + [s[|s| - 1]]) == multiset(s) + multiset{x}
  {
    assert s == s[..|s| - 1] + [s[|s| - 1]];
  }

  lemma {:induction false} InsertWithin(s: seq<Row>, x: Row, top: nat)
    requires x.pid <= top && forall i | 0 <= i < |s| :: s[i].pid <= top
    ensures forall i | 0 <= i < |s| + 1 :: Insert(s, x)[i].pid <= top
  {
    if s != [] {
      InsertWithin(s[..|s| - 1], x, top);
    }
  }

  lemma {:induction false} InsertionSortedIs(s: seq<Row>)
    ensures Sorted(InsertionSorted(s)) && multiset(InsertionSorted(s)) == multiset(s)
  {
    hide Sorted, Insert;
    if s == [] {
      NothingSorted();
    } else {
      var t, x := s[..|s| - 1], s[|s| - 1];
      InsertionSortedIs(t);
      InsertKeeps(InsertionSorted(t), x);
      OneCounted(s);
    }
  }

  lemma NothingSorted()
    ensures Sorted([])
  {
  }

  lemma OneCounted(s: seq<Row>)
    requires s != []
    ensures multiset(s) == multiset(s[..|s| - 1]) + multiset{s[|s| - 1]}
  {
    assert s == s[..|s| - 1] + [s[|s| - 1]];
  }

  /** Already in order, nothing moves. */
  lemma {:induction false} StrictStays(s: seq<Row>)
    requires Strict(s)
    ensures InsertionSorted(s) == s
  {
    if s != [] {
      StrictStays(s[..|s| - 1]);
      assert s == s[..|s| - 1] + [s[|s| - 1]];
    }
  }

  /** Distinct pids stay distinct in any order. */
  lemma {:induction false} DistinctByCount(s: seq<Row>)
    requires Distinct(s)
    ensures Strict(InsertionSorted(s))
  {
    if s != [] {
      var t, x := s[..|s| - 1], s[|s| - 1];
      DistinctByCount(t);
      InsertionSortedIs(t);
      var u := InsertionSorted(t);
      forall i | 0 <= i < |u|
        ensures u[i].pid != x.pid
      {
        assert u[i] in multiset(u);
        assert u[i] in t;
      }
      InsertStrict(u, x);
    }
  }

  lemma InsertBelow(t: seq<Row>, x: Row, bound: nat)
    requires Sorted(t) && x.pid < bound && forall i | 0 <= i < |t| :: t[i].pid < bound
    ensures forall i | 0 <= i < |Insert(t, x)| :: Insert(t, x)[i].pid < bound
  {
    hide Insert;
    InsertKeeps(t, x);
    forall i | 0 <= i < |Insert(t, x)|
      ensures Insert(t, x)[i].pid < bound
    {
      assert Insert(t, x)[i] in multiset(Insert(t, x));
    }
  }

  lemma {:induction false} InsertStrict(s: seq<Row>, x: Row)
    requires Strict(s) && forall i | 0 <= i < |s| :: s[i].pid != x.pid
    ensures Strict(Insert(s, x))
  {
    if s != [] && s[|s| - 1].pid > x.pid {
      var t, e := s[..|s| - 1], s[|s| - 1];
      InsertStrict(t, x);
      assert forall i | 0 <= i < |t| :: t[i] == s[i] && s[i].pid < e.pid;
      InsertBelow(t, x, e.pid);
    }
  }

  // ------------------------------------------------------------ room in the frame

  const TWO64: nat := 0x1_0000_0000_0000_0000

  /** How far the transmit buffer may be filled, from its start: 16 bytes under the largest frame. */
  const LIMIT: nat := 4 + Rpc.MAX_FRAME - 16

  /** The bytes of a record around its name. */
  const RECORD: nat := 28

  lemma ProcParts(p: Messages.ProcStat)
    ensures var v := Messages.ProcVal(p);
      v.Two? && Wire.Fits(Messages.PROC_NUMBERS, v.a) && v.b == Wire.Chars(p.comm) && Wire.Fits(Wire.Text, v.b)
  {
  }

  /** As the wire has it. */
  lemma RecordBytes(p: Messages.ProcStat)
    requires |p.comm| < 0x1_0000
    ensures |Wire.Enc(Messages.PROC, Messages.ProcVal(p))| == RECORD + |p.comm|
  {
    hide Wire.Fits, Wire.Width, Wire.Enc;
    var v := Messages.ProcVal(p);
    Messages.Widths();
    ProcParts(p);
    Wire.NumberBytes(Messages.PROC_NUMBERS, v.a);
    Wire.PairBytes(Messages.PROC_NUMBERS, Wire.Text, v);
    Wire.TextBytes(p.comm);
  }

  /** `room`: a subtraction and an unsigned comparison in 64 bits. */
  predicate HasRoom(at: nat, n: nat) { (LIMIT - at) % TWO64 >= n }

  /** The test says what it should as long as the limit has not been passed; after that it says yes. */
  lemma HasRoomIff(at: nat, n: nat)
    requires at < 2 * Rpc.MAX_FRAME && n < 0x10_0000_0000
    ensures HasRoom(at, n) <==> at + n <= LIMIT || at > LIMIT
  {
    if at > LIMIT {
      assert (LIMIT - at) % TWO64 == LIMIT - at + TWO64;
    }
  }

  // ------------------------------------------------------------ one sample

  /** What a sample has gathered so far: the rows of the new table in arrival order, the processes listed, the counts,
      and how far the frame is built. */
  datatype Tally = Tally(rows: seq<Row>, listed: seq<Process>, nprocs: nat, nkthreads: nat, at: nat)

  function AddRow(rows: seq<Row>, r: Row): seq<Row> { if |rows| < KM_MAX then rows + [r] else rows }

  function ListIt(t: Tally, p: Process): Tally
    requires p.stat.Some?
  {
    if |t.listed| < MAX_PROCS && HasRoom(t.at, RECORD + p.stat.value.name)
    then t.(listed := t.listed + [p], at := t.at + RECORD + p.stat.value.name)
    else t
  }

  function Visit(known: seq<Row>, refresh: bool, t: Tally, p: Process): Tally {
    var k := Lookup(known, p.pid);
    if !refresh && k.Some? then
      t.(nprocs := t.nprocs + 1, nkthreads := t.nkthreads + 1, rows := AddRow(t.rows, Row(p.pid, k.value)))
    else if p.stat.None? then t
    else if !p.stat.value.kthread then ListIt(t.(nprocs := t.nprocs + 1), p)
    else
      var read := Row(p.pid, p.stat.value.ticks);
      var t' := t.(nprocs := t.nprocs + 1, nkthreads := t.nkthreads + 1, rows := AddRow(t.rows, read));
      if k == Some(read.ticks) then t' else ListIt(t', p)
  }

  function VisitAll(known: seq<Row>, refresh: bool, ps: seq<Process>, at: nat): Tally {
    if ps == [] then Tally([], [], 0, 0, at)
    else Visit(known, refresh, VisitAll(known, refresh, ps[..|ps| - 1], at), ps[|ps| - 1])
  }

  class KthreadTable {
    var prev: array<Row>
    var prevN: nat
    var next: array<Row>
    var nextN: nat
    var samples: nat
    var unsorted: bool
    ghost var history: seq<Option<Listing>>

    constructor ()
      ensures Valid() && history == [] && fresh(prev) && fresh(next)
    {
      prev := new Row[KM_MAX];
      next := new Row[KM_MAX];
      prevN, nextN, samples, unsorted, history := 0, 0, 0, false, [];
    }

    ghost predicate InBounds()
      reads this
    {
      prev != next && prev.Length == next.Length == KM_MAX && prevN <= KM_MAX && nextN <= KM_MAX
    }

    ghost function Known(): seq<Row>
      requires InBounds()
      reads this, prev
    {
      prev[..prevN]
    }

    ghost function Building(): seq<Row>
      requires InBounds()
      reads this, next
    {
      next[..nextN]
    }

    /** The previous sample's table is sorted, one row a pid. */
    ghost predicate Searchable()
      reads this, prev
    {
      InBounds() && Strict(Known())
    }

    /** That table is what the samples so far lead to. */
    ghost predicate Valid()
      reads this, prev
    {
      Searchable() && Known() == TableAfter(history) && samples == |history| % WRAP
    }

    /** `km_find`: bisection finds exactly the table's entries. */
    method Find(pid: nat) returns (r: Option<nat>)
      requires Searchable()
      ensures r == Lookup(Known(), pid)
    {
      ghost var k := Known();
      var lo, hi := 0, prevN;
      while lo < hi
        invariant lo <= hi <= prevN
        invariant forall i | 0 <= i < lo :: k[i].pid < pid
        invariant forall i | hi <= i < prevN :: pid < k[i].pid
      {
        var mid := (lo + hi) / 2;
        assert prev[mid] == k[mid];
        if prev[mid].pid == pid {
          LookupAt(k, mid);
          return Some(prev[mid].ticks);
        } else if prev[mid].pid < pid {
          lo := mid + 1;
        } else {
          hi := mid;
        }
      }
      return None;
    }

    /** `km_add` */
    method Add(pid: nat, ticks: nat)
      requires InBounds() && (!unsorted ==> Strict(Building()))
      modifies this`nextN, this`unsorted, next
      ensures InBounds() && (!unsorted ==> Strict(Building()))
      ensures Building() == AddRow(old(Building()), Row(pid, ticks))
    {
      if nextN >= KM_MAX {
        return;
      }
      ghost var b := Building();
      if nextN > 0 && pid <= next[nextN - 1].pid {
        unsorted := true;
      }
      next[nextN] := Row(pid, ticks);
      nextN := nextN + 1;
      assert Building() == b + [Row(pid, ticks)];
      if !unsorted && |b| > 0 {
        assert b[|b| - 1].pid < pid;
      }
    }

    /** `km_sort` */
    method SortNext()
      requires InBounds()
      modifies next
      ensures Building() == InsertionSorted(old(Building()))
    {
      ghost var s := Building();
      var c := 1;
      if nextN == 0 {
        return;
      }
      hide InsertionSorted, Insert, Sorted;
      OneSorted(s[..1]);
      FirstTaken(next[..], s);
      while c < nextN
        invariant 1 <= c <= nextN
        invariant next[..c] == InsertionSorted(s[..c]) && next[c..nextN] == s[c..]
      {
        SortOne(s, c);
        c := c + 1;
      }
      assert s[..nextN] == s;
    }

    /** One more row in order. */
    method SortOne(ghost s: seq<Row>, c: nat)
      requires InBounds() && |s| == nextN && c < nextN
      requires next[..c] == InsertionSorted(s[..c]) && next[c..nextN] == s[c..]
      modifies next
      ensures next[..c + 1] == InsertionSorted(s[..c + 1]) && next[c + 1..nextN] == s[c + 1..]
    {
      hide InsertionSorted, Insert, Sorted;
      ghost var before := next[..];
      SortStep(s, c);
      assert before[c..nextN] == s[c..];
      FrontStands(before, s, c);
      InsertInPlace(c);
      RestStands(before, next[..], s, c);
    }

    /** The row at `c` moved down past the rows of greater pid. */
    method InsertInPlace(c: nat)
      requires InBounds() && c < nextN
      modifies next
      ensures next[..c + 1] == Insert(old(next[..c]), old(next[c])) && next[c + 1..] == old(next[c + 1..])
    {
      hide Insert, Sorted;
      ghost var p := next[..c];
      var x, d := next[c], c;
      while d > 0 && next[d - 1].pid > x.pid
        invariant d <= c && forall i | 0 <= i < d :: next[i] == p[i]
        invariant forall i | d <= i < c :: next[i + 1] == p[i]
        invariant next[c + 1..] == old(next[c + 1..]) && forall i | d <= i < c :: x.pid < p[i].pid
      {
        next[d] := next[d - 1];
        d := d - 1;
      }
      next[d] := x;
      InsertAt(p, x, d);
      OpenedUp(p, next[..c + 1], x, d);
    }

    /** One directory entry of `st_procs`. */
    method VisitOne(p: Process, refresh: bool, ghost t: Tally, listed: seq<Process>, nprocs: nat, nkthreads: nat, at: nat)
      returns (listed': seq<Process>, nprocs': nat, nkthreads': nat, at': nat)
      requires Searchable() && (!unsorted ==> Strict(Building()))
      requires t == Tally(Building(), listed, nprocs, nkthreads, at)
      modifies this`nextN, this`unsorted, next
      ensures Searchable() && (!unsorted ==> Strict(Building()))
      ensures Visit(Known(), refresh, t, p) == Tally(Building(), listed', nprocs', nkthreads', at')
    {
      hide TableAfter, Lookup, Strict, HasRoom;
      listed', nprocs', nkthreads', at' := listed, nprocs, nkthreads, at;
      if !refresh {
        var k := Find(p.pid);
        if k.Some? {
          nprocs', nkthreads' := nprocs + 1, nkthreads + 1;
          Add(p.pid, k.value);
          return;
        }
      }
      if p.stat.None? {
        return;
      }
      nprocs' := nprocs + 1;
      if p.stat.value.kthread {
        nkthreads' := nkthreads + 1;
        var k := Find(p.pid);
        Add(p.pid, p.stat.value.ticks);
        if k == Some(p.stat.value.ticks) {
          return;
        }
      }
      if |listed| < MAX_PROCS && HasRoom(at, RECORD + p.stat.value.name) {
        listed' := listed + [p];
        at' := at + RECORD + p.stat.value.name;
      }
    }

    method VisitListing(l: Listing, refresh: bool)
      returns (listed: seq<Process>, nprocs: nat, nkthreads: nat, at: nat)
      requires Searchable()
      modifies this`nextN, this`unsorted, next
      ensures Searchable() && (!unsorted ==> Strict(Building()))
      ensures VisitAll(Known(), refresh, l.ps, l.at) == Tally(Building(), listed, nprocs, nkthreads, at)
    {
      hide Strict, Lookup, Visit;
      ghost var known := Known();
      listed, nprocs, nkthreads, at, nextN, unsorted := [], 0, 0, l.at, 0, false;
      EmptyStrict();
      var i := 0;
      while i < |l.ps|
        invariant i <= |l.ps| && Searchable() && Known() == known && (!unsorted ==> Strict(Building()))
        invariant VisitAll(known, refresh, l.ps[..i], l.at) == Tally(Building(), listed, nprocs, nkthreads, at)
      {
        VisitNext(known, refresh, l.ps, l.at, i);
        ghost var t := VisitAll(known, refresh, l.ps[..i], l.at);
        listed, nprocs, nkthreads, at := VisitOne(l.ps[i], refresh, t, listed, nprocs, nkthreads, at);
        i := i + 1;
      }
      assert l.ps[..|l.ps|] == l.ps;
    }

    /** `st_procs` over one listing of /proc, whose pids are distinct, the frame built up to `at`; no listing leaves
        the table as it was. */
    method Sample(dir: Option<seq<Process>>, at: nat)
      returns (listed: seq<Process>, nprocs: nat, nkthreads: nat, end: nat)
      requires Valid() && (dir.Some? ==> DistinctPids(dir.value))
      modifies this, prev, next
      ensures Valid() && history == old(history) + [if dir.None? then None else Some(Listing(dir.value, at))]
      ensures dir.None? ==> Known() == old(Known()) && listed == [] && nprocs == nkthreads == 0 && end == at
      ensures dir.Some? ==>
        var t := VisitAll(old(Known()), samples % KTHREAD_EVERY == 1, dir.value, at);
        listed == t.listed && nprocs == t.nprocs && nkthreads == t.nkthreads && end == t.at &&
        Known() == InsertionSorted(t.rows)
      ensures dir.Some? ==>
        Reported(old(Known()), samples % KTHREAD_EVERY == 1, dir.value, at, listed, nprocs, nkthreads, end) &&
        (|dir.value| <= KM_MAX ==> nkthreads == |Known()|)
      ensures at <= LIMIT ==> end <= LIMIT && end + 8 - 4 <= Rpc.MAX_FRAME
    {
      hide TableAfter, Strict, Lookup, VisitAll, InsertionSorted, Reported;
      SampleCount(|history|);
      samples := (samples + 1) % WRAP;
      ghost var listing := if dir.None? then None else Some(Listing(dir.value, at));
      TableStep(history, listing);
      history := history + [listing];
      listed, nprocs, nkthreads, end := [], 0, 0, at;
      if dir.Some? {
        var refresh := samples % KTHREAD_EVERY == 1;
        FrameKept(Known(), refresh, dir.value, at);
        SampleReported(Known(), refresh, dir.value, at);
        VisitedDistinct(Known(), refresh, dir.value, at);
        listed, nprocs, nkthreads, end := VisitListing(Listing(dir.value, at), refresh);
        Settle();
      }
    }

    /** The new table sorted, if it is not yet, and the two tables exchanged. */
    method Settle()
      requires InBounds() && (!unsorted ==> Strict(Building())) && Distinct(Building())
      modifies this`prev, this`next, this`prevN, next
      ensures InBounds() && prev == old(next) && next == old(prev)
      ensures Known() == InsertionSorted(old(Building())) && Strict(Known())
    {
      hide Strict, InsertionSorted;
      DistinctByCount(Building());
      if unsorted {
        SortNext();
      } else {
        StrictStays(Building());
      }
      prev, next := next, prev;
      prevN := nextN;
    }
  }

  /** No record takes the frame past its limit: the unsigned test is only ever made below it. */
  lemma {:induction false} FrameKept(known: seq<Row>, refresh: bool, ps: seq<Process>, at: nat)
    ensures at <= LIMIT ==> at <= VisitAll(known, refresh, ps, at).at <= LIMIT
  {
    hide Lookup, HasRoom;
    if ps != [] {
      var qs, p := ps[..|ps| - 1], ps[|ps| - 1];
      FrameKept(known, refresh, qs, at);
      if at <= LIMIT && p.stat.Some? {
        HasRoomIff(VisitAll(known, refresh, qs, at).at, RECORD + p.stat.value.name);
      }
    }
  }

  lemma OpenedUp(p: seq<Row>, q: seq<Row>, x: Row, d: nat)
    requires d <= |p| && |q| == |p| + 1 && q[d] == x
    requires forall i | 0 <= i < d :: q[i] == p[i]
    requires forall i | d <= i < |p| :: q[i + 1] == p[i]
    ensures q == p[..d] + [x] + p[d..]
  {
  }

  lemma FirstTaken(a: seq<Row>, s: seq<Row>)
    requires s != [] && |s| <= |a| && a[..|s|] == s
    ensures a[..1] == s[..1] && a[1..|s|] == s[1..]
  {
    assert a[..1] == a[..|s|][..1] && a[1..|s|] == a[..|s|][1..];
  }

  lemma FrontStands(a: seq<Row>, s: seq<Row>, c: nat)
    requires c < |s| <= |a| && a[c..|s|] == s[c..]
    ensures a[c] == s[c]
  {
    assert a[c] == a[c..|s|][0] && s[c] == s[c..][0];
  }

  lemma RestStands(before: seq<Row>, after: seq<Row>, s: seq<Row>, c: nat)
    requires c < |s| <= |before| == |after| && after[c + 1..] == before[c + 1..] && before[c..|s|] == s[c..]
    ensures after[c + 1..|s|] == s[c + 1..]
  {
    assert after[c + 1..|s|] == after[c + 1..][..|s| - c - 1];
    assert before[c + 1..|s|] == before[c + 1..][..|s| - c - 1];
    assert before[c + 1..|s|] == before[c..|s|][1..] && s[c + 1..] == s[c..][1..];
  }

  predicate DistinctPids(ps: seq<Process>) { forall i, j | 0 <= i < j < |ps| :: ps[i].pid != ps[j].pid }

  lemma EmptyStrict()
    ensures Strict([])
  {
  }

  lemma WrapAt(q: nat, r: nat)
    requires r < WRAP
    ensures (WRAP * q + r) % WRAP == r
  {
  }

  lemma FourDivides(a: nat, r: nat)
    ensures (4 * a + r) % 4 == r % 4
  {
  }

  /** A count of samples kept in 32 bits tells the fourth ones. */
  lemma SampleCount(n: nat)
    ensures (n % WRAP + 1) % WRAP == (n + 1) % WRAP
    ensures (n + 1) % WRAP % KTHREAD_EVERY == (n + 1) % KTHREAD_EVERY
  {
    var q, r := n / WRAP, n % WRAP;
    if r + 1 < WRAP {
      WrapAt(q, r + 1);
      FourDivides(WRAP / 4 * q, r + 1);
    } else {
      WrapAt(q + 1, 0);
      FourDivides(WRAP / 4 * (q + 1), 0);
    }
  }

  lemma VisitNext(known: seq<Row>, refresh: bool, ps: seq<Process>, at: nat, i: nat)
    requires i < |ps|
    ensures VisitAll(known, refresh, ps[..i + 1], at) == Visit(known, refresh, VisitAll(known, refresh, ps[..i], at), ps[i])
  {
    assert ps[..i + 1][..i] == ps[..i];
  }

  lemma {:induction false} VisitedPids(known: seq<Row>, refresh: bool, ps: seq<Process>, at: nat, pid: nat)
    requires forall i | 0 <= i < |ps| :: ps[i].pid != pid
    ensures forall i | 0 <= i < |VisitAll(known, refresh, ps, at).rows| :: VisitAll(known, refresh, ps, at).rows[i].pid != pid
  {
    hide Lookup;
    if ps != [] {
      VisitedPids(known, refresh, ps[..|ps| - 1], at, pid);
    }
  }

  lemma {:induction false} VisitedDistinct(known: seq<Row>, refresh: bool, ps: seq<Process>, at: nat)
    requires DistinctPids(ps)
    ensures Distinct(VisitAll(known, refresh, ps, at).rows)
  {
    hide Lookup;
    if ps != [] {
      VisitedDistinct(known, refresh, ps[..|ps| - 1], at);
      VisitedPids(known, refresh, ps[..|ps| - 1], at, ps[|ps| - 1].pid);
    }
  }

  // ------------------------------------------------------------ runs of samples

  /** The table after a run of samples, the first being number 1. */
  function TableAfter(run: seq<Option<Listing>>): seq<Row> {
    if run == [] then []
    else
      var known, listing := TableAfter(run[..|run| - 1]), run[|run| - 1];
      if listing.None? then known
      else InsertionSorted(VisitAll(known, |run| % KTHREAD_EVERY == 1, listing.value.ps, listing.value.at).rows)
  }

  lemma TableStep(run: seq<Option<Listing>>, listing: Option<Listing>)
    ensures TableAfter(run + [listing]) ==
      if listing.None? then TableAfter(run)
      else InsertionSorted(VisitAll(TableAfter(run), (|run| + 1) % KTHREAD_EVERY == 1, listing.value.ps, listing.value.at).rows)
  {
    hide VisitAll, InsertionSorted;
    var r := run + [listing];
    assert |r| - 1 == |run| && r[..|r| - 1] == run && r[|r| - 1] == listing;
  }

  lemma SortStep(s: seq<Row>, c: nat)
    requires c < |s|
    ensures Sorted(InsertionSorted(s[..c])) && InsertionSorted(s[..c + 1]) == Insert(InsertionSorted(s[..c]), s[c])
  {
    InsertionSortedIs(s[..c]);
    assert s[..c + 1][..c] == s[..c];
  }

  lemma OneSorted(s: seq<Row>)
    requires |s| == 1
    ensures InsertionSorted(s) == s
  {
    StrictStays(s);
  }

  // ------------------------------------------------------------ what the table and the list mean

  function Seen(ps: seq<Process>, pid: nat): (r: Option<Process>)
    ensures r.Some? ==> r.value in ps && r.value.pid == pid
    ensures r.None? ==> forall i | 0 <= i < |ps| :: ps[i].pid != pid
  {
    if ps == [] then None
    else if ps[|ps| - 1].pid == pid then Some(ps[|ps| - 1])
    else Seen(ps[..|ps| - 1], pid)
  }

  /** The stat of this process is opened at this sample. */
  predicate Opened(known: Option<nat>, refresh: bool) { refresh || known.None? }

  /** The ticks the new table holds for a process listed, given those it had. */
  function Held(known: Option<nat>, refresh: bool, p: Process): Option<nat> {
    if !Opened(known, refresh) then known
    else if p.stat.Some? && p.stat.value.kthread then Some(p.stat.value.ticks)
    else None
  }

  lemma {:induction false} RowsMean(known: seq<Row>, refresh: bool, ps: seq<Process>, at: nat, pid: nat)
    requires DistinctPids(ps) && |ps| <= KM_MAX
    ensures var rows := VisitAll(known, refresh, ps, at).rows;
      |rows| <= |ps| && Lookup(rows, pid) ==
        match Seen(ps, pid)
        case None => None
        case Some(p) => Held(Lookup(known, pid), refresh, p)
  {
    if ps != [] {
      var qs, p := ps[..|ps| - 1], ps[|ps| - 1];
      RowsMean(known, refresh, qs, at, pid);
      RowsStep(known, refresh, VisitAll(known, refresh, qs, at), p, pid);
      if p.pid == pid {
        VisitedPids(known, refresh, qs, at, pid);
        NotThere(VisitAll(known, refresh, qs, at).rows, pid);
      }
    }
  }

  /** The kernel threads of a listing with the ticks held for them, as many as there are. */
  function ThreadRows(known: seq<Row>, refresh: bool, ps: seq<Process>): seq<Row> {
    if ps == [] then []
    else
      var before, p := ThreadRows(known, refresh, ps[..|ps| - 1]), ps[|ps| - 1];
      match Held(Lookup(known, p.pid), refresh, p)
      case None => before
      case Some(ticks) => before + [Row(p.pid, ticks)]
  }

  /** The new table's rows are those, cut where the table is full. */
  lemma {:induction false} RowsAre(known: seq<Row>, refresh: bool, ps: seq<Process>, at: nat)
    ensures var all := ThreadRows(known, refresh, ps);
      VisitAll(known, refresh, ps, at).rows == if |all| <= KM_MAX then all else all[..KM_MAX]
  {
    hide Lookup, HasRoom;
    if ps != [] {
      RowsAre(known, refresh, ps[..|ps| - 1], at);
    }
  }

  lemma NotThere(rows: seq<Row>, pid: nat)
    requires forall i | 0 <= i < |rows| :: rows[i].pid != pid
    ensures Lookup(rows, pid) == None
  {
  }

  lemma RowsStep(known: seq<Row>, refresh: bool, t: Tally, p: Process, pid: nat)
    requires |t.rows| < KM_MAX
    ensures var rows := Visit(known, refresh, t, p).rows;
      |rows| <= |t.rows| + 1 && Lookup(rows, pid) ==
        if pid == p.pid && Held(Lookup(known, pid), refresh, p).Some? then Held(Lookup(known, pid), refresh, p)
        else Lookup(t.rows, pid)
  {
    var h := Held(Lookup(known, p.pid), refresh, p);
    if h.Some? {
      assert (t.rows + [Row(p.pid, h.value)])[..|t.rows|] == t.rows;
    }
  }

  lemma LookupSorted(rows: seq<Row>, pid: nat)
    requires Distinct(rows)
    ensures Lookup(InsertionSorted(rows), pid) == Lookup(rows, pid)
  {
    hide InsertionSorted;
    InsertionSortedIs(rows);
    DistinctByCount(rows);
    var s := InsertionSorted(rows);
    if Lookup(rows, pid).Some? {
      Moved(rows, s, pid);
    } else if Lookup(s, pid).Some? {
      Moved(s, rows, pid);
    }
  }

  lemma Moved(a: seq<Row>, b: seq<Row>, pid: nat)
    requires multiset(a) == multiset(b) && Distinct(b) && Lookup(a, pid).Some?
    ensures Lookup(b, pid) == Lookup(a, pid)
  {
    var i :| 0 <= i < |a| && a[i] == Row(pid, Lookup(a, pid).value);
    assert a[i] in multiset(b);
    var j :| 0 <= j < |b| && b[j] == a[i];
    LookupAt(b, j);
  }

  /** Every listing has distinct pids and fits the table. */
  predicate Fair(run: seq<Option<Listing>>) {
    forall k | 0 <= k < |run| :: run[k].Some? ==> DistinctPids(run[k].value.ps) && |run[k].value.ps| <= KM_MAX
  }

  /** A kernel thread's ticks as last read: kept while it stays listed, read again at a refresh, forgotten once it
      is gone. */
  function LastRead(run: seq<Option<Listing>>, pid: nat): Option<nat> {
    if run == [] then None
    else
      var before, listing := LastRead(run[..|run| - 1], pid), run[|run| - 1];
      if listing.None? then before
      else
        match Seen(listing.value.ps, pid)
        case None => None
        case Some(p) => Held(before, |run| % KTHREAD_EVERY == 1, p)
  }

  /** Over every run of samples the table holds each kernel thread's ticks as last read, and nothing else. */
  lemma {:induction false} TableIsLastRead(run: seq<Option<Listing>>, pid: nat)
    requires Fair(run)
    ensures Lookup(TableAfter(run), pid) == LastRead(run, pid)
  {
    hide InsertionSorted, VisitAll, Lookup, Held, Seen;
    if run == [] {
      NotThere([], pid);
    } else {
      var front := run[..|run| - 1];
      TableIsLastRead(front, pid);
      if run[|run| - 1].Some? {
        var Listing(ps, at) := run[|run| - 1].value;
        var refresh := |run| % KTHREAD_EVERY == 1;
        RowsMean(TableAfter(front), refresh, ps, at, pid);
        VisitedDistinct(TableAfter(front), refresh, ps, at);
        LookupSorted(VisitAll(TableAfter(front), refresh, ps, at).rows, pid);
      }
    }
  }

  /** Its stat is a kernel thread's, with these ticks. */
  predicate ReadAs(p: Process, ticks: nat) { p.stat.Some? && p.stat.value.kthread && p.stat.value.ticks == ticks }

  /** Ticks held were read at some sample, and no listed sample since was a refresh: sample numbers that are 1 mod
      4 re-read, the others do not. */
  lemma {:induction false} LastReadWhen(run: seq<Option<Listing>>, pid: nat) returns (r: nat)
    requires LastRead(run, pid).Some?
    ensures 1 <= r <= |run| && run[r - 1].Some?
    ensures exists p :: p in run[r - 1].value.ps && p.pid == pid && ReadAs(p, LastRead(run, pid).value)
    ensures forall j | r <= j < |run| :: run[j].Some? ==> (j + 1) % KTHREAD_EVERY != 1
  {
    var front, listing := run[..|run| - 1], run[|run| - 1];
    r := |run|;
    if listing.None? || !Opened(LastRead(front, pid), |run| % KTHREAD_EVERY == 1) {
      r := LastReadWhen(front, pid);
      assert forall j | 0 <= j < |front| :: front[j] == run[j];
    } else {
      var p := Seen(listing.value.ps, pid).value;
      assert p in listing.value.ps && ReadAs(p, LastRead(run, pid).value);
    }
  }

  // ------------------------------------------------------------ what a sample reports

  /** A process listed in /proc is counted when its stat was read, or did not have to be. */
  predicate IsCounted(known: Option<nat>, refresh: bool, p: Process) { !Opened(known, refresh) || p.stat.Some? }

  predicate IsThread(known: Option<nat>, refresh: bool, p: Process) {
    !Opened(known, refresh) || (p.stat.Some? && p.stat.value.kthread)
  }

  function Counted(known: seq<Row>, refresh: bool, ps: seq<Process>): nat {
    if ps == [] then 0
    else
      var p := ps[|ps| - 1];
      Counted(known, refresh, ps[..|ps| - 1]) + if IsCounted(Lookup(known, p.pid), refresh, p) then 1 else 0
  }

  function Threads(known: seq<Row>, refresh: bool, ps: seq<Process>): nat {
    if ps == [] then 0
    else
      var p := ps[|ps| - 1];
      Threads(known, refresh, ps[..|ps| - 1]) + if IsThread(Lookup(known, p.pid), refresh, p) then 1 else 0
  }

  /** The two counts sent: every process, and every kernel thread, opened at this sample or not. */
  lemma {:induction false} CountsMean(known: seq<Row>, refresh: bool, ps: seq<Process>, at: nat)
    ensures var t := VisitAll(known, refresh, ps, at);
      && t.nprocs == Counted(known, refresh, ps) && t.nkthreads == Threads(known, refresh, ps)
      && |t.rows| <= |ps| && (|ps| <= KM_MAX ==> t.nkthreads == |t.rows|)
  {
    hide Lookup, HasRoom;
    if ps != [] {
      CountsMean(known, refresh, ps[..|ps| - 1], at);
    }
  }

  /** A process read at this sample is listed unless it is a kernel thread whose ticks did not change. */
  predicate Wanted(known: Option<nat>, refresh: bool, p: Process) {
    Opened(known, refresh) && p.stat.Some? && (p.stat.value.kthread ==> known != Some(p.stat.value.ticks))
  }

  /** What a sample says of the listing `ps`: the two counts, and the processes listed with where the frame ends. */
  predicate Reported(known: seq<Row>, refresh: bool, ps: seq<Process>, at: nat,
                     listed: seq<Process>, nprocs: nat, nkthreads: nat, end: nat) {
    && nprocs == Counted(known, refresh, ps) && nkthreads == Threads(known, refresh, ps)
    && (at <= LIMIT ==> listed == Fitting(Wanteds(known, refresh, ps), at) && end == at + Records(listed))
  }

  lemma SampleReported(known: seq<Row>, refresh: bool, ps: seq<Process>, at: nat)
    ensures var t := VisitAll(known, refresh, ps, at);
      Reported(known, refresh, ps, at, t.listed, t.nprocs, t.nkthreads, t.at) &&
      (|ps| <= KM_MAX ==> t.nkthreads == |t.rows|)
  {
    hide VisitAll, Counted, Threads, Fitting, Wanteds, Records;
    CountsMean(known, refresh, ps, at);
    if at <= LIMIT {
      ListedIs(known, refresh, ps, at);
    }
  }

  /** The processes wanted, in the order of /proc. */
  function Wanteds(known: seq<Row>, refresh: bool, ps: seq<Process>): (ws: seq<Process>)
    ensures |ws| <= |ps| && forall i | 0 <= i < |ws| :: ws[i].stat.Some?
  {
    if ps == [] then []
    else
      var before, p := Wanteds(known, refresh, ps[..|ps| - 1]), ps[|ps| - 1];
      if Wanted(Lookup(known, p.pid), refresh, p) then before + [p] else before
  }

  /** The bytes of their records. */
  function Records(ps: seq<Process>): nat {
    if ps == [] then 0
    else Records(ps[..|ps| - 1]) + (if ps[|ps| - 1].stat.Some? then RECORD + ps[|ps| - 1].stat.value.name else 0)
  }

  /** Those of them that still fit the list and the frame when their turn comes. */
  function Fitting(ws: seq<Process>, at: nat): seq<Process> {
    if ws == [] then []
    else
      var f, w := Fitting(ws[..|ws| - 1], at), ws[|ws| - 1];
      if |f| < MAX_PROCS && at + Records(f + [w]) <= LIMIT then f + [w] else f
  }

  lemma RecordsSnoc(ps: seq<Process>, p: Process)
    ensures Records(ps + [p]) == Records(ps) + if p.stat.Some? then RECORD + p.stat.value.name else 0
  {
    assert (ps + [p])[..|ps|] == ps;
  }

  lemma FittingSnoc(ws: seq<Process>, w: Process, at: nat)
    ensures var f := Fitting(ws, at);
      Fitting(ws + [w], at) == if |f| < MAX_PROCS && at + Records(f + [w]) <= LIMIT then f + [w] else f
  {
    hide Records;
    assert (ws + [w])[..|ws|] == ws;
  }

  /** What is listed: the wanted processes in order, but for those the list or the frame has no room for; and the
      frame has grown by exactly their records. */
  lemma {:induction false} ListedIs(known: seq<Row>, refresh: bool, ps: seq<Process>, at: nat)
    requires at <= LIMIT
    ensures var t := VisitAll(known, refresh, ps, at);
      t.listed == Fitting(Wanteds(known, refresh, ps), at) && t.at == at + Records(t.listed) <= LIMIT
  {
    hide Lookup, HasRoom, Fitting, Records;
    if ps == [] {
      NothingFits(at);
    } else {
      var qs, p := ps[..|ps| - 1], ps[|ps| - 1];
      ListedIs(known, refresh, qs, at);
      var t := VisitAll(known, refresh, qs, at);
      if Wanted(Lookup(known, p.pid), refresh, p) {
        FittingSnoc(Wanteds(known, refresh, qs), p, at);
        RecordsSnoc(t.listed, p);
        HasRoomIff(t.at, RECORD + p.stat.value.name);
      }
    }
  }

  lemma NothingFits(at: nat)
    ensures Fitting([], at) == [] && Records([]) == 0
  {
  }

  /** With room for all of them, all are listed. */
  lemma {:induction false} AllFit(ws: seq<Process>, at: nat)
    requires |ws| <= MAX_PROCS && at + Records(ws) <= LIMIT
    ensures Fitting(ws, at) == ws
  {
    if ws != [] {
      var us, w := ws[..|ws| - 1], ws[|ws| - 1];
      AllFit(us, at);
      assert us + [w] == ws;
    }
  }

  lemma {:induction false} WantedRecords(known: seq<Row>, refresh: bool, ps: seq<Process>)
    ensures Records(Wanteds(known, refresh, ps)) <= Records(ps)
  {
    hide Lookup;
    if ps != [] {
      var qs, p := ps[..|ps| - 1], ps[|ps| - 1];
      WantedRecords(known, refresh, qs);
      RecordsSnoc(Wanteds(known, refresh, qs), p);
    }
  }

  lemma {:induction false} WantedIff(known: seq<Row>, refresh: bool, ps: seq<Process>, pid: nat)
    ensures (exists q :: q in Wanteds(known, refresh, ps) && q.pid == pid) <==>
            exists i | 0 <= i < |ps| :: ps[i].pid == pid && Wanted(Lookup(known, pid), refresh, ps[i])
  {
    hide Lookup, Wanted;
    if ps != [] {
      var qs, p := ps[..|ps| - 1], ps[|ps| - 1];
      WantedIff(known, refresh, qs, pid);
      assert forall i | 0 <= i < |qs| :: qs[i] == ps[i];
      var ws := Wanteds(known, refresh, qs);
      assert forall q :: q in ws + [p] <==> q in ws || q == p;
    }
  }

  /** With room, a process is listed exactly when it is wanted. */
  lemma ListedIff(known: seq<Row>, refresh: bool, ps: seq<Process>, at: nat, pid: nat)
    requires |ps| <= MAX_PROCS && at + Records(ps) <= LIMIT
    ensures VisitAll(known, refresh, ps, at).listed == Wanteds(known, refresh, ps)
    ensures (exists q :: q in VisitAll(known, refresh, ps, at).listed && q.pid == pid) <==>
            exists i | 0 <= i < |ps| :: ps[i].pid == pid && Wanted(Lookup(known, pid), refresh, ps[i])
  {
    hide Lookup, Wanted, Records, Fitting, VisitAll, Wanteds;
    ListedIs(known, refresh, ps, at);
    WantedRecords(known, refresh, ps);
    AllFit(Wanteds(known, refresh, ps), at);
    WantedIff(known, refresh, ps, pid);
  }
}
