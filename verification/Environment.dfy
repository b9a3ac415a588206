/** The child's environment: records sorted by a stable bottom-up merge sort of indices, the last value given
    for a key kept, one entry a key. */
module Environment {
  import opened Arithmetic
  import opened Options
  import opened Utf8

  datatype Entry = Entry(key: seq<byte>, value: seq<byte>)

  // ------------------------------------------------------------ the order

  /** Bytewise, then shorter first. */
  predicate KeyLess(a: seq<byte>, b: seq<byte>) {
    b != [] && (a == [] || a[0] < b[0] || (a[0] == b[0] && KeyLess(a[1..], b[1..])))
  }

  lemma {:induction false} KeyLessIrreflexive(a: seq<byte>)
    ensures !KeyLess(a, a)
  {
    if a != [] {
      KeyLessIrreflexive(a[1..]);
    }
  }

  lemma {:induction false} KeyLessTransitive(a: seq<byte>, b: seq<byte>, c: seq<byte>)
    requires KeyLess(a, b) && KeyLess(b, c)
    ensures KeyLess(a, c)
  {
    if a != [] && a[0] == b[0] == c[0] {
      KeyLessTransitive(a[1..], b[1..], c[1..]);
    }
  }

  lemma {:induction false} KeyLessTotal(a: seq<byte>, b: seq<byte>)
    ensures a == b || KeyLess(a, b) || KeyLess(b, a)
  {
    if a != [] && b != [] && a[0] == b[0] {
      KeyLessTotal(a[1..], b[1..]);
      if a[1..] == b[1..] {
        assert a == [a[0]] + a[1..] && b == [b[0]] + b[1..];
      }
    }
  }

  /** The order of two keys is that of what follows a common prefix. */
  lemma {:induction false} KeyLessAfterPrefix(a: seq<byte>, b: seq<byte>, n: nat)
    requires n <= |a| && n <= |b| && a[..n] == b[..n]
    ensures KeyLess(a, b) == KeyLess(a[n..], b[n..])
  {
    if n > 0 {
      assert a[0] == a[..n][0] == b[..n][0] == b[0];
      assert a[1..][..n - 1] == a[..n][1..] == b[..n][1..] == b[1..][..n - 1];
      KeyLessAfterPrefix(a[1..], b[1..], n - 1);
      assert a[1..][n - 1..] == a[n..] && b[1..][n - 1..] == b[n..];
    }
  }

  /** `kcmp`: the sign says how the keys compare. */
  method KeyCompare(a: seq<byte>, b: seq<byte>) returns (r: int)
    ensures r < 0 <==> KeyLess(a, b)
    ensures r == 0 <==> a == b
    ensures r > 0 <==> KeyLess(b, a)
  {
    var n := if |a| <= |b| then |a| else |b|;
    var i := 0;
    KeyLessTotal(a, b);
    KeyLessIrreflexive(a);
    if KeyLess(a, b) && KeyLess(b, a) {
      KeyLessTransitive(a, b, a);
    }
    while i < n
      invariant i <= n && a[..i] == b[..i]
    {
      var x: int, y: int := a[i], b[i];
      if x != y {
        KeyLessAfterPrefix(a, b, i);
        KeyLessAfterPrefix(b, a, i);
        return x - y;
      }
      i := i + 1;
    }
    KeyLessAfterPrefix(a, b, n);
    KeyLessAfterPrefix(b, a, n);
    assert a[..n] == b[..n];
    r := |a| - |b|;
    if r == 0 {
      assert a == a[..n] && b == b[..n];
    }
  }

  // ------------------------------------------------------------ stable order of records

  /** Key order, and arrival order among equal keys. */
  predicate Before(recs: seq<Entry>, i: nat, j: nat)
    requires i < |recs| && j < |recs|
  {
    KeyLess(recs[i].key, recs[j].key) || (recs[i].key == recs[j].key && i < j)
  }

  lemma BeforeTransitive(recs: seq<Entry>, i: nat, j: nat, k: nat)
    requires i < |recs| && j < |recs| && k < |recs| && Before(recs, i, j) && Before(recs, j, k)
    ensures Before(recs, i, k)
  {
    var a, b, c := recs[i].key, recs[j].key, recs[k].key;
    if KeyLess(a, b) && KeyLess(b, c) {
      KeyLessTransitive(a, b, c);
    }
  }

  predicate Indices(recs: seq<Entry>, s: seq<nat>) { forall x | 0 <= x < |s| :: s[x] < |recs| }

  predicate Ordered(recs: seq<Entry>, s: seq<nat>)
    requires Indices(recs, s)
  {
    forall x, y | 0 <= x < y < |s| :: Before(recs, s[x], s[y])
  }

  function Range(lo: nat, hi: nat): (r: seq<nat>)
    requires lo <= hi
    ensures |r| == hi - lo && forall x | 0 <= x < hi - lo :: r[x] == lo + x
  {
    seq(hi - lo, x requires 0 <= x < hi - lo => lo + x)
  }

  /** The same indices as `Range(lo, hi)`, in stable order. */
  ghost predicate Run(recs: seq<Entry>, s: seq<nat>, lo: nat, hi: nat)
    requires lo <= hi <= |recs|
  {
    multiset(s) == multiset(Range(lo, hi)) && Indices(recs, s) && Ordered(recs, s)
  }

  lemma RunElement(recs: seq<Entry>, s: seq<nat>, lo: nat, hi: nat, x: nat)
    requires lo <= hi <= |recs| && Run(recs, s, lo, hi) && x < |s|
    ensures lo <= s[x] < hi
  {
    assert s[x] in multiset(s);
    assert s[x] in Range(lo, hi);
  }

  lemma RunLength(recs: seq<Entry>, s: seq<nat>, lo: nat, hi: nat)
    requires lo <= hi <= |recs| && Run(recs, s, lo, hi)
    ensures |s| == hi - lo
  {
    assert |multiset(s)| == |s| && |multiset(Range(lo, hi))| == hi - lo;
  }

  // ------------------------------------------------------------ merging

  /** Two runs merged: the second's head is taken only when its key is strictly less. */
  function Merged(recs: seq<Entry>, p: seq<nat>, q: seq<nat>): (r: seq<nat>)
    requires Indices(recs, p) && Indices(recs, q)
    ensures |r| == |p| + |q|
    decreases |p| + |q|
  {
    if p == [] then q
    else if q == [] then p
    else if KeyLess(recs[q[0]].key, recs[p[0]].key) then [q[0]] + Merged(recs, p, q[1..])
    else [p[0]] + Merged(recs, p[1..], q)
  }

  lemma TakenRight(p: seq<nat>, q: seq<nat>, m: seq<nat>)
    requires q != [] && multiset(m) == multiset(p) + multiset(q[1..])
    ensures multiset([q[0]] + m) == multiset(p) + multiset(q)
  {
    assert q == [q[0]] + q[1..];
  }

  lemma TakenLeft(p: seq<nat>, q: seq<nat>, m: seq<nat>)
    requires p != [] && multiset(m) == multiset(p[1..]) + multiset(q)
    ensures multiset([p[0]] + m) == multiset(p) + multiset(q)
  {
    assert p == [p[0]] + p[1..];
  }

  lemma {:induction false} MergedContents(recs: seq<Entry>, p: seq<nat>, q: seq<nat>)
    requires Indices(recs, p) && Indices(recs, q)
    ensures multiset(Merged(recs, p, q)) == multiset(p) + multiset(q) && Indices(recs, Merged(recs, p, q))
    decreases |p| + |q|
  {
    MergedIndices(recs, p, q);
    hide KeyLess, Indices;
    if p != [] && q != [] {
      if KeyLess(recs[q[0]].key, recs[p[0]].key) {
        MergedContents(recs, p, q[1..]);
        TakenRight(p, q, Merged(recs, p, q[1..]));
      } else {
        MergedContents(recs, p[1..], q);
        TakenLeft(p, q, Merged(recs, p[1..], q));
      }
    }
  }

  lemma {:induction false} MergedIndices(recs: seq<Entry>, p: seq<nat>, q: seq<nat>)
    requires Indices(recs, p) && Indices(recs, q)
    ensures Indices(recs, Merged(recs, p, q))
    ensures p != [] ==> p[0] < |recs| && Indices(recs, p[1..])
    ensures q != [] ==> q[0] < |recs| && Indices(recs, q[1..])
    decreases |p| + |q|
  {
    hide KeyLess;
    if p != [] && q != [] {
      if KeyLess(recs[q[0]].key, recs[p[0]].key) {
        MergedIndices(recs, p, q[1..]);
      } else {
        MergedIndices(recs, p[1..], q);
      }
    }
  }

  lemma MergedElement(recs: seq<Entry>, p: seq<nat>, q: seq<nat>, y: nat)
    requires Indices(recs, p) && Indices(recs, q) && y < |p| + |q|
    ensures Merged(recs, p, q)[y] in p || Merged(recs, p, q)[y] in q
  {
    MergedContents(recs, p, q);
    assert Merged(recs, p, q)[y] in multiset(Merged(recs, p, q));
  }

  predicate HeadBefore(recs: seq<Entry>, x: nat, s: seq<nat>)
    requires x < |recs| && Indices(recs, s)
  {
    forall y | 0 <= y < |s| :: Before(recs, x, s[y])
  }

  lemma HeadBeforeAll(recs: seq<Entry>, x: nat, s: seq<nat>)
    requires x < |recs| && Indices(recs, s) && Ordered(recs, s) && (s != [] ==> Before(recs, x, s[0]))
    ensures HeadBefore(recs, x, s)
  {
    forall y | 0 <= y < |s|
      ensures Before(recs, x, s[y])
    {
      if y > 0 {
        BeforeTransitive(recs, x, s[0], s[y]);
      }
    }
  }

  lemma OrderedCons(recs: seq<Entry>, x: nat, p: seq<nat>, q: seq<nat>)
    requires x < |recs| && Indices(recs, p) && Indices(recs, q) && HeadBefore(recs, x, p) && HeadBefore(recs, x, q)
    requires Indices(recs, Merged(recs, p, q)) && Ordered(recs, Merged(recs, p, q))
    ensures Ordered(recs, [x] + Merged(recs, p, q))
  {
    var m := Merged(recs, p, q);
    forall y | 0 <= y < |m|
      ensures Before(recs, x, m[y])
    {
      MergedElement(recs, p, q, y);
    }
  }

  lemma HeadOrder(recs: seq<Entry>, x: nat, y: nat)
    requires x < y < |recs|
    ensures if KeyLess(recs[y].key, recs[x].key) then Before(recs, y, x) else Before(recs, x, y)
  {
    KeyLessTotal(recs[x].key, recs[y].key);
  }

  lemma OrderedTail(recs: seq<Entry>, s: seq<nat>)
    requires Indices(recs, s) && Ordered(recs, s) && s != []
    ensures Indices(recs, s[1..]) && Ordered(recs, s[1..]) && HeadBefore(recs, s[0], s[1..])
  {
  }

  lemma {:induction false} MergedOrdered(recs: seq<Entry>, p: seq<nat>, q: seq<nat>)
    requires Indices(recs, p) && Indices(recs, q) && Ordered(recs, p) && Ordered(recs, q)
    requires forall x, y | 0 <= x < |p| && 0 <= y < |q| :: p[x] < q[y]
    ensures Indices(recs, Merged(recs, p, q)) && Ordered(recs, Merged(recs, p, q))
    decreases |p| + |q|
  {
    hide KeyLess, Before, HeadBefore, Ordered;
    MergedContents(recs, p, q);
    if p != [] && q != [] {
      MergedIndices(recs, p, q);
      HeadOrder(recs, p[0], q[0]);
      OrderedTail(recs, p);
      OrderedTail(recs, q);
      if KeyLess(recs[q[0]].key, recs[p[0]].key) {
        MergedOrdered(recs, p, q[1..]);
        HeadBeforeAll(recs, q[0], p);
        OrderedCons(recs, q[0], p, q[1..]);
      } else {
        MergedOrdered(recs, p[1..], q);
        HeadBeforeAll(recs, p[0], q);
        OrderedCons(recs, p[0], p[1..], q);
      }
    }
  }

  lemma MergedRun(recs: seq<Entry>, p: seq<nat>, q: seq<nat>, lo: nat, mid: nat, hi: nat)
    requires lo <= mid <= hi <= |recs| && Run(recs, p, lo, mid) && Run(recs, q, mid, hi)
    ensures Run(recs, Merged(recs, p, q), lo, hi)
  {
    hide Merged, Before;
    forall x, y | 0 <= x < |p| && 0 <= y < |q|
      ensures p[x] < q[y]
    {
      RunElement(recs, p, lo, mid, x);
      RunElement(recs, q, mid, hi, y);
    }
    MergedOrdered(recs, p, q);
    MergedContents(recs, p, q);
    assert Range(lo, hi) == Range(lo, mid) + Range(mid, hi);
  }

  /** What is left to merge, `i` and `j` being the cursors into the two runs. */
  function Remaining(recs: seq<Entry>, s: seq<nat>, i: nat, mid: nat, j: nat, hi: nat): seq<nat>
    requires i <= mid <= j <= hi <= |s| && Indices(recs, s)
  {
    Merged(recs, s[i..mid], s[j..hi])
  }

  lemma RemainingSteps(recs: seq<Entry>, s: seq<nat>, i: nat, mid: nat, j: nat, hi: nat)
    requires i <= mid <= j <= hi <= |s| && Indices(recs, s)
    ensures i == mid && j == hi ==> Remaining(recs, s, i, mid, j, hi) == []
    ensures i < mid && (j == hi || !KeyLess(recs[s[j]].key, recs[s[i]].key)) ==>
      Remaining(recs, s, i, mid, j, hi) == [s[i]] + Remaining(recs, s, i + 1, mid, j, hi)
    ensures j < hi && (i == mid || KeyLess(recs[s[j]].key, recs[s[i]].key)) ==>
      Remaining(recs, s, i, mid, j, hi) == [s[j]] + Remaining(recs, s, i, mid, j + 1, hi)
  {
    hide KeyLess;
    var p, q := s[i..mid], s[j..hi];
    if i < mid {
      assert p[1..] == s[i + 1..mid] && p == [s[i]] + p[1..];
    }
    if j < hi {
      assert q[1..] == s[j + 1..hi] && q == [s[j]] + q[1..];
    }
  }

  /** The rest of one run, as it stands, after what was written from `lo` on. */
  method TakeRest(src: array<nat>, i: nat, end: nat, dst: array<nat>, ghost lo: nat, k: nat)
    requires src != dst && i <= end <= src.Length && lo <= k && k + (end - i) <= dst.Length
    modifies dst
    ensures dst[..lo] == old(dst[..lo]) && dst[lo..k + (end - i)] == old(dst[lo..k]) + src[i..end]
  {
    ghost var before := dst[..];
    var x := 0;
    while i + x < end
      invariant i + x <= end && dst[..k] == old(dst[..k])
      invariant dst[k..k + x] == src[i..i + x]
    {
      dst[k + x] := src[i + x];
      x := x + 1;
    }
    Appended(before, dst[..], lo, k, src[i..end]);
  }

  /** One index more, after what was written from `lo` on. */
  method PutHead(x: nat, dst: array<nat>, ghost lo: nat, k: nat)
    requires lo <= k < dst.Length
    modifies dst
    ensures dst[..lo] == old(dst[..lo]) && dst[lo..k + 1] == old(dst[lo..k]) + [x]
  {
    ghost var before := dst[..];
    dst[k] := x;
    Appended(before, dst[..], lo, k, [x]);
  }

  /** The part of a merge where both runs still have a head. */
  method MergeHeads(recs: seq<Entry>, src: array<nat>, dst: array<nat>, lo: nat, mid: nat, hi: nat)
    returns (i: nat, j: nat, k: nat)
    requires src != dst && lo <= mid <= hi <= src.Length == dst.Length && Indices(recs, src[..])
    modifies dst
    ensures lo <= i <= mid <= j <= hi && k == i + j - mid && (i == mid || j == hi) && dst[..lo] == old(dst[..lo])
    ensures dst[lo..k] + Remaining(recs, src[..], i, mid, j, hi) == Remaining(recs, src[..], lo, mid, mid, hi)
  {
    hide KeyLess, Remaining;
    ghost var s := src[..];
    assert forall x | 0 <= x < src.Length :: src[x] == s[x];
    i, j, k := lo, mid, lo;
    while i < mid && j < hi
      invariant lo <= i <= mid <= j <= hi && k == i + j - mid
      invariant dst[lo..k] + Remaining(recs, s, i, mid, j, hi) == Remaining(recs, s, lo, mid, mid, hi)
      invariant dst[..lo] == old(dst[..lo])
    {
      RemainingSteps(recs, s, i, mid, j, hi);
      ghost var done := dst[lo..k];
      var c := KeyCompare(recs[src[j]].key, recs[src[i]].key);
      if c < 0 {
        JoinThrice(done, [s[j]], Remaining(recs, s, i, mid, j + 1, hi));
        PutHead(src[j], dst, lo, k);
        j := j + 1;
      } else {
        JoinThrice(done, [s[i]], Remaining(recs, s, i + 1, mid, j, hi));
        PutHead(src[i], dst, lo, k);
        i := i + 1;
      }
      k := k + 1;
    }
  }

  method Merge(recs: seq<Entry>, src: array<nat>, dst: array<nat>, lo: nat, mid: nat, hi: nat)
    requires src != dst && lo <= mid <= hi <= src.Length == dst.Length && Indices(recs, src[..])
    modifies dst
    ensures dst[lo..hi] == Remaining(recs, src[..], lo, mid, mid, hi)
    ensures dst[..lo] == old(dst[..lo])
  {
    hide Remaining, Indices;
    ghost var s := src[..];
    var i, j, k := MergeHeads(recs, src, dst, lo, mid, hi);
    RestOfRuns(recs, s, i, mid, j, hi);
    ghost var heads := dst[lo..k];
    TakeRest(src, i, mid, dst, lo, k);
    k := k + (mid - i);
    TakeRest(src, j, hi, dst, lo, k);
    JoinThrice(heads, s[i..mid], s[j..hi]);
  }

  lemma JoinThrice<T>(x: seq<T>, y: seq<T>, z: seq<T>)
    ensures x + y + z == x + (y + z)
  {
  }

  lemma Appended(before: seq<nat>, after: seq<nat>, lo: nat, k: nat, block: seq<nat>)
    requires lo <= k && k + |block| <= |before| == |after|
    requires after[..k] == before[..k] && after[k..k + |block|] == block
    ensures after[lo..k + |block|] == before[lo..k] + block && after[..lo] == before[..lo]
  {
    assert after[lo..k] == after[..k][lo..] && before[lo..k] == before[..k][lo..];
    assert after[..lo] == after[..k][..lo] && before[..lo] == before[..k][..lo];
    assert after[lo..k + |block|] == after[lo..k] + after[k..k + |block|];
  }

  lemma RestOfRuns(recs: seq<Entry>, s: seq<nat>, i: nat, mid: nat, j: nat, hi: nat)
    requires i <= mid <= j <= hi <= |s| && Indices(recs, s) && (i == mid || j == hi)
    ensures Remaining(recs, s, i, mid, j, hi) == s[i..mid] + s[j..hi]
  {
    hide KeyLess;
  }

  // ------------------------------------------------------------ passes

  /** Runs of `w`, the last perhaps shorter; `s` holds the indices from `at` on. */
  ghost predicate Blocks(recs: seq<Entry>, s: seq<nat>, at: nat, w: nat)
    requires w > 0 && at + |s| <= |recs|
    decreases |s|
  {
    s != [] ==>
      var m := Least(w, |s|);
      Run(recs, s[..m], at, at + m) && Blocks(recs, s[m..], at + m, w)
  }

  /** One pass: neighbouring runs of `w` merged. */
  function Passed(recs: seq<Entry>, s: seq<nat>, w: nat): (r: seq<nat>)
    requires w > 0 && Indices(recs, s)
    ensures |r| == |s|
    decreases |s|
  {
    if s == [] then []
    else
      var m, h := Least(w, |s|), Least(2 * w, |s|);
      Merged(recs, s[..m], s[m..h]) + Passed(recs, s[h..], w)
  }

  lemma FirstTwoRuns(recs: seq<Entry>, s: seq<nat>, at: nat, w: nat)
    requires w > 0 && at + |s| <= |recs| && s != [] && Blocks(recs, s, at, w)
    ensures var m, h := Least(w, |s|), Least(2 * w, |s|);
      Run(recs, s[..m], at, at + m) && Run(recs, s[m..h], at + m, at + h) && Blocks(recs, s[h..], at + h, w)
  {
    hide Run;
    var m, h := Least(w, |s|), Least(2 * w, |s|);
    if m < |s| {
      assert s[m..][..h - m] == s[m..h] && s[m..][h - m..] == s[h..];
    } else {
      EmptyRun(recs, at + m);
      assert s[m..h] == [] && s[h..] == [];
    }
  }

  lemma RunThenBlocks(recs: seq<Entry>, first: seq<nat>, rest: seq<nat>, at: nat, w: nat)
    requires w > 0 && at + |first| + |rest| <= |recs| && |first| == Least(w, |first| + |rest|)
    requires Run(recs, first, at, at + |first|) && Blocks(recs, rest, at + |first|, w)
    ensures Blocks(recs, first + rest, at, w)
  {
    hide Run;
    assert (first + rest)[..|first|] == first && (first + rest)[|first|..] == rest;
  }

  lemma IndicesJoin(recs: seq<Entry>, a: seq<nat>, b: seq<nat>)
    requires Indices(recs, a) && Indices(recs, b)
    ensures Indices(recs, a + b)
  {
  }

  lemma {:induction false} PassDoubles(recs: seq<Entry>, s: seq<nat>, at: nat, w: nat)
    requires w > 0 && at + |s| <= |recs| && Indices(recs, s) && Blocks(recs, s, at, w)
    ensures Indices(recs, Passed(recs, s, w)) && Blocks(recs, Passed(recs, s, w), at, 2 * w)
    decreases |s|
  {
    hide Run, Merged, Before, Blocks;
    if s == [] {
      NoBlocks(recs, at, 2 * w);
    } else {
      var m, h := Least(w, |s|), Least(2 * w, |s|);
      FirstTwoRuns(recs, s, at, w);
      var merged, rest := Merged(recs, s[..m], s[m..h]), Passed(recs, s[h..], w);
      MergedRun(recs, s[..m], s[m..h], at, at + m, at + h);
      MergedContents(recs, s[..m], s[m..h]);
      PassDoubles(recs, s[h..], at + h, w);
      RunThenBlocks(recs, merged, rest, at, 2 * w);
      IndicesJoin(recs, merged, rest);
    }
  }

  lemma NoBlocks(recs: seq<Entry>, at: nat, w: nat)
    requires w > 0 && at <= |recs|
    ensures Blocks(recs, [], at, w)
  {
  }

  lemma EmptyRun(recs: seq<Entry>, at: nat)
    requires at <= |recs|
    ensures Run(recs, [], at, at)
  {
    assert Range(at, at) == [];
  }

  lemma RangeSplit(at: nat, n: nat)
    requires at < n
    ensures Range(at, n)[..1] == Range(at, at + 1) && Range(at, n)[1..] == Range(at + 1, n)
  {
  }

  lemma OneRun(recs: seq<Entry>, at: nat)
    requires at < |recs|
    ensures Run(recs, Range(at, at + 1), at, at + 1)
  {
  }

  lemma {:induction false} StartBlocks(recs: seq<Entry>, at: nat)
    requires at <= |recs|
    ensures Blocks(recs, Range(at, |recs|), at, 1)
    decreases |recs| - at
  {
    hide Run;
    if at < |recs| {
      RangeSplit(at, |recs|);
      OneRun(recs, at);
      StartBlocks(recs, at + 1);
    }
  }

  /** The bottom-up merge sort of `ex_env`: doubling passes between two index arrays. */
  method SortIndices(recs: seq<Entry>) returns (idx: array<nat>)
    ensures fresh(idx) && Run(recs, idx[..], 0, |recs|)
  {
    hide Run, Passed;
    var n := |recs|;
    var src, dst := new nat[n], new nat[n];
    var c := 0;
    while c < n
      invariant c <= n && forall x | 0 <= x < c :: src[x] == x
    {
      src[c] := c;
      c := c + 1;
    }
    assert src[..] == Range(0, n);
    StartBlocks(recs, 0);
    var w := 1;
    while w < n
      invariant w > 0 && src != dst && fresh(src) && fresh(dst) && src.Length == dst.Length == n
      invariant Indices(recs, src[..]) && Blocks(recs, src[..], 0, w)
      decreases n - w
    {
      PassDoubles(recs, src[..], 0, w);
      Pass(recs, src, dst, w);
      src, dst := dst, src;
      w := w + w;
    }
    WholeRun(recs, src[..], w);
    idx := src;
  }

  lemma WholeRun(recs: seq<Entry>, s: seq<nat>, w: nat)
    requires w > 0 && |s| == |recs| <= w && Blocks(recs, s, 0, w)
    ensures Run(recs, s, 0, |recs|)
  {
    if s == [] {
      EmptyRun(recs, 0);
    } else {
      assert s[..|s|] == s;
    }
  }

  lemma PassedStep(recs: seq<Entry>, s: seq<nat>, lo: nat, w: nat)
    requires w > 0 && lo < |s| && Indices(recs, s)
    ensures var mid, hi := Least(lo + w, |s|), Least(lo + 2 * w, |s|);
      Passed(recs, s[lo..], w) == Remaining(recs, s, lo, mid, mid, hi) + Passed(recs, s[hi..], w)
  {
    hide Merged;
    var mid, hi, rest := Least(lo + w, |s|), Least(lo + 2 * w, |s|), s[lo..];
    assert rest[..mid - lo] == s[lo..mid] && rest[mid - lo..hi - lo] == s[mid..hi] && rest[hi - lo..] == s[hi..];
  }

  method Pass(recs: seq<Entry>, src: array<nat>, dst: array<nat>, w: nat)
    requires w > 0 && src != dst && src.Length == dst.Length && Indices(recs, src[..])
    modifies dst
    ensures dst[..] == Passed(recs, src[..], w)
  {
    hide Passed, Remaining;
    var n, lo := src.Length, 0;
    ghost var s := src[..];
    assert s[0..] == s;
    while lo < n
      invariant lo <= n && dst[..lo] + Passed(recs, s[lo..], w) == Passed(recs, s, w)
    {
      var mid, hi := Least(lo + w, n), Least(lo + 2 * w, n);
      ghost var done := dst[..lo];
      PassedStep(recs, s, lo, w);
      Merge(recs, src, dst, lo, mid, hi);
      assert dst[..hi] == done + dst[lo..hi];
      lo := hi;
    }
    assert dst[..n] == dst[..];
  }

  // ------------------------------------------------------------ the last value wins

  /** The environment the records ask for. */
  function LastWins(recs: seq<Entry>): map<seq<byte>, seq<byte>> {
    if recs == [] then map[]
    else
      var e := recs[|recs| - 1];
      LastWins(recs[..|recs| - 1])[e.key := e.value]
  }

  /** No later record has the key of record `i`. */
  predicate IsLast(recs: seq<Entry>, i: nat)
    requires i < |recs|
  {
    forall j | i < j < |recs| :: recs[j].key != recs[i].key
  }

  lemma {:induction false} LastValue(recs: seq<Entry>, i: nat)
    requires i < |recs| && IsLast(recs, i)
    ensures recs[i].key in LastWins(recs) && LastWins(recs)[recs[i].key] == recs[i].value
  {
    if i < |recs| - 1 {
      LastValue(recs[..|recs| - 1], i);
    }
  }

  lemma {:induction false} KeyHasLast(recs: seq<Entry>, k: seq<byte>) returns (i: nat)
    requires k in LastWins(recs)
    ensures i < |recs| && recs[i].key == k && IsLast(recs, i)
  {
    if recs[|recs| - 1].key == k {
      i := |recs| - 1;
    } else {
      i := KeyHasLast(recs[..|recs| - 1], k);
    }
  }

  /** Position `x` of the sorted indices is the last of its run of equal keys. */
  predicate EndsRun(recs: seq<Entry>, s: seq<nat>, x: nat)
    requires Indices(recs, s) && x < |s|
  {
    x + 1 == |s| || recs[s[x + 1]].key != recs[s[x]].key
  }

  lemma NextRun(recs: seq<Entry>, s: seq<nat>, x: nat, y: nat)
    requires Indices(recs, s) && Ordered(recs, s) && x < y < |s| && EndsRun(recs, s, x)
    ensures KeyLess(recs[s[x]].key, recs[s[y]].key)
  {
    assert Before(recs, s[x], s[x + 1]);
    if x + 1 < y {
      assert Before(recs, s[x + 1], s[y]);
      if KeyLess(recs[s[x + 1]].key, recs[s[y]].key) {
        KeyLessTransitive(recs[s[x]].key, recs[s[x + 1]].key, recs[s[y]].key);
      }
    }
  }

  lemma Position(recs: seq<Entry>, s: seq<nat>, i: nat) returns (x: nat)
    requires Run(recs, s, 0, |recs|) && i < |recs|
    ensures x < |s| && s[x] == i
  {
    assert Range(0, |recs|)[i] == i;
    assert i in multiset(Range(0, |recs|));
    assert i in multiset(s);
    x :| x < |s| && s[x] == i;
  }

  lemma SameKeyOrder(recs: seq<Entry>, s: seq<nat>, x: nat, y: nat)
    requires Indices(recs, s) && Ordered(recs, s) && x < |s| && y < |s| && s[x] < s[y]
    requires recs[s[x]].key == recs[s[y]].key
    ensures x < y
  {
    KeyLessIrreflexive(recs[s[x]].key);
  }

  lemma EndOfRunIsLast(recs: seq<Entry>, s: seq<nat>, x: nat)
    requires Run(recs, s, 0, |recs|) && x < |s|
    ensures EndsRun(recs, s, x) <==> IsLast(recs, s[x])
  {
    hide Run, KeyLess;
    RunParts(recs, s);
    var k := recs[s[x]].key;
    if EndsRun(recs, s, x) {
      forall j | s[x] < j < |recs|
        ensures recs[j].key != k
      {
        var y := Position(recs, s, j);
        if recs[j].key == k {
          SameKeyOrder(recs, s, x, y);
          NextRun(recs, s, x, y);
          KeyLessIrreflexive(k);
        }
      }
    } else {
      KeyLessIrreflexive(k);
      assert Before(recs, s[x], s[x + 1]);
    }
  }

  ghost predicate Increasing(out: seq<Entry>) {
    forall x, y | 0 <= x < y < |out| :: KeyLess(out[x].key, out[y].key)
  }

  /** The entries are exactly those of `m`. */
  ghost predicate Lists(out: seq<Entry>, m: map<seq<byte>, seq<byte>>) {
    && (forall x | 0 <= x < |out| :: out[x].key in m && m[out[x].key] == out[x].value)
    && (forall k | k in m :: exists x | 0 <= x < |out| :: out[x].key == k)
  }

  /** Which positions are kept, in order. */
  function Kept(recs: seq<Entry>, s: seq<nat>, t: nat): (r: seq<nat>)
    requires Indices(recs, s) && t <= |s|
    ensures forall x | 0 <= x < |r| :: r[x] < t && EndsRun(recs, s, r[x])
    ensures forall x, y | 0 <= x < y < |r| :: r[x] < r[y]
    ensures forall p | 0 <= p < t && EndsRun(recs, s, p) :: p in r
  {
    if t == 0 then []
    else if EndsRun(recs, s, t - 1) then Kept(recs, s, t - 1) + [t - 1]
    else Kept(recs, s, t - 1)
  }

  function Chosen(recs: seq<Entry>, s: seq<nat>, ps: seq<nat>): (r: seq<Entry>)
    requires Indices(recs, s) && forall x | 0 <= x < |ps| :: ps[x] < |s|
    ensures |r| == |ps| && forall x | 0 <= x < |ps| :: r[x] == recs[s[ps[x]]]
  {
    seq(|ps|, x requires 0 <= x < |ps| => recs[s[ps[x]]])
  }

  lemma ChosenIncrease(recs: seq<Entry>, s: seq<nat>)
    requires Run(recs, s, 0, |recs|)
    ensures Increasing(Chosen(recs, s, Kept(recs, s, |s|)))
  {
    hide Kept, Run, KeyLess, EndsRun;
    assert Indices(recs, s) && Ordered(recs, s) by { RunParts(recs, s); }
    var ps := Kept(recs, s, |s|);
    forall x, y | 0 <= x < y < |ps|
      ensures KeyLess(recs[s[ps[x]]].key, recs[s[ps[y]]].key)
    {
      NextRun(recs, s, ps[x], ps[y]);
    }
  }

  lemma RunParts(recs: seq<Entry>, s: seq<nat>)
    requires Run(recs, s, 0, |recs|)
    ensures Indices(recs, s) && Ordered(recs, s) && |s| == |recs|
  {
    RunLength(recs, s, 0, |recs|);
  }

  lemma KeptIsLast(recs: seq<Entry>, s: seq<nat>, p: nat)
    requires Run(recs, s, 0, |recs|) && p < |s| && EndsRun(recs, s, p)
    ensures var e := recs[s[p]];
      e.key in LastWins(recs) && LastWins(recs)[e.key] == e.value
  {
    hide Run, KeyLess, EndsRun, IsLast, LastWins;
    RunParts(recs, s);
    EndOfRunIsLast(recs, s, p);
    LastValue(recs, s[p]);
  }

  lemma LastIsKept(recs: seq<Entry>, s: seq<nat>, k: seq<byte>) returns (p: nat)
    requires Run(recs, s, 0, |recs|) && k in LastWins(recs)
    ensures p < |s| && EndsRun(recs, s, p) && s[p] < |recs| && recs[s[p]].key == k
  {
    hide Run, KeyLess, EndsRun, IsLast, LastWins;
    var i := KeyHasLast(recs, k);
    p := Position(recs, s, i);
    EndOfRunIsLast(recs, s, p);
  }

  lemma ChosenAt(recs: seq<Entry>, s: seq<nat>, x: nat)
    requires Run(recs, s, 0, |recs|) && x < |Kept(recs, s, |s|)|
    ensures var out := Chosen(recs, s, Kept(recs, s, |s|));
      out[x].key in LastWins(recs) && LastWins(recs)[out[x].key] == out[x].value
  {
    hide Run, KeyLess, EndsRun, LastWins;
    RunParts(recs, s);
    KeptIsLast(recs, s, Kept(recs, s, |s|)[x]);
  }

  lemma ChosenFor(recs: seq<Entry>, s: seq<nat>, k: seq<byte>) returns (x: nat)
    requires Run(recs, s, 0, |recs|) && k in LastWins(recs)
    ensures var out := Chosen(recs, s, Kept(recs, s, |s|));
      x < |out| && out[x].key == k
  {
    hide Run, KeyLess, EndsRun, LastWins;
    RunParts(recs, s);
    var p := LastIsKept(recs, s, k);
    x :| x < |Kept(recs, s, |s|)| && Kept(recs, s, |s|)[x] == p;
  }

  lemma ChosenAreLast(recs: seq<Entry>, s: seq<nat>)
    requires Run(recs, s, 0, |recs|)
    ensures Lists(Chosen(recs, s, Kept(recs, s, |s|)), LastWins(recs))
  {
    hide Kept, Run, KeyLess, EndsRun, LastWins, Chosen;
    RunParts(recs, s);
    var out, m := Chosen(recs, s, Kept(recs, s, |s|)), LastWins(recs);
    forall x | 0 <= x < |out|
      ensures out[x].key in m && m[out[x].key] == out[x].value
    {
      ChosenAt(recs, s, x);
    }
    forall k | k in m
      ensures exists x | 0 <= x < |out| :: out[x].key == k
    {
      var x := ChosenFor(recs, s, k);
    }
  }

  predicate HasNul(e: Entry) { 0 in e.key || 0 in e.value }

  const PATH: seq<byte> := [80, 65, 84, 72]

  /** What `nul` and `path` say of the entries so far. */
  ghost predicate Flags(out: seq<Entry>, nul: bool, path: Option<seq<byte>>) {
    && (nul <==> exists x | 0 <= x < |out| :: HasNul(out[x]))
    && (path.None? ==> forall x | 0 <= x < |out| :: out[x].key != PATH)
    && (path.Some? ==> exists x | 0 <= x < |out| :: out[x] == Entry(PATH, path.value))
  }

  lemma FlagsSnoc(out: seq<Entry>, nul: bool, path: Option<seq<byte>>, e: Entry)
    requires Flags(out, nul, path)
    ensures Flags(out + [e], nul || HasNul(e), if e.key == PATH then Some(e.value) else path)
  {
    hide HasNul;
    var r := out + [e];
    assert r[|out|] == e && forall x | 0 <= x < |out| :: r[x] == out[x];
  }

  lemma FlagsPath(out: seq<Entry>, nul: bool, path: Option<seq<byte>>, m: map<seq<byte>, seq<byte>>)
    requires Flags(out, nul, path) && Lists(out, m)
    ensures path == if PATH in m then Some(m[PATH]) else None
  {
  }

  /** `ex_env`: one entry a key in strictly increasing order, with the last value given; the NUL flag and the
      PATH looked up are those of the entries kept. */
  method BuildEnvironment(recs: seq<Entry>)
    returns (out: seq<Entry>, nul: bool, path: Option<seq<byte>>, ghost s: seq<nat>)
    ensures Run(recs, s, 0, |recs|) && out == Chosen(recs, s, Kept(recs, s, |s|))
    ensures Increasing(out) && Lists(out, LastWins(recs))
    ensures nul <==> exists x | 0 <= x < |out| :: HasNul(out[x])
    ensures path == if PATH in LastWins(recs) then Some(LastWins(recs)[PATH]) else None
  {
    hide Run, Kept, EndsRun, LastWins, HasNul, KeyLess, Lists, Increasing, Chosen;
    var idx := SortIndices(recs);
    s := idx[..];
    RunParts(recs, s);
    var n, t := |recs|, 0;
    out, nul, path := [], false, None;
    KeptStart(recs, s);
    while t < n
      invariant t <= n && idx[..] == s && out == Chosen(recs, s, Kept(recs, s, t)) && Flags(out, nul, path)
    {
      hide Flags;
      KeptStep(recs, s, t);
      var i := idx[t];
      assert i == s[t];
      var last := true;
      if t + 1 < n {
        var next := idx[t + 1];
        assert next == s[t + 1];
        var c := KeyCompare(recs[i].key, recs[next].key);
        last := c != 0;
      }
      if last {
        FlagsSnoc(out, nul, path, recs[i]);
        out := out + [recs[i]];
        nul := nul || HasNul(recs[i]);
        if recs[i].key == PATH {
          path := Some(recs[i].value);
        }
      }
      t := t + 1;
    }
    ChosenIncrease(recs, s);
    ChosenAreLast(recs, s);
    FlagsPath(out, nul, path, LastWins(recs));
  }

  lemma KeptStart(recs: seq<Entry>, s: seq<nat>)
    requires Indices(recs, s)
    ensures Kept(recs, s, 0) == [] && Chosen(recs, s, []) == []
  {
  }

  lemma KeptStep(recs: seq<Entry>, s: seq<nat>, t: nat)
    requires Indices(recs, s) && t < |s|
    ensures EndsRun(recs, s, t) <==> (t + 1 == |s| || recs[s[t + 1]].key != recs[s[t]].key)
    ensures Chosen(recs, s, Kept(recs, s, t + 1)) ==
            Chosen(recs, s, Kept(recs, s, t)) + if EndsRun(recs, s, t) then [recs[s[t]]] else []
  {
    var a, b := Kept(recs, s, t), Kept(recs, s, t + 1);
    assert b == a + if EndsRun(recs, s, t) then [t] else [];
  }
}
