/** The Mandelbrot kernels: a masked vector loop against the scalar escape loop, over any arithmetic. */
module Mandel {
  /** Floating point is not interpreted. */
  datatype Arith<!T> = Arith(
    mul: (T, T) -> T, add: (T, T) -> T, sub: (T, T) -> T, fma: (T, T, T) -> T, less: (T, T) -> bool,
    zero: T, one: T, two: T, four: T)

  /** The iteration count after `k` rounds, as the arithmetic has it. */
  function Count<T>(o: Arith<T>, k: nat): T { if k == 0 then o.zero else o.add(Count(o, k - 1), o.one) }

  /** All the AVX2 kernel's blending needs of it: zero squared is zero, and adding zero to an iteration count
      leaves it. */
  ghost predicate Sane<T>(o: Arith<T>) {
    o.mul(o.zero, o.zero) == o.zero && forall k: nat :: o.add(Count(o, k), o.zero) == Count(o, k)
  }

  // ------------------------------------------------------------ the scalar loop

  datatype Point<T> = Point(zr: T, zi: T, zr2: T, zi2: T, n: T)

  function Origin<T>(o: Arith<T>): Point<T> { Point(o.zero, o.zero, o.zero, o.zero, o.zero) }

  predicate Inside<T>(o: Arith<T>, p: Point<T>) { o.less(o.add(p.zr2, p.zi2), o.four) }

  /** z := z^2 + c, and one more iteration counted. */
  function Next<T>(o: Arith<T>, cr: T, ci: T, p: Point<T>): Point<T> {
    var zi := o.fma(o.mul(p.zr, o.two), p.zi, ci);
    var zr := o.add(o.sub(p.zr2, p.zi2), cr);
    Point(zr, zi, o.mul(zr, zr), o.mul(zi, zi), o.add(p.n, o.one))
  }

  /** Up to `k` iterations, stopping at the first point outside. */
  function Escape<T>(o: Arith<T>, cr: T, ci: T, p: Point<T>, k: nat): Point<T>
    decreases k
  {
    if k == 0 || !Inside(o, p) then p else Escape(o, cr, ci, Next(o, cr, ci, p), k - 1)
  }

  lemma {:induction false} EscapeSnoc<T>(o: Arith<T>, cr: T, ci: T, p: Point<T>, k: nat)
    ensures var q := Escape(o, cr, ci, p, k);
      Escape(o, cr, ci, p, k + 1) == if Inside(o, q) then Next(o, cr, ci, q) else q
    decreases k
  {
    hide Next;
    if k > 0 && Inside(o, p) {
      EscapeSnoc(o, cr, ci, Next(o, cr, ci, p), k - 1);
    }
  }

  lemma {:induction false} EscapeStops<T>(o: Arith<T>, cr: T, ci: T, p: Point<T>, k: nat, more: nat)
    requires !Inside(o, Escape(o, cr, ci, p, k))
    ensures Escape(o, cr, ci, p, k + more) == Escape(o, cr, ci, p, k)
    decreases k
  {
    hide Next;
    if k > 0 && Inside(o, p) {
      EscapeStops(o, cr, ci, Next(o, cr, ci, p), k - 1, more);
    }
  }

  /** The loop's count is one of the counts. */
  lemma {:induction false} EscapeCounts<T>(o: Arith<T>, cr: T, ci: T, p: Point<T>, k: nat, c: nat) returns (j: nat)
    requires p.n == Count(o, c)
    ensures Escape(o, cr, ci, p, k).n == Count(o, j)
    decreases k
  {
    hide Inside;
    j := c;
    if k > 0 && Inside(o, p) {
      j := EscapeCounts(o, cr, ci, Next(o, cr, ci, p), k - 1, c + 1);
    }
  }

  // ------------------------------------------------------------ one lane of the vector registers

  /** zmm0 to zmm6, zmm10 and zmm11 of one lane; zmm7 to zmm9 hold constants. */
  datatype Lane<T> = Lane(cr: T, ci: T, zr: T, zi: T, zr2: T, zi2: T, n: T, mag: T, t: T)

  function PointOf<T>(l: Lane<T>): Point<T> { Point(l.zr, l.zi, l.zr2, l.zi2, l.n) }

  function Loaded<T>(o: Arith<T>, cr: T, ci: T): Lane<T> {
    Lane(cr, ci, o.zero, o.zero, o.zero, o.zero, o.zero, o.zero, o.zero)
  }

  /** The seven masked instructions, on a lane whose mask bit is set; the first source of the fused
      multiply-add is its second operand. */
  function Masked<T>(o: Arith<T>, l: Lane<T>): Lane<T> {
    var l1 := l.(t := o.mul(l.zr, o.two));
    var l2 := l1.(zi := o.fma(l1.t, l1.zi, l1.ci));
    var l3 := l2.(zr := o.sub(l2.zr2, l2.zi2));
    var l4 := l3.(zr := o.add(l3.zr, l3.cr));
    var l5 := l4.(zr2 := o.mul(l4.zr, l4.zr));
    var l6 := l5.(zi2 := o.mul(l5.zi, l5.zi));
    l6.(n := o.add(l6.n, o.one))
  }

  function Measured<T>(o: Arith<T>, l: Lane<T>): Lane<T> { l.(mag := o.add(l.zr2, l.zi2)) }

  lemma MaskedIsNext<T>(o: Arith<T>, l: Lane<T>)
    ensures PointOf(Masked(o, l)) == Next(o, l.cr, l.ci, PointOf(l)) && Masked(o, l).cr == l.cr && Masked(o, l).ci == l.ci
  {
  }

  // ------------------------------------------------------------ the kernels

  /** Lane `i` after `k` rounds of the loop, its mask bit telling whether it still takes part. */
  ghost predicate Follows<T>(o: Arith<T>, cr: T, ci: T, l: Lane<T>, bit: bool, k: nat) {
    var p := Escape(o, cr, ci, Origin(o), k);
    l.cr == cr && l.ci == ci && PointOf(l) == p && (!bit ==> !Inside(o, p))
  }

  lemma FollowsRound<T>(o: Arith<T>, cr: T, ci: T, l: Lane<T>, bit: bool, k: nat)
    requires Follows(o, cr, ci, l, bit, k)
    ensures var m := Measured(o, l);
      var bit' := bit && o.less(m.mag, o.four);
      bit' == Inside(o, PointOf(l)) && Follows(o, cr, ci, if bit' then Masked(o, m) else m, bit', k + 1)
  {
    hide Next, Masked;
    EscapeSnoc(o, cr, ci, Origin(o), k);
    MaskedIsNext(o, Measured(o, l));
  }

  /** How often the vector loop's body may run: it tests its count after a round. */
  function Rounds(maxiter: int): nat { if maxiter <= 1 then 1 else maxiter }

  /** `mandel8_vpu`: masked rounds until no lane is left or the count is reached. Every lane ends where the
      scalar loop does. */
  method Mandel8Vpu<T>(o: Arith<T>, cr: seq<T>, ci: seq<T>, maxiter: int) returns (n: seq<T>, mag: seq<T>)
    requires |cr| == |ci| == 8
    ensures |n| == |mag| == 8
    ensures forall i | 0 <= i < 8 ::
      var p := Escape(o, cr[i], ci[i], Origin(o), Rounds(maxiter)); n[i] == p.n && mag[i] == o.add(p.zr2, p.zi2)
  {
    hide Follows, Masked, Escape;
    var lanes, mask := LoadLanes(o, cr, ci), seq(8, _ => true);
    var r8 := 0;
    var looping := true;
    while looping
      invariant |lanes| == |mask| == 8 && (looping ==> 0 <= r8 < Rounds(maxiter))
      invariant looping ==> forall i | 0 <= i < 8 :: Follows(o, cr[i], ci[i], lanes[i], mask[i], r8)
      invariant !looping ==> forall i | 0 <= i < 8 :: Ended(o, cr[i], ci[i], lanes[i], Rounds(maxiter))
      decreases looping, Rounds(maxiter) - r8
    {
      ghost var before, bits := lanes, mask;
      lanes := Measure(o, lanes);
      mask := Narrow(o, lanes, mask);
      if !(true in mask) {
        forall i | 0 <= i < 8
          ensures Ended(o, cr[i], ci[i], lanes[i], Rounds(maxiter))
        {
          assert !mask[i];
          AllOut(o, cr[i], ci[i], before[i], bits[i], r8, Rounds(maxiter));
        }
        looping := false;
      } else {
        lanes := MaskedRound(o, lanes, mask);
        forall i | 0 <= i < 8
          ensures Follows(o, cr[i], ci[i], lanes[i], mask[i], r8 + 1)
        {
          FollowsRound(o, cr[i], ci[i], before[i], bits[i], r8);
        }
        r8 := r8 + 1;
        if !(r8 < maxiter) {
          forall i | 0 <= i < 8
            ensures Ended(o, cr[i], ci[i], lanes[i], Rounds(maxiter))
          {
            CountReached(o, cr[i], ci[i], lanes[i], mask[i], r8);
          }
          looping := false;
        }
      }
    }
    lanes := Measure(o, lanes);
    n := seq(8, i requires 0 <= i < 8 => lanes[i].n);
    mag := seq(8, i requires 0 <= i < 8 => lanes[i].mag);
  }

  /** A lane holds the scalar loop's result. */
  ghost predicate Ended<T>(o: Arith<T>, cr: T, ci: T, l: Lane<T>, k: nat) {
    PointOf(l) == Escape(o, cr, ci, Origin(o), k)
  }

  function LoadLanes<T>(o: Arith<T>, cr: seq<T>, ci: seq<T>): (ls: seq<Lane<T>>)
    requires |cr| == |ci|
    ensures |ls| == |cr| && forall i | 0 <= i < |cr| :: ls[i] == Loaded(o, cr[i], ci[i])
    ensures forall i | 0 <= i < |cr| :: Follows(o, cr[i], ci[i], ls[i], true, 0)
  {
    seq(|cr|, i requires 0 <= i < |cr| => Loaded(o, cr[i], ci[i]))
  }

  function Measure<T>(o: Arith<T>, ls: seq<Lane<T>>): (r: seq<Lane<T>>)
    ensures |r| == |ls| && forall i | 0 <= i < |ls| :: r[i] == Measured(o, ls[i])
  {
    seq(|ls|, i requires 0 <= i < |ls| => Measured(o, ls[i]))
  }

  /** The compare writes k1 under itself. */
  function Narrow<T>(o: Arith<T>, ls: seq<Lane<T>>, mask: seq<bool>): (r: seq<bool>)
    requires |ls| == |mask|
    ensures |r| == |mask| && forall i | 0 <= i < |mask| :: r[i] == (mask[i] && o.less(ls[i].mag, o.four))
  {
    seq(|mask|, i requires 0 <= i < |mask| => mask[i] && o.less(ls[i].mag, o.four))
  }

  function MaskedRound<T>(o: Arith<T>, ls: seq<Lane<T>>, mask: seq<bool>): (r: seq<Lane<T>>)
    requires |ls| == |mask|
    ensures |r| == |ls| && forall i | 0 <= i < |ls| :: r[i] == if mask[i] then Masked(o, ls[i]) else ls[i]
  {
    seq(|ls|, i requires 0 <= i < |ls| => if mask[i] then Masked(o, ls[i]) else ls[i])
  }

  lemma AllOut<T>(o: Arith<T>, cr: T, ci: T, l: Lane<T>, bit: bool, k: nat, limit: nat)
    requires Follows(o, cr, ci, l, bit, k) && k <= limit && !(bit && o.less(Measured(o, l).mag, o.four))
    ensures Ended(o, cr, ci, Measured(o, l), limit)
  {
    hide Next, Escape;
    EscapeStops(o, cr, ci, Origin(o), k, limit - k);
  }

  lemma CountReached<T>(o: Arith<T>, cr: T, ci: T, l: Lane<T>, bit: bool, k: nat)
    requires Follows(o, cr, ci, l, bit, k)
    ensures Ended(o, cr, ci, l, k)
  {
  }

  // ------------------------------------------------------------ the AVX2 kernel

  /** One lane of its registers: no constants, and the magnitude is a temporary. */
  ghost predicate Square<T>(o: Arith<T>, p: Point<T>) { p.zr2 == o.mul(p.zr, p.zr) && p.zi2 == o.mul(p.zi, p.zi) }

  /** A round of `mandel4_avx2` on one lane: blends keep an inactive lane's point, whose squares are computed again
      and whose count has zero added. */
  function Blended<T>(o: Arith<T>, cr: T, ci: T, p: Point<T>, active: bool): Point<T> {
    var zin := o.fma(o.mul(p.zr, o.two), p.zi, ci);
    var zrn := o.add(o.sub(p.zr2, p.zi2), cr);
    var zi, zr := if active then zin else p.zi, if active then zrn else p.zr;
    Point(zr, zi, o.mul(zr, zr), o.mul(zi, zi), o.add(p.n, if active then o.one else o.zero))
  }

  ghost predicate FollowsAvx2<T>(o: Arith<T>, cr: T, ci: T, p: Point<T>, bit: bool, k: nat) {
    p == Escape(o, cr, ci, Origin(o), k) && Square(o, p) && (!bit ==> !Inside(o, p))
  }

  lemma BlendedRound<T>(o: Arith<T>, cr: T, ci: T, p: Point<T>, bit: bool, k: nat)
    requires Sane(o) && FollowsAvx2(o, cr, ci, p, bit, k)
    ensures var bit' := bit && Inside(o, p); FollowsAvx2(o, cr, ci, Blended(o, cr, ci, p, bit'), bit', k + 1)
  {
    hide Escape;
    EscapeSnoc(o, cr, ci, Origin(o), k);
    var c := EscapeCounts(o, cr, ci, Origin(o), k, 0);
  }

  lemma StopsAvx2<T>(o: Arith<T>, cr: T, ci: T, p: Point<T>, bit: bool, k: nat, limit: nat)
    requires FollowsAvx2(o, cr, ci, p, bit, k) && k <= limit && !(bit && Inside(o, p))
    ensures p == Escape(o, cr, ci, Origin(o), limit)
  {
    EscapeStops(o, cr, ci, Origin(o), k, limit - k);
  }

  /** `mandel4_avx2`: a counted loop, which runs no round at all for a count of zero or less. */
  method Mandel4Avx2<T>(o: Arith<T>, cr: seq<T>, ci: seq<T>, maxiter: int) returns (n: seq<T>, mag: seq<T>)
    requires |cr| == |ci| == 4 && Sane(o)
    ensures |n| == |mag| == 4
    ensures forall i | 0 <= i < 4 ::
      var p := Escape(o, cr[i], ci[i], Origin(o), if maxiter < 0 then 0 else maxiter);
      n[i] == p.n && mag[i] == o.add(p.zr2, p.zi2)
  {
    hide Escape, FollowsAvx2, Sane, Blended;
    var limit := if maxiter < 0 then 0 else maxiter;
    var points, active := Origins(o, cr, ci), seq(4, _ => true);
    var it, looping := 0, true;
    while looping
      invariant |points| == |active| == 4 && 0 <= it <= limit
      invariant looping ==> forall i | 0 <= i < 4 :: FollowsAvx2(o, cr[i], ci[i], points[i], active[i], it)
      invariant !looping ==> forall i | 0 <= i < 4 :: points[i] == Escape(o, cr[i], ci[i], Origin(o), limit)
      decreases looping, limit - it
    {
      if !(it < maxiter) {
        forall i | 0 <= i < 4
          ensures points[i] == Escape(o, cr[i], ci[i], Origin(o), limit)
        {
          FollowsEscape(o, cr[i], ci[i], points[i], active[i], it);
        }
        looping := false;
        continue;
      }
      ghost var bits := active;
      active := StillInside(o, points, active);
      if !(true in active) {
        forall i | 0 <= i < 4
          ensures points[i] == Escape(o, cr[i], ci[i], Origin(o), limit)
        {
          assert !active[i];
          StopsAvx2(o, cr[i], ci[i], points[i], bits[i], it, limit);
        }
        looping := false;
      } else {
        forall i | 0 <= i < 4
          ensures FollowsAvx2(o, cr[i], ci[i], Blended(o, cr[i], ci[i], points[i], active[i]), active[i], it + 1)
        {
          BlendedRound(o, cr[i], ci[i], points[i], bits[i], it);
        }
        points := BlendAll(o, cr, ci, points, active);
        it := it + 1;
      }
    }
    n := seq(4, i requires 0 <= i < 4 => points[i].n);
    mag := seq(4, i requires 0 <= i < 4 => o.add(points[i].zr2, points[i].zi2));
  }

  lemma FollowsEscape<T>(o: Arith<T>, cr: T, ci: T, p: Point<T>, bit: bool, k: nat)
    requires FollowsAvx2(o, cr, ci, p, bit, k)
    ensures p == Escape(o, cr, ci, Origin(o), k)
  {
  }

  function Origins<T>(o: Arith<T>, cr: seq<T>, ci: seq<T>): (ps: seq<Point<T>>)
    requires |cr| == |ci| && Sane(o)
    ensures |ps| == |cr| && forall i | 0 <= i < |cr| :: FollowsAvx2(o, cr[i], ci[i], ps[i], true, 0)
  {
    seq(|cr|, _ => Origin(o))
  }

  function StillInside<T>(o: Arith<T>, ps: seq<Point<T>>, active: seq<bool>): (r: seq<bool>)
    requires |ps| == |active|
    ensures |r| == |active| && forall i | 0 <= i < |active| :: r[i] == (active[i] && Inside(o, ps[i]))
  {
    seq(|active|, i requires 0 <= i < |active| => active[i] && Inside(o, ps[i]))
  }

  function BlendAll<T>(o: Arith<T>, cr: seq<T>, ci: seq<T>, ps: seq<Point<T>>, active: seq<bool>): (r: seq<Point<T>>)
    requires |cr| == |ci| == |ps| == |active|
    ensures |r| == |ps| && forall i | 0 <= i < |ps| :: r[i] == Blended(o, cr[i], ci[i], ps[i], active[i])
  {
    seq(|ps|, i requires 0 <= i < |ps| => Blended(o, cr[i], ci[i], ps[i], active[i]))
  }

  /** The two loops agree lane by lane from one iteration up; below that the masked loop still runs its first
      round, so they agree exactly where the origin is already outside or a round changes nothing. */
  lemma KernelsAgreeIff<T>(o: Arith<T>, cr: T, ci: T, maxiter: int)
    ensures Escape(o, cr, ci, Origin(o), Rounds(maxiter)) == Escape(o, cr, ci, Origin(o), if maxiter < 0 then 0 else maxiter)
      <==> (maxiter >= 1 || !Inside(o, Origin(o)) || Next(o, cr, ci, Origin(o)) == Origin(o))
  {
    if maxiter < 1 && Inside(o, Origin(o)) {
      var p := Next(o, cr, ci, Origin(o));
      assert Escape(o, cr, ci, p, 0) == p;
    }
  }
}
