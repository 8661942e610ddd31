/** Pass 4 and pass 5 of the phase-lock loop (NTP/NTP.c).

  Seen as points (slope, offset), the lines consistent with the data form a convex polygon.
  Pass 4 visits the corners of that polygon and keeps, for each side, the least frequency shift
  any corner needs.  PolygonIsExact says that this is the least shift over ALL consistent lines.
 */
module Polygon {
  import opened Envelope
  import opened Wrappers

  const MIN_INIT: real := 20.0

  datatype Shifts = Shifts(left: real, right: real)

  function FindShift(slope: real, offset: real): real {
    var shift := slope - offset / 600.0;
    var shift2 := slope + 0.3 - offset / 6000.0;
    var least := if shift2 < shift then shift2 else shift;
    if least < 0.0 then 0.0 else least
  }

  function Left(l: Line): real {
    FindShift(-l.slope, l.offset)
  }

  function Right(l: Line): real {
    FindShift(l.slope, -l.offset)
  }

  function PolygonPoint(d: Shifts, s: Line): Shifts {
    Shifts(if Left(s) < d.left then Left(s) else d.left, if Right(s) < d.right then Right(s) else d.right)
  }

  function PolygonPoints(d: Shifts, corners: seq<Line>): Shifts
    decreases corners
  {
    if corners == [] then d else PolygonPoints(PolygonPoint(d, corners[0]), corners[1..])
  }

  /** The segments of the upper march that pass 4 visits: all from the first one steeper than
      `floor`, until one is steeper than `ceiling`. */
  function UpperCorners(segs: seq<Line>, floor: real, ceiling: real, started: bool): seq<Line> {
    if segs == [] || ceiling < segs[0].slope then []
    else
      var on := started || floor < segs[0].slope;
      (if on then [segs[0]] else []) + UpperCorners(segs[1..], floor, ceiling, on)
  }

  /** The same for the lower march, whose slopes fall. */
  function LowerCorners(segs: seq<Line>, ceiling: real, floor: real, started: bool): seq<Line> {
    if segs == [] || segs[0].slope < floor then []
    else
      var on := started || segs[0].slope < ceiling;
      (if on then [segs[0]] else []) + LowerCorners(segs[1..], ceiling, floor, on)
  }

  function Corners(maxseg: seq<Line>, minseg: seq<Line>, saveMin: Line, saveMax: Line): seq<Line> {
    [saveMin] + UpperCorners(maxseg, saveMin.slope, saveMax.slope, false)
    + [saveMax] + LowerCorners(minseg, saveMax.slope, saveMin.slope, false)
  }

  // ---------- what the folds compute ----------

  lemma {:induction false} PointsAppend(d: Shifts, a: seq<Line>, b: seq<Line>)
    ensures PolygonPoints(d, a + b) == PolygonPoints(PolygonPoints(d, a), b)
    decreases a
  {
    if a == [] {
      assert a + b == b;
    } else {
      assert (a + b)[1..] == a[1..] + b;
      PointsAppend(PolygonPoint(d, a[0]), a[1..], b);
    }
  }

  ghost predicate Bounded(l: Line, left: real, right: real) {
    left <= Left(l) && right <= Right(l)
  }

  /** The fold keeps the least left shift and the least right shift. */
  lemma {:induction false} PointsAreLeast(d: Shifts, corners: seq<Line>)
    ensures var r := PolygonPoints(d, corners);
            && r.left <= d.left && r.right <= d.right
            && (forall s :: s in corners ==> Bounded(s, r.left, r.right))
            && (r.left == d.left || exists s :: s in corners && Left(s) == r.left)
            && (r.right == d.right || exists s :: s in corners && Right(s) == r.right)
    decreases corners
  {
    if corners != [] {
      var first := PolygonPoint(d, corners[0]);
      PointsAreLeast(first, corners[1..]);
      var r := PolygonPoints(d, corners);
      forall s | s in corners ensures Bounded(s, r.left, r.right) {
        assert s == corners[0] || s in corners[1..];
      }
      assert r.left == first.left || exists s :: s in corners[1..] && Left(s) == r.left;
      assert corners[0] in corners;
      assert forall s :: s in corners[1..] ==> s in corners;
    }
  }

  lemma {:induction false} UpperCornersAre(segs: seq<Line>, floor: real, ceiling: real, started: bool)
    requires forall i, k :: 0 <= i <= k < |segs| ==> segs[i].slope <= segs[k].slope
    requires started ==> forall i :: 0 <= i < |segs| ==> floor < segs[i].slope
    ensures var r := UpperCorners(segs, floor, ceiling, started);
            && (forall i :: 0 <= i < |segs| && floor < segs[i].slope <= ceiling ==> segs[i] in r)
            && (forall s :: s in r ==> s in segs && floor < s.slope <= ceiling)
  {
    if segs != [] && segs[0].slope <= ceiling {
      UpperCornersAre(segs[1..], floor, ceiling, started || floor < segs[0].slope);
      forall i | 0 <= i < |segs| && floor < segs[i].slope <= ceiling
        ensures segs[i] in UpperCorners(segs, floor, ceiling, started)
      {
        if i > 0 {
          assert segs[1..][i - 1] == segs[i];
        }
      }
    }
  }

  lemma {:induction false} LowerCornersAre(segs: seq<Line>, ceiling: real, floor: real, started: bool)
    requires forall i, k :: 0 <= i <= k < |segs| ==> segs[k].slope <= segs[i].slope
    requires started ==> forall i :: 0 <= i < |segs| ==> segs[i].slope < ceiling
    ensures var r := LowerCorners(segs, ceiling, floor, started);
            && (forall i :: 0 <= i < |segs| && floor <= segs[i].slope < ceiling ==> segs[i] in r)
            && (forall s :: s in r ==> s in segs && floor <= s.slope < ceiling)
  {
    if segs != [] && floor <= segs[0].slope {
      LowerCornersAre(segs[1..], ceiling, floor, started || segs[0].slope < ceiling);
      forall i | 0 <= i < |segs| && floor <= segs[i].slope < ceiling
        ensures segs[i] in LowerCorners(segs, ceiling, floor, started)
      {
        if i > 0 {
          assert segs[1..][i - 1] == segs[i];
        }
      }
    }
  }

  // ---------- the shift of a line between two others ----------

  /** The form both shifts are made of: Left uses -Mix, Right uses Mix. */
  function Mix(l: Line, q: real): real
    requires q > 0.0
  {
    l.slope + l.offset / q
  }

  lemma MixOnPencil(l: Line, d: real, y: real, q: real)
    requires q > 0.0 && l.offset == y + l.slope * d
    ensures Mix(l, q) == y / q + l.slope * (1.0 + d / q)
  {
    assert l.offset / q == y / q + l.slope * d / q;
    assert l.slope * d / q == l.slope * (d / q);
  }

  /** Along lines through one point, Mix is monotone in the slope, one way or the other. */
  lemma MixBetween(a: Line, p: Line, b: Line, d: real, y: real, q: real)
    requires q > 0.0 && a.slope <= p.slope <= b.slope
    requires a.offset == y + a.slope * d && p.offset == y + p.slope * d && b.offset == y + b.slope * d
    ensures Mix(a, q) <= Mix(p, q) <= Mix(b, q) || Mix(b, q) <= Mix(p, q) <= Mix(a, q)
  {
    MixOnPencil(a, d, y, q);
    MixOnPencil(p, d, y, q);
    MixOnPencil(b, d, y, q);
    var k := 1.0 + d / q;
    if k >= 0.0 {
      MulLe(a.slope, p.slope, k);
      MulLe(p.slope, b.slope, k);
    } else {
      MulLe(a.slope, p.slope, -k);
      MulLe(p.slope, b.slope, -k);
      assert a.slope * -k == -(a.slope * k) && p.slope * -k == -(p.slope * k) && b.slope * -k == -(b.slope * k);
    }
  }

  /** The shifts in terms of Mix. */
  lemma ShiftsByMix(l: Line, left: real, right: real)
    ensures left <= Left(l) <==>
            left <= 0.0 || (left <= -Mix(l, 600.0) && left <= 0.3 - Mix(l, 6000.0))
    ensures right <= Right(l) <==>
            right <= 0.0 || (right <= Mix(l, 600.0) && right <= 0.3 + Mix(l, 6000.0))
  {
    assert (-l.offset) / 600.0 == -(l.offset / 600.0);
    assert (-l.offset) / 6000.0 == -(l.offset / 6000.0);
  }

  /** Lines through one point, p between a and b in slope: p's shifts are not below both of theirs. */
  lemma ShiftInPencil(a: Line, p: Line, b: Line, end: real, x: real, left: real, right: real)
    requires At(a, end, x) == At(p, end, x) == At(b, end, x)
    requires a.slope <= p.slope <= b.slope
    requires Bounded(a, left, right) && Bounded(b, left, right)
    ensures Bounded(p, left, right)
  {
    MixBetween(a, p, b, end - x, At(p, end, x), 600.0);
    MixBetween(a, p, b, end - x, At(p, end, x), 6000.0);
    ShiftsByMix(a, left, right);
    ShiftsByMix(p, left, right);
    ShiftsByMix(b, left, right);
  }

  /** Parallel lines, p between a and b. */
  lemma ShiftInColumn(a: Line, p: Line, b: Line, left: real, right: real)
    requires a.slope == p.slope == b.slope && a.offset <= p.offset <= b.offset
    requires Bounded(a, left, right) && Bounded(b, left, right)
    ensures Bounded(p, left, right)
  {
  }

  // ---------- every consistent line lies between corners ----------

  /** `l` lies under the upper ends and touches one. */
  ghost predicate Rests(b: Bars, l: Line)
    requires b.Valid()
  {
    b.Under(l) && exists j :: 0 <= j < |b.t| && b.Value(l, j) == b.hi[j]
  }

  lemma StopForSlope(b: Bars, vs: seq<int>, segs: seq<Line>, slope: real) returns (i: int)
    requires b.Valid() && March(b, vs, segs)
    ensures 0 <= i <= |segs| && Between(segs, i, slope)
  {
    i := 0;
    while i < |segs| && segs[i].slope < slope
      invariant 0 <= i <= |segs|
      invariant i > 0 ==> segs[i - 1].slope < slope
    {
      i := i + 1;
    }
  }

  /** The line that passes through the upper end at `stop` with a given slope. */
  function Pivot(b: Bars, stop: int, slope: real): (l: Line)
    requires b.Valid() && 0 <= stop < |b.t|
    ensures b.Value(l, stop) == b.hi[stop] && l.slope == slope
  {
    Line(slope, b.hi[stop] + slope * (b.End() - b.t[stop]))
  }

  /** A resting line passes through the stop that supports its slope. */
  lemma RestingPassesStop(b: Bars, vs: seq<int>, segs: seq<Line>, i: int, l: Line)
    requires b.Valid() && March(b, vs, segs) && 0 <= i <= |segs|
    requires Between(segs, i, l.slope) && Rests(b, l)
    ensures b.Value(l, vs[i]) == b.hi[vs[i]]
  {
    var p := Pivot(b, vs[i], l.slope);
    StopSupports(b, vs, segs, i, p);
    var j :| 0 <= j < |b.t| && b.Value(l, j) == b.hi[j];
    assert b.Value(p, j) <= b.hi[j] && b.Value(l, vs[i]) <= b.hi[vs[i]];
    Parallel(p, l, b.End(), b.t[j]);
    Parallel(p, l, b.End(), b.t[vs[i]]);
  }

  /** What is known of the corners of the upper march. */
  ghost predicate UpperBounded(segs: seq<Line>, c: Line, d: Line, left: real, right: real) {
    && Bounded(c, left, right) && Bounded(d, left, right)
    && forall i :: 0 <= i < |segs| && c.slope < segs[i].slope <= d.slope ==> Bounded(segs[i], left, right)
  }

  /** The corner next below a slope, through the stop that supports the slope. */
  lemma CornerBelow(b: Bars, vs: seq<int>, segs: seq<Line>, i: int, c: Line, d: Line,
        slope: real, left: real, right: real)
      returns (l: Line)
    requires b.Valid() && March(b, vs, segs) && 0 <= i <= |segs| && Between(segs, i, slope)
    requires Rests(b, c) && c.slope <= slope <= d.slope && UpperBounded(segs, c, d, left, right)
    ensures l.slope <= slope && b.Value(l, vs[i]) == b.hi[vs[i]] && Bounded(l, left, right)
  {
    if i > 0 && c.slope < segs[i - 1].slope {
      assert Stride(b, vs[i - 1], vs[i], segs[i - 1]);
      l := segs[i - 1];
    } else {
      RestingPassesStop(b, vs, segs, i, c);
      l := c;
    }
  }

  /** The corner next above a slope. */
  lemma CornerAbove(b: Bars, vs: seq<int>, segs: seq<Line>, i: int, c: Line, d: Line,
        slope: real, left: real, right: real)
      returns (l: Line)
    requires b.Valid() && March(b, vs, segs) && 0 <= i <= |segs| && Between(segs, i, slope)
    requires Rests(b, c) && Rests(b, d) && c.slope <= slope <= d.slope && UpperBounded(segs, c, d, left, right)
    ensures slope <= l.slope && b.Value(l, vs[i]) == b.hi[vs[i]] && Bounded(l, left, right)
  {
    if i < |segs| && segs[i].slope <= d.slope {
      assert Stride(b, vs[i], vs[i + 1], segs[i]);
      l := segs[i];
      if segs[i].slope <= c.slope {
        RestingPassesStop(b, vs, segs, i, c);
        l := c;
      }
    } else {
      RestingPassesStop(b, vs, segs, i, d);
      l := d;
    }
  }

  lemma PivotIsBounded(b: Bars, vs: seq<int>, segs: seq<Line>, i: int, c: Line, d: Line,
        slope: real, left: real, right: real)
    requires b.Valid() && March(b, vs, segs) && 0 <= i <= |segs| && Between(segs, i, slope)
    requires Rests(b, c) && Rests(b, d) && c.slope <= slope <= d.slope && UpperBounded(segs, c, d, left, right)
    ensures Bounded(Pivot(b, vs[i], slope), left, right)
  {
    var lower := CornerBelow(b, vs, segs, i, c, d, slope, left, right);
    var upper := CornerAbove(b, vs, segs, i, c, d, slope, left, right);
    ShiftInPencil(lower, Pivot(b, vs[i], slope), upper, b.End(), b.t[vs[i]], left, right);
  }

  lemma ParallelOrder(l: Line, m: Line, end: real, x: real)
    requires l.slope == m.slope && At(l, end, x) <= At(m, end, x)
    ensures l.offset <= m.offset
  {
    var rise := l.slope * (end - x);
    assert At(l, end, x) == l.offset - rise;
    assert At(m, end, x) == m.offset - rise;
  }

  /** Directly above any line under the upper ends, with a slope between those of the kept lines,
      lies a line whose shifts are bounded by those of the corners. */
  lemma TopIsBounded(b: Bars, vs: seq<int>, segs: seq<Line>, c: Line, d: Line, f: Line, left: real, right: real)
      returns (top: Line)
    requires b.Valid() && March(b, vs, segs)
    requires Rests(b, c) && Rests(b, d) && b.Under(f) && c.slope <= f.slope <= d.slope
    requires UpperBounded(segs, c, d, left, right)
    ensures top.slope == f.slope && f.offset <= top.offset && Bounded(top, left, right)
  {
    var i := StopForSlope(b, vs, segs, f.slope);
    top := Pivot(b, vs[i], f.slope);
    ParallelOrder(f, top, b.End(), b.t[vs[i]]) by {
      assert b.Value(f, vs[i]) <= b.hi[vs[i]];
    }
    PivotIsBounded(b, vs, segs, i, c, d, f.slope, left, right);
  }

  function NegateAll(ls: seq<Line>): (r: seq<Line>)
    ensures |r| == |ls| && forall i :: 0 <= i < |ls| ==> r[i] == Negate(ls[i])
  {
    seq(|ls|, i requires 0 <= i < |ls| => Negate(ls[i]))
  }

  /** The lower march, as a march over the mirrored bars. */
  ghost predicate LowerMarch(b: Bars, vs: seq<int>, segs: seq<Line>)
    requires b.Valid()
  {
    b.Mirror().Valid() && March(b.Mirror(), vs, NegateAll(segs))
  }

  lemma MirrorBounded(l: Line, left: real, right: real)
    ensures Bounded(Negate(l), right, left) <==> Bounded(l, left, right)
  {
  }

  /** A segment of the upper march with a slope between those of two consistent lines is consistent. */
  lemma CornerFits(b: Bars, s: Line, v: int, c: Line, d: Line)
    requires b.Valid() && b.Fits(c) && b.Fits(d) && c.slope <= s.slope <= d.slope
    requires b.Under(s) && 0 <= v < |b.t| && b.Value(s, v) == b.hi[v]
    ensures b.Fits(s)
  {
    assert b.lo[v] <= b.Value(c, v) <= b.hi[v] && b.Value(d, v) <= b.hi[v];
    forall k | 0 <= k < |b.t| ensures b.lo[k] <= b.Value(s, k) {
      assert b.lo[k] <= b.Value(c, k) && b.lo[k] <= b.Value(d, k);
      if k < v {
        WasBelow(d, s, b.End(), b.t[k], b.t[v]);
      } else {
        StaysBelow(c, s, b.End(), b.t[v], b.t[k]);
      }
    }
  }

  // ---------- the main result ----------

  /** The two marches and the two kept lines that passes 2 and 3 hand to pass 4. */
  datatype Found = Found(vs: seq<int>, maxseg: seq<Line>, us: seq<int>, minseg: seq<Line>, saveMin: Line, saveMax: Line)

  ghost predicate Consistent(b: Bars, w: Found)
    requires b.Valid()
  {
    && March(b, w.vs, w.maxseg)
    && LowerMarch(b, w.us, w.minseg)
    && (exists j, m :: MinCross(b, j, m, w.saveMin))
    && (exists j, m :: MaxCross(b, j, m, w.saveMax))
    && b.Upright()
  }

  lemma KeptLinesFit(b: Bars, w: Found)
    requires b.Valid() && Consistent(b, w)
    ensures b.Fits(w.saveMin) && b.Fits(w.saveMax)
    ensures w.saveMin.slope <= w.saveMax.slope && w.saveMin.offset <= w.saveMax.offset
    ensures forall f :: b.Fits(f) ==> w.saveMin.slope <= f.slope <= w.saveMax.slope
    ensures Rests(b, w.saveMin) && Rests(b, w.saveMax)
    ensures b.Mirror().Valid() && Rests(b.Mirror(), Negate(w.saveMin)) && Rests(b.Mirror(), Negate(w.saveMax))
  {
    var j, m :| MinCross(b, j, m, w.saveMin);
    var i, n :| MaxCross(b, i, n, w.saveMax);
    CrossesMakeBothFit(b, j, m, w.saveMin, i, n, w.saveMax);
    forall f | b.Fits(f) ensures w.saveMin.slope <= f.slope <= w.saveMax.slope {
      KeptLinesAreExtreme(b, j, m, w.saveMin, i, n, w.saveMax, f);
    }
    KeptLinesAreExtreme(b, j, m, w.saveMin, i, n, w.saveMax, w.saveMin);
    MirrorLine(b, w.saveMin);
    MirrorLine(b, w.saveMax);
    assert b.Mirror().Value(Negate(w.saveMin), m) == b.Mirror().hi[m];
    assert b.Mirror().Value(Negate(w.saveMax), i) == b.Mirror().hi[i];
  }

  lemma MarchSlopes(b: Bars, w: Found)
    requires b.Valid() && Consistent(b, w)
    ensures forall i, k :: 0 <= i <= k < |w.maxseg| ==> w.maxseg[i].slope <= w.maxseg[k].slope
    ensures forall i, k :: 0 <= i <= k < |w.minseg| ==> w.minseg[k].slope <= w.minseg[i].slope
  {
    forall i, k | 0 <= i <= k < |w.maxseg| ensures w.maxseg[i].slope <= w.maxseg[k].slope {
      SlopesNeverDecrease(b, w.vs, w.maxseg, i, k);
    }
    forall i, k | 0 <= i <= k < |w.minseg| ensures w.minseg[k].slope <= w.minseg[i].slope {
      SlopesNeverDecrease(b.Mirror(), w.us, NegateAll(w.minseg), i, k);
    }
  }

  ghost function Least(w: Found): Shifts {
    PolygonPoints(Shifts(MIN_INIT, MIN_INIT), Corners(w.maxseg, w.minseg, w.saveMin, w.saveMax))
  }

  lemma CornersAre(b: Bars, w: Found)
    requires b.Valid() && Consistent(b, w)
    ensures var cs := Corners(w.maxseg, w.minseg, w.saveMin, w.saveMax);
            && w.saveMin in cs && w.saveMax in cs
            && (forall i :: 0 <= i < |w.maxseg| && w.saveMin.slope < w.maxseg[i].slope <= w.saveMax.slope ==>
                  w.maxseg[i] in cs)
            && (forall i :: 0 <= i < |w.minseg| && w.saveMin.slope <= w.minseg[i].slope < w.saveMax.slope ==>
                  w.minseg[i] in cs)
            && (forall s :: s in cs ==>
                  (s == w.saveMin || s == w.saveMax
                   || (w.saveMin.slope <= s.slope <= w.saveMax.slope && (s in w.maxseg || s in w.minseg))))
  {
    MarchSlopes(b, w);
    UpperCornersAre(w.maxseg, w.saveMin.slope, w.saveMax.slope, false);
    LowerCornersAre(w.minseg, w.saveMax.slope, w.saveMin.slope, false);
  }

  /** Every corner respects the recorded shifts. */
  lemma CornersRespect(b: Bars, w: Found)
    requires b.Valid() && Consistent(b, w)
    ensures UpperBounded(w.maxseg, w.saveMin, w.saveMax, Least(w).left, Least(w).right)
    ensures UpperBounded(NegateAll(w.minseg), Negate(w.saveMax), Negate(w.saveMin), Least(w).right, Least(w).left)
  {
    CornersAre(b, w);
    PointsAreLeast(Shifts(MIN_INIT, MIN_INIT), Corners(w.maxseg, w.minseg, w.saveMin, w.saveMax));
    var left, right := Least(w).left, Least(w).right;
    MirrorBounded(w.saveMin, left, right);
    MirrorBounded(w.saveMax, left, right);
    var segs := NegateAll(w.minseg);
    forall i | 0 <= i < |segs| && -w.saveMax.slope < segs[i].slope <= -w.saveMin.slope
      ensures Bounded(segs[i], right, left)
    {
      assert w.minseg[i] in Corners(w.maxseg, w.minseg, w.saveMin, w.saveMax);
      MirrorBounded(w.minseg[i], left, right);
    }
  }

  /** Directly below any consistent line lies one that respects the recorded shifts too. */
  lemma BottomIsBounded(b: Bars, w: Found, f: Line) returns (bottom: Line)
    requires b.Valid() && Consistent(b, w) && b.Fits(f)
    ensures bottom.slope == f.slope && bottom.offset <= f.offset
    ensures Bounded(bottom, Least(w).left, Least(w).right)
  {
    KeptLinesFit(b, w);
    CornersRespect(b, w);
    MirrorLine(b, f);
    var left, right := Least(w).left, Least(w).right;
    var segs := NegateAll(w.minseg);
    var top := TopIsBounded(b.Mirror(), w.us, segs, Negate(w.saveMax), Negate(w.saveMin), Negate(f), right, left);
    bottom := Negate(top);
    MirrorBounded(bottom, left, right);
  }

  /** No consistent line needs less shift than pass 4 records. */
  lemma ShiftsBoundEveryFit(b: Bars, w: Found, f: Line)
    requires b.Valid() && Consistent(b, w) && b.Fits(f)
    ensures Bounded(f, Least(w).left, Least(w).right)
  {
    var bottom := BottomIsBounded(b, w, f);
    KeptLinesFit(b, w);
    CornersRespect(b, w);
    var top := TopIsBounded(b, w.vs, w.maxseg, w.saveMin, w.saveMax, f, Least(w).left, Least(w).right);
    ShiftInColumn(bottom, f, top, Least(w).left, Least(w).right);
  }

  /** Every corner is itself a consistent line. */
  lemma CornersFit(b: Bars, w: Found, s: Line)
    requires b.Valid() && Consistent(b, w)
    requires s in Corners(w.maxseg, w.minseg, w.saveMin, w.saveMax)
    ensures b.Fits(s)
  {
    KeptLinesFit(b, w);
    CornersAre(b, w);
    if s != w.saveMin && s != w.saveMax {
      if s in w.maxseg {
        var i :| 0 <= i < |w.maxseg| && w.maxseg[i] == s;
        SegmentsLieUnder(b, w.vs, w.maxseg, i);
        assert Stride(b, w.vs[i], w.vs[i + 1], w.maxseg[i]);
        CornerFits(b, s, w.vs[i], w.saveMin, w.saveMax);
      } else {
        var i :| 0 <= i < |w.minseg| && w.minseg[i] == s;
        var m, segs := b.Mirror(), NegateAll(w.minseg);
        SegmentsLieUnder(m, w.us, segs, i);
        assert Stride(m, w.us[i], w.us[i + 1], segs[i]);
        MirrorLine(b, w.saveMin);
        MirrorLine(b, w.saveMax);
        MirrorLine(b, s);
        CornerFits(m, segs[i], w.us[i], Negate(w.saveMax), Negate(w.saveMin));
      }
    }
  }

  /** Pass 4 is exact: what it records is the least shift over all consistent lines, capped at
      MIN_INIT. */
  lemma PolygonIsExact(b: Bars, w: Found)
    requires b.Valid() && Consistent(b, w)
    ensures forall f :: b.Fits(f) ==> Least(w).left <= Left(f) && Least(w).right <= Right(f)
    ensures Least(w).left <= MIN_INIT && Least(w).right <= MIN_INIT
    ensures Least(w).left == MIN_INIT || exists f :: b.Fits(f) && Left(f) == Least(w).left
    ensures Least(w).right == MIN_INIT || exists f :: b.Fits(f) && Right(f) == Least(w).right
  {
    forall f | b.Fits(f) ensures Least(w).left <= Left(f) && Least(w).right <= Right(f) {
      ShiftsBoundEveryFit(b, w, f);
    }
    var cs := Corners(w.maxseg, w.minseg, w.saveMin, w.saveMax);
    PointsAreLeast(Shifts(MIN_INIT, MIN_INIT), cs);
    if Least(w).left != MIN_INIT {
      var s :| s in cs && Left(s) == Least(w).left;
      CornersFit(b, w, s);
    }
    if Least(w).right != MIN_INIT {
      var s :| s in cs && Right(s) == Least(w).right;
      CornersFit(b, w, s);
    }
  }

  // ---------- pass 5 ----------

  function FindDf(d: Shifts): real {
    if d.left == 0.0 then
      if d.right == 0.0 then 0.0 else -d.right
    else if d.right == 0.0 then d.left
    else 0.0
  }

  /** The step find_df_center takes towards the centre of the polygon, before damping. */
  function CenterStep(min: Line, max: Line, grossDf: real): (delta: real)
    ensures var slope := 0.5 * (max.slope + min.slope) + grossDf;
            var offset := 0.5 * (max.offset + min.offset);
            delta == 0.0 || delta == -offset / 600.0 - slope || delta == -offset / 1800.0 - slope
  {
    var slope := 0.5 * (max.slope + min.slope) + grossDf;
    var offset := 0.5 * (max.offset + min.offset);
    var delta1 := -offset / 600.0 - slope;
    var delta2 := -offset / 1800.0 - slope;
    if offset < 0.0 then
      if delta1 < 0.0 then delta1 else if 0.0 < delta2 then delta2 else 0.0
    else
      if delta2 < 0.0 then delta2 else if 0.0 < delta1 then delta1 else 0.0
  }

  function Divisor(min: Line, max: Line): real {
    1000.0 + (max.offset - min.offset) + (max.slope - min.slope) * 1200.0
  }

  function Damp(divisor: real, delta: real): real
    requires divisor != 0.0
  {
    var factor := 1000.0 / divisor;
    factor * delta
  }

  /** None stands for the division by zero that the source does not guard. */
  function FindDfCenter(min: Line, max: Line, grossDf: real): Option<real> {
    if Divisor(min, max) == 0.0 then None
    else if max.offset < -1000.0 || 1000.0 < min.offset then Some(0.0)
    else Some(Damp(Divisor(min, max), CenterStep(min, max, grossDf)))
  }

  /** The gross correction, when there is one, is the least that makes some consistent line
      acceptable: every consistent line needs at least that much on its side. */
  lemma GrossCorrectionIsLeast(b: Bars, w: Found, f: Line)
    requires b.Valid() && Consistent(b, w) && b.Fits(f)
    ensures 0.0 < FindDf(Least(w)) ==> FindDf(Least(w)) <= Left(f)
    ensures FindDf(Least(w)) < 0.0 ==> -FindDf(Least(w)) <= Right(f)
    ensures -MIN_INIT <= FindDf(Least(w)) <= MIN_INIT
  {
    PolygonIsExact(b, w);
    CornersAre(b, w);
    PointsAreLeast(Shifts(MIN_INIT, MIN_INIT), Corners(w.maxseg, w.minseg, w.saveMin, w.saveMax));
  }

  /** On consistent data the divisor is at least 1000, so the fine correction exists, has the sign
      of the step towards the centre and never overshoots it. */
  lemma FineCorrectionIsDamped(b: Bars, w: Found, grossDf: real)
    requires b.Valid() && Consistent(b, w)
    ensures var step := CenterStep(w.saveMin, w.saveMax, grossDf);
            var r := FindDfCenter(w.saveMin, w.saveMax, grossDf);
            && r.Some?
            && (0.0 <= step ==> 0.0 <= r.value <= step)
            && (step <= 0.0 ==> step <= r.value <= 0.0)
  {
    KeptLinesFit(b, w);
    OrderedIsDamped(w.saveMin, w.saveMax, grossDf);
  }

  lemma OrderedIsDamped(min: Line, max: Line, grossDf: real)
    requires min.slope <= max.slope && min.offset <= max.offset
    ensures var step := CenterStep(min, max, grossDf);
            var r := FindDfCenter(min, max, grossDf);
            && r.Some?
            && (0.0 <= step ==> 0.0 <= r.value <= step)
            && (step <= 0.0 ==> step <= r.value <= 0.0)
  {
    Damped(Divisor(min, max), CenterStep(min, max, grossDf));
  }

  lemma Damped(divisor: real, delta: real)
    requires 1000.0 <= divisor
    ensures 0.0 <= delta ==> 0.0 <= Damp(divisor, delta) <= delta
    ensures delta <= 0.0 ==> delta <= Damp(divisor, delta) <= 0.0
  {
    var factor := 1000.0 / divisor;
    assert 0.0 < factor <= 1.0;
    if 0.0 <= delta {
      MulLe(factor, 1.0, delta);
    } else {
      MulLe(factor, 1.0, -delta);
      assert factor * -delta == -(factor * delta);
    }
  }
}
