/** The geometry behind the phase-lock loop of NTP/NTP.c.

  A measurement is a vertical error bar at a point in time.  The loop marches along the lower
  convex envelope of the upper bar ends, and along the upper envelope of the lower ones, and
  picks from each march one crossing line.  The lemmas here say what those lines are worth:
  they are the shallowest and the steepest of all the straight lines that pass through every bar.
  The second march is the first one seen in a mirror (Bars.Mirror), so each fact is proved once.
 */
module Envelope {
  import opened Wrappers

  /** A straight line in the source's coordinates: `offset` is its value at the newest time. */
  datatype Line = Line(slope: real, offset: real)

  function Negate(l: Line): Line {
    Line(-l.slope, -l.offset)
  }

  /** The value of `l` at time `x`, when `end` is the newest time. */
  function At(l: Line, end: real, x: real): real {
    l.offset - l.slope * (end - x)
  }

  datatype Bars = Bars(t: seq<real>, lo: seq<real>, hi: seq<real>) {

    predicate Valid() {
      && 2 <= |t| == |lo| == |hi|
      && forall i, j :: 0 <= i < j < |t| ==> t[i] < t[j]
    }

    function End(): real
      requires Valid()
    {
      t[|t| - 1]
    }

    function Value(l: Line, k: int): real
      requires Valid() && 0 <= k < |t|
    {
      At(l, End(), t[k])
    }

    /** The bars upside down. */
    function Mirror(): Bars
      requires Valid()
    {
      Bars(t, seq(|t|, k requires 0 <= k < |t| => -hi[k]), seq(|t|, k requires 0 <= k < |t| => -lo[k]))
    }

    /** No bar has its lower end above its upper end. */
    ghost predicate Upright()
      requires Valid()
    {
      forall k :: 0 <= k < |t| ==> lo[k] <= hi[k]
    }

    ghost predicate Under(l: Line)
      requires Valid()
    {
      forall k :: 0 <= k < |t| ==> Value(l, k) <= hi[k]
    }

    ghost predicate Over(l: Line)
      requires Valid()
    {
      forall k :: 0 <= k < |t| ==> lo[k] <= Value(l, k)
    }

    /** `l` passes through every error bar. */
    ghost predicate Fits(l: Line)
      requires Valid()
    {
      Under(l) && Over(l)
    }
  }

  // ---------- how two lines lie to each other ----------

  lemma MulLe(a: real, b: real, d: real)
    requires a <= b && 0.0 <= d
    ensures a * d <= b * d
  {
  }

  lemma MulLt(a: real, b: real, d: real)
    requires a < b && 0.0 < d
    ensures a * d < b * d
  {
  }

  lemma Rise(l: Line, end: real, x: real, y: real)
    ensures At(l, end, y) == At(l, end, x) + l.slope * (y - x)
  {
    assert l.slope * (end - x) == l.slope * (end - y) + l.slope * (y - x);
  }

  /** How much two lines rise from x to y. */
  lemma Rises(l: Line, m: Line, end: real, x: real, y: real) returns (dl: real, dm: real)
    requires x <= y
    ensures At(l, end, y) == At(l, end, x) + dl && At(m, end, y) == At(m, end, x) + dm
    ensures l.slope <= m.slope ==> dl <= dm
    ensures l.slope < m.slope && x < y ==> dl < dm
  {
    Rise(l, end, x, y);
    Rise(m, end, x, y);
    dl, dm := l.slope * (y - x), m.slope * (y - x);
    if l.slope <= m.slope {
      MulLe(l.slope, m.slope, y - x);
    }
    if l.slope < m.slope && x < y {
      MulLt(l.slope, m.slope, y - x);
    }
  }

  /** Lines of one slope are equally far apart everywhere. */
  lemma Parallel(l: Line, m: Line, end: real, x: real)
    requires l.slope == m.slope
    ensures At(l, end, x) - At(m, end, x) == l.offset - m.offset
  {
  }

  /** A line not above another at x, and no steeper, is not above it later. */
  lemma StaysBelow(l: Line, m: Line, end: real, x: real, y: real)
    requires At(l, end, x) <= At(m, end, x) && l.slope <= m.slope && x <= y
    ensures At(l, end, y) <= At(m, end, y)
    ensures At(l, end, x) < At(m, end, x) ==> At(l, end, y) < At(m, end, y)
    ensures l.slope < m.slope && x < y ==> At(l, end, y) < At(m, end, y)
  {
    var dl, dm := Rises(l, m, end, x, y);
  }

  /** A line not above another at y, and no shallower, is not above it earlier. */
  lemma WasBelow(l: Line, m: Line, end: real, x: real, y: real)
    requires At(l, end, y) <= At(m, end, y) && m.slope <= l.slope && x <= y
    ensures At(l, end, x) <= At(m, end, x)
    ensures At(l, end, y) < At(m, end, y) ==> At(l, end, x) < At(m, end, x)
    ensures m.slope < l.slope && x < y ==> At(l, end, x) < At(m, end, x)
  {
    var dm, dl := Rises(m, l, end, x, y);
  }

  /** A line that goes from not below another to not above it is no steeper. */
  lemma NoSteeper(l: Line, m: Line, end: real, x: real, y: real)
    requires x < y && At(m, end, x) <= At(l, end, x) && At(l, end, y) <= At(m, end, y)
    ensures l.slope <= m.slope
    ensures At(m, end, x) < At(l, end, x) || At(l, end, y) < At(m, end, y) ==> l.slope < m.slope
  {
    if m.slope <= l.slope {
      StaysBelow(m, l, end, x, y);
      if m.slope < l.slope {
        assert false;
      }
    }
  }

  /** Two lines that meet at two times are one line. */
  lemma SameLine(l: Line, m: Line, end: real, x: real, y: real)
    requires x < y && At(l, end, x) == At(m, end, x) && At(l, end, y) == At(m, end, y)
    ensures l == m
  {
    NoSteeper(l, m, end, x, y);
    NoSteeper(m, l, end, x, y);
  }

  /** The line through two points. */
  function Join(end: real, x: real, xv: real, y: real, yv: real): (l: Line)
    requires x < y
    ensures At(l, end, x) == xv && At(l, end, y) == yv
  {
    var slope := (yv - xv) / (y - x);
    var l := Line(slope, yv + slope * (end - y));
    Rise(l, end, x, y);
    l
  }

  lemma {:induction false} MirrorIsValid(b: Bars)
    requires b.Valid()
    ensures b.Mirror().Valid() && b.Mirror().Mirror() == b
  {
    assert b.Mirror().Mirror().lo == b.lo;
    assert b.Mirror().Mirror().hi == b.hi;
  }

  lemma MirrorLine(b: Bars, l: Line)
    requires b.Valid()
    ensures b.Mirror().Valid()
    ensures forall k :: 0 <= k < |b.t| ==> b.Mirror().Value(Negate(l), k) == -b.Value(l, k)
    ensures b.Mirror().Under(Negate(l)) <==> b.Over(l)
    ensures b.Mirror().Over(Negate(l)) <==> b.Under(l)
    ensures b.Mirror().Fits(Negate(l)) <==> b.Fits(l)
    ensures b.Mirror().Upright() <==> b.Upright()
  {
    MirrorIsValid(b);
    var m := b.Mirror();
    forall k | 0 <= k < |b.t|
      ensures m.Value(Negate(l), k) == -b.Value(l, k) && m.hi[k] == -b.lo[k] && m.lo[k] == -b.hi[k]
    {
      assert (-l.slope) * (b.End() - b.t[k]) == -(l.slope * (b.End() - b.t[k]));
    }
    if b.Over(l) {
      forall k | 0 <= k < |b.t| ensures m.Value(Negate(l), k) <= m.hi[k] {
        assert b.lo[k] <= b.Value(l, k);
      }
    }
    if m.Under(Negate(l)) {
      forall k | 0 <= k < |b.t| ensures b.lo[k] <= b.Value(l, k) {
        assert m.Value(Negate(l), k) <= m.hi[k];
      }
    }
    if b.Under(l) {
      forall k | 0 <= k < |b.t| ensures m.lo[k] <= m.Value(Negate(l), k) {
        assert b.Value(l, k) <= b.hi[k];
      }
    }
    if m.Over(Negate(l)) {
      forall k | 0 <= k < |b.t| ensures b.Value(l, k) <= b.hi[k] {
        assert m.lo[k] <= m.Value(Negate(l), k);
      }
    }
    if b.Upright() {
      forall k | 0 <= k < |b.t| ensures m.lo[k] <= m.hi[k] {
        assert b.lo[k] <= b.hi[k];
      }
    }
    if m.Upright() {
      forall k | 0 <= k < |b.t| ensures b.lo[k] <= b.hi[k] {
        assert m.lo[k] <= m.hi[k];
      }
    }
  }

  // ---------- the march along the upper ends ----------

  /** One step of the march: the shallowest line from bar j's upper end to a later upper end. */
  ghost predicate Stride(b: Bars, j: int, next: int, s: Line)
    requires b.Valid()
  {
    && 0 <= j < next < |b.t|
    && b.Value(s, j) == b.hi[j]
    && b.Value(s, next) == b.hi[next]
    && forall k :: j < k < |b.t| ==> b.Value(s, k) <= b.hi[k]
  }

  /** The whole march: stops vs, from the oldest bar to the newest, joined by the lines segs. */
  ghost predicate March(b: Bars, vs: seq<int>, segs: seq<Line>)
    requires b.Valid()
  {
    && PartMarch(b, vs, segs)
    && |segs| >= 1
    && vs[|segs|] == |b.t| - 1
  }

  ghost predicate PartMarch(b: Bars, vs: seq<int>, segs: seq<Line>)
    requires b.Valid()
  {
    && |vs| == |segs| + 1
    && vs[0] == 0
    && (forall i :: 0 <= i < |vs| ==> 0 <= vs[i] < |b.t|)
    && (forall i :: 0 <= i < |segs| ==> Stride(b, vs[i], vs[i + 1], segs[i]))
  }

  lemma {:induction false} StopsIncrease(b: Bars, vs: seq<int>, segs: seq<Line>, i: int, k: int)
    requires b.Valid() && PartMarch(b, vs, segs) && 0 <= i <= k <= |segs|
    ensures vs[i] + (k - i) <= vs[k]
    decreases k - i
  {
    if i < k {
      StopsIncrease(b, vs, segs, i, k - 1);
      assert Stride(b, vs[k - 1], vs[k], segs[k - 1]);
    }
  }

  /** A march over n bars has at most n - 1 segments: with 16 bars it stays inside `maxseg`. */
  lemma MarchIsShort(b: Bars, vs: seq<int>, segs: seq<Line>)
    requires b.Valid() && PartMarch(b, vs, segs)
    ensures |segs| <= vs[|segs|] < |b.t|
    ensures |segs| <= |b.t| - 1
  {
    StopsIncrease(b, vs, segs, 0, |segs|);
  }

  lemma SlopesStep(b: Bars, vs: seq<int>, segs: seq<Line>, i: int)
    requires b.Valid() && PartMarch(b, vs, segs) && 0 <= i && i + 1 < |segs|
    ensures segs[i].slope <= segs[i + 1].slope
  {
    assert Stride(b, vs[i], vs[i + 1], segs[i]);
    assert Stride(b, vs[i + 1], vs[i + 2], segs[i + 1]);
    NoSteeper(segs[i], segs[i + 1], b.End(), b.t[vs[i + 1]], b.t[vs[i + 2]]);
  }

  lemma {:induction false} SlopesNeverDecrease(b: Bars, vs: seq<int>, segs: seq<Line>, i: int, k: int)
    requires b.Valid() && PartMarch(b, vs, segs) && 0 <= i <= k < |segs|
    ensures segs[i].slope <= segs[k].slope
    decreases k - i
  {
    if i < k {
      SlopesNeverDecrease(b, vs, segs, i, k - 1);
      SlopesStep(b, vs, segs, k - 1);
    }
  }

  /** Every upper end lies on or above the line of every segment. */
  lemma {:induction false} SegmentsLieUnder(b: Bars, vs: seq<int>, segs: seq<Line>, i: int)
    requires b.Valid() && PartMarch(b, vs, segs) && 0 <= i < |segs|
    ensures b.Under(segs[i])
    decreases i
  {
    assert Stride(b, vs[i], vs[i + 1], segs[i]);
    if i > 0 {
      SegmentsLieUnder(b, vs, segs, i - 1);
      SlopesStep(b, vs, segs, i - 1);
      assert Stride(b, vs[i - 1], vs[i], segs[i - 1]);
      forall k | 0 <= k < vs[i] ensures b.Value(segs[i], k) <= b.hi[k] {
        WasBelow(segs[i], segs[i - 1], b.End(), b.t[k], b.t[vs[i]]);
        assert b.Value(segs[i - 1], k) <= b.hi[k];
      }
    }
    forall k | 0 <= k < |b.t| ensures b.Value(segs[i], k) <= b.hi[k] {
      assert k < vs[i] || k == vs[i] || vs[i] < k;
    }
  }

  /** A slope between those of the segments on either side of stop i. */
  predicate Between(segs: seq<Line>, i: int, slope: real)
    requires 0 <= i <= |segs|
  {
    && (i > 0 ==> segs[i - 1].slope <= slope)
    && (i < |segs| ==> slope <= segs[i].slope)
  }

  /** A line through the upper end at a stop, with a slope between its two segments', lies under. */
  lemma StopSupports(b: Bars, vs: seq<int>, segs: seq<Line>, i: int, l: Line)
    requires b.Valid() && March(b, vs, segs) && 0 <= i <= |segs|
    requires Between(segs, i, l.slope) && b.Value(l, vs[i]) == b.hi[vs[i]]
    ensures b.Under(l)
  {
    forall k | 0 <= k < |b.t| ensures b.Value(l, k) <= b.hi[k] {
      if k < vs[i] {
        assert i > 0;
        SegmentsLieUnder(b, vs, segs, i - 1);
        assert Stride(b, vs[i - 1], vs[i], segs[i - 1]);
        WasBelow(l, segs[i - 1], b.End(), b.t[k], b.t[vs[i]]);
        assert b.Value(segs[i - 1], k) <= b.hi[k];
      } else if vs[i] < k {
        assert i < |segs|;
        assert Stride(b, vs[i], vs[i + 1], segs[i]);
        StaysBelow(l, segs[i], b.End(), b.t[vs[i]], b.t[k]);
        assert b.Value(segs[i], k) <= b.hi[k];
      }
    }
  }

  // ---------- the crossing lines ----------

  /** The steepest line from bar j's upper end to a later lower end. */
  ghost predicate Crossing(b: Bars, j: int, m: int, c: Line)
    requires b.Valid()
  {
    && 0 <= j < m < |b.t|
    && b.Value(c, j) == b.hi[j]
    && b.Value(c, m) == b.lo[m]
    && forall k :: j < k < |b.t| ==> b.lo[k] <= b.Value(c, k)
  }

  /** A crossing line that also lies under every upper end: what pass 2 keeps. */
  ghost predicate MinCross(b: Bars, j: int, m: int, c: Line)
    requires b.Valid()
  {
    Crossing(b, j, m, c) && b.Under(c)
  }

  /** What pass 3 keeps: the shallowest line from bar j's lower end to a later upper end, over every lower end. */
  ghost predicate MaxCross(b: Bars, j: int, m: int, c: Line)
    requires b.Valid()
  {
    && 0 <= j < m < |b.t|
    && b.Value(c, j) == b.lo[j]
    && b.Value(c, m) == b.hi[m]
    && (forall k :: j < k < |b.t| ==> b.Value(c, k) <= b.hi[k])
    && b.Over(c)
  }

  lemma MirrorCross(b: Bars, j: int, m: int, c: Line)
    requires b.Valid()
    ensures b.Mirror().Valid()
    ensures MaxCross(b, j, m, c) <==> MinCross(b.Mirror(), j, m, Negate(c))
    ensures MinCross(b, j, m, c) <==> MaxCross(b.Mirror(), j, m, Negate(c))
  {
    MirrorLine(b, c);
    var n := b.Mirror();
    if 0 <= j < m < |b.t| {
      forall k | j < k < |b.t|
        ensures b.Value(c, k) <= b.hi[k] <==> n.lo[k] <= n.Value(Negate(c), k)
        ensures b.lo[k] <= b.Value(c, k) <==> n.Value(Negate(c), k) <= n.hi[k]
      {
      }
    }
  }

  /** Any line through all the bars is at least as steep as a crossing line. */
  lemma CrossingBoundsFits(b: Bars, j: int, m: int, c: Line, f: Line)
    requires b.Valid() && Crossing(b, j, m, c) && b.Fits(f)
    ensures c.slope <= f.slope
  {
    assert b.Value(f, j) <= b.hi[j] && b.lo[m] <= b.Value(f, m);
    NoSteeper(c, f, b.End(), b.t[j], b.t[m]);
  }

  /** If any line passes through all the bars, the line that pass 2 keeps does. */
  lemma MinCrossFits(b: Bars, j: int, m: int, c: Line, f: Line)
    requires b.Valid() && MinCross(b, j, m, c) && b.Fits(f)
    ensures b.Fits(c)
  {
    CrossingBoundsFits(b, j, m, c, f);
    assert b.Value(f, j) <= b.hi[j];
    forall k | 0 <= k < |b.t| ensures b.lo[k] <= b.Value(c, k) {
      assert b.lo[k] <= b.Value(f, k);
      if k <= j {
        WasBelow(f, c, b.End(), b.t[k], b.t[j]);
      }
    }
  }

  /** A line through all the bars with the slope of the kept line is the kept line. */
  lemma LeastFitIsUnique(b: Bars, j: int, m: int, c: Line, f: Line)
    requires b.Valid() && MinCross(b, j, m, c) && b.Fits(f) && f.slope <= c.slope
    ensures f == c
  {
    CrossingBoundsFits(b, j, m, c, f);
    assert b.Value(f, j) <= b.hi[j] && b.lo[m] <= b.Value(f, m);
    StaysBelow(f, c, b.End(), b.t[j], b.t[m]);
    WasBelow(c, f, b.End(), b.t[j], b.t[m]);
    SameLine(f, c, b.End(), b.t[j], b.t[m]);
  }

  /** When both passes keep a line and no bar is upside down, the data are consistent: the line
      kept by pass 2 passes through every bar. */
  lemma CrossesMakeFit(b: Bars, j: int, m: int, c: Line, i: int, n: int, d: Line)
    requires b.Valid() && b.Upright()
    requires MinCross(b, j, m, c) && MaxCross(b, i, n, d)
    ensures b.Fits(c)
  {
    forall k | 0 <= k < |b.t| ensures b.lo[k] <= b.Value(c, k) {
      if k < j && b.Value(c, k) < b.lo[k] {
        assert b.lo[k] <= b.Value(d, k) && b.lo[m] <= b.Value(d, m);
        if i < j {
          assert b.Value(d, j) <= b.hi[j];
          NoSteeper(d, c, b.End(), b.t[k], b.t[j]);
          StaysBelow(d, c, b.End(), b.t[j], b.t[m]);
          assert false;
        } else {
          assert b.lo[i] <= b.hi[i];
          assert b.lo[i] <= b.Value(c, i);
          NoSteeper(d, c, b.End(), b.t[k], b.t[i]);
          StaysBelow(d, c, b.End(), b.t[i], b.t[n]);
          assert false;
        }
      }
      if k == j {
        assert b.lo[k] <= b.hi[k];
      }
    }
  }

  /** The same for the line kept by pass 3, by the mirror. */
  lemma CrossesMakeBothFit(b: Bars, j: int, m: int, c: Line, i: int, n: int, d: Line)
    requires b.Valid() && b.Upright()
    requires MinCross(b, j, m, c) && MaxCross(b, i, n, d)
    ensures b.Fits(c) && b.Fits(d)
  {
    CrossesMakeFit(b, j, m, c, i, n, d);
    MirrorCross(b, j, m, c);
    MirrorCross(b, i, n, d);
    MirrorLine(b, d);
    CrossesMakeFit(b.Mirror(), i, n, Negate(d), j, m, Negate(c));
  }

  /** Every consistent line is between the two kept lines, in slope and at the newest time. */
  lemma KeptLinesAreExtreme(b: Bars, j: int, m: int, c: Line, i: int, n: int, d: Line, f: Line)
    requires b.Valid()
    requires MinCross(b, j, m, c) && MaxCross(b, i, n, d) && b.Fits(f)
    ensures c.slope <= f.slope <= d.slope
    ensures b.Fits(c) && b.Fits(d) && c.offset <= d.offset
  {
    CrossingBoundsFits(b, j, m, c, f);
    MinCrossFits(b, j, m, c, f);
    MirrorCross(b, i, n, d);
    MirrorLine(b, f);
    MirrorLine(b, d);
    CrossingBoundsFits(b.Mirror(), i, n, Negate(d), Negate(f));
    MinCrossFits(b.Mirror(), i, n, Negate(d), Negate(f));
    assert b.Fits(d) && b.lo[m] <= b.Value(d, m);
    StaysBelow(c, d, b.End(), b.t[m], b.End());
  }

  /** The verdict is sound exactly when no bar is upside down. */
  lemma VerdictIsSoundIffUpright(b: Bars, j: int, m: int, c: Line, i: int, n: int, d: Line)
    requires b.Valid()
    requires MinCross(b, j, m, c) && MaxCross(b, i, n, d)
    ensures (exists f :: b.Fits(f)) <==> b.Upright()
  {
    if b.Upright() {
      CrossesMakeFit(b, j, m, c, i, n, d);
    }
    if f :| b.Fits(f) {
      forall k | 0 <= k < |b.t| ensures b.lo[k] <= b.hi[k] {
        assert b.lo[k] <= b.Value(f, k) <= b.hi[k];
      }
    }
  }

  // ---------- which crossing line is kept ----------

  /** The test made at stop i: the crossing line must turn between the segments on either side. */
  predicate Accepted(floor: real, segs: seq<Line>, checks: seq<Line>, i: int)
    requires |segs| == |checks| && 0 <= i < |segs|
  {
    && checks[i].slope < segs[i].slope
    && (if i == 0 then floor else segs[i - 1].slope) < checks[i].slope
  }

  /** The running choice: the first accepted line, replaced by a later one that is shallower
      (or, seen in the mirror, by one that is steeper). */
  function Kept(floor: real, segs: seq<Line>, checks: seq<Line>, shallower: bool): Option<Line>
    requires |segs| == |checks|
  {
    if |segs| == 0 then None
    else
      var n := |segs| - 1;
      var before := Kept(floor, segs[..n], checks[..n], shallower);
      var c := checks[n];
      if Accepted(floor, segs, checks, n)
         && (before.None? || (if shallower then c.slope < before.value.slope else before.value.slope < c.slope))
      then Some(c)
      else before
  }

  lemma {:induction false} KeptWasAccepted(floor: real, segs: seq<Line>, checks: seq<Line>, shallower: bool)
    requires |segs| == |checks|
    ensures var k := Kept(floor, segs, checks, shallower);
            && (k.Some? <==> exists i :: 0 <= i < |segs| && Accepted(floor, segs, checks, i))
            && (k.Some? ==> exists i :: 0 <= i < |segs| && Accepted(floor, segs, checks, i) && checks[i] == k.value)
  {
    if |segs| > 0 {
      var n := |segs| - 1;
      var ss, cs := segs[..n], checks[..n];
      KeptWasAccepted(floor, ss, cs, shallower);
      forall i | 0 <= i < n ensures Accepted(floor, ss, cs, i) <==> Accepted(floor, segs, checks, i) {
      }
      var before := Kept(floor, ss, cs, shallower);
      if before.Some? {
        var i :| 0 <= i < n && Accepted(floor, ss, cs, i) && cs[i] == before.value;
        assert Accepted(floor, segs, checks, i) && checks[i] == before.value;
      }
      if i :| 0 <= i < |segs| && Accepted(floor, segs, checks, i) {
        if i < n {
          assert Accepted(floor, ss, cs, i);
        }
      }
    }
  }

  lemma AcceptedIndex(floor: real, segs: seq<Line>, checks: seq<Line>, shallower: bool) returns (i: int)
    requires |segs| == |checks| && Kept(floor, segs, checks, shallower).Some?
    ensures 0 <= i < |segs| && Accepted(floor, segs, checks, i)
    ensures checks[i] == Kept(floor, segs, checks, shallower).value
  {
    KeptWasAccepted(floor, segs, checks, shallower);
    i :| 0 <= i < |segs| && Accepted(floor, segs, checks, i) && checks[i] == Kept(floor, segs, checks, shallower).value;
  }

  ghost predicate IsCrossing(b: Bars, j: int, c: Line)
    requires b.Valid()
  {
    exists m :: Crossing(b, j, m, c)
  }

  /** Every check line of the march is the steepest from its stop to a later lower end. */
  ghost predicate Checked(b: Bars, vs: seq<int>, checks: seq<Line>)
    requires b.Valid()
  {
    && |vs| == |checks| + 1
    && forall i :: 0 <= i < |checks| ==> IsCrossing(b, vs[i], checks[i])
  }

  lemma AcceptedIsMinCross(b: Bars, vs: seq<int>, segs: seq<Line>, checks: seq<Line>, floor: real, i: int)
      returns (m: int)
    requires b.Valid() && March(b, vs, segs) && Checked(b, vs, checks)
    requires 0 <= i < |segs| && Accepted(floor, segs, checks, i)
    ensures MinCross(b, vs[i], m, checks[i])
  {
    assert IsCrossing(b, vs[i], checks[i]);
    m :| Crossing(b, vs[i], m, checks[i]);
    StopSupports(b, vs, segs, i, checks[i]);
  }

  /** An accepted crossing line touches no upper end but the one at its stop. */
  lemma AcceptedTouchesOnce(b: Bars, vs: seq<int>, segs: seq<Line>, checks: seq<Line>, floor: real, i: int, k: int)
    requires b.Valid() && March(b, vs, segs) && Checked(b, vs, checks)
    requires 0 <= i < |segs| && Accepted(floor, segs, checks, i)
    requires 0 <= k < |b.t| && k != vs[i]
    ensures b.Value(checks[i], k) < b.hi[k]
  {
    assert IsCrossing(b, vs[i], checks[i]);
    var m :| Crossing(b, vs[i], m, checks[i]);
    if vs[i] < k {
      assert Stride(b, vs[i], vs[i + 1], segs[i]);
      StaysBelow(checks[i], segs[i], b.End(), b.t[vs[i]], b.t[k]);
      assert b.Value(segs[i], k) <= b.hi[k];
    } else {
      assert i > 0;
      SegmentsLieUnder(b, vs, segs, i - 1);
      assert Stride(b, vs[i - 1], vs[i], segs[i - 1]);
      WasBelow(checks[i], segs[i - 1], b.End(), b.t[k], b.t[vs[i]]);
      assert b.Value(segs[i - 1], k) <= b.hi[k];
    }
  }

  /** `l` touches upper end j and no other. */
  ghost predicate TouchesOnly(b: Bars, l: Line, j: int)
    requires b.Valid()
  {
    && 0 <= j < |b.t|
    && b.Value(l, j) == b.hi[j]
    && forall k :: 0 <= k < |b.t| && k != j ==> b.Value(l, k) < b.hi[k]
  }

  /** A line that lies under the upper ends and touches only one of them touches it at a stop. */
  lemma {:induction false} SoleTouchIsAStop(b: Bars, vs: seq<int>, segs: seq<Line>, l: Line, j: int, i: int)
    requires b.Valid() && March(b, vs, segs) && TouchesOnly(b, l, j)
    requires 0 <= i <= |segs| && vs[i] <= j
    ensures exists n :: 0 <= n <= |segs| && vs[n] == j
    decreases |segs| - i
  {
    if vs[i] < j {
      assert i < |segs|;
      assert Stride(b, vs[i], vs[i + 1], segs[i]);
      if j < vs[i + 1] {
        assert b.Value(l, vs[i]) < b.Value(segs[i], vs[i]);
        assert b.Value(l, vs[i + 1]) < b.Value(segs[i], vs[i + 1]);
        if l.slope <= segs[i].slope {
          StaysBelow(l, segs[i], b.End(), b.t[vs[i]], b.t[j]);
        } else {
          WasBelow(l, segs[i], b.End(), b.t[j], b.t[vs[i + 1]]);
        }
        assert false;
      } else {
        SoleTouchIsAStop(b, vs, segs, l, j, i + 1);
      }
    }
  }

  /** Exactly when pass 2 finds the data consistent.  Suppose `f` is the shallowest line through
      all the bars: it touches upper end j and a later lower end m.  Then pass 2 keeps a line
      if and only if j is the only upper end that f touches and, when j is the oldest bar, f is
      steeper than the start value of `last_slope`. */
  lemma KeepsIffSoleTouch(b: Bars, vs: seq<int>, segs: seq<Line>, checks: seq<Line>, floor: real, shallower: bool,
                          f: Line, j: int, m: int)
    requires b.Valid() && March(b, vs, segs) && Checked(b, vs, checks)
    requires b.Fits(f) && MinCross(b, j, m, f)
    ensures Kept(floor, segs, checks, shallower).Some? <==>
            (exists n :: TouchesOnly(b, f, n)) && (TouchesOnly(b, f, 0) ==> floor < f.slope)
  {
    KeptWasAccepted(floor, segs, checks, shallower);
    if i :| 0 <= i < |segs| && Accepted(floor, segs, checks, i) {
      var q := AcceptedIsMinCross(b, vs, segs, checks, floor, i);
      MinCrossFits(b, vs[i], q, checks[i], f);
      CrossingBoundsFits(b, j, m, f, checks[i]);
      LeastFitIsUnique(b, vs[i], q, checks[i], f);
      forall k | 0 <= k < |b.t| && k != vs[i] ensures b.Value(f, k) < b.hi[k] {
        AcceptedTouchesOnce(b, vs, segs, checks, floor, i, k);
      }
      assert TouchesOnly(b, f, vs[i]);
      if TouchesOnly(b, f, 0) && i > 0 {
        StopsIncrease(b, vs, segs, 0, i);
        assert false;
      }
    }
    if n :| TouchesOnly(b, f, n) && (TouchesOnly(b, f, 0) ==> floor < f.slope) {
      assert n == j;
      SoleTouchIsAStop(b, vs, segs, f, j, 0);
      var i :| 0 <= i <= |segs| && vs[i] == j;
      SoleTouchIsAccepted(b, vs, segs, checks, floor, f, m, i);
    }
  }

  lemma SoleTouchIsAccepted(b: Bars, vs: seq<int>, segs: seq<Line>, checks: seq<Line>, floor: real,
                            f: Line, m: int, i: int)
    requires b.Valid() && March(b, vs, segs) && Checked(b, vs, checks)
    requires 0 <= i <= |segs| && MinCross(b, vs[i], m, f) && TouchesOnly(b, f, vs[i])
    requires vs[i] == 0 ==> floor < f.slope
    ensures i < |segs| && Accepted(floor, segs, checks, i)
  {
    assert i < |segs|;
    var c := checks[i];
    assert IsCrossing(b, vs[i], checks[i]);
    var q :| Crossing(b, vs[i], q, c);
    NoSteeper(f, c, b.End(), b.t[vs[i]], b.t[m]);
    assert b.lo[q] <= b.Value(f, q);
    NoSteeper(c, f, b.End(), b.t[vs[i]], b.t[q]);
    assert Stride(b, vs[i], vs[i + 1], segs[i]);
    NoSteeper(f, segs[i], b.End(), b.t[vs[i]], b.t[vs[i + 1]]);
    if i > 0 {
      assert Stride(b, vs[i - 1], vs[i], segs[i - 1]);
      NoSteeper(segs[i - 1], f, b.End(), b.t[vs[i - 1]], b.t[vs[i]]);
    }
  }

  // ---------- the shallowest consistent line exists ----------

  /** No consistent line is shallower than `slope`, judged by upper end j and lower end m. */
  predicate Dominates(b: Bars, slope: real, j: int, m: int)
    requires b.Valid() && 0 <= j < m < |b.t|
  {
    b.lo[m] - b.hi[j] <= slope * (b.t[m] - b.t[j])
  }

  function Through(b: Bars, j: int, m: int): (l: Line)
    requires b.Valid() && 0 <= j < m < |b.t|
    ensures b.Value(l, j) == b.hi[j] && b.Value(l, m) == b.lo[m]
  {
    Join(b.End(), b.t[j], b.hi[j], b.t[m], b.lo[m])
  }

  lemma DominatesMore(b: Bars, slope: real, steeper: real, j: int, m: int)
    requires b.Valid() && 0 <= j < m < |b.t| && slope <= steeper && Dominates(b, slope, j, m)
    ensures Dominates(b, steeper, j, m)
  {
    MulLe(slope, steeper, b.t[m] - b.t[j]);
  }

  /** The steepest of the lines from upper ends down to later lower ends m < upto. */
  lemma {:induction false} SteepestCrossing(b: Bars, upto: int) returns (j: int, m: int)
    requires b.Valid() && 2 <= upto <= |b.t|
    ensures 0 <= j < m < upto
    ensures forall x, y :: 0 <= x < y < upto ==> Dominates(b, Through(b, j, m).slope, x, y)
    decreases upto
  {
    var n := upto - 1;
    if n == 1 {
      j, m := 0, 1;
      Rise(Through(b, j, m), b.End(), b.t[0], b.t[1]);
    } else {
      j, m := SteepestCrossing(b, n);
    }
    var x := 0;
    while x < n
      invariant 0 <= x <= n && 0 <= j < m < upto
      invariant forall p, q :: 0 <= p < q < n ==> Dominates(b, Through(b, j, m).slope, p, q)
      invariant forall p :: 0 <= p < x ==> Dominates(b, Through(b, j, m).slope, p, n)
    {
      var s, s' := Through(b, j, m).slope, Through(b, x, n).slope;
      Rise(Through(b, x, n), b.End(), b.t[x], b.t[n]);
      if s <= s' {
        forall p, q | 0 <= p < q < upto && Dominates(b, s, p, q) ensures Dominates(b, s', p, q) {
          DominatesMore(b, s, s', p, q);
        }
        j, m := x, n;
      } else {
        DominatesMore(b, s', s, x, n);
      }
      x := x + 1;
    }
  }

  /** If any line passes through all the bars, there is a shallowest one, and it is a crossing line. */
  lemma ShallowestFit(b: Bars, f: Line) returns (l: Line, j: int, m: int)
    requires b.Valid() && b.Fits(f)
    ensures b.Fits(l) && MinCross(b, j, m, l) && l.slope <= f.slope
  {
    j, m := SteepestCrossing(b, |b.t|);
    l := Through(b, j, m);
    assert b.Value(f, j) <= b.hi[j] && b.lo[m] <= b.Value(f, m);
    NoSteeper(l, f, b.End(), b.t[j], b.t[m]);
    forall k | 0 <= k < |b.t| ensures b.Value(l, k) <= b.hi[k] {
      assert b.lo[k] <= b.Value(f, k) <= b.hi[k];
      if k < m {
        assert Dominates(b, l.slope, k, m);
        Rise(l, b.End(), b.t[k], b.t[m]);
      } else {
        StaysBelow(l, f, b.End(), b.t[m], b.t[k]);
      }
    }
    forall k | 0 <= k < |b.t| ensures b.lo[k] <= b.Value(l, k) {
      assert b.lo[k] <= b.Value(f, k) <= b.hi[k];
      if j < k {
        assert Dominates(b, l.slope, j, k);
        Rise(l, b.End(), b.t[j], b.t[k]);
      } else {
        WasBelow(f, l, b.End(), b.t[k], b.t[j]);
      }
    }
  }
}
