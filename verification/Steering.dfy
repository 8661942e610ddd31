/** What the decision of the phase-lock loop does to the clock (passes 4 and 5 of NTP/NTP.c).

  A line that passes through all the bars says where the clock may be going: it will be off by Ahead(l, s)
  microseconds s seconds from now.  Lowering the frequency by 65536 steepens every such line by one.
  The theorems say by how much the decision tilts them, and never speak of how it is computed: not at all
  on the side where some line is good already, else by the least tilt that makes one good, and then by a
  damped step of the centre towards crossing zero in 600 to 1800 seconds.
 */
module Steering {
  import opened Envelope
  import opened Polygon
  import opened ClockDiscipline
  import opened VerdictTheorems
  import opened Wrappers

  /** The value of l so many seconds after the newest measurement. */
  function Ahead(l: Line, seconds: real): real {
    l.offset + l.slope * seconds
  }

  function Tilted(l: Line, d: real): Line {
    Line(l.slope + d, l.offset)
  }

  /** Not behind in ten minutes, or 1.8 ms ahead in a hundred. */
  predicate FastEnough(l: Line) {
    0.0 <= Ahead(l, 600.0) || 1800.0 <= Ahead(l, 6000.0)
  }

  /** Not ahead in ten minutes, or 1.8 ms behind in a hundred. */
  predicate SlowEnough(l: Line) {
    Ahead(l, 600.0) <= 0.0 || Ahead(l, 6000.0) <= -1800.0
  }

  /** The shifts of pass 4 are the least tilts that make a line fast enough, or slow enough. */
  lemma ShiftsAreLeastTilts(l: Line, d: real)
    requires 0.0 <= d
    ensures Left(l) <= d <==> FastEnough(Tilted(l, d))
    ensures Right(l) <= d <==> SlowEnough(Tilted(l, -d))
  {
    assert (-l.offset) / 600.0 == -(l.offset / 600.0);
    assert (-l.offset) / 6000.0 == -(l.offset / 6000.0);
    assert l.offset / 600.0 * 600.0 == l.offset && l.offset / 6000.0 * 6000.0 == l.offset;
  }

  // ---------- the gross correction ----------

  ghost predicate AllSlow(b: Bars)
    requires b.Valid()
  {
    forall f :: b.Fits(f) ==> !FastEnough(f)
  }

  ghost predicate AllFast(b: Bars)
    requires b.Valid()
  {
    forall f :: b.Fits(f) ==> !SlowEnough(f)
  }

  /** g is the least tilt that makes some consistent line fast enough, or 20 if that takes more. */
  ghost predicate LeastRaise(b: Bars, g: real)
    requires b.Valid()
  {
    && 0.0 < g <= 20.0
    && (forall f, d :: b.Fits(f) && 0.0 <= d < g ==> !FastEnough(Tilted(f, d)))
    && (g == 20.0 || exists f :: b.Fits(f) && FastEnough(Tilted(f, g)))
  }

  ghost predicate LeastDrop(b: Bars, g: real)
    requires b.Valid()
  {
    && -20.0 <= g < 0.0
    && (forall f, d :: b.Fits(f) && g < d <= 0.0 ==> !SlowEnough(Tilted(f, d)))
    && (g == -20.0 || exists f :: b.Fits(f) && SlowEnough(Tilted(f, g)))
  }

  /** The tilt that is called for: none unless all consistent lines are on the same wrong side. */
  ghost predicate GrossTilt(b: Bars, g: real)
    requires b.Valid()
  {
    && (AllSlow(b) ==> LeastRaise(b, g))
    && (AllFast(b) ==> LeastDrop(b, g))
    && (!AllSlow(b) && !AllFast(b) ==> g == 0.0)
  }

  /** Every line is fast enough or slow enough: the two recorded shifts are never both positive, and
      the case in which the source gives up on both sides does not arise. */
  lemma NoLineIsNeither(l: Line)
    ensures FastEnough(l) || SlowEnough(l)
    ensures Left(l) == 0.0 || Right(l) == 0.0
  {
    UntiltedShifts(l);
  }

  lemma UntiltedShifts(l: Line)
    ensures Left(l) == 0.0 <==> FastEnough(l)
    ensures Right(l) == 0.0 <==> SlowEnough(l)
  {
    ShiftsAreLeastTilts(l, 0.0);
    assert Tilted(l, 0.0) == l && Tilted(l, -0.0) == l;
  }

  lemma LeftIsLeastRaise(b: Bars, w: Found)
    requires b.Valid() && Consistent(b, w)
    ensures AllSlow(b) <==> Least(w).left > 0.0
    ensures Least(w).left > 0.0 ==> LeastRaise(b, Least(w).left)
  {
    PolygonIsExact(b, w);
    var g := Least(w).left;
    forall f | b.Fits(f) ensures g > 0.0 ==> !FastEnough(f) {
      UntiltedShifts(f);
    }
    if g != MIN_INIT {
      var f :| b.Fits(f) && Left(f) == g;
      UntiltedShifts(f);
      if g > 0.0 {
        ShiftsAreLeastTilts(f, g);
      }
    }
    forall f, d | b.Fits(f) && 0.0 <= d < g ensures !FastEnough(Tilted(f, d)) {
      ShiftsAreLeastTilts(f, d);
    }
  }

  lemma RightIsLeastDrop(b: Bars, w: Found)
    requires b.Valid() && Consistent(b, w)
    ensures AllFast(b) <==> Least(w).right > 0.0
    ensures Least(w).right > 0.0 ==> LeastDrop(b, -Least(w).right)
  {
    PolygonIsExact(b, w);
    var g := Least(w).right;
    forall f | b.Fits(f) ensures g > 0.0 ==> !SlowEnough(f) {
      UntiltedShifts(f);
    }
    if g != MIN_INIT {
      var f :| b.Fits(f) && Right(f) == g;
      UntiltedShifts(f);
      if g > 0.0 {
        ShiftsAreLeastTilts(f, g);
      }
    }
    forall f, d | b.Fits(f) && -g < d <= 0.0 ensures !SlowEnough(Tilted(f, d)) {
      ShiftsAreLeastTilts(f, -d);
    }
  }

  lemma NotBothSides(b: Bars, w: Found)
    requires b.Valid() && Consistent(b, w)
    ensures !(AllSlow(b) && AllFast(b))
    ensures Least(w).left >= 0.0 && Least(w).right >= 0.0
  {
    KeptLinesFit(b, w);
    NoLineIsNeither(w.saveMin);
    PolygonIsExact(b, w);
    var f := w.saveMin;
    NonNegative(b, w);
  }

  lemma NonNegative(b: Bars, w: Found)
    requires b.Valid() && Consistent(b, w)
    ensures Least(w).left >= 0.0 && Least(w).right >= 0.0
  {
    PointsAreLeast(Shifts(MIN_INIT, MIN_INIT), Corners(w.maxseg, w.minseg, w.saveMin, w.saveMax));
  }

  lemma FindDfIsGrossTilt(b: Bars, w: Found)
    requires b.Valid() && Consistent(b, w)
    ensures GrossTilt(b, FindDf(Least(w)))
  {
    LeftIsLeastRaise(b, w);
    RightIsLeastDrop(b, w);
    NotBothSides(b, w);
  }

  // ---------- the fine correction ----------

  function Centre(l: Line, h: Line): Line {
    Line((l.slope + h.slope) / 2.0, (l.offset + h.offset) / 2.0)
  }

  /** The line should cross zero between 600 and 1800 seconds ahead.  The tilt draws one that crosses too
      soon to 600, and one that crosses too late, or never, to 1800, and leaves the others as they are. */
  predicate Draws(now: Line, tilt: real) {
    var after := Tilted(now, tilt);
    if now.offset < 0.0 then
      if 0.0 < Ahead(now, 600.0) then Ahead(after, 600.0) == 0.0
      else if Ahead(now, 1800.0) < 0.0 then Ahead(after, 1800.0) == 0.0
      else tilt == 0.0
    else
      if Ahead(now, 600.0) < 0.0 then Ahead(after, 600.0) == 0.0
      else if 0.0 < Ahead(now, 1800.0) then Ahead(after, 1800.0) == 0.0
      else tilt == 0.0
  }

  /** How much steps are damped: 1 + (dt + 1200 ds) / 1000, dt and ds being how far the two lines are apart in
      offset and slope. */
  function Damping(l: Line, h: Line): real {
    1.0 + (h.offset - l.offset + 1200.0 * (h.slope - l.slope)) / 1000.0
  }

  /** What a tilt was before it was damped. */
  function Undamped(l: Line, h: Line, tilt: real): real {
    tilt * Damping(l, h)
  }

  /** A damped step of the centre, or none while the consistent lines are all more than a millisecond
      off on the same side. */
  predicate FineTilt(l: Line, h: Line, gross: real, fine: real) {
    if h.offset < -1000.0 || 1000.0 < l.offset then fine == 0.0
    else Draws(Tilted(Centre(l, h), gross), Undamped(l, h, fine))
  }

  lemma CenterStepDraws(l: Line, h: Line, gross: real)
    ensures Draws(Tilted(Centre(l, h), gross), CenterStep(l, h, gross))
  {
    var offset := 0.5 * (h.offset + l.offset);
    assert Centre(l, h).offset == offset && Centre(l, h).slope == 0.5 * (h.slope + l.slope);
    assert -offset / 600.0 * 600.0 == -offset && -offset / 1800.0 * 1800.0 == -offset;
  }

  lemma Undamp(l: Line, h: Line, step: real)
    requires Divisor(l, h) != 0.0
    ensures Undamped(l, h, Damp(Divisor(l, h), step)) == step
  {
    var divisor := Divisor(l, h);
    assert Damping(l, h) == divisor / 1000.0;
    Cancel(divisor, step);
  }

  lemma Cancel(divisor: real, step: real)
    requires divisor != 0.0
    ensures Damp(divisor, step) * (divisor / 1000.0) == step
  {
    var factor := 1000.0 / divisor;
    assert factor * divisor == 1000.0;
    assert factor * step * divisor == step * (factor * divisor);
  }

  lemma FineIsFineTilt(l: Line, h: Line, gross: real)
    requires l.slope <= h.slope && l.offset <= h.offset
    ensures FindDfCenter(l, h, gross).Some?
    ensures FineTilt(l, h, gross, FindDfCenter(l, h, gross).value)
  {
    OrderedIsDamped(l, h, gross);
    CenterStepDraws(l, h, gross);
    Undamp(l, h, CenterStep(l, h, gross));
  }

  // ---------- the decision ----------

  /** k is x rounded as C converts x + 0.5: towards zero. */
  predicate Rounds(x: real, k: int) {
    if 0.0 <= x + 0.5 then k as real <= x + 0.5 < k as real + 1.0
    else k as real - 1.0 < x + 0.5 <= k as real
  }

  lemma TruncateRounds(x: real)
    ensures Rounds(x, Truncate(x + 0.5))
  {
  }

  function Between(low: int, f: int, high: int): int
    requires low <= high
  {
    if f < low then low else if high < f then high else f
  }

  lemma DecideRounds(shifts: Shifts, l: Line, h: Line, freq: int) returns (k: int)
    requires FindDfCenter(l, h, FindDf(shifts)).Some?
    ensures Rounds((FindDf(shifts) + FindDfCenter(l, h, FindDf(shifts)).value) * 65536.0, k)
    ensures Decide(shifts, l, h, freq) == Some(Between(-250 * 65536, freq - k, 250 * 65536))
  {
    var x := (FindDf(shifts) + FindDfCenter(l, h, FindDf(shifts)).value) * 65536.0;
    k := Truncate(x + 0.5);
    TruncateRounds(x);
  }

  /** The whole decision on data that are called consistent: the frequency falls by 65536 times the
      gross and the fine tilt, rounded, within 250 ppm. */
  lemma DecisionTilts(b: Bars, freq: int) returns (gross: real, fine: real, k: int)
    requires b.Valid() && b.Upright() && CalledConsistent(b)
    ensures GrossTilt(b, gross)
    ensures FineTilt(SaveMin(b).value, SaveMax(b).value, gross, fine)
    ensures Rounds((gross + fine) * 65536.0, k)
    ensures Verdict(b, freq) == Some(Between(-250 * 65536, freq - k, 250 * 65536))
  {
    var w := FoundIn(b);
    gross, fine := Corrections(b, w);
    ConsistentDecision(b, freq);
    k := DecideRounds(Least(w), w.saveMin, w.saveMax, freq);
  }

  lemma Corrections(b: Bars, w: Found) returns (gross: real, fine: real)
    requires b.Valid() && b.Upright() && CalledConsistent(b) && w == FoundIn(b)
    ensures gross == FindDf(Least(w)) && FindDfCenter(w.saveMin, w.saveMax, gross) == Some(fine)
    ensures GrossTilt(b, gross) && FineTilt(w.saveMin, w.saveMax, gross, fine)
  {
    FoundIsConsistent(b);
    KeptLinesFit(b, w);
    FindDfIsGrossTilt(b, w);
    gross := FindDf(Least(w));
    FineIsFineTilt(w.saveMin, w.saveMax, gross);
    fine := FindDfCenter(w.saveMin, w.saveMax, gross).value;
  }

  // ---------- what it is worth ----------

  lemma CentreFits(b: Bars, l: Line, h: Line)
    requires b.Valid() && b.Fits(l) && b.Fits(h)
    ensures b.Fits(Centre(l, h))
  {
    var c := Centre(l, h);
    forall k | 0 <= k < |b.t| ensures b.lo[k] <= b.Value(c, k) <= b.hi[k] {
      HalfWay(l, h, b.End(), b.t[k]);
      assert b.lo[k] <= b.Value(l, k) <= b.hi[k] && b.lo[k] <= b.Value(h, k) <= b.hi[k];
    }
  }

  lemma HalfWay(l: Line, h: Line, end: real, x: real)
    ensures At(Centre(l, h), end, x) == (At(l, end, x) + At(h, end, x)) / 2.0
  {
    var d := end - x;
    assert (l.slope + h.slope) / 2.0 * d == (l.slope * d + h.slope * d) / 2.0;
  }

  /** What no smaller tilt makes fast enough is not ahead after the tilt. */
  lemma RaisedIsNotAhead(l: Line, g: real)
    requires 0.0 < g && forall d :: 0.0 <= d < g ==> !FastEnough(Tilted(l, d))
    ensures Ahead(Tilted(l, g), 600.0) <= 0.0
  {
    var a := Ahead(Tilted(l, g), 600.0);
    if a > 0.0 {
      var d := if a / 600.0 < g then g - a / 600.0 else 0.0;
      assert a / 600.0 * 600.0 == a;
      assert FastEnough(Tilted(l, d));
    }
  }

  lemma DroppedIsNotBehind(l: Line, g: real)
    requires g < 0.0 && forall d :: g < d <= 0.0 ==> !SlowEnough(Tilted(l, d))
    ensures 0.0 <= Ahead(Tilted(l, g), 600.0)
  {
    var a := -Ahead(Tilted(l, g), 600.0);
    if a > 0.0 {
      var d := if a / 600.0 < -g then g + a / 600.0 else 0.0;
      assert a / 600.0 * 600.0 == a;
      assert SlowEnough(Tilted(l, d));
    }
  }

  /** The damped step has the sign of the whole one and is no longer. */
  lemma StepIsDamped(l: Line, h: Line, fine: real)
    requires l.slope <= h.slope && l.offset <= h.offset
    ensures 0.0 <= Undamped(l, h, fine) ==> 0.0 <= fine <= Undamped(l, h, fine)
    ensures Undamped(l, h, fine) <= 0.0 ==> Undamped(l, h, fine) <= fine <= 0.0
  {
    Grows(fine, Damping(l, h));
  }

  lemma Grows(x: real, d: real)
    requires 1.0 <= d
    ensures 0.0 <= x * d ==> 0.0 <= x <= x * d
    ensures x * d <= 0.0 ==> x * d <= x <= 0.0
  {
    if 0.0 < x {
      assert x <= x * d;
    } else {
      assert x * d <= x;
    }
  }

  lemma DrawnOnward(l: Line, h: Line, gross: real, fine: real)
    requires l.slope <= h.slope && l.offset <= h.offset && FineTilt(l, h, gross, fine)
    ensures var c := Centre(l, h);
            && (Ahead(Tilted(c, gross), 600.0) <= 0.0 ==>
                  0.0 <= fine && Ahead(Tilted(c, gross + fine), 600.0) <= 0.0)
            && (0.0 <= Ahead(Tilted(c, gross), 600.0) ==>
                  fine <= 0.0 && 0.0 <= Ahead(Tilted(c, gross + fine), 600.0))
  {
    StepIsDamped(l, h, fine);
  }

  /** If all consistent lines are too slow, the frequency falls by the least tilt that makes one of them fast
      enough, or more, and not so far that the centre would be ahead in ten minutes. */
  lemma SlowClockIsSpedUp(b: Bars, freq: int) returns (gross: real, fine: real)
    requires b.Valid() && b.Upright() && CalledConsistent(b) && AllSlow(b)
    ensures LeastRaise(b, gross) && 0.0 <= fine
    ensures Ahead(Tilted(Centre(SaveMin(b).value, SaveMax(b).value), gross + fine), 600.0) <= 0.0
    ensures Verdict(b, freq).Some?
    ensures var v := Verdict(b, freq).value as real;
            v == -16384000.0 || v <= freq as real - gross * 65536.0 + 0.5
    ensures var v := Verdict(b, freq).value as real;
            v == 16384000.0 || freq as real - (gross + fine) * 65536.0 - 0.5 <= v
  {
    var k;
    gross, fine, k := DecisionTilts(b, freq);
    var l, h := SaveMin(b).value, SaveMax(b).value;
    ExtremesAreOrdered(b);
    CentreFits(b, l, h);
    RaisedIsNotAhead(Centre(l, h), gross);
    DrawnOnward(l, h, gross, fine);
  }

  lemma ExtremesAreOrdered(b: Bars)
    requires b.Valid() && b.Upright() && CalledConsistent(b)
    ensures var l, h := SaveMin(b).value, SaveMax(b).value;
            b.Fits(l) && b.Fits(h) && l.slope <= h.slope && l.offset <= h.offset
  {
    FoundIsConsistent(b);
    KeptLinesFit(b, FoundIn(b));
  }

  /** The mirror image, where C's rounding towards zero may take a unit and a half off. */
  lemma FastClockIsSlowedDown(b: Bars, freq: int) returns (gross: real, fine: real)
    requires b.Valid() && b.Upright() && CalledConsistent(b) && AllFast(b)
    ensures LeastDrop(b, gross) && fine <= 0.0
    ensures 0.0 <= Ahead(Tilted(Centre(SaveMin(b).value, SaveMax(b).value), gross + fine), 600.0)
    ensures Verdict(b, freq).Some?
    ensures var v := Verdict(b, freq).value as real;
            v == 16384000.0 || freq as real - gross * 65536.0 - 1.5 <= v
    ensures var v := Verdict(b, freq).value as real;
            v == -16384000.0 || v <= freq as real - (gross + fine) * 65536.0 + 0.5
  {
    var k;
    gross, fine, k := DecisionTilts(b, freq);
    var l, h := SaveMin(b).value, SaveMax(b).value;
    ExtremesAreOrdered(b);
    CentreFits(b, l, h);
    DroppedIsNotBehind(Centre(l, h), gross);
    DrawnOnward(l, h, gross, fine);
  }

  /** The line crosses zero between 600 and 1800 seconds ahead. */
  predicate OnCourse(l: Line) {
    if l.offset < 0.0 then Ahead(l, 600.0) <= 0.0 <= Ahead(l, 1800.0)
    else Ahead(l, 1800.0) <= 0.0 <= Ahead(l, 600.0)
  }

  lemma NotDrawn(l: Line, h: Line, gross: real, fine: real, k: int)
    requires l.slope <= h.slope && l.offset <= h.offset && gross == 0.0
    requires FineTilt(l, h, gross, fine) && OnCourse(Centre(l, h)) && Rounds((gross + fine) * 65536.0, k)
    ensures k == 0
  {
    assert Tilted(Centre(l, h), gross) == Centre(l, h);
    StepIsDamped(l, h, fine);
    assert fine == 0.0;
  }

  /** The loop is locked, and keeps its frequency, when neither all consistent lines are too slow nor all
      too fast and the centre is on course. */
  lemma LockedClockIsLeftAlone(b: Bars, freq: int)
    requires b.Valid() && b.Upright() && CalledConsistent(b) && !AllSlow(b) && !AllFast(b)
    requires OnCourse(Centre(SaveMin(b).value, SaveMax(b).value))
    requires -250 * 65536 <= freq <= 250 * 65536
    ensures Verdict(b, freq) == Some(freq)
  {
    var gross, fine, k := DecisionTilts(b, freq);
    ExtremesAreOrdered(b);
    NotDrawn(SaveMin(b).value, SaveMax(b).value, gross, fine, k);
  }
}
