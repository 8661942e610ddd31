/** What the five passes of the phase-lock loop decide (NTP/NTP.c): when the data are called
  consistent, what that means, and what the decision is worth.  These are statements about
  ClockDiscipline.Verdict, the function that PhaseLock.ContemplateData is proved to compute.
 */
module VerdictTheorems {
  import opened Envelope
  import opened Polygon
  import opened ClockDiscipline
  import opened Wrappers

  lemma PassIsAMarch(b: Bars, up: bool)
    requires b.Valid()
    ensures var tr := Pass(b, up);
            && tr.Within(|b.t|) && |tr.segs| == |tr.checks| >= 1
            && if up then March(b, tr.vs, tr.segs) && Checked(b, tr.vs, tr.checks)
               else b.Mirror().Valid() && March(b.Mirror(), tr.vs, NegateAll(tr.segs))
                    && Checked(b.Mirror(), tr.vs, NegateAll(tr.checks))
  {
    StartIsSound(b, up);
    FinishIsSound(b, START, up);
    MirrorIsValid(b);
  }

  /** Pass 2 ends at the newest measurement after at most n - 1 segments, whose slopes never
      decrease, and every upper bar end is on or above the line of each. */
  lemma UpperEnvelopeIsConvex(b: Bars)
    requires b.Valid()
    ensures var tr := Pass(b, true);
            && tr.Stop() == |b.t| - 1
            && |tr.segs| <= |b.t| - 1
            && (forall i, k :: 0 <= i <= k < |tr.segs| ==> tr.segs[i].slope <= tr.segs[k].slope)
            && (forall i :: 0 <= i < |tr.segs| ==> b.Under(tr.segs[i]))
  {
    PassIsAMarch(b, true);
    var tr := Pass(b, true);
    MarchIsShort(b, tr.vs, tr.segs);
    forall i, k | 0 <= i <= k < |tr.segs| ensures tr.segs[i].slope <= tr.segs[k].slope {
      SlopesNeverDecrease(b, tr.vs, tr.segs, i, k);
    }
    forall i | 0 <= i < |tr.segs| ensures b.Under(tr.segs[i]) {
      SegmentsLieUnder(b, tr.vs, tr.segs, i);
    }
  }

  /** Pass 3: the mirror image. */
  lemma LowerEnvelopeIsConcave(b: Bars)
    requires b.Valid()
    ensures var tr := Pass(b, false);
            && tr.Stop() == |b.t| - 1
            && |tr.segs| <= |b.t| - 1
            && (forall i, k :: 0 <= i <= k < |tr.segs| ==> tr.segs[k].slope <= tr.segs[i].slope)
            && (forall i :: 0 <= i < |tr.segs| ==> b.Over(tr.segs[i]))
  {
    PassIsAMarch(b, false);
    var tr := Pass(b, false);
    var m, segs := b.Mirror(), NegateAll(tr.segs);
    MarchIsShort(m, tr.vs, segs);
    forall i, k | 0 <= i <= k < |tr.segs| ensures tr.segs[k].slope <= tr.segs[i].slope {
      SlopesNeverDecrease(m, tr.vs, segs, i, k);
    }
    forall i | 0 <= i < |tr.segs| ensures b.Over(tr.segs[i]) {
      SegmentsLieUnder(m, tr.vs, segs, i);
      MirrorLine(b, tr.segs[i]);
    }
  }

  function SaveMin(b: Bars): Option<Line>
    requires b.Valid()
  {
    KeptBy(Pass(b, true), true)
  }

  function SaveMax(b: Bars): Option<Line>
    requires b.Valid()
  {
    KeptBy(Pass(b, false), false)
  }

  lemma SaveMinIsACross(b: Bars) returns (j: int, m: int, i: int)
    requires b.Valid() && SaveMin(b).Some?
    ensures MinCross(b, j, m, SaveMin(b).value)
    ensures 0 <= i < |Pass(b, true).segs| && SaveMin(b).value.slope < Pass(b, true).segs[i].slope
  {
    PassIsAMarch(b, true);
    var tr := Pass(b, true);
    KeptWasAccepted(FIRST_SLOPE, tr.segs, tr.checks, true);
    i :| 0 <= i < |tr.segs| && Accepted(FIRST_SLOPE, tr.segs, tr.checks, i) && tr.checks[i] == SaveMin(b).value;
    j := tr.vs[i];
    m := AcceptedIsMinCross(b, tr.vs, tr.segs, tr.checks, FIRST_SLOPE, i);
  }

  lemma SaveMaxInMirror(b: Bars) returns (i: int)
    requires b.Valid() && SaveMax(b).Some?
    ensures var tr := Pass(b, false);
            && |tr.segs| == |tr.checks| && 0 <= i < |tr.segs|
            && Accepted(FIRST_SLOPE, NegateAll(tr.segs), NegateAll(tr.checks), i)
            && tr.checks[i] == SaveMax(b).value
  {
    PassIsAMarch(b, false);
    var tr := Pass(b, false);
    i := AcceptedIndex(FIRST_SLOPE, NegateAll(tr.segs), NegateAll(tr.checks), false);
    NegateTwice(tr.checks[i]);
  }

  lemma NegateTwice(l: Line)
    ensures Negate(Negate(l)) == l
  {
  }

  lemma SaveMaxIsACross(b: Bars) returns (j: int, m: int, i: int)
    requires b.Valid() && SaveMax(b).Some?
    ensures MaxCross(b, j, m, SaveMax(b).value)
    ensures 0 <= i < |Pass(b, false).segs| && Pass(b, false).segs[i].slope < SaveMax(b).value.slope
  {
    PassIsAMarch(b, false);
    i := SaveMaxInMirror(b);
    var tr := Pass(b, false);
    j := tr.vs[i];
    m := AcceptedIsMinCross(b.Mirror(), tr.vs, NegateAll(tr.segs), NegateAll(tr.checks), FIRST_SLOPE, i);
    MirrorCross(b, j, m, SaveMax(b).value);
  }

  /** Pass 2 and pass 3 both keep a line. */
  ghost predicate CalledConsistent(b: Bars)
    requires b.Valid()
  {
    SaveMin(b).Some? && SaveMax(b).Some?
  }

  ghost function FoundIn(b: Bars): Found
    requires b.Valid() && CalledConsistent(b)
  {
    Found(Pass(b, true).vs, Pass(b, true).segs, Pass(b, false).vs, Pass(b, false).segs,
          SaveMin(b).value, SaveMax(b).value)
  }

  lemma FoundIsConsistent(b: Bars)
    requires b.Valid() && CalledConsistent(b) && b.Upright()
    ensures Consistent(b, FoundIn(b))
    ensures UpperReaches(Pass(b, true).segs, SaveMin(b).value.slope, SaveMax(b).value.slope)
    ensures LowerReaches(Pass(b, false).segs, SaveMax(b).value.slope, SaveMin(b).value.slope)
  {
    PassIsAMarch(b, true);
    PassIsAMarch(b, false);
    var j, m, i := SaveMinIsACross(b);
    var k, n, p := SaveMaxIsACross(b);
    KeptLinesFit(b, FoundIn(b));
    ReachesIfSteeper(Pass(b, true).segs, SaveMin(b).value.slope, SaveMax(b).value.slope, i);
    ReachesIfShallower(Pass(b, false).segs, SaveMax(b).value.slope, SaveMin(b).value.slope, p);
  }

  /** The central property of the loop.  When the data are called consistent and no bar is upside
      down, both kept lines pass through every bar, and they are the shallowest and the steepest
      of all the lines that do. */
  lemma KeptLinesAreTheExtremes(b: Bars)
    requires b.Valid() && CalledConsistent(b) && b.Upright()
    ensures b.Fits(SaveMin(b).value) && b.Fits(SaveMax(b).value)
    ensures forall f :: b.Fits(f) ==> SaveMin(b).value.slope <= f.slope <= SaveMax(b).value.slope
  {
    FoundIsConsistent(b);
    KeptLinesFit(b, FoundIn(b));
  }

  /** Called consistent, the data are consistent if and only if no bar is upside down. */
  lemma VerdictSoundIffUpright(b: Bars)
    requires b.Valid() && CalledConsistent(b)
    ensures (exists f :: b.Fits(f)) <==> b.Upright()
  {
    var j, m, i := SaveMinIsACross(b);
    var k, n, p := SaveMaxIsACross(b);
    VerdictIsSoundIffUpright(b, j, m, SaveMin(b).value, k, n, SaveMax(b).value);
  }

  /** What the caller can check: the bars are upright exactly if no error bar was negative when it was
      stored, that is, if no measured error was below the minimal delay taken off it. */
  lemma UprightIffErrorbars(data: seq<Datum>, clock: seq<int>, freq: int)
    requires 2 <= |data| == |clock| && Ticking(clock)
    ensures BarsOf(Corrected(data, clock, freq), clock).Valid()
    ensures BarsOf(Corrected(data, clock, freq), clock).Upright()
            <==> forall k :: 0 <= k < |data| ==> 0.0 <= data[k].errorbar
  {
    BarsAreValid(Corrected(data, clock, freq), clock);
    var b := BarsOf(Corrected(data, clock, freq), clock);
    forall k | 0 <= k < |data| ensures b.lo[k] <= b.hi[k] <==> 0.0 <= data[k].errorbar {
    }
    if b.Upright() {
      forall k | 0 <= k < |data| ensures 0.0 <= data[k].errorbar {
        assert b.lo[k] <= b.hi[k];
      }
    }
  }

  lemma DecideClamps(shifts: Shifts, min: Line, max: Line, freq: int)
    ensures Decide(shifts, min, max, freq).Some? <==> FindDfCenter(min, max, FindDf(shifts)).Some?
    ensures Decide(shifts, min, max, freq).Some? ==> -MAX_C <= Decide(shifts, min, max, freq).value <= MAX_C
  {
  }

  /** A run that decides, decides a legal frequency, and pass 4 never finds the inconsistencies it
      looks for. */
  lemma DecisionIsLegal(b: Bars, freq: int)
    requires b.Valid() && b.Upright()
    ensures Verdict(b, freq).Some?
    ensures CalledConsistent(b) ==>
              && Verdict(b, freq) == Decide(Least(FoundIn(b)), SaveMin(b).value, SaveMax(b).value, freq)
              && -MAX_C <= Verdict(b, freq).value <= MAX_C
    ensures !CalledConsistent(b) ==> Verdict(b, freq) == Some(freq)
  {
    if CalledConsistent(b) {
      ConsistentDecision(b, freq);
    }
  }

  lemma ConsistentDecision(b: Bars, freq: int)
    requires b.Valid() && b.Upright() && CalledConsistent(b)
    ensures var decision := Decide(Least(FoundIn(b)), SaveMin(b).value, SaveMax(b).value, freq);
            && Verdict(b, freq) == decision
            && decision.Some? && -MAX_C <= decision.value <= MAX_C
  {
    FoundIsConsistent(b);
    var w := FoundIn(b);
    FineCorrectionIsDamped(b, w, FindDf(Least(w)));
    DecideClamps(Least(w), w.saveMin, w.saveMax, freq);
  }

  /** If no line passes through all the bars, the frequency is left alone. */
  lemma InconsistentDataLeaveFrequency(b: Bars, freq: int)
    requires b.Valid() && b.Upright() && !exists f :: b.Fits(f)
    ensures Verdict(b, freq) == Some(freq)
  {
    if CalledConsistent(b) {
      KeptLinesAreTheExtremes(b);
    }
    DecisionIsLegal(b, freq);
  }

  /** `l` touches lower end j and no other. */
  ghost predicate TouchesOnlyBelow(b: Bars, l: Line, j: int)
    requires b.Valid()
  {
    && 0 <= j < |b.t|
    && b.Value(l, j) == b.lo[j]
    && forall k :: 0 <= k < |b.t| && k != j ==> b.lo[k] < b.Value(l, k)
  }

  lemma TouchInMirror(b: Bars, l: Line, j: int)
    requires b.Valid() && b.Mirror().Valid()
    ensures TouchesOnly(b.Mirror(), Negate(l), j) <==> TouchesOnlyBelow(b, l, j)
  {
    var m := b.Mirror();
    forall k | 0 <= k < |b.t| ensures m.Value(Negate(l), k) == -b.Value(l, k) && m.hi[k] == -b.lo[k] {
      assert (-l.slope) * (b.End() - b.t[k]) == -(l.slope * (b.End() - b.t[k]));
    }
  }

  /** The shallowest consistent line passes pass 2's test: it touches a single upper end and, if that
      is the oldest bar's, rises faster than -500 ppm. */
  ghost predicate SoleUpperTouch(b: Bars, l: Line)
    requires b.Valid()
  {
    (exists n :: TouchesOnly(b, l, n)) && (TouchesOnly(b, l, 0) ==> -500.0 < l.slope)
  }

  /** The steepest consistent line passes pass 3's test: it touches a single lower end and, if that is
      the oldest bar's, rises slower than 500 ppm. */
  ghost predicate SoleLowerTouch(b: Bars, h: Line)
    requires b.Valid()
  {
    (exists n :: TouchesOnlyBelow(b, h, n)) && (TouchesOnlyBelow(b, h, 0) ==> h.slope < 500.0)
  }

  /** The converse for pass 2: among the lines that fit there is a shallowest one, and pass 2 keeps a
      line, which is then that one, if and only if it passes the test. */
  lemma AcceptsIffSoleTouch(b: Bars, f: Line) returns (l: Line)
    requires b.Valid() && b.Fits(f)
    ensures b.Fits(l) && forall g :: b.Fits(g) ==> l.slope <= g.slope
    ensures SaveMin(b).Some? <==> SoleUpperTouch(b, l)
    ensures SaveMin(b).Some? ==> SaveMin(b).value == l
  {
    var j, m;
    l, j, m := ShallowestFit(b, f);
    forall g | b.Fits(g) ensures l.slope <= g.slope {
      CrossingBoundsFits(b, j, m, l, g);
    }
    PassIsAMarch(b, true);
    var tr := Pass(b, true);
    KeepsIffSoleTouch(b, tr.vs, tr.segs, tr.checks, FIRST_SLOPE, true, l, j, m);
    if SaveMin(b).Some? {
      var i, n, p := SaveMinIsACross(b);
      MinCrossFits(b, i, n, SaveMin(b).value, l);
      CrossingBoundsFits(b, i, n, SaveMin(b).value, l);
      LeastFitIsUnique(b, j, m, l, SaveMin(b).value);
    }
  }

  /** The same for pass 3 and the steepest line. */
  lemma AcceptsIffSoleLowerTouch(b: Bars, f: Line) returns (h: Line)
    requires b.Valid() && b.Fits(f)
    ensures b.Fits(h) && forall g :: b.Fits(g) ==> g.slope <= h.slope
    ensures SaveMax(b).Some? <==> SoleLowerTouch(b, h)
    ensures SaveMax(b).Some? ==> SaveMax(b).value == h
  {
    MirrorIsValid(b);
    MirrorLine(b, f);
    var m := b.Mirror();
    var l, j, n := ShallowestFit(m, Negate(f));
    h := Negate(l);
    NegateTwice(l);
    MirrorLine(b, h);
    forall g | b.Fits(g) ensures g.slope <= h.slope {
      MirrorLine(b, g);
      CrossingBoundsFits(m, j, n, l, Negate(g));
    }
    PassIsAMarch(b, false);
    var tr := Pass(b, false);
    KeepsIffSoleTouch(m, tr.vs, NegateAll(tr.segs), NegateAll(tr.checks), FIRST_SLOPE, false, l, j, n);
    forall k ensures TouchesOnly(m, l, k) <==> TouchesOnlyBelow(b, h, k) {
      TouchInMirror(b, h, k);
    }
    if SaveMax(b).Some? {
      SaveMaxIsSteepest(b, h, l, j, n);
    }
  }

  lemma SaveMaxIsSteepest(b: Bars, h: Line, l: Line, j: int, n: int)
    requires b.Valid() && b.Mirror().Valid() && SaveMax(b).Some?
    requires b.Mirror().Fits(l) && MinCross(b.Mirror(), j, n, l) && l == Negate(h)
    ensures SaveMax(b).value == h
  {
    var i, p, q := SaveMaxIsACross(b);
    var c := Negate(SaveMax(b).value);
    MirrorCross(b, i, p, SaveMax(b).value);
    MinCrossFits(b.Mirror(), i, p, c, l);
    CrossingBoundsFits(b.Mirror(), i, p, c, l);
    LeastFitIsUnique(b.Mirror(), j, n, l, c);
    NegateTwice(SaveMax(b).value);
    NegateTwice(h);
  }

  /** When the whole verdict is right about consistent data.  There are a shallowest and a steepest
      line; the data are called consistent, and these are then the kept lines, if and only if both
      pass the test; otherwise the frequency is left alone. */
  lemma CalledConsistentIffSoleTouches(b: Bars, f: Line, freq: int) returns (l: Line, h: Line)
    requires b.Valid() && b.Fits(f)
    ensures b.Fits(l) && b.Fits(h) && forall g :: b.Fits(g) ==> l.slope <= g.slope <= h.slope
    ensures CalledConsistent(b) <==> SoleUpperTouch(b, l) && SoleLowerTouch(b, h)
    ensures CalledConsistent(b) ==> SaveMin(b) == Some(l) && SaveMax(b) == Some(h)
    ensures b.Upright()
    ensures SoleUpperTouch(b, l) && SoleLowerTouch(b, h) ==>
              CalledConsistent(b) && Verdict(b, freq) == Decide(Least(FoundIn(b)), l, h, freq)
    ensures !(SoleUpperTouch(b, l) && SoleLowerTouch(b, h)) ==> Verdict(b, freq) == Some(freq)
  {
    l := AcceptsIffSoleTouch(b, f);
    h := AcceptsIffSoleLowerTouch(b, f);
    forall k | 0 <= k < |b.t| ensures b.lo[k] <= b.hi[k] {
      assert b.lo[k] <= b.Value(f, k) <= b.hi[k];
    }
    DecisionIsLegal(b, freq);
  }

  /** A clock that drifts at a constant rate, measured within the error bars, has the slope of its
      drift between the two kept slopes, whatever corrections were made meanwhile. */
  lemma TrueDriftIsBracketed(data: seq<Datum>, clock: seq<int>, freq: int, drift: real, truth: seq<real>)
    requires 2 <= |data| == |clock| == |truth| && Ticking(clock)
    requires forall k :: 0 <= k < |data| - 1 ==> DriftsAt(data, clock, drift, truth, k)
    requires forall k :: 0 <= k < |data| ==> Within(data[k], truth[k])
    ensures var b := BarsOf(Corrected(data, clock, freq), clock);
            var slope := drift - freq as real / 65536.0;
            && b.Valid()
            && (SaveMin(b).Some? ==> SaveMin(b).value.slope <= slope)
            && (SaveMax(b).Some? ==> slope <= SaveMax(b).value.slope)
  {
    CorrectionStraightens(data, clock, freq, drift, truth);
    var b := BarsOf(Corrected(data, clock, freq), clock);
    var f := Line(drift - freq as real / 65536.0, truth[|truth| - 1]);
    if SaveMin(b).Some? {
      var j, m, i := SaveMinIsACross(b);
      CrossingBoundsFits(b, j, m, SaveMin(b).value, f);
    }
    if SaveMax(b).Some? {
      var j, m, i := SaveMaxIsACross(b);
      MirrorCross(b, j, m, SaveMax(b).value);
      MirrorLine(b, f);
      CrossingBoundsFits(b.Mirror(), j, m, Negate(SaveMax(b).value), Negate(f));
    }
  }

  // ---------- the two ways the verdict can be wrong ----------

  lemma KeepsSoleTouch(b: Bars, f: Line, j: int, m: int, shallower: bool,
                       vs: seq<int>, segs: seq<Line>, checks: seq<Line>)
    requires b.Valid() && March(b, vs, segs) && Checked(b, vs, checks) && |segs| == |checks|
    requires MinCross(b, j, m, f) && TouchesOnly(b, f, j) && j > 0
    ensures Kept(FIRST_SLOPE, segs, checks, shallower).Some?
  {
    SoleTouchIsAStop(b, vs, segs, f, j, 0);
    var i :| 0 <= i <= |segs| && vs[i] == j;
    SoleTouchIsAccepted(b, vs, segs, checks, FIRST_SLOPE, f, m, i);
    KeptWasAccepted(FIRST_SLOPE, segs, checks, shallower);
  }

  lemma SymmetricSoleTouch(b: Bars, f: Line, j: int, m: int)
    requires b.Valid() && b.Mirror() == b && MinCross(b, j, m, f) && TouchesOnly(b, f, j) && j > 0
    ensures CalledConsistent(b)
  {
    PassIsAMarch(b, true);
    PassIsAMarch(b, false);
    var up, down := Pass(b, true), Pass(b, false);
    KeepsSoleTouch(b, f, j, m, true, up.vs, up.segs, up.checks);
    KeepsSoleTouch(b, f, j, m, false, down.vs, NegateAll(down.segs), NegateAll(down.checks));
  }

  lemma DoubleTouchIsRejected(b: Bars, f: Line, j: int, m: int, k: int)
    requires b.Valid() && b.Fits(f) && MinCross(b, j, m, f)
    requires 0 <= k < |b.t| && k != j && b.Value(f, k) == b.hi[k]
    ensures SaveMin(b) == None
  {
    PassIsAMarch(b, true);
    var tr := Pass(b, true);
    KeepsIffSoleTouch(b, tr.vs, tr.segs, tr.checks, FIRST_SLOPE, true, f, j, m);
  }

  /** Sixteen bars around zero; the ninth is the narrowest, and reaches from -v to v. */
  function Narrow(v: real): (b: Bars)
    ensures b.Valid() && |b.t| == RING_SIZE
    ensures forall k :: 0 <= k < RING_SIZE ==>
              && b.t[k] == k as real && b.lo[k] == -b.hi[k]
              && b.hi[k] == if k < 8 then 1000.0 else if k == 8 then v else 100.0
  {
    var hi := seq(RING_SIZE, k => if k < 8 then 1000.0 else if k == 8 then v else 100.0);
    Bars(seq(RING_SIZE, k requires 0 <= k < RING_SIZE => k as real),
         seq(RING_SIZE, k requires 0 <= k < RING_SIZE => -hi[k]), hi)
  }

  /** Upright, such data are called consistent, as they are. */
  lemma NarrowIsCalledConsistent()
    ensures CalledConsistent(Narrow(1.0)) && Narrow(1.0).Upright()
  {
    var b := Narrow(1.0);
    var f := Line(-101.0 / 7.0, -100.0);
    forall k | 0 <= k < RING_SIZE ensures b.Value(f, k) == -100.0 + 101.0 * (15 - k) as real / 7.0 {
    }
    assert MinCross(b, 8, 15, f) && TouchesOnly(b, f, 8);
    assert b.Mirror() == b;
    SymmetricSoleTouch(b, f, 8, 15);
  }

  /** The ninth upside down. */
  function UpsideDown(): (b: Bars)
    ensures b.Valid() && |b.t| == RING_SIZE
  {
    Narrow(-1.0)
  }

  /** Such data are called consistent too, although no line passes through the bars. */
  lemma UpsideDownIsCalledConsistent()
    ensures CalledConsistent(UpsideDown())
    ensures forall f :: !UpsideDown().Fits(f)
  {
    var b := UpsideDown();
    var f := Line(-99.0 / 7.0, -100.0);
    forall k | 0 <= k < RING_SIZE ensures b.Value(f, k) == -100.0 + 99.0 * (15 - k) as real / 7.0 {
    }
    assert MinCross(b, 8, 15, f) && TouchesOnly(b, f, 8);
    assert b.Mirror() == b;
    SymmetricSoleTouch(b, f, 8, 15);
    NothingFitsUpsideDown();
  }

  lemma NothingFitsUpsideDown()
    ensures forall f :: !UpsideDown().Fits(f)
  {
    var b := UpsideDown();
    forall f ensures !b.Fits(f) {
      assert !(b.lo[8] <= b.Value(f, 8) <= b.hi[8]);
    }
  }

  /** Sixteen bars whose shallowest line, the time axis, touches the first two upper ends. */
  function Tied(): (b: Bars)
    ensures b.Valid() && |b.t| == RING_SIZE
    ensures forall k :: 0 <= k < RING_SIZE ==>
              && b.t[k] == k as real
              && b.lo[k] == (if k == 15 then 0.0 else -100.0) && b.hi[k] == if k < 2 then 0.0 else 100.0
  {
    Bars(seq(RING_SIZE, k requires 0 <= k < RING_SIZE => k as real),
         seq(RING_SIZE, k => if k == 15 then 0.0 else -100.0),
         seq(RING_SIZE, k => if k < 2 then 0.0 else 100.0))
  }

  /** Such data are called inconsistent although a line passes through the bars. */
  lemma TieIsCalledInconsistent(freq: int)
    ensures Tied().Fits(Line(0.0, 0.0)) && SaveMin(Tied()) == None
    ensures Verdict(Tied(), freq) == Some(freq)
  {
    var b := Tied();
    var axis := Line(0.0, 0.0);
    assert MinCross(b, 0, 15, axis);
    DoubleTouchIsRejected(b, axis, 0, 15, 1);
  }

  lemma LowerDoubleTouchIsRejected(b: Bars, f: Line, j: int, m: int, k: int)
    requires b.Valid() && b.Mirror().Valid() && b.Mirror().Fits(f) && MinCross(b.Mirror(), j, m, f)
    requires 0 <= k < |b.t| && k != j && b.Mirror().Value(f, k) == b.Mirror().hi[k]
    ensures SaveMax(b) == None
  {
    PassIsAMarch(b, false);
    var tr := Pass(b, false);
    KeepsIffSoleTouch(b.Mirror(), tr.vs, NegateAll(tr.segs), NegateAll(tr.checks), FIRST_SLOPE, false, f, j, m);
  }

  /** Those bars seen in the mirror, where it is pass 3 that rejects: the steepest line, the axis again,
      touches two lower ends. */
  function TiedBelow(): (b: Bars)
    ensures b.Valid() && b.Mirror() == Tied()
  {
    MirrorIsValid(Tied());
    var b := Tied().Mirror();
    assert b.Mirror().lo == Tied().lo && b.Mirror().hi == Tied().hi;
    b
  }

  lemma AxisFitsTied(axis: Line)
    requires axis == Line(0.0, 0.0)
    ensures Tied().Fits(axis) && MinCross(Tied(), 0, 15, axis) && Tied().Value(axis, 1) == Tied().hi[1]
    ensures Negate(axis) == axis
  {
  }

  lemma MirroredTieIsRejected(b: Bars, tied: Bars, axis: Line)
    requires b.Valid() && tied.Valid() && b.Mirror() == tied && |b.t| == RING_SIZE && Negate(axis) == axis
    requires tied.Fits(axis) && MinCross(tied, 0, 15, axis) && tied.Value(axis, 1) == tied.hi[1]
    ensures b.Fits(axis) && SaveMax(b) == None
  {
    MirrorLine(b, axis);
    LowerDoubleTouchIsRejected(b, axis, 0, 15, 1);
  }

  lemma LowerTieIsCalledInconsistent(freq: int)
    ensures TiedBelow().Fits(Line(0.0, 0.0)) && SaveMax(TiedBelow()) == None
    ensures Verdict(TiedBelow(), freq) == Some(freq)
  {
    AxisFitsTied(Line(0.0, 0.0));
    MirroredTieIsRejected(TiedBelow(), Tied(), Line(0.0, 0.0));
  }
}
