/** The phase-lock loop of NTP/NTP.c: a ring of sixteen time measurements, the five passes over it,
  and the frequency correction they decide on.

  The ring holds 32-bit seconds; `clock` is the ghost sequence of the same times without the wrap,
  oldest first, so that the differences the source takes modulo 2^32 can be shown to be true ones.
 */
module ClockDiscipline {
  import opened Envelope
  import opened Wrappers
  import opened Polygon

  const RING_SIZE := 16
  const MAX_CORRECT := 250
  const MAX_C := MAX_CORRECT * 65536
  const ERA: int := 0x1_0000_0000
  const FIRST_SLOPE: real := -500.0

  datatype Datum = Datum(absolute: int, skew: real, errorbar: real, freq: int, smin: real, smax: real)

  function NextUp(i: int): int {
    if i + 1 >= RING_SIZE then 0 else i + 1
  }

  function NextDn(i: int): int {
    if i - 1 < 0 then RING_SIZE - 1 else i - 1
  }

  /** Unsigned 32-bit subtraction. */
  function Elapsed(stop: int, start: int): int {
    (stop - start) % ERA
  }

  lemma ElapsedIsExact(stop: int, start: int)
    requires 0 <= stop - start < ERA
    ensures Elapsed(stop % ERA, start % ERA) == stop - start
  {
    var a, c := stop / ERA, start / ERA;
    assert stop % ERA - start % ERA == (stop - start) - (a - c) * ERA;
    var d := stop - start;
    if a == c {
    } else {
      assert a - c == 1 by {
        assert stop == a * ERA + stop % ERA && start == c * ERA + start % ERA;
      }
    }
  }

  /** The slot of the k-th oldest measurement when the newest is in slot rp. */
  function Slot(rp: int, k: int): int
    requires 0 <= rp < RING_SIZE && 0 <= k < RING_SIZE
  {
    if rp + 1 + k >= RING_SIZE then rp + 1 + k - RING_SIZE else rp + 1 + k
  }

  lemma SlotSteps(rp: int, k: int)
    requires 0 <= rp < RING_SIZE && 0 <= k < RING_SIZE
    ensures Slot(rp, RING_SIZE - 1) == rp
    ensures Slot(rp, 0) == NextUp(rp)
    ensures k + 1 < RING_SIZE ==> NextUp(Slot(rp, k)) == Slot(rp, k + 1)
    ensures 0 < k ==> NextDn(Slot(rp, k)) == Slot(rp, k - 1)
    ensures NextDn(Slot(rp, 0)) == rp
    ensures k == RING_SIZE - 1 ==> NextUp(Slot(rp, k)) == NextUp(rp)
    ensures 0 < k ==> Slot(rp, k) != NextUp(rp)
    ensures k < RING_SIZE - 1 ==> Slot(rp, k) != rp
  {
  }

  lemma SlotsDiffer(rp: int, k: int)
    requires 0 <= rp < RING_SIZE && 0 <= k < RING_SIZE
    ensures forall m :: 0 <= m < RING_SIZE && m != k ==> Slot(rp, m) != Slot(rp, k)
  {
  }

  ghost predicate Ticking(clock: seq<int>) {
    && (forall i, j :: 0 <= i < j < |clock| ==> clock[i] < clock[j])
    && (forall i, j :: 0 <= i < j < |clock| ==> clock[j] - clock[i] < ERA)
  }

  // ---------- pass 1 as a function ----------

  /** The sum of the frequency corrections made after the k-th measurement, relative to `freq`. */
  function Cum(data: seq<Datum>, clock: seq<int>, freq: int, k: int): real
    requires |data| == |clock| && 0 <= k < |data|
    decreases |data| - k
  {
    if k == |data| - 1 then 0.0
    else Cum(data, clock, freq, k + 1)
         + (clock[k + 1] - clock[k]) as real * (data[k + 1].freq - freq) as real / 65536.0
  }

  function CorrectedDatum(data: seq<Datum>, clock: seq<int>, freq: int, k: int): Datum
    requires |data| == |clock| && 0 <= k < |data|
  {
    var cum := Cum(data, clock, freq, k);
    WithEnds(data[k], cum)
  }

  function Corrected(data: seq<Datum>, clock: seq<int>, freq: int): (r: seq<Datum>)
    requires |data| == |clock|
    ensures |r| == |data|
    ensures forall k :: 0 <= k < |data| ==> r[k] == CorrectedDatum(data, clock, freq, k)
  {
    seq(|data|, k requires 0 <= k < |data| => CorrectedDatum(data, clock, freq, k))
  }

  function BarsOf(data: seq<Datum>, clock: seq<int>): (b: Bars)
    requires |data| == |clock|
    ensures |b.t| == |b.lo| == |b.hi| == |clock|
  {
    Bars(seq(|clock|, k requires 0 <= k < |clock| => clock[k] as real),
         seq(|data|, k requires 0 <= k < |data| => data[k].smin),
         seq(|data|, k requires 0 <= k < |data| => data[k].smax))
  }

  lemma BarsAreValid(data: seq<Datum>, clock: seq<int>)
    requires 2 <= |data| == |clock| && Ticking(clock)
    ensures BarsOf(data, clock).Valid()
  {
  }

  /** From measurement k to the next the true offset changes at the drift that the frequency in force
      leaves. */
  ghost predicate DriftsAt(data: seq<Datum>, clock: seq<int>, drift: real, truth: seq<real>, k: int)
    requires |data| == |clock| == |truth| && 0 <= k < |data| - 1
  {
    truth[k + 1] - truth[k] == (drift - data[k + 1].freq as real / 65536.0) * (clock[k + 1] - clock[k]) as real
  }

  /** Pass 1 undoes the corrections this program made: if the clock drifts at a constant rate and
      the kernel frequency in force before each measurement is the recorded one, the corrected bars are
      those of a clock that ran at `freq` all along: the true line passes through them if and only if every
      measurement was within its error. */
  lemma CorrectionStraightens(data: seq<Datum>, clock: seq<int>, freq: int, drift: real, truth: seq<real>)
    requires 2 <= |data| == |clock| == |truth| && Ticking(clock)
    requires forall k :: 0 <= k < |data| - 1 ==> DriftsAt(data, clock, drift, truth, k)
    ensures var b := BarsOf(Corrected(data, clock, freq), clock);
            && b.Valid()
            && (b.Fits(Line(drift - freq as real / 65536.0, truth[|truth| - 1]))
                <==> forall k :: 0 <= k < |data| ==> Within(data[k], truth[k]))
  {
    BarsAreValid(Corrected(data, clock, freq), clock);
    var b := BarsOf(Corrected(data, clock, freq), clock);
    var l := Line(drift - freq as real / 65536.0, truth[|truth| - 1]);
    forall k | 0 <= k < |data| ensures b.lo[k] <= b.Value(l, k) <= b.hi[k] <==> Within(data[k], truth[k]) {
      StraightAt(data, clock, freq, drift, truth, k);
    }
    if b.Fits(l) {
      forall k | 0 <= k < |data| ensures Within(data[k], truth[k]) {
        assert b.lo[k] <= b.Value(l, k) <= b.hi[k];
      }
    }
  }

  /** The measured offset is no further from the true one than its error. */
  predicate Within(d: Datum, truth: real) {
    truth - d.errorbar <= d.skew <= truth + d.errorbar
  }

  lemma {:induction false} StraightAt(data: seq<Datum>, clock: seq<int>, freq: int, drift: real, truth: seq<real>,
                                      k: int)
    requires 2 <= |data| == |clock| == |truth| && 0 <= k < |data|
    requires forall k :: 0 <= k < |data| - 1 ==> DriftsAt(data, clock, drift, truth, k)
    ensures truth[k] - Cum(data, clock, freq, k)
            == At(Line(drift - freq as real / 65536.0, truth[|truth| - 1]),
                  clock[|clock| - 1] as real, clock[k] as real)
    decreases |data| - k
  {
    if k < |data| - 1 {
      StraightAt(data, clock, freq, drift, truth, k + 1);
      var l := Line(drift - freq as real / 65536.0, truth[|truth| - 1]);
      var _, _, _ := Steps(data, clock, freq, drift, truth, k, l);
    }
  }

  /** From one measurement to the next the true offset, what pass 1 takes off it, and the line move so
      that the first two together move as the line does. */
  lemma Steps(data: seq<Datum>, clock: seq<int>, freq: int, drift: real, truth: seq<real>, k: int, l: Line)
      returns (dt: real, dc: real, da: real)
    requires |data| == |clock| == |truth| && 0 <= k < |data| - 1
    requires DriftsAt(data, clock, drift, truth, k) && l.slope == drift - freq as real / 65536.0
    ensures truth[k + 1] == truth[k] + dt
    ensures Cum(data, clock, freq, k) == Cum(data, clock, freq, k + 1) + dc
    ensures At(l, clock[|clock| - 1] as real, clock[k + 1] as real)
            == At(l, clock[|clock| - 1] as real, clock[k] as real) + da
    ensures dt + dc == da
  {
    dc := CumStep(data, clock, freq, k);
    da := LineStep(l, clock[|clock| - 1] as real, clock[k], clock[k + 1]);
    dt := truth[k + 1] - truth[k];
    StraightStep(drift, data[k + 1].freq, freq, clock[k + 1] - clock[k], dt, dc, da);
  }

  lemma CumStep(data: seq<Datum>, clock: seq<int>, freq: int, k: int) returns (dc: real)
    requires |data| == |clock| && 0 <= k < |data| - 1
    ensures Cum(data, clock, freq, k) == Cum(data, clock, freq, k + 1) + dc
    ensures dc == (clock[k + 1] - clock[k]) as real * (data[k + 1].freq - freq) as real / 65536.0
  {
    dc := (clock[k + 1] - clock[k]) as real * (data[k + 1].freq - freq) as real / 65536.0;
  }

  lemma LineStep(l: Line, end: real, x: int, y: int) returns (da: real)
    ensures At(l, end, y as real) == At(l, end, x as real) + da
    ensures da == l.slope * (y - x) as real
  {
    Rise(l, end, x as real, y as real);
    da := l.slope * (y - x) as real;
  }

  lemma StraightStep(drift: real, f: int, g: int, d: int, dt: real, dc: real, da: real)
    requires dt == (drift - f as real / 65536.0) * d as real
    requires dc == d as real * (f - g) as real / 65536.0
    requires da == (drift - g as real / 65536.0) * d as real
    ensures dt + dc == da
  {
    var x, a, b := d as real, f as real / 65536.0, g as real / 65536.0;
    assert (f - g) as real == f as real - g as real;
    assert dc == x * ((f - g) as real / 65536.0) == x * (a - b);
    assert (drift - a) * x + x * (a - b) == (drift - b) * x;
  }

  /** What the source adds to `cum` on the way from one measurement to the one before. */
  function Wander(absolute: int, before: int, freqInForce: int, freq: int): real {
    Elapsed(absolute, before) as real * (freqInForce - freq) as real / 65536.0
  }

  lemma WanderIsCumStep(data: seq<Datum>, clock: seq<int>, freq: int, k: int)
    requires |data| == |clock| && Ticking(clock) && 0 < k < |data|
    requires data[k].absolute == clock[k] % ERA && data[k - 1].absolute == clock[k - 1] % ERA
    ensures Cum(data, clock, freq, k - 1)
            == Cum(data, clock, freq, k) + Wander(data[k].absolute, data[k - 1].absolute, data[k].freq, freq)
  {
    ElapsedIsExact(clock[k], clock[k - 1]);
  }

  function WithEnds(d: Datum, cum: real): Datum {
    d.(smax := d.skew - cum + d.errorbar, smin := d.skew - cum - d.errorbar)
  }

  /** Pass 1 has corrected the measurements after the k-th and not the others. */
  function PartlyCorrected(data: seq<Datum>, clock: seq<int>, freq: int, k: int): (r: seq<Datum>)
    requires |data| == |clock| && -1 <= k < |data|
    ensures |r| == |data|
    decreases |data| - k
  {
    if k == |data| - 1 then data
    else PartlyCorrected(data, clock, freq, k + 1)[k + 1 := WithEnds(data[k + 1], Cum(data, clock, freq, k + 1))]
  }

  lemma {:induction false} PartlyCorrectedAt(data: seq<Datum>, clock: seq<int>, freq: int, k: int, m: int)
    requires |data| == |clock| && -1 <= k < |data| && 0 <= m < |data|
    ensures PartlyCorrected(data, clock, freq, k)[m] == if m <= k then data[m] else CorrectedDatum(data, clock, freq, m)
    decreases |data| - k
  {
    if k < |data| - 1 {
      PartlyCorrectedAt(data, clock, freq, k + 1, m);
    }
  }

  lemma CorrectedStep(data: seq<Datum>, clock: seq<int>, freq: int, k: int)
    requires |data| == |clock| && 0 <= k < |data|
    ensures var now, next := PartlyCorrected(data, clock, freq, k), PartlyCorrected(data, clock, freq, k - 1);
            && now[k] == data[k]
            && next == now[k := WithEnds(data[k], Cum(data, clock, freq, k))]
            && (k > 0 ==> next[k - 1] == data[k - 1])
  {
    PartlyCorrectedAt(data, clock, freq, k, k);
    if k > 0 {
      PartlyCorrectedAt(data, clock, freq, k - 1, k - 1);
    }
  }

  lemma CorrectedEnds(data: seq<Datum>, clock: seq<int>, freq: int)
    requires |data| == |clock| && 0 < |data|
    ensures Cum(data, clock, freq, |data| - 1) == 0.0
    ensures PartlyCorrected(data, clock, freq, |data| - 1) == data
    ensures PartlyCorrected(data, clock, freq, -1) == Corrected(data, clock, freq)
  {
    forall m | 0 <= m < |data|
      ensures PartlyCorrected(data, clock, freq, -1)[m] == Corrected(data, clock, freq)[m]
    {
      PartlyCorrectedAt(data, clock, freq, -1, m);
    }
  }

  // ---------- the choice made by search ----------

  function Rate(from: real, to: real, dt: real): real
    requires dt != 0.0
  {
    (to - from) / dt
  }

  function Extrapolate(value: real, slope: real, dt: real): real {
    value + slope * dt
  }

  /** The slope and offset the source computes from the wrapped seconds are those of the line
      through the two points. */
  lemma ScannedLineIsJoin(clock: seq<int>, j: int, n: int, yj: real, yn: real)
    requires Ticking(clock) && 0 <= j < n < |clock|
    ensures Elapsed(clock[n] % ERA, clock[j] % ERA) > 0
    ensures var end := clock[|clock| - 1];
            var slope := Rate(yj, yn, Elapsed(clock[n] % ERA, clock[j] % ERA) as real);
            Line(slope, Extrapolate(yn, slope, Elapsed(end % ERA, clock[n] % ERA) as real))
            == Join(end as real, clock[j] as real, yj, clock[n] as real, yn)
  {
    var end := clock[|clock| - 1];
    ElapsedIsExact(clock[n], clock[j]);
    ElapsedIsExact(end, clock[n]);
    assert (clock[n] - clock[j]) as real == clock[n] as real - clock[j] as real;
    assert (end - clock[n]) as real == end as real - clock[n] as real;
  }

  /** Line l joins (t[j], y0) to end point `next` and is, among the lines to the end points
      j < k < upto, the shallowest and the first such (sign false), or the steepest and the last
      such (sign true). */
  ghost predicate Picked(t: seq<real>, y0: real, ends: seq<real>, j: int, upto: int, sign: bool, next: int, l: Line)
    requires |t| == |ends| && |t| > 0
  {
    var end := t[|t| - 1];
    && 0 <= j < next < upto <= |t|
    && At(l, end, t[j]) == y0
    && At(l, end, t[next]) == ends[next]
    && (!sign ==> forall k :: j < k < upto ==> At(l, end, t[k]) <= ends[k])
    && (!sign ==> forall k :: j < k < next ==> At(l, end, t[k]) < ends[k])
    && (sign ==> forall k :: j < k < upto ==> ends[k] <= At(l, end, t[k]))
    && (sign ==> forall k :: next < k < upto ==> ends[k] < At(l, end, t[k]))
  }

  lemma PickFirst(t: seq<real>, y0: real, ends: seq<real>, j: int, sign: bool)
    requires |t| == |ends| && 0 <= j && j + 1 < |t| && t[j] < t[j + 1]
    ensures Picked(t, y0, ends, j, j + 2, sign, j + 1, Join(t[|t| - 1], t[j], y0, t[j + 1], ends[j + 1]))
  {
  }

  /** One comparison of the scan. */
  lemma PickNext(t: seq<real>, y0: real, ends: seq<real>, j: int, n: int, sign: bool, next: int, l: Line)
    requires |t| == |ends| && forall i, k :: 0 <= i < k < |t| ==> t[i] < t[k]
    requires 0 <= j < n < |t| && Picked(t, y0, ends, j, n, sign, next, l)
    ensures var m := Join(t[|t| - 1], t[j], y0, t[n], ends[n]);
            if (m.slope < l.slope) != sign
            then Picked(t, y0, ends, j, n + 1, sign, n, m)
            else Picked(t, y0, ends, j, n + 1, sign, next, l)
  {
    var end := t[|t| - 1];
    var m := Join(end, t[j], y0, t[n], ends[n]);
    if m.slope < l.slope {
      forall k | j < k <= n ensures At(m, end, t[k]) < At(l, end, t[k]) {
        StaysBelow(m, l, end, t[j], t[k]);
      }
    } else {
      forall k | j < k <= n ensures At(l, end, t[k]) <= At(m, end, t[k]) {
        StaysBelow(l, m, end, t[j], t[k]);
      }
    }
  }

  ghost predicate Rising(t: seq<real>) {
    forall i, k :: 0 <= i < k < |t| ==> t[i] < t[k]
  }

  /** The scan of search over candidate lines, one for each end after j: the pick before `upto`. */
  function Scan(lines: seq<Line>, j: int, upto: int, sign: bool): (r: (int, Line))
    requires 0 <= j && j + 2 <= upto <= |lines|
    ensures j < r.0 < upto
    decreases upto
  {
    var n := upto - 1;
    if n == j + 1 then (n, lines[n])
    else
      var best := Scan(lines, j, n, sign);
      if (lines[n].slope < best.1.slope) != sign then (n, lines[n]) else best
  }

  /** The lines from (t[j], y0) to the ends after j. */
  ghost predicate AreCandidates(lines: seq<Line>, t: seq<real>, y0: real, ends: seq<real>, j: int)
    requires |t| == |ends| && Rising(t) && 0 <= j
  {
    && |lines| == |t|
    && forall k :: j < k < |t| ==> lines[k] == Join(t[|t| - 1], t[j], y0, t[k], ends[k])
  }

  lemma {:induction false} ScanPicks(lines: seq<Line>, t: seq<real>, y0: real, ends: seq<real>, j: int, upto: int,
                                     sign: bool)
    requires |t| == |ends| && Rising(t) && 0 <= j && j + 2 <= upto <= |t| && AreCandidates(lines, t, y0, ends, j)
    ensures var r := Scan(lines, j, upto, sign); Picked(t, y0, ends, j, upto, sign, r.0, r.1)
    decreases upto
  {
    var n := upto - 1;
    var m := Join(t[|t| - 1], t[j], y0, t[n], ends[n]);
    assert lines[n] == m;
    if n == j + 1 {
      PickFirst(t, y0, ends, j, sign);
      assert Scan(lines, j, upto, sign) == (n, m);
    } else {
      ScanPicks(lines, t, y0, ends, j, n, sign);
      var r := Scan(lines, j, n, sign);
      PickNext(t, y0, ends, j, n, sign, r.0, r.1);
      assert Scan(lines, j, upto, sign) == if (m.slope < r.1.slope) != sign then (n, m) else r;
    }
  }

  lemma PickIsStride(b: Bars, j: int, next: int, l: Line)
    requires b.Valid() && 0 <= j < |b.t| && Picked(b.t, b.hi[j], b.hi, j, |b.t|, false, next, l)
    ensures Stride(b, j, next, l)
  {
  }

  lemma PickIsCrossing(b: Bars, j: int, next: int, l: Line)
    requires b.Valid() && 0 <= j < |b.t| && Picked(b.t, b.hi[j], b.lo, j, |b.t|, true, next, l)
    ensures Crossing(b, j, next, l)
  {
  }

  /** The picks of pass 3, seen in the mirror. */
  lemma PickIsMirrorStride(b: Bars, j: int, next: int, l: Line)
    requires b.Valid() && 0 <= j < |b.t| && Picked(b.t, b.lo[j], b.lo, j, |b.t|, true, next, l)
    ensures b.Mirror().Valid() && Stride(b.Mirror(), j, next, Negate(l))
  {
    MirrorLine(b, l);
    forall k | j < k < |b.t| ensures b.Mirror().Value(Negate(l), k) <= b.Mirror().hi[k] {
      assert b.lo[k] <= At(l, b.End(), b.t[k]);
    }
  }

  lemma PickIsMirrorCrossing(b: Bars, j: int, next: int, l: Line)
    requires b.Valid() && 0 <= j < |b.t| && Picked(b.t, b.lo[j], b.hi, j, |b.t|, false, next, l)
    ensures b.Mirror().Valid() && Crossing(b.Mirror(), j, next, Negate(l))
  {
    MirrorLine(b, l);
    forall k | j < k < |b.t| ensures b.Mirror().lo[k] <= b.Mirror().Value(Negate(l), k) {
      assert At(l, b.End(), b.t[k]) <= b.hi[k];
    }
  }

  function Side(b: Bars, s: bool): seq<real> {
    if s then b.hi else b.lo
  }

  /** The candidate lines of measurement j: from its end s1 to the ends s0 of the later ones. */
  function Candidates(b: Bars, s0: bool, s1: bool, j: int): (lines: seq<Line>)
    requires b.Valid() && 0 <= j < |b.t|
    ensures AreCandidates(lines, b.t, Side(b, s1)[j], Side(b, s0), j)
  {
    seq(|b.t|, k requires 0 <= k < |b.t| =>
      if j < k then Join(b.End(), b.t[j], Side(b, s1)[j], b.t[k], Side(b, s0)[k]) else Line(0.0, 0.0))
  }

  /** The stops, segments and check lines of a march so far: pass 2 (up) or pass 3. */
  datatype Trail = Trail(vs: seq<int>, segs: seq<Line>, checks: seq<Line>) {
    function Stop(): int
      requires vs != []
    {
      vs[|vs| - 1]
    }

    predicate Within(n: int) {
      && |vs| == |segs| + 1 == |checks| + 1
      && 0 <= Stop() < n
    }
  }

  const START := Trail([0], [], [])

  function Extend(b: Bars, tr: Trail, up: bool): (r: Trail)
    requires b.Valid() && tr.Within(|b.t| - 1)
    ensures r.Within(|b.t|) && tr.Stop() < r.Stop()
  {
    var seg := Scan(Candidates(b, up, up, tr.Stop()), tr.Stop(), |b.t|, !up);
    var check := Scan(Candidates(b, !up, up, tr.Stop()), tr.Stop(), |b.t|, up);
    Trail(tr.vs + [seg.0], tr.segs + [seg.1], tr.checks + [check.1])
  }

  /** The whole pass: march until the stop is the newest measurement. */
  function Finish(b: Bars, tr: Trail, up: bool): (r: Trail)
    requires b.Valid() && tr.Within(|b.t|)
    ensures r.Within(|b.t|) && r.Stop() == |b.t| - 1
    decreases |b.t| - tr.Stop()
  {
    if tr.Stop() == |b.t| - 1 then tr else Finish(b, Extend(b, tr, up), up)
  }

  ghost predicate Sound(b: Bars, tr: Trail, up: bool)
    requires b.Valid()
  {
    if up then PartMarch(b, tr.vs, tr.segs) && Checked(b, tr.vs, tr.checks)
    else b.Mirror().Valid() && PartMarch(b.Mirror(), tr.vs, NegateAll(tr.segs))
         && Checked(b.Mirror(), tr.vs, NegateAll(tr.checks))
  }

  lemma UpExtendIsSound(b: Bars, tr: Trail, seg: (int, Line), check: (int, Line))
    requires b.Valid() && tr.Within(|b.t| - 1) && Sound(b, tr, true)
    requires Picked(b.t, b.hi[tr.Stop()], b.hi, tr.Stop(), |b.t|, false, seg.0, seg.1)
    requires Picked(b.t, b.hi[tr.Stop()], b.lo, tr.Stop(), |b.t|, true, check.0, check.1)
    ensures Sound(b, Trail(tr.vs + [seg.0], tr.segs + [seg.1], tr.checks + [check.1]), true)
  {
    PickIsStride(b, tr.Stop(), seg.0, seg.1);
    PickIsCrossing(b, tr.Stop(), check.0, check.1);
    MarchExtends(b, tr.vs, tr.segs, tr.checks, seg.0, seg.1, check.1, check.0);
  }

  lemma DownExtendIsSound(b: Bars, tr: Trail, seg: (int, Line), check: (int, Line))
    requires b.Valid() && tr.Within(|b.t| - 1) && Sound(b, tr, false)
    requires Picked(b.t, b.lo[tr.Stop()], b.lo, tr.Stop(), |b.t|, true, seg.0, seg.1)
    requires Picked(b.t, b.lo[tr.Stop()], b.hi, tr.Stop(), |b.t|, false, check.0, check.1)
    ensures Sound(b, Trail(tr.vs + [seg.0], tr.segs + [seg.1], tr.checks + [check.1]), false)
  {
    PickIsMirrorStride(b, tr.Stop(), seg.0, seg.1);
    PickIsMirrorCrossing(b, tr.Stop(), check.0, check.1);
    NegateAllAppend(tr.segs, seg.1);
    NegateAllAppend(tr.checks, check.1);
    MarchExtends(b.Mirror(), tr.vs, NegateAll(tr.segs), NegateAll(tr.checks),
                 seg.0, Negate(seg.1), Negate(check.1), check.0);
  }

  /** What the two searches at a stop find. */
  lemma SearchesPick(b: Bars, up: bool, j: int)
    requires b.Valid() && 0 <= j < |b.t| - 1
    ensures var seg := Scan(Candidates(b, up, up, j), j, |b.t|, !up);
            var check := Scan(Candidates(b, !up, up, j), j, |b.t|, up);
            && Picked(b.t, Side(b, up)[j], Side(b, up), j, |b.t|, !up, seg.0, seg.1)
            && Picked(b.t, Side(b, up)[j], Side(b, !up), j, |b.t|, up, check.0, check.1)
  {
    ScanPicks(Candidates(b, up, up, j), b.t, Side(b, up)[j], Side(b, up), j, |b.t|, !up);
    ScanPicks(Candidates(b, !up, up, j), b.t, Side(b, up)[j], Side(b, !up), j, |b.t|, up);
  }

  lemma ExtendUpIsSound(b: Bars, tr: Trail)
    requires b.Valid() && tr.Within(|b.t| - 1) && Sound(b, tr, true)
    ensures Sound(b, Extend(b, tr, true), true)
  {
    var j := tr.Stop();
    SearchesPick(b, true, j);
    UpExtendIsSound(b, tr, Scan(Candidates(b, true, true, j), j, |b.t|, false),
                    Scan(Candidates(b, false, true, j), j, |b.t|, true));
  }

  lemma ExtendDownIsSound(b: Bars, tr: Trail)
    requires b.Valid() && tr.Within(|b.t| - 1) && Sound(b, tr, false)
    ensures Sound(b, Extend(b, tr, false), false)
  {
    var j := tr.Stop();
    SearchesPick(b, false, j);
    DownExtendIsSound(b, tr, Scan(Candidates(b, false, false, j), j, |b.t|, true),
                      Scan(Candidates(b, true, false, j), j, |b.t|, false));
  }

  lemma {:induction false} FinishIsSound(b: Bars, tr: Trail, up: bool)
    requires b.Valid() && tr.Within(|b.t|) && Sound(b, tr, up)
    ensures Sound(b, Finish(b, tr, up), up)
    decreases |b.t| - tr.Stop()
  {
    if tr.Stop() < |b.t| - 1 {
      if up {
        ExtendUpIsSound(b, tr);
      } else {
        ExtendDownIsSound(b, tr);
      }
      FinishIsSound(b, Extend(b, tr, up), up);
    }
  }

  lemma StartIsSound(b: Bars, up: bool)
    requires b.Valid()
    ensures START.Within(|b.t|) && Sound(b, START, up)
  {
    MirrorIsValid(b);
  }

  /** The line kept by pass 2 or by pass 3. */
  function KeptBy(tr: Trail, up: bool): Option<Line>
    requires |tr.segs| == |tr.checks|
  {
    if up then Kept(FIRST_SLOPE, tr.segs, tr.checks, true)
    else NegateOption(Kept(FIRST_SLOPE, NegateAll(tr.segs), NegateAll(tr.checks), false))
  }

  /** `last_slope`: the slope of the newest segment, or the start value of the pass. */
  function LastSlope(tr: Trail, up: bool): real {
    if tr.segs == [] then (if up then FIRST_SLOPE else -FIRST_SLOPE) else tr.segs[|tr.segs| - 1].slope
  }

  lemma {:induction false} KeptAppend(floor: real, segs: seq<Line>, checks: seq<Line>, shallower: bool,
                                      s: Line, c: Line)
    requires |segs| == |checks|
    ensures var before := Kept(floor, segs, checks, shallower);
            var last := if segs == [] then floor else segs[|segs| - 1].slope;
            Kept(floor, segs + [s], checks + [c], shallower)
            == if c.slope < s.slope && last < c.slope
                  && (before.None?
                      || (if shallower then c.slope < before.value.slope else before.value.slope < c.slope))
               then Some(c) else before
  {
    assert (segs + [s])[..|segs|] == segs && (checks + [c])[..|segs|] == checks;
  }

  lemma MarchExtends(b: Bars, vs: seq<int>, segs: seq<Line>, checks: seq<Line>, next: int, s: Line, c: Line, m: int)
    requires b.Valid() && PartMarch(b, vs, segs) && Checked(b, vs, checks) && |segs| == |checks|
    requires Stride(b, vs[|segs|], next, s) && Crossing(b, vs[|segs|], m, c)
    ensures PartMarch(b, vs + [next], segs + [s]) && Checked(b, vs + [next], checks + [c])
  {
    var vs', segs', checks' := vs + [next], segs + [s], checks + [c];
    forall i | 0 <= i < |segs'| ensures Stride(b, vs'[i], vs'[i + 1], segs'[i]) {
      if i < |segs| {
        assert Stride(b, vs[i], vs[i + 1], segs[i]);
      }
    }
    assert IsCrossing(b, vs[|checks|], c);
    forall i | 0 <= i < |checks'| ensures IsCrossing(b, vs'[i], checks'[i]) {
      if i < |checks| {
        assert IsCrossing(b, vs[i], checks[i]);
      }
    }
  }

  function NegateOption(o: Option<Line>): Option<Line> {
    match o case None => None case Some(l) => Some(Negate(l))
  }

  lemma NegateAllAppend(ls: seq<Line>, l: Line)
    ensures NegateAll(ls + [l]) == NegateAll(ls) + [Negate(l)]
  {
  }

  /** The test of pass 2. */
  function KeepMin(before: Option<Line>, last: real, s: Line, c: Line): Option<Line> {
    if c.slope < s.slope && last < c.slope && (before.None? || c.slope < before.value.slope) then Some(c) else before
  }

  /** The test of pass 3: the source keeps the shallower line here too. */
  function KeepMax(before: Option<Line>, last: real, s: Line, c: Line): Option<Line> {
    if s.slope < c.slope && c.slope < last && (before.None? || c.slope < before.value.slope) then Some(c) else before
  }

  lemma KeptExtends(tr: Trail, up: bool, v: int, s: Line, c: Line)
    requires |tr.segs| == |tr.checks|
    ensures KeptBy(Trail(tr.vs + [v], tr.segs + [s], tr.checks + [c]), up)
            == if up then KeepMin(KeptBy(tr, up), LastSlope(tr, up), s, c)
               else KeepMax(KeptBy(tr, up), LastSlope(tr, up), s, c)
  {
    if up {
      KeptAppend(FIRST_SLOPE, tr.segs, tr.checks, true, s, c);
    } else {
      NegateAllAppend(tr.segs, s);
      NegateAllAppend(tr.checks, c);
      KeptAppend(FIRST_SLOPE, NegateAll(tr.segs), NegateAll(tr.checks), false, Negate(s), Negate(c));
    }
  }

  /** The trail of the whole pass. */
  function Pass(b: Bars, up: bool): Trail
    requires b.Valid()
  {
    Finish(b, START, up)
  }

  lemma FinishStops(b: Bars, tr: Trail, up: bool)
    requires b.Valid() && tr.Within(|b.t|) && tr.Stop() == |b.t| - 1
    ensures Finish(b, tr, up) == tr
  {
  }

  lemma FinishExtends(b: Bars, tr: Trail, up: bool, next: Trail)
    requires b.Valid() && tr.Within(|b.t| - 1) && next == Extend(b, tr, up)
    ensures Finish(b, tr, up) == Finish(b, next, up)
  {
  }

  /** Whether pass 4 meets a segment steeper than `floor` before it stops. */
  predicate UpperReaches(segs: seq<Line>, floor: real, ceiling: real) {
    segs != [] && (floor < segs[0].slope || (segs[0].slope <= ceiling && UpperReaches(segs[1..], floor, ceiling)))
  }

  predicate LowerReaches(segs: seq<Line>, ceiling: real, floor: real) {
    segs != [] && (segs[0].slope < ceiling || (floor <= segs[0].slope && LowerReaches(segs[1..], ceiling, floor)))
  }

  lemma {:induction false} ReachesIfSteeper(segs: seq<Line>, floor: real, ceiling: real, i: int)
    requires 0 <= i < |segs| && floor < segs[i].slope && floor <= ceiling
    ensures UpperReaches(segs, floor, ceiling)
  {
    if i > 0 {
      ReachesIfSteeper(segs[1..], floor, ceiling, i - 1);
    }
  }

  lemma {:induction false} ReachesIfShallower(segs: seq<Line>, ceiling: real, floor: real, i: int)
    requires 0 <= i < |segs| && segs[i].slope < ceiling && floor <= ceiling
    ensures LowerReaches(segs, ceiling, floor)
  {
    if i > 0 {
      ReachesIfShallower(segs[1..], ceiling, floor, i - 1);
    }
  }

  /** The conversion of a double to an int. */
  function Truncate(r: real): int {
    if r >= 0.0 then r.Floor else -((-r).Floor)
  }

  function Clamp(f: int): int {
    if f < -MAX_C then -MAX_C else if MAX_C < f then MAX_C else f
  }

  /** Pass 5.  None where the fine correction is not a number. */
  function Decide(shifts: Shifts, saveMin: Line, saveMax: Line, freq: int): Option<int> {
    var gross := FindDf(shifts);
    match FindDfCenter(saveMin, saveMax, gross)
    case None => None
    case Some(fine) => Some(Clamp(freq - Truncate((gross + fine) * 65536.0 + 0.5)))
  }

  lemma CornersInOrder(up: seq<Line>, down: seq<Line>, saveMin: Line, saveMax: Line)
    ensures var start := Shifts(MIN_INIT, MIN_INIT);
            var a := PolygonPoints(PolygonPoint(start, saveMin), UpperCorners(up, saveMin.slope, saveMax.slope, false));
            PolygonPoints(PolygonPoint(a, saveMax), LowerCorners(down, saveMax.slope, saveMin.slope, false))
            == PolygonPoints(start, Corners(up, down, saveMin, saveMax))
  {
    var start := Shifts(MIN_INIT, MIN_INIT);
    var u := UpperCorners(up, saveMin.slope, saveMax.slope, false);
    var l := LowerCorners(down, saveMax.slope, saveMin.slope, false);
    assert Corners(up, down, saveMin, saveMax) == [saveMin] + (u + ([saveMax] + l));
    PointsAppend(start, [saveMin], u + ([saveMax] + l));
    PointsAppend(PolygonPoint(start, saveMin), u, [saveMax] + l);
    PointsAppend(PolygonPoints(PolygonPoint(start, saveMin), u), [saveMax], l);
    OnePoint(start, saveMin);
    OnePoint(PolygonPoints(PolygonPoint(start, saveMin), u), saveMax);
  }

  lemma OnePoint(d: Shifts, s: Line)
    ensures PolygonPoints(d, [s]) == PolygonPoint(d, s)
  {
    assert [s][1..] == [];
    assert PolygonPoints(PolygonPoint(d, s), []) == PolygonPoint(d, s);
  }

  /** What the five passes make of a full ring of bars. */
  function Verdict(b: Bars, freq: int): Option<int>
    requires b.Valid()
  {
    var up, down := Pass(b, true), Pass(b, false);
    var saveMin, saveMax := KeptBy(up, true), KeptBy(down, false);
    if saveMin.None? || saveMax.None? then Some(freq)
    else if !UpperReaches(up.segs, saveMin.value.slope, saveMax.value.slope)
            || !LowerReaches(down.segs, saveMax.value.slope, saveMin.value.slope) then Some(freq)
    else Decide(PolygonPoints(Shifts(MIN_INIT, MIN_INIT), Corners(up.segs, down.segs, saveMin.value, saveMax.value)),
                saveMin.value, saveMax.value, freq)
  }

  /** The slot of the k-th oldest of n measurements when slot rp is the next to write. */
  function Held(rp: int, n: int, k: int): int
    requires 0 <= rp < RING_SIZE && 0 <= k < n <= RING_SIZE
  {
    if rp - n + k < 0 then rp - n + k + RING_SIZE else rp - n + k
  }

  /** A window of at most sixteen takes one more. */
  function Shifted<T>(window: seq<T>, x: T): seq<T> {
    (if |window| >= RING_SIZE then window[1..] else window) + [x]
  }

  /** The window after any number of arrivals. */
  function Window<T>(xs: seq<T>): seq<T> {
    if xs == [] then [] else Shifted(Window(xs[..|xs| - 1]), xs[|xs| - 1])
  }

  /** It holds the last sixteen, or all of them as long as there are fewer. */
  lemma {:induction false} WindowIsLastSixteen<T>(xs: seq<T>)
    ensures Window(xs) == if |xs| <= 16 then xs else xs[|xs| - 16..]
  {
    if xs != [] {
      var n := |xs| - 1;
      WindowIsLastSixteen(xs[..n]);
      if n < 16 {
        assert xs == xs[..n] + [xs[n]];
      } else {
        assert Window(xs[..n])[1..] == xs[n - 15..n];
        assert xs[n - 15..] == xs[n - 15..n] + [xs[n]];
      }
    }
  }

  lemma HeldSlots(rp: int, n: int)
    requires 0 <= rp < RING_SIZE && 0 < n <= RING_SIZE
    ensures var next := (rp + 1) % RING_SIZE;
            && Held(next, n, n - 1) == rp
            && (forall k :: 0 <= k < n - 1 ==> Held(next, n, k) == Held(rp, n - 1, k) != rp)
            && (n == RING_SIZE ==> forall k :: 0 <= k < n ==> Held(next, n, k) == Slot(rp, k))
            && (n == RING_SIZE ==> forall k :: 0 <= k < n - 1 ==> Held(rp, n, k + 1) == Slot(rp, k) != rp)
            && Slot(rp, RING_SIZE - 1) == rp
  {
    var next := if rp == RING_SIZE - 1 then 0 else rp + 1;
    assert (rp + 1) % RING_SIZE == next;
    forall k | 0 <= k < n - 1 ensures Held(next, n, k) == Held(rp, n - 1, k) != rp {
    }
    if n == RING_SIZE {
      forall k | 0 <= k < n ensures Held(next, n, k) == Slot(rp, k) {
      }
      forall k | 0 <= k < n - 1 ensures Held(rp, n, k + 1) == Slot(rp, k) != rp {
      }
    }
  }

  /** The segments as the source stores them, counted from 1. */
  ghost predicate Stores(a: array<Line>, segs: seq<Line>)
    reads a
  {
    && |segs| < a.Length
    && forall i :: 0 <= i < |segs| ==> a[i + 1] == segs[i]
  }

  class PhaseLock {
    const ring: array<Datum>
    const maxseg: array<Line>
    const minseg: array<Line>
    var df: Shifts
    var rp: int
    var valid: int
    ghost var clock: seq<int>

    ghost predicate Shape()
      reads this
    {
      && ring.Length == RING_SIZE
      && maxseg.Length == minseg.Length == RING_SIZE + 1
      && maxseg != minseg
      && 0 <= rp < RING_SIZE
    }

    /** The measurements in order of age, when slot rp holds the newest. */
    ghost function Data(): (d: seq<Datum>)
      requires Shape()
      reads this, ring
      ensures |d| == RING_SIZE
      ensures forall k :: 0 <= k < RING_SIZE ==> d[k] == ring[Slot(rp, k)]
    {
      var r, newest := ring, rp;
      seq(RING_SIZE, k requires 0 <= k < RING_SIZE && r.Length == RING_SIZE reads r => r[Slot(newest, k)])
    }

    /** The state in which the passes run: a full ring, its newest entry in slot rp. */
    ghost predicate Full()
      reads this, ring
    {
      && Shape()
      && |clock| == RING_SIZE
      && Ticking(clock)
      && forall k :: 0 <= k < RING_SIZE ==> ring[Slot(rp, k)].absolute == clock[k] % ERA
    }

    /** The full ring, as error bars in order of age. */
    ghost predicate Shows(b: Bars)
      reads this, ring
    {
      && Full()
      && b.Valid() && |b.t| == RING_SIZE
      && forall k :: 0 <= k < RING_SIZE ==>
           && b.t[k] == clock[k] as real
           && b.lo[k] == ring[Slot(rp, k)].smin
           && b.hi[k] == ring[Slot(rp, k)].smax
    }

    method CorrectSlot(j: int, cum: real, ghost k: int)
      requires Shape() && 0 <= k < RING_SIZE && j == Slot(rp, k)
      modifies ring
      ensures Data() == old(Data())[k := WithEnds(old(Data())[k], cum)]
    {
      SlotsDiffer(rp, k);
      ring[j] := ring[j].(smax := ring[j].skew - cum + ring[j].errorbar, smin := ring[j].skew - cum - ring[j].errorbar);
    }

    /** Pass 1. */
    method CorrectWander(freq: int)
      requires Full()
      modifies ring
      ensures Data() == Corrected(old(Data()), clock, freq)
    {
      ghost var d := Data();
      ghost var k := RING_SIZE - 1;
      SlotSteps(rp, k);
      CorrectedEnds(d, clock, freq);
      var cum := 0.0;
      var j := rp;
      while true
        invariant 0 <= k < RING_SIZE && j == Slot(rp, k)
        invariant cum == Cum(d, clock, freq, k)
        invariant Data() == PartlyCorrected(d, clock, freq, k)
        decreases k
      {
        CorrectedStep(d, clock, freq, k);
        CorrectSlot(j, cum, k);
        SlotSteps(rp, k);
        var n := NextDn(j);
        if n == rp {
          break;
        }
        cum := NextCum(freq, j, n, cum, d, k);
        j := n;
        k := k - 1;
      }
    }

    method NextCum(freq: int, j: int, n: int, cum: real, ghost d: seq<Datum>, ghost k: int) returns (next: real)
      requires Shape() && |d| == RING_SIZE == |clock| && Ticking(clock)
      requires forall k :: 0 <= k < RING_SIZE ==> d[k].absolute == clock[k] % ERA
      requires 0 < k < RING_SIZE && j == Slot(rp, k) && n == Slot(rp, k - 1)
      requires Data() == PartlyCorrected(d, clock, freq, k - 1) && cum == Cum(d, clock, freq, k)
      ensures next == Cum(d, clock, freq, k - 1)
    {
      WanderIsCumStep(d, clock, freq, k);
      CorrectedStep(d, clock, freq, k);
      assert ring[j] == Data()[k] && ring[n] == Data()[k - 1];
      next := cum + Wander(ring[j].absolute, ring[n].absolute, ring[j].freq, freq);
    }

    /** Pass 1 keeps the seconds, so the ring stays in order. */
    twostate lemma WanderKeepsFull(freq: int)
      requires old(Full()) && Shape() && rp == old(rp) && clock == old(clock)
      requires Data() == Corrected(old(Data()), clock, freq)
      ensures Full()
    {
      forall m | 0 <= m < RING_SIZE ensures ring[Slot(rp, m)].absolute == clock[m] % ERA {
        assert Data()[m] == CorrectedDatum(old(Data()), clock, freq, m);
        assert old(ring[Slot(rp, m)].absolute) == clock[m] % ERA;
      }
    }

    function Select(d: Datum, s: bool): real {
      if s then d.smax else d.smin
    }

    /** The line from slot j to slot n that the scan looks at. */
    function Candidate(j: int, n: int, s0: bool, s1: bool): Line
      requires Shape() && 0 <= j < RING_SIZE && 0 <= n < RING_SIZE
      requires Elapsed(ring[n].absolute, ring[j].absolute) != 0
      reads this, ring
    {
      var slope := Rate(Select(ring[j], s1), Select(ring[n], s0), Elapsed(ring[n].absolute, ring[j].absolute) as real);
      Line(slope, Extrapolate(Select(ring[n], s0), slope, Elapsed(ring[rp].absolute, ring[n].absolute) as real))
    }

    ghost predicate AreSlopes(lines: seq<Line>, s0: bool, s1: bool, kj: int)
      requires Shape() && 0 <= kj < RING_SIZE
      reads this, ring
    {
      && |lines| == RING_SIZE
      && forall k :: kj < k < RING_SIZE ==>
           && Elapsed(ring[Slot(rp, k)].absolute, ring[Slot(rp, kj)].absolute) != 0
           && lines[k] == Candidate(Slot(rp, kj), Slot(rp, k), s0, s1)
    }

    lemma CandidatesAreSlopes(b: Bars, s0: bool, s1: bool, kj: int)
      requires Shows(b) && 0 <= kj < RING_SIZE
      ensures AreSlopes(Candidates(b, s0, s1, kj), s0, s1, kj)
    {
      SlotSteps(rp, 0);
      var lines := Candidates(b, s0, s1, kj);
      forall k | kj < k < RING_SIZE
        ensures Elapsed(ring[Slot(rp, k)].absolute, ring[Slot(rp, kj)].absolute) != 0
        ensures lines[k] == Candidate(Slot(rp, kj), Slot(rp, k), s0, s1)
      {
        ScannedLineIsJoin(clock, kj, k, Side(b, s1)[kj], Side(b, s0)[k]);
      }
    }

    /** Looks at the lines that start at slot j and end at the slots after it, up to rp. */
    method Search(j: int, s0: bool, s1: bool, sign: bool, ghost kj: int, ghost lines: seq<Line>)
        returns (nextj: int, answer: Line)
      requires Shape() && 0 <= kj < RING_SIZE - 1 && j == Slot(rp, kj)
      requires AreSlopes(lines, s0, s1, kj)
      ensures answer == Scan(lines, kj, RING_SIZE, sign).1
      ensures nextj == Slot(rp, Scan(lines, kj, RING_SIZE, sign).0)
    {
      ghost var kn := 0;
      var cinit := true;
      nextj := 0;
      answer := Line(0.0, 0.0);
      var n := NextUp(j);
      ghost var k := kj + 1;
      SlotSteps(rp, kj);
      while n != NextUp(rp)
        invariant kj < k <= RING_SIZE
        invariant if k < RING_SIZE then n == Slot(rp, k) else n == NextUp(rp)
        invariant cinit <==> k == kj + 1
        invariant !cinit ==> (kn, answer) == Scan(lines, kj, k, sign) && nextj == Slot(rp, kn)
        decreases RING_SIZE - k
      {
        SlotSteps(rp, k);
        var l := Candidate(j, n, s0, s1);
        if cinit || (l.slope < answer.slope) != sign {
          answer := l;
          cinit := false;
          nextj := n;
          kn := k;
        }
        n := NextUp(n);
        k := k + 1;
      }
      if k < RING_SIZE {
        SlotSteps(rp, k);
      }
    }

    /** The two searches at one stop. */
    method Look(j: int, up: bool, ghost b: Bars, ghost tr: Trail) returns (nextj: int, seg: Line, check: Line)
      requires Shows(b) && tr.Within(RING_SIZE - 1) && j == Slot(rp, tr.Stop())
      ensures var tr' := Extend(b, tr, up);
              && nextj == Slot(rp, tr'.Stop())
              && tr' == Trail(tr.vs + [tr'.Stop()], tr.segs + [seg], tr.checks + [check])
    {
      CandidatesAreSlopes(b, up, up, tr.Stop());
      nextj, seg := Search(j, up, up, !up, tr.Stop(), Candidates(b, up, up, tr.Stop()));
      CandidatesAreSlopes(b, !up, up, tr.Stop());
      var unused;
      unused, check := Search(j, !up, up, up, tr.Stop(), Candidates(b, !up, up, tr.Stop()));
    }

    /** One stop of pass 2: stores the segment that leaves it and keeps or replaces the kept line. */
    method StepUp(c: int, j: int, lastSlope: real, saveMin: Option<Line>, ghost b: Bars, ghost tr: Trail)
        returns (nextj: int, slope: real, keep: Option<Line>, ghost next: Trail)
      requires Shows(b) && tr.Within(RING_SIZE - 1) && j == Slot(rp, tr.Stop())
      requires c == |tr.segs| + 1 <= RING_SIZE && Stores(maxseg, tr.segs)
      requires lastSlope == LastSlope(tr, true) && saveMin == KeptBy(tr, true)
      modifies maxseg
      ensures next == Extend(b, tr, true) && |next.segs| == c
      ensures Stores(maxseg, next.segs)
      ensures nextj == Slot(rp, next.Stop()) && slope == LastSlope(next, true) && keep == KeptBy(next, true)
    {
      var seg, check;
      next := Extend(b, tr, true);
      nextj, seg, check := Look(j, true, b, tr);
      maxseg[c] := seg;
      keep := KeepMin(saveMin, lastSlope, seg, check);
      slope := seg.slope;
      KeptExtends(tr, true, next.Stop(), seg, check);
    }

    /** Pass 2.  `c` counts the segments from 1; None stands for the source's dinit == 1. */
    method MarchUp(ghost b: Bars) returns (c: int, saveMin: Option<Line>)
      requires Shows(b)
      modifies maxseg
      ensures c == |Pass(b, true).segs| + 1 <= RING_SIZE
      ensures Stores(maxseg, Pass(b, true).segs) && saveMin == KeptBy(Pass(b, true), true)
    {
      ghost var tr := START;
      StartIsSound(b, true);
      saveMin := None;
      var lastSlope := -2.0 * MAX_CORRECT as real;
      c := 1;
      var j := NextUp(rp);
      SlotSteps(rp, 0);
      while true
        invariant tr.Within(RING_SIZE - 1) && j == Slot(rp, tr.Stop())
        invariant 1 <= c == |tr.segs| + 1 <= tr.Stop() + 1
        invariant Finish(b, tr, true) == Pass(b, true)
        invariant lastSlope == LastSlope(tr, true) && saveMin == KeptBy(tr, true)
        invariant Stores(maxseg, tr.segs)
        decreases RING_SIZE - tr.Stop()
      {
        ghost var next;
        j, lastSlope, saveMin, next := StepUp(c, j, lastSlope, saveMin, b, tr);
        c := c + 1;
        FinishExtends(b, tr, true, next);
        tr := next;
        SlotSteps(rp, tr.Stop());
        if j == rp {
          break;
        }
      }
      FinishStops(b, tr, true);
    }

    /** One stop of pass 3. */
    method StepDown(c: int, j: int, lastSlope: real, saveMax: Option<Line>, ghost b: Bars, ghost tr: Trail)
        returns (nextj: int, slope: real, keep: Option<Line>, ghost next: Trail)
      requires Shows(b) && tr.Within(RING_SIZE - 1) && j == Slot(rp, tr.Stop())
      requires c == |tr.segs| + 1 <= RING_SIZE && Stores(minseg, tr.segs)
      requires lastSlope == LastSlope(tr, false) && saveMax == KeptBy(tr, false)
      modifies minseg
      ensures next == Extend(b, tr, false) && |next.segs| == c
      ensures Stores(minseg, next.segs)
      ensures nextj == Slot(rp, next.Stop()) && slope == LastSlope(next, false) && keep == KeptBy(next, false)
    {
      var seg, check;
      next := Extend(b, tr, false);
      nextj, seg, check := Look(j, false, b, tr);
      minseg[c] := seg;
      keep := KeepMax(saveMax, lastSlope, seg, check);
      slope := seg.slope;
      KeptExtends(tr, false, next.Stop(), seg, check);
    }

    /** Pass 3. */
    method MarchDown(ghost b: Bars) returns (c: int, saveMax: Option<Line>)
      requires Shows(b)
      modifies minseg
      ensures c == |Pass(b, false).segs| + 1 <= RING_SIZE
      ensures Stores(minseg, Pass(b, false).segs) && saveMax == KeptBy(Pass(b, false), false)
    {
      ghost var tr := START;
      StartIsSound(b, false);
      saveMax := None;
      var lastSlope := 2.0 * MAX_CORRECT as real;
      c := 1;
      var j := NextUp(rp);
      SlotSteps(rp, 0);
      while true
        invariant tr.Within(RING_SIZE - 1) && j == Slot(rp, tr.Stop())
        invariant 1 <= c == |tr.segs| + 1 <= tr.Stop() + 1
        invariant Finish(b, tr, false) == Pass(b, false)
        invariant lastSlope == LastSlope(tr, false) && saveMax == KeptBy(tr, false)
        invariant Stores(minseg, tr.segs)
        decreases RING_SIZE - tr.Stop()
      {
        ghost var next;
        j, lastSlope, saveMax, next := StepDown(c, j, lastSlope, saveMax, b, tr);
        c := c + 1;
        FinishExtends(b, tr, false, next);
        tr := next;
        SlotSteps(rp, tr.Stop());
        if j == rp {
          break;
        }
      }
      FinishStops(b, tr, false);
    }

    method VisitCorner(s: Line)
      modifies this`df
      ensures df == PolygonPoint(old(df), s)
    {
      df := PolygonPoint(df, s);
    }

    /** The first half of pass 4.  Where the walk starts and ends, the array is overwritten with
        the kept lines; `reached` is the source's dinit == 0. */
    method SpliceUpper(maxAvail: int, saveMin: Line, saveMax: Line, ghost segs: seq<Line>) returns (reached: bool)
      requires Shape() && maxAvail == |segs| + 1 <= RING_SIZE && Stores(maxseg, segs)
      modifies maxseg, this`df
      ensures df == PolygonPoints(old(df), UpperCorners(segs, saveMin.slope, saveMax.slope, false))
      ensures reached <==> UpperReaches(segs, saveMin.slope, saveMax.slope)
    {
      ghost var floor, ceiling := saveMin.slope, saveMax.slope;
      ghost var goal := PolygonPoints(df, UpperCorners(segs, floor, ceiling, false));
      reached := false;
      var c := 1;
      while c < maxAvail
        invariant 1 <= c <= maxAvail
        invariant forall i :: c - 1 <= i < |segs| ==> maxseg[i + 1] == segs[i]
        invariant PolygonPoints(df, UpperCorners(segs[c - 1..], floor, ceiling, reached)) == goal
        invariant reached || UpperReaches(segs[c - 1..], floor, ceiling) <==> UpperReaches(segs, floor, ceiling)
      {
        ghost var rest := segs[c - 1..];
        assert rest[0] == maxseg[c] && rest[1..] == segs[c..];
        if !reached && saveMin.slope < maxseg[c].slope {
          var maxImin := c - 1;
          maxseg[maxImin] := saveMin;
          reached := true;
        }
        if saveMax.slope < maxseg[c].slope {
          break;
        }
        if reached {
          ghost var tail := UpperCorners(rest[1..], floor, ceiling, true);
          assert ([rest[0]] + tail)[1..] == tail;
          VisitCorner(maxseg[c]);
        } else {
          assert UpperCorners(rest, floor, ceiling, false) == UpperCorners(rest[1..], floor, ceiling, false);
        }
        c := c + 1;
      }
      var maxImax := c;
      maxseg[maxImax] := saveMax;
    }

    /** The second half.  The source writes index 0, `min_imin`, whatever c is. */
    method SpliceLower(minAvail: int, saveMin: Line, saveMax: Line, ghost segs: seq<Line>) returns (reached: bool)
      requires Shape() && minAvail == |segs| + 1 <= RING_SIZE && Stores(minseg, segs)
      modifies minseg, this`df
      ensures df == PolygonPoints(old(df), LowerCorners(segs, saveMax.slope, saveMin.slope, false))
      ensures reached <==> LowerReaches(segs, saveMax.slope, saveMin.slope)
    {
      ghost var floor, ceiling := saveMin.slope, saveMax.slope;
      ghost var goal := PolygonPoints(df, LowerCorners(segs, ceiling, floor, false));
      reached := false;
      var minImin := 0;
      var c := 1;
      while c < minAvail
        invariant 1 <= c <= minAvail
        invariant forall i :: c - 1 <= i < |segs| ==> minseg[i + 1] == segs[i]
        invariant PolygonPoints(df, LowerCorners(segs[c - 1..], ceiling, floor, reached)) == goal
        invariant reached || LowerReaches(segs[c - 1..], ceiling, floor) <==> LowerReaches(segs, ceiling, floor)
      {
        ghost var rest := segs[c - 1..];
        assert rest[0] == minseg[c] && rest[1..] == segs[c..];
        if !reached && minseg[c].slope < saveMax.slope {
          minseg[minImin] := saveMax;
          reached := true;
        }
        if minseg[c].slope < saveMin.slope {
          break;
        }
        if reached {
          ghost var tail := LowerCorners(rest[1..], ceiling, floor, true);
          assert ([rest[0]] + tail)[1..] == tail;
          VisitCorner(minseg[c]);
        } else {
          assert LowerCorners(rest, ceiling, floor, false) == LowerCorners(rest[1..], ceiling, floor, false);
        }
        c := c + 1;
      }
      var minImax := c;
      minseg[minImax] := saveMax;
    }

    /** Pass 4. */
    method Splice(maxAvail: int, minAvail: int, saveMin: Line, saveMax: Line,
                  ghost up: seq<Line>, ghost down: seq<Line>)
        returns (inconsistent: bool)
      requires Shape()
      requires maxAvail == |up| + 1 <= RING_SIZE && Stores(maxseg, up)
      requires minAvail == |down| + 1 <= RING_SIZE && Stores(minseg, down)
      modifies maxseg, minseg, this`df
      ensures df == PolygonPoints(Shifts(MIN_INIT, MIN_INIT), Corners(up, down, saveMin, saveMax))
      ensures inconsistent <==> !(UpperReaches(up, saveMin.slope, saveMax.slope)
                                  && LowerReaches(down, saveMax.slope, saveMin.slope))
    {
      df := Shifts(MIN_INIT, MIN_INIT);
      VisitCorner(saveMin);
      var upper := SpliceUpper(maxAvail, saveMin, saveMax, up);
      VisitCorner(saveMax);
      var lower := SpliceLower(minAvail, saveMin, saveMax, down);
      inconsistent := !upper || !lower;
      CornersInOrder(up, down, saveMin, saveMax);
    }

    lemma ShowsItsBars(b: Bars)
      requires Full() && b == BarsOf(Data(), clock)
      ensures Shows(b)
    {
      BarsAreValid(Data(), clock);
    }

    /** Passes 1 to 5 over a full ring. */
    method Rethink(freq: int) returns (computedFreq: Option<int>)
      requires Full()
      modifies ring, maxseg, minseg, this`df
      ensures Data() == Corrected(old(Data()), clock, freq)
      ensures BarsOf(Data(), clock).Valid() && computedFreq == Verdict(BarsOf(Data(), clock), freq)
    {
      CorrectWander(freq);
      WanderKeepsFull(freq);
      ghost var b := BarsOf(Data(), clock);
      ShowsItsBars(b);
      var maxAvail, saveMin := MarchUp(b);
      var minAvail, saveMax := MarchDown(b);
      computedFreq := Judge(maxAvail, minAvail, saveMin, saveMax, freq, b);
    }

    /** Passes 4 and 5, unless pass 2 or pass 3 kept no line. */
    method Judge(maxAvail: int, minAvail: int, saveMin: Option<Line>, saveMax: Option<Line>, freq: int, ghost b: Bars)
        returns (computedFreq: Option<int>)
      requires Shape() && b.Valid()
      requires maxAvail == |Pass(b, true).segs| + 1 <= RING_SIZE && Stores(maxseg, Pass(b, true).segs)
      requires minAvail == |Pass(b, false).segs| + 1 <= RING_SIZE && Stores(minseg, Pass(b, false).segs)
      requires saveMin == KeptBy(Pass(b, true), true) && saveMax == KeptBy(Pass(b, false), false)
      modifies maxseg, minseg, this`df
      ensures computedFreq == Verdict(b, freq)
    {
      computedFreq := Some(freq);
      if saveMin.Some? && saveMax.Some? {
        var inconsistent :=
          Splice(maxAvail, minAvail, saveMin.value, saveMax.value, Pass(b, true).segs, Pass(b, false).segs);
        if !inconsistent {
          computedFreq := Decide(df, saveMin.value, saveMax.value, freq);
        }
      }
    }

    /** The measurements held, oldest first, when slot `next` is the one to write next. */
    ghost function HistoryAt(next: int): (d: seq<Datum>)
      requires Shape() && 0 <= valid <= RING_SIZE && 0 <= next < RING_SIZE
      reads this, ring
      ensures |d| == valid
      ensures forall k :: 0 <= k < valid ==> d[k] == ring[Held(next, valid, k)]
    {
      var r, n := ring, valid;
      seq(n, k requires 0 <= k < n && r.Length == RING_SIZE reads r => r[Held(next, n, k)])
    }

    ghost function History(): seq<Datum>
      requires Shape() && 0 <= valid <= RING_SIZE
      reads this, ring
    {
      HistoryAt(rp)
    }

    ghost predicate Timed(d: seq<Datum>)
      reads this
    {
      |d| == |clock| && forall k :: 0 <= k < |d| ==> d[k].absolute == clock[k] % ERA
    }

    /** Between two measurements rp is the slot to write next. */
    ghost predicate Ready()
      reads this, ring
    {
      && Shape()
      && 0 <= valid <= RING_SIZE && |clock| == valid
      && Ticking(clock)
      && Timed(History())
    }

    constructor ()
      ensures Ready() && clock == []
    {
      ring := new Datum[RING_SIZE](_ => Datum(0, 0.0, 0.0, 0, 0.0, 0.0));
      maxseg := new Line[RING_SIZE + 1](_ => Line(0.0, 0.0));
      minseg := new Line[RING_SIZE + 1](_ => Line(0.0, 0.0));
      df := Shifts(0.0, 0.0);
      rp, valid := 0, 0;
      clock := [];
    }

    method Store(d: Datum)
      requires Shape() && 0 <= valid <= RING_SIZE
      modifies ring, this`valid
      ensures valid == if old(valid) < RING_SIZE then old(valid) + 1 else old(valid)
      ensures HistoryAt((rp + 1) % RING_SIZE) == Shifted(old(History()), d)
    {
      HeldSlots(rp, if valid < RING_SIZE then valid + 1 else valid);
      ring[rp] := d;
      if valid < RING_SIZE {
        valid := valid + 1;
      }
    }

    lemma FullHistory()
      requires Shape() && valid == RING_SIZE == |clock| && Ticking(clock)
      ensures HistoryAt((rp + 1) % RING_SIZE) == Data()
      ensures Timed(Data()) ==> Full()
    {
      HeldSlots(rp, RING_SIZE);
      if Timed(Data()) {
        forall k | 0 <= k < RING_SIZE ensures ring[Slot(rp, k)].absolute == clock[k] % ERA {
          assert Data()[k].absolute == clock[k] % ERA;
        }
      }
    }

    /** A measurement arrives: it is stored, and once the ring is full the five passes choose the
        new frequency.  None stands for a frequency that is not a number.  `now` is the time of
        arrival without the 32-bit wrap. */
    method ContemplateData(absolute: int, skew: real, errorbar: real, freq: int, minDelay: real, ghost now: int)
        returns (computedFreq: Option<int>)
      requires Ready()
      requires absolute == now % ERA
      requires Ticking(Shifted(clock, now))
      modifies ring, maxseg, minseg, this`df, this`rp, this`valid, this`clock
      ensures Ready() && clock == Shifted(old(clock), now)
      ensures var arrived := Shifted(old(History()), Datum(absolute, skew, errorbar - minDelay, freq,
                                                            old(ring[rp].smin), old(ring[rp].smax)));
              if |clock| < RING_SIZE then
                History() == arrived && computedFreq == Some(freq)
              else
                && History() == Corrected(arrived, clock, freq)
                && BarsOf(History(), clock).Valid()
                && computedFreq == Verdict(BarsOf(History(), clock), freq)
    {
      ghost var held := Accept(Datum(absolute, skew, errorbar - minDelay, freq, ring[rp].smin, ring[rp].smax), now);
      if valid == RING_SIZE {
        held, computedFreq := Correct(held, freq);
        Advance(held);
      } else {
        computedFreq := Some(freq);
        Advance(held);
      }
    }

    method Accept(d: Datum, ghost now: int) returns (ghost arrived: seq<Datum>)
      requires Ready() && d.absolute == now % ERA && Ticking(Shifted(clock, now))
      modifies ring, this`valid, this`clock
      ensures Shape() && 0 <= valid <= RING_SIZE && |clock| == valid && Ticking(clock)
      ensures clock == Shifted(old(clock), now) && arrived == Shifted(old(History()), d)
      ensures HistoryAt((rp + 1) % RING_SIZE) == arrived && Timed(arrived)
    {
      arrived := Shifted(History(), d);
      Store(d);
      clock := Shifted(clock, now);
    }

    /** The passes over the full ring, in the order of the entries after rp has moved on. */
    method Correct(ghost arrived: seq<Datum>, freq: int) returns (ghost held: seq<Datum>, computedFreq: Option<int>)
      requires Shape() && valid == |clock| == RING_SIZE && Ticking(clock)
      requires HistoryAt((rp + 1) % RING_SIZE) == arrived && Timed(arrived)
      modifies ring, maxseg, minseg, this`df
      ensures held == Corrected(arrived, clock, freq)
      ensures HistoryAt((rp + 1) % RING_SIZE) == held && Timed(held)
      ensures BarsOf(held, clock).Valid() && computedFreq == Verdict(BarsOf(held, clock), freq)
    {
      FullHistory();
      computedFreq := Rethink(freq);
      held := Data();
      FullHistory();
    }

    method Advance(ghost held: seq<Datum>)
      requires Shape() && 0 <= valid <= RING_SIZE && HistoryAt((rp + 1) % RING_SIZE) == held
      modifies this`rp
      ensures Shape() && rp == (old(rp) + 1) % RING_SIZE && History() == held
    {
      rp := (rp + 1) % RING_SIZE;
    }
  }
}
