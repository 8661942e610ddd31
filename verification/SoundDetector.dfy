/** The sound-alarm detector of AudioAlarm/handle_audio.c: an average of the quiet levels, a sliding
  window of the last fifteen levels, and an alarm when enough of the window is far above the average.

  `Step` is one call; class Detector is the code, over the linked queue, proved against it.  Levels
  are real numbers.
 */
module SoundDetector {
  import opened LevelQueue

  const WINDOW := 15

  /** alg_parameter. */
  datatype Parameter = Parameter(environment: real, noiseOffset: real, count: int)

  /** The parameters CountDb sets for a sensitivity level; `was` for an unknown one. */
  function ParameterOf(level: int, was: Parameter): Parameter {
    match level
    case 1 => Parameter(5.2, 15.0, 2)
    case 2 => Parameter(4.8, 13.0, 2)
    case 3 => Parameter(4.4, 10.0, 2)
    case 4 => Parameter(4.0, 8.0, 2)
    case 5 => Parameter(3.6, 7.0, 2)
    case 6 => Parameter(3.2, 6.0, 2)
    case 7 => Parameter(2.8, 5.3, 2)
    case 8 => Parameter(2.4, 4.5, 2)
    case 9 => Parameter(2.0, 3.0, 1)
    case _ => was
  }

  /** The detector's variables and the queue. */
  datatype State = State(lastdb: real, poweron: int, sum: real, num: int, average: real, window: seq<real>)

  const INITIAL := State(0.0, 0, 0.0, 0, 0.0, [])

  function Around(average: real): real {
    if average < 50.0 then 54.0 else 55.0
  }

  /** The environment after a level: it counts if it is not much above the one before. */
  function Listen(d: State, db: real, p: Parameter): (r: State)
    requires 0 <= d.num
    ensures 0 <= r.num
  {
    if db - d.lastdb < p.environment then
      var sum, num := d.sum + db, d.num + 1;
      d.(lastdb := db, num := num, sum := sum, average := sum / num as real)
    else
      d.(lastdb := db)
  }

  function Newest(s: seq<real>): (r: seq<real>)
    ensures |r| <= WINDOW && |r| <= |s|
  {
    if |s| <= WINDOW then s else s[|s| - WINDOW..]
  }

  predicate Alarms(window: seq<real>, average: real, p: Parameter) {
    Above(window, average + p.noiseOffset, Around(average)) >= p.count
  }

  /** The window after a level, and the verdict; an alarm empties the window. */
  function Judge(d: State, db: real, p: Parameter): (r: (State, bool))
    ensures r.0 == d.(window := r.0.window)
  {
    var window := Newest(d.window + [db]);
    if Alarms(window, d.average, p) then (d.(window := []), true) else (d.(window := window), false)
  }

  /** One call: the first four levels after power-on only set the last level. */
  function Step(d: State, db: real, p: Parameter): (r: (State, bool))
    requires 0 <= d.num
    ensures 0 <= r.0.num && r.0.poweron == d.poweron + 1
  {
    var e := d.(poweron := d.poweron + 1);
    if e.poweron < 5 then (e.(lastdb := db), false) else Judge(Listen(e, db, p), db, p)
  }

  // ---------- whole runs ----------

  datatype Input = Input(db: real, p: Parameter)

  function Run(inputs: seq<Input>): (d: State)
    ensures 0 <= d.num && d.poweron == |inputs|
  {
    if inputs == [] then INITIAL
    else Step(Run(inputs[..|inputs| - 1]), inputs[|inputs| - 1].db, inputs[|inputs| - 1].p).0
  }

  /** Whether the last call of a run raised the alarm. */
  predicate AlarmAt(inputs: seq<Input>)
    requires inputs != []
  {
    Step(Run(inputs[..|inputs| - 1]), inputs[|inputs| - 1].db, inputs[|inputs| - 1].p).1
  }

  /** The levels after the warm-up since the last alarm. */
  function SinceAlarm(inputs: seq<Input>): (r: seq<real>) {
    if |inputs| < 5 || AlarmAt(inputs) then []
    else SinceAlarm(inputs[..|inputs| - 1]) + [inputs[|inputs| - 1].db]
  }

  /** The levels after the warm-up that are not much above the one before. */
  function Quiet(inputs: seq<Input>): (r: seq<real>) {
    if |inputs| < 5 then []
    else
      var n := |inputs| - 1;
      Quiet(inputs[..n])
      + if inputs[n].db - inputs[n - 1].db < inputs[n].p.environment then [inputs[n].db] else []
  }

  function Sum(s: seq<real>): real {
    if s == [] then 0.0 else Sum(s[..|s| - 1]) + s[|s| - 1]
  }

  function Mean(s: seq<real>): real {
    if s == [] then 0.0 else Sum(s) / |s| as real
  }

  /** The environment holds the number, the sum and the mean of q. */
  predicate Environment(d: State, q: seq<real>) {
    d.num == |q| && d.sum == Sum(q) && d.average == Mean(q)
  }

  lemma ListenHolds(d: State, q: seq<real>, db: real, p: Parameter)
    requires Environment(d, q)
    ensures Environment(Listen(d, db, p), if db - d.lastdb < p.environment then q + [db] else q)
  {
    assert (q + [db])[..|q|] == q;
  }

  /** What the variables hold after any run: the window is the newest fifteen of the levels since the
      last alarm, and the environment is the mean of the quiet levels. */
  lemma {:induction false} RunHolds(inputs: seq<Input>)
    ensures Run(inputs).window == Newest(SinceAlarm(inputs))
    ensures Environment(Run(inputs), Quiet(inputs))
    ensures inputs != [] ==> Run(inputs).lastdb == inputs[|inputs| - 1].db
  {
    if inputs != [] {
      var before := inputs[..|inputs| - 1];
      RunHolds(before);
      if |inputs| >= 5 {
        var d := Run(before).(poweron := |inputs|);
        LastStep(inputs, d);
        EnvironmentHolds(inputs, before, d);
        WindowHolds(inputs, before, d);
      }
    }
  }

  lemma EnvironmentHolds(inputs: seq<Input>, before: seq<Input>, d: State)
    requires |inputs| >= 5 && before == inputs[..|inputs| - 1]
    requires Environment(d, Quiet(before)) && d.lastdb == inputs[|inputs| - 2].db
    ensures var x := inputs[|inputs| - 1];
            Environment(Listen(d, x.db, x.p), Quiet(inputs))
  {
    var x := inputs[|inputs| - 1];
    var q := Quiet(before);
    ListenHolds(d, q, x.db, x.p);
    assert Quiet(inputs) == if x.db - d.lastdb < x.p.environment then q + [x.db] else q;
  }

  lemma WindowHolds(inputs: seq<Input>, before: seq<Input>, d: State)
    requires |inputs| >= 5 && before == inputs[..|inputs| - 1] && d.window == Newest(SinceAlarm(before))
    requires 0 <= d.num
    requires var x := inputs[|inputs| - 1];
             AlarmAt(inputs) == Judge(Listen(d, x.db, x.p), x.db, x.p).1
    ensures var x := inputs[|inputs| - 1];
            Judge(Listen(d, x.db, x.p), x.db, x.p).0.window == Newest(SinceAlarm(inputs))
  {
    NewestOfNewest(SinceAlarm(before), inputs[|inputs| - 1].db);
  }

  lemma LastStep(inputs: seq<Input>, d: State)
    requires |inputs| >= 5 && d == Run(inputs[..|inputs| - 1]).(poweron := |inputs|)
    ensures var x := inputs[|inputs| - 1];
            (Run(inputs), AlarmAt(inputs)) == Judge(Listen(d, x.db, x.p), x.db, x.p)
  {
    StepAfterWarmUp(Run(inputs[..|inputs| - 1]), inputs[|inputs| - 1].db, inputs[|inputs| - 1].p);
  }

  lemma StepAfterWarmUp(before: State, db: real, p: Parameter)
    requires 0 <= before.num && before.poweron >= 4
    ensures Step(before, db, p) == Judge(Listen(before.(poweron := before.poweron + 1), db, p), db, p)
  {
  }

  lemma NewestOfNewest(s: seq<real>, x: real)
    ensures Newest(Newest(s) + [x]) == Newest(s + [x])
  {
  }

  /** The alarm is raised exactly when, after the warm-up, enough of the newest fifteen levels since
      the last alarm, this one included, are above both limits. */
  lemma AlarmExactly(inputs: seq<Input>)
    requires inputs != []
    ensures var n := |inputs| - 1;
            AlarmAt(inputs) <==>
              |inputs| >= 5
              && Alarms(Newest(SinceAlarm(inputs[..n]) + [inputs[n].db]), Mean(Quiet(inputs)), inputs[n].p)
  {
    var n := |inputs| - 1;
    RunHolds(inputs[..n]);
    RunHolds(inputs);
    NewestOfNewest(SinceAlarm(inputs[..n]), inputs[n].db);
    if |inputs| >= 5 {
      LastStep(inputs, Run(inputs[..n]).(poweron := |inputs|));
    }
  }

  /** The places, from the given one on, of the levels above both limits. */
  ghost function Loud(s: seq<real>, from: nat, limit0: real, limit1: real): set<int> {
    set i | from <= i < |s| && s[i] > limit0 && s[i] > limit1
  }

  lemma {:induction false} AboveCountsLoud(s: seq<real>, from: nat, limit0: real, limit1: real)
    requires from <= |s|
    ensures Above(s[from..], limit0, limit1) == |Loud(s, from, limit0, limit1)|
    decreases |s|
  {
    if from < |s| {
      var n := |s| - 1;
      AboveCountsLoud(s[..n], from, limit0, limit1);
      assert s[from..][..n - from] == s[..n][from..];
      var loud, before := Loud(s, from, limit0, limit1), Loud(s[..n], from, limit0, limit1);
      assert loud == if s[n] > limit0 && s[n] > limit1 then before + {n} else before;
    } else {
      assert Loud(s, from, limit0, limit1) == {};
    }
  }

  /** Of the last fifteen levels at least `count` are above the average by more than the offset, and above 54,
      or above 55 if the average is 50 or more. */
  ghost predicate LoudEnough(levels: seq<real>, average: real, p: Parameter) {
    var first := if |levels| < 15 then 0 else |levels| - 15;
    |Loud(levels, first, average + p.noiseOffset, if average < 50.0 then 54.0 else 55.0)| >= p.count
  }

  lemma WindowIsLoud(levels: seq<real>, average: real, p: Parameter)
    ensures Alarms(Newest(levels), average, p) <==> LoudEnough(levels, average, p)
  {
    var first := if |levels| < 15 then 0 else |levels| - 15;
    assert Newest(levels) == levels[first..];
    AboveCountsLoud(levels, first, average + p.noiseOffset, Around(average));
  }

  /** In plain terms: the alarm is raised exactly when, after the warm-up, the levels since the last alarm are
      loud enough for the mean of the quiet ones. */
  lemma AlarmMeans(inputs: seq<Input>)
    requires inputs != []
    ensures var n := |inputs| - 1;
            AlarmAt(inputs) <==>
              |inputs| >= 5 && LoudEnough(SinceAlarm(inputs[..n]) + [inputs[n].db], Mean(Quiet(inputs)), inputs[n].p)
  {
    var n := |inputs| - 1;
    AlarmExactly(inputs);
    WindowIsLoud(SinceAlarm(inputs[..n]) + [inputs[n].db], Mean(Quiet(inputs)), inputs[n].p);
  }

  /** The average lies between any bounds of the quiet levels. */
  lemma {:induction false} MeanIsBetween(s: seq<real>, lo: real, hi: real)
    requires s != [] && forall x :: x in s ==> lo <= x <= hi
    ensures lo <= Mean(s) <= hi
  {
    SumIsBetween(s, lo, hi);
    var n := |s| as real;
    assert lo == n * lo / n && hi == n * hi / n;
    DivideKeepsOrder(n * lo, Sum(s), n);
    DivideKeepsOrder(Sum(s), n * hi, n);
  }

  lemma DivideKeepsOrder(a: real, b: real, n: real)
    requires a <= b && 0.0 < n
    ensures a / n <= b / n
  {
    assert (b - a) / n >= 0.0;
    assert b / n == a / n + (b - a) / n;
  }

  lemma {:induction false} SumIsBetween(s: seq<real>, lo: real, hi: real)
    requires forall x :: x in s ==> lo <= x <= hi
    ensures |s| as real * lo <= Sum(s) <= |s| as real * hi
  {
    if s != [] {
      var n := |s| - 1;
      assert forall x :: x in s[..n] ==> x in s;
      SumIsBetween(s[..n], lo, hi);
      assert s[n] in s;
      OneMoreTime(|s|, lo);
      OneMoreTime(|s|, hi);
    }
  }

  lemma OneMoreTime(n: int, x: real)
    ensures n as real * x == (n - 1) as real * x + x
  {
    var m := (n - 1) as real;
    assert n as real == m + 1.0;
    assert (m + 1.0) * x == m * x + x;
  }

  /** A more sensitive level raises the alarm whenever a less sensitive one does, for the same window
      and average. */
  lemma SensitivityIsMonotone(window: seq<real>, average: real, l: int, m: int, was: Parameter)
    requires 1 <= l <= m <= 9 && Alarms(window, average, ParameterOf(l, was))
    ensures Alarms(window, average, ParameterOf(m, was))
  {
    var p, q := ParameterOf(l, was), ParameterOf(m, was);
    assert q.noiseOffset <= p.noiseOffset && q.count <= p.count;
    AboveIsMonotone(window, average + p.noiseOffset, average + q.noiseOffset, Around(average));
  }

  /** The levels of sensitivity are evenly spaced in what still counts as quiet, and only the last is content
      with a single loud level. */
  lemma SensitivityLevels(l: int, was: Parameter)
    requires 1 <= l <= 9
    ensures ParameterOf(l, was).environment == 5.6 - 0.4 * l as real
    ensures ParameterOf(l, was).count == if l == 9 then 1 else 2
    ensures 3.0 <= ParameterOf(l, was).noiseOffset <= 15.0
  {
  }

  lemma {:induction false} AboveIsMonotone(s: seq<real>, a: real, b: real, c: real)
    requires b <= a
    ensures Above(s, a, c) <= Above(s, b, c)
  {
    if s != [] {
      AboveIsMonotone(s[..|s| - 1], a, b, c);
    }
  }

  lemma {:induction false} AboveAtMost(s: seq<real>, a: real, b: real)
    ensures Above(s, a, b) <= |s|
  {
    if s != [] {
      AboveAtMost(s[..|s| - 1], a, b);
    }
  }

  /** Two alarms are at least `count` levels apart, because the first empties the window. */
  lemma AlarmsAreApart(inputs: seq<Input>, k: nat)
    requires 0 < k < |inputs| && AlarmAt(inputs[..k]) && AlarmAt(inputs)
    ensures inputs[|inputs| - 1].p.count <= |inputs| - k
  {
    FewSinceAlarm(inputs, k);
    AlarmNeedsCount(inputs);
  }

  lemma FewSinceAlarm(inputs: seq<Input>, k: nat)
    requires 0 < k < |inputs| && AlarmAt(inputs[..k])
    ensures |SinceAlarm(inputs[..|inputs| - 1])| < |inputs| - k
  {
    NoneSinceAlarm(inputs[..k]);
    SinceAlarmGrows(inputs[..|inputs| - 1], inputs[..k]);
  }

  lemma AlarmNeedsCount(inputs: seq<Input>)
    requires inputs != [] && AlarmAt(inputs)
    ensures inputs[|inputs| - 1].p.count <= |SinceAlarm(inputs[..|inputs| - 1])| + 1
  {
    var n := |inputs| - 1;
    AlarmExactly(inputs);
    AlarmNeedsLevels(SinceAlarm(inputs[..n]) + [inputs[n].db], Mean(Quiet(inputs)), inputs[n].p);
  }

  lemma AlarmNeedsLevels(s: seq<real>, average: real, p: Parameter)
    requires Alarms(Newest(s), average, p)
    ensures p.count <= |s|
  {
    AboveAtMost(Newest(s), average + p.noiseOffset, Around(average));
  }

  lemma {:induction false} SinceAlarmGrows(inputs: seq<Input>, start: seq<Input>)
    requires start <= inputs && SinceAlarm(start) == []
    ensures |SinceAlarm(inputs)| <= |inputs| - |start|
  {
    if inputs != start {
      SinceAlarmGrows(inputs[..|inputs| - 1], start);
      OneMoreSinceAlarm(inputs);
    }
  }

  lemma OneMoreSinceAlarm(inputs: seq<Input>)
    requires inputs != []
    ensures |SinceAlarm(inputs)| <= |SinceAlarm(inputs[..|inputs| - 1])| + 1
  {
  }

  lemma NoneSinceAlarm(inputs: seq<Input>)
    requires inputs != [] && AlarmAt(inputs)
    ensures |inputs| >= 5 && SinceAlarm(inputs) == []
  {
    AlarmExactly(inputs);
  }

  // ---------- the code ----------

  class Detector {
    var lastdb: real
    var countPoweron: int
    var sum: real
    var num: int
    var average: real
    const dbQueue: Queue

    ghost predicate Valid()
      reads this, dbQueue, dbQueue.nodes
    {
      dbQueue.Valid() && 0 <= num
    }

    ghost function View(): State
      reads this, dbQueue, dbQueue.nodes
    {
      State(lastdb, countPoweron, sum, num, average, dbQueue.Contents())
    }

    constructor ()
      ensures Valid() && View() == INITIAL && fresh(dbQueue)
    {
      lastdb, countPoweron, sum, num, average := 0.0, 0, 0.0, 0, 0.0;
      dbQueue := new Queue();
    }

    method AlgSoundDection(db: real, p: Parameter) returns (alarm: bool)
      requires Valid()
      modifies this, dbQueue, dbQueue.nodes
      ensures Valid() && (View(), alarm) == Step(old(View()), db, p)
    {
      countPoweron := countPoweron + 1;
      if countPoweron < 5 {
        lastdb := db;
        return false;
      }
      ListenTo(db, p);
      alarm := JudgeLevel(db, p);
    }

    /** The average of the environment. */
    method ListenTo(db: real, p: Parameter)
      requires Valid()
      modifies this
      ensures Valid() && View() == Listen(old(View()), db, p)
    {
      var minus := db - lastdb;
      lastdb := db;
      if minus < p.environment {
        num := num + 1;
        sum := sum + db;
        average := sum / num as real;
      }
    }

    /** The window and the verdict. */
    method JudgeLevel(db: real, p: Parameter) returns (alarm: bool)
      requires dbQueue.Valid()
      modifies dbQueue, dbQueue.nodes
      ensures dbQueue.Valid()
      ensures var window := Newest(old(dbQueue.Contents()) + [db]);
              && alarm == Alarms(window, average, p)
              && dbQueue.Contents() == if alarm then [] else window
    {
      var around := if average < 50.0 then 54.0 else 55.0;
      Slide(db);
      var count := dbQueue.CountAbove(average + p.noiseOffset, around);
      if count >= p.count {
        dbQueue.ClearQueue();
        return true;
      }
      return false;
    }

    /** Puts the level into the queue and trims the queue to fifteen. */
    method Slide(db: real)
      requires dbQueue.Valid()
      modifies dbQueue, dbQueue.nodes
      ensures dbQueue.Valid() && dbQueue.Contents() == Newest(old(dbQueue.Contents()) + [db])
    {
      var _ := dbQueue.EnQueue(db, true);
      ghost var all := dbQueue.Contents();
      ghost var k := 0;
      while dbQueue.size > WINDOW
        invariant dbQueue.Valid() && 0 <= k <= |all| && dbQueue.Contents() == all[k..]
        invariant k == 0 || |all| - k >= WINDOW
        decreases dbQueue.size
      {
        var _, _ := dbQueue.DeQueue();
        k := k + 1;
      }
    }
  }
}
