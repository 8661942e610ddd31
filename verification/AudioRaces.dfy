/** Every exception that AudioRing.Calm makes is met: calm runs from power-on lead to each of them, so none
  can be dropped.
 */
module AudioRaces {
  import opened AudioRing
  import opened Wrappers

  /** Some calm run ends in x. */
  ghost predicate Reached(x: State) {
    exists moves :: RunCalm(moves) == x
  }

  lemma ReachedIsKept(x: State)
    requires Reached(x)
    ensures RingInv(x.r) && SenderInv(x.r, x.s)
  {
    var moves :| RunCalm(moves) == x;
  }

  lemma Go(x: State, m: Move) returns (y: State)
    requires Reached(x) && (m.Capture? ==> CanWrite(x.r, m.e) && Calm(x.r, x.s, m.e))
    ensures CanMove(x, m) && y == Moved(x, m) && Reached(y)
  {
    ReachedIsKept(x);
    y := Moved(x, m);
    var moves :| RunCalm(moves) == x;
    assert (moves + [m])[..|moves|] == moves;
    assert RunCalm(moves + [m]) == y;
  }

  /** Between packages, in the first epoch of the first life. */
  predicate Filling(r: Ring, count: int) {
    r.running && r.stage == Ready && r.life == 0 && r.Base() == 0 && r.count == count
  }

  /** Publishing does not disturb this sender. */
  predicate Patient(s: Sender, count: int) {
    match s.step
    case Checking => true
    case First => true
    case Fourth => s.want <= count
    case Fifth => count + 1 - s.want < MAX_INDEX
    case _ => false
  }

  /** A package is written. */
  lemma WriteOne(x: State) returns (y: State)
    requires Reached(x) && x.r.running && x.r.stage == Ready
    ensures Reached(y) && y.s == x.s && y.r.stage == Written(0) && y.r.count == x.r.count && y.r.running
    ensures y.r.life == x.r.life && y.r.Base() == x.r.Base()
  {
    y := Go(x, Capture(Finish(0)));
  }

  /** A package is written and counted. */
  lemma CountOne(x: State, n: nat) returns (y: State)
    requires Reached(x) && Filling(x.r, n) && n < MAX_INDEX && Patient(x.s, n)
    ensures Reached(y) && y.s == x.s && y.r.stage == Counted && y.r.count == n + 1
    ensures y.r.running && y.r.life == 0 && y.r.Base() == 0
  {
    y := WriteOne(x);
    y := Go(y, Capture(Publish));
  }

  lemma PublishOne(x: State, n: nat) returns (y: State)
    requires Reached(x) && Filling(x.r, n) && n < MAX_INDEX - 1 && Patient(x.s, n)
    ensures Reached(y) && y.s == x.s && Filling(y.r, n + 1)
  {
    y := CountOne(x, n);
    y := Go(y, Capture(Wrap));
  }

  lemma {:induction false} PublishUpTo(x: State, n: nat, m: nat) returns (y: State)
    requires Reached(x) && Filling(x.r, n) && n <= m < MAX_INDEX
    requires forall k :: n <= k < m ==> Patient(x.s, k)
    ensures Reached(y) && y.s == x.s && Filling(y.r, m)
    decreases m - n
  {
    y := x;
    if n < m {
      y := PublishOne(x, n);
      y := PublishUpTo(y, n + 1, m);
    }
  }

  /** The sender has sent all n packages and is about to start its round. */
  predicate Even(x: State, n: nat) {
    && Filling(x.r, n) && x.s.step == Checking && x.s.want == n
    && (n > 0 ==> x.s.data.Some? && x.s.index == n - 1 && LastNow(x.r, x.s))
  }

  lemma Awakes() returns (x: State)
    ensures Reached(x) && Even(x, 0)
  {
    assert RunCalm([]) == Initially();
    x := Initially();
    x := Go(x, Look);
    x := Go(x, Look);
    x := Go(x, Look);
  }

  /** One load after the other, up to the fourth, for a package that is there. */
  lemma ToThird(x: State) returns (y: State)
    requires Reached(x) && x.r.running && x.s.step == Checking && 0 <= x.s.want < x.r.count
    ensures Reached(y) && y.r == x.r && y.s == x.s.(step := Third)
  {
    y := Go(x, Look);
    y := Go(y, Look);
  }

  lemma ToFifth(x: State) returns (y: State)
    requires Reached(x) && x.s.step == Fourth && 0 <= x.s.want < x.r.count < x.s.want + SLOTS
    ensures Reached(y) && y.r == x.r
    ensures y.s == x.s.(step := Fifth, data := Some(x.s.want % SLOTS), life := x.r.life, base := x.r.Base(),
                        index := x.s.want)
  {
    ReachedIsKept(x);
    y := Go(x, Look);
  }

  lemma SendFetched(x: State) returns (y: State)
    requires Reached(x) && x.s.step == Fifth && x.s.data.Some? && 0 <= x.s.want < x.r.count < x.s.want + SLOTS - 1
    requires Now(x.r, x.s.life, x.s.base)
    ensures Reached(y) && y.r == x.r && y.s.step == Checking && y.s.want == x.s.want + 1
    ensures y.s.data == x.s.data && y.s.index == x.s.index && LastNow(y.r, y.s)
  {
    ReachedIsKept(x);
    FifthAnswers(x.r, x.s);
    var copying := x.s.(want := x.s.want + 1, step := Copying);
    assert Read(x.r, x.s) == copying;
    y := Go(x, Look);
    assert y == State(x.r, copying);
    y := Go(y, Look);
  }

  lemma SendOne(x: State, n: nat) returns (y: State)
    requires Reached(x) && Even(x, n) && n < MAX_INDEX - 1
    ensures Reached(y) && Even(y, n + 1)
  {
    y := PublishOne(x, n);
    y := ToThird(y);
    y := Go(y, Look);
    y := ToFifth(y);
    y := SendFetched(y);
  }

  lemma {:induction false} GetsEven(n: nat) returns (x: State)
    requires n < MAX_INDEX
    ensures Reached(x) && Even(x, n)
  {
    if n == 0 {
      x := Awakes();
    } else {
      x := GetsEven(n - 1);
      x := SendOne(x, n - 1);
    }
  }

  /** A calm run leads to a sender about to make this load and a store that Calm excepts. */
  ghost predicate Met(step: Step, e: Event) {
    exists x :: Reached(x) && x.s.step == step && CanWrite(x.r, e) && !Calm(x.r, x.s, e)
  }

  lemma MetAt(x: State, e: Event)
    requires Reached(x) && CanWrite(x.r, e) && !Calm(x.r, x.s, e)
    ensures Met(x.s.step, e)
  {
  }

  /** A stop, up to its last store. */
  lemma Erases(x: State) returns (y: State)
    requires Reached(x) && x.r.running && x.r.stage == Ready
    ensures Reached(y) && y.s == x.s && CanWrite(y.r, Zero) && y.r.count == x.r.count
  {
    y := Go(x, Capture(Stop));
    y := Go(y, Capture(Erase));
  }

  /** The sender waits for package 1, which is written, having sent package 0. */
  lemma MetAtSecond()
    ensures Met(Second, Publish)
  {
    var x := GetsEven(1);
    x := Go(x, Look);
    x := Go(x, Look);
    x := WriteOne(x);
    MetAt(x, Publish);
  }

  /** The sender wants package n, having sent package n - 1. */
  lemma MetAtThird()
    ensures Met(Third, Zero) && Met(Third, Wrap)
  {
    var x := GetsEven(1);
    x := PublishOne(x, 1);
    x := ToThird(x);
    x := Erases(x);
    MetAt(x, Zero);
    var last := MAX_INDEX - 1;
    x := GetsEven(last);
    x := CountOne(x, last);
    x := ToThird(x);
    MetAt(x, Wrap);
  }

  /** The sender at its fourth load for package n. */
  lemma AtFourth(n: nat) returns (x: State)
    requires n < 10
    ensures Reached(x) && Filling(x.r, n + 1) && x.s.step == Fourth && x.s.want == n
  {
    x := GetsEven(n);
    x := PublishOne(x, n);
    x := ToThird(x);
    x := Go(x, Look);
  }

  lemma MetAtFourth()
    ensures Met(Fourth, Zero) && Met(Fourth, Wrap)
  {
    var x := AtFourth(0);
    var y := Erases(x);
    MetAt(y, Zero);
    y := PublishUpTo(x, 1, MAX_INDEX - 1);
    y := CountOne(y, MAX_INDEX - 1);
    MetAt(y, Wrap);
  }

  /** After a stop and a start the count comes up to index 1 from below. */
  lemma MetAtFourthByPublishing()
    ensures Met(Fourth, Publish)
  {
    var x := AtFourth(1);
    x := Erases(x);
    x := Go(x, Capture(Zero));
    x := Go(x, Capture(Start));
    x := WriteOne(x);
    MetAt(x, Publish);
  }

  lemma AtFifth(n: nat) returns (x: State)
    requires n < 10
    ensures Reached(x) && Filling(x.r, n + 1) && x.s.step == Fifth && x.s.want == n && x.s.data.Some?
  {
    x := AtFourth(n);
    x := ToFifth(x);
  }

  lemma MetAtFifth()
    ensures Met(Fifth, Zero) && Met(Fifth, Wrap)
  {
    var x := AtFifth(4);
    var y := Erases(x);
    MetAt(y, Zero);
    y := PublishUpTo(x, 5, MAX_INDEX - 1);
    y := CountOne(y, MAX_INDEX - 1);
    MetAt(y, Wrap);
  }

  lemma MetAtFifthByPublishing()
    ensures Met(Fifth, Publish)
  {
    var x := AtFifth(0);
    x := PublishUpTo(x, 1, MAX_INDEX - 1);
    x := WriteOne(x);
    MetAt(x, Publish);
  }

  /** None of the exceptions can be dropped. */
  lemma EveryExceptionIsMet()
    ensures Met(Second, Publish)
    ensures Met(Third, Zero) && Met(Third, Wrap)
    ensures Met(Fourth, Zero) && Met(Fourth, Wrap) && Met(Fourth, Publish)
    ensures Met(Fifth, Zero) && Met(Fifth, Wrap) && Met(Fifth, Publish)
  {
    MetAtSecond();
    MetAtThird();
    MetAtFourth();
    MetAtFourthByPublishing();
    MetAtFifth();
    MetAtFifthByPublishing();
  }
}
