/** The ring of encoded audio packages shared by the capture thread of Audio/Audio.c and the sender
  thread of AudioSend/AudioSend.c, as interleaved steps.

  The two share nothing but the ring, the count of packages and the running flag, and use no lock.
  A step is one store to, or one load of, a shared variable; the fetch alone loads the count five
  times.  `slots[w % 750]` should hold the w-th package of the current epoch of 60000.

  What a fetch gets is said for every interleaving.  That the sender never goes back does not hold in
  every interleaving.  `Calm` lists the stores that break it, by the load that the sender makes next;
  outside them it holds, and after any one of them the sender breaks it if left alone (CalmIsExact).
 */
module AudioRing {
  import Modular
  import opened Wrappers

  const SLOTS := 750       // AUDIO_BUFFER_SIZE
  const MAX_INDEX := 60000 // AUDIO_MAX_INDEX
  const WORD := 0x1_0000_0000

  /** A slot is blank after a reset, torn while it is filled, and else holds a whole package. */
  datatype Slot = Blank | Torn | Whole(package: int)

  /** Where the capture thread is: between packages or filling one; package complete, not counted;
      counted, the wrap test still to come; the three stores of a stop. */
  datatype Stage = Ready | Written(package: int) | Counted | Stopping | Erased

  /** What the capture thread owns.  `all`, the packages counted since the last reset, and `life`, the
      number of resets, are history; the program has no such variables. */
  datatype Ring = Ring(slots: seq<Slot>, byteWrite: int, count: int, running: bool, stage: Stage,
                       all: seq<int>, life: nat) {

    /** The number of packages counted before the current epoch. */
    function Base(): int {
      |all| - count
    }
  }

  datatype Event = Fill | Finish(package: int) | Publish | Wrap | Stop | Erase | Zero | Start

  predicate CanWrite(r: Ring, e: Event) {
    match e
    case Fill => r.running && r.stage == Ready
    case Finish(_) => r.running && r.stage == Ready
    case Publish => r.stage.Written?
    case Wrap => r.stage == Counted
    case Stop => r.running && r.stage == Ready
    case Erase => r.stage == Stopping
    case Zero => r.stage == Erased
    case Start => !r.running && r.stage == Ready
  }

  function Write(r: Ring, e: Event): Ring
    requires CanWrite(r, e) && |r.slots| == SLOTS && 0 <= r.byteWrite < SLOTS
  {
    match e
    case Fill => r.(slots := r.slots[r.byteWrite := Torn])
    case Finish(f) =>
      r.(slots := r.slots[r.byteWrite := Whole(f)],
         byteWrite := if SLOTS <= r.byteWrite + 1 then 0 else r.byteWrite + 1, stage := Written(f))
    case Publish => r.(count := r.count + 1, all := r.all + [r.stage.package], stage := Counted)
    case Wrap => r.(count := if r.count >= MAX_INDEX then 0 else r.count, stage := Ready)
    case Stop => r.(running := false, stage := Stopping)
    case Erase => r.(slots := seq(SLOTS, _ => Blank), byteWrite := 0, stage := Erased)
    case Zero => r.(count := 0, all := [], life := r.life + 1, stage := Ready)
    case Start => r.(running := true)
  }

  /** The newest 749 counted packages are where they belong. */
  ghost predicate Intact(r: Ring)
    requires |r.slots| == SLOTS
  {
    forall t :: 0 <= t < |r.all| && |r.all| < t + SLOTS ==> r.slots[t % SLOTS] == Whole(r.all[t])
  }

  ghost predicate RingInv(r: Ring) {
    && |r.slots| == SLOTS && 0 <= r.byteWrite < SLOTS
    && 0 <= r.count <= MAX_INDEX && (r.count == MAX_INDEX ==> r.stage == Counted)
    && 0 <= r.Base() && r.Base() % MAX_INDEX == 0
    && (r.stage != Erased ==>
          && Intact(r)
          && r.byteWrite == (if r.stage.Written? then |r.all| + 1 else |r.all|) % SLOTS)
    && (r.stage == Erased ==> r.byteWrite == 0 && forall i :: 0 <= i < SLOTS ==> r.slots[i] == Blank)
    && (r.stage.Written? ==> r.slots[|r.all| % SLOTS] == Whole(r.stage.package))
    && (r.stage in {Stopping, Erased} ==> !r.running)
  }

  lemma FillingMissesTheNewest(r: Ring, s: Slot)
    requires |r.slots| == SLOTS && Intact(r)
    ensures Intact(r.(slots := r.slots[|r.all| % SLOTS := s]))
  {
    forall t | 0 <= t < |r.all| && |r.all| < t + SLOTS ensures t % SLOTS != |r.all| % SLOTS {
      Modular.ModsDiffer(t, |r.all|, SLOTS);
    }
  }

  lemma FillKeepsRing(r: Ring)
    requires RingInv(r) && CanWrite(r, Fill)
    ensures RingInv(Write(r, Fill))
  {
    FillingMissesTheNewest(r, Torn);
  }

  lemma FinishKeepsRing(r: Ring, f: int)
    requires RingInv(r) && CanWrite(r, Finish(f))
    ensures RingInv(Write(r, Finish(f)))
  {
    FillingMissesTheNewest(r, Whole(f));
    Modular.ModNext(|r.all|, SLOTS);
  }

  lemma PublishKeepsRing(r: Ring)
    requires RingInv(r) && CanWrite(r, Publish)
    ensures RingInv(Write(r, Publish))
  {
    var w := Write(r, Publish);
    assert w.Base() == r.Base() && w.slots == r.slots;
    forall t | 0 <= t < |w.all| && |w.all| < t + SLOTS ensures w.slots[t % SLOTS] == Whole(w.all[t]) {
      if t < |r.all| {
        assert w.all[t] == r.all[t];
      }
    }
  }

  lemma WrapKeepsRing(r: Ring)
    requires RingInv(r) && CanWrite(r, Wrap)
    ensures RingInv(Write(r, Wrap))
  {
    var w := Write(r, Wrap);
    assert w.slots == r.slots && w.all == r.all;
    if r.count >= MAX_INDEX {
      assert w == r.(count := 0, stage := Ready) && w.Base() == r.Base() + MAX_INDEX;
      Modular.ModAdd(r.Base(), MAX_INDEX, 1);
    } else {
      assert w == r.(stage := Ready);
    }
    IntactOf(r, w);
  }

  lemma IntactOf(r: Ring, w: Ring)
    requires |r.slots| == SLOTS && Intact(r) && w.slots == r.slots && w.all == r.all
    ensures Intact(w)
  {
  }

  lemma WriteKeepsRing(r: Ring, e: Event)
    requires RingInv(r) && CanWrite(r, e)
    ensures RingInv(Write(r, e))
  {
    match e
    case Fill => FillKeepsRing(r);
    case Finish(f) => FinishKeepsRing(r, f);
    case Publish => PublishKeepsRing(r);
    case Wrap => WrapKeepsRing(r);
    case _ =>
  }

  // ---------- the sender ----------

  /** What went out: the package at `index` of the epoch that begins after `base` packages, and whether
      the sender jumped since the one before. */
  datatype Sent = Sent(life: nat, base: int, index: int, jumped: bool, serial: int, content: Slot)

  /** Where the sender is: at the running test, at one of its five loads of the count, or copying. */
  datatype Step = Checking | First | Second | Third | Fourth | Fifth | Copying

  /** The sender's variables.  `life`, `base` and `index` say which package `data` points at, `behind`
      that a jump was made since the last package went out; `sent` is history. */
  datatype Sender = Sender(want: int, step: Step, data: Option<nat>, life: nat, base: int, index: int,
                           behind: bool, sent: seq<Sent>)

  /** An int as an unsigned, unsigned subtraction, and an unsigned as an int. */
  function U(x: int): int {
    if x < 0 then x + WORD else x
  }

  function Sub(a: int, b: int): int {
    if b <= a then a - b else a - b + WORD
  }

  function AsInt(u: int): int {
    if u < WORD / 2 then u else u - WORD
  }

  /** What the sender does with the fetch's answer. */
  function Switch(s: Sender, ret: int): Sender {
    if ret == -3 then s.(want := 0, step := Checking)
    else if ret == -2 || ret == -1 then s.(step := Checking)
    else
      var copying := if s.data.None? then Checking else Copying;
      if 0 <= ret < SLOTS - 1 then s.(want := s.want + 1, step := copying)
      else if SLOTS - 1 <= ret < MAX_INDEX then s.(want := s.want + ret, step := Checking, behind := true)
      else s.(step := copying)
  }

  /** What the sender's variables are in every interleaving; only an index from 0 up gets past the first
      load. */
  predicate Shape(s: Sender) {
    && -1 <= s.want <= MAX_INDEX
    && (s.data.Some? ==> s.data.value < SLOTS)
    && (s.step == Copying ==> s.data.Some?)
    && (s.step in {Third, Fourth, Fifth, Copying} ==> 0 <= s.want)
    && (s.step in {Third, Fourth, Fifth} ==> s.want < MAX_INDEX)
  }

  predicate Readable(r: Ring) {
    |r.slots| == SLOTS && 0 <= r.count <= MAX_INDEX
  }

  /** The sender's next step: GetAudioFrameWithWantedIndex load by load, then the switch, then the copy. */
  function Read(r: Ring, s: Sender): (t: Sender)
    requires Readable(r) && Shape(s)
    ensures Shape(t)
  {
    match s.step
    case Checking => if r.running then s.(step := First) else Switch(s.(data := None), -1)
    case First => s.(step := if U(s.want) >= r.count then Second else Third)
    case Second => Switch(s.(data := None), if Sub(U(s.want), r.count) >= 2 then -3 else -2)
    case Third => if U(s.want) < r.count then s.(step := Fourth) else Switch(s, 0)
    case Fourth =>
      if Sub(r.count, U(s.want)) >= SLOTS then s.(data := None, step := Fifth)
      else s.(data := Some(U(s.want) % SLOTS), life := r.life, base := r.Base(), index := s.want, step := Fifth)
    case Fifth => Switch(s, AsInt(Sub(r.count, U(s.want))))
    case Copying =>
      s.(sent := s.sent + [Sent(s.life, s.base, s.index, s.behind, s.want, r.slots[s.data.value])],
         behind := false, step := Checking)
  }

  /** The sender by itself for n steps. */
  function Alone(r: Ring, s: Sender, n: nat): (t: Sender)
    requires Readable(r) && Shape(s)
    ensures Shape(t)
  {
    if n == 0 then s else Read(r, Alone(r, s, n - 1))
  }

  // ---------- in every interleaving ----------

  /** The slot holds the package with that index in the current epoch. */
  predicate IsRight(r: Ring, slot: nat, index: int)
    requires Readable(r) && slot < SLOTS
  {
    0 <= r.Base() + index < |r.all| && r.slots[slot] == Whole(r.all[r.Base() + index])
  }

  /** What the fourth load gets, wherever the count has gone since the third: a slot exactly if the index
      is at most 749 behind the count or equal to it.  The slot is the right one exactly if the index is
      below the count and the ring is not erased, and then it is not the one being filled; an index
      equal to the count gets the slot that is. */
  lemma FetchedSlotIsRight(r: Ring, s: Sender)
    requires RingInv(r) && Shape(s) && s.step == Fourth
    ensures var f := Read(r, s);
            && (f.data.Some? <==> 0 <= r.count - s.want < SLOTS)
            && (f.data.Some? ==> f.data.value == s.want % SLOTS)
            && (f.data.Some? ==> (IsRight(r, f.data.value, s.want) <==> s.want < r.count && r.stage != Erased))
            && (f.data.Some? && r.stage == Ready ==> (r.byteWrite != f.data.value <==> s.want < r.count))
  {
    if 0 <= r.count - s.want < SLOTS {
      BaseVanishes(r.Base(), s.want);
      if s.want < r.count {
        FetchedBelowCount(r, s.want);
      }
    }
  }

  lemma FetchedBelowCount(r: Ring, w: int)
    requires RingInv(r) && 0 <= w < r.count < w + SLOTS
    ensures IsRight(r, w % SLOTS, w) <==> r.stage != Erased
    ensures r.stage == Ready ==> r.byteWrite != w % SLOTS
  {
    var t := r.Base() + w;
    BaseVanishes(r.Base(), w);
    if r.stage != Erased {
      assert Intact(r);
      Modular.ModsDiffer(t, |r.all|, SLOTS);
    }
  }

  /** An epoch is a whole number of laps. */
  lemma BaseVanishes(base: int, w: int)
    requires base % MAX_INDEX == 0
    ensures (base + w) % SLOTS == w % SLOTS
  {
    assert base == 80 * (base / MAX_INDEX) * SLOTS;
    Modular.ModAdd(w, SLOTS, 80 * (base / MAX_INDEX));
  }

  /** Package t stays in its slot until 749 more have been counted.  After that the slot holds a later
      package, except when it is the next to be filled. */
  lemma PackageStaysForALap(r: Ring, t: nat)
    requires RingInv(r) && r.stage != Erased && t < |r.all|
    ensures |r.all| < t + SLOTS ==> r.slots[t % SLOTS] == Whole(r.all[t])
    ensures t + SLOTS < |r.all| && t % SLOTS != |r.all| % SLOTS ==>
              exists later :: t < later < |r.all| && later % SLOTS == t % SLOTS
                              && r.slots[t % SLOTS] == Whole(r.all[later])
  {
    if t + SLOTS < |r.all| && t % SLOTS != |r.all| % SLOTS {
      var k := (|r.all| - 1 - t) / SLOTS;
      var later := t + k * SLOTS;
      Modular.ModAdd(t, SLOTS, k);
      assert |r.all| < later + SLOTS || |r.all| == later + SLOTS;
      Modular.ModAdd(later, SLOTS, 1);
      assert r.slots[later % SLOTS] == Whole(r.all[later]);
    }
  }

  /** What the second look answers: go back if the index is -1, or is two or more ahead of the count,
      or the count has passed it since the first look. */
  lemma RewindExactly(r: Ring, s: Sender)
    requires RingInv(r) && Shape(s) && s.step == Second
    ensures Read(r, s) == if s.want == -1 || s.want < r.count || r.count + 2 <= s.want
                          then s.(data := None, want := 0, step := Checking)
                          else s.(data := None, step := Checking)
  {
  }

  // ---------- what breaks the order ----------

  /** b is a later package than a; and unless the sender has jumped, or the epoch is another, the next. */
  predicate Follows(a: Sent, life: nat, base: int, index: int, behind: bool) {
    || a.life < life
    || (a.life == life && a.base < base)
    || (a.life == life && a.base == base && a.index < index && (behind || index == a.index + 1))
  }

  predicate FollowsSent(a: Sent, b: Sent) {
    Follows(a, b.life, b.base, b.index, b.jumped)
  }

  /** The epoch is over: it belongs to an earlier life, or the count has wrapped since. */
  predicate Past(r: Ring, life: nat, base: int) {
    life < r.life || (life == r.life && base < r.Base())
  }

  predicate Now(r: Ring, life: nat, base: int) {
    life == r.life && base == r.Base()
  }

  function Last(s: Sender): Sent
    requires s.sent != []
  {
    s.sent[|s.sent| - 1]
  }

  /** Nothing has gone out in the current epoch; something has. */
  predicate LastPast(r: Ring, s: Sender) {
    s.sent != [] ==> Past(r, Last(s).life, Last(s).base)
  }

  predicate LastNow(r: Ring, s: Sender) {
    s.sent != [] && Now(r, Last(s).life, Last(s).base)
  }

  /** The package exists: its epoch is over, or its index is below the count. */
  predicate IsCounted(r: Ring, a: Sent) {
    Past(r, a.life, a.base) || (Now(r, a.life, a.base) && a.index < r.count)
  }

  /** What must not happen: the index has gone back to, or before, a package that went out in this epoch;
      or what went out last bears a wrong serial number, or is no package yet, or does not follow the
      one before it. */
  predicate Broken(r: Ring, s: Sender) {
    || (s.step == Checking && LastNow(r, s) && s.want <= Last(s).index)
    || (s.sent != [] && (Last(s).serial != Last(s).index + 1 || !IsCounted(r, Last(s))))
    || (|s.sent| >= 2 && !FollowsSent(s.sent[|s.sent| - 2], Last(s)))
  }

  /** The stores after which the count starts again from 0. */
  predicate Empties(r: Ring, e: Event) {
    e == Zero || (e == Wrap && r.count == MAX_INDEX)
  }

  /** Every store is calm except these:
      at the second load, publishing the package that the sender waits for, in an epoch in which it has
      sent something;
      at the third, a wrap or a reset, when `data` still points at a package other than the wanted one;
      at the fourth, a store that makes the count equal to the wanted index: a wrap or a reset for index
      0, or, after one, publishing;
      at the fifth, with a package fetched, a wrap or a reset for an index above 3, or the 60000th
      publishing for index 0. */
  predicate Calm(r: Ring, s: Sender, e: Event) {
    match s.step
    case Second => !(e == Publish && s.want == r.count && LastNow(r, s))
    case Third => !(Empties(r, e) && s.data.Some? && s.index != s.want)
    case Fourth => !(Empties(r, e) && s.want == 0) && !(e == Publish && r.count + 1 == s.want)
    case Fifth =>
      s.data.Some? ==> !(Empties(r, e) && s.want > 3) && !(e == Publish && r.count + 1 - s.want == MAX_INDEX)
    case _ => true
  }

  /** The state after such a store. */
  predicate Doomed(r: Ring, s: Sender) {
    match s.step
    case Second => 0 <= s.want < r.count && LastNow(r, s)
    case Third => r.count <= s.want && s.data.Some? && s.index != s.want
    case Fourth => r.count == s.want
    case Fifth => s.data.Some? && (r.count + 3 < s.want || r.count - s.want == MAX_INDEX)
    case _ => false
  }

  // ---------- the races ----------

  /** The race at the second load: a sender that waits for the next package looks, the package is
      published, the sender looks again, and goes back to the beginning of the epoch. */
  lemma LookTwiceRace(r: Ring, s: Sender, f: int) returns (r': Ring, s': Sender)
    requires RingInv(r) && r.running && r.stage == Ready
    requires Shape(s) && s.step == Checking && s.want == r.count
    ensures r' == Write(Write(r, Finish(f)), Publish) && RingInv(r')
    ensures s' == Read(r', Read(r, Read(r, s)))
    ensures s'.want == 0 && s'.step == Checking && s.want < r'.count
  {
    FinishKeepsRing(r, f);
    PublishKeepsRing(Write(r, Finish(f)));
    r' := Write(Write(r, Finish(f)), Publish);
    s' := Read(r', Read(r, Read(r, s)));
  }

  /** And then, unless the count is already 749 or more, package 0 of the epoch goes out again. */
  lemma SendsAgainFromZero(r: Ring, s: Sender)
    requires RingInv(r) && r.running && Shape(s) && s.step == Checking && s.want == 0 < r.count < SLOTS - 1
    ensures Alone(r, s, 6).sent == s.sent + [Sent(r.life, r.Base(), 0, s.behind, 1, r.slots[0])]
  {
    var s1 := s.(step := First);
    var s3 := s.(step := Fourth);
    var s4 := s.(step := Fifth, data := Some(0), life := r.life, base := r.Base(), index := 0);
    assert Alone(r, s, 1) == s1 && Alone(r, s, 2) == s.(step := Third) && Alone(r, s, 3) == s3;
    assert Alone(r, s, 4) == s4;
    assert Alone(r, s, 5) == s4.(step := Copying, want := 1);
  }

  /** The race at the third load, as at every wrap: a sender that saw 60000 at its first look and 0 at
      its third advances without a new slot, and sends what `data` still points at, under the serial
      number of the package it wanted. */
  lemma ThirdLoadRace(r: Ring, s: Sender)
    requires Readable(r) && Shape(s) && s.step == Third && r.count <= s.want && s.data.Some?
    ensures Alone(r, s, 2).want == s.want + 1
    ensures Alone(r, s, 2).sent
            == s.sent + [Sent(s.life, s.base, s.index, s.behind, s.want + 1, r.slots[s.data.value])]
  {
    assert Alone(r, s, 1) == s.(want := s.want + 1, step := Copying);
  }

  /** The race at the fourth load: when the count has come to equal the index, the slot that is being
      filled goes out. */
  lemma FourthLoadRace(r: Ring, s: Sender)
    requires RingInv(r) && Shape(s) && s.step == Fourth && r.count == s.want
    ensures Alone(r, s, 3).sent
            == s.sent + [Sent(r.life, r.Base(), r.count, s.behind, s.want + 1, r.slots[s.want % SLOTS])]
    ensures r.stage == Ready ==> r.byteWrite == s.want % SLOTS
  {
    var s1 := s.(step := Fifth, data := Some(s.want % SLOTS), life := r.life, base := r.Base(), index := s.want);
    assert Alone(r, s, 1) == s1;
    assert Alone(r, s, 2) == s1.(want := s.want + 1, step := Copying);
    BaseVanishes(r.Base(), s.want);
  }

  /** The race at the fifth load: an answer that the sender has no case for makes it send the fetched
      package without advancing, under the serial number of the one before. */
  lemma FifthLoadRace(r: Ring, s: Sender)
    requires Readable(r) && Shape(s) && s.step == Fifth && s.data.Some?
    requires r.count + 3 < s.want || r.count - s.want == MAX_INDEX
    ensures Alone(r, s, 2).want == s.want
    ensures Alone(r, s, 2).sent
            == s.sent + [Sent(s.life, s.base, s.index, s.behind, s.want, r.slots[s.data.value])]
  {
    assert AsInt(Sub(r.count, U(s.want))) == r.count - s.want;
    assert Alone(r, s, 1) == s.(step := Copying);
  }

  /** The race at the fourth load as it happens at a stop.  The sender has passed its third load with
      index 0; the capture thread stops, erases and starts from 0; the sender sends a blank slot, the
      next to be filled, as package 0 of the new life. */
  lemma ResetRace(r: Ring, s: Sender) returns (r': Ring, s': Sender)
    requires RingInv(r) && r.running && r.stage == Ready
    requires Shape(s) && s.step == Third && s.want == 0 < r.count
    ensures r' == Write(Write(Write(r, Stop), Erase), Zero) && RingInv(r') && r'.byteWrite == 0
    ensures s' == Alone(r', Read(r, s), 3)
    ensures s'.sent == s.sent + [Sent(r.life + 1, 0, 0, s.behind, 1, Blank)]
  {
    r' := Reset(r);
    var t := s.(step := Fourth);
    assert Read(r, s) == t;
    FourthLoadRace(r', t);
    s' := Alone(r', t, 3);
  }

  /** The same race while the slot is being filled: what goes out is torn. */
  lemma TornRace(r: Ring, s: Sender)
    requires RingInv(r) && r.running && r.stage == Ready && Shape(s) && s.step == Fourth && r.count == s.want
    ensures RingInv(Write(r, Fill))
    ensures Alone(Write(r, Fill), s, 3).sent
            == s.sent + [Sent(r.life, r.Base(), r.count, s.behind, s.want + 1, Torn)]
  {
    FillKeepsRing(r);
    FourthLoadRace(r, s);
    FourthLoadRace(Write(r, Fill), s);
  }

  /** While the capture is stopped the sender gets nothing and keeps its index; while it runs, a fetch begins. */
  lemma StoppedGetsNothing(r: Ring, s: Sender)
    requires Readable(r) && Shape(s) && s.step == Checking
    ensures !r.running ==> Read(r, s) == s.(data := None)
    ensures r.running ==> Read(r, s) == s.(step := First)
  {
  }

  /** A stop as a whole. */
  lemma Reset(r: Ring) returns (r': Ring)
    requires RingInv(r) && r.running && r.stage == Ready
    ensures r' == Write(Write(Write(r, Stop), Erase), Zero) && RingInv(r')
    ensures r' == Ring(seq(SLOTS, _ => Blank), 0, 0, false, Ready, [], r.life + 1)
  {
    WriteKeepsRing(r, Stop);
    WriteKeepsRing(Write(r, Stop), Erase);
    WriteKeepsRing(Write(Write(r, Stop), Erase), Zero);
    r' := Write(Write(Write(r, Stop), Erase), Zero);
  }

  // ---------- in every calm interleaving ----------

  /** What `data` points at is a package by the books. */
  predicate Located(s: Sender) {
    && 0 <= s.base && s.base % MAX_INDEX == 0 && 0 <= s.index < MAX_INDEX
    && s.data.Some? && s.data.value == s.index % SLOTS
  }

  /** It follows what went out last. */
  predicate NextOut(s: Sender) {
    s.sent != [] ==> Follows(Last(s), s.life, s.base, s.index, s.behind)
  }

  /** The sender is ahead of everything that went out in this epoch, by exactly one unless it has jumped. */
  predicate Ahead(r: Ring, s: Sender) {
    || LastPast(r, s)
    || (LastNow(r, s) && Last(s).index < s.want <= r.count && (s.behind || s.want == Last(s).index + 1))
  }

  /** A slot left over from an earlier fetch is not the wanted one, or else was never sent. */
  predicate Stale(r: Ring, s: Sender) {
    s.data.Some? && s.index == s.want ==> Located(s) && NextOut(s) && Past(r, s.life, s.base)
  }

  predicate AtStep(r: Ring, s: Sender) {
    match s.step
    case Checking => Ahead(r, s) && Stale(r, s)
    case First => Ahead(r, s) && Stale(r, s)
    case Second => Ahead(r, s) && Stale(r, s)
    case Third => Ahead(r, s) && Stale(r, s) && (s.want < r.count || LastPast(r, s))
    case Fourth => Ahead(r, s) && (s.want < r.count || LastPast(r, s))
    case Fifth =>
      && Ahead(r, s) && (s.want < r.count || LastPast(r, s))
      && (if s.data.None? then SLOTS <= r.count - s.want || LastPast(r, s)
          else Located(s) && NextOut(s) && s.index == s.want
               && (Past(r, s.life, s.base) || (Now(r, s.life, s.base) && s.want < r.count)))
    case Copying =>
      && Located(s) && NextOut(s) && s.want == s.index + 1
      && (Past(r, s.life, s.base) || (Now(r, s.life, s.base) && s.want <= r.count))
  }

  /** What went out is in order, with the next index as serial number. */
  ghost predicate InOrder(sent: seq<Sent>) {
    && (forall i :: 0 <= i < |sent| - 1 ==> FollowsSent(sent[i], sent[i + 1]))
    && (forall i :: 0 <= i < |sent| ==> 0 <= sent[i].index && sent[i].serial == sent[i].index + 1)
  }

  ghost predicate SenderInv(r: Ring, s: Sender) {
    Shape(s) && (s.want == -1 ==> s.sent == []) && AtStep(r, s) && InOrder(s.sent) && !Doomed(r, s)
  }

  /** The calm stores are those that do not doom the sender. */
  lemma CalmAvoidsDoom(r: Ring, s: Sender, e: Event)
    requires RingInv(r) && SenderInv(r, s) && CanWrite(r, e)
    ensures Calm(r, s, e) <==> !Doomed(Write(r, e), s)
  {
    if Empties(r, e) {
      EmptyingEndsTheEpoch(r, e, s);
    } else {
      OthersKeepTheEpoch(r, e, s);
    }
  }

  lemma EmptyingEndsTheEpoch(r: Ring, e: Event, s: Sender)
    requires RingInv(r) && CanWrite(r, e) && Empties(r, e)
    ensures Write(r, e).count == 0
    ensures Past(r, s.life, s.base) || Now(r, s.life, s.base) ==> Past(Write(r, e), s.life, s.base)
    ensures LastPast(r, s) || LastNow(r, s) ==> LastPast(Write(r, e), s)
    ensures LastPast(r, s) || LastNow(r, s) ==> !LastNow(Write(r, e), s)
  {
  }

  /** Any other store leaves the epoch as it is, and the count or one more. */
  lemma OthersKeepTheEpoch(r: Ring, e: Event, s: Sender)
    requires RingInv(r) && CanWrite(r, e) && !Empties(r, e)
    ensures r.count <= Write(r, e).count <= r.count + 1
    ensures Past(Write(r, e), s.life, s.base) <==> Past(r, s.life, s.base)
    ensures Now(Write(r, e), s.life, s.base) <==> Now(r, s.life, s.base)
    ensures LastPast(Write(r, e), s) <==> LastPast(r, s)
    ensures LastNow(Write(r, e), s) <==> LastNow(r, s)
  {
    assert Write(r, e).life == r.life && Write(r, e).Base() == r.Base();
  }

  lemma CalmWriteKeepsSender(r: Ring, s: Sender, e: Event)
    requires RingInv(r) && SenderInv(r, s) && CanWrite(r, e) && Calm(r, s, e)
    ensures SenderInv(Write(r, e), s)
  {
    CalmAvoidsDoom(r, s, e);
    if Empties(r, e) {
      EmptyingEndsTheEpoch(r, e, s);
      SameStepAfterEmptying(r, Write(r, e), s);
    } else {
      OthersKeepTheEpoch(r, e, s);
      SameStepAfterOthers(r, Write(r, e), s);
    }
  }

  lemma SameStepAfterEmptying(r: Ring, r': Ring, s: Sender)
    requires AtStep(r, s) && r'.count == 0
    requires Past(r, s.life, s.base) || Now(r, s.life, s.base) ==> Past(r', s.life, s.base)
    requires LastPast(r, s) || LastNow(r, s) ==> LastPast(r', s)
    ensures AtStep(r', s)
  {
  }

  lemma SameStepAfterOthers(r: Ring, r': Ring, s: Sender)
    requires AtStep(r, s) && r.count <= r'.count
    requires Past(r', s.life, s.base) <==> Past(r, s.life, s.base)
    requires Now(r', s.life, s.base) <==> Now(r, s.life, s.base)
    requires LastPast(r', s) <==> LastPast(r, s)
    requires LastNow(r', s) <==> LastNow(r, s)
    ensures AtStep(r', s)
  {
  }

  lemma ThirdKeepsSender(r: Ring, s: Sender)
    requires RingInv(r) && SenderInv(r, s) && s.step == Third
    ensures SenderInv(r, Read(r, s))
  {
  }

  lemma FourthKeepsSender(r: Ring, s: Sender)
    requires RingInv(r) && SenderInv(r, s) && s.step == Fourth
    ensures SenderInv(r, Read(r, s))
  {
  }

  lemma FifthAnswers(r: Ring, s: Sender)
    requires Readable(r) && Shape(s) && s.step == Fifth
    ensures Read(r, s) == Switch(s, r.count - s.want)
  {
    assert AsInt(Sub(r.count, U(s.want))) == r.count - s.want;
  }

  /** Nothing was fetched. */
  lemma FifthKeepsWithout(r: Ring, s: Sender)
    requires RingInv(r) && SenderInv(r, s) && s.step == Fifth && s.data.None?
    ensures SenderInv(r, Switch(s, r.count - s.want))
  {
    var t := Switch(s, r.count - s.want);
    assert t.step == Checking && t.data.None? && t.sent == s.sent;
  }

  /** A package was fetched, and now goes out, or is jumped over, or is kept. */
  lemma FifthKeepsWith(r: Ring, s: Sender)
    requires RingInv(r) && SenderInv(r, s) && s.step == Fifth && s.data.Some?
    ensures SenderInv(r, Switch(s, r.count - s.want))
  {
    var d := r.count - s.want;
    assert -3 <= d < MAX_INDEX;
    if d < 0 {
      assert LastPast(r, s) && Past(r, s.life, s.base);
    }
  }

  lemma FifthKeepsSender(r: Ring, s: Sender)
    requires RingInv(r) && SenderInv(r, s) && s.step == Fifth
    ensures SenderInv(r, Read(r, s))
  {
    FifthAnswers(r, s);
    if s.data.None? {
      FifthKeepsWithout(r, s);
    } else {
      FifthKeepsWith(r, s);
    }
  }

  lemma CopyingKeepsSender(r: Ring, s: Sender)
    requires RingInv(r) && SenderInv(r, s) && s.step == Copying
    ensures SenderInv(r, Read(r, s))
  {
    var t := Read(r, s);
    var n := |s.sent|;
    forall i | 0 <= i < n ensures FollowsSent(t.sent[i], t.sent[i + 1]) {
      assert i < n - 1 ==> FollowsSent(s.sent[i], s.sent[i + 1]);
    }
  }

  lemma SecondKeepsSender(r: Ring, s: Sender)
    requires RingInv(r) && SenderInv(r, s) && s.step == Second
    ensures SenderInv(r, Read(r, s))
  {
    RewindExactly(r, s);
  }

  lemma EarlyKeepsSender(r: Ring, s: Sender)
    requires RingInv(r) && SenderInv(r, s) && s.step in {Checking, First}
    ensures SenderInv(r, Read(r, s))
  {
  }

  lemma ReadKeepsSender(r: Ring, s: Sender)
    requires RingInv(r) && SenderInv(r, s)
    ensures SenderInv(r, Read(r, s))
  {
    match s.step
    case Checking => EarlyKeepsSender(r, s);
    case First => EarlyKeepsSender(r, s);
    case Second => SecondKeepsSender(r, s);
    case Third => ThirdKeepsSender(r, s);
    case Fourth => FourthKeepsSender(r, s);
    case Fifth => FifthKeepsSender(r, s);
    case Copying => CopyingKeepsSender(r, s);
  }

  // ---------- and in no other ----------

  lemma NeverBroken(r: Ring, s: Sender)
    requires RingInv(r) && SenderInv(r, s)
    ensures !Broken(r, s)
  {
    if |s.sent| >= 2 {
      assert FollowsSent(s.sent[|s.sent| - 2], s.sent[|s.sent| - 2 + 1]);
    }
  }

  lemma {:induction false} AloneKeepsSender(r: Ring, s: Sender, n: nat)
    requires RingInv(r) && SenderInv(r, s)
    ensures SenderInv(r, Alone(r, s, n))
  {
    if n > 0 {
      AloneKeepsSender(r, s, n - 1);
      ReadKeepsSender(r, Alone(r, s, n - 1));
    }
  }

  /** The sender, going on alone, never breaks the order. */
  ghost predicate SafeAlone(r: Ring, s: Sender)
    requires Readable(r) && Shape(s)
  {
    forall n: nat :: !Broken(r, Alone(r, s, n))
  }

  lemma KeptIsSafe(r: Ring, s: Sender)
    requires RingInv(r) && SenderInv(r, s)
    ensures SafeAlone(r, s)
  {
    forall n: nat ensures !Broken(r, Alone(r, s, n)) {
      AloneKeepsSender(r, s, n);
      NeverBroken(r, Alone(r, s, n));
    }
  }

  /** How many steps of its own the doomed sender needs. */
  function StepsToBreak(s: Sender): nat {
    if s.step == Second then 1 else if s.step == Fourth then 3 else 2
  }

  lemma DoomBreaks(r: Ring, s: Sender)
    requires RingInv(r) && Shape(s) && Doomed(r, s) && InOrder(s.sent)
    requires s.step == Fifth ==> s.index == s.want
    ensures Broken(r, Alone(r, s, StepsToBreak(s)))
  {
    match s.step
    case Second =>
      RewindExactly(r, s);
      assert Alone(r, s, 1) == Read(r, s);
    case Third => ThirdLoadRace(r, s);
    case Fourth => FourthLoadRace(r, s);
    case Fifth => FifthLoadRace(r, s);
  }

  /** The condition is exact.  Between any two steps of the two threads, whatever the capture thread may
      do next: it is calm if and only if the sender, were it to go on alone from there, would never
      break the order. */
  lemma CalmIsExact(r: Ring, s: Sender, e: Event)
    requires RingInv(r) && SenderInv(r, s) && CanWrite(r, e)
    ensures RingInv(Write(r, e))
    ensures Calm(r, s, e) <==> SafeAlone(Write(r, e), s)
  {
    WriteKeepsRing(r, e);
    CalmAvoidsDoom(r, s, e);
    if Calm(r, s, e) {
      CalmWriteKeepsSender(r, s, e);
      KeptIsSafe(Write(r, e), s);
    } else {
      DoomBreaks(Write(r, e), s);
    }
  }

  // ---------- whole runs ----------

  datatype Move = Capture(e: Event) | Look

  datatype State = State(r: Ring, s: Sender)

  function Initially(): State {
    State(Ring(seq(SLOTS, _ => Blank), 0, 0, true, Ready, [], 0),
          Sender(-1, Checking, None, 0, 0, 0, false, []))
  }

  ghost predicate CanMove(x: State, m: Move) {
    RingInv(x.r) && SenderInv(x.r, x.s) && (m.Capture? ==> CanWrite(x.r, m.e) && Calm(x.r, x.s, m.e))
  }

  ghost function Moved(x: State, m: Move): State
    requires CanMove(x, m)
  {
    match m
    case Capture(e) => x.(r := Write(x.r, e))
    case Look => x.(s := Read(x.r, x.s))
  }

  lemma MovedKeeps(x: State, m: Move)
    requires CanMove(x, m)
    ensures RingInv(Moved(x, m).r) && SenderInv(Moved(x, m).r, Moved(x, m).s)
  {
    if m.Capture? {
      WriteKeepsRing(x.r, m.e);
      CalmWriteKeepsSender(x.r, x.s, m.e);
    } else {
      ReadKeepsSender(x.r, x.s);
    }
  }

  /** The state after calm moves in any order; moves that cannot be made are passed over. */
  ghost function RunCalm(moves: seq<Move>): (x: State)
    ensures RingInv(x.r) && SenderInv(x.r, x.s)
  {
    if moves == [] then
      Initially()
    else
      var x, m := RunCalm(moves[..|moves| - 1]), moves[|moves| - 1];
      if !CanMove(x, m) then x
      else
        MovedKeeps(x, m);
        Moved(x, m)
  }

  /** In every calm run the packages go out in order, none twice; and two that go out one after the
      other are adjacent unless the sender jumped or the epoch or life changed. */
  lemma SentInOrder(moves: seq<Move>, i: nat, k: nat)
    requires i < k < |RunCalm(moves).s.sent|
    ensures var a, b := RunCalm(moves).s.sent[i], RunCalm(moves).s.sent[k];
            && Precedes(a, b) && a.serial == a.index + 1
            && (k == i + 1 && !b.jumped && a.life == b.life && a.base == b.base ==> b.index == a.index + 1)
  {
    var x := RunCalm(moves);
    Chain(x.s.sent, i, k);
    assert FollowsSent(x.s.sent[i], x.s.sent[i + 1]);
  }

  /** In order of life, epoch and index. */
  predicate Precedes(a: Sent, b: Sent) {
    || a.life < b.life
    || (a.life == b.life && a.base < b.base)
    || (a.life == b.life && a.base == b.base && a.index < b.index)
  }

  lemma {:induction false} Chain(sent: seq<Sent>, i: nat, k: nat)
    requires i < k < |sent|
    requires forall j :: 0 <= j < |sent| - 1 ==> FollowsSent(sent[j], sent[j + 1])
    ensures Precedes(sent[i], sent[k])
    decreases k - i
  {
    assert FollowsSent(sent[k - 1], sent[k]);
    if i < k - 1 {
      Chain(sent, i, k - 1);
    }
  }

  /** What is copied out is the package that was fetched, in a calm run, if fewer than 750 have been
      counted after it when the copy is made and there was no reset. */
  lemma CopyIsRight(r: Ring, s: Sender)
    requires RingInv(r) && SenderInv(r, s) && s.step == Copying && s.life == r.life && r.stage != Erased
    ensures var at, sent := s.base + s.index, Read(r, s).sent;
            && 0 <= at < |r.all|
            && (|r.all| < at + SLOTS ==> sent[|sent| - 1].content == Whole(r.all[at]))
  {
    var at := s.base + s.index;
    BaseVanishes(s.base, s.index);
    if s.base < r.Base() {
      EpochsApart(s.base, r.Base());
    }
    PackageStaysForALap(r, at);
  }

  lemma EpochsApart(x: int, y: int)
    requires x % MAX_INDEX == 0 && y % MAX_INDEX == 0 && x < y
    ensures x + MAX_INDEX <= y
  {
  }

  /** A jump is made only when 749 or more behind, and lands on the count. */
  lemma JumpsOnlyWhenFarBehind(r: Ring, s: Sender)
    requires RingInv(r) && Shape(s) && !s.behind
    ensures Read(r, s).behind <==> s.step == Fifth && SLOTS - 1 <= r.count - s.want < MAX_INDEX
    ensures Read(r, s).behind ==> Read(r, s).want == r.count
  {
    if s.step == Fifth {
      assert AsInt(Sub(r.count, U(s.want))) == r.count - s.want;
    }
  }

  /** In a calm run the sender goes back only after a wrap or a reset, and only to 0. */
  lemma GoesBackOnlyToALaterEpoch(r: Ring, s: Sender)
    requires RingInv(r) && SenderInv(r, s) && Read(r, s).want < s.want
    ensures Read(r, s).want == 0 && LastPast(r, s)
  {
    if s.step == Fifth {
      assert AsInt(Sub(r.count, U(s.want))) == r.count - s.want;
    }
  }

  // ---------- the code, each thread by itself ----------

  class AudioCapture {
    const szAudioBuf: array<Slot>
    var byteWrite: int
    var iWriteCount: int
    var running: bool
    ghost var all: seq<int>
    ghost var life: nat

    /** The variables as the ring above, at a given point of the capture thread. */
    ghost function View(stage: Stage): Ring
      reads this, szAudioBuf
    {
      Ring(szAudioBuf[..], byteWrite, iWriteCount, running, stage, all, life)
    }

    constructor ()
      ensures View(Ready) == Initially().r && fresh(szAudioBuf)
    {
      szAudioBuf := new Slot[SLOTS](_ => Blank);
      byteWrite, iWriteCount, running := 0, 0, true;
      all, life := [], 0;
    }

    /** The ring part of a package: the slot is written, then the two counters move. */
    method CaptureOnePakageAudioData(package: int)
      requires RingInv(View(Ready)) && running
      modifies this, szAudioBuf
      ensures View(Ready) == Write(Write(Write(old(View(Ready)), Finish(package)), Publish), Wrap)
      ensures RingInv(View(Ready)) && byteWrite == iWriteCount % SLOTS
    {
      ghost var r := View(Ready);
      WriteKeepsRing(r, Finish(package));
      WriteKeepsRing(Write(r, Finish(package)), Publish);
      WriteKeepsRing(Write(Write(r, Finish(package)), Publish), Wrap);
      szAudioBuf[byteWrite] := Whole(package);
      byteWrite := byteWrite + 1;
      if SLOTS <= byteWrite {
        byteWrite := 0;
      }
      iWriteCount := iWriteCount + 1;
      all := all + [package];
      if iWriteCount >= MAX_INDEX {
        iWriteCount := 0;
      }
      BaseVanishes(|all| - iWriteCount, iWriteCount);
    }

    method StopAudioCapture()
      requires RingInv(View(Ready)) && running
      modifies this, szAudioBuf
      ensures View(Ready) == Write(Write(Write(old(View(Ready)), Stop), Erase), Zero)
    {
      running := false;
      forall i | 0 <= i < szAudioBuf.Length {
        szAudioBuf[i] := Blank;
      }
      byteWrite := 0;
      iWriteCount := 0;
      all, life := [], life + 1;
    }

    /** With nothing in between: -1 when stopped, -3 when two or more ahead, -2 when just ahead, else
        the distance, and the slot if the distance is within the ring. */
    method GetAudioFrameWithWantedIndex(iWantIndex: int) returns (data: Option<nat>, ret: int)
      requires RingInv(View(Ready)) && -1 <= iWantIndex <= MAX_INDEX
      ensures !running ==> ret == -1
      ensures running && (iWantIndex == -1 || iWriteCount + 2 <= iWantIndex) ==> ret == -3
      ensures running && iWriteCount <= iWantIndex < iWriteCount + 2 ==> ret == -2
      ensures running && 0 <= iWantIndex < iWriteCount ==> ret == iWriteCount - iWantIndex
      ensures data.Some? <==> 0 <= ret < SLOTS
      ensures data.Some? ==> data.value < SLOTS && szAudioBuf[data.value] == Whole(all[|all| - ret])
    {
      data := None;
      if !running {
        return None, -1;
      }
      if U(iWantIndex) >= iWriteCount {
        if Sub(U(iWantIndex), iWriteCount) >= 2 {
          return None, -3;
        } else {
          return None, -2;
        }
      }
      if iWriteCount < iWantIndex + SLOTS {
        FetchedBelowCount(View(Ready), iWantIndex);
      }
      if Sub(iWriteCount, U(iWantIndex)) >= SLOTS {
        return None, AsInt(Sub(iWriteCount, U(iWantIndex)));
      }
      return Some(iWantIndex % SLOTS), AsInt(Sub(iWriteCount, U(iWantIndex)));
    }
  }

  /** The frame-index loop of startaudio_send_thread. */
  class AudioSend {
    var iFrameIndex: int
    var data: Option<nat>

    constructor ()
      ensures iFrameIndex == -1 && data == None
    {
      iFrameIndex, data := -1, None;
    }

    /** One round with nothing in between.  What goes out is the wanted package, with the next index
        as its serial number; otherwise the index goes to 0 when it is ahead, to the count when it is
        749 or more behind, and stays when there is nothing to send. */
    method SendRound(capture: AudioCapture) returns (sent: Option<(int, Slot)>)
      requires RingInv(capture.View(Ready)) && -1 <= iFrameIndex <= MAX_INDEX
      modifies this
      ensures -1 <= iFrameIndex <= MAX_INDEX
      ensures var w, n := old(iFrameIndex), capture.iWriteCount;
              if !capture.running then sent == None && iFrameIndex == w
              else if w == -1 || n + 2 <= w then sent == None && iFrameIndex == 0
              else if n <= w then sent == None && iFrameIndex == w
              else if SLOTS - 1 <= n - w then sent == None && iFrameIndex == n
              else iFrameIndex == w + 1
                   && sent == Some((iFrameIndex, Whole(capture.all[capture.View(Ready).Base() + w])))
    {
      var iRet;
      data, iRet := capture.GetAudioFrameWithWantedIndex(iFrameIndex);
      if iRet == -3 {
        iFrameIndex := 0;
        return None;
      } else if iRet == -2 {
        return None;
      } else if iRet == -1 {
        return None;
      } else if 0 <= iRet < SLOTS - 1 {
        iFrameIndex := iFrameIndex + 1;
      } else if SLOTS - 1 <= iRet < MAX_INDEX {
        iFrameIndex := iFrameIndex + iRet;
        return None;
      }
      if data == None {
        return None;
      }
      return Some((iFrameIndex, capture.szAudioBuf[data.value]));
    }
  }
}
