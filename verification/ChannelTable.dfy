/** The table of connections of NewsChannel/NewsChannel.c: accept, declaration, heartbeat, close, close
  by user and heartbeat expiry.

  `Next` says what each of these does to the twelve slots; class NewsChannel is the code, proved
  against it.  The code's class invariant also conserves descriptors: the ones the process holds
  open are exactly the ones in the slots.
 */
module ChannelTable {
  const SLOTS := 12              // MAX_USER_NUM * 3
  const NULL_FD := -1
  const HEART_BEAT_TIME_OUT := 120
  const NULL_CHANNEL := 0
  const CONTROL_CHANNEL := 1
  const VIDEO_CHANNEL := 2
  const AUDIO_CHANNEL := 3

  datatype Slot = Slot(fd: int, name: int, kind: int, direction: int, mltime: int, rBufSize: int) {
    predicate Open() {
      fd != NULL_FD
    }

    /** The user and kind a client has declared for the connection; (0, 0) before it does. */
    function Declared(): (int, int) {
      (name, kind)
    }

    predicate Expired(now: int) {
      Open() && kind == CONTROL_CHANNEL && now - mltime > HEART_BEAT_TIME_OUT
    }
  }

  const NOBODY := (0, NULL_CHANNEL)

  function Cleared(fd: int, now: int): Slot {
    Slot(fd, 0, NULL_CHANNEL, 0, now, 0)
  }

  /** The direction that goes with a declared kind. */
  function DirectionOf(kind: int, before: int): int {
    if kind == CONTROL_CHANNEL then 3 else if kind == VIDEO_CHANNEL || kind == AUDIO_CHANNEL then 2 else before
  }

  // ---------- what each operation does ----------

  datatype Event =
    | Accept(fd: int, now: int)
    | Declare(cur: nat, name: int, kind: int, now: int)
    | Touch(cur: nat, now: int)
    | Close(cur: nat, now: int)
    | CloseUser(cur: nat, now: int)
    | Tick(now: int)

  /** The first free slot at or after i, or the number of slots. */
  function FreeFrom(s: seq<Slot>, i: nat): (r: nat)
    requires i <= |s|
    ensures i <= r <= |s| && (forall k :: i <= k < r ==> s[k].Open()) && (r < |s| ==> !s[r].Open())
    decreases |s| - i
  {
    if i == |s| || !s[i].Open() then i else FreeFrom(s, i + 1)
  }

  /** The first slot at or after i that carries the declaration, open or not, or the number of slots. */
  function FindFrom(s: seq<Slot>, d: (int, int), i: nat): (r: nat)
    requires i <= |s|
    ensures i <= r <= |s| && (forall k :: i <= k < r ==> s[k].Declared() != d) && (r < |s| ==> s[r].Declared() == d)
    decreases |s| - i
  {
    if i == |s| || s[i].Declared() == d then i else FindFrom(s, d, i + 1)
  }

  function CloseNamed(s: seq<Slot>, name: int, now: int): (r: seq<Slot>)
    ensures |r| == |s|
  {
    seq(|s|, i requires 0 <= i < |s| => if s[i].Open() && s[i].name == name then Cleared(NULL_FD, now) else s[i])
  }

  /** Open, and of the same user as some expired control channel. */
  ghost predicate Doomed(s: seq<Slot>, i: nat, now: int)
    requires i < |s|
  {
    s[i].Open() && exists k :: 0 <= k < |s| && s[k].Expired(now) && s[k].name == s[i].name
  }

  ghost function Expire(s: seq<Slot>, now: int): (r: seq<Slot>)
    ensures |r| == |s|
  {
    seq(|s|, i requires 0 <= i < |s| => if Doomed(s, i, now) then Cleared(NULL_FD, now) else s[i])
  }

  function AfterDeclare(s: seq<Slot>, cur: nat, name: int, kind: int, now: int): (r: seq<Slot>)
    requires cur < |s|
    ensures |r| == |s|
  {
    var f := FindFrom(s, (name, kind), 0);
    var t := if f < |s| then s[f := Cleared(NULL_FD, now)] else s;
    t[cur := t[cur].(name := name, kind := kind, direction := DirectionOf(kind, t[cur].direction))]
  }

  /** What the kernel and the message loop guarantee: accept returns a descriptor that is not in use,
      and messages come from open channels. */
  ghost predicate Possible(s: seq<Slot>, e: Event) {
    match e
    case Accept(fd, _) => 0 <= fd && fd !in Fds(s)
    case Declare(cur, _, _, _) => cur < |s| && s[cur].Open()
    case Touch(cur, _) => cur < |s| && s[cur].Open()
    case Close(cur, _) => cur < |s| && s[cur].Open()
    case CloseUser(cur, _) => cur < |s| && s[cur].Open()
    case Tick(_) => true
  }

  ghost function Next(s: seq<Slot>, e: Event): (r: seq<Slot>)
    requires Possible(s, e)
    ensures |r| == |s|
  {
    match e
    case Accept(fd, now) =>
      var i := FreeFrom(s, 0);
      if i == |s| then s else s[i := Cleared(fd, now)]
    case Declare(cur, name, kind, now) => AfterDeclare(s, cur, name, kind, now)
    case Touch(cur, now) => s[cur := s[cur].(mltime := now)]
    case Close(cur, now) => s[cur := Cleared(NULL_FD, now)]
    case CloseUser(cur, now) => CloseNamed(s, s[cur].name, now)
    case Tick(now) => Expire(s, now)
  }

  // ---------- what every operation keeps ----------

  /** The descriptors in the table. */
  function Fds(s: seq<Slot>): set<int> {
    set i | 0 <= i < |s| && s[i].Open() :: s[i].fd
  }

  /** No descriptor sits in two slots. */
  ghost predicate Distinct(s: seq<Slot>) {
    forall i, k :: 0 <= i < k < |s| && s[i].Open() ==> s[i].fd != s[k].fd
  }

  /** No two slots, open or not, carry the same declaration. */
  ghost predicate OneEach(s: seq<Slot>) {
    forall i, k :: 0 <= i < k < |s| && s[i].Declared() == s[k].Declared() ==> s[i].Declared() == NOBODY
  }

  ghost predicate Sound(s: seq<Slot>) {
    |s| == SLOTS && Distinct(s) && OneEach(s)
  }

  lemma ClearKeeps(s: seq<Slot>, i: nat, now: int)
    requires Sound(s) && i < |s|
    ensures Sound(s[i := Cleared(NULL_FD, now)])
    ensures Fds(s[i := Cleared(NULL_FD, now)]) == Fds(s) - {s[i].fd}
  {
    var t := s[i := Cleared(NULL_FD, now)];
    forall fd ensures fd in Fds(t) <==> fd in Fds(s) && fd != s[i].fd {
      if fd in Fds(s) && fd != s[i].fd {
        var k :| 0 <= k < |s| && s[k].Open() && s[k].fd == fd;
        assert t[k] == s[k];
      }
    }
  }

  lemma DeclareKeeps(s: seq<Slot>, cur: nat, name: int, kind: int, now: int)
    requires Sound(s) && cur < |s| && s[cur].Open()
    ensures Sound(AfterDeclare(s, cur, name, kind, now))
    ensures var f := FindFrom(s, (name, kind), 0);
            Fds(AfterDeclare(s, cur, name, kind, now)) == if f < |s| then Fds(s) - {s[f].fd} else Fds(s)
  {
    var f := FindFrom(s, (name, kind), 0);
    var t := s;
    if f < |s| {
      ClearKeeps(s, f, now);
      t := s[f := Cleared(NULL_FD, now)];
    }
    var r := AfterDeclare(s, cur, name, kind, now);
    assert forall i :: 0 <= i < |s| ==> r[i].fd == t[i].fd;
    forall fd ensures fd in Fds(r) <==> fd in Fds(t) {
      if fd in Fds(t) {
        var k :| 0 <= k < |t| && t[k].Open() && t[k].fd == fd;
        assert r[k].fd == fd;
      }
    }
  }

  /** Every operation keeps both: no descriptor in two slots, no declaration in two slots. */
  lemma NextKeepsSound(s: seq<Slot>, e: Event)
    requires Sound(s) && Possible(s, e)
    ensures Sound(Next(s, e))
  {
    match e
    case Accept(fd, now) =>
      assert forall k :: 0 <= k < |s| && s[k].Open() ==> s[k].fd in Fds(s);
    case Declare(cur, name, kind, now) => DeclareKeeps(s, cur, name, kind, now);
    case Touch(_, _) =>
    case Close(cur, now) => ClearKeeps(s, cur, now);
    case CloseUser(_, _) =>
    case Tick(now) =>
  }

  /** A run in which the kernel and the message loop keep their guarantees. */
  ghost predicate Run(states: seq<seq<Slot>>, events: seq<Event>, now0: int) {
    && |states| == |events| + 1
    && states[0] == seq(SLOTS, _ => Cleared(NULL_FD, now0))
    && forall i :: 0 <= i < |events| ==> Possible(states[i], events[i]) && states[i + 1] == Next(states[i], events[i])
  }

  lemma {:induction false} EveryRunIsSound(states: seq<seq<Slot>>, events: seq<Event>, now0: int, i: nat)
    requires Run(states, events, now0) && i < |states|
    ensures Sound(states[i])
  {
    if i > 0 {
      EveryRunIsSound(states, events, now0, i - 1);
      NextKeepsSound(states[i - 1], events[i - 1]);
    }
  }

  // ---------- what opens and closes ----------

  /** Event e closes the open slot i: it is the one, or of the user, that the event names; the first that
      carries the declaration; or of a user with a control channel that is over 120 seconds old. */
  ghost predicate Closes(s: seq<Slot>, e: Event, i: nat)
    requires i < |s| && Possible(s, e)
  {
    match e
    case Accept(_, _) => false
    case Declare(_, name, kind, _) =>
      s[i].name == name && s[i].kind == kind && forall k :: 0 <= k < i ==> s[k].name != name || s[k].kind != kind
    case Touch(_, _) => false
    case Close(cur, _) => i == cur
    case CloseUser(cur, _) => s[i].name == s[cur].name
    case Tick(now) =>
      exists k :: 0 <= k < |s| && s[k].fd != -1 && s[k].kind == 1 && s[k].name == s[i].name && s[k].mltime + 120 < now
  }

  /** Every event closes exactly those slots, keeps the descriptors of the other open ones, and opens none,
      except that an accept opens the first free slot, with the new descriptor and nothing left over. */
  lemma EventsOpenAndClose(s: seq<Slot>, e: Event, i: nat)
    requires Possible(s, e) && i < |s|
    ensures s[i].fd != -1 && Closes(s, e, i) ==> Next(s, e)[i].fd == -1
    ensures s[i].fd != -1 && !Closes(s, e, i) ==> Next(s, e)[i].fd == s[i].fd
    ensures s[i].fd == -1 && e.Accept? && (forall k :: 0 <= k < i ==> s[k].fd != -1) ==>
              Next(s, e)[i] == Slot(e.fd, 0, 0, 0, e.now, 0)
    ensures s[i].fd == -1 && !(e.Accept? && forall k :: 0 <= k < i ==> s[k].fd != -1) ==> Next(s, e)[i].fd == -1
  {
    if e.Declare? {
      var f := FindFrom(s, (e.name, e.kind), 0);
      assert f < |s| ==> s[f].Declared() == (e.name, e.kind);
      if Closes(s, e, i) {
        assert s[i].Declared() == (e.name, e.kind);
        assert f == i;
      } else if f == i {
        forall k | 0 <= k < i ensures s[k].name != e.name || s[k].kind != e.kind {
          assert s[k].Declared() != (e.name, e.kind);
        }
      }
    }
  }

  // ---------- accept ----------

  /** An add succeeds if and only if a slot is free; it then adds the descriptor to the others. */
  lemma AddFailsOnlyWhenFull(s: seq<Slot>, fd: int, now: int)
    requires Possible(s, Accept(fd, now))
    ensures fd in Fds(Next(s, Accept(fd, now))) <==> exists i :: 0 <= i < |s| && !s[i].Open()
    ensures Fds(Next(s, Accept(fd, now))) == Fds(s) || Fds(Next(s, Accept(fd, now))) == Fds(s) + {fd}
  {
    var i := FreeFrom(s, 0);
    var t := Next(s, Accept(fd, now));
    if i < |s| {
      assert t[i].Open() && t[i].fd == fd;
      forall x ensures x in Fds(t) <==> x in Fds(s) || x == fd {
        if x in Fds(s) {
          var k :| 0 <= k < |s| && s[k].Open() && s[k].fd == x;
          assert t[k] == s[k];
        }
      }
    }
  }

  lemma TouchKeepsFds(s: seq<Slot>, cur: nat, now: int)
    requires Possible(s, Touch(cur, now))
    ensures Fds(Next(s, Touch(cur, now))) == Fds(s)
  {
    var t := Next(s, Touch(cur, now));
    forall i | 0 <= i < |s| ensures t[i].fd == s[i].fd {
    }
  }

  // ---------- declaration ----------

  /** What a declaration does, whatever it is: the first slot that carried it, open or free, is
      cleared, the current channel takes it, and no other slot changes.  The current channel is still
      open unless it was that first slot: a client that declares the same channel twice closes it. */
  lemma DeclarationClosesTheFirst(s: seq<Slot>, cur: nat, name: int, kind: int, now: int)
    requires cur < |s| && s[cur].Open()
    ensures var r, f := AfterDeclare(s, cur, name, kind, now), FindFrom(s, (name, kind), 0);
            && r[cur].Declared() == (name, kind)
            && (r[cur].Open() <==> f != cur)
            && (f != cur ==> r[cur].fd == s[cur].fd && r[cur].mltime == s[cur].mltime)
            && (kind == 1 ==> r[cur].direction == 3) && (kind == 2 || kind == 3 ==> r[cur].direction == 2)
            && (forall i :: 0 <= i < |s| && i != cur ==> r[i] == if i == f then Cleared(NULL_FD, now) else s[i])
  {
  }

  /** After a declaration of a user or a kind the channel is the only one that carries it. */
  lemma DeclarationIsUnique(s: seq<Slot>, cur: nat, name: int, kind: int, now: int)
    requires Sound(s) && cur < |s| && s[cur].Open()
    ensures var r := AfterDeclare(s, cur, name, kind, now);
            (name, kind) != NOBODY ==> forall i :: 0 <= i < |r| ==> (r[i].Declared() == (name, kind) <==> i == cur)
  {
    DeclareKeeps(s, cur, name, kind, now);
  }

  /** A declaration closes the open channel i of another client exactly if i is the first slot that
      carries it.  For the declaration (0, 0), which every undeclared channel carries, that is the first
      undeclared slot, if it is open: the client's own declaration closes somebody else's connection. */
  lemma DeclarationClosesAnother(s: seq<Slot>, cur: nat, name: int, kind: int, now: int, i: nat)
    requires cur < |s| && s[cur].Open() && i < |s| && i != cur && s[i].Open()
    ensures !AfterDeclare(s, cur, name, kind, now)[i].Open() <==>
              s[i].Declared() == (name, kind) && forall k :: 0 <= k < i ==> s[k].Declared() != (name, kind)
  {
    DeclarationClosesTheFirst(s, cur, name, kind, now);
    var f := FindFrom(s, (name, kind), 0);
    if s[i].Declared() == (name, kind) && forall k :: 0 <= k < i ==> s[k].Declared() != (name, kind) {
      assert f <= i;
    }
  }

  /** The case that harms: slot 0 is open and has declared nothing, and another client declares (0, 0). */
  lemma NobodyClosesTheFirst(s: seq<Slot>, cur: nat, now: int)
    requires 0 < cur < |s| && s[cur].Open() && s[0].Open() && s[0].Declared() == NOBODY
    ensures !AfterDeclare(s, cur, 0, NULL_CHANNEL, now)[0].Open()
  {
    DeclarationClosesAnother(s, cur, 0, NULL_CHANNEL, now, 0);
  }

  // ---------- expiry ----------

  /** Expiry closes exactly the channels of users with an expired control channel, so afterwards no
      control channel is expired, and doing it again changes nothing. */
  lemma ExpiryIsComplete(s: seq<Slot>, now: int)
    ensures var t := Expire(s, now);
            && (forall i :: 0 <= i < |t| ==> !t[i].Expired(now))
            && (forall i :: 0 <= i < |s| ==> t[i] != s[i] ==> Doomed(s, i, now))
            && (forall i :: 0 <= i < |s| && Doomed(s, i, now) ==> !t[i].Open())
            && Expire(t, now) == t
  {
    var t := Expire(s, now);
    forall i | 0 <= i < |t| ensures !t[i].Expired(now) {
      if s[i].Expired(now) {
        assert Doomed(s, i, now);
      }
    }
    assert Expire(t, now) == t;
  }

  /** Expiry only looks at control channels: the channels of a user without one are never closed by
      it, however long they stay silent. */
  lemma {:induction false} WithoutControlNothingExpires(s: seq<Slot>, i: nat, nows: seq<int>)
    requires i < |s| && s[i].Open()
    requires forall k :: 0 <= k < |s| && s[k].name == s[i].name ==> s[k].kind != CONTROL_CHANNEL
    ensures Ticks(s, nows)[i] == s[i]
    decreases nows
  {
    if nows != [] {
      var t := Expire(s, nows[0]);
      assert t[i] == s[i];
      assert s[i].name == 0 || forall k :: 0 <= k < |t| && t[k].name == s[i].name ==> t[k] == s[k];
      WithoutControlNothingExpires(t, i, nows[1..]);
    }
  }

  /** Every slot is open, and none is a control channel. */
  predicate Silent(s: seq<Slot>) {
    forall i :: 0 <= i < |s| ==> s[i].Open() && s[i].kind != CONTROL_CHANNEL
  }

  /** No client closes or declares a channel. */
  predicate LeavesBe(e: Event) {
    e.Accept? || e.Touch? || e.Tick?
  }

  lemma SilentStep(s: seq<Slot>, e: Event)
    requires Silent(s) && Possible(s, e) && LeavesBe(e)
    ensures Silent(Next(s, e)) && forall i :: 0 <= i < |s| ==> Next(s, e)[i].fd == s[i].fd
  {
    var t := Next(s, e);
    forall i | 0 <= i < |s| ensures t[i].Open() && t[i].kind != CONTROL_CHANNEL && t[i].fd == s[i].fd {
      if e.Tick? {
        assert !Doomed(s, i, e.now);
      }
    }
  }

  /** So a full table of connections none of which is a control channel stays as it is, through accepts,
      heartbeats and expiries in any number and order, until a client closes or declares a channel; every
      accept meanwhile fails. */
  lemma {:induction false} SilentTableStaysFull(states: seq<seq<Slot>>, events: seq<Event>, i: nat)
    requires |states| == |events| + 1 && i < |states| && Silent(states[0])
    requires forall k :: 0 <= k < |events| ==>
               Possible(states[k], events[k]) && LeavesBe(events[k]) && states[k + 1] == Next(states[k], events[k])
    ensures Silent(states[i]) && |states[i]| == |states[0]|
    ensures forall k :: 0 <= k < |states[0]| ==> states[i][k].fd == states[0][k].fd
    ensures i < |events| && events[i].Accept? ==> states[i + 1] == states[i]
  {
    if i > 0 {
      SilentTableStaysFull(states, events, i - 1);
      SilentStep(states[i - 1], events[i - 1]);
    }
    if i < |events| && events[i].Accept? {
      assert FreeFrom(states[i], 0) == |states[i]|;
    }
  }

  ghost function Ticks(s: seq<Slot>, nows: seq<int>): (r: seq<Slot>)
    ensures |r| == |s|
    decreases nows
  {
    if nows == [] then s else Ticks(Expire(s, nows[0]), nows[1..])
  }

  // ---------- the code ----------

  class NewsChannel {
    const usrChannel: array<Slot>
    /** The connected descriptors that the process holds open. */
    var held: set<int>

    ghost predicate Valid()
      reads this, usrChannel
    {
      Sound(usrChannel[..]) && held == Fds(usrChannel[..])
    }

    constructor (now: int)
      ensures Valid() && fresh(usrChannel) && usrChannel[..] == seq(SLOTS, _ => Cleared(NULL_FD, now))
    {
      usrChannel := new Slot[SLOTS](_ => Cleared(NULL_FD, now));
      held := {};
    }

    method ChannelClearButFd(i: nat, now: int)
      requires i < usrChannel.Length
      modifies usrChannel
      ensures usrChannel[..] == old(usrChannel[..])[i := Cleared(old(usrChannel[i].fd), now)]
    {
      usrChannel[i] := usrChannel[i].(mltime := now, kind := NULL_CHANNEL, direction := 0, name := 0, rBufSize := 0);
    }

    method ChannelClear(i: nat, now: int)
      requires i < usrChannel.Length
      modifies usrChannel
      ensures usrChannel[..] == old(usrChannel[..])[i := Cleared(NULL_FD, now)]
    {
      ChannelClearButFd(i, now);
      usrChannel[i] := usrChannel[i].(fd := NULL_FD);
    }

    /** shutdown and close, then clear.  Of a slot that is not open it closes nothing. */
    method ChannelClose(i: nat, now: int)
      requires Valid() && i < usrChannel.Length
      modifies this, usrChannel
      ensures Valid() && usrChannel[..] == old(usrChannel[..])[i := Cleared(NULL_FD, now)]
      ensures held == old(held) - {old(usrChannel[i].fd)}
    {
      ClearKeeps(usrChannel[..], i, now);
      held := held - {usrChannel[i].fd};
      ChannelClear(i, now);
    }

    /** Adds an accepted descriptor to the first free slot; -1 if there is none. */
    method UsrInfoAdd(fd: int, now: int) returns (r: int)
      requires usrChannel.Length == SLOTS
      modifies usrChannel
      ensures var s := old(usrChannel[..]);
              && r == (if FreeFrom(s, 0) == |s| then -1 else FreeFrom(s, 0))
              && usrChannel[..] == if r == -1 then s else s[r := Cleared(fd, now)]
    {
      var i := 0;
      while i < SLOTS
        invariant 0 <= i <= SLOTS && FreeFrom(usrChannel[..], 0) == FreeFrom(usrChannel[..], i)
        invariant usrChannel[..] == old(usrChannel[..])
      {
        if usrChannel[i].fd == NULL_FD {
          usrChannel[i] := usrChannel[i].(fd := fd);
          ChannelClearButFd(i, now);
          return i;
        }
        i := i + 1;
      }
      return -1;
    }

    /** A connection was accepted.  When the table is full it is closed again. */
    method AcceptClient(fd: int, now: int)
      requires Valid() && 0 <= fd && fd !in held
      modifies this, usrChannel
      ensures Valid() && usrChannel[..] == Next(old(usrChannel[..]), Accept(fd, now))
    {
      ghost var s := usrChannel[..];
      NextKeepsSound(s, Accept(fd, now));
      AddFailsOnlyWhenFull(s, fd, now);
      held := held + {fd};
      var r := UsrInfoAdd(fd, now);
      if r == -1 {
        held := held - {fd};
      } else {
        assert usrChannel[r].fd == fd;
      }
    }

    method ChannelFind(name: int, kind: int) returns (r: nat)
      requires usrChannel.Length == SLOTS
      ensures r == FindFrom(usrChannel[..], (name, kind), 0)
    {
      r := 0;
      while r < SLOTS
        invariant r <= SLOTS && FindFrom(usrChannel[..], (name, kind), 0) == FindFrom(usrChannel[..], (name, kind), r)
      {
        if usrChannel[r].name == name && usrChannel[r].kind == kind {
          return;
        }
        r := r + 1;
      }
    }

    /** A heartbeat arrived on an open channel. */
    method TouchChannel(cur: nat, now: int)
      requires Valid() && cur < SLOTS && usrChannel[cur].Open()
      modifies usrChannel
      ensures Valid() && usrChannel[..] == Next(old(usrChannel[..]), Touch(cur, now))
    {
      NextKeepsSound(usrChannel[..], Touch(cur, now));
      TouchKeepsFds(usrChannel[..], cur, now);
      usrChannel[cur] := usrChannel[cur].(mltime := now);
    }

    method DeclareChannel(cur: nat, name: int, kind: int, now: int)
      requires Valid() && cur < SLOTS && usrChannel[cur].Open()
      modifies this, usrChannel
      ensures Valid() && usrChannel[..] == Next(old(usrChannel[..]), Declare(cur, name, kind, now))
    {
      ghost var s := usrChannel[..];
      DeclareKeeps(s, cur, name, kind, now);
      var f := ChannelFind(name, kind);
      if f < SLOTS {
        ChannelClose(f, now);
      }
      assert usrChannel[..] == if f < SLOTS then s[f := Cleared(NULL_FD, now)] else s;
      usrChannel[cur] := usrChannel[cur].(name := name, kind := kind);
      usrChannel[cur] := usrChannel[cur].(direction := DirectionOf(kind, usrChannel[cur].direction));
      assert usrChannel[..] == AfterDeclare(s, cur, name, kind, now);
    }

    /** Closes every open channel with the name of slot usr, which may itself be cleared on the way. */
    method CloseChannelsByUsrName(usr: nat, now: int)
      requires Valid() && usr < SLOTS
      modifies this, usrChannel
      ensures Valid() && usrChannel[..] == CloseNamed(old(usrChannel[..]), old(usrChannel[usr].name), now)
    {
      var userName := usrChannel[usr].name;
      ghost var s := usrChannel[..];
      var i := 0;
      while i < SLOTS
        invariant 0 <= i <= SLOTS && Valid()
        invariant ClosedUpTo(s, usrChannel[..], i, userName, now)
      {
        if usrChannel[i].fd != NULL_FD && usrChannel[i].name == userName {
          ChannelClose(i, now);
        }
        i := i + 1;
      }
      assert usrChannel[..] == CloseNamed(s, userName, now);
    }

    method TimeOutHandler(curTime: int)
      requires Valid()
      modifies this, usrChannel
      ensures Valid() && usrChannel[..] == Next(old(usrChannel[..]), Tick(curTime))
    {
      ghost var s := usrChannel[..];
      var i := 0;
      while i < SLOTS
        invariant 0 <= i <= SLOTS && Valid()
        invariant ExpiredUpTo(s, usrChannel[..], i, curTime)
      {
        if usrChannel[i].fd != NULL_FD && usrChannel[i].kind == CONTROL_CHANNEL {
          if curTime - usrChannel[i].mltime > HEART_BEAT_TIME_OUT {
            ExpireOne(s, usrChannel[..], i, curTime);
            CloseChannelsByUsrName(i, curTime);
          }
        }
        i := i + 1;
      }
      assert usrChannel[..] == Expire(s, curTime);
    }
  }

  /** t is s after the first n slots have been checked for the name. */
  ghost predicate ClosedUpTo(s: seq<Slot>, t: seq<Slot>, n: nat, name: int, now: int) {
    && |s| == |t| && n <= |s|
    && (forall i :: 0 <= i < n ==> t[i] == if s[i].Open() && s[i].name == name then Cleared(NULL_FD, now) else s[i])
    && (forall i :: n <= i < |s| ==> t[i] == s[i])
  }

  /** t is s after the handler has looked at the first n slots. */
  ghost predicate ExpiredUpTo(s: seq<Slot>, t: seq<Slot>, n: nat, now: int) {
    && |s| == |t| && n <= |s|
    && forall i :: 0 <= i < |s| ==>
         t[i] == if s[i].Open() && NamesakeExpired(s, n, s[i].name, now) then Cleared(NULL_FD, now) else s[i]
  }

  ghost predicate NamesakeExpired(s: seq<Slot>, n: nat, name: int, now: int)
    requires n <= |s|
  {
    exists k :: 0 <= k < n && s[k].Expired(now) && s[k].name == name
  }

  lemma ExpireOne(s: seq<Slot>, t: seq<Slot>, n: nat, now: int)
    requires n < |s| && ExpiredUpTo(s, t, n, now) && t[n].Expired(now)
    ensures ExpiredUpTo(s, CloseNamed(t, t[n].name, now), n + 1, now)
  {
    assert t[n] == s[n];
    forall i | 0 <= i < |s| && s[i].name == s[n].name ensures NamesakeExpired(s, n + 1, s[i].name, now) {
      assert s[n].Expired(now);
    }
    forall i | 0 <= i < |s| && s[i].name != s[n].name
      ensures NamesakeExpired(s, n + 1, s[i].name, now) <==> NamesakeExpired(s, n, s[i].name, now)
    {
    }
  }
}
