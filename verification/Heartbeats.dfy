/** When a client's channels expire (NewsChannel/NewsChannel.c), told by what the client did and not by what
  the table recorded of it.
 */
module Heartbeats {
  import opened ChannelTable

  /** Event j is a sign of life of slot k: the accept that opened it, or a heartbeat on it. */
  ghost predicate Heard(states: seq<seq<Slot>>, events: seq<Event>, j: nat, k: nat)
    requires |states| == |events| + 1 && j < |events|
    requires k < |states[j]| && k < |states[j + 1]|
  {
    match events[j]
    case Accept(_, _) => !states[j][k].Open() && states[j + 1][k].Open()
    case Touch(cur, _) => cur == k
    case _ => false
  }

  /** The newest sign of life of slot k among the first n events. */
  ghost predicate LastHeard(states: seq<seq<Slot>>, events: seq<Event>, n: nat, k: nat, j: nat)
    requires |states| == |events| + 1 && n <= |events| && forall i :: 0 <= i <= n ==> k < |states[i]|
  {
    && j < n && Heard(states, events, j, k)
    && forall i :: j < i < n ==> !Heard(states, events, i, k)
  }

  lemma {:induction false} SizesStay(states: seq<seq<Slot>>, events: seq<Event>, now0: int)
    requires Run(states, events, now0)
    ensures forall i :: 0 <= i < |states| ==> |states[i]| == 12
  {
    forall i | 0 <= i < |states| ensures |states[i]| == 12 {
      EveryRunIsSound(states, events, now0, i);
    }
  }

  /** One event: an open slot was open before and keeps its time, unless the event is a sign of life, which
      sets it. */
  lemma EventSetsTime(s: seq<Slot>, e: Event, k: nat)
    requires Possible(s, e) && k < |s| && Next(s, e)[k].Open()
    ensures s[k].Open() || e.Accept?
    ensures e.Accept? && !s[k].Open() ==> Next(s, e)[k].mltime == e.now
    ensures e.Touch? && e.cur == k ==> Next(s, e)[k].mltime == e.now
    ensures s[k].Open() && !(e.Touch? && e.cur == k) ==> Next(s, e)[k].mltime == s[k].mltime
  {
  }

  /** What the table records of an open channel is the time of its newest sign of life. */
  lemma {:induction false} TimeIsLastHeard(states: seq<seq<Slot>>, events: seq<Event>, now0: int, n: nat, k: nat)
      returns (j: nat)
    requires Run(states, events, now0) && n < |states| && k < 12
    requires k < |states[n]| && states[n][k].Open()
    ensures forall i :: 0 <= i < |states| ==> |states[i]| == 12
    ensures LastHeard(states, events, n, k, j) && states[n][k].mltime == events[j].now
  {
    SizesStay(states, events, now0);
    if n > 0 {
      var e := events[n - 1];
      EventSetsTime(states[n - 1], e, k);
      if Heard(states, events, n - 1, k) {
        j := n - 1;
      } else {
        j := TimeIsLastHeard(states, events, now0, n - 1, k);
      }
    }
  }

  /** Slot k is an open control channel of the user whose newest sign of life is more than 120 seconds old. */
  ghost predicate Silent(states: seq<seq<Slot>>, events: seq<Event>, n: nat, k: nat, name: int, now: int)
    requires |states| == |events| + 1 && n <= |events| && forall i :: 0 <= i <= n ==> k < |states[i]|
  {
    && states[n][k].Open() && states[n][k].kind == CONTROL_CHANNEL && states[n][k].name == name
    && exists j: nat :: LastHeard(states, events, n, k, j) && now - events[j].now > 120
  }

  /** Over whole runs: an expiry closes an open channel if and only if it or another channel of the same
      user is a silent control channel; and what it does not close it leaves as it was. */
  lemma ExpiryClosesTheSilent(states: seq<seq<Slot>>, events: seq<Event>, now0: int, n: nat, i: nat)
    requires Run(states, events, now0) && n < |events| && events[n].Tick?
    requires i < |states[n]| && states[n][i].Open()
    ensures forall m :: 0 <= m < |states| ==> |states[m]| == 12
    ensures !states[n + 1][i].Open() <==>
              exists k :: 0 <= k < 12 && Silent(states, events, n, k, states[n][i].name, events[n].now)
    ensures states[n + 1][i].Open() ==> states[n + 1][i] == states[n][i]
  {
    SizesStay(states, events, now0);
    var s, now := states[n], events[n].now;
    forall k: nat | k < 12
      ensures Silent(states, events, n, k, s[i].name, now) <==> s[k].Expired(now) && s[k].name == s[i].name
    {
      if s[k].Open() {
        var j := TimeIsLastHeard(states, events, now0, n, k);
        NewestIsUnique(states, events, n, k, j);
      }
    }
  }

  lemma NewestIsUnique(states: seq<seq<Slot>>, events: seq<Event>, n: nat, k: nat, j: nat)
    requires |states| == |events| + 1 && n <= |events| && forall i :: 0 <= i <= n ==> k < |states[i]|
    requires LastHeard(states, events, n, k, j)
    ensures forall i :: LastHeard(states, events, n, k, i) ==> i == j
  {
  }

  /** The clock does not go back. */
  ghost predicate Ordered(events: seq<Event>) {
    forall i, j :: 0 <= i <= j < |events| ==> events[i].now <= events[j].now
  }

  /** At every expiry, every open control channel of the user has given a sign of life within the last 120
      seconds. */
  ghost predicate Lively(states: seq<seq<Slot>>, events: seq<Event>, name: int)
    requires |states| == |events| + 1 && forall i :: 0 <= i < |states| ==> |states[i]| == 12
  {
    forall n, k :: 0 <= n < |events| && events[n].Tick? && 0 <= k < 12
                   && states[n][k].Open() && states[n][k].kind == CONTROL_CHANNEL && states[n][k].name == name ==>
      exists j :: 0 <= j < n && Heard(states, events, j, k) && events[n].now - events[j].now <= 120
  }

  /** Such a user never loses a channel to an expiry. */
  lemma LivelyUserIsNeverExpired(states: seq<seq<Slot>>, events: seq<Event>, now0: int, n: nat, i: nat)
    requires Run(states, events, now0) && Ordered(events) && n < |events| && events[n].Tick?
    requires forall m :: 0 <= m < |states| ==> |states[m]| == 12
    requires i < 12 && states[n][i].Open() && Lively(states, events, states[n][i].name)
    ensures states[n + 1][i] == states[n][i]
  {
    var name, now := states[n][i].name, events[n].now;
    ExpiryClosesTheSilent(states, events, now0, n, i);
    forall k: nat | k < 12 ensures !Silent(states, events, n, k, name, now) {
      if states[n][k].Open() && states[n][k].kind == CONTROL_CHANNEL && states[n][k].name == name {
        var j :| 0 <= j < n && Heard(states, events, j, k) && now - events[j].now <= 120;
        HeardIsNotSilent(states, events, n, k, name, j);
      }
    }
  }

  lemma HeardIsNotSilent(states: seq<seq<Slot>>, events: seq<Event>, n: nat, k: nat, name: int, j: nat)
    requires |states| == |events| + 1 && n < |events| && forall i :: 0 <= i <= n ==> k < |states[i]|
    requires Ordered(events) && j < n && Heard(states, events, j, k) && events[n].now - events[j].now <= 120
    ensures !Silent(states, events, n, k, name, events[n].now)
  {
    forall i: nat | LastHeard(states, events, n, k, i) ensures events[j].now <= events[i].now {
      assert j <= i;
    }
  }
}
