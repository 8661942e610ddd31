/** The per-connection reassembler of NewsChannel/NewsChannel.c.

  A message is a 23-byte header, with a 4-byte magic and a little-endian body length, and a body.
  recv may return any part of what was asked for, or would-block, at any call.  The messages handed
  on must not depend on that.  `Parse` says what they are; the rest of the module shows that every
  run of the channel delivers exactly them.
 */
module Reassembler {
  import opened Bytes

  const HEAD := 23            // sizeof(RequestHead)
  const MAX_BUF := 512        // MAX_TCP_CLIENT_BUF_SIZE
  const MAX_BODY := MAX_BUF - HEAD
  const MAGIC: seq<byte> := [73, 66, 66, 77]   // "IBBM"
  const NULL_FD := -1

  /** The signed length field, four bytes from offset 15. */
  function Len(h: seq<byte>): int
    requires |h| >= HEAD
  {
    var u := (h[15] as int) + 256 * (h[16] as int) + 65536 * (h[17] as int) + 16777216 * (h[18] as int);
    if u < 0x8000_0000 then u else u - 0x1_0000_0000
  }

  predicate MagicOk(h: seq<byte>)
    requires |h| >= HEAD
  {
    h[..4] == MAGIC
  }

  predicate LengthOk(h: seq<byte>)
    requires |h| >= HEAD
  {
    0 <= Len(h) <= MAX_BODY
  }

  predicate HeaderOk(h: seq<byte>)
    requires |h| >= HEAD
  {
    MagicOk(h) && LengthOk(h)
  }

  // ---------- the simple parser ----------

  datatype Parsed = Parsed(messages: seq<seq<byte>>, rest: seq<byte>)

  /** Read a header; drop it if it is bad; otherwise read the body. */
  function Parse(s: seq<byte>): (p: Parsed)
    ensures |p.rest| <= |s|
  {
    if |s| < HEAD then Parsed([], s)
    else if !HeaderOk(s[..HEAD]) then Parse(s[HEAD..])
    else
      var n := HEAD + Len(s[..HEAD]);
      if |s| < n then Parsed([], s)
      else
        var p := Parse(s[n..]);
        Parsed([s[..n]] + p.messages, p.rest)
  }

  lemma ParseDrops(s: seq<byte>)
    requires |s| >= HEAD && !HeaderOk(s[..HEAD])
    ensures Parse(s) == Parse(s[HEAD..])
  {
  }

  lemma ParseTakes(s: seq<byte>, n: int)
    requires |s| >= HEAD && HeaderOk(s[..HEAD]) && n == HEAD + Len(s[..HEAD]) <= |s|
    ensures Parse(s) == Parsed([s[..n]] + Parse(s[n..]).messages, Parse(s[n..]).rest)
  {
  }

  lemma ParseWaits(s: seq<byte>)
    requires |s| < HEAD || (HeaderOk(s[..HEAD]) && |s| < HEAD + Len(s[..HEAD]))
    ensures Parse(s) == Parsed([], s)
  {
  }

  function Join(p: Parsed, q: Parsed): Parsed {
    Parsed(p.messages + q.messages, q.rest)
  }

  lemma JoinPrepends(m: seq<byte>, p: Parsed, q: Parsed)
    ensures Join(Parsed([m] + p.messages, p.rest), q)
            == Parsed([m] + Join(p, q).messages, Join(p, q).rest)
  {
  }

  lemma ParseResumesTake(s: seq<byte>, t: seq<byte>, n: int)
    requires |s| >= HEAD && HeaderOk(s[..HEAD]) && n == HEAD + Len(s[..HEAD]) <= |s|
    requires Parse(s[n..] + t) == Join(Parse(s[n..]), Parse(Parse(s[n..]).rest + t))
    ensures Parse(s + t) == Join(Parse(s), Parse(Parse(s).rest + t))
  {
    assert (s + t)[..HEAD] == s[..HEAD];
    ParseTakes(s, n);
    ParseTakes(s + t, n);
    assert (s + t)[n..] == s[n..] + t && (s + t)[..n] == s[..n];
    JoinPrepends(s[..n], Parse(s[n..]), Parse(Parse(s[n..]).rest + t));
  }

  /** Parsing can stop anywhere and go on from the rest. */
  lemma {:induction false} ParseResumes(s: seq<byte>, t: seq<byte>)
    ensures Parse(s + t) == Join(Parse(s), Parse(Parse(s).rest + t))
    decreases |s|
  {
    if |s| < HEAD || (HeaderOk(s[..HEAD]) && |s| < HEAD + Len(s[..HEAD])) {
      ParseWaits(s);
      assert [] + Parse(s + t).messages == Parse(s + t).messages;
    } else {
      assert (s + t)[..HEAD] == s[..HEAD];
      if !HeaderOk(s[..HEAD]) {
        ParseDrops(s);
        ParseDrops(s + t);
        assert (s + t)[HEAD..] == s[HEAD..] + t;
        ParseResumes(s[HEAD..], t);
      } else {
        var n := HEAD + Len(s[..HEAD]);
        ParseResumes(s[n..], t);
        ParseResumesTake(s, t, n);
      }
    }
  }

  // ---------- the channel as a state machine ----------

  /** What the environment lets one recv do. */
  datatype Choice = Block | Take(n: nat)

  /** `size` is rBufSize, with -1 for a complete message; `incoming` is what the peer has yet to be
      read, `fin` whether it closes after that; `consumed` and `delivered` are the history. */
  datatype State = State(fd: int, size: int, buf: seq<byte>, recvOk: bool,
                         incoming: seq<byte>, fin: bool, consumed: seq<byte>, delivered: seq<seq<byte>>)

  datatype Event = Pick(c1: Choice, c2: Choice) | Handle

  /** The conversion of rBufSize for its comparison with a size_t. */
  function Unsigned(x: int): int {
    if x < 0 then x + 0x1_0000_0000 else x
  }

  /** What recv returns when asked for `want` bytes: -1 stands for would-block. */
  function RecvCount(incoming: seq<byte>, fin: bool, want: int, c: Choice): (k: int)
    requires want > 0
    ensures -1 <= k <= want && k <= |incoming|
  {
    match c
    case Block => -1
    case Take(n) =>
      if |incoming| == 0 then (if fin then 0 else -1)
      else
        var most := if want < |incoming| then want else |incoming|;
        if n < 1 then 1 else if n < most then n else most
  }

  function Received(st: State, want: int, c: Choice): int
    requires want > 0
  {
    RecvCount(st.incoming, st.fin, want, c)
  }

  /** The bytes of a successful recv go behind those already there. */
  function Store(st: State, k: int): State
    requires 0 < k <= |st.incoming| && 0 <= st.size && st.size + k <= |st.buf|
  {
    st.(buf := st.buf[..st.size] + st.incoming[..k] + st.buf[st.size + k..],
        size := st.size + k,
        incoming := st.incoming[k..],
        consumed := st.consumed + st.incoming[..k])
  }

  /** NewsChannel_channelClose. */
  function Closed(st: State): State {
    st.(fd := NULL_FD, size := 0, recvOk := false)
  }

  predicate Sized(st: State) {
    && |st.buf| == MAX_BUF
    && -1 <= st.size <= MAX_BUF
  }

  function Header(st: State): seq<byte>
    requires Sized(st)
  {
    st.buf[..HEAD]
  }

  /** The state after recv: unchanged, closed, or with k more bytes. */
  function AfterRecv(st: State, k: int): State
    requires -1 <= k <= |st.incoming| && 0 <= st.size && st.size + k <= |st.buf|
  {
    if k < 0 then st else if k == 0 then Closed(st) else Store(st, k)
  }

  predicate SameBytes(s: State, r: State) {
    r.buf == s.buf && r.consumed == s.consumed && r.incoming == s.incoming && r.fin == s.fin && r.fd == s.fd
  }

  /** Judging the header that has just been completed. */
  function HeaderDone(st1: State): (r: (State, bool))
    requires Sized(st1)
    ensures SameBytes(st1, r.0)
  {
    if st1.size != HEAD then (st1, false)
    else if Len(Header(st1)) != 0 then (st1.(recvOk := true), false)
    else if !MagicOk(Header(st1)) then (st1.(size := 0), true)
    else (st1.(recvOk := false, size := -1), true)
  }

  /** Judging the body after a recv. */
  function BodyDone(st1: State): (r: State)
    requires Sized(st1)
    ensures SameBytes(st1, r)
  {
    if Unsigned(st1.size) >= Len(Header(st1)) + HEAD then st1.(recvOk := false, size := -1) else st1
  }

  /** The first branch: complete the header.  True when the function returns there. */
  function HeaderPhase(st: State, c: Choice): (State, bool)
    requires Sized(st) && 0 <= st.size < HEAD
  {
    var k := Received(st, HEAD - st.size, c);
    if k < 0 then (st, true) else HeaderDone(AfterRecv(st, k))
  }

  /** Asking for the rest of the body. */
  function BodyReceive(st: State, c: Choice): State
    requires Sized(st) && HEAD <= st.size && LengthOk(Header(st)) && st.size < Len(Header(st)) + HEAD
  {
    var k := Received(st, Len(Header(st)) + HEAD - st.size, c);
    if k < 0 then st else BodyDone(AfterRecv(st, k).(recvOk := true))
  }

  /** The second branch: judge the header and complete the body. */
  function BodyPhase(st: State, c: Choice): State
    requires Sized(st) && Unsigned(st.size) >= HEAD
  {
    if !MagicOk(Header(st)) || !LengthOk(Header(st)) then st.(size := 0, recvOk := false)
    else if Unsigned(st.size) >= Len(Header(st)) + HEAD then BodyDone(st)
    else BodyReceive(st, c)
  }

  /** NewsChannel_pickPackageOfClient; `nextLoop` is _TCP_RCV_BODY_NEXT_LOOP. */
  function PickOnce(nextLoop: bool, st: State, c1: Choice, c2: Choice): State
    requires Sized(st)
  {
    if Unsigned(st.size) < HEAD then
      var (st1, returned) := HeaderPhase(st, c1);
      if nextLoop || returned || Unsigned(st1.size) < HEAD then st1 else BodyPhase(st1, c2)
    else BodyPhase(st, c2)
  }

  function Message(st: State): seq<byte>
    requires Sized(st)
  {
    var n := HEAD + Len(Header(st));
    if HEAD <= n <= MAX_BUF then st.buf[..n] else st.buf
  }

  /** One event of the main loop: a readable channel is picked, then complete messages are handled. */
  function Step(nextLoop: bool, st: State, e: Event): State
    requires Sized(st)
  {
    match e
    case Pick(c1, c2) => if st.fd == NULL_FD then st else PickOnce(nextLoop, st, c1, c2)
    case Handle => if st.size == -1 then st.(delivered := st.delivered + [Message(st)], size := 0) else st
  }

  // ---------- the invariant ----------

  /** How the channel's fields account for the bytes consumed so far. */
  ghost predicate Accounts(st: State) {
    && Sized(st)
    && var p := Parse(st.consumed);
       if st.size == -1 then
         HeaderOk(Header(st)) && p == Parsed(st.delivered + [Message(st)], [])
       else if st.fd == NULL_FD then
         st.size == 0 && p.messages == st.delivered
       else if st.size < HEAD then
         p == Parsed(st.delivered, st.buf[..st.size])
       else if HeaderOk(Header(st)) then
         st.size < HEAD + Len(Header(st)) && p == Parsed(st.delivered, st.buf[..st.size])
       else
         st.size == HEAD && p == Parsed(st.delivered, [])
  }

  /** What the bytes in the buffer parse to, while they do not exceed header plus body. */
  lemma FillParses(st: State)
    requires Sized(st) && 0 <= st.size
    requires st.size <= HEAD || (HeaderOk(Header(st)) && st.size <= HEAD + Len(Header(st)))
    ensures Parse(st.buf[..st.size])
            == if st.size < HEAD || (HeaderOk(Header(st)) && st.size < HEAD + Len(Header(st)))
               then Parsed([], st.buf[..st.size])
               else if HeaderOk(Header(st)) then Parsed([Message(st)], [])
               else Parsed([], [])
  {
    var fill := st.buf[..st.size];
    ParseWaits([]);
    if st.size >= HEAD {
      assert fill[..HEAD] == Header(st);
      if !HeaderOk(Header(st)) {
        ParseDrops(fill);
        assert fill[HEAD..] == [];
      } else if st.size == HEAD + Len(Header(st)) {
        ParseTakes(fill, st.size);
        assert fill[..st.size] == fill && fill[st.size..] == [];
      } else {
        ParseWaits(fill);
      }
    } else {
      ParseWaits(fill);
    }
  }

  /** The state after a successful recv, before the size is judged. */
  ghost predicate Stored(s: State) {
    && Sized(s) && 0 <= s.size
    && Parse(s.consumed) == Join(Parsed(s.delivered, []), Parse(s.buf[..s.size]))
  }

  lemma StoreKeeps(st: State, k: int)
    requires Sized(st) && 0 < k <= |st.incoming| && 0 <= st.size && st.size + k <= MAX_BUF
    requires Parse(st.consumed) == Parsed(st.delivered, st.buf[..st.size])
    ensures Stored(Store(st, k)) && Store(st, k).size == st.size + k && Store(st, k).fd == st.fd
    ensures st.size >= HEAD ==> Header(Store(st, k)) == Header(st)
  {
    ParseResumes(st.consumed, st.incoming[..k]);
    var s := Store(st, k);
    assert s.buf[..s.size] == st.buf[..st.size] + st.incoming[..k];
  }

  /** Judging the stored bytes as the source does keeps the account. */
  lemma StoredAccounts(s: State)
    requires Stored(s) && s.fd != NULL_FD
    requires s.size <= HEAD || (HeaderOk(Header(s)) && s.size <= HEAD + Len(Header(s)))
    ensures s.size < HEAD || !HeaderOk(Header(s)) || s.size < HEAD + Len(Header(s)) ==> Accounts(s)
    ensures s.size == HEAD && !HeaderOk(Header(s)) ==> Accounts(s.(size := 0))
    ensures s.size >= HEAD && HeaderOk(Header(s)) && s.size == HEAD + Len(Header(s)) ==>
              Accounts(s.(size := -1, recvOk := false))
  {
    FillParses(s);
    assert s.delivered + [] == s.delivered;
    assert s.buf[..0] == [];
  }

  lemma RecvOkIsFree(s: State, ok: bool)
    ensures Accounts(s) <==> Accounts(s.(recvOk := ok))
  {
    if Sized(s) {
      assert s.(recvOk := ok).buf == s.buf;
    }
  }

  lemma HeaderDoneAccounts(s: State)
    requires Stored(s) && s.fd != NULL_FD && s.size <= HEAD
    ensures Accounts(HeaderDone(s).0)
  {
    StoredAccounts(s);
    RecvOkIsFree(s, true);
  }

  lemma BodyDoneAccounts(s: State)
    requires Stored(s) && s.fd != NULL_FD
    requires s.size >= HEAD && HeaderOk(Header(s)) && s.size <= HEAD + Len(Header(s))
    ensures Accounts(BodyDone(s.(recvOk := true)))
  {
    StoredAccounts(s);
    RecvOkIsFree(s, true);
  }

  lemma ClosedAccounts(st: State)
    requires Accounts(st) && st.size != -1
    ensures Accounts(Closed(st)) && Accounts(Closed(st).(recvOk := true))
  {
  }

  lemma HeaderPhaseAccounts(st: State, c: Choice)
    requires Accounts(st) && st.fd != NULL_FD && 0 <= st.size < HEAD
    ensures Accounts(HeaderPhase(st, c).0)
  {
    var k := Received(st, HEAD - st.size, c);
    if k > 0 {
      StoreKeeps(st, k);
      HeaderDoneAccounts(Store(st, k));
    } else if k == 0 {
      ClosedAccounts(st);
    }
  }

  lemma BodyRecvAccounts(st: State, k: int)
    requires Accounts(st) && st.fd != NULL_FD && st.size >= HEAD && HeaderOk(Header(st))
    requires 0 < k <= |st.incoming| && st.size + k <= HEAD + Len(Header(st))
    ensures Accounts(BodyDone(Store(st, k).(recvOk := true)))
  {
    StoreKeeps(st, k);
    BodyDoneAccounts(Store(st, k));
  }

  lemma BodyPhaseAccounts(st: State, c: Choice)
    requires Accounts(st) && st.fd != NULL_FD && Unsigned(st.size) >= HEAD
    ensures Accounts(BodyPhase(st, c))
  {
    if !HeaderOk(Header(st)) {
      DroppedAccounts(st);
    } else if st.size == -1 {
      RecvOkIsFree(st, false);
    } else {
      BodyReceiveAccounts(st, c);
    }
  }

  lemma DroppedAccounts(st: State)
    requires Accounts(st) && st.fd != NULL_FD && st.size >= HEAD && !HeaderOk(Header(st))
    ensures Accounts(st.(size := 0, recvOk := false))
  {
    assert st.(size := 0, recvOk := false).buf[..0] == [];
  }

  lemma BodyReceiveAccounts(st: State, c: Choice)
    requires Accounts(st) && st.fd != NULL_FD && st.size >= HEAD && HeaderOk(Header(st))
    ensures Accounts(BodyReceive(st, c))
  {
    var k := Received(st, Len(Header(st)) + HEAD - st.size, c);
    if k > 0 {
      BodyRecvAccounts(st, k);
    } else if k == 0 {
      ClosedAccounts(st);
    }
  }

  lemma StepAccounts(nextLoop: bool, st: State, e: Event)
    requires Accounts(st)
    ensures Accounts(Step(nextLoop, st, e))
  {
    match e
    case Pick(c1, c2) =>
      if st.fd != NULL_FD {
        if Unsigned(st.size) < HEAD {
          HeaderPhaseAccounts(st, c1);
          var st1 := HeaderPhase(st, c1).0;
          if st1.fd != NULL_FD && Unsigned(st1.size) >= HEAD {
            BodyPhaseAccounts(st1, c2);
          }
        } else {
          BodyPhaseAccounts(st, c2);
        }
      }
    case Handle =>
      if st.size == -1 {
        assert st.buf[..0] == [];
      }
  }

  // ---------- whole runs ----------

  function Run(nextLoop: bool, st: State, es: seq<Event>): State
    requires Sized(st)
    decreases |es|
  {
    if es == [] then st else
      var next := Step(nextLoop, st, es[0]);
      if Sized(next) then Run(nextLoop, next, es[1..]) else next
  }

  /** A slot just given to an accepted connection; the buffer holds whatever was there before. */
  predicate Fresh(st: State) {
    Sized(st) && st.fd != NULL_FD && st.size == 0 && st.consumed == [] && st.delivered == []
  }

  lemma FreshAccounts(st: State)
    requires Fresh(st)
    ensures Accounts(st)
  {
    assert st.buf[..0] == [];
    ParseWaits([]);
  }

  /** Bytes move from `incoming` to `consumed` in order; the connection closes only when the peer
      has closed and everything has been read. */
  ghost predicate Moved(st: State, next: State) {
    && next.consumed + next.incoming == st.consumed + st.incoming
    && st.consumed <= next.consumed
    && |next.incoming| <= |st.incoming|
    && next.fin == st.fin
    && (next.fd == st.fd || (next.fd == NULL_FD && next.incoming == []))
  }

  lemma StoreMoves(st: State, k: int)
    requires 0 < k <= |st.incoming| && 0 <= st.size && st.size + k <= |st.buf|
    ensures Moved(st, Store(st, k)) && |Store(st, k).incoming| < |st.incoming|
  {
    assert st.incoming[..k] + st.incoming[k..] == st.incoming;
    assert st.consumed + (st.incoming[..k] + st.incoming[k..]) == (st.consumed + st.incoming[..k]) + st.incoming[k..];
  }

  lemma SameStream(st: State, s: State, r: State)
    requires Moved(st, s) && SameBytes(s, r)
    ensures Moved(st, r)
  {
  }

  lemma RecvMoves(st: State, k: int)
    requires -1 <= k <= |st.incoming| && 0 <= st.size && st.size + k <= |st.buf|
    requires k == 0 ==> st.incoming == []
    ensures Moved(st, AfterRecv(st, k)) && (k > 0 ==> |AfterRecv(st, k).incoming| < |st.incoming|)
  {
    if k > 0 {
      StoreMoves(st, k);
    }
  }

  lemma HeaderPhaseMoves(st: State, c: Choice)
    requires Sized(st) && 0 <= st.size < HEAD
    ensures Moved(st, HeaderPhase(st, c).0)
    ensures c.Take? && |st.incoming| > 0 ==> |HeaderPhase(st, c).0.incoming| < |st.incoming|
  {
    var k := Received(st, HEAD - st.size, c);
    RecvMoves(st, k);
    if k >= 0 {
      SameStream(st, AfterRecv(st, k), HeaderDone(AfterRecv(st, k)).0);
    }
  }

  lemma BodyPhaseMoves(st: State, c: Choice)
    requires Sized(st) && Unsigned(st.size) >= HEAD
    ensures Moved(st, BodyPhase(st, c))
    ensures !HeaderOk(Header(st)) ==> BodyPhase(st, c) == st.(size := 0, recvOk := false)
    ensures c.Take? && |st.incoming| > 0 && HeaderOk(Header(st)) && 0 <= st.size < HEAD + Len(Header(st)) ==>
              |BodyPhase(st, c).incoming| < |st.incoming|
  {
    if HeaderOk(Header(st)) && Unsigned(st.size) < Len(Header(st)) + HEAD {
      BodyReceiveMoves(st, c);
    } else {
      SameStream(st, st, BodyPhase(st, c));
    }
  }

  lemma BodyReceiveMoves(st: State, c: Choice)
    requires Sized(st) && HEAD <= st.size && LengthOk(Header(st)) && st.size < Len(Header(st)) + HEAD
    ensures Moved(st, BodyReceive(st, c))
    ensures c.Take? && |st.incoming| > 0 ==> |BodyReceive(st, c).incoming| < |st.incoming|
  {
    var k := Received(st, Len(Header(st)) + HEAD - st.size, c);
    RecvMoves(st, k);
    if k >= 0 {
      SameStream(st, AfterRecv(st, k), AfterRecv(st, k).(recvOk := true));
      SameStream(st, AfterRecv(st, k).(recvOk := true), BodyDone(AfterRecv(st, k).(recvOk := true)));
    }
  }

  lemma MovedTwice(a: State, b: State, c: State)
    requires Moved(a, b) && Moved(b, c)
    ensures Moved(a, c)
  {
  }

  lemma StepMoves(nextLoop: bool, st: State, e: Event)
    requires Accounts(st)
    ensures Moved(st, Step(nextLoop, st, e))
  {
    match e
    case Pick(c1, c2) =>
      if st.fd != NULL_FD {
        if Unsigned(st.size) < HEAD {
          HeaderPhaseMoves(st, c1);
          HeaderPhaseAccounts(st, c1);
          var st1 := HeaderPhase(st, c1).0;
          if Unsigned(st1.size) >= HEAD {
            BodyPhaseMoves(st1, c2);
            MovedTwice(st, st1, BodyPhase(st1, c2));
          }
        } else {
          BodyPhaseMoves(st, c2);
        }
      }
    case Handle =>
  }

  lemma {:induction false} RunAccounts(nextLoop: bool, st: State, es: seq<Event>)
    requires Accounts(st)
    ensures var end := Run(nextLoop, st, es);
            && Accounts(end)
            && end.consumed + end.incoming == st.consumed + st.incoming
    decreases |es|
  {
    if es != [] {
      StepAccounts(nextLoop, st, es[0]);
      StepMoves(nextLoop, st, es[0]);
      RunAccounts(nextLoop, Step(nextLoop, st, es[0]), es[1..]);
    }
  }

  function Ready(st: State): seq<seq<byte>>
    requires Sized(st)
  {
    if st.size == -1 then [Message(st)] else []
  }

  /** The main property: for every stream, every variant and every sequence of recv results, what
      has been delivered and is ready is what the simple parser finds in the bytes consumed. */
  lemma DeliversWhatIsParsed(nextLoop: bool, st: State, es: seq<Event>)
    requires Fresh(st)
    ensures var end := Run(nextLoop, st, es);
            && Sized(end)
            && end.consumed <= st.incoming
            && end.delivered + Ready(end) == Parse(end.consumed).messages
  {
    FreshAccounts(st);
    RunAccounts(nextLoop, st, es);
    var end := Run(nextLoop, st, es);
    assert end.consumed + end.incoming == st.incoming;
    assert end.consumed == st.incoming[..|end.consumed|];
    assert end.delivered + [] == end.delivered;
  }

  /** Fragmentation and the compile-time variant do not matter: two runs that have consumed the same
      bytes and have nothing ready have delivered the same messages. */
  lemma FragmentationDoesNotMatter(v1: bool, st1: State, es1: seq<Event>, end1: State,
                                   v2: bool, st2: State, es2: seq<Event>, end2: State)
    requires Fresh(st1) && end1 == Run(v1, st1, es1) && end1.size != -1
    requires Fresh(st2) && end2 == Run(v2, st2, es2) && end2.size != -1
    requires end1.consumed == end2.consumed
    ensures end1.delivered == end2.delivered
  {
    NothingReady(v1, st1, es1);
    NothingReady(v2, st2, es2);
  }

  lemma NothingReady(nextLoop: bool, st: State, es: seq<Event>)
    requires Fresh(st) && Run(nextLoop, st, es).size != -1
    ensures Run(nextLoop, st, es).delivered == Parse(Run(nextLoop, st, es).consumed).messages
  {
    DeliversWhatIsParsed(nextLoop, st, es);
    var d := Run(nextLoop, st, es).delivered;
    assert d + [] == d;
  }

  /** The fill count never exceeds header plus body, so it never exceeds the buffer. */
  lemma FillNeverExceedsMessage(nextLoop: bool, st: State, es: seq<Event>)
    requires Fresh(st)
    ensures var end := Run(nextLoop, st, es);
            && Sized(end)
            && (end.size <= HEAD || (HeaderOk(Header(end)) && end.size < HEAD + Len(Header(end)) <= MAX_BUF))
            && (end.size == -1 ==> HeaderOk(Header(end)))
  {
    FreshAccounts(st);
    RunAccounts(nextLoop, st, es);
  }

  // ---------- nothing is left behind ----------

  function Round(nextLoop: bool, st: State, n1: nat, n2: nat): (r: State)
    requires Accounts(st)
    ensures Accounts(r) && r.size != -1
  {
    StepAccounts(nextLoop, st, Pick(Take(n1), Take(n2)));
    var picked := Step(nextLoop, st, Pick(Take(n1), Take(n2)));
    StepAccounts(nextLoop, picked, Handle);
    Step(nextLoop, picked, Handle)
  }

  /** What is still to be done: bytes to read, and a bad header to drop. */
  function Work(st: State): nat
    requires Sized(st)
  {
    2 * |st.incoming| + if st.size >= HEAD && !HeaderOk(Header(st)) then 1 else 0
  }

  lemma PickProgresses(nextLoop: bool, st: State, n1: nat, n2: nat)
    requires Accounts(st) && st.size != -1 && st.fd != NULL_FD && Work(st) > 0
    ensures var r := PickOnce(nextLoop, st, Take(n1), Take(n2));
            |r.incoming| < |st.incoming| || (r.incoming == st.incoming && st.size >= HEAD && r.size == 0)
  {
    if st.size < HEAD {
      HeaderPhaseMoves(st, Take(n1));
      HeaderPhaseAccounts(st, Take(n1));
      var st1 := HeaderPhase(st, Take(n1)).0;
      if Unsigned(st1.size) >= HEAD {
        BodyPhaseMoves(st1, Take(n2));
      }
    } else {
      BodyPhaseMoves(st, Take(n2));
    }
  }

  /** Every round in which recv does not block gets something done. */
  lemma RoundProgresses(nextLoop: bool, st: State, n1: nat, n2: nat)
    requires Accounts(st) && st.size != -1 && st.fd != NULL_FD && Work(st) > 0
    ensures Work(Round(nextLoop, st, n1, n2)) < Work(st)
  {
    PickProgresses(nextLoop, st, n1, n2);
  }

  lemma RoundMoves(nextLoop: bool, st: State, n1: nat, n2: nat)
    requires Accounts(st)
    ensures Moved(st, Round(nextLoop, st, n1, n2))
  {
    var e := Pick(Take(n1), Take(n2));
    StepMoves(nextLoop, st, e);
    StepAccounts(nextLoop, st, e);
    StepMoves(nextLoop, Step(nextLoop, st, e), Handle);
    MovedTwice(st, Step(nextLoop, st, e), Step(nextLoop, Step(nextLoop, st, e), Handle));
  }

  function Rounds(nextLoop: bool, st: State, ns: seq<(nat, nat)>): (r: State)
    requires Accounts(st)
    ensures Accounts(r)
    decreases |ns|
  {
    if ns == [] then st else Rounds(nextLoop, Round(nextLoop, st, ns[0].0, ns[0].1), ns[1..])
  }

  /** Nothing more to do: what was delivered is what the stream parses to. */
  lemma WorkDone(st: State)
    requires Accounts(st) && st.size != -1 && Work(st) == 0
    ensures st.incoming == [] && st.delivered == Parse(st.consumed).messages
  {
  }

  /** Rounds of the loop in which recv does not block, whatever fragments it returns, read the whole
      stream and deliver every message in it, whether or not the peer then closes. */
  lemma {:induction false} RoundsDrain(nextLoop: bool, st: State, ns: seq<(nat, nat)>)
    requires Accounts(st) && st.size != -1 && (st.fd == NULL_FD ==> st.incoming == [])
    requires Work(st) <= |ns|
    ensures var r := Rounds(nextLoop, st, ns);
            && r.consumed == st.consumed + st.incoming
            && r.delivered == Parse(st.consumed + st.incoming).messages
    decreases |ns|
  {
    if ns == [] {
      WorkDone(st);
      assert st.consumed + st.incoming == st.consumed;
    } else {
      var r := Round(nextLoop, st, ns[0].0, ns[0].1);
      RoundMoves(nextLoop, st, ns[0].0, ns[0].1);
      if Work(st) > 0 {
        RoundProgresses(nextLoop, st, ns[0].0, ns[0].1);
      } else {
        IdleRound(nextLoop, st, ns[0].0, ns[0].1);
      }
      RoundsDrain(nextLoop, r, ns[1..]);
    }
  }

  lemma IdleRound(nextLoop: bool, st: State, n1: nat, n2: nat)
    requires Accounts(st) && st.size != -1 && Work(st) == 0
    ensures Work(Round(nextLoop, st, n1, n2)) == 0
  {
  }

  // ---------- the code ----------

  /** A non-blocking socket: `incoming` is what its peer sends, in order. */
  class Socket {
    var incoming: seq<byte>
    const fin: bool
    ghost var consumed: seq<byte>

    constructor (stream: seq<byte>, fin: bool)
      ensures incoming == stream && this.fin == fin && consumed == []
    {
      incoming, consumed := stream, [];
      this.fin := fin;
    }

    method Recv(buf: array<byte>, at: int, want: int, c: Choice) returns (retval: int)
      requires 0 <= at && 0 < want && at + want <= buf.Length
      modifies this, buf
      ensures retval == RecvCount(old(incoming), fin, want, c)
      ensures retval <= 0 ==> incoming == old(incoming) && consumed == old(consumed) && buf[..] == old(buf[..])
      ensures retval > 0 ==>
                && incoming == old(incoming)[retval..]
                && consumed == old(consumed) + old(incoming)[..retval]
                && buf[..] == old(buf[..])[..at] + old(incoming)[..retval] + old(buf[..])[at + retval..]
    {
      retval := RecvCount(incoming, fin, want, c);
      if retval > 0 {
        ghost var before := buf[..];
        var i := 0;
        while i < retval
          modifies buf
          invariant 0 <= i <= retval
          invariant forall j :: 0 <= j < i ==> buf[at + j] == incoming[j]
          invariant forall j :: 0 <= j < at || at + i <= j < buf.Length ==> buf[j] == before[j]
        {
          buf[at + i] := incoming[i];
          i := i + 1;
        }
        assert buf[at..at + retval] == incoming[..retval];
        assert buf[..] == buf[..at] + buf[at..at + retval] + buf[at + retval..];
        assert buf[..at] == before[..at] && buf[at + retval..] == before[at + retval..];
        consumed := consumed + incoming[..retval];
        incoming := incoming[retval..];
      }
    }
  }

  class UsrChannel {
    var fd: int
    var rBufSize: int
    const rBuf: array<byte>
    var isRecvOK: bool

    constructor (fd: int)
      ensures this.fd == fd && rBufSize == 0 && !isRecvOK && rBuf.Length == MAX_BUF
      ensures fresh(rBuf)
    {
      this.fd, rBufSize, isRecvOK := fd, 0, false;
      rBuf := new byte[MAX_BUF](_ => 0);
    }

    /** The channel and its socket as a state of the machine above. */
    ghost function View(sock: Socket, delivered: seq<seq<byte>>): State
      reads this, rBuf, sock
    {
      State(fd, rBufSize, rBuf[..], isRecvOK, sock.incoming, sock.fin, sock.consumed, delivered)
    }

    method ChannelClose()
      modifies this
      ensures fd == NULL_FD && rBufSize == 0 && !isRecvOK
    {
      rBufSize := 0;
      isRecvOK := false;
      fd := NULL_FD;
    }

    /** The recv of either branch, with its error handling. */
    method ReceiveSome(sock: Socket, want: int, c: Choice, ghost delivered: seq<seq<byte>>) returns (retval: int)
      requires Sized(View(sock, delivered)) && 0 <= rBufSize && 0 < want && rBufSize + want <= MAX_BUF
      modifies this, rBuf, sock
      ensures retval == Received(old(View(sock, delivered)), want, c)
      ensures View(sock, delivered) == AfterRecv(old(View(sock, delivered)), retval)
    {
      retval := sock.Recv(rBuf, rBufSize, want, c);
      if retval == 0 {
        ChannelClose();
      } else if retval < 0 {
        return;
      }
      rBufSize := rBufSize + retval;
    }

    method ReceiveHeader(sock: Socket, c: Choice, ghost delivered: seq<seq<byte>>) returns (returned: bool)
      requires Sized(View(sock, delivered)) && 0 <= rBufSize < HEAD
      modifies this, rBuf, sock
      ensures (View(sock, delivered), returned) == HeaderPhase(old(View(sock, delivered)), c)
    {
      var retval := ReceiveSome(sock, HEAD - rBufSize, c, delivered);
      if retval < 0 {
        return true;
      }
      if rBufSize == HEAD {
        if Len(rBuf[..HEAD]) == 0 {
          if !MagicOk(rBuf[..HEAD]) {
            rBufSize := 0;
            return true;
          }
          isRecvOK := false;
          rBufSize := -1;
          return true;
        } else {
          isRecvOK := true;
        }
      }
      return false;
    }

    method FinishBody(sock: Socket, ghost delivered: seq<seq<byte>>)
      requires Sized(View(sock, delivered))
      modifies this
      ensures View(sock, delivered) == BodyDone(old(View(sock, delivered)))
    {
      if Unsigned(rBufSize) >= Len(rBuf[..HEAD]) + HEAD {
        isRecvOK := false;
        rBufSize := -1;
      }
    }

    method ReceiveBody(sock: Socket, c: Choice, ghost delivered: seq<seq<byte>>)
      requires Sized(View(sock, delivered)) && Unsigned(rBufSize) >= HEAD
      modifies this, rBuf, sock
      ensures View(sock, delivered) == BodyPhase(old(View(sock, delivered)), c)
    {
      if !MagicOk(rBuf[..HEAD]) {
        rBufSize := 0;
        isRecvOK := false;
        return;
      }
      if !LengthOk(rBuf[..HEAD]) {
        rBufSize := 0;
        isRecvOK := false;
        return;
      }
      if Unsigned(rBufSize) < Len(rBuf[..HEAD]) + HEAD {
        ReceiveRest(sock, c, delivered);
        return;
      }
      FinishBody(sock, delivered);
    }

    /** The recv of the body branch; then the body is judged as when nothing had to be received. */
    method ReceiveRest(sock: Socket, c: Choice, ghost delivered: seq<seq<byte>>)
      requires Sized(View(sock, delivered)) && HEAD <= rBufSize && LengthOk(rBuf[..HEAD])
      requires rBufSize < Len(rBuf[..HEAD]) + HEAD
      modifies this, rBuf, sock
      ensures View(sock, delivered) == BodyReceive(old(View(sock, delivered)), c)
    {
      var retval := ReceiveSome(sock, Len(rBuf[..HEAD]) + HEAD - rBufSize, c, delivered);
      if retval < 0 {
        return;
      }
      FinishRest(sock, delivered);
    }

    method FinishRest(sock: Socket, ghost delivered: seq<seq<byte>>)
      requires Sized(View(sock, delivered))
      modifies this
      ensures View(sock, delivered) == BodyDone(old(View(sock, delivered)).(recvOk := true))
    {
      isRecvOK := true;
      FinishBody(sock, delivered);
    }

    /** NewsChannel_pickPackageOfClient. */
    method PickPackageOfClient(nextLoop: bool, sock: Socket, c1: Choice, c2: Choice, ghost delivered: seq<seq<byte>>)
      requires Sized(View(sock, delivered))
      modifies this, rBuf, sock
      ensures View(sock, delivered) == PickOnce(nextLoop, old(View(sock, delivered)), c1, c2)
    {
      if Unsigned(rBufSize) < HEAD {
        var returned := ReceiveHeader(sock, c1, delivered);
        if nextLoop || returned {
          return;
        }
        if Unsigned(rBufSize) >= HEAD {
          ReceiveBody(sock, c2, delivered);
        }
      } else {
        ReceiveBody(sock, c2, delivered);
      }
    }

    /** The channel's share of NewsChannel_tcpClientMsgHandler: hands on a complete message. */
    method HandleMessage(sock: Socket, ghost delivered: seq<seq<byte>>) returns (messages: seq<seq<byte>>)
      requires Accounts(View(sock, delivered))
      modifies this
      ensures View(sock, delivered + messages) == Step(true, old(View(sock, delivered)), Handle)
    {
      messages := [];
      if rBufSize == -1 {
        var n := HEAD + Len(rBuf[..HEAD]);
        messages := [rBuf[..n]];
        rBufSize := 0;
      }
      assert delivered + [] == delivered;
    }
  }
}
