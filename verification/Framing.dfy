/** What a client may send on a connection of NewsChannel/NewsChannel.c, and what reaches the handlers.

  A request goes out as a frame: the magic, a little-endian command, a version, eight reserved bytes, the
  little-endian length of the body, four more reserved bytes, and the body.  Between frames there may be
  headers that belong to no frame.  The theorems say that exactly the frames are delivered, without
  speaking of how the receiver reads a header.
 */
module Framing {
  import opened Bytes
  import opened Reassembler

  function LittleEndian(n: nat, width: nat): (r: seq<byte>)
    ensures |r| == width
  {
    if width == 0 then [] else [n % 256] + LittleEndian(n / 256, width - 1)
  }

  /** The fields of RequestHead that the sender chooses, and the body. */
  datatype Request = Request(cmd: nat, version: byte, crsv: seq<byte>, irsv: seq<byte>, body: seq<byte>) {
    predicate Valid() {
      cmd < 0x1_0000 && |crsv| == 8 && |irsv| == 4 && |body| <= 512 - 23
    }

    function Head(): (r: seq<byte>)
      requires Valid()
      ensures |r| == 23
    {
      [73, 66, 66, 77] + LittleEndian(cmd, 2) + [version] + crsv + LittleEndian(|body|, 4) + irsv
    }

    function Frame(): (r: seq<byte>)
      requires Valid()
      ensures |r| == 23 + |body|
    {
      Head() + body
    }
  }

  /** The header of some frame. */
  ghost predicate BeginsFrame(h: seq<byte>) {
    exists q: Request :: q.Valid() && q.Head() == h
  }

  lemma LengthBytes(n: nat)
    requires n < 512
    ensures LittleEndian(n, 4) == [n % 256, n / 256, 0, 0]
  {
    assert n / 256 / 256 == 0;
    assert LittleEndian(0, 2) == [0] + LittleEndian(0, 1);
    assert LittleEndian(0, 1) == [0] + LittleEndian(0, 0);
  }

  lemma HeadIsOk(q: Request)
    requires q.Valid()
    ensures HeaderOk(q.Head()) && Len(q.Head()) == |q.body|
  {
    var h := q.Head();
    LengthBytes(|q.body|);
    assert h[..4] == [73, 66, 66, 77];
    assert h[15..19] == LittleEndian(|q.body|, 4);
    assert h[15] == h[15..19][0] && h[16] == h[15..19][1] && h[17] == h[15..19][2] && h[18] == h[15..19][3];
  }

  /** The request whose frame begins with h, with any body of the right length. */
  function RequestOf(h: seq<byte>, body: seq<byte>): Request
    requires |h| == 23
  {
    Request(h[4] as int + 256 * h[5] as int, h[6], h[7..15], h[19..], body)
  }

  lemma LowLength(h: seq<byte>)
    requires |h| == 23 && LengthOk(h)
    ensures h[17] == 0 && h[18] == 0 && Len(h) == h[15] as int + 256 * h[16] as int
  {
    var u := (h[15] as int) + 256 * (h[16] as int) + 65536 * (h[17] as int) + 16777216 * (h[18] as int);
    assert 0 <= u < 0x1_0000_0000;
  }

  lemma OkIsHead(h: seq<byte>, body: seq<byte>)
    requires |h| == 23 && HeaderOk(h) && |body| == Len(h)
    ensures RequestOf(h, body).Valid() && RequestOf(h, body).Head() == h
  {
    var q := RequestOf(h, body);
    LowLength(h);
    LengthBytes(|body|);
    assert LittleEndian(q.cmd, 2) == [h[4]] + LittleEndian(h[5], 1) && LittleEndian(h[5], 1) == [h[5]] + [];
    assert h == h[..4] + [h[4], h[5]] + [h[6]] + h[7..15] + [h[15], h[16], 0, 0] + h[19..];
  }

  /** The receiver takes exactly the headers of frames. */
  lemma OkIffBeginsFrame(h: seq<byte>)
    requires |h| == 23
    ensures HeaderOk(h) <==> BeginsFrame(h)
  {
    if HeaderOk(h) {
      OkIsHead(h, seq(Len(h), _ => 0));
    }
    if q: Request :| q.Valid() && q.Head() == h {
      HeadIsOk(q);
    }
  }

  // ---------- streams ----------

  datatype Chunk = Good(q: Request) | Bad(h: seq<byte>) {
    /** A frame, or 23 bytes that no frame begins with. */
    ghost predicate Valid() {
      match this
      case Good(q) => q.Valid()
      case Bad(h) => |h| == 23 && !BeginsFrame(h)
    }

    ghost function Bytes(): seq<byte>
      requires Valid()
    {
      match this case Good(q) => q.Frame() case Bad(h) => h
    }
  }

  ghost predicate AllValid(chunks: seq<Chunk>) {
    forall c :: c in chunks ==> c.Valid()
  }

  ghost function Wire(chunks: seq<Chunk>): seq<byte>
    requires AllValid(chunks)
  {
    if chunks == [] then [] else chunks[0].Bytes() + Wire(chunks[1..])
  }

  ghost function Frames(chunks: seq<Chunk>): seq<seq<byte>>
    requires AllValid(chunks)
  {
    if chunks == [] then []
    else (if chunks[0].Good? then [chunks[0].Bytes()] else []) + Frames(chunks[1..])
  }

  /** The beginning of a frame, or of some header, that has not all arrived. */
  ghost predicate Partial(s: seq<byte>) {
    |s| < 23 || exists q: Request :: q.Valid() && s < q.Frame()
  }

  lemma PartialWaits(s: seq<byte>)
    requires Partial(s)
    ensures Parse(s) == Parsed([], s)
  {
    if |s| >= 23 {
      var q: Request :| q.Valid() && s < q.Frame();
      assert s[..23] == q.Frame()[..23] == q.Head();
      HeadIsOk(q);
      ParseWaits(s);
    }
  }

  lemma ParseFrame(q: Request, s: seq<byte>)
    requires q.Valid()
    ensures Parse(q.Frame() + s) == Parsed([q.Frame()] + Parse(s).messages, Parse(s).rest)
  {
    var t := q.Frame() + s;
    var n := 23 + |q.body|;
    HeadIsOk(q);
    assert t[..23] == q.Head() && t[..n] == q.Frame() && t[n..] == s;
    ParseTakes(t, n);
  }

  lemma ParseBad(h: seq<byte>, s: seq<byte>)
    requires |h| == 23 && !BeginsFrame(h)
    ensures Parse(h + s) == Parse(s)
  {
    OkIffBeginsFrame(h);
    assert (h + s)[..23] == h && (h + s)[23..] == s;
    ParseDrops(h + s);
  }

  /** The framing law: of a stream of frames and stray headers, exactly the frames are parsed. */
  lemma {:induction false} FramesAreParsed(chunks: seq<Chunk>, tail: seq<byte>)
    requires AllValid(chunks) && Partial(tail)
    ensures Parse(Wire(chunks) + tail) == Parsed(Frames(chunks), tail)
    decreases chunks
  {
    if chunks == [] {
      assert Wire(chunks) + tail == tail;
      PartialWaits(tail);
    } else {
      var later := Wire(chunks[1..]) + tail;
      FramesAreParsed(chunks[1..], tail);
      assert Wire(chunks) + tail == chunks[0].Bytes() + later;
      match chunks[0]
      case Good(q) => ParseFrame(q, later);
      case Bad(h) => ParseBad(h, later);
    }
  }

  /** And every stream is one: it splits into frames, stray headers and a part that is still to be completed. */
  lemma {:induction false} EveryStreamIsFramed(s: seq<byte>) returns (chunks: seq<Chunk>, tail: seq<byte>)
    ensures AllValid(chunks) && Partial(tail) && s == Wire(chunks) + tail
    decreases |s|
  {
    if |s| < 23 {
      chunks, tail := [], s;
    } else {
      var h := s[..23];
      OkIffBeginsFrame(h);
      if !HeaderOk(h) {
        chunks, tail := EveryStreamIsFramed(s[23..]);
        chunks := Prepended(Bad(h), chunks, s[23..], tail);
        assert s == h + s[23..];
      } else if |s| < 23 + Len(h) {
        chunks, tail := [], s;
        CutFrameIsPartial(s);
      } else {
        var n := 23 + Len(h);
        var q := RequestOf(h, s[23..n]);
        OkIsHead(h, s[23..n]);
        chunks, tail := EveryStreamIsFramed(s[n..]);
        chunks := Prepended(Good(q), chunks, s[n..], tail);
        assert q.Frame() == s[..n];
      }
    }
  }

  lemma Prepended(c: Chunk, chunks: seq<Chunk>, s: seq<byte>, tail: seq<byte>) returns (r: seq<Chunk>)
    requires c.Valid() && AllValid(chunks) && s == Wire(chunks) + tail
    ensures r == [c] + chunks && AllValid(r) && c.Bytes() + s == Wire(r) + tail
  {
    r := [c] + chunks;
    assert r[1..] == chunks;
  }

  lemma CutFrameIsPartial(s: seq<byte>)
    requires |s| >= 23 && HeaderOk(s[..23]) && |s| < 23 + Len(s[..23])
    ensures Partial(s)
  {
    var body := s[23..] + seq(23 + Len(s[..23]) - |s|, _ => 0);
    OkIsHead(s[..23], body);
    var q := RequestOf(s[..23], body);
    assert q.Frame()[..|s|] == s;
  }

  /** A fresh channel that is read long enough, whatever fragments recv returns, has delivered exactly the
      frames that were sent completely, byte for byte and in order. */
  lemma SentFramesAreDelivered(nextLoop: bool, st: State, ns: seq<(nat, nat)>, chunks: seq<Chunk>, tail: seq<byte>)
    requires Fresh(st) && AllValid(chunks) && Partial(tail) && st.incoming == Wire(chunks) + tail
    requires 2 * |st.incoming| <= |ns|
    ensures Accounts(st)
    ensures Rounds(nextLoop, st, ns).consumed == Wire(chunks) + tail
    ensures Rounds(nextLoop, st, ns).delivered == Frames(chunks)
  {
    FreshAccounts(st);
    FramesAreParsed(chunks, tail);
    FreshDrains(nextLoop, st, ns);
  }

  lemma FreshDrains(nextLoop: bool, st: State, ns: seq<(nat, nat)>)
    requires Fresh(st) && Accounts(st) && 2 * |st.incoming| <= |ns|
    ensures Rounds(nextLoop, st, ns).consumed == st.incoming
    ensures Rounds(nextLoop, st, ns).delivered == Parse(st.incoming).messages
  {
    assert st.consumed + st.incoming == st.incoming;
    RoundsDrain(nextLoop, st, ns);
  }
}
