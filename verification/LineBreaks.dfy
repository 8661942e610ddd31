/** ClearCRLF of HTTPServer/tools.c, which removes line breaks from a text in place.

  After it has removed a line break by shifting the rest to the left it goes on with the next
  position, and so never looks at the character that has just moved into place.
 */
module LineBreaks {
  import opened Bytes

  predicate IsBreak(c: byte) {
    c == 10 || c == 13
  }

  /** What the code computes: a line break goes, and the character behind it stays whatever it is. */
  function Clear(s: seq<byte>): (r: seq<byte>)
    ensures |r| <= |s|
  {
    if s == [] then []
    else if !IsBreak(s[0]) then [s[0]] + Clear(s[1..])
    else if |s| == 1 then []
    else [s[1]] + Clear(s[2..])
  }

  /** What it is for: every line break goes. */
  function Without(s: seq<byte>): (r: seq<byte>)
    ensures forall c :: c in r ==> !IsBreak(c)
  {
    if s == [] then [] else if IsBreak(s[0]) then Without(s[1..]) else [s[0]] + Without(s[1..])
  }

  predicate Adjacent(s: seq<byte>) {
    |s| >= 2 && ((IsBreak(s[0]) && IsBreak(s[1])) || Adjacent(s[1..]))
  }

  lemma AdjacentMeans(s: seq<byte>)
    ensures Adjacent(s) <==> exists i :: 0 <= i < |s| - 1 && IsBreak(s[i]) && IsBreak(s[i + 1])
  {
    if |s| >= 2 {
      AdjacentMeans(s[1..]);
      if i :| 0 <= i < |s| - 1 && IsBreak(s[i]) && IsBreak(s[i + 1]) {
        if i > 0 {
          assert s[1..][i - 1] == s[i] && s[1..][i - 1 + 1] == s[i + 1];
        }
      }
      if Adjacent(s[1..]) {
        var i :| 0 <= i < |s[1..]| - 1 && IsBreak(s[1..][i]) && IsBreak(s[1..][i + 1]);
        assert s[1..][i] == s[i + 1] && s[1..][i + 1] == s[i + 1 + 1];
      }
    }
  }

  /** The other characters are all kept, in their order, whatever the text. */
  lemma {:induction false} OthersAreKept(s: seq<byte>)
    ensures Without(Clear(s)) == Without(s)
  {
    if s != [] {
      if !IsBreak(s[0]) {
        OthersAreKept(s[1..]);
        assert Clear(s)[1..] == Clear(s[1..]);
      } else if |s| >= 2 {
        OthersAreKept(s[2..]);
        assert s[1..][1..] == s[2..] && Clear(s)[1..] == Clear(s[2..]);
      }
    }
  }

  /** All line breaks are removed exactly if no two of them are adjacent. */
  lemma ClearsExactlyWithoutAdjacent(s: seq<byte>)
    ensures Clear(s) == Without(s) <==> !exists i :: 0 <= i < |s| - 1 && IsBreak(s[i]) && IsBreak(s[i + 1])
  {
    ClearsUnlessAdjacent(s);
    AdjacentMeans(s);
  }

  lemma {:induction false} ClearsUnlessAdjacent(s: seq<byte>)
    ensures Clear(s) == Without(s) <==> !Adjacent(s)
  {
    if s != [] {
      if !IsBreak(s[0]) {
        ClearsUnlessAdjacent(s[1..]);
        assert Clear(s)[1..] == Clear(s[1..]) && Without(s)[1..] == Without(s[1..]);
      } else if |s| >= 2 {
        assert s[1..][1..] == s[2..];
        if IsBreak(s[1]) {
          assert s[1] in Clear(s);
        } else {
          ClearsUnlessAdjacent(s[2..]);
          assert Clear(s)[1..] == Clear(s[2..]) && Without(s)[1..] == Without(s[2..]);
        }
      }
    }
  }

  /** Every second element, from the second on. */
  function EverySecond(s: seq<byte>): (r: seq<byte>)
    ensures |r| == |s| / 2 && forall k :: 0 <= k < |r| ==> r[k] == s[2 * k + 1]
  {
    if |s| < 2 then [] else [s[1]] + EverySecond(s[2..])
  }

  /** Of a run of line breaks exactly every second one stays; text without any stays as it is. */
  lemma {:induction false} RunsAreHalved(run: seq<byte>, rest: seq<byte>)
    requires forall i :: 0 <= i < |run| ==> run[i] == '\n' as int || run[i] == '\r' as int
    requires rest != [] ==> rest[0] != '\n' as int && rest[0] != '\r' as int
    ensures Clear(run + rest) == EverySecond(run) + Clear(rest)
    decreases run
  {
    if |run| >= 2 {
      RunsAreHalved(run[2..], rest);
      ClearPair(run + rest, run[2..] + rest);
      assert EverySecond(run) == [run[1]] + EverySecond(run[2..]);
      assert EverySecond(run) + Clear(rest) == [run[1]] + (EverySecond(run[2..]) + Clear(rest));
    } else if |run| == 1 {
      SingleBreak(run[0], rest);
      assert run == [run[0]];
    } else {
      assert run + rest == rest;
    }
  }

  lemma ClearPair(s: seq<byte>, t: seq<byte>)
    requires |s| >= 2 && IsBreak(s[0]) && s[2..] == t
    ensures Clear(s) == [s[1]] + Clear(t)
  {
  }

  lemma SingleBreak(c: byte, rest: seq<byte>)
    requires IsBreak(c) && (rest != [] ==> !IsBreak(rest[0]))
    ensures Clear([c] + rest) == Clear(rest)
  {
    if rest != [] {
      ClearPair([c] + rest, rest[1..]);
    }
  }

  lemma {:induction false} OthersStay(text: seq<byte>, rest: seq<byte>)
    requires forall i :: 0 <= i < |text| ==> text[i] != '\n' as int && text[i] != '\r' as int
    ensures Clear(text + rest) == text + Clear(rest)
    decreases text
  {
    if text == [] {
      assert text + rest == rest;
    } else {
      assert (text + rest)[1..] == text[1..] + rest;
      OthersStay(text[1..], rest);
    }
  }

  // ---------- the code ----------

  /** The text is the bytes before the first zero. */
  ghost predicate IsText(buf: seq<byte>, n: nat) {
    n < |buf| && buf[n] == 0 && forall i :: 0 <= i < n ==> buf[i] != 0
  }

  method ClearCRLF(pStrText: array<byte>, nLength: nat)
    requires IsText(pStrText[..], nLength)
    modifies pStrText
    ensures var r := Clear(old(pStrText[..nLength]));
            pStrText[..|r|] == r && IsText(pStrText[..], |r|)
  {
    ghost var s := pStrText[..nLength];
    assert s == pStrText[..][..0] + pStrText[..][0..nLength];
    var i, n := 0, 0;
    while i <= nLength - n
      invariant 0 <= i <= nLength - n + 1 && 0 <= n <= nLength
      invariant Underway(s, pStrText[..], i, nLength - n)
    {
      n := ClearOne(pStrText, nLength, i, n, s);
      i := i + 1;
    }
    UnderwayEnds(s, pStrText[..], nLength - n);
  }

  /** One round of the outer loop. */
  method ClearOne(pStrText: array<byte>, nLength: nat, i: nat, n0: nat, ghost s: seq<byte>) returns (n: nat)
    requires n0 <= nLength && i <= nLength - n0 && Underway(s, pStrText[..], i, nLength - n0)
    modifies pStrText
    ensures n0 <= n <= nLength && Underway(s, pStrText[..], i + 1, nLength - n)
  {
    n := n0;
    ghost var now := pStrText[..];
    if pStrText[i] == 10 || pStrText[i] == 13 {
      UnderwayBreak(s, now, i, nLength - n);
      ShiftLeft(pStrText, i, nLength - 1 - n);
      n := n + 1;
      return;
    }
    UnderwayOther(s, now, i, nLength - n);
  }

  /** The inner loop. */
  method ShiftLeft(buf: array<byte>, i: nat, last: int)
    requires i <= last && last + 1 < buf.Length
    modifies buf
    ensures buf[..] == Shifted(old(buf[..]), i, last)
  {
    ghost var b := buf[..];
    var j := i;
    while j <= last
      invariant i <= j <= last + 1
      invariant forall k :: i <= k < j ==> buf[k] == b[k + 1]
      invariant forall k :: 0 <= k < i || j <= k < buf.Length ==> buf[k] == b[k]
    {
      buf[j] := buf[j + 1];
      j := j + 1;
    }
  }

  function Shifted(b: seq<byte>, i: nat, last: int): (r: seq<byte>)
    requires i <= last && last + 1 < |b|
    ensures |r| == |b| && forall k :: 0 <= k < |b| ==> r[k] == if i <= k <= last then b[k + 1] else b[k]
  {
    b[..i] + b[i + 1..last + 2] + b[last + 1..]
  }

  /** The first i positions are done; the text now ends at `end`. */
  ghost predicate Underway(s: seq<byte>, now: seq<byte>, i: nat, end: nat) {
    && i <= end + 1
    && IsText(now, end)
    && var done := if i <= end then i else end;
       Clear(s) == now[..done] + Clear(now[done..end])
  }

  lemma UnderwayEnds(s: seq<byte>, now: seq<byte>, end: nat)
    requires Underway(s, now, end + 1, end)
    ensures now[..end] == Clear(s) && end == |Clear(s)|
  {
    assert now[end..end] == [];
  }

  lemma UnderwayOther(s: seq<byte>, now: seq<byte>, i: nat, end: nat)
    requires i <= end && Underway(s, now, i, end) && !IsBreak(now[i])
    ensures Underway(s, now, i + 1, end)
  {
    if i < end {
      assert now[i..end][1..] == now[i + 1..end];
      assert now[..i] + [now[i]] == now[..i + 1];
    }
  }

  /** What of the text is where after the shift: the rest without its first character. */
  lemma ShiftedSlices(b: seq<byte>, i: nat, last: nat)
    requires i <= last && last + 1 < |b|
    ensures var next := Shifted(b, i, last);
            && next[..i] == b[..i]
            && next[i..last] == b[i + 1..last + 1]
            && next[last] == b[last + 1]
  {
    var next := Shifted(b, i, last);
    forall k | 0 <= k < last - i ensures next[i..last][k] == b[i + 1..last + 1][k] {
      assert next[i + k] == b[i + k + 1];
    }
  }

  lemma ShiftedText(now: seq<byte>, i: nat, end: nat)
    requires i < end && IsText(now, end)
    ensures IsText(Shifted(now, i, end - 1), end - 1)
  {
  }

  lemma UnderwayBreak(s: seq<byte>, now: seq<byte>, i: nat, end: nat)
    requires i <= end && Underway(s, now, i, end) && IsBreak(now[i])
    ensures i < end && Underway(s, Shifted(now, i, end - 1), i + 1, end - 1)
  {
    assert i < end;
    ShiftedText(now, i, end);
    ShiftedSlices(now, i, end - 1);
    var next := Shifted(now, i, end - 1);
    var rest, tail := now[i..end], next[i..end - 1];
    assert tail == rest[1..];
    if |rest| >= 2 {
      ClearBreak(now[..i], rest, tail);
      assert next[..i + 1] == now[..i] + [tail[0]] && next[i + 1..end - 1] == tail[1..];
    } else {
      assert Clear(rest) == [] && next[i..i] == [];
    }
  }

  /** A line break goes and the character behind it stays. */
  lemma ClearBreak(done: seq<byte>, rest: seq<byte>, tail: seq<byte>)
    requires |rest| >= 2 && IsBreak(rest[0]) && tail == rest[1..]
    ensures done + Clear(rest) == (done + [tail[0]]) + Clear(tail[1..])
  {
    assert rest[2..] == tail[1..];
  }
}
