/** URLEncode and the in-place URLDecode of HTTPServer/tools.c; percent-encoding is section 2.1 of RFC 3986.

  Characters are bytes.  URLEncode is for 7-bit text: it indexes a table with a signed char, so a
  byte from 128 up is outside what it is defined for.  URLDecode takes any bytes.
 */
module UrlCodec {
  import opened Bytes

  const SPACE: byte := 32
  const PERCENT: byte := 37
  const PLUS: byte := 43

  /** hexchars. */
  function HexChar(d: int): byte
    requires 0 <= d < 16
  {
    if d < 10 then 48 + d else 87 + d
  }

  /** Letters, digits, '-', '.' and '_' go through as they are. */
  predicate Safe(c: byte) {
    c == 45 || c == 46 || 48 <= c <= 57 || 65 <= c <= 90 || c == 95 || 97 <= c <= 122
  }

  function EncodeChar(c: byte): (r: seq<byte>)
    requires c < 128
    ensures 1 <= |r| <= 3
  {
    if c == SPACE then [PLUS] else if Safe(c) then [c] else [PERCENT, HexChar(c / 16), HexChar(c % 16)]
  }

  predicate SevenBit(s: seq<byte>) {
    forall i :: 0 <= i < |s| ==> s[i] < 128
  }

  function Encode(s: seq<byte>): (r: seq<byte>)
    requires SevenBit(s)
    ensures |s| <= |r| <= 3 * |s|
  {
    if s == [] then [] else EncodeChar(s[0]) + Encode(s[1..])
  }

  predicate IsHex(c: byte) {
    48 <= c <= 57 || 65 <= c <= 70 || 97 <= c <= 102
  }

  function HexValue(c: byte): (r: int)
    requires IsHex(c)
    ensures 0 <= r < 16
  {
    if c <= 57 then c - 48 else if c <= 70 then c - 55 else c - 87
  }

  /** An escape starts the string: a percent sign and two hexadecimal digits. */
  predicate Escape(s: seq<byte>) {
    |s| >= 3 && s[0] == PERCENT && IsHex(s[1]) && IsHex(s[2])
  }

  /** The first character of the decoded text, and how many characters it takes. */
  function Value(s: seq<byte>): byte
    requires s != []
  {
    if s[0] == PLUS then SPACE else if Escape(s) then 16 * HexValue(s[1]) + HexValue(s[2]) else s[0]
  }

  function Width(s: seq<byte>): (r: nat)
    requires s != []
    ensures 1 <= r <= |s|
  {
    if Escape(s) then 3 else 1
  }

  function Decode(s: seq<byte>): (r: seq<byte>)
    ensures |r| <= |s|
  {
    if s == [] then [] else [Value(s)] + Decode(s[Width(s)..])
  }

  // ---------- the round trip ----------

  lemma DecodeOne(c: byte, t: seq<byte>)
    requires c < 128
    ensures Decode(EncodeChar(c) + t) == [c] + Decode(t)
  {
    var e := EncodeChar(c) + t;
    if c == SPACE || Safe(c) {
      assert e[1..] == t;
    } else {
      assert e[3..] == t;
      assert HexValue(HexChar(c / 16)) == c / 16 && HexValue(HexChar(c % 16)) == c % 16;
    }
  }

  /** Decoding undoes encoding, for every 7-bit string. */
  lemma {:induction false} DecodeEncode(s: seq<byte>)
    requires SevenBit(s)
    ensures Decode(Encode(s)) == s
  {
    if s != [] {
      DecodeOne(s[0], Encode(s[1..]));
      DecodeEncode(s[1..]);
    }
  }

  /** c is a hexadecimal digit of value d, in either case. */
  predicate Spells(c: byte, d: int) {
    || (0 <= d < 10 && c == '0' as int + d)
    || (10 <= d < 16 && (c == 'A' as int + d - 10 || c == 'a' as int + d - 10))
  }

  /** e is an encoding of s, of any bytes, by whatever encoder: every character stands for itself, unless it
      is a plus or a percent sign, or is escaped, in digits of either case; a plus sign may stand for a
      space. */
  predicate Encodes(e: seq<byte>, s: seq<byte>)
    decreases s
  {
    if s == [] then e == []
    else
      || (|e| >= 1 && e[0] == s[0] && s[0] != '+' as int && s[0] != '%' as int && Encodes(e[1..], s[1..]))
      || (|e| >= 1 && e[0] == '+' as int && s[0] == ' ' as int && Encodes(e[1..], s[1..]))
      || (|e| >= 3 && e[0] == '%' as int && Spells(e[1], s[0] / 16) && Spells(e[2], s[0] % 16)
          && Encodes(e[3..], s[1..]))
  }

  /** Every encoding is decoded. */
  lemma {:induction false} DecodesEveryEncoding(e: seq<byte>, s: seq<byte>)
    requires Encodes(e, s)
    ensures Decode(e) == s
    decreases s
  {
    if s != [] {
      if |e| >= 3 && e[0] == PERCENT {
        DecodesEveryEncoding(e[3..], s[1..]);
      } else {
        DecodesEveryEncoding(e[1..], s[1..]);
      }
      assert s == [s[0]] + s[1..];
    }
  }

  /** The characters that need no escape: letters, digits, and three more. */
  predicate Unreserved(c: byte) {
    || 'a' as int <= c <= 'z' as int || 'A' as int <= c <= 'Z' as int || '0' as int <= c <= '9' as int
    || c == '-' as int || c == '.' as int || c == '_' as int
  }

  /** How many characters of s are neither that nor spaces. */
  function Awkward(s: seq<byte>): (r: nat)
    ensures r <= |s|
  {
    if s == [] then 0
    else (if Unreserved(s[0]) || s[0] == ' ' as int then 0 else 1) + Awkward(s[1..])
  }

  /** What URLEncode writes is an encoding, and escapes no more than it must. */
  lemma {:induction false} EncodeIsFrugal(s: seq<byte>)
    requires SevenBit(s)
    ensures Encodes(Encode(s), s)
    ensures |Encode(s)| == |s| + 2 * Awkward(s)
  {
    if s != [] {
      EncodeIsFrugal(s[1..]);
      var e := EncodeChar(s[0]);
      assert Encode(s)[|e|..] == Encode(s[1..]);
      assert !Safe(s[0]) && s[0] != SPACE ==> Encode(s)[1] == e[1] && Encode(s)[2] == e[2];
    }
  }

  predicate LowerHex(c: byte) {
    '0' as int <= c <= '9' as int || 'a' as int <= c <= 'f' as int
  }

  /** The encoded text holds nothing but unreserved characters, plus signs for the spaces, and escapes in
      lower case. */
  lemma {:induction false} EncodedIsSafe(s: seq<byte>, i: nat)
    requires SevenBit(s) && i < |Encode(s)|
    ensures var e := Encode(s);
            && (Unreserved(e[i]) || e[i] == '+' as int || e[i] == '%' as int)
            && (e[i] == '%' as int ==> i + 2 < |e| && LowerHex(e[i + 1]) && LowerHex(e[i + 2]))
  {
    var e, t := EncodeChar(s[0]), Encode(s[1..]);
    assert Encode(s) == e + t;
    if i < |e| {
      FirstIsSafe(s[0], t, i);
    } else {
      EncodedIsSafe(s[1..], i - |e|);
      assert (e + t)[i..] == t[i - |e|..];
      assert t[i - |e|] == PERCENT ==> (e + t)[i + 1] == t[i - |e| + 1] && (e + t)[i + 2] == t[i - |e| + 2];
    }
  }

  lemma FirstIsSafe(c: byte, t: seq<byte>, i: nat)
    requires c < 128 && i < |EncodeChar(c)|
    ensures var e := EncodeChar(c) + t;
            && (Unreserved(e[i]) || e[i] == '+' as int || e[i] == '%' as int)
            && (e[i] == '%' as int ==> i + 2 < |e| && LowerHex(e[i + 1]) && LowerHex(e[i + 2]))
  {
  }

  /** Text decodes to itself exactly if it has no plus sign and no escape in it. */
  lemma {:induction false} DecodeFixes(s: seq<byte>)
    ensures Decode(s) == s <==> Plain(s)
  {
    if s != [] && !Escape(s) && s[0] != PLUS {
      DecodeFixes(s[1..]);
      assert s == [s[0]] + s[1..];
    }
  }

  predicate Plain(s: seq<byte>) {
    s == [] || (s[0] != PLUS && !Escape(s) && Plain(s[1..]))
  }

  // ---------- the code ----------

  method URLEncode(s: seq<byte>) returns (start: array<byte>, newLength: nat)
    requires SevenBit(s)
    ensures fresh(start) && start.Length == 3 * |s| + 1
    ensures newLength < start.Length && start[..newLength] == Encode(s) && start[newLength] == 0
  {
    start := new byte[3 * |s| + 1](_ => 0);
    var from, to := 0, 0;
    while from < |s|
      invariant 0 <= from <= |s| && 0 <= to <= 3 * from
      invariant EncodedTo(s, from, start[..to])
    {
      EncodedOneMore(s, from, start[..to]);
      to := PutChar(start, to, s[from]);
      from := from + 1;
    }
    start[to] := 0;
    newLength := to;
    assert start[..to] + Encode(s[from..]) == start[..to];
  }

  method PutChar(start: array<byte>, at: nat, c: byte) returns (to: nat)
    requires c < 128 && at + 3 <= start.Length
    modifies start
    ensures to == at + |EncodeChar(c)|
    ensures start[..to] == old(start[..at]) + EncodeChar(c)
  {
    to := at;
    if c == SPACE {
      start[to] := PLUS;
      to := to + 1;
    } else if (c < 48 && c != 45 && c != 46) || (c < 65 && c > 57) || (c > 90 && c < 97 && c != 95) || c > 122 {
      start[to] := PERCENT;
      start[to + 1] := HexChar(c / 16);
      start[to + 2] := HexChar(c % 16);
      to := to + 3;
    } else {
      start[to] := c;
      to := to + 1;
    }
  }

  /** out is what the encoder has written for the first `from` characters. */
  ghost predicate EncodedTo(s: seq<byte>, from: nat, out: seq<byte>)
    requires SevenBit(s) && from <= |s|
  {
    Encode(s) == out + Encode(s[from..])
  }

  lemma EncodedOneMore(s: seq<byte>, from: nat, out: seq<byte>)
    requires SevenBit(s) && from < |s| && EncodedTo(s, from, out)
    ensures EncodedTo(s, from + 1, out + EncodeChar(s[from]))
  {
    assert s[from..][1..] == s[from + 1..];
    assert out + (EncodeChar(s[from]) + Encode(s[from + 1..])) == (out + EncodeChar(s[from])) + Encode(s[from + 1..]);
  }

  /** Decodes the first len bytes in place.  What is still to be read has not been written yet. */
  method URLDecode(str: array<byte>, len: nat) returns (newLength: nat)
    requires len < str.Length
    modifies str
    ensures newLength <= len && str[..newLength] == Decode(old(str[..len])) && str[newLength] == 0
    ensures forall i :: len < i < str.Length ==> str[i] == old(str[i])
  {
    ghost var before := str[..];
    assert before[..len] == str[..len];
    var dest, data := 0, 0;
    while data < len
      invariant 0 <= dest <= data <= len
      invariant Underway(before, len, str[..], dest, data)
    {
      UnderwayMore(before, len, str[..], dest, data);
      data := DecodeNext(str, dest, data, len - data);
      dest := dest + 1;
    }
    UnderwayEnds(before, len, str[..], dest);
    str[dest] := 0;
    newLength := dest;
  }

  /** The decoder has read the first `data` characters and written what they decode to; the rest of
      the buffer is as before. */
  ghost predicate Underway(before: seq<byte>, len: nat, now: seq<byte>, dest: nat, data: nat)
    requires dest <= data <= len < |before|
  {
    && |now| == |before|
    && Decode(before[..len]) == now[..dest] + Decode(before[data..len])
    && now[data..] == before[data..]
  }

  lemma UnderwayMore(before: seq<byte>, len: nat, now: seq<byte>, dest: nat, data: nat)
    requires dest <= data < len < |before| && Underway(before, len, now, dest, data)
    ensures now[data..len] == before[data..len]
    ensures var rest := before[data..len];
            && data + Width(rest) <= len
            && Underway(before, len, now[dest := Value(rest)], dest + 1, data + Width(rest))
  {
    var rest := before[data..len];
    assert now[data..len] == now[data..][..len - data] == before[data..][..len - data] == rest;
    assert rest[Width(rest)..] == before[data + Width(rest)..len];
    var next := now[dest := Value(rest)];
    assert next[..dest + 1] == now[..dest] + [Value(rest)];
    assert next[data + Width(rest)..] == now[data..][Width(rest)..] == before[data..][Width(rest)..];
  }

  lemma UnderwayEnds(before: seq<byte>, len: nat, now: seq<byte>, dest: nat)
    requires dest <= len < |before| && Underway(before, len, now, dest, len)
    ensures Decode(before[..len]) == now[..dest]
    ensures forall i :: len < i < |before| ==> now[i] == before[i]
  {
    assert before[len..len] == [];
    assert forall i :: len < i < |before| ==> now[i] == now[len..][i - len] && before[i] == before[len..][i - len];
  }

  /** One round of the loop, with `left` characters to go. */
  method DecodeNext(str: array<byte>, dest: nat, data0: nat, left: nat) returns (data: nat)
    requires 0 < left && dest <= data0 && data0 + left < str.Length
    modifies str
    ensures data == data0 + Width(old(str[data0..data0 + left]))
    ensures str[..] == old(str[..])[dest := Value(old(str[data0..data0 + left]))]
  {
    ghost var rest := str[data0..data0 + left];
    assert rest[0] == str[data0] && (left >= 3 ==> rest[1] == str[data0 + 1] && rest[2] == str[data0 + 2]);
    data := data0;
    if str[data] == PLUS {
      str[dest] := SPACE;
    } else if str[data] == PERCENT && left - 1 >= 2 && IsHex(str[data + 1]) && IsHex(str[data + 2]) {
      str[dest] := 16 * HexValue(str[data + 1]) + HexValue(str[data + 2]);
      data := data + 2;
    } else {
      str[dest] := str[data];
    }
    data := data + 1;
  }

  /** Encoding and then decoding in place gives the string and its length back. */
  method EncodeThenDecode(s: seq<byte>) returns (str: array<byte>, n: nat)
    requires SevenBit(s)
    ensures n == |s| && n < str.Length && str[..n] == s && str[n] == 0
  {
    str, n := URLEncode(s);
    n := URLDecode(str, n);
    DecodeEncode(s);
  }
}
