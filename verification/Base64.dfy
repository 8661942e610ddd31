/** The Base64 decoder and the hexadecimal text of HTTPServer/encryption.c, against the encoding of
  section 4 of RFC 4648.

  Characters and octets are bytes.  The decoder looks every character up without checking it: one
  outside the alphabet has index -1, of which the masks keep all bits.
 */
module Base64 {
  import opened Bytes

  const PAD: byte := 61   // '='

  /** base64Alphabet: the 64 digits and the padding character. */
  function Alphabet(k: int): byte
    requires 0 <= k <= 64
  {
    if k < 26 then 65 + k else if k < 52 then 71 + k else if k < 62 then k - 4
    else if k == 62 then 43 else if k == 63 then 47 else PAD
  }

  /** The first place of c in the alphabet at or after k, or -1. */
  function IndexFrom(c: byte, k: int): (r: int)
    requires 0 <= k <= 65
    ensures -1 <= r <= 64 && (r >= 0 ==> Alphabet(r) == c)
    decreases 65 - k, c
  {
    if k == 65 then -1 else if c == Alphabet(k) then k else IndexFrom(c, k + 1)
  }

  function Index(c: byte): int {
    IndexFrom(c, 0)
  }

  lemma {:induction false} IndexInverts(k: int, j: int)
    requires 0 <= j <= k <= 64
    ensures IndexFrom(Alphabet(k), j) == k
    decreases k - j
  {
    if j < k {
      AlphabetIsInjective(j, k);
      IndexInverts(k, j + 1);
    }
  }

  lemma AlphabetIsInjective(j: int, k: int)
    requires 0 <= j < k <= 64
    ensures Alphabet(j) != Alphabet(k)
  {
  }

  lemma PadIndex(c: byte)
    ensures Index(c) == 64 <==> c == PAD
  {
    IndexInverts(64, 0);
  }

  /** The first place of c in the alphabet, or -1 exactly if it is nowhere in it. */
  method IndexInAlphabet(c: byte) returns (r: int)
    ensures r == Index(c) && -1 <= r <= 64
    ensures r == -1 <==> forall k :: 0 <= k <= 64 ==> Alphabet(k) != c
    ensures r >= 0 ==> Alphabet(r) == c && forall k :: 0 <= k < r ==> Alphabet(k) != c
  {
    var i := 0;
    while i < 65
      invariant 0 <= i <= 65 && Index(c) == IndexFrom(c, i)
      invariant forall k :: 0 <= k < i ==> Alphabet(k) != c
    {
      if c == Alphabet(i) {
        return i;
      }
      i := i + 1;
    }
    return -1;
  }

  // ---------- the encoding of RFC 4648 ----------

  function Encode(bs: seq<byte>): (r: seq<byte>)
  {
    if bs == [] then []
    else if |bs| == 1 then [Alphabet(bs[0] / 4), Alphabet(bs[0] % 4 * 16), PAD, PAD]
    else if |bs| == 2 then
      [Alphabet(bs[0] / 4), Alphabet(bs[0] % 4 * 16 + bs[1] / 16), Alphabet(bs[1] % 16 * 4), PAD]
    else Quad(bs[0], bs[1], bs[2]) + Encode(bs[3..])
  }

  function Quad(a: byte, b: byte, c: byte): (r: seq<byte>)
    ensures |r| == 4
  {
    [Alphabet(a / 4), Alphabet(a % 4 * 16 + b / 16), Alphabet(b % 16 * 4 + c / 64), Alphabet(c % 64)]
  }

  const UPPER := "ABCDEFGHIJKLMNOPQRSTUVWXYZ"
  const LOWER := "abcdefghijklmnopqrstuvwxyz"
  const DIGITS := "0123456789+/="

  /** The table of RFC 4648, and its padding character. */
  lemma AlphabetIsStandard(k: int)
    requires 0 <= k <= 64
    ensures |UPPER + LOWER + DIGITS| == 65 && Alphabet(k) == (UPPER + LOWER + DIGITS)[k] as int
  {
    if k < 26 {
      assert Alphabet(k) == UPPER[k] as int;
    } else if k < 52 {
      assert Alphabet(k) == LOWER[k - 26] as int;
    } else {
      assert Alphabet(k) == DIGITS[k - 52] as int;
    }
  }

  /** Four digits to the base 64 are the number that the three octets are to the base 256. */
  lemma QuadIsTheNumber(a: byte, b: byte, c: byte) returns (d: seq<int>)
    ensures |d| == 4 && forall k :: 0 <= k < 4 ==> 0 <= d[k] < 64 && Quad(a, b, c)[k] == Alphabet(d[k])
    ensures 262144 * d[0] + 4096 * d[1] + 64 * d[2] + d[3] == 65536 * a + 256 * b + c
  {
    d := [a / 4, a % 4 * 16 + b / 16, b % 16 * 4 + c / 64, c % 64];
  }

  // ---------- what the decoder computes ----------

  /** Three octets of the indices of four characters.  x % 64 is x & 0x3F, for -1 too. */
  function Octet0(b0: int, b1: int): byte {
    b0 % 64 * 4 + b1 % 64 / 16
  }

  function Octet1(b1: int, b2: int): byte {
    b1 % 16 * 16 + b2 % 64 / 4
  }

  function Octet2(b2: int, b3: int): byte {
    b2 % 4 * 64 + b3 % 64
  }

  /** The octets of a group before the last, and of the last, where padding stops the decoder. */
  function Triple(g: seq<byte>): (r: seq<byte>)
    requires |g| >= 4
    ensures |r| == 3
  {
    [Octet0(Index(g[0]), Index(g[1])), Octet1(Index(g[1]), Index(g[2])), Octet2(Index(g[2]), Index(g[3]))]
  }

  function Padding(g: seq<byte>): int
    requires |g| >= 4
  {
    (if g[0] == PAD then 1 else 0) + (if g[1] == PAD then 1 else 0)
    + (if g[2] == PAD then 1 else 0) + (if g[3] == PAD then 1 else 0)
  }

  function Last(g: seq<byte>): (r: seq<byte>)
    requires |g| >= 4
    ensures |r| == 3
  {
    var t := Triple(g);
    if Padding(g) == 2 then [t[0], 0, 0] else if Padding(g) == 1 then [t[0], t[1], 0] else t
  }

  /** The contents of the result, without the zero at the end. */
  function Decode(s: seq<byte>): (r: seq<byte>)
    ensures |r| == |s| / 4 * 3
  {
    if |s| < 4 then [] else Group(s) + Decode(s[4..])
  }

  /** The octets of the first group of s, which is the last if no other follows. */
  function Group(s: seq<byte>): (r: seq<byte>)
    requires |s| >= 4
    ensures |r| == 3
  {
    if |s| < 8 then Last(s) else Triple(s)
  }

  /** The reported length. */
  function Length(s: seq<byte>): int
    requires 2 <= |s|
  {
    if s[|s| - 2] == PAD then |s| / 4 * 3 - 2 else if s[|s| - 1] == PAD then |s| / 4 * 3 - 1 else |s| / 4 * 3
  }

  // ---------- the round trip ----------

  lemma {:induction false} EncodedShape(bs: seq<byte>)
    requires bs != []
    ensures |Encode(bs)| >= 4 && |Encode(bs)| % 4 == 0
    ensures Length(Encode(bs)) == |bs|
    decreases |bs|
  {
    var e := Encode(bs);
    if |bs| == 3 {
      assert Encode(bs[3..]) == [];
      assert e == Quad(bs[0], bs[1], bs[2]);
      DigitsAreNotPadding(bs[0], bs[1], bs[2]);
    } else if |bs| > 3 {
      var t := Encode(bs[3..]);
      EncodedShape(bs[3..]);
      assert e == Quad(bs[0], bs[1], bs[2]) + t;
      assert e[|e| - 1] == t[|t| - 1] && e[|e| - 2] == t[|t| - 2];
    } else if |bs| == 2 {
      assert Alphabet(bs[1] % 16 * 4) != PAD;
    }
  }

  lemma DigitsAreNotPadding(a: byte, b: byte, c: byte)
    ensures forall k :: 0 <= k < 4 ==> Quad(a, b, c)[k] != PAD
  {
  }

  lemma OctetsInvert(a: byte, b: byte, c: byte)
    ensures Octet0(a / 4, a % 4 * 16 + b / 16) == a
    ensures Octet1(a % 4 * 16 + b / 16, b % 16 * 4 + c / 64) == b
    ensures Octet2(b % 16 * 4 + c / 64, c % 64) == c
  {
    Invert0(a / 4, a % 4, b / 16);
    Invert1(a % 4, b / 16, b % 16, c / 64);
    Invert2(b % 16, c / 64, c % 64);
  }

  lemma Invert0(x: int, y: int, z: int)
    requires 0 <= x < 64 && 0 <= y < 4 && 0 <= z < 16
    ensures Octet0(x, y * 16 + z) == 4 * x + y
  {
  }

  lemma Invert1(w: int, x: int, y: int, z: int)
    requires 0 <= w < 4 && 0 <= x < 16 && 0 <= y < 16 && 0 <= z < 4
    ensures Octet1(w * 16 + x, y * 4 + z) == 16 * x + y
  {
  }

  lemma Invert2(x: int, y: int, z: int)
    requires 0 <= x < 16 && 0 <= y < 4 && 0 <= z < 64
    ensures Octet2(x * 4 + y, z) == 64 * y + z
  {
  }

  lemma TripleOfQuad(a: byte, b: byte, c: byte, t: seq<byte>)
    ensures Triple(Quad(a, b, c) + t) == [a, b, c]
  {
    IndexInverts(a / 4, 0);
    IndexInverts(a % 4 * 16 + b / 16, 0);
    IndexInverts(b % 16 * 4 + c / 64, 0);
    IndexInverts(c % 64, 0);
    OctetsInvert(a, b, c);
    var g := Quad(a, b, c) + t;
    assert forall k :: 0 <= k < 4 ==> g[k] == Quad(a, b, c)[k];
  }

  lemma OneOctet(a: byte)
    ensures Last([Alphabet(a / 4), Alphabet(a % 4 * 16), PAD, PAD]) == [a, 0, 0]
  {
    Invert0(a / 4, a % 4, 0);
    LastOfOne(a / 4, a % 4 * 16);
  }

  lemma LastOfOne(q: int, p: int)
    requires 0 <= q < 64 && 0 <= p < 64
    ensures Last([Alphabet(q), Alphabet(p), PAD, PAD]) == [Octet0(q, p), 0, 0]
  {
    IndexInverts(q, 0);
    IndexInverts(p, 0);
    DigitIsNotPadding(q);
    DigitIsNotPadding(p);
  }

  lemma TwoOctets(a: byte, b: byte)
    ensures Last([Alphabet(a / 4), Alphabet(a % 4 * 16 + b / 16), Alphabet(b % 16 * 4), PAD]) == [a, b, 0]
  {
    Invert0(a / 4, a % 4, b / 16);
    Invert1(a % 4, b / 16, b % 16, 0);
    LastOfTwo(a / 4, a % 4 * 16 + b / 16, b % 16 * 4);
  }

  lemma LastOfTwo(q: int, p: int, r: int)
    requires 0 <= q < 64 && 0 <= p < 64 && 0 <= r < 64
    ensures Last([Alphabet(q), Alphabet(p), Alphabet(r), PAD]) == [Octet0(q, p), Octet1(p, r), 0]
  {
    IndexInverts(q, 0);
    IndexInverts(p, 0);
    IndexInverts(r, 0);
    DigitIsNotPadding(q);
    DigitIsNotPadding(p);
    DigitIsNotPadding(r);
  }

  lemma DigitIsNotPadding(k: int)
    requires 0 <= k < 64
    ensures Alphabet(k) != PAD
  {
  }

  /** The decoder undoes the encoding of every non-empty string of octets, whatever its padding. */
  lemma {:induction false} DecodeEncode(bs: seq<byte>)
    requires bs != []
    ensures var e := Encode(bs);
            2 <= |e| && 0 <= Length(e) <= |Decode(e)| && Decode(e)[..Length(e)] == bs
    decreases |bs|
  {
    EncodedShape(bs);
    if |bs| == 1 {
      OneOctet(bs[0]);
      assert bs == [bs[0]];
    } else if |bs| == 2 {
      TwoOctets(bs[0], bs[1]);
      assert bs == [bs[0], bs[1]];
    } else {
      DecodeFirstGroup(bs, Encode(bs), Encode(bs[3..]));
      if |bs| > 3 {
        EncodedShape(bs[3..]);
        DecodeEncode(bs[3..]);
      }
    }
  }

  lemma GroupOfQuad(a: byte, b: byte, c: byte, t: seq<byte>)
    requires t == [] || |t| >= 4
    ensures Group(Quad(a, b, c) + t) == [a, b, c]
  {
    TripleOfQuad(a, b, c, t);
    if t == [] {
      DigitsAreNotPadding(a, b, c);
      var g := Quad(a, b, c) + t;
      assert forall k :: 0 <= k < 4 ==> g[k] == Quad(a, b, c)[k];
      assert Padding(g) == 0;
    }
  }

  lemma DecodeFirstGroup(bs: seq<byte>, e: seq<byte>, t: seq<byte>)
    requires |bs| >= 3 && e == Encode(bs) && t == Encode(bs[3..])
    ensures Decode(e) == bs[..3] + Decode(t)
  {
    var q := Quad(bs[0], bs[1], bs[2]);
    if |bs| > 3 {
      EncodedShape(bs[3..]);
    }
    GroupOfQuad(bs[0], bs[1], bs[2], t);
    assert e == q + t;
    DecodeSplits(q, t, bs[..3]);
  }

  lemma DecodeSplits(q: seq<byte>, t: seq<byte>, octets: seq<byte>)
    requires |q| == 4 && Group(q + t) == octets
    ensures Decode(q + t) == octets + Decode(t)
  {
    assert (q + t)[4..] == t;
  }

  // ---------- hexadecimal ----------

  function HexDigit(d: int): byte
    requires 0 <= d < 16
  {
    if d < 10 then 48 + d else 55 + d
  }

  /** Two upper-case digits an octet. */
  function Hex(bs: seq<byte>): (r: seq<byte>)
    ensures |r| == 2 * |bs|
  {
    if bs == [] then []
    else Hex(bs[..|bs| - 1]) + [HexDigit(bs[|bs| - 1] / 16), HexDigit(bs[|bs| - 1] % 16)]
  }

  /** The number an octet string stands for, big end first. */
  function Number(bs: seq<byte>): (r: nat) {
    if bs == [] then 0 else 256 * Number(bs[..|bs| - 1]) + bs[|bs| - 1]
  }

  function DigitValue(c: byte): int {
    if 48 <= c <= 57 then c - 48 else if 65 <= c <= 70 then c - 55 else -1
  }

  /** The number a hexadecimal text stands for. */
  function HexNumber(t: seq<byte>): int {
    if t == [] then 0 else 16 * HexNumber(t[..|t| - 1]) + DigitValue(t[|t| - 1])
  }

  lemma {:induction false} HexIsTheNumber(bs: seq<byte>)
    ensures HexNumber(Hex(bs)) == Number(bs)
    ensures forall i :: 0 <= i < |Hex(bs)| ==> 0 <= DigitValue(Hex(bs)[i]) < 16
  {
    if bs != [] {
      var n := |bs| - 1;
      HexIsTheNumber(bs[..n]);
      var h, t := Hex(bs[..n]), Hex(bs);
      assert t[..|t| - 1][..|t| - 2] == h;
    }
  }

  // ---------- the code ----------

  method Base64Decode(source: seq<byte>) returns (result: array<byte>, nLeng: int)
    requires 2 <= |source|
    ensures nLeng == Length(source)
    ensures fresh(result) && result.Length == |source| / 4 * 3 + 1
    ensures result[..] == Decode(source) + [0]
  {
    var resultLength := |source| / 4 * 3;
    if source[|source| - 2] == PAD {
      nLeng := resultLength - 2;
    } else if source[|source| - 1] == PAD {
      nLeng := resultLength - 1;
    } else {
      nLeng := resultLength;
    }
    result := new byte[resultLength + 1](_ => 0);
    var counts := |source| / 4;
    var i := 0;
    while i < counts
      invariant 0 <= i <= counts
      invariant Underway(source, result[..], i)
    {
      UnderwayMore(source, result[..], i);
      DecodeGroup(source, i, result);
      i := i + 1;
    }
    UnderwayEnds(source, result[..], counts);
  }

  /** One round: a group of four characters.  In the last group padding ends the loop early. */
  method DecodeGroup(source: seq<byte>, i: nat, result: array<byte>)
    requires i < |source| / 4 && result.Length == |source| / 4 * 3 + 1
    requires forall k :: 3 * i <= k < result.Length ==> result[k] == 0
    modifies result
    ensures result[..] == old(result[..])[..3 * i] + Group(source[4 * i..]) + old(result[..])[3 * i + 3..]
  {
    var b0, b1, b2, b3 := LookUp(source, 4 * i);
    var padding := 0;
    if i == |source| / 4 - 1 {
      padding := (if b0 == 64 then 1 else 0) + (if b1 == 64 then 1 else 0)
                 + (if b2 == 64 then 1 else 0) + (if b3 == 64 then 1 else 0);
    }
    PaddedGroup(source[4 * i..], b0, b1, b2, b3, padding);
    StoreGroup(result, 3 * i, padding, Octet0(b0, b1), Octet1(b1, b2), Octet2(b2, b3));
  }

  method LookUp(source: seq<byte>, at: nat) returns (b0: int, b1: int, b2: int, b3: int)
    requires at + 4 <= |source|
    ensures var g := source[at..]; b0 == Index(g[0]) && b1 == Index(g[1]) && b2 == Index(g[2]) && b3 == Index(g[3])
  {
    b0 := IndexInAlphabet(source[at]);
    b1 := IndexInAlphabet(source[at + 1]);
    b2 := IndexInAlphabet(source[at + 2]);
    b3 := IndexInAlphabet(source[at + 3]);
  }

  function Padded(padding: int, o0: byte, o1: byte, o2: byte): (r: seq<byte>)
    ensures |r| == 3
  {
    if padding == 2 then [o0, 0, 0] else if padding == 1 then [o0, o1, 0] else [o0, o1, o2]
  }

  lemma PaddedGroup(g: seq<byte>, b0: int, b1: int, b2: int, b3: int, padding: int)
    requires |g| >= 4
    requires b0 == Index(g[0]) && b1 == Index(g[1]) && b2 == Index(g[2]) && b3 == Index(g[3])
    requires padding == if |g| >= 8 then 0 else
                          (if b0 == 64 then 1 else 0) + (if b1 == 64 then 1 else 0)
                          + (if b2 == 64 then 1 else 0) + (if b3 == 64 then 1 else 0)
    ensures Group(g) == Padded(padding, Octet0(b0, b1), Octet1(b1, b2), Octet2(b2, b3))
  {
    PadIndex(g[0]);
    PadIndex(g[1]);
    PadIndex(g[2]);
    PadIndex(g[3]);
  }

  /** The octets up to the padding; the others stay zero. */
  method StoreGroup(result: array<byte>, at: nat, padding: int, o0: byte, o1: byte, o2: byte)
    requires at + 3 <= result.Length && result[at] == result[at + 1] == result[at + 2] == 0
    modifies result
    ensures result[..] == old(result[..])[..at] + Padded(padding, o0, o1, o2) + old(result[..])[at + 3..]
  {
    result[at] := o0;
    if padding == 2 {
      return;
    }
    result[at + 1] := o1;
    if padding == 1 {
      return;
    }
    result[at + 2] := o2;
  }

  /** The first i groups are decoded and the rest is still zero. */
  ghost predicate Underway(s: seq<byte>, now: seq<byte>, i: nat) {
    && i <= |s| / 4 && |now| == |s| / 4 * 3 + 1
    && Decode(s) == now[..3 * i] + Decode(s[4 * i..])
    && forall k :: 3 * i <= k < |now| ==> now[k] == 0
  }

  lemma UnderwayMore(s: seq<byte>, now: seq<byte>, i: nat)
    requires i < |s| / 4 && Underway(s, now, i)
    ensures Underway(s, now[..3 * i] + Group(s[4 * i..]) + now[3 * i + 3..], i + 1)
  {
    var g := s[4 * i..];
    var next := now[..3 * i] + Group(g) + now[3 * i + 3..];
    assert next[..3 * (i + 1)] == now[..3 * i] + Group(g);
    if |g| >= 8 {
      assert g[4..] == s[4 * (i + 1)..];
    } else {
      assert Decode(s[4 * (i + 1)..]) == [];
    }
  }

  lemma UnderwayEnds(s: seq<byte>, now: seq<byte>, i: nat)
    requires Underway(s, now, i) && i == |s| / 4
    ensures now == Decode(s) + [0]
  {
    assert Decode(s[4 * i..]) == [];
  }

  /** The octets that Baser64ToHex writes out; none for a text so short that its length is negative. */
  function Octets(s: seq<byte>): (r: seq<byte>)
    requires 2 <= |s|
    ensures |r| == if Length(s) < 0 then 0 else Length(s)
  {
    if Length(s) < 0 then [] else Decode(s)[..Length(s)]
  }

  /** Appends the hexadecimal text of the decoded octets to the text in pHexText, which is nText long. */
  method Baser64ToHex(pHexText: array<byte>, nText: nat, pBase64: seq<byte>)
    requires 2 <= |pBase64| && nText + 2 * |Octets(pBase64)| < pHexText.Length
    requires pHexText[nText] == 0
    modifies pHexText
    ensures pHexText[..nText + 2 * |Octets(pBase64)|] == old(pHexText[..nText]) + Hex(Octets(pBase64))
    ensures pHexText[nText + 2 * |Octets(pBase64)|] == 0
  {
    var pResult, nLeng := Base64Decode(pBase64);
    OctetsTaken(pBase64, pResult[..], nLeng);
    var octets := TakeLength(pResult[..], nLeng);
    AppendHex(pHexText, nText, octets);
  }

  function TakeLength(result: seq<byte>, n: int): seq<byte>
    requires n <= |result|
  {
    if n < 0 then [] else result[..n]
  }

  lemma OctetsTaken(s: seq<byte>, result: seq<byte>, n: int)
    requires 2 <= |s| && result == Decode(s) + [0] && n == Length(s)
    ensures n <= |result| && TakeLength(result, n) == Octets(s)
  {
  }

  /** The loop: one octet after the other. */
  method AppendHex(pHexText: array<byte>, nText: nat, bs: seq<byte>)
    requires nText + 2 * |bs| < pHexText.Length && pHexText[nText] == 0
    modifies pHexText
    ensures pHexText[..nText + 2 * |bs|] == old(pHexText[..nText]) + Hex(bs)
    ensures pHexText[nText + 2 * |bs|] == 0
  {
    ghost var before := pHexText[..nText];
    var i := 0;
    while i < |bs|
      invariant 0 <= i <= |bs|
      invariant pHexText[..nText + 2 * i] == before + Hex(bs[..i])
      invariant pHexText[nText + 2 * i] == 0
    {
      HexMore(bs, i);
      Strcat(pHexText, nText + 2 * i, HexDigit(bs[i] / 16), HexDigit(bs[i] % 16));
      i := i + 1;
    }
    assert bs[..i] == bs;
  }

  lemma HexMore(bs: seq<byte>, i: nat)
    requires i < |bs|
    ensures Hex(bs[..i + 1]) == Hex(bs[..i]) + [HexDigit(bs[i] / 16), HexDigit(bs[i] % 16)]
  {
    assert bs[..i + 1][..i] == bs[..i];
  }

  /** Two more characters and the zero behind them. */
  method Strcat(text: array<byte>, at: nat, a: byte, b: byte)
    requires at + 2 < text.Length
    modifies text
    ensures text[..at + 2] == old(text[..at]) + [a, b] && text[at + 2] == 0
  {
    text[at] := a;
    text[at + 1] := b;
    text[at + 2] := 0;
  }
}
