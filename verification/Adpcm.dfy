/** The ADPCM codec of Audio/adpcm_zl.c: the tables, the step that encoder and decoder share, the
  quantiser's error, and the proof that the two stay in lock-step through the packed nibbles.

  Everything that is proved uses only the facts about the step table that Table.Good lists, so it is
  stated for any such table; ImaTableIsGood shows that the source's table is one.
 */
module Adpcm {
  import opened Bytes
  import Modular

  const MAX_INDEX := 88

  /** index_adjust. */
  function Adjust(code: int): int
    requires 0 <= code < 8
  {
    if code < 4 then -1 else 2 * (code - 3)
  }

  /** step_table. */
  function StepAt(index: int): int
    requires 0 <= index <= MAX_INDEX
  {
    match index
    case 0 => 7 case 1 => 8 case 2 => 9 case 3 => 10
    case 4 => 11 case 5 => 12 case 6 => 13 case 7 => 14
    case 8 => 16 case 9 => 17 case 10 => 19 case 11 => 21
    case 12 => 23 case 13 => 25 case 14 => 28 case 15 => 31
    case 16 => 34 case 17 => 37 case 18 => 41 case 19 => 45
    case 20 => 50 case 21 => 55 case 22 => 60 case 23 => 66
    case 24 => 73 case 25 => 80 case 26 => 88 case 27 => 97
    case 28 => 107 case 29 => 118 case 30 => 130 case 31 => 143
    case 32 => 157 case 33 => 173 case 34 => 190 case 35 => 209
    case 36 => 230 case 37 => 253 case 38 => 279 case 39 => 307
    case 40 => 337 case 41 => 371 case 42 => 408 case 43 => 449
    case 44 => 494 case 45 => 544 case 46 => 598 case 47 => 658
    case 48 => 724 case 49 => 796 case 50 => 876 case 51 => 963
    case 52 => 1060 case 53 => 1166 case 54 => 1282 case 55 => 1411
    case 56 => 1552 case 57 => 1707 case 58 => 1878 case 59 => 2066
    case 60 => 2272 case 61 => 2499 case 62 => 2749 case 63 => 3024
    case 64 => 3327 case 65 => 3660 case 66 => 4026 case 67 => 4428
    case 68 => 4871 case 69 => 5358 case 70 => 5894 case 71 => 6484
    case 72 => 7132 case 73 => 7845 case 74 => 8630 case 75 => 9493
    case 76 => 10442 case 77 => 11487 case 78 => 12635 case 79 => 13899
    case 80 => 15289 case 81 => 16818 case 82 => 18500 case 83 => 20350
    case 84 => 22385 case 85 => 24623 case 86 => 27086 case 87 => 29794
    case _ => 32767
  }

  lemma StepBounds(index: int)
    requires 0 <= index <= MAX_INDEX
    ensures 7 <= StepAt(index) <= 32767
  {
  }

  lemma LowStepsGrow(index: int)
    requires 0 <= index < 44
    ensures StepAt(index) < StepAt(index + 1) <= StepAt(index) + StepAt(index) / 7
    ensures -10 < 10 * StepAt(index + 1) - 11 * StepAt(index) < 10
  {
  }

  lemma HighStepsGrow(index: int)
    requires 44 <= index < MAX_INDEX
    ensures StepAt(index) < StepAt(index + 1) <= StepAt(index) + StepAt(index) / 7
    ensures index < MAX_INDEX - 1 ==> -10 < 10 * StepAt(index + 1) - 11 * StepAt(index) < 10
  {
  }

  const IMA := Table(seq(MAX_INDEX + 1, i requires 0 <= i <= MAX_INDEX => StepAt(i)))

  /** Each step but the last is a tenth more than the one before, rounded. */
  lemma StepsGrowByATenth(i: int)
    requires 0 <= i < MAX_INDEX - 1
    ensures StepAt(0) == 7 && -10 < 10 * StepAt(i + 1) - 11 * StepAt(i) < 10
  {
    if i < 44 {
      LowStepsGrow(i);
    } else {
      HighStepsGrow(i);
    }
  }

  lemma ImaTableIsGood()
    ensures IMA.Good()
    ensures forall i :: 0 <= i <= MAX_INDEX ==> IMA.steps[i] == StepAt(i)
  {
    forall i | 0 <= i <= MAX_INDEX ensures 7 <= IMA.steps[i] <= 32767 {
      StepBounds(i);
    }
    forall i | 0 <= i < MAX_INDEX
      ensures IMA.steps[i] < IMA.steps[i + 1] <= IMA.steps[i] + IMA.steps[i] / 7
    {
      if i < 44 {
        LowStepsGrow(i);
      } else {
        HighStepsGrow(i);
      }
    }
  }

  predicate Short(x: int) {
    -32768 <= x <= 32767
  }

  /** The predictor and the step index, kept alike by encoder and decoder. */
  datatype Codec = Codec(pre: int, index: int) {
    predicate Valid() {
      Short(pre) && 0 <= index <= MAX_INDEX
    }
  }

  function ClampShort(x: int): int {
    if x > 32767 then 32767 else if x < -32768 then -32768 else x
  }

  function ClampIndex(i: int): int {
    if i < 0 then 0 else if i > MAX_INDEX then MAX_INDEX else i
  }

  /** The difference a 3-bit code stands for. */
  function Rebuilt(step: int, code: int): int {
    (step * code) / 4 + step / 8
  }

  type nibble = n: int | 0 <= n < 16

  function Quantise(step: int, diff: int): (code: int)
    requires 0 < step && 0 <= diff
    ensures 0 <= code < 8
  {
    var code := 4 * diff / step;
    if code > 7 then 7 else code
  }

  function Abs(x: int): int {
    if x < 0 then -x else x
  }

  // ---------- the quantiser's error ----------

  lemma CodeBrackets(step: int, diff: int)
    requires 0 < step && 0 <= diff
    ensures var code := Quantise(step, diff);
            && (diff < 2 * step ==> code * step <= 4 * diff < (code + 1) * step)
            && (2 * step <= diff ==> code == 7)
  {
    var q := 4 * diff / step;
    assert 4 * diff == step * q + 4 * diff % step;
    Scale(step, q, 7);
    Scale(step, q, 8);
    assert q * step == step * q && (q + 1) * step == step * q + step;
  }

  /** The code is the number of quarter steps, at most 7. */
  lemma CodeIsQuarters(step: int, diff: int, q: int)
    requires 0 < step && 0 <= diff && 0 <= q <= 7 && q * step <= 4 * diff && (q < 7 ==> 4 * diff < (q + 1) * step)
    ensures Quantise(step, diff) == q
  {
    var c := 4 * diff / step;
    assert 4 * diff == step * c + 4 * diff % step;
    if c < q {
      Scale(step, c + 1, q);
    } else if q < c && q < 7 {
      Scale(step, q + 1, c);
    }
  }

  lemma Scale(step: int, q: int, n: int)
    requires 0 < step
    ensures q <= n ==> step * q <= step * n
    ensures n <= q ==> step * n <= step * q
  {
  }

  /** Below twice the step the rebuilt difference is at most step/8 above and step/8 + 2 below. */
  lemma QuantiserError(step: int, diff: int)
    requires 7 <= step && 0 <= diff < 2 * step
    ensures -(step / 8) <= diff - Rebuilt(step, Quantise(step, diff)) <= step / 8 + 2
  {
    CodeBrackets(step, diff);
    var code := Quantise(step, diff);
    if code == 0 {
    } else if code == 1 {
    } else if code == 2 {
    } else if code == 3 {
    } else if code == 4 {
    } else if code == 5 {
    } else if code == 6 {
    }
  }

  /** Code 7 moves by less than twice the step, and by at least 12. */
  lemma FullCode(step: int)
    requires 7 <= step
    ensures 12 <= Rebuilt(step, 7) < 2 * step
  {
  }

  // ---------- packing ----------

  /** The byte of two nibbles. */
  function Both(a: nibble, b: nibble): byte {
    16 * (a as int) + b as int
  }

  /** Two nibbles a byte, the first in the high half. */
  function Pack(ns: seq<nibble>): (r: seq<byte>)
    ensures |r| == |ns| / 2
    ensures forall k :: 0 <= k < |r| ==> r[k] == Both(ns[2 * k], ns[2 * k + 1])
  {
    seq(|ns| / 2, k requires 0 <= k < |ns| / 2 => Both(ns[2 * k], ns[2 * k + 1]))
  }

  function NibbleAt(bs: seq<byte>, i: nat): nibble
    requires i < 2 * |bs|
  {
    if i % 2 == 0 then bs[i / 2] / 16 else bs[i / 2] % 16
  }

  function Unpack(bs: seq<byte>): (r: seq<nibble>)
    ensures |r| == 2 * |bs|
    ensures forall i :: 0 <= i < |r| ==> r[i] == NibbleAt(bs, i)
  {
    seq(2 * |bs|, i requires 0 <= i < 2 * |bs| => NibbleAt(bs, i))
  }

  lemma UnpackPack(ns: seq<nibble>)
    requires |ns| % 2 == 0
    ensures Unpack(Pack(ns)) == ns
  {
    var bs := Pack(ns);
    forall i | 0 <= i < |ns| ensures Unpack(bs)[i] == ns[i] {
      assert bs[i / 2] == Both(ns[2 * (i / 2)], ns[2 * (i / 2) + 1]);
      assert i == 2 * (i / 2) || i == 2 * (i / 2) + 1;
    }
  }

  /** The first nibble of a byte is in its high half. */
  lemma HighHalfIsFirst(ns: seq<nibble>, k: nat)
    requires k < |ns|
    ensures k % 2 == 0 && k + 1 < |ns| ==> |Pack(ns)| > k / 2 && Pack(ns)[k / 2] / 16 == ns[k]
    ensures k % 2 == 1 ==> |Pack(ns)| > k / 2 && Pack(ns)[k / 2] % 16 == ns[k]
  {
    if k / 2 < |Pack(ns)| {
      assert Pack(ns)[k / 2] == Both(ns[2 * (k / 2)], ns[2 * (k / 2) + 1]);
    }
  }

  lemma PackAppend(ns: seq<nibble>, a: nibble, b: nibble)
    requires |ns| % 2 == 0
    ensures Pack(ns + [a, b]) == Pack(ns) + [Both(a, b)]
  {
    var more := ns + [a, b];
    assert |more| / 2 == |ns| / 2 + 1;
    forall k | 0 <= k < |ns| / 2 ensures Pack(more)[k] == Pack(ns)[k] {
      assert more[2 * k] == ns[2 * k] && more[2 * k + 1] == ns[2 * k + 1];
    }
  }

  /** The state after a trace: the last of it, or the start. */
  function After(st: Codec, trace: seq<Codec>): Codec {
    if trace == [] then st else trace[|trace| - 1]
  }

  datatype Table = Table(steps: seq<int>) {

    /** What is used of a step table: 89 steps from at least 7 up to the largest 16-bit value, each
        at most a seventh above the one before. */
    ghost predicate Good() {
      && |steps| == MAX_INDEX + 1
      && (forall i :: 0 <= i <= MAX_INDEX ==> 7 <= steps[i] <= 32767)
      && (forall i :: 0 <= i < MAX_INDEX ==> steps[i] < steps[i + 1] <= steps[i] + steps[i] / 7)
      && steps[MAX_INDEX] == 32767
    }

    lemma {:induction false} StepsRise(i: int, k: int)
      requires Good() && 0 <= i <= k <= MAX_INDEX
      ensures steps[i] <= steps[k]
      decreases k - i
    {
      if i < k {
        StepsRise(i, k - 1);
      }
    }

    // ---------- the shared step ----------

    /** What a nibble, a sign bit and a 3-bit code, does to the state. */
    function Advance(st: Codec, n: nibble): (r: Codec)
      requires |steps| == MAX_INDEX + 1 && st.Valid()
      ensures r.Valid()
    {
      var delta := Rebuilt(steps[st.index], n % 8);
      Codec(ClampShort(st.pre + if n >= 8 then -delta else delta), ClampIndex(st.index + Adjust(n % 8)))
    }

    /** The nibble the encoder chooses. */
    function Nibble(st: Codec, x: int): (n: nibble)
      requires Good() && st.Valid()
    {
      Quantise(steps[st.index], Abs(x - st.pre)) + if x < st.pre then 8 else 0
    }

    function Encode(st: Codec, x: int): (r: Codec)
      requires Good() && st.Valid()
      ensures r.Valid()
    {
      Advance(st, Nibble(st, x))
    }

    predicate Overloaded(st: Codec, x: int)
      requires |steps| == MAX_INDEX + 1 && st.Valid()
    {
      2 * steps[st.index] <= Abs(x - st.pre)
    }

    lemma EncodeMoves(st: Codec, x: int)
      requires Good() && st.Valid() && Short(x)
      ensures var r, d := Encode(st, x), Rebuilt(steps[st.index], Quantise(steps[st.index], Abs(x - st.pre)));
              && r.index == ClampIndex(st.index + Adjust(Quantise(steps[st.index], Abs(x - st.pre))))
              && r.pre == ClampShort(if x < st.pre then st.pre - d else st.pre + d)
    {
    }

    /** A sample that does not overload the step is rebuilt to within step/8 + 2. */
    lemma RebuiltIsClose(st: Codec, x: int)
      requires Good() && st.Valid() && Short(x) && !Overloaded(st, x)
      ensures Abs(x - Encode(st, x).pre) <= steps[st.index] / 8 + 2
    {
      EncodeMoves(st, x);
      QuantiserError(steps[st.index], Abs(x - st.pre));
    }

    /** A sample that overloads it moves the predictor towards the sample by at least 12, without
        passing it, and the index up by 8. */
    lemma OverloadedMoves(st: Codec, x: int)
      requires Good() && st.Valid() && Short(x) && Overloaded(st, x)
      ensures var r := Encode(st, x);
              && r.index == ClampIndex(st.index + 8)
              && Abs(x - r.pre) <= Abs(x - st.pre) - 12
    {
      EncodeMoves(st, x);
      CodeBrackets(steps[st.index], Abs(x - st.pre));
      FullCode(steps[st.index]);
    }

    /** Overload never returns while the input is held. */
    lemma StaysInRange(st: Codec, x: int)
      requires Good() && st.Valid() && Short(x) && !Overloaded(st, x)
      ensures !Overloaded(Encode(st, x), x)
    {
      RebuiltIsClose(st, x);
      EncodeMoves(st, x);
      var r := Encode(st, x);
      if st.index <= r.index {
        StepsRise(st.index, r.index);
      }
    }

    /** The state after the input has been held at x for n samples. */
    function Held(st: Codec, x: int, n: nat): (r: Codec)
      requires Good() && st.Valid()
      ensures r.Valid()
    {
      if n == 0 then st else Encode(Held(st, x, n - 1), x)
    }

    lemma {:induction false} OverloadClimbs(st: Codec, x: int, n: nat)
      requires Good() && st.Valid() && Short(x)
      requires forall i: nat :: i < n ==> Overloaded(Held(st, x, i), x)
      ensures Held(st, x, n).index == MAX_INDEX || 8 * n <= Held(st, x, n).index
      ensures Abs(x - Held(st, x, n).pre) <= 65535 - 12 * n
    {
      if n > 0 {
        OverloadClimbs(st, x, n - 1);
        OverloadClimbsOne(Held(st, x, n - 1), x, n);
      }
    }

    lemma OverloadClimbsOne(before: Codec, x: int, n: nat)
      requires Good() && before.Valid() && Short(x) && n > 0 && Overloaded(before, x)
      requires before.index == MAX_INDEX || 8 * (n - 1) <= before.index
      requires Abs(x - before.pre) <= 65535 - 12 * (n - 1)
      ensures Encode(before, x).index == MAX_INDEX || 8 * n <= Encode(before, x).index
      ensures Abs(x - Encode(before, x).pre) <= 65535 - 12 * n
    {
      OverloadedMoves(before, x);
    }

    lemma {:induction false} StaysInRangeLong(st: Codec, x: int, k: nat, n: nat)
      requires Good() && st.Valid() && Short(x) && k <= n && !Overloaded(Held(st, x, k), x)
      ensures !Overloaded(Held(st, x, n), x)
    {
      if k < n {
        StaysInRangeLong(st, x, k, n - 1);
        StaysInRange(Held(st, x, n - 1), x);
      }
    }

    /** If the input is held, from any state, at most 11 samples are overloaded, all at the start. */
    lemma AtMostElevenOverloads(st: Codec, x: int) returns (k: nat)
      requires Good() && st.Valid() && Short(x)
      ensures k <= 11
      ensures forall n: nat :: Overloaded(Held(st, x, n), x) <==> n < k
    {
      k := 0;
      while k < 11 && Overloaded(Held(st, x, k), x)
        invariant k <= 11
        invariant forall i: nat :: i < k ==> Overloaded(Held(st, x, i), x)
      {
        k := k + 1;
      }
      OverloadClimbs(st, x, k);
      forall n: nat | k <= n ensures !Overloaded(Held(st, x, n), x) {
        StaysInRangeLong(st, x, k, n);
      }
    }

    // ---------- how the step adapts ----------

    /** What a sample does, by how many quarters of the step s it is away.  The nibble is that number, with
        the sign in its top bit.  Below four the index falls by one, and from four up it rises by two for
        every quarter, at most by eight.  The predictor moves by as many quarters and an eighth. */
    lemma SampleMoves(st: Codec, x: int, s: int, d: int, q: int)
      requires Good() && st.Valid() && Short(x) && s == steps[st.index] && d == Abs(x - st.pre)
      requires 0 <= q <= 7 && q * s <= 4 * d && (q < 7 ==> 4 * d < (q + 1) * s)
      ensures Nibble(st, x) == if x < st.pre then 8 + q else q
      ensures var index := Encode(st, x).index;
              && (q < 4 ==> index == if st.index == 0 then 0 else st.index - 1)
              && (4 <= q ==> index == if st.index + 2 * q - 6 > 88 then 88 else st.index + 2 * q - 6)
      ensures var pre, moved := Encode(st, x).pre, q * s / 4 + s / 8;
              && (st.pre <= x ==> pre == if st.pre + moved > 32767 then 32767 else st.pre + moved)
              && (x < st.pre ==> pre == if st.pre - moved < -32768 then -32768 else st.pre - moved)
    {
      CodeIsQuarters(s, d, q);
      CodeMovesIndex(st, x, s, q);
      CodeMovesPre(st, x, s, q, Rebuilt(s, q));
      assert Rebuilt(s, q) == q * s / 4 + s / 8 by {
        assert s * q == q * s;
      }
    }

    lemma CodeMovesIndex(st: Codec, x: int, s: int, q: int)
      requires Good() && st.Valid() && s == steps[st.index] && 0 <= q <= 7 && Quantise(s, Abs(x - st.pre)) == q
      ensures var index := Encode(st, x).index;
              && (q < 4 ==> index == if st.index == 0 then 0 else st.index - 1)
              && (4 <= q ==> index == if st.index + 2 * q - 6 > 88 then 88 else st.index + 2 * q - 6)
    {
    }

    lemma CodeMovesPre(st: Codec, x: int, s: int, q: int, moved: int)
      requires Good() && st.Valid() && Short(x) && s == steps[st.index]
      requires 0 <= q <= 7 && Quantise(s, Abs(x - st.pre)) == q && moved == Rebuilt(s, q)
      ensures var pre := Encode(st, x).pre;
              && (st.pre <= x ==> pre == if st.pre + moved > 32767 then 32767 else st.pre + moved)
              && (x < st.pre ==> pre == if st.pre - moved < -32768 then -32768 else st.pre - moved)
    {
      EncodeMoves(st, x);
      assert 0 <= s * q;
    }

    /** Less than a step away: the index falls, and less than a step away it is again. */
    lemma NearSampleFalls(st: Codec, x: int)
      requires Good() && st.Valid() && Short(x) && Abs(x - st.pre) < steps[st.index]
      ensures var r := Encode(st, x);
              && r.index == (if st.index == 0 then 0 else st.index - 1)
              && Abs(x - r.pre) <= steps[st.index] / 8 + 2
              && Abs(x - r.pre) < steps[r.index]
    {
      var s, d := steps[st.index], Abs(x - st.pre);
      var q := if 4 * d < s then 0 else if 4 * d < 2 * s then 1 else if 4 * d < 3 * s then 2 else 3;
      SampleMoves(st, x, s, d, q);
      RebuiltIsClose(st, x);
    }

    /** Within two steps: the sample after the next is less than a step away. */
    lemma NearAfterOne(st: Codec, x: int)
      requires Good() && st.Valid() && Short(x) && !Overloaded(st, x)
      ensures Abs(x - Encode(st, x).pre) < steps[Encode(st, x).index]
    {
      RebuiltIsClose(st, x);
      EncodeMoves(st, x);
      var r := Encode(st, x);
      if st.index <= r.index {
        StepsRise(st.index, r.index);
      }
    }

    /** Less than a step away, with the index at most `top`. */
    ghost predicate Near(st: Codec, x: int, top: int) {
      Good() && st.Valid() && Abs(x - st.pre) < steps[st.index] && st.index <= top
    }

    /** A sample that lowers the index, if it is not 0, and is rebuilt to within an eighth of the step and 2. */
    ghost predicate Falls(before: Codec, after: Codec, x: int) {
      && Good() && before.Valid()
      && after.index == (if before.index == 0 then 0 else before.index - 1)
      && Abs(x - after.pre) <= steps[before.index] / 8 + 2
    }

    lemma HeldFallsOnce(st: Codec, x: int, n: nat, top: int)
      requires Good() && st.Valid() && Short(x) && 0 < n && Near(Held(st, x, n - 1), x, top) && 0 <= top
      ensures Near(Held(st, x, n), x, if top == 0 then 0 else top - 1)
      ensures Falls(Held(st, x, n - 1), Held(st, x, n), x)
    {
      NearSampleFalls(Held(st, x, n - 1), x);
    }

    /** The step comes down after a loud passage: with the input held, at the latest from the thirteenth
        sample on, every sample lowers the index by one until it is 0. */
    lemma {:induction false} HeldInputFalls(st: Codec, x: int, n: nat)
      requires Good() && st.Valid() && Short(x) && 12 <= n
      ensures Near(Held(st, x, n), x, if n <= 100 then 100 - n else 0)
      ensures 13 <= n ==> Falls(Held(st, x, n - 1), Held(st, x, n), x)
    {
      if n == 12 {
        NearAtTwelve(st, x);
      } else {
        HeldInputFalls(st, x, n - 1);
        HeldFallsOnce(st, x, n, if n <= 101 then 101 - n else 0);
      }
    }

    lemma NearAtTwelve(st: Codec, x: int)
      requires Good() && st.Valid() && Short(x)
      ensures Near(Held(st, x, 12), x, 88)
    {
      var k := AtMostElevenOverloads(st, x);
      NearAfterOne(Held(st, x, 11), x);
    }

    /** So from any state, after 101 samples of a held input the step is the smallest and the input is
        rebuilt to within 2. */
    lemma HeldInputSettles(st: Codec, x: int, n: nat)
      requires Good() && steps[0] == 7 && st.Valid() && Short(x) && 101 <= n
      ensures Held(st, x, n).index == 0 && -2 <= x - Held(st, x, n).pre <= 2
    {
      HeldInputFalls(st, x, n - 1);
      HeldInputFalls(st, x, n);
    }

    // ---------- sequences of samples ----------

    /** The states of the encoder after each sample. */
    function EncodeTrace(st: Codec, xs: seq<int>): (r: seq<Codec>)
      requires Good() && st.Valid()
      ensures |r| == |xs| && forall c :: c in r ==> c.Valid()
      decreases xs
    {
      if xs == [] then [] else
        var next := Encode(st, xs[0]);
        [next] + EncodeTrace(next, xs[1..])
    }

    function Nibbles(st: Codec, xs: seq<int>): (r: seq<nibble>)
      requires Good() && st.Valid()
      ensures |r| == |xs|
      decreases xs
    {
      if xs == [] then [] else [Nibble(st, xs[0])] + Nibbles(Encode(st, xs[0]), xs[1..])
    }

    /** The states of the decoder after each nibble. */
    function DecodeTrace(st: Codec, ns: seq<nibble>): (r: seq<Codec>)
      requires |steps| == MAX_INDEX + 1 && st.Valid()
      ensures |r| == |ns| && forall c :: c in r ==> c.Valid()
      decreases ns
    {
      if ns == [] then [] else
        var next := Advance(st, ns[0]);
        [next] + DecodeTrace(next, ns[1..])
    }

    /** Lock-step: fed the packed nibbles of any even number of samples, the decoder is in the
        encoder's state after every sample. */
    lemma {:induction false} DecoderFollowsEncoder(st: Codec, xs: seq<int>)
      requires Good() && st.Valid() && |xs| % 2 == 0
      ensures DecodeTrace(st, Unpack(Pack(Nibbles(st, xs)))) == EncodeTrace(st, xs)
    {
      UnpackPack(Nibbles(st, xs));
      TracesAgree(st, xs);
    }

    lemma {:induction false} TracesAgree(st: Codec, xs: seq<int>)
      requires Good() && st.Valid()
      ensures DecodeTrace(st, Nibbles(st, xs)) == EncodeTrace(st, xs)
      decreases xs
    {
      if xs != [] {
        TracesAgree(Encode(st, xs[0]), xs[1..]);
        assert Nibbles(st, xs)[1..] == Nibbles(Encode(st, xs[0]), xs[1..]);
      }
    }

    lemma {:induction false} EncodeTraceAppend(st: Codec, xs: seq<int>, x: int)
      requires Good() && st.Valid()
      ensures var last := After(st, EncodeTrace(st, xs));
              last.Valid() && EncodeTrace(st, xs + [x]) == EncodeTrace(st, xs) + [Encode(last, x)]
      decreases xs
    {
      if xs == [] {
        assert [x][1..] == [];
      } else {
        assert (xs + [x])[1..] == xs[1..] + [x];
        EncodeTraceAppend(Encode(st, xs[0]), xs[1..], x);
      }
    }

    lemma {:induction false} NibblesAppend(st: Codec, xs: seq<int>, x: int)
      requires Good() && st.Valid()
      ensures var last := After(st, EncodeTrace(st, xs));
              last.Valid() && Nibbles(st, xs + [x]) == Nibbles(st, xs) + [Nibble(last, x)]
      decreases xs
    {
      if xs == [] {
        assert [x][1..] == [];
      } else {
        assert (xs + [x])[1..] == xs[1..] + [x];
        NibblesAppend(Encode(st, xs[0]), xs[1..], x);
      }
    }

    lemma {:induction false} DecodeTraceAppend(st: Codec, ns: seq<nibble>, n: nibble)
      requires Good() && st.Valid()
      ensures var last := After(st, DecodeTrace(st, ns));
              && last.Valid()
              && DecodeTrace(st, ns + [n]) == DecodeTrace(st, ns) + [Advance(last, n)]
      decreases ns
    {
      if ns == [] {
        assert [n][1..] == [];
      } else {
        assert (ns + [n])[1..] == ns[1..] + [n];
        DecodeTraceAppend(Advance(st, ns[0]), ns[1..], n);
      }
    }

    /** After n samples at the top of the range the state is `now`. */
    ghost predicate Reaches(st: Codec, n: nat, now: Codec) {
      Good() && st.Valid() && Held(st, 32767, n) == now
    }

    /** One overloaded sample of a rise to the top of the range. */
    lemma Climb(st: Codec, n: nat, pre: int, index: int, step: int)
      requires Reaches(st, n, Codec(pre, index)) && index <= 80 && steps[index] == step && 2 * step <= 32767 - pre
      ensures Reaches(st, n + 1, Codec(pre + Rebuilt(step, 7), index + 8))
      ensures Overloaded(Held(st, 32767, n), 32767)
    {
      EncodeMoves(Codec(pre, index), 32767);
      CodeBrackets(step, 32767 - pre);
      FullCode(step);
    }
  }

  const LOWEST := Codec(-32768, 0)

  /** The step and the predictor at the k-th sample of a climb from the bottom. */
  function ClimbStep(k: nat): int {
    match k
    case 0 => 7 case 1 => 16 case 2 => 34 case 3 => 73 case 4 => 157 case 5 => 337
    case 6 => 724 case 7 => 1552 case 8 => 3327 case 9 => 7132 case _ => 15289
  }

  function ClimbPre(k: nat): int {
    match k
    case 0 => -32768 case 1 => -32756 case 2 => -32726 case 3 => -32663 case 4 => -32527 case 5 => -32234
    case 6 => -31603 case 7 => -30246 case 8 => -27336 case 9 => -21099 case 10 => -7727 case _ => 20939
  }

  lemma ClimbNumbers(k: nat)
    requires k <= 10
    ensures ClimbStep(k) == StepAt(8 * k)
    ensures 2 * ClimbStep(k) <= 32767 - ClimbPre(k)
    ensures ClimbPre(k + 1) == ClimbPre(k) + Rebuilt(ClimbStep(k), 7)
  {
  }

  lemma ClimbOne(k: nat, pre: int, step: int, next: int)
    requires k <= 10 && IMA.Reaches(LOWEST, k, Codec(pre, 8 * k))
    requires step == StepAt(8 * k) && 2 * step <= 32767 - pre && next == pre + Rebuilt(step, 7)
    ensures IMA.Reaches(LOWEST, k + 1, Codec(next, 8 * (k + 1)))
    ensures IMA.Good() && IMA.Overloaded(IMA.Held(LOWEST, 32767, k), 32767)
  {
    ImaTableIsGood();
    assert IMA.steps[8 * k] == step;
    IMA.Climb(LOWEST, k, pre, 8 * k, step);
  }

  lemma {:induction false} ClimbGoesOn(k: nat)
    requires k <= 10
    ensures IMA.Reaches(LOWEST, k + 1, Codec(ClimbPre(k + 1), 8 * (k + 1)))
    ensures IMA.Good() && IMA.Overloaded(IMA.Held(LOWEST, 32767, k), 32767)
  {
    if k > 0 {
      ClimbGoesOn(k - 1);
    } else {
      ClimbStarts();
    }
    ClimbNumbers(k);
    ClimbOne(k, ClimbPre(k), ClimbStep(k), ClimbPre(k + 1));
  }

  lemma ClimbStarts()
    ensures IMA.Reaches(LOWEST, 0, LOWEST)
  {
    ImaTableIsGood();
  }

  /** Eleven is attained: from the bottom of the range and the smallest step, to the top. */
  lemma ElevenHappens(n: nat)
    requires n < 11
    ensures IMA.Good() && IMA.Overloaded(IMA.Held(LOWEST, 32767, n), 32767)
  {
    ClimbGoesOn(n);
  }

  // ---------- the circular output ----------

  /** The decoder's next output position. */
  function Bump(pos: int, max: int): int {
    if max <= pos + 1 then 0 else pos + 1
  }

  /** The output after the values ws, written one position after another, and the last position. */
  function PutAll(buf: seq<int>, pos: int, max: int, ws: seq<int>): (r: (seq<int>, int))
    requires -1 <= pos && 1 <= max <= |buf|
    ensures |r.0| == |buf| && -1 <= r.1
  {
    if ws == [] then (buf, pos)
    else
      var n := |ws| - 1;
      var (b, p) := PutAll(buf, pos, max, ws[..n]);
      (b[Bump(p, max) := ws[n]], Bump(p, max))
  }

  /** Each value twice. */
  function Doubled(vs: seq<int>): (r: seq<int>)
    ensures |r| == 2 * |vs| && forall k :: 0 <= k < |r| ==> r[k] == vs[k / 2]
  {
    if vs == [] then [] else Doubled(vs[..|vs| - 1]) + [vs[|vs| - 1], vs[|vs| - 1]]
  }

  /** The position of the k-th write after pos. */
  function Place(pos: int, k: int, max: int): (r: int)
    requires 0 < max
    ensures 0 <= r < max
  {
    (pos + k + 1) % max
  }

  lemma BumpIsMod(pos: int, max: int, k: int)
    requires 0 <= pos < max && 0 <= k
    ensures Bump((pos + k) % max, max) == Place(pos, k, max)
  {
    Modular.ModNext(pos + k, max);
  }

  lemma PlacesDiffer(pos: int, j: int, k: int, max: int)
    requires 0 < max && 0 <= pos && 0 <= j < k < j + max
    ensures Place(pos, j, max) != Place(pos, k, max)
  {
    Modular.ModsDiffer(pos + j + 1, pos + k + 1, max);
  }

  /** As long as the output does not lap itself, the k-th value is at the k-th place after pos, and
      nothing else has changed. */
  lemma {:induction false} PutAllPlaces(buf: seq<int>, pos: int, max: int, ws: seq<int>)
    requires 0 <= pos < max <= |buf| && |ws| <= max
    ensures var r := PutAll(buf, pos, max, ws);
            && r.1 == (pos + |ws|) % max
            && (forall k :: 0 <= k < |ws| ==> r.0[Place(pos, k, max)] == ws[k])
            && (forall q :: 0 <= q < |buf| && q !in Places(pos, |ws|, max) ==> r.0[q] == buf[q])
    decreases ws
  {
    if ws == [] {
      Modular.ModSmall(pos, max);
    } else {
      var n := |ws| - 1;
      PutAllPlaces(buf, pos, max, ws[..n]);
      BumpIsMod(pos, max, n);
      var b0 := PutAll(buf, pos, max, ws[..n]).0;
      var b := PutAll(buf, pos, max, ws).0;
      assert b == b0[Place(pos, n, max) := ws[n]];
      forall k | 0 <= k < n ensures b[Place(pos, k, max)] == ws[k] {
        PlacesDiffer(pos, k, n, max);
        assert ws[..n][k] == ws[k];
      }
      forall q | 0 <= q < |buf| && q !in Places(pos, |ws|, max) ensures b[q] == buf[q] {
        assert Place(pos, n, max) in Places(pos, |ws|, max);
        assert forall k :: 0 <= k < n ==> Place(pos, k, max) in Places(pos, |ws|, max);
      }
    }
  }

  function Places(pos: int, n: nat, max: int): set<int>
    requires 0 < max
  {
    set k | 0 <= k < n :: Place(pos, k, max)
  }

  // ---------- the code ----------

  predicate BitSet(x: int, bit: int)
    requires 0 < bit
  {
    x / bit % 2 == 1
  }

  function OrBit(a: nibble, b: nibble, bit: int): int
    requires 0 < bit
  {
    if BitSet(a, bit) || BitSet(b, bit) then bit else 0
  }

  /** The bitwise or of a byte and a nibble. */
  function Or(a: byte, b: nibble): byte {
    (a / 16) * 16 + OrBit(a % 16, b, 8) + OrBit(a % 16, b, 4) + OrBit(a % 16, b, 2) + OrBit(a % 16, b, 1)
  }

  lemma OrFillsLowHalf(n: nibble, b: nibble)
    ensures Or(16 * (n as int), b) == 16 * (n as int) + b as int
  {
  }

  class Coder {
    const table: Table
    var preSample: int
    var index: int

    ghost predicate Valid()
      reads this
    {
      table.Good() && State().Valid()
    }

    function State(): Codec
      reads this
    {
      Codec(preSample, index)
    }

    constructor ()
      ensures Valid() && table == IMA && State() == Codec(0, 0)
    {
      table := IMA;
      preSample, index := 0, 0;
      ImaTableIsGood();
    }

    /** The update of predictor and index that both directions end with. */
    method Update(step: int, code: int, sb: int)
      requires Valid() && step == table.steps[index] && 0 <= code < 8 && (sb == 0 || sb == 8)
      modifies this
      ensures Valid() && State() == table.Advance(old(State()), code + sb)
    {
      assert (code + sb) % 8 == code && (code + sb >= 8 <==> sb != 0);
      var delta := (step * code) / 4 + step / 8;
      if sb != 0 {
        delta := -delta;
      }
      preSample := preSample + delta;
      if preSample > 32767 {
        preSample := 32767;
      } else if preSample < -32768 {
        preSample := -32768;
      }
      index := index + Adjust(code);
      if index < 0 {
        index := 0;
      } else if index > MAX_INDEX {
        index := MAX_INDEX;
      }
    }

    /** The code and the sign bit for one sample. */
    method Choose(nPcm: int) returns (code: int, sb: int)
      requires Valid()
      ensures 0 <= code < 8 && (sb == 0 || sb == 8) && code + sb == table.Nibble(State(), nPcm)
    {
      var delta := nPcm - preSample;
      if delta < 0 {
        delta := -delta;
        sb := 8;
      } else {
        sb := 0;
      }
      code := 4 * delta / table.steps[index];
      if code > 7 {
        code := 7;
      }
      assert code == Quantise(table.steps[index], Abs(nPcm - preSample));
    }

    /** One sample into one half of a byte: the high half for an even iIndex, else the low half. */
    method AdpcmEncode(nPcm: int, iIndex: nat, encoded: array<byte>, at: nat)
      requires Valid() && Short(nPcm) && at < encoded.Length
      modifies this, encoded
      ensures Valid() && State() == table.Encode(old(State()), nPcm)
      ensures encoded[..] == old(encoded[..])[at :=
                if iIndex % 2 == 1 then Or(old(encoded[at]), table.Nibble(old(State()), nPcm))
                else 16 * (table.Nibble(old(State()), nPcm) as int)]
    {
      var code, sb := Choose(nPcm);
      Update(table.steps[index], code, sb);
      if iIndex % 2 == 1 {
        encoded[at] := Or(encoded[at], code + sb);
      } else {
        encoded[at] := 16 * (code + sb);
      }
    }

    /** Two rounds of the capture loop, which fill one byte. */
    method EncodeTwo(x: int, y: int, i: nat, encoded: array<byte>, base: nat)
      requires Valid() && Short(x) && Short(y) && i % 2 == 0 && base + i / 2 < encoded.Length
      modifies this, encoded
      ensures Valid() && State() == table.Encode(table.Encode(old(State()), x), y)
      ensures encoded[..] == old(encoded[..])[base + i / 2 :=
                16 * (table.Nibble(old(State()), x) as int)
                + table.Nibble(table.Encode(old(State()), x), y) as int]
    {
      ghost var a, b := table.Nibble(State(), x), table.Nibble(table.Encode(State(), x), y);
      AdpcmEncode(x, i, encoded, base + i / 2);
      AdpcmEncode(y, i + 1, encoded, base + (i + 1) / 2);
      OrFillsLowHalf(a, b);
    }

    /** Two samples more make one byte more. */
    method EncodeNext(x: int, y: int, i: nat, encoded: array<byte>, base: nat,
                      ghost before: seq<byte>, ghost ns: seq<nibble>)
      requires Valid() && Short(x) && Short(y) && i % 2 == 0 && |ns| == i
      requires base + i / 2 < encoded.Length == |before|
      requires encoded[..] == Filled(before, base, Pack(ns))
      modifies this, encoded
      ensures Valid() && State() == table.Encode(table.Encode(old(State()), x), y)
      ensures base + (i + 2) / 2 <= |before|
      ensures encoded[..] == Filled(before, base, Pack(ns +
                [table.Nibble(old(State()), x), table.Nibble(table.Encode(old(State()), x), y)]))
    {
      ghost var a, b := table.Nibble(State(), x), table.Nibble(table.Encode(State(), x), y);
      BytesMore(before, base, ns, a, b, ns + [a, b], encoded[..], base + i / 2);
      EncodeTwo(x, y, i, encoded, base);
    }

    /** One byte's worth of the loop below. */
    method EncodeStep(pcm: seq<int>, i: nat, encoded: array<byte>, base: nat, ghost st: Codec, ghost before: seq<byte>)
      requires Valid() && i % 2 == 0 && i + 1 < |pcm| && st.Valid()
      requires Short(pcm[i]) && Short(pcm[i + 1])
      requires base + i / 2 < encoded.Length == |before|
      requires Captured(table, st, pcm[..i], before, base, State(), encoded[..])
      modifies this, encoded
      ensures Valid() && base + (i + 2) / 2 <= |before|
      ensures Captured(table, st, pcm[..i + 2], before, base, State(), encoded[..])
    {
      ghost var next, a, b := TwoEncoded(table, st, pcm, i, State());
      EncodeNext(pcm[i], pcm[i + 1], i, encoded, base, before, table.Nibbles(st, pcm[..i]));
    }

    /** The capture loop's use of the encoder: sample i goes to byte base + i / 2. */
    method EncodePackage(pcm: seq<int>, encoded: array<byte>, base: nat)
      requires Valid() && |pcm| % 2 == 0 && base + |pcm| / 2 <= encoded.Length
      requires forall x :: x in pcm ==> Short(x)
      modifies this, encoded
      ensures Valid()
      ensures State() == After(old(State()), table.EncodeTrace(old(State()), pcm))
      ensures encoded[..] == Filled(old(encoded[..]), base, Pack(table.Nibbles(old(State()), pcm)))
    {
      ghost var st, before := State(), encoded[..];
      var i := 0;
      while i < |pcm|
        invariant 0 <= i <= |pcm| && i % 2 == 0 && Valid()
        invariant Captured(table, st, pcm[..i], before, base, State(), encoded[..])
      {
        EncodeStep(pcm, i, encoded, base, st, before);
        i := i + 2;
      }
      assert pcm[..|pcm|] == pcm;
    }

    /** Decodes len bytes into the circular output, from the position after iBufIndex. */
    method AdpcmDecode(raw: seq<byte>, len: nat, decoded: array<int>, iBufIndex: int, iMaxIndex: int)
        returns (bufIndex: int)
      requires Valid() && len <= |raw| && -1 <= iBufIndex && 1 <= iMaxIndex <= decoded.Length
      modifies this, decoded
      ensures Valid()
      ensures var trace := table.DecodeTrace(old(State()), Unpack(raw[..len]));
              && State() == After(old(State()), trace)
              && (decoded[..], bufIndex) == PutAll(old(decoded[..]), iBufIndex, iMaxIndex, Doubled(Predictors(trace)))
    {
      ghost var st, out, ns := State(), decoded[..], Unpack(raw[..len]);
      bufIndex := iBufIndex;
      var i := 0;
      while i < 2 * len
        invariant 0 <= i <= 2 * len && -1 <= bufIndex && Valid()
        invariant Decoded(table, st, ns[..i], out, iBufIndex, iMaxIndex, State(), decoded[..], bufIndex)
      {
        bufIndex := DecodeStep(raw, i, decoded, bufIndex, iMaxIndex, st, ns, out, iBufIndex);
        i := i + 1;
      }
      assert ns[..2 * len] == ns;
    }

    /** One round of the loop above. */
    method DecodeStep(raw: seq<byte>, i: nat, decoded: array<int>, at: int, iMaxIndex: int,
                      ghost st: Codec, ghost ns: seq<nibble>, ghost out: seq<int>, ghost iBufIndex: int)
        returns (bufIndex: int)
      requires Valid() && i < |ns| <= 2 * |raw| && ns[i] == NibbleAt(raw, i) && st.Valid()
      requires -1 <= at && -1 <= iBufIndex && 1 <= iMaxIndex <= decoded.Length == |out|
      requires Decoded(table, st, ns[..i], out, iBufIndex, iMaxIndex, State(), decoded[..], at)
      modifies this, decoded
      ensures Valid() && -1 <= bufIndex
      ensures Decoded(table, st, ns[..i + 1], out, iBufIndex, iMaxIndex, State(), decoded[..], bufIndex)
    {
      OneMore(table, st, ns, i, out, iBufIndex, iMaxIndex);
      var code := NibbleOf(raw, i);
      bufIndex := DecodeOne(code, decoded, at, iMaxIndex);
    }

    /** The high half of a byte for an even position, else the low half. */
    method NibbleOf(raw: seq<byte>, i: nat) returns (code: nibble)
      requires i < 2 * |raw|
      ensures code == NibbleAt(raw, i)
    {
      if i % 2 == 1 {
        code := raw[i / 2] % 16;
      } else {
        code := raw[i / 2] / 16;
      }
    }

    /** One round: the value goes to the next two positions. */
    method DecodeOne(n: nibble, decoded: array<int>, at: int, iMaxIndex: int) returns (bufIndex: int)
      requires Valid() && -1 <= at && 1 <= iMaxIndex <= decoded.Length
      modifies this, decoded
      ensures Valid() && State() == table.Advance(old(State()), n)
      ensures (decoded[..], bufIndex)
              == PutPair(old(decoded[..]), at, iMaxIndex, table.Advance(old(State()), n).pre)
    {
      var sb := if (n as int / 8) % 2 != 0 then 8 else 0;
      Update(table.steps[index], n % 8, sb);
      bufIndex := at + 1;
      if iMaxIndex <= bufIndex {
        bufIndex := 0;
      }
      decoded[bufIndex] := preSample;
      bufIndex := bufIndex + 1;
      if iMaxIndex <= bufIndex {
        bufIndex := 0;
      }
      decoded[bufIndex] := preSample;
    }
  }

  function PutPair(buf: seq<int>, at: int, max: int, v: int): (seq<int>, int)
    requires -1 <= at && 1 <= max <= |buf|
  {
    var p := Bump(at, max);
    (buf[p := v][Bump(p, max) := v], Bump(p, max))
  }

  /** `before` with bs written at base. */
  function Filled(before: seq<byte>, base: nat, bs: seq<byte>): (r: seq<byte>)
    requires base + |bs| <= |before|
    ensures |r| == |before|
  {
    before[..base] + bs + before[base + |bs|..]
  }

  /** What the capture loop has done after the samples pcm. */
  ghost predicate Captured(t: Table, st: Codec, pcm: seq<int>, before: seq<byte>, base: nat, now: Codec, out: seq<byte>)
    requires t.Good() && st.Valid() && |pcm| % 2 == 0 && base + |pcm| / 2 <= |before|
  {
    && now == After(st, t.EncodeTrace(st, pcm))
    && out == Filled(before, base, Pack(t.Nibbles(st, pcm)))
  }

  /** Two nibbles more make one byte more. */
  lemma BytesMore(before: seq<byte>, base: nat, ns: seq<nibble>, a: nibble, b: nibble, more: seq<nibble>,
                  out: seq<byte>, at: nat)
    requires |ns| % 2 == 0 && at == base + |ns| / 2 < |before| == |out| && more == ns + [a, b]
    requires out == Filled(before, base, Pack(ns))
    ensures out[at := Both(a, b)] == Filled(before, base, Pack(more))
  {
    PackAppend(ns, a, b);
    ByteMore(before, base, Pack(ns), Both(a, b), Pack(more), out, at);
  }

  lemma ByteMore(before: seq<byte>, base: nat, bs: seq<byte>, v: byte, more: seq<byte>, out: seq<byte>, at: nat)
    requires at == base + |bs| < |before| == |out| && more == bs + [v] && out == Filled(before, base, bs)
    ensures out[at := v] == Filled(before, base, more)
  {
  }

  lemma OneEncoded(t: Table, st: Codec, pcm: seq<int>, i: nat, now: Codec) returns (next: Codec, a: nibble)
    requires t.Good() && st.Valid() && i < |pcm| && now == After(st, t.EncodeTrace(st, pcm[..i]))
    ensures now.Valid() && next == t.Encode(now, pcm[i]) && a == t.Nibble(now, pcm[i])
    ensures After(st, t.EncodeTrace(st, pcm[..i + 1])) == next
    ensures t.Nibbles(st, pcm[..i + 1]) == t.Nibbles(st, pcm[..i]) + [a]
  {
    assert pcm[..i + 1] == pcm[..i] + [pcm[i]];
    t.EncodeTraceAppend(st, pcm[..i], pcm[i]);
    t.NibblesAppend(st, pcm[..i], pcm[i]);
    next, a := t.Encode(now, pcm[i]), t.Nibble(now, pcm[i]);
  }

  lemma TwoEncoded(t: Table, st: Codec, pcm: seq<int>, i: nat, now: Codec) returns (next: Codec, a: nibble, b: nibble)
    requires t.Good() && st.Valid() && i + 1 < |pcm| && now == After(st, t.EncodeTrace(st, pcm[..i]))
    ensures now.Valid() && next == t.Encode(t.Encode(now, pcm[i]), pcm[i + 1])
    ensures a == t.Nibble(now, pcm[i]) && b == t.Nibble(t.Encode(now, pcm[i]), pcm[i + 1])
    ensures After(st, t.EncodeTrace(st, pcm[..i + 2])) == next
    ensures t.Nibbles(st, pcm[..i + 2]) == t.Nibbles(st, pcm[..i]) + [a, b]
  {
    var mid;
    mid, a := OneEncoded(t, st, pcm, i, now);
    next, b := OneEncoded(t, st, pcm, i + 1, mid);
  }

  /** What the nibble loop has done after the nibbles ns. */
  ghost predicate Decoded(t: Table, st: Codec, ns: seq<nibble>, out: seq<int>, pos: int, max: int,
                          now: Codec, buf: seq<int>, at: int)
    requires t.Good() && st.Valid() && -1 <= pos && 1 <= max <= |out|
  {
    && now == After(st, t.DecodeTrace(st, ns))
    && (buf, at) == PutAll(out, pos, max, Doubled(Predictors(t.DecodeTrace(st, ns))))
  }

  /** One nibble more makes one value more, written twice. */
  lemma OneMore(t: Table, st: Codec, ns: seq<nibble>, i: nat, buf: seq<int>, pos: int, max: int)
    requires t.Good() && st.Valid() && i < |ns| && -1 <= pos && 1 <= max <= |buf|
    ensures var before, after := t.DecodeTrace(st, ns[..i]), t.DecodeTrace(st, ns[..i + 1]);
            var last, put := After(st, before), PutAll(buf, pos, max, Doubled(Predictors(before)));
            && last.Valid()
            && After(st, after) == t.Advance(last, ns[i])
            && PutAll(buf, pos, max, Doubled(Predictors(after)))
               == PutPair(put.0, put.1, max, t.Advance(last, ns[i]).pre)
  {
    assert ns[..i + 1] == ns[..i] + [ns[i]];
    t.DecodeTraceAppend(st, ns[..i], ns[i]);
    var before, after := t.DecodeTrace(st, ns[..i]), t.DecodeTrace(st, ns[..i + 1]);
    var v := t.Advance(After(st, before), ns[i]).pre;
    assert Predictors(after) == Predictors(before) + [v];
    PutTwo(buf, pos, max, Predictors(before), v);
  }

  function Predictors(trace: seq<Codec>): (r: seq<int>)
    ensures |r| == |trace| && forall k :: 0 <= k < |r| ==> r[k] == trace[k].pre
  {
    seq(|trace|, k requires 0 <= k < |trace| => trace[k].pre)
  }

  lemma PutTwo(buf: seq<int>, pos: int, max: int, vs: seq<int>, v: int)
    requires -1 <= pos && 1 <= max <= |buf|
    ensures var put := PutAll(buf, pos, max, Doubled(vs));
            PutAll(buf, pos, max, Doubled(vs + [v])) == PutPair(put.0, put.1, max, v)
  {
    var d := Doubled(vs);
    assert (vs + [v])[..|vs|] == vs;
    assert Doubled(vs + [v]) == (d + [v]) + [v];
    assert (d + [v])[..|d|] == d && ((d + [v]) + [v])[..|d| + 1] == d + [v];
  }

  /** What the speaker hears of a package: sample k of the encoder's reconstruction, twice, at the
      two places after the 2k before it. */
  lemma DecodedPackageIsInPlace(st: Codec, xs: seq<int>, buf: seq<int>, pos: int, max: int, trace: seq<Codec>)
    requires IMA.Good() && st.Valid() && |xs| % 2 == 0
    requires 0 <= pos < max <= |buf| && 2 * |xs| <= max
    requires trace == IMA.DecodeTrace(st, Unpack(Pack(IMA.Nibbles(st, xs))))
    ensures |trace| == |xs|
    ensures var out := PutAll(buf, pos, max, Doubled(Predictors(trace))).0;
            forall k :: 0 <= k < |xs| ==>
              && out[Place(pos, 2 * k, max)] == IMA.EncodeTrace(st, xs)[k].pre
              && out[Place(pos, 2 * k + 1, max)] == IMA.EncodeTrace(st, xs)[k].pre
  {
    IMA.DecoderFollowsEncoder(st, xs);
    DoubledInPlace(buf, pos, max, Predictors(trace));
  }

  lemma DoubledInPlace(buf: seq<int>, pos: int, max: int, vs: seq<int>)
    requires 0 <= pos < max <= |buf| && 2 * |vs| <= max
    ensures forall k :: 0 <= k < |vs| ==>
              && PutAll(buf, pos, max, Doubled(vs)).0[Place(pos, 2 * k, max)] == vs[k]
              && PutAll(buf, pos, max, Doubled(vs)).0[Place(pos, 2 * k + 1, max)] == vs[k]
  {
    var d := Doubled(vs);
    forall k | 0 <= k < |vs|
      ensures PutAll(buf, pos, max, d).0[Place(pos, 2 * k, max)] == vs[k]
      ensures PutAll(buf, pos, max, d).0[Place(pos, 2 * k + 1, max)] == vs[k]
    {
      PutAllPlace(buf, pos, max, d, 2 * k);
      PutAllPlace(buf, pos, max, d, 2 * k + 1);
    }
  }

  lemma PutAllPlace(buf: seq<int>, pos: int, max: int, ws: seq<int>, k: nat)
    requires 0 <= pos < max <= |buf| && |ws| <= max && k < |ws|
    ensures PutAll(buf, pos, max, ws).0[Place(pos, k, max)] == ws[k]
  {
    PutAllPlaces(buf, pos, max, ws);
  }
}
