/** Fixed-point time of NTP/NTP.c: microseconds to 32-bit fractions and back, the difference of two
  timestamps, and the SNTP offset and delay (section 5 of RFC 4330) computed from four of them.
 */
module NtpTime {
  import Modular

  const ERA: int := 0x1_0000_0000
  const MILLION: int := 1000000

  function U32(x: int): int {
    x % ERA
  }

  /** The conversion of an unsigned 32-bit value to a signed one. */
  function S32(x: int): int {
    if U32(x) < ERA / 2 then U32(x) else U32(x) - ERA
  }

  /** NTPFRAC, as stored in an unsigned 32-bit fraction. */
  function NtpFrac(usec: int): int {
    U32(4294 * usec + (1981 * usec) / 2048)
  }

  /** USEC of an unsigned 32-bit fraction. */
  function Usec(fine: int): int {
    U32(fine / 4096 - 759 * ((fine / 1024 + 32768) / 65536))
  }

  /** NTPFRAC never wraps, is never above the exact fraction usec * 2^32 / 10^6, and is less than
      12 units below it. */
  lemma FractionIsClose(usec: int)
    requires 0 <= usec < MILLION
    ensures NtpFrac(usec) == 4294 * usec + (1981 * usec) / 2048
    ensures NtpFrac(usec) * MILLION <= usec * ERA < (NtpFrac(usec) + 12) * MILLION
  {
    var q := (1981 * usec) / 2048;
    assert 2048 * q <= 1981 * usec < 2048 * q + 2048;
  }

  /** USEC is a legal microsecond count, less than 380.5 below and 379.5 above the exact value
      fine * 10^6 / 2^32. */
  lemma MicrosecondsAreClose(fine: int)
    requires 0 <= fine < ERA
    ensures 0 <= Usec(fine) < MILLION
    ensures -761 * ERA < 2 * (Usec(fine) * ERA - fine * MILLION) < 759 * ERA
  {
    var m := fine / 1024;
    var k := (m + 32768) / 65536;
    var q := fine / 4096;
    assert 65536 * k <= m + 32768 < 65536 * k + 65536;
    assert 1024 * m <= fine < 1024 * m + 1024;
    assert 4096 * q <= fine < 4096 * q + 4096;
    assert 0 <= k <= 64;
    assert 0 <= q - 759 * k < MILLION;
  }

  /** There and back: off by at most 380 microseconds. */
  lemma RoundTrip(usec: int)
    requires 0 <= usec < MILLION
    ensures -380 <= Usec(NtpFrac(usec)) - usec <= 380
  {
    FractionIsClose(usec);
    MicrosecondsAreClose(NtpFrac(usec));
  }

  /** The source calls USEC "basically exact", but it is not even monotone: it goes back, always by
      758, exactly at every fraction that is 2^25 modulo 2^26, and otherwise steps by at most one. */
  lemma MicrosecondsGoBack(fine: int)
    requires 0 <= fine < ERA - 1
    ensures Usec(fine + 1) < Usec(fine) <==> (fine + 1) % 0x400_0000 == 0x200_0000
    ensures Usec(fine + 1) < Usec(fine) ==> Usec(fine + 1) == Usec(fine) - 758
    ensures Usec(fine) <= Usec(fine + 1) ==> Usec(fine + 1) <= Usec(fine) + 1
  {
    MicrosecondsAreClose(fine);
    MicrosecondsAreClose(fine + 1);
    Correction(fine);
    Correction(fine + 1);
    var r := (fine + 1) % 0x400_0000;
    var q := (fine + 1) / 0x400_0000;
    assert fine + 1 == 0x400_0000 * q + r;
    CorrectionSteps(fine + 1, q, r);
  }

  /** How often 759 is taken off, in one division. */
  function Corrections(fine: int): int {
    (fine + 0x200_0000) / 0x400_0000
  }

  lemma Correction(fine: int)
    requires 0 <= fine < ERA
    ensures Usec(fine) == fine / 4096 - 759 * Corrections(fine)
  {
    MicrosecondsAreClose(fine);
    assert (fine / 1024 + 32768) / 65536 == Corrections(fine);
    assert 0 <= Corrections(fine) <= 64;
  }

  lemma CorrectionSteps(next: int, q: int, r: int)
    requires 0 < next && 0 <= r < 0x400_0000 && next == 0x400_0000 * q + r
    ensures Corrections(next) == if r < 0x200_0000 then q else q + 1
    ensures Corrections(next - 1) == if r <= 0x200_0000 then q else q + 1
    ensures r == 0x200_0000 ==> next / 4096 == (next - 1) / 4096 + 1
  {
  }

  // ---------- differences ----------

  datatype NtpTime = NtpTime(coarse: int, fine: int) {
    predicate Valid() {
      0 <= coarse < ERA && 0 <= fine < ERA
    }
  }

  /** The timestamp of a time counted in units of 2^-32 s, without the wrap of the era. */
  function Stamp(t: int): (s: NtpTime)
    ensures s.Valid()
  {
    NtpTime((t / ERA) % ERA, t % ERA)
  }

  /** The two integers ntpdiff computes: whole seconds, and a fraction that is complemented, not
      negated, when the subtraction borrows. */
  function Parts(start: NtpTime, stop: NtpTime): (int, int) {
    var a := S32(stop.coarse - start.coarse);
    if stop.fine >= start.fine then (a, stop.fine - start.fine)
    else (a - 1, ERA - 1 - (start.fine - stop.fine))
  }

  /** ntpdiff, in microseconds. */
  function NtpDiff(start: NtpTime, stop: NtpTime): real {
    var (a, b) := Parts(start, stop);
    a as real * 1000000.0 + b as real * (1000000.0 / 4294967296.0)
  }

  predicate Borrows(start: int, stop: int) {
    stop % ERA < start % ERA
  }

  function Units(start: int, stop: int): int {
    stop - start - if Borrows(start, stop) then 1 else 0
  }

  function InMicroseconds(units: int): real {
    units as real * 1000000.0 / 4294967296.0
  }

  lemma SecondsDifference(start: int, stop: int)
    requires -ERA / 2 <= stop / ERA - start / ERA < ERA / 2
    ensures S32(stop / ERA % ERA - start / ERA % ERA) == stop / ERA - start / ERA
  {
    var x, y := stop / ERA, start / ERA;
    var d := x - y;
    assert x == x / ERA * ERA + x % ERA && y == y / ERA * ERA + y % ERA;
    var k := x / ERA - y / ERA;
    assert x % ERA - y % ERA == d + (-k) * ERA;
    Modular.ModAdd(d, ERA, -k);
    if d >= 0 {
      Modular.ModSmall(d, ERA);
    } else {
      Modular.ModAdd(d, ERA, 1);
      Modular.ModSmall(d + ERA, ERA);
    }
  }

  /** ntpdiff is the true difference, whatever eras the two times lie in, or one unit of 2^-32 s
      less when the fractions borrow, for times whose seconds differ by less than half an era. */
  lemma DifferenceIsTrue(start: int, stop: int)
    requires -ERA / 2 <= stop / ERA - start / ERA < ERA / 2
    ensures NtpDiff(Stamp(start), Stamp(stop)) == InMicroseconds(Units(start, stop))
  {
    SecondsDifference(start, stop);
    var (a, b) := Parts(Stamp(start), Stamp(stop));
    assert stop == stop / ERA * ERA + stop % ERA && start == start / ERA * ERA + start % ERA;
    assert a * ERA + b == Units(start, stop);
    assert (a * ERA + b) as real == a as real * 4294967296.0 + b as real;
  }

  // ---------- offset and delay ----------

  /** One exchange: the client sends at its time `sent`; the request takes `there`, the server holds
      it for `stall` and the answer takes `back`.  The server's clock is `theta` ahead. */
  datatype Exchange = Exchange(sent: int, theta: int, there: int, stall: int, back: int) {
    function Received(): int {
      sent + there + theta
    }

    function Transmitted(): int {
      Received() + stall
    }

    function Arrived(): int {
      Transmitted() - theta + back
    }

    /** The four differences are taken between times less than half an era of seconds apart. */
    predicate Close() {
      && Near(sent, Received()) && Near(Transmitted(), Arrived())
      && Near(sent, Arrived()) && Near(Received(), Transmitted())
    }
  }

  predicate Near(a: int, b: int) {
    -ERA / 2 <= b / ERA - a / ERA < ERA / 2
  }

  /** The computed offset, (skew1 - skew2) / 2, in microseconds. */
  function Offset(org: NtpTime, rec: NtpTime, xmt: NtpTime, arrival: NtpTime): real {
    (NtpDiff(org, rec) - NtpDiff(xmt, arrival)) / 2.0
  }

  /** The computed slop: total elapsed time less the server's stall. */
  function Slop(org: NtpTime, rec: NtpTime, xmt: NtpTime, arrival: NtpTime): real {
    NtpDiff(org, arrival) - NtpDiff(rec, xmt)
  }

  /** The bound SNTP rests on: with non-negative one-way delays the computed offset differs from
      the server's true offset by at most half the slop, plus one unit of 2^-32 s for borrows. */
  lemma OffsetWithinHalfSlop(e: Exchange)
    requires e.Close() && 0 <= e.there && 0 <= e.back
    ensures var org, rec, xmt, arr := Stamp(e.sent), Stamp(e.Received()), Stamp(e.Transmitted()), Stamp(e.Arrived());
            var bound := Slop(org, rec, xmt, arr) / 2.0 + InMicroseconds(1);
            -bound <= Offset(org, rec, xmt, arr) - InMicroseconds(e.theta) <= bound
  {
    DifferenceIsTrue(e.sent, e.Received());
    DifferenceIsTrue(e.Transmitted(), e.Arrived());
    DifferenceIsTrue(e.sent, e.Arrived());
    DifferenceIsTrue(e.Received(), e.Transmitted());
    var skew1, skew2 := Units(e.sent, e.Received()), Units(e.Transmitted(), e.Arrived());
    var slop := Units(e.sent, e.Arrived()) - Units(e.Received(), e.Transmitted());
    assert -(slop + 2) <= skew1 - skew2 - 2 * e.theta <= slop + 2;
    Scale(skew1 - skew2 - 2 * e.theta, slop + 2);
    Scale(-(slop + 2), skew1 - skew2 - 2 * e.theta);
  }

  lemma Scale(a: int, b: int)
    requires a <= b
    ensures InMicroseconds(a) <= InMicroseconds(b)
  {
  }

  /** The computed slop is the time the exchange spent on the way, to one unit of 2^-32 s. */
  lemma SlopIsTimeOnTheWay(e: Exchange)
    requires e.Close()
    ensures var org, rec, xmt, arr := Stamp(e.sent), Stamp(e.Received()), Stamp(e.Transmitted()), Stamp(e.Arrived());
            -InMicroseconds(1) <= Slop(org, rec, xmt, arr) - InMicroseconds(e.there + e.back) <= InMicroseconds(1)
  {
    DifferenceIsTrue(e.sent, e.Arrived());
    DifferenceIsTrue(e.Received(), e.Transmitted());
    var slop := Units(e.sent, e.Arrived()) - Units(e.Received(), e.Transmitted());
    assert -1 <= slop - (e.there + e.back) <= 1;
    Scale(slop - (e.there + e.back), 1);
    Scale(-1, slop - (e.there + e.back));
  }
}
