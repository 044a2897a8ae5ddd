/** Early check-in and late check-out charges (calculateCheckInOutCharges in
    src/routes/reservations.js): a requested clock time "HH:MM[:SS]" is read
    as an hour of day h + m/60 and, by band, costs nothing, half or all of the
    per-night base room price. */
module CheckInOut {
  import opened Text

  /** `time.split(':').map(Number)` destructured as `[hours, minutes]`, then
      `hours + minutes / 60`; None where JavaScript would compute NaN
      (a missing minutes field or a field that is not a number). */
  function HourOfDay(time: string): (r: Option<real>)
    ensures r.Some? ==> r.value >= 0.0
  {
    var fields := Split(time, ':');
    if |fields| < 2 then None
    else
      match (NumberField(fields[0]), NumberField(fields[1]))
      case (Some(h), Some(m)) => Some(h as real + m as real / 60.0)
      case _ => None
  }

  /** The hour of a clock time: none when no time is given (undefined or
      empty), when it has no colon, or when its fields do not parse. */
  function RequestedHour(time: Option<string>): (r: Option<real>)
    ensures time.None? || time.value == "" ==> r.None?
    ensures time.Some? && ':' !in time.value ==> r.None?
    ensures r.Some? ==> r == HourOfDay(time.value) && r.value >= 0.0
  {
    if time.None? || time.value == "" then None
    else if ':' in time.value then HourOfDay(time.value)
    else SplitNoSep(time.value, ':'); HourOfDay(time.value)
  }

  /** Early check-in: half the base price for an hour in [6, 12), nothing
      otherwise, and nothing at all when the base price is not positive. */
  function EarlyCheckInCharge(hour: Option<real>, base: real): (r: real)
    ensures r >= 0.0
    ensures r == 0.0 || r == base / 2.0
    ensures r > 0.0 <==> base > 0.0 && hour.Some? && 6.0 <= hour.value < 12.0
  {
    if base > 0.0 && hour.Some? && hour.value >= 6.0 && hour.value < 12.0 then base * 0.5
    else 0.0
  }

  /** Late check-out: half the base price for an hour in [11, 18), the whole
      base price from 18 on, nothing before 11 or when the base price is not
      positive. */
  function LateCheckOutCharge(hour: Option<real>, base: real): (r: real)
    ensures r >= 0.0
    ensures r == 0.0 || r == base / 2.0 || r == base
    ensures r == base / 2.0 && r > 0.0 <==> base > 0.0 && hour.Some? && 11.0 <= hour.value < 18.0
    ensures r == base && r > 0.0 <==> base > 0.0 && hour.Some? && hour.value >= 18.0
    ensures r == 0.0 <==> base <= 0.0 || hour.None? || hour.value < 11.0
  {
    if base > 0.0 && hour.Some? then
      if hour.value >= 11.0 && hour.value < 18.0 then base * 0.5
      else if hour.value >= 18.0 then base
      else 0.0
    else 0.0
  }

  datatype Charges = Charges(earlyCheckIn: real, lateCheckOut: real)

  /** Both charges for the requested times and a per-night base price. */
  function CheckInOutCharges(checkInTime: Option<string>, checkOutTime: Option<string>, base: real): (c: Charges)
    ensures c.earlyCheckIn >= 0.0 && c.lateCheckOut >= 0.0
    ensures base <= 0.0 ==> c == Charges(0.0, 0.0)
    ensures c.earlyCheckIn + c.lateCheckOut <= if base > 0.0 then 1.5 * base else 0.0
    ensures checkInTime.None? || checkInTime.value == "" ==> c.earlyCheckIn == 0.0
    ensures checkOutTime.None? || checkOutTime.value == "" ==> c.lateCheckOut == 0.0
  {
    Charges(EarlyCheckInCharge(RequestedHour(checkInTime), base),
            LateCheckOutCharge(RequestedHour(checkOutTime), base))
  }

  // ---------------------------------------------------------------------------
  // Properties

  /** The later the check-out, the larger (or equal) the charge. */
  lemma LateChargeMonotone(h1: real, h2: real, base: real)
    requires h1 <= h2
    ensures LateCheckOutCharge(Some(h1), base) <= LateCheckOutCharge(Some(h2), base)
  {
  }

  /** A clock time "HH:MM", optionally followed by ":SS", as the routes receive it. */
  function ClockText(hh: string, mm: string, ss: Option<string>): string {
    hh + [':'] + mm + (if ss.Some? then [':'] + ss.value else "")
  }

  /** Two colon-free fields that read as numbers h and m give the hour h + m/60,
      whatever follows a second colon. */
  lemma ReadClockFields(hh: string, mm: string, ss: Option<string>, h: nat, m: nat)
    requires ':' !in hh && ':' !in mm
    requires NumberField(hh) == Some(h) && NumberField(mm) == Some(m)
    ensures HourOfDay(ClockText(hh, mm, ss)) == Some(h as real + m as real / 60.0)
  {
    var tail := if ss.Some? then [':'] + ss.value else "";
    assert ClockText(hh, mm, ss) == hh + [':'] + (mm + tail);
    SplitAround(hh, ':', mm + tail);
    if ss.Some? {
      assert mm + tail == mm + [':'] + ss.value;
      SplitAround(mm, ':', ss.value);
    } else {
      assert mm + tail == mm;
      SplitNoSep(mm, ':');
    }
  }

  /** A clock time written as digits "H:M", optionally followed by ":" and
      seconds (or anything else), is read as H + M/60. */
  lemma ReadClock(h: nat, m: nat, rest: Option<string>)
    ensures HourOfDay(ClockText(ShowNat(h), ShowNat(m), rest)) == Some(h as real + m as real / 60.0)
  {
    var hs, ms := ShowNat(h), ShowNat(m);
    assert ':' !in hs by { assert forall k :: 0 <= k < |hs| ==> IsDigit(hs[k]); }
    assert ':' !in ms by { assert forall k :: 0 <= k < |ms| ==> IsDigit(ms[k]); }
    ParseShowNat(h);
    ParseShowNat(m);
    ReadClockFields(hs, ms, rest, h, m);
  }

  /** The value of a two-digit clock field such as "06" or "59". */
  function TwoDigits(s: string): nat
    requires |s| == 2 && AllDigits(s)
  {
    10 * ((s[0] as int) - ('0' as int)) + ((s[1] as int) - ('0' as int))
  }

  lemma ReadTwoDigits(s: string)
    requires |s| == 2 && AllDigits(s)
    ensures NumberField(s) == Some(TwoDigits(s))
  {
    assert s[..1][..0] == [];
    assert DigitsValue(s[..1]) == (s[0] as int) - ('0' as int);
    DigitsHaveNoSpace(s);
  }

  /** "HH:MM" and "HH:MM:SS" with two-digit fields read as HH + MM/60. */
  lemma ReadPaddedClock(hh: string, mm: string, ss: Option<string>)
    requires |hh| == 2 && AllDigits(hh) && |mm| == 2 && AllDigits(mm)
    ensures HourOfDay(ClockText(hh, mm, ss)) == Some(TwoDigits(hh) as real + TwoDigits(mm) as real / 60.0)
  {
    assert ':' !in hh by { assert forall k :: 0 <= k < |hh| ==> IsDigit(hh[k]); }
    assert ':' !in mm by { assert forall k :: 0 <= k < |mm| ==> IsDigit(mm[k]); }
    ReadTwoDigits(hh);
    ReadTwoDigits(mm);
    ReadClockFields(hh, mm, ss, TwoDigits(hh), TwoDigits(mm));
  }

  /** Early check-in by clock time: half the base from 06:00 (inclusive) up
      to 12:00 (exclusive), counted in minutes since midnight, nothing else. */
  lemma EarlyCheckInByClock(hh: string, mm: string, ss: Option<string>, base: real)
    requires |hh| == 2 && AllDigits(hh) && |mm| == 2 && AllDigits(mm)
    requires base > 0.0
    ensures var minutes := 60 * TwoDigits(hh) + TwoDigits(mm);
      CheckInOutCharges(Some(ClockText(hh, mm, ss)), None, base).earlyCheckIn
        == if 6 * 60 <= minutes < 12 * 60 then base / 2.0 else 0.0
  {
    ReadPaddedClock(hh, mm, ss);
  }

  /** Late check-out by clock time: nothing before 11:00, half the base from
      11:00 up to 18:00 (exclusive), the whole base from 18:00 on. */
  lemma LateCheckOutByClock(hh: string, mm: string, ss: Option<string>, base: real)
    requires |hh| == 2 && AllDigits(hh) && |mm| == 2 && AllDigits(mm)
    requires base > 0.0
    ensures var minutes := 60 * TwoDigits(hh) + TwoDigits(mm);
      CheckInOutCharges(None, Some(ClockText(hh, mm, ss)), base).lateCheckOut
        == if minutes < 11 * 60 then 0.0
           else if minutes < 18 * 60 then base / 2.0
           else base
  {
    ReadPaddedClock(hh, mm, ss);
  }

  /** The default check-out time of a new reservation, "11:00:00", already
      pays the half late check-out charge. */
  lemma DefaultCheckOutPaysHalf(base: real)
    requires base > 0.0
    ensures CheckInOutCharges(None, Some("11:00:00"), base).lateCheckOut == base / 2.0
  {
    ReadPaddedClock("11", "00", Some("00"));
    assert ClockText("11", "00", Some("00")) == "11:00:00";
  }

  /** The default check-in time of a new reservation, "14:00:00", pays no
      early check-in charge. */
  lemma DefaultCheckInPaysNothing(base: real)
    ensures CheckInOutCharges(Some("14:00:00"), None, base).earlyCheckIn == 0.0
  {
    ReadPaddedClock("14", "00", Some("00"));
    assert ClockText("14", "00", Some("00")) == "14:00:00";
  }

  /** Together: the default times of a new reservation cost half the base. */
  lemma DefaultTimesCharges(base: real)
    requires base > 0.0
    ensures CheckInOutCharges(Some("14:00:00"), Some("11:00:00"), base) == Charges(0.0, base / 2.0)
  {
    DefaultCheckOutPaysHalf(base);
    DefaultCheckInPaysNothing(base);
  }
}
