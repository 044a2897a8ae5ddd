/** The room price of a stay, from the rate rows of a room's pricing plan
    (calculateRoomPriceByDays and calculateRoomPrice in
    src/routes/reservations.js). Calendar dates are day numbers counted from
    1970-01-01, a Thursday; a rate row is one RoomPricing row of the plan and
    hotel, whose day_of_week is "weekdays" or "weekends". */
module RoomPrice {
  import opened Text

  const Weekdays: string := "weekdays"
  const Weekends: string := "weekends"

  datatype RateRow = RateRow(dayOfWeek: string, price: real)

  /** A room has a pricing plan when its plan id is present and not 0
      (JavaScript truthiness of room_group_room_type_id). */
  predicate HasPlan(planId: Option<int>) {
    planId.Some? && planId.value != 0
  }

  /** `Date.getDay()` of a day number: 0 is Sunday, 6 is Saturday. */
  function DayOfWeek(day: int): (w: int)
    ensures 0 <= w < 7
  {
    (day + 4) % 7
  }

  predicate IsWeekend(day: int) {
    DayOfWeek(day) == 0 || DayOfWeek(day) == 6
  }

  /** The rate classification of a day. */
  function DayType(day: int): (t: string)
    ensures t == Weekends <==> IsWeekend(day)
    ensures t == Weekdays <==> !IsWeekend(day)
  {
    if IsWeekend(day) then Weekends else Weekdays
  }

  // ---------------------------------------------------------------------------
  // The pricing map

  /** The map `pricingMap[row.day_of_week] = row.price` after all rows, in
      order: a later row with the same classification overwrites an earlier one. */
  function PricingMap(rows: seq<RateRow>): (m: map<string, real>)
    ensures m.Keys == set i | 0 <= i < |rows| :: rows[i].dayOfWeek
  {
    if rows == [] then map[]
    else
      var last := rows[|rows| - 1];
      PricingMap(rows[..|rows| - 1])[last.dayOfWeek := last.price]
  }

  /** Filling the pricing map row by row (`pricing.forEach`). */
  method BuildPricingMap(rows: seq<RateRow>) returns (pricingMap: map<string, real>)
    ensures pricingMap == PricingMap(rows)
    ensures forall key :: key in pricingMap <==> exists i :: 0 <= i < |rows| && rows[i].dayOfWeek == key
  {
    pricingMap := map[];
    var i := 0;
    while i < |rows|
      invariant 0 <= i <= |rows|
      invariant pricingMap == PricingMap(rows[..i])
    {
      assert rows[..i + 1][..i] == rows[..i];
      pricingMap := pricingMap[rows[i].dayOfWeek := rows[i].price];
      i := i + 1;
    }
    assert rows[..i] == rows;
    forall key ensures key in pricingMap <==> exists i :: 0 <= i < |rows| && rows[i].dayOfWeek == key {
      PricingMapKeys(rows, key);
    }
  }

  /** A classification is priced exactly when some row carries it. */
  lemma {:induction false} PricingMapKeys(rows: seq<RateRow>, key: string)
    ensures key in PricingMap(rows) <==> exists i :: 0 <= i < |rows| && rows[i].dayOfWeek == key
  {
    if rows != [] {
      var init := rows[..|rows| - 1];
      PricingMapKeys(init, key);
      if key in PricingMap(init) {
        var i :| 0 <= i < |init| && init[i].dayOfWeek == key;
        assert rows[i].dayOfWeek == key;
      }
      if exists i :: 0 <= i < |rows| && rows[i].dayOfWeek == key {
        var i :| 0 <= i < |rows| && rows[i].dayOfWeek == key;
        if i < |init| {
          assert init[i].dayOfWeek == key;
        }
      }
    }
  }

  /** The price of a classification is that of the last row carrying it. */
  lemma {:induction false} PricingMapLastRow(rows: seq<RateRow>, i: nat)
    requires i < |rows|
    requires forall j :: i < j < |rows| ==> rows[j].dayOfWeek != rows[i].dayOfWeek
    ensures rows[i].dayOfWeek in PricingMap(rows)
    ensures PricingMap(rows)[rows[i].dayOfWeek] == rows[i].price
  {
    if i < |rows| - 1 {
      var init := rows[..|rows| - 1];
      PricingMapLastRow(init, i);
    }
  }

  // ---------------------------------------------------------------------------
  // Day-by-day price

  /** The rate of one day: the price of its classification, 0 when unpriced. */
  function DayRate(pricingMap: map<string, real>, day: int): real {
    if DayType(day) in pricingMap then pricingMap[DayType(day)] else 0.0
  }

  /** The sum of the day rates over the days [from, to); 0 when empty or reversed. */
  function StayPrice(pricingMap: map<string, real>, lo: int, hi: int): (p: real)
    ensures hi <= lo ==> p == 0.0
    ensures (forall key :: key in pricingMap ==> pricingMap[key] >= 0.0) ==> p >= 0.0
    decreases hi - lo
  {
    if hi <= lo then 0.0
    else StayPrice(pricingMap, lo, hi - 1) + DayRate(pricingMap, hi - 1)
  }

  /** What calculateRoomPriceByDays returns: 0 without a plan, without either
      date or without rate rows, else the day-by-day sum over the stay. */
  function RoomPriceByDays(planId: Option<int>, checkIn: Option<int>, checkOut: Option<int>,
                           rows: seq<RateRow>): (price: real)
    ensures !HasPlan(planId) || checkIn.None? || checkOut.None? || rows == [] ==> price == 0.0
    ensures checkIn.Some? && checkOut.Some? && checkOut.value <= checkIn.value ==> price == 0.0
  {
    if !HasPlan(planId) || checkIn.None? || checkOut.None? || rows == [] then 0.0
    else StayPrice(PricingMap(rows), checkIn.value, checkOut.value)
  }

  /** The room price of a stay, walking the days from check-in up to (not
      including) check-out and adding each day's rate when it is priced and
      not zero. */
  method CalculateRoomPriceByDays(planId: Option<int>, checkIn: Option<int>, checkOut: Option<int>,
                                  rows: seq<RateRow>) returns (totalPrice: real)
    ensures totalPrice == RoomPriceByDays(planId, checkIn, checkOut, rows)
  {
    if !HasPlan(planId) || checkIn.None? || checkOut.None? {
      return 0.0;
    }
    if |rows| == 0 {
      return 0.0;
    }
    var pricingMap := BuildPricingMap(rows);
    var lo, hi := checkIn.value, checkOut.value;
    totalPrice := 0.0;
    var currentDate := lo;
    while currentDate < hi
      invariant lo <= currentDate
      invariant lo < hi ==> currentDate <= hi
      invariant hi <= lo ==> currentDate == lo
      invariant totalPrice == StayPrice(pricingMap, lo, currentDate)
    {
      var dayOfWeek := DayOfWeek(currentDate);
      var dayType := if dayOfWeek == 0 || dayOfWeek == 6 then Weekends else Weekdays;
      assert dayType == DayType(currentDate);
      if dayType in pricingMap && pricingMap[dayType] != 0.0 {
        totalPrice := totalPrice + pricingMap[dayType];
      }
      assert totalPrice == StayPrice(pricingMap, lo, currentDate) + DayRate(pricingMap, currentDate);
      currentDate := currentDate + 1;
    }
    assert lo < hi ==> currentDate == hi;
  }

  // ---------------------------------------------------------------------------
  // Properties of the day-by-day price

  /** Splitting a stay in two splits its price in two. */
  lemma {:induction false} StayPriceAdditive(pricingMap: map<string, real>, a: int, b: int, c: int)
    requires a <= b <= c
    ensures StayPrice(pricingMap, a, c) == StayPrice(pricingMap, a, b) + StayPrice(pricingMap, b, c)
    decreases c - b
  {
    if b < c {
      StayPriceAdditive(pricingMap, a, b, c - 1);
    }
  }

  /** How many weekend days lie in [from, to). */
  function WeekendDays(lo: int, hi: int): (n: nat)
    decreases hi - lo
  {
    if hi <= lo then 0 else WeekendDays(lo, hi - 1) + (if IsWeekend(hi - 1) then 1 else 0)
  }

  /** The rate a pricing map gives a classification, 0 when unpriced. */
  function RateOf(pricingMap: map<string, real>, key: string): real {
    if key in pricingMap then pricingMap[key] else 0.0
  }

  /** The price of a number of days at one rate. */
  function Times(rate: real, days: int): real {
    rate * (days as real)
  }

  /** One more day at a rate adds the rate once. */
  lemma OneMore(rate: real, days: int)
    ensures Times(rate, days + 1) == Times(rate, days) + rate
  {
  }

  /** The price of a stay is the weekday rate times its weekdays plus the
      weekend rate times its weekend days. */
  lemma {:induction false} StayPriceByClass(pricingMap: map<string, real>, lo: int, hi: int)
    requires lo <= hi
    ensures StayPrice(pricingMap, lo, hi)
         == Times(RateOf(pricingMap, Weekdays), hi - lo - WeekendDays(lo, hi))
          + Times(RateOf(pricingMap, Weekends), WeekendDays(lo, hi))
    decreases hi - lo
  {
    if lo < hi {
      StayPriceByClass(pricingMap, lo, hi - 1);
      var n := WeekendDays(lo, hi - 1);
      if IsWeekend(hi - 1) {
        OneMore(RateOf(pricingMap, Weekends), n);
      } else {
        OneMore(RateOf(pricingMap, Weekdays), hi - 1 - lo - n);
      }
    }
  }

  /** The day after a Saturday is a Sunday; otherwise the day of the week
      goes up by one. */
  lemma NextDay(day: int)
    ensures DayOfWeek(day + 1) == if DayOfWeek(day) == 6 then 0 else DayOfWeek(day) + 1
  {
  }

  /** Any seven consecutive days hold exactly two weekend days. */
  lemma WeekHasTwoWeekendDays(lo: int)
    ensures WeekendDays(lo, lo + 7) == 2
  {
    NextDay(lo);
    NextDay(lo + 1);
    NextDay(lo + 2);
    NextDay(lo + 3);
    NextDay(lo + 4);
    NextDay(lo + 5);
    assert WeekendDays(lo, lo) == 0;
    assert WeekendDays(lo, lo + 1) == WeekendDays(lo, lo) + (if IsWeekend(lo) then 1 else 0);
    assert WeekendDays(lo, lo + 2) == WeekendDays(lo, lo + 1) + (if IsWeekend(lo + 1) then 1 else 0);
    assert WeekendDays(lo, lo + 3) == WeekendDays(lo, lo + 2) + (if IsWeekend(lo + 2) then 1 else 0);
    assert WeekendDays(lo, lo + 4) == WeekendDays(lo, lo + 3) + (if IsWeekend(lo + 3) then 1 else 0);
    assert WeekendDays(lo, lo + 5) == WeekendDays(lo, lo + 4) + (if IsWeekend(lo + 4) then 1 else 0);
    assert WeekendDays(lo, lo + 6) == WeekendDays(lo, lo + 5) + (if IsWeekend(lo + 5) then 1 else 0);
    assert WeekendDays(lo, lo + 7) == WeekendDays(lo, lo + 6) + (if IsWeekend(lo + 6) then 1 else 0);
  }

  /** A full week costs five weekday rates and two weekend rates. */
  lemma FullWeekPrice(pricingMap: map<string, real>, lo: int)
    ensures StayPrice(pricingMap, lo, lo + 7)
         == 5.0 * RateOf(pricingMap, Weekdays) + 2.0 * RateOf(pricingMap, Weekends)
  {
    StayPriceByClass(pricingMap, lo, lo + 7);
    WeekHasTwoWeekendDays(lo);
  }

  /** With no negative rate the price of a stay is not negative. */
  lemma {:induction false} StayPriceNonNegative(pricingMap: map<string, real>, lo: int, hi: int)
    requires forall key :: key in pricingMap ==> pricingMap[key] >= 0.0
    ensures StayPrice(pricingMap, lo, hi) >= 0.0
    decreases hi - lo
  {
    if lo < hi {
      StayPriceNonNegative(pricingMap, lo, hi - 1);
    }
  }

  /** Rows with non-negative prices give a map with non-negative rates. */
  lemma {:induction false} PricingMapNonNegative(rows: seq<RateRow>)
    requires forall i :: 0 <= i < |rows| ==> rows[i].price >= 0.0
    ensures forall key :: key in PricingMap(rows) ==> PricingMap(rows)[key] >= 0.0
  {
    if rows != [] {
      PricingMapNonNegative(rows[..|rows| - 1]);
    }
  }

  // ---------------------------------------------------------------------------
  // The older single-rate price

  /** The price of the first row carrying a classification (`LIMIT 1`). */
  function FirstRate(rows: seq<RateRow>, key: string): (r: Option<real>)
    ensures r.None? <==> forall j :: 0 <= j < |rows| ==> rows[j].dayOfWeek != key
    ensures r.Some? ==> exists i :: 0 <= i < |rows| && rows[i].dayOfWeek == key && rows[i].price == r.value
  {
    if rows == [] then None
    else if rows[0].dayOfWeek == key then Some(rows[0].price)
    else FirstRate(rows[1..], key)
  }

  /** The single base rate: the weekday rate when there is a weekday row,
      else the weekend rate when there is a weekend row, else 0. */
  function LegacyBaseRate(rows: seq<RateRow>): (r: real)
    ensures FirstRate(rows, Weekdays).Some? ==> r == FirstRate(rows, Weekdays).value
    ensures FirstRate(rows, Weekdays).None? && FirstRate(rows, Weekends).Some? ==> r == FirstRate(rows, Weekends).value
    ensures (forall j :: 0 <= j < |rows| ==> rows[j].dayOfWeek != Weekdays && rows[j].dayOfWeek != Weekends) ==> r == 0.0
  {
    match FirstRate(rows, Weekdays)
    case Some(p) => p
    case None =>
      match FirstRate(rows, Weekends)
      case Some(q) => q
      case None => 0.0
  }

  /** What calculateRoomPrice returns: 0 without a plan; the base rate times
      the nights when both dates are given and the base rate is positive;
      else the base rate itself. */
  function LegacyRoomPrice(planId: Option<int>, rows: seq<RateRow>,
                           checkIn: Option<int>, checkOut: Option<int>): (price: real)
    ensures !HasPlan(planId) ==> price == 0.0
    ensures HasPlan(planId) && (checkIn.None? || checkOut.None?) ==> price == LegacyBaseRate(rows)
    ensures HasPlan(planId) && checkIn.Some? && checkOut.Some? ==>
      price == if LegacyBaseRate(rows) > 0.0 then Times(LegacyBaseRate(rows), checkOut.value - checkIn.value)
               else LegacyBaseRate(rows)
  {
    if !HasPlan(planId) then 0.0
    else
      var base := LegacyBaseRate(rows);
      if checkIn.Some? && checkOut.Some? && base > 0.0 then Times(base, checkOut.value - checkIn.value)
      else base
  }

  /** FirstRate finds the row with the lowest index carrying the classification. */
  lemma {:induction false} FirstRateIsFirstRow(rows: seq<RateRow>, key: string, i: nat)
    requires i < |rows| && rows[i].dayOfWeek == key
    requires forall j :: 0 <= j < i ==> rows[j].dayOfWeek != key
    ensures FirstRate(rows, key) == Some(rows[i].price)
  {
    if i > 0 {
      FirstRateIsFirstRow(rows[1..], key, i - 1);
    }
  }

  /** FirstRate finds nothing when no row carries the classification. */
  lemma {:induction false} FirstRateAbsent(rows: seq<RateRow>, key: string)
    requires forall j :: 0 <= j < |rows| ==> rows[j].dayOfWeek != key
    ensures FirstRate(rows, key) == None
  {
    if rows != [] {
      FirstRateAbsent(rows[1..], key);
    }
  }

  /** The older price prefers the weekday row and falls back to the weekend
      row only when there is no weekday row at all. */
  lemma LegacyPrefersWeekdays(rows: seq<RateRow>, i: nat)
    requires i < |rows|
    requires forall j :: 0 <= j < i ==> rows[j].dayOfWeek != rows[i].dayOfWeek
    ensures rows[i].dayOfWeek == Weekdays ==> LegacyBaseRate(rows) == rows[i].price
    ensures rows[i].dayOfWeek == Weekends && (forall j :: 0 <= j < |rows| ==> rows[j].dayOfWeek != Weekdays)
            ==> LegacyBaseRate(rows) == rows[i].price
  {
    FirstRateIsFirstRow(rows, rows[i].dayOfWeek, i);
    if forall j :: 0 <= j < |rows| ==> rows[j].dayOfWeek != Weekdays {
      FirstRateAbsent(rows, Weekdays);
    }
  }

  /** Both variants agree on a stay made of weekdays only, when the plan has
      a single positive weekday rate. */
  lemma {:induction false} LegacyAgreesOnWeekdayStay(planId: Option<int>, rows: seq<RateRow>, i: nat,
                                                     lo: int, hi: int)
    requires HasPlan(planId) && i < |rows|
    requires rows[i].dayOfWeek == Weekdays && rows[i].price > 0.0
    requires forall j :: 0 <= j < |rows| && j != i ==> rows[j].dayOfWeek != Weekdays
    requires lo <= hi
    requires forall d :: lo <= d < hi ==> !IsWeekend(d)
    ensures LegacyRoomPrice(planId, rows, Some(lo), Some(hi)) == RoomPriceByDays(planId, Some(lo), Some(hi), rows)
  {
    LegacyWeekdayPrice(planId, rows, i, lo, hi);
    DayByDayWeekdayPrice(planId, rows, i, lo, hi);
  }

  /** With a single weekday row, the legacy price is that row's rate times the nights. */
  lemma LegacyWeekdayPrice(planId: Option<int>, rows: seq<RateRow>, i: nat, lo: int, hi: int)
    requires HasPlan(planId) && i < |rows|
    requires rows[i].dayOfWeek == Weekdays && rows[i].price > 0.0
    requires forall j :: 0 <= j < |rows| && j != i ==> rows[j].dayOfWeek != Weekdays
    ensures LegacyRoomPrice(planId, rows, Some(lo), Some(hi)) == Times(rows[i].price, hi - lo)
  {
    FirstRateIsFirstRow(rows, Weekdays, i);
  }

  /** With a single weekday row, a weekday-only stay priced day by day costs
      that row's rate times the nights. */
  lemma DayByDayWeekdayPrice(planId: Option<int>, rows: seq<RateRow>, i: nat, lo: int, hi: int)
    requires HasPlan(planId) && i < |rows|
    requires rows[i].dayOfWeek == Weekdays
    requires forall j :: 0 <= j < |rows| && j != i ==> rows[j].dayOfWeek != Weekdays
    requires lo <= hi
    requires forall d :: lo <= d < hi ==> !IsWeekend(d)
    ensures RoomPriceByDays(planId, Some(lo), Some(hi), rows) == Times(rows[i].price, hi - lo)
  {
    PricingMapLastRow(rows, i);
    WeekdayStay(PricingMap(rows), lo, hi);
  }

  /** On a stay of weekdays only, the day-by-day price is the weekday rate
      times the nights. */
  lemma {:induction false} WeekdayStay(pricingMap: map<string, real>, lo: int, hi: int)
    requires lo <= hi
    requires forall d :: lo <= d < hi ==> !IsWeekend(d)
    ensures StayPrice(pricingMap, lo, hi) == Times(RateOf(pricingMap, Weekdays), hi - lo)
    decreases hi - lo
  {
    if lo < hi {
      WeekdayStay(pricingMap, lo, hi - 1);
      OneMore(RateOf(pricingMap, Weekdays), hi - 1 - lo);
    }
  }

  /** The two variants differ on a stay with a weekend day: Friday 1970-01-02
      and Saturday 1970-01-03 at 100 on weekdays and 150 on weekends cost 250
      day by day but 200 at the single weekday rate. */
  lemma LegacyDiffersOnWeekend()
    ensures var rows := [RateRow(Weekdays, 100.0), RateRow(Weekends, 150.0)];
      && RoomPriceByDays(Some(1), Some(1), Some(3), rows) == 250.0
      && LegacyRoomPrice(Some(1), rows, Some(1), Some(3)) == 200.0
  {
    var rows := [RateRow(Weekdays, 100.0), RateRow(Weekends, 150.0)];
    assert IsWeekend(2) && !IsWeekend(1);
    PricingMapLastRow(rows, 0);
    PricingMapLastRow(rows, 1);
    var m := PricingMap(rows);
    assert DayRate(m, 1) == 100.0;
    assert DayRate(m, 2) == 150.0;
    assert StayPrice(m, 1, 3) == StayPrice(m, 1, 2) + DayRate(m, 2);
    assert FirstRate(rows, Weekdays) == Some(100.0);
  }

  /** The older variant multiplies a positive base rate by a negative number
      of nights when the check-out date comes before the check-in date, where
      the day-by-day price is 0. */
  lemma LegacyReversedStay(planId: Option<int>, rows: seq<RateRow>, lo: int, hi: int)
    requires HasPlan(planId) && LegacyBaseRate(rows) > 0.0 && hi < lo
    ensures LegacyRoomPrice(planId, rows, Some(lo), Some(hi)) < 0.0
    ensures RoomPriceByDays(planId, Some(lo), Some(hi), rows) == 0.0
  {
  }
}
