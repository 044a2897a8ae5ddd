/** The total price of a reservation, as computed when a reservation is
    created (POST /) and when it is updated (PUT /:id) in
    src/routes/reservations.js: the room price of the stay, plus the
    children's surcharges, plus the early check-in and late check-out charges
    on the per-night room price. The rate rows are those of the room's plan
    and hotel, as the database returns them. */
module ReservationTotal {
  import opened Text
  import opened ChildrenPricing
  import opened CheckInOut
  import opened RoomPrice

  /** The room of a reservation: its hotel and its pricing plan id
      (room_group_room_type_id), which may be missing. */
  datatype Room = Room(hotel: string, planId: Option<int>)

  /** What a create or update request says about the stay. Dates are day
      numbers; the times and the ages text may be absent. */
  datatype StayRequest = StayRequest(checkInDate: int, checkOutDate: int,
                                     checkInTime: Option<string>, checkOutTime: Option<string>,
                                     childrenAges: Option<string>)

  /** Every figure of the price calculation. */
  datatype Quote = Quote(nights: int, roomPrice: real, bedPrice: int, breakfastPrice: int,
                         earlyCheckIn: real, lateCheckOut: real, totalPrice: real)

  /** The outcome of a request: the reservation to update does not exist,
      the room does not exist, or the price. */
  datatype Outcome = ReservationNotFound | RoomNotFound | Priced(quote: Quote)

  /** The create handler's default times, used when the request gives none. */
  const DefaultCheckInTime: string := "14:00:00"
  const DefaultCheckOutTime: string := "11:00:00"

  /** A time given in the request, or the default when it is absent (a
      destructuring default, which applies to an undefined value only). */
  function OrDefault(time: Option<string>, default: string): (r: Option<string>)
    ensures r.Some?
    ensures time.Some? ==> r == time
    ensures time.None? ==> r.value == default
  {
    if time.Some? then time else Some(default)
  }

  /** The room price per night that the check-in and check-out charges are
      based on: the room price spread evenly over the nights, 0 without nights. */
  function PerNightBase(roomPrice: real, nights: int): (base: real)
    ensures nights > 0 ==> base * (nights as real) == roomPrice
    ensures nights <= 0 ==> base == 0.0
    ensures nights > 0 && roomPrice >= 0.0 ==> 0.0 <= base <= roomPrice
    ensures nights > 0 && roomPrice > 0.0 ==> base > 0.0
  {
    if nights > 0 then roomPrice / (nights as real) else 0.0
  }

  /** The part both handlers share once the nights and the room price are
      known: the children's surcharges over the nights and the time charges
      on the per-night base, all added to the room price. */
  function Assemble(nights: int, roomPrice: real, childrenAges: Option<string>,
                    checkInTime: Option<string>, checkOutTime: Option<string>): (q: Quote)
    ensures q.nights == nights && q.roomPrice == roomPrice
    ensures q.totalPrice == q.roomPrice + (q.bedPrice + q.breakfastPrice) as real + q.earlyCheckIn + q.lateCheckOut
    ensures q.bedPrice >= 0 && q.breakfastPrice >= 0 && q.earlyCheckIn >= 0.0 && q.lateCheckOut >= 0.0
    ensures nights <= 0 ==> q.bedPrice == 0 && q.breakfastPrice == 0 && q.earlyCheckIn == 0.0 && q.lateCheckOut == 0.0
    ensures q.bedPrice == ChildrenSurcharge(childrenAges, nights).bedPrice
    ensures q.breakfastPrice == ChildrenSurcharge(childrenAges, nights).breakfastPrice
    ensures q.earlyCheckIn == EarlyCheckInCharge(RequestedHour(checkInTime), PerNightBase(roomPrice, nights))
    ensures q.lateCheckOut == LateCheckOutCharge(RequestedHour(checkOutTime), PerNightBase(roomPrice, nights))
  {
    var children := ChildrenSurcharge(childrenAges, nights);
    var charges := CheckInOutCharges(checkInTime, checkOutTime, PerNightBase(roomPrice, nights));
    Quote(nights, roomPrice, children.bedPrice, children.breakfastPrice,
          charges.earlyCheckIn, charges.lateCheckOut,
          roomPrice + (children.bedPrice + children.breakfastPrice) as real
          + (charges.earlyCheckIn + charges.lateCheckOut))
  }

  /** The price of a new reservation. Without a pricing plan the nights stay 0,
      so no children's surcharge and no time charges apply; with one, the room
      is priced day by day when the stay has nights. Absent times take the
      defaults 14:00:00 and 11:00:00. */
  function CreateQuote(planId: Option<int>, rows: seq<RateRow>, req: StayRequest): (q: Quote)
    ensures q.totalPrice == q.roomPrice + (q.bedPrice + q.breakfastPrice) as real + q.earlyCheckIn + q.lateCheckOut
    ensures q.roomPrice == RoomPriceByDays(planId, Some(req.checkInDate), Some(req.checkOutDate), rows)
    ensures q.nights == if HasPlan(planId) then req.checkOutDate - req.checkInDate else 0
    ensures !HasPlan(planId) ==> q.totalPrice == 0.0
    ensures req.checkOutDate <= req.checkInDate ==> q.totalPrice == 0.0
    ensures q == Assemble(q.nights, q.roomPrice, req.childrenAges,
                          OrDefault(req.checkInTime, DefaultCheckInTime), OrDefault(req.checkOutTime, DefaultCheckOutTime))
  {
    var nights := if HasPlan(planId) then req.checkOutDate - req.checkInDate else 0;
    var roomPrice := if HasPlan(planId) && nights > 0
      then RoomPriceByDays(planId, Some(req.checkInDate), Some(req.checkOutDate), rows)
      else 0.0;
    var checkInTime := OrDefault(req.checkInTime, DefaultCheckInTime);
    var checkOutTime := OrDefault(req.checkOutTime, DefaultCheckOutTime);
    Assemble(nights, roomPrice, req.childrenAges, checkInTime, checkOutTime)
  }

  /** The price of an updated reservation. The room is always priced day by
      day and the nights are always counted, with or without a pricing plan;
      absent times have no default. */
  function UpdateQuote(planId: Option<int>, rows: seq<RateRow>, req: StayRequest): (q: Quote)
    ensures q.totalPrice == q.roomPrice + (q.bedPrice + q.breakfastPrice) as real + q.earlyCheckIn + q.lateCheckOut
    ensures q.roomPrice == RoomPriceByDays(planId, Some(req.checkInDate), Some(req.checkOutDate), rows)
    ensures q.nights == req.checkOutDate - req.checkInDate
    ensures !HasPlan(planId) ==> q.roomPrice == 0.0 && q.earlyCheckIn == 0.0 && q.lateCheckOut == 0.0
                                 && q.totalPrice == (q.bedPrice + q.breakfastPrice) as real
    ensures req.checkOutDate <= req.checkInDate ==> q.totalPrice == 0.0
    ensures q == Assemble(q.nights, q.roomPrice, req.childrenAges, req.checkInTime, req.checkOutTime)
  {
    var roomPrice := RoomPriceByDays(planId, Some(req.checkInDate), Some(req.checkOutDate), rows);
    Assemble(req.checkOutDate - req.checkInDate, roomPrice, req.childrenAges, req.checkInTime, req.checkOutTime)
  }

  /** The create handler's answer: the room must exist. */
  function CreateOutcome(room: Option<Room>, rows: seq<RateRow>, req: StayRequest): (o: Outcome)
    ensures o.RoomNotFound? <==> room.None?
    ensures o.Priced? <==> room.Some?
    ensures o.Priced? ==> o.quote == CreateQuote(room.value.planId, rows, req)
  {
    if room.None? then RoomNotFound else Priced(CreateQuote(room.value.planId, rows, req))
  }

  /** The update handler's answer: the reservation must exist, then the room. */
  function UpdateOutcome(reservationExists: bool, room: Option<Room>, rows: seq<RateRow>,
                         req: StayRequest): (o: Outcome)
    ensures o.ReservationNotFound? <==> !reservationExists
    ensures o.RoomNotFound? <==> reservationExists && room.None?
    ensures o.Priced? <==> reservationExists && room.Some?
    ensures o.Priced? ==> o.quote == UpdateQuote(room.value.planId, rows, req)
  {
    if !reservationExists then ReservationNotFound
    else if room.None? then RoomNotFound
    else Priced(UpdateQuote(room.value.planId, rows, req))
  }

  // ---------------------------------------------------------------------------
  // The handlers' computations

  /** The calculation both handlers share once the nights and the room
      price are known: the children's surcharges, the per-night base, the
      time charges on it, and the sum. */
  method PriceStay(nights: int, roomPrice: real, childrenAges: Option<string>,
                   checkInTime: Option<string>, checkOutTime: Option<string>) returns (q: Quote)
    ensures q == Assemble(nights, roomPrice, childrenAges, checkInTime, checkOutTime)
  {
    var childrenPricing := CalculateChildrenPricing(childrenAges, nights);
    var childrenTotal := childrenPricing.bedPrice + childrenPricing.breakfastPrice;
    var baseRoomPricePerNight := PerNightBase(roomPrice, nights);
    var charges := CheckInOutCharges(checkInTime, checkOutTime, baseRoomPricePerNight);
    var checkInOutTotal := charges.earlyCheckIn + charges.lateCheckOut;
    q := Quote(nights, roomPrice, childrenPricing.bedPrice, childrenPricing.breakfastPrice,
               charges.earlyCheckIn, charges.lateCheckOut,
               roomPrice + childrenTotal as real + checkInOutTotal);
  }

  /** The create handler's price calculation: the times take their defaults,
      the nights are counted and the room priced only with a pricing plan. */
  method PriceOnCreate(room: Room, rows: seq<RateRow>, req: StayRequest) returns (q: Quote)
    ensures q == CreateQuote(room.planId, rows, req)
  {
    var checkInTime := OrDefault(req.checkInTime, DefaultCheckInTime);
    var checkOutTime := OrDefault(req.checkOutTime, DefaultCheckOutTime);
    var roomPrice := 0.0;
    var nights := 0;
    if HasPlan(room.planId) {
      nights := req.checkOutDate - req.checkInDate;
      if nights > 0 {
        roomPrice := CalculateRoomPriceByDays(room.planId, Some(req.checkInDate), Some(req.checkOutDate), rows);
      }
    }
    q := PriceStay(nights, roomPrice, req.childrenAges, checkInTime, checkOutTime);
  }

  /** The update handler's price calculation: the room is priced and the
      nights counted whatever the plan, and the times are taken as given. */
  method PriceOnUpdate(room: Room, rows: seq<RateRow>, req: StayRequest) returns (q: Quote)
    ensures q == UpdateQuote(room.planId, rows, req)
  {
    var roomPrice := CalculateRoomPriceByDays(room.planId, Some(req.checkInDate), Some(req.checkOutDate), rows);
    var nights := req.checkOutDate - req.checkInDate;
    q := PriceStay(nights, roomPrice, req.childrenAges, req.checkInTime, req.checkOutTime);
  }

  // ---------------------------------------------------------------------------
  // Properties

  /** With no negative rate, no price is negative. */
  lemma TotalNonNegative(planId: Option<int>, rows: seq<RateRow>, req: StayRequest)
    requires forall i :: 0 <= i < |rows| ==> rows[i].price >= 0.0
    ensures CreateQuote(planId, rows, req).totalPrice >= 0.0
    ensures UpdateQuote(planId, rows, req).totalPrice >= 0.0
  {
    PricingMapNonNegative(rows);
    StayPriceNonNegative(PricingMap(rows), req.checkInDate, req.checkOutDate);
  }

  /** For a room with a pricing plan and a request that gives both times,
      creating and updating compute the same price. */
  lemma CreateMatchesUpdate(planId: Option<int>, rows: seq<RateRow>, req: StayRequest)
    requires HasPlan(planId)
    requires req.checkInTime.Some? && req.checkOutTime.Some?
    ensures CreateQuote(planId, rows, req) == UpdateQuote(planId, rows, req)
  {
  }

  /** A new reservation that gives no times is charged the half late
      check-out (the 11:00:00 default) and no early check-in (the 14:00:00
      default), whenever the room costs something: half of the per-night
      base, never nothing. */
  lemma CreateWithoutTimes(planId: Option<int>, rows: seq<RateRow>, req: StayRequest)
    requires req.checkInTime.None? && req.checkOutTime.None?
    requires CreateQuote(planId, rows, req).roomPrice > 0.0
    ensures var q := CreateQuote(planId, rows, req);
      && q.nights > 0
      && q.earlyCheckIn == 0.0
      && q.lateCheckOut == PerNightBase(q.roomPrice, q.nights) / 2.0
      && q.lateCheckOut > 0.0
  {
    var q := CreateQuote(planId, rows, req);
    assert q.nights > 0;
    DefaultTimesCharges(PerNightBase(q.roomPrice, q.nights));
    CreateQuoteWithoutTimes(planId, rows, req);
  }

  /** Without times, a new reservation is priced at the default times. */
  lemma CreateQuoteWithoutTimes(planId: Option<int>, rows: seq<RateRow>, req: StayRequest)
    requires req.checkInTime.None? && req.checkOutTime.None?
    ensures var q := CreateQuote(planId, rows, req);
      q == Assemble(q.nights, q.roomPrice, req.childrenAges, Some(DefaultCheckInTime), Some(DefaultCheckOutTime))
  {
  }

  /** For a room without a pricing plan, a new reservation costs nothing but
      the same reservation, once updated, pays the children's surcharges:
      one child of 10 over two nights costs 0 on create and 70 on update. */
  lemma CreateAndUpdateDivergeWithoutPlan()
    ensures var req := StayRequest(0, 2, None, None, Some("10"));
      && CreateQuote(None, [], req).totalPrice == 0.0
      && UpdateQuote(None, [], req).totalPrice == 70.0
  {
    OneChild(10, 2);
    assert ShowNat(10) == "10";
  }

  /** A worked example: Monday 2024-01-01 (day 19723) to Wednesday
      2024-01-03, a plan with a weekday rate of 100, one child of 10,
      check-in at 14:00 and check-out at 11:00. The room costs 200, the child
      40 in beds and 30 in breakfasts, and the late check-out half of the
      per-night 100: 320 in all. */
  lemma WorkedExample()
    ensures var req := StayRequest(19723, 19725, Some("14:00"), Some("11:00"), Some("10"));
      var q := CreateQuote(Some(1), [RateRow(Weekdays, 100.0)], req);
      && q.roomPrice == 200.0
      && q.bedPrice == 40 && q.breakfastPrice == 30
      && q.earlyCheckIn == 0.0 && q.lateCheckOut == 50.0
      && q.totalPrice == 320.0
  {
    WorkedExampleRoom();
    WorkedExampleChildren();
    WorkedExampleCharges();
    assert PerNightBase(200.0, 2) == 100.0;
  }

  /** Two weekdays at 100. */
  lemma WorkedExampleRoom()
    ensures RoomPriceByDays(Some(1), Some(19723), Some(19725), [RateRow(Weekdays, 100.0)]) == 200.0
  {
    var rows := [RateRow(Weekdays, 100.0)];
    PricingMapLastRow(rows, 0);
    assert RateOf(PricingMap(rows), Weekdays) == 100.0;
    assert !IsWeekend(19723) && !IsWeekend(19724);
    WeekdayStay(PricingMap(rows), 19723, 19725);
  }

  /** A child of 10 for two nights: 2 * 20 in beds, 2 * 15 in breakfasts. */
  lemma WorkedExampleChildren()
    ensures ChildrenSurcharge(Some("10"), 2) == ChildrenPrice(40, 30)
  {
    OneChild(10, 2);
    assert ShowNat(10) == "10";
  }

  /** Check-in at 14:00 is free; check-out at 11:00 costs half the base. */
  lemma WorkedExampleCharges()
    ensures CheckInOutCharges(Some("14:00"), Some("11:00"), 100.0) == Charges(0.0, 50.0)
  {
    ReadPaddedClock("14", "00", None);
    ReadPaddedClock("11", "00", None);
    assert ClockText("14", "00", None) == "14:00";
    assert ClockText("11", "00", None) == "11:00";
  }
}
