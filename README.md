# Hotel reservation pricing and menu permissions, in Dafny

This project models two parts of a hotel-management backend (an Express
application over a relational database). The first is the reservation
pricing engine in `src/routes/reservations.js`. The second is the in-memory
merging done by the menu-permission routes in `src/routes/menuPermissions.js`.
Everything else the application does is outside the model: SQL, HTTP,
authentication, validation and the CRUD routes. The database rows a route
reads are inputs of the model, in the order the query returns them.

**Reservation pricing.** A reservation's total price is the sum of four parts:

- The room price of the stay, computed day by day. Each day from check-in
  up to, but not including, check-out is classified as `weekdays` or
  `weekends` and adds the rate of its class from the room plan's rate rows.
- The children's surcharges. They are read from a comma-separated ages text.
  A bed charge (20 for ages 3–11, 40 for ages 12–17) and a breakfast charge
  (15 for ages 6–12, 18 above 12) are added up per child and multiplied by
  the nights.
- The early check-in charge. It is half the per-night base price for a
  check-in hour in [6, 12).
- The late check-out charge. It is half the per-night base price for a
  check-out hour in [11, 18), and the whole base price from 18 on.

The per-night base price is the room price divided by the nights.

The create handler (POST) and the update handler (PUT) compute the total
differently:

- POST gives absent times the defaults `14:00:00` and `11:00:00`.
- POST counts nights and prices the room only when the room has a pricing
  plan id.
- PUT always counts nights and always prices the room, and uses no default
  times.

One might expect POST and PUT to price a request identically. They do
not, and the model follows the code.
`ReservationTotal.CreateMatchesUpdate` gives the conditions under which the
two agree. `ReservationTotal.CreateAndUpdateDivergeWithoutPlan` exhibits
an input where they differ.

The older single-rate `calculateRoomPrice` is modelled too, as
`RoomPrice.LegacyRoomPrice`, and compared with the day-by-day price.

Representation:

- Calendar dates are day numbers counted from 1970-01-01, which was a
  Thursday. The day of the week is `(day + 4) % 7`, with 0 for Sunday, as
  `Date.getDay()` gives it.
- Money is `real`. Children's amounts are `int`.
- An absent request field is `None`. On POST a JSON `null` time is not
  absent: it skips the destructuring default, so a null check-out pays no
  late charge. The model can express such a time only as `Some("")`, the
  empty text, which is priced the same way.

**Menu permissions.** `GET /menu-items` groups the permission rows into a
map from menu id to a map from role to can-view flag, with later rows
overwriting earlier ones. It then attaches each menu item's entry, or an
empty map, to the item. `GET /menu-items/:roleName` works as follows:

- It builds duplicate-free id lists with `[...new Set(...)]`.
- It skips a query when its id list is empty.
- It returns, in order:
  - the visible parent rows;
  - the additional parent rows whose id is not a visible parent's;
  - the child rows.

Modules, one file each:

- `Text` (`text.dfy`) models `String.split`, `trim`, `parseInt` and
  `Number` on the inputs the routes see.
- `ChildrenPricing` (`children_pricing.dfy`).
- `CheckInOut` (`check_in_out.dfy`).
- `RoomPrice` (`room_price.dfy`).
- `ReservationTotal` (`reservation_total.dfy`) models the two handlers.
- `MenuPermissions` (`menu_permissions.dfy`).

Loops in the source are methods with loop invariants. Each method is proved
equal to a function, and the properties are lemmas about that function:

- `CalculateChildrenPricing` is proved equal to `ChildrenSurcharge`.
- `CalculateRoomPriceByDays` is proved equal to `RoomPriceByDays`.
- `BuildPricingMap` is proved equal to `PricingMap`.
- `BuildPermissionsMap` is proved equal to `Group`.

## Model

| member | source | states |
|---|---|---|
| Text.Split | src/routes/reservations.js:42 | `split` always yields at least one piece |
| Text.SplitPiecesFree | src/routes/reservations.js:42 | no piece of a split contains the separator |
| Text.Join | src/routes/reservations.js:42 | joining a single piece gives that piece; joining is the partner of splitting |
| Text.JoinSplit | src/routes/reservations.js:42 | joining the pieces of a split with the separator gives the original text back |
| Text.SplitJoin | src/routes/reservations.js:42 | splitting a join of separator-free pieces gives the pieces back |
| Text.SplitNoSep | src/routes/reservations.js:79 | a text without the separator splits into itself alone |
| Text.SplitAround | src/routes/reservations.js:79 | splitting `a:b` with separator-free `a` puts `a` in front of the pieces of `b` |
| Text.SplitConcat | src/routes/reservations.js:42 | splitting `a,b` gives the pieces of `a` followed by the pieces of `b` |
| Text.Trim | src/routes/reservations.js:42 | trimming never lengthens a text, its result neither starts nor ends with whitespace, and a text without whitespace is left as it is |
| Text.TrimShape | src/routes/reservations.js:42 | `trim` returns a slice of its input, cutting only whitespace on both sides |
| Text.TrimStartShape | src/routes/reservations.js:42 | trimming the start cuts a prefix of whitespace only, leaves no leading whitespace, and leaves a text without whitespace as it is |
| Text.TrimEndShape | src/routes/reservations.js:42 | trimming the end cuts a suffix of whitespace only, leaves no trailing whitespace, and leaves a text without whitespace as it is |
| Text.DigitsValue | src/routes/reservations.js:42 | the decimal value of a digit string; a single digit is its own value |
| Text.ShowNat | src/routes/reservations.js:42 | the decimal digits of a number form a non-empty all-digit string |
| Text.ReadShowNat | src/routes/reservations.js:42 | reading back the digits of a number gives the number (round trip) |
| Text.ParseIntToken | src/routes/reservations.js:42 | a token is a number exactly when, trimmed, it is a non-empty run of digits, and then `parseInt` and `Number` read it alike |
| Text.NumberField | src/routes/reservations.js:79 | a blank field reads as 0, and a field is not a number exactly when, trimmed, it holds a character that is not a digit |
| Text.ParseShowNat | src/routes/reservations.js:42 | both `parseInt` and `Number` read a number's digits as that number |
| Text.DigitsHaveNoSpace | src/routes/reservations.js:42 | digit strings hold no whitespace, so trimming leaves them alone |
| ChildrenPricing.BedRate | src/routes/reservations.js:47-52 | the nightly bed charge is 20 exactly for ages 3–11, 40 exactly for ages 12–17, 0 exactly otherwise |
| ChildrenPricing.BreakfastRate | src/routes/reservations.js:54-59 | the nightly breakfast charge is 15 exactly for ages 6–12, 18 exactly above 12, 0 exactly under 6 |
| ChildrenPricing.KeepNumbers | src/routes/reservations.js:42 | tokens that do not parse are dropped, so there are never more ages than tokens |
| ChildrenPricing.KeepNumbersKeeps | src/routes/reservations.js:42 | the kept ages are exactly the values of the tokens that parse |
| ChildrenPricing.KeepNumbersAllParse | src/routes/reservations.js:42 | there are as many ages as tokens exactly when every token parses, and then each age is the value of its own token, in order |
| ChildrenPricing.ParseAges | src/routes/reservations.js:42 | at most one age per comma-separated token; a text without a comma gives its own value when it parses and no age otherwise |
| ChildrenPricing.ParseAgesKeeps | src/routes/reservations.js:42 | the ages of a text are exactly the values of its comma-separated tokens that parse |
| ChildrenPricing.CountBetween | src/routes/reservations.js:48-56 | the number of ages in a band is at most the number of ages, 0 exactly when no age lies in the band, and all of them exactly when every age does |
| ChildrenPricing.CountAbove | src/routes/reservations.js:57 | the number of ages above a bound is at most the number of ages, 0 exactly when no age is above it, and all of them exactly when every age is |
| ChildrenPricing.ChildrenSurcharge | src/routes/reservations.js:39-67 | both surcharges are non-negative, and both are 0 without an ages text, with an empty one or with no nights |
| ChildrenPricing.CalculateChildrenPricing | src/routes/reservations.js:39-67 | the loop over the parsed ages computes exactly `ChildrenSurcharge` |
| ChildrenPricing.SumRatesPrefix | src/routes/reservations.js:46-60 | one more child adds that child's rate to the running total |
| ChildrenPricing.SumRatesNonNegative | src/routes/reservations.js:46-60 | a total of non-negative rates is non-negative |
| ChildrenPricing.BedByBands | src/routes/reservations.js:47-52 | the bed total is 20 per child aged 3–11 plus 40 per child aged 12–17 |
| ChildrenPricing.BreakfastByBands | src/routes/reservations.js:54-59 | the breakfast total is 15 per child aged 6–12 plus 18 per child above 12 |
| ChildrenPricing.SumRatesAppend | src/routes/reservations.js:46-60 | the total over two lists of children is the sum of their totals |
| ChildrenPricing.SumRatesSnoc | src/routes/reservations.js:46-60 | a child added at the end adds its rate |
| ChildrenPricing.SumRatesRemove | src/routes/reservations.js:46-60 | taking one child out of any position takes its rate out of the total |
| ChildrenPricing.SumRatesPermutation | src/routes/reservations.js:46-60 | totals over the same multiset of ages are equal, whatever the order |
| ChildrenPricing.SurchargeByBands | src/routes/reservations.js:39-67 | with a surcharge, the bed price is (20·#[3,11] + 40·#[12,17])·nights and the breakfast price is (15·#[6,12] + 18·#(>12))·nights |
| ChildrenPricing.KeepNumbersAppend | src/routes/reservations.js:42 | the filter works token by token: the ages of two token lists concatenate |
| ChildrenPricing.OrderDoesNotMatter | src/routes/reservations.js:39-67 | two ages texts with the same ages in any order have the same surcharges |
| ChildrenPricing.NonNumericTokenDropped | src/routes/reservations.js:42 | a token that is not a number, before or after the others, does not change the parsed ages |
| ChildrenPricing.OneChild | src/routes/reservations.js:39-67 | one child pays the bed and breakfast rates of their age for every night |
| ChildrenPricing.TwelveYearOld | src/routes/reservations.js:50-56 | age 12 pays the 40 bed band and the 15 breakfast band, never 18 |
| CheckInOut.HourOfDay | src/routes/reservations.js:79-80 | a parsed clock time is a non-negative hour `h + m/60` |
| CheckInOut.RequestedHour | src/routes/reservations.js:78-80 | no hour without a time (undefined or empty) or for a time without a colon; an hour found is the clock reading of the time, and non-negative |
| CheckInOut.EarlyCheckInCharge | src/routes/reservations.js:78-86 | the early charge is 0 or half the base, and it is positive exactly when the base is positive and the hour lies in [6, 12) |
| CheckInOut.LateCheckOutCharge | src/routes/reservations.js:89-101 | the late charge is half the base exactly for a positive base and an hour in [11, 18), the whole base exactly for a positive base and an hour of 18 or more, and 0 otherwise |
| CheckInOut.CheckInOutCharges | src/routes/reservations.js:70-107 | both charges are non-negative, both are 0 for a non-positive base, and together they never exceed 1.5 times the base; without a check-in time there is no early charge, and without a check-out time no late charge |
| CheckInOut.LateChargeMonotone | src/routes/reservations.js:94-100 | a later check-out never costs less |
| CheckInOut.ReadClockFields | src/routes/reservations.js:79-80 | colon-free fields reading h and m give hour `h + m/60`, with or without seconds |
| CheckInOut.ReadClock | src/routes/reservations.js:79-80 | a clock time written `H:M[:rest]` in plain digits reads as `H + M/60` |
| CheckInOut.ReadTwoDigits | src/routes/reservations.js:79 | a two-digit field reads as its value |
| CheckInOut.ReadPaddedClock | src/routes/reservations.js:79-80 | `HH:MM` and `HH:MM:SS` read as `HH + MM/60` |
| CheckInOut.EarlyCheckInByClock | src/routes/reservations.js:78-86 | counted in minutes, check-in from 06:00 up to but not including 12:00 costs half the base, any other time nothing |
| CheckInOut.LateCheckOutByClock | src/routes/reservations.js:89-101 | counted in minutes, check-out before 11:00 costs nothing, up to but not including 18:00 half the base, from 18:00 the whole base |
| CheckInOut.DefaultCheckOutPaysHalf | src/routes/reservations.js:327 | the default check-out `11:00:00` already pays half the base |
| CheckInOut.DefaultCheckInPaysNothing | src/routes/reservations.js:326 | the default check-in `14:00:00` pays no early charge |
| CheckInOut.DefaultTimesCharges | src/routes/reservations.js:326-327 | the two default times together cost nothing on check-in and half the base on check-out |
| RoomPrice.DayOfWeek | src/routes/reservations.js:173 | the day of the week lies in 0..6 |
| RoomPrice.DayType | src/routes/reservations.js:176-177 | a day is `weekends` exactly when it is a Saturday or Sunday, and `weekdays` exactly otherwise |
| RoomPrice.BuildPricingMap | src/routes/reservations.js:160-164 | the loop builds `PricingMap`, whose keys are exactly the classifications some row carries |
| RoomPrice.PricingMap | src/routes/reservations.js:160-164 | the map has an entry for exactly the classifications some row carries |
| RoomPrice.PricingMapKeys | src/routes/reservations.js:160-164 | a classification has an entry exactly when some row carries it |
| RoomPrice.PricingMapLastRow | src/routes/reservations.js:160-164 | the entry of a classification is the price of its last row |
| RoomPrice.RoomPriceByDays | src/routes/reservations.js:148-189 | the price is 0 without a plan, without either date or without rate rows, and 0 for a stay of no nights |
| RoomPrice.CalculateRoomPriceByDays | src/routes/reservations.js:148-189 | the day-by-day loop computes exactly `RoomPriceByDays`, skipping unpriced and zero-rated days |
| RoomPrice.StayPrice | src/routes/reservations.js:172-186 | a stay of no nights costs 0, and with no negative rate no stay costs less than 0 |
| RoomPrice.StayPriceAdditive | src/routes/reservations.js:172-186 | splitting a stay in two at any day splits its price in two |
| RoomPrice.OneMore | src/routes/reservations.js:172-186 | one more day at a rate adds that rate |
| RoomPrice.StayPriceByClass | src/routes/reservations.js:172-186 | a stay costs the weekday rate times its weekdays plus the weekend rate times its weekend days |
| RoomPrice.NextDay | src/routes/reservations.js:185 | the next day's weekday is the following one, Saturday wrapping to Sunday |
| RoomPrice.WeekHasTwoWeekendDays | src/routes/reservations.js:176 | any seven consecutive days hold exactly two weekend days |
| RoomPrice.FullWeekPrice | src/routes/reservations.js:172-186 | any seven-night stay costs five weekday rates and two weekend rates |
| RoomPrice.StayPriceNonNegative | src/routes/reservations.js:172-186 | with no negative rate, no stay price is negative |
| RoomPrice.PricingMapNonNegative | src/routes/reservations.js:160-164 | non-negative row prices give a map of non-negative rates |
| RoomPrice.LegacyRoomPrice | src/routes/reservations.js:110-145 | the single-rate price is 0 without a plan; the base rate itself when a date is missing; with both dates, the base rate times the nights for a positive base rate, and the base rate itself otherwise |
| RoomPrice.FirstRate | src/routes/reservations.js:114-118 | the `LIMIT 1` lookup finds nothing exactly when no row carries the classification, and otherwise the price of a row that carries it |
| RoomPrice.LegacyBaseRate | src/routes/reservations.js:120-134 | the base rate is the first weekday price, else the first weekend price when there is no weekday row, and 0 when neither classification has a row |
| RoomPrice.FirstRateIsFirstRow | src/routes/reservations.js:114-122 | the `LIMIT 1` lookup takes the first row of the classification |
| RoomPrice.FirstRateAbsent | src/routes/reservations.js:121-133 | without a row of the classification the lookup finds nothing |
| RoomPrice.LegacyPrefersWeekdays | src/routes/reservations.js:120-134 | the base rate is the first weekday row's price, else the first weekend row's price when there is no weekday row |
| RoomPrice.LegacyAgreesOnWeekdayStay | src/routes/reservations.js:110-145 | for a stay of weekdays only and a single weekday rate, the legacy price equals the day-by-day price |
| RoomPrice.LegacyWeekdayPrice | src/routes/reservations.js:137-141 | with a single positive weekday rate, the legacy price of a stay is that rate times the nights |
| RoomPrice.DayByDayWeekdayPrice | src/routes/reservations.js:148-189 | with a single weekday rate, a stay of weekdays only costs that rate times the nights day by day |
| RoomPrice.WeekdayStay | src/routes/reservations.js:172-186 | a stay of weekdays only costs the weekday rate times the nights |
| RoomPrice.LegacyDiffersOnWeekend | src/routes/reservations.js:110-145 | with weekday rate 100 and weekend rate 150, a Friday–Saturday stay costs 250 day by day but 200 under the legacy price |
| RoomPrice.LegacyReversedStay | src/routes/reservations.js:137-141 | for a check-out before check-in the legacy price is negative, while the day-by-day price is 0 |
| ReservationTotal.OrDefault | src/routes/reservations.js:326-327 | a given time is kept; an absent one becomes the default |
| ReservationTotal.PerNightBase | src/routes/reservations.js:381 | the base times the nights is the room price when there are nights, and 0 without nights; with nights it lies between 0 and a non-negative room price, and it is positive for a positive room price |
| ReservationTotal.Assemble | src/routes/reservations.js:377-386 | the bed and breakfast prices are the children's surcharges for the nights; the early and late charges are those of the requested hours on the per-night base; the total is the room price plus these four; every part is non-negative; without nights every extra is 0 |
| ReservationTotal.CreateQuote | src/routes/reservations.js:360-386 | on create: the quote is the assembly of the request with an absent time replaced by its default `14:00:00` or `11:00:00`; the room price is the day-by-day price; nights are counted only with a plan; the total is 0 without a plan or for a reversed stay |
| ReservationTotal.UpdateQuote | src/routes/reservations.js:522-540 | on update: the quote is the assembly of the request with its own times, no default applied; the room price is the day-by-day price; nights are always counted; without a plan only the children's surcharges remain; the total is 0 for a reversed stay |
| ReservationTotal.CreateOutcome | src/routes/reservations.js:349-386 | create answers "room not found" exactly when the room is missing, and otherwise the create quote |
| ReservationTotal.UpdateOutcome | src/routes/reservations.js:494-540 | update answers "reservation not found" exactly when it is missing, then "room not found" exactly when the room is missing, and otherwise the update quote |
| ReservationTotal.PriceStay | src/routes/reservations.js:376-386 | the shared tail of both handlers computes exactly `Assemble` |
| ReservationTotal.PriceOnCreate | src/routes/reservations.js:360-386 | the create handler's computation gives exactly `CreateQuote` |
| ReservationTotal.PriceOnUpdate | src/routes/reservations.js:522-540 | the update handler's computation gives exactly `UpdateQuote` |
| ReservationTotal.TotalNonNegative | src/routes/reservations.js:360-386 | with no negative rate, neither handler produces a negative total |
| ReservationTotal.CreateMatchesUpdate | src/routes/reservations.js:360-386 | with a pricing plan and both times given, create and update price a request identically |
| ReservationTotal.CreateWithoutTimes | src/routes/reservations.js:326-327 | a new reservation without times and with a priced room pays no early charge and a late charge of half the per-night base, which is positive |
| ReservationTotal.CreateQuoteWithoutTimes | src/routes/reservations.js:326-327 | a new reservation without times is priced at the default times |
| ReservationTotal.CreateAndUpdateDivergeWithoutPlan | src/routes/reservations.js:363-377 | without a plan, one child of 10 for two nights costs 0 on create but 70 on update |
| ReservationTotal.WorkedExample | src/routes/reservations.js:360-386 | Monday to Wednesday at weekday rate 100 with a child of 10 and times 14:00/11:00: room 200, beds 40, breakfasts 30, late check-out 50, total 320 |
| ReservationTotal.WorkedExampleRoom | src/routes/reservations.js:148-189 | two weekdays at 100 cost 200 |
| ReservationTotal.WorkedExampleChildren | src/routes/reservations.js:39-67 | a child of 10 for two nights pays 40 in beds and 30 in breakfasts |
| ReservationTotal.WorkedExampleCharges | src/routes/reservations.js:70-107 | on a base of 100, check-in at 14:00 is free and check-out at 11:00 costs 50 |
| MenuPermissions.Group | src/routes/menuPermissions.js:96-102 | a menu id has an entry exactly when some row carries it |
| MenuPermissions.BuildPermissionsMap | src/routes/menuPermissions.js:96-102 | the loop builds `Group`, with an entry for exactly the menu ids some row carries |
| MenuPermissions.GroupSnoc | src/routes/menuPermissions.js:98-101 | one more row creates its menu's entry when missing and sets its role's flag there |
| MenuPermissions.GroupStep | src/routes/menuPermissions.js:98-101 | one row sets its own menu and role flag and changes no other flag |
| MenuPermissions.GroupLookup | src/routes/menuPermissions.js:96-102 | the map holds, for every menu and role, the flag of the last row with that pair, and nothing when no row has it |
| MenuPermissions.LastCanViewIsLastRow | src/routes/menuPermissions.js:96-102 | the last-row flag is absent exactly when no row has the pair, and is otherwise the flag of a row with the pair that no later row repeats |
| MenuPermissions.AttachPermissions | src/routes/menuPermissions.js:105-108 | one entry per menu item, in order, each holding the item and its map entry or an empty map |
| MenuPermissions.ListMenuItems | src/routes/menuPermissions.js:96-108 | grouping then attaching gives exactly `MenuItemsWithPermissions` |
| MenuPermissions.ItemPermissions | src/routes/menuPermissions.js:96-108 | each listed item holds a role's flag exactly when a permission row has the item and the role, and the flag is the last such row's |
| MenuPermissions.Distinct | src/routes/menuPermissions.js:173 | the deduplicated list is never longer than its input |
| MenuPermissions.DistinctMembers | src/routes/menuPermissions.js:173 | deduplication keeps every value and adds none |
| MenuPermissions.DistinctKeeps | src/routes/menuPermissions.js:173 | a value of the input is in the deduplicated list |
| MenuPermissions.DistinctNoDuplicates | src/routes/menuPermissions.js:173 | the deduplicated list holds each value once |
| MenuPermissions.FirstIndex | src/routes/menuPermissions.js:173 | finds the first position of a value in a list |
| MenuPermissions.DistinctOrder | src/routes/menuPermissions.js:173 | the deduplicated values come in the order of their first occurrence |
| MenuPermissions.DistinctOfDistinct | src/routes/menuPermissions.js:199-202 | deduplicating a list without duplicates changes nothing |
| MenuPermissions.Without | src/routes/menuPermissions.js:199-202 | removing excluded values never lengthens a list |
| MenuPermissions.WithoutMembers | src/routes/menuPermissions.js:199-202 | a value remains exactly when it was there and is not excluded |
| MenuPermissions.WithoutNoDuplicates | src/routes/menuPermissions.js:199-202 | removing values keeps a list free of duplicates |
| MenuPermissions.DistinctAppend | src/routes/menuPermissions.js:199-202 | deduplicating `a + b` gives the distinct values of `a`, then those of `b` that are not in `a` |
| MenuPermissions.DistinctAppendStep | src/routes/menuPermissions.js:199-202 | the previous fact survives one more value at the end of `b` |
| MenuPermissions.DistinctSnoc | src/routes/menuPermissions.js:173 | a new value at the end is added once, and a repeated one is ignored |
| MenuPermissions.WithoutSnoc | src/routes/menuPermissions.js:199-202 | a value added at the end survives exactly when it is not excluded |
| MenuPermissions.MenuIds | src/routes/menuPermissions.js:200 | the menu ids of the rows, one per row, in order |
| MenuPermissions.ParentIds | src/routes/menuPermissions.js:173 | the parent ids of the rows, one per row, in order |
| MenuPermissions.VisibleChildParentIds | src/routes/menuPermissions.js:173 | each parent of a visible child exactly once, and nothing else |
| MenuPermissions.AllParentIds | src/routes/menuPermissions.js:199-202 | each id of a visible parent or of a parent of a visible child exactly once, and nothing else |
| MenuPermissions.AllParentIdsParentsFirst | src/routes/menuPermissions.js:199-202 | `allParentIds` is the distinct visible-parent ids followed by the parents of visible children that are not visible parents |
| MenuPermissions.RunIfAny | src/routes/menuPermissions.js:176-177 | a query on an empty id list is skipped and yields no rows; otherwise its rows are used |
| MenuPermissions.NewParents | src/routes/menuPermissions.js:230 | an additional parent is kept exactly when no visible parent has its menu id |
| MenuPermissions.NewParentsAppend | src/routes/menuPermissions.js:230 | the filter keeps row order, working piece by piece |
| MenuPermissions.CombineRows | src/routes/menuPermissions.js:228-232 | the merge starts with all the visible parents and ends with all the child rows; between them lie exactly the additional parents that are not visible parents |
| MenuPermissions.RoleMenuRows | src/routes/menuPermissions.js:176-232 | the role's rows begin with all the visible parents; every row is a visible parent, an additional parent or a child row; without visible children no additional parent appears; with neither visible parents nor visible children there are no rows |
| MenuPermissions.NoVisibleChildren | src/routes/menuPermissions.js:176-205 | without visible children the additional-parent query is skipped, and the child query runs exactly when there are visible parents |
| MenuPermissions.RoleMenuShape | src/routes/menuPermissions.js:176-232 | with visible children both queries run and the role's rows are their merge with the visible parents |
| MenuPermissions.RepeatedAdditionalParentKept | src/routes/menuPermissions.js:230 | an additional parent returned twice, and not a visible parent, is kept twice |

## Left out

- The database, Express, connections and `console.log` are not modelled. A
  query's result rows are inputs, taken in the order the query returns
  them, so `ORDER BY` and `LIMIT 1` are that order. `is_active`, the joins
  and the `WHERE` filters are the database's concern.
- Input validation (express-validator), authentication, reservation codes
  (random and clock-based), the `INSERT`/`UPDATE` statements and the other
  CRUD routes are not modelled.
- JavaScript `Date` is not modelled. Dates are whole day numbers, so
  `Math.ceil` of the millisecond difference is the difference of day
  numbers. `getDay()` is taken in UTC. A server in another time zone can
  classify a date's weekday differently, and that is not captured.
- `toFixed(2)` rounding of the stored total is not modelled. Neither are
  the `Number(x) || 0` and `isNaN` guards: every amount in the model is a
  number, so NaN never arises.
- Arithmetic on money is exact `real` arithmetic. JavaScript computes
  `roomPrice / nights`, `basePrice * 0.5` and the sums in binary floating
  point, whose rounding is not modelled.
- Rate prices are numbers. MySQL can return `DECIMAL` prices as strings.
  The resulting coercions (`Number(p.price) || 0`, `basePrice > 0` and
  `basePrice * nights` on a string) are not modelled.
- Text.Trim: removes only space, tab, newline and carriage return. The
  other characters JavaScript's `trim` removes (form feed, vertical tab,
  no-break space and the Unicode spaces) are treated as text.
- ChildrenPricing.KeepNumbers: keeps only tokens that are a run of decimal
  digits after trimming. `parseInt` also reads signed tokens (`-3`) and
  tokens with trailing junk (`12abc` as 12) and hexadecimal tokens (`0x1A`
  as 26), and those are dropped here.
- CheckInOut.HourOfDay: reads only empty, blank or all-digit fields as
  numbers. Decimal points, signs, exponents and hexadecimal forms, which
  `Number` accepts, give no hour here, where JavaScript would compute one.
  A time with no minutes field, which JavaScript turns into NaN and
  therefore no charge, also gives no hour.
- MenuPermissions.ParentIds: requires every visible child to have a parent
  id. The visible-children query selects only rows with `parent_id IS NOT
  NULL`.
- The permissions map of `GET /menu-items` is keyed by `Option<int>`. A
  permission row with a null menu id, from the left join, groups under the
  `None` key. JavaScript would use the property `"null"`. No menu item
  looks that key up in either case.
- The other menu-permission routes are not part of this model: listing
  roles and permissions, updating a permission, and creating or updating a
  menu item (`src/routes/menuPermissions.js:251-470`). They are single
  queries without in-memory logic. The commented-out older version of
  `GET /menu-items` is not modelled either.
