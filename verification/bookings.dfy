/** A raw hotel booking record (one row of the input CSV) and the per-row
    rules that both versions of the feature deriver share. Each rule is a
    total function of one row; a flag is the integer 0 or 1, as the source's
    `.astype(int)` makes it. */
module Bookings {

  import opened Common
  import opened Calendar

  /** The 32 raw columns. Cells the CSV may leave empty are `Option`s;
      `agent` and `company` are kept as the text pandas renders for them. */
  datatype Booking = Booking(
    hotel: string,
    isCanceled: int,
    leadTime: int,
    arrivalDateYear: int,
    arrivalDateMonth: string,
    arrivalDateWeekNumber: int,
    arrivalDateDayOfMonth: int,
    staysInWeekendNights: int,
    staysInWeekNights: int,
    adults: int,
    children: Option<int>,
    babies: int,
    meal: string,
    country: Option<string>,
    marketSegment: string,
    distributionChannel: string,
    isRepeatedGuest: int,
    previousCancellations: int,
    previousBookingsNotCanceled: int,
    reservedRoomType: string,
    assignedRoomType: string,
    bookingChanges: int,
    depositType: string,
    agent: Option<string>,
    company: Option<string>,
    daysInWaitingList: int,
    customerType: string,
    adr: real,
    requiredCarParkingSpaces: int,
    totalOfSpecialRequests: int,
    reservationStatus: string,
    reservationStatusDate: string)

  /** The raw column names, in file order. */
  const RawColumns: seq<string> := [
    "hotel", "is_canceled", "lead_time", "arrival_date_year", "arrival_date_month",
    "arrival_date_week_number", "arrival_date_day_of_month", "stays_in_weekend_nights",
    "stays_in_week_nights", "adults", "children", "babies", "meal", "country",
    "market_segment", "distribution_channel", "is_repeated_guest", "previous_cancellations",
    "previous_bookings_not_canceled", "reserved_room_type", "assigned_room_type",
    "booking_changes", "deposit_type", "agent", "company", "days_in_waiting_list",
    "customer_type", "adr", "required_car_parking_spaces", "total_of_special_requests",
    "reservation_status", "reservation_status_date"]

  function Flag(b: bool): int
  {
    if b then 1 else 0
  }

  // ---------------------------------------------------------------------
  // Room rules

  function RoomUnchanged(b: Booking): int
  {
    Flag(b.reservedRoomType == b.assignedRoomType)
  }

  /** Room types with the highest average daily rate. */
  const PremiumRooms: set<string> := {"H", "G", "F", "C"}

  function PremiumDowngraded(b: Booking): int
  {
    Flag(b.reservedRoomType in PremiumRooms && b.assignedRoomType !in PremiumRooms)
  }

  function UpgradedToPremium(b: Booking): int
  {
    Flag(b.reservedRoomType !in PremiumRooms && b.assignedRoomType in PremiumRooms)
  }

  function RepeatedGuestChangedRoom(b: Booking): int
  {
    Flag(b.isRepeatedGuest == 1 && b.reservedRoomType != b.assignedRoomType)
  }

  // ---------------------------------------------------------------------
  // Guest composition (a missing `children` count fails every comparison,
  // as NaN does)

  function OnlyChildren(b: Booking): int
  {
    Flag(b.adults == 0 && b.children.Some? && b.children.value > 0)
  }

  function OnlyAdults(b: Booking): int
  {
    Flag(b.adults > 0 && b.children == Some(0) && b.babies == 0)
  }

  /** Only adults, arriving on a day named Monday to Friday. */
  function OnlyAdultsOnWeekday(b: Booking, arrivalDay: int): int
  {
    Flag(OnlyAdults(b) == 1 && DayName(arrivalDay) in WeekdayNames[..5])
  }

  predicate IsFlag(x: int)
  {
    x == 0 || x == 1
  }

  /** The four flags both versions derive from the room and party columns. */
  datatype SharedFlags = SharedFlags(
    roomUnchanged: int,
    onlyChildren: int,
    onlyAdults: int,
    onlyAdultsOnWeekday: int)

  function SharedFlagsOf(b: Booking, arrivalDay: int): SharedFlags
  {
    SharedFlags(RoomUnchanged(b), OnlyChildren(b), OnlyAdults(b), OnlyAdultsOnWeekday(b, arrivalDay))
  }

  /** The shared flags are 0/1, a booking is never both children-only and
      adults-only, and the weekday flag is set exactly for adults-only
      bookings arriving on a day that is not Saturday or Sunday. */
  predicate SharedFlagsDescribed(b: Booking, arrivalDay: int, f: SharedFlags)
  {
    && IsFlag(f.roomUnchanged) && IsFlag(f.onlyChildren) && IsFlag(f.onlyAdults)
    && IsFlag(f.onlyAdultsOnWeekday)
    && (f.roomUnchanged == 1 <==> b.reservedRoomType == b.assignedRoomType)
    && !(f.onlyChildren == 1 && f.onlyAdults == 1)
    && (f.onlyAdults == 1 ==> b.children == Some(0))
    && (f.onlyChildren == 1 ==> b.adults == 0)
    && (f.onlyAdultsOnWeekday == 1 <==> f.onlyAdults == 1 && !IsWeekend(arrivalDay))
  }

  lemma SharedFlagsOfDescribed(b: Booking, arrivalDay: int)
    ensures SharedFlagsDescribed(b, arrivalDay, SharedFlagsOf(b, arrivalDay))
  {
    WorkingDayNames(arrivalDay);
  }

  // ---------------------------------------------------------------------
  // Dates

  datatype DateError =
    | UnparseableArrivalDate   // year, month name and day do not form a date
    | ArrivalOutOfBounds       // outside what a nanosecond Timestamp holds
    | BookingOutOfBounds       // the lead time or the booking date overflows

  /** The arrival date built from year, month name and day of month, as a
      day number, or the error `pd.to_datetime` raises. Only the twelve
      full English month names are understood. */
  function ArrivalDay(b: Booking): (r: Result<int, DateError>)
    ensures r.Ok? ==> InTimestampRange(r.value)
    ensures r.Ok? ==>
      MonthFromName(b.arrivalDateMonth).Some? &&
      var d := CivilFromDays(r.value);
      d == Date(b.arrivalDateYear, MonthFromName(b.arrivalDateMonth).value, b.arrivalDateDayOfMonth)
    ensures r.Ok? <==>
      MonthFromName(b.arrivalDateMonth).Some? &&
      var d := Date(b.arrivalDateYear, MonthFromName(b.arrivalDateMonth).value, b.arrivalDateDayOfMonth);
      ValidDate(d) && InTimestampRange(DaysFromCivil(d))
    ensures r == Err(ArrivalOutOfBounds) <==>
      MonthFromName(b.arrivalDateMonth).Some? &&
      var d := Date(b.arrivalDateYear, MonthFromName(b.arrivalDateMonth).value, b.arrivalDateDayOfMonth);
      ValidDate(d) && !InTimestampRange(DaysFromCivil(d))
  {
    match MonthFromName(b.arrivalDateMonth)
    case None => Err(UnparseableArrivalDate)
    case Some(m) =>
      var d := Date(b.arrivalDateYear, m, b.arrivalDateDayOfMonth);
      if !ValidDate(d) then Err(UnparseableArrivalDate)
      else if !InTimestampRange(DaysFromCivil(d)) then Err(ArrivalOutOfBounds)
      else
        CivilRoundTrip(d);
        Ok(DaysFromCivil(d))
  }

  /** Arrival minus `lead_time` days; both the day count and the result must
      fit a nanosecond Timedelta and Timestamp. */
  function BookingDay(arrivalDay: int, leadTime: int): (r: Result<int, DateError>)
    ensures r.Ok? ==> r.value + leadTime == arrivalDay && InTimestampRange(r.value)
    ensures r.Err? <==> -MaxTimestampDay > leadTime || leadTime > MaxTimestampDay
                        || !InTimestampRange(arrivalDay - leadTime)
  {
    if leadTime < -MaxTimestampDay || leadTime > MaxTimestampDay then Err(BookingOutOfBounds)
    else if !InTimestampRange(arrivalDay - leadTime) then Err(BookingOutOfBounds)
    else Ok(arrivalDay - leadTime)
  }

  /** The arrival day of every booking in a batch, or the first failure
      (`pd.to_datetime` over whole columns). */
  function ArrivalDays(batch: seq<Booking>): (r: Result<seq<int>, DateError>)
    ensures r.Ok? <==> forall i :: 0 <= i < |batch| ==> ArrivalDay(batch[i]).Ok?
    ensures r.Ok? ==> |r.value| == |batch|
    ensures r.Ok? ==> forall i :: 0 <= i < |batch| ==> ArrivalDay(batch[i]) == Ok(r.value[i])
  {
    CollectMap(batch, ArrivalDay)
  }

  /** The booking day of every booking, `lead_time` days before its arrival
      day, or the first one out of range. */
  function BookingDays(batch: seq<Booking>, arrivals: seq<int>): (r: Result<seq<int>, DateError>)
    requires |arrivals| == |batch|
    ensures r.Ok? <==> forall i :: 0 <= i < |batch| ==> BookingDay(arrivals[i], batch[i].leadTime).Ok?
    ensures r.Ok? ==> |r.value| == |batch|
    ensures r.Ok? ==> forall i :: 0 <= i < |batch| ==>
      BookingDay(arrivals[i], batch[i].leadTime) == Ok(r.value[i])
  {
    var pairs := seq(|batch|, i requires 0 <= i < |batch| => (arrivals[i], batch[i].leadTime));
    var f := (p: (int, int)) => BookingDay(p.0, p.1);
    assert forall i :: 0 <= i < |batch| ==> f(pairs[i]) == BookingDay(arrivals[i], batch[i].leadTime);
    CollectMap(pairs, f)
  }

  /** Every arrival date of the batch can be built and every booking date
      lies in range. */
  predicate DatesInRange(batch: seq<Booking>)
  {
    forall i :: 0 <= i < |batch| ==>
      ArrivalDay(batch[i]).Ok? && BookingDay(ArrivalDay(batch[i]).value, batch[i].leadTime).Ok?
  }

  /** Building the two date columns of a batch succeeds exactly when all its
      dates are in range. */
  lemma BatchDaysSucceed(batch: seq<Booking>)
    ensures ArrivalDays(batch).Ok? && BookingDays(batch, ArrivalDays(batch).value).Ok?
            <==> DatesInRange(batch)
  {
    var arrivals := ArrivalDays(batch);
    if arrivals.Ok? {
      var bookings := BookingDays(batch, arrivals.value);
      if !bookings.Ok? {
        var i :| 0 <= i < |batch| && BookingDay(arrivals.value[i], batch[i].leadTime).Err?;
        assert ArrivalDay(batch[i]) == Ok(arrivals.value[i]);
      }
    } else {
      var i :| 0 <= i < |batch| && ArrivalDay(batch[i]).Err?;
    }
  }

  // ---------------------------------------------------------------------
  // Calendar columns

  /** 1 when (month, day) is listed in the table; a month the month-name
      table does not know (pandas NaN) never matches. */
  function SpecialDayFlag(table: seq<(int, int)>, month: Option<int>, day: int): int
  {
    Flag(month.Some? && (month.value, day) in table)
  }

  /** The calendar columns both versions derive: the arrival and booking
      timestamps (as day numbers), the booking date's parts, seasons,
      month numbers, special-day and weekend flags. */
  datatype CalendarColumns = CalendarColumns(
    arrivalDay: int,
    arrivalWeekday: string,
    bookingDay: int,
    bookingYear: int,
    bookingMonth: string,
    bookingWeekNumber: int,
    bookingDayOfMonth: int,
    bookingSeason: string,
    arrivalSeason: string,
    bookingMonthInteger: Option<int>,
    arrivalMonthInteger: Option<int>,
    bookingOnSpecialDay: int,
    arrivalOnSpecialDay: int,
    arrivalOnWeekend: int,
    bookingOnWeekend: int)

  function CalendarColumnsOf(b: Booking, arrival: int, booking: int, table: seq<(int, int)>): CalendarColumns
  {
    var ad := CivilFromDays(arrival);
    var bd := CivilFromDays(booking);
    var bookingMonth := MonthName(bd.month);
    var bookingMonthInteger := MonthFromName(bookingMonth);
    var arrivalMonthInteger := MonthFromName(b.arrivalDateMonth);
    CalendarColumns(
      arrivalDay := arrival,
      arrivalWeekday := DayName(arrival),
      bookingDay := booking,
      bookingYear := bd.year,
      bookingMonth := bookingMonth,
      bookingWeekNumber := IsoWeekNumber(bd),
      bookingDayOfMonth := bd.day,
      bookingSeason := SeasonName(SeasonOf(bd.month)),
      arrivalSeason := SeasonName(SeasonOf(ad.month)),
      bookingMonthInteger := bookingMonthInteger,
      arrivalMonthInteger := arrivalMonthInteger,
      bookingOnSpecialDay := SpecialDayFlag(table, bookingMonthInteger, bd.day),
      arrivalOnSpecialDay := SpecialDayFlag(table, arrivalMonthInteger, b.arrivalDateDayOfMonth),
      arrivalOnWeekend := Flag(IsWeekend(arrival)),
      bookingOnWeekend := Flag(IsWeekend(booking)))
  }

  /** The booking-date columns: the booking day is `lead_time` days before
      arrival, and its year, month (name and number), day, season
      and ISO week (the week of its Thursday) are those of that day. */
  predicate BookingDateDescribed(b: Booking, c: CalendarColumns)
  {
    var bd := CivilFromDays(c.bookingDay);
    && c.bookingDay + b.leadTime == c.arrivalDay
    && InTimestampRange(c.bookingDay)
    && c.bookingYear == bd.year
    && c.bookingDayOfMonth == bd.day
    && c.bookingMonth == MonthName(bd.month)
    && c.bookingMonthInteger == Some(bd.month)
    && c.bookingWeekNumber == IsoWeekByThursday(c.bookingDay)
    && 1 <= c.bookingWeekNumber <= 53
    && c.bookingSeason == SeasonName(SeasonOf(bd.month))
  }

  /** The arrival columns: the arrival timestamp is the day the raw year,
      month name and day name, and its weekday, month number and season
      follow. */
  predicate ArrivalDateDescribed(b: Booking, c: CalendarColumns)
  {
    && InTimestampRange(c.arrivalDay)
    && MonthFromName(b.arrivalDateMonth).Some?
    && c.arrivalMonthInteger == MonthFromName(b.arrivalDateMonth)
    && CivilFromDays(c.arrivalDay) ==
         Date(b.arrivalDateYear, c.arrivalMonthInteger.value, b.arrivalDateDayOfMonth)
    && c.arrivalWeekday == DayName(c.arrivalDay)
    && c.arrivalSeason == SeasonName(SeasonOf(c.arrivalMonthInteger.value))
  }

  /** The day flags: a special-day flag is 1 exactly when the (month, day)
      pair is listed; a weekend flag exactly when the day's name is not one
      of Monday to Friday. */
  predicate DayFlagsDescribed(b: Booking, c: CalendarColumns, table: seq<(int, int)>)
    requires ArrivalDateDescribed(b, c)
  {
    var bd := CivilFromDays(c.bookingDay);
    && IsFlag(c.bookingOnSpecialDay) && IsFlag(c.arrivalOnSpecialDay)
    && IsFlag(c.arrivalOnWeekend) && IsFlag(c.bookingOnWeekend)
    && (c.bookingOnSpecialDay == 1 <==> (bd.month, bd.day) in table)
    && (c.arrivalOnSpecialDay == 1 <==>
          (c.arrivalMonthInteger.value, b.arrivalDateDayOfMonth) in table)
    && (c.arrivalOnWeekend == 1 <==> c.arrivalWeekday !in WeekdayNames[..5])
    && (c.bookingOnWeekend == 1 <==> DayName(c.bookingDay) !in WeekdayNames[..5])
  }

  lemma BookingDateColumns(b: Booking, arrival: int, booking: int, table: seq<(int, int)>)
    requires BookingDay(arrival, b.leadTime) == Ok(booking)
    ensures BookingDateDescribed(b, CalendarColumnsOf(b, arrival, booking, table))
  {
    var bd := CivilFromDays(booking);
    IsoWeekNumberIsIso(bd);
    MonthNameRoundTrip(bd.month, MonthName(bd.month));
  }

  lemma ArrivalDateColumns(b: Booking, arrival: int, booking: int, table: seq<(int, int)>)
    requires ArrivalDay(b) == Ok(arrival)
    ensures ArrivalDateDescribed(b, CalendarColumnsOf(b, arrival, booking, table))
  {
  }

  lemma DayFlagColumns(b: Booking, arrival: int, booking: int, table: seq<(int, int)>)
    requires ArrivalDay(b) == Ok(arrival)
    ensures ArrivalDateDescribed(b, CalendarColumnsOf(b, arrival, booking, table))
    ensures DayFlagsDescribed(b, CalendarColumnsOf(b, arrival, booking, table), table)
  {
    var bd := CivilFromDays(booking);
    MonthNameRoundTrip(bd.month, MonthName(bd.month));
    WorkingDayNames(arrival);
    WorkingDayNames(booking);
  }

  // ---------------------------------------------------------------------
  // Ratios computed as `x / (y + 1e-10)`

  const Epsilon: real := 0.0000000001

  /** Exact rational arithmetic; a zero denominator (only when y is exactly
      -1e-10) has no value. */
  function EpsilonRatio(x: real, y: real): Option<real>
  {
    if y + Epsilon == 0.0 then None else Some(x / (y + Epsilon))
  }

  /** `r` is the ratio x / (y + 1e-10): it exists exactly when that
      denominator is not zero, and times the denominator gives back x. */
  predicate RatioOf(r: Option<real>, x: real, y: real)
  {
    && (r.None? <==> y + Epsilon == 0.0)
    && (r.Some? ==> r.value * (y + Epsilon) == x)
  }

  /** The ratio always exists for a non-negative denominator column, and
      has the sign of x there. */
  lemma EpsilonRatioMeaning(x: real, y: real)
    ensures RatioOf(EpsilonRatio(x, y), x, y)
    ensures y >= 0.0 ==> EpsilonRatio(x, y).Some?
    ensures y >= 0.0 && x >= 0.0 ==> EpsilonRatio(x, y).value >= 0.0
  {
    if y + Epsilon != 0.0 {
      assert x / (y + Epsilon) * (y + Epsilon) == x;
    }
  }
}
