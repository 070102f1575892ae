/** The earlier feature deriver of `feature_engineering_function.py`: 25
    columns added to the frame in place and nothing dropped. It shares the
    room, party and calendar rules of the later version but has its own
    ratios, a total stay length, no booking weekday and a different list of
    special days. */
module FeaturesV1 {

  import opened Common
  import opened Bookings
  import opened Tables

  /** (month, day) pairs flagged as special in this version: New Year's Day
      and Eve, Christmas Day, Valentine's Day, April 1 and Halloween. */
  const SpecialDays: seq<(int, int)> :=
    [(1, 1), (12, 31), (12, 25), (2, 14), (4, 1), (10, 31)]

  /** The five `x / (y + 1e-10)` columns of this version. */
  datatype Ratios = Ratios(
    waitingListToAdr: Option<real>,
    leadTimeToWaitingList: Option<real>,
    specialRequestsToAdr: Option<real>,
    adrToLeadTime: Option<real>,
    weekendWeekday: Option<real>)

  function RatiosOf(b: Booking): Ratios
  {
    Ratios(
      waitingListToAdr := EpsilonRatio(b.daysInWaitingList as real, b.adr),
      leadTimeToWaitingList := EpsilonRatio(b.leadTime as real, b.daysInWaitingList as real),
      specialRequestsToAdr := EpsilonRatio(b.totalOfSpecialRequests as real, b.adr),
      adrToLeadTime := EpsilonRatio(b.adr, b.leadTime as real),
      weekendWeekday := EpsilonRatio(b.staysInWeekendNights as real, b.staysInWeekNights as real))
  }

  /** Each ratio column divides the intended numerator column by the
      intended denominator column plus 1e-10. */
  predicate RatiosDescribed(b: Booking, r: Ratios)
  {
    && RatioOf(r.waitingListToAdr, b.daysInWaitingList as real, b.adr)
    && RatioOf(r.leadTimeToWaitingList, b.leadTime as real, b.daysInWaitingList as real)
    && RatioOf(r.specialRequestsToAdr, b.totalOfSpecialRequests as real, b.adr)
    && RatioOf(r.adrToLeadTime, b.adr, b.leadTime as real)
    && RatioOf(r.weekendWeekday, b.staysInWeekendNights as real, b.staysInWeekNights as real)
  }

  lemma RatiosOfDescribed(b: Booking)
    ensures RatiosDescribed(b, RatiosOf(b))
  {
    EpsilonRatioMeaning(b.daysInWaitingList as real, b.adr);
    EpsilonRatioMeaning(b.leadTime as real, b.daysInWaitingList as real);
    EpsilonRatioMeaning(b.totalOfSpecialRequests as real, b.adr);
    EpsilonRatioMeaning(b.adr, b.leadTime as real);
    EpsilonRatioMeaning(b.staysInWeekendNights as real, b.staysInWeekNights as real);
  }

  /** A row of the returned frame: the raw columns, unchanged, and the
      derived ones. */
  datatype Engineered = Engineered(
    raw: Booking,
    shared: SharedFlags,
    calendar: CalendarColumns,
    ratios: Ratios,
    totalStayLength: int)

  function Derive(b: Booking, arrival: int, booking: int): Engineered
  {
    Engineered(
      raw := b,
      shared := SharedFlagsOf(b, arrival),
      calendar := CalendarColumnsOf(b, arrival, booking, SpecialDays),
      ratios := RatiosOf(b),
      totalStayLength := b.staysInWeekendNights + b.staysInWeekNights)
  }

  /** `feature_engineering` of this version on a batch: the rows in input
      order, or the date error pandas raises. */
  function FeatureEngineering(batch: seq<Booking>): Result<seq<Engineered>, DateError>
  {
    match ArrivalDays(batch)
    case Err(e) => Err(e)
    case Ok(arrivals) =>
      match BookingDays(batch, arrivals)
      case Err(e) => Err(e)
      case Ok(bookings) =>
        Ok(seq(|batch|, i requires 0 <= i < |batch| => Derive(batch[i], arrivals[i], bookings[i])))
  }

  /** Everything row `e` promises about booking `b`. */
  predicate Describes(b: Booking, e: Engineered)
  {
    && ArrivalDay(b) == Ok(e.calendar.arrivalDay)
    && e.raw == b
    && ArrivalDateDescribed(b, e.calendar)
    && BookingDateDescribed(b, e.calendar)
    && DayFlagsDescribed(b, e.calendar, SpecialDays)
    && SharedFlagsDescribed(b, e.calendar.arrivalDay, e.shared)
    && (e.shared.onlyAdultsOnWeekday == 1 ==> e.calendar.arrivalOnWeekend == 0)
    && RatiosDescribed(b, e.ratios)
    && e.totalStayLength == b.staysInWeekendNights + b.staysInWeekNights
  }

  /** One derived row meets every promise about its booking. */
  lemma DeriveDescribes(b: Booking, arrival: int, booking: int)
    requires ArrivalDay(b) == Ok(arrival) && BookingDay(arrival, b.leadTime) == Ok(booking)
    ensures Describes(b, Derive(b, arrival, booking))
  {
    BookingDateColumns(b, arrival, booking, SpecialDays);
    DayFlagColumns(b, arrival, booking, SpecialDays);
    SharedFlagsOfDescribed(b, arrival);
    RatiosOfDescribed(b);
  }

  /** The batch fails exactly when some arrival date cannot be built or some
      date falls outside the Timestamp range. */
  lemma FeatureEngineeringFails(batch: seq<Booking>)
    ensures FeatureEngineering(batch).Ok? <==> DatesInRange(batch)
  {
    BatchDaysSucceed(batch);
  }

  /** On success there is one row per booking, in order, and each meets
      every promise about its booking. */
  lemma FeatureEngineeringRows(batch: seq<Booking>)
    requires FeatureEngineering(batch).Ok?
    ensures |FeatureEngineering(batch).value| == |batch|
    ensures forall i :: 0 <= i < |batch| ==> Describes(batch[i], FeatureEngineering(batch).value[i])
  {
    var arrivals := ArrivalDays(batch).value;
    var bookings := BookingDays(batch, arrivals).value;
    var rows := FeatureEngineering(batch).value;
    forall i | 0 <= i < |batch|
      ensures Describes(batch[i], rows[i])
    {
      assert rows[i] == Derive(batch[i], arrivals[i], bookings[i]);
      DeriveDescribes(batch[i], arrivals[i], bookings[i]);
    }
  }

  // ---------------------------------------------------------------------
  // Column labels

  /** The columns added, in the order they are assigned. */
  const AddedColumns: seq<string> := [
    "is_reserved_room_same_with_assigned_room", "waiting_list_to_adr_ratio",
    "lead_time_to_waiting_list_ratio", "total_special_requests_to_adr_ratio",
    "adr_to_lead_time_ratio", "total_stay_length", "weekend_weekday_ratio",
    "is_only_children_booking", "is_only_adult_booking", "arrival_date_full", "arrival_weekday",
    "is_only_adults_on_weekday", "booking_date_full", "booking_date_year", "booking_date_month",
    "booking_date_week_number", "booking_date_day_of_month", "booking_season", "arrival_season",
    "booking_date_month_integer_version", "arrival_date_month_integer_version",
    "is_booking_on_special_day", "is_arrival_on_special_day", "is_arrival_on_weekend",
    "is_booking_on_weekend"]

  /** The labels of the returned frame for an input with labels `input`:
      nothing is dropped, so the input columns stay in front in their order,
      every added column is present, and no label occurs twice. */
  function OutputColumns(input: seq<string>): (r: seq<string>)
    requires Distinct(input)
    ensures input <= r && Distinct(r)
    ensures forall c :: c in r <==> c in input || c in AddedColumns
  {
    AssignAll(input, AddedColumns)
  }
}
