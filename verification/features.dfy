/** The feature deriver of `util/feature_engineering.py`: 42 columns derived
    from each booking, an agent-frequency flag computed over the whole batch,
    and a fixed list of 11 columns dropped from the result. */
module Features {

  import opened Common
  import opened Calendar
  import opened Bookings
  import opened Tables

  /** (month, day) pairs flagged as special: New Year's Day and Eve,
      Christmas Day and Eve, Valentine's Day, Halloween and Labour Day. */
  const SpecialDays: seq<(int, int)> :=
    [(1, 1), (12, 31), (12, 25), (12, 24), (2, 14), (10, 31), (5, 1)]

  /** Meal plans that include no meal. */
  const NoMealPlans: set<string> := {"Undefined", "SC"}

  /** A booking with fewer bookings than this from its agent, within the
      same batch, is flagged as made through a low-activity agent. */
  const LowActivityThreshold: int := 1000

  // ---------------------------------------------------------------------
  // Row rules of this version only

  function EarlyRefundable(b: Booking): int
  {
    Flag(b.leadTime > 90 && b.depositType == "Refundable")
  }

  function LateNonRefundable(b: Booking): int
  {
    Flag(b.leadTime < 30 && b.depositType == "Non Refund")
  }

  function LongStayNoMeal(b: Booking): int
  {
    Flag(b.meal in NoMealPlans && b.staysInWeekendNights + b.staysInWeekNights > 3)
  }

  /** A missing children count makes the sum missing and the comparison false. */
  function KidsButNoMeal(b: Booking): int
  {
    Flag(b.children.Some? && b.children.value + b.babies > 0 && b.meal in NoMealPlans)
  }

  function LateBooking(b: Booking): int
  {
    Flag(b.leadTime < 7)
  }

  function TotalPreviousBookings(b: Booking): int
  {
    b.previousCancellations + b.previousBookingsNotCanceled
  }

  /** Cancellations as a percentage of all earlier bookings; 0 when the
      total is not positive. */
  function PreviousCancellationPercentage(b: Booking): real
  {
    var total := TotalPreviousBookings(b);
    if total > 0 then b.previousCancellations as real / total as real * 100.0 else 0.0
  }

  lemma PercentageBounds(b: Booking)
    requires b.previousCancellations >= 0 && b.previousBookingsNotCanceled >= 0
    ensures 0.0 <= PreviousCancellationPercentage(b) <= 100.0
    ensures TotalPreviousBookings(b) == 0 ==> PreviousCancellationPercentage(b) == 0.0
    ensures TotalPreviousBookings(b) > 0 ==>
      PreviousCancellationPercentage(b) * TotalPreviousBookings(b) as real
        == 100.0 * b.previousCancellations as real
  {
    var c, t := b.previousCancellations as real, TotalPreviousBookings(b) as real;
    if t > 0.0 {
      assert c / t <= 1.0 by {
        assert c <= t;
        assert c / t * t == c;
      }
      assert c / t * 100.0 * t == 100.0 * c by {
        assert c / t * t == c;
      }
    }
  }

  function FilledCountry(b: Booking): string
  {
    match b.country
    case None => "unknown"
    case Some(c) => c
  }

  function FilledAgent(b: Booking): string
  {
    match b.agent
    case None => "unknown"
    case Some(a) => a
  }

  /** The agent column of a batch after missing agents became "unknown". */
  function AgentColumn(batch: seq<Booking>): (agents: seq<string>)
    ensures |agents| == |batch|
    ensures forall i :: 0 <= i < |batch| ==> agents[i] == FilledAgent(batch[i])
  {
    seq(|batch|, i requires 0 <= i < |batch| => FilledAgent(batch[i]))
  }

  function LowActivityAgent(agents: seq<string>, agent: string): int
  {
    Flag(Count(agents, agent) < LowActivityThreshold)
  }

  /** Group size with `children` as a nullable integer: missing when the
      children count is missing. */
  function TotalPeople(b: Booking): Option<int>
  {
    match b.children
    case None => None
    case Some(c) => Some(b.adults + c + b.babies)
  }

  function SoloTraveler(b: Booking): Option<int>
  {
    match b.children
    case None => None
    case Some(c) => Some(Flag(b.adults + c + b.babies == 1))
  }

  /** The party-size columns: missing exactly when `children` is missing,
      otherwise the sum, and the solo flag is 1 exactly when the sum is 1. */
  predicate PartyDescribed(b: Booking, totalPeople: Option<int>, soloTraveler: Option<int>)
  {
    && (totalPeople.None? <==> b.children.None?)
    && (totalPeople.Some? ==> totalPeople.value == b.adults + b.children.value + b.babies)
    && (soloTraveler.None? <==> totalPeople.None?)
    && (soloTraveler.Some? ==> IsFlag(soloTraveler.value))
    && (soloTraveler == Some(1) <==> totalPeople == Some(1))
  }

  lemma PartyOf(b: Booking)
    ensures PartyDescribed(b, TotalPeople(b), SoloTraveler(b))
  {
  }

  // ---------------------------------------------------------------------
  // Ratios

  /** The nine `x / (y + 1e-10)` columns of this version. */
  datatype Ratios = Ratios(
    waitingListToAdr: Option<real>,
    specialRequestsToAdr: Option<real>,
    leadTimeToAdr: Option<real>,
    weekendWeekday: Option<real>,
    changesToLeadTime: Option<real>,
    changesToAdr: Option<real>,
    specialRequestsToLeadTime: Option<real>,
    previousBookingsToSpecialRequests: Option<real>,
    leadTimeToStay: Option<real>)

  function RatiosOf(b: Booking): Ratios
  {
    Ratios(
      waitingListToAdr := EpsilonRatio(b.daysInWaitingList as real, b.adr),
      specialRequestsToAdr := EpsilonRatio(b.totalOfSpecialRequests as real, b.adr),
      leadTimeToAdr := EpsilonRatio(b.leadTime as real, b.adr),
      weekendWeekday := EpsilonRatio(b.staysInWeekendNights as real, b.staysInWeekNights as real),
      changesToLeadTime := EpsilonRatio(b.bookingChanges as real, b.leadTime as real),
      changesToAdr := EpsilonRatio(b.bookingChanges as real, b.adr),
      specialRequestsToLeadTime := EpsilonRatio(b.totalOfSpecialRequests as real, b.leadTime as real),
      previousBookingsToSpecialRequests :=
        EpsilonRatio(TotalPreviousBookings(b) as real, b.totalOfSpecialRequests as real),
      leadTimeToStay :=
        EpsilonRatio(b.leadTime as real, (b.staysInWeekendNights + b.staysInWeekNights) as real))
  }

  /** Each ratio column divides the intended numerator column by the
      intended denominator column plus 1e-10. */
  predicate RatiosDescribed(b: Booking, r: Ratios)
  {
    && RatioOf(r.waitingListToAdr, b.daysInWaitingList as real, b.adr)
    && RatioOf(r.specialRequestsToAdr, b.totalOfSpecialRequests as real, b.adr)
    && RatioOf(r.leadTimeToAdr, b.leadTime as real, b.adr)
    && RatioOf(r.weekendWeekday, b.staysInWeekendNights as real, b.staysInWeekNights as real)
    && RatioOf(r.changesToLeadTime, b.bookingChanges as real, b.leadTime as real)
    && RatioOf(r.changesToAdr, b.bookingChanges as real, b.adr)
    && RatioOf(r.specialRequestsToLeadTime, b.totalOfSpecialRequests as real, b.leadTime as real)
    && RatioOf(r.previousBookingsToSpecialRequests,
               (b.previousCancellations + b.previousBookingsNotCanceled) as real,
               b.totalOfSpecialRequests as real)
    && RatioOf(r.leadTimeToStay, b.leadTime as real,
               (b.staysInWeekendNights + b.staysInWeekNights) as real)
  }

  lemma RatiosOfDescribed(b: Booking)
    ensures RatiosDescribed(b, RatiosOf(b))
  {
    EpsilonRatioMeaning(b.daysInWaitingList as real, b.adr);
    EpsilonRatioMeaning(b.totalOfSpecialRequests as real, b.adr);
    EpsilonRatioMeaning(b.leadTime as real, b.adr);
    EpsilonRatioMeaning(b.staysInWeekendNights as real, b.staysInWeekNights as real);
    EpsilonRatioMeaning(b.bookingChanges as real, b.leadTime as real);
    EpsilonRatioMeaning(b.bookingChanges as real, b.adr);
    EpsilonRatioMeaning(b.totalOfSpecialRequests as real, b.leadTime as real);
    EpsilonRatioMeaning(TotalPreviousBookings(b) as real, b.totalOfSpecialRequests as real);
    EpsilonRatioMeaning(b.leadTime as real, (b.staysInWeekendNights + b.staysInWeekNights) as real);
  }

  // ---------------------------------------------------------------------
  // Flags of this version only

  datatype Flags = Flags(
    premiumDowngraded: int,
    upgradedToPremium: int,
    earlyRefundable: int,
    lateNonRefundable: int,
    longStayNoMeal: int,
    kidsButNoMeal: int,
    repeatedGuestChangedRoom: int,
    lateBooking: int)

  function FlagsOf(b: Booking): Flags
  {
    Flags(
      premiumDowngraded := PremiumDowngraded(b),
      upgradedToPremium := UpgradedToPremium(b),
      earlyRefundable := EarlyRefundable(b),
      lateNonRefundable := LateNonRefundable(b),
      longStayNoMeal := LongStayNoMeal(b),
      kidsButNoMeal := KidsButNoMeal(b),
      repeatedGuestChangedRoom := RepeatedGuestChangedRoom(b),
      lateBooking := LateBooking(b))
  }

  /** The flags are 0/1 and consistent with each other and with the room
      flag: an unchanged room is neither downgraded, upgraded nor changed
      for a repeated guest; no room is both downgraded and upgraded; no
      booking is both early-refundable and late non-refundable, nor both a
      late booking and early-refundable; both no-meal flags imply a no-meal
      plan. */
  predicate FlagsDescribed(b: Booking, shared: SharedFlags, f: Flags)
  {
    && IsFlag(f.premiumDowngraded) && IsFlag(f.upgradedToPremium) && IsFlag(f.earlyRefundable)
    && IsFlag(f.lateNonRefundable) && IsFlag(f.longStayNoMeal) && IsFlag(f.kidsButNoMeal)
    && IsFlag(f.repeatedGuestChangedRoom) && IsFlag(f.lateBooking)
    && (shared.roomUnchanged == 1 ==>
          f.premiumDowngraded == 0 && f.upgradedToPremium == 0 && f.repeatedGuestChangedRoom == 0)
    && (f.repeatedGuestChangedRoom == 1 <==> b.isRepeatedGuest == 1 && shared.roomUnchanged == 0)
    && !(f.premiumDowngraded == 1 && f.upgradedToPremium == 1)
    && !(f.earlyRefundable == 1 && f.lateNonRefundable == 1)
    && !(f.lateBooking == 1 && f.earlyRefundable == 1)
    && (f.lateBooking == 1 ==> b.leadTime < 30)
    && (f.longStayNoMeal == 1 || f.kidsButNoMeal == 1 ==> b.meal in NoMealPlans)
    && (f.kidsButNoMeal == 1 ==> b.children.Some?)
  }

  lemma FlagsOfDescribed(b: Booking, arrivalDay: int)
    ensures FlagsDescribed(b, SharedFlagsOf(b, arrivalDay), FlagsOf(b))
  {
    var shared := SharedFlagsOf(b, arrivalDay);
    assert shared.roomUnchanged == RoomUnchanged(b);
  }

  // ---------------------------------------------------------------------
  // One row

  /** A row of the frame just before the final drop: the raw columns (with
      `country` and `agent` filled) and every derived column. */
  datatype Engineered = Engineered(
    raw: Booking,
    shared: SharedFlags,
    calendar: CalendarColumns,
    bookingWeekday: string,
    ratios: Ratios,
    totalPreviousBookings: int,
    previousCancellationPercentage: real,
    flags: Flags,
    lowActivityAgent: int,
    totalPeople: Option<int>,
    soloTraveler: Option<int>)

  /** The derived columns of one booking, given its arrival and booking day
      numbers and the batch's agent column. */
  function Derive(b: Booking, arrival: int, booking: int, agents: seq<string>): Engineered
  {
    Engineered(
      raw := b.(country := Some(FilledCountry(b)), agent := Some(FilledAgent(b))),
      shared := SharedFlagsOf(b, arrival),
      calendar := CalendarColumnsOf(b, arrival, booking, SpecialDays),
      bookingWeekday := DayName(booking),
      ratios := RatiosOf(b),
      totalPreviousBookings := TotalPreviousBookings(b),
      previousCancellationPercentage := PreviousCancellationPercentage(b),
      flags := FlagsOf(b),
      lowActivityAgent := LowActivityAgent(agents, FilledAgent(b)),
      totalPeople := TotalPeople(b),
      soloTraveler := SoloTraveler(b))
  }

  /** `feature_engineering` on a batch of bookings: the rows in input order,
      or the date error pandas raises. */
  function FeatureEngineering(batch: seq<Booking>): Result<seq<Engineered>, DateError>
  {
    match ArrivalDays(batch)
    case Err(e) => Err(e)
    case Ok(arrivals) =>
      match BookingDays(batch, arrivals)
      case Err(e) => Err(e)
      case Ok(bookings) =>
        var agents := AgentColumn(batch);
        Ok(seq(|batch|, i requires 0 <= i < |batch| => Derive(batch[i], arrivals[i], bookings[i], agents)))
  }

  // ---------------------------------------------------------------------
  // What a row means

  /** The counting columns: total previous bookings is the sum of the two
      counts, and the cancellation percentage lies in [0, 100] for
      non-negative counts and is 0 when there are none. */
  predicate HistoryDescribed(b: Booking, e: Engineered)
  {
    && e.totalPreviousBookings == b.previousCancellations + b.previousBookingsNotCanceled
    && (b.previousCancellations >= 0 && b.previousBookingsNotCanceled >= 0 ==>
          0.0 <= e.previousCancellationPercentage <= 100.0)
    && (e.totalPreviousBookings == 0 ==> e.previousCancellationPercentage == 0.0)
  }

  /** Everything row `e` promises about booking `b` within the batch whose
      agent column is `agents`. */
  predicate Describes(b: Booking, e: Engineered, agents: seq<string>)
  {
    && ArrivalDay(b) == Ok(e.calendar.arrivalDay)
    && e.raw == b.(country := Some(FilledCountry(b)), agent := Some(FilledAgent(b)))
    && (b.country.None? ==> e.raw.country == Some("unknown"))
    && (b.agent.None? ==> e.raw.agent == Some("unknown"))
    && (e.lowActivityAgent == 1 <==> Count(agents, FilledAgent(b)) < LowActivityThreshold)
    && ArrivalDateDescribed(b, e.calendar)
    && BookingDateDescribed(b, e.calendar)
    && DayFlagsDescribed(b, e.calendar, SpecialDays)
    && e.bookingWeekday == DayName(e.calendar.bookingDay)
    && SharedFlagsDescribed(b, e.calendar.arrivalDay, e.shared)
    && (e.shared.onlyAdultsOnWeekday == 1 ==> e.calendar.arrivalOnWeekend == 0)
    && RatiosDescribed(b, e.ratios)
    && FlagsDescribed(b, e.shared, e.flags)
    && HistoryDescribed(b, e)
    && PartyDescribed(b, e.totalPeople, e.soloTraveler)
  }

  lemma DeriveHistory(b: Booking, arrival: int, booking: int, agents: seq<string>)
    ensures HistoryDescribed(b, Derive(b, arrival, booking, agents))
  {
    if b.previousCancellations >= 0 && b.previousBookingsNotCanceled >= 0 {
      PercentageBounds(b);
    }
  }

  /** One derived row meets every promise about its booking. */
  lemma DeriveDescribes(b: Booking, arrival: int, booking: int, agents: seq<string>)
    requires ArrivalDay(b) == Ok(arrival) && BookingDay(arrival, b.leadTime) == Ok(booking)
    ensures Describes(b, Derive(b, arrival, booking, agents), agents)
  {
    BookingDateColumns(b, arrival, booking, SpecialDays);
    DayFlagColumns(b, arrival, booking, SpecialDays);
    SharedFlagsOfDescribed(b, arrival);
    RatiosOfDescribed(b);
    FlagsOfDescribed(b, arrival);
    DeriveHistory(b, arrival, booking, agents);
    PartyOf(b);
  }

  /** The batch fails exactly when some arrival date cannot be built or some
      date falls outside the Timestamp range. */
  lemma FeatureEngineeringFails(batch: seq<Booking>)
    ensures FeatureEngineering(batch).Ok? <==> DatesInRange(batch)
  {
    BatchDaysSucceed(batch);
  }

  /** On success there is one row per booking, in order, and each meets
      every promise about its booking. */
  lemma FeatureEngineeringRows(batch: seq<Booking>)
    requires FeatureEngineering(batch).Ok?
    ensures |FeatureEngineering(batch).value| == |batch|
    ensures forall i :: 0 <= i < |batch| ==>
      Describes(batch[i], FeatureEngineering(batch).value[i], AgentColumn(batch))
  {
    var arrivals := ArrivalDays(batch).value;
    var bookings := BookingDays(batch, arrivals).value;
    var rows := FeatureEngineering(batch).value;
    forall i | 0 <= i < |batch|
      ensures Describes(batch[i], rows[i], AgentColumn(batch))
    {
      assert rows[i] == Derive(batch[i], arrivals[i], bookings[i], AgentColumn(batch));
      DeriveDescribes(batch[i], arrivals[i], bookings[i], AgentColumn(batch));
    }
  }

  // ---------------------------------------------------------------------
  // Column labels

  /** The columns added, in the order they are first assigned (`country`,
      `agent` and `children` are reassigned in place and keep their places). */
  const AddedColumns: seq<string> := [
    "is_reserved_room_same_with_assigned_room", "waiting_list_to_adr_ratio",
    "total_special_requests_to_adr_ratio", "lead_time_to_adr_ratio", "weekend_weekday_ratio",
    "is_only_children_booking", "is_only_adult_booking", "arrival_date_full", "arrival_weekday",
    "is_only_adults_on_weekday", "booking_date_full", "booking_date_year", "booking_date_month",
    "booking_date_week_number", "booking_date_day_of_month", "booking_weekday", "booking_season",
    "arrival_season", "booking_date_month_integer_version", "arrival_date_month_integer_version",
    "is_booking_on_special_day", "is_arrival_on_special_day", "is_arrival_on_weekend",
    "is_booking_on_weekend", "total_previous_bookings", "previous_cancellation_percentage",
    "booking_changes_to_lead_time_ratio", "booking_changes_to_adr_ratio",
    "total_special_requests_to_lead_time_ratio",
    "total_previous_bookings_to_total_special_requests_ratio", "is_premium_room_downgraded",
    "is_room_upgraded_to_premium", "is_early_refundable_booking", "is_late_non_refundable_booking",
    "lead_time_to_total_stay_ratio", "is_long_stay_no_meal", "has_kids_but_no_meal",
    "is_low_activity_agent", "total_people", "is_repeated_guest_but_changed_room",
    "is_late_booking", "is_solo_traveler"]

  /** The columns dropped before returning. */
  const DroppedColumns: seq<string> := [
    "arrival_date_year", "arrival_date_day_of_month", "company", "reservation_status",
    "reservation_status_date", "arrival_date_full", "booking_date_full", "booking_date_year",
    "booking_date_day_of_month", "booking_date_month_integer_version",
    "arrival_date_month_integer_version"]

  /** The labels of the returned frame for an input with labels `input`, or
      the label `drop` reports missing. */
  function OutputColumns(input: seq<string>): Result<seq<string>, string>
  {
    DropLabels(AssignAll(input, AddedColumns), DroppedColumns)
  }

  /** The final drop fails only when one of the dropped raw columns is
      absent from the input. */
  lemma OutputColumnsSucceed(input: seq<string>)
    requires Distinct(input)
    ensures OutputColumns(input).Ok? <==> DropsPresent(input, AddedColumns, DroppedColumns)
  {
    AssignThenDrop(input, AddedColumns, DroppedColumns);
  }

  /** The output lacks exactly the dropped columns: every other input column
      keeps its place at the front and every other added column is present,
      each once. */
  lemma OutputColumnsLabels(input: seq<string>)
    requires Distinct(input) && OutputColumns(input).Ok?
    ensures AssignedThenDropped(input, AddedColumns, DroppedColumns, OutputColumns(input).value)
  {
    AssignThenDrop(input, AddedColumns, DroppedColumns);
  }
}
