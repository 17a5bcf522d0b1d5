/** The rental record (Rental.java): its fields and defaults, the two date
    setters, and the rental-day count computed from the stored date strings. */
module RentalModel {
  import opened Common
  import opened CivilTime

  /** PaymentStatus.java; the Polish display names carry no behaviour. */
  datatype PaymentStatus = PENDING | PAID | FAILED

  /** One row of the rental table. Nullable columns are Options; `totalCost`
      is a BigDecimal and so is kept as an exact real. */
  datatype Rental = Rental(
    id: Option<nat>,
    vehicleId: nat,
    userId: nat,
    rentDate: Option<string>,
    returnDate: Option<string>,
    returned: bool,
    totalCost: Option<real>,
    paymentStatus: PaymentStatus,
    paymentUrl: Option<string>,
    rentalDays: Option<int>,
    stripeSessionId: Option<string>,
    stripePaymentIntentId: Option<string>)

  /** `new Rental()` followed by `setVehicleId` and `setUserId`: every other
      field keeps its declared default. */
  function NewRental(vehicleId: nat, userId: nat): (r: Rental)
    ensures !r.returned && r.paymentStatus == PENDING
    ensures r.id.None? && r.rentDate.None? && r.returnDate.None? && r.totalCost.None?
    ensures r.vehicleId == vehicleId && r.userId == userId
  {
    Rental(None, vehicleId, userId, None, None, false, None, PENDING, None, None, None, None)
  }

  /** The four-argument constructor: the dates are stored as given. */
  function RentalOf(vehicleId: nat, userId: nat, rentDate: Option<string>, returnDate: Option<string>): (r: Rental)
    ensures !r.returned && r.paymentStatus == PENDING
    ensures r.rentDate == rentDate && r.returnDate == returnDate
  {
    NewRental(vehicleId, userId).(rentDate := rentDate, returnDate := returnDate)
  }

  /** `String.valueOf(Object)`: a null reference becomes the text "null". */
  function ValueOf(s: Option<string>): (r: string)
    ensures s.Some? ==> r == s.value
    ensures s.None? ==> r == "null"
  {
    if s.Some? then s.value else "null"
  }

  /** `setStartDate(l)` stores `String.valueOf(l)`, so the column is never null. */
  function SetStartDate(r: Rental, l: Option<string>): (r': Rental)
    ensures r'.rentDate.Some? && r'.rentDate.value == ValueOf(l)
    ensures r' == r.(rentDate := r'.rentDate)
  {
    r.(rentDate := Some(ValueOf(l)))
  }

  function SetEndDate(r: Rental, l: Option<string>): (r': Rental)
    ensures r'.returnDate.Some? && r'.returnDate.value == ValueOf(l)
    ensures r' == r.(returnDate := r'.returnDate)
  {
    r.(returnDate := Some(ValueOf(l)))
  }

  /** `calculateRentalDays`: 1 when a date is null; otherwise both strings are
      parsed (a string that is not a timestamp raises), the whole days between
      them are narrowed to int and the result is clamped to at least 1. */
  function CalculateRentalDays(r: Rental): (d: Result<int>)
    ensures d.Ok? ==> d.value >= 1
    ensures (r.rentDate.None? || r.returnDate.None?) ==> d == Ok(1)
  {
    if r.rentDate.None? || r.returnDate.None? then Ok(1)
    else
      match (Parse(r.rentDate.value), Parse(r.returnDate.value))
      case (Some(s), Some(e)) => Ok(Max(1, ToInt32(ChronoDaysBetween(s, e))))
      case _ => Err(DateParse)
  }

  /** With dates written by the same formatter, the count is the number of
      complete 24-hour periods from start to end, but never below 1. */
  lemma RentalDaysOfFormattedDates(r: Rental, s: DateTime, e: DateTime)
    requires Valid(s) && Valid(e)
    requires r.rentDate == Some(Format(s)) && r.returnDate == Some(Format(e))
    ensures CalculateRentalDays(r) == Ok(Max(1, TruncDiv(Minutes(e) - Minutes(s), 1440)))
  {
    ParseFormat(s);
    ParseFormat(e);
    ChronoDaysFitInt(s, e);
    ChronoDaysAreWholePeriods(s, e);
  }

  /** For start <= end the count is max(1, floor(minutes / 1440)). */
  lemma RentalDaysForward(r: Rental, s: DateTime, e: DateTime)
    requires Valid(s) && Valid(e) && Minutes(s) <= Minutes(e)
    requires r.rentDate == Some(Format(s)) && r.returnDate == Some(Format(e))
    ensures CalculateRentalDays(r) == Ok(Max(1, (Minutes(e) - Minutes(s)) / 1440))
  {
    RentalDaysOfFormattedDates(r, s, e);
  }

  /** An end before the start (or at the same minute) yields a single day. */
  lemma RentalDaysBackward(r: Rental, s: DateTime, e: DateTime)
    requires Valid(s) && Valid(e) && Minutes(e) <= Minutes(s)
    requires r.rentDate == Some(Format(s)) && r.returnDate == Some(Format(e))
    ensures CalculateRentalDays(r) == Ok(1)
  {
    RentalDaysOfFormattedDates(r, s, e);
  }

  /** The boundary cases: 47h59m is still one day, 48h are two. */
  lemma RentalDaysExamples(r: Rental, s: DateTime, e: DateTime)
    requires Valid(s) && Valid(e)
    requires r.rentDate == Some(Format(s)) && r.returnDate == Some(Format(e))
    ensures Minutes(e) - Minutes(s) == 47 * 60 + 59 ==> CalculateRentalDays(r) == Ok(1)
    ensures Minutes(e) - Minutes(s) == 48 * 60 ==> CalculateRentalDays(r) == Ok(2)
  {
    if Minutes(e) - Minutes(s) == 47 * 60 + 59 {
      RentalDaysForward(r, s, e);
      assert (47 * 60 + 59) / 1440 == 1;
    } else if Minutes(e) - Minutes(s) == 48 * 60 {
      RentalDaysForward(r, s, e);
      assert (48 * 60) / 1440 == 2;
    }
  }

  /** A rental that has been opened but not returned holds the text "null" as
      its return date, which is not a timestamp: counting its days raises. */
  lemma OpenRentalDaysRaise(r: Rental)
    requires r.rentDate.Some?
    ensures CalculateRentalDays(SetEndDate(r, None)) == Err(DateParse)
  {
    assert !WellShaped("null");
  }
}
