/** The rental lifecycle (RentalServiceImpl.java) over the vehicle and rental
    stores: renting, returning, and writing the gateway's payment status. The
    clock is a minute-precision parameter and the gateway an oracle. */
module RentalServiceImpl {
  import opened Common
  import opened CivilTime
  import opened RentalModel
  import opened VehicleModel
  import opened Payments
  import VehicleStore = VehicleRepositoryImpl
  import RentalStore = RentalRepositoryImpl

  /* ---------------- the cross-store invariant ---------------- */

  /** The vehicle and rental stores agree: every unreturned rental points at
      a stored vehicle marked rented, no vehicle has two unreturned rentals,
      and every vehicle marked rented has an unreturned rental. */
  ghost predicate Consistent(V: VehicleStore.Rows, R: RentalStore.Rows)
  {
    (forall k :: k in R && !R[k].returned ==> R[k].vehicleId in V && V[R[k].vehicleId].rented)
    && (forall j, k ::
          (j in R && k in R && !R[j].returned && !R[k].returned && R[j].vehicleId == R[k].vehicleId) ==> j == k)
    && (forall vid :: vid in V && V[vid].rented ==> RentalStore.ActiveKeys(R, vid) != {})
  }

  /** Every unreturned rental carries a start date the formatter can read
      back, so returning it cannot fail on the date. */
  ghost predicate ActiveRentalsDated(R: RentalStore.Rows)
  {
    forall k :: k in R && !R[k].returned ==> R[k].rentDate.Some? && Parse(R[k].rentDate.value).Some?
  }

  /** Writing a returned rental, or one whose start date is readable, keeps
      every unreturned rental readable. */
  lemma DatedAfterWrite(R: RentalStore.Rows, k: nat, written: Rental)
    requires ActiveRentalsDated(R)
    requires written.returned || (written.rentDate.Some? && Parse(written.rentDate.value).Some?)
    ensures ActiveRentalsDated(R[k := written])
  {
  }

  /** Under the invariant a vehicle is marked rented exactly when it has
      exactly one unreturned rental. */
  lemma {:induction false} RentedIffExactlyOneActive(V: VehicleStore.Rows, R: RentalStore.Rows, vid: nat)
    requires Consistent(V, R)
    ensures vid in V ==> (V[vid].rented <==> |RentalStore.ActiveKeys(R, vid)| == 1)
    ensures vid !in V ==> RentalStore.ActiveKeys(R, vid) == {}
  {
    var A := RentalStore.ActiveKeys(R, vid);
    if A != {} {
      var k :| k in A;
      assert A == {k};
      assert vid in V && V[vid].rented;
    } else {
      assert |A| == 0;
    }
  }

  /** Renting an available vehicle under a fresh rental key keeps the stores
      consistent. */
  lemma RentKeepsConsistent(V: VehicleStore.Rows, R: RentalStore.Rows, vid: nat, k: nat, started: Rental)
    requires Consistent(V, R)
    requires vid in V && !V[vid].rented && k !in R
    requires started.vehicleId == vid && !started.returned
    ensures Consistent(V[vid := V[vid].(rented := true)], R[k := started])
  {
    var V', R' := V[vid := V[vid].(rented := true)], R[k := started];
    forall w | w in V' && V'[w].rented
      ensures RentalStore.ActiveKeys(R', w) != {}
    {
      if w == vid {
        assert k in RentalStore.ActiveKeys(R', w);
      } else {
        var j :| j in RentalStore.ActiveKeys(R, w);
        assert j in RentalStore.ActiveKeys(R', w);
      }
    }
  }

  /** Closing the unreturned rental of a vehicle and clearing its flag keeps
      the stores consistent, and leaves the vehicle without an unreturned
      rental. */
  lemma ReturnKeepsConsistent(V: VehicleStore.Rows, R: RentalStore.Rows, vid: nat, k: nat, closed: Rental)
    requires Consistent(V, R)
    requires k in RentalStore.ActiveKeys(R, vid) && closed.returned
    ensures vid in V
    ensures Consistent(V[vid := V[vid].(rented := false)], R[k := closed])
    ensures RentalStore.ActiveKeys(R[k := closed], vid) == {}
  {
    var V', R' := V[vid := V[vid].(rented := false)], R[k := closed];
    forall j | j in R' && !R'[j].returned
      ensures R'[j].vehicleId in V' && V'[R'[j].vehicleId].rented
    {
      assert j != k && R[j] == R'[j];
      assert R[j].vehicleId != vid;
    }
    forall w | w in V' && V'[w].rented
      ensures RentalStore.ActiveKeys(R', w) != {}
    {
      var j :| j in RentalStore.ActiveKeys(R, w);
      assert j != k;
      assert j in RentalStore.ActiveKeys(R', w);
    }
    assert RentalStore.ActiveKeys(R, vid) == {k};
    assert RentalStore.ActiveKeys(R', vid) <= RentalStore.ActiveKeys(R, vid) - {k};
  }

  /** Rewriting a rental's payment fields (anything but its vehicle and its
      `returned` flag) keeps the stores consistent. */
  lemma PaymentUpdateKeepsConsistent(V: VehicleStore.Rows, R: RentalStore.Rows, k: nat, updated: Rental)
    requires Consistent(V, R) && k in R
    requires updated.vehicleId == R[k].vehicleId && updated.returned == R[k].returned
    ensures Consistent(V, R[k := updated])
  {
    var R' := R[k := updated];
    forall w | w in V && V[w].rented
      ensures RentalStore.ActiveKeys(R', w) != {}
    {
      var j :| j in RentalStore.ActiveKeys(R, w);
      assert j in RentalStore.ActiveKeys(R', w);
    }
  }

  /** A soft delete of a vehicle leaves its `rented` flag alone and so keeps
      the stores consistent. */
  lemma VehicleSoftDeleteKeepsConsistent(V: VehicleStore.Rows, R: RentalStore.Rows, id: nat)
    requires Consistent(V, R)
    ensures Consistent(VehicleStore.SoftDeleted(V, id), R)
  {
    var V' := VehicleStore.SoftDeleted(V, id);
    forall k | k in R && !R[k].returned
      ensures R[k].vehicleId in V' && V'[R[k].vehicleId].rented
    {
    }
  }

  /** The rental store's hard `deleteById` of an unreturned rental breaks
      the invariant: its vehicle stays marked rented with no rental left. */
  lemma HardDeleteOfActiveRentalBreaksConsistency(V: VehicleStore.Rows, R: RentalStore.Rows, k: nat)
    requires Consistent(V, R) && k in R && !R[k].returned
    ensures !Consistent(V, R - {k})
  {
    var vid := R[k].vehicleId;
    assert vid in V && V[vid].rented;
    assert RentalStore.ActiveKeys(R, vid) == {k};
    assert RentalStore.ActiveKeys(R - {k}, vid) <= RentalStore.ActiveKeys(R, vid) - {k};
  }

  /* ---------------- the records rent and return write ---------------- */

  /** The rental `rent` creates: vehicle and user set, start date formatted
      from the clock, end date set from null (and so stored as "null"),
      status PENDING. */
  function OpenedRental(vehicleId: nat, userId: nat, now: DateTime): (r: Rental)
    requires Valid(now)
    ensures r.vehicleId == vehicleId && r.userId == userId
    ensures !r.returned && r.paymentStatus == PENDING && r.id.None?
    ensures r.rentDate == Some(Format(now)) && Parse(r.rentDate.value) == Some(now)
    ensures r.returnDate == Some("null")
  {
    ParseFormat(now);
    SetEndDate(SetStartDate(NewRental(vehicleId, userId), Some(Format(now))), None).(paymentStatus := PENDING)
  }

  /** The record `returnRental` writes for the unreturned rental `a`: the end
      date from the clock, the day count (at least 1), the cost from the
      vehicle's current price, status PENDING and `returned` set. The day
      count raises on an unreadable date; the cost raises for a vehicle that
      is not stored. */
  function ReturnedRental(a: Rental, now: DateTime, vehicles: VehicleStore.Rows): (r: Result<Rental>)
    requires Valid(now)
    ensures r.Ok? ==> r.value.returned && r.value.paymentStatus == PENDING
    ensures r.Ok? ==> r.value.rentalDays.Some? && r.value.rentalDays.value >= 1
    ensures r.Ok? ==> a.vehicleId in vehicles
                      && r.value.totalCost == Some((vehicles[a.vehicleId].price * r.value.rentalDays.value) as real)
    ensures r.Ok? ==> r.value.id == a.id && r.value.vehicleId == a.vehicleId && r.value.userId == a.userId
                      && r.value.rentDate == a.rentDate && r.value.returnDate == Some(Format(now))
    ensures r.Err? ==> r.error == DateParse || (r.error == VehicleNotFound && a.vehicleId !in vehicles)
  {
    var ended := SetEndDate(a, Some(Format(now)));
    match CalculateRentalDays(ended)
    case Err(e) => Err(e)
    case Ok(d) =>
      var days := Max(1, d);
      match CalculateTotalCost(vehicles, a.vehicleId, days)
      case Err(e) => Err(e)
      case Ok(cost) =>
        Ok(ended.(rentalDays := Some(days), totalCost := Some(cost), paymentStatus := PENDING, returned := true))
  }

  /** For a rental opened at `start`, the return succeeds whenever the
      vehicle is stored, and charges the vehicle's price for each started
      day beyond the first complete 24-hour period, at least one day. */
  lemma ReturnedRentalCharge(a: Rental, start: DateTime, now: DateTime, vehicles: VehicleStore.Rows)
    requires Valid(start) && Valid(now)
    requires a.rentDate == Some(Format(start)) && a.vehicleId in vehicles
    ensures ReturnedRental(a, now, vehicles).Ok?
    ensures var days := Max(1, TruncDiv(Minutes(now) - Minutes(start), 1440));
            ReturnedRental(a, now, vehicles).value.rentalDays == Some(days)
            && ReturnedRental(a, now, vehicles).value.totalCost == Some((vehicles[a.vehicleId].price * days) as real)
  {
    RentalDaysOfFormattedDates(SetEndDate(a, Some(Format(now))), start, now);
  }

  /** A rental whose start date parses can always be closed when its vehicle
      is stored. */
  lemma ReturnSucceedsWhenDated(a: Rental, now: DateTime, vehicles: VehicleStore.Rows)
    requires Valid(now)
    requires a.rentDate.Some? && Parse(a.rentDate.value).Some? && a.vehicleId in vehicles
    ensures ReturnedRental(a, now, vehicles).Ok?
  {
    var start := Parse(a.rentDate.value).value;
    ReturnedRentalCharge(a, start, now, vehicles);
  }

  /** The example of a two-day rental: 2024-01-01 10:00 to 2024-01-03 10:00
      at price 100 is two days and costs 200. */
  lemma TwoDayRentalExample(a: Rental, vehicles: VehicleStore.Rows)
    requires a.rentDate == Some(Format(DateTime(2024, 1, 1, 10, 0)))
    requires a.vehicleId in vehicles && vehicles[a.vehicleId].price == 100
    ensures ReturnedRental(a, DateTime(2024, 1, 3, 10, 0), vehicles).Ok?
    ensures ReturnedRental(a, DateTime(2024, 1, 3, 10, 0), vehicles).value.rentalDays == Some(2)
    ensures ReturnedRental(a, DateTime(2024, 1, 3, 10, 0), vehicles).value.totalCost == Some(200.0)
  {
    var s, e := DateTime(2024, 1, 1, 10, 0), DateTime(2024, 1, 3, 10, 0);
    TwoDaysApart();
    ReturnedRentalCharge(a, s, e, vehicles);
    assert TruncDiv(2 * 1440, 1440) == 2;
  }

  lemma TwoDaysApart()
    ensures Valid(DateTime(2024, 1, 1, 10, 0)) && Valid(DateTime(2024, 1, 3, 10, 0))
    ensures Minutes(DateTime(2024, 1, 3, 10, 0)) - Minutes(DateTime(2024, 1, 1, 10, 0)) == 2 * 1440
  {
  }

  /** What `updatePaymentStatus` writes: the gateway's status, unconditionally,
      and the passed id as `paymentUrl` when it is not null. */
  function ApplyGatewayStatus(r: Rental, stripePaymentId: Option<string>, status: PaymentStatus): (r': Rental)
    ensures r'.paymentStatus == status
    ensures r'.paymentUrl == (if stripePaymentId.Some? then stripePaymentId else r.paymentUrl)
    ensures r' == r.(paymentStatus := r'.paymentStatus, paymentUrl := r'.paymentUrl)
  {
    r.(paymentStatus := status, paymentUrl := if stripePaymentId.Some? then stripePaymentId else r.paymentUrl)
  }

  /** The overwrite is unconditional: a PAID rental becomes FAILED when the
      gateway lookup fails, and PENDING when the session is open again. */
  lemma PaidCanBeOverwritten(r: Rental, id: Option<string>, lookup: Lookup)
    requires r.paymentStatus == PAID
    ensures lookup.session.StripeError? ==> ApplyGatewayStatus(r, id, GatewayStatus(lookup, true)).paymentStatus == FAILED
    ensures lookup.session == Answer(SessionState(Some("open"), None)) ==>
              ApplyGatewayStatus(r, id, GatewayStatus(lookup, true)).paymentStatus == PENDING
  {
  }

  /** Whether a vehicle can be rented: stored, not rented, not deleted. */
  predicate CanRent(V: VehicleStore.Rows, vehicleId: nat)
  {
    vehicleId in V && !V[vehicleId].rented && !V[vehicleId].deleted
  }

  /* ---------------- the service ---------------- */

  class RentalService {
    const rentalRepo: RentalStore.RentalRepository
    const vehicleRepo: VehicleStore.VehicleRepository

    ghost predicate Valid()
      reads rentalRepo, vehicleRepo
    {
      rentalRepo.Valid() && vehicleRepo.Valid()
    }

    constructor (rentalRepo: RentalStore.RentalRepository, vehicleRepo: VehicleStore.VehicleRepository)
      ensures this.rentalRepo == rentalRepo && this.vehicleRepo == vehicleRepo
    {
      this.rentalRepo := rentalRepo;
      this.vehicleRepo := vehicleRepo;
    }

    /** `isVehicleRented`: asks the rental store, not the vehicle's flag; the
        two agree while the stores are consistent. */
    method IsVehicleRented(vehicleId: nat) returns (b: bool)
      requires Valid()
      ensures b <==> RentalStore.ActiveKeys(rentalRepo.rows, vehicleId) != {}
      ensures Consistent(vehicleRepo.rows, rentalRepo.rows) ==>
                (b <==> vehicleId in vehicleRepo.rows && vehicleRepo.rows[vehicleId].rented)
    {
      var active := rentalRepo.FindActiveRentalByVehicleId(vehicleId);
      b := active.Some?;
      if Consistent(vehicleRepo.rows, rentalRepo.rows) {
        RentedIffExactlyOneActive(vehicleRepo.rows, rentalRepo.rows, vehicleId);
      }
    }

    /** `rent`: null, with nothing written, unless the vehicle is stored,
        free and not deleted; otherwise a new rental is stored and the
        vehicle is marked rented. */
    method Rent(vehicleId: nat, userId: nat, now: DateTime) returns (r: Option<Rental>)
      requires Valid() && CivilTime.Valid(now)
      modifies rentalRepo, vehicleRepo
      ensures Valid()
      ensures r.None? <==> !CanRent(old(vehicleRepo.rows), vehicleId)
      ensures r.None? ==> rentalRepo.rows == old(rentalRepo.rows) && vehicleRepo.rows == old(vehicleRepo.rows)
      ensures r.Some? ==>
                old(rentalRepo.nextId) !in old(rentalRepo.rows)
                && r.value == OpenedRental(vehicleId, userId, now).(id := Some(old(rentalRepo.nextId)))
                && rentalRepo.rows == old(rentalRepo.rows)[old(rentalRepo.nextId) := r.value]
                && vehicleRepo.rows == old(vehicleRepo.rows)[vehicleId := old(vehicleRepo.rows)[vehicleId].(rented := true)]
      ensures Consistent(old(vehicleRepo.rows), old(rentalRepo.rows)) ==> Consistent(vehicleRepo.rows, rentalRepo.rows)
      ensures ActiveRentalsDated(old(rentalRepo.rows)) ==> ActiveRentalsDated(rentalRepo.rows)
    {
      var vehicle := VehicleStore.FindById(vehicleRepo.rows, vehicleId);
      if vehicle.None? || vehicle.value.rented || vehicle.value.deleted {
        return None;
      }
      ghost var V0, R0 := vehicleRepo.rows, rentalRepo.rows;
      var rental := rentalRepo.Save(OpenedRental(vehicleId, userId, now));
      var updated := vehicle.value.(rented := true);
      assert !VehicleStore.PlateClash(vehicleRepo.rows, updated);
      var _ := vehicleRepo.Save(updated);
      if Consistent(V0, R0) {
        RentKeepsConsistent(V0, R0, vehicleId, rental.id.value, rental);
      }
      if ActiveRentalsDated(R0) {
        DatedAfterWrite(R0, rental.id.value, rental);
      }
      r := Some(rental);
    }

    /** `returnRental`: null, with nothing written, when the vehicle has no
        unreturned rental; otherwise that rental is closed and the vehicle's
        flag cleared. The user argument is never consulted. */
    method ReturnRental(vehicleId: nat, userId: nat, now: DateTime) returns (r: Result<Option<Rental>>)
      requires Valid() && CivilTime.Valid(now)
      modifies rentalRepo, vehicleRepo
      ensures Valid()
      ensures r == Ok(None) <==> RentalStore.ActiveKeys(old(rentalRepo.rows), vehicleId) == {}
      ensures r.Err? || r == Ok(None) ==>
                rentalRepo.rows == old(rentalRepo.rows) && vehicleRepo.rows == old(vehicleRepo.rows)
      ensures r.Ok? && r.value.Some? ==>
                r.value.value.id.Some?
                && r.value.value.id.value in RentalStore.ActiveKeys(old(rentalRepo.rows), vehicleId)
                && ReturnedRental(old(rentalRepo.rows)[r.value.value.id.value], now, old(vehicleRepo.rows)) == Ok(r.value.value)
                && rentalRepo.rows == old(rentalRepo.rows)[r.value.value.id.value := r.value.value]
                && vehicleId in old(vehicleRepo.rows)
                && vehicleRepo.rows == old(vehicleRepo.rows)[vehicleId := old(vehicleRepo.rows)[vehicleId].(rented := false)]
      ensures r.Err? ==> r.error == DateParse || (r.error == VehicleNotFound && vehicleId !in old(vehicleRepo.rows))
      ensures vehicleId in old(vehicleRepo.rows) && ActiveRentalsDated(old(rentalRepo.rows)) ==> r.Ok?
      ensures Consistent(old(vehicleRepo.rows), old(rentalRepo.rows)) ==> Consistent(vehicleRepo.rows, rentalRepo.rows)
      ensures Consistent(old(vehicleRepo.rows), old(rentalRepo.rows)) && r.Ok? ==>
                RentalStore.ActiveKeys(rentalRepo.rows, vehicleId) == {}
      ensures ActiveRentalsDated(old(rentalRepo.rows)) ==> ActiveRentalsDated(rentalRepo.rows)
    {
      var active := rentalRepo.FindActiveRentalByVehicleId(vehicleId);
      if active.None? {
        return Ok(None);
      }
      var a := active.value;
      ghost var V0, R0, k := vehicleRepo.rows, rentalRepo.rows, a.id.value;
      if vehicleId in V0 && ActiveRentalsDated(R0) {
        ReturnSucceedsWhenDated(a, now, V0);
      }
      var closed := ReturnedRental(a, now, vehicleRepo.rows);
      if closed.Err? {
        return Err(closed.error);
      }
      var c := closed.value;
      StoreReturn(vehicleId, c);
      if Consistent(V0, R0) {
        ReturnKeepsConsistent(V0, R0, vehicleId, k, c);
      }
      if ActiveRentalsDated(R0) {
        DatedAfterWrite(R0, k, c);
      }
      r := Ok(Some(c));
    }

    /** The writes that end `returnRental`: the closed rental is saved, and
        the vehicle, when found, is saved with its flag cleared. */
    method StoreReturn(vehicleId: nat, c: Rental)
      requires Valid() && c.id.Some? && c.id.value in rentalRepo.rows && vehicleId in vehicleRepo.rows
      modifies rentalRepo, vehicleRepo
      ensures Valid()
      ensures rentalRepo.rows == old(rentalRepo.rows)[c.id.value := c]
      ensures vehicleRepo.rows == old(vehicleRepo.rows)[vehicleId := old(vehicleRepo.rows)[vehicleId].(rented := false)]
    {
      var _ := rentalRepo.Save(c);
      var vehicle := VehicleStore.FindById(vehicleRepo.rows, vehicleId);
      if vehicle.Some? {
        var updated := vehicle.value.(rented := false);
        assert !VehicleStore.PlateClash(vehicleRepo.rows, updated);
        var _ := vehicleRepo.Save(updated);
      }
    }

    /** `updatePaymentStatus`: null for an unknown rental; otherwise the
        gateway is asked again and its answer overwrites the stored status,
        whatever it was. */
    method UpdatePaymentStatus(rentalId: nat, stripePaymentId: Option<string>, isCheckoutSession: bool, lookup: Lookup)
      returns (r: Option<Rental>)
      requires Valid()
      modifies rentalRepo
      ensures Valid()
      ensures r.None? <==> rentalId !in old(rentalRepo.rows)
      ensures r.None? ==> rentalRepo.rows == old(rentalRepo.rows)
      ensures r.Some? ==>
                r.value == ApplyGatewayStatus(old(rentalRepo.rows)[rentalId], stripePaymentId, GatewayStatus(lookup, isCheckoutSession))
                && rentalRepo.rows == old(rentalRepo.rows)[rentalId := r.value]
      ensures Consistent(vehicleRepo.rows, old(rentalRepo.rows)) ==> Consistent(vehicleRepo.rows, rentalRepo.rows)
      ensures ActiveRentalsDated(old(rentalRepo.rows)) ==> ActiveRentalsDated(rentalRepo.rows)
    {
      var found := RentalStore.FindById(rentalRepo.rows, rentalId);
      if found.None? {
        return None;
      }
      ghost var R0 := rentalRepo.rows;
      var status := GatewayStatus(lookup, isCheckoutSession);
      var updated := ApplyGatewayStatus(found.value, stripePaymentId, status);
      var _ := rentalRepo.Save(updated);
      if Consistent(vehicleRepo.rows, R0) {
        PaymentUpdateKeepsConsistent(vehicleRepo.rows, R0, rentalId, updated);
      }
      if ActiveRentalsDated(R0) {
        DatedAfterWrite(R0, rentalId, updated);
      }
      r := Some(updated);
    }
  }
}
