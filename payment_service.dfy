/** The payment service (PaymentService.java): the total-cost and
    minor-unit arithmetic, the two gateway-status mappings, and the two
    create operations. Every gateway call is an oracle parameter: the
    answer the gateway gives, or `StripeError` when the call raises. */
module Payments {
  import opened Common
  import opened RentalModel
  import opened VehicleModel
  import VehicleStore = VehicleRepositoryImpl
  import RentalStore = RentalRepositoryImpl

  /** The answer of one gateway call. */
  datatype Reply<T> = Answer(value: T) | StripeError

  /** The two status fields of a retrieved checkout session. */
  datatype SessionState = SessionState(status: Option<string>, paymentStatus: Option<string>)

  /** What the gateway answers when one payment id is looked up, as a payment
      intent (its status string) and as a checkout session. */
  datatype Lookup = Lookup(intent: Reply<string>, session: Reply<SessionState>)

  datatype CreatedIntent = CreatedIntent(id: string, clientSecret: string)
  datatype CreatedSession = CreatedSession(id: string, url: string)

  /** PaymentRequest.java: `currency` defaults to "PLN" but may be sent as null. */
  datatype PaymentRequest = PaymentRequest(rentalId: Option<nat>, email: Option<string>, currency: Option<string>)

  /** PaymentResponse.java without its free-text message (the `url` field
      repeats `checkoutUrl`). */
  datatype PaymentResponse = PaymentResponse(
    status: string,
    paymentIntentId: Option<string>,
    clientSecret: Option<string>,
    checkoutUrl: Option<string>,
    amount: Option<int>)

  function ErrorResponse(): (r: PaymentResponse)
    ensures r.status == "error" && r.paymentIntentId.None? && r.checkoutUrl.None?
  {
    PaymentResponse("error", None, None, None, None)
  }

  /* ---------------- cost arithmetic ---------------- */

  /** `calculateTotalCost`: daily price times days, exact in BigDecimal; an
      unknown vehicle raises. Deleted vehicles are still found. */
  function CalculateTotalCost(vehicles: VehicleStore.Rows, vehicleId: nat, rentalDays: int): (r: Result<real>)
    ensures r.Err? <==> vehicleId !in vehicles
    ensures r.Err? ==> r.error == VehicleNotFound
    ensures r.Ok? ==> r.value == (vehicles[vehicleId].price * rentalDays) as real
  {
    if vehicleId in vehicles then Ok((vehicles[vehicleId].price * rentalDays) as real)
    else Err(VehicleNotFound)
  }

  /** `setScale(0, RoundingMode.HALF_UP)`: round to the nearest integer, ties
      away from zero. */
  function RoundHalfUp(x: real): (r: int)
    ensures x >= 0.0 ==> x - 0.5 < r as real <= x + 0.5
    ensures x < 0.0 ==> x - 0.5 <= r as real < x + 0.5
  {
    if x >= 0.0 then (x + 0.5).Floor else -((-x + 0.5).Floor)
  }

  /** The charged amount in minor units: `totalCost * 100` rounded half-up;
      a null total cost raises. */
  function AmountInCents(totalCost: Option<real>): (r: Result<int>)
    ensures r.Err? <==> totalCost.None?
    ensures r.Ok? ==> r.value as real - 0.5 <= totalCost.value * 100.0 <= r.value as real + 0.5
  {
    if totalCost.None? then Err(NullValue) else Ok(RoundHalfUp(totalCost.value * 100.0))
  }

  lemma RoundHalfUpOfInteger(n: int)
    ensures RoundHalfUp(n as real) == n
  {
  }

  /** Any total with at most two decimals (the column's scale) is charged
      exactly; in particular a whole-number cost is charged 100 times over. */
  lemma AmountInCentsExact(cents: int)
    ensures AmountInCents(Some(cents as real / 100.0)) == Ok(cents)
    ensures AmountInCents(Some(cents as real)) == Ok(100 * cents)
  {
    assert (cents as real / 100.0) * 100.0 == cents as real;
    RoundHalfUpOfInteger(cents);
    assert (cents as real) * 100.0 == (100 * cents) as real;
    RoundHalfUpOfInteger(100 * cents);
  }

  /* ---------------- gateway status mappings ---------------- */

  /** `checkPaymentStatus`: the payment-intent status string mapped to a
      local status. The explicit pending cases coincide with the default. */
  function CheckPaymentStatus(reply: Reply<string>): (s: PaymentStatus)
    ensures s == PAID <==> reply == Answer("succeeded")
    ensures s == FAILED <==> reply.StripeError? || reply.value == "canceled" || reply.value == "requires_capture"
  {
    match reply
    case StripeError => FAILED
    case Answer(status) =>
      if status == "succeeded" then PAID
      else if status == "processing" || status == "requires_payment_method"
              || status == "requires_confirmation" || status == "requires_action" then PENDING
      else if status == "canceled" || status == "requires_capture" then FAILED
      else PENDING
  }

  /** `checkCheckouSessionStatus`: PAID only for a complete and paid
      session, PENDING for an open one, FAILED otherwise and on error. */
  function CheckCheckoutSessionStatus(reply: Reply<SessionState>): (s: PaymentStatus)
    ensures s == PAID <==> reply.Answer? && reply.value.status == Some("complete") && reply.value.paymentStatus == Some("paid")
    ensures s == PENDING <==> reply.Answer? && reply.value.status == Some("open")
  {
    match reply
    case StripeError => FAILED
    case Answer(session) =>
      if session.status == Some("complete") && session.paymentStatus == Some("paid") then PAID
      else if session.status == Some("open") then PENDING
      else FAILED
  }

  /** The status `updatePaymentStatus` asks the gateway for. */
  function GatewayStatus(lookup: Lookup, isCheckoutSession: bool): PaymentStatus
  {
    if isCheckoutSession then CheckCheckoutSessionStatus(lookup.session) else CheckPaymentStatus(lookup.intent)
  }

  /** A gateway error is always read as FAILED, whichever kind of id is
      looked up; only an answer can give PAID. */
  lemma GatewayErrorIsFailure(lookup: Lookup, isCheckoutSession: bool)
    ensures lookup.intent.StripeError? && !isCheckoutSession ==> GatewayStatus(lookup, isCheckoutSession) == FAILED
    ensures lookup.session.StripeError? && isCheckoutSession ==> GatewayStatus(lookup, isCheckoutSession) == FAILED
    ensures GatewayStatus(lookup, isCheckoutSession) == PAID ==>
              (if isCheckoutSession then lookup.session.Answer? else lookup.intent.Answer?)
  {
  }

  /* ---------------- status helpers ---------------- */

  predicate IsPaymentCompleted(r: Rental) { r.paymentStatus == PAID }
  predicate IsPaymentPending(r: Rental) { r.paymentStatus == PENDING }

  /** `updatePaymentStatus(rental, status)`: a plain overwrite of the
      object's status (nothing is saved). */
  function SetPaymentStatus(r: Rental, status: PaymentStatus): (r': Rental)
    ensures IsPaymentCompleted(r') <==> status == PAID
    ensures IsPaymentPending(r') <==> status == PENDING
    ensures r' == r.(paymentStatus := r'.paymentStatus)
  {
    r.(paymentStatus := status)
  }

  /** The two flags are exclusive, and neither holds exactly for FAILED. */
  lemma PaymentFlagsExclusive(r: Rental)
    ensures !(IsPaymentCompleted(r) && IsPaymentPending(r))
    ensures !IsPaymentCompleted(r) && !IsPaymentPending(r) <==> r.paymentStatus == FAILED
  {
  }

  /* ---------------- creating payments ---------------- */

  /** A create call raises a NullPointerException before reaching the gateway
      when the total cost, the currency or the rental id is null. */
  predicate CreateRaises(request: PaymentRequest, rental: Rental)
  {
    rental.totalCost.None? || request.currency.None? || rental.id.None?
  }

  /** `createPaymentIntent`: no store is touched. */
  function CreatePaymentIntent(request: PaymentRequest, rental: Rental, created: Reply<CreatedIntent>): (r: Result<PaymentResponse>)
    ensures r.Err? <==> CreateRaises(request, rental)
    ensures r.Err? ==> r.error == NullValue
    ensures r.Ok? && created.StripeError? ==> r.value == ErrorResponse()
    ensures r.Ok? && created.Answer? ==>
              r.value.status == "success" && r.value.paymentIntentId == Some(created.value.id)
              && r.value.clientSecret == Some(created.value.clientSecret)
              && r.value.amount == Some(AmountInCents(rental.totalCost).value)
  {
    if CreateRaises(request, rental) then Err(NullValue)
    else
      var amount := AmountInCents(rental.totalCost).value;
      match created
      case StripeError => Ok(ErrorResponse())
      case Answer(intent) =>
        Ok(PaymentResponse("success", Some(intent.id), Some(intent.clientSecret), None, Some(amount)))
  }

  class PaymentService {
    const rentals: RentalStore.RentalRepository

    constructor (rentals: RentalStore.RentalRepository)
      ensures this.rentals == rentals
    {
      this.rentals := rentals;
    }

    /** `createCheckoutSession`: on success the rental, with the new session
        id, is saved through the rental store and the response carries that
        id; on a gateway error nothing is saved. */
    method CreateCheckoutSession(request: PaymentRequest, rental: Rental, created: Reply<CreatedSession>)
      returns (r: Result<PaymentResponse>)
      requires rentals.Valid()
      modifies rentals
      ensures rentals.Valid()
      ensures r.Err? <==> CreateRaises(request, rental)
      ensures r.Err? ==> r.error == NullValue
      ensures r.Err? || created.StripeError? ==> rentals.rows == old(rentals.rows)
      ensures r.Ok? && created.StripeError? ==> r.value == ErrorResponse()
      ensures r.Ok? && created.Answer? ==>
                r.value.status == "success" && r.value.paymentIntentId == Some(created.value.id)
                && r.value.checkoutUrl == Some(created.value.url)
                && r.value.amount == Some(AmountInCents(rental.totalCost).value)
      ensures r.Ok? && created.Answer? && rental.id.value in old(rentals.rows) ==>
                rentals.rows == old(rentals.rows)[rental.id.value := rental.(stripeSessionId := Some(created.value.id))]
      ensures r.Ok? && created.Answer? && rental.id.value !in old(rentals.rows) ==>
                old(rentals.nextId) !in old(rentals.rows)
                && rentals.rows == old(rentals.rows)[old(rentals.nextId) :=
                     rental.(stripeSessionId := Some(created.value.id), id := Some(old(rentals.nextId)))]
    {
      if CreateRaises(request, rental) {
        return Err(NullValue);
      }
      var amount := AmountInCents(rental.totalCost).value;
      match created
      case StripeError =>
        r := Ok(ErrorResponse());
      case Answer(session) =>
        var _ := rentals.Save(rental.(stripeSessionId := Some(session.id)));
        r := Ok(PaymentResponse("success", Some(session.id), None, Some(session.url), Some(amount)));
    }
  }
}
