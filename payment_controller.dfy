/** The decision logic of the payment endpoints (PaymentController.java):
    the guard chain in front of both create calls, the success redirect, the
    cancel page, the manual status update, the gateway webhook, the status
    poll and the ownership check. HTTP plumbing and response bodies beyond
    the status code are not modelled; every gateway answer is a parameter. */
module PaymentApi {
  import opened Common
  import opened RentalModel
  import Payments
  import RentalStore = RentalRepositoryImpl
  import UserStore = UserRepositoryImpl
  import RentalServiceImpl
  import UserServiceImpl

  /** The authenticated caller: its name and the authority strings it holds. */
  datatype Caller = Caller(name: string, authorities: set<string>)

  /** How a handler ends: a status code, or an exception that escapes it. */
  datatype Outcome = Ok200 | BadRequest400 | Forbidden403 | Raised(failure: Failure)

  /** A webhook event whose signature checked out: its type and, when its
      payload deserialises to a checkout session, that session's id. */
  datatype Event = Event(eventType: string, sessionId: Option<string>)

  const ADMIN_AUTHORITY: string := "admin"
  const CHECKOUT_COMPLETED: string := "checkout.session.completed"

  /* ---------------- ownership ---------------- */

  /** The ownership check raises (the user lookup throws) for a non-admin
      caller whose login no visible user holds. */
  predicate AuthRaises(caller: Caller, users: UserStore.Rows)
  {
    ADMIN_AUTHORITY !in caller.authorities && UserStore.VisibleLoginKeys(users, caller.name) == {}
  }

  /** An admin may act on any rental; anyone else only on a rental whose
      user id is the id of the visible user holding the caller's login. */
  predicate Authorized(caller: Caller, rental: Rental, users: UserStore.Rows)
  {
    ADMIN_AUTHORITY in caller.authorities || rental.userId in UserStore.VisibleLoginKeys(users, caller.name)
  }

  /** A raising check and a passing one never meet. */
  lemma AuthOutcomesExclusive(caller: Caller, rental: Rental, users: UserStore.Rows)
    ensures !(AuthRaises(caller, users) && Authorized(caller, rental, users))
    ensures ADMIN_AUTHORITY in caller.authorities ==> Authorized(caller, rental, users) && !AuthRaises(caller, users)
  {
  }

  /* ---------------- the create guard ---------------- */

  /** The outcome both create endpoints reach before the gateway is called,
      or None when the call goes ahead: a null rental id raises in the
      lookup, an unknown rental is 400, the ownership check raises or
      answers 403, and an already paid rental is 400. */
  function CreateGuard(rentalId: Option<nat>, rentals: RentalStore.Rows, users: UserStore.Rows, caller: Caller): (g: Option<Outcome>)
    ensures g != Some(Ok200)
    ensures g.None? <==> rentalId.Some? && rentalId.value in rentals
                         && Authorized(caller, rentals[rentalId.value], users)
                         && rentals[rentalId.value].paymentStatus != PAID
  {
    if rentalId.None? then Some(Raised(NullValue))
    else if rentalId.value !in rentals then Some(BadRequest400)
    else if AuthRaises(caller, users) then Some(Raised(UserLoginNotFound))
    else if !Authorized(caller, rentals[rentalId.value], users) then Some(Forbidden403)
    else if rentals[rentalId.value].paymentStatus == PAID then Some(BadRequest400)
    else None
  }

  /** The checks run in order: an unknown rental is 400 whoever asks, and a
      stranger's rental is 403 whether it is paid or not; a paid rental never
      reaches the gateway, even for an admin. */
  lemma CreateGuardOrder(rentalId: nat, rentals: RentalStore.Rows, users: UserStore.Rows, caller: Caller)
    ensures rentalId !in rentals ==> CreateGuard(Some(rentalId), rentals, users, caller) == Some(BadRequest400)
    ensures rentalId in rentals && !AuthRaises(caller, users) && !Authorized(caller, rentals[rentalId], users) ==>
              CreateGuard(Some(rentalId), rentals, users, caller) == Some(Forbidden403)
    ensures rentalId in rentals && rentals[rentalId].paymentStatus == PAID ==>
              CreateGuard(Some(rentalId), rentals, users, caller).Some?
    ensures rentalId in rentals && ADMIN_AUTHORITY in caller.authorities ==>
              (CreateGuard(Some(rentalId), rentals, users, caller).None? <==> rentals[rentalId].paymentStatus != PAID)
  {
  }

  /* ---------------- reconciliation ---------------- */

  /** What the status poll does to the rental it found: nothing unless the
      first gateway answer is PAID and the rental is not yet PAID; then the
      status is written from a second gateway query. */
  function Reconcile(r: Rental, sessionId: string, first: Payments.Reply<Payments.SessionState>, lookup: Payments.Lookup): (r': Rental)
    ensures r.paymentStatus == PAID ==> r' == r
    ensures Payments.CheckCheckoutSessionStatus(first) != PAID ==> r' == r
    ensures r' == r.(paymentStatus := r'.paymentStatus, paymentUrl := r'.paymentUrl)
  {
    if Payments.CheckCheckoutSessionStatus(first) == PAID && r.paymentStatus != PAID then
      RentalServiceImpl.ApplyGatewayStatus(r, Some(sessionId), Payments.CheckCheckoutSessionStatus(lookup.session))
    else r
  }

  /** What a completed-session webhook does to the rental it found: a rental
      that is not PAID gets the status of a fresh gateway query. */
  function CompleteSession(r: Rental, sessionId: string, lookup: Payments.Lookup): (r': Rental)
    ensures r.paymentStatus == PAID ==> r' == r
    ensures r.paymentStatus != PAID ==>
              r'.paymentStatus == Payments.CheckCheckoutSessionStatus(lookup.session) && r'.paymentUrl == Some(sessionId)
    ensures r' == r.(paymentStatus := r'.paymentStatus, paymentUrl := r'.paymentUrl)
  {
    if r.paymentStatus != PAID then
      RentalServiceImpl.ApplyGatewayStatus(r, Some(sessionId), Payments.CheckCheckoutSessionStatus(lookup.session))
    else r
  }

  /** Polling twice with the same gateway answers is polling once, and a
      webhook delivered twice acts once. */
  lemma ReconcileIdempotent(r: Rental, sessionId: string, first: Payments.Reply<Payments.SessionState>, lookup: Payments.Lookup)
    ensures Reconcile(Reconcile(r, sessionId, first, lookup), sessionId, first, lookup) == Reconcile(r, sessionId, first, lookup)
    ensures CompleteSession(CompleteSession(r, sessionId, lookup), sessionId, lookup) == CompleteSession(r, sessionId, lookup)
  {
  }

  /** A poll whose first answer is PAID acts like the webhook; and when the
      second answer is PAID too, the rental ends PAID and stays so. */
  lemma PollAgreesWithWebhook(r: Rental, sessionId: string, first: Payments.Reply<Payments.SessionState>, lookup: Payments.Lookup)
    ensures Payments.CheckCheckoutSessionStatus(first) == PAID ==>
              Reconcile(r, sessionId, first, lookup) == CompleteSession(r, sessionId, lookup)
    ensures Payments.CheckCheckoutSessionStatus(first) == PAID && Payments.CheckCheckoutSessionStatus(lookup.session) == PAID ==>
              Reconcile(r, sessionId, first, lookup).paymentStatus == PAID
  {
  }

  /* ---------------- the controller ---------------- */

  class PaymentController {
    const payments: Payments.PaymentService
    const rentalService: RentalServiceImpl.RentalService
    const userService: UserServiceImpl.UserService

    constructor (payments: Payments.PaymentService, rentalService: RentalServiceImpl.RentalService,
                 userService: UserServiceImpl.UserService)
      ensures this.payments == payments && this.rentalService == rentalService && this.userService == userService
    {
      this.payments := payments;
      this.rentalService := rentalService;
      this.userService := userService;
    }

    /** The payment service saves through the same rental store the rental
        service reads. */
    ghost predicate Valid()
      reads rentalService.rentalRepo, rentalService.vehicleRepo, userService.repo, userService.roleService.repo
    {
      payments.rentals == rentalService.rentalRepo && rentalService.Valid() && userService.Valid()
    }

    /** The rental-store invariants every endpoint keeps. */
    ghost predicate Invariant()
      reads rentalService.rentalRepo, rentalService.vehicleRepo
    {
      RentalServiceImpl.Consistent(rentalService.vehicleRepo.rows, rentalService.rentalRepo.rows)
      && RentalServiceImpl.ActiveRentalsDated(rentalService.rentalRepo.rows)
    }

    /** `isUserAuthorizedForRental`. Its `user == null` branch is never
        taken: the user lookup raises instead. */
    method IsUserAuthorizedForRental(rental: Rental, caller: Caller) returns (r: Result<bool>)
      requires userService.Valid()
      ensures r.Err? <==> AuthRaises(caller, userService.repo.rows)
      ensures r.Err? ==> r.error == UserLoginNotFound
      ensures r.Ok? ==> (r.value <==> Authorized(caller, rental, userService.repo.rows))
    {
      if ADMIN_AUTHORITY in caller.authorities {
        return Ok(true);
      }
      var user := userService.FindByLogin(caller.name);
      if user.Err? {
        return Err(user.error);
      }
      var k := user.value.id.value;
      assert k in UserStore.VisibleLoginKeys(userService.repo.rows, caller.name);
      r := Ok(rental.userId == k);
      if rental.userId in UserStore.VisibleLoginKeys(userService.repo.rows, caller.name) {
        assert userService.repo.rows[rental.userId].login == userService.repo.rows[k].login;
      }
    }

    /** `createPaymentIntent`: the guard's outcome when it stops the call;
        otherwise 200 for a created intent, 400 for a gateway error, and the
        payment service's own exception for a null cost or currency. No
        store changes. */
    method CreatePaymentIntent(request: Payments.PaymentRequest, caller: Caller, created: Payments.Reply<Payments.CreatedIntent>)
      returns (out: Outcome, response: Option<Payments.PaymentResponse>)
      requires Valid()
      ensures CreateGuard(request.rentalId, rentalService.rentalRepo.rows, userService.repo.rows, caller).Some? ==>
                out == CreateGuard(request.rentalId, rentalService.rentalRepo.rows, userService.repo.rows, caller).value
                && response.None?
      ensures CreateGuard(request.rentalId, rentalService.rentalRepo.rows, userService.repo.rows, caller).None? ==>
                var result := Payments.CreatePaymentIntent(request, rentalService.rentalRepo.rows[request.rentalId.value], created);
                (result.Err? ==> out == Raised(result.error) && response.None?)
                && (result.Ok? ==> response == Some(result.value)
                                   && (out == Ok200 <==> created.Answer?)
                                   && (out != Ok200 ==> out == BadRequest400))
    {
      if request.rentalId.None? {
        return Raised(NullValue), None;
      }
      var found := RentalStore.FindById(rentalService.rentalRepo.rows, request.rentalId.value);
      if found.None? {
        return BadRequest400, None;
      }
      var rental := found.value;
      var auth := IsUserAuthorizedForRental(rental, caller);
      if auth.Err? {
        return Raised(auth.error), None;
      }
      if !auth.value {
        return Forbidden403, None;
      }
      if rental.paymentStatus == PAID {
        return BadRequest400, None;
      }
      var result := Payments.CreatePaymentIntent(request, rental, created);
      if result.Err? {
        return Raised(result.error), None;
      }
      response := Some(result.value);
      out := if result.value.status == "success" then Ok200 else BadRequest400;
    }

    /** `createCheckoutSession`: the same guard; past it, a created session
        is recorded on the rental and answered 200, a gateway error is 400
        with nothing written. */
    method CreateCheckoutSession(request: Payments.PaymentRequest, caller: Caller, created: Payments.Reply<Payments.CreatedSession>)
      returns (out: Outcome, response: Option<Payments.PaymentResponse>)
      requires Valid()
      modifies rentalService.rentalRepo
      ensures Valid()
      ensures CreateGuard(request.rentalId, old(rentalService.rentalRepo.rows), userService.repo.rows, caller).Some? ==>
                out == CreateGuard(request.rentalId, old(rentalService.rentalRepo.rows), userService.repo.rows, caller).value
                && response.None? && rentalService.rentalRepo.rows == old(rentalService.rentalRepo.rows)
      ensures CreateGuard(request.rentalId, old(rentalService.rentalRepo.rows), userService.repo.rows, caller).None? ==>
                var id := request.rentalId.value;
                var rental := old(rentalService.rentalRepo.rows)[id];
                (Payments.CreateRaises(request, rental) ==>
                   out == Raised(NullValue) && rentalService.rentalRepo.rows == old(rentalService.rentalRepo.rows))
                && (!Payments.CreateRaises(request, rental) && created.StripeError? ==>
                   out == BadRequest400 && response == Some(Payments.ErrorResponse())
                   && rentalService.rentalRepo.rows == old(rentalService.rentalRepo.rows))
                && (!Payments.CreateRaises(request, rental) && created.Answer? ==>
                   out == Ok200 && response.Some? && response.value.paymentIntentId == Some(created.value.id)
                   && rentalService.rentalRepo.rows
                      == old(rentalService.rentalRepo.rows)[id := rental.(stripeSessionId := Some(created.value.id))])
      ensures old(Invariant()) ==> Invariant()
    {
      if request.rentalId.None? {
        return Raised(NullValue), None;
      }
      var id := request.rentalId.value;
      var found := RentalStore.FindById(rentalService.rentalRepo.rows, id);
      if found.None? {
        return BadRequest400, None;
      }
      var rental := found.value;
      var auth := IsUserAuthorizedForRental(rental, caller);
      if auth.Err? {
        return Raised(auth.error), None;
      }
      if !auth.value {
        return Forbidden403, None;
      }
      if rental.paymentStatus == PAID {
        return BadRequest400, None;
      }
      ghost var V, R := rentalService.vehicleRepo.rows, rentalService.rentalRepo.rows;
      var result := payments.CreateCheckoutSession(request, rental, created);
      if result.Err? {
        return Raised(result.error), None;
      }
      response := Some(result.value);
      out := if result.value.status == "success" then Ok200 else BadRequest400;
      if created.Answer? {
        var written := rental.(stripeSessionId := Some(created.value.id));
        if RentalServiceImpl.Consistent(V, R) {
          RentalServiceImpl.PaymentUpdateKeepsConsistent(V, R, id, written);
        }
        if RentalServiceImpl.ActiveRentalsDated(R) {
          RentalServiceImpl.DatedAfterWrite(R, id, written);
        }
      }
    }

    /** `paymentSuccess`: 400 with nothing written unless the gateway reports
        the session paid and a rental carries the session id; then that
        rental's status is written from a second gateway query, and 200. */
    method PaymentSuccess(sessionId: string, first: Payments.Reply<Payments.SessionState>, lookup: Payments.Lookup)
      returns (out: Outcome, found: Option<Rental>)
      requires Valid()
      modifies rentalService.rentalRepo
      ensures Valid()
      ensures Payments.CheckCheckoutSessionStatus(first) != PAID ==> found.None?
      ensures Payments.CheckCheckoutSessionStatus(first) == PAID ==>
                (found.None? <==> RentalStore.SessionKeys(old(rentalService.rentalRepo.rows), sessionId) == {})
      ensures found.None? ==> out == BadRequest400 && rentalService.rentalRepo.rows == old(rentalService.rentalRepo.rows)
      ensures found.Some? ==>
                out == Ok200 && found.value.id.Some?
                && found.value.id.value in RentalStore.SessionKeys(old(rentalService.rentalRepo.rows), sessionId)
                && found.value == old(rentalService.rentalRepo.rows)[found.value.id.value]
                && rentalService.rentalRepo.rows == old(rentalService.rentalRepo.rows)[found.value.id.value :=
                     RentalServiceImpl.ApplyGatewayStatus(found.value, Some(sessionId), Payments.CheckCheckoutSessionStatus(lookup.session))]
      ensures old(Invariant()) ==> Invariant()
    {
      var status := Payments.CheckCheckoutSessionStatus(first);
      if status != PAID {
        return BadRequest400, None;
      }
      found := rentalService.rentalRepo.FindByStripeSessionId(sessionId);
      if found.None? {
        return BadRequest400, None;
      }
      var _ := rentalService.UpdatePaymentStatus(found.value.id.value, Some(sessionId), true, lookup);
      out := Ok200;
    }

    /** `paymentCancel`: answers 200 and touches no store (it has no frame
        to write). */
    method PaymentCancel(rentalId: nat) returns (out: Outcome)
      ensures out == Ok200
    {
      out := Ok200;
    }

    /** The manual `update-status` endpoint: after the lookup and the
        ownership check, the gateway's answer is written whatever the
        rental's current status, PAID included. */
    method UpdatePaymentStatus(rentalId: nat, stripePaymentId: string, isCheckoutSession: bool, caller: Caller,
                               lookup: Payments.Lookup)
      returns (out: Outcome, updated: Option<Rental>)
      requires Valid()
      modifies rentalService.rentalRepo
      ensures Valid()
      ensures rentalId !in old(rentalService.rentalRepo.rows) ==> out == BadRequest400
      ensures rentalId in old(rentalService.rentalRepo.rows) && AuthRaises(caller, userService.repo.rows) ==>
                out == Raised(UserLoginNotFound)
      ensures rentalId in old(rentalService.rentalRepo.rows) && !AuthRaises(caller, userService.repo.rows)
              && !Authorized(caller, old(rentalService.rentalRepo.rows)[rentalId], userService.repo.rows) ==>
                out == Forbidden403
      ensures out == Ok200 <==>
                rentalId in old(rentalService.rentalRepo.rows)
                && Authorized(caller, old(rentalService.rentalRepo.rows)[rentalId], userService.repo.rows)
      ensures out != Ok200 ==> updated.None? && rentalService.rentalRepo.rows == old(rentalService.rentalRepo.rows)
      ensures out == Ok200 ==>
                updated == Some(RentalServiceImpl.ApplyGatewayStatus(old(rentalService.rentalRepo.rows)[rentalId],
                                  Some(stripePaymentId), Payments.GatewayStatus(lookup, isCheckoutSession)))
                && rentalService.rentalRepo.rows == old(rentalService.rentalRepo.rows)[rentalId := updated.value]
      ensures old(Invariant()) ==> Invariant()
    {
      var found := RentalStore.FindById(rentalService.rentalRepo.rows, rentalId);
      if found.None? {
        return BadRequest400, None;
      }
      var auth := IsUserAuthorizedForRental(found.value, caller);
      if auth.Err? {
        return Raised(auth.error), None;
      }
      if !auth.value {
        return Forbidden403, None;
      }
      updated := rentalService.UpdatePaymentStatus(rentalId, Some(stripePaymentId), isCheckoutSession, lookup);
      out := Ok200;
    }

    /** `handleCheckoutSessionCompleted`: a payload that is not a session, an
        unknown session id, or a PAID rental leave everything as it is;
        otherwise the found rental gets a fresh gateway status. */
    method HandleCheckoutSessionCompleted(sessionId: Option<string>, lookup: Payments.Lookup)
      requires Valid()
      modifies rentalService.rentalRepo
      ensures Valid()
      ensures sessionId.None? || RentalStore.SessionKeys(old(rentalService.rentalRepo.rows), sessionId.value) == {} ==>
                rentalService.rentalRepo.rows == old(rentalService.rentalRepo.rows)
      ensures sessionId.Some? && RentalStore.SessionKeys(old(rentalService.rentalRepo.rows), sessionId.value) != {} ==>
                exists k :: k in RentalStore.SessionKeys(old(rentalService.rentalRepo.rows), sessionId.value)
                            && rentalService.rentalRepo.rows == old(rentalService.rentalRepo.rows)[k :=
                                 CompleteSession(old(rentalService.rentalRepo.rows)[k], sessionId.value, lookup)]
      ensures old(Invariant()) ==> Invariant()
    {
      if sessionId.None? {
        return;
      }
      var found := rentalService.rentalRepo.FindByStripeSessionId(sessionId.value);
      if found.None? {
        return;
      }
      var k := found.value.id.value;
      if found.value.paymentStatus != PAID {
        var _ := rentalService.UpdatePaymentStatus(k, sessionId, true, lookup);
      }
      assert k in RentalStore.SessionKeys(old(rentalService.rentalRepo.rows), sessionId.value);
    }

    /** `handleStripeWebhook`: 400 when the signature check throws, before
        any lookup; otherwise 200 whatever happens next. Only a completed
        checkout session can change a rental, and a PAID rental is never
        rewritten. */
    method HandleStripeWebhook(event: Payments.Reply<Event>, lookup: Payments.Lookup) returns (out: Outcome)
      requires Valid()
      modifies rentalService.rentalRepo
      ensures Valid()
      ensures out == BadRequest400 <==> event.StripeError?
      ensures event.Answer? ==> out == Ok200
      ensures !(event.Answer? && event.value.eventType == CHECKOUT_COMPLETED) ==>
                rentalService.rentalRepo.rows == old(rentalService.rentalRepo.rows)
      ensures event.Answer? && event.value.eventType == CHECKOUT_COMPLETED
              && (event.value.sessionId.None?
                  || RentalStore.SessionKeys(old(rentalService.rentalRepo.rows), event.value.sessionId.value) == {}) ==>
                rentalService.rentalRepo.rows == old(rentalService.rentalRepo.rows)
      ensures event.Answer? && event.value.eventType == CHECKOUT_COMPLETED && event.value.sessionId.Some?
              && RentalStore.SessionKeys(old(rentalService.rentalRepo.rows), event.value.sessionId.value) != {} ==>
                exists k :: k in RentalStore.SessionKeys(old(rentalService.rentalRepo.rows), event.value.sessionId.value)
                            && rentalService.rentalRepo.rows == old(rentalService.rentalRepo.rows)[k :=
                                 CompleteSession(old(rentalService.rentalRepo.rows)[k], event.value.sessionId.value, lookup)]
      ensures forall k :: k in old(rentalService.rentalRepo.rows) && old(rentalService.rentalRepo.rows)[k].paymentStatus == PAID ==>
                k in rentalService.rentalRepo.rows && rentalService.rentalRepo.rows[k] == old(rentalService.rentalRepo.rows)[k]
      ensures old(Invariant()) ==> Invariant()
    {
      if event.StripeError? {
        return BadRequest400;
      }
      if event.value.eventType == CHECKOUT_COMPLETED {
        HandleCheckoutSessionCompleted(event.value.sessionId, lookup);
      }
      out := Ok200;
    }

    /** `checkPaymentStatus` (the poll): 400 for an unknown session id or a
        raising ownership check, 403 for a stranger; otherwise 200 with the
        found rental reconciled against the gateway. */
    method CheckPaymentStatus(sessionId: string, caller: Caller, first: Payments.Reply<Payments.SessionState>,
                              lookup: Payments.Lookup)
      returns (out: Outcome, rental: Option<Rental>)
      requires Valid()
      modifies rentalService.rentalRepo
      ensures Valid()
      ensures out == Ok200 || out == BadRequest400 || out == Forbidden403
      ensures RentalStore.SessionKeys(old(rentalService.rentalRepo.rows), sessionId) == {} ==> out == BadRequest400
      ensures RentalStore.SessionKeys(old(rentalService.rentalRepo.rows), sessionId) != {} && AuthRaises(caller, userService.repo.rows) ==>
                out == BadRequest400
      ensures RentalStore.SessionKeys(old(rentalService.rentalRepo.rows), sessionId) != {} && !AuthRaises(caller, userService.repo.rows) ==>
                out != BadRequest400
      ensures RentalStore.SessionKeys(old(rentalService.rentalRepo.rows), sessionId) != {} && !AuthRaises(caller, userService.repo.rows)
              && (forall k :: k in RentalStore.SessionKeys(old(rentalService.rentalRepo.rows), sessionId) ==>
                                Authorized(caller, old(rentalService.rentalRepo.rows)[k], userService.repo.rows)) ==>
                out == Ok200
      ensures out != Ok200 ==> rental.None? && rentalService.rentalRepo.rows == old(rentalService.rentalRepo.rows)
      ensures out == Forbidden403 ==>
                exists k :: k in RentalStore.SessionKeys(old(rentalService.rentalRepo.rows), sessionId)
                            && !Authorized(caller, old(rentalService.rentalRepo.rows)[k], userService.repo.rows)
      ensures out == Ok200 ==>
                rental.Some? && rental.value.id.Some?
                && rental.value.id.value in RentalStore.SessionKeys(old(rentalService.rentalRepo.rows), sessionId)
                && Authorized(caller, old(rentalService.rentalRepo.rows)[rental.value.id.value], userService.repo.rows)
                && rental.value == Reconcile(old(rentalService.rentalRepo.rows)[rental.value.id.value], sessionId, first, lookup)
                && rentalService.rentalRepo.rows == old(rentalService.rentalRepo.rows)[rental.value.id.value := rental.value]
      ensures forall k :: k in old(rentalService.rentalRepo.rows) && old(rentalService.rentalRepo.rows)[k].paymentStatus == PAID ==>
                k in rentalService.rentalRepo.rows && rentalService.rentalRepo.rows[k] == old(rentalService.rentalRepo.rows)[k]
      ensures old(Invariant()) ==> Invariant()
    {
      var found := rentalService.rentalRepo.FindByStripeSessionId(sessionId);
      if found.None? {
        return BadRequest400, None;
      }
      var current := found.value;
      var auth := IsUserAuthorizedForRental(current, caller);
      if auth.Err? {
        return BadRequest400, None;
      }
      if !auth.value {
        return Forbidden403, None;
      }
      var status := Payments.CheckCheckoutSessionStatus(first);
      if status == PAID && current.paymentStatus != PAID {
        var updated := rentalService.UpdatePaymentStatus(current.id.value, Some(sessionId), true, lookup);
        current := updated.value;
      }
      out, rental := Ok200, Some(current);
    }
  }
}
