/** The rental store (RentalRepositoryImpl.java): rows keyed by their
    generated id, insert-or-merge `save`, hard deletion, and the JPQL filter
    queries as set comprehensions over the stored rows. */
module RentalRepositoryImpl {
  import opened Common
  import opened RentalModel

  type Rows = map<nat, Rental>

  /** Every row is stored under its own id, and the identity counter is
      ahead of every id handed out. */
  ghost predicate WellKeyed(rows: Rows, nextId: nat)
  {
    forall k :: k in rows ==> rows[k].id == Some(k) && k < nextId
  }

  /** The keys of the unreturned rentals of one vehicle. */
  function ActiveKeys(rows: Rows, vehicleId: nat): set<nat>
  {
    set k | k in rows && rows[k].vehicleId == vehicleId && !rows[k].returned
  }

  /** The keys of the rentals that carry a checkout-session id. */
  function SessionKeys(rows: Rows, sessionId: string): set<nat>
  {
    set k | k in rows && rows[k].stripeSessionId == Some(sessionId)
  }

  /** `findById`. */
  function FindById(rows: Rows, id: nat): (r: Option<Rental>)
    ensures r.Some? <==> id in rows
    ensures r.Some? ==> r.value == rows[id]
  {
    if id in rows then Some(rows[id]) else None
  }

  function FindAll(rows: Rows): set<Rental>
  {
    rows.Values
  }

  function FindByUserId(rows: Rows, userId: nat): set<Rental>
  {
    set r | r in rows.Values && r.userId == userId
  }

  function FindByVehicleId(rows: Rows, vehicleId: nat): set<Rental>
  {
    set r | r in rows.Values && r.vehicleId == vehicleId
  }

  function FindActiveRentalByUserId(rows: Rows, userId: nat): set<Rental>
  {
    set r | r in rows.Values && r.userId == userId && !r.returned
  }

  function FindAllActiveRentals(rows: Rows): set<Rental>
  {
    set r | r in rows.Values && !r.returned
  }

  function FindAllRentalsHistory(rows: Rows): set<Rental>
  {
    set r | r in rows.Values && r.returned
  }

  function HistoryByUserId(rows: Rows, userId: nat): set<Rental>
  {
    set r | r in rows.Values && r.userId == userId && r.returned
  }

  /** The active and history queries split the whole table by `returned`. */
  lemma ActiveAndHistoryPartition(rows: Rows)
    ensures FindAllActiveRentals(rows) + FindAllRentalsHistory(rows) == FindAll(rows)
    ensures FindAllActiveRentals(rows) * FindAllRentalsHistory(rows) == {}
  {
  }

  /** For one user, the active and history queries split `findByUserId`. */
  lemma UserRentalsPartition(rows: Rows, userId: nat)
    ensures FindActiveRentalByUserId(rows, userId) + HistoryByUserId(rows, userId) == FindByUserId(rows, userId)
    ensures FindActiveRentalByUserId(rows, userId) * HistoryByUserId(rows, userId) == {}
    ensures FindByUserId(rows, userId) <= FindAll(rows)
  {
  }

  class RentalRepository {
    var rows: Rows
    var nextId: nat

    ghost predicate Valid()
      reads this
    {
      WellKeyed(rows, nextId)
    }

    constructor ()
      ensures Valid() && rows == map[]
    {
      rows := map[];
      nextId := 1;
    }

    /** `save`: a rental without an id, or whose id is not stored, is
        inserted under a freshly generated id (which the caller's object then
        carries); a stored id has its row replaced. */
    method Save(r: Rental) returns (saved: Rental)
      requires Valid()
      modifies this
      ensures Valid()
      ensures r.id.Some? && r.id.value in old(rows) ==>
                saved == r && rows == old(rows)[r.id.value := r] && nextId == old(nextId)
      ensures !(r.id.Some? && r.id.value in old(rows)) ==>
                old(nextId) !in old(rows) && saved == r.(id := Some(old(nextId)))
                && rows == old(rows)[old(nextId) := saved] && nextId == old(nextId) + 1
    {
      if r.id.Some? && r.id.value in rows {
        rows := rows[r.id.value := r];
        saved := r;
      } else {
        saved := r.(id := Some(nextId));
        rows := rows[nextId := saved];
        nextId := nextId + 1;
      }
    }

    /** `delete`: a physical removal of the row with the rental's id. */
    method Delete(r: Rental)
      requires Valid()
      modifies this
      ensures Valid() && nextId == old(nextId)
      ensures rows == if r.id.Some? then old(rows) - {r.id.value} else old(rows)
    {
      if r.id.Some? {
        rows := rows - {r.id.value};
      }
    }

    /** `deleteById`: removes an existing row; an unknown id is a no-op. */
    method DeleteById(id: nat)
      requires Valid()
      modifies this
      ensures Valid() && nextId == old(nextId)
      ensures rows == old(rows) - {id}
      ensures id !in old(rows) ==> rows == old(rows)
    {
      var found := FindById(rows, id);
      if found.Some? {
        Delete(found.value);
      }
    }

    /** `findActiveRentalByVehicleId`: empty exactly when the vehicle has no
        unreturned rental, otherwise one of them (the query has no order). */
    method FindActiveRentalByVehicleId(vehicleId: nat) returns (r: Option<Rental>)
      requires Valid()
      ensures r.None? <==> ActiveKeys(rows, vehicleId) == {}
      ensures r.Some? ==> r.value.id.Some? && r.value.id.value in ActiveKeys(rows, vehicleId)
                          && rows[r.value.id.value] == r.value
    {
      if ActiveKeys(rows, vehicleId) == {} {
        r := None;
      } else {
        var k :| k in ActiveKeys(rows, vehicleId);
        r := Some(rows[k]);
      }
    }

    /** `findByStripeSessionId`: null exactly when no rental carries the
        session id, otherwise one that does. */
    method FindByStripeSessionId(sessionId: string) returns (r: Option<Rental>)
      requires Valid()
      ensures r.None? <==> SessionKeys(rows, sessionId) == {}
      ensures r.Some? ==> r.value.id.Some? && r.value.id.value in SessionKeys(rows, sessionId)
                          && rows[r.value.id.value] == r.value
    {
      if SessionKeys(rows, sessionId) == {} {
        r := None;
      } else {
        var k :| k in SessionKeys(rows, sessionId);
        r := Some(rows[k]);
      }
    }
  }
}
