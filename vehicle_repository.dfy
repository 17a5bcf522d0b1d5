/** The vehicle store (VehicleRepositoryImpl.java): rows keyed by generated
    id, insert-or-merge `save` under the unique `plate` column, soft deletion,
    and the availability / rented / deleted filters. */
module VehicleRepositoryImpl {
  import opened Common
  import opened VehicleModel

  type Rows = map<nat, Vehicle>

  ghost predicate WellKeyed(rows: Rows, nextId: nat)
  {
    forall k :: k in rows ==> rows[k].id == Some(k) && k < nextId
  }

  /** The database's unique constraint on `plate`. */
  ghost predicate UniquePlates(rows: Rows)
  {
    forall j, k :: j in rows && k in rows && rows[j].plate == rows[k].plate ==> j == k
  }

  /** Writing `v` would collide with the plate of another stored row. */
  predicate PlateClash(rows: Rows, v: Vehicle)
  {
    exists k :: k in rows && Some(k) != v.id && rows[k].plate == v.plate
  }

  /** The stored table after a soft delete of `id`; unknown ids are ignored. */
  function SoftDeleted(rows: Rows, id: nat): (r: Rows)
    ensures r.Keys == rows.Keys
    ensures id in rows ==> r[id] == rows[id].(deleted := true)
    ensures forall k :: k in rows && k != id ==> r[k] == rows[k]
  {
    if id in rows then rows[id := rows[id].(deleted := true)] else rows
  }

  function FindById(rows: Rows, id: nat): (r: Option<Vehicle>)
    ensures r.Some? <==> id in rows
    ensures r.Some? ==> r.value == rows[id]
  {
    if id in rows then Some(rows[id]) else None
  }

  function FindAll(rows: Rows): set<Vehicle> { rows.Values }

  function FindByRentedFalse(rows: Rows): set<Vehicle>
  {
    set v | v in rows.Values && !v.rented
  }

  function GetAvailableVehicles(rows: Rows): set<Vehicle>
  {
    set v | v in rows.Values && !v.rented && !v.deleted
  }

  function FindByRentedTrue(rows: Rows): set<Vehicle>
  {
    set v | v in rows.Values && v.rented
  }

  function FindAllCars(rows: Rows): set<Vehicle>
  {
    set v | v in rows.Values && v.kind.Car?
  }

  function FindAllMotorcycles(rows: Rows): set<Vehicle>
  {
    set v | v in rows.Values && v.kind.Motorcycle?
  }

  function FindAllActive(rows: Rows): set<Vehicle>
  {
    set v | v in rows.Values && !v.deleted
  }

  function FindByDeletedTrue(rows: Rows): set<Vehicle>
  {
    set v | v in rows.Values && v.deleted
  }

  function FindByIsAtAllowedLocationFalse(rows: Rows): set<Vehicle>
  {
    set v | v in rows.Values && !v.atAllowedLocation && !v.deleted
  }

  function FindByLatitudeIsNotNullAndLongitudeIsNotNull(rows: Rows): set<Vehicle>
  {
    set v | v in rows.Values && v.latitude.Some? && v.longitude.Some? && !v.deleted
  }

  /** Available means neither rented nor deleted: the intersection of the
      not-rented and the active queries. */
  lemma AvailableIsNotRentedAndActive(rows: Rows)
    ensures GetAvailableVehicles(rows) == FindByRentedFalse(rows) * FindAllActive(rows)
  {
  }

  /** `findByRentedFalse` does not filter out deleted vehicles. */
  lemma NotRentedIncludesDeleted(rows: Rows, k: nat)
    requires k in rows && !rows[k].rented && rows[k].deleted
    ensures rows[k] in FindByRentedFalse(rows) && rows[k] !in GetAvailableVehicles(rows)
  {
  }

  /** The active and deleted queries split the table; so do the rented and
      not-rented ones, and the two subclasses. */
  lemma FiltersPartition(rows: Rows)
    ensures FindAllActive(rows) + FindByDeletedTrue(rows) == FindAll(rows)
    ensures FindAllActive(rows) * FindByDeletedTrue(rows) == {}
    ensures FindByRentedFalse(rows) + FindByRentedTrue(rows) == FindAll(rows)
    ensures FindByRentedFalse(rows) * FindByRentedTrue(rows) == {}
    ensures FindAllCars(rows) + FindAllMotorcycles(rows) == FindAll(rows)
  {
  }

  /** A soft delete keeps the row (so `findAll` still returns it), moves it
      from the active to the deleted query, and deleting twice is deleting
      once. */
  lemma SoftDeleteProperties(rows: Rows, id: nat)
    ensures SoftDeleted(SoftDeleted(rows, id), id) == SoftDeleted(rows, id)
    ensures id in rows ==> SoftDeleted(rows, id)[id] in FindAll(SoftDeleted(rows, id))
    ensures id in rows ==> SoftDeleted(rows, id)[id] in FindByDeletedTrue(SoftDeleted(rows, id))
    ensures id !in rows ==> SoftDeleted(rows, id) == rows
  {
  }

  /** Soft deletion never touches a plate, so it keeps plates unique. */
  lemma SoftDeleteKeepsPlates(rows: Rows, nextId: nat, id: nat)
    requires WellKeyed(rows, nextId) && UniquePlates(rows)
    ensures WellKeyed(SoftDeleted(rows, id), nextId) && UniquePlates(SoftDeleted(rows, id))
  {
    var r := SoftDeleted(rows, id);
    forall j, k | j in r && k in r && r[j].plate == r[k].plate
      ensures j == k
    {
      assert rows[j].plate == r[j].plate && rows[k].plate == r[k].plate;
    }
  }

  class VehicleRepository {
    var rows: Rows
    var nextId: nat

    ghost predicate Valid()
      reads this
    {
      WellKeyed(rows, nextId) && UniquePlates(rows)
    }

    constructor ()
      ensures Valid() && rows == map[]
    {
      rows := map[];
      nextId := 1;
    }

    /** `save`: persist (fresh id) or merge; the database rejects a plate
        already used by another row and the store is then unchanged. */
    method Save(v: Vehicle) returns (r: Result<Vehicle>)
      requires Valid()
      modifies this
      ensures Valid()
      ensures r.Err? <==> PlateClash(old(rows), v)
      ensures r.Err? ==> r.error == UniqueViolation && rows == old(rows) && nextId == old(nextId)
      ensures r.Ok? && v.id.Some? && v.id.value in old(rows) ==>
                r.value == v && rows == old(rows)[v.id.value := v] && nextId == old(nextId)
      ensures r.Ok? && !(v.id.Some? && v.id.value in old(rows)) ==>
                old(nextId) !in old(rows) && r.value == v.(id := Some(old(nextId)))
                && rows == old(rows)[old(nextId) := r.value] && nextId == old(nextId) + 1
    {
      if PlateClash(rows, v) {
        return Err(UniqueViolation);
      }
      if v.id.Some? && v.id.value in rows {
        rows := rows[v.id.value := v];
        r := Ok(v);
      } else {
        var saved := v.(id := Some(nextId));
        rows := rows[nextId := saved];
        nextId := nextId + 1;
        r := Ok(saved);
      }
    }

    /** `delete`: merges the given object with `deleted` set, so the stored
        row takes the caller's copy. */
    method Delete(v: Vehicle) returns (r: Result<Vehicle>)
      requires Valid()
      modifies this
      ensures Valid()
      ensures r.Err? <==> PlateClash(old(rows), v)
      ensures r.Ok? ==> r.value.deleted && r.value == v.(deleted := true, id := r.value.id)
      ensures r.Ok? && v.id.Some? && v.id.value in old(rows) ==>
                rows == old(rows)[v.id.value := v.(deleted := true)] && nextId == old(nextId)
      ensures r.Ok? && !(v.id.Some? && v.id.value in old(rows)) ==>
                r.value.id == Some(old(nextId)) && old(nextId) !in old(rows)
                && rows == old(rows)[old(nextId) := r.value] && nextId == old(nextId) + 1
      ensures r.Err? ==> rows == old(rows) && nextId == old(nextId)
    {
      r := Save(v.(deleted := true));
    }

    /** `deleteById`: a soft delete of the stored row; unknown ids are a no-op. */
    method DeleteById(id: nat)
      requires Valid()
      modifies this
      ensures Valid() && nextId == old(nextId)
      ensures rows == SoftDeleted(old(rows), id)
    {
      SoftDeleteKeepsPlates(rows, nextId, id);
      rows := SoftDeleted(rows, id);
    }
  }
}
