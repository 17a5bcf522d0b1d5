/** The vehicle record (Vehicle.java with its two subclasses Car.java and
    Motorcycle.java folded into one tagged datatype), its constructor
    defaults, the location update, and the equality and hash contract. */
module VehicleModel {
  import opened Common
  import opened CivilTime

  /** The single-table subclass: a car, or a motorcycle with its nullable
      licence category. */
  datatype VehicleKind = Car | Motorcycle(licenceCategory: Option<string>)

  /** One row of the vehicle table. Latitude and longitude are decimals and
      are kept as exact reals; the `type` column mirrors the kind. */
  datatype Vehicle = Vehicle(
    id: Option<nat>,
    kind: VehicleKind,
    brand: Option<string>,
    model: Option<string>,
    year: int,
    price: int,
    rented: bool,
    deleted: bool,
    plate: string,
    attributes: map<string, string>,
    latitude: Option<real>,
    longitude: Option<real>,
    locationName: Option<string>,
    lastLocationUpdate: Option<DateTime>,
    atAllowedLocation: bool)

  /** The discriminator value stored in `type`. */
  function TypeName(k: VehicleKind): string
  {
    if k.Car? then "Car" else "Motorcycle"
  }

  /** The seven-argument constructor; the subclass constructors pass their
      own type name. */
  function NewVehicle(kind: VehicleKind, brand: Option<string>, model: Option<string>, year: int, price: int,
                      plate: string, attributes: Option<map<string, string>>): (v: Vehicle)
    ensures !v.rented && !v.deleted && v.atAllowedLocation
    ensures v.attributes == (if attributes.Some? then attributes.value else map[])
    ensures v.id.None? && v.latitude.None? && v.longitude.None? && v.lastLocationUpdate.None?
    ensures v.kind == kind && v.plate == plate && v.price == price && v.year == year
    ensures v.brand == brand && v.model == model && v.locationName.None?
  {
    Vehicle(None, kind, brand, model, year, price, false, false, plate,
            if attributes.Some? then attributes.value else map[],
            None, None, None, None, true)
  }

  function NewCar(brand: Option<string>, model: Option<string>, year: int, price: int,
                  plate: string, attributes: Option<map<string, string>>): (v: Vehicle)
    ensures v.kind == Car && TypeName(v.kind) == "Car"
    ensures !v.rented && !v.deleted
    ensures v == NewVehicle(Car, brand, model, year, price, plate, attributes)
  {
    NewVehicle(Car, brand, model, year, price, plate, attributes)
  }

  function NewMotorcycle(brand: Option<string>, model: Option<string>, year: int, price: int,
                         licenceCategory: Option<string>, plate: string,
                         attributes: Option<map<string, string>>): (v: Vehicle)
    ensures v.kind == Motorcycle(licenceCategory) && TypeName(v.kind) == "Motorcycle"
    ensures !v.rented && !v.deleted
    ensures v == NewVehicle(Motorcycle(licenceCategory), brand, model, year, price, plate, attributes)
  {
    NewVehicle(Motorcycle(licenceCategory), brand, model, year, price, plate, attributes)
  }

  /** `equals`: the eight identity fields of Vehicle.equals, and, through the
      generated subclass equality, the same subclass and licence category. */
  predicate Equals(a: Vehicle, b: Vehicle)
  {
    a.year == b.year && a.price == b.price && a.rented == b.rented
    && a.id == b.id && a.brand == b.brand && a.model == b.model
    && TypeName(a.kind) == TypeName(b.kind) && a.plate == b.plate
    && a.kind == b.kind
  }

  /** `updateLocation`: the clock reading is a parameter. */
  function UpdateLocation(v: Vehicle, latitude: Option<real>, longitude: Option<real>,
                          locationName: Option<string>, atAllowedLocation: bool, now: DateTime): (r: Vehicle)
    ensures r.latitude == latitude && r.longitude == longitude
    ensures r.locationName == locationName && r.atAllowedLocation == atAllowedLocation
    ensures r.lastLocationUpdate == Some(now)
    ensures r.rented == v.rented && r.deleted == v.deleted && r.price == v.price
    ensures Equals(v, r) && HashCode(v) == HashCode(r)
  {
    v.(latitude := latitude, longitude := longitude, locationName := locationName,
       atAllowedLocation := atAllowedLocation, lastLocationUpdate := Some(now))
  }

  /* ---------------- Java hash codes, with 32-bit wrap-around ---------------- */

  /** The UTF-16 code units of one character: itself below U+10000,
      otherwise a high and a low surrogate. */
  function CodeUnits(c: char): (u: seq<int>)
    ensures c as int < 0x1_0000 ==> u == [c as int]
    ensures c as int >= 0x1_0000 ==>
              |u| == 2 && 0xD800 <= u[0] < 0xDC00 && 0xDC00 <= u[1] < 0xE000
              && 0x1_0000 + (u[0] - 0xD800) * 0x400 + (u[1] - 0xDC00) == c as int
  {
    if c as int < 0x1_0000 then [c as int]
    else
      var d := c as int - 0x1_0000;
      [0xD800 + d / 0x400, 0xDC00 + d % 0x400]
  }

  /** The UTF-16 encoding a Java string holds. */
  function Utf16(s: string): (u: seq<int>)
    ensures |s| <= |u| <= 2 * |s|
    ensures forall i :: 0 <= i < |u| ==> 0 <= u[i] < 0x1_0000
  {
    if s == [] then [] else Utf16(s[..|s| - 1]) + CodeUnits(s[|s| - 1])
  }

  /** h = 31*h + unit over UTF-16 code units, wrapped to 32 bits. */
  function UnitsHash(u: seq<int>): (h: int)
    ensures -TWO_POW_31 <= h < TWO_POW_31
  {
    if u == [] then 0 else ToInt32(31 * UnitsHash(u[..|u| - 1]) + u[|u| - 1])
  }

  /** `String.hashCode`, over the string's UTF-16 code units. */
  function StringHash(s: string): (h: int)
    ensures -TWO_POW_31 <= h < TWO_POW_31
  {
    UnitsHash(Utf16(s))
  }

  /** A character outside the Basic Multilingual Plane contributes two
      code units to the hash, as Java's UTF-16 strings do. */
  lemma SupplementaryCharHashesTwoUnits(s: string, c: char)
    requires c as int >= 0x1_0000
    ensures |Utf16(s + [c])| == |Utf16(s)| + 2
    ensures StringHash(s + [c]) == UnitsHash(Utf16(s) + CodeUnits(c))
  {
    assert (s + [c])[..|s + [c]| - 1] == s;
  }

  function OptionalStringHash(s: Option<string>): int
  {
    if s.None? then 0 else StringHash(s.value)
  }

  /** `Long.hashCode`: the two 32-bit halves of the 64-bit value xor-ed. */
  function LongHash(v: nat): int
  {
    var low := (v % TWO_POW_32) as bv32;
    var high := ((v / TWO_POW_32) % TWO_POW_32) as bv32;
    ToInt32((low ^ high) as int)
  }

  /** `Boolean.hashCode`. */
  function BooleanHash(b: bool): int
  {
    if b then 1231 else 1237
  }

  /** `Arrays.hashCode` over the element hashes (0 stands for null). */
  function ArraysHash(hs: seq<int>): (h: int)
    ensures -TWO_POW_31 <= h < TWO_POW_31
  {
    if hs == [] then 1 else ToInt32(31 * ArraysHash(hs[..|hs| - 1]) + hs[|hs| - 1])
  }

  /** The element hashes `Objects.hash(id, type, brand, model, year, price,
      rented, plate)` combines. */
  function IdentityHashes(v: Vehicle): seq<int>
  {
    [ if v.id.None? then 0 else LongHash(v.id.value),
      StringHash(TypeName(v.kind)),
      OptionalStringHash(v.brand),
      OptionalStringHash(v.model),
      ToInt32(v.year),
      ToInt32(v.price),
      BooleanHash(v.rented),
      StringHash(v.plate) ]
  }

  /** `hashCode`: Vehicle's own hash; the motorcycle subclass mixes in its
      licence category with the generated factor 59 (43 for null). */
  function HashCode(v: Vehicle): int
  {
    var base := ArraysHash(IdentityHashes(v));
    match v.kind
    case Car => base
    case Motorcycle(category) =>
      ToInt32(base * 59 + (if category.None? then 43 else StringHash(category.value)))
  }

  /** The hash contract: equal vehicles have equal hash codes. */
  lemma EqualVehiclesHashEqually(a: Vehicle, b: Vehicle)
    requires Equals(a, b)
    ensures HashCode(a) == HashCode(b)
  {
  }

  /** Equality ignores the soft-delete flag, the location fields and the
      attribute map. */
  lemma EqualityIgnoresStateFields(v: Vehicle, deleted: bool, attributes: map<string, string>,
                                   latitude: Option<real>, longitude: Option<real>)
    ensures Equals(v, v.(deleted := deleted, attributes := attributes, latitude := latitude, longitude := longitude))
    ensures HashCode(v) == HashCode(v.(deleted := deleted, attributes := attributes, latitude := latitude, longitude := longitude))
  {
  }

  /** Renting or returning a vehicle changes its identity: `rented` is one of
      the equality fields, so the record is no longer equal to its old self. */
  lemma RentedFlagIsPartOfIdentity(v: Vehicle)
    ensures !Equals(v, v.(rented := !v.rented))
  {
  }
}
