/** Shared wrappers: Java's nullable references become Option, and the
    exceptions the services throw become the error side of Result. */
module Common {

  datatype Option<+T> = None | Some(value: T)

  /** The exceptions raised by the modelled code, one constructor per cause. */
  datatype Failure =
    | VehicleNotFound       // IllegalArgumentException from calculateTotalCost
    | DateParse             // DateTimeParseException from calculateRentalDays
    | UserLoginNotFound     // UsernameNotFoundException / unknown login
    | UserIdNotFound        // IllegalArgumentException for an unknown user id
    | LoginTaken            // createUser on a login that is already visible
    | RoleIdNotFound
    | RoleNameNotFound
    | RoleNameTaken
    | UniqueViolation       // the database rejects a duplicate unique column
    | NullValue             // NullPointerException

  datatype Result<+T> = Ok(value: T) | Err(error: Failure)

  function Max(a: int, b: int): int
  {
    if a < b then b else a
  }

  const TWO_POW_31: int := 0x8000_0000
  const TWO_POW_32: int := 0x1_0000_0000

  /** Java's narrowing to a 32-bit two's-complement int (the `(int)` cast and
      the wrap-around of int arithmetic). */
  function ToInt32(x: int): (r: int)
    ensures -TWO_POW_31 <= r < TWO_POW_31
    ensures (r - x) % TWO_POW_32 == 0
  {
    (x + TWO_POW_31) % TWO_POW_32 - TWO_POW_31
  }

  lemma ToInt32InRange(x: int)
    requires -TWO_POW_31 <= x < TWO_POW_31
    ensures ToInt32(x) == x
  {
  }
}
