# Car rental: rentals, payments, users and roles

A Dafny model of the core of a Spring car-rental service. The model covers:

- the rental lifecycle. A vehicle is rented, the rental is returned, and the day count and cost are computed.
- the payment-status handling built on top of it. This covers the mappings from gateway (Stripe) answers to PENDING/PAID/FAILED, the creation of payment intents and checkout sessions, and the decision logic of the payment endpoints.
- the user and role stores with soft deletion.

Entities are values. `Rental`, `Vehicle` (one datatype tagged `Car` or `Motorcycle`), `User` and `Role` are datatypes. The model has no shared mutable entities: each repository call is its own transaction, so a loaded object is a detached copy, and its setters take effect only when the object is saved again.

Each repository is a class holding its table as a `map<nat, T>` keyed by id, plus the identity counter. Its `save` inserts or merges, and its queries are set comprehensions over the stored rows. Each service is a class that holds references to the repositories it writes, and its methods state the new contents of those tables.

The two invariants the rental service keeps across `rent`, `returnRental` and every payment path are these:

- a vehicle is flagged rented iff it has exactly one unreturned rental;
- every unreturned rental has a start date in the `yyyy-MM-dd HH:mm` format.

Timestamps are civil date-times at minute precision. They are formatted and parsed with that pattern, and differences are measured in minutes through a days-from-civil count.

Every gateway call becomes an oracle parameter: the answer the gateway gives, or `StripeError` when the call throws. The same goes for the clock (a `DateTime` parameter) and the password encoder (a function parameter).

The model follows three behaviours of the code that a reader might not expect:

- PAID is not final in `updatePaymentStatus`, which overwrites the status unconditionally. Only the poll and webhook paths refuse to rewrite a PAID rental.
- `returnRental` does not check who owns the rental.
- The code raises no typed conflict or forbidden errors. Failures are the exceptions or nulls it produces.

## Model

| member | source | states |
|---|---|---|
| Common.ToInt32 | src/main/java/org/example/model/Rental.java:72-73 | the `(int)` cast of a long lands in the 32-bit range and agrees with its argument modulo 2^32 |
| Common.ToInt32InRange | src/main/java/org/example/model/Rental.java:72-73 | the cast is the identity on values already in the 32-bit range |
| CivilTime.Parse | src/main/java/org/example/model/Rental.java:68-70 | a string accepted by `Parse` (the pattern `yyyy-MM-dd HH:mm` with a real date and a time of day) denotes a valid date-time whose formatting is exactly that string |
| CivilTime.ParseFormat | src/main/java/org/example/service/impl/RentalServiceImpl.java:25 | parsing a formatted timestamp gives the same timestamp back |
| CivilTime.DayNumberOrder | src/main/java/org/example/model/Rental.java:72 | the day count since the epoch orders dates as the calendar does: earlier date iff smaller number, same date iff equal number |
| CivilTime.ChronoDaysAreWholePeriods | src/main/java/org/example/model/Rental.java:72 | `ChronoUnit.DAYS.between` equals the number of complete 1440-minute periods, truncated toward zero (negative for a backwards interval) |
| CivilTime.ChronoDaysFitInt | src/main/java/org/example/model/Rental.java:72-73 | for years 1..9999 the day difference always fits an int, so the cast never wraps |
| RentalModel.NewRental | src/main/java/org/example/model/Rental.java:21-53 | a fresh rental is unreturned, PENDING, has no id, dates or cost, and carries the given vehicle and user |
| RentalModel.RentalOf | src/main/java/org/example/model/Rental.java:56-62 | the four-argument constructor stores both dates and starts unreturned and PENDING |
| RentalModel.ValueOf | src/main/java/org/example/model/Rental.java:103-109 | `String.valueOf` of a null is the literal "null", otherwise the string itself |
| RentalModel.SetStartDate | src/main/java/org/example/model/Rental.java:103-105 | the start date becomes `String.valueOf` of the argument, never null, and no other field changes |
| RentalModel.SetEndDate | src/main/java/org/example/model/Rental.java:107-109 | the end date becomes `String.valueOf` of the argument, never null, and no other field changes |
| RentalModel.CalculateRentalDays | src/main/java/org/example/model/Rental.java:64-74 | the day count is at least 1 whenever it is computed, and exactly 1 when either date is null |
| RentalModel.RentalDaysOfFormattedDates | src/main/java/org/example/model/Rental.java:68-73 | for two formatted timestamps the count is max(1, complete 24-hour periods between them) |
| RentalModel.RentalDaysForward | src/main/java/org/example/model/Rental.java:72-73 | for start ≤ end the count is max(1, elapsed minutes div 1440) |
| RentalModel.RentalDaysBackward | src/main/java/org/example/model/Rental.java:72-73 | an end before the start yields 1 |
| RentalModel.RentalDaysExamples | src/main/java/org/example/model/Rental.java:72-73 | 47h59m counts as 1 day and 48h as 2 |
| RentalModel.OpenRentalDaysRaise | src/main/java/org/example/model/Rental.java:68-70 | a rental whose end date was set from null (stored as "null") cannot be parsed, so the count raises |
| VehicleModel.NewVehicle | src/main/java/org/example/model/Vehicle.java:64-74 | a new vehicle takes kind, brand, model, year, price and plate from the arguments; it is not rented, not deleted and at an allowed location, has no id, position, location name or update time, and its attributes are the given map or empty for null |
| VehicleModel.NewCar | src/main/java/org/example/model/Car.java:15-17 | a car is exactly the vehicle constructor's result for the tag "Car" and the same arguments, so every field promise of `NewVehicle` holds for it |
| VehicleModel.NewMotorcycle | src/main/java/org/example/model/Motorcycle.java:18-21 | a motorcycle is exactly the vehicle constructor's result for the tag "Motorcycle" with its licence category and the same arguments |
| VehicleModel.UpdateLocation | src/main/java/org/example/model/Vehicle.java:75-81 | position, location name and allowed flag take the arguments, the update time is the clock, and rented/deleted/price stay; the vehicle stays equal with the same hash |
| VehicleModel.CodeUnits | src/main/java/org/example/model/Vehicle.java:111-114 | a character below U+10000 is one UTF-16 unit; any other is a high and a low surrogate that recombine to the character |
| VehicleModel.Utf16 | src/main/java/org/example/model/Vehicle.java:111-114 | a string's UTF-16 form has between one and two 16-bit units per character |
| VehicleModel.StringHash | src/main/java/org/example/model/Vehicle.java:111-114 | `String.hashCode` folds the UTF-16 units and wraps to a 32-bit value |
| VehicleModel.SupplementaryCharHashesTwoUnits | src/main/java/org/example/model/Vehicle.java:111-114 | a character outside the Basic Multilingual Plane adds two units, its surrogate pair, to the hashed sequence |
| VehicleModel.ArraysHash | src/main/java/org/example/model/Vehicle.java:111-114 | `Objects.hash` (31-based, wrapped) is a 32-bit value |
| VehicleModel.EqualVehiclesHashEqually | src/main/java/org/example/model/Vehicle.java:83-114 | equal vehicles have equal hash codes |
| VehicleModel.EqualityIgnoresStateFields | src/main/java/org/example/model/Vehicle.java:83-96 | deleted, attributes and position do not take part in equality or hashing |
| VehicleModel.RentedFlagIsPartOfIdentity | src/main/java/org/example/model/Vehicle.java:83-96 | flipping `rented` makes a vehicle unequal to its former self |
| VehicleRepositoryImpl.FindById | src/main/java/org/example/repository/impl/VehicleRepositoryImpl.java:49-51 | found iff the id is stored, deleted rows included, and then the stored row |
| VehicleRepositoryImpl.SoftDeleted | src/main/java/org/example/repository/impl/VehicleRepositoryImpl.java:40-47 | the table after a soft delete keeps every key, sets `deleted` on that row only, and ignores an unknown id |
| VehicleRepositoryImpl.AvailableIsNotRentedAndActive | src/main/java/org/example/repository/impl/VehicleRepositoryImpl.java:61-92 | the available vehicles are exactly the not-rented ones that are not deleted |
| VehicleRepositoryImpl.NotRentedIncludesDeleted | src/main/java/org/example/repository/impl/VehicleRepositoryImpl.java:61-73 | a deleted, not-rented vehicle is listed by `findByRentedFalse` but not as available |
| VehicleRepositoryImpl.FiltersPartition | src/main/java/org/example/repository/impl/VehicleRepositoryImpl.java:53-98 | active/deleted and not-rented/rented each split the whole table disjointly; cars and motorcycles cover it |
| VehicleRepositoryImpl.SoftDeleteProperties | src/main/java/org/example/repository/impl/VehicleRepositoryImpl.java:40-59 | deleting twice equals deleting once, the row stays in `findAll` and moves to the deleted query, and an unknown id is a no-op |
| VehicleRepositoryImpl.SoftDeleteKeepsPlates | src/main/java/org/example/repository/impl/VehicleRepositoryImpl.java:40-47 | a soft delete keeps rows keyed by their ids and plates unique |
| VehicleRepositoryImpl.VehicleRepository.constructor | src/main/java/org/example/repository/impl/VehicleRepositoryImpl.java:23-31 | the store starts empty and well keyed |
| VehicleRepositoryImpl.VehicleRepository.Save | src/main/java/org/example/repository/impl/VehicleRepositoryImpl.java:23-31 | a stored id has its row replaced, anything else is inserted under a fresh id; a plate used by another row is refused and leaves the table unchanged |
| VehicleRepositoryImpl.VehicleRepository.Delete | src/main/java/org/example/repository/impl/VehicleRepositoryImpl.java:34-39 | the caller's copy is merged with `deleted` set: a stored id's row becomes that copy, any other copy is inserted under a fresh id; a plate clash changes nothing |
| VehicleRepositoryImpl.VehicleRepository.DeleteById | src/main/java/org/example/repository/impl/VehicleRepositoryImpl.java:40-47 | the new table is the soft-deleted one; plates stay unique |
| RentalRepositoryImpl.FindById | src/main/java/org/example/repository/impl/RentalRepositoryImpl.java:42-45 | found iff the id is stored, and then the stored row |
| RentalRepositoryImpl.ActiveAndHistoryPartition | src/main/java/org/example/repository/impl/RentalRepositoryImpl.java:89-100 | the active and history queries split all rentals disjointly by `returned` |
| RentalRepositoryImpl.UserRentalsPartition | src/main/java/org/example/repository/impl/RentalRepositoryImpl.java:53-109 | for one user, the active and history queries split `findByUserId` disjointly |
| RentalRepositoryImpl.RentalRepository.constructor | src/main/java/org/example/repository/impl/RentalRepositoryImpl.java:23-29 | the store starts empty and well keyed |
| RentalRepositoryImpl.RentalRepository.Save | src/main/java/org/example/repository/impl/RentalRepositoryImpl.java:23-29 | a stored id has its row replaced; anything else is inserted under a fresh id that the returned copy carries |
| RentalRepositoryImpl.RentalRepository.Delete | src/main/java/org/example/repository/impl/RentalRepositoryImpl.java:31-34 | the row with the rental's id is physically removed |
| RentalRepositoryImpl.RentalRepository.DeleteById | src/main/java/org/example/repository/impl/RentalRepositoryImpl.java:36-41 | an existing row is physically removed; an unknown id changes nothing |
| RentalRepositoryImpl.RentalRepository.FindActiveRentalByVehicleId | src/main/java/org/example/repository/impl/RentalRepositoryImpl.java:68-78 | empty iff the vehicle has no unreturned rental, otherwise one of its unreturned rentals |
| RentalRepositoryImpl.RentalRepository.FindByStripeSessionId | src/main/java/org/example/repository/impl/RentalRepositoryImpl.java:111-121 | null iff no rental carries the session id, otherwise one that does |
| UserModel.UserWithRoles | src/main/java/org/example/model/User.java:47-52 | roles are the given set or empty for null; the user is not deleted |
| UserModel.UserWithRole | src/main/java/org/example/model/User.java:53-61 | roles are the single given role, or empty for null |
| UserModel.HasRoleIsNameMembership | src/main/java/org/example/model/User.java:87-99 | `hasRole(n)` (and so `isAdmin`/`isModerator`/`isUser`) holds iff n is the name of a held role |
| UserModel.AddRole | src/main/java/org/example/model/User.java:100-104 | the role is held afterwards, no role is lost, nothing else is gained, and no other field changes |
| UserModel.RemoveRole | src/main/java/org/example/model/User.java:105-109 | the role is absent afterwards and every other role is kept |
| UserModel.AddRoleIdempotent | src/main/java/org/example/model/User.java:100-109 | adding a role twice equals adding it once; adding or removing null changes nothing |
| UserModel.RemoveUndoesAdd | src/main/java/org/example/model/User.java:100-109 | removing a role just added restores the user iff the user did not hold it before |
| UserRepositoryImpl.FindById | src/main/java/org/example/repository/impl/UserRepositoryImpl.java:51-60 | found iff the row exists, is not deleted and holds at least one role |
| UserRepositoryImpl.SoftDeleted | src/main/java/org/example/repository/impl/UserRepositoryImpl.java:69-76 | only a visible user is marked deleted; otherwise the table is unchanged |
| UserRepositoryImpl.ActiveAndDeletedPartition | src/main/java/org/example/repository/impl/UserRepositoryImpl.java:44-101 | the active and deleted queries split `findAll` disjointly |
| UserRepositoryImpl.ByRolenameIsActiveWithRole | src/main/java/org/example/repository/impl/UserRepositoryImpl.java:85-94 | the by-role query holds exactly the active users with a role of that name |
| UserRepositoryImpl.SoftDeleteProperties | src/main/java/org/example/repository/impl/UserRepositoryImpl.java:62-76 | a deleted user is no longer found, deleting twice equals deleting once, and the row stays |
| UserRepositoryImpl.SoftDeleteKeepsLogins | src/main/java/org/example/repository/impl/UserRepositoryImpl.java:69-76 | a soft delete keeps rows keyed by id and logins unique |
| UserRepositoryImpl.UserRepository.constructor | src/main/java/org/example/repository/impl/UserRepositoryImpl.java:23-31 | the store starts empty, well keyed, logins unique |
| UserRepositoryImpl.UserRepository.Save | src/main/java/org/example/repository/impl/UserRepositoryImpl.java:23-31 | replace a stored id or insert under a fresh id; a login used by another row is refused with the table unchanged |
| UserRepositoryImpl.UserRepository.Delete | src/main/java/org/example/repository/impl/UserRepositoryImpl.java:62-67 | the caller's copy is merged with `deleted` set: a stored id's row becomes that copy, any other copy is inserted under a fresh id; a login clash changes nothing |
| UserRepositoryImpl.UserRepository.DeleteById | src/main/java/org/example/repository/impl/UserRepositoryImpl.java:69-76 | the new table is the soft-deleted one |
| UserRepositoryImpl.UserRepository.FindByLogin | src/main/java/org/example/repository/impl/UserRepositoryImpl.java:33-42 | null iff no visible user has the login, otherwise such a user |
| RoleRepositoryImpl.FindById | src/main/java/org/example/repository/impl/RoleRepositoryImpl.java:32-35 | found iff stored, and then the stored row |
| RoleRepositoryImpl.RoleRepository.constructor | src/main/java/org/example/repository/impl/RoleRepositoryImpl.java:22-30 | the store starts empty and well keyed |
| RoleRepositoryImpl.RoleRepository.Save | src/main/java/org/example/repository/impl/RoleRepositoryImpl.java:22-30 | replace a stored id, or insert under a fresh id |
| RoleRepositoryImpl.RoleRepository.FindByName | src/main/java/org/example/repository/impl/RoleRepositoryImpl.java:37-74 | null iff no role has the name (so `exists` agrees with it), otherwise a role with that name |
| RoleRepositoryImpl.RoleRepository.FindAll | src/main/java/org/example/repository/impl/RoleRepositoryImpl.java:47-51 | every stored role, each as stored, in strictly ascending id order |
| RoleRepositoryImpl.RoleRepository.Delete | src/main/java/org/example/repository/impl/RoleRepositoryImpl.java:53-56 | the row with the role's id is physically removed |
| RoleRepositoryImpl.RoleRepository.DeleteById | src/main/java/org/example/repository/impl/RoleRepositoryImpl.java:58-64 | an existing row is removed; an unknown id changes nothing |
| RoleServiceImpl.ExistingNameIsSingle | src/main/java/org/example/service/impl/RoleServiceImpl.java:18-25 | with the name checks in force, a name that exists belongs to exactly one role |
| RoleServiceImpl.InsertKeepsUnique | src/main/java/org/example/service/impl/RoleServiceImpl.java:18-25 | inserting a role whose name is not taken keeps role names unique |
| RoleServiceImpl.RenameKeepsUnique | src/main/java/org/example/service/impl/RoleServiceImpl.java:49-57 | renaming to a free name, or to the role's own name, keeps names unique |
| RoleServiceImpl.RoleService.CreateRole | src/main/java/org/example/service/impl/RoleServiceImpl.java:18-25 | raises iff the name exists (store unchanged); otherwise exactly one role has that name, the new one; unique names are preserved |
| RoleServiceImpl.RoleService.FindById | src/main/java/org/example/service/impl/RoleServiceImpl.java:27-34 | raises iff the id is unknown, otherwise the stored role |
| RoleServiceImpl.RoleService.FindByName | src/main/java/org/example/service/impl/RoleServiceImpl.java:36-42 | raises iff no role has the name, otherwise a stored role with it |
| RoleServiceImpl.RoleService.UpdateRole | src/main/java/org/example/service/impl/RoleServiceImpl.java:49-57 | an unknown id raises; a name held by a different role raises; else only the name changes; unique names are preserved |
| RoleServiceImpl.RoleService.DeleteById | src/main/java/org/example/service/impl/RoleServiceImpl.java:59-63 | raises iff the id is unknown, otherwise removes that role |
| RoleServiceImpl.RoleService.ExistByName | src/main/java/org/example/service/impl/RoleServiceImpl.java:70-73 | true iff some stored role has the name |
| RoleServiceImpl.RoleService.GetOrCreateRole | src/main/java/org/example/service/impl/RoleServiceImpl.java:75-82 | returns a stored role with the name, creating it only if none exists; with unique names exactly one such role remains, so a second call creates nothing |
| UserServiceImpl.ToLower | src/main/java/org/example/service/impl/UserServiceImpl.java:60-62 | lower-casing keeps the length and maps each ASCII capital to its small letter |
| UserServiceImpl.ToLowerIdempotent | src/main/java/org/example/service/impl/UserServiceImpl.java:60-62 | a lower-cased name has no capitals, and lower-casing it again changes nothing |
| UserServiceImpl.DistinctWithin | src/main/java/org/example/service/impl/UserServiceImpl.java:121-127 | an iteration order without repeats over a set is no longer than the set |
| UserServiceImpl.SingleRoleListing | src/main/java/org/example/service/impl/UserServiceImpl.java:121-127 | a user with one role lists exactly that role's name |
| UserServiceImpl.Updated | src/main/java/org/example/service/impl/UserServiceImpl.java:85-101 | the login is always replaced, the password only when the new one is non-empty (encoded), the roles only when non-null, and the rest is kept |
| UserServiceImpl.EmptyUpdateKeepsUser | src/main/java/org/example/service/impl/UserServiceImpl.java:85-101 | an update with the same login and a null or empty password and null roles leaves the user as it was |
| UserServiceImpl.SameLoginNoClash | src/main/java/org/example/service/impl/UserServiceImpl.java:85-101 | re-saving a user under its own login never hits the unique constraint |
| UserServiceImpl.UserService.FindByLogin | src/main/java/org/example/service/impl/UserServiceImpl.java:30-37 | raises iff no visible user has the login, otherwise a visible user with it |
| UserServiceImpl.UserService.FindById | src/main/java/org/example/service/impl/UserServiceImpl.java:38-45 | raises iff the user is not visible, otherwise the stored user |
| UserServiceImpl.UserService.CreateUser | src/main/java/org/example/service/impl/UserServiceImpl.java:54-69 | raises iff a visible user has the login (stores unchanged); otherwise the new user has that login, the encoded password, exactly one stored role named the lower-cased role name, the given address, and is then the only visible user with the login; past the login check, even when the insert then fails, the role store is unchanged if the role existed and otherwise gains exactly that one role |
| UserServiceImpl.UserService.DeleteById | src/main/java/org/example/service/impl/UserServiceImpl.java:70-76 | raises iff the user is not visible; otherwise it is marked deleted and no longer found |
| UserServiceImpl.UserService.DeleteUserByLogin | src/main/java/org/example/service/impl/UserServiceImpl.java:77-84 | raises iff no visible user has the login; otherwise that user is marked deleted and no visible user has the login afterwards |
| UserServiceImpl.UserService.UpdateUser | src/main/java/org/example/service/impl/UserServiceImpl.java:85-101 | an unknown id raises; the save raises iff the new login belongs to another row; otherwise the stored user becomes the updated one |
| UserServiceImpl.UserService.GetPrimaryRole | src/main/java/org/example/service/impl/UserServiceImpl.java:110-120 | "user" for no roles; otherwise the first of admin > moderator > user held; otherwise the name of a held role |
| UserServiceImpl.UserService.GetAllRoles | src/main/java/org/example/service/impl/UserServiceImpl.java:121-127 | "user" for no roles; otherwise the names of all held roles, each once, joined with "," in some iteration order |
| UserServiceImpl.UserService.AddRoleToUser | src/main/java/org/example/service/impl/UserServiceImpl.java:129-135 | an invisible user raises with no store changed; otherwise the user then holds a stored role of that name, keeps its roles, and is saved; the role store is unchanged if the role existed and otherwise gains exactly that one role |
| UserServiceImpl.UserService.RemoveRoleFromUser | src/main/java/org/example/service/impl/UserServiceImpl.java:137-146 | an invisible user raises; an unknown role name raises too; otherwise the named stored role is removed from the user, who is saved |
| UserServiceImpl.UserService.UpdateUserAddress | src/main/java/org/example/service/impl/UserServiceImpl.java:148-159 | an invisible user raises; otherwise exactly the address, postal code and country are replaced |
| Payments.ErrorResponse | src/main/java/org/example/service/PaymentService.java:59-61 | the error response has status "error" and no payment id or URL |
| Payments.CalculateTotalCost | src/main/java/org/example/service/PaymentService.java:33-39 | price × days exactly; raises iff the vehicle id is unknown |
| Payments.RoundHalfUp | src/main/java/org/example/service/PaymentService.java:44 | rounds to within one half, ties away from zero |
| Payments.AmountInCents | src/main/java/org/example/service/PaymentService.java:42-69 | the charged amount is within one half of total × 100; a null total raises |
| Payments.RoundHalfUpOfInteger | src/main/java/org/example/service/PaymentService.java:44 | an integer is left as it is by the rounding |
| Payments.AmountInCentsExact | src/main/java/org/example/service/PaymentService.java:42-69 | a total with two decimals is charged exactly, a whole-number total 100 times over |
| Payments.CheckPaymentStatus | src/main/java/org/example/service/PaymentService.java:118-139 | PAID iff "succeeded"; FAILED iff "canceled", "requires_capture" or a gateway error; PENDING for everything else |
| Payments.CheckCheckoutSessionStatus | src/main/java/org/example/service/PaymentService.java:141-155 | PAID iff complete and paid; PENDING iff open; FAILED otherwise and on error |
| Payments.GatewayErrorIsFailure | src/main/java/org/example/service/PaymentService.java:118-155 | a gateway error always reads as FAILED, and PAID needs an answer |
| Payments.SetPaymentStatus | src/main/java/org/example/service/PaymentService.java:158-168 | after the overwrite, `isPaymentCompleted` iff PAID and `isPaymentPending` iff PENDING; nothing else changes |
| Payments.PaymentFlagsExclusive | src/main/java/org/example/service/PaymentService.java:162-168 | the two flags never both hold, and neither holds exactly for FAILED |
| Payments.CreatePaymentIntent | src/main/java/org/example/service/PaymentService.java:42-62 | raises iff total cost, currency or rental id is null; a gateway error gives the error response; otherwise success with the intent's id, client secret and the amount in cents |
| Payments.PaymentService.CreateCheckoutSession | src/main/java/org/example/service/PaymentService.java:64-116 | same raising condition; on a gateway error nothing is saved; otherwise the rental is saved carrying the new session id (replacing its row, or inserted under a fresh id when its id is not stored), and the response repeats the id with the URL and amount |
| RentalServiceImpl.DatedAfterWrite | src/main/java/org/example/service/impl/RentalServiceImpl.java:52-64 | writing a returned rental, or one whose start date parses, keeps every unreturned rental dated |
| RentalServiceImpl.RentedIffExactlyOneActive | src/main/java/org/example/service/impl/RentalServiceImpl.java:46-96 | under the store invariant a vehicle is flagged rented iff exactly one unreturned rental for it exists |
| RentalServiceImpl.RentKeepsConsistent | src/main/java/org/example/service/impl/RentalServiceImpl.java:46-66 | flagging a free vehicle rented together with a new unreturned rental keeps the invariant |
| RentalServiceImpl.ReturnKeepsConsistent | src/main/java/org/example/service/impl/RentalServiceImpl.java:67-96 | closing a vehicle's unreturned rental and clearing its flag keeps the invariant and leaves it no unreturned rental |
| RentalServiceImpl.PaymentUpdateKeepsConsistent | src/main/java/org/example/service/impl/RentalServiceImpl.java:119-137 | rewriting payment fields keeps the invariant |
| RentalServiceImpl.VehicleSoftDeleteKeepsConsistent | src/main/java/org/example/repository/impl/VehicleRepositoryImpl.java:40-47 | soft-deleting a vehicle keeps the invariant |
| RentalServiceImpl.HardDeleteOfActiveRentalBreaksConsistency | src/main/java/org/example/repository/impl/RentalRepositoryImpl.java:36-41 | hard-deleting an unreturned rental leaves its vehicle flagged rented with no rental |
| RentalServiceImpl.OpenedRental | src/main/java/org/example/service/impl/RentalServiceImpl.java:52-60 | the opened rental carries vehicle and user, is unreturned and PENDING, its start date formats the clock and parses back to it, and its end date is the string "null" |
| RentalServiceImpl.ReturnedRental | src/main/java/org/example/service/impl/RentalServiceImpl.java:71-88 | the closed record is returned and PENDING, charges the vehicle's current price × days (days ≥ 1), keeps id, vehicle, user and start date, and fails only on an unreadable date or an unknown vehicle |
| RentalServiceImpl.ReturnedRentalCharge | src/main/java/org/example/service/impl/RentalServiceImpl.java:73-82 | for a rental started at a given time the days are max(1, complete 24-hour periods to the return) and the cost is price × days |
| RentalServiceImpl.ReturnSucceedsWhenDated | src/main/java/org/example/service/impl/RentalServiceImpl.java:73-82 | a dated rental of a stored vehicle can always be closed |
| RentalServiceImpl.TwoDayRentalExample | src/main/java/org/example/service/impl/RentalServiceImpl.java:73-82 | 2024-01-01 10:00 to 2024-01-03 10:00 at price 100 is 2 days and 200 |
| RentalServiceImpl.ApplyGatewayStatus | src/main/java/org/example/service/impl/RentalServiceImpl.java:119-137 | the status becomes the gateway's answer, the payment URL the passed id when non-null, and nothing else changes |
| RentalServiceImpl.PaidCanBeOverwritten | src/main/java/org/example/service/impl/RentalServiceImpl.java:119-137 | a PAID rental becomes FAILED on a gateway error and PENDING for an open session |
| RentalServiceImpl.RentalService.IsVehicleRented | src/main/java/org/example/service/impl/RentalServiceImpl.java:33-37 | true iff the vehicle has an unreturned rental; under the invariant iff it is flagged rented |
| RentalServiceImpl.RentalService.Rent | src/main/java/org/example/service/impl/RentalServiceImpl.java:46-66 | null with no store change iff the vehicle is missing, rented or deleted; otherwise one new rental opened now and the vehicle flagged rented; both invariants are kept |
| RentalServiceImpl.RentalService.ReturnRental | src/main/java/org/example/service/impl/RentalServiceImpl.java:67-96 | null with no change iff no unreturned rental; otherwise that rental is closed as specified and the vehicle unflagged, never failing for a stored vehicle when rentals are dated; invariants kept; the caller's id is ignored |
| RentalServiceImpl.RentalService.UpdatePaymentStatus | src/main/java/org/example/service/impl/RentalServiceImpl.java:119-137 | null iff the id is unknown; otherwise the gateway status is written unconditionally and saved; invariants kept |
| PaymentApi.AuthOutcomesExclusive | src/main/java/org/example/api/controller/PaymentController.java:343-352 | an admin is always authorised without a lookup; a failing lookup and authorisation never both hold |
| PaymentApi.CreateGuard | src/main/java/org/example/api/controller/PaymentController.java:74-84 | the guard never answers 200, and passes iff the rental exists, the caller is authorised and it is not PAID |
| PaymentApi.CreateGuardOrder | src/main/java/org/example/api/controller/PaymentController.java:65-130 | unknown rental → 400 first, then unauthorised → 403, then PAID → 400; an admin is never refused with 403 |
| PaymentApi.Reconcile | src/main/java/org/example/api/controller/PaymentController.java:279-315 | a PAID rental is never rewritten, and nothing changes unless the gateway reports PAID; only status and URL may change |
| PaymentApi.CompleteSession | src/main/java/org/example/api/controller/PaymentController.java:321-337 | a PAID rental is never rewritten; otherwise the status is re-read from the gateway; only status and URL may change |
| PaymentApi.ReconcileIdempotent | src/main/java/org/example/api/controller/PaymentController.java:279-337 | repeating a poll, or a completed-session webhook, changes nothing further |
| PaymentApi.PollAgreesWithWebhook | src/main/java/org/example/api/controller/PaymentController.java:279-337 | when the gateway reports PAID, poll and webhook leave the rental in the same state |
| PaymentApi.PaymentController.IsUserAuthorizedForRental | src/main/java/org/example/api/controller/PaymentController.java:343-352 | raises iff a non-admin caller has no visible user; otherwise true iff admin or the caller's user owns the rental |
| PaymentApi.PaymentController.CreatePaymentIntent | src/main/java/org/example/api/controller/PaymentController.java:65-91 | a guard refusal is the answer and the gateway is not reached; otherwise the payment service's intent outcome |
| PaymentApi.PaymentController.CreateCheckoutSession | src/main/java/org/example/api/controller/PaymentController.java:103-130 | a guard refusal changes nothing; otherwise the payment service's session outcome and write; the rental invariants are kept |
| PaymentApi.PaymentController.PaymentSuccess | src/main/java/org/example/api/controller/PaymentController.java:141-168 | 400 with no change unless the gateway reports PAID and a rental carries the session; then that rental's status is refreshed |
| PaymentApi.PaymentController.PaymentCancel | src/main/java/org/example/api/controller/PaymentController.java:178-186 | always 200, and changes no rental |
| PaymentApi.PaymentController.UpdatePaymentStatus | src/main/java/org/example/api/controller/PaymentController.java:198-221 | unknown rental → 400, a caller with no visible user raises, unauthorised → 403; otherwise 200 and the gateway status is written without a PAID guard |
| PaymentApi.PaymentController.HandleCheckoutSessionCompleted | src/main/java/org/example/api/controller/PaymentController.java:321-337 | no change without a session id or a rental carrying it; otherwise that rental is completed, PAID left alone |
| PaymentApi.PaymentController.HandleStripeWebhook | src/main/java/org/example/api/controller/PaymentController.java:232-267 | 400 iff the event cannot be verified, else 200; only a completed-session event that names a stored session changes a rental, and then only that rental; no PAID rental is rewritten |
| PaymentApi.PaymentController.CheckPaymentStatus | src/main/java/org/example/api/controller/PaymentController.java:279-315 | unknown session → 400, failing lookup → 400, unauthorised → 403; a found session with a non-raising check never gives 400, and an authorised caller gets 200 with the reconciled rental; no PAID rental is rewritten |

## Left out

- Gateway calls (payment intents, checkout sessions, webhook signature checks) are oracle parameters. The model says nothing about what the gateway returns, beyond passing its answer through.
- The clock is a `DateTime` parameter, and the password encoder is an arbitrary function parameter.
- `CivilTime.Parse`: accepts only real dates in years 1..9999 in the exact `yyyy-MM-dd HH:mm` shape. The formatter's default SMART resolution is more lenient: it clamps "2023-02-30 10:00" to 28 February, reads "2024-01-01 24:00" as midnight of 2 January, and accepts years past 9999, and `Parse` rejects all three. The exception text is not modelled.
- Repository `save` of an object whose id is set but not stored is modelled as an insert under a fresh id. The identity counter only grows.
- Foreign keys, cascades and the join tables are not modelled. A renamed role is not reflected in the role copies held by users.
- Concurrency and `@Transactional` semantics are not modelled. Calls are sequential and each repository call commits at once.
- HTTP plumbing is not modelled: response maps, messages, logging and redirects become an `Outcome` code. The duplicate `url` field of the payment response is dropped.
- `Payments.AmountInCents`: the conversion of the amount to a Java `long` is not bounded; an overflow beyond 2^63 is not modelled.
- `Payments.CheckPaymentStatus`: a null intent status raises NullPointerException in the source, and that exception escapes `updatePaymentStatus`; the model's gateway answer is always a string.
- `VehicleServiceImpl` only delegates to the vehicle store, so it has no model of its own. Its `isAvailable` returns the `rented` flag.
- Geofencing is not modelled: the haversine distance in `double`, the random positions and the scheduled jobs.
- Null logins, null role names and null password strings passed to the user service are not modelled.
- Pure delegations are covered by the store functions they call: `findAll`, `save`, `findAllDeletedUsers` and `findAllActiveUsers` of the user service, `findAll` and `delete` of the role service, and the `find*` delegations of the rental service.
- The webhook's payload-reading `IOException` path is not modelled. The signature check's failure is modelled as an unverifiable event.
- `UserServiceImpl.UserService.RemoveRoleFromUser`: the "role not found, return the user unchanged" branch cannot be reached, because the role lookup raises first. The model has the raising behaviour only.
- `UserServiceImpl.ToLower`: only ASCII letters are lower-cased. The locale-dependent case mapping of other characters is not modelled.
- `UserServiceImpl.UserService.GetAllRoles`: the iteration order of the role set is left open, so the contract fixes the joined names only up to order.
- `RentalRepositoryImpl.RentalRepository.FindActiveRentalByVehicleId` and `FindByStripeSessionId`: when several rows match, which one the first-result query returns is left open.
- Role.java is not part of this model; a role is a record of an id and a name.
