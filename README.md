# Car rental ledger — a verified Dafny model

This project models the in-memory bookkeeping core of a small desktop
car-rental application (`CarRentalGUIApp.java`). The core has four parts:

- **cars**: records whose only mutable field is the availability flag;
- **customers**: plain records with an id and a name;
- **rentals**: records linking a car, a customer and a number of days;
- **the ledger** (`CarRentalSystem`): it owns the lists of cars, customers and
  active rentals, and offers append-only inserts, the list of available cars,
  a case-insensitive lookup by id, a guarded rent and an unconditional return.

Files:

- `ascii.dfy` (module `Ascii`): the case-insensitive comparison used by the
  lookup, with ASCII case folding.
- `decimal.dfy` (module `Decimal`): the decimal rendering of a number appended
  to a string, used to form customer ids `"CUS" + n`.
- `car_rental.dfy` (module `CarRental`): `Car` is a class, since its flag is
  updated in place and rentals compare cars by reference. `Customer` and
  `Rental` are datatypes, since they are never updated. `CarRentalSystem` is a
  class whose `seq` fields are reassigned by its methods. `GetAvailableCars`
  and `FindCarById` keep the source's loops and are proved against
  specification functions and quantified postconditions. The customer-id rule
  of the rent dialog is `NextCustomerId` and `RegisterCustomer`.
- `scenario.dfy` (module `Scenario`): the start-up inventory (C001 at 60 a
  day, C002 at 70, C003 at 150) and one rent-and-return round. It is driven
  the way the two dialogs drive the ledger, and its results are proved.

The ledger invariant `CarRentalSystem.Valid` states the cross-structure
property "a car is rented exactly when a rental refers to it". It has three
parts:

- every rental's car is unavailable;
- every unavailable car in `cars` has a rental;
- no car has two rentals.

The invariant has to say this about rentals as well as about `cars`, because
`rentCar` does not check that its car is in `cars`. `RentCar`, `ReturnCar`,
`AddCustomer` and `AddCar` (of an available car) preserve it.

The source has no preconditions, so the mutating methods state
`old(Valid()) ==> Valid()` rather than requiring `Valid()`.

## Model

| member | source | states |
|---|---|---|
| `CarRental.Car.constructor` | Car-Rental-System-master/Car-Rental-System-master/src/CarRentalGUIApp.java:14-20 | a new car holds the given id, brand, model and rate, and is available |
| `CarRental.Car.Rent` | Car-Rental-System-master/Car-Rental-System-master/src/CarRentalGUIApp.java:27 | the car becomes unavailable; no other field can change |
| `CarRental.Car.ReturnCar` | Car-Rental-System-master/Car-Rental-System-master/src/CarRentalGUIApp.java:28 | the car becomes available; no other field can change |
| `CarRental.PriceIsLinear` | Car-Rental-System-master/Car-Rental-System-master/src/CarRentalGUIApp.java:26 | the price of a rental is rate × days: zero days cost nothing, prices of day counts add up, and with a non-negative rate more days never cost less |
| `CarRental.LabelNamesCar` | Car-Rental-System-master/Car-Rental-System-master/src/CarRentalGUIApp.java:31-33 | a car's display label begins with its id followed by ':', and the id is read back from the label when it holds no ':' |
| `CarRental.CarRentalSystem.constructor` | Car-Rental-System-master/Car-Rental-System-master/src/CarRentalGUIApp.java:62-64 | a new ledger has three empty lists and satisfies the invariant |
| `CarRental.CarRentalSystem.AddCar` | Car-Rental-System-master/Car-Rental-System-master/src/CarRentalGUIApp.java:66 | the car is appended to `cars`; customers and rentals are unchanged; adding an available car keeps the invariant |
| `CarRental.CarRentalSystem.AddCustomer` | Car-Rental-System-master/Car-Rental-System-master/src/CarRentalGUIApp.java:67-68 | the customer is appended; the customer count grows by exactly one; cars and rentals are unchanged; the invariant is kept |
| `CarRental.CarRentalSystem.GetAvailableCars` | Car-Rental-System-master/Car-Rental-System-master/src/CarRentalGUIApp.java:70-76 | returns the available cars of `cars` in list order (`AvailableCars`); a car is in the result exactly when it is in `cars` and available; nothing is modified |
| `CarRental.AvailableCarsSelectsAvailable` | Car-Rental-System-master/Car-Rental-System-master/src/CarRentalGUIApp.java:70-76 | the available-car list is `cars` read at a strictly increasing sequence of positions, and a position is chosen exactly when its car is available, so order is preserved and nothing is missed |
| `CarRental.AvailableCarsMembers` | Car-Rental-System-master/Car-Rental-System-master/src/CarRentalGUIApp.java:70-76 | a car is listed exactly when it is in `cars` and is available |
| `CarRental.CarRentalSystem.FindCarById` | Car-Rental-System-master/Car-Rental-System-master/src/CarRentalGUIApp.java:78-83 | returns null exactly when no car's id equals `id` ignoring case; otherwise returns the car at the first position whose id matches; nothing is modified |
| `CarRental.CarRentalSystem.RentCar` | Car-Rental-System-master/Car-Rental-System-master/src/CarRentalGUIApp.java:85-90 | an available car becomes unavailable and exactly one rental `(car, customer, days)` is appended; an unavailable car leaves the ledger and the car untouched; cars and customers never change; the invariant is kept; renting an available car on a consistent ledger leaves exactly one rental referring to it |
| `CarRental.CarRentalSystem.ReturnCar` | Car-Rental-System-master/Car-Rental-System-master/src/CarRentalGUIApp.java:92-95 | the car becomes available; rentals become the old rentals without those of this car (`RentalsWithout`), so no rental refers to it; cars and customers are unchanged; the invariant is kept |
| `CarRental.RentalsWithoutKeepsOthers` | Car-Rental-System-master/Car-Rental-System-master/src/CarRentalGUIApp.java:94 | removal keeps a rental exactly when it was present and belongs to another car |
| `CarRental.RentalsWithoutDropsCar` | Car-Rental-System-master/Car-Rental-System-master/src/CarRentalGUIApp.java:94 | after removal, exactly the other cars that were referenced are still referenced |
| `CarRental.RentalsWithoutCount` | Car-Rental-System-master/Car-Rental-System-master/src/CarRentalGUIApp.java:94 | removal drops exactly as many rentals as referred to the car, and changes nothing when none did |
| `CarRental.RentalsWithoutDistributes` | Car-Rental-System-master/Car-Rental-System-master/src/CarRentalGUIApp.java:94 | removal distributes over concatenation, so the kept rentals stay in their original relative order |
| `CarRental.ReturnUndoesRent` | Car-Rental-System-master/Car-Rental-System-master/src/CarRentalGUIApp.java:85-95 | returning a car that had no rental right after renting it restores the rentals exactly |
| `CarRental.RentalsWithoutKeepsDistinct` | Car-Rental-System-master/Car-Rental-System-master/src/CarRentalGUIApp.java:92-95 | if no car had two rentals before removal, none has two after it |
| `CarRental.RegisterCustomer` | Car-Rental-System-master/Car-Rental-System-master/src/CarRentalGUIApp.java:137-138 | the new customer gets id `NextCustomerId(count)` and is appended; if the ids were sequential (the i-th customer is `CUS(i+1)`) they still are; cars and rentals are unchanged; the invariant is kept |
| `CarRental.NextCustomerIdInjective` | Car-Rental-System-master/Car-Rental-System-master/src/CarRentalGUIApp.java:137 | different customer counts yield different ids |
| `CarRental.FirstCustomerIds` | Car-Rental-System-master/Car-Rental-System-master/src/CarRentalGUIApp.java:137 | the first two ids handed out are `CUS1` and `CUS2` |
| `CarRental.SequentialIdsAreDistinct` | Car-Rental-System-master/Car-Rental-System-master/src/CarRentalGUIApp.java:137-138 | sequentially numbered customers have pairwise distinct ids |
| `Decimal.NatToStringRoundTrip` | Car-Rental-System-master/Car-Rental-System-master/src/CarRentalGUIApp.java:137 | the decimal form of a count is a non-empty digit string with no leading zero that reads back as the count |
| `Decimal.NatToStringInjective` | Car-Rental-System-master/Car-Rental-System-master/src/CarRentalGUIApp.java:137 | distinct numbers have distinct decimal forms |
| `Ascii.CharsMatchIffSameLower` | Car-Rental-System-master/Car-Rental-System-master/src/CarRentalGUIApp.java:80 | two chars match under the per-char test of `equalsIgnoreCase` exactly when their lower-case forms agree |
| `Ascii.EqualsIgnoreCaseIffSameLowerCase` | Car-Rental-System-master/Car-Rental-System-master/src/CarRentalGUIApp.java:80 | two ids are equal ignoring case exactly when their lower-cased forms are equal |
| `Ascii.EqualsIgnoreCaseIsEquivalence` | Car-Rental-System-master/Car-Rental-System-master/src/CarRentalGUIApp.java:80 | the id comparison is reflexive, symmetric and transitive |
| `Scenario.LowerCaseIdMatches` | Car-Rental-System-master/Car-Rental-System-master/src/CarRentalGUIApp.java:80 | looking up `c001` matches a car registered as `C001` |
| `Scenario.SeedInventory` | Car-Rental-System-master/Car-Rental-System-master/src/CarRentalGUIApp.java:108-110 | start-up gives a consistent ledger with cars C001, C002 and C003 in that order, all available, with their rates, and no customers or rentals |
| `Scenario.OfferedIds` | Car-Rental-System-master/Car-Rental-System-master/src/CarRentalGUIApp.java:70-76 | on the seed inventory with C002 and C003 available, the offered ids are C001, C002, C003 when C001 is available and C002, C003 when it is not |
| `Scenario.RentFirstOffered` | Car-Rental-System-master/Car-Rental-System-master/src/CarRentalGUIApp.java:140-166 | on the consistent seed ledger without rentals, renting the first offered car (C001) for 3 days costs 180; afterwards C001 is unavailable, the ledger is still consistent and holds exactly the rental (C001, customer, 3) |
| `Scenario.OneRentalRemoved` | Car-Rental-System-master/Car-Rental-System-master/src/CarRentalGUIApp.java:94 | returning the car of the only rental leaves no rental |
| `Scenario.ReturnTypedId` | Car-Rental-System-master/Car-Rental-System-master/src/CarRentalGUIApp.java:178-180 | on a consistent ledger whose only rental is of C001, the id typed as `c001` finds C001, which is rented, so it is returned; C001 is available again, the ledger is still consistent and holds no rental |
| `Scenario.SeedRentAndReturn` | Car-Rental-System-master/Car-Rental-System-master/src/CarRentalGUIApp.java:108-180 | the whole round from start-up: first customer id `CUS1`, price 180, C001 withdrawn from and then back in the offered list; the stages it chains require and keep the invariant |

## Left out

- The Swing presentation layer: `setupUI`, `rentCarDialog`, `returnCarDialog`, the window constructor and `main`. The user's choices in the dialogs only appear as the fixed choices of the `Scenario` module.
- `Integer.parseInt` and the `NumberFormatException` path of the rent dialog. This is a library call. Days are an `int` parameter.
- The `double` rate and price: the rate is a `real`, so `CalculatePrice` is exact, with no floating-point rounding. The formatting of the price message is also left out.
- The full Unicode case mapping of `equalsIgnoreCase`: only the ASCII letters are folded.
- Ascii.EqualsIgnoreCase: does not model a null argument (Java returns false). The lookup is only ever called with a non-null id.
- NextCustomerId: does not model the 32-bit wrap-around of `count + 1`. That would need more than two billion customers.
- `Rental.days` is an unbounded `int`. Java's `int` range and the missing check that days are positive are not modelled. Any value is accepted, as in the source.
- Null entries in the lists: Java lists may hold `null`, and `findCarById` would then throw. The model's lists hold non-null cars.
- Rentals are values, not objects. Nothing in the source compares two rentals, and `removeIf` tests only the car reference, which stays a reference here.
- The trivial getters (`getCarId`, `getBrand`, `isAvailable`, …): the model reads the fields directly. Only `isAvailable` is mutable, so the other fields are `const`.
- `System.exit` and `SwingUtilities.invokeLater`: these are process and threading plumbing.
- CarRental.CarRentalSystem.AddCar: keeps the invariant only when the added car is available. Adding a rented car that has no rental breaks it, and the source does not guard against that. Duplicate car ids are not rejected, as in the source.
