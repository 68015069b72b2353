/** The application's start-up inventory and one rent-and-return round
    through the ledger, driven the way the rent and return dialogs drive it. */
module Scenario {
  import opened Ascii
  import opened CarRental

  /** The ids of a list of cars, in order. */
  function Ids(cars: seq<Car>): seq<string>
  {
    seq(|cars|, i requires 0 <= i < |cars| => cars[i].carId)
  }

  lemma IdsOfSeed(c1: Car, c2: Car, c3: Car)
    requires c1.carId == "C001" && c2.carId == "C002" && c3.carId == "C003"
    ensures Ids([c2, c3]) == ["C002", "C003"]
    ensures Ids([c1, c2, c3]) == ["C001", "C002", "C003"]
  {
  }

  /** The available-car list of the three-car inventory before and while
      the first car is rented. */
  lemma AvailableOfThree(a: Car, b: Car, c: Car)
    requires b.isAvailable && c.isAvailable
    ensures a.isAvailable ==> AvailableCars([a, b, c]) == [a, b, c]
    ensures !a.isAvailable ==> AvailableCars([a, b, c]) == [b, c]
  {
    assert [a, b, c][..2] == [a, b];
    assert [a, b][..1] == [a];
    assert [a][..0] == [];
    assert AvailableCars([a]) == (if a.isAvailable then [a] else []);
    assert AvailableCars([a, b]) == AvailableCars([a]) + [b];
  }

  /** The lookup in the return dialog matches the seed id typed in lower case. */
  lemma LowerCaseIdMatches()
    ensures EqualsIgnoreCase("C001", "c001")
  {
  }

  /** A lookup result that is the first match is the head of the list when
      the head matches. */
  lemma FirstMatchIsHead(cars: seq<Car>, id: string, found: Car?)
    requires |cars| > 0 && EqualsIgnoreCase(cars[0].carId, id)
    requires found == null <==> forall i :: 0 <= i < |cars| ==> !EqualsIgnoreCase(cars[i].carId, id)
    requires found != null ==>
      exists i :: 0 <= i < |cars| && cars[i] == found && EqualsIgnoreCase(found.carId, id) &&
        forall j :: 0 <= j < i ==> !EqualsIgnoreCase(cars[j].carId, id)
    ensures found == cars[0]
  {
  }

  /** Returning the car of the only rental empties the rentals. */
  lemma OneRentalRemoved(rentals: seq<Rental>, car: Car)
    requires |rentals| == 1 && rentals[0].car == car
    ensures RentalsWithout(rentals, car) == []
  {
  }

  /** The seed inventory as the application leaves it at start-up. */
  ghost predicate IsSeed(system: CarRentalSystem, c1: Car, c2: Car, c3: Car)
    reads system, c1, c2, c3
  {
    system.cars == [c1, c2, c3] && system.customers == [] &&
    c1.carId == "C001" && c2.carId == "C002" && c3.carId == "C003" &&
    c1.basePricePerDay == 60.0 && c2.basePricePerDay == 70.0 && c3.basePricePerDay == 150.0 &&
    c1.isAvailable && c2.isAvailable && c3.isAvailable
  }

  /** The inventory the application starts with. */
  method SeedInventory() returns (system: CarRentalSystem, c1: Car, c2: Car, c3: Car)
    ensures fresh(system) && fresh(c1) && fresh(c2) && fresh(c3)
    ensures IsSeed(system, c1, c2, c3) && system.rentals == []
    ensures system.Valid()
  {
    system := new CarRentalSystem();
    c1 := new Car("C001", "Toyota", "Camry", 60.0);
    c2 := new Car("C002", "Honda", "Accord", 70.0);
    c3 := new Car("C003", "Mahindra", "Thar", 150.0);
    system.AddCar(c1);
    system.AddCar(c2);
    system.AddCar(c3);
  }

  /** The ids the ledger offers for rent on the seed inventory while C002
      and C003 are available: C001 is among them exactly when it is
      available. */
  method OfferedIds(system: CarRentalSystem, c1: Car, c2: Car, c3: Car) returns (ids: seq<string>)
    requires system.cars == [c1, c2, c3]
    requires c1.carId == "C001" && c2.carId == "C002" && c3.carId == "C003"
    requires c2.isAvailable && c3.isAvailable
    ensures c1.isAvailable ==> ids == ["C001", "C002", "C003"]
    ensures !c1.isAvailable ==> ids == ["C002", "C003"]
  {
    AvailableOfThree(c1, c2, c3);
    var offered := system.GetAvailableCars();
    IdsOfSeed(c1, c2, c3);
    ids := Ids(offered);
  }

  /** Rest of the rent dialog on the seed inventory: the registered customer
      rents the first offered car for three days. */
  method RentFirstOffered(system: CarRentalSystem, c1: Car, c2: Car, c3: Car, customer: Customer)
      returns (price: real)
    requires system.cars == [c1, c2, c3]
    requires c1.carId == "C001" && c2.carId == "C002" && c3.carId == "C003"
    requires c1.basePricePerDay == 60.0
    requires c1.isAvailable && c2.isAvailable && c3.isAvailable
    requires system.Valid() && system.rentals == []
    modifies system, c1
    ensures system.cars == [c1, c2, c3]
    ensures !c1.isAvailable && c2.isAvailable && c3.isAvailable
    ensures system.Valid() && system.rentals == [Rental(c1, customer, 3)]
    ensures price == 180.0
  {
    AvailableOfThree(c1, c2, c3);
    var offered := system.GetAvailableCars();
    assert offered == [c1, c2, c3];
    var selected := offered[0];
    price := selected.CalculatePrice(3);
    system.RentCar(selected, customer, 3);
  }

  /** Return dialog after that rent: the id typed in lower case finds the
      first car, which is rented, so it is returned and the ledger holds no
      rental any more. */
  method ReturnTypedId(system: CarRentalSystem, c1: Car, c2: Car, c3: Car) returns (returnedId: string)
    requires system.cars == [c1, c2, c3]
    requires c1.carId == "C001"
    requires !c1.isAvailable
    requires system.Valid() && |system.rentals| == 1 && system.rentals[0].car == c1
    modifies system, c1
    ensures system.cars == [c1, c2, c3]
    ensures c1.isAvailable
    ensures system.Valid() && system.rentals == []
    ensures returnedId == "C001"
  {
    LowerCaseIdMatches();
    var found := system.FindCarById("c001");
    FirstMatchIsHead(system.cars, "c001", found);
    if found != null && !found.isAvailable {
      OneRentalRemoved(system.rentals, found);
      system.ReturnCar(found);
      returnedId := found.carId;
    } else {
      returnedId := "";
    }
  }

  /** The whole round on a fresh application: seed, rent, return. Each
      stage requires and re-establishes the ledger invariant: the rent leaves
      exactly one rental, of C001, and the return leaves none. */
  method SeedRentAndReturn() returns (customerId: string, price: real, offeredAfterRent: seq<string>,
                                      returnedId: string, offeredAfterReturn: seq<string>)
    ensures customerId == "CUS1"
    ensures price == 180.0
    ensures offeredAfterRent == ["C002", "C003"]
    ensures returnedId == "C001"
    ensures offeredAfterReturn == ["C001", "C002", "C003"]
  {
    var system, c1, c2, c3 := SeedInventory();
    // Rent dialog: a name is given and the customer registered first.
    var customer := RegisterCustomer(system, "Alice");
    FirstCustomerIds();
    customerId := customer.customerId;
    price := RentFirstOffered(system, c1, c2, c3, customer);
    offeredAfterRent := OfferedIds(system, c1, c2, c3);
    // Return dialog.
    returnedId := ReturnTypedId(system, c1, c2, c3);
    offeredAfterReturn := OfferedIds(system, c1, c2, c3);
  }
}
