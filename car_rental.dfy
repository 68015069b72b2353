/** The in-memory bookkeeping of the car-rental application: cars whose
    availability flag changes in place, plain customer and rental records, and
    the ledger that owns the lists of cars, customers and active rentals. */
module CarRental {
  import opened Ascii
  import opened Decimal

  // ===== Records =====

  /** A rentable car. Only the availability flag is ever updated; the other
      fields are fixed when the car is built. */
  class Car {
    const carId: string
    const brand: string
    const model: string
    const basePricePerDay: real
    var isAvailable: bool

    /** A new car starts out available. */
    constructor (carId: string, brand: string, model: string, basePricePerDay: real)
      ensures this.carId == carId && this.brand == brand && this.model == model
      ensures this.basePricePerDay == basePricePerDay
      ensures isAvailable
    {
      this.carId := carId;
      this.brand := brand;
      this.model := model;
      this.basePricePerDay := basePricePerDay;
      this.isAvailable := true;
    }

    /** Flat per-day rate times the number of days. */
    function CalculatePrice(days: int): (price: real)
    {
      basePricePerDay * days as real
    }

    method Rent()
      modifies this
      ensures !isAvailable
    {
      isAvailable := false;
    }

    method ReturnCar()
      modifies this
      ensures isAvailable
    {
      isAvailable := true;
    }

    /** The label shown in the car selection list: `id: brand model`. */
    function ToString(): (text: string)
    {
      carId + ": " + brand + " " + model
    }
  }

  datatype Customer = Customer(customerId: string, name: string)

  /** An active rental. `car` is a reference, so two rentals name the same
      car exactly when they hold the same object. */
  datatype Rental = Rental(car: Car, customer: Customer, days: int)

  // ===== Pricing =====

  /** The price is linear in the number of days. */
  lemma PriceIsLinear(car: Car, d1: int, d2: int)
    ensures car.CalculatePrice(0) == 0.0
    ensures car.CalculatePrice(d1 + d2) == car.CalculatePrice(d1) + car.CalculatePrice(d2)
    ensures car.basePricePerDay >= 0.0 && d1 <= d2 ==> car.CalculatePrice(d1) <= car.CalculatePrice(d2)
  {
  }

  // ===== Labels =====

  /** Everything before the first ':' of a label (all of it if there is none). */
  function LabelId(text: string): (id: string)
  {
    if text == [] || text[0] == ':' then [] else [text[0]] + LabelId(text[1..])
  }

  lemma {:induction false} LabelIdOfPrefix(id: string, rest: string)
    requires ':' !in id
    ensures LabelId(id + ":" + rest) == id
  {
    if id != [] {
      assert (id + ":" + rest)[1..] == id[1..] + ":" + rest;
      LabelIdOfPrefix(id[1..], rest);
    }
  }

  /** A car's label starts with its id, so the id can be read back from it
      whenever the id holds no ':'. */
  lemma LabelNamesCar(car: Car)
    requires ':' !in car.carId
    ensures car.ToString()[..|car.carId| + 1] == car.carId + ":"
    ensures LabelId(car.ToString()) == car.carId
  {
    assert car.ToString() == car.carId + ":" + (" " + car.brand + " " + car.model);
    LabelIdOfPrefix(car.carId, " " + car.brand + " " + car.model);
  }

  // ===== Specification functions over the lists =====

  /** The available cars of `cars`, in their order. */
  ghost function AvailableCars(cars: seq<Car>): (available: seq<Car>)
    reads cars
  {
    if cars == [] then []
    else
      var last := cars[|cars| - 1];
      AvailableCars(cars[..|cars| - 1]) + (if last.isAvailable then [last] else [])
  }

  /** The positions of the available cars of `cars`, in increasing order. */
  ghost function AvailableIndices(cars: seq<Car>): seq<int>
    reads cars
  {
    if cars == [] then []
    else
      AvailableIndices(cars[..|cars| - 1]) + (if cars[|cars| - 1].isAvailable then [|cars| - 1] else [])
  }

  /** `AvailableCars` picks, in increasing order of position, exactly the
      positions whose car is available. */
  lemma {:induction false} AvailableCarsSelectsAvailable(cars: seq<Car>)
    ensures |AvailableIndices(cars)| == |AvailableCars(cars)|
    ensures forall k :: 0 <= k < |AvailableIndices(cars)| ==>
      0 <= AvailableIndices(cars)[k] < |cars| && AvailableCars(cars)[k] == cars[AvailableIndices(cars)[k]]
    ensures forall k, l :: 0 <= k < l < |AvailableIndices(cars)| ==>
      AvailableIndices(cars)[k] < AvailableIndices(cars)[l]
    ensures forall i :: 0 <= i < |cars| ==> (cars[i].isAvailable <==> i in AvailableIndices(cars))
  {
    if cars != [] {
      var init := cars[..|cars| - 1];
      AvailableCarsSelectsAvailable(init);
      assert forall i :: 0 <= i < |init| ==> cars[i] == init[i];
    }
  }

  /** A car is listed exactly when it is one of `cars` and is available. */
  lemma AvailableCarsMembers(cars: seq<Car>)
    ensures forall c :: c in AvailableCars(cars) <==> c in cars && c.isAvailable
  {
    AvailableCarsSelectsAvailable(cars);
  }

  /** The cars the rentals refer to, one per rental, in order. */
  function CarsOf(rentals: seq<Rental>): (referenced: seq<Car>)
  {
    seq(|rentals|, i requires 0 <= i < |rentals| => rentals[i].car)
  }

  /** `rentals.removeIf(r -> r.getCar() == car)`. */
  function RentalsWithout(rentals: seq<Rental>, car: Car): (kept: seq<Rental>)
  {
    if rentals == [] then []
    else
      var last := rentals[|rentals| - 1];
      RentalsWithout(rentals[..|rentals| - 1], car) + (if last.car == car then [] else [last])
  }

  lemma CarsOfAppend(a: seq<Rental>, b: seq<Rental>)
    ensures CarsOf(a + b) == CarsOf(a) + CarsOf(b)
  {
  }

  /** A car is referenced by some rental exactly when it is one of `CarsOf`. */
  lemma CarsOfMembers(rentals: seq<Rental>, c: Car)
    ensures c in CarsOf(rentals) <==> exists r :: r in rentals && r.car == c
  {
    if c in CarsOf(rentals) {
      var i :| 0 <= i < |rentals| && CarsOf(rentals)[i] == c;
      assert rentals[i] in rentals;
    }
    if exists r :: r in rentals && r.car == c {
      var r :| r in rentals && r.car == c;
      var i :| 0 <= i < |rentals| && rentals[i] == r;
      assert CarsOf(rentals)[i] == c;
    }
  }

  /** Removal keeps exactly the rentals of other cars. */
  lemma {:induction false} RentalsWithoutKeepsOthers(rentals: seq<Rental>, car: Car)
    ensures forall r :: r in RentalsWithout(rentals, car) <==> r in rentals && r.car != car
  {
    if rentals != [] {
      var init := rentals[..|rentals| - 1];
      RentalsWithoutKeepsOthers(init, car);
      assert rentals == init + [rentals[|rentals| - 1]];
    }
  }

  /** So exactly the other cars stay referenced. */
  lemma RentalsWithoutDropsCar(rentals: seq<Rental>, car: Car)
    ensures forall c :: c in CarsOf(RentalsWithout(rentals, car)) <==> c in CarsOf(rentals) && c != car
  {
    RentalsWithoutKeepsOthers(rentals, car);
    forall c ensures c in CarsOf(RentalsWithout(rentals, car)) <==> c in CarsOf(rentals) && c != car {
      CarsOfMembers(rentals, c);
      CarsOfMembers(RentalsWithout(rentals, car), c);
    }
  }

  /** Removal drops one entry per rental of `car` and nothing when there is
      none. */
  lemma {:induction false} RentalsWithoutCount(rentals: seq<Rental>, car: Car)
    ensures |RentalsWithout(rentals, car)| + multiset(CarsOf(rentals))[car] == |rentals|
    ensures car !in CarsOf(rentals) ==> RentalsWithout(rentals, car) == rentals
  {
    if rentals != [] {
      var init := rentals[..|rentals| - 1];
      var last := rentals[|rentals| - 1];
      RentalsWithoutCount(init, car);
      assert rentals == init + [last];
      CarsOfAppend(init, [last]);
    }
  }

  /** Removal distributes over concatenation, so the kept rentals stay in
      their relative order. */
  lemma {:induction false} RentalsWithoutDistributes(a: seq<Rental>, b: seq<Rental>, car: Car)
    ensures RentalsWithout(a + b, car) == RentalsWithout(a, car) + RentalsWithout(b, car)
    decreases |b|
  {
    if b != [] {
      var ab := a + b;
      assert ab[..|ab| - 1] == a + b[..|b| - 1];
      RentalsWithoutDistributes(a, b[..|b| - 1], car);
    } else {
      assert a + b == a;
    }
  }

  /** Returning a car that had no rental undoes renting it: the rentals are
      back to what they were before the rent. */
  lemma ReturnUndoesRent(rentals: seq<Rental>, car: Car, customer: Customer, days: int)
    requires car !in CarsOf(rentals)
    ensures RentalsWithout(rentals + [Rental(car, customer, days)], car) == rentals
  {
    RentalsWithoutDistributes(rentals, [Rental(car, customer, days)], car);
    RentalsWithoutCount(rentals, car);
    assert [Rental(car, customer, days)][..0] == [];
  }

  /** Removal keeps the cars of the remaining rentals pairwise distinct if
      they were. */
  lemma {:induction false} RentalsWithoutKeepsDistinct(rentals: seq<Rental>, car: Car)
    requires DistinctCars(rentals)
    ensures DistinctCars(RentalsWithout(rentals, car))
  {
    if rentals != [] {
      var init := rentals[..|rentals| - 1];
      var last := rentals[|rentals| - 1];
      assert DistinctCars(init) by {
        forall i | 0 <= i < |init| ensures init[i] == rentals[i] { }
      }
      RentalsWithoutKeepsDistinct(init, car);
      RentalsWithoutDropsCar(init, car);
      var kept := RentalsWithout(init, car);
      if last.car != car {
        assert last.car !in CarsOf(init) by {
          forall i | 0 <= i < |init| ensures CarsOf(init)[i] != last.car {
            assert init[i] == rentals[i];
          }
        }
        forall i | 0 <= i < |kept| ensures kept[i].car != last.car {
          assert kept[i].car == CarsOf(kept)[i];
        }
      }
    }
  }

  /** No two rentals name the same car. */
  ghost predicate DistinctCars(rentals: seq<Rental>)
  {
    forall i, j :: 0 <= i < j < |rentals| ==> rentals[i].car != rentals[j].car
  }

  // ===== Customer ids =====

  /** The id given to the customer registered when `count` customers exist. */
  function NextCustomerId(count: nat): (id: string)
  {
    "CUS" + NatToString(count + 1)
  }

  /** Different counts give different ids. */
  lemma NextCustomerIdInjective(a: nat, b: nat)
    ensures a != b ==> NextCustomerId(a) != NextCustomerId(b)
  {
    assert NextCustomerId(a)[3..] == NatToString(a + 1);
    assert NextCustomerId(b)[3..] == NatToString(b + 1);
    NatToStringInjective(a + 1, b + 1);
  }

  /** The first two ids handed out. */
  lemma FirstCustomerIds()
    ensures NextCustomerId(0) == "CUS1" && NextCustomerId(1) == "CUS2"
  {
  }

  /** The i-th customer carries the id handed out when i customers existed. */
  ghost predicate CustomerIdsSequential(customers: seq<Customer>)
  {
    forall i :: 0 <= i < |customers| ==> customers[i].customerId == NextCustomerId(i)
  }

  /** Sequentially numbered customers have pairwise distinct ids. */
  lemma SequentialIdsAreDistinct(customers: seq<Customer>)
    requires CustomerIdsSequential(customers)
    ensures forall i, j :: 0 <= i < j < |customers| ==> customers[i].customerId != customers[j].customerId
  {
    forall i, j | 0 <= i < j < |customers|
      ensures customers[i].customerId != customers[j].customerId
    {
      NextCustomerIdInjective(i, j);
    }
  }

  // ===== The ledger =====

  class CarRentalSystem {
    var cars: seq<Car>
    var customers: seq<Customer>
    var rentals: seq<Rental>

    /** A car is rented exactly when a rental refers to it: every rental's car
        is unavailable, every unavailable listed car has a rental, and no car
        has two rentals. */
    ghost predicate Valid()
      reads this, cars, CarsOf(rentals)
    {
      (forall c :: c in CarsOf(rentals) ==> !c.isAvailable) &&
      (forall c :: c in cars && !c.isAvailable ==> c in CarsOf(rentals)) &&
      DistinctCars(rentals)
    }

    /** The three lists start out empty. */
    constructor ()
      ensures cars == [] && customers == [] && rentals == []
      ensures Valid()
    {
      cars, customers, rentals := [], [], [];
    }

    method AddCar(car: Car)
      modifies this
      ensures cars == old(cars) + [car]
      ensures customers == old(customers) && rentals == old(rentals)
      ensures old(Valid()) && car.isAvailable ==> Valid()
    {
      cars := cars + [car];
    }

    method AddCustomer(customer: Customer)
      modifies this
      ensures customers == old(customers) + [customer]
      ensures GetCustomerCount() == old(GetCustomerCount()) + 1
      ensures cars == old(cars) && rentals == old(rentals)
      ensures old(Valid()) ==> Valid()
    {
      customers := customers + [customer];
    }

    function GetCustomerCount(): nat
      reads this
    {
      |customers|
    }

    method GetAvailableCars() returns (available: seq<Car>)
      ensures available == AvailableCars(cars)
      ensures forall c :: c in available <==> c in cars && c.isAvailable
    {
      available := [];
      var i := 0;
      while i < |cars|
        invariant 0 <= i <= |cars|
        invariant available == AvailableCars(cars[..i])
      {
        assert cars[..i + 1][..i] == cars[..i];
        if cars[i].isAvailable {
          available := available + [cars[i]];
        }
        i := i + 1;
      }
      assert cars[..|cars|] == cars;
      AvailableCarsMembers(cars);
    }

    /** The first car whose id equals `id` ignoring case, or null. */
    method FindCarById(id: string) returns (found: Car?)
      ensures found == null <==> forall i :: 0 <= i < |cars| ==> !EqualsIgnoreCase(cars[i].carId, id)
      ensures found != null ==>
        exists i :: 0 <= i < |cars| && cars[i] == found && EqualsIgnoreCase(found.carId, id) &&
          forall j :: 0 <= j < i ==> !EqualsIgnoreCase(cars[j].carId, id)
    {
      var i := 0;
      while i < |cars|
        invariant 0 <= i <= |cars|
        invariant forall j :: 0 <= j < i ==> !EqualsIgnoreCase(cars[j].carId, id)
      {
        if EqualsIgnoreCase(cars[i].carId, id) {
          return cars[i];
        }
        i := i + 1;
      }
      return null;
    }

    /** Rents `car` if it is available; otherwise nothing happens. */
    method RentCar(car: Car, customer: Customer, days: int)
      modifies this, car
      ensures old(car.isAvailable) ==>
        !car.isAvailable && rentals == old(rentals) + [Rental(car, customer, days)]
      ensures !old(car.isAvailable) ==> unchanged(this, car)
      ensures cars == old(cars) && customers == old(customers)
      ensures old(Valid()) ==> Valid()
      ensures old(Valid()) && old(car.isAvailable) ==> multiset(CarsOf(rentals))[car] == 1
    {
      if car.isAvailable {
        ghost var wasValid := Valid();
        ghost var before := rentals;
        car.Rent();
        rentals := rentals + [Rental(car, customer, days)];
        assert CarsOf(rentals) == CarsOf(before) + [car];
        if wasValid {
          assert car !in CarsOf(before);
          forall i, j | 0 <= i < j < |rentals| ensures rentals[i].car != rentals[j].car {
            if j == |rentals| - 1 {
              assert rentals[i].car == CarsOf(before)[i];
            }
          }
        }
      }
    }

    /** Makes `car` available again and drops every rental of it. */
    method ReturnCar(car: Car)
      modifies this, car
      ensures car.isAvailable
      ensures rentals == RentalsWithout(old(rentals), car)
      ensures car !in CarsOf(rentals)
      ensures cars == old(cars) && customers == old(customers)
      ensures old(Valid()) ==> Valid()
    {
      ghost var wasValid := Valid();
      ghost var before := rentals;
      car.ReturnCar();
      rentals := RentalsWithout(rentals, car);
      RentalsWithoutDropsCar(before, car);
      if wasValid {
        RentalsWithoutKeepsDistinct(before, car);
      }
    }
  }

  /** Registering a customer (the rent dialog, once a name is given): the
      new customer gets the next sequential id and is added to the ledger. */
  method RegisterCustomer(system: CarRentalSystem, name: string) returns (customer: Customer)
    modifies system
    ensures customer == Customer(NextCustomerId(old(system.GetCustomerCount())), name)
    ensures system.customers == old(system.customers) + [customer]
    ensures system.cars == old(system.cars) && system.rentals == old(system.rentals)
    ensures old(CustomerIdsSequential(system.customers)) ==> CustomerIdsSequential(system.customers)
    ensures old(system.Valid()) ==> system.Valid()
  {
    customer := Customer(NextCustomerId(system.GetCustomerCount()), name);
    system.AddCustomer(customer);
  }
}
