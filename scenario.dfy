// Clients of the ledger: the rent / return sequences the rental and return
// forms drive, on a fresh ledger and on any ledger that keeps its invariant.

module RentalScenario {
  import opened CarRent

  /** A fresh ledger given one car at 45.99 a day and one customer. */
  method FreshLedger(customer: Customer) returns (ledger: CarRentalSystem, car: Car)
    ensures fresh(ledger) && fresh(car) && ledger.Valid()
    ensures ledger.cars == [car] && ledger.customers == [customer]
    ensures ledger.rentals == [] && ledger.rentalCounter == 1
    ensures ledger.fleet == {car} && ledger.issued == {}
    ensures car.available && car.licensePlate == "ABC123" && car.dailyRate == 4599
  {
    ledger := new CarRentalSystem();
    car := new Car("ABC123", "Toyota", "Camry", "Sedan", 4599);
    ledger.AddCar(car);
    ledger.AddCustomer(customer);
  }

  /** On that fresh ledger, a three-day rental is "R1", costs 137.97 and ends
      three days from today, and the car is then no longer listed as
      available; returning "R1" succeeds and the car is listed again. */
  method FirstRentalOfFreshLedger(customer: Customer, today: int)
    returns (rental: Rental?, listed: seq<Car>, returned: bool, relisted: seq<Car>)
    ensures rental != null && rental.rentalId == "R1"
    ensures rental.totalCost == 13797 && rental.startDate == today && rental.endDate == today + 3
    ensures listed == []
    ensures returned && !rental.active
    ensures |relisted| == 1 && relisted[0] == rental.car && relisted[0].licensePlate == "ABC123"
  {
    var ledger, car := FreshLedger(customer);
    rental := ledger.RentCar(customer, car, 3, today);
    assert RentalIdOf(1) == "R1";
    listed := ledger.GetAvailableCars();
    returned := ledger.ReturnCar("R1");
    relisted := ledger.GetAvailableCars();
  }

  /** Renting the same car twice without a return: the second attempt fails
      and adds no rental. */
  method RentTwice(ledger: CarRentalSystem, customer: Customer, car: Car, days: int, today: int)
    returns (first: Rental?, second: Rental?)
    requires ledger.Valid()
    modifies ledger, car
    ensures second == null
    ensures |ledger.rentals| == |old(ledger.rentals)| + (if old(car.available) then 1 else 0)
  {
    first := ledger.RentCar(customer, car, days, today);
    second := ledger.RentCar(customer, car, days, today);
  }

  /** Returning the same id twice: the second return always fails. */
  method ReturnTwice(ledger: CarRentalSystem, rentalId: string) returns (first: bool, second: bool)
    requires ledger.Valid()
    modifies ledger.issued, ledger.fleet
    ensures !second
  {
    first := ledger.ReturnCar(rentalId);
    second := ledger.ReturnCar(rentalId);
  }

  /** Rent an available car, return it by its id and rent it again: two
      distinct ids, the first rental inactive, the second active, and only the
      second listed among the active rentals. */
  method RentReturnRent(ledger: CarRentalSystem, customer: Customer, car: Car, today: int)
    returns (first: Rental?, returned: bool, second: Rental?, active: seq<Rental>)
    requires ledger.Valid() && car.available
    modifies ledger, car, ledger.issued, ledger.fleet
    ensures returned && first != null && second != null
    ensures first.rentalId != second.rentalId
    ensures !first.active && second.active && !car.available
    ensures second in active && first !in active
  {
    first := ledger.RentCar(customer, car, 3, today);
    ghost var k := |ledger.rentals| - 1;
    returned := ledger.ReturnCar(first.rentalId);
    second := ledger.RentCar(customer, car, 5, today);
    ledger.RentalIdsIncrease();
    assert ledger.rentals[k] == first && ledger.rentals[k + 1] == second;
    active := ledger.GetActiveRentals();
    ActiveOfMembers(ledger.rentals, first);
    ActiveOfMembers(ledger.rentals, second);
  }
}
