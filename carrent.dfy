// The rental ledger of the car-rental application: cars, customers, rentals
// and the rent/return state machine that keeps car availability in step with
// the active rentals.
//
// Money is an exact integer number of cents, dates are integer day numbers,
// and the current date is passed in as `today`.

module CarRent {
  import opened Decimal
  import opened Sequences

  /** A fleet car. Only its availability flag ever changes. */
  class Car {
    const licensePlate: string
    const make: string
    const model: string
    const carType: string
    const dailyRate: int  // cents per day
    var available: bool

    constructor (licensePlate: string, make: string, model: string, carType: string, dailyRate: int)
      ensures this.licensePlate == licensePlate && this.make == make && this.model == model
      ensures this.carType == carType && this.dailyRate == dailyRate
      ensures available
    {
      this.licensePlate := licensePlate;
      this.make := make;
      this.model := model;
      this.carType := carType;
      this.dailyRate := dailyRate;
      available := true;
    }

    method SetAvailable(available: bool)
      modifies this
      ensures this.available == available
    {
      this.available := available;
    }
  }

  /** A customer record; it is never changed after creation. */
  datatype Customer = Customer(id: string, name: string, licenseNumber: string, phone: string)

  /** A rental. It refers to its car (shared with the ledger's fleet list);
      only its active flag changes, and completing it makes the car available. */
  class Rental {
    const rentalId: string
    const car: Car
    const customer: Customer
    const startDate: int
    const endDate: int
    const totalCost: int  // cents
    var active: bool

    constructor (rentalId: string, car: Car, customer: Customer, rentalDays: int, today: int)
      ensures this.rentalId == rentalId && this.car == car && this.customer == customer
      ensures startDate == today && endDate == today + rentalDays
      ensures totalCost == car.dailyRate * rentalDays
      ensures active
    {
      this.rentalId := rentalId;
      this.car := car;
      this.customer := customer;
      startDate := today;
      endDate := today + rentalDays;
      totalCost := car.dailyRate * rentalDays;
      active := true;
    }

    method CompleteRental()
      modifies this, car
      ensures !active && car.available
    {
      active := false;
      car.SetAvailable(true);
    }
  }

  /** The id given to the n-th rental of a ledger. */
  function RentalIdOf(n: nat): (id: string)
  {
    "R" + NatToString(n)
  }

  /** The number a rental id carries, or -1 when it is not of the form "R" followed by digits. */
  function RentalNumber(id: string): (n: int)
  {
    if |id| >= 2 && id[0] == 'R' && forall i :: 1 <= i < |id| ==> IsDigit(id[i])
    then ParseDigits(id[1..])
    else -1
  }

  lemma RentalNumberOfId(n: nat)
    ensures RentalNumber(RentalIdOf(n)) == n
  {
    assert RentalIdOf(n)[1..] == NatToString(n);
    ParseNatToString(n);
  }

  lemma RentalIdInjective(m: nat, n: nat)
    requires RentalIdOf(m) == RentalIdOf(n)
    ensures m == n
  {
    RentalNumberOfId(m);
    RentalNumberOfId(n);
  }

  // ---------------------------------------------------------------------
  // Specification functions for the two listing queries. The car filter and
  // the rental filter mirror each other: each keeps the elements whose flag is
  // set, and each has a Count, a Members and an InOrder lemma.

  /** The available cars of `cs`, in the order of `cs`. */
  ghost function AvailableOf(cs: seq<Car>): (available: seq<Car>)
    reads set c | c in cs
    decreases |cs|
  {
    if cs == [] then []
    else
      var last := cs[|cs| - 1];
      AvailableOf(cs[..|cs| - 1]) + (if last.available then [last] else [])
  }

  /** The active rentals of `rs`, in the order of `rs`. */
  ghost function ActiveOf(rs: seq<Rental>): (active: seq<Rental>)
    reads set r | r in rs
    decreases |rs|
  {
    if rs == [] then []
    else
      var last := rs[|rs| - 1];
      ActiveOf(rs[..|rs| - 1]) + (if last.active then [last] else [])
  }

  lemma {:induction false} AvailableOfCount(cs: seq<Car>, c: Car)
    ensures multiset(AvailableOf(cs))[c] == if c.available then multiset(cs)[c] else 0
    decreases |cs|
  {
    if cs != [] {
      var init, last := cs[..|cs| - 1], cs[|cs| - 1];
      assert cs == init + [last];
      AvailableOfCount(init, c);
    }
  }

  lemma AvailableOfMembers(cs: seq<Car>, c: Car)
    ensures c in AvailableOf(cs) <==> c in cs && c.available
  {
    // Membership is a positive count in the multiset of the sequence.
    AvailableOfCount(cs, c);
  }

  lemma {:induction false} AvailableOfInOrder(cs: seq<Car>)
    ensures IsSubsequence(AvailableOf(cs), cs)
    decreases |cs|
  {
    if cs != [] {
      var init, last := cs[..|cs| - 1], cs[|cs| - 1];
      AvailableOfInOrder(init);
      if last.available {
        assert AvailableOf(cs) == AvailableOf(init) + [last];
        assert AvailableOf(cs)[..|AvailableOf(cs)| - 1] == AvailableOf(init);
      } else {
        assert AvailableOf(cs) == AvailableOf(init);
      }
    }
  }

  lemma {:induction false} ActiveOfCount(rs: seq<Rental>, r: Rental)
    ensures multiset(ActiveOf(rs))[r] == if r.active then multiset(rs)[r] else 0
    decreases |rs|
  {
    if rs != [] {
      var init, last := rs[..|rs| - 1], rs[|rs| - 1];
      assert rs == init + [last];
      ActiveOfCount(init, r);
    }
  }

  lemma ActiveOfMembers(rs: seq<Rental>, r: Rental)
    ensures r in ActiveOf(rs) <==> r in rs && r.active
  {
    // Membership is a positive count in the multiset of the sequence.
    ActiveOfCount(rs, r);
  }

  lemma {:induction false} ActiveOfInOrder(rs: seq<Rental>)
    ensures IsSubsequence(ActiveOf(rs), rs)
    decreases |rs|
  {
    if rs != [] {
      var init, last := rs[..|rs| - 1], rs[|rs| - 1];
      ActiveOfInOrder(init);
      if last.active {
        assert ActiveOf(rs) == ActiveOf(init) + [last];
        assert ActiveOf(rs)[..|ActiveOf(rs)| - 1] == ActiveOf(init);
      } else {
        assert ActiveOf(rs) == ActiveOf(init);
      }
    }
  }

  /** Index of the first rental in `rs` with id `rentalId` that is still active, or -1. */
  function FirstActive(rs: seq<Rental>, rentalId: string): (k: int)
    reads set r | r in rs
    ensures -1 <= k < |rs|
    ensures 0 <= k ==> rs[k].rentalId == rentalId && rs[k].active
    ensures forall j :: 0 <= j < |rs| && (k < 0 || j < k) ==> !(rs[j].rentalId == rentalId && rs[j].active)
    decreases |rs|
  {
    if rs == [] then -1
    else if rs[0].rentalId == rentalId && rs[0].active then 0
    else
      var k := FirstActive(rs[1..], rentalId);
      if k < 0 then -1 else k + 1
  }

  /** The i-th rental of `rs` (counting from 1) has id RentalIdOf(i). */
  predicate IdsInOrder(rs: seq<Rental>)
    decreases |rs|
  {
    rs == [] || (IdsInOrder(rs[..|rs| - 1]) && rs[|rs| - 1].rentalId == RentalIdOf(|rs|))
  }

  lemma {:induction false} IdAt(rs: seq<Rental>, i: int)
    requires IdsInOrder(rs) && 0 <= i < |rs|
    ensures rs[i].rentalId == RentalIdOf(i + 1)
    decreases |rs|
  {
    if i < |rs| - 1 {
      IdAt(rs[..|rs| - 1], i);
    }
  }

  // ---------------------------------------------------------------------
  // The ledger

  class CarRentalSystem {
    var cars: seq<Car>
    var customers: seq<Customer>
    var rentals: seq<Rental>
    var rentalCounter: int
    ghost var fleet: set<Car>         // every car the ledger has been given or has rented out
    ghost var issued: set<Rental>     // every rental the ledger has made
    ghost var holder: map<Car, nat>   // for a car out on rent, the index of the rental holding it

    ghost function RentalSet(): (rs: set<Rental>)
      reads this
    {
      set r | r in rentals
    }

    /** Some active rental holds car `c`. */
    ghost predicate Rented(c: Car)
      reads this, RentalSet()
    {
      exists i :: 0 <= i < |rentals| && rentals[i].active && rentals[i].car == c
    }

    /** The ledger invariant: the footprint covers the fleet list and the rentals,
        the counter and the ids follow the list, the car of an active rental is
        unavailable and `holder` maps it back to that rental (so a car has at
        most one active rental), and an unavailable car is held by the active
        rental `holder` names. */
    ghost predicate Valid()
      reads this, fleet, issued
    {
      && (forall i :: 0 <= i < |cars| ==> cars[i] in fleet)
      && (forall i :: 0 <= i < |rentals| ==> rentals[i] in issued && rentals[i].car in fleet)
      && rentalCounter == |rentals| + 1
      && IdsInOrder(rentals)
      && (forall i :: 0 <= i < |rentals| && rentals[i].active ==>
            !rentals[i].car.available && rentals[i].car in holder && holder[rentals[i].car] == i)
      && (forall c :: c in fleet && !c.available ==>
            c in holder && holder[c] < |rentals| && rentals[holder[c]].active && rentals[holder[c]].car == c)
    }

    constructor ()
      ensures Valid()
      ensures cars == [] && customers == [] && rentals == [] && rentalCounter == 1
      ensures fleet == {} && issued == {}
    {
      cars, customers, rentals := [], [], [];
      rentalCounter := 1;
      fleet, issued := {}, {};
      holder := map[];
    }

    /** A car the ledger knows of is unavailable exactly when some active rental holds it. */
    lemma UnavailableIffRented(c: Car)
      requires Valid() && c in fleet
      ensures !c.available <==> Rented(c)
    {
      if !c.available {
        assert rentals[holder[c]].active && rentals[holder[c]].car == c;
      }
    }

    /** Distinct ids make distinct rental objects. */
    lemma RentalsDistinct()
      requires Valid()
      ensures forall i, j :: 0 <= i < j < |rentals| ==> rentals[i] != rentals[j]
    {
      forall i, j | 0 <= i < j < |rentals|
        ensures rentals[i] != rentals[j]
      {
        if rentals[i] == rentals[j] {
          IdAt(rentals, i);
          IdAt(rentals, j);
          RentalIdInjective(i + 1, j + 1);
        }
      }
    }

    /** Rental ids are pairwise distinct and their numbers strictly increase along the list. */
    lemma RentalIdsIncrease()
      requires Valid()
      ensures forall i, j :: 0 <= i < j < |rentals| ==>
                rentals[i].rentalId != rentals[j].rentalId &&
                RentalNumber(rentals[i].rentalId) < RentalNumber(rentals[j].rentalId)
    {
      forall i, j | 0 <= i < j < |rentals|
        ensures rentals[i].rentalId != rentals[j].rentalId
        ensures RentalNumber(rentals[i].rentalId) < RentalNumber(rentals[j].rentalId)
      {
        IdAt(rentals, i);
        IdAt(rentals, j);
        RentalNumberOfId(i + 1);
        RentalNumberOfId(j + 1);
      }
    }

    method AddCar(car: Car)
      requires Valid()
      modifies this
      ensures cars == old(cars) + [car]
      ensures customers == old(customers) && rentals == old(rentals) && rentalCounter == old(rentalCounter)
      ensures fleet == old(fleet) + {car} && issued == old(issued)
      ensures Valid() <==> car.available || Rented(car)
    {
      cars := cars + [car];
      fleet := fleet + {car};
      if Valid() && !car.available {
        UnavailableIffRented(car);
      }
    }

    method GetAvailableCars() returns (available: seq<Car>)
      ensures available == AvailableOf(cars)
    {
      available := [];
      for i := 0 to |cars|
        invariant available == AvailableOf(cars[..i])
      {
        assert cars[..i + 1][..i] == cars[..i];
        if cars[i].available {
          available := available + [cars[i]];
        }
      }
      assert cars[..|cars|] == cars;
    }

    method AddCustomer(customer: Customer)
      requires Valid()
      modifies this
      ensures customers == old(customers) + [customer]
      ensures cars == old(cars) && rentals == old(rentals) && rentalCounter == old(rentalCounter)
      ensures fleet == old(fleet) && issued == old(issued)
      ensures Valid()
    {
      customers := customers + [customer];
    }

    method GetCustomers() returns (roster: seq<Customer>)
      ensures roster == customers
    {
      roster := customers;
    }

    method RentCar(customer: Customer, car: Car, days: int, today: int) returns (rental: Rental?)
      requires Valid()
      modifies this, car
      ensures Valid()
      ensures cars == old(cars) && customers == old(customers)
      ensures !old(car.available) ==>
                && rental == null
                && rentals == old(rentals) && rentalCounter == old(rentalCounter)
                && fleet == old(fleet) && issued == old(issued)
                && !car.available
      ensures old(car.available) ==>
                && rental != null && fresh(rental)
                && rental.rentalId == RentalIdOf(old(rentalCounter))
                && rentalCounter == old(rentalCounter) + 1
                && rentals == old(rentals) + [rental]
                && fleet == old(fleet) + {car} && issued == old(issued) + {rental}
                && rental.active
                && rental.car == car && rental.customer == customer
                && rental.totalCost == car.dailyRate * days
                && rental.startDate == today && rental.endDate == today + days
                && !car.available
    {
      if !car.available {
        return null;
      }
      rental := Issue(customer, car, days, today);
    }

    /** The available branch of RentCar: record a new active rental of `car` under the next id. */
    method Issue(customer: Customer, car: Car, days: int, today: int) returns (rental: Rental)
      requires Valid() && car.available
      modifies this, car
      ensures Valid()
      ensures fresh(rental)
      ensures cars == old(cars) && customers == old(customers)
      ensures rental.rentalId == RentalIdOf(old(rentalCounter))
      ensures rentalCounter == old(rentalCounter) + 1
      ensures rentals == old(rentals) + [rental]
      ensures fleet == old(fleet) + {car} && issued == old(issued) + {rental}
      ensures rental.active && rental.car == car && rental.customer == customer
      ensures rental.totalCost == car.dailyRate * days
      ensures rental.startDate == today && rental.endDate == today + days
      ensures !car.available
    {
      ghost var before := rentals;
      var rentalId := RentalIdOf(rentalCounter);
      rentalCounter := rentalCounter + 1;
      rental := new Rental(rentalId, car, customer, days, today);
      car.SetAvailable(false);
      rentals := rentals + [rental];
      fleet := fleet + {car};
      issued := issued + {rental};
      holder := holder[car := |rentals| - 1];
      assert forall i :: 0 <= i < |before| ==> rentals[i] == before[i];
      assert IdsInOrder(rentals) by {
        assert rentals[..|rentals| - 1] == before;
      }
    }

    method ReturnCar(rentalId: string) returns (returned: bool)
      requires Valid()
      modifies issued, fleet
      ensures unchanged(this)
      ensures Valid()
      ensures returned == (old(FirstActive(rentals, rentalId)) >= 0)
      ensures returned ==>
                !rentals[old(FirstActive(rentals, rentalId))].active &&
                rentals[old(FirstActive(rentals, rentalId))].car.available
      ensures forall i :: 0 <= i < |rentals| && i != old(FirstActive(rentals, rentalId)) ==>
                rentals[i].active == old(rentals[i].active)
      ensures forall r :: r in issued ==>
                r.active == old(r.active) ||
                (returned && r == rentals[old(FirstActive(rentals, rentalId))])
      ensures forall c :: c in fleet ==>
                c.available == old(c.available) ||
                (returned && c == rentals[old(FirstActive(rentals, rentalId))].car)
      ensures FirstActive(rentals, rentalId) < 0
    {
      var i := 0;
      while i < |rentals| && !(rentals[i].rentalId == rentalId && rentals[i].active)
        invariant 0 <= i <= |rentals|
        invariant forall j :: 0 <= j < i ==> !(rentals[j].rentalId == rentalId && rentals[j].active)
      {
        i := i + 1;
      }
      if i == |rentals| {
        return false;
      }
      assert i == FirstActive(rentals, rentalId);
      RentalsDistinct();
      OnlyRentalWithId(i);
      rentals[i].CompleteRental();
      return true;
    }

    /** No other rental carries the id of the k-th. */
    lemma OnlyRentalWithId(k: int)
      requires Valid() && 0 <= k < |rentals|
      ensures forall j :: 0 <= j < |rentals| && rentals[j].rentalId == rentals[k].rentalId ==> j == k
    {
      forall j | 0 <= j < |rentals| && rentals[j].rentalId == rentals[k].rentalId
        ensures j == k
      {
        IdAt(rentals, j);
        IdAt(rentals, k);
        RentalIdInjective(j + 1, k + 1);
      }
    }

    method GetActiveRentals() returns (active: seq<Rental>)
      ensures active == ActiveOf(rentals)
    {
      active := [];
      for i := 0 to |rentals|
        invariant active == ActiveOf(rentals[..i])
      {
        assert rentals[..i + 1][..i] == rentals[..i];
        if rentals[i].active {
          active := active + [rentals[i]];
        }
      }
      assert rentals[..|rentals|] == rentals;
    }

    /** A fleet car is listed as available exactly when no active rental holds it. */
    lemma AvailableIffNotRented(c: Car)
      requires Valid()
      requires c in cars
      ensures c in AvailableOf(cars) <==> !Rented(c)
    {
      AvailableOfMembers(cars, c);
      UnavailableIffRented(c);
    }

    /** Every active rental holds its own car, which no other active rental holds and which is not listed as available. */
    lemma ActiveRentalsHoldTheirCars()
      requires Valid()
      ensures forall r :: r in ActiveOf(rentals) ==> !r.car.available && r.car !in AvailableOf(cars)
      ensures forall r1, r2 :: r1 in ActiveOf(rentals) && r2 in ActiveOf(rentals) && r1 != r2 ==> r1.car != r2.car
    {
      forall r | r in ActiveOf(rentals)
        ensures !r.car.available && r.car !in AvailableOf(cars)
      {
        ActiveOfMembers(rentals, r);
        AvailableOfMembers(cars, r.car);
      }
      forall r1, r2 | r1 in ActiveOf(rentals) && r2 in ActiveOf(rentals) && r1 != r2
        ensures r1.car != r2.car
      {
        ActiveOfMembers(rentals, r1);
        ActiveOfMembers(rentals, r2);
        var i :| 0 <= i < |rentals| && rentals[i] == r1;
        var j :| 0 <= j < |rentals| && rentals[j] == r2;
      }
    }
  }
}
