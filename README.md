# Car rental ledger

A Dafny model of the rental ledger at the heart of the car-rental desktop
application (`CarRent.java`, the `Car`, `Customer`, `Rental` and
`CarRentalSystem` classes). The ledger keeps three append-only lists: the
fleet, the customers and the rentals. It also keeps a rental counter, and it
runs a small rent/return state machine:

- renting an available car issues rental `"R"` + counter, marks the car
  unavailable and appends the rental;
- returning a rental by id completes the first active rental with that id,
  which makes its car available again through the shared `Car` reference;
- two queries list the available cars and the active rentals in insertion
  order.

How the model is built:

- `Car` and `Rental` are classes. Their availability and active flags change
  in place. A rental and the fleet list share the same `Car` object, as in
  the Java code.
- `Customer` never changes, so it is a datatype.
- The ledger is the class `CarRentalSystem`. Its methods modify its fields,
  and its loops carry invariants.
- Its ghost invariant `Valid()` states four things:
  - the counter is one past the number of rentals;
  - the i-th rental has id `"R"` followed by the decimal numeral of i;
  - the car of every active rental is unavailable and is held by no other
    active rental;
  - every unavailable car the ledger knows of is held by an active rental.
- Renting, returning and adding a customer always keep this invariant.
  Adding a car keeps it when the car is available or already out on rent.
  Every call site of `addCar` passes a freshly built, and so available, car
  (CarRent.java:114-118, 693; CarRentGui.java:323).

Modules:

- `Decimal` (decimal.dfy): Java's rendering of a non-negative `int` in
  string concatenation, and its inverse.
- `Sequences` (sequences.dfy): the order-preserving subsequence relation.
- `CarRent` (carrent.dfy): the entities, the ledger and their properties.
- `RentalScenario` (scenario.dfy): client sequences the rental and return
  forms drive. Two build and use a fresh ledger; the other three hold for
  any valid ledger.

Money is an exact integer number of cents. Dates are integer day numbers,
and the current date is a parameter `today`. The model follows the code:
`rentCar` accepts any `int` day count (CarRent.java:141-149); only the GUI's
spinner limits it to 1..30 (CarRent.java:415).

## Model

| member | source | states |
|---|---|---|
| CarRent.Car.constructor | CarRent.java:21-28 | a new car carries the given plate, make, model, type and daily rate and is available |
| CarRent.Car.SetAvailable | CarRent.java:36 | the availability flag becomes the given value |
| CarRent.Rental.constructor | CarRent.java:77-85 | a new rental is active, starts today, ends `days` later and costs the car's daily rate times `days` |
| CarRent.Rental.CompleteRental | CarRent.java:87-90 | the rental becomes inactive and its car (the shared object) becomes available |
| Decimal.NatToString | CarRent.java:144 | the rendering of a counter value is a non-empty string of digits with no leading zero unless the value is 0 |
| Decimal.ParseNatToString | CarRent.java:144 | reading the digits of the rendering back gives the counter value (round trip) |
| Decimal.NatToStringInjective | CarRent.java:144 | different counter values render to different strings |
| CarRent.RentalNumberOfId | CarRent.java:144 | the number carried by id `"R"+n` is n |
| CarRent.RentalIdInjective | CarRent.java:144 | different counter values give different rental ids |
| CarRent.IdAt | CarRent.java:144-147 | in a rental list built by appending `"R"+counter` rentals, the i-th rental (from 0) has id `"R"+(i+1)` |
| CarRent.AvailableOfCount | CarRent.java:128-136 | the available-car filter keeps each car exactly as often as the list holds it if it is available, and not at all otherwise |
| CarRent.AvailableOfMembers | CarRent.java:128-136 | a car is in the available list iff it is in the fleet list and available |
| CarRent.AvailableOfInOrder | CarRent.java:128-136 | the available list is a subsequence of the fleet list (insertion order kept) |
| CarRent.ActiveOfCount | CarRent.java:161-169 | the active-rental filter keeps each rental exactly as often as the list holds it if it is active, and not at all otherwise |
| CarRent.ActiveOfMembers | CarRent.java:161-169 | a rental is in the active list iff it is in the rental list and active |
| CarRent.ActiveOfInOrder | CarRent.java:161-169 | the active list is a subsequence of the rental list (insertion order kept) |
| CarRent.FirstActive | CarRent.java:151-157 | the index the return scan stops at: a rental with that id that is active, and no earlier one; -1 when none exists |
| CarRent.CarRentalSystem.constructor | CarRent.java:106-110 | a new ledger has no cars, customers or rentals, its counter is 1, its footprint is empty and its invariant holds |
| CarRent.CarRentalSystem.UnavailableIffRented | CarRent.java:141-159 | under the invariant, a car the ledger knows is unavailable exactly when some active rental holds it |
| CarRent.CarRentalSystem.RentalsDistinct | CarRent.java:144-147 | no rental object appears twice in the rental list |
| CarRent.CarRentalSystem.RentalIdsIncrease | CarRent.java:110-147 | rental ids are pairwise distinct and the numbers they carry strictly increase along the list |
| CarRent.CarRentalSystem.AddCar | CarRent.java:126 | the car is appended to the fleet list, customers, rentals and counter are unchanged, and the invariant holds afterwards iff the car is available or already held by an active rental |
| CarRent.CarRentalSystem.GetAvailableCars | CarRent.java:128-136 | the loop returns exactly the available fleet cars in fleet order and changes nothing |
| CarRent.CarRentalSystem.AddCustomer | CarRent.java:138 | the customer is appended; cars, rentals, counter and the ledger's footprint are unchanged; the invariant is kept |
| CarRent.CarRentalSystem.GetCustomers | CarRent.java:139 | returns the ledger's customer list |
| CarRent.CarRentalSystem.RentCar | CarRent.java:141-149 | unavailable car: null, no rental added, counter unchanged; available car: a fresh active rental with id `"R"+old counter`, counter + 1, appended last, cost rate × days, end = start + days, car now unavailable; the invariant is kept either way |
| CarRent.CarRentalSystem.Issue | CarRent.java:144-148 | the available branch of renting: the new rental, the counter step, the append and the car flag, with the invariant kept |
| CarRent.CarRentalSystem.ReturnCar | CarRent.java:151-159 | returns true iff an active rental with the id exists; then the first such rental is inactive and its car available; no other rental's flag (whether in the list or anywhere in the ledger's footprint) and no other car's flag changes; afterwards no active rental has that id; the invariant is kept |
| CarRent.CarRentalSystem.OnlyRentalWithId | CarRent.java:151-156 | under the invariant, the rental the scan finds is the only one with its id |
| CarRent.CarRentalSystem.GetActiveRentals | CarRent.java:161-169 | the loop returns exactly the active rentals in rental order and changes nothing |
| CarRent.CarRentalSystem.AvailableIffNotRented | CarRent.java:128-159 | a fleet car is listed as available iff no active rental holds it |
| CarRent.CarRentalSystem.ActiveRentalsHoldTheirCars | CarRent.java:141-169 | every listed active rental's car is unavailable and not listed as available, and two different active rentals never share a car |
| RentalScenario.FreshLedger | CarRent.java:106-138 | a new ledger given one 45.99/day car and one customer holds exactly them, has no rentals, counter 1, the car available, and its invariant holds |
| RentalScenario.FirstRentalOfFreshLedger | CarRent.java:106-159 | on that fresh ledger, a 3-day rental is "R1", costs 137.97, ends 3 days after today, and no car is then listed as available; returning "R1" succeeds, the rental is inactive and the car is listed again, once |
| RentalScenario.RentTwice | CarRent.java:141-149 | renting the same car twice without a return: the second attempt returns null, and at most one rental is added |
| RentalScenario.ReturnTwice | CarRent.java:151-159 | returning the same id twice: the second return is false |
| RentalScenario.RentReturnRent | CarRent.java:141-169 | rent, return and rent again: two different ids, the first rental inactive and not listed as active, the second active and listed, the car unavailable |

## Left out

- The Swing GUI (login, main menu, rental, return, car and customer management frames, CarRent.java:173-844), `main` (CarRent.java:847-863) and the whole of CarRentGui.java: window layout and event wiring with no ledger logic of their own.
- The hard-coded login check (CarRent.java:247): user interface only.
- Floating point: `dailyRate` and `totalCost` are Java `double`. The model uses exact integer cents, so IEEE rounding of `dailyRate * rentalDays` (CarRent.java:83) and the `%.2f` formatting in `toString` (CarRent.java:40) are not modelled.
- `LocalDate.now()` (CarRent.java:81) reads the system clock. It is replaced by the parameter `today`, with dates as day numbers. `LocalDate`'s range limits, and the exception `plusDays` throws past them, are not modelled.
- `initializeSampleData` (CarRent.java:112-124): fixed seed data. `RentalScenario.FirstRentalOfFreshLedger` uses its first car instead.
- Removing cars and customers happens inside GUI handlers (CarRent.java:709, 837), not in the ledger, and is not modelled.
- CarRent.CarRentalSystem.GetCustomers: returns the customer list as a value. Java returns the live `ArrayList`, which lets callers change the ledger's list (the customer-removal handler relies on this). That aliasing is not modelled.
- CarRent.CarRentalSystem.RentCar: the counter is an unbounded integer. Java's `int` post-increment could wrap only after 2^31-1 rentals, and an `ArrayList` cannot hold that many.
- CarRent.CarRentalSystem.AddCar and the other ledger methods assume the ledger invariant on entry. Java states no precondition. Every ledger starts valid. Renting, returning and adding a customer keep the invariant. Adding a car keeps it only when the car is available or already out on rent. Adding an unavailable car that no rental holds breaks it, and after that the model promises nothing about the ledger. No call site in the program does this.
- Getters and `toString` methods (CarRent.java:30-41, 57-65, 92-103): plain field reads and display formatting.
- A null car or customer passed to `rentCar` is not modelled: the model's parameters are non-null references. In Java a null car throws a `NullPointerException` at `car.isAvailable()`, while a null customer is stored in the rental; the rental form rules out both before calling (CarRent.java:455).
