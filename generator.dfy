/**
 * The record generator of main.js: `getRandomFromArray`, `generateSingleEmployee`
 * and `generateEmployeeData`.
 *
 * `Math.random()` is modelled as a stream `rnd`: the k-th call made by the program
 * returns `rnd(k)`, a `Fraction`: a real in [0, 1). Every record makes five calls, in this order:
 * gender, name, surname, workload, age.
 */
module Generator {

  import opened Wrappers
  import opened JsValues
  import opened Employees

  /** Calls of `Math.random()` made per generated record. */
  const DRAWS_PER_EMPLOYEE: nat := 5

  /** A value `Math.random()` may return: a real in [0, 1). */
  type Fraction = r: real | 0.0 <= r < 1.0

  /** A width scaled by a value of `Math.random()`: within the width when it is not negative. */
  function Scale(r: Fraction, d: real): (x: real)
    ensures 0.0 <= d ==> 0.0 <= x <= d
    ensures 0.0 < d ==> x < d
  {
    assert d - r * d == (1.0 - r) * d;
    assert 0.0 < d ==> 0.0 < (1.0 - r) * d;
    assert d == 0.0 ==> r * d == 0.0;
    r * d
  }

  /** The index `Math.floor(r * n)`, which lies in [0, n) for every r in [0, 1). */
  function RandomIndex(r: Fraction, n: nat): (i: nat)
    requires 0 < n
    ensures i < n
  {
    var x := Scale(r, n as real);
    assert x.Floor as real <= x < x.Floor as real + 1.0;
    x.Floor
  }

  /** `getRandomFromArray(arr)` with `r` standing for the value of `Math.random()`. */
  function GetRandomFromArray<T>(arr: seq<T>, r: Fraction): (x: T)
    requires 0 < |arr|
    ensures x in arr
  {
    arr[RandomIndex(r, |arr|)]
  }

  /** The value `i / n` of `Math.random()` picks index `i`. */
  lemma IndexOfFraction(i: nat, n: nat) returns (r: Fraction)
    requires i < n
    ensures RandomIndex(r, n) == i
  {
    FractionBelowOne(i as real, n as real);
    r := i as real / n as real;
    assert r * n as real == i as real;
  }

  /** Every element of the array is picked by some value of `Math.random()`. */
  lemma EveryElementReachable<T>(arr: seq<T>, x: T) returns (r: Fraction)
    requires x in arr
    ensures GetRandomFromArray(arr, r) == x
  {
    var i :| 0 <= i < |arr| && arr[i] == x;
    r := IndexOfFraction(i, |arr|);
  }

  /** A part of a positive width, divided by the width, is a fraction in [0, 1). */
  lemma FractionBelowOne(x: real, w: real)
    requires 0.0 <= x < w
    ensures 0.0 <= x / w < 1.0
  {
    assert (x / w) * w == x;
  }

  /** `Math.random() * (maxAge - minAge) + minAge`: the drawn age in years. */
  function DrawAge(minAge: real, maxAge: real, r: Fraction): (age: real)
    ensures minAge <= maxAge ==> minAge <= age <= maxAge
    ensures minAge < maxAge ==> age < maxAge
  {
    Scale(r, maxAge - minAge) + minAge
  }

  /**
   * `generateSingleEmployee(minAge, maxAge, today)` whose calls of `Math.random()`
   * return `rnd(first)` to `rnd(first + 4)`. The record is well formed and, for a
   * range with `minAge <= maxAge`, its age measured at the same `today` is the drawn
   * age, so it lies in the range.
   */
  function GenerateSingleEmployee(minAge: real, maxAge: real, today: real, rnd: nat -> Fraction, first: nat)
    : (e: Employee)
    ensures WellFormed(e)
    ensures minAge <= maxAge ==> minAge <= AgeFromBirthdate(e.birthdate, today) <= maxAge
    ensures minAge < maxAge ==> AgeFromBirthdate(e.birthdate, today) < maxAge
  {
    var gender := GetRandomFromArray(GENDERS, rnd(first));
    var name := GetRandomFromArray(NamesFor(gender), rnd(first + 1));
    var surname := GetRandomFromArray(SurnamesFor(gender), rnd(first + 2));
    var workload := GetRandomFromArray(WORKLOADS, rnd(first + 3));
    var ageVal := DrawAge(minAge, maxAge, rnd(first + 4));
    Employee(gender, BirthTimestamp(ageVal, today), name, surname, workload)
  }

  /** Every age the generator may draw is drawn for some value of `Math.random()`. */
  lemma EveryAgeReachable(minAge: real, maxAge: real, age: real) returns (r: Fraction)
    requires minAge <= age <= maxAge
    requires minAge < maxAge ==> age < maxAge
    ensures DrawAge(minAge, maxAge, r) == age
  {
    if minAge < maxAge {
      FractionBelowOne(age - minAge, maxAge - minAge);
      r := (age - minAge) / (maxAge - minAge);
      assert r * (maxAge - minAge) == age - minAge;
    } else {
      r := 0.0;
    }
  }

  /**
   * Conversely, every well-formed record whose age lies in the range the generator
   * draws from is produced by some sequence of `Math.random()` values.
   */
  lemma EveryWellFormedRecordCanBeGenerated(e: Employee, minAge: real, maxAge: real, today: real, first: nat)
    requires WellFormed(e) && minAge <= maxAge
    requires minAge <= AgeFromBirthdate(e.birthdate, today) <= maxAge
    requires minAge < maxAge ==> AgeFromBirthdate(e.birthdate, today) < maxAge
    ensures exists rnd: nat -> Fraction :: GenerateSingleEmployee(minAge, maxAge, today, rnd, first) == e
  {
    var rg := EveryElementReachable(GENDERS, e.gender);
    var rn := EveryElementReachable(NamesFor(e.gender), e.name);
    var rs := EveryElementReachable(SurnamesFor(e.gender), e.surname);
    var rw := EveryElementReachable(WORKLOADS, e.workload);
    var age := AgeFromBirthdate(e.birthdate, today);
    var ra := EveryAgeReachable(minAge, maxAge, age);
    var rnd: nat -> Fraction := k =>
      if k == first then rg
      else if k == first + 1 then rn
      else if k == first + 2 then rs
      else if k == first + 3 then rw
      else if k == first + 4 then ra
      else 0.0;
    assert rnd(first) == rg && rnd(first + 1) == rn && rnd(first + 2) == rs;
    assert rnd(first + 3) == rw && rnd(first + 4) == ra;
    SingleEmployeeFromDraws(minAge, maxAge, today, rnd, first);
    assert e == Employee(e.gender, BirthTimestamp(age, today), e.name, e.surname, e.workload);
  }

  /** The record `generateSingleEmployee` builds, field by field, from its five draws. */
  lemma SingleEmployeeFromDraws(minAge: real, maxAge: real, today: real, rnd: nat -> Fraction, first: nat)
    ensures var gender := GetRandomFromArray(GENDERS, rnd(first));
            GenerateSingleEmployee(minAge, maxAge, today, rnd, first)
              == Employee(gender,
                          BirthTimestamp(DrawAge(minAge, maxAge, rnd(first + 4)), today),
                          GetRandomFromArray(NamesFor(gender), rnd(first + 1)),
                          GetRandomFromArray(SurnamesFor(gender), rnd(first + 2)),
                          GetRandomFromArray(WORKLOADS, rnd(first + 3)))
  {
  }

  /** The values `make(0)`, ..., `make(n - 1)`, in order. */
  function Tabulate<T>(make: nat -> T, n: nat): (s: seq<T>)
    ensures |s| == n
  {
    if n == 0 then [] else Tabulate(make, n - 1) + [make(n - 1)]
  }

  /** Element `i` of the tabulation is `make(i)`. */
  lemma {:induction false} TabulateAt<T>(make: nat -> T, n: nat, i: nat)
    requires i < n
    ensures Tabulate(make, n)[i] == make(i)
  {
    if i < n - 1 {
      TabulateAt(make, n - 1, i);
    }
  }

  /** Record `i` of a run reads the values `rnd(5 * i)` to `rnd(5 * i + 4)` of the stream. */
  function RecordMaker(minAge: real, maxAge: real, today: real, rnd: nat -> Fraction): nat -> Employee {
    (i: nat) => GenerateSingleEmployee(minAge, maxAge, today, rnd, DRAWS_PER_EMPLOYEE * i)
  }

  /**
   * The loop of `generateEmployeeData`: push `count` records, record `i` reading the
   * values `rnd(5 * i)` to `rnd(5 * i + 4)` of the stream. Every record is well
   * formed and its age lies in the requested range.
   */
  method GenerateRecords(req: Request, today: real, rnd: nat -> Fraction) returns (employees: seq<Employee>)
    ensures |employees| == req.count
    ensures forall i :: 0 <= i < |employees| ==>
              employees[i] == GenerateSingleEmployee(req.minAge, req.maxAge, today, rnd, DRAWS_PER_EMPLOYEE * i)
    ensures req.minAge <= req.maxAge ==>
              forall e <- employees :: WellFormed(e) && req.minAge <= AgeFromBirthdate(e.birthdate, today) <= req.maxAge
  {
    ghost var make := RecordMaker(req.minAge, req.maxAge, today, rnd);
    employees := [];
    for i := 0 to req.count
      invariant employees == Tabulate(make, i)
    {
      var employee := GenerateSingleEmployee(req.minAge, req.maxAge, today, rnd, DRAWS_PER_EMPLOYEE * i);
      employees := employees + [employee];
    }
    forall i | 0 <= i < |employees|
      ensures employees[i] == GenerateSingleEmployee(req.minAge, req.maxAge, today, rnd, DRAWS_PER_EMPLOYEE * i)
    {
      TabulateAt(make, req.count, i);
    }
  }

  /**
   * `generateEmployeeData(dtoIn)`: validate, then generate the records. A refused
   * request yields the validator's error and no records.
   */
  method GenerateEmployeeData(dtoIn: JsValue, today: real, rnd: nat -> Fraction)
    returns (r: Result<seq<Employee>, ParseError>)
    ensures ParseDtoIn(dtoIn).Err? ==> r == Err(ParseDtoIn(dtoIn).error)
    ensures ParseDtoIn(dtoIn).Ok? ==> r.Ok? && |r.value| == ParseDtoIn(dtoIn).value.count
    ensures r.Ok? ==>
              var req := ParseDtoIn(dtoIn).value;
              && ParseDtoIn(dtoIn).Ok?
              && (forall i :: 0 <= i < |r.value| ==>
                    r.value[i] == GenerateSingleEmployee(req.minAge, req.maxAge, today, rnd, DRAWS_PER_EMPLOYEE * i))
              && (forall e <- r.value ::
                    WellFormed(e) && req.minAge <= AgeFromBirthdate(e.birthdate, today) <= req.maxAge)
  {
    var parsed := ParseDtoIn(dtoIn);
    if parsed.Err? {
      return Err(parsed.error);
    }
    var employees := GenerateRecords(parsed.value, today, rnd);
    return Ok(employees);
  }
}
