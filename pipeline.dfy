/**
 * `main(dtoIn)`: generate the records the request asks for, then compute their
 * statistics. The two steps read the clock separately, so the model takes the
 * time of each reading; a request the validator refuses ends with its error.
 */
module Pipeline {

  import opened Wrappers
  import opened JsValues
  import opened Employees
  import opened Generator
  import opened Numeric
  import opened Statistics

  /** Measured later by `elapsed` milliseconds, an age grows by `elapsed / MS_IN_YEAR` years. */
  lemma AgeAdvancesWithClock(birthdate: real, generationTime: real, statisticsTime: real)
    ensures AgeFromBirthdate(birthdate, statisticsTime)
            == AgeFromBirthdate(birthdate, generationTime) + (statisticsTime - generationTime) / MS_IN_YEAR
  {
  }

  /** `Math.floor` is monotone. */
  lemma FloorMonotone(x: real, y: real)
    requires x <= y
    ensures Floor(x) <= Floor(y)
  {
  }

  /**
   * Records whose ages lie in [lo, hi] at `generationTime` have, at `statisticsTime`,
   * ages in the same range shifted by the years elapsed in between; so do the
   * youngest and the oldest of them.
   */
  lemma AgesShiftedByClock(employees: seq<Employee>, lo: real, hi: real, generationTime: real, statisticsTime: real)
    requires forall e <- employees :: lo <= AgeFromBirthdate(e.birthdate, generationTime) <= hi
    ensures var shift := (statisticsTime - generationTime) / MS_IN_YEAR;
            var ages := Ages(employees, statisticsTime);
            && (forall i :: 0 <= i < |ages| ==> lo + shift <= ages[i] <= hi + shift)
            && (ages != [] ==> lo + shift <= MinOf(ages) && MaxOf(ages) <= hi + shift)
  {
    var shift := (statisticsTime - generationTime) / MS_IN_YEAR;
    var ages := Ages(employees, statisticsTime);
    forall i | 0 <= i < |ages| ensures lo + shift <= ages[i] <= hi + shift {
      AgeAdvancesWithClock(employees[i].birthdate, generationTime, statisticsTime);
      assert employees[i] in employees;
    }
    if ages != [] {
      ExtremesWithinBounds(ages, lo + shift, hi + shift);
    }
  }

  /**
   * What the statistics make of records the generator produced for the range
   * [lo, hi] at `generationTime`, measured at `statisticsTime`: every record has one
   * of the four counted workloads, the median workload is between 10 and 40 and is
   * left unchanged by `Math.round`, and the floored extreme ages lie within the
   * shifted range.
   */
  lemma GeneratedRecordStatistics(employees: seq<Employee>, lo: real, hi: real, generationTime: real, statisticsTime: real)
    requires forall e <- employees :: e.workload in WORKLOADS
    requires forall e <- employees :: lo <= AgeFromBirthdate(e.birthdate, generationTime) <= hi
    ensures CounterTotal(employees) == |employees|
    ensures employees != [] ==>
              var m := Median(AsReals(Workloads(employees)));
              10 <= Round(m) <= 40
    ensures employees != [] ==>
              var shift := (statisticsTime - generationTime) / MS_IN_YEAR;
              var ages := Ages(employees, statisticsTime);
              Floor(lo + shift) <= Floor(MinOf(ages)) && Floor(MaxOf(ages)) <= Floor(hi + shift)
  {
    GeneratedWorkloads(employees);
    if employees != [] {
      var shift := (statisticsTime - generationTime) / MS_IN_YEAR;
      var ages := Ages(employees, statisticsTime);
      AgesShiftedByClock(employees, lo, hi, generationTime, statisticsTime);
      FloorMonotone(lo + shift, MinOf(ages));
      FloorMonotone(MaxOf(ages), hi + shift);
    }
  }

  /** Records with known workloads are all counted, and their median workload lies in [10, 40]. */
  lemma GeneratedWorkloads(employees: seq<Employee>)
    requires forall e <- employees :: e.workload in WORKLOADS
    ensures CounterTotal(employees) == |employees|
    ensures employees != [] ==> 10 <= Round(Median(AsReals(Workloads(employees)))) <= 40
  {
    forall i | 0 <= i < |employees| ensures employees[i].workload in WORKLOADS {
      assert employees[i] in employees;
    }
    CountersAccountForRecords(employees);
    if employees != [] {
      MedianWorkloadIsExact(employees);
      var m := Median(AsReals(Workloads(employees)));
      RoundWithinBounds(m);
    }
  }

  /** `Math.round` of a value of [10, 40] that it leaves unchanged lies in [10, 40]. */
  lemma RoundWithinBounds(m: real)
    requires Round(m) as real == m && 10.0 <= m <= 40.0
    ensures 10 <= Round(m) <= 40
  {
  }

  /** Bounds on every element of a non-empty list bound its minimum and maximum. */
  lemma ExtremesWithinBounds(xs: seq<real>, lo: real, hi: real)
    requires |xs| > 0 && forall i :: 0 <= i < |xs| ==> lo <= xs[i] <= hi
    ensures lo <= MinOf(xs) && MaxOf(xs) <= hi
  {
    var i :| 0 <= i < |xs| && xs[i] == MinOf(xs);
    var j :| 0 <= j < |xs| && xs[j] == MaxOf(xs);
  }

  /**
   * Runs the generator with the clock reading `generationTime`, then the statistics
   * with the clock reading `statisticsTime`. A refused request gives the validator's
   * error. Otherwise there are exactly `count` records, every one is counted in one
   * of the four workload counters, the median workload lies between 10 and 40, and
   * the floored age statistics lie within the requested range shifted by the years
   * elapsed between the two clock readings.
   */
  method Run(dtoIn: JsValue, generationTime: real, statisticsTime: real, rnd: nat -> Fraction)
    returns (r: Result<EmployeeStatistics, ParseError>)
    ensures ParseDtoIn(dtoIn).Err? ==> r == Err(ParseDtoIn(dtoIn).error)
    ensures ParseDtoIn(dtoIn).Ok? ==>
              var req := ParseDtoIn(dtoIn).value;
              var shift := (statisticsTime - generationTime) / MS_IN_YEAR;
              && r.Ok?
              && r.value.total == req.count
              && r.value.workload10 + r.value.workload20 + r.value.workload30 + r.value.workload40 == req.count
              && 10 <= r.value.medianWorkload <= 40
              && Floor(req.minAge + shift) <= r.value.minAge
              && r.value.minAge <= r.value.medianAge <= r.value.maxAge
              && r.value.maxAge <= Floor(req.maxAge + shift)
  {
    var generated := GenerateEmployeeData(dtoIn, generationTime, rnd);
    if generated.Err? {
      return Err(generated.error);
    }
    var employees := generated.value;
    var req := ParseDtoIn(dtoIn).value;
    GeneratedRecordStatistics(employees, req.minAge, req.maxAge, generationTime, statisticsTime);
    var dtoOut := GetEmployeeStatistics(employees, statisticsTime);
    return Ok(dtoOut);
  }
}
