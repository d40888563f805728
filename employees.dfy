/**
 * The employee record of main.js and the constant data the generator draws from.
 */
module Employees {

  /** Milliseconds in a year of 365 days (main.js:21). */
  const MS_IN_YEAR: real := (365 * 24 * 60 * 60 * 1000) as real

  const MALE_NAMES: seq<string> :=
    ["Jan", "Petr", "Tomáš", "Lukáš", "Jakub", "Adam", "Matěj", "Michal", "Filip", "David"]
  const FEMALE_NAMES: seq<string> :=
    ["Anna", "Eliška", "Adéla", "Tereza", "Karolína", "Lucie", "Kristýna", "Marie", "Veronika", "Kateřina"]
  const MALE_SURNAMES: seq<string> :=
    ["Vomáčka", "Svoboda", "Dvořák", "Černý", "Procházka", "Kučera", "Horák", "Beneš", "Fiala", "Sedláček"]
  const FEMALE_SURNAMES: seq<string> :=
    ["Nováková", "Svobodová", "Dvořáková", "Černá", "Procházková", "Kučerová", "Horáková", "Benešová", "Fialová", "Sedláčková"]

  const WORKLOADS: seq<int> := [10, 20, 30, 40]
  const GENDERS: seq<string> := ["male", "female"]

  /**
   * One employee. `birthdate` is the time value (milliseconds since the epoch) that
   * the record's ISO string denotes; `gender` and `workload` are whatever a caller
   * supplies, since the statistics accept records from any source.
   */
  datatype Employee = Employee(gender: string, birthdate: real, name: string, surname: string, workload: int)

  /** The name tables belonging to a gender: the male ones for "male", the female ones otherwise. */
  function NamesFor(gender: string): seq<string> {
    if gender == "male" then MALE_NAMES else FEMALE_NAMES
  }

  function SurnamesFor(gender: string): seq<string> {
    if gender == "male" then MALE_SURNAMES else FEMALE_SURNAMES
  }

  /**
   * The shape of every generated record: a gender from GENDERS, a name and a surname
   * from that gender's tables, and a workload from WORKLOADS.
   */
  predicate WellFormed(e: Employee) {
    && e.gender in GENDERS
    && e.name in NamesFor(e.gender)
    && e.surname in SurnamesFor(e.gender)
    && e.workload in WORKLOADS
  }

  /** `getAgeFromBirthdate`: the age in years, as a real, of someone born at `birthdate`. */
  function AgeFromBirthdate(birthdate: real, today: real): (age: real)
    ensures today - age * MS_IN_YEAR == birthdate
    ensures birthdate <= today <==> 0.0 <= age
  {
    (today - birthdate) / MS_IN_YEAR
  }

  /** `today.getTime() - age * MS_IN_YEAR`: the birth time of someone `age` years old at `today`. */
  function BirthTimestamp(age: real, today: real): (birthdate: real)
    ensures AgeFromBirthdate(birthdate, today) == age
  {
    today - age * MS_IN_YEAR
  }
}
