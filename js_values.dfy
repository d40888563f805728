/**
 * The part of JavaScript's value model that request validation looks at,
 * and the validator `parseDtoIn` of main.js.
 */
module JsValues {

  import opened Wrappers

  /** A JavaScript number: a finite value, NaN or one of the two infinities. */
  datatype JsNumber = Finite(v: real) | NaN | PosInfinity | NegInfinity

  /** The JavaScript values a request can be made of (arrays count as objects). */
  datatype JsValue =
    | Undefined
    | Null
    | Bool(b: bool)
    | Num(n: JsNumber)
    | Str(s: string)
    | Obj(props: map<string, JsValue>)

  /** `!!v`: the falsy values are undefined, null, false, 0, NaN and "". */
  predicate Truthy(v: JsValue) {
    match v
    case Undefined => false
    case Null => false
    case Bool(b) => b
    case Num(n) => n != Finite(0.0) && n != NaN
    case Str(s) => s != ""
    case Obj(_) => true
  }

  /**
   * `v[key]` on a value that is neither undefined nor null: an own property of an
   * object, and undefined otherwise (no prototype of a request value has `count`,
   * `age`, `min` or `max`).
   */
  function Get(v: JsValue, key: string): (r: JsValue)
    ensures r != Undefined ==> v.Obj? && key in v.props && r == v.props[key]
    ensures v.Obj? && key in v.props ==> r == v.props[key]
  {
    if v.Obj? && key in v.props then v.props[key] else Undefined
  }

  /** `typeof v === "number"`. */
  predicate IsNumber(v: JsValue) {
    v.Num?
  }

  /** `Number.isInteger(v)`: a finite number without a fractional part. */
  predicate IsInteger(v: JsValue) {
    v.Num? && v.n.Finite? && v.n.v.Floor as real == v.n.v
  }

  /** `a < b` on numbers: false whenever NaN takes part, otherwise the extended order. */
  predicate Less(a: JsNumber, b: JsNumber) {
    match (a, b)
    case (NaN, _) => false
    case (_, NaN) => false
    case (Finite(x), Finite(y)) => x < y
    case (NegInfinity, _) => b != NegInfinity
    case (_, PosInfinity) => a != PosInfinity
    case (_, _) => false
  }

  /** The reasons the validator throws, one per `throw` of main.js:42-66. */
  datatype ParseError =
    | NotAnObject      // dtoIn is falsy or not an object
    | InvalidCount     // count is not a positive integer
    | InvalidAge       // age is falsy or its min/max are not numbers
    | InvalidAgeRange  // min < 0 or max < min

  /** What `parseDtoIn` returns as written: the bounds are any JavaScript numbers. */
  datatype RawRequest = RawRequest(count: nat, minAge: JsNumber, maxAge: JsNumber)

  /** A validated request with finite bounds. */
  datatype Request = Request(count: nat, minAge: real, maxAge: real)

  /** `Number.isInteger(v) && v > 0`. */
  predicate PositiveInteger(v: JsValue) {
    IsInteger(v) && v.n.v > 0.0
  }

  /** `age` is truthy and `typeof age.min` and `typeof age.max` are both "number". */
  predicate HasNumericBounds(age: JsValue) {
    Truthy(age) && IsNumber(Get(age, "min")) && IsNumber(Get(age, "max"))
  }

  /** The positive integer held by a value that passed the count check. */
  function CountOf(v: JsValue): (c: nat)
    requires PositiveInteger(v)
    ensures c > 0 && v == Num(Finite(c as real))
  {
    v.n.v.Floor
  }

  /**
   * `parseDtoIn` exactly as main.js:42-66 has it: the order of the checks decides
   * which error is reported, and the range check uses `<`, which is false for NaN.
   */
  function ParseDtoInAsWritten(dtoIn: JsValue): (r: Result<RawRequest, ParseError>)
    ensures !dtoIn.Obj? ==> r == Err(NotAnObject)
    ensures dtoIn.Obj? && !PositiveInteger(Get(dtoIn, "count")) ==> r == Err(InvalidCount)
    ensures dtoIn.Obj? && PositiveInteger(Get(dtoIn, "count")) && !HasNumericBounds(Get(dtoIn, "age"))
            ==> r == Err(InvalidAge)
    ensures dtoIn.Obj? && PositiveInteger(Get(dtoIn, "count")) && HasNumericBounds(Get(dtoIn, "age")) ==>
              var age := Get(dtoIn, "age");
              var outOfRange := Less(Get(age, "min").n, Finite(0.0)) || Less(Get(age, "max").n, Get(age, "min").n);
              && (r == Err(InvalidAgeRange) <==> outOfRange)
              && (!outOfRange ==> r.Ok?)
    ensures r.Err? && r.error == InvalidAgeRange ==>
              var age := Get(dtoIn, "age");
              Less(Get(age, "min").n, Finite(0.0)) || Less(Get(age, "max").n, Get(age, "min").n)
    ensures r.Ok? ==>
              && dtoIn.Obj?
              && Get(dtoIn, "count") == Num(Finite(r.value.count as real))
              && r.value.count > 0
              && Get(Get(dtoIn, "age"), "min") == Num(r.value.minAge)
              && Get(Get(dtoIn, "age"), "max") == Num(r.value.maxAge)
              && !Less(r.value.minAge, Finite(0.0))
              && !Less(r.value.maxAge, r.value.minAge)
  {
    if !Truthy(dtoIn) || !dtoIn.Obj? then Err(NotAnObject)
    else
      var count := Get(dtoIn, "count");
      var age := Get(dtoIn, "age");
      if !IsInteger(count) || !Less(Finite(0.0), count.n) then Err(InvalidCount)
      else if !Truthy(age) || !IsNumber(Get(age, "min")) || !IsNumber(Get(age, "max")) then Err(InvalidAge)
      else
        var minAge := Get(age, "min").n;
        var maxAge := Get(age, "max").n;
        if Less(minAge, Finite(0.0)) || Less(maxAge, minAge) then Err(InvalidAgeRange)
        else Ok(RawRequest(CountOf(count), minAge, maxAge))
  }

  /**
   * The validator as its error messages intend it: in addition, both bounds must be
   * finite, so that `0 <= min <= max` really holds of the numbers returned.
   */
  function ParseDtoIn(dtoIn: JsValue): (r: Result<Request, ParseError>)
    ensures ParseDtoInAsWritten(dtoIn).Err? ==> r == Err(ParseDtoInAsWritten(dtoIn).error)
    ensures ParseDtoInAsWritten(dtoIn).Ok? && r.Err? ==> r == Err(InvalidAge)
    ensures r.Ok? ==> 0.0 <= r.value.minAge <= r.value.maxAge && r.value.count > 0
    ensures r.Ok? ==>
              ParseDtoInAsWritten(dtoIn)
                == Ok(RawRequest(r.value.count, Finite(r.value.minAge), Finite(r.value.maxAge)))
  {
    match ParseDtoInAsWritten(dtoIn)
    case Err(e) => Err(e)
    case Ok(raw) =>
      if raw.minAge.Finite? && raw.maxAge.Finite? then Ok(Request(raw.count, raw.minAge.v, raw.maxAge.v))
      else Err(InvalidAge)
  }

  /** A request object `{count, age: {min, max}}` built from three numbers. */
  function RequestValue(count: JsNumber, min: JsNumber, max: JsNumber): JsValue {
    Obj(map["count" := Num(count), "age" := Obj(map["min" := Num(min), "max" := Num(max)])])
  }

  /**
   * The corrected validator accepts exactly the objects whose count is a positive
   * integer and whose age bounds are finite numbers with 0 <= min <= max, and then
   * returns those three numbers unchanged.
   */
  lemma ParseDtoInAcceptsExactlyValid(dtoIn: JsValue)
    ensures ParseDtoIn(dtoIn).Ok? <==>
              && dtoIn.Obj?
              && PositiveInteger(Get(dtoIn, "count"))
              && HasNumericBounds(Get(dtoIn, "age"))
              && Get(Get(dtoIn, "age"), "min").n.Finite?
              && Get(Get(dtoIn, "age"), "max").n.Finite?
              && 0.0 <= Get(Get(dtoIn, "age"), "min").n.v <= Get(Get(dtoIn, "age"), "max").n.v
    ensures ParseDtoIn(dtoIn).Ok? ==>
              ParseDtoIn(dtoIn).value == Request(Get(dtoIn, "count").n.v.Floor,
                                                 Get(Get(dtoIn, "age"), "min").n.v,
                                                 Get(Get(dtoIn, "age"), "max").n.v)
  {
  }

  /** A count of zero is refused before the ages are looked at. */
  lemma ZeroCountRejected()
    ensures ParseDtoIn(RequestValue(Finite(0.0), Finite(20.0), Finite(30.0))) == Err(InvalidCount)
  {
  }

  /** An age range whose maximum lies below its minimum is refused. */
  lemma ReversedRangeRejected()
    ensures ParseDtoIn(RequestValue(Finite(5.0), Finite(30.0), Finite(20.0))) == Err(InvalidAgeRange)
  {
  }

  /**
   * As written, NaN bounds pass the validator, because `typeof NaN` is "number" and
   * every `<` with NaN is false; the corrected validator refuses them.
   */
  lemma NaNBoundsPassAsWritten()
    ensures ParseDtoInAsWritten(RequestValue(Finite(1.0), NaN, NaN)) == Ok(RawRequest(1, NaN, NaN))
    ensures ParseDtoIn(RequestValue(Finite(1.0), NaN, NaN)) == Err(InvalidAge)
  {
  }

  /**
   * As written, an infinite maximum age passes the validator, because `Infinity` is
   * a number not below the minimum; the corrected validator refuses it.
   */
  lemma InfiniteMaximumPassesAsWritten()
    ensures ParseDtoInAsWritten(RequestValue(Finite(1.0), Finite(0.0), PosInfinity))
              == Ok(RawRequest(1, Finite(0.0), PosInfinity))
    ensures ParseDtoIn(RequestValue(Finite(1.0), Finite(0.0), PosInfinity)) == Err(InvalidAge)
  {
  }
}
