/** The value-computing helpers of simulator/functions.py that build a simulated
    flight: its code, the plane, the flight time, the arrival time, the number of
    passengers and their phone numbers. Every random draw of the source is a
    parameter here, constrained to the range the source draws it from. */
module FlightFunctions {

  import opened Wrappers
  import opened Calendar
  import opened Timestamp

  // ---------------------------------------------------------------- flight code

  /** Size of the population `string.ascii_uppercase + string.digits`. */
  const PopulationSize := 36

  /** Character k of `string.ascii_uppercase + string.digits`. */
  function PopulationChar(k: int): (c: char)
    requires 0 <= k < PopulationSize
    ensures IsCodeChar(c) && (if k < 26 then c as int - 'A' as int else c as int - '0' as int + 26) == k
  {
    if k < 26 then ('A' as int + k) as char else ('0' as int + k - 26) as char
  }

  predicate IsCodeChar(c: char) { 'A' <= c <= 'Z' || '0' <= c <= '9' }

  /** The position of a code character in the population. */
  function PopulationIndex(c: char): (k: int)
    requires IsCodeChar(c)
    ensures 0 <= k < PopulationSize && PopulationChar(k) == c
  {
    if 'A' <= c <= 'Z' then c as int - 'A' as int else c as int - '0' as int + 26
  }

  /** Six positions drawn by `random.choices(population, k=6)`. */
  predicate ValidPicks(picks: seq<int>) {
    |picks| == 6 && forall i :: 0 <= i < 6 ==> 0 <= picks[i] < PopulationSize
  }

  /** Two blocks of six upper-case letters or digits joined by a hyphen. */
  predicate IsFlightCode(s: string) {
    |s| == 13 && s[6] == '-' && forall i :: 0 <= i < 13 && i != 6 ==> IsCodeChar(s[i])
  }

  /** The characters at the drawn positions of the population. */
  function CodePart(picks: seq<int>): (part: string)
    requires forall i :: 0 <= i < |picks| ==> 0 <= picks[i] < PopulationSize
    ensures |part| == |picks| && forall i :: 0 <= i < |part| ==> IsCodeChar(part[i])
  {
    seq(|picks|, i requires 0 <= i < |picks| => PopulationChar(picks[i]))
  }

  /** `generate_random_code()` for the two blocks of drawn positions. */
  function GenerateRandomCode(picks1: seq<int>, picks2: seq<int>): (code: string)
    requires ValidPicks(picks1) && ValidPicks(picks2)
    ensures IsFlightCode(code)
  {
    CodePart(picks1) + "-" + CodePart(picks2)
  }

  /** The draws that a flight code was generated from. */
  function CodePicks(code: string): (picks: (seq<int>, seq<int>))
    requires IsFlightCode(code)
    ensures ValidPicks(picks.0) && ValidPicks(picks.1)
  {
    (seq(6, i requires 0 <= i < 6 => PopulationIndex(code[i])),
     seq(6, i requires 0 <= i < 6 => PopulationIndex(code[7 + i])))
  }

  /** Every flight code is generated by exactly the draws CodePicks recovers... */
  lemma GenerateCodePicks(code: string)
    requires IsFlightCode(code)
    ensures GenerateRandomCode(CodePicks(code).0, CodePicks(code).1) == code
  {
    var g := GenerateRandomCode(CodePicks(code).0, CodePicks(code).1);
    assert forall i :: 0 <= i < 13 ==> g[i] == code[i];
  }

  /** ...and distinct draws give distinct codes. */
  lemma CodePicksGenerate(picks1: seq<int>, picks2: seq<int>)
    requires ValidPicks(picks1) && ValidPicks(picks2)
    ensures CodePicks(GenerateRandomCode(picks1, picks2)) == (picks1, picks2)
  {
    var code := GenerateRandomCode(picks1, picks2);
    var picks := CodePicks(code);
    forall i | 0 <= i < 6
      ensures picks.0[i] == picks1[i] && picks.1[i] == picks2[i]
    {
      assert code[i] == PopulationChar(picks1[i]);
      assert code[7 + i] == PopulationChar(picks2[i]);
    }
    assert picks.0 == picks1 && picks.1 == picks2;
  }

  // ---------------------------------------------------------------- phone number

  /** Ten digits drawn by `random.randint(0, 9)`. */
  predicate ValidDigitDraws(digits: seq<int>) {
    |digits| == 10 && forall i :: 0 <= i < 10 ==> 0 <= digits[i] <= 9
  }

  predicate IsPhoneNumber(s: string) { |s| == 10 && AllDigits(s) }

  /** `generate_phone_number()` for the drawn digits. */
  function GeneratePhoneNumber(digits: seq<int>): (phone: string)
    requires ValidDigitDraws(digits)
    ensures IsPhoneNumber(phone)
    ensures forall i :: 0 <= i < 10 ==> DigitValue(phone[i]) == digits[i]
  {
    seq(10, i requires 0 <= i < 10 => DigitChar(digits[i]))
  }

  /** The digits a phone number was generated from: every ten-digit string is
      generated, by exactly these draws. */
  function PhoneDigits(phone: string): (digits: seq<int>)
    requires IsPhoneNumber(phone)
    ensures ValidDigitDraws(digits) && GeneratePhoneNumber(digits) == phone
  {
    var digits := seq(10, i requires 0 <= i < 10 => DigitValue(phone[i]));
    assert forall i :: 0 <= i < 10 ==> DigitChar(digits[i]) == phone[i] by {
      forall i | 0 <= i < 10 {
        DigitCharOfValue(phone[i]);
      }
    }
    digits
  }

  // ---------------------------------------------------------------- plane selection

  /** A row of the Plane table in column order: PlaneID, Model, Manufacturer,
      RangeKM, capacity, CruisingSpeedKPH. A NULL column is None. */
  datatype Plane = Plane(planeId: int, model: string, manufacturer: string,
                         rangeKm: Option<int>, capacity: int, cruisingSpeedKph: Option<int>)

  /** The condition `RangeKM >= distance` of the query; NULL never satisfies it. */
  predicate HasSufficientRange(p: Plane, distance: int) {
    p.rangeKm.Some? && p.rangeKm.value >= distance
  }

  /** The rows the query returns, in table order. */
  function SuitablePlanes(planes: seq<Plane>, distance: int): (r: seq<Plane>)
    ensures |r| <= |planes|
    ensures forall p :: p in r <==> p in planes && HasSufficientRange(p, distance)
  {
    if planes == [] then []
    else
      var rest := SuitablePlanes(planes[1..], distance);
      assert forall p :: p in planes <==> p == planes[0] || p in planes[1..];
      if HasSufficientRange(planes[0], distance) then [planes[0]] + rest else rest
  }

  /** `select_plane_with_sufficient_range`: `random.choice` over the suitable rows,
      `pick` being the position it draws. */
  function SelectPlaneWithSufficientRange(planes: seq<Plane>, distance: int, pick: int): (r: Result<Plane>)
    requires SuitablePlanes(planes, distance) != [] ==> 0 <= pick < |SuitablePlanes(planes, distance)|
    ensures r.Err? <==> forall p :: p in planes ==> !HasSufficientRange(p, distance)
    ensures r.Err? ==> r.error == NoSufficientRange
    ensures r.Ok? ==> r.value in planes && HasSufficientRange(r.value, distance)
  {
    var suitable := SuitablePlanes(planes, distance);
    if suitable == [] then Err(NoSufficientRange)
    else
      assert suitable[0] in planes;
      Ok(suitable[pick])
  }

  /** Every plane with sufficient range is a possible choice. */
  lemma EverySuitablePlaneCanBeSelected(planes: seq<Plane>, distance: int, p: Plane)
    requires p in planes && HasSufficientRange(p, distance)
    ensures exists pick :: 0 <= pick < |SuitablePlanes(planes, distance)|
                           && SelectPlaneWithSufficientRange(planes, distance, pick) == Ok(p)
  {
    var suitable := SuitablePlanes(planes, distance);
    var pick :| 0 <= pick < |suitable| && suitable[pick] == p;
    assert SelectPlaneWithSufficientRange(planes, distance, pick) == Ok(p);
  }

  // ---------------------------------------------------------------- flight time

  /** `not speed` in Python: the column is NULL or zero. */
  predicate SpeedMissing(p: Plane) {
    p.cruisingSpeedKph.None? || p.cruisingSpeedKph.value == 0
  }

  /** `calculate_flight_time`: the distance over the cruising speed, in whole minutes
      truncated toward zero; the 30-minute landing allowance is never added. */
  function CalculateFlightTime(distance: int, plane: Plane): (r: Result<int>)
    ensures r.Err? <==> SpeedMissing(plane)
    ensures r.Err? ==> r.error == SpeedNotAvailable
    ensures r.Ok? ==> var v := plane.cruisingSpeedKph.value;
      Abs(r.value) * Abs(v) <= 60 * Abs(distance) < (Abs(r.value) + 1) * Abs(v)
    ensures r.Ok? && distance >= 0 && plane.cruisingSpeedKph.value > 0 ==>
      var v := plane.cruisingSpeedKph.value;
      0 <= r.value && r.value * v <= 60 * distance < (r.value + 1) * v
  {
    if SpeedMissing(plane) then Err(SpeedNotAvailable)
    else Ok(TruncDiv(60 * distance, plane.cruisingSpeedKph.value))
  }

  lemma MultiplyMonotone(a: int, b: int, v: int)
    requires a <= b && v > 0
    ensures a * v <= b * v
  {
  }

  /** A longer distance never takes less time. */
  lemma FlightTimeMonotone(d1: int, d2: int, plane: Plane)
    requires 0 <= d1 <= d2 && plane.cruisingSpeedKph.Some? && plane.cruisingSpeedKph.value > 0
    ensures CalculateFlightTime(d1, plane).Ok? && CalculateFlightTime(d2, plane).Ok?
    ensures CalculateFlightTime(d1, plane).value <= CalculateFlightTime(d2, plane).value
  {
    var v := plane.cruisingSpeedKph.value;
    var q1, q2 := CalculateFlightTime(d1, plane).value, CalculateFlightTime(d2, plane).value;
    assert q1 * v <= 60 * d1 && 60 * d2 < (q2 + 1) * v;
    if q1 > q2 {
      MultiplyMonotone(q2 + 1, q1, v);
      assert false;
    }
  }

  // ---------------------------------------------------------------- arrival time

  /** `calculate_arrival_time`: parse the departure, add the flight time in minutes,
      and write the result in the same format. */
  function CalculateArrivalTime(departure: string, flightTime: int): (r: Result<string>)
    ensures Parse(departure).None? ==> r == Err(TimestampMismatch)
    ensures Parse(departure).Some? ==>
      (r.Ok? <==> 0 <= ToSeconds(Parse(departure).value) + 60 * flightTime <= MaxSeconds)
    ensures r.Err? && Parse(departure).Some? ==> r.error == DateOutOfRange
    ensures r.Ok? ==> (IsCanonical(r.value) && Parse(departure).Some? && Parse(r.value).Some?
      && ToSeconds(Parse(r.value).value) == ToSeconds(Parse(departure).value) + 60 * flightTime)
  {
    match Parse(departure)
    case None => Err(TimestampMismatch)
    case Some(t) =>
      match AddMinutes(t, flightTime)
      case None => Err(DateOutOfRange)
      case Some(a) => ParseFormat(a); Ok(Format(a))
  }

  /** With no flight time, a departure in canonical form comes back unchanged. */
  lemma ArrivalAfterZeroMinutes(departure: string)
    requires IsCanonical(departure)
    ensures CalculateArrivalTime(departure, 0) == Ok(departure)
  {
    FormatParseCanonical(departure);
    var t := Parse(departure).value;
    var a := AddMinutes(t, 0).value;
    ToSecondsInjective(a, t);
  }

  /** Adding two flight times one after the other is adding their sum. */
  lemma ArrivalAdditive(departure: string, n1: int, n2: int)
    requires CalculateArrivalTime(departure, n1).Ok?
    requires CalculateArrivalTime(departure, n1 + n2).Ok?
    ensures CalculateArrivalTime(CalculateArrivalTime(departure, n1).value, n2)
            == CalculateArrivalTime(departure, n1 + n2)
  {
    var a1 := CalculateArrivalTime(departure, n1).value;
    var a12 := CalculateArrivalTime(departure, n1 + n2).value;
    var r := CalculateArrivalTime(a1, n2);
    assert r.Ok?;
    FormatParseCanonical(r.value);
    FormatParseCanonical(a12);
    ToSecondsInjective(Parse(r.value).value, Parse(a12).value);
  }

  /** A longer flight never arrives earlier. */
  lemma ArrivalMonotone(departure: string, n1: int, n2: int)
    requires n1 <= n2
    requires CalculateArrivalTime(departure, n1).Ok? && CalculateArrivalTime(departure, n2).Ok?
    ensures ToSeconds(Parse(CalculateArrivalTime(departure, n1).value).value)
            <= ToSeconds(Parse(CalculateArrivalTime(departure, n2).value).value)
  {
  }

  // ---------------------------------------------------------------- passenger count

  /** The fill level `random.choices` picks for the flight. */
  datatype Scenario = Full | AlmostFull | HalfFull | LowFull

  /** The fill band of a scenario in tenths of the capacity: 0.80-0.90, 0.40-0.50, 0.10-0.30. */
  function BandTenths(s: Scenario): (int, int)
    requires !s.Full?
  {
    match s
    case AlmostFull => (8, 9)
    case HalfFull => (4, 5)
    case LowFull => (1, 3)
  }

  /** `int(lo * max_passenger)`: the lower bound of the `randint` draw. */
  function BandLow(capacity: int, s: Scenario): int
    requires !s.Full?
  {
    TruncDiv(BandTenths(s).0 * capacity, 10)
  }

  /** `int(hi * max_passenger)`: the upper bound of the `randint` draw. */
  function BandHigh(capacity: int, s: Scenario): int
    requires !s.Full?
  {
    TruncDiv(BandTenths(s).1 * capacity, 10)
  }

  /** `get_passenger_number` for the drawn scenario and, outside the full
      scenario, the value `pick` that `randint` draws from the band. */
  function GetPassengerNumber(capacity: int, scenario: Scenario, pick: int): (r: Result<int>)
    requires !scenario.Full? && BandLow(capacity, scenario) <= BandHigh(capacity, scenario) ==>
      BandLow(capacity, scenario) <= pick <= BandHigh(capacity, scenario)
    ensures r.Err? <==> !scenario.Full? && BandLow(capacity, scenario) > BandHigh(capacity, scenario)
    ensures r.Err? ==> r.error == EmptyRange
    ensures r.Ok? ==> r.value >= 3
    ensures r.Ok? && scenario.Full? ==> r.value == Max(capacity, 3)
    ensures r.Ok? && !scenario.Full? ==>
      Max(3, BandLow(capacity, scenario)) <= r.value <= Max(3, BandHigh(capacity, scenario))
  {
    var drawn :=
      if scenario.Full? then Ok(capacity)
      else if BandLow(capacity, scenario) > BandHigh(capacity, scenario) then Err(EmptyRange)
      else Ok(pick);
    match drawn
    case Err(e) => Err(e)
    case Ok(n) => Ok(if n < 3 then 3 else n)
  }

  /** On a capacity of at least 3 the count never exceeds it, whatever is drawn. */
  lemma PassengerNumberWithinCapacity(capacity: int, scenario: Scenario, pick: int)
    requires capacity >= 3
    requires !scenario.Full? ==> BandLow(capacity, scenario) <= pick <= BandHigh(capacity, scenario)
    ensures GetPassengerNumber(capacity, scenario, pick).Ok?
    ensures GetPassengerNumber(capacity, scenario, pick).value <= capacity
  {
  }

  /** Every count in a band (raised to 3) is a possible outcome. */
  lemma EveryBandCountIsPossible(capacity: int, scenario: Scenario, n: int)
    requires !scenario.Full? && BandLow(capacity, scenario) <= BandHigh(capacity, scenario)
    requires Max(3, BandLow(capacity, scenario)) <= n <= Max(3, BandHigh(capacity, scenario))
    ensures exists pick :: BandLow(capacity, scenario) <= pick <= BandHigh(capacity, scenario)
                           && GetPassengerNumber(capacity, scenario, pick) == Ok(n)
  {
    var lo, hi := BandLow(capacity, scenario), BandHigh(capacity, scenario);
    var pick := if n == 3 && lo <= 3 then (if hi < 3 then lo else 3) else n;
    assert GetPassengerNumber(capacity, scenario, pick) == Ok(n);
  }
}
