# Airflight simulator helpers in Dafny

This project models the value-computing core of the Airflight simulator: the helpers that build one simulated flight and the generator that gives airline companies their fleets.

- **Flight code** (`FlightFunctions`): two blocks of six upper-case letters or digits joined by a hyphen.
- **Plane selection**: a random row among the planes whose `RangeKM` covers the distance. `ValueError` is raised when there is none.
- **Flight time**: the distance over the cruising speed, in whole minutes truncated toward zero. `ValueError` is raised when the speed is NULL or zero.
- **Arrival time**: the departure string `%Y/%m/%d %H:%M:%S` is parsed, the minutes are added on the proleptic Gregorian calendar, and the result is written back in the same format (`Calendar`, `Timestamp`).
- **Passenger count**: the capacity when the plane is full, otherwise a draw from the 80–90 %, 40–50 % or 10–30 % band. The count is never below 3.
- **Passenger list** (`Passengers`): single passengers, and families of 2 to 5 sharing one surname when they still fit. Passengers are added until the list holds exactly the requested number. Each passenger gets a 10-digit phone number and a `name.surname@mail.com` address.
- **Seed passenger table** (`SeedFlightData`): the seeding script's variant. It adds the flight's identifier and orders its columns Name, Surname, PhoneNumber, Mail, Gender, FlightID.
- **Fleets** (`CompaniesPlanes`): every airline gets min(n, number of models) distinct plane models, with n drawn in 10..50. Its country and IATA code are copied from its details.

Every random draw (`random.choices`, `random.randint`, `random.choice`, `random.random`, `random.sample`, Faker's names) is a parameter of the model. Each parameter is constrained to the range the source draws it from. For the flight code, the plane selection, the phone number, the passenger count, the passenger list and the sample of plane models, a lemma shows that every outcome in the range is produced by some draws.

Most helpers in generate_standart_data/simulator_flight_data.py are the same text as in simulator/functions.py, so the same members model both:

| helper | seeding copy | modelled by |
|---|---|---|
| `generate_random_code` | lines 21-27 | `GenerateRandomCode` |
| `select_plane_with_sufficient_range` | lines 89-106 | `SelectPlaneWithSufficientRange` |
| `calculate_flight_time` | lines 108-121 | `CalculateFlightTime` |
| `calculate_arrival_time` | lines 129-135 | `CalculateArrivalTime` |
| `get_passenger_number` | lines 137-165 | `GetPassengerNumber` |
| `generate_phone_number` | lines 179-181 | `GeneratePhoneNumber` |
| `generate_family_members` | lines 183-202 | `GenerateFamilyMembers` |

Three things differ in the seeding copy:

- Its plane query reads the module-level `plane_table` rather than its parameter. Both name the same table.
- Its `generate_family_members` and `generate_passengers_information` take no `fake` parameter. They read the module-level Faker bound at line 419. Names are draw parameters in the model, so both copies are modelled alike.
- Its passenger loop (lines 206-236) is the same as the simulator's; only the table it builds differs.

## Model

| member | source | states |
|---|---|---|
| Wrappers.TruncDiv | simulator/functions.py:117-118 | `int()` of a quotient: the magnitude of the result is the whole part of \|a\|/\|b\|, and its sign is the sign of the quotient |
| Calendar.FromOrdinal | simulator/functions.py:132 | every day number 1 .. ordinal of 9999/12/31 is the ordinal of exactly the valid date returned |
| Calendar.FromOrdinalOfOrdinal | simulator/functions.py:132 | date -> ordinal -> date is the identity on valid dates |
| Calendar.ToSeconds | simulator/functions.py:132 | a valid date-time lies within 0 .. MaxSeconds seconds of 0001/01/01 00:00:00 |
| Calendar.FromSeconds | simulator/functions.py:132 | every second count in range is the count of the valid date-time returned |
| Calendar.FromSecondsOfToSeconds | simulator/functions.py:132 | date-time -> seconds -> date-time is the identity |
| Calendar.ToSecondsInjective | simulator/functions.py:132 | two valid date-times are equal exactly when their second counts are equal |
| Calendar.AddMinutes | simulator/functions.py:132 | `t + timedelta(minutes=n)` succeeds exactly when the result stays in years 1..9999, and then lies exactly 60·n seconds after t |
| Timestamp.DigitRun | simulator/functions.py:131 | the run of digits a field starts with is maximal |
| Timestamp.Field | simulator/functions.py:131 | an accepted field has a value in its directive's range, is exactly that value's digits (one digit, or two zero-padded) and is not followed by another digit |
| Timestamp.DayField | simulator/functions.py:131 | `%d` yields 1..31, read from one digit, two zero-padded digits, or a space and one digit 1..9 |
| Timestamp.Parse | simulator/functions.py:131 | `strptime` yields only valid date-times (real month lengths, leap years, no year 0, no second 60 or 61) |
| Timestamp.Pad2 | simulator/functions.py:133 | a two-digit zero-padded field reads back as its value |
| Timestamp.Pad4 | simulator/functions.py:133 | a four-digit zero-padded year reads back as its value |
| Timestamp.Format | simulator/functions.py:133 | `strftime` writes 19 characters |
| Timestamp.DigitsSpell | simulator/functions.py:131 | one or two leading digits are the unpadded or zero-padded spelling of the value they are read as |
| Timestamp.ParseLayout | simulator/functions.py:131 | six zero-padded fields in their pattern ranges are read as exactly their date-time when it is valid, and refused otherwise |
| Timestamp.ParseCalendarChecks | simulator/functions.py:131 | year 0, a day past the end of its month and the seconds 60 and 61 are refused; a 29th of February is accepted exactly in leap years |
| Timestamp.ParseUnpadded | simulator/functions.py:131 | one-digit month, day, hour, minute and second are read as their values |
| Timestamp.ParseSpacedDay | simulator/functions.py:131 | a day written as a space and one digit, and any non-empty whitespace run before the time, are read as the same date-time |
| Timestamp.ParseRefusesTrailingText | simulator/functions.py:131 | any text after the seconds is refused |
| Timestamp.ParseRefusesMissingSpace | simulator/functions.py:131 | a date and a time joined by a character that is neither whitespace nor a digit are refused |
| Timestamp.ParseDateOfPads | simulator/functions.py:131-133 | the date part `strftime` writes is read back by the `%Y/%m/%d` patterns as the same date |
| Timestamp.ParseClockOfPads | simulator/functions.py:131-133 | the clock part `strftime` writes is read back by the `%H:%M:%S` patterns as the same hour, minute and second |
| Timestamp.ParseFormat | simulator/functions.py:131-133 | reading what `strftime` wrote gives back the same date-time |
| Timestamp.FormatParseCanonical | simulator/functions.py:131-133 | a string in canonical form parses and is written back unchanged |
| FlightFunctions.PopulationChar | simulator/functions.py:21-22 | each of the 36 positions of `ascii_uppercase + digits` is a code character, recoverable from it |
| FlightFunctions.PopulationIndex | simulator/functions.py:21-22 | each code character sits at exactly one position of the population |
| FlightFunctions.CodePart | simulator/functions.py:21-22 | a block has one code character per draw |
| FlightFunctions.GenerateRandomCode | simulator/functions.py:19-25 | the code has 13 characters: six letters or digits, a hyphen, six letters or digits |
| FlightFunctions.CodePicks | simulator/functions.py:19-25 | a flight code determines two valid blocks of six draws |
| FlightFunctions.GenerateCodePicks | simulator/functions.py:19-25 | every string of the flight-code form is generated, by the draws CodePicks recovers |
| FlightFunctions.CodePicksGenerate | simulator/functions.py:19-25 | the draws are recovered from the code, so distinct draws give distinct codes |
| FlightFunctions.GeneratePhoneNumber | simulator/functions.py:177-179 | ten characters, each the digit drawn at its position |
| FlightFunctions.PhoneDigits | simulator/functions.py:177-179 | every ten-digit string is generated, by the valid digit draws returned |
| FlightFunctions.SuitablePlanes | simulator/functions.py:92-97 | the query returns exactly the rows whose RangeKM (not NULL) is at least the distance |
| FlightFunctions.SelectPlaneWithSufficientRange | simulator/functions.py:87-104 | ValueError exactly when no plane has the range; otherwise the plane returned is an input row with RangeKM >= distance |
| FlightFunctions.EverySuitablePlaneCanBeSelected | simulator/functions.py:103 | every row with sufficient range is chosen by some draw |
| FlightFunctions.CalculateFlightTime | simulator/functions.py:106-119 | ValueError exactly when the speed is NULL or 0; otherwise r·v <= 60·d < (r+1)·v for non-negative inputs, in magnitude in general, and no 30-minute allowance |
| FlightFunctions.FlightTimeMonotone | simulator/functions.py:106-119 | a longer distance never takes fewer minutes |
| FlightFunctions.CalculateArrivalTime | simulator/functions.py:127-133 | ValueError on a departure `strptime` rejects, OverflowError outside years 1..9999; otherwise a canonical string exactly 60·n seconds after the departure |
| FlightFunctions.ArrivalAfterZeroMinutes | simulator/functions.py:127-133 | zero minutes give back a canonical departure unchanged |
| FlightFunctions.ArrivalAdditive | simulator/functions.py:127-133 | adding n1 then n2 minutes equals adding n1 + n2 |
| FlightFunctions.ArrivalMonotone | simulator/functions.py:127-133 | a longer flight never arrives earlier |
| FlightFunctions.GetPassengerNumber | simulator/functions.py:135-163 | at least 3; max(capacity, 3) when full; otherwise within the band raised to 3; ValueError exactly when the band is empty |
| FlightFunctions.PassengerNumberWithinCapacity | simulator/functions.py:135-163 | for a capacity of at least 3 the count never exceeds it |
| FlightFunctions.EveryBandCountIsPossible | simulator/functions.py:152-162 | every count of a band, raised to 3, is produced by some draw |
| Passengers.GenderName | simulator/functions.py:185 | the gender stored is "male" or "female", "male" exactly for a male draw |
| Passengers.GenderOf | simulator/functions.py:185 | each of "male" and "female" is stored by some draw |
| Passengers.NewPassenger | simulator/functions.py:225-234 | a single passenger has the drawn first name and surname, a ten-digit phone number and the gender "male" or "female" |
| Passengers.Family | simulator/functions.py:181-200 | a family has one member per draw, all with a ten-digit phone number and the shared surname |
| Passengers.GenerateFamilyMembers | simulator/functions.py:181-200 | the loop lists exactly the family of the first `family_size` drawn members, all with the given surname |
| Passengers.Block | simulator/functions.py:205-234 | one turn adds 1 to 5 passengers, never past the target; a drawn family is added whole exactly when it fits, else one passenger |
| Passengers.BlocksLength | simulator/functions.py:204-234 | the turns from any point bring the list to exactly max(target, length so far) |
| Passengers.BlocksWellFormed | simulator/functions.py:204-234 | every passenger the turns add has a ten-digit phone number and the gender "male" or "female" |
| Passengers.BlocksAtMostOnePerDraw | simulator/functions.py:204-234 | the loop takes at most one turn per draw |
| Passengers.BlockAt | simulator/functions.py:205-234 | the turn of each draw adds one passenger or that draw's whole family |
| Passengers.PassengerList | simulator/functions.py:202-234 | the list holds exactly max(num_passengers, 0) well-formed passengers |
| Passengers.AddTurn | simulator/functions.py:205-234 | one turn of the loop appends the block Block describes |
| Passengers.PlanStep | simulator/functions.py:204-234 | one turn keeps the loop invariant: the list is the turns done so far, and they followed by the turns still to come are all the turns |
| Passengers.BuildPassengerList | simulator/functions.py:203-234 | the `while` loop builds exactly PassengerList |
| Passengers.SingleDraws | simulator/functions.py:225-234 | every well-formed passenger is what some single-passenger draw adds |
| Passengers.BlocksOfSingles | simulator/functions.py:204-234 | draws of single passengers list exactly those passengers, in order |
| Passengers.EveryPassengerListIsPossible | simulator/functions.py:202-234 | every list of well-formed passengers is the list of some valid draws |
| Passengers.Lower | simulator/functions.py:240 | `str.lower` keeps the length and leaves no upper-case ASCII letter |
| Passengers.Mail | simulator/functions.py:240 | the address is 10 characters longer than name and surname, has no upper-case letter, ends in "@mail.com", and that '@' is its only one when the names have none |
| Passengers.LowerIdempotent | simulator/functions.py:240 | lower-casing twice is lower-casing once |
| Passengers.MailIgnoresCase | simulator/functions.py:240 | the address does not depend on the case of the name and surname |
| Passengers.MailDeterminesNames | simulator/functions.py:240 | for names without '.', equal addresses mean equal name and surname up to case |
| Passengers.GeneratePassengersInformation | simulator/functions.py:202-242 | KeyError 'Name' exactly when no passenger is requested; otherwise the Name, Surname, Gender, PhoneNumber, Mail table of PassengerList, with the mail formula on every row |
| SeedFlightData.GeneratePassengersInformation | generate_standart_data/simulator_flight_data.py:204-254 | the same passengers with their mail and the flight id on every row, columns Name, Surname, PhoneNumber, Mail, Gender, FlightID; KeyError 'Name' when empty |
| CompaniesPlanes.Sample | generate_standart_data/generate_companies_planes.py:32 | `random.sample` returns k models from the list, distinct when the list is |
| CompaniesPlanes.IndexOf | generate_standart_data/generate_companies_planes.py:32 | a model present in the list has a position holding it |
| CompaniesPlanes.EverySelectionIsSampled | generate_standart_data/generate_companies_planes.py:32 | every sequence of distinct models is a possible sample |
| CompaniesPlanes.MissingField | generate_standart_data/generate_companies_planes.py:35-36 | the key that raises KeyError: "country" first, then "iata_code", none when both are present |
| CompaniesPlanes.GenerateAirlinePlaneData | generate_standart_data/generate_companies_planes.py:15-40 | the loop over the airlines computes exactly FleetsFrom |
| CompaniesPlanes.FleetsErrorIff | generate_standart_data/generate_companies_planes.py:23-38 | KeyError exactly when some airline lacks "country" or "iata_code", and it is the first such airline's missing key |
| CompaniesPlanes.FleetsShape | generate_standart_data/generate_companies_planes.py:23-38 | without error: the same airline keys in the same order, country and IATA code copied, min(n, #models) distinct planes each a key of the plane file |

## Left out

- Great-circle distance (`haversine`, `calculate_distance_between_airports`) is left out. It is floating-point trigonometry; the distance is an input of the model.
- The airport lookup (`get_airport_info`) is left out. So are all database work (SQLAlchemy engines, tables, queries, inserts) and `select_two_random_airports`. The rows a query returns are a sequence input.
- simulator/simulator_flight_data.py (ticket price, fuel cost, flight recording) is not part of this model.
- `get_current_time` reads the clock. JSON file loading and writing, `argparse` and `print` are I/O. All of these are left out; the current time and the file contents are inputs.
- The probabilities of `random.choices` (75/15/5/5 %, 30 % families) are left out. The model covers every outcome a draw can have, not how likely it is.
- Faker's name lists are left out. Names are arbitrary strings.
- The pandas DataFrame is a column list and a sequence of rows.
- FlightFunctions.CalculateFlightTime: the source computes `int(distance / speed * 60)` in double precision; the model uses exact integer truncation. In a few cases the double comes out just under a whole number, so the source yields one minute less, e.g. 49 km at 3 km/h is 979 rather than 980.
- FlightFunctions.GetPassengerNumber: `int(0.80 * capacity)` and the other band limits are computed in double precision; the model uses exact tenths. A NULL capacity, which would raise TypeError, is not modelled.
- Timestamp.Parse: only ASCII digits are recognised as digits. Python's `re` also accepts other Unicode decimal digits in `strptime` input. Whitespace is Python's full `\s` set.
- Timestamp.Format: `%Y` is always written with four digits. glibc writes years below 1000 without padding, and such strings would not read back.
- Passengers.Lower: only ASCII letters are lower-cased. Python's `str.lower` also lower-cases the rest of Unicode.
- The family members of `generate_family_members` are drawn even when they do not fit, as in the source. The draws are parameters, so the model does not show that those draws are consumed.
- `generate_airline_plane_data` reads its inputs and never modifies them. In the model they are immutable values, so they are unchanged by construction. The model also takes the airline details as string-valued maps.
