/** The passenger table of generate_standart_data/simulator_flight_data.py. Its other
    helpers are the same text as those of simulator/functions.py and share their
    definitions in FlightFunctions and Passengers; its passenger table differs in
    carrying the flight's identifier and in the order of its columns. */
module SeedFlightData {

  import opened Wrappers
  import opened FlightFunctions
  import opened Passengers

  /** A row of the returned DataFrame, in the order of its columns. */
  datatype SeedRow = SeedRow(name: string, surname: string, phoneNumber: string, mail: string,
                             gender: string, flightId: int)

  datatype SeedFrame = SeedFrame(columns: seq<string>, rows: seq<SeedRow>)

  /** The column order the table is reindexed to. */
  const SeedColumns := ["Name", "Surname", "PhoneNumber", "Mail", "Gender", "FlightID"]

  function SeedRowOf(p: Passenger, flightId: int): SeedRow
  {
    SeedRow(p.name, p.surname, p.phoneNumber, Mail(p.name, p.surname), p.gender, flightId)
  }

  /** `generate_passengers_information(num_passengers, flight_id)`: the passengers of
      the simulator's loop, each with its mail address and the flight's identifier.
      With no passenger the DataFrame has no column and reading `Name` raises KeyError. */
  method GeneratePassengersInformation(num: int, flightId: int, draws: seq<Draw>) returns (r: Result<SeedFrame>)
    requires num <= |draws| && ValidDraws(draws)
    ensures r.Err? <==> num <= 0
    ensures r.Err? ==> r.error == MissingKey("Name")
    ensures r.Ok? ==> r.value.columns == SeedColumns && |r.value.rows| == num
    ensures r.Ok? ==> forall k :: 0 <= k < |r.value.rows| ==>
      var row, p := r.value.rows[k], PassengerList(num, draws)[k];
      row.name == p.name && row.surname == p.surname && row.gender == p.gender
      && row.phoneNumber == p.phoneNumber && IsPhoneNumber(row.phoneNumber)
      && row.mail == Mail(row.name, row.surname) && row.flightId == flightId
  {
    var passengers := BuildPassengerList(num, draws);
    if passengers == [] {
      return Err(MissingKey("Name"));
    }
    r := Ok(SeedFrame(SeedColumns, seq(|passengers|, k requires 0 <= k < |passengers| => SeedRowOf(passengers[k], flightId))));
  }
}
