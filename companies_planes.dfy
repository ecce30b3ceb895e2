/** generate_standart_data/generate_companies_planes.py: every airline of the
    airline file is given a fleet of between 10 and 50 distinct plane models, capped
    at the number of models the plane file lists. A JSON object is an association
    list that keeps its keys in file order, as Python's dict and `json.dump` do. */
module CompaniesPlanes {

  import opened Wrappers

  /** The details of one airline in the airline file. */
  type Details = map<string, string>

  /** The value written for one airline. */
  datatype Fleet = Fleet(country: string, iataCode: string, planes: seq<string>)

  /** What is drawn for one airline: `random.randint(10, 50)`, and the distinct
      positions of the plane models `random.sample` picks, in the order it picks them. */
  datatype FleetDraw = FleetDraw(count: int, picks: seq<int>)

  function Keys<V>(entries: seq<(string, V)>): (ks: seq<string>)
    ensures |ks| == |entries| && forall i :: 0 <= i < |entries| ==> ks[i] == entries[i].0
  {
    seq(|entries|, i requires 0 <= i < |entries| => entries[i].0)
  }

  predicate Distinct<T(==)>(s: seq<T>) {
    forall i, j :: 0 <= i < |s| && 0 <= j < |s| && i != j ==> s[i] != s[j]
  }

  /** k distinct positions among n. */
  predicate ValidPicks(picks: seq<int>, k: int, n: int) {
    |picks| == k && (forall i :: 0 <= i < |picks| ==> 0 <= picks[i] < n) && Distinct(picks)
  }

  predicate ValidDraws(draws: seq<FleetDraw>, airlines: int, models: int) {
    |draws| == airlines
    && forall i :: 0 <= i < |draws| ==>
      10 <= draws[i].count <= 50 && ValidPicks(draws[i].picks, Min(draws[i].count, models), models)
  }

  /** `random.sample(models, k)` for the drawn positions. */
  function Sample(models: seq<string>, k: int, picks: seq<int>): (r: seq<string>)
    requires |picks| == k && forall i :: 0 <= i < |picks| ==> 0 <= picks[i] < |models|
    ensures |r| == |picks| && forall i :: 0 <= i < |r| ==> r[i] == models[picks[i]] && r[i] in models
    ensures Distinct(models) && Distinct(picks) ==> Distinct(r)
  {
    seq(|picks|, i requires 0 <= i < |picks| => models[picks[i]])
  }

  /** The position of a model in the list. */
  function IndexOf(models: seq<string>, m: string): (k: int)
    requires m in models
    ensures 0 <= k < |models| && models[k] == m
  {
    if models[0] == m then 0 else 1 + IndexOf(models[1..], m)
  }

  /** Every choice of distinct models is what `random.sample` returns for some draw. */
  lemma EverySelectionIsSampled(models: seq<string>, selection: seq<string>)
    requires Distinct(selection) && forall i :: 0 <= i < |selection| ==> selection[i] in models
    ensures exists picks :: ValidPicks(picks, |selection|, |models|) && Sample(models, |selection|, picks) == selection
  {
    var picks := seq(|selection|, i requires 0 <= i < |selection| => IndexOf(models, selection[i]));
    assert Sample(models, |selection|, picks) == selection;
  }

  /** The key whose lookup in an airline's details raises KeyError: "country" is read first. */
  function MissingField(details: Details): (k: Option<string>)
    ensures k.None? <==> "country" in details && "iata_code" in details
    ensures k.Some? ==> k.value !in details && (k.value == "country" || k.value == "iata_code")
    ensures k == Some("iata_code") ==> "country" in details
  {
    if "country" !in details then Some("country")
    else if "iata_code" !in details then Some("iata_code")
    else None
  }

  /** The fleets written for the airlines from position i on, or the KeyError the
      first airline without "country" or "iata_code" raises. */
  function FleetsFrom(airlines: seq<(string, Details)>, models: seq<string>, draws: seq<FleetDraw>, i: nat)
    : Result<seq<(string, Fleet)>>
    requires i <= |airlines| && ValidDraws(draws, |airlines|, |models|)
    decreases |airlines| - i
  {
    if i == |airlines| then Ok([])
    else
      var details := airlines[i].1;
      match MissingField(details)
      case Some(key) => Err(MissingKey(key))
      case None =>
        var k := Min(draws[i].count, |models|);
        var fleet := Fleet(details["country"], details["iata_code"], Sample(models, k, draws[i].picks));
        match FleetsFrom(airlines, models, draws, i + 1)
        case Err(e) => Err(e)
        case Ok(rest) => Ok([(airlines[i].0, fleet)] + rest)
  }

  /** The result of the loop once `done` has been written for the airlines before. */
  function Prepend(done: seq<(string, Fleet)>, r: Result<seq<(string, Fleet)>>): Result<seq<(string, Fleet)>>
  {
    match r
    case Ok(rest) => Ok(done + rest)
    case Err(e) => Err(e)
  }

  /** `generate_airline_plane_data(airline_data, plane_data)`. */
  method GenerateAirlinePlaneData<P>(airlines: seq<(string, Details)>, planeData: seq<(string, P)>,
                                     draws: seq<FleetDraw>)
    returns (r: Result<seq<(string, Fleet)>>)
    requires ValidDraws(draws, |airlines|, |planeData|)
    ensures r == FleetsFrom(airlines, Keys(planeData), draws, 0)
  {
    var models := Keys(planeData);
    var numModels := |models|;
    var data: seq<(string, Fleet)> := [];
    match FleetsFrom(airlines, models, draws, 0) {
      case Ok(all) => assert data + all == all;
      case Err(_) =>
    }
    for i := 0 to |airlines|
      invariant FleetsFrom(airlines, models, draws, 0) == Prepend(data, FleetsFrom(airlines, models, draws, i))
    {
      var (airline, details) := airlines[i];
      var numPlanes := draws[i].count;
      if numPlanes > numModels {
        numPlanes := numModels;
      }
      var selected := Sample(models, numPlanes, draws[i].picks);
      if "country" !in details {
        return Err(MissingKey("country"));
      }
      if "iata_code" !in details {
        return Err(MissingKey("iata_code"));
      }
      var entry := (airline, Fleet(details["country"], details["iata_code"], selected));
      match FleetsFrom(airlines, models, draws, i + 1) {
        case Ok(rest) => assert (data + [entry]) + rest == data + ([entry] + rest);
        case Err(_) =>
      }
      data := data + [entry];
    }
    assert data + [] == data;
    r := Ok(data);
  }

  /** The result is an error exactly when some airline lacks "country" or "iata_code",
      and then it is the KeyError of the first such airline. */
  lemma {:induction false} FleetsErrorIff(airlines: seq<(string, Details)>, models: seq<string>,
                                          draws: seq<FleetDraw>, i: nat)
    requires i <= |airlines| && ValidDraws(draws, |airlines|, |models|)
    ensures var r := FleetsFrom(airlines, models, draws, i);
      r.Err? <==> exists j :: i <= j < |airlines| && MissingField(airlines[j].1).Some?
    ensures var r := FleetsFrom(airlines, models, draws, i);
      r.Err? ==> (exists j :: i <= j < |airlines| && MissingField(airlines[j].1).Some?
                   && (forall k :: i <= k < j ==> MissingField(airlines[k].1).None?)
                   && r.error == MissingKey(MissingField(airlines[j].1).value))
    decreases |airlines| - i
  {
    if i < |airlines| {
      FleetsErrorIff(airlines, models, draws, i + 1);
      if MissingField(airlines[i].1).None? {
        var r := FleetsFrom(airlines, models, draws, i);
        if exists j :: i <= j < |airlines| && MissingField(airlines[j].1).Some? {
          var j :| i <= j < |airlines| && MissingField(airlines[j].1).Some?;
          assert i + 1 <= j;
        }
        if r.Err? {
          var j :| i + 1 <= j < |airlines| && MissingField(airlines[j].1).Some?
            && (forall k :: i + 1 <= k < j ==> MissingField(airlines[k].1).None?)
            && r.error == MissingKey(MissingField(airlines[j].1).value);
          assert forall k :: i <= k < j ==> MissingField(airlines[k].1).None?;
        }
      }
    }
  }

  /** Without error, every airline keeps its key and position, its country and IATA
      code are copied from its details, and it gets min(drawn count, number of models)
      distinct plane models, each a key of the plane file. */
  lemma {:induction false} FleetsShape<P>(airlines: seq<(string, Details)>, planeData: seq<(string, P)>,
                                       draws: seq<FleetDraw>, i: nat)
    requires i <= |airlines| && ValidDraws(draws, |airlines|, |planeData|)
    requires Distinct(Keys(planeData))
    requires FleetsFrom(airlines, Keys(planeData), draws, i).Ok?
    ensures var data := FleetsFrom(airlines, Keys(planeData), draws, i).value;
      |data| == |airlines| - i
      && forall j :: i <= j < |airlines| ==>
        var (key, fleet) := data[j - i];
        key == airlines[j].0
        && "country" in airlines[j].1 && fleet.country == airlines[j].1["country"]
        && "iata_code" in airlines[j].1 && fleet.iataCode == airlines[j].1["iata_code"]
        && |fleet.planes| == Min(draws[j].count, |planeData|) && Distinct(fleet.planes)
        && forall p :: p in fleet.planes ==> p in Keys(planeData)
    decreases |airlines| - i
  {
    if i < |airlines| {
      FleetsShape(airlines, planeData, draws, i + 1);
    }
  }
}
