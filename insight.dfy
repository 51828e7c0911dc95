/**
 * The /weather/insight request: parameter validation, the exact-match query
 * on (Latitude, Longitude), and the per-record evaluation of the requested
 * condition. app.py and query_data.py hold the same body; it is modelled once.
 * Numbers are reals; the text-to-number conversion float() is the parameter
 * `parse`, which yields None where float() raises ValueError.
 */
module Insight {
  import opened WeatherData

  const VERY_HOT_THRESHOLD: real := 30.0
  const COLD_AND_RAINY_TEMP_THRESHOLD: real := 10.0
  const RAIN_THRESHOLD_MM: real := 0.5
  /** Millimetres in an inch: the in/hr to mm/hr conversion factor. */
  const MM_PER_INCH: real := 25.4

  const MISSING_PARAMETERS: string := "Missing query parameters"
  const INVALID_CONDITION: string := "Invalid condition"
  const QUERY_ERROR: string := "Database query error"
  const INTERNAL_ERROR: string := "Internal server error"

  datatype Option<T> = None | Some(value: T)

  /** The two conditions a request may ask about. */
  datatype Condition = VeryHot | RainyAndCold

  /** A validated request. */
  datatype Request = Request(condition: Condition, lat: string, lon: string)

  /** One element of the response list: {'forecastTime': …, 'conditionMet': …}. */
  datatype Entry = Entry(forecastTime: string, conditionMet: bool)

  /** A query argument is given when it is present and not empty (Python truthiness of a str). */
  predicate Given(arg: Option<string>)
  {
    arg.Some? && arg.value != ""
  }

  /** The condition names the route accepts, spelled exactly. */
  function ConditionNamed(name: string): (c: Option<Condition>)
    ensures c == Some(VeryHot) <==> name == "veryHot"
    ensures c == Some(RainyAndCold) <==> name == "rainyAndCold"
    ensures c == None <==> name != "veryHot" && name != "rainyAndCold"
  {
    if name == "veryHot" then Some(VeryHot)
    else if name == "rainyAndCold" then Some(RainyAndCold)
    else None
  }

  /**
   * The two checks ahead of the query: all three arguments must be given, and
   * only then is the condition name examined.
   */
  function ValidateRequest(condition: Option<string>, lat: Option<string>, lon: Option<string>): (r: Response<Request>)
    ensures r == Failure(400, MISSING_PARAMETERS) <==> !(Given(condition) && Given(lat) && Given(lon))
    ensures r == Failure(400, INVALID_CONDITION) <==>
              Given(condition) && Given(lat) && Given(lon) &&
              condition.value != "veryHot" && condition.value != "rainyAndCold"
    ensures r.Success? <==>
              Given(condition) && Given(lat) && Given(lon) && ConditionNamed(condition.value).Some?
    ensures r.Success? ==>
              r.body.lat == lat.value && r.body.lon == lon.value &&
              Some(r.body.condition) == ConditionNamed(condition.value)
  {
    if !(Given(condition) && Given(lat) && Given(lon)) then Failure(400, MISSING_PARAMETERS)
    else match ConditionNamed(condition.value)
      case None => Failure(400, INVALID_CONDITION)
      case Some(c) => Success(Request(c, lat.value, lon.value))
  }

  /** The query document {Latitude: lat, Longitude: lon}. */
  function LocationQuery(lat: string, lon: string): (query: Row)
    ensures query.Keys == {LATITUDE, LONGITUDE}
    ensures forall doc :: Matches(doc, query) <==>
              LATITUDE in doc && doc[LATITUDE] == lat && LONGITUDE in doc && doc[LONGITUDE] == lon
  {
    map[LATITUDE := lat, LONGITUDE := lon]
  }

  /** result[key]: the field's text, or KeyError when the record lacks it. */
  function Field(record: Row, key: string): (r: Result<string>)
    ensures r.Ok? <==> key in record
    ensures r.Ok? ==> r.value == record[key]
    ensures r.Raise? ==> r.error == KeyError(key)
  {
    if key in record then Ok(record[key]) else Raise(KeyError(key))
  }

  /** float(text): the number, or ValueError when the text is not one. */
  function Float(text: string, parse: string -> Option<real>): (r: Result<real>)
    ensures r.Ok? <==> parse(text).Some?
    ensures r.Ok? ==> r.value == parse(text).value
  {
    match parse(text)
      case Some(x) => Ok(x)
      case None => Raise(ValueError(text))
  }

  /** A numeric field: KeyError when absent, ValueError when not a number. */
  predicate NumericField(record: Row, key: string, parse: string -> Option<real>)
  {
    key in record && parse(record[key]).Some?
  }

  /**
   * The precipitation in mm/hr: the in/hr field times 25.4 when the record has
   * it, the mm/hr field otherwise.
   */
  function PrecipitationMm(record: Row, parse: string -> Option<real>): (r: Result<real>)
    ensures PRECIPITATION_IN in record ==>
              (r.Ok? <==> NumericField(record, PRECIPITATION_IN, parse)) &&
              (r.Ok? ==> r.value == parse(record[PRECIPITATION_IN]).value * MM_PER_INCH)
    ensures PRECIPITATION_IN !in record ==>
              (r.Ok? <==> NumericField(record, PRECIPITATION_MM, parse)) &&
              (r.Ok? ==> r.value == parse(record[PRECIPITATION_MM]).value)
  {
    if PRECIPITATION_IN in record then
      var inches :- Float(record[PRECIPITATION_IN], parse);
      Ok(inches * MM_PER_INCH)
    else
      var text :- Field(record, PRECIPITATION_MM);
      Float(text, parse)
  }

  /** Whether the condition holds for a temperature (Celsius) and a precipitation (mm/hr). */
  predicate ConditionHolds(condition: Condition, temp: real, precipitation: real)
  {
    match condition
      case VeryHot => temp > VERY_HOT_THRESHOLD
      case RainyAndCold => temp < COLD_AND_RAINY_TEMP_THRESHOLD && precipitation > RAIN_THRESHOLD_MM
  }

  /**
   * The loop body for one record: its forecast time, its temperature, its
   * precipitation (computed for both conditions), then the condition. The
   * first missing or malformed field raises.
   */
  function EvaluateRecord(record: Row, condition: Condition, parse: string -> Option<real>): (r: Result<Entry>)
    ensures r.Ok? <==>
              TIME in record && NumericField(record, TEMP_CELSIUS, parse) &&
              PrecipitationMm(record, parse).Ok?
    ensures r.Ok? ==> r.value.forecastTime == record[TIME]
    ensures r.Ok? ==>
              (r.value.conditionMet <==>
                 ConditionHolds(condition, parse(record[TEMP_CELSIUS]).value, PrecipitationMm(record, parse).value))
    ensures !(TIME in record) ==> r == Raise(KeyError(TIME))
  {
    var time :- Field(record, TIME);
    var tempText :- Field(record, TEMP_CELSIUS);
    var temp :- Float(tempText, parse);
    var precipitation :- PrecipitationMm(record, parse);
    Ok(Entry(time, ConditionHolds(condition, temp, precipitation)))
  }

  /**
   * The response list for a run of records, in their order, or the first
   * record's exception.
   */
  function Insights(records: seq<Row>, condition: Condition, parse: string -> Option<real>): Result<seq<Entry>>
  {
    if records == [] then Ok([])
    else
      var earlier :- Insights(records[..|records| - 1], condition, parse);
      var entry :- EvaluateRecord(records[|records| - 1], condition, parse);
      Ok(earlier + [entry])
  }

  /**
   * The response list exists exactly when every record evaluates, and then it
   * has one entry per record, in record order.
   */
  lemma {:induction false} InsightsMeans(records: seq<Row>, condition: Condition, parse: string -> Option<real>)
    ensures Insights(records, condition, parse).Ok? <==>
              forall k :: 0 <= k < |records| ==> EvaluateRecord(records[k], condition, parse).Ok?
    ensures Insights(records, condition, parse).Ok? ==>
              |Insights(records, condition, parse).value| == |records| &&
              forall k :: 0 <= k < |records| ==>
                Insights(records, condition, parse).value[k] == EvaluateRecord(records[k], condition, parse).value
  {
    if records != [] {
      var init := records[..|records| - 1];
      InsightsMeans(init, condition, parse);
      assert forall k :: 0 <= k < |init| ==> init[k] == records[k];
    }
  }

  /** Once a record of the prefix fails, the whole run fails. */
  lemma {:induction false} InsightsPrefixFails(records: seq<Row>, i: nat, condition: Condition, parse: string -> Option<real>)
    requires i <= |records|
    requires Insights(records[..i], condition, parse).Raise?
    ensures Insights(records, condition, parse).Raise?
    decreases |records| - i
  {
    if i < |records| {
      assert records[..i + 1][..i] == records[..i];
      InsightsPrefixFails(records, i + 1, condition, parse);
    } else {
      assert records[..i] == records;
    }
  }

  /**
   * weather_insight: validation, the query on the location, and the response
   * list built record by record. A refused query gives 500 "Database query
   * error"; any other exception while building the list gives 500 "Internal
   * server error".
   */
  method WeatherInsight(store: Collection, condition: Option<string>, lat: Option<string>, lon: Option<string>,
                        parse: string -> Option<real>)
    returns (reply: Response<seq<Entry>>)
    ensures ValidateRequest(condition, lat, lon).Failure? ==>
              reply == Failure(400, ValidateRequest(condition, lat, lon).message)
    ensures ValidateRequest(condition, lat, lon).Success? &&
            LocationQuery(lat.value, lon.value) in store.refusedQueries ==>
              reply == Failure(500, QUERY_ERROR)
    ensures ValidateRequest(condition, lat, lon).Success? &&
            LocationQuery(lat.value, lon.value) !in store.refusedQueries ==>
              var found := Select(store.docs, LocationQuery(lat.value, lon.value));
              var insights := Insights(found, ValidateRequest(condition, lat, lon).body.condition, parse);
              (insights.Ok? ==> reply == Success(insights.value)) &&
              (insights.Raise? ==> reply == Failure(500, INTERNAL_ERROR))
  {
    var request := ValidateRequest(condition, lat, lon);
    if request.Failure? {
      return Failure(400, request.message);
    }
    var found := store.Find(LocationQuery(request.body.lat, request.body.lon));
    if found.Raise? {
      return Failure(500, QUERY_ERROR);
    }
    var results := found.value;
    var response: seq<Entry> := [];
    for i := 0 to |results|
      invariant Insights(results[..i], request.body.condition, parse) == Ok(response)
    {
      assert results[..i + 1][..i] == results[..i];
      var entry := EvaluateRecord(results[i], request.body.condition, parse);
      if entry.Raise? {
        InsightsPrefixFails(results, i + 1, request.body.condition, parse);
        return Failure(500, INTERNAL_ERROR);
      }
      response := response + [entry.value];
    }
    assert results[..|results|] == results;
    reply := Success(response);
  }

  /**
   * When a record has the in/hr field, its mm/hr field plays no part: two
   * records that differ only there evaluate alike.
   */
  lemma InchesTakePrecedence(record: Row, mmText: string, condition: Condition, parse: string -> Option<real>)
    requires PRECIPITATION_IN in record
    ensures EvaluateRecord(record[PRECIPITATION_MM := mmText], condition, parse) == EvaluateRecord(record, condition, parse)
  {
    var other := record[PRECIPITATION_MM := mmText];
    assert other[PRECIPITATION_IN] == record[PRECIPITATION_IN];
    assert PrecipitationMm(other, parse) == PrecipitationMm(record, parse);
  }

  /**
   * The two units agree: a record giving v in/hr evaluates like the record
   * that gives v * 25.4 mm/hr instead.
   */
  lemma UnitsAgree(record: Row, mmText: string, condition: Condition, parse: string -> Option<real>)
    requires NumericField(record, PRECIPITATION_IN, parse)
    requires parse(mmText) == Some(parse(record[PRECIPITATION_IN]).value * MM_PER_INCH)
    ensures EvaluateRecord((record - {PRECIPITATION_IN})[PRECIPITATION_MM := mmText], condition, parse) ==
            EvaluateRecord(record, condition, parse)
  {
    var other := (record - {PRECIPITATION_IN})[PRECIPITATION_MM := mmText];
    assert PRECIPITATION_IN !in other && other[PRECIPITATION_MM] == mmText;
    assert TIME in other <==> TIME in record;
    assert TEMP_CELSIUS in other <==> TEMP_CELSIUS in record;
    if TIME in record {
      assert other[TIME] == record[TIME];
    }
    if TEMP_CELSIUS in record {
      assert other[TEMP_CELSIUS] == record[TEMP_CELSIUS];
    }
    assert PrecipitationMm(other, parse) == PrecipitationMm(record, parse);
  }

  /**
   * A record with neither precipitation field makes the request fail under
   * either condition, since the precipitation is computed before the
   * condition is looked at.
   */
  lemma NoPrecipitationFails(record: Row, condition: Condition, parse: string -> Option<real>)
    requires PRECIPITATION_IN !in record && PRECIPITATION_MM !in record
    ensures EvaluateRecord(record, condition, parse).Raise?
  {
  }
}
