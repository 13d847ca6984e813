/** `parse_flight_data`: one `;`-split flight line to an ordered record of
    named fields, optionally enriched with seven derived fields. */
module FlightParser {
  import opened PyRuntime
  import opened PyStr
  import opened PyDict
  import opened Lookups

  /** The nine core fields, read from positions 7 to 15 of the line. */
  const CoreKeys: seq<string> := [
    "airline", "flight_code", "aircraft_type", "departure_airport",
    "arrival_airport", "departure_timestamp_gmt", "arrival_timestamp_gmt",
    "departure_timestamp_local", "arrival_timestamp_local"]

  /** The seven derived fields, in the order they are appended. */
  const AddonKeys: seq<string> := [
    "flight_number", "aircraft_type_name", "aircraft_type_icao",
    "departure_date_local", "arrival_date_local",
    "departure_time_local", "arrival_time_local"]

  /** Position of the first core field in the split line. */
  const FirstField: nat := 7
  /** A line needs this many fields: positions 0..15. */
  const FieldCount: nat := 16

  /** The key sequence of every record of a run. */
  function RecordKeys(additionalFields: bool): seq<string>
  {
    if additionalFields then CoreKeys + AddonKeys else CoreKeys
  }

  lemma RecordKeysDistinct(additionalFields: bool)
    ensures DistinctKeys(RecordKeys(additionalFields))
    ensures |RecordKeys(additionalFields)| == if additionalFields then 16 else 9
  {
    var ks := CoreKeys + AddonKeys;
    assert forall i, j :: 0 <= i < j < |ks| ==> ks[i] != ks[j];
  }

  /** No derived key repeats, and none is a core key. */
  lemma AddonKeysFresh()
    ensures DistinctKeys(AddonKeys)
    ensures DisjointKeys(CoreKeys, AddonKeys)
  {
    RecordKeysDistinct(true);
    var ks := CoreKeys + AddonKeys;
    forall i, j | 0 <= i < |CoreKeys| && 0 <= j < |AddonKeys| ensures CoreKeys[i] != AddonKeys[j] {
      assert ks[i] != ks[9 + j];
    }
    assert DistinctKeys(AddonKeys) by {
      forall i, j | 0 <= i < j < |AddonKeys| ensures AddonKeys[i] != AddonKeys[j] {
        assert ks[9 + i] != ks[9 + j];
      }
    }
  }

  /** The core dictionary literal. */
  function CoreRecord(f: seq<string>): Dict
    requires |f| >= FieldCount
  {
    [ ("airline", f[7]),
      ("flight_code", f[8]),
      ("aircraft_type", f[9]),
      ("departure_airport", f[10]),
      ("arrival_airport", f[11]),
      ("departure_timestamp_gmt", f[12]),
      ("arrival_timestamp_gmt", f[13]),
      ("departure_timestamp_local", f[14]),
      ("arrival_timestamp_local", f[15]) ]
  }

  /** The `addons` dictionary literal. */
  function Addons(f: seq<string>, typeBase: map<string, string>, icaoMap: map<string, string>): Dict
    requires |f| >= FieldCount
  {
    [ ("flight_number", f[7] + f[8]),
      ("aircraft_type_name", GetAircraftType(Some(f[9]), typeBase)),
      ("aircraft_type_icao", ConvertTypeIataToIcao(f[9], icaoMap)),
      ("departure_date_local", Slice(f[14], 0, 10)),
      ("arrival_date_local", Slice(f[15], 0, 10)),
      ("departure_time_local", SliceFrom(f[14], 11)),
      ("arrival_time_local", SliceFrom(f[15], 11)) ]
  }

  /** `parse_flight_data(flight_objects, additional_fields)`. The dictionary
      literal reads `flight_objects[7]` first, then 8, 9, ...: on a short
      line the IndexError names the first of these that is missing, even
      when no derived field is asked for. `ParsedValues` states what the
      fields hold. */
  function ParseFlightData(f: seq<string>, additionalFields: bool,
                           typeBase: map<string, string>, icaoMap: map<string, string>): (r: Result<Dict>)
    ensures r.Err? <==> |f| < FieldCount
    ensures r.Err? ==> r.error == IndexError(if |f| <= FirstField then FirstField else |f|, |f|)
    ensures r.Ok? ==> Keys(r.value) == RecordKeys(additionalFields)
  {
    if |f| < FieldCount then
      Err(IndexError(if |f| <= FirstField then FirstField else |f|, |f|))
    else if additionalFields then
      Ok(Enriched(f, typeBase, icaoMap))
    else
      CoreRecordShape(f);
      Ok(CoreRecord(f))
  }

  /** The nine core fields hold positions 7 to 15 of the line, unchanged;
      with enrichment they are followed by the flight number (airline and
      flight code joined), the aircraft name and ICAO code looked up from
      position 9, and the first ten and the twelfth-onward characters of
      the two local timestamps. */
  lemma ParsedValues(f: seq<string>, additionalFields: bool,
                     typeBase: map<string, string>, icaoMap: map<string, string>)
    requires |f| >= FieldCount
    ensures var d := ParseFlightData(f, additionalFields, typeBase, icaoMap).value;
      && (forall j :: 0 <= j < |CoreKeys| ==> d[j].1 == f[FirstField + j])
      && (additionalFields ==>
        && d[9].1 == f[7] + f[8]
        && d[10].1 == GetAircraftType(Some(f[9]), typeBase)
        && d[11].1 == ConvertTypeIataToIcao(f[9], icaoMap)
        && d[12].1 == Slice(f[14], 0, 10)
        && d[13].1 == Slice(f[15], 0, 10)
        && d[14].1 == SliceFrom(f[14], 11)
        && d[15].1 == SliceFrom(f[15], 11))
  {
    CoreRecordShape(f);
    if additionalFields {
      EnrichedShape(f, typeBase, icaoMap);
    }
  }

  /** `{**flight_dict, **addons}`: since no derived key is a core key, the
      derived entries follow the core ones. */
  function Enriched(f: seq<string>, typeBase: map<string, string>, icaoMap: map<string, string>): (d: Dict)
    requires |f| >= FieldCount
    ensures d == CoreRecord(f) + Addons(f, typeBase, icaoMap)
    ensures Keys(d) == CoreKeys + AddonKeys
  {
    var flightDict := CoreRecord(f);
    var addons := Addons(f, typeBase, icaoMap);
    assert Merge(flightDict, addons) == flightDict + addons by {
      CoreRecordShape(f);
      AddonsShape(f, typeBase, icaoMap);
      AddonKeysFresh();
      MergeDisjoint(flightDict, addons);
    }
    assert Keys(flightDict + addons) == CoreKeys + AddonKeys by {
      CoreRecordShape(f);
      AddonsShape(f, typeBase, icaoMap);
      KeysConcat(flightDict, addons);
    }
    Merge(flightDict, addons)
  }

  lemma EnrichedShape(f: seq<string>, typeBase: map<string, string>, icaoMap: map<string, string>)
    requires |f| >= FieldCount
    ensures var d := Enriched(f, typeBase, icaoMap);
      && (forall j :: 0 <= j < |CoreKeys| ==> d[j].1 == f[FirstField + j])
      && d[9].1 == f[7] + f[8]
      && d[10].1 == GetAircraftType(Some(f[9]), typeBase)
      && d[11].1 == ConvertTypeIataToIcao(f[9], icaoMap)
      && d[12].1 == Slice(f[14], 0, 10)
      && d[13].1 == Slice(f[15], 0, 10)
      && d[14].1 == SliceFrom(f[14], 11)
      && d[15].1 == SliceFrom(f[15], 11)
  {
    var d := Enriched(f, typeBase, icaoMap);
    var core, addons := CoreRecord(f), Addons(f, typeBase, icaoMap);
    assert forall j :: 0 <= j < |CoreKeys| ==> d[j] == core[j];
    CoreRecordShape(f);
    assert forall j :: 0 <= j < |AddonKeys| ==> d[9 + j] == addons[j];
  }

  lemma CoreRecordShape(f: seq<string>)
    requires |f| >= FieldCount
    ensures Keys(CoreRecord(f)) == CoreKeys
    ensures forall j :: 0 <= j < |CoreKeys| ==> CoreRecord(f)[j].1 == f[FirstField + j]
  {
  }

  lemma AddonsShape(f: seq<string>, typeBase: map<string, string>, icaoMap: map<string, string>)
    requires |f| >= FieldCount
    ensures Keys(Addons(f, typeBase, icaoMap)) == AddonKeys
  {
  }

  /** Python's `len(line.split(";"))`: a line has at least 16 fields exactly
      when it has at least 15 semicolons. */
  lemma FieldCountIsSemicolons(line: string)
    ensures |Split(line, ';')| >= FieldCount <==> Occurrences(line, ';') >= FieldCount - 1
  {
    SplitCount(line, ';');
  }

  /** The derived dates hold at most ten characters and the derived times are
      empty when the timestamp has at most eleven; neither slice fails. */
  lemma DerivedFieldBounds(f: seq<string>, typeBase: map<string, string>, icaoMap: map<string, string>)
    requires |f| >= FieldCount
    ensures var r := ParseFlightData(f, true, typeBase, icaoMap).value;
      && |r[12].1| <= 10 && |r[13].1| <= 10
      && (|f[14]| <= 11 ==> r[14].1 == "")
      && (|f[15]| <= 11 ==> r[15].1 == "")
      && f[14] == r[12].1 + f[14][|r[12].1|..]
      && f[15] == r[13].1 + f[15][|r[13].1|..]
  {
    var r := ParseFlightData(f, true, typeBase, icaoMap).value;
    ParsedValues(f, true, typeBase, icaoMap);
    assert r[12].1 == f[14][..|r[12].1|];
    assert r[13].1 == f[15][..|r[13].1|];
  }

  /** A record whose aircraft code is "None" has no name and
      keeps "None" as its ICAO code, whatever the tables hold. */
  lemma NoneAircraftCode(f: seq<string>, typeBase: map<string, string>, icaoMap: map<string, string>)
    requires |f| >= FieldCount && f[9] == "None"
    ensures var r := ParseFlightData(f, true, typeBase, icaoMap).value;
      Get(r, "aircraft_type_name", "") == "Not specified" && Get(r, "aircraft_type_icao", "") == "None"
  {
    var r := ParseFlightData(f, true, typeBase, icaoMap).value;
    RecordKeysDistinct(true);
    ParsedValues(f, true, typeBase, icaoMap);
    assert r[10].0 == "aircraft_type_name" && r[11].0 == "aircraft_type_icao";
  }

  /** The fields of a well-formed sample line. */
  const SampleFields: seq<string> := [
    "", "", "", "", "", "", "", "AA", "123", "738", "JFK", "LAX",
    "2023-01-01T12:00:00Z", "2023-01-01T15:00:00Z",
    "2023-01-01T07:00:00", "2023-01-01T10:00:00"]

  lemma SampleSlices()
    ensures SampleFields[7] + SampleFields[8] == "AA123"
    ensures Slice(SampleFields[14], 0, 10) == "2023-01-01"
    ensures SliceFrom(SampleFields[14], 11) == "07:00:00"
  {
    var dep := SampleFields[14];
    assert dep == "2023-01-01T07:00:00";
    assert SliceFrom(dep, 11) == dep[11..];
    assert Slice(dep, 0, 10) == dep[..10];
  }

  /** Without enrichment the record's values are fields 7 to 15, in order. */
  lemma CoreValues(f: seq<string>, typeBase: map<string, string>, icaoMap: map<string, string>)
    requires |f| >= FieldCount
    ensures Values(ParseFlightData(f, false, typeBase, icaoMap).value) == f[FirstField..FieldCount]
  {
    ParsedValues(f, false, typeBase, icaoMap);
  }

  /** With enrichment, the flight number, the local departure date and the
      local departure time are found under their keys. */
  lemma EnrichedLookups(f: seq<string>, typeBase: map<string, string>, icaoMap: map<string, string>)
    requires |f| >= FieldCount
    ensures var r := ParseFlightData(f, true, typeBase, icaoMap).value;
      && Get(r, "flight_number", "") == f[7] + f[8]
      && Get(r, "departure_date_local", "") == Slice(f[14], 0, 10)
      && Get(r, "departure_time_local", "") == SliceFrom(f[14], 11)
  {
    var r := ParseFlightData(f, true, typeBase, icaoMap).value;
    RecordKeysDistinct(true);
    ParsedValues(f, true, typeBase, icaoMap);
    assert r[9].0 == "flight_number" && r[12].0 == "departure_date_local" && r[14].0 == "departure_time_local";
  }

  /** With enrichment, the sample's flight number joins the airline and the
      flight code, and its local date and time are the two halves of the
      local departure timestamp. */
  lemma SampleEnrichedRecord(typeBase: map<string, string>, icaoMap: map<string, string>)
    ensures var r := ParseFlightData(SampleFields, true, typeBase, icaoMap);
      && r.Ok?
      && Get(r.value, "flight_number", "") == "AA123"
      && Get(r.value, "departure_date_local", "") == "2023-01-01"
      && Get(r.value, "departure_time_local", "") == "07:00:00"
  {
    SampleSlices();
    EnrichedLookups(SampleFields, typeBase, icaoMap);
  }
}
