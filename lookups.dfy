/** The two aircraft-code lookups. The JSON tables the program loads
    (`iata_aircraft_types.json`, `iata_icao_map.json`) are parameters here. */
module Lookups {
  import opened PyRuntime

  const NotSpecified: string := "Not specified"
  const UnknownType: string := "Error"
  const NoIcao: string := "None"

  /** The App in the Air codes whose names override the IATA table. */
  const AitaOverrides: map<string, string> :=
    map["7S8" := "Boeing 737 (Scimitar Winglets)", "757" := "Boeing 757"]

  /** `{**type_data, **aita_overrides}`: every code of either table, with the
      override's name wherever both have the code. */
  function TypeTable(base: map<string, string>): (t: map<string, string>)
    ensures t.Keys == base.Keys + AitaOverrides.Keys
    ensures forall k :: k in AitaOverrides ==> t[k] == AitaOverrides[k]
    ensures forall k :: k in base && k !in AitaOverrides ==> t[k] == base[k]
  {
    base + AitaOverrides
  }

  /** `get_aircraft_type`: the display name of an aircraft code. */
  function GetAircraftType(code: Option<string>, base: map<string, string>): (name: string)
    // `None` and the text "None" are checked before any table is consulted
    ensures code == None || code == Some("None") ==> name == NotSpecified
    ensures code.Some? && code.value != "None" ==>
      if code.value in AitaOverrides then name == AitaOverrides[code.value]
      else if code.value in base then name == base[code.value]
      else name == UnknownType
  {
    if code == None || code == Some("None") then NotSpecified
    else if code.value in TypeTable(base) then TypeTable(base)[code.value]
    else UnknownType
  }

  /** The name is one of the two sentinels or a name one of the tables gives. */
  lemma AircraftTypeRange(code: Option<string>, base: map<string, string>)
    ensures var name := GetAircraftType(code, base);
      || name == NotSpecified
      || name == UnknownType
      || name in AitaOverrides.Values
      || name in base.Values
  {
    if code.Some? && code.value != "None" {
      var k := code.value;
      if k in AitaOverrides {
        assert AitaOverrides[k] in AitaOverrides.Values;
      } else if k in base {
        assert base[k] in base.Values;
      }
    }
  }

  /** The two override codes resolve to their override names whatever the
      base table says about them. */
  lemma OverridesWin(base: map<string, string>)
    ensures GetAircraftType(Some("7S8"), base) == "Boeing 737 (Scimitar Winglets)"
    ensures GetAircraftType(Some("757"), base) == "Boeing 757"
  {
  }

  /** The empty code is not treated as unspecified: it is looked up like any
      other code, and gives "Error" unless a table has it. */
  lemma EmptyCodeIsLookedUp(base: map<string, string>)
    requires "" !in base
    ensures GetAircraftType(Some(""), base) == UnknownType
  {
  }

  /** `convert_type_iata_to_icao`: the ICAO code of an IATA aircraft code.
      It never fails: a code missing from the table gives the text "None". */
  function ConvertTypeIataToIcao(code: string, icaoMap: map<string, string>): (icao: string)
    ensures code == "None" ==> icao == code
    ensures code != "None" && code in icaoMap ==> icao == icaoMap[code]
    ensures code != "None" && code !in icaoMap ==> icao == NoIcao
  {
    if code == "None" then code
    else if code in icaoMap then icaoMap[code]
    else NoIcao
  }
}
