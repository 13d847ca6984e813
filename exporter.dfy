/** The data path of `main`: the section-extraction loop feeds the record
    parser, and its records are written as a table. Argument parsing,
    logging and the files read and written are left out: the lines come in
    already right-stripped, the lookup tables as maps, and the flag as a
    boolean. */
module Exporter {
  import opened PyRuntime
  import opened PyDict
  import opened FlightParser
  import opened Sections
  import opened TableWriter

  /** `parse_flight_data` with the run's flag and lookup tables. */
  function FlightRecordParser(additionalFields: bool, typeBase: map<string, string>,
                              icaoMap: map<string, string>): seq<string> -> Result<Dict>
  {
    f => ParseFlightData(f, additionalFields, typeBase, icaoMap)
  }

  /** Every parsed line among the first `n` has at least sixteen fields. */
  predicate FieldsComplete(lines: seq<string>, n: nat)
    requires n <= |lines|
  {
    forall i :: 0 <= i < n && Parsed(Prefixes(lines), i) ==> |Fields(lines[i])| >= FieldCount
  }

  /** The program's record parser succeeds on every parsed line exactly when
      every parsed line has sixteen fields. */
  lemma ParsableLines(lines: seq<string>, n: nat, additionalFields: bool,
                      typeBase: map<string, string>, icaoMap: map<string, string>)
    requires n <= |lines|
    ensures AllParsable(Prefixes(lines), Outcomes(lines, FlightRecordParser(additionalFields, typeBase, icaoMap)), n)
      <==> FieldsComplete(lines, n)
  {
  }

  /** A run in which some parsed line has fewer than sixteen fields fails,
      with the IndexError of the first such line. */
  lemma FirstShortLine(lines: seq<string>, additionalFields: bool,
                       typeBase: map<string, string>, icaoMap: map<string, string>)
    requires !FieldsComplete(lines, |lines|)
    ensures var run := Extraction(Prefixes(lines), Outcomes(lines, FlightRecordParser(additionalFields, typeBase, icaoMap)), |lines|);
      && run.Err?
      && exists i ::
        && 0 <= i < |lines| && Parsed(Prefixes(lines), i)
        && FieldsComplete(lines, i)
        && |Fields(lines[i])| < FieldCount
        && run.error == IndexError(if |Fields(lines[i])| <= FirstField then FirstField else |Fields(lines[i])|,
                                   |Fields(lines[i])|)
  {
    var ps := Prefixes(lines);
    var outcomes := Outcomes(lines, FlightRecordParser(additionalFields, typeBase, icaoMap));
    ParsableLines(lines, |lines|, additionalFields, typeBase, icaoMap);
    ExtractionSucceeds(ps, outcomes, |lines|);
    ExtractionFails(ps, outcomes, |lines|);
    var i :| && 0 <= i < |lines| && Parsed(ps, i) && AllParsable(ps, outcomes, i)
             && outcomes[i] == Err(Extraction(ps, outcomes, |lines|).error);
    ParsableLines(lines, i, additionalFields, typeBase, icaoMap);
  }

  /** Every record of one run has the same key sequence, since the flag is
      fixed for the run. */
  lemma RecordsShareKeys(lines: seq<string>, flights: seq<Dict>, additionalFields: bool,
                         typeBase: map<string, string>, icaoMap: map<string, string>)
    requires RecordsOf(Prefixes(lines), Outcomes(lines, FlightRecordParser(additionalFields, typeBase, icaoMap)),
                       |lines|, flights)
    ensures forall k :: 0 <= k < |flights| ==> Keys(flights[k]) == RecordKeys(additionalFields)
  {
    var ix := Captured(Prefixes(lines), |lines|);
    forall k | 0 <= k < |flights| ensures Keys(flights[k]) == RecordKeys(additionalFields) {
      assert ParseFlightData(Fields(lines[ix[k]]), additionalFields, typeBase, icaoMap) == Ok(flights[k]);
    }
  }

  /** The table written for the records of a run, when they all have the
      same distinct keys: its header is those keys, and its rows, read back
      against the header, are the records of the parsed lines in input
      order; there is no table when no line was parsed. */
  lemma TableOfRun(prefixes: seq<string>, outcomes: seq<Result<Dict>>, flights: seq<Dict>, keys: seq<string>)
    requires |prefixes| == |outcomes|
    requires RecordsOf(prefixes, outcomes, |prefixes|, flights)
    requires DistinctKeys(keys)
    requires forall k :: 0 <= k < |flights| ==> Keys(flights[k]) == keys
    ensures var r, ix := WriteTable(flights), Captured(prefixes, |prefixes|);
      && (r.Ok? <==> ix != [])
      && (ix == [] ==> r == Err(IndexError(0, 0)))
      && (r.Ok? ==>
            && r.value.header == keys
            && |r.value.rows| == |ix|
            && forall k :: 0 <= k < |ix| ==>
                 && |r.value.rows[k]| == |r.value.header|
                 && outcomes[ix[k]] == Ok(Zip(r.value.header, r.value.rows[k])))
  {
    if flights != [] {
      WriteReadRoundTrip(flights);
    }
  }

  /** The whole run: a table whose header is the record keys of the run and
      whose rows, read back against the header, are the records of the
      parsed lines in input order. The run fails with the IndexError of the
      first parsed line that has fewer than sixteen fields, and with
      IndexError(0, 0) when no line was parsed. */
  method Export(lines: seq<string>, additionalFields: bool,
                typeBase: map<string, string>, icaoMap: map<string, string>)
    returns (r: Result<Table>)
    ensures r.Ok? <==> FieldsComplete(lines, |lines|) && Captured(Prefixes(lines), |lines|) != []
    ensures FieldsComplete(lines, |lines|) && Captured(Prefixes(lines), |lines|) == [] ==> r == Err(IndexError(0, 0))
    ensures r.Err? && !FieldsComplete(lines, |lines|) ==>
      exists i ::
        && 0 <= i < |lines| && Parsed(Prefixes(lines), i)
        && FieldsComplete(lines, i)
        && |Fields(lines[i])| < FieldCount
        && r.error == IndexError(if |Fields(lines[i])| <= FirstField then FirstField else |Fields(lines[i])|,
                                 |Fields(lines[i])|)
    ensures r.Ok? ==>
      var ix := Captured(Prefixes(lines), |lines|);
      && r.value.header == RecordKeys(additionalFields)
      && |r.value.rows| == |ix|
      && forall k :: 0 <= k < |ix| ==>
           && |r.value.rows[k]| == |r.value.header|
           && ParseFlightData(Fields(lines[ix[k]]), additionalFields, typeBase, icaoMap)
                == Ok(Zip(r.value.header, r.value.rows[k]))
  {
    var flights := ExtractFlights(lines, FlightRecordParser(additionalFields, typeBase, icaoMap));
    ParsableLines(lines, |lines|, additionalFields, typeBase, icaoMap);
    if flights.Err? {
      FirstShortLine(lines, additionalFields, typeBase, icaoMap);
      return Err(flights.error);
    }
    RecordsShareKeys(lines, flights.value, additionalFields, typeBase, icaoMap);
    RecordKeysDistinct(additionalFields);
    TableOfRun(Prefixes(lines), Outcomes(lines, FlightRecordParser(additionalFields, typeBase, icaoMap)),
               flights.value, RecordKeys(additionalFields));
    r := WriteTable(flights.value);
  }
}
