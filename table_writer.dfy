/** The table `main` writes with `csv.DictWriter`: a header taken from the
    first record's keys, then one row per record. Quoting and escaping are
    the serialiser's and are not modelled; a table is its header and rows. */
module TableWriter {
  import opened PyRuntime
  import opened PyDict

  datatype Table = Table(header: seq<string>, rows: seq<seq<string>>)

  /** The keys of `rec` that are not field names of the header. */
  function ExtraFields(header: seq<string>, rec: Dict): (extra: set<string>)
    ensures forall k :: k in extra <==> k in Keys(rec) && k !in header
  {
    set k | k in Keys(rec) && k !in header
  }

  /** `DictWriter` turns a record into a row: a ValueError when the record
      has keys outside the header (`extrasaction='raise'`), otherwise the
      record's value for each field name, or "" where it has none
      (`restval=""`). */
  function ProjectRow(header: seq<string>, rec: Dict): (r: Result<seq<string>>)
    ensures r.Err? <==> exists k :: k in Keys(rec) && k !in header
    ensures r.Err? ==> r.error == ValueError(ExtraFields(header, rec))
    ensures r.Ok? ==>
      && |r.value| == |header|
      && forall j :: 0 <= j < |header| ==> r.value[j] == Get(rec, header[j], "")
  {
    var extra := ExtraFields(header, rec);
    if extra != {} then Err(ValueError(extra))
    else Ok(seq(|header|, j requires 0 <= j < |header| => Get(rec, header[j], "")))
  }

  /** `writer.writerows(records)`: the rows in record order, or the error of
      the first record that cannot be written. */
  function ProjectRows(header: seq<string>, records: seq<Dict>): (r: Result<seq<seq<string>>>)
    ensures r.Ok? <==> forall k :: 0 <= k < |records| ==> ProjectRow(header, records[k]).Ok?
    ensures r.Ok? ==>
      && |r.value| == |records|
      && forall k :: 0 <= k < |records| ==> ProjectRow(header, records[k]) == Ok(r.value[k])
    ensures r.Err? ==> exists k ::
      && 0 <= k < |records|
      && (forall l :: 0 <= l < k ==> ProjectRow(header, records[l]).Ok?)
      && ProjectRow(header, records[k]) == Err(r.error)
  {
    if records == [] then Ok([])
    else
      var first := ProjectRow(header, records[0]);
      if first.Err? then Err(first.error)
      else
        var rest := ProjectRows(header, records[1..]);
        if rest.Err? then Err(rest.error) else Ok([first.value] + rest.value)
  }

  /** `fieldnames = flights[0].keys()`, the header row, then the rows. With
      no record, `flights[0]` raises an IndexError. */
  function WriteTable(records: seq<Dict>): (r: Result<Table>)
    ensures records == [] ==> r == Err(IndexError(0, 0))
    ensures records != [] ==>
      (r.Ok? <==> forall k :: 0 <= k < |records| ==> ExtraFields(Keys(records[0]), records[k]) == {})
    ensures r.Ok? ==>
      && r.value.header == Keys(records[0])
      && |r.value.rows| == |records|
      && forall k :: 0 <= k < |records| ==> ProjectRow(r.value.header, records[k]) == Ok(r.value.rows[k])
    ensures records != [] && r.Err? ==> exists k ::
      && 0 <= k < |records|
      && (forall l :: 0 <= l < k ==> ProjectRow(Keys(records[0]), records[l]).Ok?)
      && ProjectRow(Keys(records[0]), records[k]) == Err(r.error)
  {
    if records == [] then Err(IndexError(0, 0))
    else
      var header := Keys(records[0]);
      var rows := ProjectRows(header, records);
      if rows.Err? then Err(rows.error) else Ok(Table(header, rows.value))
  }

  /** Reading the table back: when every record has the first record's keys,
      writing succeeds and pairing the header with each row gives back the
      record, value for value. */
  lemma WriteReadRoundTrip(records: seq<Dict>)
    requires records != []
    requires DistinctKeys(Keys(records[0]))
    requires forall k :: 0 <= k < |records| ==> Keys(records[k]) == Keys(records[0])
    ensures WriteTable(records).Ok?
    ensures var t := WriteTable(records).value;
      forall k :: 0 <= k < |records| ==>
        t.rows[k] == Values(records[k]) && Zip(t.header, t.rows[k]) == records[k]
  {
    var header := Keys(records[0]);
    forall k | 0 <= k < |records| ensures ExtraFields(header, records[k]) == {} {
      assert Keys(records[k]) == header;
    }
    var t := WriteTable(records).value;
    forall k | 0 <= k < |records|
      ensures t.rows[k] == Values(records[k]) && Zip(t.header, t.rows[k]) == records[k]
    {
      var rec := records[k];
      assert Keys(rec) == header;
      forall j | 0 <= j < |header| ensures t.rows[k][j] == Values(rec)[j] {
        assert rec[j].0 == header[j];
      }
      ZipKeysValues(rec);
    }
  }
}
