# App in the Air exporter, modelled in Dafny

`appintheair_exporter.py` turns the text dump of the App in the Air mobile
application into a CSV file. It reads the dump line by line and right-strips
each line. A `parse_next` flag then picks out the lines of the `flights`
section: a line whose text before the first `:` is `flights` sets the flag,
and one whose prefix is `hotels` clears it. Each other line read while the flag is
set is split on `;`, blank lines and other section markers included. Fields 7 to 15 become an ordered record of nine named
entries. With `--additional_fields`, seven derived entries are appended:

- the flight number;
- the aircraft name, from a JSON table with two built-in overrides;
- the ICAO aircraft code, from a second JSON table;
- the local dates and times, cut from the timestamps at fixed offsets.

The records are written with `csv.DictWriter`. The header is the key order of
the first record.

The model follows the program's own structure, one module per component:

- `PyRuntime` (`py_runtime.dfy`): Python's `None` as `Option`, the two
  exceptions the program can raise (`IndexError`, `ValueError`), and a
  `Result` for a computation that may raise.
- `PyStr` (`py_str.dfy`): `str.split` with a one-character separator, and
  the slices `s[lo:hi]` and `s[lo:]`.
- `PyDict` (`py_dict.dfy`): insertion-ordered dictionaries as sequences of
  entries. `Merge` is `{**a, **b}`: existing keys keep their place and new
  keys are appended.
- `Lookups` (`lookups.dfy`): `get_aircraft_type` and
  `convert_type_iata_to_icao`. The two JSON tables are `map` parameters.
- `Timestamps` (`timestamps.dfy`): the unused helpers `timestamp_to_date`
  and `timestamp_to_time`.
- `FlightParser` (`flight_parser.dfy`): `parse_flight_data`.
- `Sections` (`sections.dfy`): the loop of `main` as a method with a `for`
  loop (`ExtractFlights`). It is proved against a fold, `Extraction`, and
  against a declarative description of what a flights section is. The loop
  sees a line only through its prefix and through what the record parser
  returns for its fields. Its state machine is therefore stated over the
  sequence of prefixes and the sequence of parser outcomes. The record
  parser is a function parameter of the method.
- `Exporter` (`exporter.dfy`): the loop with the program's own parser,
  `parse_flight_data` with the run's flag and tables, followed by the
  writer.
- `TableWriter` (`table_writer.dfy`): the header and the `DictWriter` row
  projection.

Three behaviours of the code are easy to misread:

- After a `hotels` line, a later `flights` line turns capture on again. The
  `elif` of line 131 runs whenever the flag is clear (`Sections.ReopensAfterHotels`).
- Only `None` and the text `"None"` give `"Not specified"`. The empty code is
  looked up like any other code, so it normally gives `"Error"`
  (`Lookups.EmptyCodeIsLookedUp`).
- A captured line with fewer than 16 fields raises a plain `IndexError`. The
  error does not say which line caused it: Python's IndexError says only
  "list index out of range". The model also records the index read and the
  list length, to identify which read failed; the same holds for the
  IndexError of `flights[0]` and of `timestamp_to_time`.
  `Exporter.FirstShortLine` proves that the run's error is that of the first
  such captured line.

## Model

| member | source | states |
|---|---|---|
| `PyStr.Split` | appintheair_exporter.py:124-125 | `str.split` with a one-character separator always gives at least one piece; `PyStr.SplitCount`, `PyStr.JoinSplit` and `PyStr.SplitJoin` state how many pieces there are and that joining them gives the string back |
| `PyStr.SplitCount` | appintheair_exporter.py:125 | `line.split(";")` has one more field than the line has semicolons |
| `PyStr.SplitPiecesFree` | appintheair_exporter.py:125 | no field of a split contains the separator |
| `PyStr.JoinSplit` | appintheair_exporter.py:125 | joining the fields with the separator gives back the line |
| `PyStr.SplitJoin` | appintheair_exporter.py:125 | splitting a join of separator-free fields gives back the fields |
| `PyStr.SplitHead` | appintheair_exporter.py:124 | `split(sep)[0]` is a prefix of the string and has no separator; it is the whole string exactly when there is no separator, otherwise a separator follows it |
| `PyStr.SplitSecond` | appintheair_exporter.py:18 | when the string has a separator, `split(sep)[1]` is the separator-free text between the first separator and the next one (or the end) |
| `PyStr.Slice` | appintheair_exporter.py:89-90 | `s[lo:hi]` never fails: its length is the clipped range, and its characters are those of `s` from `lo` |
| `PyStr.SliceFrom` | appintheair_exporter.py:91-92 | `s[lo:]` never fails: empty when `lo` is at or past the end, otherwise the characters of `s` from `lo` |
| `PyDict.Keys` | appintheair_exporter.py:142 | `list(d.keys())`: one key per entry, in insertion order |
| `PyDict.Get` | appintheair_exporter.py:145 | `d.get(key, default)`, as `DictWriter` reads each field: the default when the key is absent; in a dictionary with distinct keys, the value of the entry that has the key |
| `PyDict.Put` | appintheair_exporter.py:95 | setting a new key appends an entry; setting an existing key keeps the key order, and in a dictionary with distinct keys replaces that key's value in place and leaves every other entry unchanged |
| `PyDict.Merge` | appintheair_exporter.py:95 | `{**a, **b}` keeps every key of `a` at its position, so its result is at least as long as `a`; `PyDict.MergeDisjoint` states the whole result when no key is shared |
| `PyDict.MergeDisjoint` | appintheair_exporter.py:95 | `{**a, **b}` with no key in common keeps the entries of `a` in place and appends those of `b` in order |
| `PyDict.ZipKeysValues` | appintheair_exporter.py:142-145 | pairing a record's keys with its values gives back the record |
| `Lookups.TypeTable` | appintheair_exporter.py:31-39 | the merged table has the codes of both tables; wherever both have a code, the override's name wins |
| `Lookups.GetAircraftType` | appintheair_exporter.py:41-46 | `None` and `"None"` give "Not specified" before any lookup; otherwise an override code gives the override name, then a code of the base table gives its name, and any other code gives "Error" |
| `Lookups.AircraftTypeRange` | appintheair_exporter.py:41-46 | the result is one of the two sentinels or a name that one of the tables holds |
| `Lookups.OverridesWin` | appintheair_exporter.py:31-44 | "7S8" and "757" resolve to their override names whatever the base table holds |
| `Lookups.EmptyCodeIsLookedUp` | appintheair_exporter.py:41-46 | the empty code is not special-cased: when no table has it, it gives "Error" |
| `Lookups.ConvertTypeIataToIcao` | appintheair_exporter.py:48-57 | "None" is returned unchanged; a mapped code gives its ICAO code; an unmapped one gives "None"; it never fails |
| `Timestamps.TimestampToDate` | appintheair_exporter.py:13-15 | the result is a prefix of the timestamp with no "T"; it is followed by a "T", or it is the whole timestamp exactly when there is no "T" |
| `Timestamps.TimestampToTime` | appintheair_exporter.py:17-19 | an IndexError exactly when there is no "T"; otherwise the "T"-free text after the first "T", ending at the second "T" or at the end |
| `Timestamps.SlicesAgreeWithSplit` | appintheair_exporter.py:89-92 | on a timestamp with a single "T", at offset 10, the slices `[0:10]` and `[11:]` agree with the two split helpers |
| `FlightParser.RecordKeys` | appintheair_exporter.py:73-95 | the key sequence of a record: the nine core keys, followed by the seven derived keys with enrichment; `FlightParser.RecordKeysDistinct` states that no key repeats |
| `FlightParser.CoreRecord` | appintheair_exporter.py:73-83 | the core dictionary literal; `FlightParser.CoreRecordShape` states its keys and that its values are fields 7 to 15 |
| `FlightParser.Addons` | appintheair_exporter.py:85-93 | the `addons` dictionary literal; `FlightParser.AddonsShape` states its keys and `FlightParser.EnrichedShape` its values |
| `FlightParser.RecordKeysDistinct` | appintheair_exporter.py:73-95 | the record keys are pairwise distinct: 9 of them, or 16 with enrichment |
| `FlightParser.AddonKeysFresh` | appintheair_exporter.py:85-95 | no derived key repeats, and none is a core key, so the merge cannot overwrite a core field |
| `FlightParser.ParseFlightData` | appintheair_exporter.py:59-97 | fails exactly when the split line has fewer than 16 fields, even without enrichment, with the IndexError of the first missing index from 7 on; otherwise the key sequence is the 9 core keys, followed by the 7 derived keys in their fixed order when the flag is set |
| `FlightParser.ParsedValues` | appintheair_exporter.py:73-95 | the core values are fields 7..15 unchanged; the derived values are the airline and flight code joined, the two lookups on field 9, `[0:10]` of the two local timestamps and `[11:]` of them |
| `FlightParser.Enriched` | appintheair_exporter.py:95 | the enriched record is the core entries followed by the derived ones, with the 16 keys in order |
| `FlightParser.EnrichedShape` | appintheair_exporter.py:84-95 | the values at each position of the enriched record |
| `FlightParser.CoreRecordShape` | appintheair_exporter.py:73-83 | the core literal has the nine core keys, with values taken from fields 7 to 15 |
| `FlightParser.AddonsShape` | appintheair_exporter.py:85-93 | the derived literal has the seven derived keys in order |
| `FlightParser.FieldCountIsSemicolons` | appintheair_exporter.py:125 | a line has the 16 fields the parser reads exactly when it has at least 15 semicolons |
| `FlightParser.DerivedFieldBounds` | appintheair_exporter.py:89-92 | a derived date has at most 10 characters and is a prefix of its timestamp; a derived time is empty when its timestamp has at most 11 characters |
| `FlightParser.NoneAircraftCode` | appintheair_exporter.py:87-88 | with aircraft code "None", the name is "Not specified" and the ICAO code is "None", whatever the tables hold |
| `FlightParser.SampleSlices` | appintheair_exporter.py:86-91 | on the sample line, the flight number is "AA123", the date is "2023-01-01" and the time is "07:00:00" |
| `FlightParser.CoreValues` | appintheair_exporter.py:73-83 | without enrichment, the record's values are exactly fields 7 to 15, in order |
| `FlightParser.EnrichedLookups` | appintheair_exporter.py:84-95 | with enrichment, looking up `flight_number` gives fields 7 and 8 joined, `departure_date_local` gives `[0:10]` of field 14 and `departure_time_local` gives `[11:]` of field 14 |
| `FlightParser.SampleEnrichedRecord` | appintheair_exporter.py:84-95 | with enrichment, the sample record maps `flight_number` to "AA123", `departure_date_local` to "2023-01-01" and `departure_time_local` to "07:00:00" |
| `Sections.Prefix` | appintheair_exporter.py:124 | the prefix is the text before the first ':', or the whole line when it has none |
| `Sections.Fields` | appintheair_exporter.py:125 | `line.split(";")`; `PyStr.SplitCount` and `FlightParser.FieldCountIsSemicolons` state how many fields a line has |
| `Sections.FlagAfter` | appintheair_exporter.py:121-133 | the value of `parse_next` after each line, as the loop updates it; `Sections.FlagAfterOpened` states when it is set |
| `Sections.Parsed` | appintheair_exporter.py:123-127 | a line is split and parsed when the flag is set and its prefix is not `hotels`; `Sections.ParsedInSection` states which lines these are |
| `Sections.Extraction` | appintheair_exporter.py:120-127 | the fold of the loop: the `flights` list or the exception of the first failing record; `Sections.ExtractionSucceeds`, `Sections.ExtractionRecords` and `Sections.ExtractionFails` state its outcome |
| `Sections.FlagAfterOpened` | appintheair_exporter.py:121-133 | `parse_next` is set exactly when some line seen so far has prefix `flights` and no later line seen so far has prefix `hotels` |
| `Sections.ParsedInSection` | appintheair_exporter.py:122-133 | a line is parsed exactly when an earlier line has prefix `flights` and no line from there up to and including it has prefix `hotels` |
| `Sections.Captured` | appintheair_exporter.py:122-127 | the captured indices are indices of lines seen so far |
| `Sections.CapturedInOrder` | appintheair_exporter.py:122-127 | the captured indices are exactly the parsed lines, strictly increasing (input order) |
| `Sections.MarkersNotParsed` | appintheair_exporter.py:123-133 | a `hotels` line, and the `flights` line that opens a section, are never parsed |
| `Sections.RunsToEnd` | appintheair_exporter.py:122-133 | with no `hotels` line after a `flights` line, every later line is parsed, to the end of the input |
| `Sections.ReopensAfterHotels` | appintheair_exporter.py:128-133 | a `flights` line after a `hotels` line opens a new section |
| `Sections.NoFlightsNoneCaptured` | appintheair_exporter.py:131-133 | with no `flights` line, no line is parsed |
| `Sections.NoneParsedNoneCaptured` | appintheair_exporter.py:120-127 | when no line is parsed, no index is captured |
| `Sections.ExtractionSucceeds` | appintheair_exporter.py:122-127 | the loop finishes exactly when the parser succeeds on every parsed line |
| `Sections.ExtractionRecords` | appintheair_exporter.py:122-127 | a finished loop holds one record per parsed line, in input order: the parser's record for that line |
| `Sections.ExtractionFails` | appintheair_exporter.py:125-126 | an aborted loop raises the error the parser gives on some parsed line, and the parser succeeds on every parsed line before it |
| `Sections.ErrorEndsRun` | appintheair_exporter.py:126 | once a line has raised, later lines do not change the outcome |
| `Sections.ExtractFlights` | appintheair_exporter.py:120-133 | for any record parser, the loop computes the fold `Extraction`; it succeeds exactly when the parser succeeds on every parsed line, and then returns those lines' records in input order; otherwise it raises the parser's error on the first parsed line it fails on |
| `TableWriter.ExtraFields` | appintheair_exporter.py:143-145 | the keys of a record that are not in the header |
| `TableWriter.ProjectRow` | appintheair_exporter.py:145 | `DictWriter` raises a ValueError naming a record's extra keys; otherwise the row holds the record's value for each header field, in header order, or "" where the record has none |
| `TableWriter.ProjectRows` | appintheair_exporter.py:145 | all rows are written, in record order, exactly when every record can be written; otherwise the error is that of the first record that cannot be written |
| `TableWriter.WriteTable` | appintheair_exporter.py:142-145 | no records gives the IndexError of `flights[0]`; otherwise the header is the first record's keys, and the write succeeds exactly when no record has a key outside it, with one row per record; otherwise the error is that of the first record with such a key |
| `TableWriter.WriteReadRoundTrip` | appintheair_exporter.py:142-145 | when every record has the first record's distinct keys, the write succeeds; each row is the record's values, and pairing it with the header gives back the record |
| `Exporter.ParsableLines` | appintheair_exporter.py:124-126 | `parse_flight_data` succeeds on every parsed line exactly when every parsed line has at least 16 fields |
| `Exporter.FirstShortLine` | appintheair_exporter.py:122-126 | when some parsed line has fewer than 16 fields, the loop raises, and its error is the IndexError of the first such line |
| `Exporter.TableOfRun` | appintheair_exporter.py:141-145 | the records of a run give a table exactly when some line was parsed, and IndexError(0, 0) otherwise; the header is the run's key sequence, there is one row per parsed line, and each row read against the header is that line's record |
| `Exporter.RecordsShareKeys` | appintheair_exporter.py:115-127 | every record of a run has the same key sequence, fixed by the enrichment flag |
| `Exporter.Export` | appintheair_exporter.py:117-145 | the run succeeds exactly when every parsed line has 16 fields and at least one line is parsed; with none parsed it raises IndexError(0, 0); when a parsed line is too short it raises the IndexError of the first such line; on success the header is the run's key sequence, there is one row per parsed line, and each row read against the header is that line's record |

## Left out

- Command-line parsing, logging, and the default output file name (lines
  100-115, 135-139, 147): the enrichment flag is a boolean parameter.
- Reading `data.txt` and right-stripping its lines (lines 117-118): the
  model takes the lines already stripped.
- Loading `iata_aircraft_types.json` and `iata_icao_map.json` (lines 36-37,
  52-53): the tables are `map<string, string>` parameters. The program reads
  them again on every call, which does not change any result. JSON values
  other than strings are not modelled.
- CSV quoting and escaping (lines 143-145): a table is its header and its
  rows of strings.
- The output file is opened and truncated (line 141) before `flights[0]`
  can fail (line 142), so a failed run still leaves an empty file. This is
  an I/O effect and is not modelled.
- `TableWriter.ProjectRow`: the ValueError's message is modelled as the set
  of extra keys, not as Python's text, which lists them in an unspecified
  order. Within a run the error cannot occur, because every record has the
  header's keys (`Exporter.RecordsShareKeys`).
- `PyDict.Merge`: its own contract states only that the keys of `a` keep
  their places. The full result is stated for the disjoint case only
  (`PyDict.MergeDisjoint`), which is the case of line 95. The overlapping
  merge of line 39 is stated by `Lookups.TypeTable`.
- `PyStr.Slice`, `PyStr.SliceFrom`: only non-negative bounds are modelled,
  the only ones the program uses.
- `Lookups.GetAircraftType` takes an optional code, to model the `None`
  check of line 41. The program itself always passes a string field.
