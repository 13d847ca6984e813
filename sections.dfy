/** The section-extraction loop of `main`: a `parse_next` flag, set by a
    line whose prefix is `flights` and cleared by one whose prefix is
    `hotels`, decides which lines are split on `;` and parsed.

    The loop looks at a line only through its prefix, and at a parsed line
    only through the record (or the exception) the record parser gives for
    it. The state machine is therefore stated over `prefixes`, the prefix of
    every line, and `outcomes`, the parser's result for every line;
    `Prefixes` and `Outcomes` compute both from the lines. */
module Sections {
  import opened PyRuntime
  import opened PyStr
  import opened PyDict

  const FlightsMarker: string := "flights"
  const HotelsMarker: string := "hotels"

  /** `line.split(":")[0]`: the text before the first ':', or the whole line. */
  function Prefix(line: string): (p: string)
    ensures p <= line && ':' !in p
    ensures |p| == |line| || line[|p|] == ':'
  {
    SplitHead(line, ':');
    Split(line, ':')[0]
  }

  /** `line.split(";")`: the positional fields of a flight line. */
  function Fields(line: string): seq<string>
  {
    Split(line, ';')
  }

  /** The prefix of every line. */
  function Prefixes(lines: seq<string>): (ps: seq<string>)
    ensures |ps| == |lines|
    ensures forall i :: 0 <= i < |lines| ==> ps[i] == Prefix(lines[i])
  {
    seq(|lines|, i requires 0 <= i < |lines| => Prefix(lines[i]))
  }

  /** What the record parser gives for the fields of every line, were it
      parsed. */
  function Outcomes(lines: seq<string>, parse: seq<string> -> Result<Dict>): (rs: seq<Result<Dict>>)
    ensures |rs| == |lines|
    ensures forall i :: 0 <= i < |lines| ==> rs[i] == parse(Fields(lines[i]))
  {
    seq(|lines|, i requires 0 <= i < |lines| => parse(Fields(lines[i])))
  }

  /** The value of `parse_next` once the first `n` lines have been seen. */
  function FlagAfter(prefixes: seq<string>, n: nat): bool
    requires n <= |prefixes|
  {
    if n == 0 then false
    else if FlagAfter(prefixes, n - 1) then prefixes[n - 1] != HotelsMarker
    else prefixes[n - 1] == FlightsMarker
  }

  /** Line `i` is split on `;` and handed to the record parser. */
  predicate Parsed(prefixes: seq<string>, i: nat)
    requires i < |prefixes|
  {
    FlagAfter(prefixes, i) && prefixes[i] != HotelsMarker
  }

  /** Some line before `n` has the prefix `flights`, and no line after it
      and before `n` has the prefix `hotels`. */
  predicate OpenedBefore(prefixes: seq<string>, n: nat)
    requires n <= |prefixes|
  {
    exists j :: 0 <= j < n && prefixes[j] == FlightsMarker &&
      forall k :: j < k < n ==> prefixes[k] != HotelsMarker
  }

  /** Line `i` lies in a flights section: some earlier line has the prefix
      `flights` and no line from there up to and including line `i` has the
      prefix `hotels`. */
  predicate InFlightsSection(prefixes: seq<string>, i: nat)
    requires i < |prefixes|
  {
    exists j :: 0 <= j < i && prefixes[j] == FlightsMarker &&
      forall k :: j < k <= i ==> prefixes[k] != HotelsMarker
  }

  /** The flag is set exactly when a `flights` line has been seen and no
      `hotels` line since. */
  lemma {:induction false} FlagAfterOpened(prefixes: seq<string>, n: nat)
    requires n <= |prefixes|
    ensures FlagAfter(prefixes, n) <==> OpenedBefore(prefixes, n)
  {
    if n > 0 {
      FlagAfterOpened(prefixes, n - 1);
      if FlagAfter(prefixes, n - 1) {
        var j :| 0 <= j < n - 1 && prefixes[j] == FlightsMarker &&
          forall k :: j < k < n - 1 ==> prefixes[k] != HotelsMarker;
        if prefixes[n - 1] != HotelsMarker {
          assert forall k :: j < k < n ==> prefixes[k] != HotelsMarker;
        } else {
          forall j' | 0 <= j' < n && prefixes[j'] == FlightsMarker
            ensures exists k :: j' < k < n && prefixes[k] == HotelsMarker
          {
            assert j' != n - 1;
          }
        }
      } else if prefixes[n - 1] != FlightsMarker {
        forall j' | 0 <= j' < n && prefixes[j'] == FlightsMarker
          ensures exists k :: j' < k < n && prefixes[k] == HotelsMarker
        {
          assert exists k :: j' < k < n - 1 && prefixes[k] == HotelsMarker;
        }
      }
    }
  }

  /** The loop parses line `i` exactly when line `i` lies in a flights
      section. */
  lemma ParsedInSection(prefixes: seq<string>, i: nat)
    requires i < |prefixes|
    ensures Parsed(prefixes, i) <==> InFlightsSection(prefixes, i)
  {
    FlagAfterOpened(prefixes, i);
    if InFlightsSection(prefixes, i) {
      var j :| 0 <= j < i && prefixes[j] == FlightsMarker &&
        forall k :: j < k <= i ==> prefixes[k] != HotelsMarker;
      assert forall k :: j < k < i ==> prefixes[k] != HotelsMarker;
    }
  }

  /** The indices of the lines among the first `n` that are parsed. */
  function Captured(prefixes: seq<string>, n: nat): (ix: seq<nat>)
    requires n <= |prefixes|
    ensures forall k :: 0 <= k < |ix| ==> ix[k] < n
  {
    if n == 0 then []
    else Captured(prefixes, n - 1) + (if Parsed(prefixes, n - 1) then [n - 1] else [])
  }

  /** `Captured` lists every parsed line and nothing else, in input order. */
  lemma {:induction false} CapturedInOrder(prefixes: seq<string>, n: nat)
    requires n <= |prefixes|
    ensures var ix := Captured(prefixes, n);
      && (forall k :: 0 <= k < |ix| ==> Parsed(prefixes, ix[k]))
      && (forall k, l :: 0 <= k < l < |ix| ==> ix[k] < ix[l])
      && (forall i :: 0 <= i < n ==> (i in ix <==> Parsed(prefixes, i)))
  {
    if n > 0 {
      CapturedInOrder(prefixes, n - 1);
    }
  }

  /** Marker lines are never parsed: not a `hotels` line, and not the
      `flights` line that opens a section. */
  lemma MarkersNotParsed(prefixes: seq<string>, i: nat)
    requires i < |prefixes|
    requires prefixes[i] == HotelsMarker || (prefixes[i] == FlightsMarker && !FlagAfter(prefixes, i))
    ensures i !in Captured(prefixes, |prefixes|)
  {
    CapturedInOrder(prefixes, |prefixes|);
  }

  /** Without a `hotels` line after it, a `flights` line opens a section
      that runs to the end of the input. */
  lemma RunsToEnd(prefixes: seq<string>, j: nat, i: nat)
    requires j < i < |prefixes|
    requires prefixes[j] == FlightsMarker
    requires forall k :: j < k < |prefixes| ==> prefixes[k] != HotelsMarker
    ensures Parsed(prefixes, i)
  {
    ParsedInSection(prefixes, i);
  }

  /** After a `hotels` line, a later `flights` line opens a new section. */
  lemma ReopensAfterHotels(prefixes: seq<string>, h: nat, j: nat, i: nat)
    requires h < j < i < |prefixes|
    requires prefixes[h] == HotelsMarker && prefixes[j] == FlightsMarker
    requires forall k :: j < k <= i ==> prefixes[k] != HotelsMarker
    ensures Parsed(prefixes, i)
  {
    ParsedInSection(prefixes, i);
  }

  /** Without a `flights` line nothing is parsed. */
  lemma NoFlightsNoneCaptured(prefixes: seq<string>)
    requires forall j :: 0 <= j < |prefixes| ==> prefixes[j] != FlightsMarker
    ensures Captured(prefixes, |prefixes|) == []
  {
    forall i | 0 <= i < |prefixes| ensures !Parsed(prefixes, i) {
      ParsedInSection(prefixes, i);
    }
    NoneParsedNoneCaptured(prefixes, |prefixes|);
  }

  lemma {:induction false} NoneParsedNoneCaptured(prefixes: seq<string>, n: nat)
    requires n <= |prefixes|
    requires forall i :: 0 <= i < n ==> !Parsed(prefixes, i)
    ensures Captured(prefixes, n) == []
  {
    if n > 0 {
      NoneParsedNoneCaptured(prefixes, n - 1);
    }
  }

  /** The parser succeeds on every line among the first `n` that is parsed. */
  predicate AllParsable(prefixes: seq<string>, outcomes: seq<Result<Dict>>, n: nat)
    requires n <= |prefixes| == |outcomes|
  {
    forall i :: 0 <= i < n && Parsed(prefixes, i) ==> outcomes[i].Ok?
  }

  /** `flights` holds, in order, the records of the lines among the first
      `n` that are parsed. */
  predicate RecordsOf(prefixes: seq<string>, outcomes: seq<Result<Dict>>, n: nat, flights: seq<Dict>)
    requires n <= |prefixes| == |outcomes|
  {
    var ix := Captured(prefixes, n);
    && |flights| == |ix|
    && forall k :: 0 <= k < |ix| ==> outcomes[ix[k]] == Ok(flights[k])
  }

  /** What the loop has computed once the first `n` lines have been seen:
      the `flights` list, or the exception that ended the run. */
  function Extraction(prefixes: seq<string>, outcomes: seq<Result<Dict>>, n: nat): Result<seq<Dict>>
    requires n <= |prefixes| == |outcomes|
  {
    if n == 0 then Ok([])
    else
      var before := Extraction(prefixes, outcomes, n - 1);
      if before.Err? || !Parsed(prefixes, n - 1) then before
      else if outcomes[n - 1].Err? then Err(outcomes[n - 1].error)
      else Ok(before.value + [outcomes[n - 1].value])
  }

  /** The run succeeds exactly when the parser succeeds on every parsed line. */
  lemma {:induction false} ExtractionSucceeds(prefixes: seq<string>, outcomes: seq<Result<Dict>>, n: nat)
    requires n <= |prefixes| == |outcomes|
    ensures Extraction(prefixes, outcomes, n).Ok? <==> AllParsable(prefixes, outcomes, n)
  {
    if n > 0 {
      ExtractionSucceeds(prefixes, outcomes, n - 1);
    }
  }

  /** A successful run yields the records of the parsed lines, in input order. */
  lemma {:induction false} ExtractionRecords(prefixes: seq<string>, outcomes: seq<Result<Dict>>, n: nat)
    requires n <= |prefixes| == |outcomes|
    requires Extraction(prefixes, outcomes, n).Ok?
    ensures RecordsOf(prefixes, outcomes, n, Extraction(prefixes, outcomes, n).value)
  {
    if n > 0 {
      ExtractionRecords(prefixes, outcomes, n - 1);
      if Parsed(prefixes, n - 1) {
        assert Captured(prefixes, n) == Captured(prefixes, n - 1) + [n - 1];
      }
    }
  }

  /** A failed run raises the exception of the first parsed line the parser
      fails on: it succeeds on every parsed line before that one. */
  lemma {:induction false} ExtractionFails(prefixes: seq<string>, outcomes: seq<Result<Dict>>, n: nat)
    requires n <= |prefixes| == |outcomes|
    requires Extraction(prefixes, outcomes, n).Err?
    ensures exists i ::
      && 0 <= i < n && Parsed(prefixes, i) && AllParsable(prefixes, outcomes, i)
      && outcomes[i] == Err(Extraction(prefixes, outcomes, n).error)
  {
    if Extraction(prefixes, outcomes, n - 1).Err? {
      ExtractionFails(prefixes, outcomes, n - 1);
    } else {
      ExtractionSucceeds(prefixes, outcomes, n - 1);
      assert Parsed(prefixes, n - 1) && AllParsable(prefixes, outcomes, n - 1);
    }
  }

  /** Once a line has raised, no later line changes the outcome. */
  lemma {:induction false} ErrorEndsRun(prefixes: seq<string>, outcomes: seq<Result<Dict>>, m: nat, n: nat)
    requires m <= n <= |prefixes| == |outcomes|
    requires Extraction(prefixes, outcomes, m).Err?
    ensures Extraction(prefixes, outcomes, n) == Extraction(prefixes, outcomes, m)
    decreases n - m
  {
    if m < n {
      ErrorEndsRun(prefixes, outcomes, m, n - 1);
    }
  }

  /** One more line: how the flag and the outcome of the run change. */
  lemma ExtractionStep(prefixes: seq<string>, outcomes: seq<Result<Dict>>, n: nat)
    requires n < |prefixes| == |outcomes|
    ensures FlagAfter(prefixes, n + 1) ==
      if FlagAfter(prefixes, n) then prefixes[n] != HotelsMarker else prefixes[n] == FlightsMarker
    ensures Extraction(prefixes, outcomes, n).Ok? && Parsed(prefixes, n) ==>
      Extraction(prefixes, outcomes, n + 1) ==
        if outcomes[n].Err? then Err(outcomes[n].error)
        else Ok(Extraction(prefixes, outcomes, n).value + [outcomes[n].value])
    ensures Extraction(prefixes, outcomes, n).Ok? && !Parsed(prefixes, n) ==>
      Extraction(prefixes, outcomes, n + 1) == Extraction(prefixes, outcomes, n)
  {
  }

  /** The section-extraction loop: the records of the parsed lines, in
      input order, or the exception of the first parsed line the record
      parser fails on, which ends the run. The loop is stated for any record
      parser `parse`; the program's own is `parse_flight_data` with the
      run's flag and tables (see module Exporter). */
  method ExtractFlights(lines: seq<string>, parse: seq<string> -> Result<Dict>)
    returns (r: Result<seq<Dict>>)
    ensures r == Extraction(Prefixes(lines), Outcomes(lines, parse), |lines|)
    ensures r.Ok? <==> AllParsable(Prefixes(lines), Outcomes(lines, parse), |lines|)
    ensures r.Ok? ==> RecordsOf(Prefixes(lines), Outcomes(lines, parse), |lines|, r.value)
    ensures r.Err? ==>
      exists i ::
        && 0 <= i < |lines| && Parsed(Prefixes(lines), i)
        && AllParsable(Prefixes(lines), Outcomes(lines, parse), i)
        && parse(Fields(lines[i])) == Err(r.error)
  {
    ghost var ps := Prefixes(lines);
    ghost var outcomes := Outcomes(lines, parse);
    var flights: seq<Dict> := [];
    var parseNext := false;
    for i := 0 to |lines|
      invariant parseNext == FlagAfter(ps, i)
      invariant Extraction(ps, outcomes, i) == Ok(flights)
    {
      ExtractionStep(ps, outcomes, i);
      var prefix := Prefix(lines[i]);
      if parseNext {
        if prefix != HotelsMarker {
          var flightObjects := Fields(lines[i]);
          var data := parse(flightObjects);
          assert data == outcomes[i];
          if data.Err? {
            ErrorEndsRun(ps, outcomes, i + 1, |lines|);
            ExtractionSucceeds(ps, outcomes, |lines|);
            ExtractionFails(ps, outcomes, |lines|);
            return Err(data.error);
          }
          flights := flights + [data.value];
        } else {
          parseNext := false;
        }
      } else if prefix == FlightsMarker {
        parseNext := true;
      }
    }
    ExtractionSucceeds(ps, outcomes, |lines|);
    ExtractionRecords(ps, outcomes, |lines|);
    return Ok(flights);
  }
}
