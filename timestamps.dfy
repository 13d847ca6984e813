/** The helpers `timestamp_to_date` and `timestamp_to_time`, which split a
    timestamp `DATE"T"TIME` on `"T"`. The exporter itself slices at fixed
    offsets instead; `SlicesAgreeWithSplit` relates the two. */
module Timestamps {
  import opened PyRuntime
  import opened PyStr

  /** `timestamp.split("T")[0]`: the text before the first "T". */
  function TimestampToDate(ts: string): (date: string)
    ensures date <= ts
    ensures 'T' !in date
    ensures |date| == |ts| || ts[|date|] == 'T'
    ensures |date| == |ts| <==> 'T' !in ts
  {
    SplitHead(ts, 'T');
    Split(ts, 'T')[0]
  }

  /** `timestamp.split("T")[1]`: the text between the first and the second
      "T"; an IndexError when there is no "T". */
  function TimestampToTime(ts: string): (r: Result<string>)
    ensures r.Ok? <==> 'T' in ts
    ensures r.Err? ==> r.error == IndexError(1, 1)
    ensures r.Ok? ==>
      var d, t := |TimestampToDate(ts)|, r.value;
      && d + 1 + |t| <= |ts|
      && ts[d] == 'T'
      && ts[d + 1..d + 1 + |t|] == t
      && 'T' !in t
      && (d + 1 + |t| == |ts| || ts[d + 1 + |t|] == 'T')
  {
    var pieces := Split(ts, 'T');
    SplitCount(ts, 'T');
    OccurrencesZero(ts, 'T');
    if |pieces| < 2 then Err(IndexError(1, |pieces|))
    else
      SplitSecond(ts, 'T');
      Ok(pieces[1])
  }

  /** On a well-formed `YYYY-MM-DD"T"HH:MM:SS` timestamp (a "T" at offset 10
      and nowhere else) the exporter's fixed slices `[0:10]` and `[11:]` give
      what the split helpers give. */
  lemma SlicesAgreeWithSplit(ts: string)
    requires |ts| >= 11 && ts[10] == 'T'
    requires forall i :: 0 <= i < |ts| && i != 10 ==> ts[i] != 'T'
    ensures Slice(ts, 0, 10) == TimestampToDate(ts)
    ensures TimestampToTime(ts) == Ok(SliceFrom(ts, 11))
  {
    var d := TimestampToDate(ts);
    assert |d| == 10;
    assert d == ts[..10];
    var t := TimestampToTime(ts).value;
    assert 11 + |t| == |ts|;
    assert t == ts[11..];
  }
}
