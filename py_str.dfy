/** Python's `str.split(sep)` with a one-character separator and Python's
    slices `s[lo:hi]` and `s[lo:]` with non-negative bounds. */
module PyStr {

  /** Number of occurrences of `c` in `s`. */
  function Occurrences(s: string, c: char): nat
  {
    if |s| == 0 then 0
    else (if s[0] == c then 1 else 0) + Occurrences(s[1..], c)
  }

  lemma {:induction false} OccurrencesZero(s: string, c: char)
    ensures Occurrences(s, c) == 0 <==> c !in s
  {
    if |s| > 0 {
      OccurrencesZero(s[1..], c);
      assert s == [s[0]] + s[1..];
    }
  }

  /** `s.split(sep)`: the pieces of `s` between occurrences of `sep`. Python
      always returns at least one piece (`"".split(";") == [""]`), and two
      adjacent separators give an empty piece. */
  function Split(s: string, sep: char): (pieces: seq<string>)
    ensures |pieces| >= 1
    decreases |s|
  {
    if |s| == 0 then [""]
    else
      var rest := Split(s[1..], sep);
      if s[0] == sep then [""] + rest
      else [[s[0]] + rest[0]] + rest[1..]
  }

  /** `sep.join(pieces)`, the inverse of `Split`. */
  function Join(pieces: seq<string>, sep: char): string
    requires |pieces| >= 1
  {
    if |pieces| == 1 then pieces[0]
    else pieces[0] + [sep] + Join(pieces[1..], sep)
  }

  /** No piece of a split contains the separator. */
  lemma {:induction false} SplitPiecesFree(s: string, sep: char)
    ensures forall k :: 0 <= k < |Split(s, sep)| ==> sep !in Split(s, sep)[k]
  {
    if |s| > 0 {
      SplitPiecesFree(s[1..], sep);
      var rest := Split(s[1..], sep);
      if s[0] != sep {
        assert sep !in rest[0];
        var pieces := Split(s, sep);
        forall k | 0 <= k < |pieces| ensures sep !in pieces[k] {
          if k > 0 { assert pieces[k] == rest[k]; }
        }
      }
    }
  }

  /** Joining the pieces with the separator gives back the string. */
  lemma {:induction false} JoinSplit(s: string, sep: char)
    ensures Join(Split(s, sep), sep) == s
  {
    if |s| > 0 {
      JoinSplit(s[1..], sep);
      var rest := Split(s[1..], sep);
      if s[0] == sep {
        assert ([""] + rest)[1..] == rest;
      } else {
        var pieces := [[s[0]] + rest[0]] + rest[1..];
        if |rest| == 1 {
          assert pieces[0] == [s[0]] + s[1..];
        } else {
          assert pieces[1..] == rest[1..];
          assert Join(rest, sep) == rest[0] + [sep] + Join(rest[1..], sep);
        }
        assert s == [s[0]] + s[1..];
      }
    }
  }

  /** Splitting a join of separator-free pieces gives back the pieces. */
  lemma {:induction false} SplitJoin(pieces: seq<string>, sep: char)
    requires |pieces| >= 1
    requires forall k :: 0 <= k < |pieces| ==> sep !in pieces[k]
    ensures Split(Join(pieces, sep), sep) == pieces
    decreases |Join(pieces, sep)|, |pieces[0]|
  {
    var s := Join(pieces, sep);
    var p := pieces[0];
    if |p| == 0 {
      if |pieces| > 1 {
        assert s == [sep] + Join(pieces[1..], sep);
        assert s[1..] == Join(pieces[1..], sep);
        SplitJoin(pieces[1..], sep);
        assert pieces == [""] + pieces[1..];
      }
    } else {
      var shorter := [p[1..]] + pieces[1..];
      assert shorter[1..] == pieces[1..];
      assert forall k :: 0 <= k < |shorter| ==> sep !in shorter[k] by {
        forall k | 0 <= k < |shorter| ensures sep !in shorter[k] {
          if k == 0 { assert forall c :: c in p[1..] ==> c in p; }
          else { assert shorter[k] == pieces[k]; }
        }
      }
      assert s == [p[0]] + Join(shorter, sep) by {
        assert p == [p[0]] + p[1..];
      }
      assert s[1..] == Join(shorter, sep);
      assert p[0] in p;
      SplitJoin(shorter, sep);
      assert [p[0]] + p[1..] == p;
      assert pieces == [p] + pieces[1..];
    }
  }

  /** `s.split(sep)` has one more piece than `s` has separators. */
  lemma {:induction false} SplitCount(s: string, sep: char)
    ensures |Split(s, sep)| == Occurrences(s, sep) + 1
  {
    if |s| > 0 {
      SplitCount(s[1..], sep);
    }
  }

  /** `s.split(sep)[0]` is the text before the first separator, or all of `s`
      when there is none. */
  lemma {:induction false} SplitHead(s: string, sep: char)
    ensures var p := Split(s, sep)[0];
      && p <= s
      && sep !in p
      && (|p| == |s| || s[|p|] == sep)
      && (|p| == |s| <==> sep !in s)
  {
    if |s| > 0 {
      SplitHead(s[1..], sep);
      var rest := Split(s[1..], sep);
      if s[0] != sep {
        var p := [s[0]] + rest[0];
        assert Split(s, sep)[0] == p;
        assert s == [s[0]] + s[1..];
        assert forall i :: 0 <= i < |p| ==> p[i] == s[i] by {
          forall i | 0 <= i < |p| ensures p[i] == s[i] {
            if i > 0 { assert p[i] == rest[0][i - 1]; }
          }
        }
      }
    }
  }

  /** `s.split(sep)[1]`, when there is a separator, is the text between the
      first and the second separator (or the end of `s`). */
  lemma SplitSecond(s: string, sep: char)
    requires sep in s
    ensures |Split(s, sep)| >= 2
    ensures var p0, p1 := Split(s, sep)[0], Split(s, sep)[1];
      && |p0| + 1 + |p1| <= |s|
      && s[..|p0|] == p0
      && s[|p0|] == sep
      && s[|p0| + 1..|p0| + 1 + |p1|] == p1
      && sep !in p1
      && (|p0| + 1 + |p1| == |s| || s[|p0| + 1 + |p1|] == sep)
  {
    var pieces := Split(s, sep);
    SplitCount(s, sep);
    OccurrencesZero(s, sep);
    JoinSplit(s, sep);
    SplitPiecesFree(s, sep);
    var p0, p1 := pieces[0], pieces[1];
    var tail := Join(pieces[1..], sep);
    assert s == p0 + [sep] + tail;
    assert sep !in p1;
    if |pieces| == 2 {
      assert tail == p1;
    } else {
      assert pieces[1..][1..] == pieces[2..];
      assert tail == p1 + [sep] + Join(pieces[2..], sep);
      assert s[|p0| + 1 + |p1|] == tail[|p1|];
    }
    assert s[|p0| + 1..] == tail;
    assert s[|p0| + 1..|p0| + 1 + |p1|] == tail[..|p1|];
  }

  /** Python's `s[lo:hi]` for non-negative bounds: it never fails; bounds past
      the end are clipped, and an empty range gives the empty string. */
  function Slice(s: string, lo: nat, hi: nat): (r: string)
    ensures |r| == if hi <= lo || |s| <= lo then 0 else (if hi < |s| then hi else |s|) - lo
    ensures forall k :: 0 <= k < |r| ==> r[k] == s[lo + k]
  {
    var stop := if hi < |s| then hi else |s|;
    var start := if lo < stop then lo else stop;
    s[start..stop]
  }

  /** Python's `s[lo:]` for a non-negative bound: never fails; empty when
      `lo` is at or past the end. */
  function SliceFrom(s: string, lo: nat): (r: string)
    ensures |r| == if |s| <= lo then 0 else |s| - lo
    ensures forall k :: 0 <= k < |r| ==> r[k] == s[lo + k]
  {
    if |s| <= lo then "" else s[lo..]
  }
}
