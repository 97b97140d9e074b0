/**
  Progress estimation from the transcoding engine's log lines. A line that
  contains `time=HH:MM:SS.ss` announces how much of the output has been
  written; the trimmer maps that elapsed time onto the 20-80 % band of its
  progress ring, relative to the length of the selection.
*/
module LogProgress {
  import opened Wrappers
  import opened TimeText

  /** `time=` followed by `DD:DD:DD.DD` is sixteen characters. */
  const MarkerLength: nat := 16

  /** The pattern `time=(\d{2}):(\d{2}):(\d{2}\.\d{2})` matches the line at position `i`. */
  predicate MatchAt(line: string, i: nat) {
    && i + MarkerLength <= |line|
    && line[i..i + 5] == "time="
    && IsDigit(line[i + 5]) && IsDigit(line[i + 6]) && line[i + 7] == ':'
    && IsDigit(line[i + 8]) && IsDigit(line[i + 9]) && line[i + 10] == ':'
    && IsDigit(line[i + 11]) && IsDigit(line[i + 12]) && line[i + 13] == '.'
    && IsDigit(line[i + 14]) && IsDigit(line[i + 15])
  }

  function TwoDigits(line: string, k: nat): (v: nat)
    requires k + 2 <= |line| && IsDigit(line[k]) && IsDigit(line[k + 1])
    ensures v < 100
  {
    10 * DigitValue(line[k]) + DigitValue(line[k + 1])
  }

  /**
    The elapsed time a match at `i` announces, in centiseconds:
    hours * 3600 + minutes * 60 + seconds, the seconds carrying two decimals.
  */
  function CentisecondsAt(line: string, i: nat): nat
    requires MatchAt(line, i)
  {
    (TwoDigits(line, i + 5) * 3600 + TwoDigits(line, i + 8) * 60 + TwoDigits(line, i + 11)) * 100
      + TwoDigits(line, i + 14)
  }

  /** The leftmost match at or after `from`, which is the one `String.prototype.match` reports. */
  function FindMarker(line: string, from: nat): (r: Option<nat>)
    ensures r.Some? ==> from <= r.value && MatchAt(line, r.value)
    ensures r.Some? ==> forall k :: from <= k < r.value ==> !MatchAt(line, k)
    ensures r.None? ==> forall k: nat :: from <= k ==> !MatchAt(line, k)
    decreases |line| - from
  {
    if from + MarkerLength > |line| then None
    else if MatchAt(line, from) then Some(from)
    else FindMarker(line, from + 1)
  }

  /** The elapsed time announced by a log line, if it carries a marker. */
  function ElapsedCentiseconds(line: string): (r: Option<nat>)
    ensures r.None? <==> forall k: nat :: !MatchAt(line, k)
    ensures r.Some? ==> exists k: nat :: && MatchAt(line, k)
                                         && (forall j :: 0 <= j < k ==> !MatchAt(line, j))
                                         && r.value == CentisecondsAt(line, k)
  {
    match FindMarker(line, 0)
    case None => None
    case Some(i) => Some(CentisecondsAt(line, i))
  }

  function Min(a: real, b: real): real {
    if a <= b then a else b
  }

  /** Dividing by a positive number: the quotient is not negative, and it is at least 1 exactly when `a >= b`. */
  lemma QuotientAtLeastOne(a: real, b: real)
    requires a >= 0.0 && b > 0.0
    ensures 0.0 <= a / b && (a / b >= 1.0 <==> a >= b)
  {
    assert a / b * b == a;
  }

  /** Dividing a non-negative number by a negative one gives a quotient of at most 0, below 0 for a positive dividend. */
  lemma QuotientOfNegative(a: real, b: real)
    requires a >= 0.0 && b < 0.0
    ensures a / b <= 0.0 && (a > 0.0 ==> a / b < 0.0)
  {
    assert a / b * b == a;
  }

  /** Dividing by a positive number keeps the order. */
  lemma DivideMonotone(a: real, b: real, c: real)
    requires a <= b && c > 0.0
    ensures a / c <= b / c
  {
    assert b / c - a / c == (b - a) / c;
  }

  /**
    `Math.min(elapsed / total * 60 + 20, 80)` for an elapsed time of `cs`
    centiseconds and a selection of `total` seconds. At a zero-length
    selection the division gives +Infinity for a positive elapsed time,
    clamped to 80; for 0 / 0 it gives NaN, which has no value here (`None`).
    A selection whose end lies before its start has a negative length;
    the quotient is then negative and the progress falls below 20.
  */
  function ProgressAt(cs: nat, total: real): (r: Option<real>)
    ensures r.Some? ==> r.value <= 80.0
    ensures total != 0.0 || cs > 0 ==> r.Some?
    ensures total == 0.0 && cs > 0 ==> r == Some(80.0)
    ensures total == 0.0 && cs == 0 ==> r == None
    ensures total > 0.0 ==> r.Some? && 20.0 <= r.value
    ensures total > 0.0 && cs as real / 100.0 >= total ==> r == Some(80.0)
    ensures total > 0.0 && cs as real / 100.0 < total ==> r == Some(cs as real / 100.0 / total * 60.0 + 20.0) && r.value < 80.0
    ensures total < 0.0 ==> r == Some(cs as real / 100.0 / total * 60.0 + 20.0) && r.value <= 20.0
    ensures total < 0.0 && cs > 0 ==> r.value < 20.0
  {
    var elapsed := cs as real / 100.0;
    if total == 0.0 then
      if cs > 0 then Some(80.0) else None
    else
      var x := elapsed / total * 60.0 + 20.0;
      if total > 0.0 then
        QuotientAtLeastOne(elapsed, total);
        Some(Min(x, 80.0))
      else
        QuotientOfNegative(elapsed, total);
        Some(Min(x, 80.0))
  }

  /** What the log listener sets the progress to for one line; `None` leaves it alone. */
  function LogUpdate(line: string, total: real): Option<real> {
    match ElapsedCentiseconds(line)
    case None => None
    case Some(cs) => ProgressAt(cs, total)
  }

  /** The progress after the listener has seen `lines` in order, starting from `p`. */
  function ProgressAfterLines(p: real, lines: seq<string>, total: real): real
    decreases |lines|
  {
    if |lines| == 0 then p
    else
      var next := match LogUpdate(lines[0], total) case Some(q) => q case None => p;
      ProgressAfterLines(next, lines[1..], total)
  }

  // ---------------------------------------------------------------------------
  // Properties

  /** A line without the marker changes nothing. */
  lemma UnmatchedLineIgnored(line: string, total: real)
    requires forall k: nat :: !MatchAt(line, k)
    ensures LogUpdate(line, total) == None
  {
  }

  /** Over a selection of positive length a later elapsed time never gives a lower progress. */
  lemma ProgressMonotone(c1: nat, c2: nat, total: real)
    requires total > 0.0 && c1 <= c2
    ensures ProgressAt(c1, total).value <= ProgressAt(c2, total).value
  {
    DivideMonotone(c1 as real / 100.0, c2 as real / 100.0, total);
  }

  /** Any run of log lines keeps a progress of at most 80, whatever the lines say. */
  lemma {:induction false} LinesNeverExceed80(p: real, lines: seq<string>, total: real)
    requires p <= 80.0
    ensures ProgressAfterLines(p, lines, total) <= 80.0
    decreases |lines|
  {
    if |lines| > 0 {
      var next := match LogUpdate(lines[0], total) case Some(q) => q case None => p;
      LinesNeverExceed80(next, lines[1..], total);
    }
  }

  /** Over a selection of positive length, any run of log lines keeps a progress of at least 20. */
  lemma {:induction false} LinesStayAbove20(p: real, lines: seq<string>, total: real)
    requires total > 0.0 && p >= 20.0
    ensures ProgressAfterLines(p, lines, total) >= 20.0
    decreases |lines|
  {
    if |lines| > 0 {
      var next := match LogUpdate(lines[0], total) case Some(q) => q case None => p;
      LinesStayAbove20(next, lines[1..], total);
    }
  }

  /** Unmatched lines may be interleaved anywhere: dropping one does not change the outcome. */
  lemma {:induction false} UnmatchedLineTransparent(p: real, before: seq<string>, line: string, after: seq<string>, total: real)
    requires forall k: nat :: !MatchAt(line, k)
    ensures ProgressAfterLines(p, before + [line] + after, total) == ProgressAfterLines(p, before + after, total)
    decreases |before|
  {
    if |before| == 0 {
      assert before + [line] + after == [line] + after;
      assert ([line] + after)[1..] == after;
      assert before + after == after;
    } else {
      var next := match LogUpdate(before[0], total) case Some(q) => q case None => p;
      assert (before + [line] + after)[1..] == before[1..] + [line] + after;
      assert (before + after)[1..] == before[1..] + after;
      UnmatchedLineTransparent(next, before[1..], line, after, total);
    }
  }

  /** A selection of 10 s: 5 s elapsed gives 50 %, 12 s (an overshoot) is clamped to 80 %. */
  lemma ProgressExamples()
    ensures ProgressAt(500, 10.0) == Some(50.0)
    ensures ProgressAt(1200, 10.0) == Some(80.0)
  {
  }

  /**
    On a selection whose end was typed before its start, a line announcing
    any positive elapsed time sets the progress below 20, out of the band.
  */
  lemma InvertedSelectionLeavesBand(line: string, total: real, cs: nat)
    requires total < 0.0 && ElapsedCentiseconds(line) == Some(cs) && cs > 0
    ensures LogUpdate(line, total).Some? && LogUpdate(line, total).value < 20.0
  {
  }

  /** A selection of -3 s (end 3 s before the start): 1.5 s elapsed gives -10 %. */
  lemma InvertedProgressExample()
    ensures ProgressAt(150, -3.0) == Some(-10.0)
  {
  }

  /**
    Over a selection of positive length, once the progress stands at the
    value for `c` centiseconds, a run of lines whose markers all announce at
    least `c` never brings it lower.
  */
  lemma {:induction false} LinesNeverFallBelow(p: real, c: nat, lines: seq<string>, total: real)
    requires total > 0.0 && p >= ProgressAt(c, total).value
    requires forall i :: 0 <= i < |lines| && ElapsedCentiseconds(lines[i]).Some? ==> ElapsedCentiseconds(lines[i]).value >= c
    ensures ProgressAfterLines(p, lines, total) >= ProgressAt(c, total).value
    decreases |lines|
  {
    if |lines| > 0 {
      var next := match LogUpdate(lines[0], total) case Some(q) => q case None => p;
      var announced := ElapsedCentiseconds(lines[0]);
      if announced.Some? {
        ProgressMonotone(c, announced.value, total);
      }
      assert next >= ProgressAt(c, total).value;
      assert forall i :: 0 <= i < |lines[1..]| ==> lines[1..][i] == lines[i + 1];
      LinesNeverFallBelow(next, c, lines[1..], total);
    }
  }

  /** "time=00:01:05.25" announces 1 min 5.25 s; on a 10 s selection that line reads as the clamp, 80 %. */
  lemma LineExample()
    ensures ElapsedCentiseconds("time=00:01:05.25") == Some(6525)
    ensures LogUpdate("time=00:01:05.25", 10.0) == Some(80.0)
  {
    var line := "time=00:01:05.25";
    assert line[0..5] == "time=";
    assert MatchAt(line, 0);
  }

  /** "time=00:00:01.50" on a 3 s selection: half of it written, half-way through the band, 50 %. */
  lemma HalfwayLineExample()
    ensures LogUpdate("time=00:00:01.50", 3.0) == Some(50.0)
  {
    var line := "time=00:00:01.50";
    assert line[0..5] == "time=";
    assert MatchAt(line, 0);
    assert ElapsedCentiseconds(line) == Some(150);
  }
}
