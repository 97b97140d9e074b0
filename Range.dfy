/**
  The selection range: `trimValues`, two percentages of the video's
  duration (index 0 the start bound, index 1 the end bound), the absolute
  times they stand for, the edit made by typing into a time box, and the
  rule that keeps the preview cursor inside the selection.
*/
module Range {
  import opened Wrappers
  import TimeText

  /** `trimValues[0] / 100 * duration`. */
  function StartTime(trim: seq<real>, duration: real): real
    requires |trim| == 2
  {
    trim[0] / 100.0 * duration
  }

  /** `trimValues[1] / 100 * duration`. */
  function EndTime(trim: seq<real>, duration: real): real
    requires |trim| == 2
  {
    trim[1] / 100.0 * duration
  }

  predicate InPercentRange(trim: seq<real>) {
    |trim| == 2 && 0.0 <= trim[0] <= 100.0 && 0.0 <= trim[1] <= 100.0
  }

  /** A time within the duration is a share of at most 100 %. */
  lemma ShareOfDuration(t: real, duration: real)
    requires 0.0 <= t <= duration && duration > 0.0
    ensures 0.0 <= t / duration * 100.0 <= 100.0
  {
    var q := t / duration;
    assert q * duration == t;
  }

  // ---------------------------------------------------------------------------
  // Typing a time into the start or end box

  /**
    The typed text as a time the model accepts: it parses, and as seconds
    it lies in `[0, duration]`. At duration 0 the source would store
    `0 / 0`; that case is refused here.
  */
  function AcceptedSeconds(text: string, duration: real): Option<real> {
    match TimeText.Parse(text)
    case None => None
    case Some(ms) =>
      var t := ms as real / 1000.0;
      if 0.0 <= t <= duration && duration != 0.0 then Some(t) else None
  }

  /** `handleTimeInputChange(index, text)`: the bound at `index` becomes the typed time as a percentage. */
  function EditBound(trim: seq<real>, duration: real, index: nat, text: string): (r: seq<real>)
    requires |trim| == 2 && index < 2
    ensures |r| == 2 && r[1 - index] == trim[1 - index]
  {
    match AcceptedSeconds(text, duration)
    case None => trim
    case Some(t) => trim[index := t / duration * 100.0]
  }

  /** Text that reads as a time within the video is accepted as that many seconds. */
  lemma Accepted(text: string, duration: real, ms: nat)
    requires TimeText.Parse(text) == Some(ms) && duration > 0.0 && ms as real / 1000.0 <= duration
    ensures AcceptedSeconds(text, duration) == Some(ms as real / 1000.0)
  {
    assert 0.0 <= ms as real / 1000.0;
  }

  /** A typed time in range replaces exactly the edited bound, by that time's share of the duration. */
  lemma EditAccepted(trim: seq<real>, duration: real, index: nat, text: string, ms: nat)
    requires |trim| == 2 && index < 2
    requires TimeText.Parse(text) == Some(ms) && duration > 0.0 && ms as real / 1000.0 <= duration
    ensures var r := EditBound(trim, duration, index, text);
      && r == trim[index := ms as real / 1000.0 / duration * 100.0]
      && r[1 - index] == trim[1 - index]
      && 0.0 <= r[index] <= 100.0
  {
    Accepted(text, duration, ms);
    ShareOfDuration(ms as real / 1000.0, duration);
  }

  /** Unreadable text, or a time past the end of the video, leaves both bounds as they were. */
  lemma EditRejected(trim: seq<real>, duration: real, index: nat, text: string)
    requires |trim| == 2 && index < 2
    requires TimeText.Parse(text).None? || TimeText.Parse(text).value as real / 1000.0 > duration
    ensures EditBound(trim, duration, index, text) == trim
  {
  }

  /** Typing back the text shown for a time within the video sets the bound to that time's percentage. */
  lemma EditWithShownTime(trim: seq<real>, duration: real, index: nat, t: nat)
    requires |trim| == 2 && index < 2
    requires duration > 0.0 && t as real / 1000.0 <= duration
    ensures EditBound(trim, duration, index, TimeText.Format(t)) == trim[index := t as real / 1000.0 / duration * 100.0]
  {
    TimeText.RoundTrip(t);
    EditAccepted(trim, duration, index, TimeText.Format(t), t);
  }

  /** Editing keeps both bounds within 0-100 %. */
  lemma EditKeepsPercentRange(trim: seq<real>, duration: real, index: nat, text: string)
    requires InPercentRange(trim) && index < 2
    ensures InPercentRange(EditBound(trim, duration, index, text))
  {
    match TimeText.Parse(text)
    case None =>
    case Some(ms) =>
      if duration > 0.0 && ms as real / 1000.0 <= duration {
        EditAccepted(trim, duration, index, text, ms);
      }
  }

  /** A share of the duration, turned back into seconds, is the time it came from. */
  lemma ShareInverse(t: real, duration: real, p: real)
    requires duration != 0.0 && p == t / duration * 100.0
    ensures p / 100.0 * duration == t
  {
    var q := t / duration;
    assert q * duration == t;
  }

  /** A bound within 0-100 % stands for a time within the duration. */
  lemma BoundWithinDuration(p: real, duration: real)
    requires 0.0 <= p <= 100.0 && duration >= 0.0
    ensures 0.0 <= p / 100.0 * duration <= duration
  {
    var q := p / 100.0;
    assert 0.0 <= q <= 1.0;
  }

  /** A time before the start of the selection lies within the video. */
  lemma BeforeStartIsWithin(trim: seq<real>, duration: real, x: real)
    requires InPercentRange(trim) && duration > 0.0 && x < StartTime(trim, duration)
    ensures x <= duration
  {
    BoundWithinDuration(trim[0], duration);
  }

  /**
    The edit does not keep the start before the end: typing an end time
    that lies before the start is accepted, and the selection then ends
    before it starts.
  */
  lemma EditMayInvertRange(trim: seq<real>, duration: real, text: string, ms: nat)
    requires InPercentRange(trim) && duration > 0.0
    requires TimeText.Parse(text) == Some(ms) && ms as real / 1000.0 < StartTime(trim, duration)
    ensures var r := EditBound(trim, duration, 1, text);
      r[0] == trim[0] && EndTime(r, duration) == ms as real / 1000.0 && EndTime(r, duration) < StartTime(r, duration)
  {
    var x := ms as real / 1000.0;
    BeforeStartIsWithin(trim, duration, x);
    EditAccepted(trim, duration, 1, text, ms);
    var r := EditBound(trim, duration, 1, text);
    EndMovedBeforeStart(trim, r, duration, x);
  }

  /** An end bound set to the share of a time before the start leaves the selection inverted. */
  lemma EndMovedBeforeStart(trim: seq<real>, r: seq<real>, duration: real, x: real)
    requires |trim| == 2 && |r| == 2 && duration != 0.0
    requires r[0] == trim[0] && r[1] == x / duration * 100.0 && x < StartTime(trim, duration)
    ensures EndTime(r, duration) == x && EndTime(r, duration) < StartTime(r, duration)
  {
    ShareInverse(x, duration, r[1]);
  }

  // ---------------------------------------------------------------------------
  // The preview clamp

  /**
    `handleTimeUpdate`: while previewing, a position before the start or
    after the end of the selection sends the cursor back to the start.
    `Some(start)` is the commanded jump; `None` means no jump.
  */
  function PreviewJump(previewing: bool, trim: seq<real>, duration: real, t: real): (r: Option<real>)
    requires |trim| == 2
  {
    if previewing && (t < StartTime(trim, duration) || t > EndTime(trim, duration))
    then Some(StartTime(trim, duration))
    else None
  }

  /** Where the cursor is after a time update at `t` has been handled. */
  function CursorAfterUpdate(previewing: bool, trim: seq<real>, duration: real, t: real): real
    requires |trim| == 2
  {
    match PreviewJump(previewing, trim, duration, t)
    case Some(s) => s
    case None => t
  }

  /** While previewing a well-ordered selection, the cursor is inside the selection after every update. */
  lemma ClampKeepsCursorInSelection(trim: seq<real>, duration: real, t: real)
    requires |trim| == 2 && StartTime(trim, duration) <= EndTime(trim, duration)
    ensures StartTime(trim, duration) <= CursorAfterUpdate(true, trim, duration, t) <= EndTime(trim, duration)
    ensures CursorAfterUpdate(true, trim, duration, t) == t
        <==> StartTime(trim, duration) <= t <= EndTime(trim, duration)
  {
  }

  /** The jump target of a well-ordered selection does not itself cause a jump. */
  lemma JumpTargetIsStable(trim: seq<real>, duration: real, t: real)
    requires |trim| == 2 && StartTime(trim, duration) <= EndTime(trim, duration)
    requires PreviewJump(true, trim, duration, t).Some?
    ensures PreviewJump(true, trim, duration, PreviewJump(true, trim, duration, t).value) == None
  {
  }

  /** With the start after the end (which the time boxes allow), every update while previewing jumps. */
  lemma InvertedSelectionAlwaysJumps(trim: seq<real>, duration: real, t: real)
    requires |trim| == 2 && StartTime(trim, duration) > EndTime(trim, duration)
    ensures PreviewJump(true, trim, duration, t) == Some(StartTime(trim, duration))
  {
  }

  /** Outside preview mode the cursor is never moved. */
  lemma NoJumpWhenNotPreviewing(trim: seq<real>, duration: real, t: real)
    requires |trim| == 2
    ensures PreviewJump(false, trim, duration, t) == None
    ensures CursorAfterUpdate(false, trim, duration, t) == t
  {
  }

  /** A 10 s video with the selection 20-50 %, i.e. 2 s to 5 s: updates at 1 s and 6 s jump to 2 s, 3 s does not. */
  lemma PreviewExample()
    ensures PreviewJump(true, [20.0, 50.0], 10.0, 1.0) == Some(2.0)
    ensures PreviewJump(true, [20.0, 50.0], 10.0, 3.0) == None
    ensures PreviewJump(true, [20.0, 50.0], 10.0, 6.0) == Some(2.0)
  {
  }
}
