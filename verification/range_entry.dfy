/** One row of the range list: `TimeRangeFrame` (main.py), with its two
    entries, its error label and the video duration it checks against held
    as plain strings. */
module RangeEntry {
  import opened PyBuiltins
  import opened TimeText

  const EndNotAfterStart := "End time must be after start time"
  const ExceedsDuration := "Time range exceeds video duration"

  /** The text both entries start with, and the duration the window holds
      until a probe replaces it. */
  const ZeroTime := "00:00:00"

  /** The checks of `get_times`, in order: parse the start, parse the end,
      demand end > start, and, when the frame holds a truthy duration, parse
      it and demand that neither end of the range lies beyond it. On success
      the two texts themselves come back, not their seconds. */
  function CheckRange(startText: string, endText: string, videoDuration: Option<string>)
    : Result<(string, string)>
  {
    var start := ParseTime(startText);
    if start.Err? then Err(start.message)
    else
      var end := ParseTime(endText);
      if end.Err? then Err(end.message)
      else if end.value <= start.value then Err(EndNotAfterStart)
      else if Truthy(videoDuration) then
        var limit := ParseTime(videoDuration.value);
        if limit.Err? then Err(limit.message)
        else if start.value > limit.value || end.value > limit.value then Err(ExceedsDuration)
        else Ok((startText, endText))
      else Ok((startText, endText))
  }

  /** A range is accepted exactly when both texts parse, the end comes
      strictly after the start and, under a truthy duration, the duration
      parses and the end does not pass it (the start test is then implied).
      The accepted value is the pair of original texts. A refusal carries the
      message of its cause: the format message when the start, the end or
      the duration does not parse, the order message when the end is not
      after the start, the duration message when the end passes it. */
  lemma CheckRangeOutcome(startText: string, endText: string, videoDuration: Option<string>)
    ensures var r := CheckRange(startText, endText, videoDuration);
      var s, e := ParseTime(startText), ParseTime(endText);
      && (r.Ok? <==>
            && s.Ok? && e.Ok? && s.value < e.value
            && (Truthy(videoDuration) ==>
                  ParseTime(videoDuration.value).Ok? && e.value <= ParseTime(videoDuration.value).value))
      && (r.Ok? ==> r.value == (startText, endText))
      && (r.Err? ==> r.message in {InvalidFormat, EndNotAfterStart, ExceedsDuration})
      && (s.Err? || e.Err? ==> r == Err(InvalidFormat))
      && (s.Ok? && e.Ok? && e.value <= s.value ==> r == Err(EndNotAfterStart))
      && (s.Ok? && e.Ok? && s.value < e.value && Truthy(videoDuration) ==>
            var limit := ParseTime(videoDuration.value);
            && (limit.Err? ==> r == Err(InvalidFormat))
            && (limit.Ok? && limit.value < e.value ==> r == Err(ExceedsDuration)))
  {
    ParseTimeOutcome(startText);
    ParseTimeOutcome(endText);
    if videoDuration.Some? {
      ParseTimeOutcome(videoDuration.value);
    }
  }

  /** A range whose end is not after its start is refused for that reason,
      whatever the duration: the order test comes before the duration test. */
  lemma OrderCheckedFirst(startText: string, endText: string, videoDuration: Option<string>)
    requires ParseTime(startText).Ok? && ParseTime(endText).Ok?
    requires ParseTime(endText).value <= ParseTime(startText).value
    ensures CheckRange(startText, endText, videoDuration) == Err(EndNotAfterStart)
  {
  }

  /** A range may end exactly at the video's duration. */
  lemma EndAtDurationAccepted(startText: string, endText: string, duration: string)
    requires ParseTime(startText).Ok? && ParseTime(endText).Ok? && ParseTime(duration).Ok?
    requires ParseTime(startText).value < ParseTime(endText).value
    requires ParseTime(endText).value == ParseTime(duration).value
    ensures CheckRange(startText, endText, Some(duration)) == Ok((startText, endText))
  {
    assert duration != "" by {
      ParseTimeOutcome(duration);
      assert Split("") == [""];
    }
  }

  /** Without a duration (`None` or the empty text) only the order is checked. */
  lemma NoDurationOnlyOrder(startText: string, endText: string, videoDuration: Option<string>)
    requires !Truthy(videoDuration)
    ensures CheckRange(startText, endText, videoDuration).Ok? <==>
      ParseTime(startText).Ok? && ParseTime(endText).Ok?
      && ParseTime(startText).value < ParseTime(endText).value
  {
  }

  lemma ZeroTimeParses()
    ensures ParseTime(ZeroTime).Ok? && ParseTime(ZeroTime).value == 0
  {
    DigitsValue('0', '0');
    assert "00" == ['0', '0'];
    ParseTimeAccepts("00", "00", "00");
    assert "00" + ":" + "00" + ":" + "00" == ZeroTime;
  }

  /** "00:00:00" is a truthy string, so while a frame holds it as its
      duration, no range of unsigned times is accepted. (A signed time such
      as "0:0:-1", which `int()` reads and this model does not, would let a
      range ending at 0 through.) */
  lemma ZeroDurationRejectsAll(startText: string, endText: string)
    ensures CheckRange(startText, endText, Some(ZeroTime)).Err?
  {
    ZeroTimeParses();
    CheckRangeOutcome(startText, endText, Some(ZeroTime));
  }

  /** A row of the list. Its position label is fixed when it is created;
      `alive` is false once the row has been destroyed (`winfo_exists`). */
  class TimeRangeFrame {
    const index: nat
    var startText: string
    var endText: string
    var videoDuration: Option<string>
    var errorText: string
    var alive: bool

    /** A new row: both entries read "00:00:00" and the error label is empty. */
    constructor (index: nat, videoDuration: Option<string>)
      ensures this.index == index && this.videoDuration == videoDuration
      ensures startText == ZeroTime && endText == ZeroTime
      ensures errorText == "" && alive
    {
      this.index := index;
      this.videoDuration := videoDuration;
      startText := ZeroTime;
      endText := ZeroTime;
      errorText := "";
      alive := true;
    }

    /** `get_times`: the accepted pair of texts, or `None`; the error label
        is cleared on success and shows the message on failure. Nothing else
        of the row changes. */
    method GetTimes() returns (times: Option<(string, string)>)
      modifies this`errorText
      ensures var r := CheckRange(startText, endText, videoDuration);
        && (r.Ok? ==> times == Some(r.value) && errorText == "")
        && (r.Err? ==> times == None && errorText == r.message)
    {
      var r := CheckRange(startText, endText, videoDuration);
      if r.Ok? {
        errorText := "";
        times := Some(r.value);
      } else {
        errorText := r.message;
        times := None;
      }
    }

    /** `destroy`. */
    method Destroy()
      modifies this`alive
      ensures !alive
    {
      alive := false;
    }
  }
}
