/** The window of main.py, `AudioProcessorUI`, as far as its own rules go:
    the list of range rows it keeps, the duration it hands to them, the
    checks `start_processing` makes before handing a job to the worker, and
    which messages of a run give the controls back. */
module MainWindow {
  import opened PyBuiltins
  import opened TimeText
  import opened RangeEntry
  import opened Pipeline

  const NoVideo := "Please select an input video"
  const NoOutput := "Please select an output location"
  const NoRanges := "No valid time ranges specified"
  const ValidationTitle := "Validation Error"
  const Cancelling := "Cancelling..."

  /** The message naming the row labelled `index` (0-based, shown 1-based). */
  function InvalidRange(index: nat): string
  {
    "Invalid time range in Range " + Decimal(index + 1)
  }

  /** What `start_processing` sees of a row: whether it still exists, its
      label and what `get_times` makes of its texts. */
  datatype Row = Row(alive: bool, index: nat, check: Result<(string, string)>)

  /** The loop of `start_processing` over the first `n` rows: rows that no
      longer exist are skipped, the first living row whose times are
      refused stops it, and the accepted pairs are collected in order. */
  function CollectUpTo(rows: seq<Row>, n: nat): Result<seq<(string, string)>>
    requires n <= |rows|
  {
    if n == 0 then Ok([])
    else
      var done := CollectUpTo(rows, n - 1);
      var row := rows[n - 1];
      if done.Err? || !row.alive then done
      else if row.check.Err? then Err(InvalidRange(row.index))
      else Ok(done.value + [row.check.value])
  }

  function Collect(rows: seq<Row>): Result<seq<(string, string)>>
  {
    CollectUpTo(rows, |rows|)
  }

  /** How many of the first `n` rows the loop reaches: all of them, or up to
      and including the one that stops it. */
  function ScannedUpTo(rows: seq<Row>, n: nat): nat
    requires n <= |rows|
  {
    if n == 0 then 0
    else if CollectUpTo(rows, n - 1).Err? then ScannedUpTo(rows, n - 1)
    else n
  }

  function Scanned(rows: seq<Row>): nat
  {
    ScannedUpTo(rows, |rows|)
  }

  /** The outcome of pressing Process. */
  datatype Submission = Rejected(message: string) | Accepted(ranges: seq<(string, string)>)

  /** The checks of `start_processing`, in order: an input video, an output
      location, every living row, and at least one range. */
  function CheckSubmission(videoPath: Option<string>, outputPath: Option<string>, rows: seq<Row>): Submission
  {
    if !Truthy(videoPath) then Rejected(NoVideo)
    else if !Truthy(outputPath) then Rejected(NoOutput)
    else
      var collected := Collect(rows);
      if collected.Err? then Rejected(collected.message)
      else if collected.value == [] then Rejected(NoRanges)
      else Accepted(collected.value)
  }

  /** The text a row's error label shows after `get_times` ran on it. */
  function LabelText(row: Row): string
  {
    var r := row.check;
    if r.Ok? then "" else r.message
  }

  // ---------------------------------------------------------------------
  // Properties of the checks

  /** The rows are accepted exactly when every living row is; the accepted
      pairs are then one per living row, each that row's own texts. A
      refusal names the first living row that is refused. */
  lemma CollectOutcome(rows: seq<Row>)
    ensures var c := Collect(rows);
      && (c.Ok? <==> forall i :: 0 <= i < |rows| && rows[i].alive ==> rows[i].check.Ok?)
      && (c.Ok? ==> |c.value| == |Living(rows)|
                    && forall i :: 0 <= i < |c.value| ==> Living(rows)[i].check == Ok(c.value[i]))
      && (c.Err? ==> exists i :: 0 <= i < |rows| && FirstRefused(rows, i) && c.message == InvalidRange(rows[i].index))
  {
    CollectUpToAccepts(rows, |rows|);
    CollectUpToRefusal(rows, |rows|);
    assert rows[..|rows|] == rows;
  }

  /** The first `n` rows are accepted exactly when every living one is, and
      the accepted pairs are the living rows' own texts, in order. */
  lemma {:induction false} CollectUpToAccepts(rows: seq<Row>, n: nat)
    requires n <= |rows|
    ensures var c := CollectUpTo(rows, n);
      && (c.Ok? <==> forall i :: 0 <= i < n && rows[i].alive ==> rows[i].check.Ok?)
      && (c.Ok? ==> |c.value| == |Living(rows[..n])|
                    && forall i :: 0 <= i < |c.value| ==> Living(rows[..n])[i].check == Ok(c.value[i]))
  {
    if n > 0 {
      var row := rows[n - 1];
      var done := CollectUpTo(rows, n - 1);
      CollectUpToAccepts(rows, n - 1);
      LivingAppend(rows[..n - 1], row);
      assert rows[..n] == rows[..n - 1] + [row];
      if done.Ok? && row.alive && row.check.Ok? {
        var c := done.value + [row.check.value];
        var living := Living(rows[..n - 1]) + [row];
        forall i | 0 <= i < |c|
          ensures living[i].check == Ok(c[i])
        {
          if i < |done.value| {
            assert c[i] == done.value[i] && living[i] == Living(rows[..n - 1])[i];
          }
        }
      }
    }
  }

  /** A refusal of the first `n` rows names the first living row refused. */
  lemma {:induction false} CollectUpToRefusal(rows: seq<Row>, n: nat)
    requires n <= |rows|
    ensures var c := CollectUpTo(rows, n);
      c.Err? ==> exists i :: 0 <= i < n && FirstRefused(rows, i) && c.message == InvalidRange(rows[i].index)
  {
    if n > 0 {
      var row := rows[n - 1];
      CollectUpToRefusal(rows, n - 1);
      if CollectUpTo(rows, n - 1).Ok? && row.alive && row.check.Err? {
        CollectUpToAccepts(rows, n - 1);
        assert FirstRefused(rows, n - 1);
      }
    }
  }

  /** The living rows, in order. */
  function Living(rows: seq<Row>): seq<Row>
  {
    if rows == [] then []
    else Living(rows[..|rows| - 1]) + (if rows[|rows| - 1].alive then [rows[|rows| - 1]] else [])
  }

  /** `Living` keeps exactly the rows that still exist. */
  lemma {:induction false} LivingRows(rows: seq<Row>)
    ensures forall x :: x in Living(rows) <==> x in rows && x.alive
  {
    if rows != [] {
      var last := rows[|rows| - 1];
      LivingRows(rows[..|rows| - 1]);
      assert rows == rows[..|rows| - 1] + [last];
    }
  }

  lemma LivingAppend(rows: seq<Row>, row: Row)
    ensures Living(rows + [row]) == Living(rows) + (if row.alive then [row] else [])
  {
    assert (rows + [row])[..|rows|] == rows;
  }

  /** Row `i` is living and refused, and every living row before it is accepted. */
  predicate FirstRefused(rows: seq<Row>, i: nat)
  {
    && i < |rows| && rows[i].alive && rows[i].check.Err?
    && forall j :: 0 <= j < i && rows[j].alive ==> rows[j].check.Ok?
  }

  /** Without an input video nothing else is looked at; with one but without
      an output location, the rows are not looked at. */
  lemma PathsCheckedFirst(videoPath: Option<string>, outputPath: Option<string>, rows: seq<Row>)
    ensures !Truthy(videoPath) ==> CheckSubmission(videoPath, outputPath, rows) == Rejected(NoVideo)
    ensures Truthy(videoPath) && !Truthy(outputPath) ==>
      CheckSubmission(videoPath, outputPath, rows) == Rejected(NoOutput)
  {
  }

  /** A submission is accepted exactly when both paths are set, every
      living row is accepted and at least one row is living; the job then
      carries one pair per living row. */
  lemma SubmissionOutcome(videoPath: Option<string>, outputPath: Option<string>, rows: seq<Row>)
    ensures var s := CheckSubmission(videoPath, outputPath, rows);
      && (s.Accepted? <==>
            && Truthy(videoPath) && Truthy(outputPath) && Living(rows) != []
            && forall i :: 0 <= i < |rows| && rows[i].alive ==> rows[i].check.Ok?)
      && (s.Accepted? ==> |s.ranges| == |Living(rows)|)
  {
    CollectOutcome(rows);
  }

  /** With every one of the first `n` rows living, an accepted collection
      holds one pair per row. */
  lemma {:induction false} CollectAllLiving(rows: seq<Row>, n: nat)
    requires n <= |rows| && forall i :: 0 <= i < n ==> rows[i].alive
    ensures CollectUpTo(rows, n).Ok? ==> |CollectUpTo(rows, n).value| == n
  {
    if n > 0 {
      CollectAllLiving(rows, n - 1);
    }
  }

  /** When every row is living and there is one, the last message, "No valid
      time ranges specified", can never be shown. */
  lemma NoRangesNeverShown(videoPath: Option<string>, outputPath: Option<string>, rows: seq<Row>)
    requires rows != [] && forall i :: 0 <= i < |rows| ==> rows[i].alive
    ensures CheckSubmission(videoPath, outputPath, rows) != Rejected(NoRanges)
  {
    var c := Collect(rows);
    assert NoRanges[0] == 'N' && NoVideo[0] == 'P' && NoOutput[0] == 'P';
    if c.Ok? {
      CollectAllLiving(rows, |rows|);
    } else {
      CollectUpToRefusal(rows, |rows|);
      var i :| 0 <= i < |rows| && FirstRefused(rows, i) && c.message == InvalidRange(rows[i].index);
      assert c.message[0] == 'I';
    }
  }

  /** While the rows still hold the duration "00:00:00" the window starts
      with, pressing Process with both paths set is refused at the first
      row. */
  lemma DefaultDurationBlocksStart(videoPath: Option<string>, outputPath: Option<string>, rows: seq<Row>,
                                   startText: string, endText: string)
    requires Truthy(videoPath) && Truthy(outputPath)
    requires rows != [] && rows[0].alive && rows[0].check == CheckRange(startText, endText, Some(ZeroTime))
    ensures CheckSubmission(videoPath, outputPath, rows) == Rejected(InvalidRange(rows[0].index))
  {
    ZeroDurationRejectsAll(startText, endText);
    CollectOutcome(rows);
    if Collect(rows).Err? {
      var i :| 0 <= i < |rows| && FirstRefused(rows, i) && Collect(rows).message == InvalidRange(rows[i].index);
      assert i == 0;
    }
  }

  /** After a probe reports `d` seconds, every row's end reads the formatted
      duration, and a row is accepted exactly when its start parses to less
      than `d` (for durations with at most two hour digits; see
      `FormattedDurationValidates` for the pattern side). */
  lemma ProbedRowAccepted(startText: string, d: nat)
    requires d < TimedeltaLimit
    ensures var text := FormatDuration(d);
      CheckRange(startText, text, Some(text)).Ok? <==>
        ParseTime(startText).Ok? && ParseTime(startText).value < d
  {
    var text := FormatDuration(d);
    FormatParseRoundTrip(d);
    CheckRangeOutcome(startText, text, Some(text));
    assert text != "" by {
      assert Split("") == [""];
    }
  }

  // ---------------------------------------------------------------------
  // Which messages give the controls back

  /** Whether the controls are enabled after the window has handled
      `events`, starting from `enabled`: only a completion message enables
      them. */
  function EnabledAfter(enabled: bool, events: seq<Event>): bool
    decreases events
  {
    if events == [] then enabled
    else EnabledAfter(enabled || events[0].Complete?, events[1..])
  }

  lemma {:induction false} EnabledAfterCompletes(enabled: bool, events: seq<Event>)
    ensures EnabledAfter(enabled, events) <==> enabled || exists i :: 0 <= i < |events| && events[i].Complete?
    decreases events
  {
    if events != [] {
      EnabledAfterCompletes(enabled || events[0].Complete?, events[1..]);
      if exists i :: 0 <= i < |events[1..]| && events[1..][i].Complete? {
        var i :| 0 <= i < |events[1..]| && events[1..][i].Complete?;
        assert events[i + 1].Complete?;
      }
      if exists i :: 0 <= i < |events| && events[i].Complete? {
        var i :| 0 <= i < |events| && events[i].Complete?;
        if i > 0 {
          assert events[1..][i - 1].Complete?;
        }
      }
    }
  }

  // ---------------------------------------------------------------------
  // The window object

  /** A message box: its title and text. */
  datatype Dialog = Dialog(title: string, text: string)

  /** `AudioProcessorUI`. `controlsEnabled` stands for the Process and
      browse buttons, `cancelEnabled` for the Cancel button; `dialogs` lists
      the message boxes shown so far. */
  class AudioProcessorUI {
    var videoPath: Option<string>
    var outputPath: Option<string>
    var duration: string
    var ranges: seq<TimeRangeFrame>
    var controlsEnabled: bool
    var cancelEnabled: bool
    var statusText: string
    var dialogs: seq<Dialog>
    const processor: AudioProcessor

    /** The list is never empty, holds each row once, and holds only rows
        that exist. */
    predicate Valid()
      reads this`ranges, ranges`alive
    {
      && |ranges| >= 1
      && Distinct(ranges)
      && (forall f :: f in ranges ==> f.alive)
    }

    /** The window as it opens: no paths, the placeholder duration, and the
        one row `setup_ui` adds. */
    constructor ()
      ensures Valid() && fresh(processor) && fresh(ranges[0])
      ensures videoPath.None? && outputPath.None? && duration == ZeroTime
      ensures |ranges| == 1 && ranges[0].index == 0 && ranges[0].videoDuration == Some(ZeroTime)
      ensures controlsEnabled && !cancelEnabled && dialogs == []
      ensures !processor.processing && processor.jobs == []
    {
      videoPath := None;
      outputPath := None;
      duration := ZeroTime;
      controlsEnabled := true;
      cancelEnabled := false;
      statusText := "Ready to process";
      dialogs := [];
      processor := new AudioProcessor();
      var first := new TimeRangeFrame(0, Some(ZeroTime));
      ranges := [first];
    }

    /** `add_range`: a new row labelled with the length of the list before
        it, checking against the window's current duration, at the end. */
    method AddRange() returns (frame: TimeRangeFrame)
      requires Valid()
      modifies this`ranges
      ensures Valid() && fresh(frame)
      ensures ranges == old(ranges) + [frame]
      ensures frame.index == |old(ranges)| && frame.videoDuration == Some(duration)
      ensures frame.startText == ZeroTime && frame.endText == ZeroTime && frame.errorText == ""
    {
      frame := new TimeRangeFrame(|ranges|, Some(duration));
      AppendDistinct(ranges, frame);
      ranges := ranges + [frame];
    }

    /** `delete_range`: the row leaves the list and is destroyed, unless it
        is the only one. */
    method DeleteRange(frame: TimeRangeFrame)
      requires Valid() && frame in ranges
      modifies this`ranges, frame`alive
      ensures Valid()
      ensures |old(ranges)| > 1 ==> ranges == RemoveFirst(old(ranges), frame) && frame !in ranges && !frame.alive
      ensures |old(ranges)| == 1 ==> ranges == old(ranges) && frame.alive
    {
      if |ranges| > 1 {
        RemoveDistinct(ranges, frame);
        ranges := RemoveFirst(ranges, frame);
        frame.Destroy();
      }
    }

    /** `update_duration`: the window and every row take the probed
        duration, and every row's end entry is overwritten with it. */
    method UpdateDuration(d: string)
      requires Valid()
      modifies this`duration, ranges`videoDuration, ranges`endText
      ensures Valid() && duration == d
      ensures forall i :: 0 <= i < |ranges| ==> ranges[i].videoDuration == Some(d) && ranges[i].endText == d
    {
      duration := d;
      for k := 0 to |ranges|
        invariant ranges == old(ranges) && duration == d
        invariant forall i :: 0 <= i < k ==>
          ranges[i].videoDuration == Some(d) && ranges[i].endText == d
      {
        ranges[k].videoDuration := Some(d);
        ranges[k].endText := d;
      }
    }

    /** The loop of `start_processing` over `rows`, the rows as they stand
        when Process is pressed: `get_times` on each living row in turn,
        until one refuses. The rows reached show their `LabelText`. */
    method ReadRows(ghost rows: seq<Row>) returns (collected: Result<seq<(string, string)>>)
      requires Distinct(ranges) && |rows| == |ranges|
      requires forall i {:trigger RowOf(ranges[i])} :: 0 <= i < |ranges| ==> rows[i] == RowOf(ranges[i])
      modifies ranges`errorText
      ensures collected == Collect(rows)
      ensures LabelsOf(ranges) == Relabel(old(LabelsOf(ranges)), rows, Scanned(rows))
    {
      ghost var before := LabelsOf(ranges);
      var pairs: seq<(string, string)> := [];
      var k := 0;
      while k < |ranges|
        invariant k <= |ranges|
        invariant CollectUpTo(rows, k) == Ok(pairs)
        invariant LabelsOf(ranges) == Relabel(before, rows, k)
      {
        CollectStep(rows, k, pairs);
        collected := ReadStep(ranges[k], k, pairs, rows, before);
        if collected.Err? {
          ScannedFrom(rows, k + 1);
          assert Scanned(rows) == k + 1;
          return;
        }
        pairs := collected.value;
        k := k + 1;
      }
      ScannedAll(rows);
      collected := Ok(pairs);
    }

    /** One pass of that loop, on `frame`, the row at position `k`, after
        `pairs` were collected: a row that no longer exists adds nothing; a
        living one runs `get_times`, and either its pair is added or the
        loop stops with the message naming the row. */
    method ReadStep(frame: TimeRangeFrame, k: nat, pairs: seq<(string, string)>, ghost rows: seq<Row>,
                    ghost before: seq<string>)
      returns (next: Result<seq<(string, string)>>)
      requires Distinct(ranges) && k < |ranges| && frame == ranges[k]
      requires |rows| == |ranges| == |before| && rows[k] == RowOf(frame)
      requires CollectUpTo(rows, k) == Ok(pairs)
      requires LabelsOf(ranges) == Relabel(before, rows, k)
      modifies frame`errorText
      ensures next == CollectUpTo(rows, k + 1)
      ensures LabelsOf(ranges) == Relabel(before, rows, k + 1)
    {
      forall i | 0 <= i < |ranges|
        ensures ranges[i].errorText == Relabel(before, rows, k)[i]
      {
        LabelsOfAt(ranges, i);
      }
      forall i | 0 <= i < |ranges| && i != k
        ensures ranges[i] != frame
      {
        if i < k { DistinctAt(ranges, i, k); } else { DistinctAt(ranges, k, i); }
      }
      CollectStep(rows, k, pairs);
      next := Ok(pairs);
      if frame.alive {
        var times := frame.GetTimes();
        if times.None? {
          next := Err(InvalidRange(frame.index));
        } else {
          next := Ok(pairs + [times.value]);
        }
      }
      forall i | 0 <= i < |ranges|
        ensures LabelsOf(ranges)[i] == Relabel(before, rows, k + 1)[i]
      {
        LabelsOfAt(ranges, i);
      }
    }

    /** The checks of `start_processing`, in order, on the rows as they
        stand: each row the loop reaches shows its `LabelText`, and nothing
        else of the window changes. */
    method Validate() returns (outcome: Submission)
      requires Distinct(ranges)
      modifies ranges`errorText
      ensures outcome == CheckSubmission(videoPath, outputPath, old(RowsOf(ranges)))
      ensures !(Truthy(videoPath) && Truthy(outputPath)) ==> LabelsOf(ranges) == old(LabelsOf(ranges))
      ensures Truthy(videoPath) && Truthy(outputPath) ==>
        LabelsOf(ranges) == Relabel(old(LabelsOf(ranges)), old(RowsOf(ranges)), Scanned(old(RowsOf(ranges))))
    {
      if !Truthy(videoPath) {
        outcome := Rejected(NoVideo);
      } else if !Truthy(outputPath) {
        outcome := Rejected(NoOutput);
      } else {
        forall i | 0 <= i < |ranges|
          ensures RowsOf(ranges)[i] == RowOf(ranges[i])
        {
          RowsOfAt(ranges, i);
        }
        var collected := ReadRows(RowsOf(ranges));
        if collected.Err? {
          outcome := Rejected(collected.message);
        } else if collected.value == [] {
          outcome := Rejected(NoRanges);
        } else {
          outcome := Accepted(collected.value);
        }
      }
    }

    /** `start_processing`: `Validate`; an accepted submission disables the
        controls, enables Cancel and starts the worker, a refused one shows
        its message under "Validation Error" and changes nothing else. */
    method StartProcessing() returns (outcome: Submission)
      requires Valid()
      modifies this`controlsEnabled, this`cancelEnabled, this`dialogs, ranges`errorText
      modifies processor`processing, processor`jobs
      ensures outcome == CheckSubmission(videoPath, outputPath, old(RowsOf(ranges)))
      ensures !(Truthy(videoPath) && Truthy(outputPath)) ==> LabelsOf(ranges) == old(LabelsOf(ranges))
      ensures Truthy(videoPath) && Truthy(outputPath) ==>
        LabelsOf(ranges) == Relabel(old(LabelsOf(ranges)), old(RowsOf(ranges)), Scanned(old(RowsOf(ranges))))
      ensures outcome.Accepted? ==>
        && !controlsEnabled && cancelEnabled && dialogs == old(dialogs)
        && processor.processing
        && processor.jobs == old(processor.jobs) + [Job(videoPath.value, outputPath.value, outcome.ranges)]
      ensures outcome.Rejected? ==>
        && controlsEnabled == old(controlsEnabled) && cancelEnabled == old(cancelEnabled)
        && dialogs == old(dialogs) + [Dialog(ValidationTitle, outcome.message)]
        && processor.processing == old(processor.processing) && processor.jobs == old(processor.jobs)
    {
      outcome := Validate();
      ghost var labels := LabelsOf(ranges);
      if outcome.Accepted? {
        Launch(videoPath.value, outputPath.value, outcome.ranges);
      } else {
        ShowError(ValidationTitle, outcome.message);
      }
      assert LabelsOf(ranges) == labels;
    }

    /** The end of an accepted `start_processing`: Process and the browse
        buttons are disabled, Cancel is enabled, and the worker starts. */
    method Launch(video: string, output: string, pairs: seq<(string, string)>)
      modifies this`controlsEnabled, this`cancelEnabled, processor`processing, processor`jobs
      ensures !controlsEnabled && cancelEnabled
      ensures processor.processing && processor.jobs == old(processor.jobs) + [Job(video, output, pairs)]
      ensures LabelsOf(ranges) == old(LabelsOf(ranges))
    {
      controlsEnabled := false;
      cancelEnabled := true;
      processor.StartProcessing(video, output, pairs);
    }

    /** `messagebox.showerror`: one more message box. */
    method ShowError(title: string, text: string)
      modifies this`dialogs
      ensures dialogs == old(dialogs) + [Dialog(title, text)]
      ensures LabelsOf(ranges) == old(LabelsOf(ranges))
    {
      dialogs := dialogs + [Dialog(title, text)];
    }

    /** `cancel_processing`: lower the worker's flag, disable Cancel and say
        so in the status line. */
    method CancelProcessing()
      modifies processor`processing, this`cancelEnabled, this`statusText
      ensures !processor.processing && !cancelEnabled && statusText == Cancelling
    {
      processor.CancelProcessing();
      cancelEnabled := false;
      statusText := Cancelling;
    }
  }

  /** What `start_processing` sees of `frame`. */
  function RowOf(frame: TimeRangeFrame): Row
    reads frame`alive, frame`startText, frame`endText, frame`videoDuration
  {
    Row(frame.alive, frame.index, CheckRange(frame.startText, frame.endText, frame.videoDuration))
  }

  function RowsOf(frames: seq<TimeRangeFrame>): (rows: seq<Row>)
    reads frames`alive, frames`startText, frames`endText, frames`videoDuration
    ensures |rows| == |frames|
  {
    if frames == [] then [] else [RowOf(frames[0])] + RowsOf(frames[1..])
  }

  lemma {:induction false} RowsOfAt(frames: seq<TimeRangeFrame>, i: nat)
    requires i < |frames|
    ensures RowsOf(frames)[i] == RowOf(frames[i])
  {
    if i > 0 {
      RowsOfAt(frames[1..], i - 1);
    }
  }

  /** The texts of the rows' error labels, in order. */
  ghost function LabelsOf(frames: seq<TimeRangeFrame>): (labels: seq<string>)
    reads frames`errorText
    ensures |labels| == |frames|
  {
    if frames == [] then [] else [frames[0].errorText] + LabelsOf(frames[1..])
  }

  lemma {:induction false} LabelsOfAt(frames: seq<TimeRangeFrame>, i: nat)
    requires i < |frames|
    ensures LabelsOf(frames)[i] == frames[i].errorText
  {
    if i > 0 {
      LabelsOfAt(frames[1..], i - 1);
    }
  }

  /** The error labels `before` after the loop has reached the first `n`
      of `rows`: each living row reached shows its `LabelText`, every other
      label is left as it was. */
  function Relabel(before: seq<string>, rows: seq<Row>, n: nat): (labels: seq<string>)
    requires |rows| == |before|
    ensures |labels| == |before|
    ensures forall i :: 0 <= i < |before| ==>
      labels[i] == if i < n && rows[i].alive then LabelText(rows[i]) else before[i]
  {
    seq(|before|, i requires 0 <= i < |before| => if i < n && rows[i].alive then LabelText(rows[i]) else before[i])
  }

  /** One more row for the loop that has accepted everything so far. */
  lemma CollectStep(rows: seq<Row>, k: nat, pairs: seq<(string, string)>)
    requires k < |rows| && CollectUpTo(rows, k) == Ok(pairs)
    ensures CollectUpTo(rows, k + 1) ==
      if !rows[k].alive then Ok(pairs)
      else if rows[k].check.Err? then Err(InvalidRange(rows[k].index))
      else Ok(pairs + [rows[k].check.value])
    ensures ScannedUpTo(rows, k + 1) == k + 1
  {
  }

  /** A loop that accepts every row reaches every row. */
  lemma ScannedAll(rows: seq<Row>)
    requires Collect(rows).Ok?
    ensures Scanned(rows) == |rows|
  {
  }

  /** Once the loop has stopped, later rows change neither its outcome nor
      how far it got. */
  lemma {:induction false} ScannedFrom(rows: seq<Row>, n: nat)
    requires n <= |rows| && CollectUpTo(rows, n).Err?
    ensures Collect(rows) == CollectUpTo(rows, n) && Scanned(rows) == ScannedUpTo(rows, n)
    decreases |rows| - n
  {
    if n < |rows| {
      ScannedFrom(rows, n + 1);
    }
  }

  /** A fresh element appended to a list without repeats keeps it so. */
  lemma AppendDistinct<T>(s: seq<T>, x: T)
    requires Distinct(s) && x !in s
    ensures Distinct(s + [x])
  {
    DistinctPairwise(s);
    DistinctPairwise(s + [x]);
  }

  /** Removing a row from a list without repeats leaves a list without
      repeats, without that row and with nothing new. */
  lemma RemoveDistinct<T>(s: seq<T>, x: T)
    requires x in s && Distinct(s)
    ensures var r := RemoveFirst(s, x);
      && x !in r
      && (forall y :: y in r ==> y in s)
      && Distinct(r)
  {
    var k := IndexOf(s, x);
    var r := RemoveFirst(s, x);
    DistinctPairwise(s);
    DistinctPairwise(r);
    assert r == s[..k] + s[k + 1..];
    forall i | 0 <= i < |r|
      ensures r[i] == s[if i < k then i else i + 1]
    {
    }
  }
}
