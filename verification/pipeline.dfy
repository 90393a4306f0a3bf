/** The worker of processing.py: `AudioProcessor`, its `processing` flag and
    the run of `_process_video`.

    A run extracts the soundtrack with ffmpeg, loads it, and for each time
    range cuts that span out of the extracted audio, has Spleeter separate
    the vocals and splices them over the span of the running result; then it
    exports the result and has ffmpeg put it back under the video. Everything
    the outside world decides (how ffmpeg exits, what Spleeter returns, when
    the user presses Cancel, whether the temporary directory can be removed)
    is given as an `Environment`, and the run is the list of messages passed
    to the window's callback. */
module Pipeline {
  import opened PyBuiltins
  import opened TimeText
  import opened AudioSplice

  /** A message for the window's callback: `{'type': ..., ...}`. */
  datatype Event =
    | Progress(percent: real)
    | Status(text: string)
    | Error(text: string)
    | Complete(text: string)

  /** How a `subprocess.run(..., check=True)` of ffmpeg ended:
      - it exited 0;
      - it exited non-zero, raising CalledProcessError with the captured
        stderr (decoded as UTF-8) and the exception's own description;
      - it exited non-zero with a stderr that is not valid UTF-8, so that
        decoding it in the handler raises UnicodeDecodeError;
      - it could not be started at all (an OSError such as FileNotFoundError,
        with its text), which is no CalledProcessError. */
  datatype ToolRun =
    | Exited0
    | ExitedNonZero(stderr: string, description: string)
    | UndecodableStderr
    | NotStarted(reason: string)

  /** What separating one segment gives: the vocals track, or the text of the
      exception raised while exporting the segment, separating it or loading
      the vocals back. */
  datatype Separation<T> = Vocals(track: seq<T>) | SeparationFailed(reason: string)

  /** What the outside world does during one run.
      `loaded` is the extracted audio, or the text of the exception raised
      while starting Spleeter or loading the wav; `cancelBefore` holds the
      (1-based) ranges before whose flag check the user presses Cancel;
      `exportFailure` is the text of the exception raised while exporting the
      final wav, if any; `cleanupFails` says whether removing the temporary
      directory fails. */
  datatype Environment<!T> = Environment(
    extraction: ToolRun,
    loaded: Result<seq<T>>,
    cancelBefore: set<nat>,
    separate: seq<T> -> Separation<T>,
    exportFailure: Option<string>,
    mux: ToolRun,
    cleanupFails: bool)

  /** A request handed to `start_processing`. */
  datatype Job = Job(videoPath: string, outputPath: string, ranges: seq<(string, string)>)

  const ExtractingAudio := "Extracting audio..."
  const CreatingVideo := "Creating final video..."

  /** The error text of a failed ffmpeg call: its stderr when there is any,
      the exception's description otherwise. */
  function FfmpegMessage(run: ToolRun): string
    requires run.ExitedNonZero?
  {
    "FFmpeg error: " + (if run.stderr != "" then run.stderr else run.description)
  }

  /** What the handlers send for an ffmpeg call that did not exit 0: the
      CalledProcessError handler's error; nothing, when that handler raises
      while decoding stderr (the new exception leaves `_process_video` after
      the cleanup and ends the thread); or, for a call that never started,
      the generic handler's error and completion. */
  function ToolFailure(run: ToolRun): seq<Event>
    requires !run.Exited0?
  {
    match run
    case ExitedNonZero(_, _) => [Error(FfmpegMessage(run))]
    case UndecodableStderr => []
    case NotStarted(reason) => GenericFailure(reason)
  }

  const FailedText := "Processing failed"
  const CancelledText := "Processing was cancelled"

  function SuccessText(outputPath: string): string
  {
    "Processing complete!\nOutput saved as: " + outputPath
  }

  /** The handler for any other exception: an error, then completion. */
  function GenericFailure(reason: string): seq<Event>
  {
    [Error("Error during processing: " + reason), Complete(FailedText)]
  }

  /** The handler for InterruptedError. */
  function CancelledEvents(): seq<Event>
  {
    [Status("Processing cancelled"), Complete(CancelledText)]
  }

  /** The end of the `try` block, after the mux step returns. */
  function SuccessEvents(outputPath: string): seq<Event>
  {
    [Progress(100.0), Complete(SuccessText(outputPath))]
  }

  /** `f"Processing range {idx}/{total_ranges}: {start_time} to {end_time}"`. */
  function RangeStatus(idx: nat, n: nat, range: (string, string)): string
  {
    "Processing range " + Decimal(idx) + "/" + Decimal(n) + ": " + range.0 + " to " + range.1
  }

  /** `k * 90 / total_ranges`, the progress after `k` of `n` ranges. */
  function Portion(k: nat, n: nat): (p: real)
    requires 0 < n
    ensures 0.0 <= p && (k <= n ==> p <= 90.0)
  {
    (k * 90) as real / n as real
  }

  // ---------------------------------------------------------------------
  // The run, as a function of the environment

  /** How the loop over the ranges ended: every range done (with the
      resulting audio), a cancel seen at a flag check, or an exception. */
  datatype LoopEnd<T> = AllRanges(audio: seq<T>) | Cancelled | Failed(reason: string)

  /** The events a stretch of the loop emits, the segments it cuts for
      separation (exported, then separated), how it ends and the value of
      the flag at its end. */
  datatype LoopRun<T> = LoopRun(events: seq<Event>, inputs: seq<seq<T>>, end: LoopEnd<T>, flag: bool)

  /** What was emitted and separated so far, followed by the rest of the loop. */
  function Then<T>(events: seq<Event>, inputs: seq<seq<T>>, rest: LoopRun<T>): LoopRun<T>
  {
    LoopRun(events + rest.events, inputs + rest.inputs, rest.end, rest.flag)
  }

  lemma AppendAssoc<X>(a: seq<X>, b: seq<X>, c: seq<X>)
    ensures a + (b + c) == a + b + c
  {
  }

  lemma ThenThen<T>(events: seq<Event>, inputs: seq<seq<T>>, moreEvents: seq<Event>, moreInputs: seq<seq<T>>,
                    rest: LoopRun<T>)
    ensures Then(events, inputs, Then(moreEvents, moreInputs, rest))
         == Then(events + moreEvents, inputs + moreInputs, rest)
  {
    assert events + (moreEvents + rest.events) == events + moreEvents + rest.events;
    assert inputs + (moreInputs + rest.inputs) == inputs + moreInputs + rest.inputs;
  }

  /** One pass of the loop body, once the flag check has passed: the events
      it emits, the segment it cuts for separation (if it gets that far),
      the text of the exception it raises (if any) and the running result
      after the splice. */
  datatype Step<T> = Step(events: seq<Event>, inputs: seq<seq<T>>, failure: Option<string>, next: seq<T>)

  /** The body of the loop for range `k` (0-based): announce it, convert its
      two times, cut the segment out of the extracted `audio`, separate it
      and splice the vocals into the running result `processed`. */
  function RangeStep<T>(env: Environment<T>, audio: seq<T>, ranges: seq<(string, string)>,
                        k: nat, processed: seq<T>): Step<T>
    requires k < |ranges|
  {
    var n := |ranges|;
    var opening := [Status(RangeStatus(k + 1, n, ranges[k])), Progress(Portion(k, n))];
    var s := TimeToSeconds(ranges[k].0);
    if s.Err? then Step(opening, [], Some(s.message), processed)
    else
      var e := TimeToSeconds(ranges[k].1);
      if e.Err? then Step(opening, [], Some(e.message), processed)
      else
        var part := Slice(audio, 1000 * s.value, 1000 * e.value);
        match env.separate(part)
        case SeparationFailed(reason) => Step(opening, [part], Some(reason), processed)
        case Vocals(track) =>
          Step(opening + [Progress(Portion(k + 1, n))], [part], None,
               Splice(processed, 1000 * s.value, 1000 * e.value, track))
  }

  /** The loop of `_process_video` from range `k` (0-based) on, with the
      running result `processed` and the flag as the worker last saw it. The
      flag is checked at the top of every pass; a Cancel pressed before that
      check lowers it. */
  function LoopFrom<T>(env: Environment<T>, audio: seq<T>, ranges: seq<(string, string)>,
                       k: nat, processed: seq<T>, flag: bool): LoopRun<T>
    requires k <= |ranges|
    decreases |ranges| - k, 1
  {
    if k == |ranges| then LoopRun([], [], AllRanges(processed), flag)
    else if !flag || k + 1 in env.cancelBefore then LoopRun([], [], Cancelled, false)
    else PassFrom(env, audio, ranges, k, processed)
  }

  /** The loop from range `k` on, once that range's flag check has passed:
      its pass, then the rest of the loop unless the pass raised. */
  function PassFrom<T>(env: Environment<T>, audio: seq<T>, ranges: seq<(string, string)>,
                       k: nat, processed: seq<T>): LoopRun<T>
    requires k < |ranges|
    decreases |ranges| - k, 0
  {
    var step := RangeStep(env, audio, ranges, k, processed);
    if step.failure.Some? then LoopRun(step.events, step.inputs, Failed(step.failure.value), true)
    else Then(step.events, step.inputs, LoopFrom(env, audio, ranges, k + 1, step.next, true))
  }

  /** The loop at a range whose flag check fails. */
  lemma LoopFromCancel<T>(env: Environment<T>, audio: seq<T>, ranges: seq<(string, string)>,
                          k: nat, processed: seq<T>, flag: bool)
    requires k < |ranges| && (!flag || k + 1 in env.cancelBefore)
    ensures LoopFrom(env, audio, ranges, k, processed, flag) == LoopRun([], [], Cancelled, false)
  {
  }

  /** The loop at a range whose flag check passes: that range's pass, then
      the rest of the loop unless the pass raised. */
  lemma LoopFromPass<T>(env: Environment<T>, audio: seq<T>, ranges: seq<(string, string)>,
                        k: nat, processed: seq<T>)
    requires k < |ranges| && k + 1 !in env.cancelBefore
    ensures var step := RangeStep(env, audio, ranges, k, processed);
      LoopFrom(env, audio, ranges, k, processed, true) ==
        if step.failure.Some? then LoopRun(step.events, step.inputs, Failed(step.failure.value), true)
        else Then(step.events, step.inputs, LoopFrom(env, audio, ranges, k + 1, step.next, true))
  {
  }

  /** Where the loop ends and the flag it leaves, seen from a range whose
      flag check passes. */
  lemma LoopFromEnd<T>(env: Environment<T>, audio: seq<T>, ranges: seq<(string, string)>,
                       k: nat, processed: seq<T>)
    requires k < |ranges| && k + 1 !in env.cancelBefore
    ensures var step := RangeStep(env, audio, ranges, k, processed);
      var here := LoopFrom(env, audio, ranges, k, processed, true);
      if step.failure.Some? then here.end == Failed(step.failure.value) && here.flag
      else
        var rest := LoopFrom(env, audio, ranges, k + 1, step.next, true);
        here.end == rest.end && here.flag == rest.flag
  {
    LoopFromPass(env, audio, ranges, k, processed);
  }

  /** The events and segments of the loop, seen from a range whose flag
      check passes: that pass's, then the rest's unless the pass raised. */
  lemma LoopFromOutput<T>(env: Environment<T>, audio: seq<T>, ranges: seq<(string, string)>,
                          k: nat, processed: seq<T>)
    requires k < |ranges| && k + 1 !in env.cancelBefore
    ensures var step := RangeStep(env, audio, ranges, k, processed);
      var here := LoopFrom(env, audio, ranges, k, processed, true);
      if step.failure.Some? then here.events == step.events && here.inputs == step.inputs
      else
        var rest := LoopFrom(env, audio, ranges, k + 1, step.next, true);
        here.events == step.events + rest.events && here.inputs == step.inputs + rest.inputs
  {
    LoopFromPass(env, audio, ranges, k, processed);
  }

  /** A whole run: the events, the segments cut for separation, the audio
      exported for muxing (if the run gets that far) and the final flag. */
  datatype Run<T> = Run(events: seq<Event>, inputs: seq<seq<T>>, exported: Option<seq<T>>, flag: bool)

  /** What the handlers emit once the loop is over: the cancel handler, the
      generic handler, or the export and mux steps and what follows them. */
  function AfterLoop<T>(env: Environment<T>, outputPath: string, end: LoopEnd<T>): seq<Event>
  {
    match end
    case Cancelled => CancelledEvents()
    case Failed(reason) => GenericFailure(reason)
    case AllRanges(_) =>
      [Status(CreatingVideo)] +
      if env.exportFailure.Some? then GenericFailure(env.exportFailure.value)
      else if !env.mux.Exited0? then ToolFailure(env.mux)
      else SuccessEvents(outputPath)
  }

  /** The audio written for the mux step, if the run gets that far. */
  function Exported<T>(env: Environment<T>, end: LoopEnd<T>): Option<seq<T>>
  {
    if end.AllRanges? && env.exportFailure.None? then Some(end.audio) else None
  }

  /** `_process_video` under `env`, started with the flag at `flag`. */
  function RunSpec<T>(env: Environment<T>, outputPath: string, ranges: seq<(string, string)>, flag: bool): Run<T>
  {
    var opening := [Status(ExtractingAudio), Progress(0.0)];
    if !env.extraction.Exited0? then
      Run(opening + ToolFailure(env.extraction), [], None, flag)
    else if env.loaded.Err? then
      Run(opening + GenericFailure(env.loaded.message), [], None, flag)
    else
      var loop := LoopFrom(env, env.loaded.value, ranges, 0, env.loaded.value, flag);
      Run(opening + loop.events + AfterLoop(env, outputPath, loop.end), loop.inputs,
          Exported(env, loop.end), loop.flag)
  }

  // ---------------------------------------------------------------------
  // The processor object

  /** `AudioProcessor`. `events` is everything passed to the callback so far;
      `jobs` the requests `start_processing` received; temporary directories
      are numbered in order of creation, `cleanups` lists those the cleanup
      ran on and `onDisk` those that exist. */
  class AudioProcessor {
    var processing: bool
    var events: seq<Event>
    var jobs: seq<Job>
    var tempDirs: nat
    var cleanups: seq<nat>
    var onDisk: set<nat>

    /** Every directory that exists was created by this processor. */
    predicate Valid()
      reads this
    {
      forall d :: d in onDisk ==> d < tempDirs
    }

    constructor ()
      ensures Valid()
      ensures !processing && events == [] && jobs == []
      ensures tempDirs == 0 && cleanups == [] && onDisk == {}
    {
      processing := false;
      events := [];
      jobs := [];
      tempDirs := 0;
      cleanups := [];
      onDisk := {};
    }

    /** `start_processing`: raise the flag and hand the job to a new worker
        thread (the thread itself is `ProcessVideo`, run separately). */
    method StartProcessing(videoPath: string, outputPath: string, ranges: seq<(string, string)>)
      modifies this`processing, this`jobs
      ensures processing && jobs == old(jobs) + [Job(videoPath, outputPath, ranges)]
    {
      processing := true;
      jobs := jobs + [Job(videoPath, outputPath, ranges)];
    }

    /** `cancel_processing`: lower the flag; the worker notices at its next check. */
    method CancelProcessing()
      modifies this`processing
      ensures !processing
    {
      processing := false;
    }

    /** `_create_temp_dir`: a new directory, which now exists. */
    method CreateTempDir() returns (dir: nat)
      requires Valid()
      modifies this`tempDirs, this`onDisk
      ensures Valid()
      ensures dir == old(tempDirs) && dir !in old(onDisk)
      ensures tempDirs == old(tempDirs) + 1 && onDisk == old(onDisk) + {dir}
    {
      dir := tempDirs;
      tempDirs := tempDirs + 1;
      onDisk := onDisk + {dir};
    }

    /** `_cleanup_temp_dir`: remove the directory; a failure is only logged,
        and the directory then stays. */
    method CleanupTempDir(dir: nat, removalFails: bool)
      requires Valid()
      modifies this`cleanups, this`onDisk
      ensures Valid()
      ensures cleanups == old(cleanups) + [dir]
      ensures onDisk == if removalFails then old(onDisk) else old(onDisk) - {dir}
    {
      cleanups := cleanups + [dir];
      if !removalFails {
        onDisk := onDisk - {dir};
      }
    }

    /** One pass of the body of the `for` loop, after the flag check. */
    method ProcessRange<T>(env: Environment<T>, audio: seq<T>, ranges: seq<(string, string)>,
                           k: nat, processed: seq<T>)
      returns (inputs: seq<seq<T>>, failure: Option<string>, next: seq<T>)
      requires k < |ranges|
      modifies this`events
      ensures var step := RangeStep(env, audio, ranges, k, processed);
        && events == old(events) + step.events
        && inputs == step.inputs && failure == step.failure && next == step.next
    {
      var n := |ranges|;
      events := events + [Status(RangeStatus(k + 1, n, ranges[k])), Progress(Portion(k, n))];
      inputs, failure, next := [], None, processed;
      var s := TimeToSeconds(ranges[k].0);
      if s.Err? {
        failure := Some(s.message);
        return;
      }
      var e := TimeToSeconds(ranges[k].1);
      if e.Err? {
        failure := Some(e.message);
        return;
      }
      var part := Slice(audio, 1000 * s.value, 1000 * e.value);
      inputs := [part];
      var separation := env.separate(part);
      if separation.SeparationFailed? {
        failure := Some(separation.reason);
        return;
      }
      next := Splice(processed, 1000 * s.value, 1000 * e.value, separation.track);
      events := events + [Progress(Portion(k + 1, n))];
    }

    /** One turn of the `for` loop: the flag check (a Cancel pressed before
        it lowers the flag first), then the pass. `stop` is how the loop
        ends here, if it does; otherwise the loop goes on from range
        `k + 1` with the running result `next`. */
    method LoopTurn<T>(env: Environment<T>, audio: seq<T>, ranges: seq<(string, string)>,
                       k: nat, processed: seq<T>)
      returns (inputs: seq<seq<T>>, stop: Option<LoopEnd<T>>, next: seq<T>)
      requires k < |ranges|
      modifies this`events, this`processing
      ensures var here := LoopFrom(env, audio, ranges, k, processed, old(processing));
        var step := RangeStep(env, audio, ranges, k, processed);
        if stop.Some? then
          && events == old(events) + here.events && inputs == here.inputs
          && stop.value == here.end && processing == here.flag
        else
          && processing && events == old(events) + step.events && inputs == step.inputs
          && here == Then(step.events, step.inputs, LoopFrom(env, audio, ranges, k + 1, next, true))
    {
      if k + 1 in env.cancelBefore {
        CancelProcessing();
      }
      if !processing {
        LoopFromCancel(env, audio, ranges, k, processed, old(processing));
        assert old(events) + [] == old(events);
        inputs, stop, next := [], Some(Cancelled), processed;
        return;
      }
      LoopFromPass(env, audio, ranges, k, processed);
      var failure;
      inputs, failure, next := ProcessRange(env, audio, ranges, k, processed);
      stop := if failure.Some? then Some(Failed(failure.value)) else None;
    }

    /** The `for` loop of `_process_video` over the ranges, on the extracted
        `audio`: it emits the events of `LoopFrom` and reports how it ended. */
    method RunRanges<T>(env: Environment<T>, audio: seq<T>, ranges: seq<(string, string)>)
      returns (inputs: seq<seq<T>>, end: LoopEnd<T>)
      modifies this`events, this`processing
      ensures var loop := LoopFrom(env, audio, ranges, 0, audio, old(processing));
        && events == old(events) + loop.events
        && inputs == loop.inputs && end == loop.end && processing == loop.flag
    {
      var k := 0;
      var processed := audio;
      inputs := [];
      ghost var emitted: seq<Event> := [];
      ghost var whole := LoopFrom(env, audio, ranges, 0, audio, processing);
      assert Then([], [], whole) == whole by {
        assert [] + whole.events == whole.events && [] + whole.inputs == whole.inputs;
      }
      while k < |ranges|
        invariant k <= |ranges|
        invariant events == old(events) + emitted
        invariant Then(emitted, inputs, LoopFrom(env, audio, ranges, k, processed, processing)) == whole
      {
        ghost var here := LoopFrom(env, audio, ranges, k, processed, processing);
        ghost var step := RangeStep(env, audio, ranges, k, processed);
        var turnInputs, stop, next := LoopTurn(env, audio, ranges, k, processed);
        if stop.Some? {
          AppendAssoc(old(events), emitted, here.events);
          inputs, end := inputs + turnInputs, stop.value;
          return;
        }
        ThenThen(emitted, inputs, step.events, step.inputs, LoopFrom(env, audio, ranges, k + 1, next, true));
        AppendAssoc(old(events), emitted, step.events);
        emitted := emitted + step.events;
        inputs := inputs + turnInputs;
        processed := next;
        k := k + 1;
      }
      assert emitted + [] == emitted && inputs + [] == inputs;
      end := AllRanges(processed);
    }

    /** The `try` block of `_process_video` and its `except` handlers. */
    method RunJob<T>(outputPath: string, ranges: seq<(string, string)>, env: Environment<T>)
      returns (inputs: seq<seq<T>>, exported: Option<seq<T>>)
      modifies this`events, this`processing
      ensures var run := RunSpec(env, outputPath, ranges, old(processing));
        && events == old(events) + run.events
        && inputs == run.inputs && exported == run.exported && processing == run.flag
    {
      ghost var flag, before := processing, events;
      ghost var run := RunSpec(env, outputPath, ranges, flag);
      var opening := [Status(ExtractingAudio), Progress(0.0)];
      inputs, exported := [], None;
      events := events + opening;
      if !env.extraction.Exited0? {
        events := events + ToolFailure(env.extraction);
        assert events == before + run.events;
        return;
      }
      if env.loaded.Err? {
        events := events + GenericFailure(env.loaded.message);
        assert events == before + run.events;
        return;
      }
      ghost var loop := LoopFrom(env, env.loaded.value, ranges, 0, env.loaded.value, flag);
      var end;
      inputs, end := RunRanges(env, env.loaded.value, ranges);
      var closing: seq<Event>;
      match end {
        case Cancelled =>
          closing := CancelledEvents();
        case Failed(reason) =>
          closing := GenericFailure(reason);
        case AllRanges(processed) =>
          if env.exportFailure.Some? {
            closing := [Status(CreatingVideo)] + GenericFailure(env.exportFailure.value);
          } else {
            exported := Some(processed);
            if !env.mux.Exited0? {
              closing := [Status(CreatingVideo)] + ToolFailure(env.mux);
            } else {
              closing := [Status(CreatingVideo)] + SuccessEvents(outputPath);
            }
          }
      }
      assert closing == AfterLoop(env, outputPath, end);
      assert run.events == opening + loop.events + closing;
      AppendAssoc(before, opening, loop.events);
      AppendAssoc(before, opening + loop.events, closing);
      events := events + closing;
    }

    /** `_process_video`: the events `RunSpec` gives are passed to the
        callback, the segments it lists are separated, and the temporary
        directory created at the start has the cleanup run on it exactly
        once, whatever the outcome. */
    method ProcessVideo<T>(videoPath: string, outputPath: string, ranges: seq<(string, string)>,
                           env: Environment<T>)
      returns (inputs: seq<seq<T>>, exported: Option<seq<T>>)
      requires Valid()
      modifies this
      ensures Valid()
      ensures var run := RunSpec(env, outputPath, ranges, old(processing));
        && events == old(events) + run.events
        && inputs == run.inputs && exported == run.exported && processing == run.flag
      ensures jobs == old(jobs)
      ensures tempDirs == old(tempDirs) + 1 && cleanups == old(cleanups) + [old(tempDirs)]
      ensures onDisk == if env.cleanupFails then old(onDisk) + {old(tempDirs)} else old(onDisk)
    {
      var dir := CreateTempDir();
      inputs, exported := RunJob(outputPath, ranges, env);
      CleanupTempDir(dir, env.cleanupFails);
    }
  }
}
