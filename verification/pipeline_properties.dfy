/** What a run of `_process_video` guarantees, whatever the environment:
    how progress moves, which messages end a run, where cancelling stops it,
    which audio each range is cut from, and what the spliced result keeps. */
module PipelineProperties {
  import opened PyBuiltins
  import opened TimeText
  import opened AudioSplice
  import opened Pipeline

  // ---------------------------------------------------------------------
  // Views of an event list

  /** The values of the progress messages, in order. */
  function ProgressValues(events: seq<Event>): seq<real>
  {
    if events == [] then []
    else (if events[0].Progress? then [events[0].percent] else []) + ProgressValues(events[1..])
  }

  function Completes(events: seq<Event>): nat
  {
    if events == [] then 0 else (if events[0].Complete? then 1 else 0) + Completes(events[1..])
  }

  function Errors(events: seq<Event>): nat
  {
    if events == [] then 0 else (if events[0].Error? then 1 else 0) + Errors(events[1..])
  }

  /** Only status and progress messages: nothing the window reacts to by
      ending the run or showing a dialog. */
  predicate Quiet(events: seq<Event>)
  {
    forall i :: 0 <= i < |events| ==> events[i].Status? || events[i].Progress?
  }

  predicate NonDecreasing(s: seq<real>)
  {
    forall i, j :: 0 <= i <= j < |s| ==> s[i] <= s[j]
  }

  predicate Within(s: seq<real>, lo: real, hi: real)
  {
    forall i :: 0 <= i < |s| ==> lo <= s[i] <= hi
  }

  lemma {:induction false} ViewsAppend(a: seq<Event>, b: seq<Event>)
    ensures ProgressValues(a + b) == ProgressValues(a) + ProgressValues(b)
    ensures Completes(a + b) == Completes(a) + Completes(b)
    ensures Errors(a + b) == Errors(a) + Errors(b)
  {
    if a != [] {
      assert (a + b)[1..] == a[1..] + b;
      ViewsAppend(a[1..], b);
    } else {
      assert a + b == b;
    }
  }

  lemma {:induction false} QuietViews(events: seq<Event>)
    requires Quiet(events)
    ensures Completes(events) == 0 && Errors(events) == 0
  {
    if events != [] {
      assert Quiet(events[1..]) by {
        forall i | 0 <= i < |events[1..]|
          ensures events[1..][i].Status? || events[1..][i].Progress?
        {
          assert events[1..][i] == events[i + 1];
        }
      }
      QuietViews(events[1..]);
    }
  }

  lemma QuietAppend(a: seq<Event>, b: seq<Event>)
    requires Quiet(a) && Quiet(b)
    ensures Quiet(a + b)
  {
    forall i | 0 <= i < |a + b|
      ensures (a + b)[i].Status? || (a + b)[i].Progress?
    {
      if i >= |a| {
        assert (a + b)[i] == b[i - |a|];
      }
    }
  }

  /** Joining two non-decreasing runs of values, the first ending no higher
      than the second starts. */
  lemma RisingAppend(a: seq<real>, b: seq<real>, lo: real, mid: real, hi: real)
    requires lo <= mid <= hi
    requires NonDecreasing(a) && Within(a, lo, mid)
    requires NonDecreasing(b) && Within(b, mid, hi)
    ensures NonDecreasing(a + b) && Within(a + b, lo, hi)
  {
    forall i, j | 0 <= i <= j < |a + b|
      ensures (a + b)[i] <= (a + b)[j]
    {
      if j < |a| {
        assert (a + b)[i] == a[i] && (a + b)[j] == a[j];
      } else if i >= |a| {
        assert (a + b)[i] == b[i - |a|] && (a + b)[j] == b[j - |a|];
      } else {
        assert (a + b)[i] == a[i] && (a + b)[j] == b[j - |a|];
      }
    }
    forall i | 0 <= i < |a + b|
      ensures lo <= (a + b)[i] <= hi
    {
      if i >= |a| {
        assert (a + b)[i] == b[i - |a|];
      }
    }
  }

  lemma PortionRises(k: nat, n: nat)
    requires 0 < n
    ensures Portion(k, n) <= Portion(k + 1, n)
  {
    var d := n as real;
    assert (k * 90) as real <= ((k + 1) * 90) as real;
    assert (k * 90) as real / d <= ((k + 1) * 90) as real / d;
  }

  // ---------------------------------------------------------------------
  // The loop over the ranges

  lemma StepQuiet<T>(env: Environment<T>, audio: seq<T>, ranges: seq<(string, string)>, k: nat, processed: seq<T>)
    requires k < |ranges|
    ensures Quiet(RangeStep(env, audio, ranges, k, processed).events)
  {
  }

  /** The loop itself only reports status and progress. */
  lemma {:induction false} LoopQuiet<T>(env: Environment<T>, audio: seq<T>, ranges: seq<(string, string)>,
                                        k: nat, processed: seq<T>, flag: bool)
    requires k <= |ranges|
    ensures Quiet(LoopFrom(env, audio, ranges, k, processed, flag).events)
    decreases |ranges| - k
  {
    if k < |ranges| && flag && k + 1 !in env.cancelBefore {
      var step := RangeStep(env, audio, ranges, k, processed);
      StepQuiet(env, audio, ranges, k, processed);
      LoopFromOutput(env, audio, ranges, k, processed);
      if step.failure.None? {
        LoopQuiet(env, audio, ranges, k + 1, step.next, true);
        QuietAppend(step.events, LoopFrom(env, audio, ranges, k + 1, step.next, true).events);
      } else {
        assert LoopFrom(env, audio, ranges, k, processed, flag).events == step.events;
      }
    } else {
      assert LoopFrom(env, audio, ranges, k, processed, flag).events == [];
    }
  }

  /** The progress one pass reports: the share of the ranges before it,
      then, if it completes, the share including it. */
  lemma StepProgress<T>(env: Environment<T>, audio: seq<T>, ranges: seq<(string, string)>, k: nat, processed: seq<T>)
    requires k < |ranges|
    ensures var step := RangeStep(env, audio, ranges, k, processed);
      ProgressValues(step.events) ==
        if step.failure.None? then [Portion(k, |ranges|), Portion(k + 1, |ranges|)] else [Portion(k, |ranges|)]
  {
    var n := |ranges|;
    var opening := [Status(RangeStatus(k + 1, n, ranges[k])), Progress(Portion(k, n))];
    var closing := [Progress(Portion(k + 1, n))];
    assert ProgressValues(closing) == [Portion(k + 1, n)] by {
      assert closing[1..] == [];
    }
    assert ProgressValues(opening) == [Portion(k, n)] by {
      assert opening[1..] == [Progress(Portion(k, n))];
      assert ProgressValues(opening[1..]) == [Portion(k, n)] by {
        assert opening[1..][1..] == [];
      }
    }
    ViewsAppend(opening, closing);
  }

  /** The two values of a pass that goes on, followed by values that rise
      from the second of them up to 90. */
  lemma PassRises(k: nat, n: nat, rest: seq<real>)
    requires k < n && NonDecreasing(rest) && Within(rest, Portion(k + 1, n), 90.0)
    ensures var p := [Portion(k, n), Portion(k + 1, n)] + rest;
      NonDecreasing(p) && Within(p, Portion(k, n), 90.0)
  {
    PortionRises(k, n);
    RisingAppend([Portion(k, n), Portion(k + 1, n)], rest, Portion(k, n), Portion(k + 1, n), 90.0);
  }

  /** A pass that reports ranges `k` and `k + 1` of `n`, followed by messages
      whose progress rises from the latter, rises from the former. */
  lemma PassThenRest(k: nat, n: nat, here: seq<Event>, rest: seq<Event>)
    requires k < n && ProgressValues(here) == [Portion(k, n), Portion(k + 1, n)]
    requires NonDecreasing(ProgressValues(rest)) && Within(ProgressValues(rest), Portion(k + 1, n), 90.0)
    ensures var p := ProgressValues(here + rest);
      NonDecreasing(p) && Within(p, Portion(k, n), 90.0)
  {
    ViewsAppend(here, rest);
    PassRises(k, n, ProgressValues(rest));
  }

  /** From range `k` on, the loop's progress values never go down and stay
      between the share of the first `k` ranges and 90. */
  lemma {:induction false} LoopProgress<T>(env: Environment<T>, audio: seq<T>, ranges: seq<(string, string)>,
                                           k: nat, processed: seq<T>, flag: bool)
    requires k <= |ranges| && 0 < |ranges|
    ensures var p := ProgressValues(LoopFrom(env, audio, ranges, k, processed, flag).events);
      NonDecreasing(p) && Within(p, Portion(k, |ranges|), 90.0)
    decreases |ranges| - k
  {
    var n := |ranges|;
    var here := LoopFrom(env, audio, ranges, k, processed, flag);
    if k < n && flag && k + 1 !in env.cancelBefore {
      var step := RangeStep(env, audio, ranges, k, processed);
      LoopFromOutput(env, audio, ranges, k, processed);
      StepProgress(env, audio, ranges, k, processed);
      if step.failure.None? {
        var rest := LoopFrom(env, audio, ranges, k + 1, step.next, true);
        LoopProgress(env, audio, ranges, k + 1, step.next, true);
        PassThenRest(k, n, step.events, rest.events);
      } else {
        assert ProgressValues(here.events) == [Portion(k, n)];
      }
    } else {
      assert here.events == [];
    }
  }

  /** The segment range `r` selects in `audio`, when both its times convert. */
  function Segment<T>(audio: seq<T>, r: (string, string)): Option<seq<T>>
  {
    var s, e := TimeToSeconds(r.0), TimeToSeconds(r.1);
    if s.Ok? && e.Ok? then Some(Slice(audio, 1000 * s.value, 1000 * e.value)) else None
  }

  /** One pass cuts at most one segment for separation, the one its own
      range selects, and a pass that goes on has cut it. */
  lemma StepInputs<T>(env: Environment<T>, audio: seq<T>, ranges: seq<(string, string)>, k: nat, processed: seq<T>)
    requires k < |ranges|
    ensures var step := RangeStep(env, audio, ranges, k, processed);
      && |step.inputs| <= 1
      && (step.failure.None? ==> |step.inputs| == 1)
      && (|step.inputs| == 1 ==> Segment(audio, ranges[k]) == Some(step.inputs[0]))
  {
  }

  /** `inputs` are the segments of the ranges from `k` on, in order. */
  ghost predicate SegmentsFrom<T>(audio: seq<T>, ranges: seq<(string, string)>, k: nat, inputs: seq<seq<T>>)
    decreases |inputs|
  {
    inputs == []
    || (k < |ranges| && Segment(audio, ranges[k]) == Some(inputs[0]) && SegmentsFrom(audio, ranges, k + 1, inputs[1..]))
  }

  /** `SegmentsFrom` index by index. */
  lemma {:induction false} SegmentsFromAt<T>(audio: seq<T>, ranges: seq<(string, string)>, k: nat, inputs: seq<seq<T>>)
    requires k <= |ranges| && SegmentsFrom(audio, ranges, k, inputs)
    ensures k + |inputs| <= |ranges|
    ensures forall i :: k <= i < k + |inputs| ==> Segment(audio, ranges[i]) == Some(inputs[i - k])
    decreases |inputs|
  {
    if inputs != [] {
      assert k < |ranges| && Segment(audio, ranges[k]) == Some(inputs[0]);
      assert SegmentsFrom(audio, ranges, k + 1, inputs[1..]);
      SegmentsFromAt(audio, ranges, k + 1, inputs[1..]);
      forall i | k < i < k + |inputs|
        ensures Segment(audio, ranges[i]) == Some(inputs[i - k])
      {
        assert inputs[i - k] == inputs[1..][i - (k + 1)];
      }
    }
  }

  /** The segments cut for separation from range `k` on are those of the
      ranges from `k` on, in order: each is its range cut out of the
      extracted audio, whatever the running result and whatever separation
      gave for earlier ranges. */
  lemma {:induction false} LoopInputs<T>(env: Environment<T>, audio: seq<T>, ranges: seq<(string, string)>,
                                         k: nat, processed: seq<T>, flag: bool)
    requires k <= |ranges|
    ensures SegmentsFrom(audio, ranges, k, LoopFrom(env, audio, ranges, k, processed, flag).inputs)
    decreases |ranges| - k
  {
    if k < |ranges| && flag && k + 1 !in env.cancelBefore {
      var step := RangeStep(env, audio, ranges, k, processed);
      LoopFromOutput(env, audio, ranges, k, processed);
      StepInputs(env, audio, ranges, k, processed);
      if step.failure.None? {
        var rest := LoopFrom(env, audio, ranges, k + 1, step.next, true);
        LoopInputs(env, audio, ranges, k + 1, step.next, true);
        var inputs := step.inputs + rest.inputs;
        assert inputs[1..] == rest.inputs;
      } else if step.inputs != [] {
        assert step.inputs[1..] == [];
      }
    } else if k < |ranges| {
      LoopFromCancel(env, audio, ranges, k, processed, flag);
    }
  }

  /** A Cancel pressed before the check of range `idx` (1-based) keeps that
      range and every later one from being separated, and, when there is
      such a range, the loop from getting through them all. */
  lemma {:induction false} LoopCancel<T>(env: Environment<T>, audio: seq<T>, ranges: seq<(string, string)>,
                                         k: nat, processed: seq<T>, flag: bool, idx: nat)
    requires k <= |ranges| && k < idx && idx in env.cancelBefore
    ensures var loop := LoopFrom(env, audio, ranges, k, processed, flag);
      |loop.inputs| < idx - k && (idx <= |ranges| ==> !loop.end.AllRanges?)
    decreases |ranges| - k
  {
    if k < |ranges| && flag && k + 1 !in env.cancelBefore {
      var step := RangeStep(env, audio, ranges, k, processed);
      LoopFromOutput(env, audio, ranges, k, processed);
      LoopFromEnd(env, audio, ranges, k, processed);
      if step.failure.None? {
        LoopCancel(env, audio, ranges, k + 1, step.next, true, idx);
      }
    } else if k < |ranges| {
      LoopFromCancel(env, audio, ranges, k, processed, flag);
    }
  }

  /** The loop only ever lowers the flag, and leaves it raised when nobody
      presses Cancel. */
  lemma LoopFlag<T>(env: Environment<T>, audio: seq<T>, ranges: seq<(string, string)>,
                    k: nat, processed: seq<T>, flag: bool)
    requires k <= |ranges|
    ensures var loop := LoopFrom(env, audio, ranges, k, processed, flag);
      && (loop.flag ==> flag)
      && (flag && env.cancelBefore == {} ==> loop.flag)
      && (loop.end.Cancelled? ==> !loop.flag)
      && (k < |ranges| && !loop.flag ==> loop.end.Cancelled?)
  {
    LoopLowersFlag(env, audio, ranges, k, processed, flag);
    if flag && env.cancelBefore == {} {
      LoopKeepsFlag(env, audio, ranges, k, processed);
    }
  }

  /** The flag the loop leaves is lowered exactly when it stopped on a
      Cancel, and is never raised. */
  lemma {:induction false} LoopLowersFlag<T>(env: Environment<T>, audio: seq<T>, ranges: seq<(string, string)>,
                                             k: nat, processed: seq<T>, flag: bool)
    requires k <= |ranges|
    ensures var loop := LoopFrom(env, audio, ranges, k, processed, flag);
      && (loop.flag ==> flag)
      && (loop.end.Cancelled? ==> !loop.flag)
      && (k < |ranges| && !loop.flag ==> loop.end.Cancelled?)
    decreases |ranges| - k
  {
    if k < |ranges| && flag && k + 1 !in env.cancelBefore {
      var step := RangeStep(env, audio, ranges, k, processed);
      LoopFromEnd(env, audio, ranges, k, processed);
      if step.failure.None? {
        LoopLowersFlag(env, audio, ranges, k + 1, step.next, true);
      }
    } else if k < |ranges| {
      LoopFromCancel(env, audio, ranges, k, processed, flag);
    }
  }

  /** With no Cancel at all, a raised flag stays raised. */
  lemma {:induction false} LoopKeepsFlag<T>(env: Environment<T>, audio: seq<T>, ranges: seq<(string, string)>,
                                            k: nat, processed: seq<T>)
    requires k <= |ranges| && env.cancelBefore == {}
    ensures LoopFrom(env, audio, ranges, k, processed, true).flag
    decreases |ranges| - k
  {
    if k < |ranges| {
      var step := RangeStep(env, audio, ranges, k, processed);
      LoopFromEnd(env, audio, ranges, k, processed);
      if step.failure.None? {
        LoopKeepsFlag(env, audio, ranges, k + 1, step.next);
      }
    }
  }

  /** Separation returns as many units as it is given. */
  ghost predicate KeepsLength<T(!new)>(env: Environment<T>)
  {
    forall part :: env.separate(part).Vocals? ==> |env.separate(part).track| == |part|
  }

  /** Every range whose two times convert has its start no later than its
      end (the window's check guarantees more: strictly earlier). */
  predicate Forward(ranges: seq<(string, string)>)
  {
    forall i :: 0 <= i < |ranges| ==>
      var s, e := TimeToSeconds(ranges[i].0), TimeToSeconds(ranges[i].1);
      s.Ok? && e.Ok? ==> s.value <= e.value
  }

  /** Position `j` (in milliseconds) lies in none of the ranges from `k` on. */
  predicate Uncovered(ranges: seq<(string, string)>, k: nat, j: nat)
  {
    forall i :: k <= i < |ranges| ==>
      var s, e := TimeToSeconds(ranges[i].0), TimeToSeconds(ranges[i].1);
      !(s.Ok? && e.Ok? && 1000 * s.value <= j < 1000 * e.value)
  }

  /** Range `r`, when both its times convert, starts no later than it ends. */
  predicate Ordered(r: (string, string))
  {
    var s, e := TimeToSeconds(r.0), TimeToSeconds(r.1);
    s.Ok? && e.Ok? ==> s.value <= e.value
  }

  /** Range `r` is ordered and does not cover millisecond `j`. */
  predicate Clear(r: (string, string), j: nat)
  {
    var s, e := TimeToSeconds(r.0), TimeToSeconds(r.1);
    Ordered(r) && (s.Ok? && e.Ok? ==> !(1000 * s.value <= j < 1000 * e.value))
  }

  /** Every range from `k` on is ordered (`Forward`, one range at a time). */
  predicate OrderedFrom(ranges: seq<(string, string)>, k: nat)
    decreases |ranges| - k
  {
    k >= |ranges| || (Ordered(ranges[k]) && OrderedFrom(ranges, k + 1))
  }

  /** Every range from `k` on is clear of `j` (`Forward` and `Uncovered`, one
      range at a time). */
  predicate ClearFrom(ranges: seq<(string, string)>, k: nat, j: nat)
    decreases |ranges| - k
  {
    k >= |ranges| || (Clear(ranges[k], j) && ClearFrom(ranges, k + 1, j))
  }

  lemma {:induction false} OrderedFromOf(ranges: seq<(string, string)>, k: nat)
    requires Forward(ranges)
    ensures OrderedFrom(ranges, k)
    decreases |ranges| - k
  {
    if k < |ranges| {
      OrderedFromOf(ranges, k + 1);
    }
  }

  lemma {:induction false} ClearFromOf(ranges: seq<(string, string)>, k: nat, j: nat)
    requires Forward(ranges) && Uncovered(ranges, k, j)
    ensures ClearFrom(ranges, k, j)
    decreases |ranges| - k
  {
    if k < |ranges| {
      ClearFromOf(ranges, k + 1, j);
    }
  }

  /** One pass that does not raise, over an ordered range, keeps the length. */
  lemma StepKeepsLength<T(!new)>(env: Environment<T>, audio: seq<T>, ranges: seq<(string, string)>,
                                 k: nat, processed: seq<T>)
    requires k < |ranges| && KeepsLength(env) && |processed| == |audio| && Ordered(ranges[k])
    ensures var step := RangeStep(env, audio, ranges, k, processed);
      step.failure.None? ==> |step.next| == |audio|
  {
    var step := RangeStep(env, audio, ranges, k, processed);
    if step.failure.None? {
      var s, e := TimeToSeconds(ranges[k].0).value, TimeToSeconds(ranges[k].1).value;
      var track := env.separate(Slice(audio, 1000 * s, 1000 * e)).track;
      assert step.next == Splice(processed, 1000 * s, 1000 * e, track);
      SpliceClamped(processed, 1000 * s, 1000 * e, track);
    }
  }

  /** With separation keeping lengths, a loop that gets through every range,
      all ordered from `k` on, leaves the audio as long as it was. */
  lemma {:induction false} LoopKeepsLength<T(!new)>(env: Environment<T>, audio: seq<T>, ranges: seq<(string, string)>,
                                              k: nat, processed: seq<T>, flag: bool)
    requires k <= |ranges| && KeepsLength(env) && OrderedFrom(ranges, k) && |processed| == |audio|
    ensures var end := LoopFrom(env, audio, ranges, k, processed, flag).end;
      end.AllRanges? ==> |end.audio| == |audio|
    decreases |ranges| - k
  {
    if k < |ranges| && flag && k + 1 !in env.cancelBefore {
      assert Ordered(ranges[k]) && OrderedFrom(ranges, k + 1);
      var step := RangeStep(env, audio, ranges, k, processed);
      LoopFromEnd(env, audio, ranges, k, processed);
      if step.failure.None? {
        StepKeepsLength(env, audio, ranges, k, processed);
        LoopKeepsLength(env, audio, ranges, k + 1, step.next, true);
      }
    } else if k < |ranges| {
      LoopFromCancel(env, audio, ranges, k, processed, flag);
    }
  }

  /** One pass that does not raise keeps the length and the millisecond at
      `j`, which the range does not cover. */
  lemma StepKeepsAt<T(!new)>(env: Environment<T>, audio: seq<T>, ranges: seq<(string, string)>,
                             k: nat, processed: seq<T>, j: nat)
    requires k < |ranges| && KeepsLength(env) && |processed| == |audio|
    requires j < |audio| && Clear(ranges[k], j)
    ensures var step := RangeStep(env, audio, ranges, k, processed);
      step.failure.None? ==> |step.next| == |audio| && step.next[j] == processed[j]
  {
    var step := RangeStep(env, audio, ranges, k, processed);
    if step.failure.None? {
      var s, e := TimeToSeconds(ranges[k].0).value, TimeToSeconds(ranges[k].1).value;
      var track := env.separate(Slice(audio, 1000 * s, 1000 * e)).track;
      assert step.next == Splice(processed, 1000 * s, 1000 * e, track);
      SpliceClamped(processed, 1000 * s, 1000 * e, track);
    }
  }

  /** With separation keeping lengths, a loop that gets through every range
      leaves the millisecond at `j`, which every range from `k` on is clear
      of, as it was. */
  lemma {:induction false} LoopKeepsAt<T(!new)>(env: Environment<T>, audio: seq<T>, ranges: seq<(string, string)>,
                                          k: nat, processed: seq<T>, flag: bool, j: nat)
    requires k <= |ranges| && KeepsLength(env) && |processed| == |audio|
    requires j < |audio| && ClearFrom(ranges, k, j)
    ensures var end := LoopFrom(env, audio, ranges, k, processed, flag).end;
      end.AllRanges? ==> |end.audio| == |audio| ==> end.audio[j] == processed[j]
    decreases |ranges| - k
  {
    if k < |ranges| && flag && k + 1 !in env.cancelBefore {
      assert Clear(ranges[k], j) && ClearFrom(ranges, k + 1, j);
      var step := RangeStep(env, audio, ranges, k, processed);
      LoopFromEnd(env, audio, ranges, k, processed);
      if step.failure.None? {
        StepKeepsAt(env, audio, ranges, k, processed, j);
        LoopKeepsAt(env, audio, ranges, k + 1, step.next, true, j);
      }
    } else if k < |ranges| {
      LoopFromCancel(env, audio, ranges, k, processed, flag);
    }
  }

  /** Both of the above for the whole audio: a loop that gets through every
      range keeps the length and every millisecond no range covers. */
  lemma LoopKeepsOutside<T(!new)>(env: Environment<T>, audio: seq<T>, ranges: seq<(string, string)>,
                                  k: nat, processed: seq<T>, flag: bool)
    requires k <= |ranges| && KeepsLength(env) && Forward(ranges) && |processed| == |audio|
    ensures var end := LoopFrom(env, audio, ranges, k, processed, flag).end;
      end.AllRanges? ==>
        && |end.audio| == |audio|
        && forall j :: 0 <= j < |audio| && Uncovered(ranges, k, j) ==> end.audio[j] == processed[j]
  {
    OrderedFromOf(ranges, k);
    LoopKeepsLength(env, audio, ranges, k, processed, flag);
    forall j | 0 <= j < |audio| && Uncovered(ranges, k, j)
      ensures var end := LoopFrom(env, audio, ranges, k, processed, flag).end;
        end.AllRanges? ==> end.audio[j] == processed[j]
    {
      ClearFromOf(ranges, k, j);
      LoopKeepsAt(env, audio, ranges, k, processed, flag, j);
    }
  }

  /** With no Cancel, times that all convert and a separation that never
      fails, the loop gets through every range and separates each one. */
  lemma {:induction false} LoopCompletes<T>(env: Environment<T>, audio: seq<T>, ranges: seq<(string, string)>,
                                            k: nat, processed: seq<T>)
    requires k <= |ranges| && env.cancelBefore == {}
    requires forall i :: 0 <= i < |ranges| ==> TimeToSeconds(ranges[i].0).Ok? && TimeToSeconds(ranges[i].1).Ok?
    requires forall part :: env.separate(part).Vocals?
    ensures var loop := LoopFrom(env, audio, ranges, k, processed, true);
      loop.end.AllRanges? && |loop.inputs| == |ranges| - k && loop.flag
    decreases |ranges| - k
  {
    if k < |ranges| {
      var step := RangeStep(env, audio, ranges, k, processed);
      var s, e := TimeToSeconds(ranges[k].0), TimeToSeconds(ranges[k].1);
      assert s.Ok? && e.Ok?;
      assert env.separate(Slice(audio, 1000 * s.value, 1000 * e.value)).Vocals?;
      assert step.failure.None?;
      LoopCompletes(env, audio, ranges, k + 1, step.next);
    }
  }

  // ---------------------------------------------------------------------
  // The whole run

  lemma SingleViews(e: Event)
    ensures ProgressValues([e]) == if e.Progress? then [e.percent] else []
    ensures Completes([e]) == (if e.Complete? then 1 else 0)
    ensures Errors([e]) == (if e.Error? then 1 else 0)
  {
    assert [e][1..] == [];
  }

  lemma PairViews(a: Event, b: Event)
    ensures ProgressValues([a, b]) == ProgressValues([a]) + ProgressValues([b])
    ensures Completes([a, b]) == Completes([a]) + Completes([b])
    ensures Errors([a, b]) == Errors([a]) + Errors([b])
  {
    assert [a, b] == [a] + [b];
    ViewsAppend([a], [b]);
  }

  /** The three completion texts are distinct: the window can tell success,
      failure and cancellation apart by the text alone. */
  lemma CompletionTextsDiffer(outputPath: string)
    ensures SuccessText(outputPath) != FailedText
    ensures SuccessText(outputPath) != CancelledText
    ensures FailedText != CancelledText
  {
    assert SuccessText(outputPath)[11] == 'c';
    assert FailedText[11] == 'f';
    assert CancelledText[11] == 'w';
  }

  /** A failed ffmpeg call reports no progress. It sends one error unless its
      handler raised, and a completion only when the call never started; what
      it sends ends with the error, or with the failure text. */
  lemma ToolFailureViews(run: ToolRun)
    requires !run.Exited0?
    ensures var sent := ToolFailure(run);
      && ProgressValues(sent) == []
      && Completes(sent) == (if run.NotStarted? then 1 else 0)
      && Errors(sent) == (if run.UndecodableStderr? then 0 else 1)
      && (sent == [] <==> run.UndecodableStderr?)
      && (sent != [] ==> Last(sent) == if run.NotStarted? then Complete(FailedText) else Error(FfmpegMessage(run)))
  {
    match run
    case ExitedNonZero(_, _) =>
      SingleViews(Error(FfmpegMessage(run)));
    case UndecodableStderr =>
    case NotStarted(reason) =>
      var failure := GenericFailure(reason);
      PairViews(failure[0], failure[1]);
      SingleViews(failure[0]);
      SingleViews(failure[1]);
  }

  /** The handlers after the loop report progress 100, once, exactly on
      success, and no other progress. */
  lemma AfterLoopProgress<T>(env: Environment<T>, outputPath: string, end: LoopEnd<T>)
    ensures var success := end.AllRanges? && env.exportFailure.None? && env.mux.Exited0?;
      ProgressValues(AfterLoop(env, outputPath, end)) == if success then [100.0] else []
  {
    var reason := if end.Failed? then end.reason else if env.exportFailure.Some? then env.exportFailure.value else "";
    var failure := GenericFailure(reason);
    var head := Status(CreatingVideo);
    match end {
      case Cancelled =>
        PairViews(CancelledEvents()[0], CancelledEvents()[1]);
        SingleViews(CancelledEvents()[0]);
        SingleViews(CancelledEvents()[1]);
      case Failed(_) =>
        PairViews(failure[0], failure[1]);
        SingleViews(failure[0]);
        SingleViews(failure[1]);
      case AllRanges(_) =>
        SingleViews(head);
        if env.exportFailure.Some? {
          PairViews(failure[0], failure[1]);
          SingleViews(failure[0]);
          SingleViews(failure[1]);
          ViewsAppend([head], failure);
        } else if !env.mux.Exited0? {
          ToolFailureViews(env.mux);
          ViewsAppend([head], ToolFailure(env.mux));
        } else {
          var success := SuccessEvents(outputPath);
          PairViews(success[0], success[1]);
          SingleViews(success[0]);
          SingleViews(success[1]);
          ViewsAppend([head], success);
        }
    }
  }

  /** What the handlers after the loop emit: one error on every failure
      except a mux whose stderr cannot be decoded, which sends nothing more;
      a completion message unless muxing exits non-zero; and they end with
      the completion, the ffmpeg error, or (that undecodable case) the
      status line. */
  lemma AfterLoopViews<T>(env: Environment<T>, outputPath: string, end: LoopEnd<T>)
    ensures var closing := AfterLoop(env, outputPath, end);
      var muxed := end.AllRanges? && env.exportFailure.None?;
      var success := muxed && env.mux.Exited0?;
      var muxError := muxed && env.mux.ExitedNonZero?;
      var muxLost := muxed && env.mux.UndecodableStderr?;
      && Completes(closing) == (if muxError || muxLost then 0 else 1)
      && Errors(closing) == (if success || muxLost || end.Cancelled? then 0 else 1)
      && |closing| > 0
      && (muxError <==> closing[|closing| - 1].Error?)
      && (muxLost ==> closing[|closing| - 1] == Status(CreatingVideo))
      && (!muxError && !muxLost ==> closing[|closing| - 1].Complete?)
      && (closing[|closing| - 1] == Complete(SuccessText(outputPath)) <==> success)
      && (closing[|closing| - 1] == Complete(CancelledText) <==> end.Cancelled?)
  {
    CompletionTextsDiffer(outputPath);
    match end {
      case Cancelled =>
        PairViews(CancelledEvents()[0], CancelledEvents()[1]);
        SingleViews(CancelledEvents()[0]);
        SingleViews(CancelledEvents()[1]);
      case Failed(reason) =>
        var failure := GenericFailure(reason);
        PairViews(failure[0], failure[1]);
        SingleViews(failure[0]);
        SingleViews(failure[1]);
      case AllRanges(audio) =>
        MuxStageViews(env, outputPath, audio);
    }
  }

  /** `AfterLoopViews` once every range is done: the export and mux steps. */
  lemma MuxStageViews<T>(env: Environment<T>, outputPath: string, audio: seq<T>)
    ensures var closing := AfterLoop(env, outputPath, AllRanges(audio));
      var success := env.exportFailure.None? && env.mux.Exited0?;
      var muxError := env.exportFailure.None? && env.mux.ExitedNonZero?;
      var muxLost := env.exportFailure.None? && env.mux.UndecodableStderr?;
      && Completes(closing) == (if muxError || muxLost then 0 else 1)
      && Errors(closing) == (if success || muxLost then 0 else 1)
      && |closing| > 0
      && (muxError <==> closing[|closing| - 1].Error?)
      && (muxLost ==> closing[|closing| - 1] == Status(CreatingVideo))
      && (!muxError && !muxLost ==> closing[|closing| - 1].Complete?)
      && (closing[|closing| - 1] == Complete(SuccessText(outputPath)) <==> success)
      && closing[|closing| - 1] != Complete(CancelledText)
  {
    CompletionTextsDiffer(outputPath);
    var head := Status(CreatingVideo);
    SingleViews(head);
    if env.exportFailure.Some? {
      var failure := GenericFailure(env.exportFailure.value);
      PairViews(failure[0], failure[1]);
      SingleViews(failure[0]);
      SingleViews(failure[1]);
      ViewsAppend([head], failure);
    } else if !env.mux.Exited0? {
      ToolFailureViews(env.mux);
      ViewsAppend([head], ToolFailure(env.mux));
    } else {
      var success := SuccessEvents(outputPath);
      PairViews(success[0], success[1]);
      SingleViews(success[0]);
      SingleViews(success[1]);
      ViewsAppend([head], success);
    }
  }

  /** The last event of a list. */
  function Last(events: seq<Event>): Event
    requires events != []
  {
    events[|events| - 1]
  }

  lemma LastAppend(a: seq<Event>, b: seq<Event>)
    requires b != []
    ensures Last(a + b) == Last(b)
  {
  }

  /** A run that reaches the loop emits the opening messages, the loop's
      messages and the handlers' messages, in that order. */
  lemma RunViews<T>(env: Environment<T>, outputPath: string, ranges: seq<(string, string)>, flag: bool)
    requires env.extraction.Exited0? && env.loaded.Ok?
    ensures var loop := LoopFrom(env, env.loaded.value, ranges, 0, env.loaded.value, flag);
      var closing := AfterLoop(env, outputPath, loop.end);
      var events := RunSpec(env, outputPath, ranges, flag).events;
      && Completes(events) == Completes(loop.events) + Completes(closing)
      && Errors(events) == Errors(loop.events) + Errors(closing)
      && closing != [] && Last(events) == Last(closing)
  {
    var loop := LoopFrom(env, env.loaded.value, ranges, 0, env.loaded.value, flag);
    var closing := AfterLoop(env, outputPath, loop.end);
    var opening := [Status(ExtractingAudio), Progress(0.0)];
    var events := RunSpec(env, outputPath, ranges, flag).events;
    assert events == opening + loop.events + closing;
    assert Completes(opening) == 0 && Errors(opening) == 0 by {
      PairViews(opening[0], opening[1]);
      SingleViews(opening[0]);
      SingleViews(opening[1]);
    }
    ViewsAppend(opening, loop.events);
    ViewsAppend(opening + loop.events, closing);
    AfterLoopViews(env, outputPath, loop.end);
    LastAppend(opening + loop.events, closing);
  }

  /** The progress a run that reaches the loop reports: the opening 0, the
      loop's, then the handlers'. */
  lemma RunProgressViews<T>(env: Environment<T>, outputPath: string, ranges: seq<(string, string)>, flag: bool)
    requires env.extraction.Exited0? && env.loaded.Ok?
    ensures var loop := LoopFrom(env, env.loaded.value, ranges, 0, env.loaded.value, flag);
      ProgressValues(RunSpec(env, outputPath, ranges, flag).events)
        == [0.0] + ProgressValues(loop.events) + ProgressValues(AfterLoop(env, outputPath, loop.end))
  {
    var loop := LoopFrom(env, env.loaded.value, ranges, 0, env.loaded.value, flag);
    var closing := AfterLoop(env, outputPath, loop.end);
    var opening := [Status(ExtractingAudio), Progress(0.0)];
    assert RunSpec(env, outputPath, ranges, flag).events == opening + loop.events + closing;
    assert ProgressValues(opening) == [0.0] by {
      PairViews(opening[0], opening[1]);
      SingleViews(opening[0]);
      SingleViews(opening[1]);
    }
    ViewsAppend(opening, loop.events);
    ViewsAppend(opening + loop.events, closing);
  }

  /** A run that stops before the loop reports progress 0 and nothing else,
      and exports nothing. */
  lemma EarlyExitProgress<T>(env: Environment<T>, outputPath: string, ranges: seq<(string, string)>, flag: bool)
    requires !(env.extraction.Exited0? && env.loaded.Ok?)
    ensures var run := RunSpec(env, outputPath, ranges, flag);
      ProgressValues(run.events) == [0.0] && run.exported.None?
  {
    var opening := [Status(ExtractingAudio), Progress(0.0)];
    var run := RunSpec(env, outputPath, ranges, flag);
    assert ProgressValues(opening) == [0.0] by {
      PairViews(opening[0], opening[1]);
      SingleViews(opening[0]);
      SingleViews(opening[1]);
    }
    if !env.extraction.Exited0? {
      assert run.events == opening + ToolFailure(env.extraction);
      ToolFailureViews(env.extraction);
      ViewsAppend(opening, ToolFailure(env.extraction));
    } else {
      var failure := GenericFailure(env.loaded.message);
      assert run.events == opening + failure;
      PairViews(failure[0], failure[1]);
      SingleViews(failure[0]);
      SingleViews(failure[1]);
      ViewsAppend(opening, failure);
    }
  }

  /** The progress a run reports starts at 0, never goes down and never
      leaves 0..100; a run that ends in success reports 100 last. */
  lemma RunProgress<T>(env: Environment<T>, outputPath: string, ranges: seq<(string, string)>, flag: bool)
    ensures var run := RunSpec(env, outputPath, ranges, flag);
      var p := ProgressValues(run.events);
      && p != [] && p[0] == 0.0
      && NonDecreasing(p) && Within(p, 0.0, 100.0)
      && (run.exported.Some? && env.mux.Exited0? ==> p[|p| - 1] == 100.0)
  {
    if env.extraction.Exited0? && env.loaded.Ok? {
      LoopCaseProgress(env, outputPath, ranges, flag);
    } else {
      EarlyExitProgress(env, outputPath, ranges, flag);
      var p: seq<real> := [0.0];
      assert NonDecreasing(p) && Within(p, 0.0, 100.0);
    }
  }

  /** Progress 0, then values that rise within 0..90, then 100 or nothing:
      the whole rises within 0..100, and ends at 100 in the first case. */
  lemma ProgressAround(middle: seq<real>, closing: seq<real>, success: bool)
    requires NonDecreasing(middle) && Within(middle, 0.0, 90.0)
    requires closing == if success then [100.0] else []
    ensures var p := [0.0] + middle + closing;
      && p[0] == 0.0 && NonDecreasing(p) && Within(p, 0.0, 100.0)
      && (success ==> p[|p| - 1] == 100.0)
  {
    RisingAppend([0.0], middle, 0.0, 0.0, 90.0);
    RisingAppend([0.0] + middle, closing, 0.0, 90.0, 100.0);
  }

  /** The progress the whole loop reports rises within 0..90. */
  lemma LoopStartRises<T>(env: Environment<T>, audio: seq<T>, ranges: seq<(string, string)>, flag: bool)
    ensures var p := ProgressValues(LoopFrom(env, audio, ranges, 0, audio, flag).events);
      NonDecreasing(p) && Within(p, 0.0, 90.0)
  {
    if ranges != [] {
      LoopProgress(env, audio, ranges, 0, audio, flag);
      assert Portion(0, |ranges|) == 0.0;
    } else {
      assert LoopFrom(env, audio, ranges, 0, audio, flag).events == [];
    }
  }

  /** `RunProgress` for a run that reaches the loop. */
  lemma LoopCaseProgress<T>(env: Environment<T>, outputPath: string, ranges: seq<(string, string)>, flag: bool)
    requires env.extraction.Exited0? && env.loaded.Ok?
    ensures var run := RunSpec(env, outputPath, ranges, flag);
      var p := ProgressValues(run.events);
      && p != [] && p[0] == 0.0
      && NonDecreasing(p) && Within(p, 0.0, 100.0)
      && (run.exported.Some? && env.mux.Exited0? ==> p[|p| - 1] == 100.0)
  {
    var audio := env.loaded.value;
    var loop := LoopFrom(env, audio, ranges, 0, audio, flag);
    var run := RunSpec(env, outputPath, ranges, flag);
    RunProgressViews(env, outputPath, ranges, flag);
    AfterLoopProgress(env, outputPath, loop.end);
    LoopStartRises(env, audio, ranges, flag);
    assert run.exported == Exported(env, loop.end);
    RunProgressOfParts(run, env.mux.Exited0?, ProgressValues(loop.events), ProgressValues(AfterLoop(env, outputPath, loop.end)));
  }

  /** A run whose progress is 0, then a rising middle within 0..90, then 100
      exactly when it exported and muxed, rises from 0 to at most 100. */
  lemma RunProgressOfParts<T>(run: Run<T>, muxOk: bool, middle: seq<real>, closing: seq<real>)
    requires ProgressValues(run.events) == [0.0] + middle + closing
    requires NonDecreasing(middle) && Within(middle, 0.0, 90.0)
    requires closing == if run.exported.Some? && muxOk then [100.0] else []
    ensures var p := ProgressValues(run.events);
      && p != [] && p[0] == 0.0
      && NonDecreasing(p) && Within(p, 0.0, 100.0)
      && (run.exported.Some? && muxOk ==> p[|p| - 1] == 100.0)
  {
    ProgressAround(middle, closing, run.exported.Some? && muxOk);
  }

  /** Every run sends at most one completion message and at most one error.
      When an ffmpeg call exits non-zero, the completion is missing (the
      handler for ffmpeg errors sends only the error) and the run ends with
      that error. When the handler raises on an undecodable stderr, the run
      sends neither. Otherwise the run ends with a completion. */
  lemma RunEnds<T>(env: Environment<T>, outputPath: string, ranges: seq<(string, string)>, flag: bool)
    ensures var run := RunSpec(env, outputPath, ranges, flag);
      var ffmpegError := env.extraction.ExitedNonZero? || (run.exported.Some? && env.mux.ExitedNonZero?);
      var handlerRaised := env.extraction.UndecodableStderr? || (run.exported.Some? && env.mux.UndecodableStderr?);
      && run.events != []
      && Completes(run.events) <= 1 && Errors(run.events) <= 1
      && (Completes(run.events) == 0 <==> ffmpegError || handlerRaised)
      && (Completes(run.events) == 0 && Errors(run.events) == 0 <==> handlerRaised)
      && (ffmpegError ==> Last(run.events).Error?)
      && (!ffmpegError && !handlerRaised ==> Last(run.events).Complete?)
  {
    var opening := [Status(ExtractingAudio), Progress(0.0)];
    PairViews(opening[0], opening[1]);
    SingleViews(opening[0]);
    SingleViews(opening[1]);
    if !env.extraction.Exited0? {
      var sent := ToolFailure(env.extraction);
      ToolFailureViews(env.extraction);
      ViewsAppend(opening, sent);
      if sent != [] {
        LastAppend(opening, sent);
      }
    } else if env.loaded.Err? {
      var failure := GenericFailure(env.loaded.message);
      PairViews(failure[0], failure[1]);
      SingleViews(failure[0]);
      SingleViews(failure[1]);
      ViewsAppend(opening, failure);
      LastAppend(opening, failure);
    } else {
      LoopCaseEnds(env, outputPath, ranges, flag);
    }
  }

  /** `RunEnds` for a run that reaches the loop: the loop adds no completion
      and no error, so the handlers' messages decide. */
  lemma LoopCaseEnds<T>(env: Environment<T>, outputPath: string, ranges: seq<(string, string)>, flag: bool)
    requires env.extraction.Exited0? && env.loaded.Ok?
    ensures var run := RunSpec(env, outputPath, ranges, flag);
      var muxError := run.exported.Some? && env.mux.ExitedNonZero?;
      var muxLost := run.exported.Some? && env.mux.UndecodableStderr?;
      && run.events != []
      && Completes(run.events) <= 1 && Errors(run.events) <= 1
      && (Completes(run.events) == 0 <==> muxError || muxLost)
      && (Completes(run.events) == 0 && Errors(run.events) == 0 <==> muxLost)
      && (muxError ==> Last(run.events).Error?)
      && (!muxError && !muxLost ==> Last(run.events).Complete?)
  {
    var audio := env.loaded.value;
    var loop := LoopFrom(env, audio, ranges, 0, audio, flag);
    assert RunSpec(env, outputPath, ranges, flag).exported == Exported(env, loop.end);
    RunViews(env, outputPath, ranges, flag);
    AfterLoopViews(env, outputPath, loop.end);
    LoopQuiet(env, audio, ranges, 0, audio, flag);
    QuietViews(loop.events);
  }

  /** The flag is only ever lowered by a run. A run started with the flag
      raised on a non-empty list ends with it lowered exactly when it ends
      with the cancellation message. The flag here is lowered only by a
      Cancel arriving before a flag check (`Environment.cancelBefore`). */
  lemma RunCancelled<T>(env: Environment<T>, outputPath: string, ranges: seq<(string, string)>, flag: bool)
    ensures var run := RunSpec(env, outputPath, ranges, flag);
      && (run.flag ==> flag)
      && (run.events != [] && (Last(run.events) == Complete(CancelledText) ==> !run.flag && run.exported.None?))
      && (flag && ranges != [] ==> (!run.flag <==> Last(run.events) == Complete(CancelledText)))
  {
    RunEnds(env, outputPath, ranges, flag);
    CompletionTextsDiffer(outputPath);
    if env.extraction.Exited0? && env.loaded.Ok? {
      var audio := env.loaded.value;
      LoopFlag(env, audio, ranges, 0, audio, flag);
      RunViews(env, outputPath, ranges, flag);
      AfterLoopViews(env, outputPath, LoopFrom(env, audio, ranges, 0, audio, flag).end);
    } else {
      var opening := [Status(ExtractingAudio), Progress(0.0)];
      if !env.extraction.Exited0? {
        ToolFailureViews(env.extraction);
        if ToolFailure(env.extraction) != [] {
          LastAppend(opening, ToolFailure(env.extraction));
        }
      } else {
        LastAppend(opening, GenericFailure(env.loaded.message));
      }
    }
  }

  /** `events` ends with the messages `tail`. */
  predicate EndsWith(events: seq<Event>, tail: seq<Event>)
  {
    |tail| <= |events| && events[|events| - |tail|..] == tail
  }

  lemma EndsWithAppend(a: seq<Event>, b: seq<Event>, tail: seq<Event>)
    requires EndsWith(b, tail)
    ensures EndsWith(a + b, tail)
  {
    assert (a + b)[|a + b| - |tail|..] == b[|b| - |tail|..];
  }

  /** The generic handler's ending: one error and one completion in the
      whole run, and the run ends with what that handler sends for `reason`. */
  predicate FailsWith(events: seq<Event>, reason: string)
  {
    Errors(events) == 1 && Completes(events) == 1 && EndsWith(events, GenericFailure(reason))
  }

  /** Every failure other than an ffmpeg call that ran and exited non-zero
      ends in the generic handler: the run sends exactly one error, then
      "Processing failed", and nothing after them. That covers ffmpeg not
      starting, Spleeter or the wav failing to load, a time that does not
      convert, a failed separation, a failed export. A run stopped by Cancel
      sends no error and ends with the cancel handler's two messages. */
  lemma RunFailureEnds<T>(env: Environment<T>, outputPath: string, ranges: seq<(string, string)>, flag: bool)
    ensures var run := RunSpec(env, outputPath, ranges, flag);
      && (env.extraction.NotStarted? ==> FailsWith(run.events, env.extraction.reason))
      && (env.extraction.Exited0? && env.loaded.Err? ==> FailsWith(run.events, env.loaded.message))
      && (env.extraction.Exited0? && env.loaded.Ok? ==>
            var end := LoopFrom(env, env.loaded.value, ranges, 0, env.loaded.value, flag).end;
            && (end.Failed? ==> FailsWith(run.events, end.reason))
            && (end.AllRanges? && env.exportFailure.Some? ==> FailsWith(run.events, env.exportFailure.value))
            && (end.AllRanges? && env.exportFailure.None? && env.mux.NotStarted? ==> FailsWith(run.events, env.mux.reason))
            && (end.Cancelled? ==>
                  Errors(run.events) == 0 && Completes(run.events) == 1 && EndsWith(run.events, CancelledEvents())))
  {
    if !env.extraction.Exited0? || env.loaded.Err? {
      EarlyFailureEnds(env, outputPath, ranges, flag);
    } else {
      LoopCaseFailureEnds(env, outputPath, ranges, flag);
    }
  }

  /** `RunFailureEnds` for a run that stops before the loop. */
  lemma EarlyFailureEnds<T>(env: Environment<T>, outputPath: string, ranges: seq<(string, string)>, flag: bool)
    requires !env.extraction.Exited0? || env.loaded.Err?
    ensures var run := RunSpec(env, outputPath, ranges, flag);
      && (env.extraction.NotStarted? ==> FailsWith(run.events, env.extraction.reason))
      && (env.extraction.Exited0? ==> FailsWith(run.events, env.loaded.message))
  {
    if env.extraction.NotStarted? || env.extraction.Exited0? {
      var reason := if env.extraction.NotStarted? then env.extraction.reason else env.loaded.message;
      assert RunSpec(env, outputPath, ranges, flag).events == [Status(ExtractingAudio), Progress(0.0)] + GenericFailure(reason);
      OpeningThenFailure(reason);
    }
  }

  /** The opening messages followed by the generic handler's. */
  lemma OpeningThenFailure(reason: string)
    ensures FailsWith([Status(ExtractingAudio), Progress(0.0)] + GenericFailure(reason), reason)
  {
    var opening := [Status(ExtractingAudio), Progress(0.0)];
    var failure := GenericFailure(reason);
    PairViews(opening[0], opening[1]);
    SingleViews(opening[0]);
    SingleViews(opening[1]);
    PairViews(failure[0], failure[1]);
    SingleViews(failure[0]);
    SingleViews(failure[1]);
    ViewsAppend(opening, failure);
    EndsWithAppend(opening, failure, failure);
  }

  /** `RunFailureEnds` for a run that reaches the loop: the loop sends no
      error and no completion, so the handlers' messages decide. */
  lemma LoopCaseFailureEnds<T>(env: Environment<T>, outputPath: string, ranges: seq<(string, string)>, flag: bool)
    requires env.extraction.Exited0? && env.loaded.Ok?
    ensures var run := RunSpec(env, outputPath, ranges, flag);
      var end := LoopFrom(env, env.loaded.value, ranges, 0, env.loaded.value, flag).end;
      && (end.Failed? ==> FailsWith(run.events, end.reason))
      && (end.AllRanges? && env.exportFailure.Some? ==> FailsWith(run.events, env.exportFailure.value))
      && (end.AllRanges? && env.exportFailure.None? && env.mux.NotStarted? ==> FailsWith(run.events, env.mux.reason))
      && (end.Cancelled? ==>
            Errors(run.events) == 0 && Completes(run.events) == 1 && EndsWith(run.events, CancelledEvents()))
  {
    var audio := env.loaded.value;
    var loop := LoopFrom(env, audio, ranges, 0, audio, flag);
    var closing := AfterLoop(env, outputPath, loop.end);
    var events := RunSpec(env, outputPath, ranges, flag).events;
    RunViews(env, outputPath, ranges, flag);
    RunEndsWithClosing(env, outputPath, ranges, flag);
    AfterLoopViews(env, outputPath, loop.end);
    AfterLoopEnds(env, outputPath, loop.end);
    LoopQuiet(env, audio, ranges, 0, audio, flag);
    QuietViews(loop.events);
    match loop.end {
      case Cancelled =>
        EndsWithTrans(events, closing, CancelledEvents());
      case Failed(reason) =>
        EndsWithTrans(events, closing, GenericFailure(reason));
      case AllRanges(_) =>
        if env.exportFailure.Some? {
          EndsWithTrans(events, closing, GenericFailure(env.exportFailure.value));
        } else if env.mux.NotStarted? {
          EndsWithTrans(events, closing, GenericFailure(env.mux.reason));
        }
    }
  }

  /** A run that reaches the loop ends with the handlers' messages. */
  lemma RunEndsWithClosing<T>(env: Environment<T>, outputPath: string, ranges: seq<(string, string)>, flag: bool)
    requires env.extraction.Exited0? && env.loaded.Ok?
    ensures var loop := LoopFrom(env, env.loaded.value, ranges, 0, env.loaded.value, flag);
      EndsWith(RunSpec(env, outputPath, ranges, flag).events, AfterLoop(env, outputPath, loop.end))
  {
    var loop := LoopFrom(env, env.loaded.value, ranges, 0, env.loaded.value, flag);
    var closing := AfterLoop(env, outputPath, loop.end);
    var opening := [Status(ExtractingAudio), Progress(0.0)];
    assert RunSpec(env, outputPath, ranges, flag).events == (opening + loop.events) + closing;
    EndsWithAppend(opening + loop.events, closing, closing);
  }

  /** The handlers' last two messages after the loop: the generic handler's
      for a failed range, a failed export or an ffmpeg that did not start, the
      cancel handler's for a cancelled loop. */
  lemma AfterLoopEnds<T>(env: Environment<T>, outputPath: string, end: LoopEnd<T>)
    ensures var closing := AfterLoop(env, outputPath, end);
      && (end.Cancelled? ==> EndsWith(closing, CancelledEvents()))
      && (end.Failed? ==> EndsWith(closing, GenericFailure(end.reason)))
      && (end.AllRanges? && env.exportFailure.Some? ==> EndsWith(closing, GenericFailure(env.exportFailure.value)))
      && (end.AllRanges? && env.exportFailure.None? && env.mux.NotStarted? ==> EndsWith(closing, GenericFailure(env.mux.reason)))
  {
    if end.AllRanges? && (env.exportFailure.Some? || env.mux.NotStarted?) {
      var reason := if env.exportFailure.Some? then env.exportFailure.value else env.mux.reason;
      assert AfterLoop(env, outputPath, end) == [Status(CreatingVideo)] + GenericFailure(reason);
      EndsWithAppend([Status(CreatingVideo)], GenericFailure(reason), GenericFailure(reason));
    }
  }

  lemma EndsWithTrans(events: seq<Event>, middle: seq<Event>, tail: seq<Event>)
    requires EndsWith(events, middle) && EndsWith(middle, tail)
    ensures EndsWith(events, tail)
  {
    assert events[|events| - |tail|..] == middle[|middle| - |tail|..];
  }

  /** A run whose flag is already down when it starts separates nothing and
      exports nothing. */
  lemma LoweredFlagRunsNothing<T>(env: Environment<T>, outputPath: string, ranges: seq<(string, string)>)
    requires ranges != []
    ensures var run := RunSpec(env, outputPath, ranges, false);
      run.inputs == [] && run.exported.None? && !run.flag
  {
  }

  /** A Cancel pressed before the check of range `idx` (1-based) keeps that
      range and all later ones from being separated, and nothing is exported. */
  lemma CancelStopsRun<T>(env: Environment<T>, outputPath: string, ranges: seq<(string, string)>, flag: bool, idx: nat)
    requires 1 <= idx <= |ranges| && idx in env.cancelBefore
    ensures var run := RunSpec(env, outputPath, ranges, flag);
      |run.inputs| < idx && run.exported.None?
  {
    if env.extraction.Exited0? && env.loaded.Ok? {
      var audio := env.loaded.value;
      LoopCancel(env, audio, ranges, 0, audio, flag, idx);
    }
  }

  /** Every segment cut for separation is the span of its range cut out
      of the extracted soundtrack, in the order of the ranges. */
  lemma RunInputs<T>(env: Environment<T>, outputPath: string, ranges: seq<(string, string)>, flag: bool)
    ensures var run := RunSpec(env, outputPath, ranges, flag);
      && |run.inputs| <= |ranges|
      && (run.inputs != [] ==> env.loaded.Ok?)
      && forall i :: 0 <= i < |run.inputs| ==> Segment(env.loaded.value, ranges[i]) == Some(run.inputs[i])
  {
    if env.extraction.Exited0? && env.loaded.Ok? {
      var audio := env.loaded.value;
      LoopInputs(env, audio, ranges, 0, audio, flag);
      var inputs := LoopFrom(env, audio, ranges, 0, audio, flag).inputs;
      SegmentsFromAt(audio, ranges, 0, inputs);
      forall i | 0 <= i < |inputs|
        ensures Segment(audio, ranges[i]) == Some(inputs[i])
      {
        assert inputs[i - 0] == inputs[i];
      }
    }
  }

  /** When separation keeps lengths and the ranges run forward, the audio
      put under the video is as long as the extracted soundtrack and equal
      to it at every millisecond no range covers. */
  lemma RunKeepsOutside<T(!new)>(env: Environment<T>, outputPath: string, ranges: seq<(string, string)>, flag: bool)
    requires KeepsLength(env) && Forward(ranges)
    ensures var run := RunSpec(env, outputPath, ranges, flag);
      run.exported.Some? ==>
        && env.loaded.Ok?
        && |run.exported.value| == |env.loaded.value|
        && forall j :: 0 <= j < |env.loaded.value| && Uncovered(ranges, 0, j) ==>
             run.exported.value[j] == env.loaded.value[j]
  {
    if env.extraction.Exited0? && env.loaded.Ok? {
      var audio := env.loaded.value;
      LoopKeepsOutside(env, audio, ranges, 0, audio, flag);
    }
  }

  /** With every outside step succeeding, no Cancel and times that all
      convert, a started run separates every range and ends in success. */
  lemma RunSucceeds<T>(env: Environment<T>, outputPath: string, ranges: seq<(string, string)>)
    requires env.extraction.Exited0? && env.loaded.Ok? && env.cancelBefore == {}
    requires env.exportFailure.None? && env.mux.Exited0?
    requires forall i :: 0 <= i < |ranges| ==> TimeToSeconds(ranges[i].0).Ok? && TimeToSeconds(ranges[i].1).Ok?
    requires forall part :: env.separate(part).Vocals?
    ensures var run := RunSpec(env, outputPath, ranges, true);
      && |run.inputs| == |ranges| && run.exported.Some? && run.flag
      && run.events != [] && Last(run.events) == Complete(SuccessText(outputPath))
  {
    var audio := env.loaded.value;
    LoopCompletes(env, audio, ranges, 0, audio);
    RunViews(env, outputPath, ranges, true);
    AfterLoopViews(env, outputPath, LoopFrom(env, audio, ranges, 0, audio, true).end);
  }
}
