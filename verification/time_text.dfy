/** Time strings of the form HH:MM:SS.

    The range entries parse them with `TimeRangeFrame.parse_time` and also
    define a pattern check, `validate_time` (main.py), which no entry
    registers as its validation command; the worker parses them again
    with `AudioProcessor._time_to_seconds`, and `get_video_duration` writes
    the probed duration in the same form (processing.py). Both parsers go
    through `timedelta(...).total_seconds()`, which is a whole number of
    seconds here because every component is a whole number. */
module TimeText {
  import opened PyBuiltins

  /** A `timedelta` spans fewer than 1000000000 days, so its seconds stay below this. */
  const TimedeltaLimit: nat := 1_000_000_000 * 86400

  /** The one message `parse_time` raises, whatever went wrong. */
  const InvalidFormat := "Invalid time format (Use HH:MM:SS)"

  /** `timedelta(hours=h, minutes=m, seconds=s).total_seconds()`, or the
      message of the OverflowError that `timedelta` raises when the day count
      `total / 86400` passes 999999999. */
  function Timedelta(h: nat, m: nat, s: nat): Result<nat>
  {
    var total := 3600 * h + 60 * m + s;
    if total < TimedeltaLimit then Ok(total) else Err(OverflowMessage(total / 86400))
  }

  /** The text of that OverflowError: the day count is reported when it fits
      a C int, and the conversion to a C int fails otherwise. */
  function OverflowMessage(days: nat): string
  {
    if days <= 2147483647 then "days=" + Decimal(days) + "; must have magnitude <= 999999999"
    else "Python int too large to convert to C int"
  }

  /** The three numerals of a text that splits on ':' into exactly three of them. */
  predicate IsClockText(text: string)
  {
    var p := Split(text);
    |p| == 3 && IsNumeral(p[0]) && IsNumeral(p[1]) && IsNumeral(p[2])
  }

  function ClockSeconds(text: string): nat
    requires IsClockText(text)
  {
    var p := Split(text);
    3600 * Value(p[0]) + 60 * Value(p[1]) + Value(p[2])
  }

  // ---------------------------------------------------------------------
  // main.py: TimeRangeFrame.parse_time

  /** `parse_time`: split on ':', demand three parts, convert each with
      `int()`, build a `timedelta`. The bare `except` turns every failure,
      the overflow included, into the same ValueError message. */
  function ParseTime(text: string): Result<nat>
  {
    var parts := Split(text);
    if |parts| == 3 then
      if IsNumeral(parts[0]) && IsNumeral(parts[1]) && IsNumeral(parts[2]) then
        match Timedelta(Value(parts[0]), Value(parts[1]), Value(parts[2]))
        case Ok(seconds) => Ok(seconds)
        case Err(_) => Err(InvalidFormat)
      else Err(InvalidFormat)
    else Err(InvalidFormat)
  }

  /** Three numerals joined by colons parse to 3600*h + 60*m + s; the
      components are not range-checked. */
  lemma ParseTimeAccepts(h: string, m: string, s: string)
    requires IsNumeral(h) && IsNumeral(m) && IsNumeral(s)
    ensures var r := ParseTime(h + ":" + m + ":" + s);
      var total := 3600 * Value(h) + 60 * Value(m) + Value(s);
      && (r.Ok? <==> total < TimedeltaLimit)
      && (r.Ok? ==> r.value == total)
      && (r.Err? ==> r.message == InvalidFormat)
  {
    SplitPieces(h, m, s);
  }

  /** What `parse_time` accepts is exactly a clock text below the timedelta
      limit, read as 3600*h + 60*m + s; everything else raises the one message. */
  lemma ParseTimeOutcome(text: string)
    ensures ParseTime(text).Ok? <==> IsClockText(text) && ClockSeconds(text) < TimedeltaLimit
    ensures ParseTime(text).Ok? ==> ParseTime(text).value == ClockSeconds(text)
    ensures ParseTime(text).Err? ==> ParseTime(text).message == InvalidFormat
    ensures IsClockText(text) ==> var p := Split(text); text == p[0] + ":" + p[1] + ":" + p[2]
  {
    var p := Split(text);
    if |p| == 3 {
      SplitParts(text);
      JoinThree(p);
    }
  }

  /** A zero-padded text: "01:02:03" reads as 3723 seconds. */
  lemma ParseTimePadded()
    ensures ParseTime("01:02:03").Ok? && ParseTime("01:02:03").value == 3723
  {
    DigitsValue('0', '1');
    DigitsValue('0', '2');
    DigitsValue('0', '3');
    assert "01" == ['0', '1'] && "02" == ['0', '2'] && "03" == ['0', '3'];
    ParseTimeAccepts("01", "02", "03");
    assert "01" + ":" + "02" + ":" + "03" == "01:02:03";
  }

  /** Leading zeros are not required: "1:2:3" reads as 3723 seconds too. */
  lemma ParseTimeUnpadded()
    ensures ParseTime("1:2:3").Ok? && ParseTime("1:2:3").value == 3723
  {
    DigitsValue('0', '1');
    DigitsValue('0', '2');
    DigitsValue('0', '3');
    ParseTimeAccepts("1", "2", "3");
    assert "1" + ":" + "2" + ":" + "3" == "1:2:3";
  }

  /** Minutes and seconds are not range-checked: "00:99:99" reads as 6039 seconds. */
  lemma ParseTimeNoRangeCheck()
    ensures ParseTime("00:99:99").Ok? && ParseTime("00:99:99").value == 6039
  {
    DigitsValue('0', '0');
    DigitsValue('9', '9');
    assert "00" == ['0', '0'] && "99" == ['9', '9'];
    ParseTimeAccepts("00", "99", "99");
    assert "00" + ":" + "99" + ":" + "99" == "00:99:99";
  }

  /** Padding is optional in every field: a leading zero on the hours, the
      minutes or the seconds changes nothing for either parser. */
  lemma LeadingZeroParsesAlike(h: string, m: string, s: string)
    requires IsNumeral(h) && IsNumeral(m) && IsNumeral(s)
    ensures var plain := h + ":" + m + ":" + s;
      && ParseTime(("0" + h) + ":" + m + ":" + s) == ParseTime(plain)
      && ParseTime(h + ":" + ("0" + m) + ":" + s) == ParseTime(plain)
      && ParseTime(h + ":" + m + ":" + ("0" + s)) == ParseTime(plain)
      && TimeToSeconds(("0" + h) + ":" + m + ":" + s) == TimeToSeconds(plain)
      && TimeToSeconds(h + ":" + m + ":" + ("0" + s)) == TimeToSeconds(plain)
      && TimeToSeconds(h + ":" + ("0" + m) + ":" + s) == TimeToSeconds(plain)
  {
    LeadingZero(h);
    LeadingZero(m);
    LeadingZero(s);
    SplitPieces(h, m, s);
    SplitPieces("0" + h, m, s);
    SplitPieces(h, "0" + m, s);
    SplitPieces(h, m, "0" + s);
  }

  /** An example of the rule `ParseTimeOutcome` states: "abc", without a
      colon, is one part and raises the one message. */
  lemma ParseTimeRejectsNoColon()
    ensures ParseTime("abc") == Err(InvalidFormat)
  {
    SplitNoColon("abc");
  }

  /** An example: "1:2", two parts, raises the one message. */
  lemma ParseTimeRejectsTwoParts()
    ensures ParseTime("1:2") == Err(InvalidFormat)
  {
    SplitAtColon("1", "2");
    SplitNoColon("2");
    assert "1" + ":" + "2" == "1:2";
  }

  /** An example: "1:2:3:4", four parts, raises the one message. */
  lemma ParseTimeRejectsFourParts()
    ensures ParseTime("1:2:3:4") == Err(InvalidFormat)
  {
    SplitAtColon("3", "4");
    SplitNoColon("4");
    assert "3" + ":" + "4" == "3:4";
    SplitAtColon("2", "3:4");
    assert "2" + ":" + "3:4" == "2:3:4";
    SplitAtColon("1", "2:3:4");
    assert "1" + ":" + "2:3:4" == "1:2:3:4";
  }

  /** An example: the empty middle part of "1::3" is not a numeral and
      raises the one message. */
  lemma ParseTimeRejectsEmptyPart()
    ensures ParseTime("1::3") == Err(InvalidFormat)
  {
    SplitPieces("1", "", "3");
    assert "1" + ":" + "" + ":" + "3" == "1::3";
  }

  // ---------------------------------------------------------------------
  // processing.py: AudioProcessor._time_to_seconds

  /** `_time_to_seconds`: the same split and conversion, but only a ValueError
      is caught and reworded (naming the text); the OverflowError of
      `timedelta` escapes with its own message. */
  function TimeToSeconds(text: string): Result<nat>
  {
    var parts := Split(text);
    if |parts| == 3 && IsNumeral(parts[0]) && IsNumeral(parts[1]) && IsNumeral(parts[2]) then
      Timedelta(Value(parts[0]), Value(parts[1]), Value(parts[2]))
    else
      Err("Invalid time format: " + text + ". Use HH:MM:SS format.")
  }

  /** The worker's parser accepts exactly what the entry's parser accepts and
      gives the same seconds; a text of the wrong shape is named in its error. */
  lemma ParsersAgree(text: string)
    ensures TimeToSeconds(text).Ok? <==> ParseTime(text).Ok?
    ensures TimeToSeconds(text).Ok? ==> TimeToSeconds(text).value == ParseTime(text).value
    ensures !IsClockText(text) ==>
      TimeToSeconds(text) == Err("Invalid time format: " + text + ". Use HH:MM:SS format.")
  {
  }

  // ---------------------------------------------------------------------
  // processing.py: the duration text of get_video_duration

  /** `f"{hours:02d}:{minutes:02d}:{seconds:02d}"` for a whole number of
      seconds: the text splits into hours (two digits or more, padded with a
      zero only up to two), minutes and seconds (two digits each, below 60)
      that add back up to `d`. */
  function FormatDuration(d: nat): (r: string)
    ensures var p := Split(r);
      && |p| == 3
      && IsNumeral(p[0]) && IsNumeral(p[1]) && IsNumeral(p[2])
      && |p[0]| >= 2 && |p[1]| == 2 && |p[2]| == 2
      && Value(p[1]) < 60 && Value(p[2]) < 60
      && 3600 * Value(p[0]) + 60 * Value(p[1]) + Value(p[2]) == d
      && (|p[0]| > 2 ==> p[0][0] != '0')
  {
    var hours := d / 3600;
    var minutes := (d % 3600) / 60;
    var seconds := d % 60;
    ClockArithmetic(d);
    DecimalValue(hours);
    SplitPieces(Pad2(hours), Pad2(minutes), Pad2(seconds));
    Pad2(hours) + ":" + Pad2(minutes) + ":" + Pad2(seconds)
  }

  /** Formatting a duration and parsing it back, with either parser, gives
      the duration again. */
  lemma FormatParseRoundTrip(d: nat)
    requires d < TimedeltaLimit
    ensures ParseTime(FormatDuration(d)).Ok? && ParseTime(FormatDuration(d)).value == d
    ensures TimeToSeconds(FormatDuration(d)).Ok? && TimeToSeconds(FormatDuration(d)).value == d
  {
    var p := Split(FormatDuration(d));
    assert IsClockText(FormatDuration(d));
  }

  lemma JoinThree(p: seq<string>)
    requires |p| == 3
    ensures Join(p) == p[0] + ":" + p[1] + ":" + p[2]
  {
    assert p[1..][1..] == [p[2]];
    assert Join(p[1..]) == p[1] + ":" + p[2];
  }

  lemma ClockArithmetic(d: nat)
    ensures d == 3600 * (d / 3600) + 60 * ((d % 3600) / 60) + d % 60
    ensures (d % 3600) / 60 < 60 && d % 60 < 60
  {
  }

  /** Splitting h:m:s where no piece holds a colon. */
  lemma SplitPieces(h: string, m: string, s: string)
    requires ':' !in h && ':' !in m && ':' !in s
    ensures Split(h + ":" + m + ":" + s) == [h, m, s]
  {
    SplitJoin([h, m, s]);
    JoinThree([h, m, s]);
  }

  // ---------------------------------------------------------------------
  // main.py: TimeRangeFrame.validate_time

  /** `[0-9]{0,2}` matched against the whole of `s`. */
  predicate ShortDigits(s: string)
  {
    |s| <= 2 && AllDigits(s)
  }

  /** Whether `s` is at most `groups` copies of `[0-9]{0,2}:` followed by
      `[0-9]{0,2}`: the body of the pattern
      `^([0-9]{0,2}:)?([0-9]{0,2}:)?[0-9]{0,2}$` with two groups. */
  predicate PatternMatches(s: string, groups: nat)
  {
    || ShortDigits(s)
    || (groups > 0 && exists n :: 0 <= n <= 2 && n < |s| && s[n] == ':' && AllDigits(s[..n])
                                  && PatternMatches(s[n + 1..], groups - 1))
  }

  /** `validate_time`: the empty text is accepted as not yet typed; otherwise
      `re.match` of the pattern, whose `$` also matches just before a final
      newline. */
  predicate ValidateTime(s: string)
  {
    || s == ""
    || PatternMatches(s, 2)
    || (|s| > 0 && s[|s| - 1] == '\n' && PatternMatches(s[..|s| - 1], 2))
  }

  /** Every piece has at most two digits. */
  predicate AllShort(parts: seq<string>)
  {
    forall i :: 0 <= i < |parts| ==> ShortDigits(parts[i])
  }

  /** The shape the pattern describes, stated through `split(':')`: at most
      three pieces, each of at most two digits. */
  predicate ShortClockShape(s: string)
  {
    |Split(s)| <= 3 && AllShort(Split(s))
  }

  lemma AllShortCons(p: string, q: seq<string>)
    ensures AllShort([p] + q) <==> ShortDigits(p) && AllShort(q)
  {
    if ShortDigits(p) && AllShort(q) {
      forall i | 0 <= i < |[p] + q|
        ensures ShortDigits(([p] + q)[i])
      {
        if i > 0 {
          assert ([p] + q)[i] == q[i - 1];
        }
      }
    }
    if AllShort([p] + q) {
      assert ([p] + q)[0] == p;
      forall i | 0 <= i < |q|
        ensures ShortDigits(q[i])
      {
        assert ([p] + q)[i + 1] == q[i];
      }
    }
  }

  /** Without a colon only the last, group-free alternative can match. */
  lemma PatternNoColon(s: string, groups: nat)
    requires ':' !in s
    ensures PatternMatches(s, groups) <==> ShortDigits(s)
  {
  }

  /** With a colon, the first group must end at the first colon. */
  lemma PatternFirstColon(s: string, groups: nat, i: nat)
    requires i < |s| && s[i] == ':' && ':' !in s[..i]
    ensures PatternMatches(s, groups) <==>
      groups > 0 && ShortDigits(s[..i]) && PatternMatches(s[i + 1..], groups - 1)
  {
    assert !ShortDigits(s) by {
      assert !IsDigit(s[i]);
    }
    if PatternMatches(s, groups) {
      var n :| 0 <= n <= 2 && n < |s| && s[n] == ':' && AllDigits(s[..n])
               && PatternMatches(s[n + 1..], groups - 1);
      assert n == i;
    }
  }

  lemma {:induction false} PatternMatchesSplit(s: string, groups: nat)
    ensures PatternMatches(s, groups) <==> |Split(s)| <= groups + 1 && AllShort(Split(s))
  {
    if ':' !in s {
      SplitNoColon(s);
      PatternNoColon(s, groups);
      AllShortCons(s, []);
    } else {
      var i := IndexOf(s, ':');
      var p, t := s[..i], s[i + 1..];
      assert s == p + ":" + t;
      SplitAtColon(p, t);
      AllShortCons(p, Split(t));
      PatternFirstColon(s, groups, i);
      if groups > 0 {
        PatternMatchesSplit(t, groups - 1);
      }
    }
  }

  /** `validate_time` accepts exactly the texts of at most three colon-separated
      pieces of at most two digits each, allowing one trailing newline. */
  lemma ValidateTimeShape(s: string)
    ensures ValidateTime(s) <==>
      ShortClockShape(s) || (|s| > 0 && s[|s| - 1] == '\n' && ShortClockShape(s[..|s| - 1]))
  {
    PatternMatchesSplit(s, 2);
    if |s| > 0 {
      PatternMatchesSplit(s[..|s| - 1], 2);
    }
    if s == "" {
      assert Split(s) == [""];
    }
  }

  /** Every text `parse_time` accepts whose pieces have at most two digits
      also passes the pattern check. */
  lemma ParsedShortTextValidates(s: string)
    requires ParseTime(s).Ok?
    requires forall i :: 0 <= i < |Split(s)| ==> |Split(s)[i]| <= 2
    ensures ValidateTime(s)
  {
    var p := Split(s);
    assert |p| == 3 && IsNumeral(p[0]) && IsNumeral(p[1]) && IsNumeral(p[2]);
    assert AllShort(p);
    ValidateTimeShape(s);
  }

  /** The pattern check lets the empty text through, which does not parse. */
  lemma EmptyValidatesButFails()
    ensures ValidateTime("") && ParseTime("").Err?
  {
    assert Split("") == [""];
  }

  /** A partial entry such as "12:3" passes the pattern check but does not
      parse, since it has two pieces. */
  lemma PartialValidatesButFails()
    ensures ValidateTime("12:3") && ParseTime("12:3").Err?
  {
    SplitAtColon("12", "3");
    SplitNoColon("3");
    assert "12" + ":" + "3" == "12:3";
    assert Split("12:3") == ["12", "3"];
    assert ShortDigits("12") && ShortDigits("3");
    AllShortCons("12", ["3"]);
    AllShortCons("3", []);
    ValidateTimeShape("12:3");
  }

  /** An hours field of three digits parses (`parse_time` has no bound on
      the hours)... */
  lemma LongHoursParses()
    ensures ParseTime("100:00:00").Ok? && ParseTime("100:00:00").value == 360000
  {
    assert "100" == ['1', '0', '0'] && "00" == ['0', '0'];
    assert "100"[..2] == ['1', '0'];
    DigitsValue('1', '0');
    DigitsValue('0', '0');
    ParseTimeAccepts("100", "00", "00");
    assert "100" + ":" + "00" + ":" + "00" == "100:00:00";
  }

  /** ... but fails the pattern check, which wants two digits. */
  lemma LongHoursFailsCheck()
    ensures !ValidateTime("100:00:00")
  {
    var s := "100:00:00";
    assert "100" + ":" + "00" + ":" + "00" == s;
    SplitPieces("100", "00", "00");
    assert !ShortDigits(Split(s)[0]);
    ValidateTimeShape(s);
    assert s[|s| - 1] != '\n';
  }

  /** A probed duration below 100 hours passes the pattern check; from 100
      hours on, its hours field has three digits and it does not. */
  lemma FormattedDurationValidates(d: nat)
    ensures ValidateTime(FormatDuration(d)) <==> d < 360000
  {
    var r := FormatDuration(d);
    var h, m, sec := Pad2(d / 3600), Pad2((d % 3600) / 60), Pad2(d % 60);
    assert r == h + ":" + m + ":" + sec;
    SplitPieces(h, m, sec);
    assert [h, m, sec] == [h] + ([m] + [sec]);
    AllShortCons(h, [m, sec]);
    AllShortCons(m, [sec]);
    AllShortCons(sec, []);
    PaddedLength(d / 3600);
    assert ShortDigits(h) <==> d < 360000;
    assert r[|r| - 1] == sec[1];
    ValidateTimeShape(r);
  }

  lemma PaddedLength(n: nat)
    ensures |Pad2(n)| <= 2 <==> n < 100
  {
    if n >= 100 {
      DecimalValue(n);
      DecimalValue(n / 10);
      assert |Decimal(n / 10)| >= 2;
    }
  }
}
