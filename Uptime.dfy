/**
 * The uptime column: `format_uptime` turns a pm2 start time (epoch
 * milliseconds) and the current time into "Dd Hh Mm Ss", and
 * `PM2MonitorApp.parse_uptime` reads that text back into seconds for sorting.
 * The clock is a parameter: `nowMs` is `time.time()` in milliseconds.
 */
module Uptime {
  import opened Py

  const SecondsPerDay := 86400
  const SecondsPerHour := 3600
  const SecondsPerMinute := 60

  /** The start time in milliseconds, when `pm_uptime` is truthy and a number. */
  function EpochMillis(epoch: Option<Scalar>): Option<int>
  {
    match epoch
    case None => None
    case Some(SInt(i)) => if i == 0 then None else Some(i)
    case Some(SBool(b)) => if b then Some(1) else None
    case Some(_) => None  // null or "" are falsy; any other string raises TypeError, caught
  }

  /**
   * The text `f"{days}d {hours}h {minutes}m {seconds}s"`, built from the back:
   * each field is a space, the number and its unit letter.
   */
  function UptimeText(days: nat, hours: nat, minutes: nat, seconds: nat): string
  {
    Decimal(days) + "d" + AfterDays(hours, minutes, seconds)
  }

  /** What follows the days, the hours and the minutes in the rendered text. */
  function AfterDays(h: nat, m: nat, s: nat): string { " " + Decimal(h) + "h" + AfterHours(m, s) }
  function AfterHours(m: nat, s: nat): string { " " + Decimal(m) + "m" + AfterMinutes(s) }
  function AfterMinutes(s: nat): string { " " + Decimal(s) + "s" }

  /** The whole seconds elapsed since the start time, truncated as `int()` does. */
  function ElapsedSeconds(startMs: int, nowMs: int): nat
    requires startMs <= nowMs
  {
    (nowMs - startMs) / 1000
  }

  /** True when the uptime is shown: the start time is known and not in the future. */
  predicate Available(epoch: Option<Scalar>, nowMs: int)
  {
    EpochMillis(epoch).Some? && EpochMillis(epoch).value <= nowMs
  }

  function FormatUptime(epoch: Option<Scalar>, nowMs: int): (r: string)
    ensures !Available(epoch, nowMs) ==> r == "N/A"
    ensures Available(epoch, nowMs) ==>
      exists d: nat, h: nat, m: nat, s: nat {:trigger UptimeText(d, h, m, s)} ::
        && h < 24 && m < 60 && s < 60
        && d * SecondsPerDay + h * SecondsPerHour + m * SecondsPerMinute + s
           == ElapsedSeconds(EpochMillis(epoch).value, nowMs)
        && r == UptimeText(d, h, m, s)
  {
    match EpochMillis(epoch)
    case None => "N/A"
    case Some(startMs) =>
      if nowMs - startMs < 0 then "N/A"
      else
        var total := (nowMs - startMs) / 1000;
        var days, rest := total / SecondsPerDay, total % SecondsPerDay;
        var hours, rest' := rest / SecondsPerHour, rest % SecondsPerHour;
        var minutes, seconds := rest' / SecondsPerMinute, rest' % SecondsPerMinute;
        UptimeText(days, hours, minutes, seconds)
  }

  /**
   * One step of `parse_uptime`: when `unit` occurs, the integer before it and
   * `text.split(unit)[1]`; otherwise 0 and the text unchanged. None when
   * `int()` would raise.
   */
  function ReadUnit(text: string, unit: char): Option<(int, string)>
  {
    if unit in text then
      match ParseInt(FirstPiece(text, unit))
      case None => None
      case Some(v) => Some((v, SecondPiece(text, unit)))
    else Some((0, text))
  }

  /** The total of the four fields, or None when an `int()` conversion fails. */
  function ReadTotal(text: string): Option<int>
  {
    match ReadUnit(text, 'd')
    case None => None
    case Some((days, afterDays)) =>
      match ReadUnit(afterDays, 'h')
      case None => None
      case Some((hours, afterHours)) =>
        match ReadUnit(afterHours, 'm')
        case None => None
        case Some((minutes, afterMinutes)) =>
          match ReadUnit(afterMinutes, 's')
          case None => None
          case Some((seconds, _)) =>
            Some(days * SecondsPerDay + hours * SecondsPerHour + minutes * SecondsPerMinute + seconds)
  }

  /** `parse_uptime`: the total in seconds, 0 when the text cannot be read. */
  function ParseUptime(text: string): int
  {
    match ReadTotal(text)
    case None => 0
    case Some(total) => total
  }

  lemma NoLetterInDecimal(n: nat, c: char)
    requires !IsDigit(c) && c != ' '
    ensures c !in Decimal(n) && c !in " " + Decimal(n)
  {
    var d := Decimal(n);
    assert forall i :: 0 <= i < |d| ==> d[i] != c;
  }

  /** Reading one "<pad><number><unit><rest>" field gives the number and the rest. */
  lemma ReadUnitField(pad: string, n: nat, unit: char, rest: string)
    requires pad == [] || pad == " "
    requires !IsDigit(unit) && unit != ' ' && unit !in rest
    ensures ReadUnit(pad + Decimal(n) + [unit] + rest, unit) == Some((n, rest))
  {
    var x := pad + Decimal(n);
    NoLetterInDecimal(n, unit);
    assert unit !in x;
    PiecesOfJoin(x, unit, rest);
    ParseDecimal(pad, n);
    assert FirstPiece(rest, unit) == rest;
  }

  lemma ReadDays(d: nat, h: nat, m: nat, s: nat)
    ensures ReadUnit(UptimeText(d, h, m, s), 'd') == Some((d, AfterDays(h, m, s)))
  {
    NoDayLetterAfter(h, m, s);
    assert UptimeText(d, h, m, s) == [] + Decimal(d) + ['d'] + AfterDays(h, m, s);
    ReadUnitField([], d, 'd', AfterDays(h, m, s));
  }

  lemma NoDayLetterAfter(h: nat, m: nat, s: nat)
    ensures 'd' !in AfterDays(h, m, s)
  {
    NoLetterInDecimal(h, 'd'); NoLetterInDecimal(m, 'd'); NoLetterInDecimal(s, 'd');
    assert 'd' !in AfterMinutes(s);
    assert 'd' !in AfterHours(m, s);
  }

  lemma ReadHours(h: nat, m: nat, s: nat)
    ensures ReadUnit(AfterDays(h, m, s), 'h') == Some((h, AfterHours(m, s)))
  {
    NoLetterInDecimal(m, 'h'); NoLetterInDecimal(s, 'h');
    assert AfterDays(h, m, s) == " " + Decimal(h) + ['h'] + AfterHours(m, s);
    ReadUnitField(" ", h, 'h', AfterHours(m, s));
  }

  lemma ReadMinutes(m: nat, s: nat)
    ensures ReadUnit(AfterHours(m, s), 'm') == Some((m, AfterMinutes(s)))
  {
    NoLetterInDecimal(s, 'm');
    assert AfterHours(m, s) == " " + Decimal(m) + ['m'] + AfterMinutes(s);
    ReadUnitField(" ", m, 'm', AfterMinutes(s));
  }

  lemma ReadSeconds(s: nat)
    ensures ReadUnit(AfterMinutes(s), 's') == Some((s, ""))
  {
    assert AfterMinutes(s) == " " + Decimal(s) + ['s'] + "";
    ReadUnitField(" ", s, 's', "");
  }

  /** The rendered uptime reads back as exactly the seconds it decomposes. */
  lemma ParseUptimeText(d: nat, h: nat, m: nat, s: nat)
    ensures ParseUptime(UptimeText(d, h, m, s))
         == d * SecondsPerDay + h * SecondsPerHour + m * SecondsPerMinute + s
  {
    ReadDays(d, h, m, s);
    ReadHours(h, m, s);
    ReadMinutes(m, s);
    ReadSeconds(s);
  }

  /** `parse_uptime(format_uptime(...))` returns the elapsed whole seconds, and 0 for "N/A". */
  lemma ParseFormatUptime(epoch: Option<Scalar>, nowMs: int)
    ensures ParseUptime(FormatUptime(epoch, nowMs))
         == if Available(epoch, nowMs) then ElapsedSeconds(EpochMillis(epoch).value, nowMs) else 0
  {
    if Available(epoch, nowMs) {
      var d: nat, h: nat, m: nat, s: nat :|
        && d * SecondsPerDay + h * SecondsPerHour + m * SecondsPerMinute + s
           == ElapsedSeconds(EpochMillis(epoch).value, nowMs)
        && FormatUptime(epoch, nowMs) == UptimeText(d, h, m, s);
      ParseUptimeText(d, h, m, s);
    } else {
      ParseUptimeNotAvailable();
    }
  }

  /** "N/A" holds none of the unit letters, so it reads as 0 seconds. */
  lemma ParseUptimeNotAvailable()
    ensures ParseUptime("N/A") == 0
  {
    assert 'd' !in "N/A" && 'h' !in "N/A" && 'm' !in "N/A" && 's' !in "N/A";
  }

  /** A start time 90061 seconds ago renders as one day, one hour, one minute and one second. */
  lemma FormatExample(nowMs: int)
    requires nowMs != 90061000
    ensures FormatUptime(Some(SInt(nowMs - 90061000)), nowMs) == "1d 1h 1m 1s"
  {
    var start := nowMs - 90061000;
    var e := Some(SInt(start));
    assert EpochMillis(e) == Some(start);
    assert nowMs - start == 90061000;
    var total := (nowMs - start) / 1000;
    assert total == 90061;
    assert total / SecondsPerDay == 1 && total % SecondsPerDay == 3661;
    assert 3661 / SecondsPerHour == 1 && 3661 % SecondsPerHour == 61;
    assert 61 / SecondsPerMinute == 1 && 61 % SecondsPerMinute == 1;
    assert FormatUptime(e, nowMs) == UptimeText(1, 1, 1, 1);
    assert Decimal(1) == "1";
  }

  /** Sorting by uptime puts "0d 23h 59m 59s" one second before "1d 0h 0m 0s". */
  lemma UptimeOrderExample()
    ensures ParseUptime(UptimeText(0, 23, 59, 59)) + 1 == ParseUptime(UptimeText(1, 0, 0, 0))
  {
    ParseUptimeText(0, 23, 59, 59);
    ParseUptimeText(1, 0, 0, 0);
  }
}
