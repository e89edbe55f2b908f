/**
 * The data collectors: `get_pm2_services` maps each decoded `pm2 jlist`
 * entry to a service record, and `get_system_resources` reads the memory
 * summary out of `free -m`. The JSON decoding and the clock are parameters.
 */
module Collectors {
  import opened Py
  import Uptime

  /** A nested object of a pm2 entry (`pm2_env`, `monit`), or a value that is not an object. */
  datatype Nested = Obj(fields: map<string, Scalar>) | NotObj(v: Scalar)

  /** One decoded entry of `pm2 jlist`; a missing `pm_id` or `name` is SNull, as `dict.get` gives None. */
  datatype PmEntry = PmEntry(pmId: Scalar, name: Scalar, env: Option<Nested>, monit: Option<Nested>)

  /**
   * A service row as the application keeps it (the dict built by
   * `get_pm2_services`). `memory` is the "Memory (MB)" figure counted in
   * hundredths of a megabyte.
   */
  datatype Service = Service(
    id: Scalar, name: Scalar, version: Scalar, status: Scalar, cpu: Scalar,
    memory: Scalar, uptime: string, outLogPath: Scalar, errLogPath: Scalar, port: Scalar)

  /** `d.get(key, default)`. */
  function Get(d: map<string, Scalar>, key: string, default: Scalar): (r: Scalar)
    ensures key in d ==> r == d[key]
    ensures key !in d ==> r == default
  {
    if key in d then d[key] else default
  }

  /** `entry.get(name, {})`: the object's fields, or None when `.get` would be called on a non-object. */
  function ObjectOrEmpty(o: Option<Nested>): Option<map<string, Scalar>>
  {
    match o
    case None => Some(map[])
    case Some(Obj(m)) => Some(m)
    case Some(NotObj(_)) => None
  }

  /** The memory figure when it is a number (`bytes / (1024 * 1024)` raises TypeError otherwise). */
  function Bytes(v: Scalar): Option<int>
  {
    match v
    case SInt(i) => Some(i)
    case SBool(b) => Some(if b then 1 else 0)
    case _ => None
  }

  /**
   * `round(num / den)` with ties to the even neighbour, as Python's `round`
   * does; exact because the quotient is a float with no rounding error.
   */
  function RoundHalfEven(num: int, den: int): (r: int)
    requires den > 0
    ensures 2 * (num - r * den) <= den && 2 * (r * den - num) <= den
    ensures 2 * (num - r * den) == den || 2 * (r * den - num) == den ==> r % 2 == 0
  {
    var q, rem := num / den, num % den;
    assert num == q * den + rem;
    if 2 * rem < den then q
    else if 2 * rem > den then q + 1
    else if q % 2 == 0 then q else q + 1
  }

  /** A larger dividend never rounds to a smaller integer. */
  lemma RoundMonotone(a: int, b: int, den: int)
    requires den > 0 && a <= b
    ensures RoundHalfEven(a, den) <= RoundHalfEven(b, den)
  {
    var ra, rb := RoundHalfEven(a, den), RoundHalfEven(b, den);
    RoundGap(a, b, den, ra, rb, ra * den, rb * den);
  }

  /**
   * The arithmetic of `RoundMonotone` on plain integers: two roundings within
   * half a step of `a <= b` cannot be in the wrong order, and a tie on both
   * sides lands on two even neighbours, which cannot be one apart.
   */
  lemma RoundGap(a: int, b: int, den: int, ra: int, rb: int, A: int, B: int)
    requires den > 0 && a <= b && A == ra * den && B == rb * den
    requires 2 * (A - a) <= den && 2 * (b - B) <= den
    requires 2 * (A - a) == den ==> ra % 2 == 0
    requires 2 * (b - B) == den ==> rb % 2 == 0
    ensures ra <= rb
  {
    if ra > rb {
      MulStep(ra - rb, den);
      MulSub(ra, rb, den);
      assert false;
    }
  }

  lemma MulStep(d: int, den: int)
    requires d >= 1 && den > 0
    ensures d * den >= den && (d * den == den ==> d == 1)
  {
    if d > 1 {
      assert d * den == (d - 1) * den + den;
      MulStep(d - 1, den);
    }
  }

  lemma MulSub(x: int, y: int, den: int)
    ensures (x - y) * den == x * den - y * den
  {
  }

  const BytesPerMegabyte := 1024 * 1024

  /** `round(bytes / (1024 * 1024), 2)`, in hundredths of a megabyte. */
  function CentiMegabytes(bytes: int): int
  {
    RoundHalfEven(bytes * 100, BytesPerMegabyte)
  }

  /** The figure is within half a hundredth of the exact one, and never negative for a size. */
  lemma CentiMegabytesClose(bytes: int)
    ensures var r := CentiMegabytes(bytes);
      && 2 * (bytes * 100 - r * BytesPerMegabyte) <= BytesPerMegabyte
      && 2 * (r * BytesPerMegabyte - bytes * 100) <= BytesPerMegabyte
      && (bytes >= 0 ==> r >= 0)
  {
  }

  /** Sorting on the rounded figure never contradicts the order of the byte counts. */
  lemma CentiMegabytesMonotone(a: int, b: int)
    requires a <= b
    ensures CentiMegabytes(a) <= CentiMegabytes(b)
  {
    RoundMonotone(a * 100, b * 100, BytesPerMegabyte);
  }

  /**
   * The record built for one entry, or None when building it raises (a
   * `pm2_env` or `monit` that is not an object, a memory figure that is not a
   * number): that exception is not caught by `get_pm2_services`.
   */
  function MapEntry(e: PmEntry, nowMs: int): (r: Option<Service>)
    ensures r.Some? <==>
      ObjectOrEmpty(e.env).Some? && ObjectOrEmpty(e.monit).Some?
      && Bytes(Get(ObjectOrEmpty(e.monit).value, "memory", SInt(0))).Some?
    ensures r.Some? ==>
      var env, monit := ObjectOrEmpty(e.env).value, ObjectOrEmpty(e.monit).value;
      && r.value.id == e.pmId && r.value.name == e.name
      && r.value.version == (if "version" in env then env["version"] else SStr("N/A"))
      && r.value.status == (if "status" in env then env["status"] else SNull)
      && r.value.cpu == (if "cpu" in monit then monit["cpu"] else SInt(0))
      && r.value.memory == SInt(CentiMegabytes(Bytes(Get(monit, "memory", SInt(0))).value))
      && r.value.port == (if "PORT" in env then env["PORT"] else SStr("N/A"))
      && r.value.outLogPath == (if "pm_out_log_path" in env then env["pm_out_log_path"] else SStr(""))
      && r.value.errLogPath == (if "pm_err_log_path" in env then env["pm_err_log_path"] else SStr(""))
      && r.value.uptime == Uptime.FormatUptime(if "pm_uptime" in env then Some(env["pm_uptime"]) else None, nowMs)
  {
    match (ObjectOrEmpty(e.env), ObjectOrEmpty(e.monit))
    case (Some(env), Some(monit)) =>
      (match Bytes(Get(monit, "memory", SInt(0)))
      case None => None
      case Some(bytes) =>
        var started := if "pm_uptime" in env then Some(env["pm_uptime"]) else None;
        Some(Service(
          e.pmId, e.name, Get(env, "version", SStr("N/A")), Get(env, "status", SNull),
          Get(monit, "cpu", SInt(0)), SInt(CentiMegabytes(bytes)), Uptime.FormatUptime(started, nowMs),
          Get(env, "pm_out_log_path", SStr("")), Get(env, "pm_err_log_path", SStr("")),
          Get(env, "PORT", SStr("N/A")))))
    case _ => None
  }

  /** The records of every entry, in order; None as soon as one of them raises. */
  function MapEntries(entries: seq<PmEntry>, nowMs: int): (r: Option<seq<Service>>)
    ensures r.Some? <==> forall i :: 0 <= i < |entries| ==> MapEntry(entries[i], nowMs).Some?
    ensures r.Some? ==>
      (|r.value| == |entries| && forall i :: 0 <= i < |entries| ==> r.value[i] == MapEntry(entries[i], nowMs).value)
  {
    if entries == [] then Some([])
    else
      var head, rest := MapEntry(entries[0], nowMs), MapEntries(entries[1..], nowMs);
      if head.Some? && rest.Some? then Some([head.value] + rest.value)
      else
        assert rest.None? ==> exists i :: 0 <= i < |entries[1..]| && MapEntry(entries[1..][i], nowMs).None?;
        None
  }

  /**
   * `get_pm2_services`: `output` is what `pm2 jlist` printed (None when the
   * command failed) and `decoded` its `json.loads` (None on JSONDecodeError).
   * An empty or failed listing and a decoding error give the empty list; None
   * stands for an exception escaping the function.
   */
  function Pm2Services(output: Option<string>, decoded: Option<seq<PmEntry>>, nowMs: int): (r: Option<seq<Service>>)
    ensures (output.None? || output.value == "" || decoded.None?) ==> r == Some([])
    ensures output.Some? && output.value != "" && decoded.Some? ==>
      (r.Some? <==> forall i :: 0 <= i < |decoded.value| ==> MapEntry(decoded.value[i], nowMs).Some?)
      && (r.Some? ==>
            (|r.value| == |decoded.value| && forall i :: 0 <= i < |r.value| ==> r.value[i].id == decoded.value[i].pmId))
    ensures output.Some? && output.value != "" && decoded.Some? && r.Some? ==>
      forall i :: 0 <= i < |r.value| ==> r.value[i] == MapEntry(decoded.value[i], nowMs).value
  {
    if output.None? || output.value == "" then Some([])
    else match decoded
      case None => Some([])
      case Some(entries) => MapEntries(entries, nowMs)
  }

  // ------------------------------------------------------------ free -m

  /** The text `float()` accepts, restricted to plain decimals: a sign, digits, at most one point. */
  predicate FloatText(t: string)
  {
    var u := if t != [] && (t[0] == '+' || t[0] == '-') then t[1..] else t;
    if '.' in u then |u| >= 2 && AllDigits(FirstPiece(u, '.')) && AllDigits(After(u, '.'))
    else u != [] && AllDigits(u)
  }

  /** The index of the first line that starts with "Mem:". */
  function FirstMemLine(lines: seq<string>): (r: Option<nat>)
    ensures r.Some? ==>
      (r.value < |lines| && StartsWith(lines[r.value], "Mem:")
       && forall j :: 0 <= j < r.value ==> !StartsWith(lines[j], "Mem:"))
    ensures r.None? ==> forall j :: 0 <= j < |lines| ==> !StartsWith(lines[j], "Mem:")
  {
    if lines == [] then None
    else if StartsWith(lines[0], "Mem:") then Some(0)
    else match FirstMemLine(lines[1..])
      case None => None
      case Some(k) => Some(k + 1)
  }

  /** A character of a plain decimal: a digit, a point or a sign. */
  predicate NumberChar(c: char)
  {
    IsDigit(c) || c == '.' || c == '+' || c == '-'
  }

  /** Digits, a point, then digits: every character is a `NumberChar`. */
  lemma PointedChars(u: string)
    requires '.' in u && AllDigits(FirstPiece(u, '.')) && AllDigits(After(u, '.'))
    ensures forall i :: 0 <= i < |u| ==> NumberChar(u[i])
  {
    var p, a := FirstPiece(u, '.'), After(u, '.');
    forall i | 0 <= i < |u|
      ensures NumberChar(u[i])
    {
      if i < |p| {
        assert u[i] == p[i] && IsDigit(p[i]);
      } else if i > |p| {
        assert u[i] == a[i - |p| - 1] && IsDigit(a[i - |p| - 1]);
      } else {
        assert u[i] == '.';
      }
    }
  }

  /** Every character of a number `FloatText` accepts is a `NumberChar`. */
  lemma FloatChars(t: string)
    requires FloatText(t)
    ensures t != [] && forall j :: 0 <= j < |t| ==> NumberChar(t[j])
  {
    var u := if t != [] && (t[0] == '+' || t[0] == '-') then t[1..] else t;
    if '.' in u {
      PointedChars(u);
    }
    assert forall i :: 0 <= i < |u| ==> NumberChar(u[i]);
    forall j | 0 <= j < |t|
      ensures NumberChar(t[j])
    {
      if u != t && j > 0 {
        assert t[j] == u[j - 1];
      }
    }
  }

  /** A number `FloatText` accepts is a single word. */
  lemma FloatWord(t: string)
    requires FloatText(t)
    ensures IsWord(t)
  {
    FloatChars(t);
    forall j | 0 <= j < |t|
      ensures !IsSpace(t[j])
    {
      assert NumberChar(t[j]);
    }
  }

  /** Used and total memory, as the columns of `free -m` print them. */
  datatype MemoryReading = MemoryReading(used: string, total: string)

  /**
   * The memory part of `get_system_resources`: on the first line starting
   * with "Mem:", the second word is the total and the third the used amount;
   * None ("N/A") when there is no output, no such line, fewer than three words
   * or either word is not a number.
   */
  function MemoryUsage(output: Option<string>): (r: Option<MemoryReading>)
    ensures output.None? || output.value == "" ==> r.None?
    ensures output.Some? && output.value != "" ==>
      var lines := Split(output.value, '\n');
      match FirstMemLine(lines)
      case None => r.None?
      case Some(i) =>
        var w := Words(lines[i]);
        && (r.Some? <==> (|w| >= 3 && FloatText(w[1]) && FloatText(w[2])))
        && (r.Some? ==> r.value == MemoryReading(w[2], w[1]))
  {
    if output.None? || output.value == "" then None
    else
      var lines := Split(output.value, '\n');
      match FirstMemLine(lines)
      case None => None
      case Some(i) =>
        var w := Words(lines[i]);
        if |w| >= 3 && FloatText(w[1]) && FloatText(w[2]) then Some(MemoryReading(w[2], w[1])) else None
  }

  /** The words of a line that starts with the word "Mem:"; the line holds no line break. */
  lemma MemLineWords(ws: seq<string>)
    requires ws != [] && ws[0] == "Mem:"
    requires forall i :: 0 <= i < |ws| ==> IsWord(ws[i])
    ensures Words(Join(ws, ' ')) == ws && StartsWith(Join(ws, ' '), "Mem:") && '\n' !in Join(ws, ' ')
  {
    WordsJoin(ws);
    forall i | 0 <= i < |ws|
      ensures '\n' !in ws[i]
    {
      assert IsSpace('\n');
    }
    JoinFree(ws, '\n', ' ');
    if |ws| > 1 {
      JoinCons("Mem:", ws[1..], ' ');
      assert ws == ["Mem:"] + ws[1..];
    }
  }

  /** Joining lines with line breaks and splitting again gives the lines back, and the text is not empty. */
  lemma LinesOfOutput(lines: seq<string>, k: nat)
    requires forall j :: 0 <= j < |lines| ==> '\n' !in lines[j]
    requires k < |lines| && lines[k] != ""
    ensures Split(Join(lines, '\n'), '\n') == lines && Join(lines, '\n') != ""
  {
    SplitJoin(lines, '\n');
  }

  /** After lines none of which starts with "Mem:", a "Mem:" line is the first one. */
  lemma {:induction false} FirstMemLineAfter(before: seq<string>, line: string, after: seq<string>)
    requires forall j :: 0 <= j < |before| ==> !StartsWith(before[j], "Mem:")
    requires StartsWith(line, "Mem:")
    ensures FirstMemLine(before + [line] + after) == Some(|before|)
  {
    if before == [] {
      assert (before + [line] + after)[0] == line;
    } else {
      assert (before + [line] + after)[1..] == before[1..] + [line] + after;
      FirstMemLineAfter(before[1..], line, after);
    }
  }

  /** `MemoryUsage` from the lines of the output and the words of its first "Mem:" line. */
  lemma MemoryOfLines(output: string, lines: seq<string>, i: nat, ws: seq<string>)
    requires output != "" && Split(output, '\n') == lines
    requires FirstMemLine(lines) == Some(i) && Words(lines[i]) == ws
    requires |ws| >= 3 && FloatText(ws[1]) && FloatText(ws[2])
    ensures MemoryUsage(Some(output)) == Some(MemoryReading(ws[2], ws[1]))
  {
  }

  /** No line of `before + [line] + after` holds a line break when none of the parts does. */
  lemma NoBreakLines(before: seq<string>, line: string, after: seq<string>)
    requires forall j :: 0 <= j < |before| ==> '\n' !in before[j]
    requires forall j :: 0 <= j < |after| ==> '\n' !in after[j]
    requires '\n' !in line
    ensures forall j :: 0 <= j < |before + [line] + after| ==> '\n' !in (before + [line] + after)[j]
  {
  }

  /** "Mem:" is one word. */
  lemma MemIsWord()
    ensures IsWord("Mem:")
  {
  }

  /** The words of a "Mem: total used ..." line are all words. */
  lemma MemLineAllWords(ws: seq<string>)
    requires |ws| >= 3 && ws[0] == "Mem:" && FloatText(ws[1]) && FloatText(ws[2])
    requires forall i :: 3 <= i < |ws| ==> IsWord(ws[i])
    ensures forall i :: 0 <= i < |ws| ==> IsWord(ws[i])
  {
    MemIsWord();
    FloatWord(ws[1]);
    FloatWord(ws[2]);
  }

  /** `MemoryUsage` of lines around a "Mem:" line made of the words `ws`. */
  lemma MemoryOfWords(before: seq<string>, ws: seq<string>, after: seq<string>)
    requires forall j :: 0 <= j < |before| ==> !StartsWith(before[j], "Mem:") && '\n' !in before[j]
    requires forall j :: 0 <= j < |after| ==> '\n' !in after[j]
    requires |ws| >= 3 && ws[0] == "Mem:" && FloatText(ws[1]) && FloatText(ws[2])
    requires forall i :: 0 <= i < |ws| ==> IsWord(ws[i])
    ensures MemoryUsage(Some(Join(before + [Join(ws, ' ')] + after, '\n'))) == Some(MemoryReading(ws[2], ws[1]))
  {
    MemLineWords(ws);
    var line := Join(ws, ' ');
    NoBreakLines(before, line, after);
    var lines := before + [line] + after;
    assert lines[|before|] == line;
    LinesOfOutput(lines, |before|);
    FirstMemLineAfter(before, line, after);
    MemoryOfLines(Join(lines, '\n'), lines, |before|, ws);
  }

  /**
   * `free -m` output whose first "Mem:" line has the words "Mem:", total,
   * used and possibly more, separated by spaces, gives exactly that used and
   * total amount, whatever the lines around it.
   */
  lemma MemoryLineRead(before: seq<string>, ws: seq<string>, after: seq<string>)
    requires forall j :: 0 <= j < |before| ==> !StartsWith(before[j], "Mem:") && '\n' !in before[j]
    requires forall j :: 0 <= j < |after| ==> '\n' !in after[j]
    requires |ws| >= 3 && ws[0] == "Mem:" && FloatText(ws[1]) && FloatText(ws[2])
    requires forall i :: 3 <= i < |ws| ==> IsWord(ws[i])
    ensures MemoryUsage(Some(Join(before + [Join(ws, ' ')] + after, '\n'))) == Some(MemoryReading(ws[2], ws[1]))
  {
    MemLineAllWords(ws);
    MemoryOfWords(before, ws, after);
  }
}
