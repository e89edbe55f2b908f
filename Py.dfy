/**
 * The few pieces of Python's value and string semantics that the monitor's
 * code leans on: decoded JSON scalars, `str.strip`, `str.lower`, `in`,
 * `startswith`, `split`, `int()` and `str()`.
 */
module Py {

  datatype Option<+T> = None | Some(value: T)

  /** A scalar value as `json.loads` hands it back (JSON numbers restricted to integers). */
  datatype Scalar = SNull | SBool(b: bool) | SInt(i: int) | SStr(s: string)

  /** Python truthiness of a scalar. */
  predicate Truthy(v: Scalar)
  {
    match v
    case SNull => false
    case SBool(b) => b
    case SInt(i) => i != 0
    case SStr(s) => s != ""
  }

  /** Exactly the characters for which Python's `str.isspace` holds. */
  predicate IsSpace(c: char)
  {
    || c == ' ' || ('\t' <= c <= '\r') || ('\U{1C}' <= c <= '\U{1F}')
    || c == '\U{85}' || c == '\U{A0}' || c == '\U{1680}' || ('\U{2000}' <= c <= '\U{200A}')
    || c == '\U{2028}' || c == '\U{2029}' || c == '\U{202F}' || c == '\U{205F}' || c == '\U{3000}'
  }

  predicate IsDigit(c: char) { '0' <= c <= '9' }

  function StripLeft(s: string): (r: string)
    ensures |r| <= |s| && r == s[|s| - |r|..]
    ensures r != [] ==> !IsSpace(r[0])
    ensures forall i :: 0 <= i < |s| - |r| ==> IsSpace(s[i])
  {
    if s != [] && IsSpace(s[0]) then StripLeft(s[1..]) else s
  }

  function StripRight(s: string): (r: string)
    ensures |r| <= |s| && r == s[..|r|]
    ensures r != [] ==> !IsSpace(r[|r| - 1])
    ensures forall i :: |r| <= i < |s| ==> IsSpace(s[i])
  {
    if s != [] && IsSpace(s[|s| - 1]) then StripRight(s[..|s| - 1]) else s
  }

  /** Python's `s.strip()`. */
  function Strip(s: string): string
  {
    StripRight(StripLeft(s))
  }

  /** True when `s.strip()` is empty, that is when every character is white space. */
  lemma StripEmptyIff(s: string)
    ensures Strip(s) == [] <==> forall i :: 0 <= i < |s| ==> IsSpace(s[i])
  {
    var l := StripLeft(s);
    if l != [] {
      assert !IsSpace(s[|s| - |l|]);
      assert !IsSpace(l[0]);
      assert StripRight(l) != [];
    }
  }

  function LowerChar(c: char): char
  {
    if 'A' <= c <= 'Z' then (c as int + 32) as char else c
  }

  function UpperChar(c: char): char
  {
    if 'a' <= c <= 'z' then (c as int - 32) as char else c
  }

  /** `s.lower()` on the ASCII letters. */
  function Lower(s: string): (r: string)
    ensures |r| == |s|
    ensures forall i :: 0 <= i < |s| ==> r[i] == LowerChar(s[i])
  {
    if s == [] then [] else [LowerChar(s[0])] + Lower(s[1..])
  }

  /** `s.upper()` on the ASCII letters. */
  function Upper(s: string): (r: string)
    ensures |r| == |s|
    ensures forall i :: 0 <= i < |s| ==> r[i] == UpperChar(s[i])
  {
    if s == [] then [] else [UpperChar(s[0])] + Upper(s[1..])
  }

  /** `prefix` starts `s`: Python's `s.startswith(prefix)`. */
  predicate StartsWith(s: string, prefix: string)
  {
    |prefix| <= |s| && s[..|prefix|] == prefix
  }

  /** Python's `sub in s` on strings. */
  predicate Contains(s: string, sub: string)
    decreases |s|
  {
    StartsWith(s, sub) || (s != [] && Contains(s[1..], sub))
  }

  /** `s.split(c)[0]`: everything before the first `c`, or all of `s`. */
  function FirstPiece(s: string, c: char): (r: string)
    ensures |r| <= |s| && r == s[..|r|] && c !in r
    ensures c in s ==> |r| < |s| && s[|r|] == c
    ensures c !in s ==> r == s
  {
    if s == [] then [] else if s[0] == c then [] else [s[0]] + FirstPiece(s[1..], c)
  }

  /** Everything after the first `c` (empty when there is none). */
  function After(s: string, c: char): (r: string)
    ensures c in s ==> r == s[|FirstPiece(s, c)| + 1..]
    ensures |r| < |s| || s == []
  {
    if s == [] then [] else if s[0] == c then s[1..] else After(s[1..], c)
  }

  /** `s.split(c)[1]`, defined when `c in s`: the text between the first and the second `c`. */
  function SecondPiece(s: string, c: char): string
  {
    FirstPiece(After(s, c), c)
  }

  lemma {:induction false} PiecesOfJoin(x: string, c: char, y: string)
    requires c !in x
    ensures FirstPiece(x + [c] + y, c) == x
    ensures After(x + [c] + y, c) == y
  {
    if x != [] {
      assert (x + [c] + y)[1..] == x[1..] + [c] + y;
      PiecesOfJoin(x[1..], c, y);
    } else {
      assert (x + [c] + y)[1..] == y;
    }
  }

  /** `s.split(c)`: the pieces between occurrences of `c`. */
  function Split(s: string, c: char): (r: seq<string>)
    ensures |r| >= 1
    ensures forall i :: 0 <= i < |r| ==> c !in r[i]
    decreases |s|
  {
    if c in s then [FirstPiece(s, c)] + Split(After(s, c), c) else [s]
  }

  /** Splitting at a first separator: the text before it, then the pieces of the rest. */
  lemma SplitAt(x: string, c: char, y: string)
    requires c !in x
    ensures Split(x + [c] + y, c) == [x] + Split(y, c)
  {
    var s := x + [c] + y;
    assert s[|x|] == c;
    PiecesOfJoin(x, c, y);
  }

  /** Joining the pieces back with `c` gives the original text: Python's `c.join(s.split(c)) == s`. */
  function Join(pieces: seq<string>, c: char): string
  {
    if |pieces| <= 1 then (if pieces == [] then [] else pieces[0])
    else pieces[0] + [c] + Join(pieces[1..], c)
  }

  lemma {:induction false} JoinSplit(s: string, c: char)
    ensures Join(Split(s, c), c) == s
    decreases |s|
  {
    if c in s {
      var p, a := FirstPiece(s, c), After(s, c);
      var rest := Split(a, c);
      assert Split(s, c) == [p] + rest;
      JoinSplit(a, c);
      JoinCons(p, rest, c);
      assert s == s[..|p|] + [c] + s[|p| + 1..];
    }
  }

  lemma JoinCons(p: string, rest: seq<string>, c: char)
    requires rest != []
    ensures Join([p] + rest, c) == p + [c] + Join(rest, c)
  {
    assert ([p] + rest)[1..] == rest;
  }

  /** A non-empty run of non-white-space characters. */
  predicate IsWord(w: string)
  {
    w != [] && forall j :: 0 <= j < |w| ==> !IsSpace(w[j])
  }

  /** `s.split()`: the maximal runs of non-white-space characters. */
  function Words(s: string): (r: seq<string>)
    ensures forall i :: 0 <= i < |r| ==> IsWord(r[i])
    decreases |s|
  {
    if s == [] then []
    else if IsSpace(s[0]) then Words(s[1..])
    else
      var w := TakeWord(s);
      var rest := Words(s[|w|..]);
      assert forall i :: 1 <= i < |[w] + rest| ==> ([w] + rest)[i] == rest[i - 1];
      [w] + rest
  }

  /** The leading run of non-white-space characters. */
  function TakeWord(s: string): (r: string)
    ensures |r| <= |s| && r == s[..|r|]
    ensures forall j :: 0 <= j < |r| ==> !IsSpace(r[j])
    ensures |r| < |s| ==> IsSpace(s[|r|])
    ensures s != [] && !IsSpace(s[0]) ==> r != []
  {
    if s == [] || IsSpace(s[0]) then [] else [s[0]] + TakeWord(s[1..])
  }

  /** A run of non-white-space followed by nothing or by white space is exactly what `TakeWord` takes. */
  lemma {:induction false} TakeWordOf(w: string, tail: string)
    requires forall j :: 0 <= j < |w| ==> !IsSpace(w[j])
    requires tail == [] || IsSpace(tail[0])
    ensures TakeWord(w + tail) == w
  {
    if w == [] {
      assert w + tail == tail;
    } else {
      assert (w + tail)[1..] == w[1..] + tail;
      TakeWordOf(w[1..], tail);
    }
  }

  /** A word ended by white space (or by the end) is the first of the words of the text. */
  lemma WordsCons(w: string, tail: string)
    requires IsWord(w)
    requires tail == [] || IsSpace(tail[0])
    ensures Words(w + tail) == [w] + Words(tail)
  {
    TakeWordOf(w, tail);
    assert (w + tail)[0] == w[0];
    assert (w + tail)[|w|..] == tail;
  }

  /** `' '.join(ws).split() == ws` for words `ws`. */
  lemma {:induction false} WordsJoin(ws: seq<string>)
    requires forall i :: 0 <= i < |ws| ==> IsWord(ws[i])
    ensures Words(Join(ws, ' ')) == ws
  {
    if |ws| == 1 {
      WordsCons(ws[0], []);
      assert ws[0] + [] == ws[0];
    } else if |ws| > 1 {
      var rest := Join(ws[1..], ' ');
      WordsCons(ws[0], [' '] + rest);
      assert ([' '] + rest)[1..] == rest;
      WordsJoin(ws[1..]);
      assert ws[0] + [' '] + rest == ws[0] + ([' '] + rest);
      assert ws == [ws[0]] + ws[1..];
    }
  }

  /** A character in none of the pieces, other than the separator, is not in their join. */
  lemma {:induction false} JoinFree(ps: seq<string>, c: char, d: char)
    requires c != d
    requires forall i :: 0 <= i < |ps| ==> c !in ps[i]
    ensures c !in Join(ps, d)
  {
    if |ps| > 1 {
      JoinFree(ps[1..], c, d);
      assert c !in ps[0];
    } else if |ps| == 1 {
      assert c !in ps[0];
    }
  }

  /** `c.join(ps).split(c) == ps` when no piece holds `c`. */
  lemma {:induction false} SplitJoin(ps: seq<string>, c: char)
    requires |ps| >= 1
    requires forall i :: 0 <= i < |ps| ==> c !in ps[i]
    ensures Split(Join(ps, c), c) == ps
  {
    if |ps| == 1 {
      assert c !in ps[0];
    } else {
      assert c !in ps[0];
      SplitAt(ps[0], c, Join(ps[1..], c));
      SplitJoin(ps[1..], c);
      assert ps == [ps[0]] + ps[1..];
    }
  }

  // ---------------------------------------------------------------- int()

  function DigitValue(c: char): nat requires IsDigit(c) { c as int - '0' as int }

  function DigitChar(d: nat): (c: char)
    requires d < 10
    ensures IsDigit(c) && DigitValue(c) == d
  {
    ('0' as int + d) as char
  }

  predicate AllDigits(s: string) { forall i :: 0 <= i < |s| ==> IsDigit(s[i]) }

  /** The value of a string of decimal digits. */
  function DigitsValue(s: string): nat
    requires AllDigits(s)
  {
    if s == [] then 0 else 10 * DigitsValue(s[..|s| - 1]) + DigitValue(s[|s| - 1])
  }

  /** Digits in groups joined by single underscores, as Python's `int()` admits them. */
  predicate DigitBody(s: string)
  {
    && s != [] && IsDigit(s[0]) && IsDigit(s[|s| - 1])
    && (forall i :: 0 <= i < |s| ==> IsDigit(s[i]) || s[i] == '_')
    && (forall i :: 0 <= i < |s| - 1 ==> !(s[i] == '_' && s[i + 1] == '_'))
  }

  function DropUnderscores(s: string): (r: string)
    ensures (forall i :: 0 <= i < |s| ==> IsDigit(s[i]) || s[i] == '_') ==> AllDigits(r)
    ensures AllDigits(s) ==> r == s
  {
    if s == [] then [] else (if s[0] == '_' then [] else [s[0]]) + DropUnderscores(s[1..])
  }

  /** `strip()` removes white space only, so a decimal point stays. */
  lemma StripKeepsPoint(s: string)
    ensures '.' in s ==> '.' in Strip(s)
  {
    if '.' in s {
      var l := StripLeft(s);
      var i :| 0 <= i < |s| && s[i] == '.';
      assert l[i - (|s| - |l|)] == '.';
      assert StripRight(l)[i - (|s| - |l|)] == '.';
    }
  }

  /** Digit groups hold no decimal point, with or without a sign before them. */
  lemma PointNotDigits(t: string)
    ensures '.' in t ==> !DigitBody(t) && (t != [] && t[0] != '.' ==> !DigitBody(t[1..]))
  {
    if '.' in t {
      var i :| 0 <= i < |t| && t[i] == '.';
      assert !(IsDigit(t[i]) || t[i] == '_');
      if t != [] && t[0] != '.' {
        assert t[1..][i - 1] == '.';
      }
    }
  }

  /**
   * Python's `int(s)` for base 10: surrounding white space, an optional sign,
   * digit groups. Blank text and text with a decimal point raise.
   */
  function ParseInt(s: string): (r: Option<int>)
    ensures r.Some? ==> Strip(s) != ""
    ensures '.' in s ==> r.None?
  {
    StripKeepsPoint(s);
    var t := Strip(s);
    PointNotDigits(t);
    if t != [] && (t[0] == '+' || t[0] == '-') then
      if DigitBody(t[1..]) then
        var v: int := DigitsValue(DropUnderscores(t[1..]));
        Some(if t[0] == '-' then -v else v)
      else None
    else if DigitBody(t) then Some(DigitsValue(DropUnderscores(t)))
    else None
  }

  // ---------------------------------------------------------------- str()

  /** The decimal text of a natural number, as `str(n)` prints it. */
  function Decimal(n: nat): (r: string)
    ensures r != [] && AllDigits(r) && DigitsValue(r) == n
    ensures |r| > 1 ==> r[0] != '0'
  {
    if n < 10 then [DigitChar(n)]
    else
      var r := Decimal(n / 10) + [DigitChar(n % 10)];
      assert r[..|r| - 1] == Decimal(n / 10);
      r
  }

  /** `int(str(n)) == n`, also with white space before the digits. */
  lemma ParseDecimal(pad: string, n: nat)
    requires forall i :: 0 <= i < |pad| ==> IsSpace(pad[i])
    ensures ParseInt(pad + Decimal(n)) == Some(n)
  {
    var d := Decimal(n);
    DigitNotSpace(d[0]);
    DigitNotSpace(d[|d| - 1]);
    StripLeftPadded(pad, d);
    StripRightKeeps(d);
    ParseIntPlain(pad + d, d);
  }

  lemma ParseIntPlain(s: string, d: string)
    requires Strip(s) == d && d != [] && AllDigits(d)
    ensures ParseInt(s) == Some(DigitsValue(d))
  {
    DigitsBody(d);
    assert !(d[0] == '+' || d[0] == '-');
  }

  lemma ParseIntNegative(s: string, d: string)
    requires Strip(s) == "-" + d && d != [] && AllDigits(d)
    ensures ParseInt(s) == Some(-(DigitsValue(d) as int))
  {
    DigitsBody(d);
    assert ("-" + d)[1..] == d;
  }

  lemma DigitNotSpace(c: char)
    requires IsDigit(c)
    ensures !IsSpace(c)
  {
  }

  lemma StripRightKeeps(t: string)
    requires t != [] && !IsSpace(t[|t| - 1])
    ensures StripRight(t) == t
  {
  }

  /** Plain digits are a digit body with nothing to drop. */
  lemma DigitsBody(d: string)
    requires d != [] && AllDigits(d)
    ensures DigitBody(d) && DropUnderscores(d) == d
  {
  }

  lemma {:induction false} StripLeftPadded(pad: string, d: string)
    requires forall i :: 0 <= i < |pad| ==> IsSpace(pad[i])
    requires d != [] && !IsSpace(d[0])
    ensures StripLeft(pad + d) == d
  {
    if pad != [] {
      assert (pad + d)[1..] == pad[1..] + d;
      StripLeftPadded(pad[1..], d);
    }
  }

  /** Python's `str(v)` for a scalar. */
  function Str(v: Scalar): string
  {
    match v
    case SNull => "None"
    case SBool(b) => if b then "True" else "False"
    case SInt(i) => if i < 0 then "-" + Decimal(-i) else Decimal(i)
    case SStr(s) => s
  }

  /** Python's `int(str(i)) == i` for every integer. */
  lemma StrIntRoundTrip(i: int)
    ensures ParseInt(Str(SInt(i))) == Some(i)
  {
    if i >= 0 {
      ParseDecimal([], i);
      assert [] + Decimal(i) == Decimal(i);
    } else {
      var d := Decimal(-i);
      var t := "-" + d;
      assert t[0] == '-' && t[|t| - 1] == d[|d| - 1];
      DigitNotSpace(d[|d| - 1]);
      assert StripLeft(t) == t;
      StripRightKeeps(t);
      ParseIntNegative(t, d);
    }
  }

}
