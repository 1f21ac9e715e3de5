/** The string operations the source relies on: decimal formatting of
    integers (Python `str(int)`, JavaScript `String(number)`), Python's
    `str.strip()`, `str.split(',')`, `int(str)` and line iteration over a text
    file, and JavaScript's `parseInt` on a decimal string. Only the code points
    below U+10000 that the two languages treat as white space are listed, and
    only ASCII digits are accepted as digits. */
module Text {
  import opened Wrappers

  predicate IsDigit(c: char) { '0' <= c <= '9' }

  predicate AllDigits(s: string) { forall k :: 0 <= k < |s| ==> IsDigit(s[k]) }

  function DigitChar(d: nat): (c: char)
    requires d < 10
    ensures IsDigit(c)
  {
    (48 + d) as char
  }

  function DigitValue(c: char): (d: nat)
    requires IsDigit(c)
    ensures d < 10 && DigitChar(d) == c
  {
    (c as int) - 48
  }

  // ---------------------------------------------------------------- decimal

  /** Decimal digits of a natural number, most significant first, no leading zero. */
  function NatToDecimal(n: nat): (s: string)
    ensures |s| >= 1 && AllDigits(s)
    ensures s[0] == '0' ==> n == 0
    decreases n
  {
    if n < 10 then [DigitChar(n)] else NatToDecimal(n / 10) + [DigitChar(n % 10)]
  }

  /** Value of a string of decimal digits (the empty string is 0). */
  function DigitsValue(s: string): nat
    requires AllDigits(s)
  {
    if s == [] then 0 else DigitsValue(s[..|s| - 1]) * 10 + DigitValue(s[|s| - 1])
  }

  lemma {:induction false} NatToDecimalValue(n: nat)
    ensures DigitsValue(NatToDecimal(n)) == n
    decreases n
  {
    if n >= 10 {
      NatToDecimalValue(n / 10);
      var s := NatToDecimal(n);
      assert s[..|s| - 1] == NatToDecimal(n / 10);
    }
  }

  /** `str(i)` in Python and `String(i)` in JavaScript for an integer `i`. */
  function IntToDecimal(i: int): (s: string)
    ensures |s| >= 1 && IsDigit(s[|s| - 1])
    ensures IsDigit(s[0]) <==> i >= 0
    ensures s[0] == '-' <==> i < 0
    ensures forall k :: 1 <= k < |s| ==> IsDigit(s[k])
  {
    if i < 0 then "-" + NatToDecimal(-i) else NatToDecimal(i)
  }

  // ------------------------------------------------------------- white space

  /** `c.isspace()` in Python (Unicode white space below U+10000). */
  predicate PyIsSpace(c: char) {
    var k := c as int;
    (9 <= k <= 13) || (28 <= k <= 32) || k == 0x85 || k == 0xA0 || k == 0x1680
    || (0x2000 <= k <= 0x200A) || k == 0x2028 || k == 0x2029 || k == 0x202F
    || k == 0x205F || k == 0x3000
  }

  /** JavaScript's StrWhiteSpaceChar, which `parseInt` skips at the start. */
  predicate JsIsSpace(c: char) {
    var k := c as int;
    (9 <= k <= 13) || k == 32 || k == 0xA0 || k == 0x1680 || (0x2000 <= k <= 0x200A)
    || k == 0x2028 || k == 0x2029 || k == 0x202F || k == 0x205F || k == 0x3000
    || k == 0xFEFF
  }

  function PyStripLeft(s: string): (t: string)
    ensures |t| <= |s| && t == s[|s| - |t|..]
    ensures t != [] ==> !PyIsSpace(t[0])
    ensures forall k :: 0 <= k < |s| - |t| ==> PyIsSpace(s[k])
  {
    if s != [] && PyIsSpace(s[0]) then PyStripLeft(s[1..]) else s
  }

  function PyStripRight(s: string): (t: string)
    ensures t <= s
    ensures t != [] ==> !PyIsSpace(t[|t| - 1])
    ensures forall k :: |t| <= k < |s| ==> PyIsSpace(s[k])
  {
    if s != [] && PyIsSpace(s[|s| - 1]) then PyStripRight(s[..|s| - 1]) else s
  }

  /** `s.strip()` in Python. */
  function PyStrip(s: string): string {
    PyStripRight(PyStripLeft(s))
  }

  /** Stripping a line that ends in its line break, with no white space at
      either end of the rest, removes just the line break. */
  lemma PyStripLineBreak(t: string)
    requires t != [] && !PyIsSpace(t[0]) && !PyIsSpace(t[|t| - 1])
    ensures PyStrip(t + "\n") == t
  {
    var s := t + "\n";
    assert s[0] == t[0];
    assert PyStripLeft(s) == s;
    assert s[..|s| - 1] == t;
    assert PyStripRight(s) == PyStripRight(t);
  }

  function JsTrimStart(s: string): (t: string)
    ensures |t| <= |s| && t == s[|s| - |t|..]
    ensures t != [] ==> !JsIsSpace(t[0])
  {
    if s != [] && JsIsSpace(s[0]) then JsTrimStart(s[1..]) else s
  }

  // ------------------------------------------------------------------ split

  /** `s.split(sep)` in Python for a one-character separator. */
  function Split(s: string, sep: char): (parts: seq<string>)
    ensures |parts| >= 1
    ensures forall k :: 0 <= k < |parts| ==> sep !in parts[k]
  {
    if s == [] then [[]]
    else
      var rest := Split(s[1..], sep);
      if s[0] == sep then [[]] + rest else [[s[0]] + rest[0]] + rest[1..]
  }

  lemma {:induction false} SplitWithoutSeparator(s: string, sep: char)
    requires sep !in s
    ensures Split(s, sep) == [s]
  {
    if s != [] {
      SplitWithoutSeparator(s[1..], sep);
      assert [s[0]] + s[1..] == s;
    }
  }

  lemma {:induction false} SplitAtFirst(a: string, sep: char, b: string)
    requires sep !in a
    ensures Split(a + [sep] + b, sep) == [a] + Split(b, sep)
  {
    if a == [] {
      assert a + [sep] + b == [sep] + b;
      assert ([sep] + b)[1..] == b;
    } else {
      SplitAtFirst(a[1..], sep, b);
      assert (a + [sep] + b)[1..] == a[1..] + [sep] + b;
      assert [a[0]] + a[1..] == a;
    }
  }

  /** `sep.join(parts)` in Python for a one-character separator. */
  function Join(parts: seq<string>, sep: char): string {
    if parts == [] then ""
    else if |parts| == 1 then parts[0]
    else parts[0] + [sep] + Join(parts[1..], sep)
  }

  /** Splitting a join gives the parts back when no part holds the
      separator. */
  lemma {:induction false} SplitJoin(parts: seq<string>, sep: char)
    requires |parts| >= 1
    requires forall k :: 0 <= k < |parts| ==> sep !in parts[k]
    ensures Split(Join(parts, sep), sep) == parts
  {
    if |parts| == 1 {
      SplitWithoutSeparator(parts[0], sep);
    } else {
      SplitJoin(parts[1..], sep);
      SplitAtFirst(parts[0], sep, Join(parts[1..], sep));
      assert [parts[0]] + parts[1..] == parts;
    }
  }

  /** A decimal integer holds no line break. */
  /** Nor a carriage return. */
  lemma NoReturnInDecimal(n: int)
    ensures '\r' !in IntToDecimal(n)
  {
    var d := IntToDecimal(n);
    forall k | 0 <= k < |d| ensures d[k] != '\r' {
      if k > 0 { assert IsDigit(d[k]); }
    }
  }

  lemma NoNewlineInDecimal(n: int)
    ensures '\n' !in IntToDecimal(n)
  {
    var d := IntToDecimal(n);
    forall k | 0 <= k < |d| ensures d[k] != '\n' {
      if k > 0 { assert IsDigit(d[k]); }
    }
  }

  /** `c * n` in Python: the character repeated n times. */
  function Repeat(c: char, n: nat): (s: string)
    ensures |s| == n && forall i :: 0 <= i < n ==> s[i] == c
  {
    seq(n, _ => c)
  }

  // ------------------------------------------------------------------ lines

  /** Python's universal newlines when a file is opened for reading in
      text mode: "\r\n" and a lone '\r' both come back as '\n'. */
  function Universal(s: string): (t: string)
    ensures '\r' !in t
  {
    if s == [] then []
    else if s[0] == '\r' then
      if |s| >= 2 && s[1] == '\n' then "\n" + Universal(s[2..]) else "\n" + Universal(s[1..])
    else [s[0]] + Universal(s[1..])
  }

  /** Text without a carriage return is read as it is. */
  lemma {:induction false} UniversalWithoutReturn(s: string)
    requires '\r' !in s
    ensures Universal(s) == s
  {
    if s != [] {
      assert '\r' !in s[1..] by {
        forall k | 0 <= k < |s[1..]| ensures s[1..][k] != '\r' {
          assert s[1..][k] == s[k + 1];
        }
      }
      UniversalWithoutReturn(s[1..]);
      assert s == [s[0]] + s[1..];
    }
  }

  /** A carriage return not followed by a line break is read as one. */
  lemma {:induction false} UniversalLoneReturn(a: string, b: string)
    requires '\r' !in a && (b == [] || b[0] != '\n')
    ensures Universal(a + "\r" + b) == a + "\n" + Universal(b)
  {
    if a == [] {
      assert a + "\r" + b == "\r" + b;
      assert ("\r" + b)[1..] == b;
    } else {
      assert a[0] in a;
      assert '\r' !in a[1..] by {
        forall k | 0 <= k < |a[1..]| ensures a[1..][k] != '\r' {
          assert a[1..][k] == a[k + 1];
        }
      }
      UniversalLoneReturn(a[1..], b);
      assert (a + "\r" + b)[1..] == a[1..] + "\r" + b;
      assert [a[0]] + (a[1..] + "\n" + Universal(b)) == a + "\n" + Universal(b);
    }
  }

  /** The lines Python yields when iterating over a text file opened for
      reading whose content is `s`. */
  function FileLines(s: string): (ls: seq<string>)
    ensures forall k :: 0 <= k < |ls| ==> ls[k] != [] && '\r' !in ls[k]
  {
    var t := Universal(s);
    var ls := Lines(t);
    LinesWithoutReturn(t);
    ls
  }

  /** The lines of a newline-translated text: each line keeps its final
      '\n', and a last line without one is yielded too. */
  function Lines(s: string): (ls: seq<string>)
    ensures forall k :: 0 <= k < |ls| ==> ls[k] != []
  {
    if s == [] then []
    else if s[0] == '\n' then ["\n"] + Lines(s[1..])
    else
      var rest := Lines(s[1..]);
      if rest == [] then [[s[0]]] else [[s[0]] + rest[0]] + rest[1..]
  }

  lemma {:induction false} LinesWithoutReturn(s: string)
    requires '\r' !in s
    ensures forall k :: 0 <= k < |Lines(s)| ==> '\r' !in Lines(s)[k]
  {
    if s != [] {
      assert '\r' !in s[1..] by {
        forall k | 0 <= k < |s[1..]| ensures s[1..][k] != '\r' {
          assert s[1..][k] == s[k + 1];
        }
      }
      LinesWithoutReturn(s[1..]);
    }
  }

  lemma {:induction false} LinesAtFirstNewline(a: string, b: string)
    requires '\n' !in a
    ensures Lines(a + "\n" + b) == [a + "\n"] + Lines(b)
  {
    if a == [] {
      assert a + "\n" + b == "\n" + b;
      assert ("\n" + b)[1..] == b;
    } else {
      LinesAtFirstNewline(a[1..], b);
      assert (a + "\n" + b)[1..] == a[1..] + "\n" + b;
      assert [a[0]] + (a[1..] + "\n") == a + "\n";
    }
  }

  // ------------------------------------------------------------- int(), parseInt

  /** An optional leading sign: (is negative, rest). */
  function SignSplit(t: string): (bool, string) {
    if |t| > 0 && t[0] == '-' then (true, t[1..])
    else if |t| > 0 && t[0] == '+' then (false, t[1..])
    else (false, t)
  }

  /** Python's grammar for the digits of `int(s)`: digit ('_'? digit)*. */
  predicate PyDigitBody(b: string) {
    && |b| >= 1 && IsDigit(b[0]) && IsDigit(b[|b| - 1])
    && (forall k :: 0 <= k < |b| ==> IsDigit(b[k]) || b[k] == '_')
    && (forall k :: 0 <= k < |b| - 1 ==> !(b[k] == '_' && b[k + 1] == '_'))
  }

  function DropUnderscores(b: string): (d: string)
    ensures (forall k :: 0 <= k < |b| ==> IsDigit(b[k]) || b[k] == '_') ==> AllDigits(d)
    ensures AllDigits(b) ==> d == b
  {
    if b == [] then []
    else if b[0] == '_' then DropUnderscores(b[1..])
    else [b[0]] + DropUnderscores(b[1..])
  }

  /** `int(s)` in Python: None stands for the ValueError it raises. */
  function PyInt(s: string): (r: Option<int>)
    ensures PyStrip(s) == [] ==> r.None?
    ensures r.Some? && r.value < 0 ==> PyStrip(s)[0] == '-'
  {
    var (neg, body) := SignSplit(PyStrip(s));
    if PyDigitBody(body) then
      var v: int := DigitsValue(DropUnderscores(body));
      Some(if neg then -v else v)
    else None
  }

  /** The longest prefix of `s` made of decimal digits. */
  function DigitPrefix(s: string): (d: string)
    ensures d <= s && AllDigits(d)
    ensures |d| < |s| ==> !IsDigit(s[|d|])
  {
    if s != [] && IsDigit(s[0]) then [s[0]] + DigitPrefix(s[1..]) else []
  }

  /** `parseInt(s)` in JavaScript for decimal input: None stands for NaN. */
  function JsParseInt(s: string): (r: Option<int>)
    ensures JsTrimStart(s) == [] ==> r.None?
    ensures r.Some? && r.value < 0 ==> JsTrimStart(s)[0] == '-'
  {
    var (neg, body) := SignSplit(JsTrimStart(s));
    var d := DigitPrefix(body);
    var v: int := if d == [] then 0 else DigitsValue(d);
    if d == [] then None else Some(if neg then -v else v)
  }

  lemma {:induction false} DigitPrefixOfDigits(s: string)
    requires AllDigits(s)
    ensures DigitPrefix(s) == s
  {
    if s != [] {
      DigitPrefixOfDigits(s[1..]);
      assert [s[0]] + s[1..] == s;
    }
  }

  /** parseInt reads back every integer that String() writes. */
  lemma JsParseIntOfDecimal(n: int)
    ensures JsParseInt(IntToDecimal(n)) == Some(n)
  {
    var s := IntToDecimal(n);
    var m: nat := if n < 0 then -n else n;
    var body := NatToDecimal(m);
    assert !JsIsSpace(s[0]);
    assert JsTrimStart(s) == s;
    assert SignSplit(s) == (n < 0, body);
    DigitPrefixOfDigits(body);
    NatToDecimalValue(m);
    assert DigitPrefix(SignSplit(JsTrimStart(s)).1) == body;
  }

  /** Empty, blank and non-numeric strings all parse to NaN. */
  lemma JsParseIntNoDigits(s: string)
    requires forall k :: 0 <= k < |s| ==> !IsDigit(s[k])
    ensures JsParseInt(s) == None
  {
    var t := JsTrimStart(s);
    var body := SignSplit(t).1;
    assert body == [] || body[0] in s;
  }

  /** Two integers with the same decimal form are equal. */
  lemma IntToDecimalInjective(a: int, b: int)
    requires IntToDecimal(a) == IntToDecimal(b)
    ensures a == b
  {
    JsParseIntOfDecimal(a);
    JsParseIntOfDecimal(b);
  }

  lemma PyStripOfDecimal(pad: string, n: int)
    requires forall k :: 0 <= k < |pad| ==> PyIsSpace(pad[k])
    ensures PyStrip(pad + IntToDecimal(n)) == IntToDecimal(n)
  {
    var d := IntToDecimal(n);
    PyStripLeftPad(pad, d);
  }

  lemma {:induction false} PyStripLeftPad(pad: string, d: string)
    requires forall k :: 0 <= k < |pad| ==> PyIsSpace(pad[k])
    requires d != [] && !PyIsSpace(d[0])
    ensures PyStripLeft(pad + d) == d
  {
    if pad != [] {
      assert (pad + d)[1..] == pad[1..] + d;
      PyStripLeftPad(pad[1..], d);
    } else {
      assert pad + d == d;
    }
  }

  /** Python's int() reads back every integer that str() writes, also with
      white space in front of it. */
  lemma PyIntOfDecimal(pad: string, n: int)
    requires forall k :: 0 <= k < |pad| ==> PyIsSpace(pad[k])
    ensures PyInt(pad + IntToDecimal(n)) == Some(n)
  {
    PyStripOfDecimal(pad, n);
    var s := IntToDecimal(n);
    var m: nat := if n < 0 then -n else n;
    var body := NatToDecimal(m);
    assert SignSplit(s) == (n < 0, body);
    assert PyDigitBody(body);
    assert DropUnderscores(body) == body;
    NatToDecimalValue(m);
  }
}
