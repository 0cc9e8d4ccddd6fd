/** Characters, lines and decimal numbers as the C library sees them:
    `isspace`, `isxdigit`, `isdigit`, `fgets` line splitting,
    `printf("%d")` and `sscanf("%d")` on non-negative values. */
module Text {

  datatype Option<+T> = None | Some(value: T)

  /** `isspace` in the "C" locale: space, \t, \n, \v, \f, \r. */
  predicate IsSpace(c: char) {
    c == ' ' || ('\t' <= c <= '\r')
  }

  /** `isdigit` */
  predicate IsDigit(c: char) {
    '0' <= c <= '9'
  }

  /** `isxdigit` */
  predicate IsXDigit(c: char) {
    IsDigit(c) || 'a' <= c <= 'f' || 'A' <= c <= 'F'
  }

  /** The character classes the scanners skip over. */
  datatype CharClass = Space | XDigit | SpaceOrXDigit | NotSpace | Except(c: char)

  predicate In(c: char, cls: CharClass) {
    match cls
    case Space => IsSpace(c)
    case XDigit => IsXDigit(c)
    case SpaceOrXDigit => IsSpace(c) || IsXDigit(c)
    case NotSpace => !IsSpace(c)
    case Except(x) => c != x
  }

  /** Index of the first character at or after `p` that does not satisfy `f`
      (or `|s|`): the effect of `while (f(*p)) p++;` stopped at end of line. */
  function SkipWhile(s: string, p: nat, f: CharClass): (q: nat)
    requires p <= |s|
    ensures p <= q <= |s|
    ensures forall k :: p <= k < q ==> In(s[k], f)
    ensures q < |s| ==> !In(s[q], f)
    decreases |s| - p
  {
    if p == |s| || !In(s[p], f) then p else SkipWhile(s, p + 1, f)
  }

  /** `SkipWhile` stops at the first character that fails `f`. */
  lemma SkipWhileIs(s: string, p: nat, f: CharClass, q: nat)
    requires p <= q <= |s|
    requires forall k :: p <= k < q ==> In(s[k], f)
    requires q < |s| ==> !In(s[q], f)
    ensures SkipWhile(s, p, f) == q
  {
  }

  /** `while (f(*p)) p++;`, stopped at the end of the line. */
  method Skip(s: string, p: nat, f: CharClass) returns (q: nat)
    requires p <= |s|
    ensures q == SkipWhile(s, p, f)
  {
    q := p;
    while q < |s| && In(s[q], f)
      invariant p <= q <= |s|
      invariant SkipWhile(s, q, f) == SkipWhile(s, p, f)
    {
      q := q + 1;
    }
  }

  // ---------------------------------------------------------------------
  // Lines as `fgets` returns them: each one keeps its terminating newline;
  // the last one may lack it.

  /** A complete line: ends with its only newline. */
  predicate IsLine(l: string) {
    |l| > 0 && l[|l| - 1] == '\n' && forall k :: 0 <= k < |l| - 1 ==> l[k] != '\n'
  }

  /** A line of which nothing but its end is a newline. */
  lemma EndsLine(l: string, body: string)
    requires l == body + "\n"
    requires forall k :: 0 <= k < |body| ==> body[k] != '\n'
    ensures IsLine(l)
  {
    assert forall k :: 0 <= k < |l| - 1 ==> l[k] == body[k];
  }

  /** Length of the first line of `t`, newline included. */
  function LineEnd(t: string): (e: nat)
    requires t != []
    ensures 0 < e <= |t|
    ensures forall k :: 0 <= k < e - 1 ==> t[k] != '\n'
    ensures e < |t| ==> t[e - 1] == '\n'
  {
    if t[0] == '\n' || |t| == 1 then 1 else 1 + LineEnd(t[1..])
  }

  function Lines(t: string): (ls: seq<string>)
    decreases |t|
  {
    if t == [] then [] else
    var e := LineEnd(t);
    [t[..e]] + Lines(t[e..])
  }

  function Concat(ls: seq<string>): (t: string)
  {
    if ls == [] then [] else ls[0] + Concat(ls[1..])
  }

  lemma LineEndOfLine(l: string, rest: string)
    requires IsLine(l)
    ensures LineEnd(l + rest) == |l|
  {
    var t := l + rest;
    assert forall k :: 0 <= k < |l| ==> t[k] == l[k];
  }

  /** Splitting the text written as a sequence of complete lines gives
      back exactly those lines. */
  lemma {:induction false} LinesOfConcat(ls: seq<string>)
    requires forall i :: 0 <= i < |ls| ==> IsLine(ls[i])
    ensures Lines(Concat(ls)) == ls
  {
    if ls != [] {
      var t := Concat(ls);
      LineEndOfLine(ls[0], Concat(ls[1..]));
      assert t[..|ls[0]|] == ls[0];
      assert t[|ls[0]|..] == Concat(ls[1..]);
      LinesOfConcat(ls[1..]);
    }
  }

  lemma {:induction false} ConcatAppend(a: seq<string>, b: seq<string>)
    ensures Concat(a + b) == Concat(a) + Concat(b)
  {
    if a == [] {
      assert a + b == b;
    } else {
      assert (a + b)[1..] == a[1..] + b;
      ConcatAppend(a[1..], b);
    }
  }

  // ---------------------------------------------------------------------
  // Decimal numerals

  function DigitChar(d: nat): (c: char)
    requires d < 10
    ensures IsDigit(c)
  {
    ('0' as int + d) as char
  }

  function DigitValue(c: char): (d: nat)
    requires IsDigit(c)
    ensures d < 10
  {
    c as int - '0' as int
  }

  predicate AllDigits(s: string) {
    forall k :: 0 <= k < |s| ==> IsDigit(s[k])
  }

  /** `printf("%d", n)` for a non-negative `n`: no sign, no leading zero. */
  function Decimal(n: nat): (s: string)
    ensures |s| > 0 && AllDigits(s)
  {
    if n < 10 then [DigitChar(n)] else Decimal(n / 10) + [DigitChar(n % 10)]
  }

  /** The value of a run of decimal digits, as `sscanf("%d")` reads it. */
  function DecimalValue(s: string): (n: nat)
    requires AllDigits(s)
  {
    if s == [] then 0 else DecimalValue(s[..|s| - 1]) * 10 + DigitValue(s[|s| - 1])
  }

  lemma {:induction false} DecimalRoundTrip(n: nat)
    ensures DecimalValue(Decimal(n)) == n
  {
    var s := Decimal(n);
    if n >= 10 {
      assert s[..|s| - 1] == Decimal(n / 10);
      DecimalRoundTrip(n / 10);
    }
  }

  /** Length of the run of digits that starts `t`. */
  function DigitRunLength(t: string): (k: nat)
    ensures k <= |t|
    ensures forall j :: 0 <= j < k ==> IsDigit(t[j])
    ensures k < |t| ==> !IsDigit(t[k])
  {
    if t == [] || !IsDigit(t[0]) then 0 else 1 + DigitRunLength(t[1..])
  }

  lemma {:induction false} DigitRunLengthOfDigits(d: string, t: string)
    requires AllDigits(d)
    requires t == [] || !IsDigit(t[0])
    ensures DigitRunLength(d + t) == |d|
  {
    if d != [] {
      assert (d + t)[1..] == d[1..] + t;
      DigitRunLengthOfDigits(d[1..], t);
    }
  }

  /** Every maximal run of digits in `t`, read as a number, in order;
      every other character is skipped. */
  function DigitRuns(t: string): (ns: seq<nat>)
    decreases |t|
  {
    if t == [] then []
    else if IsDigit(t[0]) then
      var k := DigitRunLength(t);
      [DecimalValue(t[..k])] + DigitRuns(t[k..])
    else DigitRuns(t[1..])
  }

  /** A numeral followed by a separator is read back as one number. */
  lemma DigitRunsOfDecimal(n: nat, sep: char, rest: string)
    requires !IsDigit(sep)
    ensures DigitRuns(Decimal(n) + [sep] + rest) == [n] + DigitRuns([sep] + rest)
  {
    var d := Decimal(n);
    var t := d + [sep] + rest;
    assert t[|d|] == sep;
    DigitRunLengthOfDigits(d, [sep] + rest);
    assert t == d + ([sep] + rest);
    var k := DigitRunLength(t);
    assert t[..k] == d;
    assert t[k..] == [sep] + rest;
    DecimalRoundTrip(n);
  }
}
