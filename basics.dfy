/** Text primitives shared by every script: Python's whitespace set, `strip`,
    `lower`/`upper` (ASCII), `startswith`, `in` on strings, `split`,
    `splitlines`, and the `float()`/`int()` conversions the scripts apply to
    captured digit strings. */
module Basics {

  datatype Option<+T> = None | Some(value: T) {
    function GetOr(default: T): T {
      match this
      case Some(v) => v
      case None => default
    }
  }

  // ---------------------------------------------------------------------------
  // Characters

  /** Python's `str.isspace()`, which is also what `\s` and `strip()` use. */
  predicate IsSpace(c: char) {
    c == ' ' || ('\t' <= c <= '\r') || ('\U{1C}' <= c <= '\U{1F}') || c == '\U{85}' || c == '\U{A0}'
    || c == '\U{1680}' || ('\U{2000}' <= c <= '\U{200A}') || c == '\U{2028}' || c == '\U{2029}'
    || c == '\U{202F}' || c == '\U{205F}' || c == '\U{3000}'
  }

  predicate IsDigit(c: char) { '0' <= c <= '9' }

  predicate IsHex(c: char) { IsDigit(c) || 'a' <= c <= 'f' || 'A' <= c <= 'F' }

  predicate IsAsciiUpper(c: char) { 'A' <= c <= 'Z' }

  predicate IsAsciiLower(c: char) { 'a' <= c <= 'z' }

  function LowerChar(c: char): (r: char)
    ensures IsAsciiUpper(c) ==> IsAsciiLower(r)
    ensures !IsAsciiUpper(c) ==> r == c
  {
    if IsAsciiUpper(c) then (c as int + 32) as char else c
  }

  function UpperChar(c: char): (r: char)
    ensures IsAsciiLower(c) ==> IsAsciiUpper(r)
    ensures !IsAsciiLower(c) ==> r == c
  {
    if IsAsciiLower(c) then (c as int - 32) as char else c
  }

  /** `s.lower()` restricted to ASCII letters. */
  function Lower(s: string): (r: string)
    ensures |r| == |s|
    ensures forall i :: 0 <= i < |s| ==> r[i] == LowerChar(s[i])
  {
    seq(|s|, i requires 0 <= i < |s| => LowerChar(s[i]))
  }

  /** `s.upper()` restricted to ASCII letters. */
  function Upper(s: string): (r: string)
    ensures |r| == |s|
    ensures forall i :: 0 <= i < |s| ==> r[i] == UpperChar(s[i])
  {
    seq(|s|, i requires 0 <= i < |s| => UpperChar(s[i]))
  }

  lemma {:induction false} LowerIdempotent(s: string)
    ensures Lower(Lower(s)) == Lower(s)
  {
    forall i | 0 <= i < |s| ensures Lower(Lower(s))[i] == Lower(s)[i] {
      assert Lower(Lower(s))[i] == LowerChar(LowerChar(s[i]));
    }
  }

  // ---------------------------------------------------------------------------
  // Prefixes and substrings

  predicate StartsWith(s: string, p: string) {
    |p| <= |s| && s[..|p|] == p
  }

  predicate EndsWith(s: string, p: string) {
    |p| <= |s| && s[|s| - |p|..] == p
  }

  /** `p` occurs in `s` at index `i`. */
  predicate At(s: string, i: nat, p: string) {
    i + |p| <= |s| && s[i..i + |p|] == p
  }

  /** `p` occurs in `s` at index `i`, ignoring ASCII case. */
  predicate AtCi(s: string, i: nat, p: string) {
    i + |p| <= |s| && Lower(s[i..i + |p|]) == Lower(p)
  }

  /** Python's `p in s`. */
  predicate Contains(s: string, p: string) {
    exists i :: 0 <= i <= |s| && At(s, i, p)
  }

  /** `re.search` of a literal under IGNORECASE. */
  predicate ContainsCi(s: string, p: string) {
    exists i :: 0 <= i <= |s| && AtCi(s, i, p)
  }

  lemma ContainsCiIn(s: string, i: nat, p: string)
    requires AtCi(s, i, p)
    ensures ContainsCi(s, p)
  {
  }

  // ---------------------------------------------------------------------------
  // Stripping

  function LStrip(s: string): (r: string)
    ensures |r| <= |s| && r == s[|s| - |r|..]
    ensures r == [] || !IsSpace(r[0])
    ensures forall i :: 0 <= i < |s| - |r| ==> IsSpace(s[i])
  {
    if |s| > 0 && IsSpace(s[0]) then LStrip(s[1..]) else s
  }

  function RStrip(s: string): (r: string)
    ensures |r| <= |s| && r == s[..|r|]
    ensures r == [] || !IsSpace(r[|r| - 1])
    ensures forall i :: |r| <= i < |s| ==> IsSpace(s[i])
  {
    if |s| > 0 && IsSpace(s[|s| - 1]) then RStrip(s[..|s| - 1]) else s
  }

  /** `s.strip()`. */
  function Strip(s: string): (r: string)
    ensures |r| <= |s|
    ensures r == [] || (!IsSpace(r[0]) && !IsSpace(r[|r| - 1]))
  {
    RStrip(LStrip(s))
  }

  /** `s.strip(c)` for a single character `c`. */
  function StripChar(s: string, c: char): (r: string)
    ensures |r| <= |s|
    ensures r == [] || (r[0] != c && r[|r| - 1] != c)
  {
    if |s| > 0 && s[0] == c then StripChar(s[1..], c)
    else if |s| > 0 && s[|s| - 1] == c then StripChar(s[..|s| - 1], c)
    else s
  }

  /** `not s.strip()`: the line is empty or whitespace only. */
  predicate IsBlank(s: string) {
    Strip(s) == []
  }

  // ---------------------------------------------------------------------------
  // Splitting and joining

  /** `s.split(c)` for a single-character separator. */
  function Split(s: string, c: char): (r: seq<string>)
    ensures |r| >= 1
    ensures forall k :: 0 <= k < |r| ==> c !in r[k]
  {
    if |s| == 0 then [""]
    else
      var rest := Split(s[1..], c);
      if s[0] == c then [""] + rest else [[s[0]] + rest[0]] + rest[1..]
  }

  /** Without the separator, `split` returns the whole string. */
  lemma {:induction false} SplitNoSep(s: string, c: char)
    requires c !in s
    ensures Split(s, c) == [s]
  {
    if |s| > 0 {
      SplitNoSep(s[1..], c);
      assert [s[0]] + s[1..] == s;
    }
  }

  /** `s.split(sep)` for a separator of any non-zero length: pieces between
      leftmost non-overlapping occurrences. */
  function SplitOn(s: string, sep: string): (r: seq<string>)
    requires |sep| > 0
    ensures |r| >= 1
    decreases |s|
  {
    if |s| == 0 then [""]
    else if StartsWith(s, sep) then [""] + SplitOn(s[|sep|..], sep)
    else
      var rest := SplitOn(s[1..], sep);
      [[s[0]] + rest[0]] + rest[1..]
  }

  /** An occurrence in the tail is an occurrence one place further on. */
  lemma AtShift(s: string, i: nat, p: string)
    requires |s| > 0
    ensures At(s[1..], i, p) <==> At(s, i + 1, p)
  {
    if i + |p| <= |s| - 1 {
      assert s[1..][i..i + |p|] == s[i + 1..i + 1 + |p|];
    }
  }

  lemma {:induction false} SplitOnAbsent(s: string, sep: string)
    requires |sep| > 0 && !Contains(s, sep)
    ensures SplitOn(s, sep) == [s]
    decreases |s|
  {
    if |s| > 0 {
      assert !StartsWith(s, sep) by { assert !At(s, 0, sep); }
      assert !Contains(s[1..], sep) by {
        forall i | 0 <= i <= |s| - 1 ensures !At(s[1..], i, sep) {
          AtShift(s, i, sep);
        }
      }
      SplitOnAbsent(s[1..], sep);
      assert [s[0]] + s[1..] == s;
    }
  }

  lemma {:induction false} SplitOnPresent(s: string, sep: string)
    requires |sep| > 0 && Contains(s, sep)
    ensures |SplitOn(s, sep)| >= 2
    decreases |s|
  {
    if !StartsWith(s, sep) {
      var i :| 0 <= i <= |s| && At(s, i, sep);
      assert i > 0;
      assert At(s[1..], i - 1, sep) by { AtShift(s, i - 1, sep); }
      SplitOnPresent(s[1..], sep);
    }
  }

  /** `sep.join(pieces)`. */
  function Join(pieces: seq<string>, sep: string): string {
    if |pieces| == 0 then ""
    else if |pieces| == 1 then pieces[0]
    else pieces[0] + sep + Join(pieces[1..], sep)
  }

  /** `s.replace(c, "")` for one character. */
  function RemoveChar(s: string, c: char): (r: string)
    ensures c !in r
    ensures |r| <= |s|
    ensures forall x :: x in r ==> x in s
  {
    if |s| == 0 then ""
    else if s[0] == c then RemoveChar(s[1..], c)
    else [s[0]] + RemoveChar(s[1..], c)
  }

  /** Line separators recognised by `str.splitlines()`. */
  predicate IsLineBreak(c: char) {
    c == '\n' || c == '\r' || c == '\U{0B}' || c == '\U{0C}' || c == '\U{1C}' || c == '\U{1D}'
    || c == '\U{1E}' || c == '\U{85}' || c == '\U{2028}' || c == '\U{2029}'
  }

  /** `text.splitlines()`: `\r\n` counts as one break and a final break does
      not start an empty line. */
  function SplitLines(s: string): (r: seq<string>)
    ensures s == [] <==> r == []
    decreases |s|
  {
    if s == [] then []
    else if IsLineBreak(s[0]) then
      var n := if s[0] == '\r' && |s| > 1 && s[1] == '\n' then 2 else 1;
      [""] + SplitLines(s[n..])
    else
      var rest := SplitLines(s[1..]);
      if rest == [] then [[s[0]]] else [[s[0]] + rest[0]] + rest[1..]
  }

  // ---------------------------------------------------------------------------
  // Maximal runs of one character class (what a greedy `[...]+` consumes)

  datatype CharClass =
    | Digit        // \d
    | DigitDot     // [\d.]
    | DigitDotComma // [\d.,]
    | HexDigit     // [0-9a-f] under IGNORECASE
    | Space        // \s
    | QuantBody    // [A-Z0-9_] under IGNORECASE
    | NotPipe      // [^|]
    | NotBracket   // [^]]
    | NotBlank     // [^ ]

  predicate InClass(c: char, k: CharClass) {
    match k
    case Digit => IsDigit(c)
    case DigitDot => IsDigit(c) || c == '.'
    case DigitDotComma => IsDigit(c) || c == '.' || c == ','
    case HexDigit => IsHex(c)
    case Space => IsSpace(c)
    case QuantBody => IsDigit(c) || IsAsciiUpper(c) || IsAsciiLower(c) || c == '_'
    case NotPipe => c != '|'
    case NotBracket => c != ']'
    case NotBlank => c != ' '
  }

  /** End of the maximal run of class `k` starting at `i`. */
  function SpanEnd(s: string, i: nat, k: CharClass): (j: nat)
    requires i <= |s|
    ensures i <= j <= |s|
    ensures forall m :: i <= m < j ==> InClass(s[m], k)
    ensures j < |s| ==> !InClass(s[j], k)
    decreases |s| - i
  {
    if i < |s| && InClass(s[i], k) then SpanEnd(s, i + 1, k) else i
  }

  predicate AllIn(s: string, k: CharClass) {
    forall i :: 0 <= i < |s| ==> InClass(s[i], k)
  }

  // ---------------------------------------------------------------------------
  // Numbers

  function DigitsValue(s: string): nat
    requires AllIn(s, Digit)
  {
    if |s| == 0 then 0 else 10 * DigitsValue(s[..|s| - 1]) + (s[|s| - 1] as int - '0' as int)
  }

  function Pow10(n: nat): (r: nat)
    ensures r >= 1
  {
    if n == 0 then 1 else 10 * Pow10(n - 1)
  }

  function CountChar(s: string, c: char): nat {
    if |s| == 0 then 0 else (if s[0] == c then 1 else 0) + CountChar(s[1..], c)
  }

  function IndexOf(s: string, c: char): (r: Option<nat>)
    ensures r.None? ==> c !in s
    ensures r.Some? ==> r.value < |s| && s[r.value] == c && c !in s[..r.value]
  {
    if |s| == 0 then None
    else if s[0] == c then Some(0)
    else match IndexOf(s[1..], c)
      case None => None
      case Some(i) => assert s[..i + 1] == [s[0]] + s[1..][..i]; Some(i + 1)
  }

  /** `float(s)` for a string of digits and dots (the only strings the
      scripts hand to `float()`): it succeeds exactly when there is at most
      one dot and at least one digit. */
  function ParseDecimal(s: string): (r: Option<real>)
    requires AllIn(s, DigitDot)
    ensures r.Some? <==> CountChar(s, '.') <= 1 && exists i :: 0 <= i < |s| && IsDigit(s[i])
    ensures r.Some? ==> r.value >= 0.0
  {
    match IndexOf(s, '.')
    case None =>
      CountNoChar(s, '.');
      if |s| == 0 then None else Some(DigitsValue(s) as real)
    case Some(d) =>
      var whole, frac := s[..d], s[d + 1..];
      CountSplit(s, d, '.');
      CountNoChar(whole, '.');
      if CountChar(frac, '.') != 0 then None
      else
        CountZeroNoChar(frac, '.');
        if |whole| == 0 && |frac| == 0 then None
        else
          assert |whole| > 0 ==> IsDigit(s[0]);
          assert |frac| > 0 ==> IsDigit(s[d + 1]);
          Some(DigitsValue(whole) as real + DigitsValue(frac) as real / Pow10(|frac|) as real)
  }

  lemma {:induction false} CountNoChar(s: string, c: char)
    requires c !in s
    ensures CountChar(s, c) == 0
  {
    if |s| > 0 { CountNoChar(s[1..], c); }
  }

  lemma {:induction false} CountZeroNoChar(s: string, c: char)
    requires CountChar(s, c) == 0
    ensures c !in s
  {
    if |s| > 0 { CountZeroNoChar(s[1..], c); }
  }

  lemma {:induction false} CountSplit(s: string, d: nat, c: char)
    requires d < |s| && s[d] == c
    ensures CountChar(s, c) == CountChar(s[..d], c) + 1 + CountChar(s[d + 1..], c)
  {
    if d > 0 {
      assert s[1..][..d - 1] == s[1..d];
      assert s[1..][d..] == s[d + 1..];
      CountSplit(s[1..], d - 1, c);
      assert s[..d][1..] == s[1..d];
    } else {
      assert s[d + 1..] == s[1..];
    }
  }

  /** Digits separated by single underscores, as Python's `int()` accepts. */
  predicate UnderscoredDigits(s: string) {
    && |s| > 0 && IsDigit(s[0]) && IsDigit(s[|s| - 1])
    && (forall i :: 0 <= i < |s| ==> IsDigit(s[i]) || s[i] == '_')
    && (forall i :: 0 <= i < |s| - 1 ==> !(s[i] == '_' && s[i + 1] == '_'))
  }

  /** `int(s)` in base 10: surrounding whitespace, an optional sign and
      single underscores between digits are accepted; anything else raises
      ValueError, here `None`. */
  function ParseInt(s: string): (r: Option<int>)
    ensures r.Some? ==> var t := Strip(s); |t| > 0 && (IsDigit(t[0]) || t[0] == '+' || t[0] == '-')
  {
    var t := Strip(s);
    if |t| > 0 && (t[0] == '+' || t[0] == '-') then
      var body := t[1..];
      if UnderscoredDigits(body) then
        var v: int := UnderscoredValue(body);
        Some(if t[0] == '-' then -v else v)
      else None
    else if UnderscoredDigits(t) then Some(UnderscoredValue(t))
    else None
  }

  function UnderscoredValue(s: string): nat
    requires forall i :: 0 <= i < |s| ==> IsDigit(s[i]) || s[i] == '_'
  {
    var digits := RemoveChar(s, '_');
    assert AllIn(digits, Digit) by {
      forall i | 0 <= i < |digits| ensures IsDigit(digits[i]) {
        assert digits[i] in digits;
        assert digits[i] in s;
      }
    }
    DigitsValue(digits)
  }

  /** Removing a character that does not occur changes nothing. */
  lemma {:induction false} RemoveAbsent(s: string, c: char)
    requires c !in s
    ensures RemoveChar(s, c) == s
  {
    if |s| > 0 {
      RemoveAbsent(s[1..], c);
      assert s == [s[0]] + s[1..];
    }
  }

  /** A string with no whitespace at either end is its own strip. */
  lemma StripPlain(t: string)
    requires |t| > 0 && !IsSpace(t[0]) && !IsSpace(t[|t| - 1])
    ensures Strip(t) == t
  {
    assert LStrip(t) == t;
  }

  /** A plain digit string is accepted by `int()` with its decimal value. */
  lemma UnderscoredPlain(s: string)
    requires |s| > 0 && AllIn(s, Digit)
    ensures UnderscoredDigits(s) && UnderscoredValue(s) == DigitsValue(s)
  {
    RemoveAbsent(s, '_');
  }

  /** `int()` reads a plain, non-empty digit string as its decimal value. */
  lemma ParseIntDigits(s: string)
    requires |s| > 0 && AllIn(s, Digit)
    ensures ParseInt(s) == Some(DigitsValue(s))
  {
    StripPlain(s);
    assert Strip(s) == s && IsDigit(s[0]);
    UnderscoredPlain(s);
  }
}
