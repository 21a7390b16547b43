/** String primitives the system borrows from Python: truthiness and `or` on strings,
    `str(int)`, `int(str)`, `str.strip(chars)`, `str.join`, `str.startswith`, `str.find`,
    the first word of `str.split(' ')` and the ASCII part of `str.lower`. Strings are `seq<char>`.
 */
module Text {
  import opened Wrappers

  /** Python `a or b` on two strings: the first one unless it is empty. */
  function Or(a: string, b: string): string {
    if a != "" then a else b
  }

  /** Python `a or b` on two nullable strings: `None` and "" are both falsy. */
  function OrNullable(a: Option<string>, b: Option<string>): Option<string> {
    if a.Some? && a.value != "" then a else b
  }

  /** Python `f"{x}"` of a nullable string: `None` renders as "None". */
  function ShowNullable(s: Option<string>): string {
    match s
    case Some(v) => v
    case None => "None"
  }

  predicate StartsWith(s: string, prefix: string) {
    |prefix| <= |s| && s[..|prefix|] == prefix
  }

  // ---------------------------------------------------------------------------
  // Decimal digits, str(int) and int(str)

  predicate IsDigit(c: char) {
    '0' <= c <= '9'
  }

  predicate AllDigits(s: string) {
    forall i :: 0 <= i < |s| ==> IsDigit(s[i])
  }

  function DigitChar(d: nat): (c: char)
    requires d < 10
    ensures IsDigit(c)
  {
    (48 + d) as char
  }

  function DigitValue(c: char): (d: nat)
    requires IsDigit(c)
    ensures d < 10 && DigitChar(d) == c
  {
    (c as int) - 48
  }

  /** Python `str(n)` for a non-negative integer: most significant digit first. */
  function NatToString(n: nat): string
    decreases n
  {
    if n < 10 then [DigitChar(n)] else NatToString(n / 10) + [DigitChar(n % 10)]
  }

  /** Python `str(i)`: a minus sign before the digits of a negative number. */
  function IntToString(i: int): string {
    if i < 0 then "-" + NatToString(-i) else NatToString(i)
  }

  /** The value of a string of decimal digits, read most significant first. */
  function DigitsValue(s: string): nat
    requires AllDigits(s)
  {
    if |s| == 0 then 0 else DigitsValue(s[..|s| - 1]) * 10 + DigitValue(s[|s| - 1])
  }

  /** The whitespace Python's `int()` ignores around a number (its ASCII part). */
  const Whitespace: set<char> := {' ', '\t', '\n', '\r', '\U{0B}', '\U{0C}'}

  /** A digit group as `int()` accepts it: digits, single underscores between digits. */
  predicate WellFormedDigits(b: string) {
    && |b| > 0
    && IsDigit(b[0])
    && IsDigit(b[|b| - 1])
    && (forall i :: 0 <= i < |b| ==> IsDigit(b[i]) || b[i] == '_')
    && (forall i :: 0 <= i < |b| - 1 ==> b[i] != '_' || b[i + 1] != '_')
  }

  function RemoveUnderscores(s: string): (r: string)
    ensures (forall i :: 0 <= i < |s| ==> IsDigit(s[i]) || s[i] == '_') ==> AllDigits(r)
    ensures (forall i :: 0 <= i < |s| ==> s[i] != '_') ==> r == s
    ensures |r| <= |s|
  {
    if |s| == 0 then ""
    else if s[0] == '_' then RemoveUnderscores(s[1..])
    else [s[0]] + RemoveUnderscores(s[1..])
  }

  /** Python `int(s)` in base 10; `None` where Python raises `ValueError`. */
  function ParseInt(s: string): Option<int> {
    ParseStripped(Strip(s, Whitespace))
  }

  /** `int()` once the surrounding whitespace is gone: an optional sign, then digits. */
  function ParseStripped(t: string): Option<int> {
    if |t| > 0 && (t[0] == '-' || t[0] == '+') then
      var body := t[1..];
      if WellFormedDigits(body) then
        var v: int := DigitsValue(RemoveUnderscores(body));
        Some(if t[0] == '-' then -v else v)
      else None
    else if WellFormedDigits(t) then Some(DigitsValue(RemoveUnderscores(t)))
    else None
  }

  lemma {:induction false} NatToStringDigits(n: nat)
    ensures |NatToString(n)| > 0
    ensures AllDigits(NatToString(n))
    ensures DigitsValue(NatToString(n)) == n
    decreases n
  {
    if n >= 10 {
      NatToStringDigits(n / 10);
      var s := NatToString(n / 10);
      var t := s + [DigitChar(n % 10)];
      assert t[..|t| - 1] == s;
    }
  }

  /** `int(str(i)) == i`: the month parameter parser reads back every rendered integer. */
  lemma {:induction false} ParseIntOfIntToString(i: int)
    ensures ParseInt(IntToString(i)) == Some(i)
  {
    if i < 0 {
      ParseIntOfNegative(i);
    } else {
      ParseIntOfNat(i);
    }
  }

  lemma ParseIntOfNat(n: nat)
    ensures ParseInt(IntToString(n)) == Some(n as int)
  {
    var d := NatToString(n);
    DigitsReadBack(n);
    DigitIsNotSpace(d[0]);
    DigitIsNotSpace(d[|d| - 1]);
    StripKeeps(d, Whitespace);
    ParseUnsigned(d);
    assert ParseInt(d) == ParseStripped(d);
  }

  lemma ParseIntOfNegative(i: int)
    requires i < 0
    ensures ParseInt(IntToString(i)) == Some(i)
  {
    var n: nat := -i;
    var d := NatToString(n);
    DigitsReadBack(n);
    DigitIsNotSpace(d[|d| - 1]);
    var t := "-" + d;
    assert t[1..] == d;
    assert t[|t| - 1] == d[|d| - 1];
    StripKeeps(t, Whitespace);
    ParseSigned(t);
    assert ParseInt(t) == ParseStripped(t);
  }

  lemma ParseUnsigned(t: string)
    requires WellFormedDigits(t)
    ensures ParseStripped(t) == Some(DigitsValue(RemoveUnderscores(t)) as int)
  {
    DigitIsNotSpace(t[0]);
  }

  lemma ParseSigned(t: string)
    requires |t| > 0 && t[0] == '-' && WellFormedDigits(t[1..])
    ensures ParseStripped(t) == Some(-(DigitsValue(RemoveUnderscores(t[1..])) as int))
  {
  }

  lemma DigitIsNotSpace(c: char)
    requires IsDigit(c)
    ensures c !in Whitespace && c != '-' && c != '+'
  {
  }

  /** The digits of `str(n)` form a well-formed group that reads back as `n`. */
  lemma DigitsReadBack(n: nat)
    ensures WellFormedDigits(NatToString(n))
    ensures RemoveUnderscores(NatToString(n)) == NatToString(n)
    ensures DigitsValue(NatToString(n)) == n
  {
    NatToStringDigits(n);
  }

  /** `str(i)` is made of digits and at most a leading minus sign. */
  lemma IntToStringSymbols(i: int)
    ensures |IntToString(i)| > 0
    ensures forall k :: 0 <= k < |IntToString(i)| ==> IsDigit(IntToString(i)[k]) || IntToString(i)[k] == '-'
  {
    if i < 0 {
      NatToStringDigits(-i);
      var t := "-" + NatToString(-i);
      forall k | 1 <= k < |t| ensures IsDigit(t[k]) {
        assert t[k] == NatToString(-i)[k - 1];
      }
    } else {
      NatToStringDigits(i);
    }
  }

  // ---------------------------------------------------------------------------
  // str.find(c) and str.split(' ')[0]

  /** The position of the first `c` in `s`, if any. */
  function FirstIndex(s: string, c: char): (r: Option<nat>)
    ensures r.Some? ==> r.value < |s| && s[r.value] == c
    ensures r.Some? ==> forall j :: 0 <= j < r.value ==> s[j] != c
    ensures r.None? <==> forall j :: 0 <= j < |s| ==> s[j] != c
  {
    if |s| == 0 then None
    else if s[0] == c then Some(0)
    else
      match FirstIndex(s[1..], c)
      case None => None
      case Some(k) => Some(k + 1)
  }

  /** The first `c` of `s` is at `k` when `s[k]` is `c` and no earlier character is. */
  lemma FirstIndexAt(s: string, c: char, k: nat)
    requires k < |s| && s[k] == c
    requires forall j :: 0 <= j < k ==> s[j] != c
    ensures FirstIndex(s, c) == Some(k)
  {
  }

  /** The text before the first space, or all of it when there is none. */
  function FirstWord(s: string): (r: string)
    ensures StartsWith(s, r)
    ensures forall j :: 0 <= j < |r| ==> r[j] != ' '
    ensures |r| < |s| ==> s[|r|] == ' '
  {
    match FirstIndex(s, ' ')
    case Some(k) => s[..k]
    case None => s
  }

  /** A text that starts with a word and then a space has that word first. */
  lemma FirstWordAt(s: string, w: string)
    requires |w| < |s| && s[..|w|] == w && s[|w|] == ' '
    requires forall j :: 0 <= j < |w| ==> w[j] != ' '
    ensures FirstWord(s) == w
  {
    forall j | 0 <= j < |w| ensures s[j] != ' ' {
      assert s[j] == s[..|w|][j];
    }
    FirstIndexAt(s, ' ', |w|);
  }

  /** `str(i)` contains no space. */
  lemma IntToStringNoSpace(i: int)
    ensures forall j :: 0 <= j < |IntToString(i)| ==> IntToString(i)[j] != ' '
  {
    IntToStringSymbols(i);
  }

  // ---------------------------------------------------------------------------
  // str.strip(chars)

  function StripLeft(s: string, chars: set<char>): (r: string)
    ensures |r| <= |s| && r == s[|s| - |r|..]
    ensures forall k :: 0 <= k < |s| - |r| ==> s[k] in chars
    ensures r != "" ==> r[0] !in chars
  {
    if |s| > 0 && s[0] in chars then StripLeft(s[1..], chars) else s
  }

  function StripRight(s: string, chars: set<char>): (r: string)
    ensures |r| <= |s| && r == s[..|r|]
    ensures forall k :: |r| <= k < |s| ==> s[k] in chars
    ensures r != "" ==> r[|r| - 1] !in chars
  {
    if |s| > 0 && s[|s| - 1] in chars then StripRight(s[..|s| - 1], chars) else s
  }

  /** Python `s.strip(chars)`: drops every leading and trailing character in `chars`. */
  function Strip(s: string, chars: set<char>): (r: string)
    ensures r != "" ==> r[0] !in chars && r[|r| - 1] !in chars
    ensures |r| <= |s|
    ensures forall c :: c in r ==> c in s
  {
    var l := StripLeft(s, chars);
    var r := StripRight(l, chars);
    assert forall c :: c in r ==> c in l;
    r
  }

  /** Stripping a string that neither starts nor ends with a stripped character is the identity. */
  lemma StripKeeps(s: string, chars: set<char>)
    requires s != "" && s[0] !in chars && s[|s| - 1] !in chars
    ensures Strip(s, chars) == s
  {
  }

  /** Stripping twice is stripping once. */
  lemma StripIdempotent(s: string, chars: set<char>)
    ensures Strip(Strip(s, chars), chars) == Strip(s, chars)
  {
    var t := Strip(s, chars);
    if t != "" {
      assert t[0] !in chars && t[|t| - 1] !in chars;
      StripKeeps(t, chars);
    } else {
      assert StripLeft(t, chars) == "";
    }
  }

  /** Stripping everything from a string made only of stripped characters leaves "". */
  lemma StripAll(s: string, chars: set<char>)
    requires forall k :: 0 <= k < |s| ==> s[k] in chars
    ensures Strip(s, chars) == ""
  {
  }

  // ---------------------------------------------------------------------------
  // str.join and str.lower

  /** Python `sep.join(parts)`. */
  function Join(parts: seq<string>, sep: string): string
    decreases |parts|
  {
    if |parts| == 0 then ""
    else if |parts| == 1 then parts[0]
    else parts[0] + sep + Join(parts[1..], sep)
  }

  function LowerChar(c: char): char {
    if 'A' <= c <= 'Z' then (c as int + 32) as char else c
  }

  /** Python `s.lower()` on ASCII letters; other characters are kept. */
  function Lower(s: string): (r: string)
    ensures |r| == |s|
    ensures forall i :: 0 <= i < |s| ==> r[i] == LowerChar(s[i])
  {
    seq(|s|, i requires 0 <= i < |s| => LowerChar(s[i]))
  }
}
