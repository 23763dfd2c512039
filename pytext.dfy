/**
 * The Python standard-library string helpers the export script relies on,
 * written out for the cases it uses: `html.escape(s, quote=True)`,
 * `str(n)` for integers, `int(s)` for base-10 text, `str.strip()` and
 * `os.path.splitext` on POSIX paths.
 */
module PyText {
  import opened Wrappers

  // ---------------------------------------------------------------------
  // html.escape(s, quote=True)
  // ---------------------------------------------------------------------

  /** The characters html.escape rewrites besides `&`. */
  predicate IsMarkup(c: char) {
    c == '<' || c == '>' || c == '"' || c == '\''
  }

  predicate MarkupFree(s: string) {
    forall i :: 0 <= i < |s| ==> !IsMarkup(s[i])
  }

  /**
   * html.escape replaces `&` first, then `<`, `>`, `"` and `'`; since no
   * replacement text contains a later target, this is the same as
   * rewriting each character on its own.
   */
  function EscapeChar(c: char): (escaped: string) {
    if c == '&' then "&amp;"
    else if c == '<' then "&lt;"
    else if c == '>' then "&gt;"
    else if c == '"' then "&quot;"
    else if c == '\'' then "&#x27;"
    else [c]
  }

  function Escape(s: string): (escaped: string)
    decreases |s|
  {
    if s == [] then [] else EscapeChar(s[0]) + Escape(s[1..])
  }

  predicate StartsWith(s: string, prefix: string) {
    |prefix| <= |s| && s[..|prefix|] == prefix
  }

  /** The character an escaped string starts with, and how many characters spell it. */
  function LeadingChar(s: string): (r: (char, nat))
    requires s != []
    ensures 1 <= r.1 <= |s|
  {
    if s[0] != '&' then (s[0], 1)
    else if StartsWith(s, "&amp;") then ('&', 5)
    else if StartsWith(s, "&lt;") then ('<', 4)
    else if StartsWith(s, "&gt;") then ('>', 4)
    else if StartsWith(s, "&quot;") then ('"', 6)
    else if StartsWith(s, "&#x27;") then ('\'', 6)
    else ('&', 1)
  }

  /** Reads the five entities Escape writes back as the characters they stand for. */
  function Unescape(s: string): (text: string)
    decreases |s|
  {
    if s == [] then [] else var (c, n) := LeadingChar(s); [c] + Unescape(s[n..])
  }

  lemma MarkupFreeConcat(a: string, b: string)
    requires MarkupFree(a) && MarkupFree(b)
    ensures MarkupFree(a + b)
  {
    forall i | 0 <= i < |a + b| ensures !IsMarkup((a + b)[i]) {
      if i < |a| { assert (a + b)[i] == a[i]; } else { assert (a + b)[i] == b[i - |a|]; }
    }
  }

  /** Escaped text holds no raw `<`, `>`, `"` or `'`, so it cannot open or close markup. */
  lemma {:induction false} EscapeIsMarkupFree(s: string)
    ensures MarkupFree(Escape(s))
    decreases |s|
  {
    if s != [] {
      EscapeIsMarkupFree(s[1..]);
      MarkupFreeConcat(EscapeChar(s[0]), Escape(s[1..]));
    }
  }

  lemma LeadingCharOfEscape(c: char, t: string)
    ensures LeadingChar(EscapeChar(c) + t) == (c, |EscapeChar(c)|)
  {
    var e := EscapeChar(c) + t;
    assert e[..|EscapeChar(c)|] == EscapeChar(c);
    if c == '<' {
      assert e[1] == 'l';
    } else if c == '>' {
      assert e[1] == 'g';
    } else if c == '"' {
      assert e[1] == 'q';
    } else if c == '\'' {
      assert e[1] == '#';
    }
  }

  /** Escaping loses nothing: the escaped text determines the original. */
  lemma {:induction false} UnescapeEscape(s: string)
    ensures Unescape(Escape(s)) == s
    decreases |s|
  {
    if s != [] {
      var e := Escape(s);
      LeadingCharOfEscape(s[0], Escape(s[1..]));
      assert e[|EscapeChar(s[0])|..] == Escape(s[1..]);
      UnescapeEscape(s[1..]);
      assert [s[0]] + s[1..] == s;
    }
  }

  /** Text with none of `&<>"'` is left as it is. */
  lemma {:induction false} EscapePlain(s: string)
    requires forall i :: 0 <= i < |s| ==> s[i] != '&' && !IsMarkup(s[i])
    ensures Escape(s) == s
    decreases |s|
  {
    if s != [] {
      EscapePlain(s[1..]);
      assert [s[0]] + s[1..] == s;
    }
  }

  // ---------------------------------------------------------------------
  // str(n) and int(s), base 10
  // ---------------------------------------------------------------------

  predicate IsDigit(c: char) {
    '0' <= c <= '9'
  }

  predicate AllDigits(s: string) {
    forall i :: 0 <= i < |s| ==> IsDigit(s[i])
  }

  function DigitChar(d: nat): (c: char)
    requires d < 10
    ensures IsDigit(c)
  {
    (('0' as int) + d) as char
  }

  function DigitValue(c: char): (d: nat)
    requires IsDigit(c)
    ensures d < 10
  {
    (c as int) - ('0' as int)
  }

  /** `str(n)` for a non-negative integer: decimal digits, no leading zero. */
  function NatToString(n: nat): (digits: string)
    decreases n
  {
    if n < 10 then [DigitChar(n)] else NatToString(n / 10) + [DigitChar(n % 10)]
  }

  /** `str(n)` for any integer. */
  function IntToString(n: int): (text: string) {
    if n < 0 then "-" + NatToString(-n) else NatToString(n)
  }

  /** The number a string of decimal digits denotes (most significant first). */
  function DigitsValue(s: string): (value: nat)
    requires AllDigits(s)
    decreases |s|
  {
    if s == [] then 0 else DigitsValue(s[..|s| - 1]) * 10 + DigitValue(s[|s| - 1])
  }

  /** `str(n)` is a non-empty run of digits that denotes `n`. */
  lemma {:induction false} NatToStringValue(n: nat)
    ensures |NatToString(n)| > 0 && AllDigits(NatToString(n))
    ensures DigitsValue(NatToString(n)) == n
    decreases n
  {
    if n >= 10 {
      NatToStringValue(n / 10);
      var r := NatToString(n);
      assert r[..|r| - 1] == NatToString(n / 10);
      assert DigitValue(DigitChar(n % 10)) == n % 10;
    }
  }

  /** Distinct numbers print differently. */
  lemma NatToStringInjective(m: nat, n: nat)
    requires NatToString(m) == NatToString(n)
    ensures m == n
  {
    NatToStringValue(m);
    NatToStringValue(n);
  }

  /** Python's `str.isspace()`: the code points Python 3 treats as whitespace. */
  predicate IsSpace(c: char) {
    var k := c as int;
    (9 <= k <= 13) || (28 <= k <= 32) || k == 0x85 || k == 0xA0 || k == 0x1680
    || (0x2000 <= k <= 0x200A) || k == 0x2028 || k == 0x2029 || k == 0x202F
    || k == 0x205F || k == 0x3000
  }

  /**
   * The whitespace `int()` skips around a literal: ASCII tab, line feed,
   * vertical tab, form feed, carriage return and space, and every non-ASCII
   * `str.isspace()` character. The separators U+001C..U+001F, which
   * `str.isspace()` accepts, are not skipped.
   */
  predicate IsIntSpace(c: char) {
    IsSpace(c) && !(28 <= c as int <= 31)
  }

  /** `s` without the leading characters that satisfy `space`. */
  function StripLeft(s: string, space: char -> bool): (stripped: string)
    decreases |s|
  {
    if s != [] && space(s[0]) then StripLeft(s[1..], space) else s
  }

  /** `s` without the trailing characters that satisfy `space`. */
  function StripRight(s: string, space: char -> bool): (stripped: string)
    decreases |s|
  {
    if s != [] && space(s[|s| - 1]) then StripRight(s[..|s| - 1], space) else s
  }

  /** `s.strip()`: leading and trailing whitespace removed. */
  function Strip(s: string): (r: string) {
    StripRight(StripLeft(s, IsSpace), IsSpace)
  }

  /** What `int()` reads of `s`: `s` without the whitespace it skips. */
  function IntStrip(s: string): (r: string) {
    StripRight(StripLeft(s, IsIntSpace), IsIntSpace)
  }

  /** The digits of an `int()` literal: digits, each `_` between two digits (PEP 515). */
  predicate IsDecimalLiteral(b: string) {
    && |b| > 0
    && IsDigit(b[0])
    && (forall i :: 0 <= i < |b| ==> IsDigit(b[i]) || b[i] == '_')
    && (forall i :: 0 <= i < |b| && b[i] == '_' ==> i + 1 < |b| && IsDigit(b[i + 1]))
  }

  function RemoveUnderscores(b: string): (r: string)
    requires forall i :: 0 <= i < |b| ==> IsDigit(b[i]) || b[i] == '_'
    ensures AllDigits(r)
    decreases |b|
  {
    if b == [] then [] else (if b[0] == '_' then [] else [b[0]]) + RemoveUnderscores(b[1..])
  }

  /**
   * `int(s)` for base 10: surrounding whitespace is ignored, one optional
   * sign, then a decimal literal; `None` stands for the ValueError.
   */
  function PyInt(s: string): (parsed: Option<int>) {
    ParseStripped(IntStrip(s))
  }

  /** `int()` on text that has already lost its surrounding whitespace. */
  function ParseStripped(t: string): (parsed: Option<int>) {
    var signed := |t| > 0 && (t[0] == '+' || t[0] == '-');
    var body := if signed then t[1..] else t;
    if IsDecimalLiteral(body) then
      var v: int := DigitsValue(RemoveUnderscores(body));
      Some(if signed && t[0] == '-' then -v else v)
    else
      None
  }

  lemma {:induction false} RemoveUnderscoresOfDigits(b: string)
    requires AllDigits(b)
    ensures RemoveUnderscores(b) == b
    decreases |b|
  {
    if b != [] {
      RemoveUnderscoresOfDigits(b[1..]);
      assert [b[0]] + b[1..] == b;
    }
  }

  /** A text of whitespace only keeps only whitespace when fewer characters are stripped. */
  lemma {:induction false} StripLeftOfSpaces(s: string, space: char -> bool)
    requires forall i :: 0 <= i < |s| ==> IsSpace(s[i])
    ensures forall i :: 0 <= i < |StripLeft(s, space)| ==> IsSpace(StripLeft(s, space)[i])
    decreases |s|
  {
    if s != [] && space(s[0]) {
      StripLeftOfSpaces(s[1..], space);
    }
  }

  lemma {:induction false} StripRightOfSpaces(s: string, space: char -> bool)
    requires forall i :: 0 <= i < |s| ==> IsSpace(s[i])
    ensures forall i :: 0 <= i < |StripRight(s, space)| ==> IsSpace(StripRight(s, space)[i])
    decreases |s|
  {
    if s != [] && space(s[|s| - 1]) {
      StripRightOfSpaces(s[..|s| - 1], space);
    }
  }

  /** `s.strip()` is empty only when every character of `s` is whitespace. */
  lemma {:induction false} StripEmpty(s: string)
    requires Strip(s) == []
    ensures forall i :: 0 <= i < |s| ==> IsSpace(s[i])
  {
    StripLeftEmpty(s);
  }

  lemma {:induction false} StripRightEmpty(s: string)
    requires StripRight(s, IsSpace) == []
    ensures forall i :: 0 <= i < |s| ==> IsSpace(s[i])
    decreases |s|
  {
    if s != [] {
      StripRightEmpty(s[..|s| - 1]);
      assert forall i :: 0 <= i < |s| - 1 ==> s[..|s| - 1][i] == s[i];
    }
  }

  lemma {:induction false} StripLeftEmpty(s: string)
    requires StripRight(StripLeft(s, IsSpace), IsSpace) == []
    ensures forall i :: 0 <= i < |s| ==> IsSpace(s[i])
    decreases |s|
  {
    if s != [] && IsSpace(s[0]) {
      StripLeftEmpty(s[1..]);
      assert forall i :: 1 <= i < |s| ==> s[1..][i - 1] == s[i];
    } else {
      StripRightEmpty(s);
    }
  }

  /**
   * A blank answer is not an integer, not even when it holds one of the
   * separators `int()` does not skip.
   */
  lemma PyIntOfBlank(s: string)
    ensures Strip(s) == [] ==> PyInt(s) == None
  {
    if Strip(s) == [] {
      StripEmpty(s);
      StripLeftOfSpaces(s, IsIntSpace);
      StripRightOfSpaces(StripLeft(s, IsIntSpace), IsIntSpace);
      var t := IntStrip(s);
      if t != [] {
        assert IsSpace(t[0]);
      }
    }
  }

  /** U+001C is whitespace to `str.strip()`, yet `int()` refuses it. */
  lemma PyIntOfSeparator()
    ensures Strip([28 as char, '7']) == ['7']
    ensures PyInt([28 as char, '7']) == None
  {
    var s := [28 as char, '7'];
    assert IsSpace(s[0]) && !IsIntSpace(s[0]) && !IsSpace('7');
    assert s[1..] == ['7'];
    assert StripLeft(s, IsSpace) == StripLeft(['7'], IsSpace) == ['7'];
    assert StripRight(['7'], IsSpace) == ['7'];
    assert IntStrip(s) == s;
  }

  lemma StripUnpadded(s: string)
    requires s != [] && !IsIntSpace(s[0]) && !IsIntSpace(s[|s| - 1])
    ensures IntStrip(s) == s
  {
  }

  lemma ParseDigits(d: string)
    requires |d| > 0 && AllDigits(d)
    ensures ParseStripped(d) == Some(DigitsValue(d))
  {
    assert IsDigit(d[0]);
    assert IsDecimalLiteral(d);
    RemoveUnderscoresOfDigits(d);
  }

  lemma PyIntOfDigits(d: string)
    requires |d| > 0 && AllDigits(d)
    ensures PyInt(d) == Some(DigitsValue(d))
  {
    assert IsDigit(d[0]) && IsDigit(d[|d| - 1]);
    StripUnpadded(d);
    assert IntStrip(d) == d;
    ParseDigits(d);
  }

  lemma ParseNegated(t: string)
    requires |t| > 1 && t[0] == '-' && AllDigits(t[1..])
    ensures ParseStripped(t) == Some(-(DigitsValue(t[1..]) as int))
  {
    RemoveUnderscoresOfDigits(t[1..]);
  }

  lemma PyIntOfNegated(s: string)
    requires |s| > 1 && s[0] == '-' && AllDigits(s[1..])
    ensures PyInt(s) == Some(-(DigitsValue(s[1..]) as int))
  {
    assert IsDigit(s[1..][|s| - 2]);
    StripUnpadded(s);
    ParseNegated(s);
  }

  /** `int(str(n)) == n` for a non-negative `n`. */
  lemma PyIntOfNatToString(n: nat)
    ensures PyInt(NatToString(n)) == Some(n)
  {
    NatToStringValue(n);
    PyIntOfDigits(NatToString(n));
  }

  /** `str(n)` for a negative `n`: a minus sign, then the digits of `-n`. */
  lemma NegativeText(n: int)
    requires n < 0
    ensures var s := IntToString(n);
            |s| > 1 && s[0] == '-' && AllDigits(s[1..]) && DigitsValue(s[1..]) == -n
  {
    NatToStringValue(-n);
    var s := IntToString(n);
    assert s[1..] == NatToString(-n);
  }

  /** `int(str(n)) == n` for a negative `n`. */
  lemma PyIntOfNegative(n: int)
    requires n < 0
    ensures PyInt(IntToString(n)) == Some(n)
  {
    NegativeText(n);
    PyIntOfNegated(IntToString(n));
  }

  /** `int(str(n)) == n`. */
  lemma PyIntOfIntToString(n: int)
    ensures PyInt(IntToString(n)) == Some(n)
  {
    if n < 0 {
      PyIntOfNegative(n);
    } else {
      PyIntOfNatToString(n);
    }
  }

  // ---------------------------------------------------------------------
  // os.path.splitext on POSIX paths
  // ---------------------------------------------------------------------

  /** `s.rfind(c)`: the last index holding `c`, or -1 when there is none. */
  function RFind(s: string, c: char): (k: int)
    ensures -1 <= k < |s|
    ensures k >= 0 ==> s[k] == c
    ensures forall j :: k < j < |s| ==> s[j] != c
    decreases |s|
  {
    if s == [] then -1
    else if s[|s| - 1] == c then |s| - 1
    else RFind(s[..|s| - 1], c)
  }

  predicate AllDots(s: string) {
    forall i :: 0 <= i < |s| ==> s[i] == '.'
  }

  /**
   * `os.path.splitext(p)`: the extension starts at the last `.` of the
   * final path component, unless everything before it in that component
   * is dots (a hidden file such as `.profile` has no extension).
   */
  function Splitext(p: string): (parts: (string, string)) {
    var sepIndex := RFind(p, '/');
    var dotIndex := RFind(p, '.');
    if dotIndex > sepIndex && !AllDots(p[sepIndex + 1..dotIndex]) then
      (p[..dotIndex], p[dotIndex..])
    else
      (p, [])
  }

  /** Cutting `p` before a last `.` that no later `/` follows. */
  lemma CutBeforeLastDot(p: string, k: nat)
    requires k < |p| && p[k] == '.'
    requires forall j :: k < j < |p| ==> p[j] != '.' && p[j] != '/'
    ensures p[..k] + p[k..] == p
    ensures p[k..][0] == '.'
    ensures forall i :: 0 < i < |p[k..]| ==> p[k..][i] != '.' && p[k..][i] != '/'
  {
    forall i | 0 < i < |p[k..]| ensures p[k..][i] != '.' && p[k..][i] != '/' {
      assert p[k..][i] == p[k + i];
    }
  }

  /** The root and the extension put back together give the path; the extension is empty or one `.` and what follows it in the last component. */
  lemma SplitextParts(p: string)
    ensures var (root, ext) := Splitext(p);
            && root + ext == p
            && (ext == [] || ext[0] == '.')
            && forall i :: 0 < i < |ext| ==> ext[i] != '.' && ext[i] != '/'
  {
    var sepIndex := RFind(p, '/');
    var dotIndex := RFind(p, '.');
    if dotIndex > sepIndex && !AllDots(p[sepIndex + 1..dotIndex]) {
      CutBeforeLastDot(p, dotIndex);
    }
  }

  /** `os.path.splitext(p)[-1]`. */
  function Extension(p: string): (ext: string) {
    Splitext(p).1
  }

  /**
   * A file name with no `/` whose last `.` is at `k`: its extension is
   * everything from that `.` on, unless everything before it is dots
   * (`.profile`, `..x`), and then it has none.
   */
  lemma ExtensionOfFileName(p: string, k: nat)
    requires k < |p|
    requires RFind(p, '/') == -1 && RFind(p, '.') == k
    ensures Extension(p) == if AllDots(p[..k]) then [] else p[k..]
  {
    assert p[0..k] == p[..k];
  }

  lemma RFindAbsent(s: string, c: char)
    requires forall j :: 0 <= j < |s| ==> s[j] != c
    ensures RFind(s, c) == -1
  {
  }

  lemma RFindLast(s: string, c: char, k: nat)
    requires k < |s| && s[k] == c
    requires forall j :: k < j < |s| ==> s[j] != c
    ensures RFind(s, c) == k
  {
  }
}
