/**
  The string operations of the Python 3 standard library that the converter
  relies on: `str.strip()`, `readlines()`, `'\n'.join(...)` and `str(i)` for
  a non-negative integer; and `str.split('\n')`, which the converter does
  not call, as the reference reading of the joined text.
 */
module Text {

  /** The characters Python's `str.isspace()` accepts, which are the ones
      `str.strip()` with no argument removes, as inclusive ranges: tab to
      carriage return, the four separators up to space, next line,
      no-break space, ogham space mark, en quad to hair space, line and
      paragraph separators, narrow no-break space, medium mathematical
      space and ideographic space. */
  const SPACE_RANGES: seq<(char, char)> := [
    ('\t', '\r'),
    ('\U{001C}', ' '),
    ('\U{0085}', '\U{0085}'),
    ('\U{00A0}', '\U{00A0}'),
    ('\U{1680}', '\U{1680}'),
    ('\U{2000}', '\U{200A}'),
    ('\U{2028}', '\U{2029}'),
    ('\U{202F}', '\U{202F}'),
    ('\U{205F}', '\U{205F}'),
    ('\U{3000}', '\U{3000}')
  ]

  predicate InRanges(c: char, ranges: seq<(char, char)>) {
    |ranges| > 0 && ((ranges[0].0 <= c <= ranges[0].1) || InRanges(c, ranges[1..]))
  }

  predicate IsSpace(c: char) {
    InRanges(c, SPACE_RANGES)
  }

  predicate NoNewline(s: string) {
    forall k :: 0 <= k < |s| ==> s[k] != '\n'
  }

  /** A line as `readlines()` yields it: non-empty, and a line feed can only
      be its last character. */
  predicate IsLine(l: string) {
    |l| > 0 && NoNewline(l[..|l| - 1])
  }

  /** The first index at or after `i` that is not whitespace (or `|s|`),
      the forward scan of `str.strip()`. */
  function SkipSpace(s: string, i: nat): (j: nat)
    requires i <= |s|
    ensures i <= j <= |s|
    ensures forall k :: i <= k < j ==> IsSpace(s[k])
    ensures j == |s| || !IsSpace(s[j])
    decreases |s| - i
  {
    if i < |s| && IsSpace(s[i]) then SkipSpace(s, i + 1) else i
  }

  /** The end of the kept part: the backward scan of `str.strip()` from `j`
      down to `lo`, stopping after the last character that is not
      whitespace. */
  function BackSpace(s: string, lo: nat, j: nat): (e: nat)
    requires lo <= j <= |s|
    ensures lo <= e <= j
    ensures forall k :: e <= k < j ==> IsSpace(s[k])
    ensures e == lo || !IsSpace(s[e - 1])
    decreases j
  {
    if j > lo && IsSpace(s[j - 1]) then BackSpace(s, lo, j - 1) else j
  }

  /** `str.strip()`: whitespace removed at both ends, so the result is no
      longer than the line and neither starts nor ends with whitespace;
      `StripSlice` states where it sits in the line. */
  function Strip(s: string): (r: string)
    ensures |r| <= |s|
    ensures |r| > 0 ==> !IsSpace(r[0]) && !IsSpace(r[|r| - 1])
  {
    var lo := SkipSpace(s, 0);
    s[lo..BackSpace(s, lo, |s|)]
  }

  /** `Strip(s)` is the slice `s[lo..hi]` of `s`: everything before `lo`
      and from `hi` on is whitespace, and the kept part neither starts nor
      ends with whitespace. */
  lemma StripSlice(s: string)
    ensures var lo := SkipSpace(s, 0);
      var hi := lo + |Strip(s)|;
      && hi <= |s|
      && Strip(s) == s[lo..hi]
      && (forall k :: 0 <= k < lo ==> IsSpace(s[k]))
      && (forall k :: hi <= k < |s| ==> IsSpace(s[k]))
      && (lo < hi ==> !IsSpace(s[lo]) && !IsSpace(s[hi - 1]))
  {
  }

  /** Stripping an already stripped string changes nothing. */
  lemma StripIdempotent(s: string)
    ensures Strip(Strip(s)) == Strip(s)
  {
    var r := Strip(s);
    StripSlice(s);
    assert SkipSpace(r, 0) == 0;
    assert BackSpace(r, 0, |r|) == |r|;
  }

  /** A stripped `readlines()` entry holds no line feed: the only one it can
      have is its last character, which is whitespace and is removed. */
  lemma StripLineHasNoNewline(l: string)
    requires IsLine(l)
    ensures NoNewline(Strip(l))
  {
    var r := Strip(l);
    var lo := SkipSpace(l, 0);
    StripSlice(l);
    var body := l[..|l| - 1];
    assert IsSpace('\n');
    forall k | 0 <= k < |r|
      ensures r[k] != '\n'
    {
      assert r[k] == l[lo + k];
      if lo + k < |l| - 1 {
        assert l[lo + k] == body[lo + k];
      }
    }
  }

  /** The position of the first occurrence of `c` in `s`. */
  function IndexOf(s: string, c: char): (k: nat)
    requires c in s
    ensures k < |s| && s[k] == c
    ensures c !in s[..k]
  {
    if s[0] == c then 0
    else
      var k := 1 + IndexOf(s[1..], c);
      assert s[..k] == [s[0]] + s[1..][..k - 1];
      k
  }

  /** The concatenation of a sequence of strings, as `''.join(ss)`. */
  function Concat(ss: seq<string>): string {
    if |ss| == 0 then [] else ss[0] + Concat(ss[1..])
  }

  /** `readlines()` on text whose line endings are already `'\n'`: every line
      keeps its line feed, the last one may lack it, and no line is empty. */
  function ReadLines(text: string): (lines: seq<string>)
    ensures Concat(lines) == text
    ensures forall i :: 0 <= i < |lines| ==> IsLine(lines[i])
    ensures forall i :: 0 <= i < |lines| - 1 ==> |lines[i]| > 0 && lines[i][|lines[i]| - 1] == '\n'
    decreases |text|
  {
    if |text| == 0 then []
    else if '\n' !in text then
      assert text[..|text| - 1] <= text;
      [text]
    else
      var k := IndexOf(text, '\n');
      var first := text[..k + 1];
      var rest := ReadLines(text[k + 1..]);
      assert first[..|first| - 1] == text[..k];
      assert first + text[k + 1..] == text;
      [first] + rest
  }

  /** `sep.join(xs)` for a one-character separator: no separator before the
      first element and none after the last. */
  function Join(xs: seq<string>, sep: char): (r: string)
    ensures |xs| == 0 ==> r == []
    ensures |xs| > 0 ==> |r| >= |xs[0]| && r[..|xs[0]|] == xs[0]
    ensures |xs| > 1 ==> |r| > |xs[0]| && r[|xs[0]|] == sep
  {
    if |xs| == 0 then []
    else if |xs| == 1 then xs[0]
    else xs[0] + [sep] + Join(xs[1..], sep)
  }

  /** `s.split(sep)` for a one-character separator: the pieces between
      separators, always at least one, none holding the separator. */
  function Split(s: string, sep: char): (parts: seq<string>)
    ensures |parts| >= 1
    ensures forall i :: 0 <= i < |parts| ==> sep !in parts[i]
    decreases |s|
  {
    if sep !in s then [s]
    else
      var k := IndexOf(s, sep);
      [s[..k]] + Split(s[k + 1..], sep)
  }

  /** Splitting at a separator that is the first one in the text. */
  lemma SplitAtFirst(a: string, sep: char, b: string)
    requires sep !in a
    ensures Split(a + [sep] + b, sep) == [a] + Split(b, sep)
  {
    var s := a + [sep] + b;
    assert s[|a|] == sep;
    var k := IndexOf(s, sep);
    assert forall j :: 0 <= j < |a| ==> s[j] == a[j];
    assert k <= |a| by {
      assert forall j :: 0 <= j < k ==> s[..k][j] == s[j];
    }
    assert s[..k] == a;
    assert s[k + 1..] == b;
  }

  /** Splitting the joined text gives the elements back, provided there is at
      least one and none holds the separator. */
  lemma {:induction false} SplitJoin(xs: seq<string>, sep: char)
    requires |xs| > 0
    requires forall i :: 0 <= i < |xs| ==> sep !in xs[i]
    ensures Split(Join(xs, sep), sep) == xs
    decreases |xs|
  {
    if |xs| > 1 {
      SplitAtFirst(xs[0], sep, Join(xs[1..], sep));
      SplitJoin(xs[1..], sep);
      assert xs == [xs[0]] + xs[1..];
    }
  }

  /** Joining a non-empty tail after a first element puts one separator
      between them. */
  lemma JoinCons(x: string, rest: seq<string>, sep: char)
    requires |rest| > 0
    ensures Join([x] + rest, sep) == x + [sep] + Join(rest, sep)
  {
    assert ([x] + rest)[1..] == rest;
  }

  /** Joining the pieces of a split gives the text back. */
  lemma {:induction false} JoinSplit(s: string, sep: char)
    ensures Join(Split(s, sep), sep) == s
    decreases |s|
  {
    if sep in s {
      var k := IndexOf(s, sep);
      var rest := Split(s[k + 1..], sep);
      JoinSplit(s[k + 1..], sep);
      assert Split(s, sep) == [s[..k]] + rest;
      JoinCons(s[..k], rest, sep);
      assert s == s[..k] + [sep] + s[k + 1..];
    }
  }

  predicate IsDigit(c: char) {
    '0' <= c <= '9'
  }

  predicate AllDigits(s: string) {
    forall k :: 0 <= k < |s| ==> IsDigit(s[k])
  }

  function DigitChar(d: nat): (c: char)
    requires d < 10
    ensures IsDigit(c)
  {
    (48 + d) as char
  }

  /** `str(n)` for a non-negative integer: decimal digits, without a leading
      zero unless `n` is zero itself. */
  function DecimalString(n: nat): (r: string)
    ensures |r| > 0 && AllDigits(r)
    ensures r[0] == '0' <==> n == 0
    ensures r[0] == '0' ==> |r| == 1
  {
    if n < 10 then [DigitChar(n)]
    else DecimalString(n / 10) + [DigitChar(n % 10)]
  }

  /** `int(s)` on a string of decimal digits, the reference reading of the
      names that `DecimalString` produces. */
  function ParseDecimal(s: string): nat
    requires AllDigits(s)
  {
    if |s| == 0 then 0
    else ParseDecimal(s[..|s| - 1]) * 10 + (s[|s| - 1] as int - 48)
  }

  /** Reading back the decimal string of `n` gives `n`. */
  lemma {:induction false} DecimalRoundTrip(n: nat)
    ensures ParseDecimal(DecimalString(n)) == n
  {
    if n >= 10 {
      var s := DecimalString(n / 10);
      var t := DecimalString(n);
      assert t == s + [DigitChar(n % 10)];
      assert t[..|t| - 1] == s;
      DecimalRoundTrip(n / 10);
    }
  }

  /** Distinct numbers have distinct decimal strings. */
  lemma DecimalInjective(m: nat, n: nat)
    requires DecimalString(m) == DecimalString(n)
    ensures m == n
  {
    DecimalRoundTrip(m);
    DecimalRoundTrip(n);
  }
}
