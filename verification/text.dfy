/**
 * The parts of Python's `str` behaviour that the shopping-list core relies on:
 * whitespace as `str.isspace()` (and the regular-expression class `\s`) sees it,
 * `strip()`, `lower()`, `split()`, `join()`, `in`, `startswith()`/`endswith()`,
 * and decimal digits as `int()` reads them and `str()` writes them.
 * Case mapping covers ASCII letters only.
 */
module Text {

  /** Python's `str.isspace()`: the characters `strip()`, `split()` and `\s` treat as whitespace. */
  predicate IsSpace(c: char) {
    || ('\t' <= c <= '\r')
    || ('\U{1C}' <= c <= ' ')
    || c == '\U{85}' || c == '\U{A0}' || c == '\U{1680}'
    || ('\U{2000}' <= c <= '\U{200A}')
    || c == '\U{2028}' || c == '\U{2029}' || c == '\U{202F}' || c == '\U{205F}' || c == '\U{3000}'
  }

  predicate NotSpace(c: char) { !IsSpace(c) }

  predicate IsDigit(c: char) { '0' <= c <= '9' }

  predicate IsLetter(c: char) { 'A' <= c <= 'Z' || 'a' <= c <= 'z' }

  /** The regular-expression word class `\w` (letters, digits, underscore). */
  predicate IsWordChar(c: char) { IsLetter(c) || IsDigit(c) || c == '_' }

  function LowerChar(c: char): char {
    if 'A' <= c <= 'Z' then (c as int + 32) as char else c
  }

  function UpperChar(c: char): char {
    if 'a' <= c <= 'z' then (c as int - 32) as char else c
  }

  /** `s.lower()` */
  function Lower(s: string): (r: string)
    ensures |r| == |s|
    ensures forall i :: 0 <= i < |s| ==> r[i] == LowerChar(s[i])
  {
    seq(|s|, i requires 0 <= i < |s| => LowerChar(s[i]))
  }

  lemma LowerSlice(s: string, i: nat, j: nat)
    requires i <= j <= |s|
    ensures Lower(s)[i..j] == Lower(s[i..j])
  {
  }

  lemma LowerConcat(a: string, b: string)
    ensures Lower(a + b) == Lower(a) + Lower(b)
  {
  }

  /** Taking every element of a sequence gives the sequence. */
  lemma TakeAll<T>(s: seq<T>)
    ensures s[..|s|] == s
  {
  }

  lemma LowerIdempotent(s: string)
    ensures Lower(Lower(s)) == Lower(s)
  {
  }

  /** The first index at or after `i` whose character fails `p` (or `|s|`). */
  function SpanWhile(s: string, i: nat, p: char -> bool): (j: nat)
    requires i <= |s|
    ensures i <= j <= |s|
    ensures forall k :: i <= k < j ==> p(s[k])
    ensures j < |s| ==> !p(s[j])
    decreases |s| - i
  {
    if i < |s| && p(s[i]) then SpanWhile(s, i + 1, p) else i
  }

  /** The smallest index `i <= j` such that every character in `s[i..j]` satisfies `p`. */
  function SpanBackWhile(s: string, j: nat, p: char -> bool): (i: nat)
    requires j <= |s|
    ensures i <= j
    ensures forall k :: i <= k < j ==> p(s[k])
    ensures i > 0 ==> !p(s[i - 1])
  {
    if j > 0 && p(s[j - 1]) then SpanBackWhile(s, j - 1, p) else j
  }

  function SpanSpaces(s: string, i: nat): (j: nat)
    requires i <= |s|
    ensures i <= j <= |s|
    ensures forall k :: i <= k < j ==> IsSpace(s[k])
    ensures j < |s| ==> !IsSpace(s[j])
  {
    SpanWhile(s, i, IsSpace)
  }

  function SpanDigits(s: string, i: nat): (j: nat)
    requires i <= |s|
    ensures i <= j <= |s|
    ensures forall k :: i <= k < j ==> IsDigit(s[k])
    ensures j < |s| ==> !IsDigit(s[j])
  {
    SpanWhile(s, i, IsDigit)
  }

  /** The index of the first `c` at or after `i`, or `|s|` when there is none. */
  function IndexOf(s: string, c: char, i: nat): (j: nat)
    requires i <= |s|
    ensures i <= j <= |s|
    ensures forall k :: i <= k < j ==> s[k] != c
    ensures j < |s| ==> s[j] == c
  {
    SpanWhile(s, i, x => x != c)
  }

  /** The first `c` is at `i` when none comes before and `s[i]` is one (or `i` is the end). */
  lemma IndexOfIs(s: string, c: char, i: nat)
    requires i <= |s| && (i < |s| ==> s[i] == c)
    requires forall k :: 0 <= k < i ==> s[k] != c
    ensures IndexOf(s, c, 0) == i
  {
  }

  /** `s.lstrip()` */
  function LStrip(s: string): (r: string)
    ensures r == "" || !IsSpace(r[0])
  {
    s[SpanSpaces(s, 0)..]
  }

  /** `s.rstrip()` */
  function RStrip(s: string): (r: string)
    ensures r == "" || !IsSpace(r[|r| - 1])
  {
    s[..SpanBackWhile(s, |s|, IsSpace)]
  }

  /** `s.strip()` */
  function Strip(s: string): (r: string)
    ensures r == "" || (!IsSpace(r[0]) && !IsSpace(r[|r| - 1]))
  {
    RStrip(LStrip(s))
  }

  predicate IsStripped(s: string) {
    s == "" || (!IsSpace(s[0]) && !IsSpace(s[|s| - 1]))
  }

  lemma StripStripped(s: string)
    requires IsStripped(s)
    ensures Strip(s) == s
  {
    assert SpanSpaces(s, 0) == 0;
    assert SpanBackWhile(s, |s|, IsSpace) == |s|;
  }

  /** `strip()` only removes characters: a character missing from the text is missing from the result. */
  lemma StripAddsNothing(s: string, c: char)
    requires c !in s
    ensures c !in Strip(s)
  {
    var a := SpanSpaces(s, 0);
    var l := LStrip(s);
    assert forall k :: 0 <= k < |l| ==> l[k] == s[a + k];
    var r := Strip(s);
    assert forall k :: 0 <= k < |r| ==> r[k] == l[k];
  }

  /** A text whose last character is not whitespace keeps that character through `strip()`. */
  lemma StripKeepsLast(s: string)
    requires |s| > 0 && !IsSpace(s[|s| - 1])
    ensures |Strip(s)| > 0 && Strip(s)[|Strip(s)| - 1] == s[|s| - 1]
  {
    var a := SpanSpaces(s, 0);
    assert a < |s|;
    var l := LStrip(s);
    assert l[|l| - 1] == s[|s| - 1];
    assert SpanBackWhile(l, |l|, IsSpace) == |l|;
  }

  /** Every character is whitespace. */
  predicate AllSpaces(w: string) {
    forall k :: 0 <= k < |w| ==> IsSpace(w[k])
  }

  /** `re.sub(r"^[-*]\s*", "", c)`: a leading bullet and the whitespace after it are dropped. */
  function DropBulletMarker(c: string): (r: string)
    ensures |r| <= |c| && r == c[|c| - |r|..]
    ensures c == "" || (c[0] != '-' && c[0] != '*') ==> r == c
  {
    if c != "" && (c[0] == '-' || c[0] == '*') then c[SpanSpaces(c, 1)..] else c
  }

  /** A leading `-` or `*` and the whitespace after it are removed, and nothing more. */
  lemma BulletMarkerDropped(b: char, ws: string, rest: string)
    requires (b == '-' || b == '*') && AllSpaces(ws)
    requires rest == "" || !IsSpace(rest[0])
    ensures DropBulletMarker([b] + ws + rest) == rest
  {
    var c := [b] + ws + rest;
    assert forall k :: 1 <= k < 1 + |ws| ==> c[k] == ws[k - 1];
    assert |rest| > 0 ==> c[1 + |ws|] == rest[0];
    assert SpanSpaces(c, 1) == 1 + |ws|;
    assert c[1 + |ws|..] == rest;
  }

  /** `s.startswith(p)` */
  predicate StartsWith(s: string, p: string) {
    |p| <= |s| && s[..|p|] == p
  }

  /** `s.endswith(p)` */
  predicate EndsWith(s: string, p: string) {
    |p| <= |s| && s[|s| - |p|..] == p
  }

  /** `s[i..]` begins with `w`. */
  predicate HasAt(s: string, i: nat, w: string) {
    i + |w| <= |s| && s[i..i + |w|] == w
  }

  /** `s[i..]` begins with the lower-case word `w`, ignoring ASCII case. */
  predicate HasAtIgnoringCase(s: string, i: nat, w: string) {
    i + |w| <= |s| && Lower(s[i..i + |w|]) == w
  }

  /** Python's `p in s` for strings: `p` occurs in `s` as a contiguous substring. */
  predicate Contains(s: string, p: string)
    decreases |s|
  {
    StartsWith(s, p) || (|s| > 0 && Contains(s[1..], p))
  }

  lemma {:induction false} ContainsAt(s: string, p: string, i: nat)
    requires HasAt(s, i, p)
    ensures Contains(s, p)
    decreases i
  {
    if i > 0 {
      assert s[1..][i - 1..i - 1 + |p|] == s[i..i + |p|];
      ContainsAt(s[1..], p, i - 1);
    }
  }

  lemma {:induction false} ContainsWitness(s: string, p: string)
    requires Contains(s, p)
    ensures exists i: nat :: HasAt(s, i, p)
    decreases |s|
  {
    if StartsWith(s, p) {
      assert HasAt(s, 0, p);
    } else {
      ContainsWitness(s[1..], p);
      var i: nat :| HasAt(s[1..], i, p);
      assert s[1..][i..i + |p|] == s[i + 1..i + 1 + |p|];
      assert HasAt(s, i + 1, p);
    }
  }

  /** Python's `s.split(c)` for a one-character separator: always at least one piece. */
  function Split(s: string, c: char): (parts: seq<string>)
    ensures |parts| >= 1
    ensures forall k :: 0 <= k < |parts| ==> c !in parts[k]
    decreases |s|
  {
    var i := IndexOf(s, c, 0);
    if i == |s| then [s] else [s[..i]] + Split(s[i + 1..], c)
  }

  /** Python's `sep.join(parts)`. */
  function Join(parts: seq<string>, sep: string): string
    decreases |parts|
  {
    if |parts| == 0 then ""
    else if |parts| == 1 then parts[0]
    else parts[0] + sep + Join(parts[1..], sep)
  }

  /** A join starts with its first part and ends with its last. */
  lemma {:induction false} JoinEnds(parts: seq<string>, sep: string)
    requires parts != []
    ensures StartsWith(Join(parts, sep), parts[0])
    ensures EndsWith(Join(parts, sep), parts[|parts| - 1])
    decreases |parts|
  {
    if |parts| > 1 {
      JoinEnds(parts[1..], sep);
      var rest := Join(parts[1..], sep);
      var j := Join(parts, sep);
      assert j == parts[0] + sep + rest;
      assert j[..|parts[0]|] == parts[0];
      assert j[|j| - |rest|..] == rest;
      assert rest[|rest| - |parts[|parts| - 1]|..] == parts[|parts| - 1];
      assert j[|j| - |parts[|parts| - 1]|..] == rest[|rest| - |parts[|parts| - 1]|..];
    }
  }

  /** Joining the pieces of a split with the same separator gives the text back. */
  lemma {:induction false} JoinSplit(s: string, c: char)
    ensures Join(Split(s, c), [c]) == s
    decreases |s|
  {
    var i := IndexOf(s, c, 0);
    if i < |s| {
      JoinSplit(s[i + 1..], c);
      assert s == s[..i] + [c] + s[i + 1..];
    }
  }

  /** Splitting a join of separator-free pieces gives the pieces back. */
  lemma {:induction false} SplitJoin(parts: seq<string>, c: char)
    requires |parts| >= 1
    requires forall k :: 0 <= k < |parts| ==> c !in parts[k]
    ensures Split(Join(parts, [c]), c) == parts
    decreases |parts|
  {
    var s := Join(parts, [c]);
    var p := parts[0];
    if |parts| == 1 {
      assert IndexOf(s, c, 0) == |s|;
    } else {
      var rest := Join(parts[1..], [c]);
      assert s == p + [c] + rest;
      assert s[|p|] == c;
      assert forall k :: 0 <= k < |p| ==> s[k] == p[k];
      assert forall k :: 0 <= k < |p| ==> p[k] in p;
      var i := IndexOf(s, c, 0);
      assert i == |p|;
      assert s[..i] == p;
      assert s[i + 1..] == rest;
      SplitJoin(parts[1..], c);
    }
  }

  /** Python's `s.split()` from index `i`: the maximal runs of non-whitespace, in order. */
  function WordsFrom(s: string, i: nat): (words: seq<string>)
    requires i <= |s|
    ensures forall k :: 0 <= k < |words| ==> |words[k]| > 0
    ensures forall k, m :: 0 <= k < |words| && 0 <= m < |words[k]| ==> !IsSpace(words[k][m])
    decreases |s| - i
  {
    var a := SpanSpaces(s, i);
    if a == |s| then []
    else
      var b := SpanWhile(s, a, NotSpace);
      [s[a..b]] + WordsFrom(s, b)
  }

  /** Python's `s.split()` */
  function Words(s: string): seq<string> {
    WordsFrom(s, 0)
  }

  lemma {:induction false} WordsFromEmpty(s: string, i: nat)
    requires i <= |s|
    ensures WordsFrom(s, i) == [] <==> forall k :: i <= k < |s| ==> IsSpace(s[k])
    decreases |s| - i
  {
    var a := SpanSpaces(s, i);
    if a < |s| {
      assert !IsSpace(s[a]);
    }
  }

  function DigitValue(c: char): nat {
    if IsDigit(c) then c as int - '0' as int else 0
  }

  function DigitChar(d: nat): char
    requires d < 10
  {
    ('0' as int + d) as char
  }

  /** `int(d)` for a string of decimal digits. */
  function DigitsValue(d: string): nat
    decreases |d|
  {
    if |d| == 0 then 0 else DigitsValue(d[..|d| - 1]) * 10 + DigitValue(d[|d| - 1])
  }

  predicate AllDigits(d: string) {
    forall k :: 0 <= k < |d| ==> IsDigit(d[k])
  }

  /** `str(n)` for a non-negative integer: no sign, no leading zeros, no decimal point. */
  function NatToString(n: nat): (r: string)
    ensures |r| > 0 && AllDigits(r)
    ensures |r| > 1 ==> r[0] != '0'
    decreases n
  {
    if n < 10 then [DigitChar(n)] else NatToString(n / 10) + [DigitChar(n % 10)]
  }

  /** `str(i)` for an integer. */
  function IntToString(i: int): (r: string)
    ensures '.' !in r
  {
    if i < 0 then "-" + NatToString(-i) else NatToString(i)
  }

  /** `int(str(n)) == n`: the decimal rendering reads back as the same number. */
  lemma {:induction false} NatToStringRoundTrip(n: nat)
    ensures DigitsValue(NatToString(n)) == n
    decreases n
  {
    if n >= 10 {
      var r := NatToString(n);
      assert r[..|r| - 1] == NatToString(n / 10);
      NatToStringRoundTrip(n / 10);
    }
  }

  /** The index just past the line that holds position `i`: the next `\n` or `|s|`. */
  function LineEnd(s: string, i: nat): (j: nat)
    requires i <= |s|
    ensures i <= j <= |s|
    ensures '\n' !in s[i..j]
    ensures j < |s| ==> s[j] == '\n'
  {
    var j := IndexOf(s, '\n', i);
    assert forall k :: 0 <= k < j - i ==> s[i..j][k] == s[i + k];
    j
  }

  /** `s.replace(a, b)` for single characters. */
  function ReplaceChar(s: string, a: char, b: char): (r: string)
    ensures |r| == |s|
    ensures forall k :: 0 <= k < |s| ==> r[k] == (if s[k] == a then b else s[k])
  {
    seq(|s|, k requires 0 <= k < |s| => if s[k] == a then b else s[k])
  }
}
