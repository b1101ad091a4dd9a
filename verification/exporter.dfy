/**
 * The text side of the exporter (src/services/exporter.py): timer durations,
 * timer labels taken from the surrounding line, the injection of timer
 * buttons into a recipe, and the plain-text shopping list.
 *
 * The regular expressions are written out as scanners; `\d`, `\w` and
 * `IGNORECASE` are taken over ASCII.
 */
module Exporter {
  import opened Wrappers
  import opened Text
  import opened Sorting
  import opened ShoppingItems

  // ---------------------------------------------------------------- durations

  /**
   * `re.search(r"(\d+)c", s)` from index `i`: the value of the first run of
   * digits that is directly followed by `c`.
   */
  function RunBefore(s: string, c: char, i: nat): Option<nat>
    requires i <= |s|
    decreases |s| - i
  {
    if i == |s| then None
    else if IsDigit(s[i]) then
      var e := SpanDigits(s, i);
      if e < |s| && s[e] == c then Some(DigitsValue(s[i..e])) else RunBefore(s, c, e)
    else RunBefore(s, c, i + 1)
  }

  /** `parse_duration_to_ms(duration_str)` */
  function ParseDurationToMs(d: string): nat {
    var hours := RunBefore(d, 'h', 0).GetOr(0);
    var minutes := RunBefore(d, 'm', 0).GetOr(0);
    var seconds := RunBefore(d, 's', 0).GetOr(0);
    var total := hours * 3600 + minutes * 60 + seconds;
    if total > 0 then total * 1000 else 0
  }

  lemma SpanDigitsShift(p: string, q: string, i: nat)
    requires i <= |q|
    ensures SpanDigits(p + q, |p| + i) == |p| + SpanDigits(q, i)
    decreases |q| - i
  {
    if i < |q| && IsDigit(q[i]) {
      SpanDigitsShift(p, q, i + 1);
    }
  }

  /** The search only looks forward: text before the starting point plays no part. */
  lemma {:induction false} RunBeforeShift(p: string, q: string, c: char, i: nat)
    requires i <= |q|
    ensures RunBefore(p + q, c, |p| + i) == RunBefore(q, c, i)
    decreases |q| - i
  {
    if i < |q| {
      if IsDigit(q[i]) {
        var e := SpanDigits(q, i);
        SpanDigitsShift(p, q, i);
        assert (p + q)[|p| + i..|p| + e] == q[i..e];
        if !(e < |q| && q[e] == c) {
          RunBeforeShift(p, q, c, e);
        }
      } else {
        RunBeforeShift(p, q, c, i + 1);
      }
    }
  }

  /** A leading digit run followed by `d`: found when `d` is the wanted letter, skipped otherwise. */
  lemma LeadingRun(x: string, d: char, rest: string, c: char)
    requires x != [] && AllDigits(x) && !IsDigit(d)
    ensures d == c ==> RunBefore(x + [d] + rest, c, 0) == Some(DigitsValue(x))
    ensures d != c ==> RunBefore(x + [d] + rest, c, 0) == RunBefore(rest, c, 0)
  {
    var s := x + [d] + rest;
    assert s[|x|] == d;
    assert forall k :: 0 <= k < |x| ==> s[k] == x[k];
    var e := SpanDigits(s, 0);
    assert e == |x|;
    assert s[0..|x|] == x;
    if d != c {
      assert s == (x + [d]) + rest;
      RunBeforeShift(x + [d], rest, c, 0);
    }
  }

  lemma NoRun(c: char)
    ensures RunBefore("", c, 0) == None
  {
  }

  /** A run of digits ends at `k` and is directly followed by `c`. */
  predicate RunEndsAt(s: string, c: char, k: nat) {
    k + 1 < |s| && IsDigit(s[k]) && s[k + 1] == c
  }

  /**
   * The search from `i` finds nothing exactly when no digit at or after `i`
   * is directly followed by `c` (a letter, so never a digit itself).
   */
  lemma {:induction false} RunBeforeNone(s: string, c: char, i: nat)
    requires i <= |s| && !IsDigit(c)
    ensures RunBefore(s, c, i).None? <==> forall k :: i <= k ==> !RunEndsAt(s, c, k)
    decreases |s| - i
  {
    if i < |s| {
      if IsDigit(s[i]) {
        var e := SpanDigits(s, i);
        if e < |s| && s[e] == c {
          assert RunEndsAt(s, c, e - 1);
        } else {
          RunBeforeNone(s, c, e);
          forall k | i <= k < e
            ensures !RunEndsAt(s, c, k)
          {
            if k + 1 < e {
              assert IsDigit(s[k + 1]);
            }
          }
        }
      } else {
        RunBeforeNone(s, c, i + 1);
      }
    }
  }

  /**
   * The search from `i` finds the first digit `k` followed by `c`, and its
   * value is that of the whole run of digits ending at `k`, from where the
   * run starts or from `i`, whichever is later.
   */
  lemma {:induction false} RunBeforeFirst(s: string, c: char, i: nat, a: nat, k: nat)
    requires !IsDigit(c) && i <= a <= k && RunEndsAt(s, c, k)
    requires forall m :: a <= m <= k ==> IsDigit(s[m])
    requires a == i || !IsDigit(s[a - 1])
    requires forall m :: i <= m < k ==> !RunEndsAt(s, c, m)
    ensures RunBefore(s, c, i) == Some(DigitsValue(s[a..k + 1]))
    decreases |s| - i
  {
    if i == a {
      assert SpanDigits(s, i) == k + 1;
    } else if IsDigit(s[i]) {
      var e := SpanDigits(s, i);
      assert e < a;
      assert !RunEndsAt(s, c, e - 1);
      RunBeforeFirst(s, c, e, a, k);
    } else {
      RunBeforeFirst(s, c, i + 1, a, k);
    }
  }

  /**
   * The short forms written by the auto-detection, `<v>h`, `<v>m` and
   * `<v>s`, parse to `v` hours, minutes or seconds.
   */
  lemma ShortDuration(v: nat, letter: char)
    requires letter == 'h' || letter == 'm' || letter == 's'
    ensures ParseDurationToMs(NatToString(v) + [letter]) == 1000 * v * LetterSeconds(letter)
  {
    var x := NatToString(v);
    assert x + [letter] == x + [letter] + "";
    LeadingRun(x, letter, "", 'h');
    LeadingRun(x, letter, "", 'm');
    LeadingRun(x, letter, "", 's');
    NatToStringRoundTrip(v);
  }

  /** The seconds in one hour, minute or second, by its letter. */
  function LetterSeconds(letter: char): nat {
    if letter == 'h' then 3600 else if letter == 'm' then 60 else 1
  }

  /** `<h>h<m>m<s>s` parses to the duration it spells. */
  lemma DurationRoundTrip(h: nat, m: nat, sec: nat)
    ensures ParseDurationToMs(NatToString(h) + ("h" + (NatToString(m) + ("m" + (NatToString(sec) + "s")))))
            == 1000 * (3600 * h + 60 * m + sec)
  {
    NatToStringRoundTrip(h);
    NatToStringRoundTrip(m);
    NatToStringRoundTrip(sec);
    ThreeRuns(NatToString(h), NatToString(m), NatToString(sec));
  }

  /** `<h>h<m>m`, as in `1h30m`, parses to the duration it spells. */
  lemma HoursMinutes(h: nat, m: nat)
    ensures ParseDurationToMs(NatToString(h) + ("h" + (NatToString(m) + "m"))) == 1000 * (3600 * h + 60 * m)
  {
    NatToStringRoundTrip(h);
    NatToStringRoundTrip(m);
    var xh, xm := NatToString(h), NatToString(m);
    var mid := xm + "m";
    var d := xh + ("h" + mid);
    assert d == xh + ['h'] + mid;
    assert mid == xm + ['m'] + "";
    LeadingRun(xh, 'h', mid, 'h');
    LeadingRun(xh, 'h', mid, 'm');
    LeadingRun(xh, 'h', mid, 's');
    LeadingRun(xm, 'm', "", 'm');
    LeadingRun(xm, 'm', "", 's');
    NoRun('s');
  }

  lemma ThreeRuns(xh: string, xm: string, xs: string)
    requires xh != [] && AllDigits(xh) && xm != [] && AllDigits(xm) && xs != [] && AllDigits(xs)
    ensures var d := xh + ("h" + (xm + ("m" + (xs + "s"))));
            && RunBefore(d, 'h', 0) == Some(DigitsValue(xh))
            && RunBefore(d, 'm', 0) == Some(DigitsValue(xm))
            && RunBefore(d, 's', 0) == Some(DigitsValue(xs))
  {
    var tail := xs + "s";
    var mid := xm + ("m" + tail);
    var d := xh + ("h" + mid);
    assert d == xh + ['h'] + mid;
    assert mid == xm + ['m'] + tail;
    assert tail == xs + ['s'] + "";
    LeadingRun(xh, 'h', mid, 'h');
    LeadingRun(xh, 'h', mid, 'm');
    LeadingRun(xh, 'h', mid, 's');
    LeadingRun(xm, 'm', tail, 'm');
    LeadingRun(xm, 'm', tail, 's');
    LeadingRun(xs, 's', "", 's');
  }

  // ---------------------------------------------------------------- labels

  predicate NotNewline(c: char) { c != '\n' }

  /** `re.sub(r"^\d+\.\s*", "", c)` */
  function DropNumberMarker(c: string): (r: string)
    ensures |r| <= |c| && r == c[|c| - |r|..]
  {
    var e := SpanDigits(c, 0);
    if e > 0 && e < |c| && c[e] == '.' then c[SpanSpaces(c, e + 1)..] else c
  }

  /** A leading `\d+\.` and the whitespace after it are removed, and nothing more. */
  lemma NumberMarkerDropped(d: string, ws: string, rest: string)
    requires d != "" && AllDigits(d) && AllSpaces(ws)
    requires rest == "" || !IsSpace(rest[0])
    ensures DropNumberMarker(d + "." + ws + rest) == rest
  {
    var c := d + "." + ws + rest;
    assert forall k :: 0 <= k < |d| ==> c[k] == d[k];
    assert c[|d|] == '.';
    assert SpanDigits(c, 0) == |d|;
    assert forall k :: |d| + 1 <= k < |d| + 1 + |ws| ==> c[k] == ws[k - |d| - 1];
    assert |rest| > 0 ==> c[|d| + 1 + |ws|] == rest[0];
    assert SpanSpaces(c, |d| + 1) == |d| + 1 + |ws|;
    assert c[|d| + 1 + |ws|..] == rest;
  }

  /** A text that does not start with digits and a dot is left as it is. */
  lemma NoNumberMarker(c: string)
    requires forall e :: 0 < e < |c| && AllDigits(c[..e]) ==> c[e] != '.'
    ensures DropNumberMarker(c) == c
  {
    var e := SpanDigits(c, 0);
    if 0 < e < |c| {
      assert AllDigits(c[..e]);
    }
  }

  /**
   * `text.rsplit(" ", 1)[0]`: the text before its last space, or all of it
   * when it has no space.
   */
  function BeforeLastSpace(t: string): (r: string)
    ensures |r| <= |t| && r == t[..|r|]
    ensures ' ' !in t ==> r == t
    ensures ' ' in t ==> |r| < |t| && t[|r|] == ' ' && ' ' !in t[|r| + 1..]
  {
    var i := SpanBackWhile(t, |t|, c => c != ' ');
    assert forall k :: i <= k < |t| ==> t[k] != ' ';
    assert ' ' !in t[i..];
    if i == 0 then t else t[..i - 1]
  }

  /** The text of the line that ends at `matchStart`: from just after the last newline before it. */
  function LineBefore(text: string, matchStart: nat): (r: string)
    requires matchStart <= |text|
    ensures '\n' !in r
  {
    text[SpanBackWhile(text, matchStart, NotNewline)..matchStart]
  }

  /** The line before the timer, trimmed and without its list marker. */
  function Context(text: string, matchStart: nat): string
    requires matchStart <= |text|
  {
    DropBulletMarker(DropNumberMarker(Strip(LineBefore(text, matchStart))))
  }

  /** A context longer than `maxLength` is cut at its last space within the limit and marked with "...". */
  function Shorten(context: string, maxLength: nat): string {
    if |context| > maxLength then BeforeLastSpace(context[..maxLength]) + "..." else context
  }

  /** `extract_context_label(text, match_start, max_length)` */
  function ExtractContextLabel(text: string, matchStart: nat, maxLength: nat): (r: string)
    requires matchStart <= |text|
  {
    var cut := Shorten(Context(text, matchStart), maxLength);
    if cut != "" then cut else "Timer"
  }

  const MaxLabelLength: nat := 50

  predicate NoNewline(s: string) {
    forall k :: 0 <= k < |s| ==> s[k] != '\n'
  }

  lemma StripNoNewline(s: string)
    requires NoNewline(s)
    ensures NoNewline(Strip(s))
  {
    var a := SpanSpaces(s, 0);
    var l := s[a..];
    var b := SpanBackWhile(l, |l|, IsSpace);
    assert Strip(s) == l[..b];
    assert forall k :: 0 <= k < b ==> l[..b][k] == s[a + k];
  }

  lemma SuffixNoNewline(s: string, r: string)
    requires NoNewline(s) && |r| <= |s| && r == s[|s| - |r|..]
    ensures NoNewline(r)
  {
    assert forall k :: 0 <= k < |r| ==> r[k] == s[|s| - |r| + k];
  }

  lemma PrefixNoNewline(s: string, r: string)
    requires NoNewline(s) && |r| <= |s| && r == s[..|r|]
    ensures NoNewline(r)
  {
    assert forall k :: 0 <= k < |r| ==> r[k] == s[k];
  }

  lemma ContextNoNewline(text: string, matchStart: nat)
    requires matchStart <= |text|
    ensures NoNewline(Context(text, matchStart))
  {
    var line := LineBefore(text, matchStart);
    assert NoNewline(line);
    var st := Strip(line);
    StripNoNewline(line);
    var n := DropNumberMarker(st);
    SuffixNoNewline(st, n);
    BulletNoNewline(n);
    assert Context(text, matchStart) == DropBulletMarker(n);
  }

  lemma BulletNoNewline(n: string)
    requires NoNewline(n)
    ensures NoNewline(DropBulletMarker(n))
  {
    SuffixNoNewline(n, DropBulletMarker(n));
  }

  lemma ShortenSpec(context: string, maxLength: nat)
    requires NoNewline(context)
    ensures NoNewline(Shorten(context, maxLength))
    ensures |Shorten(context, maxLength)| <= maxLength + 3
  {
    if |context| > maxLength {
      var t := context[..maxLength];
      var b := BeforeLastSpace(t);
      PrefixNoNewline(context, t);
      PrefixNoNewline(t, b);
      assert forall k :: 0 <= k < |b| + 3 ==> (b + "...")[k] == if k < |b| then b[k] else '.';
    }
  }

  /**
   * A context within the limit is kept whole; a longer one is cut at the last
   * space among its first `maxLength` characters (or at the limit when there
   * is none there) and marked with "...".
   */
  lemma ShortenCut(context: string, maxLength: nat)
    ensures |context| <= maxLength ==> Shorten(context, maxLength) == context
    ensures |context| > maxLength ==>
              exists b :: 0 <= b <= maxLength && Shorten(context, maxLength) == context[..b] + "..."
                && (' ' !in context[..maxLength] ==> b == maxLength)
                && (' ' in context[..maxLength] ==> b < maxLength && context[b] == ' ' && ' ' !in context[b + 1..maxLength])
  {
    if |context| > maxLength {
      var t := context[..maxLength];
      var b := |BeforeLastSpace(t)|;
      assert t[..b] == context[..b];
      if ' ' in t {
        assert t[b + 1..] == context[b + 1..maxLength];
      }
      assert Shorten(context, maxLength) == context[..b] + "...";
    }
  }

  lemma TimerNoNewline()
    ensures NoNewline("Timer")
  {
    var t := "Timer";
    assert t == ['T', 'i', 'm', 'e', 'r'];
  }

  /**
   * A label is never empty, holds no newline, and is at most three
   * characters longer than the limit (or is "Timer").
   */
  lemma LabelSpec(text: string, matchStart: nat, maxLength: nat)
    requires matchStart <= |text|
    ensures var l := ExtractContextLabel(text, matchStart, maxLength);
            && l != ""
            && NoNewline(l)
            && (|l| <= maxLength + 3 || l == "Timer")
  {
    ContextNoNewline(text, matchStart);
    ShortenSpec(Context(text, matchStart), maxLength);
    TimerNoNewline();
  }

  /** The label depends only on the line up to `matchStart`: earlier lines and later text play no part. */
  lemma LabelUsesOnlyLine(before: string, line: string, after: string, maxLength: nat)
    requires '\n' !in line
    ensures ExtractContextLabel(before + "\n" + line + after, |before| + 1 + |line|, maxLength)
            == ExtractContextLabel(line, |line|, maxLength)
  {
    LineBeforeIs(before, line, after);
    LineBeforeWhole(line);
  }

  lemma LineBeforeWhole(line: string)
    requires '\n' !in line
    ensures LineBefore(line, |line|) == line
  {
    var i := SpanBackWhile(line, |line|, NotNewline);
    assert forall k :: 0 <= k < |line| ==> line[k] in line && NotNewline(line[k]);
    assert line[0..|line|] == line;
  }

  lemma LineBeforeIs(before: string, line: string, after: string)
    requires '\n' !in line
    ensures LineBefore(before + "\n" + line + after, |before| + 1 + |line|) == line
  {
    var text := before + "\n" + line + after;
    var m := |before| + 1 + |line|;
    assert text[|before|] == '\n';
    assert forall k :: |before| + 1 <= k < m ==> text[k] == line[k - |before| - 1];
    var i := SpanBackWhile(text, m, NotNewline);
    assert forall k :: 0 <= k < |line| ==> line[k] in line && NotNewline(line[k]);
    assert i == |before| + 1;
    assert text[|before| + 1..m] == line;
  }

  // ---------------------------------------------------------------- timers

  /** One recorded timer (`id`, `duration`, `duration_ms`, `label`). */
  datatype Timer = Timer(id: nat, duration: string, durationMs: nat, labelText: string)

  /** The text produced so far, the timers recorded so far, and the next timer id. */
  datatype Pass = Pass(text: string, timers: seq<Timer>, nextId: nat)

  /** The button placeholder; `prefix` is " " for an auto-detected timer and "" for an explicit one. */
  function ButtonHtml(prefix: string, id: nat, duration: string, labelText: string): string {
    prefix + "<button class=\"timer-btn\" data-timer-id=\"" + NatToString(id) + "\" data-duration=\"" + duration
    + "\" data-label=\"" + labelText + "\">\U{23F1} " + duration + "</button>"
  }

  /** A match of `\[(?:timer:)?([0-9hms]+)(?::([^\]]+))?\]`: where it ends and its two groups. */
  datatype Marker = Marker(end: nat, duration: string, customLabel: Option<string>)

  predicate IsDurationChar(c: char) { IsDigit(c) || c == 'h' || c == 'm' || c == 's' }

  predicate NotCloseBracket(c: char) { c != ']' }

  /** The `timer:` that a marker at `p` carries, if any. */
  function TimerPrefix(s: string, p: nat): (r: string)
    ensures r == "" || r == "timer:"
    ensures p < |s| ==> p + 1 + |r| <= |s|
  {
    if HasAt(s, p + 1, "timer:") then "timer:" else ""
  }

  /** The explicit timer marker starting at `p`, if there is one. */
  function MarkerAt(s: string, p: nat): (r: Option<Marker>)
    requires p <= |s|
    ensures r.Some? ==> p < r.value.end <= |s|
  {
    if p == |s| || s[p] != '[' then None else MarkerFrom(s, p + 1 + |TimerPrefix(s, p)|)
  }

  /** The rest of a marker, from the duration that starts at `q` to the closing `]`. */
  function MarkerFrom(s: string, q: nat): (r: Option<Marker>)
    requires q <= |s|
    ensures r.Some? ==> q < r.value.end <= |s|
  {
    var e := SpanWhile(s, q, IsDurationChar);
    if e == q || e == |s| then None
    else if s[e] == ']' then Some(Marker(e + 1, s[q..e], None))
    else if s[e] == ':' then
      var f := SpanWhile(s, e + 1, NotCloseBracket);
      if f == e + 1 || f == |s| then None else Some(Marker(f + 1, s[q..e], Some(s[e + 1..f])))
    else None
  }

  /** The text of a marker: `[`, the optional `timer:`, the duration, the optional `:label`, then `]`. */
  function MarkerText(prefix: string, duration: string, custom: Option<string>): string {
    "[" + prefix + duration + (if custom.Some? then ":" + custom.value else "") + "]"
  }

  /** The parts a marker is made of, as the explicit pattern demands them. */
  predicate MarkerParts(prefix: string, duration: string, custom: Option<string>) {
    && (prefix == "" || prefix == "timer:")
    && duration != "" && (forall k :: 0 <= k < |duration| ==> IsDurationChar(duration[k]))
    && (custom.Some? ==> custom.value != "" && ']' !in custom.value)
  }

  /** Whatever the scanner finds at `p` is a well-formed marker spelled out in the text. */
  lemma MarkerAtSound(s: string, p: nat)
    requires p <= |s| && MarkerAt(s, p).Some?
    ensures var m := MarkerAt(s, p).value;
            && MarkerParts(TimerPrefix(s, p), m.duration, m.customLabel)
            && s[p..m.end] == MarkerText(TimerPrefix(s, p), m.duration, m.customLabel)
  {
    var prefix := TimerPrefix(s, p);
    var q := p + 1 + |prefix|;
    MarkerAtOpen(s, p);
    var m := MarkerFrom(s, q).value;
    MarkerFromSound(s, q);
    var tail := if m.customLabel.Some? then ":" + m.customLabel.value else "";
    assert s[p..p + 1] == "[";
    assert s[p + 1..q] == prefix;
    SliceJoin(s, p, p + 1, q, "[", prefix);
    SliceJoin(s, p, q, m.end, "[" + prefix, m.duration + tail + "]");
    MarkerTextSplit(prefix, m.duration, m.customLabel);
  }

  lemma MarkerTextSplit(prefix: string, duration: string, custom: Option<string>)
    ensures MarkerText(prefix, duration, custom)
            == "[" + prefix + (duration + (if custom.Some? then ":" + custom.value else "") + "]")
  {
  }

  /** Two adjacent pieces of `s` read as `a` and `b` read together as `a + b`. */
  lemma SliceJoin(s: string, i: nat, j: nat, k: nat, a: string, b: string)
    requires i <= j <= k <= |s| && s[i..j] == a && s[j..k] == b
    ensures s[i..k] == a + b
  {
    SliceSplit(s, i, j, k);
  }

  /** The rest of a marker found from `q`: its duration, its optional label and the closing `]`. */
  lemma MarkerFromSound(s: string, q: nat)
    requires q <= |s| && MarkerFrom(s, q).Some?
    ensures var m := MarkerFrom(s, q).value;
            && MarkerParts("", m.duration, m.customLabel)
            && s[q..m.end] == m.duration + (if m.customLabel.Some? then ":" + m.customLabel.value else "") + "]"
  {
    var m := MarkerFrom(s, q).value;
    var e := SpanWhile(s, q, IsDurationChar);
    var f := m.end - 1;
    assert s[f..m.end] == "]";
    SliceSplit(s, q, e, f);
    SliceSplit(s, q, f, m.end);
    if m.customLabel.Some? {
      assert s[e..f] == ":" + m.customLabel.value;
      assert forall k :: e + 1 <= k < f ==> s[k] != ']';
    }
  }


  lemma SliceSplit(s: string, i: nat, j: nat, k: nat)
    requires i <= j <= k <= |s|
    ensures s[i..k] == s[i..j] + s[j..k]
  {
  }

  /**
   * The rest of the explicit pattern from `q`, with the duration run in
   * `s[q..e]` and, when `f > e`, the label in `s[e + 1..f]`.
   */
  lemma MarkerFromIs(s: string, q: nat, e: nat, f: nat)
    requires q < e <= f < |s|
    requires forall k :: q <= k < e ==> IsDurationChar(s[k])
    requires f == e ==> s[e] == ']'
    requires f > e ==> s[e] == ':' && e + 1 < f && s[f] == ']' && forall k :: e + 1 <= k < f ==> s[k] != ']'
    ensures MarkerFrom(s, q) == Some(Marker(f + 1, s[q..e], if f == e then None else Some(s[e + 1..f])))
  {
    assert SpanWhile(s, q, IsDurationChar) == e;
    if f > e {
      assert SpanWhile(s, e + 1, NotCloseBracket) == f;
    }
  }

  /** Where the pieces of a marker's text sit. */
  lemma MarkerTextChars(prefix: string, duration: string, custom: Option<string>)
    ensures var t := MarkerText(prefix, duration, custom);
            var e := 1 + |prefix| + |duration|;
            && |t| == e + 1 + (if custom.Some? then 1 + |custom.value| else 0)
            && t[0] == '[' && t[|t| - 1] == ']'
            && t[1..1 + |prefix|] == prefix
            && t[1 + |prefix|..e] == duration
            && (custom.None? ==> t[e] == ']')
            && (custom.Some? ==> t[e] == ':' && t[e + 1..|t| - 1] == custom.value)
  {
    var tail := if custom.Some? then ":" + custom.value else "";
    var t := MarkerText(prefix, duration, custom);
    assert t == ("[" + prefix) + duration + (tail + "]");
  }

  /** Text spelled out at `p` can be read off `s` piece by piece. */
  lemma SliceAt(s: string, p: nat, t: string, i: nat, j: nat)
    requires HasAt(s, p, t) && i <= j <= |t|
    ensures s[p + i..p + j] == t[i..j]
  {
    var u := s[p..p + |t|];
    assert u == t;
    assert forall k :: i <= k < j ==> s[p + k] == u[k];
  }

  /** The optional `timer:` is taken exactly when it is there; a duration character is never its `t`. */
  lemma TimerPrefixIs(s: string, p: nat, prefix: string)
    requires prefix == "" ==> p + 1 < |s| && IsDurationChar(s[p + 1])
    requires prefix == "timer:" ==> HasAt(s, p + 1, "timer:")
    requires prefix == "" || prefix == "timer:"
    ensures TimerPrefix(s, p) == prefix
  {
    HasAtFirst(s, p + 1, "timer:");
  }

  lemma HasAtFirst(s: string, i: nat, w: string)
    requires w != ""
    ensures HasAt(s, i, w) ==> s[i] == w[0]
  {
    if HasAt(s, i, w) {
      assert s[i..i + |w|][0] == s[i];
    }
  }

  /** What a marker spelled out at `p` puts at each position of `s` up to its duration run `s[q..e]`. */
  lemma MarkerFoundChars(s: string, p: nat, prefix: string, duration: string, custom: Option<string>, q: nat, e: nat, f: nat)
    requires MarkerParts(prefix, duration, custom)
    requires HasAt(s, p, MarkerText(prefix, duration, custom))
    requires q == p + 1 + |prefix| && e == q + |duration| && f == p + |MarkerText(prefix, duration, custom)| - 1
    ensures q < e <= f < |s| && s[p] == '[' && HasAt(s, p + 1, prefix)
    ensures s[q..e] == duration && forall k :: q <= k < e ==> IsDurationChar(s[k])
    ensures custom.None? ==> f == e && s[e] == ']'
  {
    var t := MarkerText(prefix, duration, custom);
    MarkerTextChars(prefix, duration, custom);
    assert s[p] == t[0] == '[' && s[e] == t[e - p];
    SliceAt(s, p, t, 1 + |prefix|, e - p);
    forall k | q <= k < e
      ensures IsDurationChar(s[k])
    {
      assert s[k] == duration[k - q];
    }
    SliceAt(s, p, t, 1, 1 + |prefix|);
  }

  /** What a marker spelled out at `p` with a label puts after its duration run, which ends at `e`. */
  lemma MarkerLabelChars(s: string, p: nat, prefix: string, duration: string, c: string, e: nat, f: nat)
    requires MarkerParts(prefix, duration, Some(c))
    requires HasAt(s, p, MarkerText(prefix, duration, Some(c)))
    requires e == p + 1 + |prefix| + |duration| && f == p + |MarkerText(prefix, duration, Some(c))| - 1
    ensures e + 1 < f < |s| && s[e] == ':' && s[f] == ']' && s[e + 1..f] == c
    ensures forall k :: e + 1 <= k < f ==> s[k] != ']'
  {
    var t := MarkerText(prefix, duration, Some(c));
    MarkerTextChars(prefix, duration, Some(c));
    assert s[e] == t[e - p] && s[f] == t[|t| - 1];
    SliceAt(s, p, t, e - p + 1, |t| - 1);
    forall k | e + 1 <= k < f
      ensures s[k] != ']'
    {
      assert s[k] == c[k - e - 1];
    }
  }

  /** A well-formed marker spelled out at `p` is found there, with its duration and its label. */
  lemma MarkerFound(s: string, p: nat, prefix: string, duration: string, custom: Option<string>)
    requires MarkerParts(prefix, duration, custom)
    requires HasAt(s, p, MarkerText(prefix, duration, custom))
    ensures MarkerAt(s, p) == Some(Marker(p + |MarkerText(prefix, duration, custom)|, duration, custom))
  {
    var q := p + 1 + |prefix|;
    var e := q + |duration|;
    var f := p + |MarkerText(prefix, duration, custom)| - 1;
    MarkerFoundChars(s, p, prefix, duration, custom, q, e, f);
    if custom.Some? {
      MarkerLabelChars(s, p, prefix, duration, custom.value, e, f);
    }
    TimerPrefixIs(s, p, prefix);
    MarkerAtOpen(s, p);
    MarkerFromIs(s, q, e, f);
  }



  lemma MarkerAtOpen(s: string, p: nat)
    requires p < |s| && s[p] == '['
    ensures MarkerAt(s, p) == MarkerFrom(s, p + 1 + |TimerPrefix(s, p)|)
  {
  }



  /**
   * `replace_explicit` for the marker `m` found at `p` in `s`: a marker
   * whose duration parses to zero is kept (`None`); otherwise a button with
   * id `id` whose label is the trimmed custom label, else the context of the
   * marker in `s`.
   */
  function ExplicitReplacement(s: string, p: nat, m: Marker, id: nat): (r: Option<Insertion>)
    ensures r.Some? <==> ParseDurationToMs(m.duration) > 0
    ensures r.Some? ==> r.value.timer == Timer(id, m.duration, ParseDurationToMs(m.duration), r.value.timer.labelText)
    ensures r.Some? && m.customLabel.Some? ==> r.value.timer.labelText == Strip(m.customLabel.value)
    ensures r.Some? && m.customLabel.None? && p <= |s| ==> r.value.timer.labelText == ExtractContextLabel(s, p, MaxLabelLength)
    ensures r.Some? ==> r.value.text == ButtonHtml("", id, m.duration, r.value.timer.labelText)
  {
    var ms := ParseDurationToMs(m.duration);
    if ms == 0 then None
    else
      var labelText :=
        if m.customLabel.Some? then Strip(m.customLabel.value)
        else if p <= |s| then ExtractContextLabel(s, p, MaxLabelLength)
        else "Timer";
      Some(Insertion(ButtonHtml("", id, m.duration, labelText), Timer(id, m.duration, ms, labelText)))
  }

  /**
   * `re.sub(explicit_pattern, replace, s)` from index `p`, scanning left to
   * right: where a marker matches and `replace` gives an insertion, the
   * marker is replaced by its text and its timer is recorded with id `id`;
   * where `replace` gives nothing, the marker is kept verbatim.
   */
  function ExplicitPass(replace: (string, nat, Marker, nat) -> Option<Insertion>, s: string, p: nat, id: nat): (r: Pass)
    requires p <= |s|
    decreases |s| - p
  {
    if p == |s| then Pass("", [], id)
    else
      match MarkerAt(s, p)
      case None =>
        var rest := ExplicitPass(replace, s, p + 1, id);
        Pass([s[p]] + rest.text, rest.timers, rest.nextId)
      case Some(m) =>
        match replace(s, p, m, id)
        case None =>
          var rest := ExplicitPass(replace, s, m.end, id);
          Pass(s[p..m.end] + rest.text, rest.timers, rest.nextId)
        case Some(ins) =>
          var rest := ExplicitPass(replace, s, m.end, id + 1);
          Pass(ins.text + rest.text, [ins.timer] + rest.timers, rest.nextId)
  }

  /** The ids of a run of timers are `id`, `id + 1`, ... and the next id follows the last. */
  predicate NumberedFrom(r: Pass, id: nat) {
    && r.nextId == id + |r.timers|
    && forall k :: 0 <= k < |r.timers| ==> r.timers[k].id == id + k
  }

  /** Every timer of a run has a positive duration. */
  predicate PositiveDurations(timers: seq<Timer>) {
    forall k :: 0 <= k < |timers| ==> timers[k].durationMs > 0
  }

  lemma NumberedCons(t: Timer, text: string, rest: Pass, id: nat)
    requires t.id == id && NumberedFrom(rest, id + 1)
    ensures NumberedFrom(Pass(text, [t] + rest.timers, rest.nextId), id)
  {
    var ts := [t] + rest.timers;
    forall k | 0 <= k < |ts|
      ensures ts[k].id == id + k
    {
      if k > 0 {
        assert ts[k] == rest.timers[k - 1];
      }
    }
  }

  lemma PositiveCons(t: Timer, rest: seq<Timer>)
    requires t.durationMs > 0 && PositiveDurations(rest)
    ensures PositiveDurations([t] + rest)
  {
    var ts := [t] + rest;
    forall k | 0 <= k < |ts|
      ensures ts[k].durationMs > 0
    {
      if k > 0 {
        assert ts[k] == rest[k - 1];
      }
    }
  }

  /** A replacement that gives the timer it records the id it is handed. */
  ghost predicate KeepsIds(replace: (string, nat, Marker, nat) -> Option<Insertion>) {
    forall s, p, m, id :: replace(s, p, m, id).Some? ==> replace(s, p, m, id).value.timer.id == id
  }

  /** A replacement that records only timers with a positive duration. */
  ghost predicate RecordsPositive(replace: (string, nat, Marker, nat) -> Option<Insertion>) {
    forall s, p, m, id :: replace(s, p, m, id).Some? ==> replace(s, p, m, id).value.timer.durationMs > 0
  }

  /** Timers of the explicit pass are numbered consecutively in document order. */
  lemma {:induction false} ExplicitNumbering(replace: (string, nat, Marker, nat) -> Option<Insertion>, s: string, p: nat, id: nat)
    requires p <= |s| && KeepsIds(replace)
    ensures NumberedFrom(ExplicitPass(replace, s, p, id), id)
    decreases |s| - p
  {
    if p < |s| {
      match MarkerAt(s, p)
      case None =>
        ExplicitNumbering(replace, s, p + 1, id);
      case Some(m) =>
        match replace(s, p, m, id)
        case None =>
          ExplicitNumbering(replace, s, m.end, id);
        case Some(ins) =>
          ExplicitNumbering(replace, s, m.end, id + 1);
          NumberedCons(ins.timer, ins.text + ExplicitPass(replace, s, m.end, id + 1).text, ExplicitPass(replace, s, m.end, id + 1), id);
    }
  }

  /** The explicit pass records only timers with a positive duration. */
  lemma {:induction false} ExplicitPositive(replace: (string, nat, Marker, nat) -> Option<Insertion>, s: string, p: nat, id: nat)
    requires p <= |s| && RecordsPositive(replace)
    ensures PositiveDurations(ExplicitPass(replace, s, p, id).timers)
    decreases |s| - p
  {
    if p < |s| {
      match MarkerAt(s, p)
      case None =>
        ExplicitPositive(replace, s, p + 1, id);
      case Some(m) =>
        match replace(s, p, m, id)
        case None =>
          ExplicitPositive(replace, s, m.end, id);
        case Some(ins) =>
          ExplicitPositive(replace, s, m.end, id + 1);
          PositiveCons(ins.timer, ExplicitPass(replace, s, m.end, id + 1).timers);
    }
  }

  /** `replace_explicit` numbers its timer with the id it is handed and never records a zero duration. */
  lemma ExplicitReplacementSpec()
    ensures KeepsIds(ExplicitReplacement) && RecordsPositive(ExplicitReplacement)
  {
  }

  /** Text without a `[` passes through unchanged and records no timer. */
  lemma {:induction false} ExplicitPassPlain(replace: (string, nat, Marker, nat) -> Option<Insertion>, s: string, p: nat, id: nat)
    requires p <= |s|
    requires forall k :: p <= k < |s| ==> s[k] != '['
    ensures ExplicitPass(replace, s, p, id) == Pass(s[p..], [], id)
    decreases |s| - p
  {
    if p < |s| {
      ExplicitPassPlain(replace, s, p + 1, id);
      assert s[p..] == [s[p]] + s[p + 1..];
    }
  }

  // ------------------------------------------------------ auto-detection

  /** `\b` at `i`. */
  predicate WordBoundary(s: string, i: nat) {
    (0 < i <= |s| && IsWordChar(s[i - 1])) != (i < |s| && IsWordChar(s[i]))
  }

  /** A match of the natural-language pattern: its span, its two numbers and its unit word. */
  datatype AutoMatch = AutoMatch(start: nat, end: nat, low: string, high: Option<string>, unit: string)

  /** The unit words of `(minutes?|mins?|hours?|hrs?|seconds?|secs?)`, in the order they are tried. */
  const UnitWords: seq<string> := ["minute", "min", "hour", "hr", "second", "sec"]



  /** `t` is the word `w` or its plural `w` + "s", as `minutes?` allows. */
  predicate IsFormOf(t: string, w: string) {
    t == w || t == w + "s"
  }

  /** `t` (lower-cased) is one of the words the unit alternation accepts. */
  predicate IsUnitWord(t: string) {
    exists w :: w in UnitWords && IsFormOf(t, w)
  }

  /** Every character of `s[i..j]` is a letter. */
  predicate LettersIn(s: string, i: nat, j: nat)
    requires i <= j <= |s|
  {
    forall k :: i <= k < j ==> IsLetter(s[k])
  }

  predicate LowerLetters(w: string) {
    forall k :: 0 <= k < |w| ==> 'a' <= w[k] <= 'z'
  }

  lemma UnitWordsAreLetters()
    ensures forall w :: w in UnitWords ==> w != "" && LowerLetters(w)
  {
  }

  /** A character that lower-cases to a lower-case letter is a letter. */
  lemma LowerLetterIsLetter(s: string, i: nat, j: nat)
    requires i <= j <= |s| && LowerLetters(Lower(s[i..j]))
    ensures LettersIn(s, i, j)
  {
    forall k | i <= k < j
      ensures IsLetter(s[k])
    {
      assert Lower(s[i..j])[k - i] == LowerChar(s[k]);
    }
  }

  /** A run of letters from `u` that ends at a word boundary ends where the word ends. */
  lemma EndOfWord(s: string, u: nat, x: nat, y: nat)
    requires u < x <= |s| && u < y <= |s|
    requires LettersIn(s, u, x) && LettersIn(s, u, y)
    requires WordBoundary(s, x) && WordBoundary(s, y)
    ensures x == y
  {
    assert IsWordChar(s[x - 1]) && IsWordChar(s[y - 1]);
    if x < y {
      assert IsWordChar(s[x]);
    } else if y < x {
      assert IsWordChar(s[y]);
    }
  }

  /** The match of the unit alternation tried with the word `w` at `u`, if that word leads to one. */
  function UnitWordEnd(s: string, u: nat, w: string): (r: Option<nat>)
    requires u <= |s|
  {
    if w != "" && HasAtIgnoringCase(s, u, w) then
      var v := u + |w|;
      if v < |s| && LowerChar(s[v]) == 's' && WordBoundary(s, v + 1) then Some(v + 1)
      else if WordBoundary(s, v) then Some(v)
      else None
    else None
  }

  /** Where the unit alternation, starting at `u` and trying `words` in order, ends (then `\b`). */
  function UnitEnd(s: string, u: nat, words: seq<string>): (r: Option<nat>)
    requires u <= |s|
    ensures r.Some? ==> u < r.value <= |s|
    decreases |words|
  {
    if words == [] then None
    else
      match UnitWordEnd(s, u, words[0])
      case Some(v) => Some(v)
      case None => UnitEnd(s, u, words[1..])
  }

  /** Where the unit word `w` leads to a match, that match is a form of `w` followed by a word boundary. */
  lemma UnitWordEndSound(s: string, u: nat, w: string)
    requires u <= |s| && UnitWordEnd(s, u, w).Some?
    ensures u < UnitWordEnd(s, u, w).value <= |s|
    ensures WordBoundary(s, UnitWordEnd(s, u, w).value)
    ensures IsFormOf(Lower(s[u..UnitWordEnd(s, u, w).value]), w)
  {
    var v := u + |w|;
    if UnitWordEnd(s, u, w).value == v + 1 {
      assert s[u..v + 1] == s[u..v] + [s[v]];
      LowerConcat(s[u..v], [s[v]]);
    }
  }

  /** A form of `w` that ends at a word boundary is matched by the word `w`. */
  lemma UnitWordEndFinds(s: string, u: nat, v: nat, w: string)
    requires u < v <= |s| && w != "" && LowerLetters(w)
    requires IsFormOf(Lower(s[u..v]), w) && WordBoundary(s, v)
    ensures UnitWordEnd(s, u, w) == Some(v)
  {
    var t := Lower(s[u..v]);
    var x := u + |w|;
    assert t[..|w|] == w;
    LowerSlice(s[u..v], 0, |w|);
    assert s[u..v][0..|w|] == s[u..x];
    assert HasAtIgnoringCase(s, u, w);
    if t == w {
      assert x == v;
      assert IsLetter(s[v - 1]) by {
        assert t[|w| - 1] == LowerChar(s[v - 1]);
      }
      assert v < |s| ==> !IsWordChar(s[v]);
      assert v < |s| ==> LowerChar(s[v]) != 's';
    } else {
      assert x + 1 == v;
      assert LowerChar(s[x]) == t[|w|] == 's';
    }
  }



  /** Whatever the unit alternation matches is a form of one of the words tried, followed by a word boundary. */
  lemma {:induction false} UnitEndSound(s: string, u: nat, words: seq<string>)
    requires u <= |s| && UnitEnd(s, u, words).Some?
    ensures WordBoundary(s, UnitEnd(s, u, words).value)
    ensures exists w :: w in words && IsFormOf(Lower(s[u..UnitEnd(s, u, words).value]), w)
    decreases |words|
  {
    var w := words[0];
    if UnitWordEnd(s, u, w).Some? {
      UnitWordEndSound(s, u, w);
    } else {
      UnitEndSound(s, u, words[1..]);
      var x :| x in words[1..] && IsFormOf(Lower(s[u..UnitEnd(s, u, words).value]), x);
      assert x in words;
    }
  }

  /** A form of a lower-case word is lower-case letters too. */
  lemma FormLetters(t: string, w: string)
    requires LowerLetters(w) && IsFormOf(t, w)
    ensures LowerLetters(t)
  {
    if t == w + "s" {
      assert forall k :: 0 <= k < |w| ==> t[k] == w[k];
    }
  }

  /**
   * Two unit words that both lead to a match from `u` lead to the same one:
   * each match is a run of letters ending at a word boundary.
   */
  lemma UnitWordEndSame(s: string, u: nat, v: nat, w: string, x: string)
    requires u < v <= |s| && WordBoundary(s, v)
    requires LowerLetters(x) && IsFormOf(Lower(s[u..v]), x)
    requires LowerLetters(w) && UnitWordEnd(s, u, w).Some?
    ensures UnitWordEnd(s, u, w) == Some(v)
  {
    var y := UnitWordEnd(s, u, w).value;
    FormLetters(Lower(s[u..v]), x);
    LowerLetterIsLetter(s, u, v);
    UnitWordEndSound(s, u, w);
    FormLetters(Lower(s[u..y]), w);
    LowerLetterIsLetter(s, u, y);
    EndOfWord(s, u, v, y);
  }

  /**
   * A unit word spelled out from `u` and followed by a word boundary is
   * matched to its end, whichever of the words tried comes first.
   */
  lemma {:induction false} UnitEndFindsIn(s: string, u: nat, v: nat, words: seq<string>)
    requires u < v <= |s| && WordBoundary(s, v)
    requires forall w :: w in words ==> w != "" && LowerLetters(w)
    requires exists w :: w in words && IsFormOf(Lower(s[u..v]), w)
    ensures UnitEnd(s, u, words) == Some(v)
    decreases |words|
  {
    var w := words[0];
    var x :| x in words && IsFormOf(Lower(s[u..v]), x);
    if UnitWordEnd(s, u, w).Some? {
      UnitWordEndSame(s, u, v, w, x);
    } else {
      if x == w {
        UnitWordEndFinds(s, u, v, w);
        assert false;
      }
      assert x in words[1..];
      assert forall z :: z in words[1..] ==> z in words;
      UnitEndFindsIn(s, u, v, words[1..]);
    }
  }


  /**
   * `(minutes?|mins?|hours?|hrs?|seconds?|secs?)\b` at `u`: the unit group
   * is matched exactly when a unit word, in any case, runs from `u` to a word
   * boundary, and it then ends at that boundary.
   */
  lemma UnitEndFinds(s: string, u: nat, v: nat)
    requires u < v <= |s| && WordBoundary(s, v) && IsUnitWord(Lower(s[u..v]))
    ensures UnitEnd(s, u, UnitWords) == Some(v)
  {
    UnitWordsAreLetters();
    UnitEndFindsIn(s, u, v, UnitWords);
  }

  /** The keyword `for` or `about` (any case) at `p`: where it ends. */
  function KeywordEnd(s: string, p: nat): (r: Option<nat>)
    requires p <= |s|
    ensures r.Some? ==> p < r.value <= |s|
    ensures r.Some? <==> HasAtIgnoringCase(s, p, "for") || HasAtIgnoringCase(s, p, "about")
    ensures r.Some? ==> Lower(s[p..r.value]) == "for" || Lower(s[p..r.value]) == "about"
  {
    if HasAtIgnoringCase(s, p, "for") then Some(p + 3)
    else if HasAtIgnoringCase(s, p, "about") then Some(p + 5)
    else None
  }

  /** `\s+(\d+)` at `k`: where the number starts and ends. */
  function NumberAfter(s: string, k: nat): (r: Option<(nat, nat)>)
    requires k <= |s|
    ensures r.Some? ==> k < r.value.0 < r.value.1 <= |s|
    ensures r.Some? ==> AllSpaces(s[k..r.value.0]) && AllDigits(s[r.value.0..r.value.1])
    ensures r.Some? && r.value.1 < |s| ==> !IsDigit(s[r.value.1])
  {
    var a := SpanSpaces(s, k);
    var b := SpanDigits(s, a);
    if a == k || b == a then None else Some((a, b))
  }

  /**
   * `(?:-(\d+))?` at `b`: where it ends. A `-` that is not followed by a digit
   * can start neither `\s*` nor a unit word, so the match fails there.
   */
  function RangeAfter(s: string, b: nat): (r: Option<nat>)
    requires b <= |s|
    ensures r.Some? ==> b <= r.value <= |s|
    ensures r.Some? && r.value > b ==> s[b] == '-' && b + 1 < r.value && AllDigits(s[b + 1..r.value])
    ensures r.Some? && r.value > b && r.value < |s| ==> !IsDigit(s[r.value])
    ensures b == |s| || s[b] != '-' ==> r == Some(b)
  {
    if b + 1 < |s| && s[b] == '-' && IsDigit(s[b + 1]) then Some(SpanDigits(s, b + 1))
    else if b < |s| && s[b] == '-' then None
    else Some(b)
  }

  /** The rest of the pattern, `\s+(\d+)(?:-(\d+))?\s*(minutes?|...|secs?)\b`, after the keyword that ends at `k`. */
  function AfterKeyword(s: string, p: nat, k: nat): (r: Option<AutoMatch>)
    requires p < k <= |s|
    ensures r.Some? ==> r.value.start == p && k < r.value.end <= |s|
  {
    match NumberAfter(s, k)
    case None => None
    case Some(n) => AfterNumber(s, p, n.0, n.1)
  }

  /** The rest of the pattern, `(?:-(\d+))?\s*(minutes?|...|secs?)\b`, after the number in `s[a..b]`. */
  function AfterNumber(s: string, p: nat, a: nat, b: nat): (r: Option<AutoMatch>)
    requires a <= b <= |s|
    ensures r.Some? ==> r.value.start == p && b < r.value.end <= |s|
  {
    match RangeAfter(s, b)
    case None => None
    case Some(c) => UnitMatch(s, p, s[a..b], if c > b then Some(s[b + 1..c]) else None, SpanSpaces(s, c))
  }

  /** The match that ends with the unit word starting at `u`, if one starts there. */
  function UnitMatch(s: string, p: nat, low: string, high: Option<string>, u: nat): (r: Option<AutoMatch>)
    requires u <= |s|
    ensures r.Some? ==> u < r.value.end <= |s|
  {
    match UnitEnd(s, u, UnitWords)
    case None => None
    case Some(end) => Some(AutoMatch(p, end, low, high, s[u..end]))
  }

  /** A match of `\b(?:for|about)\s+(\d+)(?:-(\d+))?\s*(minutes?|...|secs?)\b` (IGNORECASE) starting at `p`. */
  function AutoAt(s: string, p: nat): (r: Option<AutoMatch>)
    requires p <= |s|
    ensures r.Some? ==> r.value.start == p && p < r.value.end <= |s|
  {
    if !WordBoundary(s, p) then None
    else match KeywordEnd(s, p)
      case None => None
      case Some(k) => AfterKeyword(s, p, k)
  }

  /**
   * The positions of a match of the natural-language pattern at `p`: the
   * keyword in `s[p..k]`, whitespace, the number in `s[a..b]`, the optional
   * `-` and upper number in `s[b + 1..c]`, optional whitespace, and the unit
   * word in `s[u..v]`, with word boundaries at `p` and `v`.
   */
  predicate AutoShape(s: string, p: nat, k: nat, a: nat, b: nat, c: nat, u: nat, v: nat) {
    && p < k < a < b <= c <= u < v <= |s|
    && WordBoundary(s, p)
    && (Lower(s[p..k]) == "for" || Lower(s[p..k]) == "about")
    && AllSpaces(s[k..a]) && AllDigits(s[a..b])
    && (c == b || (s[b] == '-' && b + 1 < c && AllDigits(s[b + 1..c])))
    && AllSpaces(s[c..u])
    && IsUnitWord(Lower(s[u..v])) && WordBoundary(s, v)
  }

  /** The match with those positions and its three groups. */
  function ShapeMatch(s: string, p: nat, a: nat, b: nat, c: nat, u: nat, v: nat): AutoMatch
    requires a <= b <= c <= |s| && u <= v <= |s|
  {
    AutoMatch(p, v, s[a..b], if c == b then None else Some(s[b + 1..c]), s[u..v])
  }

  /** A unit word starts with a letter. */
  lemma UnitWordStartsWithLetter(s: string, u: nat, v: nat)
    requires u < v <= |s| && IsUnitWord(Lower(s[u..v]))
    ensures IsLetter(s[u])
  {
    UnitWordsAreLetters();
    var w :| w in UnitWords && IsFormOf(Lower(s[u..v]), w);
    FormLetters(Lower(s[u..v]), w);
    LowerLetterIsLetter(s, u, v);
  }

  lemma KeywordEndIs(s: string, p: nat, k: nat)
    requires p < k <= |s| && (Lower(s[p..k]) == "for" || Lower(s[p..k]) == "about")
    ensures KeywordEnd(s, p) == Some(k)
  {
    if Lower(s[p..k]) == "about" {
      assert Lower(s[p..k])[0] == 'a';
      if p + 3 <= |s| {
        assert Lower(s[p..p + 3])[0] == LowerChar(s[p]) == 'a';
      }
    }
  }

  lemma NumberAfterIs(s: string, k: nat, a: nat, b: nat)
    requires k < a < b <= |s| && AllSpaces(s[k..a]) && AllDigits(s[a..b])
    requires b < |s| ==> !IsDigit(s[b])
    ensures NumberAfter(s, k) == Some((a, b))
  {
    assert forall i :: k <= i < a ==> s[i] == s[k..a][i - k];
    assert forall i :: a <= i < b ==> s[i] == s[a..b][i - a];
    assert IsDigit(s[a]) && !IsSpace(s[a]);
    assert SpanSpaces(s, k) == a;
    assert SpanDigits(s, a) == b;
  }

  lemma RangeAfterIs(s: string, b: nat, c: nat)
    requires b <= c <= |s|
    requires c == b ==> b == |s| || s[b] != '-'
    requires c > b ==> s[b] == '-' && b + 1 < c && AllDigits(s[b + 1..c]) && (c < |s| ==> !IsDigit(s[c]))
    ensures RangeAfter(s, b) == Some(c)
  {
    if c > b {
      assert forall i :: b + 1 <= i < c ==> s[i] == s[b + 1..c][i - b - 1];
      assert SpanDigits(s, b + 1) == c;
    }
  }

  /** What follows the numbers: the end of the number runs is a space or the unit word's first letter. */
  lemma AfterNumbers(s: string, c: nat, u: nat, v: nat)
    requires c <= u < v <= |s| && AllSpaces(s[c..u]) && IsUnitWord(Lower(s[u..v]))
    ensures !IsDigit(s[c]) && s[c] != '-'
    ensures SpanSpaces(s, c) == u
  {
    UnitWordStartsWithLetter(s, u, v);
    assert forall i :: c <= i < u ==> s[i] == s[c..u][i - c];
  }

  /** The part of a match after its keyword, which ends at `k`. */
  lemma AfterKeywordIs(s: string, p: nat, k: nat, a: nat, b: nat, c: nat, u: nat, v: nat)
    requires p < k < a < b <= c <= u < v <= |s|
    requires AllSpaces(s[k..a]) && AllDigits(s[a..b])
    requires c == b || (s[b] == '-' && b + 1 < c && AllDigits(s[b + 1..c]))
    requires AllSpaces(s[c..u]) && IsUnitWord(Lower(s[u..v])) && WordBoundary(s, v)
    ensures AfterKeyword(s, p, k) == Some(ShapeMatch(s, p, a, b, c, u, v))
  {
    AfterNumbers(s, c, u, v);
    NumberAfterIs(s, k, a, b);
    RangeAfterIs(s, b, c);
    UnitEndFinds(s, u, v);
  }

  /**
   * Every match of the natural-language pattern at `p` is found there, with
   * its number, its optional upper number and its unit word as the groups.
   */
  lemma AutoFound(s: string, p: nat, k: nat, a: nat, b: nat, c: nat, u: nat, v: nat)
    requires AutoShape(s, p, k, a, b, c, u, v)
    ensures AutoAt(s, p) == Some(ShapeMatch(s, p, a, b, c, u, v))
  {
    KeywordEndIs(s, p, k);
    AfterKeywordIs(s, p, k, a, b, c, u, v);
  }


  /** What follows a number that leads to a match: the optional upper number, the whitespace and the unit word. */
  lemma AfterNumberParts(s: string, p: nat, a: nat, b: nat) returns (c: nat, u: nat, v: nat)
    requires a <= b <= |s| && AfterNumber(s, p, a, b).Some?
    ensures b <= c <= u < v <= |s|
    ensures c == b || (s[b] == '-' && b + 1 < c && AllDigits(s[b + 1..c]))
    ensures AllSpaces(s[c..u])
    ensures IsUnitWord(Lower(s[u..v])) && WordBoundary(s, v)
    ensures AfterNumber(s, p, a, b) == Some(ShapeMatch(s, p, a, b, c, u, v))
  {
    c := RangeAfter(s, b).value;
    u := SpanSpaces(s, c);
    v := UnitEnd(s, u, UnitWords).value;
    UnitEndSound(s, u, UnitWords);
    assert AllSpaces(s[c..u]);
  }

  /**
   * Whatever is found at `p` is a match of the natural-language pattern:
   * these are its positions, and its groups are the number, the optional
   * upper number and the unit word.
   */
  lemma AutoAtSound(s: string, p: nat) returns (k: nat, a: nat, b: nat, c: nat, u: nat, v: nat)
    requires p <= |s| && AutoAt(s, p).Some?
    ensures AutoShape(s, p, k, a, b, c, u, v)
    ensures AutoAt(s, p) == Some(ShapeMatch(s, p, a, b, c, u, v))
  {
    k := KeywordEnd(s, p).value;
    assert AutoAt(s, p) == AfterKeyword(s, p, k);
    var n := NumberAfter(s, k).value;
    a, b := n.0, n.1;
    assert AfterKeyword(s, p, k) == AfterNumber(s, p, a, b);
    c, u, v := AfterNumberParts(s, p, a, b);
  }

  /** A matcher whose match at `p` starts at `p` and ends inside the text, after `p`. */
  ghost predicate Advances(at: (string, nat) --> Option<AutoMatch>) {
    forall s: string, p: nat :: p <= |s| ==>
      && at.requires(s, p)
      && (at(s, p).Some? ==> at(s, p).value.start == p && p < at(s, p).value.end <= |s|)
  }

  /**
   * `list(re.finditer(pattern, s))` from index `p`, for the pattern whose
   * match at a position is `at`: the non-overlapping matches, left to right,
   * each search resuming where the previous match ended.
   */
  function Matches(at: (string, nat) --> Option<AutoMatch>, s: string, p: nat): (ms: seq<AutoMatch>)
    requires p <= |s| && Advances(at)
    ensures forall k :: 0 <= k < |ms| ==> p <= ms[k].start < ms[k].end <= |s|
    decreases |s| - p
  {
    if p == |s| then []
    else
      match at(s, p)
      case None => Matches(at, s, p + 1)
      case Some(m) => [m] + Matches(at, s, m.end)
  }

  /** `list(re.finditer(auto_pattern, s, re.IGNORECASE))` */
  function AutoMatches(s: string): (ms: seq<AutoMatch>)
    ensures forall k :: 0 <= k < |ms| ==> ms[k].start < ms[k].end <= |s|
  {
    Matches(AutoAt, s, 0)
  }

  /** What `Advances` says about one position. */
  lemma AdvancesAt(at: (string, nat) --> Option<AutoMatch>, s: string, p: nat)
    requires p <= |s| && Advances(at)
    ensures at.requires(s, p)
    ensures at(s, p).Some? ==> at(s, p).value.start == p && p < at(s, p).value.end <= |s|
  {
  }

  /** The natural-language pattern's matcher finds matches that start where it looks. */
  lemma AutoAtAdvances()
    ensures Advances(AutoAt)
  {
  }

  /** Every match listed is the one the matcher finds where it starts. */
  lemma {:induction false} MatchesSound(at: (string, nat) --> Option<AutoMatch>, s: string, p: nat)
    requires p <= |s| && Advances(at)
    ensures forall k :: 0 <= k < |Matches(at, s, p)| ==> at(s, Matches(at, s, p)[k].start) == Some(Matches(at, s, p)[k])
    decreases |s| - p
  {
    if p < |s| {
      AdvancesAt(at, s, p);
      var ms := Matches(at, s, p);
      if at(s, p).None? {
        assert ms == Matches(at, s, p + 1);
        MatchesSound(at, s, p + 1);
      } else {
        var m := at(s, p).value;
        var rest := Matches(at, s, m.end);
        assert ms == [m] + rest;
        assert ms[0] == m;
        MatchesSound(at, s, m.end);
        assert forall k :: 1 <= k < |ms| ==> ms[k] == rest[k - 1];
      }
    }
  }

  /**
   * Every match the matcher finds at a position `q` from `p` on is listed,
   * unless `q` lies strictly inside a match listed before it.
   */
  lemma {:induction false} MatchesComplete(at: (string, nat) --> Option<AutoMatch>, s: string, p: nat, q: nat)
    requires p <= q <= |s| && Advances(at) && at(s, q).Some?
    requires forall k :: 0 <= k < |Matches(at, s, p)| ==> !(Matches(at, s, p)[k].start < q < Matches(at, s, p)[k].end)
    ensures at(s, q).value in Matches(at, s, p)
    decreases |s| - p
  {
    AdvancesAt(at, s, q);
    AdvancesAt(at, s, p);
    var ms := Matches(at, s, p);
    if at(s, p).None? {
      assert ms == Matches(at, s, p + 1);
      assert p != q;
      MatchesComplete(at, s, p + 1, q);
    } else {
      var m := at(s, p).value;
      var rest := Matches(at, s, m.end);
      assert ms == [m] + rest;
      if q != p {
        assert ms[0] == m;
        assert !(ms[0].start < q < ms[0].end);
        assert forall k :: 0 <= k < |rest| ==> rest[k] == ms[k + 1];
        MatchesComplete(at, s, m.end, q);
      }
    }
  }

  /** Every auto-detected match is the one the pattern finds where it starts. */
  lemma AutoMatchesSound(s: string)
    ensures var ms := AutoMatches(s);
            forall k :: 0 <= k < |ms| ==> AutoAt(s, ms[k].start) == Some(ms[k])
  {
    MatchesSound(AutoAt, s, 0);
  }

  /**
   * Every match of the natural-language pattern is auto-detected, with its
   * groups, unless it starts strictly inside a match found before it.
   */
  lemma AutoMatchesComplete(s: string, p: nat, k: nat, a: nat, b: nat, c: nat, u: nat, v: nat)
    requires AutoShape(s, p, k, a, b, c, u, v)
    requires forall i :: 0 <= i < |AutoMatches(s)| ==> !(AutoMatches(s)[i].start < p < AutoMatches(s)[i].end)
    ensures ShapeMatch(s, p, a, b, c, u, v) in AutoMatches(s)
  {
    AutoFound(s, p, k, a, b, c, u, v);
    AutoAtAdvances();
    assert AutoMatches(s) == Matches(AutoAt, s, 0);
    MatchesComplete(AutoAt, s, 0, p);
  }

  /** Each match ends before the next one starts. */
  predicate Ordered(ms: seq<AutoMatch>) {
    forall k :: 0 <= k < |ms| - 1 ==> ms[k].end <= ms[k + 1].start
  }

  lemma OrderedCons(m: AutoMatch, rest: seq<AutoMatch>)
    requires Ordered(rest)
    requires forall k :: 0 <= k < |rest| ==> m.end <= rest[k].start
    ensures Ordered([m] + rest)
  {
    var ms := [m] + rest;
    forall k | 0 <= k < |ms| - 1
      ensures ms[k].end <= ms[k + 1].start
    {
      assert ms[k + 1] == rest[k];
      if k > 0 {
        assert ms[k] == rest[k - 1];
      }
    }
  }

  /** The matches follow one another without overlapping. */
  lemma {:induction false} MatchesOrdered(at: (string, nat) --> Option<AutoMatch>, s: string, p: nat)
    requires p <= |s| && Advances(at)
    ensures Ordered(Matches(at, s, p))
    decreases |s| - p
  {
    if p < |s| {
      match at(s, p)
      case None =>
        MatchesOrdered(at, s, p + 1);
      case Some(m) =>
        MatchesOrdered(at, s, m.end);
        OrderedCons(m, Matches(at, s, m.end));
    }
  }

  /** The auto-detected matches follow one another without overlapping. */
  lemma AutoMatchesOrdered(s: string)
    ensures Ordered(AutoMatches(s))
  {
    MatchesOrdered(AutoAt, s, 0);
  }

  /** The short unit letter of a matched unit word: `h`, `m` or `s` (`None` for the `continue` branch). */
  function UnitLetter(unit: string): (r: Option<char>)
    ensures r.Some? ==> r.value == 'h' || r.value == 'm' || r.value == 's'
  {
    var u := Lower(unit);
    if StartsWith(u, "hour") || StartsWith(u, "hr") then Some('h')
    else if StartsWith(u, "min") then Some('m')
    else if StartsWith(u, "sec") then Some('s')
    else None
  }

  /** The number a match stands for: the upper value of a range, else the value. */
  function MatchValue(m: AutoMatch): nat {
    DigitsValue(if m.high.Some? then m.high.value else m.low)
  }

  /**
   * The duration string of a match: its number with the unit letter, which
   * parses to that many hours, minutes or seconds.
   */
  function AutoDuration(m: AutoMatch): (r: Option<string>)
    ensures r.Some? <==> HasLetter(m)
    ensures r.Some? ==> ParseDurationToMs(r.value) == 1000 * MatchValue(m) * LetterSeconds(UnitLetter(m.unit).value)
  {
    match UnitLetter(m.unit)
    case None => None
    case Some(letter) =>
      ShortDuration(MatchValue(m), letter);
      Some(NatToString(MatchValue(m)) + [letter])
  }

  /** The label of an auto-detected timer: the context of its match. */
  function AutoLabel(s: string, m: AutoMatch): string {
    if m.start <= |s| then ExtractContextLabel(s, m.start, MaxLabelLength) else "Timer"
  }

  /** `s` with the button for the match `m` inserted right after the match. */
  function WithButton(s: string, m: AutoMatch, id: nat, d: string, labelText: string): (r: string)
    ensures |r| > |s|
  {
    var e := if m.end <= |s| then m.end else |s|;
    s[..e] + ButtonHtml(" ", id, d, labelText) + s[e..]
  }

  /** The button goes right after the match, and the text on either side of it is kept as it was. */
  lemma WithButtonKeepsText(s: string, m: AutoMatch, id: nat, d: string, labelText: string)
    requires m.end <= |s|
    ensures var r := WithButton(s, m, id, d, labelText);
            && r[..m.end] == s[..m.end]
            && r[|r| - (|s| - m.end)..] == s[m.end..]
            && r[m.end..|r| - (|s| - m.end)] == ButtonHtml(" ", id, d, labelText)
  {
    var b := ButtonHtml(" ", id, d, labelText);
    var r := WithButton(s, m, id, d, labelText);
    assert r == s[..m.end] + b + s[m.end..];
  }

  /** What one turn of a pass does: the new text and the timer it records. */
  datatype Insertion = Insertion(text: string, timer: Timer)

  /** One turn of the reverse loop of `inject_timer_buttons`: nothing for a unit without a letter, else a button with id `id`. */
  function AutoStep(s: string, m: AutoMatch, id: nat): (r: Option<Insertion>)
    ensures r.Some? <==> HasLetter(m)
    ensures r.Some? ==> r.value.timer.id == id && r.value.timer.labelText == AutoLabel(s, m)
    ensures r.Some? ==> r.value.timer.durationMs == 1000 * MatchValue(m) * LetterSeconds(UnitLetter(m.unit).value)
    ensures r.Some? ==> r.value.text == WithButton(s, m, id, r.value.timer.duration, r.value.timer.labelText)
    ensures r.Some? ==> |r.value.text| > |s|
  {
    match AutoDuration(m)
    case None => None
    case Some(d) =>
      var labelText := AutoLabel(s, m);
      Some(Insertion(WithButton(s, m, id, d, labelText), Timer(id, d, ParseDurationToMs(d), labelText)))
  }

  /**
   * A loop over `ms` from the last element to the first: `step` is applied
   * to the text so far, the element and the next id; a timer it records
   * takes that id.
   */
  function ReversePass(step: (string, AutoMatch, nat) -> Option<Insertion>, s: string, ms: seq<AutoMatch>, id: nat): (r: Pass)
    decreases |ms|
  {
    if ms == [] then Pass(s, [], id)
    else
      match step(s, ms[|ms| - 1], id)
      case None => ReversePass(step, s, ms[..|ms| - 1], id)
      case Some(ins) =>
        var rest := ReversePass(step, ins.text, ms[..|ms| - 1], id + 1);
        Pass(rest.text, [ins.timer] + rest.timers, rest.nextId)
  }

  /** The value of `inject_timer_buttons(content)`: the explicit pass, then the auto-detection on its result. */
  function InjectedTimers(content: string): Pass {
    var first := ExplicitPass(ExplicitReplacement, content, 0, 0);
    var auto := ReversePass(AutoStep, first.text, AutoMatches(first.text), first.nextId);
    Pass(auto.text, first.timers + auto.timers, auto.nextId)
  }

  /** A matched unit that starts with one of the unit words has a unit letter. */
  lemma UnitLetterOfWord(t: string, w: string)
    requires w in UnitWords && |w| <= |t| && Lower(t[..|w|]) == w
    ensures UnitLetter(t) == Some(w[0])
  {
    var u := Lower(t);
    LowerSlice(t, 0, |w|);
    var pre := if w == "minute" || w == "min" then "min" else if w == "hour" then "hour" else if w == "hr" then "hr" else "sec";
    assert w[..|pre|] == pre;
    assert u[..|pre|] == w[..|pre|];
  }

  /**
   * A unit word is read as hours, minutes or seconds by its first letter:
   * `h` for hour and hr, `m` for minute and min, `s` for second and sec.
   */
  lemma UnitWordLetter(t: string)
    requires IsUnitWord(Lower(t))
    ensures UnitLetter(t) == Some(Lower(t)[0])
  {
    var w :| w in UnitWords && IsFormOf(Lower(t), w);
    assert Lower(t)[..|w|] == w;
    LowerSlice(t, 0, |w|);
    UnitLetterOfWord(t, w);
  }

  /**
   * Every auto-detected match gets a timer: its unit word gives the letter,
   * so the duration is its number of hours, minutes or seconds.
   */
  lemma AutoMatchUnit(s: string, m: AutoMatch)
    requires m in AutoMatches(s)
    ensures HasLetter(m) && UnitLetter(m.unit) == Some(Lower(m.unit)[0])
  {
    AutoMatchesSound(s);
    var i :| 0 <= i < |AutoMatches(s)| && AutoMatches(s)[i] == m;
    var k, a, b, c, u, v := AutoAtSound(s, m.start);
    assert m.unit == s[u..v];
    UnitWordLetter(m.unit);
  }

  /** Whatever the unit alternation matches starts with one of the unit words. */
  lemma {:induction false} UnitEndLetter(s: string, u: nat, words: seq<string>)
    requires u <= |s|
    requires forall w :: w in words ==> w in UnitWords
    ensures UnitEnd(s, u, words).Some? ==> UnitLetter(s[u..UnitEnd(s, u, words).value]).Some?
    decreases |words|
  {
    if words != [] {
      var w := words[0];
      var v := u + |w|;
      var r := UnitEnd(s, u, words);
      if w != "" && HasAtIgnoringCase(s, u, w) && ((v < |s| && LowerChar(s[v]) == 's' && WordBoundary(s, v + 1)) || WordBoundary(s, v)) {
        assert words[0] in words;
        MatchedWordLetter(s, u, w, r.value);
      } else {
        assert r == UnitEnd(s, u, words[1..]);
        assert forall x :: x in words[1..] ==> x in words;
        UnitEndLetter(s, u, words[1..]);
      }
    }
  }

  lemma MatchedWordLetter(s: string, u: nat, w: string, e: nat)
    requires w in UnitWords && HasAtIgnoringCase(s, u, w) && u + |w| <= e <= |s|
    ensures UnitLetter(s[u..e]).Some?
  {
    assert s[u..e][..|w|] == s[u..u + |w|];
    UnitLetterOfWord(s[u..e], w);
  }

  /** A matched unit word has a unit letter. */
  predicate HasLetter(m: AutoMatch) {
    UnitLetter(m.unit).Some?
  }

  lemma UnitMatchLetter(s: string, p: nat, low: string, high: Option<string>, u: nat)
    requires u <= |s|
    ensures UnitMatch(s, p, low, high, u).Some? ==> HasLetter(UnitMatch(s, p, low, high, u).value)
  {
    UnitEndLetter(s, u, UnitWords);
  }

  lemma AfterKeywordLetter(s: string, p: nat, k: nat)
    requires p < k <= |s|
    ensures AfterKeyword(s, p, k).Some? ==> HasLetter(AfterKeyword(s, p, k).value)
  {
    match NumberAfter(s, k)
    case None =>
    case Some((a, b)) =>
      match RangeAfter(s, b)
      case None =>
      case Some(c) =>
        var high := if c > b then Some(s[b + 1..c]) else None;
        UnitMatchLetter(s, p, s[a..b], high, SpanSpaces(s, c));
  }

  predicate AllHaveLetters(ms: seq<AutoMatch>) {
    forall k :: 0 <= k < |ms| ==> HasLetter(ms[k])
  }

  lemma LettersCons(m: AutoMatch, rest: seq<AutoMatch>)
    requires HasLetter(m) && AllHaveLetters(rest)
    ensures AllHaveLetters([m] + rest)
  {
    var ms := [m] + rest;
    forall k | 0 <= k < |ms|
      ensures HasLetter(ms[k])
    {
      if k > 0 {
        assert ms[k] == rest[k - 1];
      }
    }
  }

  /** A matcher all of whose matches have a unit letter. */
  ghost predicate FindsLetters(at: (string, nat) --> Option<AutoMatch>) {
    forall s: string, p: nat :: p <= |s| && at.requires(s, p) && at(s, p).Some? ==> HasLetter(at(s, p).value)
  }

  lemma {:induction false} MatchesLetter(at: (string, nat) --> Option<AutoMatch>, s: string, p: nat)
    requires p <= |s| && Advances(at) && FindsLetters(at)
    ensures AllHaveLetters(Matches(at, s, p))
    decreases |s| - p
  {
    if p < |s| {
      match at(s, p)
      case None =>
        MatchesLetter(at, s, p + 1);
      case Some(m) =>
        MatchesLetter(at, s, m.end);
        LettersCons(m, Matches(at, s, m.end));
    }
  }

  /** Every auto-detected match has a unit letter, so the `continue` branch of the reverse loop is never taken. */
  lemma AutoMatchesLetter(s: string)
    ensures AllHaveLetters(AutoMatches(s))
  {
    forall t: string, p: nat | p <= |t| && AutoAt(t, p).Some?
      ensures HasLetter(AutoAt(t, p).value)
    {
      AfterKeywordLetter(t, p, KeywordEnd(t, p).value);
    }
    MatchesLetter(AutoAt, s, 0);
  }

  /** A step that gives the timer it records the id it is handed. */
  ghost predicate StepKeepsIds(step: (string, AutoMatch, nat) -> Option<Insertion>) {
    forall s, m, id :: step(s, m, id).Some? ==> step(s, m, id).value.timer.id == id
  }

  /** The reverse pass numbers its timers consecutively, the last element's first. */
  lemma {:induction false} ReverseNumbering(step: (string, AutoMatch, nat) -> Option<Insertion>, s: string, ms: seq<AutoMatch>, id: nat)
    requires StepKeepsIds(step)
    ensures NumberedFrom(ReversePass(step, s, ms, id), id)
    decreases |ms|
  {
    if ms != [] {
      match step(s, ms[|ms| - 1], id)
      case None =>
        ReverseNumbering(step, s, ms[..|ms| - 1], id);
      case Some(ins) =>
        var rest := ReversePass(step, ins.text, ms[..|ms| - 1], id + 1);
        ReverseNumbering(step, ins.text, ms[..|ms| - 1], id + 1);
        NumberedCons(ins.timer, rest.text, rest, id);
    }
  }

  /** When `step` records a timer for every element, the pass records one timer per element. */
  lemma {:induction false} ReverseCount(step: (string, AutoMatch, nat) -> Option<Insertion>, s: string, ms: seq<AutoMatch>, id: nat)
    requires forall t, k, i :: 0 <= k < |ms| ==> step(t, ms[k], i).Some?
    ensures |ReversePass(step, s, ms, id).timers| == |ms|
    decreases |ms|
  {
    if ms != [] {
      var init := ms[..|ms| - 1];
      assert forall k :: 0 <= k < |init| ==> init[k] == ms[k];
      var ins := step(s, ms[|ms| - 1], id).value;
      ReverseCount(step, ins.text, init, id + 1);
    }
  }

  /** `AutoStep` numbers its timer with the id it is handed and records one exactly when the unit has a letter. */
  lemma AutoStepSpec()
    ensures StepKeepsIds(AutoStep)
    ensures forall s, m, id :: AutoStep(s, m, id).Some? <==> HasLetter(m)
  {
  }

  /** Two consecutively numbered runs, one after the other, are one consecutively numbered run. */
  lemma NumberedAppend(first: Pass, second: Pass, id: nat)
    requires NumberedFrom(first, id) && NumberedFrom(second, first.nextId)
    ensures NumberedFrom(Pass(second.text, first.timers + second.timers, second.nextId), id)
  {
    var ts := first.timers + second.timers;
    forall k | 0 <= k < |ts|
      ensures ts[k].id == id + k
    {
      if k >= |first.timers| {
        assert ts[k] == second.timers[k - |first.timers|];
      }
    }
  }

  /** Every match with a unit letter records a timer. */
  lemma AutoPassCount(s: string, ms: seq<AutoMatch>, id: nat)
    requires AllHaveLetters(ms)
    ensures |ReversePass(AutoStep, s, ms, id).timers| == |ms|
  {
    AutoStepSpec();
    ReverseCount(AutoStep, s, ms, id);
  }

  /**
   * The timers of `inject_timer_buttons(content)` have the ids 0, 1, 2, ...
   * in the order they are recorded, explicit markers first, and the next id
   * is their number.
   */
  lemma InjectedNumbering(content: string)
    ensures NumberedFrom(InjectedTimers(content), 0)
  {
    var first := ExplicitPass(ExplicitReplacement, content, 0, 0);
    var auto := ReversePass(AutoStep, first.text, AutoMatches(first.text), first.nextId);
    ExplicitReplacementSpec();
    AutoStepSpec();
    ExplicitNumbering(ExplicitReplacement, content, 0, 0);
    ReverseNumbering(AutoStep, first.text, AutoMatches(first.text), first.nextId);
    NumberedAppend(first, auto, 0);
  }

  /**
   * Every explicit timer has a positive duration, and every auto-detected
   * match in the text left by the explicit pass records a timer.
   */
  lemma InjectedCounts(content: string)
    ensures var first := ExplicitPass(ExplicitReplacement, content, 0, 0);
            && PositiveDurations(first.timers)
            && |InjectedTimers(content).timers| == |first.timers| + |AutoMatches(first.text)|
  {
    var first := ExplicitPass(ExplicitReplacement, content, 0, 0);
    ExplicitReplacementSpec();
    ExplicitPositive(ExplicitReplacement, content, 0, 0);
    AutoMatchesLetter(first.text);
    AutoPassCount(first.text, AutoMatches(first.text), first.nextId);
  }

  /** The reverse loop of `inject_timer_buttons`, over the matches of `text`, last match first. */
  method AddButtons(step: (string, AutoMatch, nat) -> Option<Insertion>, text: string, matches: seq<AutoMatch>, firstId: nat)
    returns (modified: string, timers: seq<Timer>, nextId: nat)
    ensures modified == ReversePass(step, text, matches, firstId).text
    ensures timers == ReversePass(step, text, matches, firstId).timers
    ensures nextId == ReversePass(step, text, matches, firstId).nextId
  {
    modified := text;
    timers := [];
    nextId := firstId;
    ghost var goal := ReversePass(step, text, matches, firstId);
    TakeAll(matches);
    var j := |matches|;
    while j > 0
      invariant 0 <= j <= |matches|
      invariant ReversePass(step, modified, matches[..j], nextId).text == goal.text
      invariant ReversePass(step, modified, matches[..j], nextId).nextId == goal.nextId
      invariant timers + ReversePass(step, modified, matches[..j], nextId).timers == goal.timers
    {
      j := j - 1;
      assert matches[..j + 1][..j] == matches[..j];
      var inserted := step(modified, matches[j], nextId);
      if inserted.None? {
        continue;
      }
      ghost var rest := ReversePass(step, inserted.value.text, matches[..j], nextId + 1).timers;
      assert timers + ([inserted.value.timer] + rest) == (timers + [inserted.value.timer]) + rest;
      timers := timers + [inserted.value.timer];
      modified := inserted.value.text;
      nextId := nextId + 1;
    }
  }

  /** `inject_timer_buttons(content)`: explicit markers first, then the natural-language durations. */
  method InjectTimerButtons(content: string) returns (modified: string, timers: seq<Timer>)
    ensures modified == InjectedTimers(content).text
    ensures timers == InjectedTimers(content).timers
  {
    var first := ExplicitPass(ExplicitReplacement, content, 0, 0);
    var matches := AutoMatches(first.text);
    var autoTimers, nextId;
    modified, autoTimers, nextId := AddButtons(AutoStep, first.text, matches, first.nextId);
    timers := first.timers + autoTimers;
  }

  // ------------------------------------------------------- plain-text list

  /** The line of one shopping item: its display text, else its name. */
  function DisplayLine(item: Item): string {
    item.display.GetOr(item.name)
  }

  function Displays(items: seq<Item>): seq<string> {
    seq(|items|, k requires 0 <= k < |items| => DisplayLine(items[k]))
  }

  /** The lines of the plain-text list: one per shopping item, in order, then the pantry names sorted. */
  function ListLines(items: seq<Item>, pantry: seq<string>): seq<string> {
    Displays(items) + SortBy(pantry, TextKey)
  }

  /** `shopping_list_to_text(shopping_items, pantry_items)` */
  method ShoppingListToText(items: seq<Item>, pantry: seq<string>) returns (text: string)
    ensures text == Join(ListLines(items, pantry), "\n")
  {
    var lines: seq<string> := [];
    var i := 0;
    while i < |items|
      invariant 0 <= i <= |items|
      invariant |lines| == i
      invariant forall k :: 0 <= k < i ==> lines[k] == DisplayLine(items[k])
    {
      lines := lines + [items[i].display.GetOr(items[i].name)];
      i := i + 1;
    }
    assert lines == Displays(items);
    var sorted := SortBy(pantry, TextKey);
    var j := 0;
    while j < |sorted|
      invariant 0 <= j <= |sorted|
      invariant lines == Displays(items) + sorted[..j]
    {
      assert sorted[..j + 1] == sorted[..j] + [sorted[j]];
      lines := lines + [sorted[j]];
      j := j + 1;
    }
    TakeAll(sorted);
    text := Join(lines, "\n");
  }

  /**
   * The lines of the list: the items' display texts in their order, then
   * every pantry name exactly as often as it was given, in sorted order.
   */
  lemma ListLinesSpec(items: seq<Item>, pantry: seq<string>)
    ensures var lines := ListLines(items, pantry);
            && |lines| == |items| + |pantry|
            && (forall k :: 0 <= k < |items| ==> lines[k] == items[k].display.GetOr(items[k].name))
            && multiset(lines[|items|..]) == multiset(pantry)
            && SortedBy(lines[|items|..], TextKey)
  {
    var lines := ListLines(items, pantry);
    var sorted := SortBy(pantry, TextKey);
    var shown := Displays(items);
    assert lines == shown + sorted;
    assert |sorted| == |multiset(sorted)| == |multiset(pantry)| == |pantry|;
    assert lines[|items|..] == sorted;
    forall k | 0 <= k < |items|
      ensures lines[k] == items[k].display.GetOr(items[k].name)
    {
      assert lines[k] == shown[k];
    }
    SortBySorted(pantry, TextKey);
  }

  /** Splitting the text at its newlines gives the lines back, when no line holds a newline itself. */
  lemma ShoppingTextLines(items: seq<Item>, pantry: seq<string>)
    requires ListLines(items, pantry) != []
    requires forall k :: 0 <= k < |ListLines(items, pantry)| ==> '\n' !in ListLines(items, pantry)[k]
    ensures Split(Join(ListLines(items, pantry), "\n"), '\n') == ListLines(items, pantry)
  {
    assert "\n" == ['\n'];
    SplitJoin(ListLines(items, pantry), '\n');
  }

  /**
   * The text has no header and no trailing newline: it starts with the
   * first line and ends with the last, and it is empty when there are no lines.
   */
  lemma ShoppingTextEnds(items: seq<Item>, pantry: seq<string>)
    ensures var lines := ListLines(items, pantry);
            var text := Join(lines, "\n");
            && (lines == [] ==> text == "")
            && (lines != [] ==> StartsWith(text, lines[0]) && EndsWith(text, lines[|lines| - 1]))
  {
    var lines := ListLines(items, pantry);
    if lines != [] {
      JoinEnds(lines, "\n");
    }
  }
}
