/**
 * QUANTITY_PATTERN of src/services/parser.py, applied with `re.match` and the
 * IGNORECASE flag:
 *
 *   ^ (bullet)? (mixed | fraction | range | number)? \s* (unit (\s|$))? (.+)$
 *
 * `MatchQuantityPattern` follows the backtracking matcher: every part of the
 * pattern offers its candidates in the order the matcher tries them (longest
 * first for a greedy quantifier, left to right for an alternation, "present"
 * before "absent" for an optional part), and the first combination whose last
 * part `(.+)$` succeeds is the match. `Scan` is an independent, direct reading
 * of the same pattern for the lines the parser feeds it, and `MatchIsScan`
 * proves the two agree.
 */
module QuantityPattern {
  import opened Wrappers
  import opened Text

  /** The text captured by the quantity alternative that matched (groups 1 to 6). */
  datatype QuantityText =
    | Mixed(whole: string, fraction: string)
    | Fraction(fraction: string)
    | Range(low: string, high: string)
    | Number(number: string)
    | NoQuantity

  /** The groups of a successful match: the quantity, the unit group (7) and the name group (8). */
  datatype Match = Match(quantity: QuantityText, unit: Option<string>, name: string)

  /** A way the quantity part can match, and the index just past it. */
  datatype QStep = QStep(quantity: QuantityText, end: nat)

  /** A way the unit part can match, and the index just past it. */
  datatype UStep = UStep(unit: Option<string>, end: nat)

  /** Every quantity step ends in `lo..hi`. */
  predicate QEndsIn(qs: seq<QStep>, lo: nat, hi: nat) {
    forall q | q in qs :: lo <= q.end <= hi
  }

  /** Every unit step ends in `lo..hi`. */
  predicate UEndsIn(us: seq<UStep>, lo: nat, hi: nat) {
    forall u | u in us :: lo <= u.end <= hi
  }

  /** `[hi, hi - 1, ..., lo]`: the end positions a greedy repetition tries, longest first. */
  function Countdown(hi: nat, lo: nat): (r: seq<nat>)
    ensures |r| == if lo <= hi then hi - lo + 1 else 0
    ensures forall k :: 0 <= k < |r| ==> r[k] == hi - k
    decreases hi + 1 - lo
  {
    if hi < lo then []
    else if hi == lo then [hi]
    else [hi] + Countdown(hi - 1, lo)
  }

  /** `$` without MULTILINE: the end of the text, or just before a final newline. */
  predicate AtDollar(s: string, i: nat) {
    i == |s| || (i + 1 == |s| && s[i] == '\n')
  }

  /** `(?:[-*]\s*)?`: after a bullet and each shorter run of spaces, then without a bullet. */
  function Bullets(s: string): (r: seq<nat>)
    ensures |r| > 0 && r[|r| - 1] == 0
    ensures forall k :: 0 <= k < |r| ==> r[k] <= |s|
  {
    if |s| > 0 && (s[0] == '-' || s[0] == '*') then Countdown(SpanSpaces(s, 1), 1) + [0] else [0]
  }

  /**
   * `(\d+)\s+(\d+/\d+)`. Only the longest runs of the first three repetitions
   * can be followed by what comes next in the pattern (a shorter digit run is
   * followed by a digit, a shorter space run by a space), so only the last
   * digit run offers several lengths.
   */
  function MixedSteps(s: string, p: nat): (r: seq<QStep>)
    requires p <= |s|
    ensures QEndsIn(r, p + 1, |s|)
  {
    var a := SpanDigits(s, p);
    var b := SpanSpaces(s, a);
    var c := SpanDigits(s, b);
    if a == p || b == a || c == b || c == |s| || s[c] != '/' then []
    else
      var d := SpanDigits(s, c + 1);
      seq(d - (c + 1), k requires 0 <= k < d - (c + 1) => QStep(Mixed(s[p..a], s[b..d - k]), d - k))
  }

  /** `(\d+/\d+)` */
  function FractionSteps(s: string, p: nat): (r: seq<QStep>)
    requires p <= |s|
    ensures QEndsIn(r, p + 1, |s|)
  {
    var a := SpanDigits(s, p);
    if a == p || a == |s| || s[a] != '/' then []
    else
      var d := SpanDigits(s, a + 1);
      seq(d - (a + 1), k requires 0 <= k < d - (a + 1) => QStep(Fraction(s[p..d - k]), d - k))
  }

  /**
   * The end positions `\d+(?:\.\d+)?` tries: the longest digit run with each
   * decimal part, longest first, then the digit run alone and each shorter one.
   */
  function NumberEnds(s: string, p: nat): (r: seq<nat>)
    requires p <= |s|
    ensures forall k :: 0 <= k < |r| ==> p < r[k] <= |s|
  {
    var a := SpanDigits(s, p);
    if a == p then []
    else
      (if a + 1 < |s| && s[a] == '.' && IsDigit(s[a + 1]) then Countdown(SpanDigits(s, a + 1), a + 2) else [])
      + Countdown(a, p + 1)
  }

  /**
   * The one end of `\d+(?:\.\d+)?` that `\s*-` can follow: any shorter choice
   * is followed by a digit or by the decimal point.
   */
  function FirstNumberEnd(s: string, p: nat): (r: Option<nat>)
    requires p <= |s|
    ensures r.Some? ==> p < r.value <= |s|
  {
    var a := SpanDigits(s, p);
    if a == p then None
    else if a + 1 < |s| && s[a] == '.' && IsDigit(s[a + 1]) then Some(SpanDigits(s, a + 1))
    else Some(a)
  }

  /** `(\d+(?:\.\d+)?)\s*-\s*(\d+(?:\.\d+)?)` */
  function RangeSteps(s: string, p: nat): (r: seq<QStep>)
    requires p <= |s|
    ensures QEndsIn(r, p + 1, |s|)
  {
    match FirstNumberEnd(s, p)
    case None => []
    case Some(e) =>
      var g := SpanSpaces(s, e);
      if g == |s| || s[g] != '-' then []
      else
        var h := SpanSpaces(s, g + 1);
        var ends := NumberEnds(s, h);
        seq(|ends|, k requires 0 <= k < |ends| => QStep(Range(s[p..e], s[h..ends[k]]), ends[k]))
  }

  /** `(\d+(?:\.\d+)?)` */
  function NumberSteps(s: string, p: nat): (r: seq<QStep>)
    requires p <= |s|
    ensures QEndsIn(r, p + 1, |s|)
  {
    var ends := NumberEnds(s, p);
    seq(|ends|, k requires 0 <= k < |ends| => QStep(Number(s[p..ends[k]]), ends[k]))
  }

  /** The optional quantity group: its four alternatives in order, then no quantity. */
  function QSteps(s: string, p: nat): (r: seq<QStep>)
    requires p <= |s|
    ensures |r| > 0 && r[|r| - 1] == QStep(NoQuantity, p)
    ensures forall q | q in r :: p <= q.end <= |s|
  {
    MixedSteps(s, p) + FractionSteps(s, p) + RangeSteps(s, p) + NumberSteps(s, p) + [QStep(NoQuantity, p)]
  }

  /** One alternative of the unit group: `fl\s*oz` or a literal word. */
  datatype UnitAlternative = FlOz | Word(word: string)

  /** The unit alternatives in the order of the pattern, each `s?` tried with the `s` first. */
  const UnitAlternatives: seq<UnitAlternative> := [
    FlOz, Word("oz"), Word("lb"), Word("lbs"), Word("lb"), Word("pounds"), Word("pound"),
    Word("g"), Word("kg"), Word("ml"), Word("l"), Word("liters"), Word("liter"),
    Word("cups"), Word("cup"), Word("tbsp"), Word("tablespoons"), Word("tablespoon"),
    Word("tsp"), Word("teaspoons"), Word("teaspoon"), Word("cloves"), Word("clove"),
    Word("bunch"), Word("pinch"), Word("can"), Word("cans"), Word("can"), Word("package"), Word("pkg")]

  /** Where a unit alternative ends when it matches at `p`, ignoring case. */
  function AlternativeEnd(s: string, p: nat, alt: UnitAlternative): (r: Option<nat>)
    requires p <= |s|
    ensures r.Some? ==> p <= r.value <= |s|
  {
    match alt
    case FlOz =>
      if HasAtIgnoringCase(s, p, "fl") then
        var g := SpanSpaces(s, p + 2);
        if HasAtIgnoringCase(s, g, "oz") then Some(g + 2) else None
      else None
    case Word(w) =>
      if HasAtIgnoringCase(s, p, w) then Some(p + |w|) else None
  }

  /**
   * The unit steps of one alternative that matched from `p` to `u`, then
   * `(?:\s|$)`: one whitespace character first, then the end of the text.
   */
  function BoundarySteps(s: string, p: nat, u: nat): (r: seq<UStep>)
    requires p <= u <= |s|
    ensures UEndsIn(r, p, |s|)
  {
    (if u < |s| && IsSpace(s[u]) then [UStep(Some(s[p..u + 1]), u + 1)] else [])
    + (if AtDollar(s, u) then [UStep(Some(s[p..u]), u)] else [])
  }

  /**
   * The unit group tried at `p` with the alternatives `alts`, in order, and
   * then without a unit. The matcher uses `UnitAlternatives`.
   */
  function USteps(s: string, p: nat, alts: seq<UnitAlternative>): (r: seq<UStep>)
    requires p <= |s|
    ensures |r| > 0 && r[|r| - 1] == UStep(None, p)
    ensures UEndsIn(r, p, |s|)
    decreases |alts|
  {
    if alts == [] then [UStep(None, p)]
    else
      var first :=
        match AlternativeEnd(s, p, alts[0])
        case None => []
        case Some(u) => BoundarySteps(s, p, u);
      first + USteps(s, p, alts[1..])
  }

  /**
   * `(.+)$` from `p`: `.` stops at a newline, so the name runs to the first
   * newline, which must be the end of the text or a final newline.
   */
  function Tail(s: string, p: nat): (r: Option<string>)
    requires p <= |s|
    ensures r.Some? ==> |r.value| > 0 && '\n' !in r.value
  {
    var e := LineEnd(s, p);
    if p < e && AtDollar(s, e) then Some(s[p..e]) else None
  }

  function TryUnits(s: string, quantity: QuantityText, us: seq<UStep>): (r: Option<Match>)
    requires UEndsIn(us, 0, |s|)
    ensures r.Some? ==> r.value.quantity == quantity && |r.value.name| > 0 && '\n' !in r.value.name
    decreases |us|
  {
    if us == [] then None
    else
      match Tail(s, us[0].end)
      case Some(name) => Some(Match(quantity, us[0].unit, name))
      case None => TryUnits(s, quantity, us[1..])
  }

  function TrySpaces(s: string, alts: seq<UnitAlternative>, quantity: QuantityText, ws: seq<nat>): (r: Option<Match>)
    requires forall k :: 0 <= k < |ws| ==> ws[k] <= |s|
    decreases |ws|
  {
    if ws == [] then None
    else
      match TryUnits(s, quantity, USteps(s, ws[0], alts))
      case Some(m) => Some(m)
      case None => TrySpaces(s, alts, quantity, ws[1..])
  }

  function TryQuantities(s: string, alts: seq<UnitAlternative>, qs: seq<QStep>): (r: Option<Match>)
    requires QEndsIn(qs, 0, |s|)
    decreases |qs|
  {
    if qs == [] then None
    else
      var q := qs[0];
      match TrySpaces(s, alts, q.quantity, Countdown(SpanSpaces(s, q.end), q.end))
      case Some(m) => Some(m)
      case None => TryQuantities(s, alts, qs[1..])
  }

  /** The rest of the pattern tried with the quantity starting at `b`. */
  function MatchFrom(s: string, alts: seq<UnitAlternative>, b: nat): Option<Match>
    requires b <= |s|
  {
    var qs := QSteps(s, b);
    assert QEndsIn(qs, 0, |s|);
    TryQuantities(s, alts, qs)
  }

  /** The bullet choices `bs` tried in order with `from`: the first that leads to a match gives it. */
  function TryBullets(bs: seq<nat>, from: nat --> Option<Match>): (r: Option<Match>)
    requires forall k :: 0 <= k < |bs| ==> from.requires(bs[k])
    decreases |bs|
  {
    if bs == [] then None
    else
      match from(bs[0])
      case Some(m) => Some(m)
      case None => TryBullets(bs[1..], from)
  }

  /** The backtracking match of the whole pattern with the unit alternatives `alts`. */
  function MatchWith(s: string, alts: seq<UnitAlternative>): Option<Match> {
    TryBullets(Bullets(s), StartsFrom(s, alts))
  }

  /** `MatchFrom` as a function of where the quantity starts. */
  function StartsFrom(s: string, alts: seq<UnitAlternative>): nat --> Option<Match> {
    (b: nat) requires b <= |s| => MatchFrom(s, alts, b)
  }

  /** `QUANTITY_PATTERN.match(s)`: the first way through the pattern, in the matcher's order. */
  function MatchQuantityPattern(s: string): Option<Match> {
    MatchWith(s, UnitAlternatives)
  }

  // The direct reading: each part takes its first choice that still leaves
  // at least one character for the name.

  function FirstQuantity(qs: seq<QStep>, n: nat): (r: Option<QStep>)
    ensures r.Some? ==> r.value in qs && r.value.end < n
    ensures r.None? <==> forall k :: 0 <= k < |qs| ==> qs[k].end >= n
    decreases |qs|
  {
    if qs == [] then None
    else if qs[0].end < n then Some(qs[0])
    else FirstQuantity(qs[1..], n)
  }

  function FirstUnit(us: seq<UStep>, n: nat): (r: Option<UStep>)
    ensures r.Some? ==> r.value in us && r.value.end < n
    ensures r.None? <==> forall k :: 0 <= k < |us| ==> us[k].end >= n
    decreases |us|
  {
    if us == [] then None
    else if us[0].end < n then Some(us[0])
    else FirstUnit(us[1..], n)
  }

  /** Where the quantity starts: after a bullet and its spaces, unless nothing would be left. */
  function BulletEnd(s: string): (b: nat)
    requires |s| > 0
    ensures b < |s|
  {
    if (s[0] == '-' || s[0] == '*') && SpanSpaces(s, 1) < |s| then SpanSpaces(s, 1) else 0
  }

  /** What follows a chosen quantity: all the spaces, then the first unit choice that leaves a name. */
  function ScanRest(s: string, alts: seq<UnitAlternative>, q: QStep): (m: Match)
    requires IsStripped(s) && q.end < |s|
    ensures m.quantity == q.quantity && |m.name| > 0 && EndsWith(s, m.name)
  {
    var w := SpanSpaces(s, q.end);
    assert w < |s| by {
      assert !IsSpace(s[|s| - 1]);
    }
    var us := USteps(s, w, alts);
    assert us[|us| - 1].end < |s|;
    var u := FirstUnit(us, |s|).value;
    Match(q.quantity, u.unit, s[u.end..])
  }

  /** The direct reading of a stripped line with the unit alternatives `alts`. */
  function ScanWith(s: string, alts: seq<UnitAlternative>): (m: Match)
    requires |s| > 0 && IsStripped(s)
    ensures |m.name| > 0 && EndsWith(s, m.name)
  {
    var qs := QSteps(s, BulletEnd(s));
    var first := FirstQuantity(qs, |s|);
    assert first.Some? by {
      assert qs[|qs| - 1].end < |s|;
    }
    ScanRest(s, alts, first.value)
  }

  /** The match of a stripped line, read directly. */
  function Scan(s: string): (m: Match)
    requires |s| > 0 && IsStripped(s)
    ensures |m.name| > 0 && EndsWith(s, m.name)
  {
    ScanWith(s, UnitAlternatives)
  }

  lemma TailWithoutNewline(s: string, p: nat)
    requires p <= |s| && '\n' !in s
    ensures Tail(s, p) == if p < |s| then Some(s[p..]) else None
  {
    var e := LineEnd(s, p);
    forall k | 0 <= k < |s| ensures s[k] != '\n' {
      assert s[k] in s;
    }
    assert e == |s|;
    assert s[p..e] == s[p..];
  }

  lemma {:induction false} TryUnitsFirst(s: string, quantity: QuantityText, us: seq<UStep>)
    requires '\n' !in s
    requires UEndsIn(us, 0, |s|)
    ensures FirstUnit(us, |s|).None? ==> TryUnits(s, quantity, us).None?
    ensures FirstUnit(us, |s|).Some? ==>
              TryUnits(s, quantity, us) == Some(Match(quantity, FirstUnit(us, |s|).value.unit, s[FirstUnit(us, |s|).value.end..]))
    decreases |us|
  {
    if us != [] {
      TailWithoutNewline(s, us[0].end);
      TryUnitsFirst(s, quantity, us[1..]);
    }
  }

  /** From a quantity end, the spaces and unit parts succeed exactly when a character is left. */
  lemma TrySpacesScan(s: string, alts: seq<UnitAlternative>, q: QStep)
    requires |s| > 0 && IsStripped(s) && '\n' !in s && q.end <= |s|
    ensures q.end == |s| ==> TrySpaces(s, alts, q.quantity, Countdown(SpanSpaces(s, q.end), q.end)).None?
    ensures q.end < |s| ==> TrySpaces(s, alts, q.quantity, Countdown(SpanSpaces(s, q.end), q.end)) == Some(ScanRest(s, alts, q))
  {
    var ws := Countdown(SpanSpaces(s, q.end), q.end);
    if q.end < |s| {
      var w := SpanSpaces(s, q.end);
      assert w < |s| by {
        assert !IsSpace(s[|s| - 1]);
      }
      assert ws[0] == w;
      TryUnitsFirst(s, q.quantity, USteps(s, w, alts));
    } else {
      assert ws == [|s|];
      TryUnitsFirst(s, q.quantity, USteps(s, |s|, alts));
      assert FirstUnit(USteps(s, |s|, alts), |s|).None?;
    }
  }

  lemma {:induction false} TryQuantitiesFirst(s: string, alts: seq<UnitAlternative>, qs: seq<QStep>)
    requires |s| > 0 && IsStripped(s) && '\n' !in s
    requires QEndsIn(qs, 0, |s|)
    ensures FirstQuantity(qs, |s|).None? ==> TryQuantities(s, alts, qs).None?
    ensures FirstQuantity(qs, |s|).Some? ==>
              TryQuantities(s, alts, qs) == Some(ScanRest(s, alts, FirstQuantity(qs, |s|).value))
    decreases |qs|
  {
    if qs != [] {
      var q := qs[0];
      TrySpacesScan(s, alts, q);
      if q.end >= |s| {
        assert TryQuantities(s, alts, qs) == TryQuantities(s, alts, qs[1..]);
        assert FirstQuantity(qs, |s|) == FirstQuantity(qs[1..], |s|);
        TryQuantitiesFirst(s, alts, qs[1..]);
      }
    }
  }

  /** The first bullet choice is where the direct reading starts, unless the line is a lone bullet. */
  lemma FirstBullet(s: string)
    requires |s| > 0 && IsStripped(s)
    ensures var bs := Bullets(s);
            bs[0] == BulletEnd(s) || (|bs| == 2 && bs[0] == |s| && bs[1] == BulletEnd(s))
  {
    if s[0] == '-' || s[0] == '*' {
      var e := SpanSpaces(s, 1);
      if e == |s| {
        assert |s| == 1 by {
          assert !IsSpace(s[|s| - 1]);
        }
        assert Countdown(e, 1) == [1];
      }
    }
  }

  /** Nothing is left for the name when the quantity part starts at the end. */
  lemma NothingAtEnd(s: string, alts: seq<UnitAlternative>)
    requires |s| > 0 && IsStripped(s) && '\n' !in s
    ensures MatchFrom(s, alts, |s|).None?
  {
    var qs := QSteps(s, |s|);
    TryQuantitiesFirst(s, alts, qs);
    assert FirstQuantity(qs, |s|).None?;
  }

  /** With a match found from the direct reading's start, the whole match is the direct reading. */
  lemma MatchFromBulletEnd(s: string, alts: seq<UnitAlternative>)
    requires |s| > 0 && IsStripped(s) && '\n' !in s
    ensures MatchFrom(s, alts, BulletEnd(s)) == Some(ScanWith(s, alts))
  {
    var qs := QSteps(s, BulletEnd(s));
    TryQuantitiesFirst(s, alts, qs);
    assert FirstQuantity(qs, |s|).Some? by {
      assert qs[|qs| - 1].end < |s|;
    }
    assert ScanWith(s, alts) == ScanRest(s, alts, FirstQuantity(qs, |s|).value);
  }

  /** Bullet choices before `b` that lead to no match are passed over. */
  lemma TryBulletsSkip(bs: seq<nat>, from: nat --> Option<Match>, b: nat)
    requires forall k :: 0 <= k < |bs| ==> from.requires(bs[k])
    requires from.requires(b) && from(b).Some?
    requires |bs| > 0
    requires bs[0] == b || (|bs| == 2 && bs[1] == b && from(bs[0]).None?)
    ensures TryBullets(bs, from) == from(b)
  {
    if bs[0] != b {
      assert bs[1..] == [b];
    }
  }

  /** The bullet choices give the match found from where the direct reading starts: the direct reading. */
  lemma MatchFromBullets(s: string, alts: seq<UnitAlternative>)
    requires |s| > 0 && IsStripped(s) && '\n' !in s
    ensures MatchWith(s, alts) == Some(ScanWith(s, alts))
  {
    var from := StartsFrom(s, alts);
    MatchFromBulletEnd(s, alts);
    NothingAtEnd(s, alts);
    StartsFromAt(s, alts, BulletEnd(s));
    StartsFromAt(s, alts, |s|);
    BulletsPick(s, from);
  }

  lemma StartsFromAt(s: string, alts: seq<UnitAlternative>, b: nat)
    requires b <= |s|
    ensures forall c: nat :: c <= |s| ==> StartsFrom(s, alts).requires(c)
    ensures StartsFrom(s, alts)(b) == MatchFrom(s, alts, b)
  {
  }

  /** When the start after the bullet gives a match and the end of the line gives none, the bullet choices give the first. */
  lemma BulletsPick(s: string, from: nat --> Option<Match>)
    requires |s| > 0 && IsStripped(s)
    requires forall b: nat :: b <= |s| ==> from.requires(b)
    requires from(BulletEnd(s)).Some? && from(|s|).None?
    ensures TryBullets(Bullets(s), from) == from(BulletEnd(s))
  {
    FirstBullet(s);
    TryBulletsSkip(Bullets(s), from, BulletEnd(s));
  }

  /**
   * On a non-empty stripped line without newlines, the backtracking match
   * always succeeds, and it is the direct reading.
   */
  lemma MatchIsScan(s: string)
    requires |s| > 0 && IsStripped(s) && '\n' !in s
    ensures MatchQuantityPattern(s) == Some(Scan(s))
  {
    MatchFromBullets(s, UnitAlternatives);
  }

  /** What the parser relies on: every such line matches, with a non-empty name that ends the line. */
  lemma MatchFacts(s: string)
    requires |s| > 0 && IsStripped(s) && '\n' !in s
    ensures MatchQuantityPattern(s).Some?
    ensures var m := MatchQuantityPattern(s).value;
            |m.name| > 0 && EndsWith(s, m.name) && WellFormed(m.quantity)
  {
    MatchIsScan(s);
    ScanWellFormed(s);
  }

  // What the quantity groups can capture: the texts `float()` and
  // `parse_fraction` are given.

  /** `\d+(?:\.\d+)?` */
  predicate IsDecimalText(t: string) {
    var i := IndexOf(t, '.', 0);
    0 < i && (i == |t| || i + 1 < |t|) && forall k :: 0 <= k < |t| && k != i ==> IsDigit(t[k])
  }

  /** `\d+/\d+` */
  predicate IsFractionText(t: string) {
    var i := IndexOf(t, '/', 0);
    0 < i && i + 1 < |t| && forall k :: 0 <= k < |t| && k != i ==> IsDigit(t[k])
  }

  /** `\d+` */
  predicate IsDigitText(t: string) {
    |t| > 0 && AllDigits(t)
  }

  predicate WellFormed(q: QuantityText) {
    match q
    case Mixed(whole, fraction) => IsDigitText(whole) && IsFractionText(fraction)
    case Fraction(fraction) => IsFractionText(fraction)
    case Range(low, high) => IsDecimalText(low) && IsDecimalText(high)
    case Number(number) => IsDecimalText(number)
    case NoQuantity => true
  }

  predicate DigitsIn(s: string, i: nat, j: nat)
    requires i <= j <= |s|
  {
    forall k :: i <= k < j ==> IsDigit(s[k])
  }

  lemma SpanIsDigits(s: string, i: nat, j: nat)
    requires i <= |s| && i <= j <= SpanDigits(s, i)
    ensures DigitsIn(s, i, j)
  {
  }

  lemma DigitRunIsDecimal(s: string, p: nat, e: nat)
    requires p < e <= |s| && DigitsIn(s, p, e)
    ensures IsDigitText(s[p..e]) && IsDecimalText(s[p..e])
  {
  }

  lemma PointIsDecimal(s: string, p: nat, a: nat, e: nat)
    requires p < a && a + 1 < e <= |s| && DigitsIn(s, p, a) && s[a] == '.' && DigitsIn(s, a + 1, e)
    ensures IsDecimalText(s[p..e])
  {
    var t := s[p..e];
    assert t[a - p] == '.';
    assert IndexOf(t, '.', 0) == a - p;
  }

  lemma SlashIsFraction(s: string, p: nat, a: nat, e: nat)
    requires p < a && a + 1 < e <= |s| && DigitsIn(s, p, a) && s[a] == '/' && DigitsIn(s, a + 1, e)
    ensures IsFractionText(s[p..e])
  {
    var t := s[p..e];
    assert t[a - p] == '/';
    assert IndexOf(t, '/', 0) == a - p;
  }

  lemma NumberEndsWellFormed(s: string, p: nat, k: nat)
    requires p <= |s| && k < |NumberEnds(s, p)|
    ensures IsDecimalText(s[p..NumberEnds(s, p)[k]])
  {
    var a := SpanDigits(s, p);
    var e := NumberEnds(s, p)[k];
    if e <= a {
      DigitRunIsDecimal(s, p, e);
    } else {
      PointIsDecimal(s, p, a, e);
    }
  }

  lemma FirstNumberWellFormed(s: string, p: nat)
    requires p <= |s| && FirstNumberEnd(s, p).Some?
    ensures IsDecimalText(s[p..FirstNumberEnd(s, p).value])
  {
    var a := SpanDigits(s, p);
    var e := FirstNumberEnd(s, p).value;
    if e == a {
      DigitRunIsDecimal(s, p, e);
    } else {
      PointIsDecimal(s, p, a, e);
    }
  }

  // Each alternative: the k-th choice has the shape `...At` names, and that
  // shape is well formed.

  predicate MixedParts(s: string, p: nat, k: nat) {
    p <= |s| &&
    var a := SpanDigits(s, p);
    var b := SpanSpaces(s, a);
    var c := SpanDigits(s, b);
    p < a && b < c < |s| && s[c] == '/' && c + 1 < SpanDigits(s, c + 1) - k
  }

  function MixedAt(s: string, p: nat, k: nat): QuantityText
    requires MixedParts(s, p, k)
  {
    var b := SpanSpaces(s, SpanDigits(s, p));
    var c := SpanDigits(s, b);
    Mixed(s[p..SpanDigits(s, p)], s[b..SpanDigits(s, c + 1) - k])
  }

  lemma MixedAtWellFormed(s: string, p: nat, k: nat)
    requires MixedParts(s, p, k)
    ensures WellFormed(MixedAt(s, p, k))
  {
    var a := SpanDigits(s, p);
    var b := SpanSpaces(s, a);
    var c := SpanDigits(s, b);
    var e := SpanDigits(s, c + 1) - k;
    SpanIsDigits(s, p, a);
    SpanIsDigits(s, b, c);
    SpanIsDigits(s, c + 1, e);
    var t := MixedAt(s, p, k);
    assert t.whole == s[p..a] && t.fraction == s[b..e];
    DigitRunIsDecimal(s, p, a);
    SlashIsFraction(s, b, c, e);
  }

  lemma MixedWellFormed(s: string, p: nat)
    requires p <= |s|
    ensures forall q | q in MixedSteps(s, p) :: WellFormed(q.quantity)
  {
    var r := MixedSteps(s, p);
    forall k | 0 <= k < |r| ensures WellFormed(r[k].quantity) {
      assert MixedParts(s, p, k) && r[k].quantity == MixedAt(s, p, k);
      MixedAtWellFormed(s, p, k);
    }
  }

  predicate FractionParts(s: string, p: nat, k: nat) {
    p <= |s| &&
    var a := SpanDigits(s, p);
    p < a < |s| && s[a] == '/' && a + 1 < SpanDigits(s, a + 1) - k
  }

  function FractionAt(s: string, p: nat, k: nat): QuantityText
    requires FractionParts(s, p, k)
  {
    Fraction(s[p..SpanDigits(s, SpanDigits(s, p) + 1) - k])
  }

  lemma FractionAtWellFormed(s: string, p: nat, k: nat)
    requires FractionParts(s, p, k)
    ensures WellFormed(FractionAt(s, p, k))
  {
    var a := SpanDigits(s, p);
    var e := SpanDigits(s, a + 1) - k;
    assert DigitsIn(s, p, a) && DigitsIn(s, a + 1, e);
    SlashIsFraction(s, p, a, e);
    assert FractionAt(s, p, k) == Fraction(s[p..e]);
  }

  lemma FractionWellFormed(s: string, p: nat)
    requires p <= |s|
    ensures forall q | q in FractionSteps(s, p) :: WellFormed(q.quantity)
  {
    var r := FractionSteps(s, p);
    forall k | 0 <= k < |r| ensures WellFormed(r[k].quantity) {
      assert FractionParts(s, p, k) && r[k].quantity == FractionAt(s, p, k);
      FractionAtWellFormed(s, p, k);
    }
  }

  /** Where the second number of a range starts. */
  function RangeHigh(s: string, p: nat): (h: nat)
    requires p <= |s| && FirstNumberEnd(s, p).Some?
    requires var g := SpanSpaces(s, FirstNumberEnd(s, p).value); g < |s|
    ensures h <= |s|
  {
    SpanSpaces(s, SpanSpaces(s, FirstNumberEnd(s, p).value) + 1)
  }

  predicate RangeParts(s: string, p: nat, k: nat) {
    p <= |s| && FirstNumberEnd(s, p).Some? &&
    var g := SpanSpaces(s, FirstNumberEnd(s, p).value);
    g < |s| && k < |NumberEnds(s, RangeHigh(s, p))|
  }

  function RangeAt(s: string, p: nat, k: nat): QuantityText
    requires RangeParts(s, p, k)
  {
    var h := RangeHigh(s, p);
    Range(s[p..FirstNumberEnd(s, p).value], s[h..NumberEnds(s, h)[k]])
  }

  lemma RangeAtWellFormed(s: string, p: nat, k: nat)
    requires RangeParts(s, p, k)
    ensures WellFormed(RangeAt(s, p, k))
  {
    FirstNumberWellFormed(s, p);
    NumberEndsWellFormed(s, RangeHigh(s, p), k);
  }

  lemma RangeWellFormed(s: string, p: nat)
    requires p <= |s|
    ensures forall q | q in RangeSteps(s, p) :: WellFormed(q.quantity)
  {
    var r := RangeSteps(s, p);
    forall k | 0 <= k < |r| ensures WellFormed(r[k].quantity) {
      assert RangeParts(s, p, k) && r[k].quantity == RangeAt(s, p, k);
      RangeAtWellFormed(s, p, k);
    }
  }

  lemma NumberWellFormed(s: string, p: nat)
    requires p <= |s|
    ensures forall q | q in NumberSteps(s, p) :: WellFormed(q.quantity)
  {
    var r := NumberSteps(s, p);
    forall k | 0 <= k < |r| ensures WellFormed(r[k].quantity) {
      NumberEndsWellFormed(s, p, k);
      assert r[k].quantity == Number(s[p..NumberEnds(s, p)[k]]);
    }
  }

  /** Every quantity the pattern can capture is digits, a decimal or a fraction of digits. */
  lemma QStepsWellFormed(s: string, p: nat)
    requires p <= |s|
    ensures forall q | q in QSteps(s, p) :: WellFormed(q.quantity)
  {
    MixedWellFormed(s, p);
    FractionWellFormed(s, p);
    RangeWellFormed(s, p);
    NumberWellFormed(s, p);
  }

  lemma ScanWithWellFormed(s: string, alts: seq<UnitAlternative>)
    requires |s| > 0 && IsStripped(s)
    ensures WellFormed(ScanWith(s, alts).quantity)
  {
    var qs := QSteps(s, BulletEnd(s));
    assert qs[|qs| - 1].end < |s|;
    var q := FirstQuantity(qs, |s|).value;
    assert ScanWith(s, alts).quantity == q.quantity;
    QStepsWellFormed(s, BulletEnd(s));
    assert q in qs;
  }

  /** The quantity read from a line is one the pattern can capture. */
  lemma ScanWellFormed(s: string)
    requires |s| > 0 && IsStripped(s)
    ensures WellFormed(Scan(s).quantity)
  {
    ScanWithWellFormed(s, UnitAlternatives);
  }

  /** With no whitespace at or after `p`, every unit choice runs to the end of the text. */
  lemma {:induction false} UnitsToEnd(s: string, p: nat, alts: seq<UnitAlternative>)
    requires p <= |s| && forall k :: p <= k < |s| ==> !IsSpace(s[k])
    ensures forall st | st in USteps(s, p, alts) :: if st.unit.Some? then st.end == |s| else st.end == p
    decreases |alts|
  {
    if alts != [] {
      UnitsToEnd(s, p, alts[1..]);
    }
  }

  /**
   * A unit counts only when whitespace and a name follow it: when what follows
   * the quantity and its spaces is a single word, there is no unit and the word
   * is the name, even when it is a unit word.
   */
  lemma LastWordIsName(s: string, alts: seq<UnitAlternative>, q: QStep)
    requires IsStripped(s) && q.end < |s|
    requires forall k :: SpanSpaces(s, q.end) <= k < |s| ==> !IsSpace(s[k])
    ensures ScanRest(s, alts, q) == Match(q.quantity, None, s[SpanSpaces(s, q.end)..])
  {
    var w := SpanSpaces(s, q.end);
    assert w < |s| by {
      assert !IsSpace(s[|s| - 1]);
    }
    var us := USteps(s, w, alts);
    UnitsToEnd(s, w, alts);
    assert us[|us| - 1].end < |s|;
    var u := FirstUnit(us, |s|).value;
    assert u in us;
    assert u.unit.None? && u.end == w;
  }

  /**
   * A number, one space and a single word that does not start a quantity: the
   * number is the quantity, there is no unit, and the word is the name.
   */
  lemma NumberThenWord(s: string, a: nat, alts: seq<UnitAlternative>)
    requires 0 < a && a + 1 < |s| && s[a] == ' '
    requires forall k :: 0 <= k < a ==> IsDigit(s[k])
    requires forall k :: a < k < |s| ==> !IsSpace(s[k])
    requires !IsDigit(s[a + 1]) && s[a + 1] != '-'
    ensures IsStripped(s)
    ensures ScanWith(s, alts) == Match(Number(s[..a]), None, s[a + 1..])
  {
    NumberWordShape(s, a);
    NumberWordQuantity(s, a);
    var q := QStep(Number(s[0..a]), a);
    assert ScanWith(s, alts) == ScanRest(s, alts, q);
    LastWordIsName(s, alts, q);
    assert s[0..a] == s[..a];
  }

  lemma NumberWordShape(s: string, a: nat)
    requires 0 < a && a + 1 < |s| && s[a] == ' '
    requires forall k :: 0 <= k < a ==> IsDigit(s[k])
    requires forall k :: a < k < |s| ==> !IsSpace(s[k])
    ensures IsStripped(s) && SpanDigits(s, 0) == a && SpanSpaces(s, a) == a + 1
  {
    assert !IsDigit(s[a]) && IsSpace(s[a]) && !IsSpace(s[a + 1]);
    assert !IsSpace(s[0]) && !IsSpace(s[|s| - 1]);
    var j := SpanDigits(s, 0);
    assert j <= a;
    assert j < |s| && !IsDigit(s[j]);
  }

  /** The quantity of a line that is a digit run, one space and then no quantity: the digit run as a number. */
  lemma NumberWordQuantity(s: string, a: nat)
    requires 0 < a && a + 1 < |s| && SpanDigits(s, 0) == a && s[a] == ' ' && SpanSpaces(s, a) == a + 1
    requires !IsDigit(s[a + 1]) && s[a + 1] != '-'
    ensures BulletEnd(s) == 0
    ensures FirstQuantity(QSteps(s, 0), |s|) == Some(QStep(Number(s[0..a]), a))
  {
    var qs := QSteps(s, 0);
    assert MixedSteps(s, 0) == [] && FractionSteps(s, 0) == [] && RangeSteps(s, 0) == [];
    assert NumberEnds(s, 0)[0] == a;
    assert qs[0] == QStep(Number(s[0..a]), a);
  }

  // The order of the quantity alternatives, on the two line shapes where it
  // decides the reading.

  /**
   * A whole number, spaces and a fraction (`1 1/2`) are read as one mixed
   * number: the mixed alternative, with its longest fraction, is tried before
   * the bare number.
   */
  lemma MixedComesFirst(s: string, p: nat, a: nat, b: nat, d: nat)
    requires p <= |s| && a == SpanDigits(s, p) && b == SpanSpaces(s, a)
    requires p < a && b < SpanDigits(s, b) < |s| && s[SpanDigits(s, b)] == '/'
    requires d == SpanDigits(s, SpanDigits(s, b) + 1) && SpanDigits(s, b) + 1 < d < |s|
    ensures FirstQuantity(QSteps(s, p), |s|) == Some(QStep(Mixed(s[p..a], s[b..d]), d))
  {
    MixedStepsHead(s, p, a, b, d);
    MixedFirstStep(s, p);
  }

  /**
   * Two numbers joined by `-` (`2-3`, `1.5 - 2`) are read as a range: neither
   * the mixed nor the fraction alternative applies, and the range is tried
   * before the bare number.
   */
  lemma RangeComesFirst(s: string, p: nat)
    requires p <= |s| && FirstNumberEnd(s, p).Some?
    requires SpanSpaces(s, FirstNumberEnd(s, p).value) < |s| && s[SpanSpaces(s, FirstNumberEnd(s, p).value)] == '-'
    requires FirstNumberEnd(s, RangeHigh(s, p)).Some? && FirstNumberEnd(s, RangeHigh(s, p)).value < |s|
    ensures FirstQuantity(QSteps(s, p), |s|)
            == Some(QStep(Range(s[p..FirstNumberEnd(s, p).value], s[RangeHigh(s, p)..FirstNumberEnd(s, RangeHigh(s, p)).value]),
                          FirstNumberEnd(s, RangeHigh(s, p)).value))
  {
    NoMixedBeforeRange(s, p);
    RangeStepsHead(s, p);
    RangeFirstStep(s, p);
  }

  lemma MixedFirstStep(s: string, p: nat)
    requires p <= |s| && |MixedSteps(s, p)| > 0 && MixedSteps(s, p)[0].end < |s|
    ensures FirstQuantity(QSteps(s, p), |s|) == Some(MixedSteps(s, p)[0])
  {
    assert QSteps(s, p)[0] == MixedSteps(s, p)[0];
  }

  lemma RangeFirstStep(s: string, p: nat)
    requires p <= |s| && MixedSteps(s, p) == [] && FractionSteps(s, p) == []
    requires |RangeSteps(s, p)| > 0 && RangeSteps(s, p)[0].end < |s|
    ensures FirstQuantity(QSteps(s, p), |s|) == Some(RangeSteps(s, p)[0])
  {
    assert QSteps(s, p)[0] == RangeSteps(s, p)[0];
  }

  lemma MixedStepsHead(s: string, p: nat, a: nat, b: nat, d: nat)
    requires p <= |s| && a == SpanDigits(s, p) && b == SpanSpaces(s, a)
    requires p < a && b < SpanDigits(s, b) < |s| && s[SpanDigits(s, b)] == '/'
    requires d == SpanDigits(s, SpanDigits(s, b) + 1) && SpanDigits(s, b) + 1 < d
    ensures |MixedSteps(s, p)| > 0 && MixedSteps(s, p)[0] == QStep(Mixed(s[p..a], s[b..d]), d)
  {
    var c := SpanDigits(s, b);
    assert IsDigit(s[b]);
    assert |MixedSteps(s, p)| == d - (c + 1);
    assert MixedSteps(s, p)[0].end == d;
    assert MixedSteps(s, p)[0].quantity == Mixed(s[p..a], s[b..d]);
  }

  /** A number followed by `-` starts neither a mixed number nor a fraction. */
  lemma NoMixedBeforeRange(s: string, p: nat)
    requires p <= |s| && FirstNumberEnd(s, p).Some?
    requires var g := SpanSpaces(s, FirstNumberEnd(s, p).value); g < |s| && s[g] == '-'
    ensures MixedSteps(s, p) == [] && FractionSteps(s, p) == []
  {
    var e := FirstNumberEnd(s, p).value;
    var g := SpanSpaces(s, e);
    var a := SpanDigits(s, p);
    if e == a && g > a {
      assert SpanDigits(s, g) == g;
    }
  }

  /** The longest end of a number is tried first. */
  lemma NumberEndsHead(s: string, h: nat)
    requires h <= |s| && FirstNumberEnd(s, h).Some?
    ensures |NumberEnds(s, h)| > 0 && NumberEnds(s, h)[0] == FirstNumberEnd(s, h).value
  {
  }

  lemma RangeStepsHead(s: string, p: nat)
    requires p <= |s| && FirstNumberEnd(s, p).Some?
    requires SpanSpaces(s, FirstNumberEnd(s, p).value) < |s| && s[SpanSpaces(s, FirstNumberEnd(s, p).value)] == '-'
    requires FirstNumberEnd(s, RangeHigh(s, p)).Some?
    ensures |RangeSteps(s, p)| > 0
    ensures RangeSteps(s, p)[0]
            == QStep(Range(s[p..FirstNumberEnd(s, p).value], s[RangeHigh(s, p)..FirstNumberEnd(s, RangeHigh(s, p)).value]),
                     FirstNumberEnd(s, RangeHigh(s, p)).value)
  {
    NumberEndsHead(s, RangeHigh(s, p));
  }

  /**
   * On a line the parser reads, the quantity of the match is the first
   * quantity choice that leaves at least one character for the name.
   */
  lemma LineQuantity(s: string, q: QStep)
    requires |s| > 0 && IsStripped(s) && '\n' !in s
    requires FirstQuantity(QSteps(s, BulletEnd(s)), |s|) == Some(q)
    ensures MatchQuantityPattern(s).Some? && MatchQuantityPattern(s).value.quantity == q.quantity
  {
    MatchIsScan(s);
  }

  /** A line `W N/D name` matches with the mixed number `W N/D` as its quantity. */
  lemma MixedLine(s: string, a: nat, b: nat, c: nat, d: nat)
    requires IsStripped(s) && '\n' !in s
    requires 0 < a < b < c && c + 1 < d < |s| && s[c] == '/' && !IsDigit(s[d])
    requires forall k :: 0 <= k < a ==> IsDigit(s[k])
    requires forall k :: a <= k < b ==> IsSpace(s[k])
    requires forall k :: b <= k < c ==> IsDigit(s[k])
    requires forall k :: c < k < d ==> IsDigit(s[k])
    ensures MatchQuantityPattern(s).Some? && MatchQuantityPattern(s).value.quantity == Mixed(s[0..a], s[b..d])
  {
    MixedLineSpans(s, a, b, c, d);
    MixedComesFirst(s, 0, a, b, d);
    LineQuantity(s, QStep(Mixed(s[0..a], s[b..d]), d));
  }

  lemma MixedLineSpans(s: string, a: nat, b: nat, c: nat, d: nat)
    requires 0 < a < b < c && c + 1 < d < |s| && s[c] == '/' && !IsDigit(s[d])
    requires forall k :: 0 <= k < a ==> IsDigit(s[k])
    requires forall k :: a <= k < b ==> IsSpace(s[k])
    requires forall k :: b <= k < c ==> IsDigit(s[k])
    requires forall k :: c < k < d ==> IsDigit(s[k])
    ensures SpanDigits(s, 0) == a && SpanSpaces(s, a) == b && SpanDigits(s, b) == c && SpanDigits(s, c + 1) == d
    ensures BulletEnd(s) == 0
  {
    assert !IsDigit(s[a]) && !IsSpace(s[b]);
  }

  lemma RangeLine(s: string, a: nat, e: nat)
    requires IsStripped(s) && '\n' !in s
    requires 0 < a && a + 1 < e < |s| && s[a] == '-' && IsSpace(s[e])
    requires forall k :: 0 <= k < a ==> IsDigit(s[k])
    requires forall k :: a < k < e ==> IsDigit(s[k])
    ensures MatchQuantityPattern(s).Some? && MatchQuantityPattern(s).value.quantity == Range(s[0..a], s[a + 1..e])
  {
    RangeLineSpans(s, a, e);
    RangeComesFirst(s, 0);
    LineQuantity(s, QStep(Range(s[0..a], s[a + 1..e]), e));
  }

  lemma RangeLineSpans(s: string, a: nat, e: nat)
    requires 0 < a && a + 1 < e < |s| && s[a] == '-' && IsSpace(s[e])
    requires forall k :: 0 <= k < a ==> IsDigit(s[k])
    requires forall k :: a < k < e ==> IsDigit(s[k])
    ensures FirstNumberEnd(s, 0) == Some(a) && SpanSpaces(s, a) == a && SpanSpaces(s, a + 1) == a + 1
    ensures FirstNumberEnd(s, a + 1) == Some(e) && BulletEnd(s) == 0
  {
    assert SpanDigits(s, 0) == a;
    assert SpanDigits(s, a + 1) == e;
  }
}
