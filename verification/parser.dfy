/**
 * Ingredient lines and recipe files (src/services/parser.py): reading a
 * quantity, a unit and a name out of one line of a recipe's ingredients
 * section, and reading the title, the servings and the ingredient lines out of
 * a whole Markdown recipe.
 *
 * Python floats are reals; `float()` is modelled for the spellings the line
 * pattern captures (digits with an optional decimal part).
 */
module Parser {
  import opened Wrappers
  import opened Text
  import opened QuantityPattern

  /** One ingredient read from a line. `rawText` is the stripped line. */
  datatype ParsedIngredient = ParsedIngredient(quantity: Option<real>, unit: Option<string>, name: string, rawText: string)

  /** The result of reading a recipe file; `error` is set when no ingredients could be read. */
  datatype ParsedRecipe = ParsedRecipe(
    name: string, servings: nat, ingredients: seq<ParsedIngredient>, rawContent: string, error: Option<string>)

  /** Common fractions and the values used for them (FRACTION_MAP). */
  const FractionMap: map<string, real> := map["1/4" := 0.25, "1/3" := 0.333, "1/2" := 0.5, "2/3" := 0.667, "3/4" := 0.75]

  /** The spellings of a unit and the unit they stand for (UNIT_ALIASES). */
  const UnitAliases: map<string, string> := map[
    "tbsp" := "tbsp", "tablespoon" := "tbsp", "tablespoons" := "tbsp",
    "tsp" := "tsp", "teaspoon" := "tsp", "teaspoons" := "tsp",
    "cup" := "cup", "cups" := "cup",
    "oz" := "oz", "fl oz" := "fl oz",
    "lb" := "lb", "lbs" := "lb", "pound" := "lb", "pounds" := "lb",
    "g" := "g", "kg" := "kg", "ml" := "ml",
    "l" := "l", "liter" := "l", "liters" := "l",
    "clove" := "clove", "cloves" := "clove",
    "bunch" := "bunch", "pinch" := "pinch",
    "can" := "can", "cans" := "can",
    "package" := "package", "pkg" := "package"]

  const MissingSectionError: string := "Missing '## Ingredients' section"
  const NoIngredientsError: string := "No ingredients found in '## Ingredients' section"

  function Pow10(n: nat): (r: nat)
    ensures r >= 1
  {
    if n == 0 then 1 else 10 * Pow10(n - 1)
  }

  /**
   * `float(t)` for digits with an optional decimal part: `None` for any other
   * spelling.
   */
  function DecimalValue(t: string): (r: Option<real>)
    ensures r.Some? ==> r.value >= 0.0
  {
    var i := IndexOf(t, '.', 0);
    var whole := t[..i];
    if |whole| == 0 || !AllDigits(whole) then None
    else if i == |t| then Some(DigitsValue(whole) as real)
    else
      var frac := t[i + 1..];
      if |frac| == 0 || !AllDigits(frac) then None
      else Some(DigitsValue(whole) as real + DigitsValue(frac) as real / Pow10(|frac|) as real)
  }

  /** `parse_fraction(f)`: the table value, else numerator over denominator, else 0. */
  function ParseFraction(f: string): (r: real)
    ensures f in FractionMap ==> r == FractionMap[f]
  {
    if f in FractionMap then FractionMap[f]
    else
      var parts := Split(f, '/');
      if |parts| != 2 then 0.0
      else
        match (DecimalValue(parts[0]), DecimalValue(parts[1]))
        case (Some(n), Some(d)) => if d == 0.0 then 0.0 else n / d
        case _ => 0.0
  }

  /** The quantity `parse_quantity` computes from the alternative that matched. */
  function QuantityValue(q: QuantityText): Option<real> {
    match q
    case Mixed(whole, fraction) => Some(DecimalValue(whole).GetOr(0.0) + ParseFraction(fraction))
    case Fraction(fraction) => Some(ParseFraction(fraction))
    case Range(_, high) => Some(DecimalValue(high).GetOr(0.0))
    case Number(number) => Some(DecimalValue(number).GetOr(0.0))
    case NoQuantity => None
  }

  /** The unit group stripped, lower-cased and looked up in the alias table. */
  function UnitValue(unit: Option<string>): (r: Option<string>)
    ensures r.Some? <==> unit.Some? && unit.value != ""
  {
    if unit.None? || unit.value == "" then None
    else
      var raw := Lower(Strip(unit.value));
      Some(if raw in UnitAliases then UnitAliases[raw] else raw)
  }

  /** `re.sub(r",\s*$", "", name)`: a comma and the whitespace after it are dropped from the end. */
  function DropTrailingComma(name: string): (r: string)
    ensures r == name || (|r| < |name| && r == name[..|r|] && name[|r|] == ',' && AllSpaces(name[|r| + 1..]))
    ensures IsStripped(name) ==> r == (if EndsWith(name, ",") then name[..|name| - 1] else name)
  {
    var i := SpanBackWhile(name, |name|, IsSpace);
    assert AllSpaces(name[i..]);
    if i > 0 && name[i - 1] == ',' then name[..i - 1] else name
  }

  /** A comma followed only by whitespace is dropped, and with it everything after it. */
  lemma CommaDropped(name: string, k: nat)
    requires k < |name| && name[k] == ',' && AllSpaces(name[k + 1..])
    ensures DropTrailingComma(name) == name[..k]
  {
    assert forall m :: k < m < |name| ==> IsSpace(name[m]) by {
      forall m | k < m < |name|
        ensures IsSpace(name[m])
      {
        assert name[m] == name[k + 1..][m - k - 1];
      }
    }
    var i := SpanBackWhile(name, |name|, IsSpace);
    assert i == k + 1;
  }

  /** A name that does not end in a comma and whitespace is kept whole. */
  lemma NoTrailingComma(name: string)
    requires forall k :: 0 <= k < |name| && name[k] == ',' ==> !AllSpaces(name[k + 1..])
    ensures DropTrailingComma(name) == name
  {
  }

  /** What `parse_quantity` returns for a match: the quantity, the unit and the cleaned name. */
  function ParseQuantity(m: Match): (Option<real>, Option<string>, string) {
    (QuantityValue(m.quantity), UnitValue(m.unit), DropTrailingComma(Strip(m.name)))
  }

  /**
   * Where `\s*to\s+taste.*$` (ignoring case) ends when it matches at `i`: the
   * end of the line, which must be the end of the text or a final newline.
   */
  function ToTasteEnd(s: string, i: nat): (r: Option<nat>)
    requires i <= |s|
    ensures r.Some? ==> i < r.value <= |s|
  {
    var a := SpanSpaces(s, i);
    if !HasAtIgnoringCase(s, a, "to") then None
    else
      var b := SpanSpaces(s, a + 2);
      if b == a + 2 || !HasAtIgnoringCase(s, b, "taste") then None
      else
        var e := LineEnd(s, b + 5);
        if AtDollar(s, e) then Some(e) else None
  }

  /** The leftmost match of `\s*to\s+taste.*$` at or after `i`: where it starts and ends. */
  function FirstToTaste(s: string, i: nat): (r: Option<(nat, nat)>)
    requires i <= |s|
    ensures r.Some? ==> i <= r.value.0 < r.value.1 <= |s| && ToTasteEnd(s, r.value.0) == Some(r.value.1)
    decreases |s| - i
  {
    match ToTasteEnd(s, i)
    case Some(e) => Some((i, e))
    case None => if i == |s| then None else FirstToTaste(s, i + 1)
  }

  /** `re.sub(r"\s*to\s+taste.*$", "", line, flags=re.IGNORECASE)` */
  function RemoveToTaste(s: string): (r: string)
    ensures |r| <= |s|
  {
    match FirstToTaste(s, 0)
    case None => s
    case Some((i, e)) => s[..i] + s[e..]
  }

  /** The name of a "to taste" ingredient: the line before the phrase, without a bullet. */
  function ToTasteName(line: string): string {
    Strip(DropBulletMarker(RemoveToTaste(line)))
  }

  /** `parse_ingredient_line(line)` */
  function ParseIngredientLine(line: string): (r: Option<ParsedIngredient>)
    ensures r.Some? ==> r.value.rawText == Strip(line) && r.value.rawText != ""
    ensures r.Some? && r.value.name == "" ==> Contains(Lower(Strip(line)), "to taste")
  {
    var l := Strip(line);
    if l == "" then None
    else if StartsWith(l, "#") then None
    else if Contains(Lower(l), "to taste") then
      Some(ParsedIngredient(None, Some("to taste"), ToTasteName(l), l))
    else
      var m := MatchQuantityPattern(l);
      var parsed := if m.Some? then ParseQuantity(m.value) else (None, None, "");
      if m.Some? && parsed.2 != "" then Some(ParsedIngredient(parsed.0, parsed.1, parsed.2, l))
      else
        var name := Strip(DropBulletMarker(l));
        if name != "" then Some(ParsedIngredient(None, None, name, l)) else None
  }

  lemma DigitsAreDecimal(t: string)
    requires |t| > 0 && AllDigits(t)
    ensures DecimalValue(t) == Some(DigitsValue(t) as real)
  {
    assert t[..|t|] == t;
  }

  /** `float()` reads every text a number group captures; a run of digits reads as its integer value. */
  lemma DecimalOfCapture(t: string)
    requires IsDecimalText(t)
    ensures DecimalValue(t).Some?
    ensures '.' !in t ==> DecimalValue(t) == Some(DigitsValue(t) as real)
  {
    var i := IndexOf(t, '.', 0);
    assert AllDigits(t[..i]);
    if i < |t| {
      assert AllDigits(t[i + 1..]);
    } else {
      assert t[..i] == t;
    }
  }

  /**
   * `parse_fraction` of two digit runs around a slash: the table value for the
   * five common fractions, otherwise the quotient, and 0 for a zero denominator.
   */
  lemma FractionOfDigits(a: string, b: string)
    requires IsDigitText(a) && IsDigitText(b)
    ensures var n := DigitsValue(a) as real;
            var d := DigitsValue(b) as real;
            ParseFraction(a + "/" + b) ==
              if a + "/" + b in FractionMap then FractionMap[a + "/" + b]
              else if d == 0.0 then 0.0
              else n / d
  {
    var f := a + "/" + b;
    SplitAtSlash(a, b);
    DigitsAreDecimal(a);
    DigitsAreDecimal(b);
    FractionOfParts(f, a, b);
    assert DecimalValue(a).value == DigitsValue(a) as real;
    assert DecimalValue(b).value == DigitsValue(b) as real;
  }

  lemma SplitAtSlash(a: string, b: string)
    requires AllDigits(a) && AllDigits(b)
    ensures Split(a + "/" + b, '/') == [a, b]
  {
    assert '/' !in a && '/' !in b;
    SplitJoin([a, b], '/');
    assert Join([a, b], "/") == a + "/" + b;
  }

  lemma FractionOfParts(f: string, a: string, b: string)
    requires Split(f, '/') == [a, b]
    requires DecimalValue(a).Some? && DecimalValue(b).Some?
    ensures var n := DecimalValue(a).value;
            var d := DecimalValue(b).value;
            ParseFraction(f) ==
              if f in FractionMap then FractionMap[f]
              else if d == 0.0 then 0.0
              else n / d
  {
  }

  /** The same for the text a fraction group captures. */
  lemma FractionOfCapture(f: string)
    requires IsFractionText(f)
    ensures var i := IndexOf(f, '/', 0);
            && IsDigitText(f[..i]) && IsDigitText(f[i + 1..])
            && f == f[..i] + "/" + f[i + 1..]
  {
    var i := IndexOf(f, '/', 0);
    assert AllDigits(f[..i]);
    assert AllDigits(f[i + 1..]);
    assert f == f[..i] + [f[i]] + f[i + 1..];
  }

  /** The table values are the quotients they stand for, to within 0.0005. */
  lemma FractionTableNearExact()
    ensures forall f | f in FractionMap ::
              && |f| == 3 && IsDigit(f[0]) && f[1] == '/' && IsDigit(f[2])
              && var exact := DigitValue(f[0]) as real / DigitValue(f[2]) as real;
                 -0.0005 <= FractionMap[f] - exact <= 0.0005
  {
    assert FractionMap.Keys == {"1/4", "1/3", "1/2", "2/3", "3/4"};
  }

  /**
   * The quantity of a captured group: a mixed number is its whole part plus its
   * fraction, a range is its upper bound, a number is its value; `float()`
   * never fails on what the pattern captures.
   */
  lemma QuantityOfCapture(q: QuantityText)
    requires WellFormed(q)
    ensures q.Mixed? ==> QuantityValue(q) == Some(DigitsValue(q.whole) as real + ParseFraction(q.fraction))
    ensures q.Fraction? ==> QuantityValue(q) == Some(ParseFraction(q.fraction))
    ensures q.Range? ==> DecimalValue(q.high).Some? && QuantityValue(q) == Some(DecimalValue(q.high).value)
    ensures q.Number? ==> DecimalValue(q.number).Some? && QuantityValue(q) == Some(DecimalValue(q.number).value)
    ensures q.NoQuantity? <==> QuantityValue(q).None?
  {
    match q
    case Mixed(whole, _) => DigitsAreDecimal(whole);
    case Range(_, high) => DecimalOfCapture(high);
    case Number(number) => DecimalOfCapture(number);
    case _ =>
  }

  /** Where the phrase occurs, `\s*to\s+taste.*$` matches, up to the end of a line without newlines. */
  lemma ToTasteAtPhrase(s: string, j: nat)
    requires '\n' !in s && HasAtIgnoringCase(s, j, "to taste")
    ensures ToTasteEnd(s, j) == Some(|s|)
  {
    assert Lower(s[j..j + 8])[..2] == Lower(s[j..j + 2]);
    assert Lower(s[j..j + 8])[3..] == Lower(s[j + 3..j + 8]);
    assert LowerChar(s[j]) == 't' && LowerChar(s[j + 2]) == ' ' && LowerChar(s[j + 3]) == 't';
    assert SpanSpaces(s, j) == j;
    assert SpanSpaces(s, j + 2) == j + 3;
  }

  lemma {:induction false} FirstToTasteFound(s: string, i: nat, j: nat)
    requires i <= j <= |s| && ToTasteEnd(s, j).Some?
    ensures FirstToTaste(s, i).Some? && FirstToTaste(s, i).value.0 <= j
    decreases j - i
  {
    if ToTasteEnd(s, i).None? {
      FirstToTasteFound(s, i + 1, j);
    }
  }

  /**
   * In a line without newlines that mentions "to taste" in any case, the phrase
   * pattern matches no later than the first mention and removing it keeps
   * exactly the text before the match.
   */
  lemma ToTasteCut(s: string, j: nat)
    requires '\n' !in s && HasAtIgnoringCase(s, j, "to taste")
    ensures FirstToTaste(s, 0).Some?
    ensures var (i, e) := FirstToTaste(s, 0).value;
            i <= j && e == |s| && RemoveToTaste(s) == s[..i]
  {
    ToTasteAtPhrase(s, j);
    FirstToTasteFound(s, 0, j);
    var (i, e) := FirstToTaste(s, 0).value;
    ToTasteEndsLine(s, i);
    assert s[e..] == [];
  }

  lemma ToTasteEndsLine(s: string, i: nat)
    requires '\n' !in s && i <= |s| && ToTasteEnd(s, i).Some?
    ensures ToTasteEnd(s, i) == Some(|s|)
  {
  }

  /** A text contains "to taste" in any case exactly where some position starts the phrase. */
  lemma ContainsToTaste(s: string)
    requires Contains(Lower(s), "to taste")
    ensures exists j: nat :: HasAtIgnoringCase(s, j, "to taste")
  {
    ContainsWitness(Lower(s), "to taste");
    var j: nat :| HasAt(Lower(s), j, "to taste");
    LowerSlice(s, j, j + 8);
    assert HasAtIgnoringCase(s, j, "to taste");
  }

  /** Without the bullet, a stripped line that is more than a lone bullet character keeps a name. */
  lemma FallbackName(l: string)
    requires IsStripped(l) && l != ""
    requires !(|l| == 1 && (l[0] == '-' || l[0] == '*'))
    ensures Strip(DropBulletMarker(l)) != ""
  {
    var b := DropBulletMarker(l);
    assert |b| > 0 && b[|b| - 1] == l[|l| - 1];
    StripKeepsLast(b);
  }

  lemma NoNewlineInStrip(line: string)
    requires '\n' !in line
    ensures '\n' !in Strip(line)
  {
    var l := Strip(line);
    forall k | 0 <= k < |l| ensures l[k] != '\n' {
      assert l[k] in line;
    }
  }

  /**
   * A line without newlines yields an ingredient exactly when its stripped
   * text is neither empty nor a `#` line: the pattern matches every other line,
   * and when the cleaned name comes out empty the fallback keeps the line.
   */
  lemma IngredientLineTotal(line: string)
    requires '\n' !in line
    ensures ParseIngredientLine(line).Some? <==> Strip(line) != "" && Strip(line)[0] != '#'
  {
    var l := Strip(line);
    if l == "" {
    } else if l[0] == '#' {
      assert StartsWith(l, "#");
    } else {
      assert !StartsWith(l, "#");
      if !Contains(Lower(l), "to taste") {
        NoNewlineInStrip(line);
        MatchFacts(l);
        var m := MatchQuantityPattern(l).value;
        StructuredOrFallback(l, m.name);
        var name := DropTrailingComma(Strip(m.name));
        if name != "" {
          assert ParseIngredientLine(line) == Some(ParsedIngredient(QuantityValue(m.quantity), UnitValue(m.unit), name, l));
        } else {
          assert ParseIngredientLine(line) == Some(ParsedIngredient(None, None, Strip(DropBulletMarker(l)), l));
        }
      }
    }
  }

  lemma StructuredOrFallback(l: string, name: string)
    requires l != "" && IsStripped(l) && |name| > 0 && EndsWith(l, name)
    ensures DropTrailingComma(Strip(name)) != "" || Strip(DropBulletMarker(l)) != ""
  {
    assert name[|name| - 1] == l[|l| - 1];
    var x := Strip(name);
    StripKeepsLast(name);
    if DropTrailingComma(x) == "" {
      assert |x| == 1 && x[0] == ',';
      FallbackName(l);
    }
  }

  /**
   * A line that mentions "to taste" in any case has no quantity, the unit
   * "to taste", and as its name the text before the phrase without a bullet.
   * The phrase removed starts no later than the first mention.
   */
  lemma ToTasteLine(line: string)
    requires '\n' !in line
    requires var l := Strip(line); l != "" && l[0] != '#' && Contains(Lower(l), "to taste")
    ensures var l := Strip(line);
            && FirstToTaste(l, 0).Some?
            && var i := FirstToTaste(l, 0).value.0;
            && (forall j :: 0 <= j <= |l| && HasAtIgnoringCase(l, j, "to taste") ==> i <= j)
            && ParseIngredientLine(line) == Some(ParsedIngredient(None, Some("to taste"), Strip(DropBulletMarker(l[..i])), l))
  {
    var l := Strip(line);
    NoNewlineInStrip(line);
    ToTasteRemoved(l);
    ToTasteBranch(line);
  }

  lemma ToTasteBranch(line: string)
    requires var l := Strip(line); l != "" && l[0] != '#' && Contains(Lower(l), "to taste")
    ensures ParseIngredientLine(line) == Some(ParsedIngredient(None, Some("to taste"), ToTasteName(Strip(line)), Strip(line)))
  {
    assert !StartsWith(Strip(line), "#");
  }

  lemma ToTasteRemoved(l: string)
    requires '\n' !in l && Contains(Lower(l), "to taste")
    ensures FirstToTaste(l, 0).Some?
    ensures var i := FirstToTaste(l, 0).value.0;
            && (forall j :: 0 <= j <= |l| && HasAtIgnoringCase(l, j, "to taste") ==> i <= j)
            && ToTasteName(l) == Strip(DropBulletMarker(l[..i]))
  {
    ContainsToTaste(l);
    var j: nat :| HasAtIgnoringCase(l, j, "to taste");
    ToTasteCut(l, j);
    forall j' | 0 <= j' <= |l| && HasAtIgnoringCase(l, j', "to taste")
      ensures FirstToTaste(l, 0).value.0 <= j'
    {
      ToTasteCut(l, j');
    }
  }

  /**
   * The "to taste" branch does not reject an empty name: a line that starts
   * with the phrase (in any case) is an ingredient named "".
   */
  lemma ToTasteFirstHasNoName(line: string)
    requires '\n' !in line
    requires Strip(line) != "" && HasAtIgnoringCase(Strip(line), 0, "to taste")
    ensures ParseIngredientLine(line).Some? && ParseIngredientLine(line).value.name == ""
  {
    var l := Strip(line);
    LowerSlice(l, 0, 8);
    assert Lower(l)[0..8] == "to taste";
    assert StartsWith(Lower(l), "to taste");
    assert l[0] != '#' by {
      assert LowerChar(l[0]) == 't';
    }
    ToTasteLine(line);
    assert l[..0] == "";
    StripStripped("");
  }

  /** The units the alias table gives. */
  const CanonicalUnits: set<string> :=
    {"tbsp", "tsp", "cup", "oz", "fl oz", "lb", "g", "kg", "ml", "l", "clove", "bunch", "pinch", "can", "package"}

  /** Every spelling in the alias table stands for a canonical unit. */
  lemma AliasIsCanonical(raw: string)
    requires raw in UnitAliases
    ensures UnitAliases[raw] in CanonicalUnits
  {
  }

  /** A canonical unit is its own alias. */
  lemma CanonicalIsAlias(v: string)
    requires v in CanonicalUnits
    ensures v in UnitAliases && UnitAliases[v] == v
  {
  }

  /** A canonical unit is already stripped and lower-case. */
  lemma CanonicalIsClean(v: string)
    requires v in CanonicalUnits
    ensures Lower(Strip(v)) == v
  {
    CanonicalAreLowerWords();
    LowerWordsClean(v);
  }

  /** Lower-case letters, with inner spaces only. */
  predicate LowerWords(v: string) {
    |v| > 0 && 'a' <= v[0] <= 'z' && 'a' <= v[|v| - 1] <= 'z' &&
    forall k :: 0 <= k < |v| ==> 'a' <= v[k] <= 'z' || v[k] == ' '
  }

  lemma CanonicalAreLowerWords()
    ensures forall v | v in CanonicalUnits :: LowerWords(v)
  {
    assert LowerWords("tbsp");
    assert LowerWords("tsp");
    assert LowerWords("cup");
    assert LowerWords("oz");
    assert LowerWords("fl oz");
    assert LowerWords("lb");
    assert LowerWords("g");
    assert LowerWords("kg");
    assert LowerWords("ml");
    assert LowerWords("l");
    assert LowerWords("clove");
    assert LowerWords("bunch");
    assert LowerWords("pinch");
    assert LowerWords("can");
    assert LowerWords("package");
  }

  lemma LowerWordsClean(v: string)
    requires LowerWords(v)
    ensures Lower(Strip(v)) == v
  {
    assert !IsSpace(v[0]) && !IsSpace(v[|v| - 1]);
    StripStripped(v);
    LowerFixed(v);
  }

  lemma LowerFixed(v: string)
    requires forall k :: 0 <= k < |v| ==> 'a' <= v[k] <= 'z' || v[k] == ' '
    ensures Lower(v) == v
  {
    var l := Lower(v);
    assert forall k :: 0 <= k < |v| ==> l[k] == v[k];
  }

  /** Normalising a normalised unit changes nothing (for a unit group that is not blank). */
  lemma UnitValueIdempotent(unit: Option<string>)
    requires unit.None? || Strip(unit.value) != ""
    ensures UnitValue(UnitValue(unit)) == UnitValue(unit)
  {
    if unit.Some? {
      var raw := Lower(Strip(unit.value));
      assert IsStripped(raw);
      StripStripped(raw);
      LowerIdempotent(Strip(unit.value));
      if raw in UnitAliases {
        AliasIsCanonical(raw);
        CanonicalIsAlias(UnitAliases[raw]);
        CanonicalIsClean(UnitAliases[raw]);
      }
    }
  }

  /**
   * A count, one space and a single word, such as `2 cups`: a unit needs a name
   * after it, so the count is the quantity, there is no unit, and the word
   * (here `cups`) is the name.
   */
  lemma CountThenWord(line: string, a: nat)
    requires 0 < a && a + 1 < |line| && line[a] == ' '
    requires forall k :: 0 <= k < a ==> IsDigit(line[k])
    requires forall k :: a < k < |line| ==> !IsSpace(line[k])
    requires !IsDigit(line[a + 1]) && line[a + 1] != '-' && line[|line| - 1] != ','
    requires !Contains(Lower(line), "to taste")
    ensures ParseIngredientLine(line) == Some(ParsedIngredient(Some(DigitsValue(line[..a]) as real), None, line[a + 1..], line))
  {
    CountWordMatch(line, a);
    var m := Match(Number(line[..a]), None, line[a + 1..]);
    CountValue(line, a);
    WordIsClean(line, a);
    CountLineIsClean(line);
    assert UnitValue(m.unit) == None;
    StructuredLine(line, m, Some(DigitsValue(line[..a]) as real), None, line[a + 1..]);
  }

  /** The quantity pattern reads `2 cups` as a bare count followed by the name. */
  lemma CountWordMatch(line: string, a: nat)
    requires 0 < a && a + 1 < |line| && line[a] == ' '
    requires forall k :: 0 <= k < a ==> IsDigit(line[k])
    requires forall k :: a < k < |line| ==> !IsSpace(line[k])
    requires !IsDigit(line[a + 1]) && line[a + 1] != '-'
    ensures MatchQuantityPattern(line) == Some(Match(Number(line[..a]), None, line[a + 1..]))
  {
    NumberThenWord(line, a, UnitAlternatives);
    CountWordHasNoNewline(line, a);
    MatchIsScan(line);
  }

  /** The count of `2 cups` reads as its integer value. */
  lemma CountValue(line: string, a: nat)
    requires 0 < a <= |line|
    requires forall k :: 0 <= k < a ==> IsDigit(line[k])
    ensures QuantityValue(Number(line[..a])) == Some(DigitsValue(line[..a]) as real)
  {
    var d := line[..a];
    assert AllDigits(d) by {
      assert forall k :: 0 <= k < |d| ==> d[k] == line[k];
    }
    DigitsAreDecimal(d);
  }

  /**
   * The value of a range line `A-B name` is its upper number: the pattern
   * reads it as a range, and `parse_ingredient_line` takes the high group.
   */
  lemma RangeLineValue(line: string, a: nat, e: nat)
    requires IsStripped(line) && '\n' !in line
    requires 0 < a && a + 1 < e < |line| && line[a] == '-' && IsSpace(line[e])
    requires forall k :: 0 <= k < a ==> IsDigit(line[k])
    requires forall k :: a < k < e ==> IsDigit(line[k])
    ensures MatchQuantityPattern(line).Some?
    ensures QuantityValue(MatchQuantityPattern(line).value.quantity) == Some(DigitsValue(line[a + 1..e]) as real)
  {
    RangeLine(line, a, e);
    DigitSlice(line, a + 1, e);
    RangeValueIsHigh(line[0..a], line[a + 1..e]);
  }

  /** A range is worth its upper number. */
  lemma RangeValueIsHigh(low: string, high: string)
    requires |high| > 0 && AllDigits(high)
    ensures QuantityValue(Range(low, high)) == Some(DigitsValue(high) as real)
  {
    DigitsAreDecimal(high);
  }

  lemma DigitSlice(line: string, i: nat, j: nat)
    requires i < j <= |line| && forall k :: i <= k < j ==> IsDigit(line[k])
    ensures |line[i..j]| > 0 && AllDigits(line[i..j])
  {
    var d := line[i..j];
    assert forall k :: 0 <= k < |d| ==> d[k] == line[i + k];
  }

  /** The word of `2 cups` is already clean: stripping and comma removal keep it. */
  lemma WordIsClean(line: string, a: nat)
    requires a + 1 < |line| && line[|line| - 1] != ','
    requires forall k :: a < k < |line| ==> !IsSpace(line[k])
    ensures DropTrailingComma(Strip(line[a + 1..])) == line[a + 1..]
  {
    var w := line[a + 1..];
    assert IsStripped(w) by {
      assert w[0] == line[a + 1] && w[|w| - 1] == line[|line| - 1];
    }
    StripStripped(w);
  }

  /** A line that starts with a digit and ends with a non-space is clean and no heading. */
  lemma CountLineIsClean(line: string)
    requires |line| > 0 && IsDigit(line[0]) && !IsSpace(line[|line| - 1])
    ensures Strip(line) == line && !StartsWith(line, "#")
  {
    assert IsStripped(line);
    StripStripped(line);
  }

  /**
   * A clean line that is not a heading and does not say "to taste" takes the
   * structured branch when the pattern leaves a non-empty name.
   */
  lemma StructuredLine(line: string, m: Match, q: Option<real>, u: Option<string>, name: string)
    requires Strip(line) == line && line != "" && !StartsWith(line, "#")
    requires !Contains(Lower(line), "to taste")
    requires MatchQuantityPattern(line) == Some(m)
    requires q == QuantityValue(m.quantity) && u == UnitValue(m.unit)
    requires name == DropTrailingComma(Strip(m.name)) && name != ""
    ensures ParseIngredientLine(line) == Some(ParsedIngredient(q, u, name, line))
  {
  }

  /** A count, a space and a word fit on one line. */
  lemma CountWordHasNoNewline(line: string, a: nat)
    requires a < |line| && line[a] == ' '
    requires forall k :: 0 <= k < a ==> IsDigit(line[k])
    requires forall k :: a < k < |line| ==> !IsSpace(line[k])
    ensures '\n' !in line
  {
    forall k | 0 <= k < |line|
      ensures line[k] != '\n'
    {
      if k > a {
        assert !IsSpace(line[k]);
      }
    }
  }
}
