/**
 * Reading a whole Markdown recipe (`parse_recipe` in src/services/parser.py):
 * the title, the servings count and the lines of the `## Ingredients`
 * section, each found by the search its regular expression performs, and the
 * loop that turns the section's lines into ingredients.
 */
module Recipe {
  import opened Wrappers
  import opened Text
  import opened Parser

  const DefaultServings: nat := 4

  /** `^` under MULTILINE: the start of the text or just after a newline. */
  predicate AtLineStart(s: string, p: nat)
    requires p <= |s|
  {
    p == 0 || s[p - 1] == '\n'
  }

  predicate IsNewline(c: char) { c == '\n' }

  /**
   * TITLE_PATTERN `^#\s+(.+)$` tried at `p`, giving the stripped heading text.
   * The greedy `\s+` may cross line breaks; when it runs to the end of the
   * text, it gives back characters until `.+` can take one that is not a
   * newline, and the group is then a single whitespace character.
   */
  function TitleAt(s: string, p: nat): (r: Option<string>)
    requires p < |s|
    ensures r.Some? ==> AtLineStart(s, p) && s[p] == '#'
  {
    if !(AtLineStart(s, p) && s[p] == '#') then None
    else
      var w := SpanSpaces(s, p + 1);
      if w == p + 1 then None
      else if w < |s| then Some(Strip(s[w..LineEnd(s, w)]))
      else
        var i := SpanBackWhile(s, |s|, IsNewline);
        if i >= p + 3 then Some(Strip(s[i - 1..LineEnd(s, i - 1)])) else None
  }

  /** `TITLE_PATTERN.search(content)` from position `p` on. */
  function FindTitle(s: string, p: nat): (r: Option<string>)
    requires p <= |s|
    decreases |s| - p
  {
    if p == |s| then None
    else if TitleAt(s, p).Some? then TitleAt(s, p)
    else FindTitle(s, p + 1)
  }

  /** `filename.rsplit(".", 1)[0]`: the text before the last dot, or all of it. */
  function Stem(filename: string): (r: string)
    ensures '.' in filename ==> |r| < |filename| && r == filename[..|r|] && filename[|r|] == '.' && '.' !in filename[|r| + 1..]
    ensures '.' !in filename ==> r == filename
  {
    var i := SpanBackWhile(filename, |filename|, c => c != '.');
    if i == 0 then
      assert '.' !in filename by {
        assert forall k :: 0 <= k < |filename| ==> filename[k] != '.';
      }
      filename
    else
      assert filename[i..] == filename[i - 1 + 1..];
      filename[..i - 1]
  }

  /** `s.title()` on ASCII text, one character at a time (see TitleCaseMeaning). */
  function TitleCase(s: string): (r: string)
    ensures |r| == |s|
    ensures forall k :: 0 <= k < |s| ==> r[k] == TitleChar(k > 0 && IsLetter(s[k - 1]), s[k])
  {
    seq(|s|, k requires 0 <= k < |s| => TitleChar(k > 0 && IsLetter(s[k - 1]), s[k]))
  }

  /**
   * `title()` gives the same text up to letter case, in which the first letter
   * of every run of letters is upper-case and every other letter lower-case;
   * characters other than letters are kept.
   */
  lemma TitleCaseMeaning(s: string)
    ensures var r := TitleCase(s);
            && |r| == |s| && Lower(r) == Lower(s)
            && (forall k :: 0 <= k < |s| && IsLetter(s[k]) ==>
                  IsLetter(r[k]) && ('A' <= r[k] <= 'Z' <==> k == 0 || !IsLetter(s[k - 1])))
            && (forall k :: 0 <= k < |s| && !IsLetter(s[k]) ==> r[k] == s[k])
  {
    var r := TitleCase(s);
    forall k | 0 <= k < |s|
      ensures Lower(r)[k] == Lower(s)[k]
    {
      assert r[k] == TitleChar(k > 0 && IsLetter(s[k - 1]), s[k]);
    }
  }

  /** One character of `title()`: lower-cased after a letter, upper-cased otherwise. */
  function TitleChar(afterLetter: bool, c: char): (t: char)
    ensures LowerChar(t) == LowerChar(c)
    ensures IsLetter(c) ==> IsLetter(t) && ('A' <= t <= 'Z' <==> !afterLetter)
    ensures !IsLetter(c) ==> t == c
  {
    if afterLetter then LowerChar(c) else UpperChar(c)
  }

  /** The title used when the recipe has no `# ` heading. */
  function FilenameTitle(filename: string): string {
    TitleCase(ReplaceChar(ReplaceChar(Stem(filename), '-', ' '), '_', ' '))
  }

  /** The recipe's name: the first `# ` heading, else derived from the file name. */
  function RecipeTitle(filename: string, content: string): string {
    match FindTitle(content, 0)
    case Some(t) => t
    case None => FilenameTitle(filename)
  }

  /** SERVINGS_PATTERN `^Servings:\s*(\d+)` (ignoring case) tried at `p`. */
  function ServingsAt(s: string, p: nat): (r: Option<nat>)
    requires p <= |s|
  {
    if !(AtLineStart(s, p) && HasAtIgnoringCase(s, p, "servings:")) then None
    else
      var w := SpanSpaces(s, p + 9);
      var d := SpanDigits(s, w);
      if d == w then None else Some(DigitsValue(s[w..d]))
  }

  /** `SERVINGS_PATTERN.search(content)` from position `p` on. */
  function FindServings(s: string, p: nat): Option<nat>
    requires p <= |s|
    decreases |s| - p
  {
    if ServingsAt(s, p).Some? then ServingsAt(s, p)
    else if p == |s| then None
    else FindServings(s, p + 1)
  }

  function RecipeServings(content: string): nat {
    FindServings(content, 0).GetOr(DefaultServings)
  }

  /**
   * The start of the section body when INGREDIENTS_SECTION's head
   * `##\s*Ingredients\s*\n` (ignoring case) matches at `p`: the greedy `\s*`
   * gives back characters until it stands before its last newline.
   */
  function SectionStart(s: string, p: nat): (r: Option<nat>)
    requires p <= |s|
    ensures r.Some? ==> p < r.value <= |s| && s[r.value - 1] == '\n'
  {
    if !HasAt(s, p, "##") then None
    else
      var a := SpanSpaces(s, p + 2);
      if !HasAtIgnoringCase(s, a, "ingredients") then None
      else
        var w := SpanSpaces(s, a + 11);
        var i := SpanBackWhile(s, w, c => c != '\n');
        if i > a + 11 then Some(i) else None
  }

  /** The lazy `(.*?)` followed by `(?=\n##|\Z)`: the first `\n##` at or after `i`, or the end. */
  function SectionEnd(s: string, i: nat): (e: nat)
    requires i <= |s|
    ensures i <= e <= |s|
    ensures e < |s| ==> HasAt(s, e, "\n##")
    ensures forall k :: i <= k < e ==> !HasAt(s, k, "\n##")
    decreases |s| - i
  {
    if i == |s| || HasAt(s, i, "\n##") then i else SectionEnd(s, i + 1)
  }

  /** `INGREDIENTS_SECTION.search(content).group(1)` from position `p` on. */
  function FindSection(s: string, p: nat): (r: Option<string>)
    requires p <= |s|
    decreases |s| - p
  {
    match SectionStart(s, p)
    case Some(i) => Some(s[i..SectionEnd(s, i)])
    case None => if p == |s| then None else FindSection(s, p + 1)
  }

  /** The ingredients read from `lines`, in order, skipping the lines that give none. */
  function ParsedLines(lines: seq<string>): seq<ParsedIngredient>
    decreases |lines|
  {
    if |lines| == 0 then []
    else
      var last := ParseIngredientLine(lines[|lines| - 1]);
      ParsedLines(lines[..|lines| - 1]) + (if last.Some? then [last.value] else [])
  }

  /** The ingredients of a recipe: those of its section's lines, or none without a section. */
  function SectionIngredients(content: string): seq<ParsedIngredient> {
    match FindSection(content, 0)
    case None => []
    case Some(body) => ParsedLines(Split(body, '\n'))
  }

  /** `parse_recipe(filename, content)` */
  method ParseRecipe(filename: string, content: string) returns (r: ParsedRecipe)
    ensures r.name == RecipeTitle(filename, content)
    ensures r.servings == RecipeServings(content)
    ensures r.rawContent == content
    ensures r.ingredients == SectionIngredients(content)
    ensures FindSection(content, 0).None? ==> r.error == Some(MissingSectionError)
    ensures FindSection(content, 0).Some? && r.ingredients == [] ==> r.error == Some(NoIngredientsError)
    ensures r.error.None? <==> r.ingredients != []
  {
    var name := RecipeTitle(filename, content);
    var servings := RecipeServings(content);
    var section := FindSection(content, 0);
    if section.None? {
      return ParsedRecipe(name, servings, [], content, Some(MissingSectionError));
    }
    var lines := Split(section.value, '\n');
    var ingredients: seq<ParsedIngredient> := [];
    var i := 0;
    while i < |lines|
      invariant 0 <= i <= |lines|
      invariant ingredients == ParsedLines(lines[..i])
    {
      var parsed := ParseIngredientLine(lines[i]);
      ParsedLinesStep(lines, i);
      if parsed.Some? {
        ingredients := ingredients + [parsed.value];
      }
      i := i + 1;
    }
    assert lines[..|lines|] == lines;
    assert SectionIngredients(content) == ingredients;
    if ingredients == [] {
      return ParsedRecipe(name, servings, [], content, Some(NoIngredientsError));
    }
    return ParsedRecipe(name, servings, ingredients, content, None);
  }

  lemma ParsedLinesStep(lines: seq<string>, i: nat)
    requires i < |lines|
    ensures var parsed := ParseIngredientLine(lines[i]);
      ParsedLines(lines[..i + 1]) == ParsedLines(lines[..i]) + if parsed.Some? then [parsed.value] else []
  {
    assert lines[..i + 1][..i] == lines[..i];
  }

  /** A line of the section that yields an ingredient. */
  predicate IsIngredientLine(line: string) {
    Strip(line) != "" && Strip(line)[0] != '#'
  }

  /** The stripped ingredient lines of `lines`, in order. */
  function KeptLines(lines: seq<string>): seq<string>
    decreases |lines|
  {
    if |lines| == 0 then []
    else
      var last := lines[|lines| - 1];
      KeptLines(lines[..|lines| - 1]) + (if IsIngredientLine(last) then [Strip(last)] else [])
  }

  function RawTexts(xs: seq<ParsedIngredient>): (r: seq<string>)
    ensures |r| == |xs|
    ensures forall k :: 0 <= k < |xs| ==> r[k] == xs[k].rawText
  {
    seq(|xs|, k requires 0 <= k < |xs| => xs[k].rawText)
  }

  /**
   * One ingredient per line that is neither blank nor a `#` line, in the order
   * of the lines, each carrying its stripped line as raw text.
   */
  lemma {:induction false} ParsedLinesAreKeptLines(lines: seq<string>)
    requires forall k :: 0 <= k < |lines| ==> '\n' !in lines[k]
    ensures RawTexts(ParsedLines(lines)) == KeptLines(lines)
    decreases |lines|
  {
    if |lines| > 0 {
      var init := lines[..|lines| - 1];
      var last := lines[|lines| - 1];
      assert forall k :: 0 <= k < |init| ==> init[k] == lines[k];
      ParsedLinesAreKeptLines(init);
      IngredientLineTotal(last);
      var parsed := ParseIngredientLine(last);
      var extra := if parsed.Some? then [parsed.value] else [];
      assert RawTexts(extra) == if IsIngredientLine(last) then [Strip(last)] else [];
      RawTextsAppend(ParsedLines(init), extra);
    }
  }

  lemma RawTextsAppend(a: seq<ParsedIngredient>, b: seq<ParsedIngredient>)
    ensures RawTexts(a + b) == RawTexts(a) + RawTexts(b)
  {
  }

  /** Reading the section lines in two parts reads the ingredients of both, in order. */
  lemma {:induction false} ParsedLinesAppend(a: seq<string>, b: seq<string>)
    ensures ParsedLines(a + b) == ParsedLines(a) + ParsedLines(b)
    decreases |b|
  {
    if |b| > 0 {
      var init := b[..|b| - 1];
      assert (a + b)[..|a + b| - 1] == a + init;
      ParsedLinesAppend(a, init);
    } else {
      assert a + b == a;
    }
  }

  /** A recipe's ingredients carry, in order, its section's nonblank, non-`#` lines. */
  lemma RecipeIngredientLines(content: string, body: string)
    requires FindSection(content, 0) == Some(body)
    ensures RawTexts(SectionIngredients(content)) == KeptLines(Split(body, '\n'))
  {
    ParsedLinesAreKeptLines(Split(body, '\n'));
  }

  /** A recipe opening with the heading `# t` is named `t`. */
  lemma HeadingIsTitle(filename: string, t: string, rest: string)
    requires t != "" && IsStripped(t) && '\n' !in t
    requires rest == "" || rest[0] == '\n'
    ensures RecipeTitle(filename, "# " + t + rest) == t
  {
    var s := "# " + t + rest;
    TitleLine(t, rest);
    assert s[2..2 + |t|] == t;
    StripStripped(t);
    assert TitleAt(s, 0) == Some(t);
  }

  /** The heading line `# t` spans from its third character to the end of `t`. */
  lemma TitleLine(t: string, rest: string)
    requires t != "" && IsStripped(t) && '\n' !in t
    requires rest == "" || rest[0] == '\n'
    ensures SpanSpaces("# " + t + rest, 1) == 2
    ensures LineEnd("# " + t + rest, 2) == 2 + |t|
  {
    var s := "# " + t + rest;
    assert IsSpace(s[1]) && s[2] == t[0];
    assert forall k :: 2 <= k < 2 + |t| ==> s[k] == t[k - 2];
    assert 2 + |t| < |s| ==> s[2 + |t|] == '\n';
  }

  /** Without any `#` in the text, the name comes from the file name. */
  lemma NoHeadingTitle(filename: string, content: string)
    requires '#' !in content
    ensures RecipeTitle(filename, content) == FilenameTitle(filename)
  {
    NoHashNoTitle(content, 0);
  }

  lemma {:induction false} NoHashNoTitle(s: string, p: nat)
    requires p <= |s| && '#' !in s
    ensures FindTitle(s, p) == None
    decreases |s| - p
  {
    if p < |s| {
      assert s[p] in s;
      NoHashNoTitle(s, p + 1);
    }
  }

  /** A recipe opening with `Servings: n` has `n` servings, for every `n`. */
  lemma ServingsLine(n: nat, rest: string)
    requires rest == "" || !IsDigit(rest[0])
    ensures RecipeServings("Servings: " + NatToString(n) + rest) == n
  {
    var digits := NatToString(n);
    var s := "Servings: " + digits + rest;
    assert s[..9] == "Servings:";
    assert HasAtIgnoringCase(s, 0, "servings:");
    assert SpanSpaces(s, 9) == 10 by {
      assert IsSpace(s[9]) && s[10] == digits[0];
    }
    assert SpanDigits(s, 10) == 10 + |digits| by {
      assert forall k :: 10 <= k < 10 + |digits| ==> s[k] == digits[k - 10];
      assert 10 + |digits| < |s| ==> s[10 + |digits|] == rest[0];
    }
    assert s[10..10 + |digits|] == digits;
    NatToStringRoundTrip(n);
    assert ServingsAt(s, 0) == Some(n);
  }

  /** Without any line starting with `servings:` (in any case), a recipe serves 4. */
  lemma ServingsDefault(content: string)
    requires forall p :: 0 <= p <= |content| && AtLineStart(content, p) ==> !HasAtIgnoringCase(content, p, "servings:")
    ensures RecipeServings(content) == 4
  {
    NoServingsFrom(content, 0);
  }

  lemma {:induction false} NoServingsFrom(s: string, p: nat)
    requires p <= |s|
    requires forall q :: p <= q <= |s| && AtLineStart(s, q) ==> !HasAtIgnoringCase(s, q, "servings:")
    ensures FindServings(s, p) == None
    decreases |s| - p
  {
    if p < |s| {
      NoServingsFrom(s, p + 1);
    }
  }

  /**
   * A recipe that opens with `## Ingredients` and a line break has as its
   * section everything up to the next line that starts with `##`.
   */
  lemma SectionAfterHeading(body: string, tail: string)
    requires (body != "" && !IsSpace(body[0])) || (body == "" && tail == "")
    requires tail == "" || HasAt(tail, 0, "\n##")
    requires forall k :: 0 <= k < |body| ==> !HasAt(body + tail, k, "\n##")
    ensures FindSection("## Ingredients\n" + body + tail, 0) == Some(body)
  {
    var s := "## Ingredients\n" + body + tail;
    HeadingParts(body, tail);
    HeadingStart(s);
    BodyEnd(s, 15, body, tail);
    assert FindSection(s, 0) == Some(s[15..SectionEnd(s, 15)]);
  }

  lemma HeadingParts(body: string, tail: string)
    requires (body != "" && !IsSpace(body[0])) || (body == "" && tail == "")
    ensures var s := "## Ingredients\n" + body + tail;
      s[..15] == "## Ingredients\n" && s[15..] == body + tail && s[15..15 + |body|] == body &&
      (|s| == 15 || !IsSpace(s[15]))
  {
    var s := "## Ingredients\n" + body + tail;
    if body != "" {
      assert s[15] == body[0];
    }
  }

  lemma HeadingStart(s: string)
    requires |s| >= 15 && s[..15] == "## Ingredients\n"
    requires |s| == 15 || !IsSpace(s[15])
    ensures SectionStart(s, 0) == Some(15)
  {
    HeadingHashes(s);
    HeadingWord(s);
    HeadingLineEnd(s);
  }

  lemma HeadingHashes(s: string)
    requires |s| >= 15 && s[..15] == "## Ingredients\n"
    ensures HasAt(s, 0, "##") && SpanSpaces(s, 2) == 3
  {
    var h := s[..15];
    assert s[0..2] == h[0..2] == "##";
    assert s[2] == h[2] == ' ' && s[3] == h[3] == 'I';
  }

  lemma HeadingWord(s: string)
    requires |s| >= 15 && s[..15] == "## Ingredients\n"
    ensures HasAtIgnoringCase(s, 3, "ingredients")
  {
    assert s[3..14] == s[..15][3..14] == "Ingredients";
    assert Lower("Ingredients") == "ingredients";
  }

  lemma HeadingLineEnd(s: string)
    requires |s| >= 15 && s[..15] == "## Ingredients\n"
    requires |s| == 15 || !IsSpace(s[15])
    ensures SpanSpaces(s, 14) == 15
    ensures SpanBackWhile(s, 15, c => c != '\n') == 15
  {
    assert s[14] == s[..15][14] == '\n';
  }

  lemma BodyEnd(s: string, i: nat, body: string, tail: string)
    requires i <= |s| && s[i..] == body + tail
    requires tail == "" || HasAt(tail, 0, "\n##")
    requires forall k :: 0 <= k < |body| ==> !HasAt(body + tail, k, "\n##")
    ensures SectionEnd(s, i) == i + |body|
  {
    forall k | i <= k < i + |body| ensures !HasAt(s, k, "\n##") {
      assert !HasAt(body + tail, k - i, "\n##");
      if k + 3 <= |s| {
        assert s[k..k + 3] == (body + tail)[k - i..k - i + 3];
      }
    }
    if tail != "" {
      assert s[i + |body|..i + |body| + 3] == tail[..3];
    }
    SectionEndIs(s, i, i + |body|);
  }

  /** The end of the section is the first position that the lookahead accepts. */
  lemma {:induction false} SectionEndIs(s: string, i: nat, e: nat)
    requires i <= e <= |s|
    requires e == |s| || HasAt(s, e, "\n##")
    requires forall k :: i <= k < e ==> !HasAt(s, k, "\n##")
    ensures SectionEnd(s, i) == e
    decreases e - i
  {
    if i < e {
      SectionEndIs(s, i + 1, e);
    }
  }
}
