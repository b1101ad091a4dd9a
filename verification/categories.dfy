/**
 * Store-zone rules and ordering (src/services/categories.py): the rules read
 * from the configuration text, the first-match classifier, the fixed zone
 * order and the sort by (zone order, lower-cased name).
 *
 * The configuration file is given as its text (`None` when the file does not
 * exist); Python's line iteration is modelled by splitting on newlines.
 */
module Categories {
  import opened Wrappers
  import opened Text
  import opened Sorting
  import opened ShoppingItems

  /** One configuration line `zone: pattern, pattern, ...`. */
  datatype Rule = Rule(category: string, patterns: seq<string>)

  /** CATEGORY_ORDER */
  const CategoryOrder: seq<string> := [
    "produce", "dairy", "meat", "seafood", "bakery", "frozen", "canned", "pasta",
    "rice", "condiments", "oils", "spices", "baking", "beverages", "snacks", "other"]

  const Other: string := "other"

  /** A pattern or zone as the loader leaves it: not blank, stripped and lower-case. */
  predicate IsClean(p: string) {
    IsStripped(p) && Lower(p) == p
  }

  lemma LowerKeepsSpaces(s: string)
    ensures forall k :: 0 <= k < |s| ==> (IsSpace(Lower(s)[k]) <==> IsSpace(s[k]))
  {
  }

  /** `x.strip().lower()` is clean. */
  lemma StripLowerClean(x: string)
    ensures IsClean(Lower(Strip(x)))
  {
    LowerKeepsSpaces(Strip(x));
    LowerIdempotent(Strip(x));
  }

  /** The patterns of a line: `p.strip().lower()` for every comma-separated piece that is not blank, in order. */
  function PatternList(pieces: seq<string>): seq<string>
    decreases |pieces|
  {
    if |pieces| == 0 then []
    else
      var last := pieces[|pieces| - 1];
      PatternList(pieces[..|pieces| - 1]) + (if Strip(last) == "" then [] else [Lower(Strip(last))])
  }

  lemma {:induction false} PatternListClean(pieces: seq<string>)
    ensures forall k :: 0 <= k < |PatternList(pieces)| ==> PatternList(pieces)[k] != "" && IsClean(PatternList(pieces)[k])
    decreases |pieces|
  {
    if |pieces| > 0 {
      var last := pieces[|pieces| - 1];
      PatternListClean(pieces[..|pieces| - 1]);
      StripLowerClean(last);
    }
  }

  /** What one configuration line contributes to `_load_categories`. */
  function RuleOf(line: string): Option<Rule> {
    var l := Strip(line);
    if l == "" || StartsWith(l, "#") then None
    else
      var i := IndexOf(l, ':', 0);
      if i == |l| then None
      else
        var patterns := PatternList(Split(l[i + 1..], ','));
        if patterns == [] then None else Some(Rule(Lower(Strip(l[..i])), patterns))
  }

  lemma RuleOfWellFormed(line: string)
    requires RuleOf(line).Some?
    ensures WellFormed(RuleOf(line).value)
  {
    var l := Strip(line);
    var i := IndexOf(l, ':', 0);
    RuleOfShape(line);
    RuleFromWellFormed(l[..i], l[i + 1..]);
  }

  lemma RuleOfShape(line: string)
    requires RuleOf(line).Some?
    ensures var l := Strip(line);
            var i := IndexOf(l, ':', 0);
            && i < |l|
            && PatternList(Split(l[i + 1..], ',')) != []
            && RuleOf(line).value == Rule(Lower(Strip(l[..i])), PatternList(Split(l[i + 1..], ',')))
  {
  }

  /** The rule read from a key without colons and a non-empty pattern list is well formed. */
  lemma RuleFromWellFormed(key: string, rest: string)
    requires ':' !in key
    requires PatternList(Split(rest, ',')) != []
    ensures WellFormed(Rule(Lower(Strip(key)), PatternList(Split(rest, ','))))
  {
    PatternListClean(Split(rest, ','));
    StripLowerClean(key);
    StripAddsNothing(key, ':');
    var c := Strip(key);
    assert forall k :: 0 <= k < |c| ==> Lower(c)[k] != ':';
  }

  /** The rules of the configuration lines, in file order. */
  function RulesOf(lines: seq<string>): seq<Rule>
    decreases |lines|
  {
    if |lines| == 0 then []
    else
      var r := RuleOf(lines[|lines| - 1]);
      RulesOf(lines[..|lines| - 1]) + (if r.Some? then [r.value] else [])
  }

  /** The rules read from the configuration text; a missing file gives none. */
  function ConfigRules(text: Option<string>): seq<Rule> {
    match text
    case None => []
    case Some(t) => RulesOf(Split(t, '\n'))
  }

  /** `_load_categories()` */
  method LoadCategories(text: Option<string>) returns (rules: seq<Rule>)
    ensures rules == ConfigRules(text)
  {
    rules := [];
    if text.None? {
      return;
    }
    var lines := Split(text.value, '\n');
    assert ConfigRules(text) == RulesOf(lines);
    var i := 0;
    while i < |lines|
      invariant 0 <= i <= |lines|
      invariant rules == RulesOf(lines[..i])
    {
      RulesOfStep(lines, i);
      rules := AddRule(rules, lines[i]);
      i := i + 1;
    }
    TakeAll(lines);
  }

  /** The body of the loop in `_load_categories`: the rule of one line, if it states one, is appended. */
  method AddRule(rules: seq<Rule>, line: string) returns (r: seq<Rule>)
    ensures r == rules + (if RuleOf(line).Some? then [RuleOf(line).value] else [])
  {
    r := rules;
    var rule := RuleOf(line);
    if rule.Some? {
      r := r + [rule.value];
    }
  }

  lemma RulesOfStep(lines: seq<string>, i: nat)
    requires i < |lines|
    ensures RulesOf(lines[..i + 1]) == RulesOf(lines[..i]) + (if RuleOf(lines[i]).Some? then [RuleOf(lines[i]).value] else [])
  {
    assert lines[..i + 1][..i] == lines[..i];
  }

  /** A rule as the loader produces it. */
  predicate WellFormed(r: Rule) {
    && r.patterns != []
    && (forall k :: 0 <= k < |r.patterns| ==> r.patterns[k] != "" && IsClean(r.patterns[k]))
    && IsClean(r.category)
    && ':' !in r.category
  }

  lemma {:induction false} RulesOfWellFormed(lines: seq<string>)
    ensures forall k :: 0 <= k < |RulesOf(lines)| ==> WellFormed(RulesOf(lines)[k])
    decreases |lines|
  {
    if |lines| > 0 {
      RulesOfWellFormed(lines[..|lines| - 1]);
      if RuleOf(lines[|lines| - 1]).Some? {
        RuleOfWellFormed(lines[|lines| - 1]);
      }
    }
  }

  /** The configuration line that states rule `r`. */
  function RuleLine(r: Rule): string {
    r.category + ":" + Join(r.patterns, ",")
  }

  lemma {:induction false} PatternListOfClean(ps: seq<string>)
    requires forall k :: 0 <= k < |ps| ==> ps[k] != "" && IsClean(ps[k])
    ensures PatternList(ps) == ps
    decreases |ps|
  {
    if |ps| > 0 {
      var init := ps[..|ps| - 1];
      var last := ps[|ps| - 1];
      PatternListOfClean(init);
      StripStripped(last);
      assert Lower(Strip(last)) == last;
      assert PatternList(ps) == init + [last];
      assert init + [last] == ps;
    }
  }

  /**
   * Reading back the line that states a well-formed rule gives the rule: the
   * loader's parsing and `RuleLine` are inverse, for zones that do not start
   * with `#` and patterns without commas.
   */
  lemma RuleLineRoundTrip(r: Rule)
    requires WellFormed(r)
    requires r.category == "" || r.category[0] != '#'
    requires forall k :: 0 <= k < |r.patterns| ==> ',' !in r.patterns[k]
    ensures RuleOf(RuleLine(r)) == Some(r)
  {
    var c := r.category;
    var line := RuleLine(r);
    RuleLineParts(r);
    RuleOfParts(line, |c|);
    assert [','] == ",";
    SplitJoin(r.patterns, ',');
    PatternListOfClean(r.patterns);
    StripStripped(c);
  }

  /** A join whose last part is not empty ends with that part's last character. */
  lemma JoinLastChar(ps: seq<string>, sep: string)
    requires ps != [] && ps[|ps| - 1] != ""
    ensures var j := Join(ps, sep);
            |j| > 0 && j[|j| - 1] == ps[|ps| - 1][|ps[|ps| - 1]| - 1]
  {
    var j := Join(ps, sep);
    var last := ps[|ps| - 1];
    JoinEnds(ps, sep);
    assert j[|j| - |last|..] == last;
    assert j[|j| - 1] == j[|j| - |last|..][|last| - 1];
  }

  /** The line of a well-formed rule is stripped, starts with its zone and has its first colon right after it. */
  lemma RuleLineParts(r: Rule)
    requires WellFormed(r)
    requires r.category == "" || r.category[0] != '#'
    ensures var line := RuleLine(r);
            && IsStripped(line) && |r.category| < |line| && line[0] != '#'
            && line[|r.category|] == ':' && ':' !in line[..|r.category|]
            && line[..|r.category|] == r.category && line[|r.category| + 1..] == Join(r.patterns, ",")
  {
    var c := r.category;
    var j := Join(r.patterns, ",");
    var line := RuleLine(r);
    JoinLastChar(r.patterns, ",");
    assert line[|line| - 1] == j[|j| - 1];
    assert line[0] == if c == "" then ':' else c[0];
    assert line[..|c|] == c;
    assert line[|c|] == ':';
    assert line[|c| + 1..] == j;
  }

  /** Reading a stripped, non-comment line whose first colon is at `i`. */
  lemma RuleOfParts(line: string, i: nat)
    requires IsStripped(line) && i < |line| && line[0] != '#'
    requires line[i] == ':' && ':' !in line[..i]
    ensures var ps := PatternList(Split(line[i + 1..], ','));
            RuleOf(line) == if ps == [] then None else Some(Rule(Lower(Strip(line[..i])), ps))
  {
    StripStripped(line);
    assert !StartsWith(line, "#");
    forall k | 0 <= k < i ensures line[k] != ':' {
      assert line[k] == line[..i][k];
    }
    IndexOfIs(line, ':', i);
  }

  /** `any(pattern in lowered for pattern in patterns)`, scanning in order. */
  function AnyPatternIn(patterns: seq<string>, lowered: string): (b: bool)
    ensures b <==> exists k :: 0 <= k < |patterns| && Contains(lowered, patterns[k])
    decreases |patterns|
  {
    if |patterns| == 0 then false
    else Contains(lowered, patterns[0]) || AnyPatternIn(patterns[1..], lowered)
  }

  predicate Matches(r: Rule, lowered: string) {
    exists k :: 0 <= k < |r.patterns| && Contains(lowered, r.patterns[k])
  }

  /** The zone of the first rule with a pattern in `lowered`, else "other". */
  function FirstCategory(rules: seq<Rule>, lowered: string): string
    decreases |rules|
  {
    if |rules| == 0 then Other
    else if AnyPatternIn(rules[0].patterns, lowered) then rules[0].category
    else FirstCategory(rules[1..], lowered)
  }

  /** `get_category(ingredient_name)` */
  function GetCategory(rules: seq<Rule>, name: string): string {
    FirstCategory(rules, Lower(name))
  }

  /**
   * The zone is that of the first rule, in file order, with a pattern that
   * occurs in the lower-cased name; when no rule has one (in particular when
   * there are no rules) it is "other".
   */
  lemma {:induction false} FirstCategorySpec(rules: seq<Rule>, lowered: string)
    ensures var r := FirstCategory(rules, lowered);
            || (exists i :: 0 <= i < |rules| && Matches(rules[i], lowered) && rules[i].category == r
                            && forall j :: 0 <= j < i ==> !Matches(rules[j], lowered))
            || ((forall j :: 0 <= j < |rules| ==> !Matches(rules[j], lowered)) && r == Other)
    decreases |rules|
  {
    if |rules| > 0 && !AnyPatternIn(rules[0].patterns, lowered) {
      FirstCategorySpec(rules[1..], lowered);
      var r := FirstCategory(rules, lowered);
      if exists i :: 0 <= i < |rules| - 1 && Matches(rules[1..][i], lowered) && rules[1..][i].category == r
                     && forall j :: 0 <= j < i ==> !Matches(rules[1..][j], lowered) {
        var i :| 0 <= i < |rules| - 1 && Matches(rules[1..][i], lowered) && rules[1..][i].category == r
                 && forall j :: 0 <= j < i ==> !Matches(rules[1..][j], lowered);
        assert forall j :: 0 <= j < i + 1 ==> !Matches(rules[j], lowered) by {
          forall j | 0 <= j < i + 1 ensures !Matches(rules[j], lowered) {
            if j > 0 {
              assert rules[j] == rules[1..][j - 1];
            }
          }
        }
      } else {
        forall j | 0 <= j < |rules| ensures !Matches(rules[j], lowered) {
          if j > 0 {
            assert rules[j] == rules[1..][j - 1];
          }
        }
      }
    }
  }

  lemma GetCategorySpec(rules: seq<Rule>, name: string)
    ensures var r := GetCategory(rules, name);
            || (exists i :: 0 <= i < |rules| && Matches(rules[i], Lower(name)) && rules[i].category == r
                            && forall j :: 0 <= j < i ==> !Matches(rules[j], Lower(name)))
            || ((forall j :: 0 <= j < |rules| ==> !Matches(rules[j], Lower(name))) && r == Other)
  {
    FirstCategorySpec(rules, Lower(name));
  }

  /** The position of `x` in `xs`, or `|xs|` when absent (`list.index` with the ValueError caught). */
  function IndexIn(xs: seq<string>, x: string): (r: nat)
    ensures r <= |xs|
    ensures r < |xs| ==> xs[r] == x
    ensures forall j :: 0 <= j < r ==> xs[j] != x
    decreases |xs|
  {
    if |xs| == 0 then 0
    else if xs[0] == x then 0
    else 1 + IndexIn(xs[1..], x)
  }

  /** `get_category_order(category)` */
  function GetCategoryOrder(category: string): (r: nat)
    ensures r <= |CategoryOrder|
  {
    IndexIn(CategoryOrder, Lower(category))
  }

  /**
   * A zone in the fixed list (in any case) sorts at its position; any other
   * zone sorts at 16, after "other", which is at 15.
   */
  lemma CategoryOrderSpec(category: string)
    ensures var r := GetCategoryOrder(category);
            && (Lower(category) in CategoryOrder ==> r < 16 && CategoryOrder[r] == Lower(category))
            && (Lower(category) !in CategoryOrder ==> r == 16)
  {
  }

  lemma OtherIsLastListed()
    ensures GetCategoryOrder(Other) == 15
    ensures forall c :: Lower(c) !in CategoryOrder ==> GetCategoryOrder(c) > GetCategoryOrder(Other)
  {
    OtherOrder();
    forall c | Lower(c) !in CategoryOrder ensures GetCategoryOrder(c) == 16 {
      CategoryOrderSpec(c);
    }
  }

  lemma OtherOrder()
    ensures GetCategoryOrder(Other) == 15
  {
    assert Lower(Other) == Other by {
      forall k | 0 <= k < |Other| ensures Lower(Other)[k] == Other[k] {
        assert !('A' <= Other[k] <= 'Z');
      }
    }
    OtherAt15();
  }

  lemma OtherAt15()
    ensures IndexIn(CategoryOrder, Other) == 15
  {
    var r := IndexIn(CategoryOrder, Other);
    OtherNotEarlier();
    assert CategoryOrder[15] == Other;
  }

  lemma OtherNotEarlier()
    ensures forall j :: 0 <= j < 15 ==> CategoryOrder[j] != Other
  {
    forall j | 0 <= j < 15 ensures CategoryOrder[j] != Other {
      if j < 8 {
        OtherNotIn(CategoryOrder[..8], j);
      } else {
        OtherNotIn(CategoryOrder[8..15], j - 8);
      }
    }
  }

  lemma OtherNotIn(xs: seq<string>, j: nat)
    requires j < |xs|
    requires xs == CategoryOrder[..8] || xs == CategoryOrder[8..15]
    ensures xs[j] != Other
  {
    if xs == CategoryOrder[..8] {
      assert xs == ["produce", "dairy", "meat", "seafood", "bakery", "frozen", "canned", "pasta"];
    } else {
      assert xs == ["rice", "condiments", "oils", "spices", "baking", "beverages", "snacks"];
    }
  }

  /** An item's zone: its own `category` when present, else the zone of its name. */
  function ItemCategory(rules: seq<Rule>, item: Item): string {
    item.category.GetOr(GetCategory(rules, item.name))
  }

  /** The sort key `(get_category_order(category), name.lower())`. */
  function CategoryKey(rules: seq<Rule>): Item -> SortKey {
    item => SortKey(GetCategoryOrder(ItemCategory(rules, item)), Lower(item.name))
  }

  /** `sort_by_category(items)` */
  function SortByCategory(rules: seq<Rule>, items: seq<Item>): seq<Item> {
    SortBy(items, CategoryKey(rules))
  }

  /**
   * The sorted list is a permutation of the items, ordered by (zone order,
   * lower-cased name), and items with equal keys keep their input order.
   */
  lemma SortByCategorySpec(rules: seq<Rule>, items: seq<Item>, k: SortKey)
    ensures multiset(SortByCategory(rules, items)) == multiset(items)
    ensures SortedBy(SortByCategory(rules, items), CategoryKey(rules))
    ensures WithKey(SortByCategory(rules, items), CategoryKey(rules), k) == WithKey(items, CategoryKey(rules), k)
  {
    SortBySorted(items, CategoryKey(rules));
    SortByStable(items, CategoryKey(rules), k);
  }

  /**
   * The loader's cache (`lru_cache(maxsize=1)` with `cache_clear`): the rules
   * are read once and then served from the snapshot until `Reload`.
   */
  class CategoryCache {
    var snapshot: Option<seq<Rule>>

    constructor()
      ensures snapshot == None
    {
      snapshot := None;
    }

    /** `_load_categories()` through the cache; `text` is the file as it is now. */
    method Rules(text: Option<string>) returns (rules: seq<Rule>)
      modifies this
      ensures old(snapshot).Some? ==> rules == old(snapshot).value && snapshot == old(snapshot)
      ensures old(snapshot).None? ==> rules == ConfigRules(text) && snapshot == Some(rules)
    {
      if snapshot.Some? {
        rules := snapshot.value;
      } else {
        rules := LoadCategories(text);
        snapshot := Some(rules);
      }
    }

    /** `reload_categories()` */
    method Reload()
      modifies this
      ensures snapshot == None
    {
      snapshot := None;
    }
  }
}
