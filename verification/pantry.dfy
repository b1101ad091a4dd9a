/**
 * Pantry staples (src/services/pantry.py): the patterns read from the pantry
 * file, the substring test, and the split of a shopping list into the items
 * to buy and the sorted names of the pantry items it mentions.
 *
 * The pantry file is given as its text (`None` when it does not exist).
 */
module Pantry {
  import opened Wrappers
  import opened Text
  import opened Sorting
  import opened ShoppingItems

  /** What one line of the pantry file contributes: its stripped, lower-cased text, unless blank or a `#` line. */
  function PatternOf(line: string): Option<string> {
    var l := Strip(line);
    if l == "" || StartsWith(l, "#") then None else Some(Lower(l))
  }

  /** The patterns of the pantry file's lines, in file order. */
  function PatternsOf(lines: seq<string>): seq<string>
    decreases |lines|
  {
    if |lines| == 0 then []
    else
      var p := PatternOf(lines[|lines| - 1]);
      PatternsOf(lines[..|lines| - 1]) + (if p.Some? then [p.value] else [])
  }

  function PantryPatterns(text: Option<string>): seq<string> {
    match text
    case None => []
    case Some(t) => PatternsOf(Split(t, '\n'))
  }

  /** `_load_pantry_items()` */
  method LoadPantryItems(text: Option<string>) returns (patterns: seq<string>)
    ensures patterns == PantryPatterns(text)
  {
    patterns := [];
    if text.None? {
      return;
    }
    var lines := Split(text.value, '\n');
    assert PantryPatterns(text) == PatternsOf(lines);
    var i := 0;
    while i < |lines|
      invariant 0 <= i <= |lines|
      invariant patterns == PatternsOf(lines[..i])
    {
      assert lines[..i + 1][..i] == lines[..i];
      patterns := AddPattern(patterns, lines[i]);
      i := i + 1;
    }
    TakeAll(lines);
  }

  /** The body of the loop in `_load_pantry_items`: a line that is not blank and not a comment is appended, stripped and lower-cased. */
  method AddPattern(patterns: seq<string>, line: string) returns (r: seq<string>)
    ensures r == patterns + (if PatternOf(line).Some? then [PatternOf(line).value] else [])
  {
    r := patterns;
    var l := Strip(line);
    if l != "" && !StartsWith(l, "#") {
      r := r + [Lower(l)];
    }
  }

  /** Every pattern is a non-blank, stripped, lower-case line that does not start with `#`. */
  lemma {:induction false} PatternsClean(lines: seq<string>)
    ensures forall k :: 0 <= k < |PatternsOf(lines)| ==>
              var p := PatternsOf(lines)[k];
              p != "" && IsStripped(p) && Lower(p) == p && p[0] != '#'
    decreases |lines|
  {
    if |lines| > 0 {
      var init := lines[..|lines| - 1];
      var p := PatternOf(lines[|lines| - 1]);
      PatternsClean(init);
      if p.Some? {
        PatternOfClean(lines[|lines| - 1]);
      }
      assert PatternsOf(lines) == PatternsOf(init) + (if p.Some? then [p.value] else []);
    }
  }

  lemma PatternOfClean(line: string)
    requires PatternOf(line).Some?
    ensures var p := PatternOf(line).value;
            p != "" && IsStripped(p) && Lower(p) == p && p[0] != '#'
  {
    var l := Strip(line);
    LowerIdempotent(l);
    assert l[..1] == [l[0]];
  }

  /** `is_pantry_item(ingredient_name)` */
  function IsPantryItem(patterns: seq<string>, name: string): (b: bool)
    decreases |patterns|
  {
    if |patterns| == 0 then false
    else Contains(Lower(name), patterns[0]) || IsPantryItem(patterns[1..], name)
  }

  /** A name is a pantry item exactly when some pattern occurs in its lower-cased form; never with no patterns. */
  lemma {:induction false} IsPantryItemSpec(patterns: seq<string>, name: string)
    ensures IsPantryItem(patterns, name) <==> exists k :: 0 <= k < |patterns| && Contains(Lower(name), patterns[k])
    decreases |patterns|
  {
    if |patterns| > 0 {
      IsPantryItemSpec(patterns[1..], name);
      if exists k :: 0 <= k < |patterns| && Contains(Lower(name), patterns[k]) {
        var k :| 0 <= k < |patterns| && Contains(Lower(name), patterns[k]);
        if k > 0 {
          assert patterns[1..][k - 1] == patterns[k];
        }
      }
    }
  }

  /** The items to buy: those whose names match no pattern, in their order. */
  function ToBuy(patterns: seq<string>, items: seq<Item>): seq<Item>
    decreases |items|
  {
    if |items| == 0 then []
    else
      var last := items[|items| - 1];
      ToBuy(patterns, items[..|items| - 1]) + (if IsPantryItem(patterns, last.name) then [] else [last])
  }

  /** The items whose names match a pattern, in their order. */
  function InPantry(patterns: seq<string>, items: seq<Item>): seq<Item>
    decreases |items|
  {
    if |items| == 0 then []
    else
      var last := items[|items| - 1];
      InPantry(patterns, items[..|items| - 1]) + (if IsPantryItem(patterns, last.name) then [last] else [])
  }

  /** The names of the pantry items, each once, in order of first appearance. */
  function PantryNames(patterns: seq<string>, items: seq<Item>): seq<string>
    decreases |items|
  {
    if |items| == 0 then []
    else
      var last := items[|items| - 1];
      var names := PantryNames(patterns, items[..|items| - 1]);
      if IsPantryItem(patterns, last.name) && last.name !in names then names + [last.name] else names
  }

  /** `filter_pantry_items(ingredients)` */
  method FilterPantryItems(patterns: seq<string>, items: seq<Item>) returns (shopping: seq<Item>, pantry: seq<string>)
    ensures shopping == ToBuy(patterns, items)
    ensures pantry == SortBy(PantryNames(patterns, items), TextKey)
  {
    shopping := [];
    var names: seq<string> := [];
    var i := 0;
    while i < |items|
      invariant 0 <= i <= |items|
      invariant shopping == ToBuy(patterns, items[..i])
      invariant names == PantryNames(patterns, items[..i])
    {
      assert items[..i + 1][..i] == items[..i];
      var name := items[i].name;
      if IsPantryItem(patterns, name) {
        if name !in names {
          names := names + [name];
        }
      } else {
        shopping := shopping + [items[i]];
      }
      i := i + 1;
    }
    TakeAll(items);
    pantry := SortBy(names, TextKey);
  }

  /** Every item goes to exactly one side: the two sides together are a permutation of the items. */
  lemma SplitIsPartition(patterns: seq<string>, items: seq<Item>)
    ensures multiset(ToBuy(patterns, items)) + multiset(InPantry(patterns, items)) == multiset(items)
    ensures forall x :: x in ToBuy(patterns, items) ==> !IsPantryItem(patterns, x.name)
    ensures forall x :: x in InPantry(patterns, items) ==> IsPantryItem(patterns, x.name)
  {
    SplitCounts(patterns, items);
    ToBuyNotPantry(patterns, items);
    InPantryPantry(patterns, items);
  }

  lemma {:induction false} SplitCounts(patterns: seq<string>, items: seq<Item>)
    ensures multiset(ToBuy(patterns, items)) + multiset(InPantry(patterns, items)) == multiset(items)
    decreases |items|
  {
    if |items| > 0 {
      var init := items[..|items| - 1];
      SplitCounts(patterns, init);
      assert items == init + [items[|items| - 1]];
    }
  }

  lemma {:induction false} ToBuyNotPantry(patterns: seq<string>, items: seq<Item>)
    ensures forall x :: x in ToBuy(patterns, items) ==> !IsPantryItem(patterns, x.name)
    decreases |items|
  {
    if |items| > 0 {
      ToBuyNotPantry(patterns, items[..|items| - 1]);
    }
  }

  lemma {:induction false} InPantryPantry(patterns: seq<string>, items: seq<Item>)
    ensures forall x :: x in InPantry(patterns, items) ==> IsPantryItem(patterns, x.name)
    decreases |items|
  {
    if |items| > 0 {
      InPantryPantry(patterns, items[..|items| - 1]);
    }
  }

  /** The pantry names are exactly the names of the items in the pantry, without repetitions. */
  lemma {:induction false} PantryNamesSpec(patterns: seq<string>, items: seq<Item>)
    ensures forall x :: x in PantryNames(patterns, items) <==> exists it :: it in InPantry(patterns, items) && it.name == x
    ensures Distinct(PantryNames(patterns, items))
    decreases |items|
  {
    if |items| > 0 {
      var init := items[..|items| - 1];
      var last := items[|items| - 1];
      PantryNamesSpec(patterns, init);
      var before := PantryNames(patterns, init);
      if IsPantryItem(patterns, last.name) && last.name !in before {
        assert PantryNames(patterns, items) == before + [last.name];
      }
      forall x | x in PantryNames(patterns, items)
        ensures exists it :: it in InPantry(patterns, items) && it.name == x
      {
        if x in before {
          var it :| it in InPantry(patterns, init) && it.name == x;
          assert it in InPantry(patterns, items);
        } else {
          assert last in InPantry(patterns, items);
        }
      }
      forall it | it in InPantry(patterns, items) ensures it.name in PantryNames(patterns, items) {
        if it in InPantry(patterns, init) {
          assert it.name in before;
        }
      }
    }
  }

  predicate Distinct(s: seq<string>) {
    forall i, j :: 0 <= i < j < |s| ==> s[i] != s[j]
  }

  predicate StrictlyAscending(s: seq<string>) {
    forall i, j :: 0 <= i < j < |s| ==> TextLe(s[i], s[j]) && s[i] != s[j]
  }

  lemma {:induction false} DistinctCounts(s: seq<string>)
    requires Distinct(s)
    ensures forall x :: multiset(s)[x] <= 1
    decreases |s|
  {
    if |s| > 0 {
      var init := s[..|s| - 1];
      DistinctCounts(init);
      assert s == init + [s[|s| - 1]];
      assert forall i :: 0 <= i < |init| ==> init[i] == s[i] != s[|s| - 1];
      assert s[|s| - 1] !in init;
    }
  }

  lemma CountsDistinct(s: seq<string>)
    requires forall x :: multiset(s)[x] <= 1
    ensures Distinct(s)
  {
    forall i, j | 0 <= i < j < |s| ensures s[i] != s[j] {
      assert s == s[..j] + [s[j]] + s[j + 1..];
      assert multiset(s)[s[j]] >= multiset(s[..j])[s[j]] + 1;
      assert s[..j][i] == s[i];
      assert s[i] in multiset(s[..j]);
    }
  }

  /**
   * The pantry list holds each matched name once, in its original spelling,
   * in ascending order, and nothing else.
   */
  lemma PantryListSpec(patterns: seq<string>, items: seq<Item>)
    ensures var pantry := SortBy(PantryNames(patterns, items), TextKey);
            && StrictlyAscending(pantry)
            && forall x :: x in pantry <==> exists it :: it in items && IsPantryItem(patterns, it.name) && it.name == x
  {
    PantryListAscending(patterns, items);
    PantryListMembers(patterns, items);
  }

  lemma PantryListAscending(patterns: seq<string>, items: seq<Item>)
    ensures StrictlyAscending(SortBy(PantryNames(patterns, items), TextKey))
  {
    var names := PantryNames(patterns, items);
    var pantry := SortBy(names, TextKey);
    PantryNamesSpec(patterns, items);
    SortBySorted(names, TextKey);
    DistinctCounts(names);
    CountsDistinct(pantry);
    forall i, j | 0 <= i < j < |pantry| ensures TextLe(pantry[i], pantry[j]) {
      assert KeyLe(TextKey(pantry[i]), TextKey(pantry[j]));
    }
  }

  lemma PantryListMembers(patterns: seq<string>, items: seq<Item>)
    ensures forall x :: x in SortBy(PantryNames(patterns, items), TextKey) <==>
              exists it :: it in items && IsPantryItem(patterns, it.name) && it.name == x
  {
    var names := PantryNames(patterns, items);
    SortedMembers(names);
    PantryNamesMembers(patterns, items);
  }

  /** Sorting keeps the members. */
  lemma SortedMembers(names: seq<string>)
    ensures forall x :: x in SortBy(names, TextKey) <==> x in names
  {
    var pantry := SortBy(names, TextKey);
    forall x ensures x in pantry <==> x in names {
      assert x in pantry <==> x in multiset(pantry);
      assert x in names <==> x in multiset(names);
    }
  }

  lemma PantryNamesMembers(patterns: seq<string>, items: seq<Item>)
    ensures forall x :: x in PantryNames(patterns, items) <==>
              exists it :: it in items && IsPantryItem(patterns, it.name) && it.name == x
  {
    var names := PantryNames(patterns, items);
    PantryNamesSpec(patterns, items);
    SplitIsPartition(patterns, items);
    forall x ensures x in names <==> exists it :: it in items && IsPantryItem(patterns, it.name) && it.name == x {
      if x in names {
        var it :| it in InPantry(patterns, items) && it.name == x;
        assert it in multiset(items);
      }
      if exists it :: it in items && IsPantryItem(patterns, it.name) && it.name == x {
        var it :| it in items && IsPantryItem(patterns, it.name) && it.name == x;
        assert it in multiset(items);
        assert it !in ToBuy(patterns, items);
        assert it in multiset(InPantry(patterns, items));
      }
    }
  }

  /** The `lru_cache` around `_load_pantry_items()`: the patterns of the first load, until a reload. */
  class PantryCache {
    var snapshot: Option<seq<string>>

    constructor()
      ensures snapshot == None
    {
      snapshot := None;
    }

    /** `get_pantry_items()`; `text` is the pantry file as it is now. */
    method Patterns(text: Option<string>) returns (patterns: seq<string>)
      modifies this
      ensures old(snapshot).Some? ==> patterns == old(snapshot).value && snapshot == old(snapshot)
      ensures old(snapshot).None? ==> patterns == PantryPatterns(text) && snapshot == Some(patterns)
    {
      if snapshot.Some? {
        patterns := snapshot.value;
      } else {
        patterns := LoadPantryItems(text);
        snapshot := Some(patterns);
      }
    }

    /** `reload_pantry()` */
    method Reload()
      modifies this
      ensures snapshot == None
    {
      snapshot := None;
    }
  }
}
