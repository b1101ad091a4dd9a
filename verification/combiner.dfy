/**
 * Combining the ingredients of several recipes into one shopping list
 * (src/services/combiner.py): each ingredient is scaled by its recipe's
 * multiplier, converted to metric and keyed by its normalised name and unit;
 * ingredients with the same key become one item whose quantity is their sum.
 *
 * The `inflect` engine's `singular_noun` is a parameter (`None` for its
 * `False`), as is Python's `str(float)` (`floatRepr`).
 */
module Combiner {
  import opened Wrappers
  import opened Text
  import opened Sorting
  import opened Converter
  import opened ShoppingItems
  import opened Categories

  /** A recipe ingredient as stored (`recipe_id`, `quantity`, `unit`, `name`). */
  datatype Ingredient = Ingredient(recipeId: int, quantity: Option<real>, unit: Option<string>, name: string)

  /** An ingredient after scaling and conversion, with its normalised name. */
  datatype Entry = Entry(quantity: Option<real>, unit: Option<string>, name: string, normName: string)

  /** The grouping key `(norm_name, unit)`. */
  datatype GroupKey = GroupKey(normName: string, unit: Option<string>)

  function KeyOf(e: Entry): GroupKey {
    GroupKey(e.normName, e.unit)
  }

  // ---------------------------------------------------------------- names

  /** `singularize(word)` */
  function Singularize(word: string, singularNoun: string -> Option<string>): string {
    if EndsWith(Lower(word), "ies") then word[..|word| - 3] + "y"
    else match singularNoun(word)
      case Some(s) => if s != "" then s else word
      case None => word
  }

  /**
   * A word ending in "ies" (in any case) loses those three letters for a "y";
   * otherwise the word is the engine's answer, or itself when the engine has
   * none; a non-empty word never becomes empty.
   */
  lemma SingularizeSpec(word: string, singularNoun: string -> Option<string>)
    ensures var r := Singularize(word, singularNoun);
            && (EndsWith(Lower(word), "ies") ==> |r| == |word| - 2 && r[|r| - 1] == 'y' && StartsWith(word, r[..|r| - 1]))
            && (!EndsWith(Lower(word), "ies") && singularNoun(word).Some? && singularNoun(word).value != "" ==> r == singularNoun(word).value)
            && (!EndsWith(Lower(word), "ies") && (singularNoun(word).None? || singularNoun(word) == Some("")) ==> r == word)
            && (word != "" ==> r != "")
  {
    var r := Singularize(word, singularNoun);
    if EndsWith(Lower(word), "ies") {
      assert r[..|r| - 1] == word[..|word| - 3];
    }
  }

  /** The words with the last one singularised. */
  function SingularizeLast(words: seq<string>, singularNoun: string -> Option<string>): seq<string> {
    if words == [] then [] else words[..|words| - 1] + [Singularize(words[|words| - 1], singularNoun)]
  }

  /** The value of `normalize_ingredient_name(name)`. */
  function NormalName(name: string, singularNoun: string -> Option<string>): string {
    Join(SingularizeLast(Words(Strip(Lower(name))), singularNoun), " ")
  }

  /** `normalize_ingredient_name(name)` */
  method NormalizeIngredientName(name: string, singularNoun: string -> Option<string>) returns (r: string)
    ensures r == NormalName(name, singularNoun)
  {
    var lowered := Strip(Lower(name));
    var words := Words(lowered);
    var normalized: seq<string> := [];
    var i := 0;
    while i < |words|
      invariant 0 <= i <= |words|
      invariant normalized == words[..i]
    {
      normalized := normalized + [words[i]];
      i := i + 1;
    }
    TakeAll(words);
    if normalized != [] {
      normalized := normalized[..|normalized| - 1] + [Singularize(normalized[|normalized| - 1], singularNoun)];
    }
    assert normalized == SingularizeLast(words, singularNoun);
    r := Join(normalized, " ");
  }

  /** A join is at least as long as its last part. */
  lemma {:induction false} JoinLast(parts: seq<string>, sep: string)
    requires |parts| >= 1
    ensures |Join(parts, sep)| >= |parts[|parts| - 1]|
    decreases |parts|
  {
    if |parts| > 1 {
      JoinLast(parts[1..], sep);
    }
  }

  /** `strip()` leaves nothing exactly when the text is all whitespace. */
  lemma StripBlank(s: string)
    ensures Strip(s) == "" <==> forall k :: 0 <= k < |s| ==> IsSpace(s[k])
  {
    var a := SpanSpaces(s, 0);
    var l := LStrip(s);
  }

  /** A name normalises to the empty key exactly when it is blank. */
  lemma NormalNameBlank(name: string, singularNoun: string -> Option<string>)
    ensures NormalName(name, singularNoun) == "" <==> forall k :: 0 <= k < |name| ==> IsSpace(name[k])
  {
    var lowered := Lower(name);
    var stripped := Strip(lowered);
    LowerKeepsSpaces(name);
    StripBlank(lowered);
    WordsFromEmpty(stripped, 0);
    var words := Words(stripped);
    if words != [] {
      var last := words[|words| - 1];
      SingularizeSpec(last, singularNoun);
      JoinLast(SingularizeLast(words, singularNoun), " ");
    }
  }

  /** Names that differ only in letter case normalise alike. */
  lemma NormalNameIgnoresCase(name: string, singularNoun: string -> Option<string>)
    ensures NormalName(Lower(name), singularNoun) == NormalName(name, singularNoun)
  {
    LowerIdempotent(name);
  }

  /** A single word normalises to its singularised lower-case form. */
  lemma NormalNameOfWord(word: string, singularNoun: string -> Option<string>)
    requires word != ""
    requires forall k :: 0 <= k < |word| ==> !IsSpace(word[k])
    ensures NormalName(word, singularNoun) == Singularize(Lower(word), singularNoun)
  {
    var w := Lower(word);
    LowerKeepsSpaces(word);
    StripStripped(w);
    assert SpanSpaces(w, 0) == 0;
    assert forall k :: 0 <= k < |w| ==> NotSpace(w[k]);
    assert SpanWhile(w, 0, NotSpace) == |w|;
    assert WordsFrom(w, |w|) == [];
    assert w[0..|w|] == w;
    assert Words(w) == [w];
  }

  // ---------------------------------------------------------------- scaling

  /** `recipe_multipliers.get(recipe_id, 1.0)` */
  function Multiplier(multipliers: map<int, real>, recipeId: int): real {
    if recipeId in multipliers then multipliers[recipeId] else 1.0
  }

  /** The quantity scaled by the recipe's multiplier; a missing quantity stays missing. */
  function Scaled(ing: Ingredient, multipliers: map<int, real>): (q: Option<real>)
    ensures q.None? <==> ing.quantity.None?
    ensures ing.recipeId !in multipliers ==> q == ing.quantity
  {
    if ing.quantity.None? then None else Some(ing.quantity.value * Multiplier(multipliers, ing.recipeId))
  }

  /** One ingredient as the first loop of `combine_ingredients` records it. */
  function Prepare(ing: Ingredient, multipliers: map<int, real>, singularNoun: string -> Option<string>): Entry {
    var m := ConvertToMetric(Scaled(ing, multipliers), ing.unit);
    Entry(m.quantity, m.unit, ing.name, NormalName(ing.name, singularNoun))
  }

  function Prepared(ings: seq<Ingredient>, multipliers: map<int, real>, singularNoun: string -> Option<string>): (es: seq<Entry>)
    ensures |es| == |ings|
    decreases |ings|
  {
    if |ings| == 0 then []
    else Prepared(ings[..|ings| - 1], multipliers, singularNoun) + [Prepare(ings[|ings| - 1], multipliers, singularNoun)]
  }

  // ---------------------------------------------------------------- grouping

  /** The keys of the entries, each once, in order of first appearance (the keys of the `defaultdict`). */
  function KeysOf(entries: seq<Entry>): seq<GroupKey>
    decreases |entries|
  {
    if |entries| == 0 then []
    else
      var ks := KeysOf(entries[..|entries| - 1]);
      var k := KeyOf(entries[|entries| - 1]);
      if k in ks then ks else ks + [k]
  }

  /** The entries with key `k`, in their order (`grouped[k]`). */
  function GroupOf(entries: seq<Entry>, k: GroupKey): seq<Entry>
    decreases |entries|
  {
    if |entries| == 0 then []
    else
      var last := entries[|entries| - 1];
      GroupOf(entries[..|entries| - 1], k) + (if KeyOf(last) == k then [last] else [])
  }

  lemma Snoc<T>(s: seq<T>, x: T)
    ensures (s + [x])[..|s|] == s && (s + [x])[|s|] == x
  {
  }

  predicate DistinctKeys(ks: seq<GroupKey>) {
    forall i, j :: 0 <= i < j < |ks| ==> ks[i] != ks[j]
  }

  /** The keys are distinct. */
  lemma {:induction false} KeysDistinct(entries: seq<Entry>)
    ensures DistinctKeys(KeysOf(entries))
    decreases |entries|
  {
    if |entries| > 0 {
      KeysDistinct(entries[..|entries| - 1]);
    }
  }

  /** A key is listed exactly when some entry has it. */
  lemma {:induction false} KeysListed(entries: seq<Entry>, k: GroupKey)
    ensures k in KeysOf(entries) <==> exists i :: 0 <= i < |entries| && KeyOf(entries[i]) == k
    decreases |entries|
  {
    if |entries| > 0 {
      var init := entries[..|entries| - 1];
      var last := entries[|entries| - 1];
      KeysListed(init, k);
      if exists i :: 0 <= i < |entries| && KeyOf(entries[i]) == k {
        var i :| 0 <= i < |entries| && KeyOf(entries[i]) == k;
        if i < |init| {
          assert KeyOf(init[i]) == k;
        }
      }
      if k in KeysOf(init) {
        var i :| 0 <= i < |init| && KeyOf(init[i]) == k;
        assert KeyOf(entries[i]) == k;
      }
    }
  }

  /** A key is listed exactly when its group is not empty, and every entry of a group has the group's key. */
  lemma {:induction false} GroupsOfKeys(entries: seq<Entry>, k: GroupKey)
    ensures k in KeysOf(entries) <==> GroupOf(entries, k) != []
    ensures forall e :: e in GroupOf(entries, k) ==> KeyOf(e) == k
    decreases |entries|
  {
    if |entries| > 0 {
      GroupsOfKeys(entries[..|entries| - 1], k);
    }
  }

  /**
   * The keys are distinct, and a key is listed exactly when some entry has
   * it, which is exactly when its group is not empty; every entry of a group
   * has the group's key.
   */
  lemma KeysOfSpec(entries: seq<Entry>, k: GroupKey)
    ensures DistinctKeys(KeysOf(entries))
    ensures k in KeysOf(entries) <==> exists i :: 0 <= i < |entries| && KeyOf(entries[i]) == k
    ensures k in KeysOf(entries) <==> GroupOf(entries, k) != []
    ensures forall e :: e in GroupOf(entries, k) ==> KeyOf(e) == k
  {
    KeysDistinct(entries);
    KeysListed(entries, k);
    GroupsOfKeys(entries, k);
  }

  /** The first entry of a group is the first entry, in input order, with that key. */
  lemma {:induction false} GroupFirst(entries: seq<Entry>, k: GroupKey)
    requires GroupOf(entries, k) != []
    ensures exists i :: 0 <= i < |entries| && entries[i] == GroupOf(entries, k)[0]
                        && KeyOf(entries[i]) == k && forall j :: 0 <= j < i ==> KeyOf(entries[j]) != k
    decreases |entries|
  {
    var init := entries[..|entries| - 1];
    var last := entries[|entries| - 1];
    assert GroupOf(entries, k) == GroupOf(init, k) + (if KeyOf(last) == k then [last] else []);
    if GroupOf(init, k) != [] {
      GroupFirst(init, k);
      var i :| 0 <= i < |init| && init[i] == GroupOf(init, k)[0]
                 && KeyOf(init[i]) == k && forall j :: 0 <= j < i ==> KeyOf(init[j]) != k;
      assert GroupOf(entries, k)[0] == init[i] == entries[i];
      assert forall j :: 0 <= j < i ==> entries[j] == init[j];
    } else {
      KeysOfSpec(init, k);
      var i := |entries| - 1;
      assert GroupOf(entries, k) == [last];
      assert forall j :: 0 <= j < i ==> entries[j] == init[j] && KeyOf(init[j]) != k;
      assert entries[i] == GroupOf(entries, k)[0] && KeyOf(entries[i]) == k;
    }
  }

  /** The sum of the group sizes over `keys`. */
  function GroupSizes(keys: seq<GroupKey>, entries: seq<Entry>): nat
    decreases |keys|
  {
    if |keys| == 0 then 0
    else GroupSizes(keys[..|keys| - 1], entries) + |GroupOf(entries, keys[|keys| - 1])|
  }

  lemma {:induction false} GroupSizesSnoc(keys: seq<GroupKey>, entries: seq<Entry>, e: Entry)
    requires DistinctKeys(keys)
    ensures GroupSizes(keys, entries + [e]) == GroupSizes(keys, entries) + (if KeyOf(e) in keys then 1 else 0)
    decreases |keys|
  {
    Snoc(entries, e);
    if |keys| > 0 {
      var init := keys[..|keys| - 1];
      Snoc(init, keys[|keys| - 1]);
      assert keys == init + [keys[|keys| - 1]];
      GroupSizesSnoc(init, entries, e);
    }
  }

  /** Every entry lands in exactly one group: the group sizes add up to the number of entries. */
  lemma {:induction false} GroupsPartition(entries: seq<Entry>)
    ensures GroupSizes(KeysOf(entries), entries) == |entries|
    decreases |entries|
  {
    if |entries| > 0 {
      var init := entries[..|entries| - 1];
      var last := entries[|entries| - 1];
      var ks := KeysOf(init);
      var k := KeyOf(last);
      Snoc(init, last);
      assert entries == init + [last];
      GroupsPartition(init);
      KeysOfSpec(init, k);
      GroupSizesSnoc(ks, init, last);
      if k !in ks {
        Snoc(ks, k);
        assert GroupOf(init, k) == [];
      }
    }
  }

  // ---------------------------------------------------------------- totals

  /** The running total of the second loop: `None` until a quantity is seen. */
  function Total(group: seq<Entry>): Option<real>
    decreases |group|
  {
    if |group| == 0 then None
    else
      var t := Total(group[..|group| - 1]);
      var q := group[|group| - 1].quantity;
      if q.None? then t else Some(t.GetOr(0.0) + q.value)
  }

  /** The sum of the quantities, a missing one counting as zero. */
  function QuantitySum(group: seq<Entry>): real
    decreases |group|
  {
    if |group| == 0 then 0.0 else QuantitySum(group[..|group| - 1]) + group[|group| - 1].quantity.GetOr(0.0)
  }

  /** The total is missing exactly when no entry has a quantity, and is otherwise the sum of those present. */
  lemma {:induction false} TotalSpec(group: seq<Entry>)
    ensures Total(group).None? <==> forall i :: 0 <= i < |group| ==> group[i].quantity.None?
    ensures Total(group).Some? ==> Total(group).value == QuantitySum(group)
    ensures Total(group).None? ==> QuantitySum(group) == 0.0
    decreases |group|
  {
    if |group| > 0 {
      var init := group[..|group| - 1];
      TotalSpec(init);
      assert forall i :: 0 <= i < |init| ==> init[i] == group[i];
    }
  }

  // ---------------------------------------------------------------- items

  /**
   * The combined item of a group, named after its first entry. A group is
   * never empty (`KeysOfSpec`); the empty one would be named "".
   */
  function CombinedItem(k: GroupKey, group: seq<Entry>, rules: seq<Rule>, floatRepr: real -> string): Item {
    var name := if group == [] then "" else group[0].name;
    var total := Total(group);
    var qs := FormatQuantity(total, k.unit, floatRepr);
    Item(name, total, k.unit, Some(if qs != "" then name + " " + qs else name), Some(GetCategory(rules, name)))
  }

  /** The combined items of `keys`, in their order. */
  function CombinedItems(keys: seq<GroupKey>, entries: seq<Entry>, rules: seq<Rule>, floatRepr: real -> string): (items: seq<Item>)
    ensures |items| == |keys|
    decreases |keys|
  {
    if |keys| == 0 then []
    else
      var k := keys[|keys| - 1];
      CombinedItems(keys[..|keys| - 1], entries, rules, floatRepr) + [CombinedItem(k, GroupOf(entries, k), rules, floatRepr)]
  }

  lemma CombinedItemsStep(keys: seq<GroupKey>, j: nat, entries: seq<Entry>, rules: seq<Rule>, floatRepr: real -> string)
    requires j < |keys|
    ensures CombinedItems(keys[..j + 1], entries, rules, floatRepr)
            == CombinedItems(keys[..j], entries, rules, floatRepr) + [CombinedItem(keys[j], GroupOf(entries, keys[j]), rules, floatRepr)]
  {
    assert keys[..j + 1][..j] == keys[..j];
  }

  lemma KeysHaveGroups(entries: seq<Entry>)
    ensures forall j :: 0 <= j < |KeysOf(entries)| ==> GroupOf(entries, KeysOf(entries)[j]) != []
  {
    forall j | 0 <= j < |KeysOf(entries)| ensures GroupOf(entries, KeysOf(entries)[j]) != [] {
      KeysOfSpec(entries, KeysOf(entries)[j]);
    }
  }

  /** The item at position `j` is the combined item of the `j`-th key's group. */
  lemma {:induction false} CombinedItemsAt(keys: seq<GroupKey>, entries: seq<Entry>, rules: seq<Rule>, floatRepr: real -> string, j: nat)
    requires j < |keys|
    ensures CombinedItems(keys, entries, rules, floatRepr)[j] == CombinedItem(keys[j], GroupOf(entries, keys[j]), rules, floatRepr)
    decreases |keys|
  {
    if j < |keys| - 1 {
      CombinedItemsAt(keys[..|keys| - 1], entries, rules, floatRepr, j);
    }
  }

  /**
   * A combined item carries its group's unit, the name of the group's first
   * entry and that name's zone; its quantity is missing exactly when no entry
   * has one and is otherwise the sum of theirs; its display text is the name,
   * a space and the formatted total, or just the name when that text is empty
   * (as it is when there is neither quantity nor unit).
   */
  lemma CombinedItemSpec(k: GroupKey, group: seq<Entry>, rules: seq<Rule>, floatRepr: real -> string)
    requires group != []
    ensures var item := CombinedItem(k, group, rules, floatRepr);
            && item.name == group[0].name
            && item.unit == k.unit
            && item.category == Some(GetCategory(rules, group[0].name))
            && (item.quantity.None? <==> forall i :: 0 <= i < |group| ==> group[i].quantity.None?)
            && (item.quantity.Some? ==> item.quantity.value == QuantitySum(group))
            && (var qs := FormatQuantity(item.quantity, k.unit, floatRepr);
                item.display == Some(if qs == "" then item.name else item.name + " " + qs))
            && item.display.Some? && StartsWith(item.display.value, item.name)
            && (item.quantity.None? && k.unit.None? ==> item.display == Some(item.name))
  {
    TotalSpec(group);
    var item := CombinedItem(k, group, rules, floatRepr);
    var name := group[0].name;
    assert item.display.value[..|name|] == name;
  }

    /** The value of `combine_ingredients(ingredients, recipe_multipliers)`. */
  function Combined(ings: seq<Ingredient>, multipliers: map<int, real>, rules: seq<Rule>,
                    singularNoun: string -> Option<string>, floatRepr: real -> string): seq<Item>
  {
    var entries := Prepared(ings, multipliers, singularNoun);
    SortByCategory(rules, CombinedItems(KeysOf(entries), entries, rules, floatRepr))
  }

  lemma PreparedStep(ings: seq<Ingredient>, i: nat, multipliers: map<int, real>, singularNoun: string -> Option<string>)
    requires i < |ings|
    ensures Prepared(ings[..i + 1], multipliers, singularNoun)
            == Prepared(ings[..i], multipliers, singularNoun) + [Prepare(ings[i], multipliers, singularNoun)]
  {
    assert ings[..i + 1][..i] == ings[..i];
  }

  lemma KeysStep(entries: seq<Entry>, e: Entry)
    ensures KeysOf(entries + [e]) == if KeyOf(e) in KeysOf(entries) then KeysOf(entries) else KeysOf(entries) + [KeyOf(e)]
  {
    Snoc(entries, e);
  }

  lemma GroupStep(entries: seq<Entry>, e: Entry, k: GroupKey)
    ensures GroupOf(entries + [e], k) == GroupOf(entries, k) + (if KeyOf(e) == k then [e] else [])
  {
    Snoc(entries, e);
  }

  /** `grouped[key].append(entry)`, the dictionary kept as its keys in insertion order and its map. */
  method AddToGroup(keys: seq<GroupKey>, grouped: map<GroupKey, seq<Entry>>, e: Entry, ghost entries: seq<Entry>)
    returns (keys': seq<GroupKey>, grouped': map<GroupKey, seq<Entry>>)
    requires keys == KeysOf(entries)
    requires forall k :: k in grouped <==> k in keys
    requires forall k :: k in grouped ==> grouped[k] == GroupOf(entries, k)
    ensures keys' == KeysOf(entries + [e])
    ensures forall k :: k in grouped' <==> k in keys'
    ensures forall k :: k in grouped' ==> grouped'[k] == GroupOf(entries + [e], k)
  {
    var k := KeyOf(e);
    KeysStep(entries, e);
    if k in grouped {
      keys' := keys;
      grouped' := grouped[k := grouped[k] + [e]];
    } else {
      KeysOfSpec(entries, k);
      keys' := keys + [k];
      grouped' := grouped[k := [e]];
    }
    forall k' | k' in grouped'
      ensures grouped'[k'] == GroupOf(entries + [e], k')
    {
      GroupStep(entries, e, k');
    }
  }

  /** The first loop of `combine_ingredients`: the `grouped` dictionary, as its keys in order and its map. */
  method GroupIngredients(ings: seq<Ingredient>, multipliers: map<int, real>, singularNoun: string -> Option<string>)
    returns (keys: seq<GroupKey>, grouped: map<GroupKey, seq<Entry>>)
    ensures keys == KeysOf(Prepared(ings, multipliers, singularNoun))
    ensures forall k :: k in grouped <==> k in keys
    ensures forall k :: k in grouped ==> grouped[k] == GroupOf(Prepared(ings, multipliers, singularNoun), k)
  {
    keys := [];
    grouped := map[];
    ghost var entries: seq<Entry> := [];
    var i := 0;
    while i < |ings|
      invariant 0 <= i <= |ings|
      invariant entries == Prepared(ings[..i], multipliers, singularNoun)
      invariant keys == KeysOf(entries)
      invariant forall k :: k in grouped <==> k in keys
      invariant forall k :: k in grouped ==> grouped[k] == GroupOf(entries, k)
    {
      var ing := ings[i];
      var quantity := Scaled(ing, multipliers);
      var m := ConvertToMetric(quantity, ing.unit);
      var normName := NormalizeIngredientName(ing.name, singularNoun);
      var e := Entry(m.quantity, m.unit, ing.name, normName);
      PreparedStep(ings, i, multipliers, singularNoun);
      keys, grouped := AddToGroup(keys, grouped, e, entries);
      entries := entries + [e];
      i := i + 1;
    }
    TakeAll(ings);
  }

  /** The body of the second loop of `combine_ingredients` for one group. */
  method CombineGroup(key: GroupKey, group: seq<Entry>, rules: seq<Rule>, floatRepr: real -> string) returns (item: Item)
    requires group != []
    ensures item == CombinedItem(key, group, rules, floatRepr)
  {
    var total: Option<real> := None;
    var displayName := group[0].name;
    var t := 0;
    while t < |group|
      invariant 0 <= t <= |group|
      invariant total == Total(group[..t])
    {
      assert group[..t + 1][..t] == group[..t];
      var q := group[t].quantity;
      if q.Some? {
        if total.None? {
          total := Some(0.0);
        }
        total := Some(total.value + q.value);
      }
      t := t + 1;
    }
    TakeAll(group);
    var quantityStr := FormatQuantity(total, key.unit, floatRepr);
    var display := if quantityStr != "" then displayName + " " + quantityStr else displayName;
    var category := GetCategory(rules, displayName);
    item := Item(displayName, total, key.unit, Some(display), Some(category));
  }

  /** `combine_ingredients(ingredients, recipe_multipliers)` */
  method CombineIngredients(ings: seq<Ingredient>, multipliers: map<int, real>, rules: seq<Rule>,
                            singularNoun: string -> Option<string>, floatRepr: real -> string)
    returns (combined: seq<Item>)
    ensures combined == Combined(ings, multipliers, rules, singularNoun, floatRepr)
  {
    var keys, grouped := GroupIngredients(ings, multipliers, singularNoun);
    ghost var entries := Prepared(ings, multipliers, singularNoun);
    KeysHaveGroups(entries);
    var items: seq<Item> := [];
    var j := 0;
    while j < |keys|
      invariant 0 <= j <= |keys|
      invariant items == CombinedItems(keys[..j], entries, rules, floatRepr)
    {
      var key := keys[j];
      assert key in grouped;
      var item := CombineGroup(key, grouped[key], rules, floatRepr);
      CombinedItemsStep(keys, j, entries, rules, floatRepr);
      items := items + [item];
      j := j + 1;
    }
    TakeAll(keys);
    assert items == CombinedItems(KeysOf(entries), entries, rules, floatRepr);
    combined := SortByCategory(rules, items);
  }

  /**
   * The combined list has one item per distinct (normalised name, unit) key,
   * every ingredient is counted in exactly one of them, and the list is
   * ordered by zone and then by lower-cased name, a permutation of the
   * items in first-appearance order of their keys.
   */
  lemma CombinedSpec(ings: seq<Ingredient>, multipliers: map<int, real>, rules: seq<Rule>,
                     singularNoun: string -> Option<string>, floatRepr: real -> string)
    ensures var entries := Prepared(ings, multipliers, singularNoun);
            var keys := KeysOf(entries);
            var r := Combined(ings, multipliers, rules, singularNoun, floatRepr);
            && |r| == |keys|
            && DistinctKeys(keys)
            && GroupSizes(keys, entries) == |ings|
            && multiset(r) == multiset(CombinedItems(keys, entries, rules, floatRepr))
            && SortedBy(r, CategoryKey(rules))
  {
    var entries := Prepared(ings, multipliers, singularNoun);
    var keys := KeysOf(entries);
    var items := CombinedItems(keys, entries, rules, floatRepr);
    KeysDistinct(entries);
    GroupsPartition(entries);
    SortByCategorySpec(rules, items, SortKey(0, ""));
    assert |SortByCategory(rules, items)| == |multiset(items)|;
  }
}
