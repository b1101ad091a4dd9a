/**
 * The request-level steps of the API (src/api/routes.py): building the
 * shopping list for a set of recipe selections plus extra items, and the
 * checks an uploaded recipe must pass before it is written.
 *
 * The database, the configuration files and the file system are not part of
 * this model: the recipes and ingredients the database would return, the
 * category rules and the pantry patterns are parameters.
 */
module Routes {
  import opened Wrappers
  import opened Text
  import opened Sorting
  import opened ShoppingItems
  import opened Categories
  import opened Combiner
  import opened Pantry
  import opened Exporter

  // ------------------------------------------------------------ shopping list

  /** One selected recipe and the number of servings wanted. */
  datatype Selection = Selection(recipeId: int, targetServings: int)

  /** What the shopping list needs of a stored recipe: its id and its servings. */
  datatype RecipeRow = RecipeRow(id: int, servings: int)

  datatype ShoppingListRequest = ShoppingListRequest(
    selections: seq<Selection>,
    includePantry: seq<string>,
    additionalItems: seq<string>)

  datatype ShoppingListResponse = ShoppingListResponse(
    shoppingItems: seq<Item>,
    pantryItems: seq<string>,
    formattedText: string)

  /** `[s.recipe_id for s in request.selections]` */
  function RecipeIds(selections: seq<Selection>): (ids: seq<int>)
    ensures |ids| == |selections|
    ensures forall k :: 0 <= k < |ids| ==> ids[k] == selections[k].recipeId
  {
    seq(|selections|, k requires 0 <= k < |selections| => selections[k].recipeId)
  }

  /** `{r.id: r for r in recipes if r.id in ids}`: a later row with the same id replaces an earlier one. */
  function KnownRecipes(recipes: seq<RecipeRow>, ids: seq<int>): map<int, RecipeRow>
    decreases |recipes|
  {
    if |recipes| == 0 then map[]
    else
      var known := KnownRecipes(recipes[..|recipes| - 1], ids);
      var r := recipes[|recipes| - 1];
      if r.id in ids then known[r.id := r] else known
  }

  /** The recipes kept are exactly the stored ones whose id was selected, each under its own id. */
  lemma {:induction false} KnownRecipesSpec(recipes: seq<RecipeRow>, ids: seq<int>, id: int)
    ensures id in KnownRecipes(recipes, ids) <==> id in ids && exists k :: 0 <= k < |recipes| && recipes[k].id == id
    ensures id in KnownRecipes(recipes, ids) ==> KnownRecipes(recipes, ids)[id] in recipes && KnownRecipes(recipes, ids)[id].id == id
    decreases |recipes|
  {
    if |recipes| > 0 {
      var init := recipes[..|recipes| - 1];
      KnownRecipesSpec(init, ids, id);
      if id in ids && (exists k :: 0 <= k < |recipes| && recipes[k].id == id) {
        var k :| 0 <= k < |recipes| && recipes[k].id == id;
        if k < |recipes| - 1 {
          assert init[k].id == id;
        }
      }
      if id in KnownRecipes(init, ids) {
        var k :| 0 <= k < |init| && init[k].id == id;
        assert recipes[k].id == id;
      }
    }
  }

  /** The scaling factor of a selection: target over stored servings, or 1.0 when the recipe has no servings. */
  function Ratio(targetServings: int, servings: int): real {
    if servings > 0 then targetServings as real / servings as real else 1.0
  }

  /** The `multipliers` dict after the loop over the selections; unknown recipes get no entry. */
  function MultipliersOf(selections: seq<Selection>, known: map<int, RecipeRow>): map<int, real>
    decreases |selections|
  {
    if |selections| == 0 then map[]
    else
      var m := MultipliersOf(selections[..|selections| - 1], known);
      var sel := selections[|selections| - 1];
      if sel.recipeId in known then m[sel.recipeId := Ratio(sel.targetServings, known[sel.recipeId].servings)] else m
  }

  /** The loop that fills `multipliers` (src/api/routes.py:200-207). */
  method ComputeMultipliers(selections: seq<Selection>, known: map<int, RecipeRow>) returns (multipliers: map<int, real>)
    ensures multipliers == MultipliersOf(selections, known)
  {
    multipliers := map[];
    var i := 0;
    while i < |selections|
      invariant 0 <= i <= |selections|
      invariant multipliers == MultipliersOf(selections[..i], known)
    {
      var sel := selections[i];
      assert selections[..i + 1][..i] == selections[..i];
      if sel.recipeId in known {
        var recipe := known[sel.recipeId];
        if recipe.servings > 0 {
          multipliers := multipliers[sel.recipeId := sel.targetServings as real / recipe.servings as real];
        } else {
          multipliers := multipliers[sel.recipeId := 1.0];
        }
      }
      i := i + 1;
    }
    TakeAll(selections);
  }

  /** A recipe gets a multiplier exactly when it is known and was selected. */
  lemma {:induction false} MultiplierKeys(selections: seq<Selection>, known: map<int, RecipeRow>, id: int)
    ensures id in MultipliersOf(selections, known) <==>
            id in known && exists k :: 0 <= k < |selections| && selections[k].recipeId == id
    decreases |selections|
  {
    if |selections| > 0 {
      var init := selections[..|selections| - 1];
      MultiplierKeys(init, known, id);
      if id in known && (exists k :: 0 <= k < |selections| && selections[k].recipeId == id) {
        var k :| 0 <= k < |selections| && selections[k].recipeId == id;
        if k < |selections| - 1 {
          assert init[k].recipeId == id;
        }
      }
      if id in MultipliersOf(init, known) {
        var k :| 0 <= k < |init| && init[k].recipeId == id;
        assert selections[k].recipeId == id;
      }
    }
  }

  /** The multiplier of a known recipe comes from its last selection. */
  lemma {:induction false} MultiplierValue(selections: seq<Selection>, known: map<int, RecipeRow>, k: nat)
    requires k < |selections| && selections[k].recipeId in known
    requires forall j :: k < j < |selections| ==> selections[j].recipeId != selections[k].recipeId
    ensures var id := selections[k].recipeId;
            id in MultipliersOf(selections, known)
            && MultipliersOf(selections, known)[id] == Ratio(selections[k].targetServings, known[id].servings)
    decreases |selections|
  {
    if k < |selections| - 1 {
      var init := selections[..|selections| - 1];
      assert init[k] == selections[k];
      MultiplierValue(init, known, k);
    }
  }

  /** An extra item as it is added to the list: no quantity, no unit, displayed as given, in its zone. */
  function AdditionalItem(rules: seq<Rule>, item: string): Item {
    Item(item, None, None, Some(item), Some(GetCategory(rules, item)))
  }

  function Additional(rules: seq<Rule>, extras: seq<string>): seq<Item> {
    seq(|extras|, k requires 0 <= k < |extras| => AdditionalItem(rules, extras[k]))
  }

  /** The ingredients the database holds for the selected recipes. */
  type IngredientSource = seq<int> -> seq<Ingredient>

  /** The combined list of the selected recipes, scaled to the wanted servings. */
  function CombinedFor(selections: seq<Selection>, recipes: seq<RecipeRow>, ingredientsFor: IngredientSource,
                       rules: seq<Rule>, singularNoun: string -> Option<string>, floatRepr: real -> string): seq<Item>
  {
    if selections == [] then []
    else
      var ids := RecipeIds(selections);
      Combined(ingredientsFor(ids), MultipliersOf(selections, KnownRecipes(recipes, ids)), rules, singularNoun, floatRepr)
  }

  /**
   * The list built from the combined items of the selected recipes: the
   * items that are not pantry items and the extra items, sorted by zone; the
   * pantry names; and the text of both.
   */
  function Assemble(request: ShoppingListRequest, combined: seq<Item>, rules: seq<Rule>, patterns: seq<string>): ShoppingListResponse
  {
    var items := SortByCategory(rules, ToBuy(patterns, combined) + Additional(rules, request.additionalItems));
    ShoppingListResponse(items, SortBy(PantryNames(patterns, combined), TextKey), Join(ListLines(items, request.includePantry), "\n"))
  }

  /** The value of `generate_shopping_list(request)`. */
  function ShoppingList(request: ShoppingListRequest, recipes: seq<RecipeRow>, ingredientsFor: IngredientSource,
                        rules: seq<Rule>, patterns: seq<string>,
                        singularNoun: string -> Option<string>, floatRepr: real -> string): ShoppingListResponse
  {
    if request.selections == [] && request.additionalItems == [] then ShoppingListResponse([], [], "")
    else Assemble(request, CombinedFor(request.selections, recipes, ingredientsFor, rules, singularNoun, floatRepr), rules, patterns)
  }

  /** The first half of `generate_shopping_list`: the multipliers, then the combined ingredients. */
  method CombineSelections(selections: seq<Selection>, recipes: seq<RecipeRow>, ingredientsFor: IngredientSource,
                           rules: seq<Rule>, singularNoun: string -> Option<string>, floatRepr: real -> string)
    returns (combined: seq<Item>)
    ensures combined == CombinedFor(selections, recipes, ingredientsFor, rules, singularNoun, floatRepr)
  {
    combined := [];
    if selections != [] {
      var ids := RecipeIds(selections);
      var known := KnownRecipes(recipes, ids);
      var multipliers := ComputeMultipliers(selections, known);
      combined := CombineIngredients(ingredientsFor(ids), multipliers, rules, singularNoun, floatRepr);
    }
  }

  /** The loop that appends the extra items to the list (src/api/routes.py:225-232). */
  method AppendExtras(shopping: seq<Item>, rules: seq<Rule>, extras: seq<string>) returns (r: seq<Item>)
    ensures r == shopping + Additional(rules, extras)
  {
    r := shopping;
    var i := 0;
    while i < |extras|
      invariant 0 <= i <= |extras|
      invariant r == shopping + Additional(rules, extras[..i])
    {
      assert Additional(rules, extras[..i + 1]) == Additional(rules, extras[..i]) + [AdditionalItem(rules, extras[i])];
      var zone := GetCategory(rules, extras[i]);
      r := r + [Item(extras[i], None, None, Some(extras[i]), Some(zone))];
      i := i + 1;
    }
    TakeAll(extras);
  }

  /** The second half of `generate_shopping_list`: pantry filter, extra items, sort and text. */
  method AssembleList(request: ShoppingListRequest, combined: seq<Item>, rules: seq<Rule>, patterns: seq<string>)
    returns (response: ShoppingListResponse)
    ensures response == Assemble(request, combined, rules, patterns)
  {
    var shopping, pantry := FilterPantryItems(patterns, combined);
    shopping := AppendExtras(shopping, rules, request.additionalItems);
    shopping := SortByCategory(rules, shopping);
    var text := ShoppingListToText(shopping, request.includePantry);
    response := ShoppingListResponse(shopping, pantry, text);
  }

  /** `generate_shopping_list(request)` */
  method GenerateShoppingList(request: ShoppingListRequest, recipes: seq<RecipeRow>, ingredientsFor: IngredientSource,
                              rules: seq<Rule>, patterns: seq<string>,
                              singularNoun: string -> Option<string>, floatRepr: real -> string)
    returns (response: ShoppingListResponse)
    ensures response == ShoppingList(request, recipes, ingredientsFor, rules, patterns, singularNoun, floatRepr)
  {
    if request.selections == [] && request.additionalItems == [] {
      return ShoppingListResponse([], [], "");
    }
    var combined := CombineSelections(request.selections, recipes, ingredientsFor, rules, singularNoun, floatRepr);
    response := AssembleList(request, combined, rules, patterns);
  }

  /**
   * Whatever the combined items, the shopping items are the combined items
   * that are not pantry items together with every extra item, each exactly
   * once, sorted by zone.
   */
  lemma AssembleSpec(request: ShoppingListRequest, combined: seq<Item>, rules: seq<Rule>, patterns: seq<string>)
    ensures var r := Assemble(request, combined, rules, patterns);
            && multiset(r.shoppingItems) == multiset(ToBuy(patterns, combined)) + multiset(Additional(rules, request.additionalItems))
            && SortedBy(r.shoppingItems, CategoryKey(rules))
  {
    var unsorted := ToBuy(patterns, combined) + Additional(rules, request.additionalItems);
    SortByCategorySpec(rules, unsorted, SortKey(0, ""));
  }

  /** The list has one item per extra item on top of the combined items it keeps, and every extra item is on it. */
  lemma AssembleExtras(request: ShoppingListRequest, combined: seq<Item>, rules: seq<Rule>, patterns: seq<string>)
    ensures var r := Assemble(request, combined, rules, patterns);
            && |r.shoppingItems| == |ToBuy(patterns, combined)| + |request.additionalItems|
            && forall k :: 0 <= k < |request.additionalItems| ==> AdditionalItem(rules, request.additionalItems[k]) in r.shoppingItems
  {
    AssembleSpec(request, combined, rules, patterns);
    var toBuy := ToBuy(patterns, combined);
    var extra := Additional(rules, request.additionalItems);
    assert multiset(toBuy) + multiset(extra) == multiset(toBuy + extra);
    var items := Assemble(request, combined, rules, patterns).shoppingItems;
    Rearranged(items, toBuy, extra);
    forall k | 0 <= k < |request.additionalItems|
      ensures AdditionalItem(rules, request.additionalItems[k]) in items
    {
      assert extra[k] in items;
    }
  }

  /** A rearrangement of `a + b` has their length and holds every element of `b`. */
  lemma Rearranged<T>(items: seq<T>, a: seq<T>, b: seq<T>)
    requires multiset(items) == multiset(a + b)
    ensures |items| == |a| + |b|
    ensures forall k :: 0 <= k < |b| ==> b[k] in items
  {
    assert |items| == |multiset(items)| == |multiset(a + b)| == |a + b|;
    forall k | 0 <= k < |b| ensures b[k] in items {
      assert (a + b)[|a| + k] == b[k];
      assert b[k] in multiset(a + b);
    }
  }

  /**
   * Extra items never become pantry items: the pantry names are the names of
   * the combined pantry items, each once and in ascending order.
   */
  lemma ExtrasNeverPantry(request: ShoppingListRequest, extras: seq<string>, combined: seq<Item>, rules: seq<Rule>, patterns: seq<string>)
    ensures Assemble(request.(additionalItems := extras), combined, rules, patterns).pantryItems
         == Assemble(request, combined, rules, patterns).pantryItems
    ensures var pantry := Assemble(request, combined, rules, patterns).pantryItems;
            && StrictlyAscending(pantry)
            && forall x :: x in pantry <==> exists it :: it in combined && IsPantryItem(patterns, it.name) && it.name == x
  {
    PantryListSpec(patterns, combined);
  }

  /** A request with no selections and no extra items gives an empty list, no pantry names and an empty text. */
  lemma EmptyRequest(request: ShoppingListRequest, recipes: seq<RecipeRow>, ingredientsFor: IngredientSource,
                     rules: seq<Rule>, patterns: seq<string>,
                     singularNoun: string -> Option<string>, floatRepr: real -> string)
    ensures var r := ShoppingList(request, recipes, ingredientsFor, rules, patterns, singularNoun, floatRepr);
            request.selections == [] && request.additionalItems == [] ==> r == ShoppingListResponse([], [], "")
    ensures var r := ShoppingList(request, recipes, ingredientsFor, rules, patterns, singularNoun, floatRepr);
            request.additionalItems != [] ==> |r.shoppingItems| >= |request.additionalItems|
  {
    if request.additionalItems != [] {
      AssembleExtras(request, CombinedFor(request.selections, recipes, ingredientsFor, rules, singularNoun, floatRepr), rules, patterns);
    }
  }

  // ------------------------------------------------------------------ upload

  const MaxRecipeContentLength: nat := 100000

  /** Why an upload is refused (each is an HTTP 400 in the API). */
  datatype UploadError = FilenameRequired | ContentTooLarge | ReservedFilename | MissingIngredients

  /** A character the sanitised file name may keep: `[a-zA-Z0-9\-_.]`. */
  predicate SafeChar(c: char) {
    IsLetter(c) || IsDigit(c) || c == '-' || c == '_' || c == '.'
  }

  /** `re.sub(r'[^a-zA-Z0-9\-_.]', '-', name)` */
  function SanitizeFilename(name: string): string {
    seq(|name|, k requires 0 <= k < |name| => if SafeChar(name[k]) then name[k] else '-')
  }

  /** `.md` is appended when the name does not already end with it. */
  function WithMarkdownExtension(name: string): (r: string)
    ensures EndsWith(r, ".md")
  {
    if EndsWith(name, ".md") then name else name + ".md"
  }

  /** The validation steps of `upload_recipe`: the sanitised file name, or why the upload is refused. */
  function ValidateUpload(filename: string, content: string): Result<string, UploadError> {
    var name := Strip(filename);
    if name == "" then Failure(FilenameRequired)
    else if |content| > MaxRecipeContentLength then Failure(ContentTooLarge)
    else
      var safe := SanitizeFilename(WithMarkdownExtension(name));
      if StartsWith(safe, "00-") then Failure(ReservedFilename)
      else if !Contains(Lower(content), "## ingredients") then Failure(MissingIngredients)
      else Success(safe)
  }

  /**
   * Sanitising keeps the length, keeps every safe character where it is,
   * replaces every other one by `-`, and so leaves no path separator.
   */
  lemma SanitizeSpec(name: string)
    ensures var r := SanitizeFilename(name);
            && |r| == |name|
            && (forall k :: 0 <= k < |r| ==> SafeChar(r[k]))
            && (forall k :: 0 <= k < |r| ==> (r[k] == name[k] <==> SafeChar(name[k])) && (r[k] != name[k] ==> r[k] == '-'))
            && '/' !in r && '\\' !in r
  {
    assert !SafeChar('/') && !SafeChar('\\');
  }

  /** Sanitising a sanitised name changes nothing. */
  lemma SanitizeIdempotent(name: string)
    ensures SanitizeFilename(SanitizeFilename(name)) == SanitizeFilename(name)
  {
    var r := SanitizeFilename(name);
    assert forall k :: 0 <= k < |r| ==> SafeChar(r[k]);
  }

  /** The `.md` ending survives sanitising. */
  lemma SanitizeKeepsExtension(name: string)
    requires EndsWith(name, ".md")
    ensures EndsWith(SanitizeFilename(name), ".md")
  {
    var r := SanitizeFilename(name);
    var n := |name|;
    assert name[n - 3..] == ".md";
    assert name[n - 3] == '.' && name[n - 2] == 'm' && name[n - 1] == 'd';
    assert r[n - 3..] == ".md";
  }

  /**
   * An upload is accepted exactly when the trimmed file name is not blank,
   * the content is at most 100000 characters, the sanitised name does not
   * start with `00-`, and the lower-cased content contains `## ingredients`.
   * The accepted name is the sanitised trimmed name, ending with `.md`.
   */
  lemma ValidateUploadSpec(filename: string, content: string)
    ensures var safe := SanitizeFilename(WithMarkdownExtension(Strip(filename)));
            ValidateUpload(filename, content).Success? <==>
              && Strip(filename) != ""
              && |content| <= MaxRecipeContentLength
              && !StartsWith(safe, "00-")
              && Contains(Lower(content), "## ingredients")
    ensures ValidateUpload(filename, content).Success? ==>
              var safe := ValidateUpload(filename, content).value;
              && EndsWith(safe, ".md")
              && (forall k :: 0 <= k < |safe| ==> SafeChar(safe[k]))
              && |safe| == |WithMarkdownExtension(Strip(filename))|
  {
    var name := WithMarkdownExtension(Strip(filename));
    SanitizeKeepsExtension(name);
    SanitizeSpec(name);
  }
}
