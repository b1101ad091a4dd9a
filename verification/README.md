# kitchen-companion shopping-list core, in Dafny

This project models the part of kitchen-companion that turns Markdown recipes
into a shopping list, and proves properties of that model.

- **Ingredient lines** (`parser.dfy`, `quantity_pattern.dfy`). Each line of a
  recipe's `## Ingredients` section is read as a quantity, a unit and a name.
  The line pattern `QUANTITY_PATTERN` appears twice. `MatchQuantityPattern`
  follows the backtracking matcher, trying candidates in the regex engine's
  order. `Scan` is a direct reading. A lemma proves the two agree on every
  line the parser can see.
- **Recipes** (`recipe.dfy`). A recipe's title, servings and ingredients
  section are read with the three search patterns of the recipe parser.
  `ParseRecipe` is the line loop, proved against a specification function.
- **Conversion** (`converter.dfy`). US weights and volumes become grams and
  millilitres, promoted to kg or l at 1000. Quantities are formatted for
  display.
- **Combining** (`combiner.dfy`). Scaled, converted ingredients are grouped by
  normalised name and unit, their quantities summed, and the result sorted by
  store zone.
- **Zones** (`categories.dfy`). Zone rules are read from the configuration
  text, a name is classified by its first matching rule, and items are sorted
  by zone order, then by name.
- **Pantry** (`pantry.dfy`). Pantry patterns are read, and the list is split
  into items to buy and pantry names.
- **Exporter** (`exporter.dfy`). This covers timer durations, timer labels,
  the two passes that insert timer buttons into a recipe, and the plain-text
  shopping list.
- **Routes** (`routes.dfy`). This covers the `generate_shopping_list` request
  and the validation steps of `upload_recipe`.

`wrappers.dfy` holds `Option` and `Result`. `text.dfy` holds Python's string
operations: `strip`, `lower`, `split`, `join`, `in` and digit runs.
`sorting.dfy` holds Python's stable `sorted` with a key. `items.dfy` holds the
shopping-item record shared by the services.

Functions model pure code. Loops that build a list or a dictionary are
methods, each proved against the function that specifies it. The two
`lru_cache` loaders are classes whose snapshot field a reload clears.

Some behaviour of the code is modelled as written, even though it may
surprise a reader:

- Metric units pass through unchanged. `1000 g` stays `1000 g`; only oz and
  lb amounts are promoted to kg (`Converter.GramsAreNotPromoted`).
- A name that matches no zone rule gets the zone `other`. Zones sort by their
  position in the fixed `CATEGORY_ORDER` list, where `other` is at 15, and
  zones missing from that list sort at 16, after every listed zone
  (`Categories.OtherIsLastListed`).
- Each ingredient line is converted and rounded before the lines are summed,
  and the sum is not converted again. So 4 cups and 1 cup of milk give
  946 ml + 237 ml = 1183 ml, which stays in millilitres.
- A servings line may give 0, because the pattern is `\d+`.
- A line that starts with "to taste" gives an ingredient with an empty name
  (`Parser.ToTasteFirstHasNoName`).
- A line like `2 cups` gives the name `cups` and no unit
  (`Parser.CountThenWord`).
- The unit pattern `fl\s*oz` also matches `floz`. The alias table has no entry
  for `floz`, so that spelling is kept as it is and never converted.
- An empty ingredients section directly followed by another `##` heading
  swallows that heading's section. The header's `\s*\n` consumes the newline
  that the `(?=\n##)` lookahead needs.
- An auto-detected timer such as "for 0 minutes" is recorded with a duration
  of 0 ms. Only explicit markers are checked for a positive duration.
- Natural-language durations are searched for in the text after the explicit
  pass. A custom label that reads like "for 10 minutes" therefore gets a
  second button inside the first button's markup.

## Model

| member | source | states |
|---|---|---|
| Converter.RoundHalfEven | src/services/converter.py:58-66 | `round` to a whole number gives the nearest integer, the floor below the half and the next integer above it, and of two equally near integers the even one |
| Converter.Round0 | src/services/converter.py:59 | `round(x, 0)` is the whole number nearest `x`, and the even one at a tie |
| Converter.Round2 | src/services/converter.py:58 | `round(x, 2)` has at most two decimals, lies within 0.005 of `x`, and at a tie ends in an even hundredth |
| Converter.Promote | src/services/converter.py:57-59 | at or above the threshold the amount is given in the large unit with two decimals, within 5 base units of the amount; below it, it is a whole number of base units within half a unit |
| Converter.ConvertToMetric | src/services/converter.py:32-69 | a missing quantity or unit returns both unchanged; each part is present exactly when it was given; the unit returned is the given one or one of g, kg, ml, l |
| Converter.ConvertKeyed | src/services/converter.py:44-69 | with the unit normalised, the result always has a quantity and a unit, either the original unit or a metric one |
| Converter.ConvertIdempotent | src/services/converter.py:41-69 | converting a converted measure again returns it unchanged |
| Converter.MetricPassesThrough | src/services/converter.py:50-52 | g, kg, ml, l in any case and spacing keep the quantity and come back lower-cased, with no promotion |
| Converter.GramsAreNotPromoted | src/services/converter.py:51-52 | 999 g and 1000 g both stay in grams unchanged |
| Converter.NonConvertiblePassesThrough | src/services/converter.py:44-48 | clove, bunch, pinch, to taste, can, package keep the quantity and the unit as originally spelled |
| Converter.WeightBranch | src/services/converter.py:54-59 | oz and lb (any case) are multiplied by their gram factor and promoted at 1000 g |
| Converter.WeightConversion | src/services/converter.py:55-59 | oz and lb: at 1000 g or more (inclusive) the result is kg within 5 g of the exact weight, otherwise a whole number of grams within half a gram |
| Converter.VolumeBranch | src/services/converter.py:61-66 | cup, tbsp, tsp, fl oz are multiplied by their millilitre factor and promoted at 1000 ml |
| Converter.VolumeConversion | src/services/converter.py:62-66 | volumes: at 1000 ml or more (inclusive) the result is litres within 5 ml of the exact volume, otherwise whole millilitres within half a millilitre |
| Converter.UnknownUnitPassesThrough | src/services/converter.py:68-69 | a unit in none of the tables comes back unchanged with its quantity |
| Converter.FormatQuantity | src/services/converter.py:72-77 | both parts missing give the empty string; a missing quantity gives the unit text |
| Converter.FormatIntegral | src/services/converter.py:78-86 | an integer-valued quantity prints with no decimal point, followed directly by the unit; a non-negative one reads back as the quantity |
| Converter.FormatFractional | src/services/converter.py:80-87 | a non-integral quantity prints with the float rendering, followed directly by the unit |
| QuantityPattern.Bullets | src/services/parser.py:47 | the optional bullet offers its choices longest first and always ends with the choice of no bullet at position 0 |
| QuantityPattern.MixedSteps | src/services/parser.py:49 | every way the mixed-fraction alternative can match ends past its start and inside the line |
| QuantityPattern.FractionSteps | src/services/parser.py:50 | every way the simple-fraction alternative can match ends past its start and inside the line |
| QuantityPattern.RangeSteps | src/services/parser.py:51 | every way the range alternative can match ends past its start and inside the line |
| QuantityPattern.NumberSteps | src/services/parser.py:52 | every way the simple-number alternative can match ends past its start and inside the line |
| QuantityPattern.QSteps | src/services/parser.py:48-53 | every choice of the optional quantity group ends inside the line, and the last choice is the empty one, which is always available |
| QuantityPattern.MixedComesFirst | src/services/parser.py:48-53 | a whole number, spaces and a fraction give the mixed alternative as the first choice that leaves a name, ahead of the bare number |
| QuantityPattern.RangeComesFirst | src/services/parser.py:48-53 | two numbers joined by `-` are neither mixed nor a fraction, and the range with the longest upper number is the first choice that leaves a name, ahead of the bare number |
| QuantityPattern.LineQuantity | src/services/parser.py:46-57 | on every line the parser reads, the quantity of the match is the first quantity choice that leaves a name |
| QuantityPattern.MixedLine | src/services/parser.py:49 | a line `W N/D name` matches with the mixed quantity `W`, `N/D`, not the number `W` |
| QuantityPattern.RangeLine | src/services/parser.py:51 | a line `A-B name` matches with the range quantity `A`, `B` |
| QuantityPattern.AlternativeEnd | src/services/parser.py:54 | a unit alternative that matches (ignoring case) ends at or after where it started, inside the line |
| QuantityPattern.USteps | src/services/parser.py:54 | the optional unit group tries the unit words in pattern order and ends with the choice of no unit |
| QuantityPattern.Tail | src/services/parser.py:55 | the name group is non-empty and never contains a newline |
| QuantityPattern.ScanWith | src/services/parser.py:46-57 | the direct reading of a stripped line always yields a non-empty name that ends the line |
| QuantityPattern.TryUnitsFirst | src/services/parser.py:54-55 | backtracking over the unit choices picks the first that leaves a name, and fails exactly when none does |
| QuantityPattern.TryQuantitiesFirst | src/services/parser.py:48-55 | backtracking over the quantity choices picks the first that leaves a character for the name |
| QuantityPattern.NothingAtEnd | src/services/parser.py:55 | when the quantity part would start at the end of the line, nothing is left for `(.+)` and there is no match |
| QuantityPattern.MatchFromBullets | src/services/parser.py:46-57 | the backtracking match of a stripped one-line text succeeds and equals the direct reading |
| QuantityPattern.MatchIsScan | src/services/parser.py:158 | `QUANTITY_PATTERN.match` on any non-empty stripped line without newlines succeeds and gives the direct reading |
| QuantityPattern.MatchFacts | src/services/parser.py:158-161 | every line the parser matches gets a match whose name is non-empty, ends the line, and whose quantity text is digits, a decimal or a fraction of digits |
| QuantityPattern.QStepsWellFormed | src/services/parser.py:48-53 | every quantity the pattern can capture has the shape of `\d+`, `\d+(?:\.\d+)?` or `\d+/\d+` in its groups |
| QuantityPattern.ScanWellFormed | src/services/parser.py:48-53 | the quantity read from a line is one of the shapes the groups allow |
| QuantityPattern.UnitsToEnd | src/services/parser.py:54 | with no whitespace left, a unit word can only match when it runs to the end of the text |
| QuantityPattern.LastWordIsName | src/services/parser.py:54-55 | a unit needs whitespace and a name after it: a single remaining word is the name, even when it is a unit word |
| QuantityPattern.NumberThenWord | src/services/parser.py:52-55 | a digit run, one space and one word read as a bare number, no unit, and the word as the name |
| Parser.DecimalValue | src/services/parser.py:111-120 | `float()` of a captured number is never negative |
| Parser.DigitsAreDecimal | src/services/parser.py:117-120 | `float()` of a digit run is its integer value |
| Parser.DecimalOfCapture | src/services/parser.py:117-120 | `float()` succeeds on every text a number group can capture, and a run of digits reads as its integer value |
| Parser.ParseFraction | src/services/parser.py:92-95 | a fraction in FRACTION_MAP gets the table value |
| Parser.FractionOfDigits | src/services/parser.py:92-100 | for two digit runs around a slash: the table value for the five listed fractions, otherwise numerator over denominator, and 0 when the denominator is zero |
| Parser.FractionOfCapture | src/services/parser.py:92-100 | the same for any text the fraction groups capture |
| Parser.FractionTableNearExact | src/services/parser.py:38-44 | each table value is within 0.0005 of the quotient it stands for |
| Parser.QuantityOfCapture | src/services/parser.py:103-120 | a mixed number is its whole part plus its fraction, a simple fraction its fraction value, a range its upper bound, a number its value, and there is no quantity exactly when no quantity alternative matched |
| Parser.UnitValue | src/services/parser.py:122-126 | a unit comes out exactly when the unit group captured a non-empty text |
| Parser.AliasIsCanonical | src/services/parser.py:60-89 | every spelling in UNIT_ALIASES stands for one of the fifteen canonical units |
| Parser.CanonicalIsAlias | src/services/parser.py:60-89 | every canonical unit is its own alias |
| Parser.CanonicalIsClean | src/services/parser.py:125 | a canonical unit is unchanged by `strip().lower()` |
| Parser.UnitValueIdempotent | src/services/parser.py:122-126 | normalising an already normalised unit changes nothing |
| Parser.DropTrailingComma | src/services/parser.py:131 | what is dropped is a comma followed only by whitespace, up to the end; on a stripped name exactly a final comma is dropped, and nothing else changes |
| Parser.CommaDropped | src/services/parser.py:131 | a comma followed only by whitespace is dropped together with that whitespace |
| Parser.NoTrailingComma | src/services/parser.py:131 | a name that does not end in a comma and whitespace is kept whole |
| Parser.ToTasteEnd | src/services/parser.py:149 | when the phrase pattern matches at a position it ends after that position |
| Parser.FirstToTaste | src/services/parser.py:149 | the leftmost match found is a real match of `\s*to\s+taste.*$` at or after the start position |
| Parser.RemoveToTaste | src/services/parser.py:149 | removing the phrase never makes the line longer |
| Parser.ToTasteAtPhrase | src/services/parser.py:149 | wherever "to taste" occurs in any case on a one-line text, the phrase pattern matches from there to the end of the line |
| Parser.FirstToTasteFound | src/services/parser.py:149 | the leftmost match exists and starts no later than any position where the pattern matches |
| Parser.ToTasteCut | src/services/parser.py:149 | removing the phrase keeps exactly the text before the leftmost match, which starts no later than the first mention |
| Parser.ContainsToTaste | src/services/parser.py:147 | the lower-cased test for "to taste" succeeds exactly where the phrase occurs ignoring case |
| Parser.ParseIngredientLine | src/services/parser.py:136-179 | a result keeps the stripped line as its raw text, never empty; an empty name only comes from the "to taste" branch |
| Parser.IngredientLineTotal | src/services/parser.py:136-179 | a one-line text yields an ingredient exactly when its stripped text is neither empty nor starts with `#` |
| Parser.FallbackName | src/services/parser.py:170-171 | the fallback keeps a name for every stripped line longer than a lone bullet character |
| Parser.StructuredOrFallback | src/services/parser.py:159-177 | when the pattern's name cleans up to nothing, the fallback still has a name |
| Parser.ToTasteLine | src/services/parser.py:146-156 | a line that mentions "to taste" has no quantity, the unit "to taste", and as name the text before the leftmost phrase match, without its bullet |
| Parser.ToTasteBranch | src/services/parser.py:146-156 | the "to taste" branch is taken before the pattern is tried |
| Parser.ToTasteFirstHasNoName | src/services/parser.py:146-156 | a line that starts with "to taste" yields an ingredient whose name is empty, because this branch does not check the name |
| Parser.CountThenWord | src/services/parser.py:136-167 | a line like `2 cups` reads as quantity 2, no unit, and name `cups`: a unit needs a name after it |
| Parser.CountWordMatch | src/services/parser.py:46-57 | the pattern reads a count, a space and one word as a bare number followed by the name |
| Parser.CountValue | src/services/parser.py:119-120 | the count of such a line reads as its integer value |
| Parser.RangeLineValue | src/services/parser.py:116-117 | a line `A-B name` gets the quantity `B`, the higher number of the range |
| Parser.RangeValueIsHigh | src/services/parser.py:116-117 | a range is worth its upper number |
| Parser.StructuredLine | src/services/parser.py:158-167 | a clean line that is not a heading and does not mention "to taste" takes the pattern's quantity, unit and cleaned name whenever that name is not empty |
| Recipe.TitleAt | src/services/parser.py:31 | a title is only found at the start of a line beginning with `#` |
| Recipe.Stem | src/services/parser.py:190 | `rsplit(".", 1)[0]` is the text before the last dot, or the whole name when there is no dot |
| Recipe.TitleChar | src/services/parser.py:190 | one character of `title()` is the same character ignoring case; a letter becomes lower-case after a letter and upper-case otherwise; other characters are kept |
| Recipe.TitleCaseMeaning | src/services/parser.py:190 | `title()` keeps the text up to letter case, makes the first letter of every run of letters upper-case and every other letter lower-case, and keeps characters that are not letters |
| Recipe.HeadingIsTitle | src/services/parser.py:185-187 | a recipe opening with the heading `# t` is named `t` |
| Recipe.TitleLine | src/services/parser.py:31 | the heading `# t` captures from its third character to the end of its line |
| Recipe.NoHeadingTitle | src/services/parser.py:185-190 | without any `#` in the content the name comes from the file name |
| Recipe.NoHashNoTitle | src/services/parser.py:31 | TITLE_PATTERN finds nothing in a text without `#` |
| Recipe.ServingsLine | src/services/parser.py:193-194 | a recipe opening with `Servings: n` serves `n`, for every `n` |
| Recipe.ServingsDefault | src/services/parser.py:193-194 | without a line starting with `servings:` in any case, a recipe serves 4 |
| Recipe.NoServingsFrom | src/services/parser.py:30 | SERVINGS_PATTERN finds nothing when no line starts with `servings:` in any case |
| Recipe.SectionStart | src/services/parser.py:33 | the section header, when found, ends just after a newline |
| Recipe.SectionEnd | src/services/parser.py:33 | the lazy body stops at the first `\n##` after its start, or at the end of the text, and contains no `\n##` |
| Recipe.SectionEndIs | src/services/parser.py:33 | the body ends exactly at the first position the lookahead accepts |
| Recipe.SectionAfterHeading | src/services/parser.py:32-35 | a recipe opening with `## Ingredients` captures the lines up to the next `\n##` as its section |
| Recipe.HeadingStart | src/services/parser.py:33 | the header `## Ingredients` followed by a newline is found at the start and its match ends after that newline |
| Recipe.ParseRecipe | src/services/parser.py:182-229 | the recipe keeps its content, takes its title and servings, and reads the ingredients of its section line by line in order; the missing-section and no-ingredients errors are set exactly when no ingredient was read |
| Recipe.ParsedLinesStep | src/services/parser.py:210-213 | each line adds its ingredient, or nothing, at the end |
| Recipe.ParsedLinesAppend | src/services/parser.py:210-213 | reading the lines in two parts reads both parts' ingredients, in order |
| Recipe.ParsedLinesAreKeptLines | src/services/parser.py:210-213 | the ingredients carry, in order, exactly the stripped section lines that are neither blank nor `#` lines |
| Recipe.RecipeIngredientLines | src/services/parser.py:197-213 | a recipe's ingredients correspond one to one, in order, to its section's nonblank, non-`#` lines |
| Categories.StripLowerClean | src/services/categories.py:40-42 | `strip().lower()` leaves a text with no surrounding whitespace and no upper-case letter |
| Categories.PatternListClean | src/services/categories.py:41-45 | every pattern kept is non-empty, stripped and lower-case |
| Categories.RuleOfWellFormed | src/services/categories.py:36-47 | a rule read from a line has a clean zone with no colon and a non-empty list of clean patterns |
| Categories.RuleOfShape | src/services/categories.py:36-47 | a line gives a rule only when its stripped text is not a comment and has a colon; the zone is the text before the first colon, stripped and lower-cased, and the patterns come from the text after it |
| Categories.LoadCategories | src/services/categories.py:29-50 | the rules are those of the configuration lines, in file order; a missing file gives none |
| Categories.AddRule | src/services/categories.py:36-47 | one line appends its rule, if it states one, and nothing else |
| Categories.RulesOfStep | src/services/categories.py:35-47 | reading one more line appends at most that line's rule |
| Categories.RulesOfWellFormed | src/services/categories.py:35-47 | every rule the loader returns is well formed |
| Categories.PatternListOfClean | src/services/categories.py:41-45 | a list of clean patterns read back is unchanged |
| Categories.RuleLineRoundTrip | src/services/categories.py:36-47 | writing a well-formed rule as `zone:p1,p2,...` and reading the line back gives the same rule |
| Categories.RuleOfParts | src/services/categories.py:38-45 | a line splits at its first colon into the zone and the patterns |
| Categories.AnyPatternIn | src/services/categories.py:67-69 | true exactly when some pattern occurs in the lower-cased name |
| Categories.FirstCategorySpec | src/services/categories.py:66-70 | the zone is that of the first rule in file order with a pattern in the name; with no such rule it is "other" |
| Categories.GetCategorySpec | src/services/categories.py:58-70 | `get_category` matches case-insensitively by substring and the first matching zone wins, else "other" |
| Categories.IndexIn | src/services/categories.py:75-78 | `list.index` finds the first position of the value, or gives the length of the list when it is absent |
| Categories.GetCategoryOrder | src/services/categories.py:73-78 | the order is at most the length of CATEGORY_ORDER |
| Categories.CategoryOrderSpec | src/services/categories.py:73-78 | a listed zone (in any case) sorts at its position in CATEGORY_ORDER; any other zone sorts at 16 |
| Categories.OtherIsLastListed | src/services/categories.py:9-26 | "other" sorts at 15, and every unlisted zone sorts after it |
| Categories.SortByCategorySpec | src/services/categories.py:81-91 | the result is a permutation of the items, ordered by zone order then lower-cased name, and items with equal keys keep their input order |
| Categories.CategoryCache.constructor | src/services/categories.py:29 | the cache starts empty |
| Categories.CategoryCache.Rules | src/services/categories.py:29-50 | the first call reads the file and keeps its rules; later calls return the kept rules without reading it |
| Categories.CategoryCache.Reload | src/services/categories.py:53-55 | clearing the cache makes the next call read the file again |
| Sorting.SortBySorted | src/services/categories.py:91 | `sorted` with a key returns its input ordered by the key (the sort itself keeps the multiset of elements) |
| Sorting.SortByStable | src/services/categories.py:91 | `sorted` is stable: the elements with any one key keep their input order |
| Combiner.SingularizeSpec | src/services/combiner.py:14-23 | a word ending in "ies" in any case has those letters replaced by "y"; otherwise it is the engine's non-empty answer, or the word itself; a non-empty word never becomes empty |
| Combiner.NormalizeIngredientName | src/services/combiner.py:26-47 | the loop copies the words of the lower-cased, stripped name, the last one is singularised and the words are joined with single spaces |
| Combiner.NormalNameBlank | src/services/combiner.py:26-47 | a name normalises to the empty key exactly when it is blank |
| Combiner.NormalNameIgnoresCase | src/services/combiner.py:33 | names that differ only in letter case normalise alike |
| Combiner.NormalNameOfWord | src/services/combiner.py:33-47 | a single word normalises to its lower-cased, singularised form |
| Combiner.Scaled | src/services/combiner.py:77-86 | a missing quantity stays missing, and a recipe with no multiplier keeps its quantity (factor 1.0) |
| Combiner.Prepared | src/services/combiner.py:76-99 | one grouping entry per ingredient |
| Combiner.KeysOfSpec | src/services/combiner.py:74-99 | the keys of `grouped` are distinct, a key is present exactly when some ingredient has it, exactly when its group is non-empty, and every entry of a group has the group's key |
| Combiner.GroupFirst | src/services/combiner.py:105 | the first entry of a group is one of the input entries (the first with that key) |
| Combiner.GroupsPartition | src/services/combiner.py:74-99 | every ingredient lands in exactly one group: the group sizes add up to the number of ingredients |
| Combiner.TotalSpec | src/services/combiner.py:104-113 | the total is missing exactly when no entry has a quantity, and is otherwise the sum of the quantities present |
| Combiner.CombinedItems | src/services/combiner.py:102-130 | one combined item per key |
| Combiner.CombinedItemsAt | src/services/combiner.py:103-130 | the item at each position is the combined item of that key's group |
| Combiner.CombinedItemSpec | src/services/combiner.py:103-130 | an item carries its group's unit, the first entry's name and that name's zone; its quantity is missing exactly when no entry has one and is otherwise their sum; its display is the name, a space and the formatted total, or just the name when that text is empty (as without quantity and unit) |
| Combiner.AddToGroup | src/services/combiner.py:94-99 | appending an entry to `grouped` keeps the keys in first-appearance order and every group equal to the entries with its key |
| Combiner.GroupIngredients | src/services/combiner.py:74-99 | after the first loop, `grouped` holds exactly the keys of the prepared entries, each with its entries in input order |
| Combiner.CombineGroup | src/services/combiner.py:104-130 | the second loop's body sums the group's quantities and builds its combined item |
| Combiner.CombineIngredients | src/services/combiner.py:50-133 | the method computes the combined list: groups combined in key order, then sorted by zone and name |
| Combiner.CombinedSpec | src/services/combiner.py:50-133 | one item per distinct (normalised name, unit) key, every ingredient counted in exactly one item, and the result a permutation of the combined items sorted by zone then name |
| Pantry.LoadPantryItems | src/services/pantry.py:9-21 | the patterns are the file's lines that are neither blank nor `#` lines, stripped and lower-cased, in file order; a missing file gives none |
| Pantry.AddPattern | src/services/pantry.py:16-18 | one line appends its stripped, lower-cased text unless it is blank or a comment |
| Pantry.PatternsClean | src/services/pantry.py:15-18 | every pattern is non-blank, stripped, lower-case and does not start with `#` |
| Pantry.PatternOfClean | src/services/pantry.py:16-18 | a kept line is non-blank, stripped, lower-case and not a comment |
| Pantry.IsPantryItemSpec | src/services/pantry.py:34-43 | a name is a pantry item exactly when some pattern occurs in its lower-cased form |
| Pantry.FilterPantryItems | src/services/pantry.py:46-69 | the shopping list is the non-pantry items in order; the pantry list is the sorted names of the pantry items, each once |
| Pantry.SplitIsPartition | src/services/pantry.py:62-67 | every item goes to exactly one side: the shopping items and the pantry items together are a permutation of the input, each on the side its name decides |
| Pantry.PantryNamesSpec | src/services/pantry.py:60-65 | the collected names are exactly the names of the pantry items, without repetitions |
| Pantry.PantryListSpec | src/services/pantry.py:69 | the pantry list holds each matched name once, in its original spelling, strictly ascending, and nothing else |
| Pantry.PantryCache.constructor | src/services/pantry.py:9 | the cache starts empty |
| Pantry.PantryCache.Patterns | src/services/pantry.py:29-31 | the first call reads the file and keeps its patterns; later calls return the kept patterns |
| Pantry.PantryCache.Reload | src/services/pantry.py:24-26 | clearing the cache makes the next call read the file again |
| Exporter.RunBeforeNone | src/services/exporter.py:12-14 | the search for `(\d+)h`, `(\d+)m` or `(\d+)s` fails exactly when no digit is directly followed by the letter |
| Exporter.RunBeforeFirst | src/services/exporter.py:12-14 | the search captures the whole run of digits before the first digit that is directly followed by the letter |
| Exporter.RunBeforeShift | src/services/exporter.py:12-14 | the search for `(\d+)h`, `(\d+)m` or `(\d+)s` only looks forward from where it starts |
| Exporter.LeadingRun | src/services/exporter.py:12-14 | a leading digit run followed by the wanted letter is found; followed by another letter it is skipped |
| Exporter.ShortDuration | src/services/exporter.py:7-24 | `<v>h`, `<v>m` and `<v>s` parse to `v` hours, minutes or seconds in milliseconds |
| Exporter.HoursMinutes | src/services/exporter.py:7-24 | `<h>h<m>m`, as in `1h30m`, parses to 1000 * (3600h + 60m) |
| Exporter.DurationRoundTrip | src/services/exporter.py:7-24 | `<h>h<m>m<s>s` parses to the duration it spells: 1000 * (3600h + 60m + s) |
| Exporter.ThreeRuns | src/services/exporter.py:12-14 | in `<h>h<m>m<s>s` each of the three searches finds its own number |
| Exporter.DropNumberMarker | src/services/exporter.py:49 | removing a `1.` list marker keeps a suffix of the text |
| Exporter.NumberMarkerDropped | src/services/exporter.py:49 | a leading run of digits, a dot and the whitespace after it are removed, and the rest is kept whole |
| Exporter.NoNumberMarker | src/services/exporter.py:49 | a text that does not start with digits followed by a dot is left as it is |
| Text.DropBulletMarker | src/services/exporter.py:50 | removing a `-` or `*` marker keeps a suffix of the text, and a text not starting with `-` or `*` is left as it is |
| Text.BulletMarkerDropped | src/services/parser.py:150 | a leading `-` or `*` and the whitespace after it are removed, and the rest is kept whole |
| Exporter.BeforeLastSpace | src/services/exporter.py:54 | `rsplit(" ", 1)[0]` is the whole text when it has no space, and otherwise the text up to its last space |
| Exporter.LineBefore | src/services/exporter.py:39-46 | the text from the last newline before the match up to the match holds no newline |
| Exporter.ContextNoNewline | src/services/exporter.py:39-50 | the context of a timer holds no newline |
| Exporter.ShortenSpec | src/services/exporter.py:53-54 | a shortened context holds no newline and is at most three characters longer than the limit |
| Exporter.ShortenCut | src/services/exporter.py:53-54 | a context within the limit is kept; a longer one becomes its first `max_length` characters up to their last space (all of them when they hold no space) followed by "..." |
| Exporter.LabelSpec | src/services/exporter.py:27-56 | a label is never empty, holds no newline, and is at most three characters over the limit or is "Timer" |
| Exporter.LabelUsesOnlyLine | src/services/exporter.py:39-46 | the label depends only on the line up to the match: earlier lines and later text play no part |
| Exporter.LineBeforeIs | src/services/exporter.py:39-46 | the context line is exactly the text between the previous newline and the match |
| Exporter.MarkerAtSound | src/services/exporter.py:73 | whatever the scanner finds is a `[`, an optional `timer:`, a non-empty run of `0-9hms`, an optional `:` and a non-empty label without `]`, and a `]`, spelled out in the text, with the run and the label as its groups |
| Exporter.MarkerFound | src/services/exporter.py:73 | every such marker spelled out in the text is found where it starts, ends where it ends, and has its run and label as groups |
| Exporter.ExplicitReplacement | src/services/exporter.py:75-103 | a marker is replaced exactly when its duration parses to more than zero; the timer gets the id handed to it, the marker's duration and that duration in milliseconds, and as label the stripped custom label, or else the context label of the text at the marker; the replacement is the button with that id, duration and label |
| Exporter.ExplicitReplacementSpec | src/services/exporter.py:75-103 | `replace_explicit` numbers its timer with the current id and never records a zero duration |
| Exporter.ExplicitNumbering | src/services/exporter.py:105 | the explicit pass numbers its timers consecutively in document order and the next id follows the last |
| Exporter.ExplicitPositive | src/services/exporter.py:105 | the explicit pass records only timers with a positive duration |
| Exporter.ExplicitPassPlain | src/services/exporter.py:105 | text without `[` passes through unchanged and records no timer |
| Exporter.UnitEndSound | src/services/exporter.py:109 | whatever the unit alternation matches is a unit word or its plural, in any case, ending at a word boundary |
| Exporter.UnitEndFinds | src/services/exporter.py:109 | a unit word or its plural, in any case, followed by a word boundary is matched to its end |
| Exporter.KeywordEnd | src/services/exporter.py:109 | the keyword matches exactly when `for` or `about` is there in any case, and then spans exactly that word |
| Exporter.NumberAfter | src/services/exporter.py:109 | `\s+(\d+)` matches a non-empty run of whitespace then the longest non-empty run of digits, which is the captured number |
| Exporter.AfterNumberParts | src/services/exporter.py:109 | what follows a number that leads to a match is an optional `-` and digits, whitespace and a unit word ending at a word boundary, and these give the groups |
| Exporter.AutoAtSound | src/services/exporter.py:109 | whatever is found at a position is a word boundary, `for`/`about`, whitespace, the number, an optional `-` and upper number, whitespace and a unit word at a word boundary; the groups are the number, the upper number and the unit word |
| Exporter.AutoFound | src/services/exporter.py:109 | every such match spelled out in the text is found where it starts, with those groups |
| Exporter.AutoMatchesSound | src/services/exporter.py:111 | every auto-detected match is the match of the pattern where it starts |
| Exporter.MatchesComplete | src/services/exporter.py:111 | `finditer` lists every match the pattern has at a position, unless that position is strictly inside a match listed before it |
| Exporter.AutoMatchesComplete | src/services/exporter.py:111 | every match of the natural-language pattern that does not start strictly inside an earlier detected match is detected, with its groups |
| Exporter.MatchesOrdered | src/services/exporter.py:111 | `finditer` gives matches that follow one another without overlapping |
| Exporter.AutoMatchesOrdered | src/services/exporter.py:111 | the auto-detected matches follow one another without overlapping |
| Exporter.WithButton | src/services/exporter.py:145-147 | inserting a button makes the text longer |
| Exporter.WithButtonKeepsText | src/services/exporter.py:143-147 | the button goes right after the match, and the text on either side is kept |
| Exporter.AutoDuration | src/services/exporter.py:115-132 | the short duration string exists exactly when the unit has a letter, and parses to the upper value of a range, else the value, times 3600, 60 or 1 seconds by that letter |
| Exporter.AutoStep | src/services/exporter.py:114-148 | a turn records a timer exactly when the unit has a letter: with the current id, the context label at the match, the value times 3600, 60 or 1 seconds in milliseconds, and the button inserted after the match |
| Exporter.UnitWordLetter | src/services/exporter.py:122-128 | a unit word is read by its first letter: `h` for hour and hr, `m` for minute and min, `s` for second and sec |
| Exporter.AutoMatchUnit | src/services/exporter.py:111-128 | every auto-detected match has a unit letter, and it is the first letter of its unit word |
| Exporter.UnitEndLetter | src/services/exporter.py:109-130 | whatever the unit alternation matches starts with a unit word, so it has a short unit letter |
| Exporter.AutoMatchesLetter | src/services/exporter.py:114-130 | every auto-detected match has a unit letter, so the `continue` branch is never taken |
| Exporter.AutoStepSpec | src/services/exporter.py:114-148 | a turn numbers its timer with the current id and records one exactly when the unit has a letter |
| Exporter.ReverseNumbering | src/services/exporter.py:114-148 | the reverse loop numbers its timers consecutively, the last match first |
| Exporter.NumberedAppend | src/services/exporter.py:68-148 | the explicit pass's ids followed by the reverse loop's ids form one consecutive run |
| Exporter.AutoPassCount | src/services/exporter.py:114-148 | every match with a unit letter records one timer |
| Exporter.InjectedNumbering | src/services/exporter.py:59-150 | the timers have ids 0, 1, 2, ... in the order they are recorded, explicit markers first |
| Exporter.InjectedCounts | src/services/exporter.py:59-150 | every explicit timer has a positive duration, and every auto-detected match in the text left by the explicit pass records a timer |
| Exporter.AddButtons | src/services/exporter.py:114-148 | the loop over the matches, last first, produces the text and timers of the reverse pass |
| Exporter.InjectTimerButtons | src/services/exporter.py:59-150 | the method returns the text and timers of the explicit pass followed by the auto-detection on its result |
| Exporter.ShoppingListToText | src/services/exporter.py:184-207 | the text is the list's lines joined with newlines |
| Exporter.ListLinesSpec | src/services/exporter.py:197-205 | one line per shopping item in order, its display text or else its name, then every pantry name as often as given, in sorted order |
| Exporter.ShoppingTextLines | src/services/exporter.py:207 | splitting the text at newlines gives the lines back when no line holds a newline |
| Exporter.ShoppingTextEnds | src/services/exporter.py:195-207 | no header and no trailing newline: the text starts with the first line and ends with the last, and is empty without lines |
| Routes.KnownRecipesSpec | src/api/routes.py:197 | the recipes kept are exactly the stored ones whose id was selected, each under its own id |
| Routes.ComputeMultipliers | src/api/routes.py:200-207 | the loop fills the multipliers of the selections in order |
| Routes.MultiplierKeys | src/api/routes.py:200-207 | a recipe gets a multiplier exactly when it is known and was selected |
| Routes.MultiplierValue | src/api/routes.py:200-207 | a known recipe's multiplier is the target over the stored servings of its last selection, or 1.0 when the stored servings are not positive |
| Routes.CombineSelections | src/api/routes.py:194-222 | the method computes the combined list of the selected recipes scaled by their multipliers |
| Routes.AppendExtras | src/api/routes.py:230-238 | each extra item is appended in order with no quantity, no unit, its own text as display and its zone |
| Routes.AssembleList | src/api/routes.py:224-250 | the method computes the pantry split, appends the extras, sorts and formats the text |
| Routes.GenerateShoppingList | src/api/routes.py:181-250 | the method computes the whole response of `generate_shopping_list` |
| Routes.AssembleSpec | src/api/routes.py:224-241 | the shopping items are the combined non-pantry items together with every extra item, each exactly once, sorted by zone then name |
| Routes.AssembleExtras | src/api/routes.py:230-241 | every extra item is on the list, which has one item per extra on top of the combined items kept |
| Routes.ExtrasNeverPantry | src/api/routes.py:225-238 | extra items never become pantry names: the pantry names are those of the combined pantry items, each once, ascending |
| Routes.EmptyRequest | src/api/routes.py:184-189 | a request with no selections and no extras gives an empty list, no pantry names and an empty text; with extras the list has at least as many items |
| Routes.WithMarkdownExtension | src/api/routes.py:284-285 | the name ends with `.md` afterwards |
| Routes.SanitizeSpec | src/api/routes.py:288 | sanitising keeps the length, keeps each safe character in place, replaces every other one by `-`, and so leaves no path separator |
| Routes.SanitizeIdempotent | src/api/routes.py:288 | sanitising a sanitised name changes nothing |
| Routes.SanitizeKeepsExtension | src/api/routes.py:284-288 | the `.md` ending survives sanitising |
| Routes.ValidateUploadSpec | src/api/routes.py:269-300 | an upload is accepted exactly when the trimmed name is not blank, the content is at most 100000 characters, the sanitised name does not start with `00-` and the lower-cased content contains `## ingredients`; the accepted name ends with `.md` and holds only safe characters |

## Left out

- **Files, database and network.** The configuration and pantry files are the
  text parameters of the loaders, where `None` stands for a missing file. The
  recipes and ingredients the database returns are parameters of
  `Routes.GenerateShoppingList`. Writing the uploaded file, the HTTP errors
  beyond their cause, the recipe scanner, the folder watcher and server-sent
  events are not part of this model.
- **`recipe_to_html`.** Markdown rendering and front-matter stripping are not
  modelled; `inject_timer_buttons`, which it calls, is.
- **The additional-items loader.** `additional_items.py` is not part of this
  model. The extra items of a request are a parameter.
- **Floats.** Floats are exact reals. `round(x, n)` is exact half-to-even
  rounding on reals, so binary representation error is not modelled. The
  digits `str(float)` prints for a non-integral quantity are a parameter,
  `floatRepr`. `float()` is modelled for the spellings the line pattern
  captures.
- **`inflect`.** The noun singulariser `inflect.singular_noun` is a
  parameter, `singularNoun`; `None` stands for its `False`.
- **Letter case and whitespace.**
  - `lower()`, `title()` and `IGNORECASE` work on ASCII letters only.
  - `\d` means ASCII digits.
  - `\w` and `\b` use ASCII word characters (`Text.IsWordChar`). Python's
    string patterns count every Unicode letter and digit as a word character,
    so on "for 5 minutesé" the source finds no `\b` after "minutes" and no
    timer, while the model finds one.
  - `\s` and `strip()` use Python's whitespace set.
- **Lines of a configuration file.** `for line in f` is modelled as splitting
  the text at `\n` only. A text-mode file also ends a line at a lone `\r` or
  `\r\n`, so `a:x\rb:y` gives two zone rules in the source and one rule
  (zone `a`, pattern `x\rb:y`) here. The newline each line keeps is removed by
  `strip()` in the source anyway.
- **Thread safety of `lru_cache`.** The caches are modelled as one snapshot
  field each.
- **Int and float totals.** The running total in `combine_ingredients` starts
  as the int `0`. Here it is the real `0.0`, and the printed form of a whole
  total does not depend on the difference.
- **Parser.UnitValueIdempotent** excludes a unit group made only of
  whitespace. The unit group always holds a unit word, so this never happens
  for a match.
- **Exporter.WithButton** inserts at the end of the text when a match ends
  beyond it. Matches found in the text never do (`Exporter.AutoMatches`), so
  this only makes the function total.
