# Recipe shopping list: the pricing pipeline in Dafny

This project models the logic core of the recipe shopping-list web
application (`app.py`). That core is the `calculate_shopping_list` request
and the ranking step of `find_nearest_stores`.

- **Normalisation** (`Labels`): an ingredient label is cut at its first
  `(`, stripped of surrounding whitespace and lower-cased.
- **Merging** (`ShoppingLists`): the ingredient dictionaries of the
  selected recipes are merged, in order, into one shopping list. A name
  seen again has its value replaced by `"<existing>, plus <amount>"`.
- **Pricing** (`Pricing`): each shopping-list item costs the price of the
  first store price key whose lower-cased text contains the item, or 0 if
  none does. Each store's item prices and total are recorded under the
  store's name.
- **Cheapest store** (`Pricing.CheapestIndex`): Python's `min` picks the
  first entry with the smallest total.
- **The request** (`ShoppingListEndpoint`): the three early error answers,
  then the priced answer.
- **Nearest stores** (`NearestStores`): stores whose latitude and longitude
  are both truthy are kept and stably sorted by distance.

Python dictionaries are insertion-ordered, and that order matters here: the
first matching price key, the position of a re-assigned key, and the
first minimum. So `OrderedDicts` models a dictionary as a sequence of
(key, value) pairs. Assigning to a present key replaces its value in
place; assigning to a new key appends it.

The code works by updating variables in loops. So the operations that do
this are methods with loops:

- `ShoppingLists.BuildShoppingList`
- `Pricing.PriceStore` (with the early `break`)
- `Pricing.CostStores`
- `ShoppingListEndpoint.CalculateShoppingList`
- `NearestStores.FindNearestStores`

Each method is proved equal to, or fully characterised by, recursive
specification functions. `CalculateShoppingList` is an example of the
second kind: its cheapest store and total are fixed by the predicate
`Pricing.IsCheapest`. The properties are then proved about those functions
as lemmas. The
normalisation expression and `min` are pure expressions in the source, so
they are functions here.

The database queries are inputs: `selected` is the sequence of recipe rows
the id filter returned, and `stores` is the sequence of all store rows. The
distance from the requester to a store is a function parameter. It stands
for the rounded Haversine distance.

The coordinate filter tests truthiness (app.py:268), so a store whose
latitude or longitude is None or `0.0` is skipped; `NearestStores.Truthy`
models that.

## Model

| member | source | states |
|---|---|---|
| OrderedDicts.Put | app.py:109-111 | Dictionary assignment: a present key keeps its position and gets the new value, a new key is appended last, every other key keeps its value, and distinct keys stay distinct |
| OrderedDicts.FromPairsSpec | app.py:131-134 | Assigning pairs in turn leaves the distinct keys in first-occurrence order; each key holds the value of its last assignment |
| OrderedDicts.DedupOrder | app.py:108-111 | The deduplicated keys come in the order of their first occurrences: of any two, the earlier one first occurs earlier |
| OrderedDicts.LastValue | app.py:131-134 | The value returned is that of a pair with the key, and no later pair has the key |
| Labels.BeforeParenSpec | app.py:107 | `split('(')[0]` is a prefix of the label with no `(`, ending at the first `(` or at the end |
| Labels.TrimStartSpec | app.py:107 | The left half of `strip()` removes exactly the leading whitespace: the result is a suffix, everything removed is whitespace, and the result does not start with whitespace |
| Labels.TrimEndSpec | app.py:107 | The right half of `strip()` removes exactly the trailing whitespace: the result is a prefix, everything removed is whitespace, and the result does not end with whitespace |
| Labels.StripSlice | app.py:107 | `strip()` returns a contiguous slice with only whitespace outside it and no whitespace at either end |
| Labels.LowerSpec | app.py:107 | `lower()` maps each letter A-Z to its lower-case letter, leaves every other character, and leaves no upper-case letter |
| Labels.NormalizeShape | app.py:107 | A normalised name contains no `(`, has no leading or trailing whitespace and has no upper-case letter |
| Labels.NormalizeIdempotent | app.py:107 | Normalising a normalised name gives the same name |
| Labels.NormalizeEggs | app.py:107 | The label "Eggs (large)" normalises to "eggs" |
| Labels.NormalizeSalt | app.py:107 | The label "Salt" normalises to "salt" |
| Labels.ContainsIff | app.py:124 | The substring test `item in key` holds exactly when the item is the slice of the key at some offset |
| Labels.ContainsEmpty | app.py:124 | The empty name is contained in every key |
| ShoppingLists.KeyedSpec | app.py:104-107 | Every visited (label, amount) entry keeps its position and amount, and its label is replaced by the label's normalised name |
| ShoppingLists.EntriesSpec | app.py:104-105 | The entries the nested loop visits are exactly the ingredients of the selected recipes |
| ShoppingLists.MergeNamedKeys | app.py:108-111 | One merge step keeps the keys when the name is present and appends the name otherwise |
| ShoppingLists.MergeNamedGet | app.py:108-111 | One merge step: a present name gets `"<existing>, plus <amount>"`, a new name gets the raw amount, and every other name is untouched |
| ShoppingLists.MergedKeys | app.py:103-111 | The shopping-list keys are the normalised names, each once, in first-occurrence order |
| ShoppingLists.MergedValues | app.py:108-111 | A name is a key exactly when some entry has it. A name seen once keeps its raw amount. A name seen more than once holds the text of all its amounts, in order, joined by ", plus " |
| ShoppingLists.KeyFromIngredient | app.py:103-111 | Every normalised label of a selected ingredient is a shopping-list key |
| ShoppingLists.IngredientOfKey | app.py:103-111 | Every shopping-list key is the normalised label of some selected ingredient |
| ShoppingLists.ShoppingListKeys | app.py:103-111 | A name is a key exactly when it is the normalised label of some ingredient of some selected recipe |
| ShoppingLists.BuildShoppingList | app.py:103-111 | The nested merge loop returns the shopping list of the recipes' entries: keys distinct, in first-occurrence order, and present exactly for the names that occur |
| ShoppingLists.MergeTwoSameName | app.py:108-111 | Two entries with the same name give one key whose value is "<first>, plus <second>" |
| ShoppingLists.KeyedEggs | app.py:107 | The labels "Eggs (large)" and "eggs" get the same name, "eggs" |
| ShoppingLists.EggsExample | app.py:103-111 | One recipe with "Eggs (large)": 2 and another with "eggs": 1 give the shopping list with the single entry "eggs": "2, plus 1" |
| Pricing.MatchPriceFirst | app.py:121-126 | When key i is the first whose lower-cased text contains the item, the item costs key i's price |
| Pricing.MatchPriceNone | app.py:121-126 | When no key contains the item, the item costs 0 |
| Pricing.EmptyItemTakesFirstPrice | app.py:121-126 | An empty name costs the price of the store's first key whenever the store has a key |
| Pricing.MatchPriceNonNegative | app.py:121-126 | With no negative price in the store, no item gets a negative price |
| Pricing.PricedItemsSpec | app.py:120-128 | A store's item prices have exactly the shopping-list items as keys, in order, each with the price of its first matching key |
| Pricing.TotalNonNegative | app.py:116-129 | With no negative price in the store, the store's total is not negative |
| Pricing.PriceStore | app.py:116-129 | The item loop with its early-exit search records every item, in order, with its first-match price, and the total is the sum of the recorded prices |
| Pricing.CostPairsSpec | app.py:115-134 | The store loop makes one (store name, cost) assignment per store, in store order |
| Pricing.CostStores | app.py:114-134 | `store_costs` is keyed by the distinct store names in first-occurrence order. A name held by several stores keeps its first position and the cost of its last store |
| Pricing.CheapestIndex | app.py:137 | `min` picks an entry whose total is at most every entry's total, and every earlier entry costs strictly more |
| Pricing.CheapestIndexIsCheapest | app.py:137 | The selected entry's name and total satisfy the `min` property |
| Pricing.CheaperSecondStore | app.py:137 | Of totals 10.00 and 8.50, the second store is chosen |
| ShoppingListEndpoint.CalculateShoppingList | app.py:90-143 | A missing or empty id list gives 400 "No recipes selected". No recipes gives 404 "No recipes found". No stores gives 404 "No stores found". Otherwise the answer is the merged shopping list, every store's costs, and the first cheapest store with its total |
| NearestStores.CandidatesSpec | app.py:267-277 | A store is ranked exactly when both its latitude and longitude are truthy, and it is ranked with its distance |
| NearestStores.InsertPermutes | app.py:280 | Inserting into the sorted list adds exactly the inserted store |
| NearestStores.InsertSorted | app.py:280 | Inserting into a list sorted by distance keeps it sorted |
| NearestStores.InsertAtDistance | app.py:280 | The inserted store goes before every store at its own distance |
| NearestStores.SortPermutes | app.py:280 | The sort returns a permutation of its input |
| NearestStores.SortSorts | app.py:280 | The sort returns its input in ascending order of distance |
| NearestStores.SortStable | app.py:280 | The sort is stable: the stores at any one distance keep their input order |
| NearestStores.FindNearestStores | app.py:265-280 | The ranking is a permutation of the stores with truthy coordinates, ascending by distance, with equal distances in store order |

## Left out

- The Haversine distance (app.py:37-47) and `round(distance, 2)` (app.py:275) are floating-point trigonometry. The rounded distance is a function parameter of `NearestStores.FindNearestStores`.
- The database queries (app.py:94, 98, 264) are not modelled, and neither is the order in which the id filter returns rows. Recipes and stores are input sequences.
- The OpenAI calls in recipe generation and search (app.py:150-232) are foreign network calls and are not modelled.
- The postcodes.io lookup and its checks in find_nearest_stores (app.py:246-261) are a foreign network call and are not modelled. The requester's position is folded into the distance parameter.
- Flask routing and JSON encoding are not modelled: answers are values of `ShoppingListEndpoint.Response`.
- The catch-all exception handler that answers 500 (app.py:146-148) and its `print` are not modelled. So no model covers a failure inside the pipeline: a missing JSON body, a non-numeric price (`TypeError` on `+=`) or a non-string price key.
- ShoppingListEndpoint.CalculateShoppingList: `recipe_ids` is modelled as an optional list of ids. A truthy value that is not a list is not modelled.
- The store seeding (app.py:289-415) and static/js/main.js are not modelled: they are seed data and browser presentation.
- Labels.Lower: `str.lower()` is modelled for the letters A to Z only. Other Unicode case mappings are not modelled.
- Pricing.PriceStore: prices and totals are exact `real` numbers. Float rounding of sums is not modelled.
- Pricing.PriceStore and Pricing.CostStores: both require the item list to have distinct elements. The items are `shopping_list.keys()`, which are always distinct; `ShoppingLists.BuildShoppingList` proves that.
- Models.Amount: an amount that is not a JSON string is carried with the text `str()` gives it. How that text is produced is not modelled.
- NearestStores.FindNearestStores: the in-place `list.sort` is modelled as a new sorted sequence, produced by a stable insertion sort. Timsort's internal steps are not modelled.
