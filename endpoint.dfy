/** The calculate-shopping-list request from its input checks to its answer
    (app.py, calculate_shopping_list). The two database queries are inputs:
    `selected` holds the recipe rows the id filter returned and `stores` every
    store row. */
module ShoppingListEndpoint {
  import opened OrderedDicts
  import opened Models
  import opened ShoppingLists
  import opened Pricing

  /** The JSON answer: an error with its HTTP status, or the shopping list,
      every store's costs, and the cheapest store with its total. */
  datatype Response =
    | Failure(status: int, message: string)
    | Priced(shoppingList: Dict<string, Amount>, storeCosts: Dict<string, StoreCost>,
             cheapestStore: string, totalCost: real)

  /** `recipe_ids` absent, null or an empty list. */
  predicate NoneSelected(recipeIds: Option<seq<int>>)
  {
    recipeIds == None || recipeIds.value == []
  }

  method CalculateShoppingList(recipeIds: Option<seq<int>>, selected: seq<Recipe>, stores: seq<Store>)
    returns (response: Response)
    ensures NoneSelected(recipeIds) ==> response == Failure(400, "No recipes selected")
    ensures !NoneSelected(recipeIds) && selected == [] ==> response == Failure(404, "No recipes found")
    ensures !NoneSelected(recipeIds) && selected != [] && stores == [] ==> response == Failure(404, "No stores found")
    ensures !NoneSelected(recipeIds) && selected != [] && stores != [] ==>
      response.Priced? &&
      response.shoppingList == ShoppingList(Entries(selected)) &&
      response.storeCosts == FromPairs(CostPairs(Keys(response.shoppingList), stores)) &&
      |response.storeCosts| > 0 &&
      IsCheapest(response.storeCosts, response.cheapestStore, response.totalCost)
  {
    if recipeIds == None || recipeIds.value == [] {
      return Failure(400, "No recipes selected");
    }
    if selected == [] {
      return Failure(404, "No recipes found");
    }
    if stores == [] {
      return Failure(404, "No stores found");
    }
    var shoppingList := BuildShoppingList(selected);
    var storeCosts := CostStores(Keys(shoppingList), stores);
    assert |storeCosts| > 0 by {
      CostPairsSpec(Keys(shoppingList), stores);
      assert Keys(CostPairs(Keys(shoppingList), stores))[0] in Keys(storeCosts);
    }
    var cheapest := CheapestIndex(storeCosts);
    CheapestIndexIsCheapest(storeCosts);
    response := Priced(shoppingList, storeCosts, storeCosts[cheapest].0, storeCosts[cheapest].1.total);
  }
}
