/** Combining the ingredients of the selected recipes into one shopping list
    (app.py, calculate_shopping_list, the first nested loop). Each ingredient
    label is normalised; the first occurrence of a name stores its amount and
    every later one replaces the value with `"<existing>, plus <amount>"`. */
module ShoppingLists {
  import opened OrderedDicts
  import opened Labels
  import opened Models

  /** The (ingredient, amount) pairs of all recipes, in the order the nested loop
      visits them: recipe by recipe, each in its dictionary order. */
  function Entries(recipes: seq<Recipe>): seq<(string, Amount)>
  {
    if recipes == [] then []
    else Entries(recipes[..|recipes| - 1]) + recipes[|recipes| - 1].ingredients
  }

  /** The entries with each label replaced by its normalised name. */
  function Keyed(entries: seq<(string, Amount)>): seq<(string, Amount)>
  {
    if entries == [] then []
    else
      var last := entries[|entries| - 1];
      Keyed(entries[..|entries| - 1]) + [(Normalize(last.0), last.1)]
  }

  /** One turn of the merge loop, for an entry whose name is normalised. */
  function MergeNamed(list: Dict<string, Amount>, name: string, amount: Amount): Dict<string, Amount>
  {
    if name in Keys(list) then Put(list, name, Text(Get(list, name).Show() + ", plus " + amount.Show()))
    else Put(list, name, amount)
  }

  /** The shopping list the merge loop builds from entries with normalised
      names. */
  function Merged(named: seq<(string, Amount)>): Dict<string, Amount>
  {
    if named == [] then []
    else
      var last := named[|named| - 1];
      MergeNamed(Merged(named[..|named| - 1]), last.0, last.1)
  }

  /** The shopping list of a sequence of (label, amount) entries. */
  function ShoppingList(entries: seq<(string, Amount)>): Dict<string, Amount>
  {
    Merged(Keyed(entries))
  }

  /** The amounts of the entries named `name`, in order. */
  function AmountsFor(named: seq<(string, Amount)>, name: string): seq<Amount>
  {
    if named == [] then []
    else
      var last := named[|named| - 1];
      AmountsFor(named[..|named| - 1], name) + (if last.0 == name then [last.1] else [])
  }

  function Shown(amounts: seq<Amount>): (r: seq<string>)
    ensures |r| == |amounts|
  {
    if amounts == [] then []
    else Shown(amounts[..|amounts| - 1]) + [amounts[|amounts| - 1].Show()]
  }

  /** `", plus ".join(parts)`. */
  function JoinPlus(parts: seq<string>): string
    requires |parts| > 0
  {
    if |parts| == 1 then parts[0]
    else JoinPlus(parts[..|parts| - 1]) + ", plus " + parts[|parts| - 1]
  }

  /** Each entry keeps its position and amount and gets the normalised name
      of its label. */
  lemma {:induction false} KeyedSpec(entries: seq<(string, Amount)>)
    ensures |Keyed(entries)| == |entries|
    ensures forall i :: 0 <= i < |entries| ==> Keyed(entries)[i] == (Normalize(entries[i].0), entries[i].1)
  {
    if entries != [] {
      var p := entries[..|entries| - 1];
      KeyedSpec(p);
      var last := entries[|p|];
      var keyed := Keyed(entries);
      assert keyed == Keyed(p) + [(Normalize(last.0), last.1)];
      forall i | 0 <= i < |entries| ensures keyed[i] == (Normalize(entries[i].0), entries[i].1) {
        if i < |p| {
          assert entries[i] == p[i];
        }
      }
    }
  }

  lemma MergeNamedKeys(list: Dict<string, Amount>, name: string, amount: Amount)
    ensures Keys(MergeNamed(list, name, amount)) == if name in Keys(list) then Keys(list) else Keys(list) + [name]
    ensures Distinct(Keys(list)) ==> Distinct(Keys(MergeNamed(list, name, amount)))
  {
  }

  lemma MergeNamedGet(list: Dict<string, Amount>, name: string, amount: Amount, key: string)
    ensures var merged := MergeNamed(list, name, amount);
      if key == name then
        key in Keys(merged) &&
        Get(merged, key) == if key in Keys(list) then Text(Get(list, key).Show() + ", plus " + amount.Show()) else amount
      else
        (key in Keys(merged) <==> key in Keys(list)) &&
        (key in Keys(list) ==> Get(merged, key) == Get(list, key))
  {
  }

  /** The keys of the shopping list are the names of the entries, each once,
      in the order of their first occurrence. */
  lemma {:induction false} MergedKeys(named: seq<(string, Amount)>)
    ensures Keys(Merged(named)) == Dedup(Keys(named))
    ensures Distinct(Keys(Merged(named)))
  {
    if named != [] {
      var p, last := named[..|named| - 1], named[|named| - 1];
      MergedKeys(p);
      KeysDropLast(named);
      MergeNamedKeys(Merged(p), last.0, last.1);
      DedupSnoc(Keys(p), last.0);
      assert last.0 in Keys(Merged(p)) <==> last.0 in Keys(p) by {
        DedupIn(Keys(p), last.0);
      }
    }
  }

  /** The value under a name: the raw amount when the name occurs once, and
      otherwise the text of every amount for that name, in order, joined by
      ", plus ". A name is a key exactly when some entry has it. */
  lemma {:induction false} MergedValues(named: seq<(string, Amount)>, name: string)
    ensures name in Keys(Merged(named)) <==> |AmountsFor(named, name)| > 0
    ensures |AmountsFor(named, name)| > 0 ==>
      Get(Merged(named), name).Show() == JoinPlus(Shown(AmountsFor(named, name)))
    ensures |AmountsFor(named, name)| == 1 ==>
      Get(Merged(named), name) == AmountsFor(named, name)[0]
    ensures |AmountsFor(named, name)| > 1 ==>
      Get(Merged(named), name) == Text(JoinPlus(Shown(AmountsFor(named, name))))
  {
    if named != [] {
      var p, last := named[..|named| - 1], named[|named| - 1];
      MergedValues(p, name);
      MergeNamedGet(Merged(p), last.0, last.1, name);
      var before, now := AmountsFor(p, name), AmountsFor(named, name);
      if last.0 == name {
        assert now == before + [last.1];
        if |before| > 0 {
          assert now[..|now| - 1] == before;
          assert Shown(now)[..|now| - 1] == Shown(before);
        }
      } else {
        assert now == before;
      }
    }
  }

  lemma KeyedStep(done: seq<(string, Amount)>, more: seq<(string, Amount)>, j: nat)
    requires j < |more|
    ensures Keyed(done + more[..j + 1]) == Keyed(done + more[..j]) + [(Normalize(more[j].0), more[j].1)]
  {
    var s := done + more[..j + 1];
    assert s[..|s| - 1] == done + more[..j];
  }

  lemma MergedStep(named: seq<(string, Amount)>, name: string, amount: Amount)
    ensures Merged(named + [(name, amount)]) == MergeNamed(Merged(named), name, amount)
  {
    assert (named + [(name, amount)])[..|named|] == named;
  }

  /** The first nested loop of calculate_shopping_list: merge every
      ingredient of every recipe into the shopping list. */
  method BuildShoppingList(recipes: seq<Recipe>) returns (list: Dict<string, Amount>)
    ensures list == ShoppingList(Entries(recipes))
    ensures Keys(list) == Dedup(Keys(Keyed(Entries(recipes))))
    ensures Distinct(Keys(list))
    ensures forall name :: name in Keys(list) <==> |AmountsFor(Keyed(Entries(recipes)), name)| > 0
  {
    list := [];
    for r := 0 to |recipes|
      invariant list == ShoppingList(Entries(recipes[..r]))
    {
      var ingredients := recipes[r].ingredients;
      ghost var done := Entries(recipes[..r]);
      assert Entries(recipes[..r + 1]) == done + ingredients by {
        assert recipes[..r + 1][..r] == recipes[..r];
      }
      assert done + ingredients[..0] == done;
      for j := 0 to |ingredients|
        invariant list == ShoppingList(done + ingredients[..j])
      {
        var (ingredient, amount) := ingredients[j];
        ghost var previous := list;
        var name := Normalize(ingredient);
        if name in Keys(list) {
          list := Put(list, name, Text(Get(list, name).Show() + ", plus " + amount.Show()));
        } else {
          list := Put(list, name, amount);
        }
        assert list == MergeNamed(previous, name, amount);
        KeyedStep(done, ingredients, j);
        MergedStep(Keyed(done + ingredients[..j]), name, amount);
      }
      assert ingredients[..|ingredients|] == ingredients;
    }
    assert recipes[..|recipes|] == recipes;
    MergedKeys(Keyed(Entries(recipes)));
    forall name ensures name in Keys(list) <==> |AmountsFor(Keyed(Entries(recipes)), name)| > 0 {
      MergedValues(Keyed(Entries(recipes)), name);
    }
  }

  /** An entry comes from one of the recipes, and every ingredient of every
      recipe is an entry. */
  lemma {:induction false} EntriesSpec(recipes: seq<Recipe>)
    ensures forall e :: e in Entries(recipes) <==> exists r :: 0 <= r < |recipes| && e in recipes[r].ingredients
  {
    if recipes != [] {
      var p := recipes[..|recipes| - 1];
      EntriesSpec(p);
      forall e | exists r :: 0 <= r < |recipes| && e in recipes[r].ingredients
        ensures e in Entries(recipes)
      {
        var r :| 0 <= r < |recipes| && e in recipes[r].ingredients;
        if r < |p| {
          assert recipes[r] == p[r];
        }
      }
      forall e | e in Entries(recipes)
        ensures exists r :: 0 <= r < |recipes| && e in recipes[r].ingredients
      {
        if e in Entries(p) {
          var r :| 0 <= r < |p| && e in p[r].ingredients;
          assert recipes[r] == p[r];
        } else {
          assert e in recipes[|p|].ingredients;
        }
      }
    }
  }

  /** Every normalised label of a selected ingredient is a key. */
  lemma KeyFromIngredient(recipes: seq<Recipe>, r: nat, j: nat)
    requires r < |recipes| && j < |recipes[r].ingredients|
    ensures Normalize(recipes[r].ingredients[j].0) in Keys(ShoppingList(Entries(recipes)))
  {
    var entries := Entries(recipes);
    var named := Keyed(entries);
    var e := recipes[r].ingredients[j];
    EntriesSpec(recipes);
    assert e in entries;
    var i :| 0 <= i < |entries| && entries[i] == e;
    KeyedSpec(entries);
    assert Keys(named)[i] == Normalize(e.0);
    MergedKeys(named);
  }

  /** Every key is the normalised label of a selected ingredient. */
  lemma IngredientOfKey(recipes: seq<Recipe>, name: string) returns (r: nat, j: nat)
    requires name in Keys(ShoppingList(Entries(recipes)))
    ensures r < |recipes| && j < |recipes[r].ingredients|
    ensures Normalize(recipes[r].ingredients[j].0) == name
  {
    var entries := Entries(recipes);
    var named := Keyed(entries);
    MergedKeys(named);
    assert name in Keys(named);
    var i :| 0 <= i < |named| && Keys(named)[i] == name;
    KeyedSpec(entries);
    EntriesSpec(recipes);
    assert entries[i] in entries;
    r :| 0 <= r < |recipes| && entries[i] in recipes[r].ingredients;
    j :| 0 <= j < |recipes[r].ingredients| && recipes[r].ingredients[j] == entries[i];
  }

  /** A name is a key of the shopping list exactly when it is the normalised
      label of some ingredient of some selected recipe. */
  lemma ShoppingListKeys(recipes: seq<Recipe>, name: string)
    ensures name in Keys(ShoppingList(Entries(recipes))) <==>
      exists r, j :: 0 <= r < |recipes| && 0 <= j < |recipes[r].ingredients| &&
        Normalize(recipes[r].ingredients[j].0) == name
  {
    if name in Keys(ShoppingList(Entries(recipes))) {
      var r, j := IngredientOfKey(recipes, name);
    }
    if exists r, j :: 0 <= r < |recipes| && 0 <= j < |recipes[r].ingredients| &&
        Normalize(recipes[r].ingredients[j].0) == name {
      var r, j :| 0 <= r < |recipes| && 0 <= j < |recipes[r].ingredients| &&
        Normalize(recipes[r].ingredients[j].0) == name;
      KeyFromIngredient(recipes, r, j);
    }
  }

  /** Two entries with the same name give one entry under that name, whose
      value joins both amounts. */
  lemma MergeTwoSameName(name: string, x: Amount, y: Amount)
    ensures Merged([(name, x), (name, y)]) == [(name, Text(x.Show() + ", plus " + y.Show()))]
  {
    var first := [(name, x)];
    MergedStep([], name, x);
    MergeNamedKeys([], name, x);
    MergeNamedGet([], name, x, name);
    assert Merged(first) == first;
    MergedStep(first, name, y);
    MergeNamedKeys(first, name, y);
    MergeNamedGet(first, name, y, name);
    assert Keys(Merged([(name, x), (name, y)])) == [name];
  }

  /** The labels "Eggs (large)" and "eggs" both get the name "eggs". */
  lemma KeyedEggs(x: Amount, y: Amount)
    ensures Keyed([("Eggs (large)", x), ("eggs", y)]) == [("eggs", x), ("eggs", y)]
  {
    NormalizeEggs();
    NormalizeIdempotent("Eggs (large)");
    KeyedSpec([("Eggs (large)", x), ("eggs", y)]);
  }

  lemma TwoPlusOne()
    ensures Other("2").Show() + ", plus " + Other("1").Show() == "2, plus 1"
  {
  }

  /** One recipe needing "Eggs (large)": 2 and another needing "eggs": 1 give
      a shopping list with the one entry "eggs": "2, plus 1". */
  lemma EggsExample(first: Recipe, second: Recipe)
    requires first.ingredients == [("Eggs (large)", Other("2"))]
    requires second.ingredients == [("eggs", Other("1"))]
    ensures ShoppingList(Entries([first, second])) == [("eggs", Text("2, plus 1"))]
  {
    var named := [("eggs", Other("2")), ("eggs", Other("1"))];
    assert Entries([first, second]) == [("Eggs (large)", Other("2")), ("eggs", Other("1"))] by {
      assert [first, second][..1] == [first];
      assert Entries([first]) == first.ingredients by {
        assert [first][..0] == [];
      }
    }
    assert Keyed([("Eggs (large)", Other("2")), ("eggs", Other("1"))]) == named by {
      KeyedEggs(Other("2"), Other("1"));
    }
    assert Merged(named) == [("eggs", Text("2, plus 1"))] by {
      MergeTwoSameName("eggs", Other("2"), Other("1"));
      TwoPlusOne();
    }
  }
}
