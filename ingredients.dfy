/** The ingredient catalog (kcal per 100 g by name) and the meal calorie calculation over it. */
module Ingredients {
  import opened Responses
  import Decimal

  /** The catalog: ingredient name to whole kilocalories per 100 g. */
  type Catalog = map<string, int>

  /** One line of a meal request: an ingredient name and a weight in grams. */
  datatype MealItem = MealItem(ingredient: string, grams: real)

  /** One line of the breakdown: the item's ingredient and grams and the calories it contributes. */
  datatype Line = Line(ingredient: string, grams: real, calories: real)

  /** The result of a successful calculation. */
  datatype Summary = Summary(totalCalories: real, breakdown: seq<Line>)

  /** The catalog as it stands when the process starts. */
  function SeedCatalog(): Catalog {
    map[
      "Chicken Breast" := 165,
      "Brown Rice" := 216,
      "White Rice" := 206,
      "Broccoli" := 34,
      "Egg" := 155,
      "Whole Milk" := 61,
      "Cheddar Cheese" := 403,
      "White Bread" := 265,
      "Whole Wheat Bread" := 247,
      "Banana" := 89,
      "Apple" := 52,
      "Orange" := 47,
      "Salmon" := 208,
      "Tuna (canned)" := 116,
      "Ground Beef (lean)" := 215,
      "Pasta (cooked)" := 158,
      "Potato" := 77,
      "Sweet Potato" := 86,
      "Spinach" := 23,
      "Carrot" := 41,
      "Tomato" := 18,
      "Cucumber" := 15,
      "Oats" := 389,
      "Greek Yogurt" := 59,
      "Butter" := 717,
      "Olive Oil" := 884,
      "Almonds" := 579,
      "Peanut Butter" := 588,
      "Lentils (cooked)" := 116,
      "Black Beans (cooked)" := 132
    ]
  }

  /** The catalog invariant: no ingredient has a negative calorie value. */
  predicate CatalogValid(c: Catalog) {
    forall k :: k in c ==> c[k] >= 0
  }

  /** The seeded catalog satisfies the invariant. */
  lemma SeedCatalogValid()
    ensures CatalogValid(SeedCatalog())
  {
  }

  /** The detail of the error raised for negative calories. */
  const NegativeCalories: string := "Calories must be non-negative"

  /** The confirmation returned when an ingredient is stored. */
  function AddedMessage(name: string, calories: nat): string {
    "Added " + name + " with " + Decimal.NatToString(calories) + " kcal per 100g"
  }

  /** The detail of the error raised for an ingredient that is not in the catalog. */
  function IngredientNotFound(name: string): string {
    "Ingredient '" + name + "' not found"
  }

  /**
   * The response to an add request: 400 exactly when the value is negative; otherwise a
   * confirmation that repeats the name and, in canonical decimal (no leading zero), exactly the
   * value stored.
   */
  function AddResponse(name: string, calories: int): (r: Response<string>)
    ensures calories < 0 <==> r == Err(BadRequest, NegativeCalories)
    ensures calories >= 0 ==> (
      r.Ok? &&
      var m, p := r.value, |"Added " + name + " with "|;
      var q := |m| - |" kcal per 100g"|;
      p < q && m[..p] == "Added " + name + " with " && m[q..] == " kcal per 100g" &&
      Decimal.AllDigits(m[p..q]) && (|m[p..q]| > 1 ==> m[p] != '0') &&
      Decimal.StringToNat(m[p..q]) == calories)
  {
    if calories < 0 then Err(BadRequest, NegativeCalories)
    else
      var m := AddedMessage(name, calories);
      var p := |"Added " + name + " with "|;
      assert m[p..|m| - |" kcal per 100g"|] == Decimal.NatToString(calories);
      Decimal.StringToNatInvertsNatToString(calories);
      Ok(m)
  }

  /** Storing a non-negative value (inserting or overwriting) keeps the catalog invariant. */
  lemma StorePreservesValid(c: Catalog, name: string, calories: int)
    requires CatalogValid(c) && calories >= 0
    ensures CatalogValid(c[name := calories])
  {
  }

  /** Every item of the meal names an ingredient of the catalog. */
  predicate AllKnown(c: Catalog, meal: seq<MealItem>) {
    forall i :: 0 <= i < |meal| ==> meal[i].ingredient in c
  }

  /** Every item before position i names an ingredient of the catalog. */
  predicate AllKnownBefore(c: Catalog, meal: seq<MealItem>, i: int)
    requires 0 <= i <= |meal|
  {
    forall j :: 0 <= j < i ==> meal[j].ingredient in c
  }

  /** The position of the first item, in input order, whose ingredient is not in the catalog. */
  function FirstUnknown(c: Catalog, meal: seq<MealItem>): (r: Option<nat>)
    ensures r.None? <==> AllKnown(c, meal)
    ensures r.Some? ==> r.value < |meal| && meal[r.value].ingredient !in c
    ensures r.Some? ==> AllKnownBefore(c, meal, r.value)
    decreases |meal|
  {
    if meal == [] then None
    else
      var head := FirstUnknown(c, meal[..|meal| - 1]);
      if head.Some? then head
      else if meal[|meal| - 1].ingredient !in c then Some(|meal| - 1)
      else None
  }

  /** Calories contributed by `grams` of an ingredient with `kcal` per 100 g (unrounded). */
  function ItemCalories(kcal: int, grams: real): real {
    kcal as real * grams / 100.0
  }

  /** The breakdown of a meal whose ingredients are all known: one line per item, in input order. */
  function Breakdown(c: Catalog, meal: seq<MealItem>): (r: seq<Line>)
    requires AllKnown(c, meal)
    ensures |r| == |meal|
    ensures forall i :: 0 <= i < |meal| ==>
      r[i] == Line(meal[i].ingredient, meal[i].grams, ItemCalories(c[meal[i].ingredient], meal[i].grams))
    decreases |meal|
  {
    if meal == [] then []
    else
      var last := meal[|meal| - 1];
      Breakdown(c, meal[..|meal| - 1]) + [Line(last.ingredient, last.grams, ItemCalories(c[last.ingredient], last.grams))]
  }

  /** The total calories of a meal whose ingredients are all known, accumulated in input order. */
  function MealTotal(c: Catalog, meal: seq<MealItem>): real
    requires AllKnown(c, meal)
    decreases |meal|
  {
    if meal == [] then 0.0
    else
      var last := meal[|meal| - 1];
      MealTotal(c, meal[..|meal| - 1]) + ItemCalories(c[last.ingredient], last.grams)
  }

  /** The sum of the calories column of a breakdown. */
  function SumCalories(lines: seq<Line>): real
    decreases |lines|
  {
    if lines == [] then 0.0 else SumCalories(lines[..|lines| - 1]) + lines[|lines| - 1].calories
  }

  /**
   * The answer to a calculation request: the 404 naming the first unknown ingredient,
   * or the total and the breakdown.
   */
  function Calculate(c: Catalog, meal: seq<MealItem>): (r: Response<Summary>)
    ensures r.Err? <==> !AllKnown(c, meal)
    ensures forall i :: 0 <= i < |meal| && meal[i].ingredient !in c && AllKnownBefore(c, meal, i) ==>
              r == Err(NotFound, IngredientNotFound(meal[i].ingredient))
    ensures r.Ok? ==> AllKnown(c, meal) && r.value.totalCalories == MealTotal(c, meal)
    ensures r.Ok? ==> r.value.breakdown == Breakdown(c, meal)
  {
    match FirstUnknown(c, meal)
    case Some(i) => Err(NotFound, IngredientNotFound(meal[i].ingredient))
    case None => Ok(Summary(MealTotal(c, meal), Breakdown(c, meal)))
  }

  /** The unrounded total is the sum of the unrounded per-item calories of the breakdown. */
  lemma {:induction false} MealTotalIsBreakdownSum(c: Catalog, meal: seq<MealItem>)
    requires AllKnown(c, meal)
    ensures MealTotal(c, meal) == SumCalories(Breakdown(c, meal))
    decreases |meal|
  {
    if meal != [] {
      var init := meal[..|meal| - 1];
      MealTotalIsBreakdownSum(c, init);
      var b := Breakdown(c, meal);
      assert b[..|b| - 1] == Breakdown(c, init);
    }
  }

  /** The total of two meals put together is the sum of their totals. */
  lemma {:induction false} MealTotalAppend(c: Catalog, m1: seq<MealItem>, m2: seq<MealItem>)
    requires AllKnown(c, m1) && AllKnown(c, m2)
    ensures AllKnown(c, m1 + m2)
    ensures MealTotal(c, m1 + m2) == MealTotal(c, m1) + MealTotal(c, m2)
    decreases |m2|
  {
    assert AllKnown(c, m1 + m2) by {
      forall i | 0 <= i < |m1 + m2| ensures (m1 + m2)[i].ingredient in c {
        if i >= |m1| { assert (m1 + m2)[i] == m2[i - |m1|]; }
      }
    }
    if m2 == [] {
      assert m1 + m2 == m1;
    } else {
      var init := m2[..|m2| - 1];
      MealTotalAppend(c, m1, init);
      assert (m1 + m2)[..|m1 + m2| - 1] == m1 + init;
    }
  }

  /** With a valid catalog and no negative weights, no total is negative. */
  lemma {:induction false} MealTotalNonNegative(c: Catalog, meal: seq<MealItem>)
    requires CatalogValid(c) && AllKnown(c, meal)
    requires forall i :: 0 <= i < |meal| ==> meal[i].grams >= 0.0
    ensures MealTotal(c, meal) >= 0.0
    decreases |meal|
  {
    if meal != [] {
      var last := meal[|meal| - 1];
      MealTotalNonNegative(c, meal[..|meal| - 1]);
      var k := c[last.ingredient] as real;
      assert k >= 0.0;
      assert k * last.grams >= 0.0;
    }
  }

  /** An example on the seeded catalog: 200 g of chicken breast is 165 * 200 / 100 = 330 kcal. */
  lemma ChickenBreastExample()
    ensures Calculate(SeedCatalog(), [MealItem("Chicken Breast", 200.0)])
      == Ok(Summary(330.0, [Line("Chicken Breast", 200.0, 330.0)]))
  {
    var meal := [MealItem("Chicken Breast", 200.0)];
    assert meal[..0] == [];
    assert AllKnown(SeedCatalog(), meal);
    assert MealTotal(SeedCatalog(), meal) == ItemCalories(165, 200.0) == 330.0;
    assert Breakdown(SeedCatalog(), meal) == [Line("Chicken Breast", 200.0, 330.0)];
  }

  /** Negative weights are not rejected: they yield negative calories. */
  lemma NegativeGramsAccepted()
    ensures Calculate(SeedCatalog(), [MealItem("Egg", -100.0)])
      == Ok(Summary(-155.0, [Line("Egg", -100.0, -155.0)]))
  {
    var meal := [MealItem("Egg", -100.0)];
    assert meal[..0] == [];
    assert AllKnown(SeedCatalog(), meal);
    assert MealTotal(SeedCatalog(), meal) == ItemCalories(155, -100.0) == -155.0;
    assert Breakdown(SeedCatalog(), meal) == [Line("Egg", -100.0, -155.0)];
  }
}
