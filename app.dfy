/**
 * The request handlers over the two process-wide tables. The tables are fields of one
 * object; each handler reads or updates them in place, as the handlers of the service do.
 */
module App {
  import opened Responses
  import opened Activities
  import opened Ingredients

  class Api {
    /** The activity registry, updated in place by signups. */
    var activities: Registry
    /** The ingredient catalog, updated in place by add requests. */
    var ingredients: Catalog

    /** The object invariant: the catalog holds no negative calorie value. */
    ghost predicate Valid()
      reads this
    {
      CatalogValid(ingredients)
    }

    /** The tables as the process starts with them. */
    constructor ()
      ensures Valid()
      ensures activities == SeedActivities() && ingredients == SeedCatalog()
    {
      activities := SeedActivities();
      ingredients := SeedCatalog();
      SeedCatalogValid();
    }

    /** The listing of activities is the registry, every record as stored. */
    function GetActivities(): (r: Registry)
      reads this
      ensures r.Keys == activities.Keys
      ensures forall n :: n in r ==> r[n] == activities[n]
    {
      activities
    }

    /** The listing of ingredients is the catalog, every value as stored. */
    function GetIngredients(): (r: Catalog)
      reads this
      ensures r.Keys == ingredients.Keys
      ensures forall n :: n in r ==> r[n] == ingredients[n]
    {
      ingredients
    }

    /**
     * Signs `email` up for `name`: 404 if there is no such activity, otherwise the email is
     * appended to that activity's participants and nothing else changes.
     */
    method SignupForActivity(name: string, email: string) returns (r: Response<string>)
      modifies this
      ensures ingredients == old(ingredients)
      ensures name !in old(activities) ==>
                r == Err(NotFound, ActivityNotFound) && activities == old(activities)
      ensures name in old(activities) ==>
                r == Ok(SignupMessage(email, name)) && activities == Enroll(old(activities), name, email)
    {
      if name !in activities {
        return Err(NotFound, ActivityNotFound);
      }
      activities := Enroll(activities, name, email);
      r := Ok(SignupMessage(email, name));
    }

    /**
     * Stores an ingredient: 400 if the value is negative (catalog unchanged), otherwise the entry
     * for `name` is inserted or overwritten with exactly `calories` and no other key changes.
     */
    method AddIngredient(name: string, calories: int) returns (r: Response<string>)
      modifies this
      ensures old(Valid()) ==> Valid()
      ensures activities == old(activities)
      ensures r == AddResponse(name, calories)
      ensures calories < 0 ==> ingredients == old(ingredients)
      ensures calories >= 0 ==> ingredients == old(ingredients)[name := calories]
    {
      if calories < 0 {
        return Err(BadRequest, NegativeCalories);
      }
      if Valid() {
        StorePreservesValid(ingredients, name, calories);
      }
      ingredients := ingredients[name := calories];
      r := Ok(AddedMessage(name, calories));
    }

    /**
     * Walks the meal in order, accumulating the total and the breakdown, and stops at the
     * first unknown ingredient with a 404 naming it. The catalog is only read.
     */
    method CalculateCalories(meal: seq<MealItem>) returns (r: Response<Summary>)
      ensures r == Calculate(ingredients, meal)
      ensures Valid() && (forall i :: 0 <= i < |meal| ==> meal[i].grams >= 0.0) && r.Ok? ==>
                r.value.totalCalories >= 0.0
    {
      var total := 0.0;
      var breakdown: seq<Line> := [];
      var i := 0;
      while i < |meal|
        invariant 0 <= i <= |meal|
        invariant AllKnown(ingredients, meal[..i])
        invariant total == MealTotal(ingredients, meal[..i])
        invariant breakdown == Breakdown(ingredients, meal[..i])
      {
        var item := meal[i];
        if item.ingredient !in ingredients {
          assert AllKnownBefore(ingredients, meal, i) by {
            forall j | 0 <= j < i ensures meal[j].ingredient in ingredients {
              assert meal[..i][j] == meal[j];
            }
          }
          return Err(NotFound, IngredientNotFound(item.ingredient));
        }
        var cals := ingredients[item.ingredient] as real * item.grams / 100.0;
        breakdown := breakdown + [Line(item.ingredient, item.grams, cals)];
        total := total + cals;
        assert meal[..i + 1][..i] == meal[..i];
        i := i + 1;
      }
      assert meal[..i] == meal;
      if Valid() && forall k :: 0 <= k < |meal| ==> meal[k].grams >= 0.0 {
        MealTotalNonNegative(ingredients, meal);
      }
      r := Ok(Summary(total, breakdown));
    }
  }
}
