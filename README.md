# Mergington High School API: a Dafny model of its request handlers

The service keeps two tables in process memory and serves a few handlers over them.

- **Activity registry.** Maps an activity name to its description, schedule, `max_participants` and an ordered list of participant emails. *Signup* raises 404 "Activity not found" for an unknown name. Otherwise it appends the email to that activity's list and confirms with "Signed up {email} for {activity}".
- **Ingredient catalog.** Maps an ingredient name to whole kilocalories per 100 g.
  - *Add ingredient* raises 400 "Calories must be non-negative" for a negative value. Otherwise it inserts or overwrites the entry and confirms with "Added {name} with {kcal} kcal per 100g".
  - *Calculate calories* walks a meal (ingredient, grams) in order. It raises 404 "Ingredient '{x}' not found" at the first unknown ingredient. Otherwise it returns the total and a per-item breakdown in input order, where an item contributes `kcal * grams / 100`.

## Layout

- `responses.dfy`, module `Responses`: `Response<T>` (`Ok(value)` or `Err(status, detail)`) stands for a returned value or a raised `HTTPException`. It also holds `Option` and the status constants 400 and 404.
- `decimal.dfy`, module `Decimal`: the decimal text of a non-negative int, as the confirmation message of *add ingredient* renders it, with its inverse.
- `activities.dfy`, module `Activities`: the `Activity` record, the seeded registry and `Enroll`. `Enroll` is the registry after one signup. `EnrollAll` is the registry after consecutive signup requests for one activity, used to state the append order.
- `ingredients.dfy`, module `Ingredients`: the catalog and its invariant (no negative value), the seeded catalog, and `AddResponse` (the response to an add request). It also holds the specification of a calculation: `FirstUnknown`, `Breakdown`, `MealTotal` and `Calculate`.
- `app.dfy`, module `App`: class `Api`. The two tables are its fields. `SignupForActivity` and `AddIngredient` update them in place. `CalculateCalories` is the source's loop, proved equal to `Calculate`.

The code of `src/app.py` is the reference throughout. Where it differs from the tests, the model follows the code:

- `tests/test_api.py` expects a 400 on a duplicate signup. The code appends unconditionally, and so does `Enroll`: `EnrollAdmitsDuplicates` shows the duplicate is stored.
- The tests also exercise an unregister endpoint, which the code does not have.
- The code has no capacity check, so neither has the model (`maxParticipants` is carried but never consulted).

## Model

| member | source | states |
|---|---|---|
| `App.Api.constructor` | src/app.py:24-103 | the tables start as the seeded registry and catalog, and the catalog invariant (no negative kcal) holds |
| `App.Api.GetActivities` | src/app.py:51-53 | the listing is the registry: the same names, each with its record as stored |
| `App.Api.GetIngredients` | src/app.py:116-119 | the listing is the catalog: the same names, each with its value as stored |
| `App.Api.SignupForActivity` | src/app.py:56-68 | unknown name: 404 "Activity not found" and both tables unchanged; known name: "Signed up {email} for {name}", the registry becomes `Enroll(old, name, email)` and the catalog is unchanged |
| `App.Api.AddIngredient` | src/app.py:122-128 | negative value: 400 "Calories must be non-negative" and the catalog unchanged; otherwise `ingredients[name]` is set to exactly that value (insert or overwrite) and no other key changes; the registry is unchanged, and a catalog free of negative values stays so |
| `App.Api.CalculateCalories` | src/app.py:131-142 | the loop's answer equals `Calculate` on the current catalog (the 404 of the first unknown ingredient, else the total and the breakdown); it changes no state; on a catalog free of negative values and a meal with no negative grams, a successful total is not negative |
| `Activities.Enroll` | src/app.py:64-67 | only the named activity's participants change: same keys, every other activity equal, description, schedule and capacity equal; the list grows by one, its old prefix is kept, the email is last, and its multiset gains exactly that email |
| `Activities.EnrollAllAppendsInOrder` | src/app.py:64-67 | successive signups for one activity leave the old list followed by the new emails in request order, and nothing else changes |
| `Activities.EnrollAdmitsDuplicates` | src/app.py:64-67 | signing up an email already on the list stores it a second time (no duplicate check) |
| `Activities.EnrollCommutes` | src/app.py:64-67 | signups for two different activities give the same registry in either order |
| `Ingredients.SeedCatalogValid` | src/app.py:72-103 | every seeded calorie value is non-negative |
| `Ingredients.AddResponse` | src/app.py:125-128 | the response is 400 "Calories must be non-negative" exactly when the value is negative; otherwise the confirmation is "Added {name} with ", then decimal digits with no leading zero that read back as exactly the stored value, then " kcal per 100g" |
| `Ingredients.StorePreservesValid` | src/app.py:125-127 | storing a non-negative value, whether inserted or overwritten, keeps the catalog free of negative values |
| `Ingredients.FirstUnknown` | src/app.py:136-138 | none exactly when every item is in the catalog; otherwise the index of an item not in the catalog, with every earlier item in it, i.e. the first unknown in input order |
| `Ingredients.Breakdown` | src/app.py:134-140 | one line per meal item, same length and order; each line copies the item's ingredient and grams and carries `kcal * grams / 100` |
| `Ingredients.Calculate` | src/app.py:131-142 | an error exactly when some ingredient is unknown, and then the 404 "Ingredient '{x}' not found" for the first such x in input order (no partial result); on success the total is `MealTotal` and the breakdown is `Breakdown` |
| `Ingredients.MealTotalIsBreakdownSum` | src/app.py:139-141 | the unrounded total equals the sum of the unrounded per-item calories of the breakdown |
| `Ingredients.MealTotalAppend` | src/app.py:134-141 | the total of a concatenated meal is the sum of the totals of its parts |
| `Ingredients.MealTotalNonNegative` | src/app.py:139-141 | with a catalog free of negative values and no negative grams, the total is not negative |
| `Ingredients.ChickenBreastExample` | src/app.py:131-142 | 200 g of "Chicken Breast" on the seeded catalog gives total 330 and the single breakdown line ("Chicken Breast", 200, 330) |
| `Ingredients.NegativeGramsAccepted` | src/app.py:131-142 | negative grams are not rejected: -100 g of "Egg" gives a total of -155 |
| `Decimal.NatToString` | src/app.py:128 | the rendered kcal value is a non-empty string of digits with no leading zero, one digit exactly for values below 10 |
| `Decimal.StringToNatInvertsNatToString` | src/app.py:128 | reading the rendered digits back gives the rendered number |
| `Decimal.NatToStringInjective` | src/app.py:128 | different kcal values give different texts in the confirmation message |

## Left out

- Serving the static front end, the root redirect and the framework's app construction (src/app.py:15-21, 46-48). These are web-framework plumbing.
- The framework's request validation of `Ingredient` and `MealItem` bodies and of the `email` query parameter (the automatic 422 responses). Every handler here receives already well-typed arguments.
- `src/static/app.js` is not part of this model. It is browser UI and network I/O, and its `grams > 0` filter is client-side only.
- App.Api.CalculateCalories: per-item and total calories are exact, unrounded reals. The source uses floating-point arithmetic and rounds each breakdown value and the total to one decimal place with `round(..., 1)`.
- Ingredients.Calculate: the same exact-real simplification as App.Api.CalculateCalories, with no floating point or rounding.
- Ingredients.Breakdown: each line carries the exact calories `kcal * grams / 100`, where the source stores `round(cals, 1)`.
- Ingredients.MealTotalIsBreakdownSum: holds of the unrounded values only. In the source the rounded breakdown column need not add up to the rounded total.
- App.Api.GetActivities: the source returns the live dictionary, so a caller holding it shares the participant lists. The model returns the registry as a value and does not model that aliasing.
- App.Api.GetIngredients: the source returns the live dictionary. The model returns the catalog as a value.
- Listing order: Python dictionaries keep insertion order, so a newly added ingredient is listed last and an overwrite keeps its place. Dafny maps are unordered, so the model does not capture the order of either listing.
- Duplicate-signup rejection, capacity enforcement and unregistering are not modelled. `src/app.py` implements none of them, although the tests expect duplicate rejection and unregistering.
- Concurrency: the source has no locking, and the model treats each handler call as one atomic step.
