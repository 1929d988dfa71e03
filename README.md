# Recipe Book: favorites and API responses, modelled in Dafny

Recipe Book is an Android app that browses TheMealDB (categories, the recipes
of a category, one recipe's instructions) and keeps a local Room table of
favorite recipes. This project models the part of it with checkable logic:

- the favorites table (`RecipeDao`, rows `Recipe(id, name, imageUrl)` keyed by
  `id`) as a class over a `map`, with insert, delete and the two queries;
- `MainActivity.recipeFavorited`, the toggle that deletes a favorite when a
  row with its id exists and inserts it otherwise, the favorite check in
  `displayInstructions`, and `InstructionsFragment`, whose `isFavorite` flag
  is negated on every click after the toggle ran; the model proves that the
  flag keeps agreeing with the table when nobody else writes it;
- the three response parsers over an abstract org.json value tree: the
  category-list and recipe-list parsers as loops, the recipe-details parser
  (which reads only element 0) as a function, all with the source's exception
  behaviour: every JSONException is swallowed and keeps what was collected so
  far, while a NumberFormatException from `Integer.parseInt` escapes;
- the session's category cache (`MainActivity.categories`), written by the
  categories task and shown by `setCategoriesFragment`.

Files: `wrappers.dfy` (Option), `java_integer.dfy` (Java `int`,
`Integer.parseInt` and the decimal spelling it reads back), `org_json.dfy`
(the JSON tree and Android's org.json accessors), `records.dfy` (Recipe,
Instructions, Category), `recipe_dao.dfy` (the table), `extractors.dfy` (the
parsers), `activity.dfy` (MainActivity and InstructionsFragment).

A downloaded body is modelled by the value its text parses to, `None` when
it is not JSON; the empty string a failed download returns
(MainActivity.java:455, 479-483) is `OrgJson.FailedDownload`.

Where the code and the app's own description of it part ways, the model
follows the code:

- `setCategoriesFragment`'s doc comment (MainActivity.java:148-149) says it
  downloads the categories only if they have not been downloaded yet. The
  code has no early return: with a cache it shows the cache and then
  downloads again, and the task's `onPostExecute` overwrites the cache with
  whatever it parsed, the empty list of a failed download included.
- A body without a `categories` or `meals` array is not an error: it yields
  an empty list (or null for the details).
- There is no not-found error for the details: an empty lookup response, or
  one whose first meal lacks a field, gives null, and `displayInstructions`
  then calls `getId()` on that null (MainActivity.java:253). A non-numeric
  `idMeal` throws NumberFormatException instead. `MainActivity.OnInstructionsPostExecute` reports
  that null dereference instead of a screen.
- The favorites toggle never reaches `insert` for an id already stored, so
  the table never holds two rows with one id; there is no separate idempotent
  add.
- Completed downloads are applied in whatever order they finish; nothing
  discards a stale response.

## Model

| member | source | states |
|---|---|---|
| `JavaInteger.ParseInt` | app/src/main/java/com/dherthog/recipebook/MainActivity.java:588 | `Integer.parseInt` accepts only an optional sign followed by at least one digit; its value is the decimal number the digits spell, negated under `-`; every such text within the 32-bit range (down to -2^31 with `-`, below 2^31 otherwise, leading zeros allowed) is accepted |
| `JavaInteger.ParseIntToString` | app/src/main/java/com/dherthog/recipebook/MainActivity.java:588 | `Integer.parseInt` reads back every 32-bit id written in decimal, as the API sends `idMeal` |
| `JavaInteger.ParseIntRejectsNonDigit` | app/src/main/java/com/dherthog/recipebook/MainActivity.java:588 | an id text with a non-digit after the optional sign makes `parseInt` throw NumberFormatException |
| `OrgJson.NewJSONObject` | app/src/main/java/com/dherthog/recipebook/MainActivity.java:495 | `new JSONObject` succeeds exactly on a body that is a JSON object, giving its fields, and fails on a failed download |
| `OrgJson.GetJSONArray` | app/src/main/java/com/dherthog/recipebook/MainActivity.java:495 | `getJSONArray` succeeds exactly when the key is present and holds an array (so a `null` value is an error), giving that array |
| `OrgJson.GetJSONObject` | app/src/main/java/com/dherthog/recipebook/MainActivity.java:498 | `getJSONObject(i)` succeeds exactly when i is in range and element i is an object, so it fails on an empty array |
| `OrgJson.GetString` | app/src/main/java/com/dherthog/recipebook/MainActivity.java:499 | `getString` succeeds exactly when the key is present and holds a scalar; a string comes back as itself, `null` as the text "null", a boolean as "true" or "false" and a number as its rendered text |
| `Records.AsRecipeIsSummary` | app/src/main/java/com/dherthog/recipebook/Instructions.java:21-23 | an Instructions seen as a Recipe has its own id, name and imageUrl, and two Instructions are the same Recipe exactly when those three agree (category, area and instructions are not part of it) |
| `Persistence.RecipeDao.constructor` | app/src/main/java/com/dherthog/recipebook/MainActivity.java:85-88 | opening the database gives back the favorites stored in earlier sessions (none on a first install), each row under its own id |
| `Persistence.RecipeDao.Insert` | app/src/main/java/com/dherthog/recipebook/RecipeDao.java:20-21 | insert adds the row under its id and changes no other row; the id must not be stored yet |
| `Persistence.RecipeDao.Delete` | app/src/main/java/com/dherthog/recipebook/RecipeDao.java:27-28 | delete removes the row whose primary key is the argument's id, whatever its other columns, and nothing else; a missing row is no error |
| `Persistence.RecipeDao.GetAllRecipes` | app/src/main/java/com/dherthog/recipebook/RecipeDao.java:33-34 | the result holds every stored row and only stored rows, each once (as many rows as the table, no id twice) |
| `Persistence.RecipeDao.GetRecipeByID` | app/src/main/java/com/dherthog/recipebook/RecipeDao.java:39-40 | the result is non-empty exactly when a row with that id is stored, has at most one row, and holds only that stored row |
| `Extractors.CategoryOf` | app/src/main/java/com/dherthog/recipebook/MainActivity.java:498-499 | an element gives a category exactly when it is an object on which `getString` succeeds for both keys (a `null` value reads as "null"), and the category holds those two `getString` results |
| `Extractors.CategoriesArePrefix` | app/src/main/java/com/dherthog/recipebook/MainActivity.java:495-500 | the category list is the longest well-formed prefix of the `categories` array: element i of the list comes from element i of the array, and the first element left out is malformed |
| `Extractors.CategoriesAllWellFormed` | app/src/main/java/com/dherthog/recipebook/MainActivity.java:497-500 | when every element is a well-formed category, the list has one category per element, in order |
| `Extractors.CategoriesStopAt` | app/src/main/java/com/dherthog/recipebook/MainActivity.java:492-505 | a JSONException at element k, after k well-formed elements, yields exactly those k categories |
| `Extractors.CategoriesRoundTrip` | app/src/main/java/com/dherthog/recipebook/MainActivity.java:495-499 | a categories response built from a list of categories parses back to that list |
| `Extractors.ParseCategoryData` | app/src/main/java/com/dherthog/recipebook/MainActivity.java:492-505 | a body that is not a JSON object or has no `categories` array gives the empty list; otherwise the loop returns the well-formed prefix of the array |
| `Extractors.RecipeOf` | app/src/main/java/com/dherthog/recipebook/MainActivity.java:587-588 | `idMeal` is read and parsed first: an object whose readable `idMeal` does not parse gives NumberFormatException, and that exception comes from nowhere else; an object with a numeric `idMeal` and readable `strMeal` and `strMealThumb` gives a recipe, and a recipe holds `parseInt(idMeal)` and the `getString` results of those two keys; anything else is a JSONException |
| `Extractors.RecipesArePrefix` | app/src/main/java/com/dherthog/recipebook/MainActivity.java:584-589 | when the recipe-list parser returns, its list is the longest well-formed prefix of `meals`, in order, and the first element left out raised JSONException |
| `Extractors.RecipesThrowAtBadId` | app/src/main/java/com/dherthog/recipebook/MainActivity.java:588 | after k well-formed elements, NumberFormatException escapes exactly when element k has a non-numeric `idMeal`, or is well-formed and a later element throws |
| `Extractors.RecipesNeverThrowWhenWellFormed` | app/src/main/java/com/dherthog/recipebook/MainActivity.java:586-589 | an array of well-formed meals never makes the parser throw |
| `Extractors.RecipesAllWellFormed` | app/src/main/java/com/dherthog/recipebook/MainActivity.java:586-589 | when every meal is well-formed, the parser returns one `Recipe(parseInt(idMeal), strMeal, strMealThumb)` per element, in order |
| `Extractors.RecipesStopAt` | app/src/main/java/com/dherthog/recipebook/MainActivity.java:581-594 | a JSONException at element k, after k well-formed meals, yields exactly those k recipes |
| `Extractors.RecipesRoundTrip` | app/src/main/java/com/dherthog/recipebook/MainActivity.java:584-589 | a meal-list response built from recipes parses back to those recipes |
| `Extractors.ParseRecipeData` | app/src/main/java/com/dherthog/recipebook/MainActivity.java:581-594 | no `meals` array (not an object, missing key, `"meals": null`) gives the empty list; otherwise the loop's outcome is the well-formed prefix, or the escaping NumberFormatException |
| `Extractors.ParseInstructionsData` | app/src/main/java/com/dherthog/recipebook/MainActivity.java:669-684 | details (or the escaping NumberFormatException) come only from an object at index 0 of `meals` with a readable `idMeal`; the exception means `idMeal` does not parse; returned details carry `parseInt(idMeal)` and the five string fields of that object; conversely, a first meal with a numeric `idMeal` and the five other fields readable, extra fields allowed, always gives details |
| `Extractors.InstructionsRoundTrip` | app/src/main/java/com/dherthog/recipebook/MainActivity.java:669-684 | a lookup response whose first meal carries the six fields of some Instructions (id as decimal text) parses back to them, whatever other fields that meal has and whatever follows in the array |
| `Extractors.InstructionsReadOnlyFirst` | app/src/main/java/com/dherthog/recipebook/MainActivity.java:672-673 | only element 0 of `meals` is read: two bodies that agree on it parse alike |
| `Extractors.InstructionsNullWithoutFirstMeal` | app/src/main/java/com/dherthog/recipebook/MainActivity.java:670-683 | no `meals` array, an empty array or a first element that is not an object gives null |
| `Extractors.InstructionsFieldErrors` | app/src/main/java/com/dherthog/recipebook/MainActivity.java:674-679 | a non-numeric `idMeal` makes NumberFormatException escape; with a numeric one, any of the other five fields missing gives null |
| `Extractors.FailedDownloadParsesToNothing` | app/src/main/java/com/dherthog/recipebook/MainActivity.java:479-483 | the empty body of a failed download has no array, so it yields no categories, no recipes and null details |
| `Activity.Toggled` | app/src/main/java/com/dherthog/recipebook/MainActivity.java:410-419 | the toggled table has the recipe's id removed if it was stored and added otherwise, every other row unchanged, and any row under the recipe's id is the recipe |
| `Activity.ToggleFlipsMembership` | app/src/main/java/com/dherthog/recipebook/MainActivity.java:410-419 | after a toggle, "a row with the recipe's id exists" is the negation of what it was, and an inserted row is the recipe itself |
| `Activity.ToggleTouchesOnlyItsRow` | app/src/main/java/com/dherthog/recipebook/MainActivity.java:412-418 | rows with any other id are untouched by a toggle |
| `Activity.TogglePreservesPrimaryKey` | app/src/main/java/com/dherthog/recipebook/MainActivity.java:412-418 | a toggle keeps every row under its own id, so ids stay unique |
| `Activity.ToggleTwice` | app/src/main/java/com/dherthog/recipebook/MainActivity.java:410-419 | two toggles with one recipe leave the set of ids unchanged, and the table unchanged unless the stored row differed from the recipe (it is then replaced by the recipe) |
| `Activity.ToggledTimesParity` | app/src/main/java/com/dherthog/recipebook/MainActivity.java:410-419 | after n toggles the recipe's membership is flipped when n is odd and as before when n is even |
| `Activity.MainActivity.constructor` | app/src/main/java/com/dherthog/recipebook/MainActivity.java:85-88 | the activity starts with its DAO and no cached categories |
| `Activity.MainActivity.SetCategoriesFragment` | app/src/main/java/com/dherthog/recipebook/MainActivity.java:151-167 | the cached categories are shown exactly when there is a cache, and independently a download starts exactly when connected and the no-network notice shows exactly when not |
| `Activity.MainActivity.SetCategories` | app/src/main/java/com/dherthog/recipebook/MainActivity.java:424-426 | the cache becomes the given list |
| `Activity.MainActivity.PrepareCategoriesTask` | app/src/main/java/com/dherthog/recipebook/MainActivity.java:442-515 | the task parses the body, then always overwrites the cache with the parsed list and shows it, the empty list included |
| `Activity.MainActivity.RecipeFavorited` | app/src/main/java/com/dherthog/recipebook/MainActivity.java:410-419 | the table after the call is the toggled table: the row deleted when the lookup found one, the recipe inserted otherwise, never both |
| `Activity.MainActivity.DisplayInstructions` | app/src/main/java/com/dherthog/recipebook/MainActivity.java:250-261 | the new fragment shows the given recipe with a favorite flag that is true exactly when a row with its id is stored |
| `Activity.MainActivity.OnInstructionsPostExecute` | app/src/main/java/com/dherthog/recipebook/MainActivity.java:347-352 | parsed details are displayed in a fragment that talks back to this activity and whose flag is true exactly when a row with the recipe's id is stored; a null result is dereferenced in `displayInstructions` |
| `Activity.InstructionsFragment.constructor` | app/src/main/java/com/dherthog/recipebook/InstructionsFragment.java:34-38 | the fragment keeps its recipe and its communicator, and `isFavorite` starts as the argument |
| `Activity.InstructionsFragment.OnCreateView` | app/src/main/java/com/dherthog/recipebook/InstructionsFragment.java:64-66 | creating the view draws the favorite button from the flag |
| `Activity.InstructionsFragment.OnFavoriteClick` | app/src/main/java/com/dherthog/recipebook/InstructionsFragment.java:76-80 | a click toggles the table once with the recipe's (id, name, imageUrl), negates the flag, redraws the button, and keeps the flag in agreement with the table |
| `Activity.InstructionsFragment.SetFavoriteButtonImage` | app/src/main/java/com/dherthog/recipebook/InstructionsFragment.java:91-96 | the button shows star_on exactly when the flag is set and star_off exactly when it is not |

## Left out

- The HTTP downloads, the connectivity check and the URLs are network I/O: connectivity is a parameter of `SetCategoriesFragment`, and a body is a parameter of the parsers.
- Turning JSON text into a value tree is done by org.json: the parsers start from the tree, and `None` for text that is not JSON.
- OrgJson.GetString: on a nested array or object Android's `getString` returns that value's JSON text; the model treats it as a JSONException, since it keeps no key order to print an object in.
- OrgJson.Json: a number is carried as the text `String.valueOf` gives for it; Java's number parsing and printing are not modelled.
- JavaInteger.ParseInt: only ASCII digits are accepted, while Java's `Character.digit` also accepts other Unicode decimal digits.
- What the Android runtime does with the NumberFormatException that escapes a background task (the app stops) is beyond the model; the parsers report it as `ThrowsNumberFormat`.
- AsyncTask threads and the order in which tasks finish are concurrency; the model runs each task to completion.
- Interstitial and rewarded ads are SDK side effects. `OnInstructionsPostExecute` models the path without a loaded rewarded ad; with one, `displayInstructions` runs only once the reward is earned.
- Screens and their contents (fragment transactions, list adapters, Picasso images, `displayCategories`, `displayRecipes`, `setFavoritesFragment`, `displayFavorites`, the category and recipe click forwarders) are UI rendering; the model returns what would be shown.
- The Room database builder and the communicator interfaces are framework wiring: the fragment's communicator is the MainActivity itself.
- Persistence.RecipeDao.Insert: Room's behaviour on a duplicate key is not visible in the source, so insertion requires the id to be absent, which `recipeFavorited` guarantees.
- Persistence.RecipeDao.GetAllRecipes: the order of the rows is not fixed by the query and is left open.
