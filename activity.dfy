/**
 * MainActivity's state and decisions (the favorites toggle, the favorite
 * check before showing a recipe, the session's category cache) and the
 * InstructionsFragment that shows one recipe with its favorite button.
 * Screens, fragment transactions, ads and network calls are not modelled:
 * their inputs (connectivity, downloaded bodies) are parameters and their
 * visible results are out-parameters.
 */
module Activity {
  import opened Wrappers
  import opened JavaInteger
  import opened OrgJson
  import opened Records
  import opened Persistence
  import opened Extractors

  // ------------------------------------------------------- favorites toggle

  /** The table after `recipeFavorited(recipe)`. */
  function Toggled(table: map<Int32, Recipe>, recipe: Recipe): (r: map<Int32, Recipe>)
    ensures r.Keys == if recipe.id in table then table.Keys - {recipe.id} else table.Keys + {recipe.id}
    ensures forall id :: id in r && id != recipe.id ==> r[id] == table[id]
    ensures recipe.id in r ==> r[recipe.id] == recipe
  {
    if recipe.id in table then table - {recipe.id} else table[recipe.id := recipe]
  }

  /** A toggle negates "a row with this id exists". */
  lemma ToggleFlipsMembership(table: map<Int32, Recipe>, recipe: Recipe)
    ensures (recipe.id in Toggled(table, recipe)) == (recipe.id !in table)
    ensures recipe.id in Toggled(table, recipe) ==> Toggled(table, recipe)[recipe.id] == recipe
  {
  }

  /** A toggle touches only the row keyed by the recipe's id. */
  lemma ToggleTouchesOnlyItsRow(table: map<Int32, Recipe>, recipe: Recipe, id: Int32)
    requires id != recipe.id
    ensures (id in Toggled(table, recipe)) == (id in table)
    ensures id in table ==> Toggled(table, recipe)[id] == table[id]
  {
  }

  /** A toggle keeps every row under its own primary key. */
  lemma TogglePreservesPrimaryKey(table: map<Int32, Recipe>, recipe: Recipe)
    requires KeyedById(table)
    ensures KeyedById(Toggled(table, recipe))
  {
  }

  /**
   * Two toggles with the same recipe leave the set of ids as it was, and the
   * whole table too unless the row stored under that id differed from the
   * recipe (deletion goes by id; the insertion that follows stores the
   * argument).
   */
  lemma ToggleTwice(table: map<Int32, Recipe>, recipe: Recipe)
    ensures Toggled(Toggled(table, recipe), recipe).Keys == table.Keys
    ensures (recipe.id in table ==> table[recipe.id] == recipe) ==> Toggled(Toggled(table, recipe), recipe) == table
    ensures recipe.id in table ==> Toggled(Toggled(table, recipe), recipe) == table[recipe.id := recipe]
  {
  }

  /** The table after the user toggles the same recipe `n` times. */
  function ToggledTimes(table: map<Int32, Recipe>, recipe: Recipe, n: nat): map<Int32, Recipe>
  {
    if n == 0 then table else Toggled(ToggledTimes(table, recipe, n - 1), recipe)
  }

  /** After an odd number of toggles the recipe's membership is flipped, after an even number it is restored. */
  lemma {:induction false} ToggledTimesParity(table: map<Int32, Recipe>, recipe: Recipe, n: nat)
    ensures (recipe.id in ToggledTimes(table, recipe, n)) == ((recipe.id in table) != (n % 2 == 1))
  {
    if n > 0 {
      ToggledTimesParity(table, recipe, n - 1);
    }
  }

  // --------------------------------------------------------------- screens

  /** The two images of the favorite button. */
  datatype Drawable = StarOn | StarOff

  class MainActivity {
    /** The DAO opened in onCreate. */
    const recipeDao: RecipeDao
    /** The categories downloaded this session; `None` is the source's null. */
    var categories: Option<seq<Category>>

    /** onCreate: the database is open and no categories are known yet. */
    constructor (recipeDao: RecipeDao)
      ensures this.recipeDao == recipeDao && categories == None
    {
      this.recipeDao := recipeDao;
      categories := None;
    }

    /**
     * `setCategoriesFragment()`: shows the cached categories when there are
     * any, and then, cached or not, starts a download when the device is
     * connected and shows the "No network connection" notice when it is not.
     */
    method SetCategoriesFragment(connected: bool) returns (displayed: Option<seq<Category>>, downloadStarted: bool, noticeShown: bool)
      ensures categories.Some? <==> displayed.Some?
      ensures displayed.Some? ==> displayed.value == categories.value
      ensures downloadStarted <==> connected
      ensures noticeShown <==> !connected
    {
      displayed := None;
      if categories.Some? {
        displayed := categories;
      }
      downloadStarted, noticeShown := false, false;
      if connected {
        downloadStarted := true;
      } else {
        noticeShown := true;
      }
    }

    method SetCategories(categories: seq<Category>)
      modifies this
      ensures this.categories == Some(categories)
    {
      this.categories := Some(categories);
    }

    /**
     * A PrepareCategoriesTask run to completion on the downloaded `body`:
     * doInBackground parses it, onPostExecute stores the list as the cache
     * and shows it. The cache is overwritten even when the list is empty, as
     * it is after a failed download.
     */
    method PrepareCategoriesTask(body: Option<Json>) returns (displayed: seq<Category>)
      modifies this
      ensures categories == Some(displayed)
      ensures ArrayField(body, "categories").None? ==> displayed == []
      ensures ArrayField(body, "categories").Some? ==>
                displayed == CategoriesUntilError(ArrayField(body, "categories").value)
    {
      var parsed := ParseCategoryData(body);
      SetCategories(parsed);
      displayed := parsed;
    }

    /**
     * `recipeFavorited(recipe)`: deletes the recipe's row when the lookup by
     * id finds one, and otherwise inserts the recipe; never both.
     */
    method RecipeFavorited(recipe: Recipe)
      requires recipeDao.Valid()
      modifies recipeDao
      ensures recipeDao.Valid()
      ensures recipeDao.table == Toggled(old(recipeDao.table), recipe)
    {
      var found := recipeDao.GetRecipeByID(recipe.id);
      if |found| > 0 {
        recipeDao.Delete(recipe);
        return;
      }
      recipeDao.Insert(recipe);
    }

    /**
     * `displayInstructions(instructions)`: the new fragment's favorite flag
     * is true exactly when the table has a row with the recipe's id.
     */
    method DisplayInstructions(instructions: Instructions) returns (fragment: InstructionsFragment)
      requires recipeDao.Valid()
      ensures fresh(fragment)
      ensures fragment.instructions == instructions && fragment.favoriteCommunicator == this
      ensures fragment.isFavorite <==> instructions.id in recipeDao.table
      ensures fragment.MirrorsStore()
    {
      var isFavorite := false;
      var rows := recipeDao.GetRecipeByID(instructions.id);
      if |rows| > 0 {
        isFavorite := true;
      }
      fragment := new InstructionsFragment(instructions, isFavorite, this);
    }

    /**
     * PrepareInstructionsTask's onPostExecute, on the path where no rewarded
     * ad is loaded: the parsed details go straight to displayInstructions.
     * A null result (no meal, or a malformed one) is dereferenced there.
     */
    method OnInstructionsPostExecute(parsed: Option<Instructions>) returns (fragment: InstructionsFragment?, nullDereference: bool)
      requires recipeDao.Valid()
      ensures nullDereference <==> parsed.None?
      ensures parsed.None? ==> fragment == null
      ensures parsed.Some? ==> fragment != null && fresh(fragment) && fragment.instructions == parsed.value
                               && fragment.favoriteCommunicator == this
                               && (fragment.isFavorite <==> parsed.value.id in recipeDao.table)
                               && fragment.MirrorsStore()
    {
      if parsed.None? {
        fragment, nullDereference := null, true;
        return;
      }
      fragment := DisplayInstructions(parsed.value);
      nullDereference := false;
    }
  }

  class InstructionsFragment {
    /** The activity that handles the favorite button. */
    const favoriteCommunicator: MainActivity
    const instructions: Instructions
    /** The view's own copy of "this recipe is a favorite". */
    var isFavorite: bool
    /** The favorite button's image; `None` until the view is created. */
    var favoriteImage: Option<Drawable>

    constructor (instructions: Instructions, isFavorite: bool, favoriteCommunicator: MainActivity)
      ensures this.instructions == instructions && this.favoriteCommunicator == favoriteCommunicator
      ensures this.isFavorite == isFavorite && favoriteImage == None
    {
      this.favoriteCommunicator := favoriteCommunicator;
      this.instructions := instructions;
      this.isFavorite := isFavorite;
      favoriteImage := None;
    }

    /** The flag agrees with the table: it holds a row with this recipe's id exactly when the flag is set. */
    ghost predicate MirrorsStore()
      reads this, favoriteCommunicator.recipeDao
    {
      isFavorite <==> instructions.id in favoriteCommunicator.recipeDao.table
    }

    /** onCreateView, as far as the favorite button goes: it shows the flag. */
    method OnCreateView()
      modifies this`favoriteImage
      ensures favoriteImage == Some(StarOn) <==> isFavorite
      ensures favoriteImage == Some(StarOff) <==> !isFavorite
    {
      SetFavoriteButtonImage();
    }

    /**
     * The favorite button's click handler: one `recipeFavorited` call with
     * this fragment's recipe, then the flag is negated whatever the call did,
     * and the button redrawn. If the flag agreed with the table before the
     * click and nobody else wrote the table, it agrees after.
     */
    method OnFavoriteClick()
      requires favoriteCommunicator.recipeDao.Valid()
      modifies this`isFavorite, this`favoriteImage, favoriteCommunicator.recipeDao
      ensures favoriteCommunicator.recipeDao.Valid()
      ensures favoriteCommunicator.recipeDao.table == Toggled(old(favoriteCommunicator.recipeDao.table), instructions.AsRecipe())
      ensures isFavorite == !old(isFavorite)
      ensures favoriteImage == Some(StarOn) <==> isFavorite
      ensures favoriteImage == Some(StarOff) <==> !isFavorite
      ensures old(MirrorsStore()) ==> MirrorsStore()
    {
      favoriteCommunicator.RecipeFavorited(instructions.AsRecipe());
      isFavorite := !isFavorite;
      SetFavoriteButtonImage();
    }

    /** `setFavoriteButtonImage()`: star_on for a favorite, star_off otherwise. */
    method SetFavoriteButtonImage()
      modifies this`favoriteImage
      ensures favoriteImage == Some(StarOn) <==> isFavorite
      ensures favoriteImage == Some(StarOff) <==> !isFavorite
    {
      if isFavorite {
        favoriteImage := Some(StarOn);
      } else {
        favoriteImage := Some(StarOff);
      }
    }
  }
}
