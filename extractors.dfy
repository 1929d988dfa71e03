/**
 * The three response parsers of MainActivity's download tasks: the category
 * list, the recipe list of a category, and one recipe's details. Each takes
 * the downloaded body (see OrgJson.FailedDownload) and swallows every
 * JSONException; a NumberFormatException from `Integer.parseInt` is not
 * caught and escapes.
 */
module Extractors {
  import opened Wrappers
  import opened JavaInteger
  import opened OrgJson
  import opened Records

  /** How a Java call ends: it returns a value, or NumberFormatException escapes it. */
  datatype Completion<+T> = Returns(value: T) | ThrowsNumberFormat

  /** How one loop iteration of the recipe-list parser ends. */
  datatype Step<+T> = Parsed(value: T) | JsonError | NumberFormatError

  // ---------------------------------------------------------------- categories

  /** One iteration of `parseCategoryData`: element `e` as a category, `None` on JSONException. */
  function CategoryOf(e: Json): (r: Option<Category>)
    ensures r.Some? ==> e.JObject? && "strCategory" in e.fields && "strCategoryThumb" in e.fields
    ensures r.Some? <==> e.JObject? && GetString(e.fields, "strCategory").Some?
                         && GetString(e.fields, "strCategoryThumb").Some?
    ensures r.Some? ==> Some(r.value.title) == GetString(e.fields, "strCategory")
                        && Some(r.value.thumbnailUrl) == GetString(e.fields, "strCategoryThumb")
    ensures e.JObject? && "strCategory" in e.fields && "strCategoryThumb" in e.fields
            && e.fields["strCategory"].JString? && e.fields["strCategoryThumb"].JString?
            ==> r == Some(Category(e.fields["strCategory"].s, e.fields["strCategoryThumb"].s))
  {
    if !e.JObject? then None
    else
      match (GetString(e.fields, "strCategory"), GetString(e.fields, "strCategoryThumb"))
      case (Some(title), Some(thumb)) => Some(Category(title, thumb))
      case _ => None
  }

  /**
   * The list `parseCategoryData` builds from the `categories` array: the
   * elements in order, up to the first one that raises JSONException.
   */
  function CategoriesUntilError(elems: seq<Json>): seq<Category>
  {
    if elems == [] then []
    else
      match CategoryOf(elems[0])
      case None => []
      case Some(c) => [c] + CategoriesUntilError(elems[1..])
  }

  /**
   * The category list is the longest well-formed prefix of the array, in
   * order: element i of the result is element i of the array, and the first
   * element left out (if any) is malformed.
   */
  lemma {:induction false} CategoriesArePrefix(elems: seq<Json>)
    ensures var r := CategoriesUntilError(elems);
            && |r| <= |elems|
            && (forall i :: 0 <= i < |r| ==> CategoryOf(elems[i]) == Some(r[i]))
            && (|r| < |elems| ==> CategoryOf(elems[|r|]).None?)
  {
    if elems != [] && CategoryOf(elems[0]).Some? {
      CategoriesArePrefix(elems[1..]);
      var r := CategoriesUntilError(elems);
      var t := CategoriesUntilError(elems[1..]);
      assert r == [CategoryOf(elems[0]).value] + t;
      forall i | 1 <= i < |r| ensures CategoryOf(elems[i]) == Some(r[i]) {
        assert elems[i] == elems[1..][i - 1] && r[i] == t[i - 1];
      }
      if |r| < |elems| {
        assert elems[|r|] == elems[1..][|t|];
      }
    }
  }

  /** With every element well-formed, each element gives one category, in order. */
  lemma {:induction false} CategoriesAllWellFormed(elems: seq<Json>)
    requires forall i :: 0 <= i < |elems| ==> CategoryOf(elems[i]).Some?
    ensures |CategoriesUntilError(elems)| == |elems|
    ensures forall i :: 0 <= i < |elems| ==> Some(CategoriesUntilError(elems)[i]) == CategoryOf(elems[i])
  {
    CategoriesArePrefix(elems);
  }

  /** A JSONException at element k leaves exactly the first k categories. */
  lemma {:induction false} CategoriesStopAt(elems: seq<Json>, k: nat)
    requires k < |elems| && CategoryOf(elems[k]).None?
    requires forall i :: 0 <= i < k ==> CategoryOf(elems[i]).Some?
    ensures |CategoriesUntilError(elems)| == k
    ensures forall i :: 0 <= i < k ==> Some(CategoriesUntilError(elems)[i]) == CategoryOf(elems[i])
  {
    CategoriesArePrefix(elems);
  }

  /** A category as the categories endpoint sends it. */
  function CategoryJson(c: Category): Json {
    JObject(map["strCategory" := JString(c.title), "strCategoryThumb" := JString(c.thumbnailUrl)])
  }

  function CategoriesJson(cs: seq<Category>): seq<Json> {
    if cs == [] then [] else [CategoryJson(cs[0])] + CategoriesJson(cs[1..])
  }

  /** The body `{"categories": [...]}` listing `cs`. */
  function CategoriesResponse(cs: seq<Category>): Option<Json> {
    Some(JObject(map["categories" := JArray(CategoriesJson(cs))]))
  }

  /** Parsing a well-formed categories response gives back its categories, in order. */
  lemma {:induction false} CategoriesRoundTrip(cs: seq<Category>)
    ensures ArrayField(CategoriesResponse(cs), "categories") == Some(CategoriesJson(cs))
    ensures CategoriesUntilError(CategoriesJson(cs)) == cs
  {
    if cs != [] {
      CategoriesRoundTrip(cs[1..]);
      var elems := CategoriesJson(cs);
      assert elems[0] == CategoryJson(cs[0]) && elems[1..] == CategoriesJson(cs[1..]);
    }
  }

  /**
   * `parseCategoryData(categoryData)`: a body that is not a JSON object, or
   * has no `categories` array, gives the empty list; otherwise the list keeps
   * the categories parsed before the first malformed element.
   */
  method ParseCategoryData(body: Option<Json>) returns (result: seq<Category>)
    ensures ArrayField(body, "categories").None? ==> result == []
    ensures ArrayField(body, "categories").Some? ==>
              result == CategoriesUntilError(ArrayField(body, "categories").value)
  {
    result := [];
    var root := NewJSONObject(body);
    if root.None? {
      return;
    }
    var genres := GetJSONArray(root.value, "categories");
    if genres.None? {
      return;
    }
    var a := genres.value;
    var i := 0;
    assert a[0..] == a;
    while i < |a|
      invariant 0 <= i <= |a|
      invariant CategoriesUntilError(a) == result + CategoriesUntilError(a[i..])
    {
      assert a[i..][0] == a[i] && a[i..][1..] == a[i + 1..];
      var cur := GetJSONObject(a, i);
      if cur.None? {
        return;
      }
      var title := GetString(cur.value, "strCategory");
      if title.None? {
        return;
      }
      var thumb := GetString(cur.value, "strCategoryThumb");
      if thumb.None? {
        return;
      }
      result := result + [Category(title.value, thumb.value)];
      i := i + 1;
    }
  }

  // -------------------------------------------------------------- recipe list

  /**
   * One iteration of the recipe-list `parseRecipeData`. Java evaluates the
   * constructor's arguments left to right: `idMeal` is read and parsed
   * before `strMeal` and `strMealThumb` are read.
   */
  function RecipeOf(e: Json): (r: Step<Recipe>)
    ensures !r.JsonError? ==> e.JObject? && "idMeal" in e.fields && GetString(e.fields, "idMeal").Some?
    ensures r == NumberFormatError ==> ParseInt(GetString(e.fields, "idMeal").value).None?
    ensures e.JObject? && GetString(e.fields, "idMeal").Some? && ParseInt(GetString(e.fields, "idMeal").value).None?
            ==> r == NumberFormatError
    ensures r.Parsed? ==> Some(r.value.name) == GetString(e.fields, "strMeal")
                          && Some(r.value.imageUrl) == GetString(e.fields, "strMealThumb")
    ensures e.JObject? && GetString(e.fields, "idMeal").Some? && ParseInt(GetString(e.fields, "idMeal").value).Some?
            && GetString(e.fields, "strMeal").Some? && GetString(e.fields, "strMealThumb").Some?
            ==> r.Parsed?
    ensures r.Parsed? ==> "strMeal" in e.fields && "strMealThumb" in e.fields
                          && Some(r.value.id) == ParseInt(GetString(e.fields, "idMeal").value)
    ensures e.JObject? && "idMeal" in e.fields && "strMeal" in e.fields && "strMealThumb" in e.fields
            && e.fields["idMeal"].JString? && ParseInt(e.fields["idMeal"].s).Some?
            && e.fields["strMeal"].JString? && e.fields["strMealThumb"].JString?
            ==> r == Parsed(Recipe(ParseInt(e.fields["idMeal"].s).value, e.fields["strMeal"].s, e.fields["strMealThumb"].s))
  {
    if !e.JObject? then JsonError
    else
      var obj := e.fields;
      match GetString(obj, "idMeal")
      case None => JsonError
      case Some(idText) =>
        match ParseInt(idText)
        case None => NumberFormatError
        case Some(id) =>
          match (GetString(obj, "strMeal"), GetString(obj, "strMealThumb"))
          case (Some(name), Some(thumb)) => Parsed(Recipe(id, name, thumb))
          case _ => JsonError
  }

  /** A call that returns `rest` after `prefix` was already collected. */
  function AfterPrefix(prefix: seq<Recipe>, rest: Completion<seq<Recipe>>): Completion<seq<Recipe>>
  {
    match rest
    case Returns(v) => Returns(prefix + v)
    case ThrowsNumberFormat => ThrowsNumberFormat
  }

  lemma AfterPrefixEmpty(rest: Completion<seq<Recipe>>)
    ensures AfterPrefix([], rest) == rest
  {
    if rest.Returns? {
      assert [] + rest.value == rest.value;
    }
  }

  lemma AfterPrefixNothing(p: seq<Recipe>)
    ensures AfterPrefix(p, Returns([])) == Returns(p)
  {
    assert p + [] == p;
  }

  lemma AfterPrefixAppend(p: seq<Recipe>, q: seq<Recipe>, rest: Completion<seq<Recipe>>)
    ensures AfterPrefix(p, AfterPrefix(q, rest)) == AfterPrefix(p + q, rest)
  {
    if rest.Returns? {
      assert p + (q + rest.value) == (p + q) + rest.value;
    }
  }

  /**
   * What the recipe-list parser makes of the `meals` array: it returns the
   * recipes before the first element that raises JSONException, unless an
   * element before that one has an `idMeal` that is not a number, in which
   * case NumberFormatException escapes.
   */
  function RecipesUntilError(elems: seq<Json>): Completion<seq<Recipe>>
  {
    if elems == [] then Returns([])
    else
      match RecipeOf(elems[0])
      case JsonError => Returns([])
      case NumberFormatError => ThrowsNumberFormat
      case Parsed(recipe) => AfterPrefix([recipe], RecipesUntilError(elems[1..]))
  }

  /** One unfolding of RecipesUntilError at index i of the array. */
  lemma RecipesUntilErrorStep(a: seq<Json>, i: nat)
    requires i < |a|
    ensures RecipesUntilError(a[i..]) == match RecipeOf(a[i])
                                         case JsonError => Returns([])
                                         case NumberFormatError => ThrowsNumberFormat
                                         case Parsed(recipe) => AfterPrefix([recipe], RecipesUntilError(a[i + 1..]))
  {
    assert a[i..][0] == a[i] && a[i..][1..] == a[i + 1..];
  }

  /**
   * When the recipe-list parser returns, its list is the longest well-formed
   * prefix of the array, in order, and the first element left out (if any)
   * raised JSONException.
   */
  lemma {:induction false} RecipesArePrefix(elems: seq<Json>)
    requires RecipesUntilError(elems).Returns?
    ensures var r := RecipesUntilError(elems).value;
            && |r| <= |elems|
            && (forall i :: 0 <= i < |r| ==> RecipeOf(elems[i]) == Parsed(r[i]))
            && (|r| < |elems| ==> RecipeOf(elems[|r|]) == JsonError)
  {
    if elems != [] && RecipeOf(elems[0]).Parsed? {
      RecipesArePrefix(elems[1..]);
      var r := RecipesUntilError(elems).value;
      var t := RecipesUntilError(elems[1..]).value;
      assert r == [RecipeOf(elems[0]).value] + t;
      forall i | 1 <= i < |r| ensures RecipeOf(elems[i]) == Parsed(r[i]) {
        assert elems[i] == elems[1..][i - 1] && r[i] == t[i - 1];
      }
      if |r| < |elems| {
        assert elems[|r|] == elems[1..][|t|];
      }
    }
  }

  /**
   * NumberFormatException escapes exactly when an element with a non-numeric
   * `idMeal` comes before any element that raises JSONException.
   */
  lemma {:induction false} RecipesThrowAtBadId(elems: seq<Json>, k: nat)
    requires k < |elems|
    requires forall j :: 0 <= j < k ==> RecipeOf(elems[j]).Parsed?
    ensures RecipesUntilError(elems).ThrowsNumberFormat? <==>
              (RecipeOf(elems[k]) == NumberFormatError
               || (RecipeOf(elems[k]).Parsed? && RecipesUntilError(elems[k + 1..]).ThrowsNumberFormat?))
  {
    if k > 0 {
      assert elems[1..][k - 1] == elems[k] && elems[1..][k..] == elems[k + 1..];
      forall j | 0 <= j < k - 1 ensures RecipeOf(elems[1..][j]).Parsed? {
        assert elems[1..][j] == elems[j + 1];
      }
      RecipesThrowAtBadId(elems[1..], k - 1);
    }
  }

  /** With every element well-formed, the parser returns one recipe per element, in order. */
  lemma {:induction false} RecipesAllWellFormed(elems: seq<Json>)
    requires forall i :: 0 <= i < |elems| ==> RecipeOf(elems[i]).Parsed?
    ensures RecipesUntilError(elems).Returns?
    ensures |RecipesUntilError(elems).value| == |elems|
    ensures forall i :: 0 <= i < |elems| ==> Parsed(RecipesUntilError(elems).value[i]) == RecipeOf(elems[i])
  {
    if RecipesUntilError(elems).ThrowsNumberFormat? {
      RecipesNeverThrowWhenWellFormed(elems);
    }
    RecipesArePrefix(elems);
  }

  lemma {:induction false} RecipesNeverThrowWhenWellFormed(elems: seq<Json>)
    requires forall i :: 0 <= i < |elems| ==> RecipeOf(elems[i]).Parsed?
    ensures RecipesUntilError(elems).Returns?
  {
    if elems != [] {
      assert forall i :: 0 <= i < |elems[1..]| ==> elems[1..][i] == elems[i + 1];
      RecipesNeverThrowWhenWellFormed(elems[1..]);
    }
  }

  /**
   * A JSONException at element k, with every element before it well-formed,
   * leaves exactly the first k recipes.
   */
  lemma {:induction false} RecipesStopAt(elems: seq<Json>, k: nat)
    requires k < |elems| && RecipeOf(elems[k]) == JsonError
    requires forall i :: 0 <= i < k ==> RecipeOf(elems[i]).Parsed?
    ensures RecipesUntilError(elems).Returns?
    ensures |RecipesUntilError(elems).value| == k
    ensures forall i :: 0 <= i < k ==> Parsed(RecipesUntilError(elems).value[i]) == RecipeOf(elems[i])
  {
    RecipesThrowAtBadId(elems, k);
    RecipesArePrefix(elems);
  }

  /** A recipe as the filter endpoint sends it; the id travels as decimal text. */
  function MealSummaryJson(r: Recipe): Json {
    JObject(map["idMeal" := JString(ToString(r.id)), "strMeal" := JString(r.name), "strMealThumb" := JString(r.imageUrl)])
  }

  function MealSummariesJson(rs: seq<Recipe>): seq<Json> {
    if rs == [] then [] else [MealSummaryJson(rs[0])] + MealSummariesJson(rs[1..])
  }

  /** The body `{"meals": [...]}` listing `rs`. */
  function MealsResponse(rs: seq<Recipe>): Option<Json> {
    Some(JObject(map["meals" := JArray(MealSummariesJson(rs))]))
  }

  /** One meal of a filter response parses back to its recipe. */
  lemma MealSummaryParses(r: Recipe)
    ensures RecipeOf(MealSummaryJson(r)) == Parsed(r)
  {
    ParseIntToString(r.id);
  }

  /** Parsing a well-formed recipe-list response gives back its recipes, in order. */
  lemma {:induction false} RecipesRoundTrip(rs: seq<Recipe>)
    ensures ArrayField(MealsResponse(rs), "meals") == Some(MealSummariesJson(rs))
    ensures RecipesUntilError(MealSummariesJson(rs)) == Returns(rs)
  {
    if rs != [] {
      RecipesRoundTrip(rs[1..]);
      MealSummaryParses(rs[0]);
      var elems := MealSummariesJson(rs);
      assert elems[0] == MealSummaryJson(rs[0]) && elems[1..] == MealSummariesJson(rs[1..]);
      assert [rs[0]] + rs[1..] == rs;
    }
  }

  /**
   * The recipe-list `parseRecipeData(recipeData)`: no `meals` array (which
   * includes the body of a failed download and the API's `"meals": null`)
   * gives the empty list; otherwise the outcome is RecipesUntilError of the
   * array.
   */
  method ParseRecipeData(body: Option<Json>) returns (outcome: Completion<seq<Recipe>>)
    ensures ArrayField(body, "meals").None? ==> outcome == Returns([])
    ensures ArrayField(body, "meals").Some? ==>
              outcome == RecipesUntilError(ArrayField(body, "meals").value)
  {
    var result: seq<Recipe> := [];
    var root := NewJSONObject(body);
    if root.None? {
      return Returns(result);
    }
    var meals := GetJSONArray(root.value, "meals");
    if meals.None? {
      return Returns(result);
    }
    var a := meals.value;
    var i := 0;
    assert a[0..] == a;
    AfterPrefixEmpty(RecipesUntilError(a));
    while i < |a|
      invariant 0 <= i <= |a|
      invariant RecipesUntilError(a) == AfterPrefix(result, RecipesUntilError(a[i..]))
    {
      RecipesUntilErrorStep(a, i);
      var cur := GetJSONObject(a, i);
      if cur.None? {
        AfterPrefixNothing(result);
        return Returns(result);
      }
      var idText := GetString(cur.value, "idMeal");
      if idText.None? {
        AfterPrefixNothing(result);
        return Returns(result);
      }
      var id := ParseInt(idText.value);
      if id.None? {
        return ThrowsNumberFormat;
      }
      var name := GetString(cur.value, "strMeal");
      var thumb := GetString(cur.value, "strMealThumb");
      if name.None? || thumb.None? {
        AfterPrefixNothing(result);
        return Returns(result);
      }
      AfterPrefixAppend(result, [Recipe(id.value, name.value, thumb.value)], RecipesUntilError(a[i + 1..]));
      result := result + [Recipe(id.value, name.value, thumb.value)];
      i := i + 1;
    }
    AfterPrefixNothing(result);
    outcome := Returns(result);
  }

  // ------------------------------------------------------------------ details

  /**
   * The detail `parseRecipeData(categoryData)`: element 0 of `meals` as an
   * Instructions; `None` (the source's null) when there is no `meals` array,
   * it is empty, element 0 is not an object or a field is missing. The id is
   * read and parsed before the other five fields.
   */
  function ParseInstructionsData(body: Option<Json>): (r: Completion<Option<Instructions>>)
    ensures r.ThrowsNumberFormat? || r.value.Some? ==>
              && ArrayField(body, "meals").Some? && |ArrayField(body, "meals").value| > 0
              && ArrayField(body, "meals").value[0].JObject?
              && GetString(ArrayField(body, "meals").value[0].fields, "idMeal").Some?
    ensures r.ThrowsNumberFormat? ==>
              ParseInt(GetString(ArrayField(body, "meals").value[0].fields, "idMeal").value).None?
    ensures r.Returns? && r.value.Some? ==>
              var meal := ArrayField(body, "meals").value[0].fields;
              var ins := r.value.value;
              && Some(ins.id) == ParseInt(GetString(meal, "idMeal").value)
              && Some(ins.name) == GetString(meal, "strMeal")
              && Some(ins.category) == GetString(meal, "strCategory")
              && Some(ins.area) == GetString(meal, "strArea")
              && Some(ins.imageUrl) == GetString(meal, "strMealThumb")
              && Some(ins.instructions) == GetString(meal, "strInstructions")
    ensures (&& ArrayField(body, "meals").Some? && |ArrayField(body, "meals").value| > 0
             && ArrayField(body, "meals").value[0].JObject?
             && var meal := ArrayField(body, "meals").value[0].fields;
                && GetString(meal, "idMeal").Some? && ParseInt(GetString(meal, "idMeal").value).Some?
                && GetString(meal, "strMeal").Some? && GetString(meal, "strCategory").Some?
                && GetString(meal, "strArea").Some? && GetString(meal, "strMealThumb").Some?
                && GetString(meal, "strInstructions").Some?)
            ==> r.Returns? && r.value.Some?
  {
    match ArrayField(body, "meals")
    case None => Returns(None)
    case Some(meals) =>
      match GetJSONObject(meals, 0)
      case None => Returns(None)
      case Some(obj) =>
        match GetString(obj, "idMeal")
        case None => Returns(None)
        case Some(idText) =>
          match ParseInt(idText)
          case None => ThrowsNumberFormat
          case Some(id) =>
            match (GetString(obj, "strMeal"), GetString(obj, "strCategory"), GetString(obj, "strArea"),
                   GetString(obj, "strMealThumb"), GetString(obj, "strInstructions"))
            case (Some(name), Some(category), Some(area), Some(thumb), Some(text)) =>
              Returns(Some(Instructions(id, name, category, area, thumb, text)))
            case _ => Returns(None)
  }

  /** A recipe's details as the lookup endpoint sends them. */
  function MealJson(ins: Instructions): Json {
    JObject(map[
      "idMeal" := JString(ToString(ins.id)),
      "strMeal" := JString(ins.name),
      "strCategory" := JString(ins.category),
      "strArea" := JString(ins.area),
      "strMealThumb" := JString(ins.imageUrl),
      "strInstructions" := JString(ins.instructions)])
  }

  /**
   * Parsing a lookup response whose first meal carries the six fields of
   * `ins` gives back `ins`, whatever other fields that meal has (the
   * endpoint also sends `strYoutube`, the ingredients and more) and whatever
   * follows it in the array.
   */
  lemma InstructionsRoundTrip(ins: Instructions, others: map<string, Json>, rest: seq<Json>)
    ensures ParseInstructionsData(Some(JObject(map["meals" := JArray([JObject(others + MealJson(ins).fields)] + rest)])))
            == Returns(Some(ins))
  {
    ParseIntToString(ins.id);
  }

  /** Only element 0 of `meals` is read: two bodies that agree on it parse alike. */
  lemma InstructionsReadOnlyFirst(b1: Option<Json>, b2: Option<Json>)
    requires ArrayField(b1, "meals").Some? && ArrayField(b2, "meals").Some?
    requires |ArrayField(b1, "meals").value| > 0 && |ArrayField(b2, "meals").value| > 0
    requires ArrayField(b1, "meals").value[0] == ArrayField(b2, "meals").value[0]
    ensures ParseInstructionsData(b1) == ParseInstructionsData(b2)
  {
  }

  /**
   * The null cases: no `meals` array (a body that is not a JSON object, a
   * missing key, `"meals": null`), an empty array, or a first element that is
   * not an object give null.
   */
  lemma InstructionsNullWithoutFirstMeal(body: Option<Json>)
    requires ArrayField(body, "meals").None? || |ArrayField(body, "meals").value| == 0
             || !ArrayField(body, "meals").value[0].JObject?
    ensures ParseInstructionsData(body) == Returns(None)
  {
  }

  /**
   * With a numeric `idMeal`, a missing field among the other five gives null;
   * with an `idMeal` that is not a number, NumberFormatException escapes before
   * any other field is read.
   */
  lemma InstructionsFieldErrors(body: Option<Json>, key: string)
    requires ArrayField(body, "meals").Some? && |ArrayField(body, "meals").value| > 0
    requires ArrayField(body, "meals").value[0].JObject?
    requires GetString(ArrayField(body, "meals").value[0].fields, "idMeal").Some?
    ensures var meal := ArrayField(body, "meals").value[0].fields;
            ParseInt(GetString(meal, "idMeal").value).None? ==> ParseInstructionsData(body) == ThrowsNumberFormat
    ensures var meal := ArrayField(body, "meals").value[0].fields;
            (ParseInt(GetString(meal, "idMeal").value).Some?
             && key in {"strMeal", "strCategory", "strArea", "strMealThumb", "strInstructions"}
             && key !in meal) ==> ParseInstructionsData(body) == Returns(None)
  {
  }

  /** The empty body of a failed download parses to an empty list, an empty list and null. */
  lemma FailedDownloadParsesToNothing()
    ensures ArrayField(FailedDownload, "categories").None?
    ensures ArrayField(FailedDownload, "meals").None?
    ensures ParseInstructionsData(FailedDownload) == Returns(None)
  {
  }
}
