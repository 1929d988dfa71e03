/** The immutable records the app builds from API responses and stores as favorites. */
module Records {
  import opened JavaInteger

  /**
   * A recipe summary and the favorites table's row type: `id` is the primary
   * key and the only other columns are `name` and `imageUrl`. All fields are
   * final, so a value type.
   */
  datatype Recipe = Recipe(id: Int32, name: string, imageUrl: string)

  /** A recipe category: the `first` (title) and `second` (thumbnail url) of the source's pair. */
  datatype Category = Category(title: string, thumbnailUrl: string)

  /** A recipe's full details; in the source a subclass of Recipe with final fields. */
  datatype Instructions = Instructions(
    id: Int32,
    name: string,
    category: string,
    area: string,
    imageUrl: string,
    instructions: string)
  {
    /** This value seen through its superclass: what the `super(id, name, imageUrl)` call builds. */
    function AsRecipe(): Recipe {
      Recipe(id, name, imageUrl)
    }
  }

  /**
   * Seen as a Recipe, an Instructions keeps the id, name and imageUrl it was
   * built with, and nothing of its category, area or instructions: two values
   * that differ only there are the same Recipe.
   */
  lemma AsRecipeIsSummary(a: Instructions, b: Instructions)
    ensures a.AsRecipe().id == a.id && a.AsRecipe().name == a.name && a.AsRecipe().imageUrl == a.imageUrl
    ensures a.AsRecipe() == b.AsRecipe() <==> (a.id == b.id && a.name == b.name && a.imageUrl == b.imageUrl)
  {
  }
}
