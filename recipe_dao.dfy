/** The Room table of favorite recipes and the DAO the app reads and writes it through. */
module Persistence {
  import opened JavaInteger
  import opened Records

  /** Every row sits under its own primary key, so no two rows share an id. */
  ghost predicate KeyedById(table: map<Int32, Recipe>) {
    forall id :: id in table ==> table[id].id == id
  }

  class RecipeDao {
    /** The rows of table `recipe`, indexed by their primary key `id`. */
    var table: map<Int32, Recipe>

    ghost predicate Valid()
      reads this
    {
      KeyedById(table)
    }

    /**
     * Opening the database: it holds the favorites saved in earlier sessions
     * (none on a first install), each row under its own id.
     */
    constructor (rows: map<Int32, Recipe>)
      requires KeyedById(rows)
      ensures Valid() && table == rows
    {
      table := rows;
    }

    /**
     * `@Insert insert(recipe)`: adds the row. The caller guarantees the key is
     * not taken yet (Room's on-conflict policy is not modelled).
     */
    method Insert(recipe: Recipe)
      requires Valid()
      requires recipe.id !in table
      modifies this
      ensures Valid()
      ensures table == old(table)[recipe.id := recipe]
    {
      table := table[recipe.id := recipe];
    }

    /**
     * `@Delete delete(recipe)`: Room deletes by primary key, so the row keyed
     * by `recipe.id` goes, whatever its other columns hold; a missing row is
     * not an error.
     */
    method Delete(recipe: Recipe)
      requires Valid()
      modifies this
      ensures Valid()
      ensures table == old(table) - {recipe.id}
    {
      table := table - {recipe.id};
    }

    /**
     * `SELECT * FROM recipe`: every stored row once and nothing else. The
     * order of the rows is left open.
     */
    method GetAllRecipes() returns (rows: seq<Recipe>)
      requires Valid()
      ensures |rows| == |table|
      ensures forall r :: r in rows <==> r.id in table && table[r.id] == r
      ensures forall i, j :: 0 <= i < j < |rows| ==> rows[i].id != rows[j].id
    {
      rows := [];
      var pending := table.Keys;
      while pending != {}
        invariant pending <= table.Keys
        invariant forall r :: r in rows <==> r.id in table.Keys - pending && table[r.id] == r
        invariant forall i, j :: 0 <= i < j < |rows| ==> rows[i].id != rows[j].id
        invariant |rows| + |pending| == |table.Keys|
        decreases |pending|
      {
        var id :| id in pending;
        rows := rows + [table[id]];
        pending := pending - {id};
      }
    }

    /**
     * `SELECT * FROM recipe WHERE id = :id`: the stored row with that id if
     * there is one. Since `id` is the primary key there is at most one.
     */
    method GetRecipeByID(id: Int32) returns (rows: seq<Recipe>)
      requires Valid()
      ensures |rows| <= 1
      ensures |rows| > 0 <==> id in table
      ensures forall r :: r in rows ==> r.id == id && id in table && table[id] == r
    {
      if id in table {
        rows := [table[id]];
      } else {
        rows := [];
      }
    }
  }
}
