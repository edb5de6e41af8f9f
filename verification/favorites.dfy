/** The favorites store behind the three Express handlers `addToFavorite`,
    `deletefav` and `getUserfav`, over the `favorites` table. The table is held in
    insertion order; `id` is the serial primary key and nothing else is unique. */
module Favorites {
  import opened Wrappers
  import opened Seqs

  /** One row of the `favorites` table. */
  datatype Row = Row(
    id: nat,
    userId: string,
    recipeId: int,
    title: string,
    image: Option<string>,
    cookTime: Option<string>,
    servings: Option<string>)

  /** What a handler sends back: the status and the JSON body that matters. */
  datatype Response =
    | BadRequest           // 400 "Missing required fields"
    | Created(row: Row)    // 201 with the inserted row
    | Removed              // 200 "Favorite removed succesfully"
    | Listed(rows: seq<Row>) // 200 with the user's rows
  {
    function Status(): (code: int)
      ensures code == 400 <==> BadRequest?
      ensures code == 201 <==> Created?
      ensures code == 200 <==> Removed? || Listed?
    {
      match this
      case BadRequest => 400
      case Created(_) => 201
      case Removed => 200
      case Listed(_) => 200
    }
  }

  /** JavaScript truthiness of a numeric field: present and not zero. */
  predicate TruthyNumber(v: Option<int>) {
    v.Some? && v.value != 0
  }

  /** The guard of `addToFavorite`: `userId`, `recipeId` and `title` all truthy. */
  predicate HasRequiredFields(userId: Option<string>, recipeId: Option<int>, title: Option<string>) {
    Truthy(userId) && TruthyNumber(recipeId) && Truthy(title)
  }

  /** The `WHERE user_id = userId AND recipe_id = recipeId` condition. */
  predicate MatchesPair(row: Row, userId: string, recipeId: int) {
    row.userId == userId && row.recipeId == recipeId
  }

  /** The rows that a delete of (userId, recipeId) targets. */
  function Matching(rows: seq<Row>, userId: string, recipeId: int): (matching: seq<Row>)
    ensures forall r :: r in matching <==> r in rows && MatchesPair(r, userId, recipeId)
  {
    FilterMembers(rows, r => MatchesPair(r, userId, recipeId));
    Filter(rows, r => MatchesPair(r, userId, recipeId))
  }

  /** The table after `DELETE ... WHERE user_id = userId AND recipe_id = recipeId`. */
  function Deleted(rows: seq<Row>, userId: string, recipeId: int): (kept: seq<Row>)
    ensures forall r :: r in kept <==> r in rows && !MatchesPair(r, userId, recipeId)
  {
    FilterMembers(rows, r => !MatchesPair(r, userId, recipeId));
    Filter(rows, r => !MatchesPair(r, userId, recipeId))
  }

  /** `SELECT * FROM favorites WHERE user_id = userId`, in table order. */
  function OfUser(rows: seq<Row>, userId: string): (selected: seq<Row>)
    ensures forall r :: r in selected <==> r in rows && r.userId == userId
  {
    FilterMembers(rows, (r: Row) => r.userId == userId);
    Filter(rows, (r: Row) => r.userId == userId)
  }

  /** Serial ids grow along the table. */
  ghost predicate IdsIncreasing(rows: seq<Row>) {
    forall i, j :: 0 <= i < j < |rows| ==> rows[i].id < rows[j].id
  }

  /** Removing rows keeps the serial ids in increasing order. */
  lemma {:induction false} FilterKeepsIdsIncreasing(rows: seq<Row>, p: Row -> bool)
    requires IdsIncreasing(rows)
    ensures IdsIncreasing(Filter(rows, p))
  {
    if rows != [] {
      FilterKeepsIdsIncreasing(rows[1..], p);
      FilterMembers(rows[1..], p);
      var rest := Filter(rows[1..], p);
      forall r | r in rest ensures rows[0].id < r.id {
        var j :| 0 <= j < |rows[1..]| && rows[1..][j] == r;
        assert rows[j + 1] == r;
      }
    }
  }

  /** A delete removes exactly the matching rows: together with what is left they
      account for the whole table. */
  lemma {:induction false} DeletedSize(rows: seq<Row>, userId: string, recipeId: int)
    ensures |Deleted(rows, userId, recipeId)| == |rows| - |Matching(rows, userId, recipeId)|
  {
    FilterPartition(rows, r => MatchesPair(r, userId, recipeId), r => !MatchesPair(r, userId, recipeId));
  }

  /** Rows that do not match keep their relative order. */
  lemma {:induction false} DeletedKeepsOrder(front: seq<Row>, back: seq<Row>, userId: string, recipeId: int)
    ensures Deleted(front + back, userId, recipeId) ==
              Deleted(front, userId, recipeId) + Deleted(back, userId, recipeId)
  {
    FilterConcat(front, back, r => !MatchesPair(r, userId, recipeId));
  }

  /** With no matching row a delete leaves the table as it was. */
  lemma {:induction false} DeletedNothingMatches(rows: seq<Row>, userId: string, recipeId: int)
    requires forall r :: r in rows ==> !MatchesPair(r, userId, recipeId)
    ensures Deleted(rows, userId, recipeId) == rows
  {
    FilterKeepsAll(rows, r => !MatchesPair(r, userId, recipeId));
  }

  /** Deleting twice leaves the same table as deleting once. */
  lemma {:induction false} DeletedIdempotent(rows: seq<Row>, userId: string, recipeId: int)
    ensures Deleted(Deleted(rows, userId, recipeId), userId, recipeId) == Deleted(rows, userId, recipeId)
  {
    FilterIdempotent(rows, r => !MatchesPair(r, userId, recipeId));
  }

  /** An appended row is listed for its user, after that user's earlier rows. */
  lemma {:induction false} AppendedRowListed(rows: seq<Row>, row: Row)
    ensures OfUser(rows + [row], row.userId) == OfUser(rows, row.userId) + [row]
  {
    FilterConcat(rows, [row], (r: Row) => r.userId == row.userId);
    FilterSingle(row, (r: Row) => r.userId == row.userId);
  }

  /** Appended rows for the same pair are all kept: no uniqueness on (userId, recipeId). */
  lemma {:induction false} AppendedRowsMatch(rows: seq<Row>, added: seq<Row>, userId: string, recipeId: int)
    requires forall r :: r in added ==> MatchesPair(r, userId, recipeId)
    ensures Matching(rows + added, userId, recipeId) == Matching(rows, userId, recipeId) + added
  {
    FilterConcat(rows, added, r => MatchesPair(r, userId, recipeId));
    FilterKeepsAll(added, r => MatchesPair(r, userId, recipeId));
  }

  /** After a delete of (userId, recipeId), no row of that user lists that recipe. */
  lemma {:induction false} DeletedPairNotListed(rows: seq<Row>, userId: string, recipeId: int)
    ensures forall r :: r in OfUser(Deleted(rows, userId, recipeId), userId) ==> r.recipeId != recipeId
  {
  }

  /** The `favorites` table with its serial counter. */
  class FavoriteTable {
    var rows: seq<Row>
    var nextId: nat

    /** Serial ids start at 1, grow along the table and are below the counter. */
    ghost predicate Valid()
      reads this
    {
      && 1 <= nextId
      && IdsIncreasing(rows)
      && forall r :: r in rows ==> 1 <= r.id < nextId
    }

    constructor ()
      ensures Valid() && rows == [] && nextId == 1
    {
      rows := [];
      nextId := 1;
    }

    /** `POST /api/favorite`: 400 and no change unless `userId`, `recipeId` and
        `title` are truthy; otherwise one new row with the next serial id, appended,
        and 201 with that row. */
    method AddToFavorite(userId: Option<string>, recipeId: Option<int>, title: Option<string>,
                         image: Option<string>, cookTime: Option<string>, servings: Option<string>)
      returns (response: Response)
      requires Valid()
      modifies this
      ensures Valid()
      ensures !HasRequiredFields(userId, recipeId, title) ==>
                response == BadRequest && rows == old(rows) && nextId == old(nextId)
      ensures HasRequiredFields(userId, recipeId, title) ==>
                && response == Created(Row(old(nextId), userId.value, recipeId.value, title.value,
                                           image, cookTime, servings))
                && rows == old(rows) + [response.row]
                && nextId == old(nextId) + 1
      ensures response.Created? ==> forall r :: r in old(rows) ==> r.id < response.row.id
    {
      if !HasRequiredFields(userId, recipeId, title) {
        return BadRequest;
      }
      var row := Row(nextId, userId.value, recipeId.value, title.value, image, cookTime, servings);
      rows := rows + [row];
      nextId := nextId + 1;
      response := Created(row);
    }

    /** `DELETE /api/favorite/:userId/:recipeId`: 400 and no change when a path
        parameter is missing; otherwise every row of that pair is removed, the rest
        kept in order, and 200 even if nothing matched. */
    method DeleteFav(userId: Option<string>, recipeId: Option<int>) returns (response: Response)
      requires Valid()
      modifies this
      ensures Valid() && nextId == old(nextId)
      ensures !(Truthy(userId) && recipeId.Some?) ==> response == BadRequest && rows == old(rows)
      ensures Truthy(userId) && recipeId.Some? ==>
                response == Removed && rows == Deleted(old(rows), userId.value, recipeId.value)
    {
      if !(Truthy(userId) && recipeId.Some?) {
        return BadRequest;
      }
      FilterKeepsIdsIncreasing(rows, r => !MatchesPair(r, userId.value, recipeId.value));
      rows := Deleted(rows, userId.value, recipeId.value);
      response := Removed;
    }

    /** `GET /api/favorite/:userId`: 400 when the user is missing, otherwise 200 with
        exactly that user's rows in table order. The table is not changed. */
    method GetUserFav(userId: Option<string>) returns (response: Response)
      ensures !Truthy(userId) ==> response == BadRequest
      ensures Truthy(userId) ==>
                && response.Listed?
                && (forall r :: r in response.rows <==> r in rows && r.userId == userId.value)
                && response.rows == OfUser(rows, userId.value)
    {
      if !Truthy(userId) {
        return BadRequest;
      }
      response := Listed(OfUser(rows, userId.value));
    }
  }

  /** Saving the same recipe twice for one user leaves two rows for that pair,
      with different ids. */
  method SaveTwice(table: FavoriteTable, userId: string, recipeId: int, title: string)
    requires table.Valid() && userId != "" && recipeId != 0 && title != ""
    modifies table
    ensures table.Valid()
    ensures |table.rows| == |old(table.rows)| + 2
    ensures Matching(table.rows, userId, recipeId) ==
              Matching(old(table.rows), userId, recipeId) + table.rows[|table.rows| - 2..]
    ensures table.rows[|table.rows| - 2].id != table.rows[|table.rows| - 1].id
  {
    var first := table.AddToFavorite(Some(userId), Some(recipeId), Some(title), None, None, None);
    var second := table.AddToFavorite(Some(userId), Some(recipeId), Some(title), None, None, None);
    AppendedRowsMatch(old(table.rows), [first.row, second.row], userId, recipeId);
    assert table.rows == old(table.rows) + [first.row, second.row];
  }

  /** The save/unsave toggle against the store: after a save the recipe is listed
      for the user; after the unsave it is not, whatever was saved before. */
  method SaveThenUnsave(table: FavoriteTable, userId: string, recipeId: int, title: string)
    returns (saved: Response, listed: Response)
    requires table.Valid() && userId != "" && recipeId != 0 && title != ""
    modifies table
    ensures saved.Created? && saved.row.userId == userId && saved.row.recipeId == recipeId
    ensures listed.Listed? && saved.row in listed.rows
    ensures table.Valid()
    ensures forall r :: r in OfUser(table.rows, userId) ==> r.recipeId != recipeId
  {
    saved := table.AddToFavorite(Some(userId), Some(recipeId), Some(title), None, None, None);
    listed := table.GetUserFav(Some(userId));
    AppendedRowListed(old(table.rows), saved.row);
    var removed := table.DeleteFav(Some(userId), Some(recipeId));
    DeletedPairNotListed(old(table.rows) + [saved.row], userId, recipeId);
  }
}
