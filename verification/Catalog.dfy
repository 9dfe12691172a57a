/** The backup side of the catalog: snapshots, items, recipes and chunks, and the transactions
    that change them. None is an abort; the caller then keeps the catalog it had. */
module Catalog {
  import opened Prelude
  import P = Protection
  import R = Recipes

  type Id = nat

  datatype Status = CREATING | COMPLETE | FAILED

  datatype Snapshot = Snapshot(root: string, status: Status, totalSize: int, totalFiles: int)

  datatype Stat = Stat(size: int, mode: int, uid: Option<int>, gid: Option<int>, mtime: int, ctime: Option<int>)

  datatype Item = Item(snapshot: Id, path: string, isFile: bool, stat: Stat, recipe: Option<Id>)

  /** A recipe with its rows of the recipe_chunks table, in order. */
  datatype Recipe = Recipe(hash: Hash, count: nat, size: nat, rows: seq<R.Row>)

  /** recipeIds is the unique index on recipe hashes. */
  datatype Catalog = Catalog(
    snapshots: map<Id, Snapshot>,
    items: map<Id, Item>,
    recipes: map<Id, Recipe>,
    recipeIds: map<Hash, Id>,
    chunks: map<Hash, nat>,
    protection: P.Rows,
    nextSnapshot: Id,
    nextItem: Id,
    nextRecipe: Id)

  const EMPTY := Catalog(map[], map[], map[], map[], map[], map[], 1, 1, 1)

  // ---------------------------------------------------------------- snapshots

  function CreateSnapshot(c: Catalog, root: string): Catalog
  {
    c.(snapshots := c.snapshots[c.nextSnapshot := Snapshot(root, CREATING, 0, 0)], nextSnapshot := c.nextSnapshot + 1)
  }

  /** The latest complete snapshot of the same root with an id below k. */
  function PreviousBelow(c: Catalog, root: string, k: Id): Option<Id>
  {
    if k == 0 then None
    else if k - 1 in c.snapshots && c.snapshots[k - 1].root == root && c.snapshots[k - 1].status == COMPLETE then Some(k - 1)
    else PreviousBelow(c, root, k - 1)
  }

  predicate HasOpenFile(c: Catalog, snapshot: Id)
  {
    exists i :: i in c.items && c.items[i].snapshot == snapshot && c.items[i].isFile && c.items[i].recipe.None?
  }

  function Finish(c: Catalog, snapshot: Id, totalSize: int, totalFiles: int): Option<Catalog>
  {
    if snapshot !in c.snapshots || c.snapshots[snapshot].status != CREATING || HasOpenFile(c, snapshot) then None
    else Some(c.(snapshots := c.snapshots[snapshot :=
      c.snapshots[snapshot].(status := COMPLETE, totalSize := totalSize, totalFiles := totalFiles)]))
  }

  function Fail(c: Catalog, snapshot: Id): Option<Catalog>
  {
    if snapshot !in c.snapshots || c.snapshots[snapshot].status == COMPLETE then None
    else Some(c.(snapshots := c.snapshots[snapshot := c.snapshots[snapshot].(status := FAILED)]))
  }

  // ---------------------------------------------------------------- items

  datatype Entry = Entry(path: string, isFile: bool, stat: Stat)

  /** UNIQUE(snapshot_id, path) */
  predicate PathTaken(c: Catalog, snapshot: Id, path: string)
  {
    exists i :: i in c.items && c.items[i].snapshot == snapshot && c.items[i].path == path
  }

  function AddItem(c: Catalog, snapshot: Id, e: Entry): Option<Catalog>
  {
    if snapshot !in c.snapshots || PathTaken(c, snapshot, e.path) then None
    else Some(c.(items := c.items[c.nextItem := Item(snapshot, e.path, e.isFile, e.stat, None)], nextItem := c.nextItem + 1))
  }

  /** A batch in one transaction; its items get consecutive ids. */
  function AddItems(c: Catalog, snapshot: Id, batch: seq<Entry>): Option<Catalog>
  {
    if batch == [] then Some(c)
    else
      var before := AddItems(c, snapshot, batch[..|batch| - 1]);
      if before.None? then None else AddItem(before.value, snapshot, batch[|batch| - 1])
  }

  // ---------------------------------------------------------------- recipes

  function TotalSize(rows: seq<R.Row>): nat
  {
    if rows == [] then 0 else TotalSize(rows[..|rows| - 1]) + rows[|rows| - 1].size
  }

  /** Orders count from 0 and no chunk is empty. */
  predicate Contiguous(rows: seq<R.Row>)
  {
    forall i :: 0 <= i < |rows| ==> rows[i].order == i && rows[i].size >= 1
  }

  function HashesOf(rows: seq<R.Row>): set<Hash>
  {
    set i | 0 <= i < |rows| :: rows[i].hash
  }

  /** Inserts chunks that are new and insists on the size of those that are not. */
  function RegisterChunks(chunks: map<Hash, nat>, rows: seq<R.Row>): Option<map<Hash, nat>>
  {
    if rows == [] then Some(chunks)
    else
      var row := rows[|rows| - 1];
      var before := RegisterChunks(chunks, rows[..|rows| - 1]);
      if before.None? then None
      else if row.hash in before.value then if before.value[row.hash] == row.size then before else None
      else Some(before.value[row.hash := row.size])
  }

  predicate RowsRegistered(chunks: map<Hash, nat>, rows: seq<R.Row>)
  {
    forall i :: 0 <= i < |rows| ==> rows[i].hash in chunks && chunks[rows[i].hash] == rows[i].size
  }

  function EnsureProtection(c: Catalog, rows: seq<R.Row>, rf: nat): Catalog
  {
    c.(protection := P.Ensure(c.protection, HashesOf(rows), rf))
  }

  /** The recipe row for this hash, inserted if there is none. */
  function InsertRecipe(c: Catalog, hash: Hash, rows: seq<R.Row>): Catalog
  {
    if hash in c.recipeIds then c
    else c.(recipes := c.recipes[c.nextRecipe := Recipe(hash, |rows|, TotalSize(rows), [])],
            recipeIds := c.recipeIds[hash := c.nextRecipe], nextRecipe := c.nextRecipe + 1)
  }

  function RecipeIdFor(c: Catalog, hash: Hash): Id
  {
    if hash in c.recipeIds then c.recipeIds[hash] else c.nextRecipe
  }

  /** Finds or creates the recipe; every disagreement with what is stored aborts. */
  function GetOrCreateRecipe(c: Catalog, hash: Hash, rows: seq<R.Row>, rf: nat): Option<Catalog>
  {
    if !Contiguous(rows) then None
    else
      var id, d := RecipeIdFor(c, hash), InsertRecipe(c, hash, rows);
      if id !in d.recipes || d.recipes[id].count != |rows| || d.recipes[id].size != TotalSize(rows) then None
      else if d.recipes[id].rows != [] then
        if d.recipes[id].rows != rows || !RowsRegistered(d.chunks, rows) then None
        else Some(EnsureProtection(d, rows, rf))
      else
        var chunks := RegisterChunks(d.chunks, rows);
        if chunks.None? then None
        else
          var e := d.(chunks := chunks.value, recipes := d.recipes[id := d.recipes[id].(rows := rows)]);
          Some(EnsureProtection(e, rows, rf))
  }

  function SetItemRecipe(c: Catalog, item: Id, recipe: Id): Option<Catalog>
  {
    if item !in c.items || recipe !in c.recipes then None
    else Some(c.(items := c.items[item := c.items[item].(recipe := Some(recipe))]))
  }

  function Consolidate(c: Catalog, item: Id, hash: Hash, rows: seq<R.Row>, rf: nat): Option<Catalog>
  {
    var d := GetOrCreateRecipe(c, hash, rows, rf);
    if d.None? then None else SetItemRecipe(d.value, item, RecipeIdFor(c, hash))
  }

  // ---------------------------------------------------------------- reuse

  datatype Assignment = Assignment(item: Id, recipe: Id)

  function AssignAll(c: Catalog, assignments: seq<Assignment>): Option<Catalog>
  {
    if assignments == [] then Some(c)
    else
      var a := assignments[|assignments| - 1];
      var before := AssignAll(c, assignments[..|assignments| - 1]);
      if before.None? then None else SetItemRecipe(before.value, a.item, a.recipe)
  }

  function EnsureAll(c: Catalog, assignments: seq<Assignment>, rf: nat): Catalog
  {
    if assignments == [] then c
    else
      var a := assignments[|assignments| - 1];
      var before := EnsureAll(c, assignments[..|assignments| - 1], rf);
      if a.recipe in before.recipes then EnsureProtection(before, before.recipes[a.recipe].rows, rf) else before
  }

  function Reuse(c: Catalog, assignments: seq<Assignment>, rf: nat): Option<Catalog>
  {
    var d := AssignAll(c, assignments);
    if d.None? then None else Some(EnsureAll(d.value, assignments, rf))
  }

  // ---------------------------------------------------------------- what collection must keep

  /** The item belongs to a snapshot that is complete or still being made. */
  predicate Live(c: Catalog, i: Id)
  {
    && i in c.items && c.items[i].isFile && c.items[i].recipe.Some? && c.items[i].recipe.value in c.recipes
    && c.items[i].snapshot in c.snapshots && c.snapshots[c.items[i].snapshot].status != FAILED
  }

  function RowsOfItem(c: Catalog, i: Id): seq<R.Row>
    requires Live(c, i)
  {
    c.recipes[c.items[i].recipe.value].rows
  }

  function ProtectedHashes(c: Catalog): set<Hash>
  {
    set i, k | i in c.items && Live(c, i) && 0 <= k < |RowsOfItem(c, i)| :: RowsOfItem(c, i)[k].hash
  }
}
