/** The catalog invariant and its preservation by each transaction, for the recipes that backup
    workers produce. */
module CatalogInvariant {
  import opened Prelude
  import opened Catalog
  import P = Protection
  import R = Recipes

  // ---------------------------------------------------------------- what workers produce

  /** How files are cut into chunks. */
  type Splitter = Bytes -> seq<Bytes>

  /** Chunks are not empty and concatenate to the file. */
  ghost predicate Splits(split: Splitter)
  {
    forall data: Bytes :: Flatten(split(data)) == data && forall i :: 0 <= i < |split(data)| ==> split(data)[i] != []
  }

  /** The recipe rows of a list of chunks. */
  function RowsOf(h: Hasher, parts: seq<Bytes>): (rows: seq<R.Row>)
  {
    seq(|parts|, i requires 0 <= i < |parts| => R.Row(i, h(parts[i]), |parts[i]|))
  }

  /** Content whose recipe can be written down. */
  ghost predicate InFormat(h: Hasher, split: Splitter, content: Bytes)
  {
    R.AllInRange(RowsOf(h, split(content)))
  }

  /** Its chunks and the text that names its recipe are among the strings considered. */
  ghost predicate Foreseen(h: Hasher, u: Universe, split: Splitter, content: Bytes)
  {
    PartsIn(u, split(content)) && R.Preimage(RowsOf(h, split(content))) in u
  }

  ghost predicate Fits(h: Hasher, u: Universe, split: Splitter, content: Bytes)
  {
    InFormat(h, split, content) && Foreseen(h, u, split, content)
  }

  function RecipeName(h: Hasher, rows: seq<R.Row>): Hash
  {
    h(R.Preimage(rows))
  }

  // ---------------------------------------------------------------- the invariant

  /** A stored recipe is exactly the recipe of the content it was made from, and its chunks
      are registered with their sizes. */
  ghost predicate RecipeGood(h: Hasher, u: Universe, split: Splitter, r: Recipe, chunks: map<Hash, nat>, content: Bytes)
  {
    var rows := RowsOf(h, split(content));
    && r == Recipe(RecipeName(h, rows), |rows|, TotalSize(rows), rows)
    && Fits(h, u, split, content) && RowsRegistered(chunks, rows)
  }

  /** Registered sizes are those of content with that hash. */
  ghost predicate SizesGenuine(h: Hasher, u: Universe, chunks: map<Hash, nat>)
  {
    forall x :: x in chunks ==> exists raw: Bytes :: raw in u && h(raw) == x && |raw| == chunks[x]
  }

  ghost predicate IndexGood(recipes: map<Id, Recipe>, recipeIds: map<Hash, Id>, next: Id)
  {
    && (forall x :: x in recipeIds ==> recipeIds[x] in recipes && recipes[recipeIds[x]].hash == x)
    && (forall id :: id in recipes ==> id < next && recipes[id].hash in recipeIds && recipeIds[recipes[id].hash] == id)
  }

  /** origin gives, for each recipe, the bytes it was computed from. */
  ghost predicate RecipeTables(h: Hasher, u: Universe, split: Splitter, c: Catalog, origin: map<Id, Bytes>)
  {
    && origin.Keys == c.recipes.Keys
    && (forall id :: id in c.recipes ==> RecipeGood(h, u, split, c.recipes[id], c.chunks, origin[id]))
    && IndexGood(c.recipes, c.recipeIds, c.nextRecipe)
    && SizesGenuine(h, u, c.chunks)
    && c.protection.Keys == c.chunks.Keys
  }

  function FileItems(items: map<Id, Item>, snapshot: Id): set<Id>
  {
    set i | i in items && items[i].snapshot == snapshot && items[i].isFile
  }

  ghost predicate ItemGood(c: Catalog, i: Id)
    requires i in c.items
  {
    && i < c.nextItem && c.items[i].snapshot in c.snapshots
    && (c.items[i].recipe.Some? ==> c.items[i].isFile && c.items[i].recipe.value in c.recipes)
  }

  ghost predicate SnapshotGood(c: Catalog, s: Id)
    requires s in c.snapshots
  {
    && s < c.nextSnapshot
    && (c.snapshots[s].status == COMPLETE ==>
          && c.snapshots[s].totalFiles == |FileItems(c.items, s)|
          && forall i :: i in FileItems(c.items, s) ==> c.items[i].recipe.Some?)
  }

  predicate SamePlace(a: Item, b: Item) { a.snapshot == b.snapshot && a.path == b.path }

  ghost predicate ItemTables(c: Catalog)
  {
    && (forall i :: i in c.items ==> ItemGood(c, i))
    && (forall i, j :: i in c.items && j in c.items && SamePlace(c.items[i], c.items[j]) ==> i == j)
    && (forall s :: s in c.snapshots ==> SnapshotGood(c, s))
  }

  ghost predicate Inv(h: Hasher, u: Universe, split: Splitter, c: Catalog, origin: map<Id, Bytes>)
  {
    RecipeTables(h, u, split, c, origin) && ItemTables(c)
  }

  lemma EmptyInv(h: Hasher, u: Universe, split: Splitter)
    ensures Inv(h, u, split, EMPTY, map[])
  {
  }

  // ---------------------------------------------------------------- recipes

  lemma {:induction false} RegisterMeaning(chunks: map<Hash, nat>, rows: seq<R.Row>)
    requires RegisterChunks(chunks, rows).Some?
    ensures var after := RegisterChunks(chunks, rows).value;
            && RowsRegistered(after, rows)
            && after.Keys == chunks.Keys + HashesOf(rows)
            && forall x :: x in chunks ==> after[x] == chunks[x]
  {
    if rows == [] {
      assert HashesOf(rows) == {};
    } else {
      hide HashesOf, RowsRegistered;
      var front := rows[..|rows| - 1];
      RegisterMeaning(chunks, front);
      HashesOfSnoc(rows);
      RowsRegisteredSnoc(RegisterChunks(chunks, front).value, RegisterChunks(chunks, rows).value, rows);
    }
  }

  lemma RowsRegisteredSnoc(before: map<Hash, nat>, after: map<Hash, nat>, rows: seq<R.Row>)
    requires rows != [] && RowsRegistered(before, rows[..|rows| - 1])
    requires forall x :: x in before ==> x in after && after[x] == before[x]
    requires var last := rows[|rows| - 1]; last.hash in after && after[last.hash] == last.size
    ensures RowsRegistered(after, rows)
  {
    var n := |rows| - 1;
    assert forall i :: 0 <= i < n ==> rows[..n][i] == rows[i];
  }

  lemma HashesOfSnoc(rows: seq<R.Row>)
    requires rows != []
    ensures HashesOf(rows) == HashesOf(rows[..|rows| - 1]) + {rows[|rows| - 1].hash}
  {
    var n := |rows| - 1;
    assert forall i :: 0 <= i < n ==> rows[..n][i] == rows[i];
  }

  /** Registering genuine chunks never finds a wrong size. */
  lemma {:induction false} RegisterSucceeds(h: Hasher, u: Universe, chunks: map<Hash, nat>, parts: seq<Bytes>)
    requires InjectiveOn(h, u) && SizesGenuine(h, u, chunks) && PartsIn(u, parts)
    ensures RegisterChunks(chunks, RowsOf(h, parts)).Some?
    ensures SizesGenuine(h, u, RegisterChunks(chunks, RowsOf(h, parts)).value)
    decreases |parts|
  {
    if parts != [] {
      var n := |parts| - 1;
      assert RowsOf(h, parts)[..n] == RowsOf(h, parts[..n]);
      RegisterSucceeds(h, u, chunks, parts[..n]);
      var before := RegisterChunks(chunks, RowsOf(h, parts[..n])).value;
      if h(parts[n]) in before {
        GenuineSize(h, u, before, parts[n]);
      }
    }
  }

  lemma GenuineSize(h: Hasher, u: Universe, chunks: map<Hash, nat>, raw: Bytes)
    requires InjectiveOn(h, u) && SizesGenuine(h, u, chunks) && raw in u && h(raw) in chunks
    ensures chunks[h(raw)] == |raw|
  {
    var other: Bytes :| other in u && h(other) == h(raw) && |other| == chunks[h(raw)];
  }

  lemma RowsContiguous(h: Hasher, split: Splitter, content: Bytes)
    requires Splits(split)
    ensures Contiguous(RowsOf(h, split(content)))
  {
  }

  /** Equal names mean equal rows, for rows that fit the format. */
  lemma SameNameSameRows(h: Hasher, u: Universe, split: Splitter, a: Bytes, b: Bytes)
    requires InjectiveOn(h, u) && Fits(h, u, split, a) && Fits(h, u, split, b)
    requires RecipeName(h, RowsOf(h, split(a))) == RecipeName(h, RowsOf(h, split(b)))
    ensures RowsOf(h, split(a)) == RowsOf(h, split(b))
  {
    R.RecipeIdentity(h, u, RowsOf(h, split(a)), RowsOf(h, split(b)));
  }

  /** Equal rows mean equal content. */
  lemma SameRowsSameContent(h: Hasher, u: Universe, split: Splitter, a: Bytes, b: Bytes)
    requires InjectiveOn(h, u) && Splits(split) && Fits(h, u, split, a) && Fits(h, u, split, b) && RowsOf(h, split(a)) == RowsOf(h, split(b))
    ensures a == b
  {
    var s, t := split(a), split(b);
    assert |s| == |RowsOf(h, s)| == |t|;
    forall i | 0 <= i < |s| ensures s[i] == t[i] {
      assert RowsOf(h, s)[i].hash == h(s[i]) && RowsOf(h, t)[i].hash == h(t[i]);
    }
    assert s == t;
    assert Flatten(s) == a && Flatten(t) == b;
  }

  /** The origin after consolidating content under its name. */
  ghost function OriginAfter(h: Hasher, split: Splitter, c: Catalog, origin: map<Id, Bytes>, content: Bytes): map<Id, Bytes>
  {
    origin[RecipeIdFor(c, RecipeName(h, RowsOf(h, split(content)))) := content]
  }

  lemma KnownRecipe(h: Hasher, u: Universe, split: Splitter, c: Catalog, origin: map<Id, Bytes>, content: Bytes, rf: nat)
    requires InjectiveOn(h, u) && Splits(split) && RecipeTables(h, u, split, c, origin) && Fits(h, u, split, content)
    requires RecipeName(h, RowsOf(h, split(content))) in c.recipeIds
    ensures var rows := RowsOf(h, split(content));
            var id := c.recipeIds[RecipeName(h, rows)];
            && id in origin && origin[id] == content
            && GetOrCreateRecipe(c, RecipeName(h, rows), rows, rf) == Some(EnsureProtection(c, rows, rf))
            && HashesOf(rows) <= c.protection.Keys
  {
    hide Fits, RecipeName, P.Ensure;
    var rows := RowsOf(h, split(content));
    var id := c.recipeIds[RecipeName(h, rows)];
    RowsContiguous(h, split, content);
    assert RecipeGood(h, u, split, c.recipes[id], c.chunks, origin[id]);
    SameNameSameRows(h, u, split, origin[id], content);
    SameRowsSameContent(h, u, split, origin[id], content);
    if rows == [] {
      assert RegisterChunks(c.chunks, rows) == Some(c.chunks);
      assert c.recipes[id := c.recipes[id].(rows := rows)] == c.recipes;
    }
  }

  lemma NewRecipe(h: Hasher, u: Universe, split: Splitter, c: Catalog, origin: map<Id, Bytes>, content: Bytes, rf: nat)
    requires InjectiveOn(h, u) && Splits(split) && RecipeTables(h, u, split, c, origin) && Fits(h, u, split, content)
    requires RecipeName(h, RowsOf(h, split(content))) !in c.recipeIds
    ensures var rows := RowsOf(h, split(content));
            var name := RecipeName(h, rows);
            && RegisterChunks(c.chunks, rows).Some?
            && GetOrCreateRecipe(c, name, rows, rf)
               == Some(EnsureProtection(c.(recipes := c.recipes[c.nextRecipe := Recipe(name, |rows|, TotalSize(rows), rows)],
                                           recipeIds := c.recipeIds[name := c.nextRecipe], nextRecipe := c.nextRecipe + 1,
                                           chunks := RegisterChunks(c.chunks, rows).value), rows, rf))
  {
    hide RecipeName, P.Ensure, RegisterChunks, Fits, RecipeGood, SizesGenuine, PartsIn;
    var rows := RowsOf(h, split(content));
    var name := RecipeName(h, rows);
    RowsContiguous(h, split, content);
    FitsParts(h, u, split, content);
    RegisterSucceeds(h, u, c.chunks, split(content));
    assert c.recipes[c.nextRecipe := Recipe(name, |rows|, TotalSize(rows), [])][c.nextRecipe := Recipe(name, |rows|, TotalSize(rows), rows)]
        == c.recipes[c.nextRecipe := Recipe(name, |rows|, TotalSize(rows), rows)];
  }

  lemma EnsureKeys(rows: P.Rows, hashes: set<Hash>, rf: nat)
    ensures P.Ensure(rows, hashes, rf).Keys == rows.Keys + hashes
  {
  }

  /** A later catalog has every recipe of an earlier one, unchanged. */
  ghost predicate RecipesKept(c: Catalog, d: Catalog)
  {
    forall id :: id in c.recipes ==> id in d.recipes && d.recipes[id] == c.recipes[id]
  }

  /** Only recipe tables differ. */
  ghost predicate ItemsUntouched(c: Catalog, d: Catalog)
  {
    d.items == c.items && d.snapshots == c.snapshots && d.nextItem == c.nextItem && d.nextSnapshot == c.nextSnapshot
  }

  /** Consolidating the chunks of any content that fits the format never aborts and keeps the
      recipe tables; afterwards the content has its recipe. */
  lemma RecipeStep(h: Hasher, u: Universe, split: Splitter, c: Catalog, origin: map<Id, Bytes>, content: Bytes, rf: nat)
    requires InjectiveOn(h, u) && Splits(split) && RecipeTables(h, u, split, c, origin) && Fits(h, u, split, content)
    ensures var rows := RowsOf(h, split(content));
            var name := RecipeName(h, rows);
            var d := GetOrCreateRecipe(c, name, rows, rf);
            && d.Some? && ItemsUntouched(c, d.value) && RecipesKept(c, d.value)
            && RecipeIdFor(c, name) in d.value.recipes
            && RecipeTables(h, u, split, d.value, OriginAfter(h, split, c, origin, content))
            && (forall id :: id in origin ==> OriginAfter(h, split, c, origin, content)[id] == origin[id])
  {
    hide RecipeName, P.Ensure, RegisterChunks, GetOrCreateRecipe, RecipeTables, RowsOf, HashesOf;
    var rows := RowsOf(h, split(content));
    var name := RecipeName(h, rows);
    if name in c.recipeIds {
      KnownRecipe(h, u, split, c, origin, content, rf);
      EnsureKeepsTables(h, u, split, c, origin, rows, rf);
      TablesHaveOrigin(h, u, split, c, origin, name);
      assert OriginAfter(h, split, c, origin, content) == origin;
    } else {
      NewRecipe(h, u, split, c, origin, content, rf);
      NewRecipeTables(h, u, split, c, origin, content, rf);
      TablesHaveOrigin(h, u, split, c, origin, name);
    }
  }

  lemma TablesHaveOrigin(h: Hasher, u: Universe, split: Splitter, c: Catalog, origin: map<Id, Bytes>, name: Hash)
    requires RecipeTables(h, u, split, c, origin)
    ensures origin.Keys == c.recipes.Keys && c.nextRecipe !in origin
    ensures name in c.recipeIds ==> c.recipeIds[name] in c.recipes
  {
  }

  lemma EnsureKeepsTables(h: Hasher, u: Universe, split: Splitter, c: Catalog, origin: map<Id, Bytes>, rows: seq<R.Row>, rf: nat)
    requires RecipeTables(h, u, split, c, origin) && HashesOf(rows) <= c.protection.Keys
    ensures RecipeTables(h, u, split, EnsureProtection(c, rows, rf), origin)
  {
    hide P.Ensure, RecipeGood, HashesOf, IndexGood, SizesGenuine;
    EnsureKeys(c.protection, HashesOf(rows), rf);
  }

  lemma NewRecipeTables(h: Hasher, u: Universe, split: Splitter, c: Catalog, origin: map<Id, Bytes>, content: Bytes, rf: nat)
    requires InjectiveOn(h, u) && RecipeTables(h, u, split, c, origin) && Fits(h, u, split, content)
    requires RecipeName(h, RowsOf(h, split(content))) !in c.recipeIds && RegisterChunks(c.chunks, RowsOf(h, split(content))).Some?
    ensures var rows := RowsOf(h, split(content));
            var name := RecipeName(h, rows);
            var d := EnsureProtection(c.(recipes := c.recipes[c.nextRecipe := Recipe(name, |rows|, TotalSize(rows), rows)],
                                         recipeIds := c.recipeIds[name := c.nextRecipe], nextRecipe := c.nextRecipe + 1,
                                         chunks := RegisterChunks(c.chunks, rows).value), rows, rf);
            RecipeTables(h, u, split, d, origin[c.nextRecipe := content])
  {
    hide RecipeName, RowsOf, Fits, RegisterChunks, HashesOf, P.Ensure, RecipeGood, IndexGood, SizesGenuine, TotalSize;
    var rows := RowsOf(h, split(content));
    var name := RecipeName(h, rows);
    RegisterMeaning(c.chunks, rows);
    FitsParts(h, u, split, content);
    RegisterSucceeds(h, u, c.chunks, split(content));
    EnsureKeys(c.protection, HashesOf(rows), rf);
    var chunks := RegisterChunks(c.chunks, rows).value;
    FreshRecipeGood(h, u, split, chunks, content);
    forall id | id in c.recipes ensures RecipeGood(h, u, split, c.recipes[id], chunks, origin[id]) {
      MoreChunksKeepRecipe(h, u, split, c.recipes[id], c.chunks, chunks, origin[id]);
    }
    NewIndexGood(c, Recipe(name, |rows|, TotalSize(rows), rows));
  }

  lemma FitsParts(h: Hasher, u: Universe, split: Splitter, content: Bytes)
    requires Fits(h, u, split, content)
    ensures PartsIn(u, split(content))
  {
  }

  lemma FreshRecipeGood(h: Hasher, u: Universe, split: Splitter, chunks: map<Hash, nat>, content: Bytes)
    requires Fits(h, u, split, content) && RowsRegistered(chunks, RowsOf(h, split(content)))
    ensures var rows := RowsOf(h, split(content));
            RecipeGood(h, u, split, Recipe(RecipeName(h, rows), |rows|, TotalSize(rows), rows), chunks, content)
  {
  }

  lemma MoreChunksKeepRecipe(h: Hasher, u: Universe, split: Splitter, r: Recipe, chunks: map<Hash, nat>, more: map<Hash, nat>, content: Bytes)
    requires RecipeGood(h, u, split, r, chunks, content) && forall x :: x in chunks ==> x in more && more[x] == chunks[x]
    ensures RecipeGood(h, u, split, r, more, content)
  {
    hide RowsOf, Fits, RecipeName, TotalSize;
  }

  lemma NewIndexGood(c: Catalog, r: Recipe)
    requires IndexGood(c.recipes, c.recipeIds, c.nextRecipe) && r.hash !in c.recipeIds
    ensures IndexGood(c.recipes[c.nextRecipe := r], c.recipeIds[r.hash := c.nextRecipe], c.nextRecipe + 1)
  {
  }

  /** A recipe with an empty chunk is never stored. */
  lemma EmptyChunkAborts(c: Catalog, item: Id, hash: Hash, rows: seq<R.Row>, rf: nat, k: nat)
    requires k < |rows| && rows[k].size == 0
    ensures Consolidate(c, item, hash, rows, rf) == None
  {
  }

  /** Consolidating the same content again finds the same recipe and leaves recipe and chunk
      tables as they are. */
  lemma SecondConsolidationIsIdle(h: Hasher, u: Universe, split: Splitter, c: Catalog, origin: map<Id, Bytes>, content: Bytes, rf: nat, rf': nat)
    requires InjectiveOn(h, u) && Splits(split) && RecipeTables(h, u, split, c, origin) && Fits(h, u, split, content)
    ensures var rows := RowsOf(h, split(content));
            var name := RecipeName(h, rows);
            var d := GetOrCreateRecipe(c, name, rows, rf);
            && d.Some? && RecipeIdFor(d.value, name) == RecipeIdFor(c, name)
            && var e := GetOrCreateRecipe(d.value, name, rows, rf');
            && e.Some? && e.value.recipes == d.value.recipes && e.value.recipeIds == d.value.recipeIds
            && e.value.chunks == d.value.chunks && ItemsUntouched(d.value, e.value)
  {
    hide RecipeName, P.Ensure, RegisterChunks, GetOrCreateRecipe, RecipeTables, RowsOf, HashesOf;
    var rows := RowsOf(h, split(content));
    var name := RecipeName(h, rows);
    RecipeStep(h, u, split, c, origin, content, rf);
    if name in c.recipeIds {
      KnownRecipe(h, u, split, c, origin, content, rf);
    } else {
      NewRecipe(h, u, split, c, origin, content, rf);
    }
    KnownRecipe(h, u, split, GetOrCreateRecipe(c, name, rows, rf).value, OriginAfter(h, split, c, origin, content), content, rf');
  }

  // ---------------------------------------------------------------- items and snapshots

  lemma ItemTablesFrame(c: Catalog, d: Catalog)
    requires ItemTables(c) && ItemsUntouched(c, d) && c.recipes.Keys <= d.recipes.Keys
    ensures ItemTables(d)
  {
    forall s | s in d.snapshots ensures SnapshotGood(d, s) {
      assert SnapshotGood(c, s);
    }
  }

  lemma CreateSnapshotKeeps(c: Catalog, root: string)
    requires ItemTables(c)
    ensures ItemTables(CreateSnapshot(c, root))
  {
    var d := CreateSnapshot(c, root);
    forall s | s in d.snapshots ensures SnapshotGood(d, s) {
      assert s in c.snapshots ==> SnapshotGood(c, s);
    }
  }

  lemma AddItemKeeps(c: Catalog, snapshot: Id, e: Entry)
    requires ItemTables(c) && AddItem(c, snapshot, e).Some? && c.snapshots[snapshot].status != COMPLETE
    ensures ItemTables(AddItem(c, snapshot, e).value)
  {
    var d := AddItem(c, snapshot, e).value;
    forall s | s in d.snapshots ensures SnapshotGood(d, s) {
      assert SnapshotGood(c, s);
      if s != snapshot {
        assert FileItems(d.items, s) == FileItems(c.items, s);
      }
    }
  }

  function NewItem(snapshot: Id, e: Entry): Item { Item(snapshot, e.path, e.isFile, e.stat, None) }

  /** Ids and content of a batch that was added. */
  ghost predicate Added(c: Catalog, d: Catalog, snapshot: Id, batch: seq<Entry>)
  {
    && d == c.(items := d.items, nextItem := c.nextItem + |batch|)
    && (forall i :: i in c.items ==> i in d.items && d.items[i] == c.items[i])
    && (forall i :: c.nextItem <= i < c.nextItem + |batch| ==> i in d.items && d.items[i] == NewItem(snapshot, batch[i - c.nextItem]))
    && (forall i :: i in d.items ==> i in c.items || c.nextItem <= i < c.nextItem + |batch|)
  }

  lemma {:induction false} AddItemsKeep(c: Catalog, snapshot: Id, batch: seq<Entry>)
    requires ItemTables(c) && snapshot in c.snapshots && c.snapshots[snapshot].status != COMPLETE
    requires AddItems(c, snapshot, batch).Some?
    ensures ItemTables(AddItems(c, snapshot, batch).value)
    ensures Added(c, AddItems(c, snapshot, batch).value, snapshot, batch)
  {
    if batch != [] {
      hide ItemTables;
      var n := |batch| - 1;
      AddItemsKeep(c, snapshot, batch[..n]);
      var d := AddItems(c, snapshot, batch[..n]).value;
      AddItemKeeps(d, snapshot, batch[n]);
      AddedStep(c, d, snapshot, batch);
    }
  }

  lemma AddedStep(c: Catalog, d: Catalog, snapshot: Id, batch: seq<Entry>)
    requires batch != [] && Added(c, d, snapshot, batch[..|batch| - 1]) && (forall i :: i in c.items ==> i < c.nextItem)
    requires AddItem(d, snapshot, batch[|batch| - 1]).Some?
    ensures Added(c, AddItem(d, snapshot, batch[|batch| - 1]).value, snapshot, batch)
  {
    var n := |batch| - 1;
    assert forall k :: 0 <= k < n ==> batch[..n][k] == batch[k];
  }

  lemma SetItemRecipeKeeps(c: Catalog, item: Id, recipe: Id)
    requires ItemTables(c) && item in c.items && c.items[item].isFile && recipe in c.recipes
    ensures SetItemRecipe(c, item, recipe).Some?
    ensures var d := SetItemRecipe(c, item, recipe).value;
            && ItemTables(d) && d == c.(items := c.items[item := c.items[item].(recipe := Some(recipe))])
            && forall s :: FileItems(d.items, s) == FileItems(c.items, s)
  {
    var d := SetItemRecipe(c, item, recipe).value;
    forall s ensures FileItems(d.items, s) == FileItems(c.items, s) {
    }
    forall s | s in d.snapshots ensures SnapshotGood(d, s) {
      assert SnapshotGood(c, s);
    }
  }

  lemma FinishKeeps(c: Catalog, snapshot: Id, totalSize: int, totalFiles: int)
    requires ItemTables(c) && Finish(c, snapshot, totalSize, totalFiles).Some? && totalFiles == |FileItems(c.items, snapshot)|
    ensures ItemTables(Finish(c, snapshot, totalSize, totalFiles).value)
  {
    var d := Finish(c, snapshot, totalSize, totalFiles).value;
    forall s | s in d.snapshots ensures SnapshotGood(d, s) {
      assert SnapshotGood(c, s);
    }
  }

  lemma FailKeeps(c: Catalog, snapshot: Id)
    requires ItemTables(c) && Fail(c, snapshot).Some?
    ensures ItemTables(Fail(c, snapshot).value)
  {
    var d := Fail(c, snapshot).value;
    forall s | s in d.snapshots ensures SnapshotGood(d, s) {
      assert SnapshotGood(c, s);
    }
  }

  // ---------------------------------------------------------------- reuse

  /** The recipe the assignments give to item i; a later one wins. */
  function RecipeGiven(assignments: seq<Assignment>, i: Id): Option<Id>
  {
    if assignments == [] then None
    else if assignments[|assignments| - 1].item == i then Some(assignments[|assignments| - 1].recipe)
    else RecipeGiven(assignments[..|assignments| - 1], i)
  }

  lemma RecipeGivenLast(assignments: seq<Assignment>, i: Id)
    requires assignments != []
    ensures var last := assignments[|assignments| - 1];
            RecipeGiven(assignments, i) == if last.item == i then Some(last.recipe) else RecipeGiven(assignments[..|assignments| - 1], i)
  {
  }

  function WithRecipe(item: Item, recipe: Option<Id>): Item
  {
    if recipe.Some? then item.(recipe := recipe) else item
  }

  /** Assignments to files of existing recipes all succeed, and set exactly those items. */
  lemma {:induction false} AssignAllKeeps(c: Catalog, assignments: seq<Assignment>)
    requires ItemTables(c)
    requires forall a :: a in assignments ==> a.item in c.items && c.items[a.item].isFile && a.recipe in c.recipes
    ensures AssignAll(c, assignments).Some?
    ensures var d := AssignAll(c, assignments).value;
            && ItemTables(d) && d == c.(items := d.items) && d.items.Keys == c.items.Keys
            && (forall i :: i in c.items ==> d.items[i] == WithRecipe(c.items[i], RecipeGiven(assignments, i)))
            && (forall s :: FileItems(d.items, s) == FileItems(c.items, s))
  {
    if assignments != [] {
      hide ItemTables, FileItems, SetItemRecipe, RecipeGiven, WithRecipe;
      var n := |assignments| - 1;
      var front, last := assignments[..n], assignments[n];
      assert last in assignments && forall a :: a in front ==> a in assignments;
      AssignAllKeeps(c, front);
      var before := AssignAll(c, front).value;
      SetItemRecipeKeeps(before, last.item, last.recipe);
      GivenOneMore(c.items, before.items, assignments);
    }
  }

  lemma GivenOneMore(items: map<Id, Item>, before: map<Id, Item>, assignments: seq<Assignment>)
    requires assignments != [] && before.Keys == items.Keys && assignments[|assignments| - 1].item in items
    requires forall i :: i in items ==> before[i] == WithRecipe(items[i], RecipeGiven(assignments[..|assignments| - 1], i))
    ensures var last := assignments[|assignments| - 1];
            var after := before[last.item := before[last.item].(recipe := Some(last.recipe))];
            && after.Keys == items.Keys
            && forall i :: i in items ==> after[i] == WithRecipe(items[i], RecipeGiven(assignments, i))
  {
    hide RecipeGiven;
    forall i | i in items
      ensures var last := assignments[|assignments| - 1];
              before[last.item := before[last.item].(recipe := Some(last.recipe))][i] == WithRecipe(items[i], RecipeGiven(assignments, i))
    {
      RecipeGivenLast(assignments, i);
    }
  }

  lemma {:induction false} EnsureAllKeeps(h: Hasher, u: Universe, split: Splitter, c: Catalog, origin: map<Id, Bytes>, assignments: seq<Assignment>, rf: nat)
    requires RecipeTables(h, u, split, c, origin)
    ensures var d := EnsureAll(c, assignments, rf);
            RecipeTables(h, u, split, d, origin) && d == c.(protection := d.protection)
  {
    if assignments != [] {
      hide RecipeTables;
      EnsureAllKeeps(h, u, split, c, origin, assignments[..|assignments| - 1], rf);
      var before := EnsureAll(c, assignments[..|assignments| - 1], rf);
      var id := assignments[|assignments| - 1].recipe;
      if id in before.recipes {
        RecipeRowsKnown(h, u, split, before, origin, id);
        EnsureKeepsTables(h, u, split, before, origin, before.recipes[id].rows, rf);
      }
    }
  }

  lemma RecipeRowsKnown(h: Hasher, u: Universe, split: Splitter, c: Catalog, origin: map<Id, Bytes>, id: Id)
    requires RecipeTables(h, u, split, c, origin) && id in c.recipes
    ensures HashesOf(c.recipes[id].rows) <= c.protection.Keys
    ensures c.recipes[id].rows == RowsOf(h, split(origin[id]))
  {
    assert RecipeGood(h, u, split, c.recipes[id], c.chunks, origin[id]);
  }
}
