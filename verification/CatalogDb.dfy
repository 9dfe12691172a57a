/** The catalog as the database object changes it: statement by statement inside a transaction
    that either reaches its end or restores the tables it started from. */
module CatalogDb {
  import opened Prelude
  import opened Catalog
  import opened CatalogInvariant
  import P = Protection
  import R = Recipes

  // ---------------------------------------------------------------- chunk registration

  /** The rows agree with each other and with what is stored. */
  ghost predicate Agreeing(chunks: map<Hash, nat>, rows: seq<R.Row>)
  {
    && (forall i, j :: 0 <= i < j < |rows| && rows[i].hash == rows[j].hash ==> rows[i].size == rows[j].size)
    && (forall i :: 0 <= i < |rows| && rows[i].hash in chunks ==> chunks[rows[i].hash] == rows[i].size)
  }

  lemma {:induction false} RegisterIff(chunks: map<Hash, nat>, rows: seq<R.Row>)
    ensures RegisterChunks(chunks, rows).Some? <==> Agreeing(chunks, rows)
  {
    if rows != [] {
      var n := |rows| - 1;
      RegisterIff(chunks, rows[..n]);
      if RegisterChunks(chunks, rows[..n]).Some? {
        RegisterMeaning(chunks, rows[..n]);
        LastAgrees(chunks, rows, RegisterChunks(chunks, rows[..n]).value);
      } else {
        assert forall i :: 0 <= i < n ==> rows[..n][i] == rows[i];
      }
    }
  }

  lemma LastAgrees(chunks: map<Hash, nat>, rows: seq<R.Row>, before: map<Hash, nat>)
    requires rows != [] && Agreeing(chunks, rows[..|rows| - 1]) && RowsRegistered(before, rows[..|rows| - 1])
    requires before.Keys == chunks.Keys + HashesOf(rows[..|rows| - 1]) && forall x :: x in chunks ==> before[x] == chunks[x]
    ensures var last := rows[|rows| - 1];
            (last.hash in before ==> before[last.hash] == last.size) <==> Agreeing(chunks, rows)
  {
    var n := |rows| - 1;
    var front, last := rows[..n], rows[n];
    assert forall i :: 0 <= i < n ==> front[i] == rows[i];
    if last.hash in before && last.hash !in chunks {
      var i :| 0 <= i < n && front[i].hash == last.hash;
    }
  }

  /** Sizes collected from rows. */
  ghost predicate Collected(rows: seq<R.Row>, sizes: map<Hash, nat>)
  {
    && (forall i :: 0 <= i < |rows| ==> rows[i].hash in sizes && sizes[rows[i].hash] == rows[i].size)
    && (forall x :: x in sizes ==> exists i :: 0 <= i < |rows| && rows[i].hash == x)
  }

  /** Storing the collected sizes, old ones winning, is what registration means. */
  lemma RegisterValue(chunks: map<Hash, nat>, rows: seq<R.Row>, sizes: map<Hash, nat>)
    requires Collected(rows, sizes) && RegisterChunks(chunks, rows).Some?
    ensures RegisterChunks(chunks, rows).value == sizes + chunks
  {
    hide RegisterChunks;
    var after := RegisterChunks(chunks, rows).value;
    RegisterMeaning(chunks, rows);
    assert sizes.Keys == HashesOf(rows) by {
      forall x ensures x in sizes <==> x in HashesOf(rows) {
      }
    }
    assert after.Keys == (sizes + chunks).Keys;
    forall x | x in after ensures after[x] == (sizes + chunks)[x] {
      if x !in chunks {
        var i :| 0 <= i < |rows| && rows[i].hash == x;
      }
    }
  }

  lemma {:induction false} AddFailureIsFinal(c: Catalog, snapshot: Id, batch: seq<Entry>, n: nat)
    requires n <= |batch| && AddItems(c, snapshot, batch[..n]).None?
    ensures AddItems(c, snapshot, batch).None?
    decreases |batch|
  {
    if n == |batch| {
      assert batch[..n] == batch;
    } else {
      assert batch[..|batch| - 1][..n] == batch[..n];
      AddFailureIsFinal(c, snapshot, batch[..|batch| - 1], n);
    }
  }

  lemma {:induction false} AssignFailureIsFinal(c: Catalog, assignments: seq<Assignment>, n: nat)
    requires n <= |assignments| && AssignAll(c, assignments[..n]).None?
    ensures AssignAll(c, assignments).None?
    decreases |assignments|
  {
    if n == |assignments| {
      assert assignments[..n] == assignments;
    } else {
      assert assignments[..|assignments| - 1][..n] == assignments[..n];
      AssignFailureIsFinal(c, assignments[..|assignments| - 1], n);
    }
  }

  predicate Taken(items: map<Id, Item>, snapshot: Id, path: string)
  {
    exists i :: i in items && items[i].snapshot == snapshot && items[i].path == path
  }

  lemma TakenInView(c: Catalog, snapshot: Id, path: string)
    ensures Taken(c.items, snapshot, path) == PathTaken(c, snapshot, path)
  {
  }

  // ---------------------------------------------------------------- the database object

  class Db {
    var snapshots: map<Id, Snapshot>
    var items: map<Id, Item>
    var recipes: map<Id, Recipe>
    var recipeIds: map<Hash, Id>
    var chunks: map<Hash, nat>
    var protection: P.Rows
    var nextSnapshot: Id
    var nextItem: Id
    var nextRecipe: Id

    ghost function View(): Catalog
      reads this
    {
      Catalog(snapshots, items, recipes, recipeIds, chunks, protection, nextSnapshot, nextItem, nextRecipe)
    }

    constructor ()
      ensures View() == EMPTY
    {
      snapshots, items, recipes, recipeIds, chunks, protection := map[], map[], map[], map[], map[], map[];
      nextSnapshot, nextItem, nextRecipe := 1, 1, 1;
    }

    method Create(root: string) returns (id: Id)
      modifies this`snapshots, this`nextSnapshot
      ensures id == old(nextSnapshot) && View() == CreateSnapshot(old(View()), root)
    {
      id := nextSnapshot;
      snapshots := snapshots[id := Snapshot(root, CREATING, 0, 0)];
      nextSnapshot := nextSnapshot + 1;
    }

    /** A batch of items; a path that is taken undoes the whole batch. */
    method AddBatch(snapshot: Id, batch: seq<Entry>) returns (ids: Option<seq<Id>>)
      modifies this`items, this`nextItem
      ensures ids.Some? <==> AddItems(old(View()), snapshot, batch).Some?
      ensures ids.Some? ==> View() == AddItems(old(View()), snapshot, batch).value
                            && ids.value == seq(|batch|, k => old(nextItem) + k)
      ensures ids.None? ==> View() == old(View())
    {
      hide PathTaken, Taken;
      var savedItems, savedNext := items, nextItem;
      var added: seq<Id> := [];
      for k := 0 to |batch|
        invariant AddItems(old(View()), snapshot, batch[..k]) == Some(View())
        invariant nextItem == old(nextItem) + k && added == seq(k, j => old(nextItem) + j)
      {
        var e := batch[k];
        assert batch[..k + 1][..k] == batch[..k];
        TakenInView(View(), snapshot, e.path);
        if snapshot !in snapshots || Taken(items, snapshot, e.path) {
          AddFailureIsFinal(old(View()), snapshot, batch, k + 1);
          items, nextItem := savedItems, savedNext;
          return None;
        }
        added := added + [nextItem];
        items := items[nextItem := Item(snapshot, e.path, e.isFile, e.stat, None)];
        nextItem := nextItem + 1;
      }
      assert batch[..|batch|] == batch;
      return Some(added);
    }

    /** First the rows among themselves, then the rows against the table. A refusal may leave
        chunks inserted; the surrounding transaction undoes them. */
    method RegisterRows(rows: seq<R.Row>) returns (ok: bool)
      modifies this`chunks
      ensures ok == RegisterChunks(old(chunks), rows).Some?
      ensures ok ==> chunks == RegisterChunks(old(chunks), rows).value
    {
      hide RegisterChunks, Agreeing, Collected;
      RegisterIff(chunks, rows);
      var collected := CollectSizes(rows);
      if collected.None? {
        SelfAgreement(chunks, rows);
        return false;
      }
      var sizes := collected.value;
      SizesDecide(chunks, rows, sizes);
      chunks := sizes + chunks;
      var todo := sizes.Keys;
      while todo != {}
        invariant todo <= sizes.Keys && forall x :: x in sizes && x !in todo ==> chunks[x] == sizes[x]
        decreases |todo|
      {
        var x :| x in todo;
        if chunks[x] != sizes[x] {
          return false;
        }
        todo := todo - {x};
      }
      RegisterValue(old(chunks), rows, sizes);
      return true;
    }

    /** The recipe with this hash, created if necessary. */
    method GetOrCreate(hash: Hash, rows: seq<R.Row>, rf: nat) returns (id: Option<Id>)
      modifies this`recipes, this`recipeIds, this`chunks, this`protection, this`nextRecipe
      ensures id.Some? <==> GetOrCreateRecipe(old(View()), hash, rows, rf).Some?
      ensures id.Some? ==> id.value == RecipeIdFor(old(View()), hash) && View() == GetOrCreateRecipe(old(View()), hash, rows, rf).value
    {
      hide RegisterChunks, P.Ensure, TotalSize, HashesOf;
      var total := TotalSize(rows);
      for i := 0 to |rows|
        invariant forall k :: 0 <= k < i ==> rows[k].order == k && rows[k].size >= 1
      {
        if rows[i].order != i || rows[i].size < 1 {
          return None;
        }
      }
      if hash !in recipeIds {
        recipes := recipes[nextRecipe := Recipe(hash, |rows|, total, [])];
        recipeIds := recipeIds[hash := nextRecipe];
        nextRecipe := nextRecipe + 1;
      }
      var found := recipeIds[hash];
      if found !in recipes || recipes[found].count != |rows| || recipes[found].size != total {
        return None;
      }
      if recipes[found].rows != [] {
        if recipes[found].rows != rows || !RowsRegistered(chunks, rows) {
          return None;
        }
      } else {
        var ok := RegisterRows(rows);
        if !ok {
          return None;
        }
        recipes := recipes[found := recipes[found].(rows := rows)];
      }
      protection := P.Ensure(protection, HashesOf(rows), rf);
      return Some(found);
    }

    /** Recipe, protection and item in one transaction. */
    method ConsolidateItem(item: Id, hash: Hash, rows: seq<R.Row>, rf: nat) returns (id: Option<Id>)
      modifies this
      ensures id.Some? <==> Consolidate(old(View()), item, hash, rows, rf).Some?
      ensures View() == if id.Some? then Consolidate(old(View()), item, hash, rows, rf).value else old(View())
    {
      hide GetOrCreateRecipe;
      var savedRecipes, savedIds, savedChunks, savedProtection, savedNext := recipes, recipeIds, chunks, protection, nextRecipe;
      id := GetOrCreate(hash, rows, rf);
      if id.Some? && item in items && id.value in recipes {
        items := items[item := items[item].(recipe := id)];
      } else {
        recipes, recipeIds, chunks, protection, nextRecipe := savedRecipes, savedIds, savedChunks, savedProtection, savedNext;
        id := None;
      }
    }

    /** Takes over recipes for a batch of items, then raises their protection. */
    method ReuseRecipes(assignments: seq<Assignment>, rf: nat) returns (ok: bool)
      modifies this`items, this`protection
      ensures ok == Reuse(old(View()), assignments, rf).Some?
      ensures View() == if ok then Reuse(old(View()), assignments, rf).value else old(View())
    {
      var savedItems := items;
      for k := 0 to |assignments|
        invariant protection == old(protection) && AssignAll(old(View()), assignments[..k]) == Some(View())
      {
        var a := assignments[k];
        assert assignments[..k + 1][..k] == assignments[..k];
        if a.item !in items || a.recipe !in recipes {
          AssignFailureIsFinal(old(View()), assignments, k + 1);
          items := savedItems;
          return false;
        }
        items := items[a.item := items[a.item].(recipe := Some(a.recipe))];
      }
      assert assignments[..|assignments|] == assignments;
      ghost var given := View();
      for k := 0 to |assignments|
        invariant EnsureAll(given, assignments[..k], rf) == View() && items == given.items
      {
        assert assignments[..k + 1][..k] == assignments[..k];
        if assignments[k].recipe in recipes {
          protection := P.Ensure(protection, HashesOf(recipes[assignments[k].recipe].rows), rf);
        }
      }
      return true;
    }

    method FinishSnapshot(snapshot: Id, totalSize: int, totalFiles: int) returns (ok: bool)
      modifies this`snapshots
      ensures ok == Finish(old(View()), snapshot, totalSize, totalFiles).Some?
      ensures View() == if ok then Finish(old(View()), snapshot, totalSize, totalFiles).value else old(View())
    {
      if snapshot !in snapshots || snapshots[snapshot].status != CREATING {
        return false;
      }
      var open := set i | i in items && items[i].snapshot == snapshot && items[i].isFile && items[i].recipe.None?;
      if open != {} {
        var i :| i in open;
        assert HasOpenFile(View(), snapshot);
        return false;
      }
      assert forall i :: i in items && items[i].snapshot == snapshot && items[i].isFile && items[i].recipe.None? ==> i in open;
      snapshots := snapshots[snapshot := snapshots[snapshot].(status := COMPLETE, totalSize := totalSize, totalFiles := totalFiles)];
      return true;
    }

    method FailSnapshot(snapshot: Id) returns (ok: bool)
      modifies this`snapshots
      ensures ok == Fail(old(View()), snapshot).Some?
      ensures View() == if ok then Fail(old(View()), snapshot).value else old(View())
    {
      if snapshot in snapshots && snapshots[snapshot].status == CREATING {
        snapshots := snapshots[snapshot := snapshots[snapshot].(status := FAILED)];
        return true;
      }
      if snapshot !in snapshots {
        return false;
      }
      assert snapshots[snapshot].status == FAILED ==> snapshots[snapshot := snapshots[snapshot].(status := FAILED)] == snapshots;
      return snapshots[snapshot].status == FAILED;
    }
  }

  ghost predicate SelfAgreeing(rows: seq<R.Row>)
  {
    forall i, j :: 0 <= i < j < |rows| && rows[i].hash == rows[j].hash ==> rows[i].size == rows[j].size
  }

  lemma SelfAgreement(chunks: map<Hash, nat>, rows: seq<R.Row>)
    ensures Agreeing(chunks, rows) ==> SelfAgreeing(rows)
  {
  }

  /** The sizes of the chunks of a recipe, unless two rows give one chunk different sizes. */
  method CollectSizes(rows: seq<R.Row>) returns (sizes: Option<map<Hash, nat>>)
    ensures sizes.Some? <==> SelfAgreeing(rows)
    ensures sizes.Some? ==> Collected(rows, sizes.value)
  {
    hide SelfAgreeing, Collected;
    var m: map<Hash, nat> := map[];
    CollectedNothing();
    assert rows[..0] == [];
    for i := 0 to |rows|
      invariant Collected(rows[..i], m)
    {
      var row := rows[i];
      CollectedNext(rows, i, m);
      if row.hash !in m {
        m := m[row.hash := row.size];
      } else if m[row.hash] != row.size {
        return None;
      }
    }
    assert rows[..|rows|] == rows;
    CollectedAgrees(rows, m);
    return Some(m);
  }

  lemma CollectedNothing()
    ensures Collected([], map[])
  {
  }

  lemma CollectedAgrees(rows: seq<R.Row>, m: map<Hash, nat>)
    requires Collected(rows, m)
    ensures SelfAgreeing(rows)
  {
  }

  lemma CollectedNext(rows: seq<R.Row>, i: nat, m: map<Hash, nat>)
    requires i < |rows| && Collected(rows[..i], m)
    ensures var row := rows[i];
            if row.hash !in m then Collected(rows[..i + 1], m[row.hash := row.size])
            else if m[row.hash] == row.size then Collected(rows[..i + 1], m)
            else !SelfAgreeing(rows)
  {
    var row := rows[i];
    assert rows[..i + 1][..i] == rows[..i] && rows[..i + 1][i] == row;
    if row.hash !in m {
      CollectedMore(rows[..i + 1], m, m[row.hash := row.size]);
    } else if m[row.hash] == row.size {
      CollectedMore(rows[..i + 1], m, m);
    } else {
      var k :| 0 <= k < i && rows[..i][k].hash == row.hash;
      assert rows[k].hash == rows[i].hash && rows[k].size != rows[i].size;
    }
  }

  lemma CollectedMore(rows: seq<R.Row>, m: map<Hash, nat>, more: map<Hash, nat>)
    requires rows != [] && Collected(rows[..|rows| - 1], m)
    requires var row := rows[|rows| - 1];
             more.Keys == m.Keys + {row.hash} && more[row.hash] == row.size && forall x :: x in m ==> more[x] == m[x]
    ensures Collected(rows, more)
  {
    var n := |rows| - 1;
    assert forall k :: 0 <= k < n ==> rows[..n][k] == rows[k];
    forall x | x in more ensures exists i :: 0 <= i < |rows| && rows[i].hash == x {
      if x in m {
        var i :| 0 <= i < n && rows[..n][i].hash == x;
        assert rows[i].hash == x;
      } else {
        assert rows[n].hash == x;
      }
    }
  }

  /** Checking the stored sizes against the collected ones is checking the rows. */
  lemma SizesDecide(chunks: map<Hash, nat>, rows: seq<R.Row>, sizes: map<Hash, nat>)
    requires Collected(rows, sizes)
    ensures Agreeing(chunks, rows) <==> forall x :: x in sizes ==> (sizes + chunks)[x] == sizes[x]
  {
    if Agreeing(chunks, rows) {
      forall x | x in sizes ensures (sizes + chunks)[x] == sizes[x] {
        var i :| 0 <= i < |rows| && rows[i].hash == x;
      }
    }
  }
}
