/** Taking over recipes from the previous snapshot keeps the invariant: the previous snapshot is
    complete, so everything its recipes need is still there. */
module BackupReuse {
  import opened Prelude
  import opened Catalog
  import opened CatalogInvariant
  import opened Backup
  import opened BackupInvariant
  import opened BackupCoordinator

  // ---------------------------------------------------------------- what the loop computes

  ghost predicate IsReused(c: Catalog, run: Run, first: Id, batch: seq<Entry>, i: int)
  {
    first <= i < first + |batch| && ReusableRecipe(c, run, batch[i - first]).Some?
  }

  ghost function ReusedSet(c: Catalog, run: Run, first: Id, batch: seq<Entry>): set<Id>
  {
    set k | 0 <= k < |batch| && ReusableRecipe(c, run, batch[k]).Some? :: first + k
  }

  lemma ReusedSetMeaning(c: Catalog, run: Run, first: Id, batch: seq<Entry>, i: Id)
    ensures i in ReusedSet(c, run, first, batch) <==> IsReused(c, run, first, batch, i)
  {
    hide ReusableRecipe;
    if IsReused(c, run, first, batch, i) {
      assert first + (i - first) == i;
    }
  }

  lemma {:induction false} ReusedGiven(c: Catalog, run: Run, first: Id, batch: seq<Entry>, i: Id)
    ensures RecipeGiven(Reused(c, run, first, batch), i)
            == if first <= i < first + |batch| then ReusableRecipe(c, run, batch[i - first]) else None
    decreases |batch|
  {
    hide ReusableRecipe, RecipeGiven;
    if batch == [] {
      NothingGiven(i);
    } else {
      var n := |batch| - 1;
      ReusedGiven(c, run, first, batch[..n], i);
      GivenWith(Reused(c, run, first, batch[..n]), first + n, ReusableRecipe(c, run, batch[n]), i);
    }
  }

  lemma NothingGiven(i: Id)
    ensures RecipeGiven([], i) == None
  {
  }

  /** One more assignment, if there is one, decides for its own item. */
  lemma GivenWith(front: seq<Assignment>, item: Id, r: Option<Id>, i: Id)
    ensures RecipeGiven(front + (if r.Some? then [Assignment(item, r.value)] else []), i)
            == if r.Some? && item == i then r else RecipeGiven(front, i)
  {
    if r.Some? {
      assert (front + [Assignment(item, r.value)])[..|front|] == front;
    } else {
      assert front + [] == front;
    }
  }

  lemma {:induction false} ReusedMembers(c: Catalog, run: Run, first: Id, batch: seq<Entry>, a: Assignment)
    requires a in Reused(c, run, first, batch)
    ensures first <= a.item < first + |batch| && ReusableRecipe(c, run, batch[a.item - first]) == Some(a.recipe)
    decreases |batch|
  {
    hide ReusableRecipe;
    var n := |batch| - 1;
    if a in Reused(c, run, first, batch[..n]) {
      ReusedMembers(c, run, first, batch[..n], a);
    }
  }

  lemma ReusedSetSnoc(c: Catalog, run: Run, first: Id, batch: seq<Entry>)
    requires batch != []
    ensures var n := |batch| - 1;
            && ReusedSet(c, run, first, batch)
               == ReusedSet(c, run, first, batch[..n]) + (if ReusableRecipe(c, run, batch[n]).Some? then {first + n} else {})
            && first + n !in ReusedSet(c, run, first, batch[..n])
  {
    hide ReusableRecipe, ReusedSet;
    var n := |batch| - 1;
    forall i: Id
      ensures i in ReusedSet(c, run, first, batch) <==> IsReused(c, run, first, batch, i)
      ensures i in ReusedSet(c, run, first, batch[..n]) <==> IsReused(c, run, first, batch[..n], i)
    {
      ReusedSetMeaning(c, run, first, batch, i);
      ReusedSetMeaning(c, run, first, batch[..n], i);
    }
  }

  lemma {:induction false} ReusedCount(c: Catalog, run: Run, first: Id, batch: seq<Entry>)
    ensures |Reused(c, run, first, batch)| == |ReusedSet(c, run, first, batch)|
    decreases |batch|
  {
    hide ReusableRecipe, ReusedSet;
    if batch == [] {
      forall i: Id ensures i !in ReusedSet(c, run, first, batch) {
        ReusedSetMeaning(c, run, first, batch, i);
      }
      assert ReusedSet(c, run, first, batch) == {};
    } else {
      ReusedCount(c, run, first, batch[..|batch| - 1]);
      ReusedSetSnoc(c, run, first, batch);
    }
  }

  ghost predicate MustRead(c: Catalog, run: Run, first: Id, batch: seq<Entry>, i: Id)
  {
    first <= i < first + |batch| && batch[i - first].isFile && ReusableRecipe(c, run, batch[i - first]).None?
  }

  lemma {:induction false} ToReadMeaning(c: Catalog, run: Run, first: Id, batch: seq<Entry>)
    ensures forall i: Id :: i in ToRead(c, run, first, batch) <==> MustRead(c, run, first, batch, i)
    ensures Distinct(ToRead(c, run, first, batch))
    decreases |batch|
  {
    hide ReusableRecipe;
    if batch != [] {
      var n := |batch| - 1;
      var front := ToRead(c, run, first, batch[..n]);
      ToReadMeaning(c, run, first, batch[..n]);
      forall i: Id ensures MustRead(c, run, first, batch, i) <==>
                             MustRead(c, run, first, batch[..n], i) || (i == first + n && MustRead(c, run, first, batch, first + n))
      {
        if first <= i < first + n {
          assert batch[..n][i - first] == batch[i - first];
        }
      }
      forall k | 0 <= k < |front| ensures front[k] < first + n {
        assert front[k] in front;
      }
    }
  }

  /** The files of the batch are those reused and those to be read. */
  lemma QueueSplits(c: Catalog, run: Run, first: Id, batch: seq<Entry>)
    ensures var reused := ReusedSet(c, run, first, batch);
            && reused <= Queued(Reusing(first, batch))
            && Queued(Submitting(ToRead(c, run, first, batch))) == Queued(Reusing(first, batch)) - reused
  {
    hide ReusedSet, Queued, ToRead;
    ToReadMeaning(c, run, first, batch);
    forall i: Id
      ensures i in ReusedSet(c, run, first, batch) <==> IsReused(c, run, first, batch, i)
      ensures i in Queued(Reusing(first, batch)) <==> first <= i < first + |batch| && batch[i - first].isFile
      ensures i in Queued(Submitting(ToRead(c, run, first, batch))) <==> i in ToRead(c, run, first, batch)
      ensures IsReused(c, run, first, batch, i) ==> batch[i - first].isFile
    {
      ReusedSetMeaning(c, run, first, batch, i);
      QueuedBatch(first, batch, i);
      QueuedTodo(ToRead(c, run, first, batch), i);
    }
  }

  lemma QueuedTodo(todo: seq<Id>, i: Id)
    ensures i in Queued(Submitting(todo)) <==> i in todo
  {
  }

  // ---------------------------------------------------------------- soundness

  /** A reused recipe belongs to a live file of the previous, complete snapshot. */
  lemma ReusableIsLive(c: Catalog, run: Run, e: Entry) returns (j: Id)
    requires ItemTables(c) && ReusableRecipe(c, run, e).Some?
    requires run.previous.Some? ==> run.previous.value in c.snapshots && c.snapshots[run.previous.value].status == COMPLETE
    ensures Live(c, j) && c.items[j].recipe == ReusableRecipe(c, run, e) && e.isFile
  {
    var p := PreviousFile(c, run.previous.value, e.path);
    j :| j in c.items && c.items[j].snapshot == run.previous.value && c.items[j].path == e.path && c.items[j].isFile && Some(c.items[j]) == p;
    assert ItemGood(c, j);
  }

  /** Exactly the reusable files have been given their previous recipe. */
  ghost predicate Taken(c: Catalog, d: Catalog, run: Run)
    requires run.phase.Reusing?
  {
    && d.items.Keys == c.items.Keys
    && forall i :: i in c.items ==>
         d.items[i] == WithRecipe(c.items[i], RecipeGiven(Reused(c, run, run.phase.first, run.phase.batch), i))
  }

  /** What the reuse transaction leaves behind. */
  lemma ReuseResult(env: Env, s: Sys, run: Run)
    requires Inv(env.hash, env.universe, env.split, s.cat, s.origin) && RunInv(env, s, run) && run.phase.Reusing?
    ensures var first, batch := run.phase.first, run.phase.batch;
            var d := Reuse(s.cat, Reused(s.cat, run, first, batch), run.policy.rf);
            && d.Some? && Inv(env.hash, env.universe, env.split, d.value, s.origin)
            && d.value.recipes == s.cat.recipes && d.value.snapshots == s.cat.snapshots && Taken(s.cat, d.value, run)
            && (forall t :: FileItems(d.value.items, t) == FileItems(s.cat.items, t))
  {
    hide RecipeTables, ItemTables, Reused, ReusableRecipe, FileItems, CachesTrue, WorkersGood, Placed;
    var c, first, batch := s.cat, run.phase.first, run.phase.batch;
    var reused := Reused(c, run, first, batch);
    forall a | a in reused ensures a.item in c.items && c.items[a.item].isFile && a.recipe in c.recipes {
      ReusedMembers(c, run, first, batch, a);
      var j := ReusableIsLive(c, run, batch[a.item - first]);
      LiveHasRecipe(c, j);
    }
    AssignAllKeeps(c, reused);
    var d := AssignAll(c, reused).value;
    RecipeTablesFrame(env, c, d, s.origin);
    EnsureAllKeeps(env.hash, env.universe, env.split, d, s.origin, reused, run.policy.rf);
    ItemTablesFrame(d, EnsureAll(d, reused, run.policy.rf));
  }

  lemma LiveHasRecipe(c: Catalog, j: Id)
    requires Live(c, j)
    ensures j in c.items && c.items[j].recipe.Some? && c.items[j].recipe.value in c.recipes
    ensures RowsOfItem(c, j) == c.recipes[c.items[j].recipe.value].rows
  {
  }

  lemma ReuseLiveKept(env: Env, s: Sys, run: Run, d: Catalog)
    requires ItemTables(s.cat) && RunInv(env, s, run) && run.phase.Reusing? && LiveKept(s.cat, s.cas.Keys + s.trusted)
    requires d.recipes == s.cat.recipes && d.snapshots == s.cat.snapshots && Taken(s.cat, d, run)
    ensures LiveKept(d, s.cas.Keys + s.trusted)
  {
    hide RunInv, Reused, ReusableRecipe, ItemTables, RowsKept, RecipeGiven;
    var c, first, batch := s.cat, run.phase.first, run.phase.batch;
    forall i: Id | Live(d, i) ensures RowsKept(RowsOfItem(d, i), s.cas.Keys + s.trusted) {
      ReusedGiven(c, run, first, batch, i);
      var given := RecipeGiven(Reused(c, run, first, batch), i);
      if given.Some? {
        RunPrevious(env, s, run);
        var j := ReusableIsLive(c, run, batch[i - first]);
        assert RowsOfItem(d, i) == RowsOfItem(c, j);
      } else {
        assert Live(c, i);
      }
    }
  }

  lemma RunPrevious(env: Env, s: Sys, run: Run)
    requires RunInv(env, s, run)
    ensures run.previous.Some? ==> run.previous.value in s.cat.snapshots && s.cat.snapshots[run.previous.value].status == COMPLETE
  {
  }

  /** Reused files leave the queue for the assigned ones. */
  lemma ReusePlaced(s: Sys, run: Run, d: Catalog, todo: seq<Id>, n: nat)
    requires run.phase.Reusing? && PhaseGood(s.cat.items, run.snapshot, run.phase)
    requires Placed(s.cat.items, run.snapshot, run.phase, run.workers.Keys, run.failed, run.files)
    requires Taken(s.cat, d, run) && FileItems(d.items, run.snapshot) == FileItems(s.cat.items, run.snapshot)
    requires todo == ToRead(s.cat, run, run.phase.first, run.phase.batch)
    requires n == run.files + |Reused(s.cat, run, run.phase.first, run.phase.batch)|
    ensures Placed(d.items, run.snapshot, Submitting(todo), run.workers.Keys, run.failed, n)
  {
    hide FileItems, Partition, Queued, Reused, ReusedSet, ToRead, Assigned, PhaseGood, Taken, Placed;
    PlacedIs(s.cat.items, run.snapshot, run.phase, run.workers.Keys, run.failed, run.files);
    var c, first, batch := s.cat, run.phase.first, run.phase.batch;
    var all, q, g := FileItems(c.items, run.snapshot), Queued(run.phase), Assigned(c.items, run.snapshot);
    var reused := ReusedSet(c, run, first, batch);
    assert run.phase == Reusing(first, batch);
    QueueSplits(c, run, first, batch);
    SomeGiven(all, q, run.workers.Keys, run.failed, g, reused);
    AssignedAfterReuse(c, d, run, reused);
    ReusedCount(c, run, first, batch);
    DisjointCount(g, reused);
    PlacedIs(d.items, run.snapshot, Submitting(todo), run.workers.Keys, run.failed, n);
  }

  lemma DisjointCount(a: set<Id>, b: set<Id>)
    requires a !! b
    ensures |a + b| == |a| + |b|
  {
  }

  lemma AssignedAfterReuse(c: Catalog, d: Catalog, run: Run, reused: set<Id>)
    requires run.phase.Reusing? && reused == ReusedSet(c, run, run.phase.first, run.phase.batch)
    requires reused <= FileItems(c.items, run.snapshot)
    requires Taken(c, d, run) && FileItems(d.items, run.snapshot) == FileItems(c.items, run.snapshot)
    ensures Assigned(d.items, run.snapshot) == Assigned(c.items, run.snapshot) + reused
  {
    hide Reused, ReusedSet, RecipeGiven, ReusableRecipe;
    forall i | i in c.items
      ensures i in reused <==> RecipeGiven(Reused(c, run, run.phase.first, run.phase.batch), i).Some?
    {
      ReusedGiven(c, run, run.phase.first, run.phase.batch, i);
      ReusedSetMeaning(c, run, run.phase.first, run.phase.batch, i);
    }
  }

  lemma ReuseKeepsInv(env: Env, s: Sys, run: Run)
    requires SysInv(env, s) && s.run == Some(run) && run.phase.Reusing?
    ensures SysInv(env, ReuseBatch(s, run)) && ReuseBatch(s, run).run.Some?
  {
    hide CasGood, Inv, LiveKept, CachesTrue, WorkersGood, Placed, PhaseGood, Reuse, Reused, ToRead, FileItems, Taken, ItemTables;
    var first, batch := run.phase.first, run.phase.batch;
    ReuseResult(env, s, run);
    var d := Reuse(s.cat, Reused(s.cat, run, first, batch), run.policy.rf).value;
    InvHasItems(env, s);
    ReuseLiveKept(env, s, run, d);
    ReusePlaced(s, run, d, ToRead(s.cat, run, first, batch), run.files + |Reused(s.cat, run, first, batch)|);
    ToReadIsPhaseGood(s.cat, run, d.items, first, batch);
  }

  lemma ToReadIsPhaseGood(c: Catalog, run: Run, items: map<Id, Item>, first: Id, batch: seq<Entry>)
    ensures PhaseGood(items, run.snapshot, Submitting(ToRead(c, run, first, batch)))
  {
    ToReadMeaning(c, run, first, batch);
  }
}
