/** The chunk_protection table as the database object changes it: validate the whole request,
    then write row by row, and put everything back when a row is refused. */
module ProtectionDb {
  import opened Prelude
  import opened ProtectionPolicy
  import opened Protection

  lemma EnsureOneMore(rows: Rows, done: set<Hash>, h: Hash, rf: int)
    requires h !in done
    ensures var part := Ensure(rows, done, rf);
            part[h := EnsureRow(Lookup(part, h), rf)] == Ensure(rows, done + {h}, rf)
  {
    hide EnsureRow;
    var part, whole := Ensure(rows, done, rf), Ensure(rows, done + {h}, rf);
    assert Lookup(part, h) == Lookup(rows, h);
    assert part.Keys + {h} == whole.Keys;
  }

  lemma EnsureNothing(rows: Rows, rf: int)
    ensures Ensure(rows, {}, rf) == rows
  {
  }

  class Db {
    var known: set<Hash>
    var rows: Rows

    ghost function View(): Table
      reads this
    {
      Table(known, rows)
    }

    constructor ()
      ensures View() == EMPTY
    {
      known, rows := {}, map[];
    }

    /** One row after another; stops at a chunk that is not registered. */
    method WriteAll(updates: seq<Update>) returns (ok: bool)
      modifies this`rows
      ensures ok <==> forall u :: u in updates ==> u.hash in known
      ensures rows == if ok then Upsert(old(rows), updates) else old(rows)
    {
      var saved := rows;
      for i := 0 to |updates|
        invariant rows == Upsert(old(rows), updates[..i])
        invariant forall u :: u in updates[..i] ==> u.hash in known
      {
        assert updates[..i + 1][..i] == updates[..i];
        if updates[i].hash !in known {
          rows := saved;
          return false;
        }
        rows := rows[updates[i].hash := updates[i].Row()];
      }
      assert updates[..|updates|] == updates;
      return true;
    }

    method ApplyPushUpdates(updates: seq<Update>)
      modifies this`rows
      ensures View() == Commit(old(View()), PushRecorded(updates))
    {
      for i := 0 to |updates|
        invariant forall u :: u in updates[..i] ==> !u.state.PENDING? && !u.state.VERIFIED? && u.InRange()
      {
        var u := updates[i];
        if u.state.PENDING? || u.state.VERIFIED? || !u.InRange() {
          assert u in updates;
          return;
        }
      }
      assert updates[..|updates|] == updates;
      var _ := WriteAll(updates);
    }

    method ApplyVerificationUpdates(updates: seq<Update>)
      modifies this`rows
      ensures View() == Commit(old(View()), VerificationRecorded(updates))
    {
      for i := 0 to |updates|
        invariant forall u :: u in updates[..i] ==> (u.state.VERIFIED? || u.state.DEGRADED?) && u.InRange()
      {
        var u := updates[i];
        if !(u.state.VERIFIED? || u.state.DEGRADED?) || !u.InRange() {
          assert u in updates;
          return;
        }
      }
      assert updates[..|updates|] == updates;
      var _ := WriteAll(updates);
    }

    /** Insert missing rows, raise the others; distinct chunks in any order. */
    method EnsureProtection(hashes: set<Hash>, rf: int)
      modifies this`rows
      ensures View() == Commit(old(View()), Ensured(hashes, rf))
    {
      hide Ensure, EnsureRow;
      var saved, done := rows, {};
      EnsureNothing(rows, rf);
      while done != hashes
        invariant done <= hashes * known
        invariant rows == Ensure(old(rows), done, rf)
        decreases |hashes - done|
      {
        assert hashes - done != {};
        var h :| h in hashes - done;
        if h !in known {
          rows := saved;
          return;
        }
        EnsureOneMore(old(rows), done, h, rf);
        rows, done := rows[h := EnsureRow(Lookup(rows, h), rf)], done + {h};
      }
    }

    /** Two passes over the table: first rows that ask for too little, then rows of another
        placement. */
    method MarkStaleProtection(rf: int, epoch: Option<Epoch>)
      modifies this`rows
      ensures View() == Commit(old(View()), StaleMarked(rf, epoch))
    {
      rows := map h | h in rows ::
        if rows[h].desiredRf < rf && rows[h].state.CountsAsProtected() then rows[h].(state := DEGRADED) else rows[h];
      if epoch.Some? {
        rows := map h | h in rows ::
          if rows[h].state.CountsAsProtected() && (rows[h].epoch.None? || rows[h].epoch.value != epoch.value)
          then rows[h].(state := DEGRADED) else rows[h];
      }
      assert rows == MarkStale(old(rows), rf, epoch);
    }
  }
}
