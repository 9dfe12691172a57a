/** Replication evidence: the chunk_protection table, its transactions, and the queries that
    decide which chunks still have to be pushed. */
module Protection {
  import opened Prelude
  import opened ProtectionPolicy

  type Rows = map<Hash, Record>

  /** known is the key set of the chunks table, which protection rows must reference. */
  datatype Table = Table(known: set<Hash>, rows: Rows)

  // ---------------------------------------------------------------- who decides the states

  /** State a push run records for a number of copies placed. */
  function PushState(copies: int, required: int): ProtectionState
  {
    StateFromThresholds(copies, required, 1, PLACED, DEGRADED, FAILED)
  }

  /** State a verification run records for a number of copies confirmed. */
  function VerifyState(copies: int, required: int): ProtectionState
  {
    StateFromThresholds(copies, required, 0, VERIFIED, DEGRADED, DEGRADED)
  }

  // ---------------------------------------------------------------- transactions

  datatype Update = Update(hash: Hash, desiredRf: int, state: ProtectionState, copies: int, epoch: Option<Epoch>)
  {
    function Row(): Record { Record(desiredRf, state, copies, epoch) }
    predicate InRange() { desiredRf >= 0 && copies >= 0 }
    /** Never claims protection without the copies it asks for. */
    predicate Honest() { state.CountsAsProtected() ==> copies >= desiredRf }
  }

  /** The update a push run makes for a chunk; the one of a verification run differs only in
      the state. */
  function PushOutcome(hash: Hash, rf: int, copies: int, epoch: Option<Epoch>): Update
  {
    Update(hash, rf, PushState(copies, rf), copies, epoch)
  }

  function VerifyOutcome(hash: Hash, rf: int, copies: int, epoch: Option<Epoch>): Update
  {
    Update(hash, rf, VerifyState(copies, rf), copies, epoch)
  }

  function Upsert(rows: Rows, updates: seq<Update>): Rows
  {
    if updates == [] then rows
    else
      var u := updates[|updates| - 1];
      Upsert(rows, updates[..|updates| - 1])[u.hash := u.Row()]
  }

  predicate PushAccepts(known: set<Hash>, updates: seq<Update>)
  {
    forall u :: u in updates ==> !u.state.PENDING? && !u.state.VERIFIED? && u.InRange() && u.hash in known
  }

  predicate VerifyAccepts(known: set<Hash>, updates: seq<Update>)
  {
    forall u :: u in updates ==> (u.state.VERIFIED? || u.state.DEGRADED?) && u.InRange() && u.hash in known
  }

  /** What a backup asks of a chunk: at least rf copies from now on. */
  function EnsureRow(row: Option<Record>, rf: int): Record
  {
    if row.None? then Record(rf, PENDING, 0, None)
    else if row.value.desiredRf < rf then
      row.value.(desiredRf := rf, state := if row.value.state.CountsAsProtected() then DEGRADED else row.value.state)
    else row.value
  }

  function Lookup(rows: Rows, h: Hash): Option<Record>
  {
    if h in rows then Some(rows[h]) else None
  }

  function Ensure(rows: Rows, hashes: set<Hash>, rf: int): Rows
  {
    map h | h in rows.Keys + hashes :: if h in hashes then EnsureRow(Lookup(rows, h), rf) else rows[h]
  }

  /** Rows whose evidence was gathered for another placement. */
  predicate OtherEpoch(row: Record, epoch: Option<Epoch>)
  {
    epoch.Some? && row.epoch != epoch
  }

  function StaleRow(row: Record, rf: int, epoch: Option<Epoch>): Record
  {
    if row.state.CountsAsProtected() && (row.desiredRf < rf || OtherEpoch(row, epoch)) then row.(state := DEGRADED) else row
  }

  function MarkStale(rows: Rows, rf: int, epoch: Option<Epoch>): Rows
  {
    map h | h in rows :: StaleRow(rows[h], rf, epoch)
  }

  datatype Transaction =
    | ChunksRegistered(hashes: set<Hash>)
    | Ensured(hashes: set<Hash>, rf: int)
    | PushRecorded(updates: seq<Update>)
    | VerificationRecorded(updates: seq<Update>)
    | StaleMarked(rf: int, epoch: Option<Epoch>)

  /** Commit, or roll back when a state is not allowed, a number is negative or a chunk is
      unknown. */
  function Commit(t: Table, x: Transaction): Table
  {
    match x
    case ChunksRegistered(hashes) => t.(known := t.known + hashes)
    case Ensured(hashes, rf) => if hashes <= t.known then t.(rows := Ensure(t.rows, hashes, rf)) else t
    case PushRecorded(us) => if PushAccepts(t.known, us) then t.(rows := Upsert(t.rows, us)) else t
    case VerificationRecorded(us) => if VerifyAccepts(t.known, us) then t.(rows := Upsert(t.rows, us)) else t
    case StaleMarked(rf, epoch) => t.(rows := MarkStale(t.rows, rf, epoch))
  }

  function Run(t: Table, xs: seq<Transaction>): Table
    decreases xs
  {
    if xs == [] then t else Commit(Run(t, xs[..|xs| - 1]), xs[|xs| - 1])
  }

  const EMPTY := Table({}, map[])

  // ---------------------------------------------------------------- selection

  /** The condition of the pending query, clause by clause. */
  predicate Pending(row: Record, rf: int, epoch: Option<Epoch>)
  {
    || row.state.PENDING? || row.state.DEGRADED? || row.state.FAILED?
    || row.desiredRf < rf
    || (epoch.Some? && row.state.CountsAsProtected() && (row.epoch.None? || row.epoch.value != epoch.value))
  }

  function Selected(rows: Rows, rf: int, epoch: Option<Epoch>): set<Hash>
  {
    set h | h in rows && Pending(rows[h], rf, epoch)
  }

  /** The same query restricted to a list of chunks. */
  function SelectedIn(rows: Rows, hashes: set<Hash>, rf: int, epoch: Option<Epoch>): set<Hash>
  {
    set h | h in hashes && h in rows && Pending(rows[h], rf, epoch)
  }

  // ---------------------------------------------------------------- evidence over runs

  predicate HasEvidence(row: Record) { row.state.CountsAsProtected() ==> row.copies >= row.desiredRf }

  ghost predicate Inv(t: Table)
  {
    t.rows.Keys <= t.known && forall h :: h in t.rows ==> HasEvidence(t.rows[h])
  }

  predicate HonestTransaction(x: Transaction)
  {
    match x
    case PushRecorded(us) => forall u :: u in us ==> u.Honest()
    case VerificationRecorded(us) => forall u :: u in us ==> u.Honest()
    case _ => true
  }

  /** Everything the push and verification runs record is honest, whatever they observed. */
  lemma OutcomesAreHonest(hash: Hash, rf: int, copies: int, epoch: Option<Epoch>)
    ensures PushOutcome(hash, rf, copies, epoch).Honest()
    ensures VerifyOutcome(hash, rf, copies, epoch).Honest()
    ensures PushOutcome(hash, rf, copies, epoch).state.CountsAsProtected() <==> copies >= rf
    ensures VerifyOutcome(hash, rf, copies, epoch).state.CountsAsProtected() <==> copies >= rf
  {
  }

  /** The row of h after the updates: the last one for it, or what was there. */
  function LastFor(updates: seq<Update>, h: Hash): Option<Update>
  {
    if updates == [] then None
    else if updates[|updates| - 1].hash == h then Some(updates[|updates| - 1])
    else LastFor(updates[..|updates| - 1], h)
  }

  lemma {:induction false} UpsertMeaning(rows: Rows, updates: seq<Update>, h: Hash)
    ensures var last := LastFor(updates, h);
            Lookup(Upsert(rows, updates), h) == if last.Some? then Some(last.value.Row()) else Lookup(rows, h)
    ensures LastFor(updates, h).Some? <==> exists u :: u in updates && u.hash == h
    ensures LastFor(updates, h).Some? ==> LastFor(updates, h).value in updates && LastFor(updates, h).value.hash == h
  {
    if updates != [] {
      var front, last := updates[..|updates| - 1], updates[|updates| - 1];
      UpsertMeaning(rows, front, h);
      assert forall u :: u in updates <==> u in front || u == last by {
        assert updates == front + [last];
      }
    }
  }

  lemma UpsertKeepsInv(t: Table, updates: seq<Update>)
    requires Inv(t) && (forall u :: u in updates ==> u.Honest() && u.hash in t.known)
    ensures Inv(t.(rows := Upsert(t.rows, updates)))
  {
    hide Upsert, LastFor;
    var rows := Upsert(t.rows, updates);
    forall h | h in rows ensures h in t.known && HasEvidence(rows[h]) {
      UpsertMeaning(t.rows, updates, h);
    }
  }

  lemma CommitKeepsInv(t: Table, x: Transaction)
    requires Inv(t) && HonestTransaction(x)
    ensures Inv(Commit(t, x))
  {
    hide Upsert;
    match x
    case PushRecorded(us) => if PushAccepts(t.known, us) { UpsertKeepsInv(t, us); }
    case VerificationRecorded(us) => if VerifyAccepts(t.known, us) { UpsertKeepsInv(t, us); }
    case _ =>
  }

  lemma {:induction false} RunKeepsInv(xs: seq<Transaction>)
    requires forall x :: x in xs ==> HonestTransaction(x)
    ensures Inv(Run(EMPTY, xs))
  {
    if xs != [] {
      hide Inv, Commit, HonestTransaction;
      assert xs[|xs| - 1] in xs;
      RunKeepsInv(xs[..|xs| - 1]);
      CommitKeepsInv(Run(EMPTY, xs[..|xs| - 1]), xs[|xs| - 1]);
    } else {
      assert Inv(EMPTY);
    }
  }

  // ---------------------------------------------------------------- selection is exact

  /** In terms of the columns: a row has the copies, or shows in its state, requested factor or
      epoch that it has not; at factor zero, where nothing is required, it shows nothing of the
      kind. */
  predicate ColumnsTell(row: Record, rf: nat, epoch: Option<Epoch>)
  {
    if rf == 0 then row.state.CountsAsProtected() && row.desiredRf >= 0 && (epoch.Some? ==> row.epoch == epoch)
    else || row.copies >= rf || !row.state.CountsAsProtected() || row.desiredRf < rf
         || (epoch.Some? && row.epoch != epoch)
  }

  /** On any table, reachable or not, and for any factor and epoch: the push queue is exactly the
      set of rows whose evidence is not sufficient if and only if the columns of every row tell. */
  lemma ComplementExactly(rows: Rows, rf: nat, epoch: Option<Epoch>)
    ensures Selected(rows, rf, epoch) == (set h | h in rows && !Sufficient(Some(rows[h]), rf, epoch))
            <==> forall h :: h in rows ==> ColumnsTell(rows[h], rf, epoch)
  {
    hide Pending, Sufficient, ColumnsTell;
    forall h | h in rows
      ensures (Pending(rows[h], rf, epoch) <==> !Sufficient(Some(rows[h]), rf, epoch)) <==> ColumnsTell(rows[h], rf, epoch)
    {
      RowComplementExactly(rows[h], rf, epoch);
    }
    var queue, open := Selected(rows, rf, epoch), set h | h in rows && !Sufficient(Some(rows[h]), rf, epoch);
    assert forall h :: h in rows ==> (h in queue <==> Pending(rows[h], rf, epoch));
    assert forall h :: h in rows ==> (h in open <==> !Sufficient(Some(rows[h]), rf, epoch));
    assert (forall h :: h in rows ==> (h in queue <==> h in open)) <==> queue == open;
  }

  lemma RowComplementExactly(row: Record, rf: nat, epoch: Option<Epoch>)
    ensures (Pending(row, rf, epoch) <==> !Sufficient(Some(row), rf, epoch)) <==> ColumnsTell(row, rf, epoch)
  {
  }

  /** In every reachable state, for every factor of at least one and every optional epoch, the
      push queue holds exactly the recorded chunks whose evidence is not sufficient. */
  lemma SelectionIsComplement(xs: seq<Transaction>, rf: nat, epoch: Option<Epoch>)
    requires rf >= 1 && forall x :: x in xs ==> HonestTransaction(x)
    ensures var rows := Run(EMPTY, xs).rows;
            Selected(rows, rf, epoch) == set h | h in rows && !Sufficient(Some(rows[h]), rf, epoch)
  {
    hide Run, HonestTransaction;
    RunKeepsInv(xs);
  }

  /** A factor of zero is always sufficient, yet a fresh row is selected. */
  lemma ZeroFactorStillSelects(h: Hash)
    ensures var xs := [ChunksRegistered({h}), Ensured({h}, 0)];
            var rows := Run(EMPTY, xs).rows;
            h in Selected(rows, 0, None) && h in rows && Sufficient(Some(rows[h]), 0, None)
  {
    var x, y := ChunksRegistered({h}), Ensured({h}, 0);
    var xs := [x, y];
    assert xs[..1] == [x] && [x][..0] == [];
    assert Run(EMPTY, [x]) == Table({h}, map[]);
    assert Run(EMPTY, xs) == Commit(Run(EMPTY, [x]), y);
  }

  /** A dishonest placement hides a chunk from the queue although nobody may trust it. */
  lemma DishonestUpdateHidesChunk(h: Hash)
    ensures var xs := [ChunksRegistered({h}), PushRecorded([Update(h, 3, PLACED, 0, None)])];
            var rows := Run(EMPTY, xs).rows;
            h !in Selected(rows, 3, None) && h in rows && !Sufficient(Some(rows[h]), 3, None)
  {
    var u := Update(h, 3, PLACED, 0, None);
    var x, y := ChunksRegistered({h}), PushRecorded([u]);
    var xs := [x, y];
    assert xs[..1] == [x] && [x][..0] == [];
    assert Run(EMPTY, [x]) == Table({h}, map[]);
    assert [u][..0] == [];
    assert Upsert(map[], [u]) == map[h := u.Row()];
    assert Run(EMPTY, xs) == Commit(Run(EMPTY, [x]), y);
  }

  /** Marking stale rows first never changes what is selected, on any table at all. */
  lemma MarkingStaleChangesNoSelection(rows: Rows, rf: int, epoch: Option<Epoch>)
    ensures Selected(MarkStale(rows, rf, epoch), rf, epoch) == Selected(rows, rf, epoch)
  {
    var marked := MarkStale(rows, rf, epoch);
    forall h | h in rows ensures Pending(marked[h], rf, epoch) <==> Pending(rows[h], rf, epoch) {
    }
  }

  /** After marking, the state alone decides: a row is selected exactly when it does not count
      as protected. */
  lemma MarkedStateDecides(rows: Rows, rf: int, epoch: Option<Epoch>)
    ensures Selected(MarkStale(rows, rf, epoch), rf, epoch)
            == set h | h in rows && !MarkStale(rows, rf, epoch)[h].state.CountsAsProtected()
  {
    var marked := MarkStale(rows, rf, epoch);
    forall h | h in rows
      ensures Pending(marked[h], rf, epoch) <==> !marked[h].state.CountsAsProtected()
    {
    }
  }

  /** The scoped query is the whole queue cut down to the scope. */
  lemma ScopedIsRestriction(rows: Rows, hashes: set<Hash>, rf: int, epoch: Option<Epoch>)
    ensures SelectedIn(rows, hashes, rf, epoch) == Selected(rows, rf, epoch) * hashes
  {
  }

  // ---------------------------------------------------------------- a push run

  /** One outcome for each selected chunk and for nothing else. */
  ghost predicate Covers(outcomes: map<Hash, nat>, updates: seq<Update>, rf: int, epoch: Option<Epoch>)
  {
    && (forall u :: u in updates ==> u.hash in outcomes && u == PushOutcome(u.hash, rf, outcomes[u.hash], epoch))
    && (forall h :: h in outcomes ==> exists u :: u in updates && u.hash == h)
  }

  lemma PushedRow(rows: Rows, outcomes: map<Hash, nat>, updates: seq<Update>, rf: int, epoch: Option<Epoch>, h: Hash)
    requires Covers(outcomes, updates, rf, epoch)
    ensures Lookup(Upsert(rows, updates), h)
            == if h in outcomes then Some(PushOutcome(h, rf, outcomes[h], epoch).Row()) else Lookup(rows, h)
  {
    hide Upsert, LastFor, PushOutcome;
    UpsertMeaning(rows, updates, h);
  }

  /** A whole push run, whatever the remote nodes did: mark, select, record one outcome for
      each selected chunk. What is left in the queue is exactly the selected chunks that did
      not reach rf copies; chunks outside the selection keep their rows. */
  lemma PushRunLeavesExactlyFailures(rows: Rows, outcomes: map<Hash, nat>, updates: seq<Update>, rf: nat, epoch: Option<Epoch>)
    requires outcomes.Keys == Selected(rows, rf, epoch) && Covers(outcomes, updates, rf, epoch)
    ensures var after := Upsert(MarkStale(rows, rf, epoch), updates);
            && Selected(after, rf, epoch) == (set h | h in outcomes && outcomes[h] < rf)
            && after.Keys == rows.Keys
            && forall h :: h in rows && h !in outcomes ==> after[h] == rows[h]
  {
    hide Upsert, Covers;
    var marked := MarkStale(rows, rf, epoch);
    var after := Upsert(marked, updates);
    forall h
      ensures (h in after <==> h in rows)
      ensures h in rows && h !in outcomes ==> after[h] == rows[h]
      ensures h in rows ==> (Pending(after[h], rf, epoch) <==> h in outcomes && outcomes[h] < rf)
    {
      PushedRow(marked, outcomes, updates, rf, epoch, h);
      assert h in rows && h !in outcomes ==> !Pending(rows[h], rf, epoch);
    }
  }

  // ---------------------------------------------------------------- monotone requests

  /** A backup never lowers what is asked for a chunk and never adds trust; a chunk it covers
      asks for at least rf afterwards. */
  lemma EnsureIsMonotone(rows: Rows, hashes: set<Hash>, rf: nat, h: Hash, required: nat, epoch: Option<Epoch>)
    requires h in rows
    ensures h in Ensure(rows, hashes, rf)
    ensures Ensure(rows, hashes, rf)[h].desiredRf >= rows[h].desiredRf
    ensures h in hashes ==> Ensure(rows, hashes, rf)[h].desiredRf >= rf
    ensures Sufficient(Some(Ensure(rows, hashes, rf)[h]), required, epoch) ==> Sufficient(Some(rows[h]), required, epoch)
  {
  }

  /** A push may lower it again. */
  lemma PushMayLower(h: Hash)
    ensures var rows := map[h := Record(5, PENDING, 0, None)];
            Upsert(rows, [PushOutcome(h, 3, 3, None)])[h].desiredRf < rows[h].desiredRf
  {
    var u := PushOutcome(h, 3, 3, None);
    assert [u][..0] == [];
  }
}
