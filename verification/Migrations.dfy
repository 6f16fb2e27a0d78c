/**
 The migration runner (scripts/migration_runner.py): prefix validation, success-last
 recording and the head checksum. The database client, the migration files and other
 database users are an arbitrary `World`; the tables are a value, so that a campaign of
 failing and retried attempts can be spoken about.
 */
module Migrations {
  import opened Wrappers
  import opened Encoding
  import opened Histories

  datatype Migration = Migration(
    id: Blob, sequence: Column, description: Blob,
    applyChecksum: Blob, verifyChecksum: Blob, compatibility: Blob)

  datatype Manifest = Manifest(runnerVersion: Column, migrations: seq<Migration>)

  /** What `load_manifest` has established: sequences count from one, identifiers differ. */
  ghost predicate Loaded(manifest: Manifest) {
    && (forall i | 0 <= i < |manifest.migrations| :: manifest.migrations[i].sequence == i + 1)
    && forall i, j | 0 <= i < j < |manifest.migrations| :: manifest.migrations[i].id != manifest.migrations[j].id
  }

  function RowOf(manifest: Manifest, migration: Migration): AppliedMigration {
    AppliedMigration(migration.id, migration.sequence, migration.description, migration.applyChecksum,
                     migration.verifyChecksum, migration.compatibility, manifest.runnerVersion)
  }

  /** The history a finished run would have recorded. */
  function FullHistory(manifest: Manifest): (r: seq<AppliedMigration>)
    ensures |r| == |manifest.migrations|
    ensures forall i | 0 <= i < |r| :: r[i] == RowOf(manifest, manifest.migrations[i])
  {
    seq(|manifest.migrations|, i requires 0 <= i < |manifest.migrations| => RowOf(manifest, manifest.migrations[i]))
  }

  // ----- tables -----

  datatype Head = Head(count: int, checksum: Digest)

  /** `mud_schema_history` in sequence order, and the single state row if it is there. */
  datatype Database = Database(rows: seq<AppliedMigration>, head: Option<Head>)

  /** `validate_history_state` on what `applied` reads. */
  predicate Consistent(hash: Hash, db: Database) {
    db.head == Some(Head(|db.rows|, HistoryChecksumOf(hash, db.rows)))
  }

  /** Both table keys are unique: an insert that repeats either is an error. */
  predicate Collides(rows: seq<AppliedMigration>, row: AppliedMigration) {
    exists other | other in rows :: other.id == row.id || other.sequence == row.sequence
  }

  /** Where `ORDER BY sequence_number` shows the new row. */
  function Inserted(rows: seq<AppliedMigration>, row: AppliedMigration): (r: seq<AppliedMigration>)
    ensures |r| == |rows| + 1 && row in r
    ensures (forall other | other in rows :: other.sequence < row.sequence) ==> r == rows + [row]
  {
    if rows == [] then [row]
    else if row.sequence < rows[0].sequence then [row] + rows
    else
      assert rows == [rows[0]] + rows[1..];
      [rows[0]] + Inserted(rows[1..], row)
  }

  /**
   The transaction of `record`, issued after `existing` was read. The insert is committed
   even when the conditional update of the head touches no row.
   */
  function Transaction(hash: Hash, db: Database, existing: seq<AppliedMigration>, row: AppliedMigration)
    : (Database, bool)
  {
    if Collides(db.rows, row) then (db, false)
    else if db.head == Some(Head(|existing|, HistoryChecksumOf(hash, existing))) then
      (Database(Inserted(db.rows, row), Some(Head(row.sequence, HistoryChecksumOf(hash, existing + [row])))), true)
    else (Database(Inserted(db.rows, row), db.head), false)
  }

  // ----- one attempt -----

  /** A database command may work, fail without effect, or take effect and lose its reply. */
  datatype Fate = Works | FailsBefore | LosesReply

  /** Everything the runner does not control during one attempt. */
  datatype World = World(
    lock: bool, baseline: bool, applies: nat -> bool, verifies: nat -> bool, fate: nat -> Fate,
    start: Database -> Database, meanwhile: (nat, Database) -> Database, race: (nat, Database) -> Database)

  /** The migration lock keeps its promise: nobody else writes during the attempt. */
  ghost predicate Exclusive(w: World) {
    && (forall db :: w.start(db) == db)
    && (forall i, db :: w.meanwhile(i, db) == db) && (forall i, db :: w.race(i, db) == db)
  }

  datatype Event =
    | Acquired
    | Released
    | ApplyCall(id: Blob, ok: bool)
    | VerifyCall(id: Blob, ok: bool)
    | RecordCall(id: Blob, ok: bool)

  datatype Failure =
    | LockUnavailable
    | BaselineStale
    | HistoryInvalid
    | BeyondManifest
    | HistoryEdited
    | ApplyFailed(id: Blob)
    | VerifyFailed(id: Blob)
    | RecordFailed(id: Blob)

  datatype Outcome = Outcome(db: Database, events: seq<Event>, result: Result<seq<Blob>, Failure>)

  /** `MysqlExecutor.record` */
  function RecordStep(hash: Hash, manifest: Manifest, w: World, db: Database, i: nat): (Database, bool)
    requires i < |manifest.migrations|
  {
    var seen := w.meanwhile(i, db);
    if !Consistent(hash, seen) then (seen, false)
    else
      var now := w.race(i, seen);
      if w.fate(i).FailsBefore? then (now, false)
      else
        var (after, ok) := Transaction(hash, now, seen.rows, RowOf(manifest, manifest.migrations[i]));
        (after, ok && w.fate(i).Works?)
  }

  /** One migration: apply, verify, and record only then. */
  function Migrate(hash: Hash, manifest: Manifest, w: World, db: Database, i: nat): Outcome
    requires i < |manifest.migrations|
  {
    var id := manifest.migrations[i].id;
    if !w.applies(i) then Outcome(db, [ApplyCall(id, false)], Err(ApplyFailed(id)))
    else if !w.verifies(i) then Outcome(db, [ApplyCall(id, true), VerifyCall(id, false)], Err(VerifyFailed(id)))
    else
      var (recorded, ok) := RecordStep(hash, manifest, w, db, i);
      Outcome(recorded, [ApplyCall(id, true), VerifyCall(id, true), RecordCall(id, ok)],
              if ok then Ok([id]) else Err(RecordFailed(id)))
  }

  /** The loop of `run_pending` from the migration at index `i` on. */
  function RunFrom(hash: Hash, manifest: Manifest, w: World, db: Database, i: nat): Outcome
    requires i <= |manifest.migrations|
    decreases |manifest.migrations| - i
  {
    if i == |manifest.migrations| then Outcome(db, [], Ok([]))
    else
      var one := Migrate(hash, manifest, w, db, i);
      if one.result.Err? then one
      else Preceded(one.events, one.result.value, RunFrom(hash, manifest, w, one.db, i + 1))
  }

  /** `outcome` of the remaining work, after some work already done. */
  function Preceded(events: seq<Event>, completed: seq<Blob>, outcome: Outcome): Outcome {
    Outcome(outcome.db, events + outcome.events,
            match outcome.result case Ok(more) => Ok(completed + more) case Err(e) => Err(e))
  }

  lemma {:induction false} PrecededByNothing(outcome: Outcome)
    ensures Preceded([], [], outcome) == outcome
  {
    assert [] + outcome.events == outcome.events;
    assert outcome.result.Ok? ==> [] + outcome.result.value == outcome.result.value;
  }

  lemma {:induction false} PrecededTwice(a: seq<Event>, b: seq<Event>, x: seq<Blob>, y: seq<Blob>, outcome: Outcome)
    ensures Preceded(a, x, Preceded(b, y, outcome)) == Preceded(a + b, x + y, outcome)
  {
    assert a + (b + outcome.events) == a + b + outcome.events;
    assert outcome.result.Ok? ==> x + (y + outcome.result.value) == x + y + outcome.result.value;
  }

  /** `validate_applied_prefix`: the number of applied migrations, or the refusal. */
  function PrefixCheck(manifest: Manifest, applied: seq<AppliedMigration>): Result<nat, Failure> {
    if |applied| > |manifest.migrations| then Err(BeyondManifest)
    else if applied <= FullHistory(manifest) then Ok(|applied|)
    else Err(HistoryEdited)
  }

  /** `run_pending` */
  function Attempt(hash: Hash, manifest: Manifest, w: World, db: Database): Outcome {
    if !w.lock then Outcome(db, [], Err(LockUnavailable))
    else if !w.baseline then Outcome(db, [Acquired, Released], Err(BaselineStale))
    else
      var seen := w.start(db);
      if !Consistent(hash, seen) then Outcome(seen, [Acquired, Released], Err(HistoryInvalid))
      else
        match PrefixCheck(manifest, seen.rows)
        case Err(e) => Outcome(seen, [Acquired, Released], Err(e))
        case Ok(i) =>
          var run := RunFrom(hash, manifest, w, seen, i);
          run.(events := [Acquired] + run.events + [Released])
  }

  // ----- the executor and the runner -----

  class Executor {
    const hash: Hash
    const manifest: Manifest
    const world: World
    var db: Database
    var events: seq<Event>

    constructor (hash: Hash, manifest: Manifest, world: World, db: Database)
      ensures this.hash == hash && this.manifest == manifest && this.world == world
      ensures this.db == db && events == []
    {
      this.hash, this.manifest, this.world, this.db, events := hash, manifest, world, db, [];
    }

    method AcquireLock() returns (ok: bool)
      modifies this`events
      ensures ok == world.lock && events == old(events) + if ok then [Acquired] else []
    {
      if world.lock {
        events := events + [Acquired];
      }
      return world.lock;
    }

    method ReleaseLock()
      modifies this`events
      ensures events == old(events) + [Released]
    {
      events := events + [Released];
    }

    /** `applied`, as the tables are at this moment. */
    method Applied() returns (rows: Option<seq<AppliedMigration>>)
      ensures rows == if Consistent(hash, db) then Some(db.rows) else None
    {
      var checksum := HistoryChecksum(hash, db.rows);
      if db.head.None? || db.head.value.count != |db.rows| || db.head.value.checksum != checksum {
        return None;
      }
      return Some(db.rows);
    }

    method Apply(i: nat) returns (ok: bool)
      requires i < |manifest.migrations|
      modifies this`events
      ensures ok == world.applies(i) && events == old(events) + [ApplyCall(manifest.migrations[i].id, ok)]
    {
      ok := world.applies(i);
      events := events + [ApplyCall(manifest.migrations[i].id, ok)];
    }

    method Verify(i: nat) returns (ok: bool)
      requires i < |manifest.migrations|
      modifies this`events
      ensures ok == world.verifies(i) && events == old(events) + [VerifyCall(manifest.migrations[i].id, ok)]
    {
      ok := world.verifies(i);
      events := events + [VerifyCall(manifest.migrations[i].id, ok)];
    }

    method Record(i: nat) returns (ok: bool)
      requires i < |manifest.migrations|
      modifies this
      ensures (db, ok) == RecordStep(hash, manifest, world, old(db), i)
      ensures events == old(events) + [RecordCall(manifest.migrations[i].id, ok)]
    {
      ok := false;
      db := world.meanwhile(i, db);
      var existing := Applied();
      if existing.Some? {
        var before := HistoryChecksum(hash, existing.value);
        var row := RowOf(manifest, manifest.migrations[i]);
        var after := HistoryChecksum(hash, existing.value + [row]);
        db := world.race(i, db);
        if !world.fate(i).FailsBefore? && !Collides(db.rows, row) {
          var matches := db.head == Some(Head(|existing.value|, before));
          db := Database(Inserted(db.rows, row), if matches then Some(Head(row.sequence, after)) else db.head);
          ok := matches && world.fate(i).Works?;
        }
      }
      events := events + [RecordCall(manifest.migrations[i].id, ok)];
    }
  }

  /** `validate_applied_prefix` as the loop it is. */
  method ValidateAppliedPrefix(manifest: Manifest, applied: seq<AppliedMigration>)
    returns (result: Result<nat, Failure>)
    ensures result == PrefixCheck(manifest, applied)
    ensures result.Ok? <==> applied <= FullHistory(manifest)
  {
    if |applied| > |manifest.migrations| {
      return Err(BeyondManifest);
    }
    for i := 0 to |applied|
      invariant applied[..i] == FullHistory(manifest)[..i]
    {
      if applied[i] != RowOf(manifest, manifest.migrations[i]) {
        assert applied[i] != FullHistory(manifest)[i];
        return Err(HistoryEdited);
      }
    }
    assert applied == applied[..|applied|];
    return Ok(|applied|);
  }

  /** `run_pending` over an executor. */
  method RunPending(executor: Executor) returns (result: Result<seq<Blob>, Failure>)
    requires executor.events == []
    modifies executor
    ensures Outcome(executor.db, executor.events, result) ==
            Attempt(executor.hash, executor.manifest, executor.world, old(executor.db))
  {
    hide HistoryChecksumOf, RecordStep;
    var locked := executor.AcquireLock();
    if !locked {
      return Err(LockUnavailable);
    }
    if !executor.world.baseline {
      executor.ReleaseLock();
      return Err(BaselineStale);
    }
    executor.db := executor.world.start(executor.db);
    var applied := executor.Applied();
    if applied.None? {
      executor.ReleaseLock();
      return Err(HistoryInvalid);
    }
    var checked := ValidateAppliedPrefix(executor.manifest, applied.value);
    if checked.Err? {
      executor.ReleaseLock();
      return Err(checked.error);
    }
    result := RunLoop(executor, checked.value);
    executor.ReleaseLock();
  }

  /** The body of the loop over the pending migrations. */
  method MigrateOne(executor: Executor, i: nat) returns (result: Result<seq<Blob>, Failure>)
    requires i < |executor.manifest.migrations|
    modifies executor
    ensures var one := Migrate(executor.hash, executor.manifest, executor.world, old(executor.db), i);
            executor.db == one.db && executor.events == old(executor.events) + one.events && result == one.result
  {
    hide RecordStep;
    var id := executor.manifest.migrations[i].id;
    var ok := executor.Apply(i);
    if !ok {
      return Err(ApplyFailed(id));
    }
    ok := executor.Verify(i);
    if !ok {
      assert executor.events == old(executor.events) + [ApplyCall(id, true), VerifyCall(id, false)];
      return Err(VerifyFailed(id));
    }
    ok := executor.Record(i);
    assert executor.events == old(executor.events) + [ApplyCall(id, true), VerifyCall(id, true), RecordCall(id, ok)];
    return if ok then Ok([id]) else Err(RecordFailed(id));
  }

  /** The loop over the pending migrations. */
  method RunLoop(executor: Executor, first: nat) returns (result: Result<seq<Blob>, Failure>)
    requires first <= |executor.manifest.migrations|
    modifies executor
    ensures var run := RunFrom(executor.hash, executor.manifest, executor.world, old(executor.db), first);
            executor.db == run.db && executor.events == old(executor.events) + run.events && result == run.result
  {
    hide Migrate;
    var hash, manifest, world := executor.hash, executor.manifest, executor.world;
    ghost var before := executor.events;
    ghost var target := RunFrom(hash, manifest, world, executor.db, first);
    ghost var done: seq<Event> := [];
    var completed: seq<Blob> := [];
    PrecededByNothing(target);
    for i := first to |manifest.migrations|
      invariant executor.events == before + done
      invariant target == Preceded(done, completed, RunFrom(hash, manifest, world, executor.db, i))
    {
      ghost var one := Migrate(hash, manifest, world, executor.db, i);
      var migrated := MigrateOne(executor, i);
      assert executor.events == before + (done + one.events);
      if migrated.Err? {
        return migrated;
      }
      PrecededTwice(done, one.events, completed, migrated.value, RunFrom(hash, manifest, world, executor.db, i + 1));
      completed := completed + migrated.value;
      done := done + one.events;
    }
    assert done + [] == done && completed + [] == completed;
    return Ok(completed);
  }

  // ----- what recording does -----

  /** The hash does not collide on the histories a record of `row` over `existing` compares. */
  ghost predicate Comparable(hash: Hash, existing: seq<AppliedMigration>, now: Database, row: AppliedMigration) {
    Distinguishes(hash, {HistoryInput(existing), HistoryInput(now.rows), HistoryInput(existing + [row]),
                         HistoryInput(Inserted(now.rows, row))})
  }

  lemma {:induction false} ComparedHistories(hash: Hash, existing: seq<AppliedMigration>, now: Database,
                                             row: AppliedMigration)
    requires Comparable(hash, existing, now, row)
    ensures HistoryChecksumOf(hash, existing) == HistoryChecksumOf(hash, now.rows) <==> existing == now.rows
    ensures HistoryChecksumOf(hash, existing + [row]) == HistoryChecksumOf(hash, Inserted(now.rows, row)) <==>
            existing + [row] == Inserted(now.rows, row)
  {
    hide HistoryInput, Inserted, HistoryChecksumOf;
    HistoryChecksumIdentifies(hash, existing, now.rows);
    HistoryChecksumIdentifies(hash, existing + [row], Inserted(now.rows, row));
  }

  /**
   A successful record over consistent tables was not raced: the history was the one that
   was read. The tables stay consistent exactly if the new row is next in sequence.
   */
  lemma {:induction false} RecordedWithoutRace(hash: Hash, now: Database, existing: seq<AppliedMigration>,
                                               row: AppliedMigration)
    requires Consistent(hash, now) && Transaction(hash, now, existing, row).1
    requires Comparable(hash, existing, now, row)
    ensures now.rows == existing
    ensures Consistent(hash, Transaction(hash, now, existing, row).0) <==>
            row.sequence == |existing| + 1 && Inserted(existing, row) == existing + [row]
  {
    hide HistoryChecksumOf, Inserted, Comparable;
    ComparedHistories(hash, existing, now, row);
  }

  /** A record that lost the race has committed its row without moving the head: the two disagree from then on. */
  lemma {:induction false} LostRecordPoisons(hash: Hash, now: Database, existing: seq<AppliedMigration>,
                                             row: AppliedMigration)
    requires Consistent(hash, now) && !Collides(now.rows, row)
    requires !Transaction(hash, now, existing, row).1
    ensures !Consistent(hash, Transaction(hash, now, existing, row).0)
    ensures row in Transaction(hash, now, existing, row).0.rows
  {
    hide HistoryChecksumOf;
  }

  /** `row` continues the history: it is next in number and sorts last. */
  predicate IsNext(existing: seq<AppliedMigration>, row: AppliedMigration) {
    row.sequence == |existing| + 1 && forall other | other in existing :: other.sequence < row.sequence
  }

  /**
   The transaction of a row that continues the history which was read, over tables somebody
   else may have written meanwhile: it leaves consistent tables exactly if they already hold
   that row's id or number, or still hold the history that was read.
   */
  lemma {:induction false} TransactionKeepsTablesIff(hash: Hash, now: Database, existing: seq<AppliedMigration>,
                                                     row: AppliedMigration)
    requires Consistent(hash, now) && IsNext(existing, row) && Comparable(hash, existing, now, row)
    ensures Consistent(hash, Transaction(hash, now, existing, row).0) <==>
              Collides(now.rows, row) || now.rows == existing
  {
    hide HistoryChecksumOf, Inserted, Comparable;
    if Transaction(hash, now, existing, row).1 {
      RecordedWithoutRace(hash, now, existing, row);
    } else if !Collides(now.rows, row) {
      LostRecordPoisons(hash, now, existing, row);
    }
    ComparedHistories(hash, existing, now, row);
  }

  /** Rows numbered from one, as the runner records them. */
  ghost predicate Consecutive(rows: seq<AppliedMigration>) {
    forall i | 0 <= i < |rows| :: rows[i].sequence == i + 1
  }

  /**
   A runner that merely got ahead does no harm: over a consecutively numbered history longer
   than the one that was read the insert is refused and the tables stay as they are.
   */
  lemma {:induction false} GettingAheadIsHarmless(hash: Hash, now: Database, existing: seq<AppliedMigration>,
                                                  row: AppliedMigration)
    requires Consecutive(now.rows) && row.sequence == |existing| + 1 && |existing| < |now.rows|
    ensures Transaction(hash, now, existing, row) == (now, false)
  {
    hide HistoryChecksumOf;
    assert now.rows[|existing|] in now.rows;
  }

  /**
   The same for the whole of `record` at the end of a recorded prefix, whoever writes
   between its read and its transaction.
   */
  lemma {:induction false} RecordKeepsTablesIff(hash: Hash, manifest: Manifest, w: World, db: Database, n: nat)
    requires Loaded(manifest) && n < |manifest.migrations|
    requires AtPrefix(hash, manifest, w.meanwhile(n, db), n)
    requires var seen := w.meanwhile(n, db);
             Consistent(hash, w.race(n, seen))
             && Comparable(hash, seen.rows, w.race(n, seen), RowOf(manifest, manifest.migrations[n]))
    ensures var seen := w.meanwhile(n, db);
            var now := w.race(n, seen);
            Consistent(hash, RecordStep(hash, manifest, w, db, n).0) <==>
            w.fate(n).FailsBefore? || Collides(now.rows, RowOf(manifest, manifest.migrations[n]))
                || now.rows == seen.rows
  {
    var seen, row := w.meanwhile(n, db), RowOf(manifest, manifest.migrations[n]);
    assert IsNext(seen.rows, row) by {
      forall other | other in seen.rows
        ensures other.sequence < row.sequence
      {
        var i :| 0 <= i < n && seen.rows[i] == other;
        assert other == RowOf(manifest, manifest.migrations[i]);
      }
    }
    TransactionKeepsTablesIff(hash, w.race(n, seen), seen.rows, row);
    hide Comparable, AtPrefix, IsNext, HistoryChecksumOf, Transaction;
  }

  /** Such an input: somebody clears the history between the read and the transaction of a record. */
  lemma {:induction false} ClearedHistoryIsPoisoned(hash: Hash, manifest: Manifest, w: World, db: Database, n: nat)
    requires 0 < n < |manifest.migrations| && Consistent(hash, w.meanwhile(n, db)) && |w.meanwhile(n, db).rows| == n
    requires w.race(n, w.meanwhile(n, db)) == Database([], Some(Head(0, HistoryChecksumOf(hash, []))))
    requires !w.fate(n).FailsBefore?
    ensures Consistent(hash, w.race(n, w.meanwhile(n, db)))
    ensures !Consistent(hash, RecordStep(hash, manifest, w, db, n).0) && !RecordStep(hash, manifest, w, db, n).1
  {
    hide HistoryChecksumOf;
  }

  /** And there is one: a manifest of two migrations, the first recorded, under any hash. */
  lemma {:induction false} PoisonExists(hash: Hash) returns (manifest: Manifest, w: World, db: Database)
    ensures Loaded(manifest) && 1 < |manifest.migrations| && AtPrefix(hash, manifest, db, 1) && w.meanwhile(1, db) == db
    ensures Consistent(hash, w.race(1, db)) && !Consistent(hash, RecordStep(hash, manifest, w, db, 1).0)
  {
    hide HistoryChecksumOf;
    var first, second := Migration([1], 1, [], [], [], []), Migration([2], 2, [], [], [], []);
    manifest := Manifest(1, [first, second]);
    db := Database([RowOf(manifest, first)], Some(Head(1, HistoryChecksumOf(hash, [RowOf(manifest, first)]))));
    var cleared := Database([], Some(Head(0, HistoryChecksumOf(hash, []))));
    w := World(true, true, _ => true, _ => true, _ => Works, other => other, (_, other) => other, (_, _) => cleared);
    assert FullHistory(manifest)[..1] == db.rows;
    ClearedHistoryIsPoisoned(hash, manifest, w, db, 1);
  }

  /** Tables that disagree stop every later attempt before its first apply, and no attempt changes them. */
  lemma {:induction false} PoisonedForever(hash: Hash, manifest: Manifest, worlds: seq<World>, db: Database)
    requires !Consistent(hash, db) && forall w | w in worlds :: Exclusive(w)
    ensures Campaign(hash, manifest, worlds, db) == db
    ensures forall w | w in worlds && w.lock && w.baseline ::
              Attempt(hash, manifest, w, db) == Outcome(db, [Acquired, Released], Err(HistoryInvalid))
  {
    hide Consistent;
    if worlds != [] {
      assert worlds[0] in worlds;
      assert forall w | w in worlds[1..] :: w in worlds;
      PoisonedForever(hash, manifest, worlds[1..], db);
    }
  }

  // ----- attempts under the lock -----

  /** The tables after a sequence of attempts, whatever each of them returned. */
  function Campaign(hash: Hash, manifest: Manifest, worlds: seq<World>, db: Database): Database
    decreases |worlds|
  {
    if worlds == [] then db
    else Campaign(hash, manifest, worlds[1..], Attempt(hash, manifest, worlds[0], db).db)
  }

  /** The recorded history is the manifest's first `n` migrations. */
  predicate AtPrefix(hash: Hash, manifest: Manifest, db: Database, n: nat) {
    n <= |manifest.migrations| && db.rows == FullHistory(manifest)[..n] && Consistent(hash, db)
  }

  lemma {:induction false} NextRowFits(manifest: Manifest, n: nat)
    requires Loaded(manifest) && n < |manifest.migrations|
    ensures var done, row := FullHistory(manifest)[..n], RowOf(manifest, manifest.migrations[n]);
            && !Collides(done, row) && Inserted(done, row) == done + [row] == FullHistory(manifest)[..n + 1]
  {
    var done, row := FullHistory(manifest)[..n], RowOf(manifest, manifest.migrations[n]);
    forall other | other in done
      ensures other.id != row.id && other.sequence < row.sequence
    {
      var i :| 0 <= i < n && done[i] == other;
    }
  }

  /** Under the lock a record takes effect exactly unless the command fails first, and moves the prefix by one. */
  lemma {:induction false} RecordAdvances(hash: Hash, manifest: Manifest, w: World, db: Database, n: nat)
    requires Loaded(manifest) && Exclusive(w) && AtPrefix(hash, manifest, db, n) && n < |manifest.migrations|
    ensures var (after, ok) := RecordStep(hash, manifest, w, db, n);
            && (ok <==> w.fate(n).Works?)
            && AtPrefix(hash, manifest, after, if w.fate(n).FailsBefore? then n else n + 1)
            && (w.fate(n).FailsBefore? ==> after == db)
  {
    hide HistoryChecksumOf, FullHistory, Inserted;
    NextRowFits(manifest, n);
    assert w.meanwhile(n, db) == db && w.race(n, db) == db;
  }

  /** What one migration after another leaves in the event log. */
  function Triples(manifest: Manifest, lo: nat, hi: nat): seq<Event>
    requires lo <= hi <= |manifest.migrations|
    decreases hi - lo
  {
    if lo == hi then []
    else
      var id := manifest.migrations[lo].id;
      [ApplyCall(id, true), VerifyCall(id, true), RecordCall(id, true)] + Triples(manifest, lo + 1, hi)
  }

  /** The calls of the migration an attempt failed at. */
  predicate FailedAt(manifest: Manifest, i: nat, events: seq<Event>, failure: Failure)
    requires i < |manifest.migrations|
  {
    var id := manifest.migrations[i].id;
    || (failure == ApplyFailed(id) && events == [ApplyCall(id, false)])
    || (failure == VerifyFailed(id) && events == [ApplyCall(id, true), VerifyCall(id, false)])
    || (failure == RecordFailed(id) && events == [ApplyCall(id, true), VerifyCall(id, true), RecordCall(id, false)])
  }

  function Ids(manifest: Manifest, lo: nat, hi: nat): seq<Blob>
    requires lo <= hi <= |manifest.migrations|
    decreases hi - lo
  {
    if lo == hi then [] else [manifest.migrations[lo].id] + Ids(manifest, lo + 1, hi)
  }

  /**
   What a run from a recorded prefix of length `lo` did: it completed the migrations up to
   `stop`, each applied, verified and recorded in that order, then either finished or failed
   at `stop`; `reached` is the recorded prefix it leaves.
   */
  ghost predicate Progressed(hash: Hash, manifest: Manifest, run: Outcome, lo: nat, stop: nat, reached: nat) {
    && lo <= stop <= |manifest.migrations| && AtPrefix(hash, manifest, run.db, reached)
    && (run.result.Ok? ==>
          reached == stop == |manifest.migrations|
          && run.events == Triples(manifest, lo, stop) && run.result.value == Ids(manifest, lo, stop))
    && (run.result.Err? ==>
          && stop < |manifest.migrations| && reached in {stop, stop + 1}
          && (reached == stop + 1 ==> run.result.error.RecordFailed?)
          && exists failed :: FailedAt(manifest, stop, failed, run.result.error)
                              && run.events == Triples(manifest, lo, stop) + failed)
  }

  lemma {:induction false} RunProgresses(hash: Hash, manifest: Manifest, w: World, db: Database, n: nat)
    returns (stop: nat, reached: nat)
    requires Loaded(manifest) && Exclusive(w) && AtPrefix(hash, manifest, db, n)
    ensures Progressed(hash, manifest, RunFrom(hash, manifest, w, db, n), n, stop, reached)
    decreases |manifest.migrations| - n
  {
    hide Consistent, FullHistory, RecordStep;
    var run := RunFrom(hash, manifest, w, db, n);
    stop, reached := n, n;
    if n < |manifest.migrations| {
      RecordAdvances(hash, manifest, w, db, n);
      var one := Migrate(hash, manifest, w, db, n);
      if one.result.Err? {
        reached := if w.applies(n) && w.verifies(n) && !w.fate(n).FailsBefore? then n + 1 else n;
        assert FailedAt(manifest, n, run.events, run.result.error);
        assert run.events == Triples(manifest, n, n) + run.events;
      } else {
        stop, reached := RunProgresses(hash, manifest, w, one.db, n + 1);
        var rest := RunFrom(hash, manifest, w, one.db, n + 1);
        if rest.result.Err? {
          var failed :| FailedAt(manifest, stop, failed, rest.result.error)
                        && rest.events == Triples(manifest, n + 1, stop) + failed;
          assert run.events == Triples(manifest, n, stop) + failed;
        }
      }
    }
  }

  /**
   An attempt over a recorded prefix: it starts exactly at the first unrecorded migration
   and leaves a prefix at least as long; every row it adds was applied and verified before.
   */
  lemma {:induction false} AttemptResumes(hash: Hash, manifest: Manifest, w: World, db: Database, n: nat)
    returns (stop: nat, reached: nat)
    requires Loaded(manifest) && Exclusive(w) && AtPrefix(hash, manifest, db, n) && w.lock && w.baseline
    ensures var run := RunFrom(hash, manifest, w, db, n);
            && Progressed(hash, manifest, run, n, stop, reached)
            && Attempt(hash, manifest, w, db) == run.(events := [Acquired] + run.events + [Released])
  {
    hide HistoryChecksumOf, RunFrom;
    stop, reached := RunProgresses(hash, manifest, w, db, n);
    assert w.start(db) == db;
    assert db.rows <= FullHistory(manifest);
  }

  /** Over any number of attempts, failing anywhere, the history stays a prefix and never shrinks. */
  lemma {:induction false} CampaignKeepsPrefix(hash: Hash, manifest: Manifest, worlds: seq<World>, db: Database, n: nat)
    returns (reached: nat)
    requires Loaded(manifest) && AtPrefix(hash, manifest, db, n) && forall w | w in worlds :: Exclusive(w)
    ensures reached >= n && AtPrefix(hash, manifest, Campaign(hash, manifest, worlds, db), reached)
    decreases |worlds|
  {
    hide Consistent, FullHistory, RunFrom;
    reached := n;
    if worlds != [] {
      var w := worlds[0];
      assert w in worlds;
      if w.lock && w.baseline {
        var stop, next := AttemptResumes(hash, manifest, w, db, n);
        reached := CampaignKeepsPrefix(hash, manifest, worlds[1..], Attempt(hash, manifest, w, db).db, next);
      } else {
        LockedOutChangesNothing(hash, manifest, w, db);
        reached := CampaignKeepsPrefix(hash, manifest, worlds[1..], db, n);
      }
    }
  }

  lemma {:induction false} LockedOutChangesNothing(hash: Hash, manifest: Manifest, w: World, db: Database)
    requires !w.lock || !w.baseline
    ensures Attempt(hash, manifest, w, db).db == db && Attempt(hash, manifest, w, db).result.Err?
  {
    hide RunFrom;
  }

  /** A migration of the manifest was applied in the attempt with these events. */
  predicate AnyApply(events: seq<Event>) {
    exists e | e in events :: e.ApplyCall?
  }

  /**
   An edited, reordered, overlong or inconsistent history blocks before any apply and is
   left alone, whoever else is writing.
   */
  lemma {:induction false} EditedHistoryBlocks(hash: Hash, manifest: Manifest, w: World, db: Database)
    requires w.lock && w.baseline
    requires !(Consistent(hash, w.start(db)) && w.start(db).rows <= FullHistory(manifest))
    ensures Attempt(hash, manifest, w, db).result.Err? && Attempt(hash, manifest, w, db).db == w.start(db)
    ensures Attempt(hash, manifest, w, db).events == [Acquired, Released]
            && !AnyApply(Attempt(hash, manifest, w, db).events)
  {
    hide RunFrom, Consistent;
  }
}
