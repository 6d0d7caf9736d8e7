/**
 Restoring a site database: server/scripts/site-data/restore-procedure.ts and row-counts.ts.

 Every call may fail. A statement that fails may have had no effect, or may have had its effect and lost the
 answer; a failed pg_restore leaves any contents at all behind.
 */
module SiteRestore {
  import opened Wrappers

  type Rows = seq<string>

  datatype Contents = Contents(tables: map<string, Rows>)

  type RowCounts = map<string, nat>

  function RowCountsOf(contents: Contents): RowCounts {
    map table | table in contents.tables :: |contents.tables[table]|
  }

  // ---------------------------------------------------------------- compareRowCounts

  datatype Mismatch = Mismatch(table: string, expected: Option<nat>, actual: Option<nat>)

  function CountOf(counts: RowCounts, table: string): Option<nat> {
    if table in counts then Some(counts[table]) else None
  }

  function DiffRowCounts(expected: RowCounts, actual: RowCounts): set<Mismatch> {
    set table | table in expected.Keys + actual.Keys && CountOf(expected, table) != CountOf(actual, table)
      :: Mismatch(table, CountOf(expected, table), CountOf(actual, table))
  }

  lemma EveryDifferenceIsReported(expected: RowCounts, actual: RowCounts)
    ensures forall table :: CountOf(expected, table) != CountOf(actual, table) ==>
      Mismatch(table, CountOf(expected, table), CountOf(actual, table)) in DiffRowCounts(expected, actual)
  {
    forall table | CountOf(expected, table) != CountOf(actual, table)
      ensures Mismatch(table, CountOf(expected, table), CountOf(actual, table)) in DiffRowCounts(expected, actual)
    {
      assert table in expected.Keys + actual.Keys;
    }
  }

  /** No mismatch is reported exactly when the counts are equal, absent tables included. */
  lemma NoMismatchMeansEqual(expected: RowCounts, actual: RowCounts)
    ensures DiffRowCounts(expected, actual) == {} <==> expected == actual
  {
    EveryDifferenceIsReported(expected, actual);
    if forall table :: CountOf(expected, table) == CountOf(actual, table) {
      assert forall table :: table in expected ==> CountOf(expected, table).Some?;
      assert forall table :: table in actual ==> CountOf(actual, table).Some?;
    }
  }

  // ---------------------------------------------------------------- the database server

  datatype Statement = Done | FailedBefore | FailedAfter

  datatype Load = Loaded | Broken(left: Contents)

  /** Databases by name, and the statements that act on them. */
  class SiteDatabase {
    var databases: map<string, Contents>

    constructor (databases: map<string, Contents>)
      ensures this.databases == databases
    {
      this.databases := databases;
    }

    method RenameDatabase(from: string, to: string, fate: Statement) returns (ok: bool)
      modifies this
      ensures
        var effective := from in old(databases) && to !in old(databases) && !fate.FailedBefore?;
        && databases == (if effective then (old(databases) - {from})[to := old(databases)[from]] else old(databases))
        && (ok <==> effective && fate.Done?)
    {
      if from !in databases || to in databases || fate.FailedBefore? { return false; }
      databases := (databases - {from})[to := databases[from]];
      ok := fate.Done?;
    }

    method CreateDatabase(name: string, fate: Statement) returns (ok: bool)
      modifies this
      ensures
        var effective := name !in old(databases) && !fate.FailedBefore?;
        && databases == (if effective then old(databases)[name := Contents(map[])] else old(databases))
        && (ok <==> effective && fate.Done?)
    {
      if name in databases || fate.FailedBefore? { return false; }
      databases := databases[name := Contents(map[])];
      ok := fate.Done?;
    }

    /** DROP DATABASE IF EXISTS */
    method DropDatabase(name: string, fate: Statement) returns (ok: bool)
      modifies this
      ensures databases == if fate.FailedBefore? then old(databases) else old(databases) - {name}
      ensures ok <==> fate.Done?
    {
      if !fate.FailedBefore? { databases := databases - {name}; }
      ok := fate.Done?;
    }

    /** pg_restore of a dump that decodes to `image`, if it decodes. */
    method RestoreFrom(name: string, image: Option<Contents>, fate: Load) returns (ok: bool)
      requires name in databases
      modifies this
      ensures ok <==> fate.Loaded? && image.Some?
      ensures name in databases && databases == old(databases)[name := databases[name]]
      ensures databases[name] == if ok then image.value else if fate.Broken? then fate.left else old(databases)[name]
    {
      if fate.Broken? {
        databases := databases[name := fate.left];
        return false;
      }
      if image.None? {
        return false;
      }
      databases := databases[name := image.value];
      ok := true;
    }
  }

  // ---------------------------------------------------------------- restoreDatabase

  datatype Plan = Plan(database: string, image: Option<Contents>, expectedCounts: RowCounts)

  /** What happens at each call of one restore; `backupName` is None where no valid name can be made. */
  datatype Script = Script(
    backupName: Option<string>,
    existsAnswers: bool, backupExistsAnswers: bool,
    renamed: Statement, created: Statement, loaded: Load, countsAnswer: bool,
    dropped: Statement, renamedBack: Statement)

  datatype ErrorCode = RestoreFailed | RowCountMismatch | RollbackFailed | CallFailed

  /** The previous contents are under their own name, or under a backup name that was free. */
  ghost predicate Survives(before: map<string, Contents>, after: map<string, Contents>, name: string, script: Script) {
    name in before ==>
      || (name in after && after[name] == before[name])
      || (&& script.backupName.Some? && script.backupName.value !in before
          && script.backupName.value in after && after[script.backupName.value] == before[name])
  }

  /** No other database is touched. */
  ghost predicate OthersKept(before: map<string, Contents>, after: map<string, Contents>, name: string,
      script: Script) {
    forall other :: other != name && Some(other) != script.backupName ==>
      (other in after <==> other in before) && (other in before ==> after[other] == before[other])
  }

  /** The first rename was reached, worked, and was reported as a failure. */
  ghost predicate LostRename(before: map<string, Contents>, name: string, script: Script) {
    && script.existsAnswers && name in before && script.backupName.Some? && script.backupExistsAnswers
    && script.backupName.value !in before && script.renamed.FailedAfter?
  }

  /** With no previous database, the creation worked and was reported as a failure. */
  ghost predicate LostCreation(before: map<string, Contents>, name: string, script: Script) {
    script.existsAnswers && name !in before && script.created.FailedAfter?
  }

  /** The try block was entered: any previous database has been renamed. */
  ghost predicate Entered(before: map<string, Contents>, name: string, script: Script) {
    && script.existsAnswers
    && (name in before ==>
          && script.backupName.Some? && script.backupExistsAnswers && script.backupName.value !in before
          && script.renamed.Done?)
  }

  /**
   Everything on the way to success: free backup name, each statement done, a dump that loads and the counts it was
   made with.
   */
  ghost predicate Smooth(before: map<string, Contents>, plan: Plan, script: Script) {
    && Entered(before, plan.database, script)
    && script.created.Done? && script.loaded.Loaded? && script.countsAnswer
    && plan.image.Some? && RowCountsOf(plan.image.value) == plan.expectedCounts
  }

  /** With the try block entered and failed: a drop that is due fails, or the way back of the old database is barred. */
  ghost predicate RollBackFails(before: map<string, Contents>, name: string, script: Script) {
    || (script.created.Done? && !script.dropped.Done?)
    || (name in before && (script.created.FailedAfter? || !script.renamedBack.Done?))
  }

  /** The databases while the old one waits under its backup name. */
  ghost function Parked(before: map<string, Contents>, name: string, script: Script): map<string, Contents> {
    if name in before && script.backupName.Some?
    then (before - {name})[script.backupName.value := before[name]] else before
  }

  /** The last rename worked and was reported as a failure. */
  ghost predicate RestoredUnnoticed(before: map<string, Contents>, name: string, script: Script) {
    && name in before && script.renamedBack.FailedAfter? && !script.created.FailedAfter?
    && (script.created.Done? ==> script.dropped.Done?)
  }

  /** A failed roll-back leaves the old database parked, and a new one beside it where that was not dropped. */
  ghost predicate LeftByFailedRollBack(before: map<string, Contents>, after: map<string, Contents>, name: string,
      script: Script) {
    if RestoredUnnoticed(before, name, script) then
      after == before
    else
      && after - {name} == Parked(before, name, script) - {name}
      && (name in after <==> script.created.FailedAfter? || (script.created.Done? && script.dropped.FailedBefore?))
  }

  /** The databases after a roll-back, whichever statement fails. */
  ghost function AfterRollBack(databases: map<string, Contents>, name: string, backup: Option<string>, created: bool,
                         script: Script): map<string, Contents> {
    var dropped := if created && !script.dropped.FailedBefore? then databases - {name} else databases;
    if (created && !script.dropped.Done?) || backup.None? || script.renamedBack.FailedBefore? then dropped
    else if backup.value in dropped && name !in dropped then (dropped - {backup.value})[name := dropped[backup.value]]
    else dropped
  }

  /** Every statement of a roll-back answers that it is done. */
  ghost predicate RollsBack(databases: map<string, Contents>, name: string, backup: Option<string>, created: bool,
      script: Script) {
    && (created ==> script.dropped.Done?)
    && (backup.Some? ==>
          && backup.value in databases && script.renamedBack.Done?
          && (if created then backup.value != name else name !in databases))
  }

  /** The databases when the catch block is entered. */
  ghost predicate TryFailed(before: map<string, Contents>, databases: map<string, Contents>, name: string,
      script: Script) {
    && Entered(before, name, script)
    && var parked := Parked(before, name, script);
    match script.created
    case Done => name in databases && databases - {name} == parked
    case FailedAfter => databases == parked[name := Contents(map[])]
    case FailedBefore => databases == parked
  }

  /** Whatever was dropped, the old database is still under its backup name. */
  lemma DroppingKeepsBackup(before: map<string, Contents>, databases: map<string, Contents>, name: string,
      script: Script)
    requires TryFailed(before, databases, name, script) && script.backupName != Some(name) && name in before
    ensures
      && script.backupName.Some? && script.backupName.value !in before
      && script.backupName.value in databases && databases[script.backupName.value] == before[name]
  {
    var parked, backup := Parked(before, name, script), script.backupName.value;
    assert backup in parked && parked[backup] == before[name];
    if script.created.Done? { assert backup in databases - {name}; }
  }

  /** What a roll-back makes of a failed restore. */
  lemma RollBackOutcome(before: map<string, Contents>, databases: map<string, Contents>, name: string, script: Script)
    requires TryFailed(before, databases, name, script) && script.backupName != Some(name)
    ensures
      var backup := if name in before then script.backupName else None;
      var after := AfterRollBack(databases, name, backup, script.created.Done?, script);
      && Survives(before, after, name, script) && OthersKept(before, after, name, script)
      && (RollsBack(databases, name, backup, script.created.Done?, script) <==> !RollBackFails(before, name, script))
      && (!RollBackFails(before, name, script) ==> (after == before <==> !LostCreation(before, name, script)))
      && (RollBackFails(before, name, script) ==> LeftByFailedRollBack(before, after, name, script))
  {
    var parked := Parked(before, name, script);
    if name in before {
      DroppingKeepsBackup(before, databases, name, script);
      assert (parked - {script.backupName.value})[name := before[name]] == before;
    }
    if script.created.Done? {
      assert name !in parked && parked - {name} == parked;
    }
  }

  /** rollBack */
  method RollBack(db: SiteDatabase, database: string, backup: Option<string>, created: bool, script: Script)
    returns (rolledBack: bool)
    modifies db
    ensures db.databases == AfterRollBack(old(db.databases), database, backup, created, script)
    ensures rolledBack <==> RollsBack(old(db.databases), database, backup, created, script)
  {
    if created {
      var ok := db.DropDatabase(database, script.dropped);
      if !ok { return false; }
    }
    if backup.Some? {
      var ok := db.RenameDatabase(backup.value, database, script.renamedBack);
      if !ok { return false; }
    }
    rolledBack := true;
  }

  /**
   restoreDatabase, for every script. Success: the image is in place with the expected counts and the previous
   database is under the backup name. Failure: the previous contents survive, and unless the roll-back itself
   failed the databases are as before, exactly when no effect was reported as a failure. A failed roll-back, whose
   condition is stated, leaves the old database parked and possibly a new one beside it.
   */
  method RestoreDatabase(db: SiteDatabase, plan: Plan, script: Script)
    returns (result: Result<Option<string>, ErrorCode>)
    requires script.backupName != Some(plan.database)
    modifies db
    ensures Survives(old(db.databases), db.databases, plan.database, script)
    ensures OthersKept(old(db.databases), db.databases, plan.database, script)
    ensures result.Ok? <==> Smooth(old(db.databases), plan, script)
    ensures result.Ok? ==>
      && (plan.database in old(db.databases) ==>
            && script.backupName.Some? && result.value == script.backupName
            && script.backupName.value !in old(db.databases)
            && db.databases == old(db.databases)[script.backupName.value := old(db.databases)[plan.database]]
                                               [plan.database := plan.image.value])
      && (plan.database !in old(db.databases) ==>
            result.value == None && db.databases == old(db.databases)[plan.database := plan.image.value])
    ensures result.Err? && !result.error.RollbackFailed? ==>
      (db.databases == old(db.databases)
       <==> !LostRename(old(db.databases), plan.database, script)
            && !LostCreation(old(db.databases), plan.database, script))
    ensures result == Err(RollbackFailed) <==>
      && Entered(old(db.databases), plan.database, script) && !Smooth(old(db.databases), plan, script)
      && RollBackFails(old(db.databases), plan.database, script)
    ensures result == Err(RestoreFailed) <==>
      && script.existsAnswers && plan.database in old(db.databases)
      && script.backupName.Some? && script.backupExistsAnswers && script.backupName.value in old(db.databases)
    ensures result == Err(RowCountMismatch) <==>
      && Entered(old(db.databases), plan.database, script) && !RollBackFails(old(db.databases), plan.database, script)
      && script.created.Done? && script.loaded.Loaded? && plan.image.Some? && script.countsAnswer
      && RowCountsOf(plan.image.value) != plan.expectedCounts
    ensures result == Err(RollbackFailed) ==>
      LeftByFailedRollBack(old(db.databases), db.databases, plan.database, script)
  {
    var name := plan.database;
    ghost var before := db.databases;
    var backup: Option<string> := None;
    if !script.existsAnswers { return Err(CallFailed); }
    if name in db.databases {
      if script.backupName.None? || !script.backupExistsAnswers { return Err(CallFailed); }
      if script.backupName.value in db.databases { return Err(RestoreFailed); }
      var renamed := db.RenameDatabase(name, script.backupName.value, script.renamed);
      if !renamed { return Err(CallFailed); }
      backup := script.backupName;
    }
    ghost var parked := db.databases;
    assert parked == Parked(before, name, script) && name !in parked;
    var error := CallFailed;
    var created := db.CreateDatabase(name, script.created);
    if created {
      var loaded := db.RestoreFrom(name, plan.image, script.loaded);
      if loaded && script.countsAnswer {
        NoMismatchMeansEqual(plan.expectedCounts, RowCountsOf(db.databases[name]));
        if DiffRowCounts(plan.expectedCounts, RowCountsOf(db.databases[name])) == {} {
          assert db.databases == parked[name := plan.image.value];
          return Ok(backup);
        }
        error := RowCountMismatch;
      }
      assert db.databases - {name} == parked;
    }
    RollBackOutcome(before, db.databases, name, script);
    var rolledBack := RollBack(db, name, backup, created, script);
    result := Err(if rolledBack then error else RollbackFailed);
  }

  // ---------------------------------------------------------------- failures that leave the databases changed

  /** The old database is renamed, the answer is lost, and nothing renames it back. */
  method RenameWithLostAnswer(contents: Contents) returns (changed: bool, result: Result<Option<string>, ErrorCode>)
    ensures changed && result.Err? && !result.error.RollbackFailed?
  {
    var db := new SiteDatabase(map["site" := contents]);
    var script := Script(Some("site_backup"), true, true, FailedAfter, Done, Loaded, true, Done, Done);
    result := RestoreDatabase(db, Plan("site", Some(contents), RowCountsOf(contents)), script);
    changed := db.databases != map["site" := contents];
    assert LostRename(map["site" := contents], "site", script);
  }

  /** With no old database, a new one is created, the answer is lost, and nothing drops it. */
  method CreationWithLostAnswer(contents: Contents) returns (changed: bool, result: Result<Option<string>, ErrorCode>)
    ensures changed && result.Err? && !result.error.RollbackFailed?
  {
    var db := new SiteDatabase(map[]);
    var script := Script(None, true, true, Done, FailedAfter, Loaded, true, Done, Done);
    result := RestoreDatabase(db, Plan("site", Some(contents), RowCountsOf(contents)), script);
    changed := db.databases != map[];
    assert LostCreation(map[], "site", script);
  }
}
