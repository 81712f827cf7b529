/**
 * The outcome log of an import (its ImportEntity rows) and the operations
 * that act on it: `revert`, `removeDuplicates` and `unmarkAsDuplicate`.
 *
 * Records of every entity type live in one table keyed by type and id. A
 * record is Active, SoftDeleted (removed, still in the database, and not
 * found by lookups), or absent from the table once deleted from the
 * database.
 */
module ImportLog {
  import opened Wrappers
  import opened PhpStrings

  /** One ImportEntity row: which record a row of an import created, updated or flagged. */
  datatype ImportEntityRow = ImportEntityRow(importId: string, entityType: Option<string>, entityId: Option<string>,
                                             isImported: bool, isUpdated: bool, isDuplicate: bool)

  datatype RecordKey = RecordKey(entityType: string, id: string)
  datatype RecordState = Active | SoftDeleted

  datatype Failure = NotFound | Forbidden

  /** Which rows an operation acts on: those flagged isImported (revert) or isDuplicate (removeDuplicates). */
  datatype Flag = ImportedFlag | DuplicateFlag

  predicate Flagged(row: ImportEntityRow, flag: Flag) {
    match flag
    case ImportedFlag => row.isImported
    case DuplicateFlag => row.isDuplicate
  }

  /** The record a row names, when its entity type and id are both truthy. */
  function KeyOf(row: ImportEntityRow): Option<RecordKey> {
    if row.entityType.Some? && !PhpEmpty(row.entityType.value) && row.entityId.Some? && !PhpEmpty(row.entityId.value)
    then Some(RecordKey(row.entityType.value, row.entityId.value)) else None
  }

  /** The row belongs to import id, carries the flag, and names record key of a type that has a repository. */
  predicate Selects(row: ImportEntityRow, id: string, flag: Flag, repositories: set<string>, key: RecordKey) {
    row.importId == id && Flagged(row, flag) && KeyOf(row) == Some(key) && key.entityType in repositories
  }

  /** What one row does: a selected record that is found (active) is removed, and also deleted from the database when purge is set. */
  function RemoveStep(records: map<RecordKey, RecordState>, row: ImportEntityRow, id: string, flag: Flag,
                      repositories: set<string>, purge: bool): map<RecordKey, RecordState>
  {
    match KeyOf(row)
    case None => records
    case Some(key) =>
      if Selects(row, id, flag, repositories, key) && key in records && records[key] == Active then
        if purge then records - {key} else records[key := SoftDeleted]
      else records
  }

  /** The loop over the selected rows after its first k rows. */
  function RemoveFirst(records: map<RecordKey, RecordState>, rows: seq<ImportEntityRow>, k: nat, id: string, flag: Flag,
                       repositories: set<string>, purge: bool): map<RecordKey, RecordState>
    requires k <= |rows|
  {
    if k == 0 then records
    else RemoveStep(RemoveFirst(records, rows, k - 1, id, flag, repositories, purge), rows[k - 1], id, flag, repositories, purge)
  }

  /** Some row among the first k selects the record key. */
  predicate Targeted(rows: seq<ImportEntityRow>, k: nat, id: string, flag: Flag, repositories: set<string>, key: RecordKey)
    requires k <= |rows|
  {
    exists j :: 0 <= j < k && Selects(rows[j], id, flag, repositories, key)
  }

  /**
   * Per record: an active record that some selected row names ends up
   * deleted from the database (purge) or soft-deleted; every other record is
   * left exactly as it was.
   */
  lemma {:induction false} RemoveOutcome(records: map<RecordKey, RecordState>, rows: seq<ImportEntityRow>, k: nat, id: string,
                                         flag: Flag, repositories: set<string>, purge: bool, key: RecordKey)
    requires k <= |rows|
    ensures var r := RemoveFirst(records, rows, k, id, flag, repositories, purge);
      if Targeted(rows, k, id, flag, repositories, key) && key in records && records[key] == Active then
        (if purge then key !in r else key in r && r[key] == SoftDeleted)
      else
        (key in r <==> key in records) && (key in r ==> r[key] == records[key])
  {
    if k > 0 {
      RemoveOutcome(records, rows, k - 1, id, flag, repositories, purge, key);
      var before := RemoveFirst(records, rows, k - 1, id, flag, repositories, purge);
      var row := rows[k - 1];
      if Selects(row, id, flag, repositories, key) {
        assert Targeted(rows, k, id, flag, repositories, key);
      } else {
        assert KeyOf(row) != Some(key) || !Selects(row, id, flag, repositories, key);
        assert key in RemoveStep(before, row, id, flag, repositories, purge) <==> key in before;
        if Targeted(rows, k, id, flag, repositories, key) {
          var j :| 0 <= j < k && Selects(rows[j], id, flag, repositories, key);
          assert j < k - 1;
          assert Targeted(rows, k - 1, id, flag, repositories, key);
        }
      }
    }
  }

  /** The age rule of revert: purge when the import was created less than two days (172800 seconds) ago. */
  function PurgeOnRevert(createdAt: Option<int>, now: int): bool {
    createdAt.Some? && now - createdAt.value < 2 * 24 * 60 * 60
  }

  /** The first row of import id naming this entity type and id. */
  function FirstMatch(rows: seq<ImportEntityRow>, id: string, entityType: string, entityId: string): (r: Option<nat>)
    ensures r.Some? ==> (r.value < |rows| && rows[r.value].importId == id &&
                         rows[r.value].entityType == Some(entityType) && rows[r.value].entityId == Some(entityId))
    ensures r.None? <==> forall j :: 0 <= j < |rows| ==>
      !(rows[j].importId == id && rows[j].entityType == Some(entityType) && rows[j].entityId == Some(entityId))
  {
    if rows == [] then None
    else if rows[0].importId == id && rows[0].entityType == Some(entityType) && rows[0].entityId == Some(entityId) then Some(0)
    else match FirstMatch(rows[1..], id, entityType, entityId)
      case None => None
      case Some(j) => Some(j + 1)
  }

  class Database {
    var records: map<RecordKey, RecordState>
    var repositories: set<string>
    var importEntities: seq<ImportEntityRow>
    /** The ids of the Import records that exist and are not removed. */
    var imports: set<string>

    constructor (records: map<RecordKey, RecordState>, repositories: set<string>,
                 importEntities: seq<ImportEntityRow>, imports: set<string>)
      ensures this.records == records && this.repositories == repositories
      ensures this.importEntities == importEntities && this.imports == imports
    {
      this.records := records;
      this.repositories := repositories;
      this.importEntities := importEntities;
      this.imports := imports;
    }

    /** The loop shared by revert and removeDuplicates: remove (and maybe purge) every record a selected row names. */
    method RemoveSelected(id: string, flag: Flag, purge: bool)
      modifies this
      ensures records == RemoveFirst(old(records), importEntities, |importEntities|, id, flag, repositories, purge)
      ensures importEntities == old(importEntities) && repositories == old(repositories) && imports == old(imports)
    {
      var k := 0;
      while k < |importEntities|
        invariant 0 <= k <= |importEntities|
        invariant records == RemoveFirst(old(records), importEntities, k, id, flag, repositories, purge)
        invariant importEntities == old(importEntities) && repositories == old(repositories) && imports == old(imports)
      {
        var row := importEntities[k];
        if row.importId == id && Flagged(row, flag) {
          var key := KeyOf(row);
          if key.Some? && key.value.entityType in repositories && key.value in records && records[key.value] == Active {
            records := records[key.value := SoftDeleted];
            if purge {
              records := records - {key.value};
            }
          }
        }
        k := k + 1;
      }
    }

    /** `revert`: removes what the import created, purging it when the import is recent, then removes the import. */
    method Revert(id: string, canDelete: bool, createdAt: Option<int>, now: int) returns (r: Result<bool, Failure>)
      modifies this
      ensures id !in old(imports) ==> r == Err(NotFound) && records == old(records) && imports == old(imports)
      ensures id in old(imports) && !canDelete ==> r == Err(Forbidden) && records == old(records) && imports == old(imports)
      ensures id in old(imports) && canDelete ==>
        r == Ok(true) && imports == old(imports) - {id} &&
        records == RemoveFirst(old(records), importEntities, |importEntities|, id, ImportedFlag, repositories,
                               PurgeOnRevert(createdAt, now))
      ensures importEntities == old(importEntities) && repositories == old(repositories)
    {
      if id !in imports {
        return Err(NotFound);
      }
      if !canDelete {
        return Err(Forbidden);
      }
      var removeFromDb := false;
      if createdAt.Some? {
        if now - createdAt.value < 2 * 24 * 60 * 60 {
          removeFromDb := true;
        }
      }
      RemoveSelected(id, ImportedFlag, removeFromDb);
      imports := imports - {id};
      r := Ok(true);
    }

    /** `removeDuplicates`: removes and always purges the records flagged as duplicates; the import stays. */
    method RemoveDuplicates(id: string, canDelete: bool) returns (r: Result<(), Failure>)
      modifies this
      ensures id !in old(imports) ==> r == Err(NotFound) && records == old(records)
      ensures id in old(imports) && !canDelete ==> r == Err(Forbidden) && records == old(records)
      ensures id in old(imports) && canDelete ==>
        r == Ok(()) && records == RemoveFirst(old(records), importEntities, |importEntities|, id, DuplicateFlag, repositories, true)
      ensures importEntities == old(importEntities) && repositories == old(repositories) && imports == old(imports)
    {
      if id !in imports {
        return Err(NotFound);
      }
      if !canDelete {
        return Err(Forbidden);
      }
      RemoveSelected(id, DuplicateFlag, true);
      r := Ok(());
    }

    /** `unmarkAsDuplicate`: clears the duplicate flag of the row naming the record, or fails when there is none. */
    method UnmarkAsDuplicate(id: string, entityType: string, entityId: string) returns (r: Result<(), Failure>)
      modifies this
      ensures FirstMatch(old(importEntities), id, entityType, entityId).None? ==>
        r == Err(NotFound) && importEntities == old(importEntities)
      ensures FirstMatch(old(importEntities), id, entityType, entityId).Some? ==>
        var j := FirstMatch(old(importEntities), id, entityType, entityId).value;
        r == Ok(()) && importEntities == old(importEntities)[j := old(importEntities)[j].(isDuplicate := false)]
      ensures records == old(records) && repositories == old(repositories) && imports == old(imports)
    {
      var j := FirstMatch(importEntities, id, entityType, entityId);
      if j.None? {
        return Err(NotFound);
      }
      importEntities := importEntities[j.value := importEntities[j.value].(isDuplicate := false)];
      r := Ok(());
    }
  }

  /** Once unmarked, a row is no longer selected by removeDuplicates, and it still names the same record. */
  lemma UnmarkedRowIsSpared(row: ImportEntityRow, id: string, repositories: set<string>, key: RecordKey)
    ensures !Selects(row.(isDuplicate := false), id, DuplicateFlag, repositories, key)
    ensures KeyOf(row.(isDuplicate := false)) == KeyOf(row)
  {
  }

  /** revert never touches a record that only a duplicate-flagged or other import's row names. */
  lemma RevertSparesOthers(records: map<RecordKey, RecordState>, rows: seq<ImportEntityRow>, id: string,
                           repositories: set<string>, purge: bool, key: RecordKey)
    requires forall j :: 0 <= j < |rows| && KeyOf(rows[j]) == Some(key) ==> rows[j].importId != id || !rows[j].isImported
    ensures var r := RemoveFirst(records, rows, |rows|, id, ImportedFlag, repositories, purge);
      (key in r <==> key in records) && (key in r ==> r[key] == records[key])
  {
    RemoveOutcome(records, rows, |rows|, id, ImportedFlag, repositories, purge, key);
  }
}
