/** migrate-db.py: adds the `dominant_type` column to an existing
    `converted_archives` table, once. */
module MigrateDb {
  import opened Text

  const DominantType := "dominant_type"

  /** SQLite compares column names without regard to ASCII case, so it refuses
      a new column whose name matches an existing one in that sense. */
  predicate HasColumnNamed(columns: seq<string>, name: string)
  {
    exists i :: 0 <= i < |columns| && Lower(columns[i]) == Lower(name)
  }

  /** The columns of the table after one run, on a database that has it. */
  function Migrated(columns: seq<string>): (r: seq<string>)
    ensures |columns| <= |r| <= |columns| + 1 && r[..|columns|] == columns
    ensures DominantType in columns ==> r == columns
    ensures HasColumnNamed(columns, DominantType) ==> r == columns
    ensures !HasColumnNamed(columns, DominantType) ==> r == columns + [DominantType]
    ensures HasColumnNamed(r, DominantType)
  {
    if DominantType in columns || HasColumnNamed(columns, DominantType) then columns
    else
      var r := columns + [DominantType];
      assert Lower(r[|columns|]) == Lower(DominantType);
      r
  }

  /** Migrating a migrated table changes nothing. */
  lemma MigratedIdempotent(columns: seq<string>)
    ensures Migrated(Migrated(columns)) == Migrated(columns)
  {
  }

  /** No existing column is lost or moved. */
  lemma MigratedKeepsColumns(columns: seq<string>, i: nat)
    requires i < |columns|
    ensures i < |Migrated(columns)| && Migrated(columns)[i] == columns[i]
  {
    assert Migrated(columns)[..|columns|] == columns;
  }

  /** `migrate_database`'s outcome. */
  datatype Outcome =
    | FileNotFound
    | AlreadyPresent
    | Added
    | DatabaseError

  /** The database file at `db_path`. */
  class Database {
    var present: bool
    var hasTable: bool
    var columns: seq<string>

    constructor (present: bool, hasTable: bool, columns: seq<string>)
      ensures this.present == present && this.hasTable == hasTable && this.columns == columns
    {
      this.present := present;
      this.hasTable := hasTable;
      this.columns := columns;
    }

    /** `PRAGMA table_info(converted_archives)`: no rows for a missing table. */
    function TableInfo(): (r: seq<string>)
      reads this
      ensures hasTable ==> r == columns
      ensures !hasTable ==> r == []
    {
      if hasTable then columns else []
    }

    /** `ALTER TABLE converted_archives ADD COLUMN name TEXT`, committed: it
        fails without the table or when the name clashes with a column. */
    method AddColumn(name: string) returns (ok: bool)
      modifies this
      ensures ok <==> old(hasTable) && !HasColumnNamed(old(columns), name)
      ensures columns == if ok then old(columns) + [name] else old(columns)
      ensures present == old(present) && hasTable == old(hasTable)
    {
      ok := hasTable && !HasColumnNamed(columns, name);
      if ok {
        columns := columns + [name];
      }
    }

    /** `migrate_database`. */
    method Migrate() returns (outcome: Outcome)
      modifies this
      ensures present == old(present) && hasTable == old(hasTable)
      ensures outcome == FileNotFound <==> !old(present)
      ensures outcome == AlreadyPresent <==> old(present) && old(hasTable) && DominantType in old(columns)
      ensures outcome == Added <==> old(present) && old(hasTable) && !HasColumnNamed(old(columns), DominantType)
      ensures outcome == Added ==> columns == old(columns) + [DominantType]
      ensures old(present) && old(hasTable) ==> columns == Migrated(old(columns))
      ensures !(old(present) && old(hasTable)) ==> columns == old(columns)
    {
      if !present {
        return FileNotFound;
      }
      var existing := TableInfo();
      if DominantType in existing {
        outcome := AlreadyPresent;
      } else {
        var ok := AddColumn(DominantType);
        outcome := if ok then Added else DatabaseError;
      }
    }
  }

  /** A second run over a database the first run migrated reports the column
      as present and changes nothing. */
  method MigrateTwice(db: Database) returns (first: Outcome, second: Outcome)
    requires db.present && db.hasTable && !HasColumnNamed(db.columns, DominantType)
    modifies db
    ensures first == Added && second == AlreadyPresent
    ensures db.columns == old(db.columns) + [DominantType]
  {
    first := db.Migrate();
    second := db.Migrate();
  }
}
