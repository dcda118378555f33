/**
 * The stand-alone migration tool: `migrate_database` adds the
 * `user_comments` and `tags` columns to an existing table when they are
 * missing, and `create_fresh_database` replaces the file with a newly
 * created one. The schema inspection `check_table_schema` is `ReadColumns`.
 */
module Migration {
  import opened Wrappers
  import opened Schema
  import opened Database
  import Store

  /** Whether each of the two schema reads raises (and so reports no columns). */
  datatype Faults = Faults(initialReadFails: bool, finalReadFails: bool)

  const NoFaults := Faults(false, false)

  /** What `migrate_database` did. */
  datatype Outcome =
      /** The file does not exist: returns `None` without touching anything. */
    | NoDatabase
      /** An `ALTER TABLE` raised: the error is caught and `False` returned. */
    | AlterRejected(column: string)
      /** Every needed `ALTER TABLE` ran; `verified` is the returned value. */
    | Finished(added: seq<string>, committed: bool, table: Table, verified: bool)

  /** Python's return value: `None`, `True` or `False`. */
  function Returned(o: Outcome): Option<bool> {
    match o
    case NoDatabase => None
    case AlterRejected(_) => Some(false)
    case Finished(_, _, _, verified) => Some(verified)
  }

  /** The new columns a table reporting `current` lacks, `user_comments` first. */
  function Missing(current: seq<string>): (r: seq<string>)
    ensures CommentsColumn in r <==> CommentsColumn !in current
    ensures TagsColumn in r <==> TagsColumn !in current
    ensures forall i :: 0 <= i < |r| ==> r[i] == CommentsColumn || r[i] == TagsColumn
    ensures forall i, j :: 0 <= i < j < |r| ==> r[i] != r[j]
    ensures forall i, j :: 0 <= i < j < |r| ==> r[i] == CommentsColumn && r[j] == TagsColumn
  {
    (if CommentsColumn !in current then [CommentsColumn] else [])
      + (if TagsColumn !in current then [TagsColumn] else [])
  }

  /** The `ALTER TABLE ... ADD COLUMN` statements in order; the first rejection stops the run. */
  function AlterAll(t: Table, columns: seq<string>): (r: Result<Table, string>)
    ensures r.Ok? && |columns| > 0 ==> t.Present? && r.value.Present? && r.value.columns == t.columns + columns
    ensures r.Ok? && |columns| == 0 ==> r.value == t
    ensures r.Ok? ==> forall i :: 0 <= i < |columns| ==> columns[i] !in t.columns
    ensures r.Err? ==> r.error in columns
    ensures (t.Present? && (forall i :: 0 <= i < |columns| ==> !NameTaken(t.columns, columns[i]))
             && (forall i, j :: 0 <= i < j < |columns| ==> !SameName(columns[i], columns[j]))) ==> r.Ok?
    ensures |columns| > 0 && (t.Absent? || exists i :: 0 <= i < |columns| && NameTaken(t.columns, columns[i])) ==> r.Err?
    decreases |columns|
  {
    if |columns| == 0 then Ok(t)
    else
      match AddColumn(t, columns[0])
      case None => Err(columns[0])
      case Some(t') =>
        TailFacts(t, columns);
        AlterAll(t', columns[1..])
  }

  /** What adding the first column tells about the rest. */
  lemma {:induction false} TailFacts(t: Table, columns: seq<string>)
    requires |columns| > 0 && AddColumn(t, columns[0]).Some?
    ensures var t' := AddColumn(t, columns[0]).value;
      && t'.columns == t.columns + [columns[0]]
      && (forall x :: NameTaken(t.columns, x) ==> NameTaken(t'.columns, x))
      && (forall x :: NameTaken(t'.columns, x) ==> NameTaken(t.columns, x) || SameName(columns[0], x))
  {
    var t' := AddColumn(t, columns[0]).value;
    forall x | NameTaken(t.columns, x) ensures NameTaken(t'.columns, x) {
      var i :| 0 <= i < |t.columns| && SameName(t.columns[i], x);
      assert t'.columns[i] == t.columns[i];
    }
    forall x | NameTaken(t'.columns, x) ensures NameTaken(t.columns, x) || SameName(columns[0], x) {
      var i :| 0 <= i < |t'.columns| && SameName(t'.columns[i], x);
      if i < |t.columns| {
        assert t'.columns[i] == t.columns[i];
      }
    }
  }

  /**
   * No new column the run would add differs only in ASCII case from a
   * column the table already has.
   */
  predicate NoCaseClash(columns: seq<string>) {
    && (CommentsColumn !in columns ==> !NameTaken(columns, CommentsColumn))
    && (TagsColumn !in columns ==> !NameTaken(columns, TagsColumn))
  }

  /** `migrate_database()` against the file `db`. */
  function Migrate(db: Database, faults: Faults): (o: Outcome)
    ensures o.NoDatabase? <==> db.NoFile?
    ensures db.File? && db.table.Absent? ==> o == AlterRejected(CommentsColumn)
    ensures o.Finished? ==> db.File? && db.table.Present? && o.table.Present?
    ensures o.Finished? ==> o.table.columns == db.table.columns + o.added
    ensures o.Finished? ==> (o.committed <==> |o.added| > 0)
    ensures o.Finished? ==> (o.verified <==> !faults.finalReadFails && IsCurrent(o.table))
    ensures faults == NoFaults && db.File? && db.table.Present? ==>
      (o.Finished? <==> NoCaseClash(db.table.columns))
    ensures faults == NoFaults && db.File? && db.table.Present? && NoCaseClash(db.table.columns) ==>
      o.Finished? && o.verified && o.added == Missing(db.table.columns)
  {
    if db.NoFile? then NoDatabase
    else
      var current := ReadColumns(db.table, faults.initialReadFails);
      var added := Missing(current);
      match AlterAll(db.table, added)
      case Err(c) => AlterRejected(c)
      case Ok(t) =>
        var final := ReadColumns(t, faults.finalReadFails);
        Finished(added, |added| > 0, t, CommentsColumn in final && TagsColumn in final)
  }

  /** The file after a migration that finished: new columns, the same rows. */
  function Migrated(db: Database, o: Outcome): (r: Database)
    requires db.File? && o.Finished?
    ensures r.File? && r.store == db.store
  {
    File(o.table, db.store)
  }

  /** No column that the table already has is ever added again. */
  lemma {:induction false} NeverAddsPresentColumn(db: Database, faults: Faults)
    requires Migrate(db, faults).Finished?
    ensures forall c :: c in Migrate(db, faults).added ==> c !in db.table.columns
  {
  }

  /**
   * The migrated table has the old columns plus both new ones, and nothing
   * else.
   */
  lemma {:induction false} MigratedColumnSet(db: Database)
    requires db.File? && db.table.Present? && NoCaseClash(db.table.columns)
    ensures var o := Migrate(db, NoFaults);
      o.Finished? && (set c | c in o.table.columns) == (set c | c in db.table.columns) + {CommentsColumn, TagsColumn}
  {
  }

  /** A second run finds nothing to add, commits nothing and changes nothing. */
  lemma {:induction false} MigrateIdempotent(db: Database)
    requires db.File? && db.table.Present? && NoCaseClash(db.table.columns)
    ensures var o := Migrate(db, NoFaults);
      o.Finished? && Migrate(Migrated(db, o), NoFaults) == Finished([], false, o.table, true)
  {
  }

  /** Rows written before the migration read NULL in both new columns afterwards. */
  lemma {:induction false} MigrationKeepsRowsConsistent(db: Database, faults: Faults)
    requires db.File? && Consistent(db.table, db.store)
    requires Migrate(db, faults).Finished?
    ensures Consistent(Migrate(db, faults).table, db.store)
    ensures !HasColumn(db.table, CommentsColumn) ==>
      forall i :: 0 <= i < |db.store.rows| ==> db.store.rows[i].comments.None?
  {
    var o := Migrate(db, faults);
    forall c | HasColumn(db.table, c) ensures HasColumn(o.table, c) {
      assert c in db.table.columns + o.added;
    }
  }

  /** The old-style file the repository's test script writes: six columns and one row. */
  const OldStyle: Database := File(
    Present(BaseColumns),
    Store.Store([Store.Row(1, "2024-11-25", "Food", Some("Lunch at restaurant"), 25.50, Some("Credit Card"), None, None)], 1))

  /**
   * A table that already has `user_comments` and a column `TAGS` is not
   * migrated: the `tags` check compares exactly, the engine does not, and
   * the rejected `ALTER TABLE` makes the run return `False`.
   */
  lemma {:induction false} MixedCaseTagsRejected(s: Store.Store)
    ensures var db := File(Present(BaseColumns + [CommentsColumn, "TAGS"]), s);
      Migrate(db, NoFaults) == AlterRejected(TagsColumn) && Returned(Migrate(db, NoFaults)) == Some(false)
  {
    var columns := BaseColumns + [CommentsColumn, "TAGS"];
    assert CommentsColumn in columns && TagsColumn !in columns;
    assert Missing(columns) == [TagsColumn];
    assert SameName(columns[7], TagsColumn);
  }

  /** The six base columns clash with neither new name. */
  lemma {:induction false} BaseColumnsClashFree()
    ensures NoCaseClash(BaseColumns)
  {
    forall i | 0 <= i < |BaseColumns|
      ensures !SameName(BaseColumns[i], CommentsColumn) && !SameName(BaseColumns[i], TagsColumn)
    {
      if i == 1 {
        assert AsciiLower(BaseColumns[1][0]) != AsciiLower(TagsColumn[0]);
      }
    }
  }

  /** Migrating it adds both columns, commits, reports success and keeps the row. */
  lemma {:induction false} MigrateOldStyle()
    ensures Migrate(OldStyle, NoFaults) == Finished([CommentsColumn, TagsColumn], true, Present(FullColumns), true)
    ensures Returned(Migrate(OldStyle, NoFaults)) == Some(true)
  {
    assert CommentsColumn !in BaseColumns && TagsColumn !in BaseColumns;
    assert Missing(BaseColumns) == [CommentsColumn, TagsColumn];
    BaseColumnsClashFree();
  }

  /** What `create_fresh_database` returns, and the file it leaves behind. */
  datatype Fresh = Fresh(ok: bool, db: Database)

  /**
   * `create_fresh_database()`: delete the file, open a repository on a new
   * one, and report whether the schema read back has both new columns.
   */
  function CreateFreshDatabase(db: Database, readFails: bool): (r: Fresh)
    ensures r.db == Open(NoFile)
    ensures r.ok <==> !readFails && IsCurrent(r.db.table)
  {
    var created := Open(NoFile);
    var columns := ReadColumns(created.table, readFails);
    Fresh(CommentsColumn in columns && TagsColumn in columns, created)
  }

  /** With the six-column table definition, the fresh database is always reported as failed. */
  lemma {:induction false} CreateFreshAlwaysFails(db: Database, readFails: bool)
    ensures !CreateFreshDatabase(db, readFails).ok
    ensures Returned(Migrate(CreateFreshDatabase(db, readFails).db, NoFaults)) == Some(true)
  {
    BaseColumnsClashFree();
  }

  /** `create_fresh_database()` over a repository that creates all eight columns. */
  function CreateFreshDatabaseFull(db: Database, readFails: bool): (r: Fresh)
    ensures r.db == OpenFull(NoFile)
    ensures r.ok <==> !readFails && IsCurrent(r.db.table)
  {
    var created := OpenFull(NoFile);
    var columns := ReadColumns(created.table, readFails);
    Fresh(CommentsColumn in columns && TagsColumn in columns, created)
  }

  /** With the eight-column definition the fresh database passes its own check, and needs no migration. */
  lemma {:induction false} CreateFreshFullSucceeds(db: Database)
    ensures CreateFreshDatabaseFull(db, false).ok
    ensures Migrate(CreateFreshDatabaseFull(db, false).db, NoFaults) == Finished([], false, Present(FullColumns), true)
  {
  }
}
