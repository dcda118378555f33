/**
 * The database file as a whole: missing, or holding the `expenses` table
 * definition together with its rows. Opening an `ExpenseRepository` runs
 * the table creation statement on it.
 */
module Database {
  import opened Schema
  import Store

  datatype Database = NoFile | File(table: Table, store: Store.Store)

  /**
   * Rows only hold values in columns the table has: without `user_comments`
   * or `tags` those fields read as NULL, and a missing table has no rows.
   */
  predicate Consistent(t: Table, s: Store.Store) {
    && (t.Absent? ==> |s.rows| == 0)
    && (forall i :: 0 <= i < |s.rows| ==> !HasColumn(t, CommentsColumn) ==> s.rows[i].comments.None?)
    && (forall i :: 0 <= i < |s.rows| ==> !HasColumn(t, TagsColumn) ==> s.rows[i].tags.None?)
  }

  /** `ExpenseRepository(db_name)`: connect, creating the file if needed, then `_create_table`. */
  function Open(db: Database): (r: Database)
    ensures r.File? && r.table.Present?
    ensures db.File? && db.table.Present? ==> r == db
    ensures db.File? ==> r.store == db.store
    ensures db.NoFile? ==> r.store == Store.Empty && !IsCurrent(r.table)
  {
    match db
    case NoFile => File(CreateTable(Absent), Store.Empty)
    case File(t, s) => File(CreateTable(t), s)
  }

  /** The same with the eight-column table definition. */
  function OpenFull(db: Database): (r: Database)
    ensures r.File? && r.table.Present?
    ensures db.File? && db.table.Present? ==> r == db
    ensures db.File? ==> r.store == db.store
    ensures db.NoFile? ==> r.store == Store.Empty && IsCurrent(r.table)
  {
    match db
    case NoFile => File(CreateTableFull(Absent), Store.Empty)
    case File(t, s) => File(CreateTableFull(t), s)
  }

  /** Opening twice is opening once: an existing table keeps its columns and rows. */
  lemma {:induction false} OpenIdempotent(db: Database)
    ensures Open(Open(db)) == Open(db)
    ensures OpenFull(OpenFull(db)) == OpenFull(db)
  {
  }

  /** Opening keeps a consistent database consistent. */
  lemma {:induction false} OpenKeepsConsistent(db: Database)
    requires db.File? ==> Consistent(db.table, db.store)
    ensures Consistent(Open(db).table, Open(db).store)
    ensures Consistent(OpenFull(db).table, OpenFull(db).store)
  {
  }

  /** The five-value insert leaves the new columns NULL, so it fits any table. */
  lemma {:induction false} InsertKeepsConsistent(t: Table, s: Store.Store, e: Store.Entry)
    requires t.Present? && Consistent(t, s)
    ensures Consistent(t, Store.Insert(s, e))
  {
    var r := Store.Insert(s, e);
    forall i | 0 <= i < |r.rows| ensures r.rows[i].comments.None? || HasColumn(t, CommentsColumn) {
      if i < |s.rows| {
        assert r.rows[i] == r.rows[..|s.rows|][i];
      }
    }
    forall i | 0 <= i < |r.rows| ensures r.rows[i].tags.None? || HasColumn(t, TagsColumn) {
      if i < |s.rows| {
        assert r.rows[i] == r.rows[..|s.rows|][i];
      }
    }
  }

  /** The seven-value insert needs both new columns. */
  lemma {:induction false} InsertFullKeepsConsistent(t: Table, s: Store.Store, e: Store.Entry, comments: Wrappers.Option<string>, tags: Wrappers.Option<string>)
    requires IsCurrent(t) && Consistent(t, s)
    ensures Consistent(t, Store.InsertFull(s, e, comments, tags))
  {
  }
}
