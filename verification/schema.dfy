/**
 * The `expenses` table definition as the SQLite engine sees it: absent, or
 * present with an ordered list of column names.
 */
module Schema {
  import opened Wrappers

  datatype Table = Absent | Present(columns: seq<string>)

  const CommentsColumn: string := "user_comments"
  const TagsColumn: string := "tags"

  /** The six columns repository.py creates. */
  const BaseColumns: seq<string> := ["id", "date", "category", "description", "amount", "payment_method"]

  /** The eight-column layout that the migration and the form expect. */
  const FullColumns: seq<string> := BaseColumns + [CommentsColumn, TagsColumn]

  predicate HasColumn(t: Table, c: string) {
    t.Present? && c in t.columns
  }

  /** Both columns added by the later schema revision are present. */
  predicate IsCurrent(t: Table) {
    HasColumn(t, CommentsColumn) && HasColumn(t, TagsColumn)
  }

  /** `CREATE TABLE IF NOT EXISTS expenses (...)` with the six base columns. */
  function CreateTable(t: Table): (r: Table)
    ensures r.Present?
    ensures t.Present? ==> r == t
    ensures t.Absent? ==> r == Present(BaseColumns) && !IsCurrent(r)
  {
    if t.Present? then t else Present(BaseColumns)
  }

  /** The same statement declaring all eight columns. */
  function CreateTableFull(t: Table): (r: Table)
    ensures r.Present?
    ensures t.Present? ==> r == t
    ensures t.Absent? ==> r == Present(FullColumns) && IsCurrent(r)
  {
    if t.Present? then t else Present(FullColumns)
  }

  /** Creating the table a second time changes nothing. */
  lemma {:induction false} CreateTableIdempotent(t: Table)
    ensures CreateTable(CreateTable(t)) == CreateTable(t)
    ensures CreateTableFull(CreateTableFull(t)) == CreateTableFull(t)
  {
  }

  /** SQLite folds only the ASCII letters when it compares identifiers. */
  function AsciiLower(c: char): char {
    if 'A' <= c <= 'Z' then (c as int + 32) as char else c
  }

  /** Two column names that SQLite treats as the same identifier. */
  predicate SameName(a: string, b: string) {
    |a| == |b| && forall i :: 0 <= i < |a| ==> AsciiLower(a[i]) == AsciiLower(b[i])
  }

  /** Some column of `columns` has the name `c`, ignoring ASCII case. */
  predicate NameTaken(columns: seq<string>, c: string) {
    exists i :: 0 <= i < |columns| && SameName(columns[i], c)
  }

  /** A name that is not taken does not appear verbatim either. */
  lemma {:induction false} FreeNameIsAbsent(columns: seq<string>, c: string)
    requires !NameTaken(columns, c)
    ensures c !in columns
  {
    assert SameName(c, c);
  }

  /**
   * `ALTER TABLE expenses ADD COLUMN c TEXT`: the engine rejects it when the
   * table does not exist or already has a column of that name, ignoring
   * ASCII case ("duplicate column name"); otherwise the column is appended.
   */
  function AddColumn(t: Table, c: string): (r: Option<Table>)
    ensures r.Some? <==> t.Present? && !NameTaken(t.columns, c)
    ensures r.Some? ==> c !in t.columns
    ensures r.Some? ==> r.value.Present? && r.value.columns == t.columns + [c]
    ensures r.Some? ==> forall x :: HasColumn(r.value, x) <==> HasColumn(t, x) || x == c
  {
    if t.Absent? || NameTaken(t.columns, c) then None
    else
      FreeNameIsAbsent(t.columns, c);
      Some(Present(t.columns + [c]))
  }

  /** A column that differs from an existing one only in ASCII case is rejected. */
  lemma {:induction false} CaseVariantRejected()
    ensures AddColumn(Present(BaseColumns + ["TAGS"]), TagsColumn).None?
  {
    var columns := BaseColumns + ["TAGS"];
    assert SameName(columns[6], TagsColumn);
  }

  /**
   * `PRAGMA table_info(expenses)` as `check_table_schema` reports it: the
   * column names, or `[]` when there is no table or the query raised.
   */
  function ReadColumns(t: Table, fails: bool): (r: seq<string>)
    ensures fails || t.Absent? ==> r == []
    ensures !fails && t.Present? ==> r == t.columns
    ensures forall c :: c in r <==> !fails && HasColumn(t, c)
  {
    if fails || t.Absent? then [] else t.columns
  }

  /**
   * After a successful `ADD COLUMN` the schema query reports the earlier
   * names followed by the new one, which it did not report before.
   */
  lemma {:induction false} ReadAfterAdd(t: Table, c: string)
    requires AddColumn(t, c).Some?
    ensures c !in ReadColumns(t, false)
    ensures ReadColumns(AddColumn(t, c).value, false) == ReadColumns(t, false) + [c]
  {
  }

  /** A schema query that raises cannot be told apart from a missing table. */
  lemma {:induction false} FailedReadLooksAbsent(t: Table)
    ensures ReadColumns(t, true) == ReadColumns(Absent, false) == []
  {
  }
}
