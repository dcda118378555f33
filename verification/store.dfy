/**
 * The rows of the `expenses` table and the statements `ExpenseRepository`
 * issues to change them. The store is the row sequence plus the largest id
 * `AUTOINCREMENT` has ever handed out, so deleted ids are never reused.
 */
module Store {
  import opened Wrappers

  /** One stored expense; `None` is SQL NULL. */
  datatype Row = Row(
    id: int,
    date: string,
    category: string,
    description: Option<string>,
    amount: real,
    payment: Option<string>,
    comments: Option<string>,
    tags: Option<string>)

  /** The five values `insert` and `update` take besides the id. */
  datatype Entry = Entry(
    date: string,
    category: string,
    description: Option<string>,
    amount: real,
    payment: Option<string>)

  /** Rows in storage order, and the `sqlite_sequence` value for the table. */
  datatype Store = Store(rows: seq<Row>, issued: nat)

  const Empty: Store := Store([], 0)

  function EntryOf(row: Row): Entry {
    Entry(row.date, row.category, row.description, row.amount, row.payment)
  }

  function Ids(rows: seq<Row>): set<int> {
    set i | 0 <= i < |rows| :: rows[i].id
  }

  predicate UniqueIds(rows: seq<Row>) {
    forall i, j :: 0 <= i < j < |rows| ==> rows[i].id != rows[j].id
  }

  /** Ids are unique and every one was issued by AUTOINCREMENT. */
  predicate Valid(s: Store) {
    && UniqueIds(s.rows)
    && forall i :: 0 <= i < |s.rows| ==> 1 <= s.rows[i].id <= s.issued
  }

  /** The largest id in the table, 0 when it is empty. */
  function MaxId(rows: seq<Row>): (m: nat)
    ensures forall i :: 0 <= i < |rows| ==> rows[i].id <= m
  {
    if |rows| == 0 then 0
    else
      var rest := MaxId(rows[1..]);
      assert forall i :: 1 <= i < |rows| ==> rows[i].id == rows[1..][i - 1].id;
      if rows[0].id > rest then rows[0].id else rest
  }

  /**
   * The id AUTOINCREMENT assigns: one more than the larger of the largest
   * id ever issued and the largest id in the table.
   */
  function NextId(s: Store): (id: int)
    ensures id > s.issued && id >= 1
    ensures id !in Ids(s.rows)
  {
    (if s.issued > MaxId(s.rows) then s.issued else MaxId(s.rows)) + 1
  }

  /** An insert that also fills `user_comments` and `tags`. */
  function InsertFull(s: Store, e: Entry, comments: Option<string>, tags: Option<string>): (r: Store)
    ensures |r.rows| == |s.rows| + 1 && r.rows[..|s.rows|] == s.rows
    ensures var n := r.rows[|s.rows|];
      && n.id !in Ids(s.rows) && n.id > s.issued
      && EntryOf(n) == e && n.comments == comments && n.tags == tags
      && r.issued == n.id
    ensures Ids(r.rows) == Ids(s.rows) + {NextId(s)}
    ensures Valid(s) ==> Valid(r)
  {
    var id := NextId(s);
    var r := Store(s.rows + [Row(id, e.date, e.category, e.description, e.amount, e.payment, comments, tags)], id);
    assert forall i :: 0 <= i < |s.rows| ==> r.rows[i] == s.rows[i];
    r
  }

  /**
   * `INSERT INTO expenses (date, category, description, amount,
   * payment_method) VALUES (?, ?, ?, ?, ?)`: the columns it does not name
   * are NULL.
   */
  function Insert(s: Store, e: Entry): (r: Store)
    ensures r == InsertFull(s, e, None, None)
    ensures var n := r.rows[|s.rows|]; n.comments.None? && n.tags.None?
  {
    var id := NextId(s);
    Store(s.rows + [Row(id, e.date, e.category, e.description, e.amount, e.payment, None, None)], id)
  }

  /** The row with `row.id == id` gets the five new values; any other row is kept. */
  function Patch(row: Row, id: int, e: Entry): Row {
    if row.id == id then row.(date := e.date, category := e.category, description := e.description,
                              amount := e.amount, payment := e.payment)
    else row
  }

  /**
   * `UPDATE expenses SET date = ?, category = ?, description = ?, amount = ?,
   * payment_method = ? WHERE id = ?`.
   */
  function Update(s: Store, id: int, e: Entry): (r: Store)
    ensures r.issued == s.issued && |r.rows| == |s.rows|
    ensures forall i :: 0 <= i < |s.rows| ==>
      && r.rows[i].id == s.rows[i].id
      && r.rows[i].comments == s.rows[i].comments
      && r.rows[i].tags == s.rows[i].tags
      && (if s.rows[i].id == id then EntryOf(r.rows[i]) == e else r.rows[i] == s.rows[i])
    ensures id !in Ids(s.rows) ==> r == s
    ensures Ids(r.rows) == Ids(s.rows)
    ensures Valid(s) ==> Valid(r)
  {
    var r := Store(seq(|s.rows|, i requires 0 <= i < |s.rows| => Patch(s.rows[i], id, e)), s.issued);
    SameIds(s.rows, r.rows);
    IdAbsent(s.rows, id);
    assert id !in Ids(s.rows) ==> r.rows == s.rows;
    r
  }

  /** Two row sequences with the same ids position by position have the same id set. */
  lemma {:induction false} SameIds(a: seq<Row>, b: seq<Row>)
    requires |a| == |b| && forall i :: 0 <= i < |a| ==> a[i].id == b[i].id
    ensures Ids(a) == Ids(b)
    ensures UniqueIds(a) ==> UniqueIds(b)
  {
    forall x | x in Ids(a) ensures x in Ids(b) {
      var i :| 0 <= i < |a| && a[i].id == x;
      assert b[i].id == x;
    }
  }

  lemma {:induction false} IdAbsent(rows: seq<Row>, id: int)
    ensures id !in Ids(rows) ==> forall i :: 0 <= i < |rows| ==> rows[i].id != id
  {
    if id !in Ids(rows) {
      forall i | 0 <= i < |rows| ensures rows[i].id != id {
        assert rows[i].id in Ids(rows);
      }
    }
  }

  /** An update that also replaces `user_comments` and `tags`. */
  function UpdateFull(s: Store, id: int, e: Entry, comments: Option<string>, tags: Option<string>): (r: Store)
    ensures r.issued == s.issued && |r.rows| == |s.rows|
    ensures forall i :: 0 <= i < |s.rows| ==>
      && r.rows[i].id == s.rows[i].id
      && (if s.rows[i].id == id
          then EntryOf(r.rows[i]) == e && r.rows[i].comments == comments && r.rows[i].tags == tags
          else r.rows[i] == s.rows[i])
    ensures id !in Ids(s.rows) ==> r == s
    ensures Ids(r.rows) == Ids(s.rows)
    ensures Valid(s) ==> Valid(r)
  {
    var r := Store(seq(|s.rows|, i requires 0 <= i < |s.rows| =>
                     if s.rows[i].id == id then Row(id, e.date, e.category, e.description, e.amount, e.payment, comments, tags)
                     else s.rows[i]), s.issued);
    SameIds(s.rows, r.rows);
    IdAbsent(s.rows, id);
    assert id !in Ids(s.rows) ==> r.rows == s.rows;
    r
  }

  /** How many rows carry `id`. */
  function CountId(rows: seq<Row>, id: int): nat {
    if |rows| == 0 then 0 else (if rows[0].id == id then 1 else 0) + CountId(rows[1..], id)
  }

  /** With unique ids, an id that occurs occurs exactly once. */
  lemma {:induction false} CountUnique(rows: seq<Row>, id: int)
    requires UniqueIds(rows)
    ensures CountId(rows, id) == (if id in Ids(rows) then 1 else 0)
  {
    if |rows| > 0 {
      CountUnique(rows[1..], id);
      assert Ids(rows) == {rows[0].id} + Ids(rows[1..]) by {
        forall x | x in Ids(rows) ensures x in {rows[0].id} + Ids(rows[1..]) {
          var i :| 0 <= i < |rows| && rows[i].id == x;
          if i > 0 { assert rows[1..][i - 1].id == x; }
        }
      }
      if rows[0].id == id {
        forall i | 0 <= i < |rows[1..]| ensures rows[1..][i].id != id {
          assert rows[i + 1].id != rows[0].id;
        }
      }
    }
  }

  /** The rows whose id differs from `id`, in their original order. */
  function Without(rows: seq<Row>, id: int): (r: seq<Row>)
    ensures forall row :: row in r <==> row in rows && row.id != id
    ensures |r| == |rows| - CountId(rows, id)
    ensures CountId(rows, id) == 0 ==> r == rows
    ensures UniqueIds(rows) ==> UniqueIds(r)
  {
    if |rows| == 0 then []
    else
      var rest := Without(rows[1..], id);
      assert rows == [rows[0]] + rows[1..];
      if rows[0].id == id then rest
      else
        KeepFirstUnique(rows, rest);
        [rows[0]] + rest
  }

  /** Keeping the first row in front of a filtered tail keeps the ids unique. */
  lemma {:induction false} KeepFirstUnique(rows: seq<Row>, rest: seq<Row>)
    requires |rows| > 0
    requires forall row :: row in rest ==> row in rows[1..]
    requires UniqueIds(rows[1..]) ==> UniqueIds(rest)
    ensures UniqueIds(rows) ==> UniqueIds([rows[0]] + rest)
  {
    if UniqueIds(rows) {
      var r := [rows[0]] + rest;
      assert UniqueIds(rows[1..]) by {
        forall i, j | 0 <= i < j < |rows[1..]| ensures rows[1..][i].id != rows[1..][j].id {
          assert rows[1..][i] == rows[i + 1] && rows[1..][j] == rows[j + 1];
        }
      }
      forall i, j | 0 <= i < j < |r| ensures r[i].id != r[j].id {
        if i == 0 {
          assert r[j] in rows[1..] by { assert r[j] == rest[j - 1]; }
          var k :| 0 <= k < |rows[1..]| && rows[1..][k] == r[j];
          assert rows[k + 1] == r[j];
        } else {
          assert r[i] == rest[i - 1] && r[j] == rest[j - 1];
        }
      }
    }
  }

  /** Deleting removes exactly `id` from the id set. */
  lemma {:induction false} WithoutIds(rows: seq<Row>, id: int)
    ensures Ids(Without(rows, id)) == Ids(rows) - {id}
    ensures id !in Ids(rows) ==> Without(rows, id) == rows
  {
    var r := Without(rows, id);
    forall x | x in Ids(rows) - {id} ensures x in Ids(r) {
      var i :| 0 <= i < |rows| && rows[i].id == x;
      assert rows[i] in r;
    }
    forall x | x in Ids(r) ensures x in Ids(rows) - {id} {
      var i :| 0 <= i < |r| && r[i].id == x;
      assert r[i] in rows;
    }
    if id !in Ids(rows) {
      IdAbsent(rows, id);
      CountAbsent(rows, id);
    }
  }

  lemma {:induction false} CountAbsent(rows: seq<Row>, id: int)
    requires forall i :: 0 <= i < |rows| ==> rows[i].id != id
    ensures CountId(rows, id) == 0
  {
    if |rows| > 0 {
      CountAbsent(rows[1..], id);
    }
  }

  lemma {:induction false} DeleteKeepsValid(s: Store, id: int)
    ensures Valid(s) ==> Valid(Store(Without(s.rows, id), s.issued))
    ensures Valid(s) && id in Ids(s.rows) ==> |Without(s.rows, id)| == |s.rows| - 1
  {
    if Valid(s) {
      CountUnique(s.rows, id);
      var r := Without(s.rows, id);
      forall i | 0 <= i < |r| ensures 1 <= r[i].id <= s.issued {
        assert r[i] in s.rows;
      }
    }
  }

  /** `DELETE FROM expenses WHERE id = ?` */
  function Delete(s: Store, id: int): (r: Store)
    ensures r.issued == s.issued
    ensures Ids(r.rows) == Ids(s.rows) - {id}
    ensures forall row :: row in r.rows <==> row in s.rows && row.id != id
    ensures id !in Ids(s.rows) ==> r == s
    ensures Valid(s) && id in Ids(s.rows) ==> |r.rows| == |s.rows| - 1
    ensures Valid(s) ==> Valid(r)
  {
    var r := Store(Without(s.rows, id), s.issued);
    DeleteKeepsValid(s, id);
    WithoutIds(s.rows, id);
    r
  }

  /** One repository call that changes the table. */
  datatype Op = InsertOp(entry: Entry) | UpdateOp(id: int, entry: Entry) | DeleteOp(id: int)

  function Apply(s: Store, op: Op): Store {
    match op
    case InsertOp(e) => Insert(s, e)
    case UpdateOp(id, e) => Update(s, id, e)
    case DeleteOp(id) => Delete(s, id)
  }

  /** The calls applied in order. */
  function Run(s: Store, ops: seq<Op>): Store
    decreases |ops|
  {
    if |ops| == 0 then s else Run(Apply(s, ops[0]), ops[1..])
  }

  /** Any sequence of calls keeps ids unique and issued, and the counter never goes back. */
  lemma {:induction false} RunKeepsValid(s: Store, ops: seq<Op>)
    requires Valid(s)
    ensures Valid(Run(s, ops))
    ensures s.issued <= Run(s, ops).issued
    decreases |ops|
  {
    if |ops| > 0 {
      RunKeepsValid(Apply(s, ops[0]), ops[1..]);
    }
  }

  /** An id that was issued and is no longer in the table never comes back. */
  lemma {:induction false} StaysDeleted(s: Store, id: int, ops: seq<Op>)
    requires id <= s.issued && id !in Ids(s.rows)
    ensures id !in Ids(Run(s, ops).rows)
    decreases |ops|
  {
    if |ops| > 0 {
      StaysDeleted(Apply(s, ops[0]), id, ops[1..]);
    }
  }

  /** After deleting a stored row, no later insert, update or delete brings its id back. */
  lemma {:induction false} DeletedIdNeverReturns(s: Store, id: int, ops: seq<Op>)
    requires Valid(s) && id in Ids(s.rows)
    ensures id !in Ids(Run(Delete(s, id), ops).rows)
  {
    StaysDeleted(Delete(s, id), id, ops);
  }
}
