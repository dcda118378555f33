/**
 * The read-side statements of `ExpenseRepository`: the full listing, the
 * summary statistics, the per-category totals and the largest expenses.
 */
module Queries {
  import opened Wrappers
  import opened Store
  import Collation
  import Sorting
  import Sums

  /** The six columns `get_all` selects. */
  datatype Listed = Listed(
    id: int,
    date: string,
    category: string,
    description: Option<string>,
    amount: real,
    payment: Option<string>)

  function ListedOf(row: Row): Listed {
    Listed(row.id, row.date, row.category, row.description, row.amount, row.payment)
  }

  function Listing(rows: seq<Row>): (r: seq<Listed>)
    ensures |r| == |rows| && forall i :: 0 <= i < |rows| ==> r[i] == ListedOf(rows[i])
  {
    seq(|rows|, i requires 0 <= i < |rows| => ListedOf(rows[i]))
  }

  function IdOf(x: Listed): int {
    x.id
  }

  /** `a` may be listed before `b` under `ORDER BY date DESC, id DESC`. */
  predicate NewerOrSame(a: Listed, b: Listed) {
    Collation.Less(b.date, a.date) || (a.date == b.date && a.id >= b.id)
  }

  /** Later dates first, and on the same date higher ids first. */
  predicate StrictlyNewer(a: Listed, b: Listed) {
    Collation.Less(b.date, a.date) || (a.date == b.date && a.id > b.id)
  }

  lemma {:induction false} ListingOrderIsTotalPreorder()
    ensures Sorting.TotalPreorder(NewerOrSame)
  {
    forall a: Listed, b: Listed ensures NewerOrSame(a, b) || NewerOrSame(b, a) {
      if a.date != b.date {
        Collation.LessTotal(a.date, b.date);
      }
    }
    forall a: Listed, b: Listed, c: Listed | NewerOrSame(a, b) && NewerOrSame(b, c)
      ensures NewerOrSame(a, c)
    {
      if Collation.Less(b.date, a.date) && Collation.Less(c.date, b.date) {
        Collation.LessTransitive(c.date, b.date, a.date);
      }
    }
  }

  /** Two rows that may each be listed before the other have the same id. */
  lemma {:induction false} ListingOrderSeparatesIds()
    ensures forall x, y :: NewerOrSame(x, y) && NewerOrSame(y, x) ==> IdOf(x) == IdOf(y)
  {
    forall x: Listed, y: Listed | NewerOrSame(x, y) && NewerOrSame(y, x)
      ensures IdOf(x) == IdOf(y)
    {
      Collation.LessIrreflexive(x.date);
      if Collation.Less(y.date, x.date) {
        Collation.LessAsymmetric(y.date, x.date);
      }
    }
  }

  /**
   * `SELECT id, date, category, description, amount, payment_method FROM
   * expenses ORDER BY date DESC, id DESC`: every stored row exactly once,
   * most recent first.
   */
  function GetAll(s: Store): (r: seq<Listed>)
    ensures multiset(r) == multiset(Listing(s.rows))
    ensures Sorting.SortedBy(r, NewerOrSame)
  {
    ListingOrderIsTotalPreorder();
    Sorting.SortSorted(Listing(s.rows), NewerOrSame);
    Sorting.Sort(Listing(s.rows), NewerOrSame)
  }

  /** With unique ids the listing is strictly ordered: no two rows tie. */
  lemma {:induction false} GetAllStrict(s: Store)
    requires Valid(s)
    ensures forall i, j :: 0 <= i < j < |GetAll(s)| ==> StrictlyNewer(GetAll(s)[i], GetAll(s)[j])
  {
    var r := GetAll(s);
    var l := Listing(s.rows);
    assert Sorting.KeysDistinct(l, IdOf) by {
      forall i, j | 0 <= i < j < |l| ensures IdOf(l[i]) != IdOf(l[j]) {
        assert l[i].id == s.rows[i].id && l[j].id == s.rows[j].id;
      }
    }
    Sorting.PermutationKeepsKeysDistinct(r, l, IdOf);
    forall i, j | 0 <= i < j < |r| ensures StrictlyNewer(r[i], r[j]) {
      assert NewerOrSame(r[i], r[j]);
      assert IdOf(r[i]) != IdOf(r[j]);
    }
  }

  /**
   * The listing is fully determined: any arrangement of the stored rows that
   * is ordered by date and id descending is exactly what `get_all` returns.
   */
  lemma {:induction false} GetAllIsUnique(s: Store, xs: seq<Listed>)
    requires Valid(s)
    requires multiset(xs) == multiset(Listing(s.rows))
    requires Sorting.SortedBy(xs, NewerOrSame)
    ensures xs == GetAll(s)
  {
    var l := Listing(s.rows);
    assert Sorting.KeysDistinct(l, IdOf) by {
      forall i, j | 0 <= i < j < |l| ensures IdOf(l[i]) != IdOf(l[j]) {
        assert l[i].id == s.rows[i].id && l[j].id == s.rows[j].id;
      }
    }
    var r := GetAll(s);
    Sorting.PermutationKeepsKeysDistinct(r, l, IdOf);
    ListingOrderSeparatesIds();
    Sorting.SortedPermutationsEqual(xs, r, NewerOrSame, IdOf);
  }

  function Amount(row: Row): real {
    row.amount
  }

  /** `SUM(amount)` over the rows, 0.0 for none. */
  function Total(rows: seq<Row>): real {
    Sums.Sum(rows, Amount)
  }

  datatype Stats = Stats(total: real, count: nat, average: real)

  /**
   * `SELECT SUM(amount), COUNT(*), AVG(amount) FROM expenses`, with the NULL
   * results of an empty table replaced by `0.0`, `0` and `0.0`.
   */
  function SummaryStats(s: Store): (r: Stats)
    ensures r.count == |s.rows|
    ensures r.total == Total(s.rows)
    ensures |s.rows| == 0 ==> r == Stats(0.0, 0, 0.0)
    ensures r.count > 0 ==> r.average * (r.count as real) == r.total
  {
    if |s.rows| == 0 then Stats(0.0, 0, 0.0)
    else
      var total := Total(s.rows);
      Stats(total, |s.rows|, total / (|s.rows| as real))
  }

  /** An insert adds one to the count and its amount to the total. */
  lemma {:induction false} StatsAfterInsert(s: Store, e: Entry)
    ensures SummaryStats(Insert(s, e)).total == SummaryStats(s).total + e.amount
    ensures SummaryStats(Insert(s, e)).count == SummaryStats(s).count + 1
  {
    var r := Insert(s, e);
    assert r.rows == s.rows + [r.rows[|s.rows|]];
    Sums.SumAppend(s.rows, [r.rows[|s.rows|]], Amount);
  }

  /** Updating the amount of a stored row moves the total by the difference. */
  lemma {:induction false} StatsAfterUpdate(s: Store, k: nat, e: Entry)
    requires Valid(s) && k < |s.rows|
    ensures SummaryStats(Update(s, s.rows[k].id, e)).total == SummaryStats(s).total - s.rows[k].amount + e.amount
    ensures SummaryStats(Update(s, s.rows[k].id, e)).count == SummaryStats(s).count
  {
    var r := Update(s, s.rows[k].id, e);
    Sums.SumRemove(s.rows, k, Amount);
    Sums.SumRemove(r.rows, k, Amount);
    assert r.rows[..k] == s.rows[..k];
    assert r.rows[k + 1..] == s.rows[k + 1..];
  }

  /** Deleting a stored row takes its amount off the total. */
  lemma {:induction false} StatsAfterDelete(s: Store, k: nat)
    requires Valid(s) && k < |s.rows|
    ensures SummaryStats(Delete(s, s.rows[k].id)).total == SummaryStats(s).total - s.rows[k].amount
    ensures SummaryStats(Delete(s, s.rows[k].id)).count == SummaryStats(s).count - 1
  {
    var id := s.rows[k].id;
    var r := Delete(s, id);
    WithoutAt(s.rows, k);
    Sums.SumRemove(s.rows, k, Amount);
  }

  /** Deleting works stretch by stretch, so the kept rows keep their stored order. */
  lemma {:induction false} WithoutAppend(a: seq<Row>, b: seq<Row>, id: int)
    ensures Without(a + b, id) == Without(a, id) + Without(b, id)
  {
    if |a| > 0 {
      var x, rest := a[0], a[1..];
      assert a == [x] + rest;
      assert a + b == [x] + (rest + b);
      WithoutAppend(rest, b, id);
      WithoutCons(x, rest, id);
      WithoutCons(x, rest + b, id);
    } else {
      assert a + b == b;
    }
  }

  lemma {:induction false} WithoutCons(x: Row, rest: seq<Row>, id: int)
    ensures Without([x] + rest, id) == if x.id == id then Without(rest, id) else [x] + Without(rest, id)
  {
    assert ([x] + rest)[1..] == rest;
  }

  lemma {:induction false} WithoutAbsent(rows: seq<Row>, id: int)
    requires forall i :: 0 <= i < |rows| ==> rows[i].id != id
    ensures Without(rows, id) == rows
  {
    CountAbsent(rows, id);
  }

  lemma {:induction false} WithoutSingle(x: Row)
    ensures Without([x], x.id) == []
  {
    assert [x][1..] == [];
  }

  lemma {:induction false} OthersDiffer(rows: seq<Row>, k: nat, a: seq<Row>, b: seq<Row>)
    requires UniqueIds(rows) && k < |rows| && a == rows[..k] && b == rows[k + 1..]
    ensures forall i :: 0 <= i < |a| ==> a[i].id != rows[k].id
    ensures forall i :: 0 <= i < |b| ==> b[i].id != rows[k].id
  {
    forall i | 0 <= i < |a| ensures a[i].id != rows[k].id {
      assert a[i] == rows[i];
    }
    forall i | 0 <= i < |b| ensures b[i].id != rows[k].id {
      assert b[i] == rows[k + 1 + i];
    }
  }

  /** With unique ids, deleting the id of row `k` removes exactly position `k`. */
  lemma {:induction false} WithoutAt(rows: seq<Row>, k: nat)
    requires UniqueIds(rows) && k < |rows|
    ensures Without(rows, rows[k].id) == rows[..k] + rows[k + 1..]
  {
    var id, x := rows[k].id, rows[k];
    var a, b := rows[..k], rows[k + 1..];
    assert rows == (a + [x]) + b;
    OthersDiffer(rows, k, a, b);
    WithoutAbsent(a, id);
    WithoutAbsent(b, id);
    WithoutSingle(x);
    WithoutAppend(a, [x], id);
    WithoutAppend(a + [x], b, id);
    calc {
      Without(rows, id);
      Without((a + [x]) + b, id);
      Without(a + [x], id) + Without(b, id);
      (Without(a, id) + Without([x], id)) + Without(b, id);
      (a + []) + b;
      { assert a + [] == a; }
      a + b;
    }
  }

  datatype CategoryTotal = CategoryTotal(category: string, total: real)

  function CategoryOf(x: CategoryTotal): string {
    x.category
  }

  function TotalOf(x: CategoryTotal): real {
    x.total
  }

  /** `SUM(amount)` over the rows of one category. */
  function CategoryTotalIn(rows: seq<Row>, c: string): real {
    if |rows| == 0 then 0.0
    else (if rows[0].category == c then rows[0].amount else 0.0) + CategoryTotalIn(rows[1..], c)
  }

  function Categories(rows: seq<Row>): set<string> {
    set i | 0 <= i < |rows| :: rows[i].category
  }

  function CategoriesOf(xs: seq<CategoryTotal>): set<string> {
    set i | 0 <= i < |xs| :: xs[i].category
  }

  /** The total recorded for `c` in a list of groups, 0.0 when it has none. */
  function TotalFor(xs: seq<CategoryTotal>, c: string): real {
    if |xs| == 0 then 0.0 else if xs[0].category == c then xs[0].total else TotalFor(xs[1..], c)
  }

  lemma {:induction false} CategoryTotalAbsent(rows: seq<Row>, c: string)
    requires c !in Categories(rows)
    ensures CategoryTotalIn(rows, c) == 0.0
  {
    if |rows| > 0 {
      assert rows[0].category in Categories(rows);
      assert Categories(rows[1..]) <= Categories(rows) by {
        forall x | x in Categories(rows[1..]) ensures x in Categories(rows) {
          var i :| 0 <= i < |rows[1..]| && rows[1..][i].category == x;
          assert rows[i + 1].category == x;
        }
      }
      CategoryTotalAbsent(rows[1..], c);
    }
  }

  lemma {:induction false} TotalForMember(xs: seq<CategoryTotal>, k: nat)
    requires k < |xs| && Sorting.KeysDistinct(xs, CategoryOf)
    ensures TotalFor(xs, xs[k].category) == xs[k].total
  {
    if k > 0 {
      assert CategoryOf(xs[0]) != CategoryOf(xs[k]);
      assert xs[1..][k - 1] == xs[k];
      TotalForMember(xs[1..], k - 1);
    }
  }

  lemma {:induction false} TotalForAbsent(xs: seq<CategoryTotal>, c: string)
    requires c !in CategoriesOf(xs)
    ensures TotalFor(xs, c) == 0.0
  {
    if |xs| > 0 {
      assert xs[0].category in CategoriesOf(xs);
      assert CategoriesOf(xs[1..]) <= CategoriesOf(xs) by {
        forall x | x in CategoriesOf(xs[1..]) ensures x in CategoriesOf(xs) {
          var i :| 0 <= i < |xs[1..]| && xs[1..][i].category == x;
          assert xs[i + 1].category == x;
        }
      }
      TotalForAbsent(xs[1..], c);
    }
  }

  /** Adds `amount` to the group of `c`, opening a group if there is none. */
  function AddTo(acc: seq<CategoryTotal>, c: string, amount: real): (r: seq<CategoryTotal>)
    requires Sorting.KeysDistinct(acc, CategoryOf)
    ensures Sorting.KeysDistinct(r, CategoryOf)
    ensures CategoriesOf(r) == CategoriesOf(acc) + {c}
    ensures forall i :: 0 <= i < |r| && r[i].category != c ==> r[i] in acc
    ensures forall i :: 0 <= i < |r| && r[i].category == c ==> r[i].total == TotalFor(acc, c) + amount
    ensures Sums.Sum(r, TotalOf) == Sums.Sum(acc, TotalOf) + amount
  {
    if |acc| == 0 then
      var r := [CategoryTotal(c, amount)];
      assert r[0].category in CategoriesOf(r);
      r
    else if acc[0].category == c then
      AddToHead(acc, amount);
      [CategoryTotal(c, acc[0].total + amount)] + acc[1..]
    else
      DropKeysDistinct(acc);
      var rest := AddTo(acc[1..], c, amount);
      AddToTail(acc, c, rest);
      [acc[0]] + rest
  }

  lemma {:induction false} DropKeysDistinct(acc: seq<CategoryTotal>)
    requires |acc| > 0 && Sorting.KeysDistinct(acc, CategoryOf)
    ensures Sorting.KeysDistinct(acc[1..], CategoryOf)
    ensures acc[0].category !in CategoriesOf(acc[1..])
    ensures CategoriesOf(acc) == {acc[0].category} + CategoriesOf(acc[1..])
  {
    forall i, j | 0 <= i < j < |acc[1..]| ensures CategoryOf(acc[1..][i]) != CategoryOf(acc[1..][j]) {
      assert acc[1..][i] == acc[i + 1] && acc[1..][j] == acc[j + 1];
    }
    forall i | 0 <= i < |acc[1..]| ensures acc[1..][i].category != acc[0].category {
      assert acc[1..][i] == acc[i + 1];
      assert CategoryOf(acc[0]) != CategoryOf(acc[i + 1]);
    }
    forall x | x in CategoriesOf(acc) ensures x in {acc[0].category} + CategoriesOf(acc[1..]) {
      var i :| 0 <= i < |acc| && acc[i].category == x;
      if i > 0 { assert acc[1..][i - 1].category == x; }
    }
  }

  lemma {:induction false} AddToHead(acc: seq<CategoryTotal>, amount: real)
    requires |acc| > 0 && Sorting.KeysDistinct(acc, CategoryOf)
    ensures var r := [CategoryTotal(acc[0].category, acc[0].total + amount)] + acc[1..];
      && Sorting.KeysDistinct(r, CategoryOf)
      && CategoriesOf(r) == CategoriesOf(acc)
      && (forall i :: 0 <= i < |r| && r[i].category != acc[0].category ==> r[i] in acc)
      && (forall i :: 0 <= i < |r| && r[i].category == acc[0].category ==> i == 0)
      && Sums.Sum(r, TotalOf) == Sums.Sum(acc, TotalOf) + amount
  {
    var c := acc[0].category;
    var r := [CategoryTotal(c, acc[0].total + amount)] + acc[1..];
    DropKeysDistinct(acc);
    assert r[1..] == acc[1..];
    forall i, j | 0 <= i < j < |r| ensures CategoryOf(r[i]) != CategoryOf(r[j]) {
      assert CategoryOf(acc[i]) != CategoryOf(acc[j]);
    }
    forall x | x in CategoriesOf(r) ensures x in CategoriesOf(acc) {
      var i :| 0 <= i < |r| && r[i].category == x;
      assert acc[i].category == x;
    }
    forall x | x in CategoriesOf(acc) ensures x in CategoriesOf(r) {
      var i :| 0 <= i < |acc| && acc[i].category == x;
      assert r[i].category == x;
    }
    forall i | 0 < i < |r| ensures r[i].category != c {
      assert CategoryOf(acc[0]) != CategoryOf(acc[i]);
    }
  }

  lemma {:induction false} AddToTail(acc: seq<CategoryTotal>, c: string, rest: seq<CategoryTotal>)
    requires |acc| > 0 && acc[0].category != c
    requires Sorting.KeysDistinct(acc, CategoryOf)
    requires Sorting.KeysDistinct(rest, CategoryOf)
    requires CategoriesOf(rest) == CategoriesOf(acc[1..]) + {c}
    requires forall i :: 0 <= i < |rest| && rest[i].category != c ==> rest[i] in acc[1..]
    ensures var r := [acc[0]] + rest;
      && Sorting.KeysDistinct(r, CategoryOf)
      && CategoriesOf(r) == CategoriesOf(acc) + {c}
      && (forall i :: 0 <= i < |r| && r[i].category != c ==> r[i] in acc)
  {
    var r := [acc[0]] + rest;
    DropKeysDistinct(acc);
    assert r[1..] == rest;
    forall i, j | 0 <= i < j < |r| ensures CategoryOf(r[i]) != CategoryOf(r[j]) {
      if i == 0 {
        assert r[j].category in CategoriesOf(rest) by { assert rest[j - 1] == r[j]; }
      } else {
        assert rest[i - 1] == r[i] && rest[j - 1] == r[j];
      }
    }
    forall x | x in CategoriesOf(r) ensures x in CategoriesOf(acc) + {c} {
      var i :| 0 <= i < |r| && r[i].category == x;
      if i > 0 { assert rest[i - 1].category == x; }
    }
    forall x | x in CategoriesOf(acc) + {c} ensures x in CategoriesOf(r) {
      if x == acc[0].category {
        assert r[0].category == x;
      } else {
        assert x in CategoriesOf(rest);
        var i :| 0 <= i < |rest| && rest[i].category == x;
        assert r[i + 1].category == x;
      }
    }
    forall i | 0 <= i < |r| && r[i].category != c ensures r[i] in acc {
      if i > 0 { assert rest[i - 1] == r[i]; }
    }
  }

  /** The rows grouped by category, in order of each category's first row. */
  function Group(rows: seq<Row>): (g: seq<CategoryTotal>)
    ensures Sorting.KeysDistinct(g, CategoryOf)
  {
    if |rows| == 0 then [] else AddTo(Group(rows[1..]), rows[0].category, rows[0].amount)
  }

  /** One group per category, each holding that category's sum, together summing to the total. */
  lemma {:induction false} GroupFacts(rows: seq<Row>)
    ensures CategoriesOf(Group(rows)) == Categories(rows)
    ensures forall i :: 0 <= i < |Group(rows)| ==> Group(rows)[i].total == CategoryTotalIn(rows, Group(rows)[i].category)
    ensures Sums.Sum(Group(rows), TotalOf) == Total(rows)
  {
    if |rows| > 0 {
      GroupFacts(rows[1..]);
      CategoriesCons(rows);
      GroupTotalsStep(rows);
    }
  }

  lemma {:induction false} CategoriesCons(rows: seq<Row>)
    requires |rows| > 0
    ensures Categories(rows) == Categories(rows[1..]) + {rows[0].category}
  {
    var tail, c := rows[1..], rows[0].category;
    forall x | x in Categories(rows) ensures x in Categories(tail) + {c} {
      var i :| 0 <= i < |rows| && rows[i].category == x;
      if i > 0 { assert tail[i - 1].category == x; }
    }
    forall x | x in Categories(tail) ensures x in Categories(rows) {
      var i :| 0 <= i < |tail| && tail[i].category == x;
      assert rows[i + 1].category == x;
    }
  }

  /** Adding the first row to the groups of the rest keeps every group's total right. */
  lemma {:induction false} GroupTotalsStep(rows: seq<Row>)
    requires |rows| > 0
    requires CategoriesOf(Group(rows[1..])) == Categories(rows[1..])
    requires forall i :: 0 <= i < |Group(rows[1..])| ==>
      Group(rows[1..])[i].total == CategoryTotalIn(rows[1..], Group(rows[1..])[i].category)
    ensures forall i :: 0 <= i < |Group(rows)| ==> Group(rows)[i].total == CategoryTotalIn(rows, Group(rows)[i].category)
  {
    var tail, c := rows[1..], rows[0].category;
    var acc := Group(tail);
    var g := Group(rows);
    assert g == AddTo(acc, c, rows[0].amount);
    forall i | 0 <= i < |g| ensures g[i].total == CategoryTotalIn(rows, g[i].category) {
      var x := g[i];
      if x.category != c {
      } else if c in CategoriesOf(acc) {
        var k :| 0 <= k < |acc| && acc[k].category == c;
        TotalForMember(acc, k);
      } else {
        TotalForAbsent(acc, c);
        CategoryTotalAbsent(tail, c);
      }
    }
  }

  /** `a` may come before `b` under `ORDER BY SUM(amount) DESC`. */
  predicate LargerOrEqualTotal(a: CategoryTotal, b: CategoryTotal) {
    a.total >= b.total
  }

  /**
   * `SELECT category, SUM(amount) FROM expenses GROUP BY category ORDER BY
   * SUM(amount) DESC`. SQL leaves the order of equal totals open, and so
   * does this contract.
   */
  function TotalsByCategory(s: Store): (r: seq<CategoryTotal>)
    ensures Sorting.KeysDistinct(r, CategoryOf)
    ensures CategoriesOf(r) == Categories(s.rows)
    ensures forall i :: 0 <= i < |r| ==> r[i].total == CategoryTotalIn(s.rows, r[i].category)
    ensures forall i, j :: 0 <= i < j < |r| ==> r[i].total >= r[j].total
    ensures Sums.Sum(r, TotalOf) == Total(s.rows)
  {
    var g := Group(s.rows);
    var r := Sorting.Sort(g, LargerOrEqualTotal);
    TotalsByCategoryFacts(s.rows, g, r);
    r
  }

  lemma {:induction false} TotalsByCategoryFacts(rows: seq<Row>, g: seq<CategoryTotal>, r: seq<CategoryTotal>)
    requires g == Group(rows) && r == Sorting.Sort(g, LargerOrEqualTotal)
    ensures Sorting.KeysDistinct(r, CategoryOf)
    ensures CategoriesOf(r) == Categories(rows)
    ensures forall i :: 0 <= i < |r| ==> r[i].total == CategoryTotalIn(rows, r[i].category)
    ensures forall i, j :: 0 <= i < j < |r| ==> r[i].total >= r[j].total
    ensures Sums.Sum(r, TotalOf) == Total(rows)
  {
    GroupFacts(rows);
    Sorting.SortSorted(g, LargerOrEqualTotal);
    Sorting.PermutationKeepsKeysDistinct(r, g, CategoryOf);
    Sums.SumPermutation(r, g, TotalOf);
    SameElements(r, g);
    CategoriesOfPermutation(r, g);
  }

  lemma {:induction false} SameElements<T>(a: seq<T>, b: seq<T>)
    requires multiset(a) == multiset(b)
    ensures forall i :: 0 <= i < |a| ==> a[i] in b
  {
    forall i | 0 <= i < |a| ensures a[i] in b {
      assert a[i] in multiset(b);
    }
  }

  lemma {:induction false} CategoriesOfPermutation(a: seq<CategoryTotal>, b: seq<CategoryTotal>)
    requires multiset(a) == multiset(b)
    ensures CategoriesOf(a) == CategoriesOf(b)
  {
    SameElements(a, b);
    SameElements(b, a);
    forall x | x in CategoriesOf(a) ensures x in CategoriesOf(b) {
      var i :| 0 <= i < |a| && a[i].category == x;
      var k :| 0 <= k < |b| && b[k] == a[i];
    }
    forall x | x in CategoriesOf(b) ensures x in CategoriesOf(a) {
      var k :| 0 <= k < |b| && b[k].category == x;
      var i :| 0 <= i < |a| && a[i] == b[k];
    }
  }

  /** The four columns `get_top_expenses` selects. */
  datatype TopExpense = TopExpense(date: string, category: string, description: Option<string>, amount: real)

  function TopExpenseOf(row: Row): TopExpense {
    TopExpense(row.date, row.category, row.description, row.amount)
  }

  /** How many rows `LIMIT limit` keeps out of `n`; SQLite reads a negative limit as no limit. */
  function RowCap(limit: int, n: nat): nat {
    if limit < 0 || limit > n then n else limit
  }

  /** `a` may come before `b` under `ORDER BY amount DESC`. */
  predicate LargerOrEqualAmount(a: Row, b: Row) {
    a.amount >= b.amount
  }

  /**
   * The rows `ORDER BY amount DESC LIMIT limit` keeps: the right number of
   * stored rows, largest first, none left out larger than one kept.
   */
  function TopRows(rows: seq<Row>, limit: int): (r: seq<Row>)
    ensures |r| == RowCap(limit, |rows|)
    ensures forall i, j :: 0 <= i < j < |r| ==> r[i].amount >= r[j].amount
    ensures multiset(r) <= multiset(rows)
    ensures forall x | x in multiset(rows) - multiset(r) :: forall i :: 0 <= i < |r| ==> x.amount <= r[i].amount
  {
    var sorted := Sorting.Sort(rows, LargerOrEqualAmount);
    var k := RowCap(limit, |rows|);
    TopRowsFacts(rows, sorted, k);
    sorted[..k]
  }

  lemma {:induction false} TopRowsFacts(rows: seq<Row>, sorted: seq<Row>, k: nat)
    requires sorted == Sorting.Sort(rows, LargerOrEqualAmount) && k <= |rows|
    ensures forall i, j :: 0 <= i < j < k ==> sorted[i].amount >= sorted[j].amount
    ensures multiset(sorted[..k]) <= multiset(rows)
    ensures forall x | x in multiset(rows) - multiset(sorted[..k]) :: forall i :: 0 <= i < k ==> x.amount <= sorted[i].amount
  {
    Sorting.SortSorted(rows, LargerOrEqualAmount);
    PrefixSplit(sorted, k);
    forall x | x in multiset(rows) - multiset(sorted[..k])
      ensures forall i :: 0 <= i < k ==> x.amount <= sorted[i].amount
    {
      OmittedIsSmaller(sorted, k, x);
    }
  }

  lemma {:induction false} PrefixSplit<T>(xs: seq<T>, k: nat)
    requires k <= |xs|
    ensures multiset(xs) == multiset(xs[..k]) + multiset(xs[k..])
  {
    assert xs == xs[..k] + xs[k..];
  }

  lemma {:induction false} OmittedIsSmaller(sorted: seq<Row>, k: nat, x: Row)
    requires k <= |sorted| && Sorting.SortedBy(sorted, LargerOrEqualAmount)
    requires x in multiset(sorted[k..])
    ensures forall i :: 0 <= i < k ==> x.amount <= sorted[i].amount
  {
    var m :| 0 <= m < |sorted[k..]| && sorted[k..][m] == x;
    assert sorted[k + m] == x;
    forall i | 0 <= i < k ensures x.amount <= sorted[i].amount {
      assert LargerOrEqualAmount(sorted[i], sorted[k + m]);
    }
  }

  /** `SELECT date, category, description, amount FROM expenses ORDER BY amount DESC LIMIT ?` */
  function GetTopExpenses(s: Store, limit: int): (r: seq<TopExpense>)
    ensures |r| == RowCap(limit, |s.rows|)
    ensures forall i, j :: 0 <= i < j < |r| ==> r[i].amount >= r[j].amount
    ensures var kept := TopRows(s.rows, limit);
      && |kept| == |r|
      && multiset(kept) <= multiset(s.rows)
      && (forall i :: 0 <= i < |r| ==> r[i] == TopExpenseOf(kept[i]))
      && (forall x | x in multiset(s.rows) - multiset(kept) :: forall i :: 0 <= i < |r| ==> x.amount <= r[i].amount)
  {
    var top := TopRows(s.rows, limit);
    seq(|top|, i requires 0 <= i < |top| => TopExpenseOf(top[i]))
  }
}
