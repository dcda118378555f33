/**
 * The add/edit expense form: filling its fields from a record, and the
 * checks and repository call behind its Save button.
 */
module Forms {
  import opened Wrappers
  import opened Text
  import opened Calendar
  import Store
  import Queries

  /**
   * A record handed to the form: the id and the five base columns, then
   * whatever further columns the query returned (two, from an eight-column
   * table).
   */
  datatype Record = Record(
    id: int,
    date: string,
    category: string,
    description: Option<string>,
    amount: real,
    payment: Option<string>,
    extra: seq<Option<string>>)

  /** The number of values in the record's tuple. */
  function Arity(r: Record): nat {
    6 + |r.extra|
  }

  /** The record `get_all` hands over for a listed row. */
  function RecordOf(x: Queries.Listed): (r: Record)
    ensures Arity(r) == 6 && r.id == x.id
  {
    Record(x.id, x.date, x.category, x.description, x.amount, x.payment, [])
  }

  /** The text in the form's seven inputs. */
  datatype Fields = Fields(
    date: string,
    category: string,
    description: string,
    amount: string,
    payment: string,
    comments: string,
    tags: string)

  const Blank := Fields("", "", "", "", "", "", "")

  /** `value or ""` for a nullable text column. */
  function OrEmpty(v: Option<string>): string {
    match v
    case None => ""
    case Some(s) => s
  }

  /** The form after filling, or the `ValueError` of a tuple that unpacks into neither 8 nor 6 names. */
  datatype Populated = Filled(fields: Fields) | UnpackError

  /**
   * `_populate_fields`: a new expense gets today's date and blank inputs;
   * an existing one shows its values, with NULL text shown as blank and
   * comments and tags blank for a six-value record. `today` is the date
   * `datetime.today()` formats, and `show` is `str` on amounts.
   */
  function Populate(expense: Option<Record>, today: string, show: real -> string): (r: Populated)
    ensures expense.None? ==> r == Filled(Blank.(date := today))
    ensures expense.Some? ==> (r.Filled? <==> Arity(expense.value) == 6 || Arity(expense.value) == 8)
    ensures r.Filled? && expense.Some? ==>
      var e, f := expense.value, r.fields;
      && f.date == e.date && f.category == e.category && f.amount == show(e.amount)
      && f.description == OrEmpty(e.description) && f.payment == OrEmpty(e.payment)
      && (Arity(e) == 6 ==> f.comments == "" && f.tags == "")
      && (Arity(e) == 8 ==> f.comments == OrEmpty(e.extra[0]) && f.tags == OrEmpty(e.extra[1]))
  {
    match expense
    case None => Filled(Blank.(date := today))
    case Some(e) =>
      if Arity(e) >= 8 && Arity(e) != 8 then UnpackError
      else if Arity(e) < 8 && Arity(e) != 6 then UnpackError
      else
        var (comments, tags) := if Arity(e) == 8 then (e.extra[0], e.extra[1]) else (None, None);
        Filled(Fields(e.date, e.category, OrEmpty(e.description), show(e.amount), OrEmpty(e.payment),
                      OrEmpty(comments), OrEmpty(tags)))
  }

  /** Every record the listing hands to the form fills it without error. */
  lemma {:induction false} ListedRecordsFill(x: Queries.Listed, today: string, show: real -> string)
    ensures Populate(Some(RecordOf(x)), today, show).Filled?
    ensures Populate(Some(RecordOf(x)), today, show).fields.comments == ""
  {
  }

  /** Whether `c` lies in the character class `[lo-hi]`. */
  predicate InRange(c: char, lo: char, hi: char) {
    lo <= c <= hi
  }

  /**
   * The `%m` field followed by `-`: one of `10`-`12`, `01`-`09` or `1`-`9`,
   * tried in that order. Yields the month and the text after the `-`.
   */
  function MonthField(t: string): (r: Option<(int, string)>)
    ensures r.Some? ==> 1 <= r.value.0 <= 12 && |r.value.1| < |t|
  {
    if |t| >= 3 && t[0] == '1' && InRange(t[1], '0', '2') && t[2] == '-' then Some((10 + DigitValue(t[1]), t[3..]))
    else if |t| >= 3 && t[0] == '0' && InRange(t[1], '1', '9') && t[2] == '-' then Some((DigitValue(t[1]), t[3..]))
    else if |t| >= 2 && InRange(t[0], '1', '9') && t[1] == '-' then Some((DigitValue(t[0]), t[2..]))
    else None
  }

  /**
   * The `%d` field, which ends the format: the first of `30`-`31`,
   * `10`-`29`, `01`-`09`, `1`-`9` and ` 1`-` 9` that matches the start of
   * `t`; anything after the match is "unconverted data" and fails.
   */
  function DayField(t: string): (r: Option<int>)
    ensures r.Some? ==> 1 <= r.value <= 31
  {
    if |t| >= 2 && t[0] == '3' && InRange(t[1], '0', '1') then
      if |t| == 2 then Some(30 + DigitValue(t[1])) else None
    else if |t| >= 2 && InRange(t[0], '1', '2') && IsDigit(t[1]) then
      if |t| == 2 then Some(10 * DigitValue(t[0]) + DigitValue(t[1])) else None
    else if |t| >= 2 && t[0] == '0' && InRange(t[1], '1', '9') then
      if |t| == 2 then Some(DigitValue(t[1])) else None
    else if |t| >= 1 && InRange(t[0], '1', '9') then
      if |t| == 1 then Some(DigitValue(t[0])) else None
    else if |t| >= 2 && t[0] == ' ' && InRange(t[1], '1', '9') then
      if |t| == 2 then Some(DigitValue(t[1])) else None
    else None
  }

  /**
   * `datetime.strptime(s, "%Y-%m-%d")`: four digits, `-`, a month, `-`, a
   * day, nothing after, naming a date `datetime` can build. `None` is the
   * `ValueError`.
   */
  function ParseDate(s: string): (r: Option<(int, int, int)>)
    ensures r.Some? ==> IsDate(r.value.0, r.value.1, r.value.2)
  {
    if |s| < 5 || !AllDigits(s[..4]) || s[4] != '-' then None
    else
      var y := DigitsValue(s[..4]);
      match MonthField(s[5..])
      case None => None
      case Some((m, rest)) =>
        match DayField(rest)
        case None => None
        case Some(d) => if IsDate(y, m, d) then Some((y, m, d)) else None
  }

  predicate IsValidDate(s: string) {
    ParseDate(s).Some?
  }

  /** Two-digit zero padding, digit by digit. */
  lemma {:induction false} PaddedTwo(n: nat)
    requires n < 100
    ensures Padded(n, 2) == [DigitChar(n / 10), DigitChar(n % 10)]
  {
    assert Padded(n / 10, 1) == [DigitChar(n / 10)];
  }

  lemma {:induction false} MonthFieldPadded(m: nat, rest: string)
    requires m < 100
    ensures MonthField(Padded(m, 2) + "-" + rest) == if 1 <= m <= 12 then Some((m, rest)) else None
  {
    PaddedTwo(m);
    var t := Padded(m, 2) + "-" + rest;
    assert t[..3] == [DigitChar(m / 10), DigitChar(m % 10), '-'];
    assert t[3..] == rest;
  }

  lemma {:induction false} DayFieldPadded(d: nat)
    requires d < 100
    ensures DayField(Padded(d, 2)) == if 1 <= d <= 31 then Some(d) else None
  {
    PaddedTwo(d);
    var hi, lo := DigitChar(d / 10), DigitChar(d % 10);
    assert DigitValue(hi) == d / 10 && DigitValue(lo) == d % 10;
    assert d == 10 * (d / 10) + d % 10;
    if d / 10 == 0 {
      DayFieldLowDigit(d, hi, lo);
    } else if d / 10 == 3 {
      assert hi == '3';
    }
  }

  lemma {:induction false} DayFieldLowDigit(d: nat, hi: char, lo: char)
    requires d < 10 && hi == '0' && lo == DigitChar(d) && Padded(d, 2) == [hi, lo]
    ensures DayField(Padded(d, 2)) == if 1 <= d then Some(d) else None
  {
  }

  /**
   * A date written as `YYYY-MM-DD` passes the check exactly when it names a
   * real date, and the check reads back the same year, month and day.
   */
  lemma {:induction false} ParseDateRoundTrip(y: nat, m: nat, d: nat)
    requires y < 10000 && m < 100 && d < 100
    ensures var s := Padded(y, 4) + "-" + Padded(m, 2) + "-" + Padded(d, 2);
      && (IsValidDate(s) <==> IsDate(y, m, d))
      && (IsDate(y, m, d) ==> ParseDate(s) == Some((y, m, d)))
  {
    var s := Padded(y, 4) + "-" + Padded(m, 2) + "-" + Padded(d, 2);
    assert s[..4] == Padded(y, 4);
    assert s[4] == '-';
    assert s[5..] == Padded(m, 2) + "-" + Padded(d, 2);
    PaddedValue(y, 4);
    MonthFieldPadded(m, Padded(d, 2));
    DayFieldPadded(d);
  }

  /** Which record the form edits, if any: `expense[0]` is its id. */
  datatype Mode = Adding | Editing(id: int)

  function ModeOf(expense: Option<Record>): Mode {
    match expense
    case None => Adding
    case Some(e) => Editing(e.id)
  }

  /** The error boxes Save can show, in the order the checks run. */
  datatype Problem = MissingRequired | AmountNotNumeric | InvalidDate

  /** The seven values Save passes to the repository. */
  datatype Call = Call(
    date: string,
    category: string,
    description: string,
    amount: real,
    payment: string,
    comments: string,
    tags: string)

  /** What pressing Save does: an error box, or one repository call. */
  datatype Saved = Rejected(problem: Problem) | InsertCall(call: Call) | UpdateCall(id: int, call: Call)

  /** The inputs as `_on_save` reads them: every field stripped. */
  function Stripped(f: Fields): Fields {
    Fields(Strip(f.date), Strip(f.category), Strip(f.description), Strip(f.amount),
           Strip(f.payment), Strip(f.comments), Strip(f.tags))
  }

  /** Whether the date, category or amount input is empty. */
  predicate Missing(g: Fields) {
    g.date == [] || g.category == [] || g.amount == []
  }

  /**
   * The checks of `_on_save` on the stripped inputs `g`: the required
   * inputs, a numeric amount and a valid date, in that order, stopping at
   * the first failure; then `update` with the edited id or `insert`.
   * `toFloat` is Python's `float()`, `None` for `ValueError`.
   */
  function Check(g: Fields, mode: Mode, toFloat: string -> Option<real>): (r: Saved)
    ensures r == Rejected(MissingRequired) <==> Missing(g)
    ensures r == Rejected(AmountNotNumeric) <==> !Missing(g) && toFloat(g.amount).None?
    ensures r == Rejected(InvalidDate) <==> !Missing(g) && toFloat(g.amount).Some? && !IsValidDate(g.date)
    ensures !r.Rejected? <==> !Missing(g) && toFloat(g.amount).Some? && IsValidDate(g.date)
    ensures r.InsertCall? <==> !r.Rejected? && mode.Adding?
    ensures r.UpdateCall? <==> !r.Rejected? && mode.Editing?
    ensures r.UpdateCall? ==> r.id == mode.id
    ensures !r.Rejected? ==>
      r.call == Call(g.date, g.category, g.description, toFloat(g.amount).value, g.payment, g.comments, g.tags)
  {
    if g.date == [] || g.category == [] || g.amount == [] then Rejected(MissingRequired)
    else
      match toFloat(g.amount)
      case None => Rejected(AmountNotNumeric)
      case Some(amount) =>
        if !IsValidDate(g.date) then Rejected(InvalidDate)
        else
          var c := Call(g.date, g.category, g.description, amount, g.payment, g.comments, g.tags);
          match mode
          case Adding => InsertCall(c)
          case Editing(id) => UpdateCall(id, c)
  }

  /** `_on_save`: strip every input, then run the checks; only stripped text reaches the repository. */
  function Save(f: Fields, mode: Mode, toFloat: string -> Option<real>): (r: Saved)
    ensures r == Check(Stripped(f), mode, toFloat)
    ensures !r.Rejected? ==>
      && r.call.date == Strip(f.date) && r.call.category == Strip(f.category)
      && r.call.description == Strip(f.description) && r.call.payment == Strip(f.payment)
      && r.call.comments == Strip(f.comments) && r.call.tags == Strip(f.tags)
  {
    Check(Stripped(f), mode, toFloat)
  }

  /** Inputs made only of whitespace count as missing. */
  lemma {:induction false} BlankInputIsMissing(f: Fields, mode: Mode, toFloat: string -> Option<real>)
    requires AllSpace(f.date) || AllSpace(f.category) || AllSpace(f.amount)
    ensures Save(f, mode, toFloat) == Rejected(MissingRequired)
  {
    StripEmptyIffBlank(f.date);
    StripEmptyIffBlank(f.category);
    StripEmptyIffBlank(f.amount);
  }

  /**
   * Editing a listed record without changing anything saves the same
   * values back to the same id, when the shown date and amount pass the
   * checks.
   */
  lemma {:induction false} UnchangedEditResaves(x: Queries.Listed, today: string, show: real -> string, toFloat: string -> Option<real>)
    requires Strip(x.date) == x.date && Strip(x.category) == x.category && x.category != []
    requires x.date != [] && IsValidDate(x.date)
    requires Strip(show(x.amount)) == show(x.amount) && show(x.amount) != []
    requires toFloat(show(x.amount)) == Some(x.amount)
    ensures var f := Populate(Some(RecordOf(x)), today, show).fields;
      var r := Save(f, ModeOf(Some(RecordOf(x))), toFloat);
      && r.UpdateCall? && r.id == x.id
      && r.call.date == x.date && r.call.category == x.category && r.call.amount == x.amount
  {
  }

  /** A value passed to a repository method. */
  datatype Argument = Text(text: string) | Number(number: real) | Key(key: int)

  function Arguments(c: Call): (args: seq<Argument>)
    ensures |args| == 7
  {
    [Text(c.date), Text(c.category), Text(c.description), Number(c.amount), Text(c.payment), Text(c.comments), Text(c.tags)]
  }

  /** The positional parameters `insert` and `update` declare besides `self`. */
  const InsertParameters := 5
  const UpdateParameters := 6

  /** A call that cannot bind its arguments: the parameters declared and the arguments given. */
  datatype TypeError = TypeError(declared: nat, given: nat)

  /** The five stored values of a call, as a five-argument `insert` would bind them. */
  function EntryOfCall(c: Call): Store.Entry {
    Store.Entry(c.date, c.category, Some(c.description), c.amount, Some(c.payment))
  }

  /**
   * The repository call as the two files are written: Save passes seven
   * values (eight with the id), `insert` declares five and `update` six, so
   * Python refuses the call before any statement runs.
   */
  function ApplyAsWritten(s: Store.Store, saved: Saved): (r: Result<Store.Store, TypeError>)
    ensures saved.Rejected? ==> r == Ok(s)
  {
    match saved
    case Rejected(_) => Ok(s)
    case InsertCall(c) =>
      var args := Arguments(c);
      if |args| == InsertParameters then Ok(Store.Insert(s, EntryOfCall(c)))
      else Err(TypeError(InsertParameters, |args|))
    case UpdateCall(id, c) =>
      var args := [Key(id)] + Arguments(c);
      if |args| == UpdateParameters then Ok(Store.Update(s, id, EntryOfCall(c)))
      else Err(TypeError(UpdateParameters, |args|))
  }

  /**
   * Every save that passes the checks raises `TypeError`, so nothing is ever
   * stored. `g` is the stripped inputs, so this covers every `Save`.
   */
  lemma {:induction false} AcceptedSaveRaisesTypeError(s: Store.Store, g: Fields, mode: Mode, toFloat: string -> Option<real>)
    ensures var saved := Check(g, mode, toFloat);
      saved.Rejected? || ApplyAsWritten(s, saved) == Err(if mode.Adding? then TypeError(5, 7) else TypeError(6, 8))
  {
  }

  /** Both call shapes Save produces miss the repository's parameter count. */
  lemma {:induction false} CallRaisesTypeError(s: Store.Store, saved: Saved)
    requires !saved.Rejected?
    ensures ApplyAsWritten(s, saved) == Err(if saved.InsertCall? then TypeError(5, 7) else TypeError(6, 8))
  {
    match saved
    case InsertCall(c) =>
      assert |Arguments(c)| == 7;
    case UpdateCall(id, c) =>
      assert |[Key(id)] + Arguments(c)| == 8;
  }

  /**
   * The repository call with `insert` and `update` taking all seven values,
   * the comments and tags included.
   */
  function Apply(s: Store.Store, saved: Saved): (r: Store.Store)
    ensures saved.Rejected? ==> r == s
    ensures Store.Valid(s) ==> Store.Valid(r)
    ensures saved.InsertCall? ==> |r.rows| == |s.rows| + 1 && r.rows[..|s.rows|] == s.rows
    ensures saved.UpdateCall? ==> |r.rows| == |s.rows| && Store.Ids(r.rows) == Store.Ids(s.rows)
  {
    match saved
    case Rejected(_) => s
    case InsertCall(c) => Store.InsertFull(s, EntryOfCall(c), Some(c.comments), Some(c.tags))
    case UpdateCall(id, c) => Store.UpdateFull(s, id, EntryOfCall(c), Some(c.comments), Some(c.tags))
  }

  /** The stored row an accepted call wrote, holding all seven values. */
  predicate Holds(row: Store.Row, c: Call) {
    && row.date == c.date && row.category == c.category && row.description == Some(c.description)
    && row.amount == c.amount && row.payment == Some(c.payment)
    && row.comments == Some(c.comments) && row.tags == Some(c.tags)
  }

  /**
   * After an accepted save the new row, or every row with the edited id,
   * holds the stripped inputs `g`; an edit of a missing id changes nothing.
   */
  lemma {:induction false} SavedValuesAreStored(s: Store.Store, g: Fields, mode: Mode, toFloat: string -> Option<real>)
    ensures var saved := Check(g, mode, toFloat);
      var r := Apply(s, saved);
      !saved.Rejected? ==>
        && (mode.Adding? ==> Holds(r.rows[|s.rows|], saved.call) && r.rows[|s.rows|].id !in Store.Ids(s.rows))
        && (mode.Editing? ==> forall i :: 0 <= i < |s.rows| && s.rows[i].id == mode.id ==> Holds(r.rows[i], saved.call))
        && (mode.Editing? && mode.id !in Store.Ids(s.rows) ==> r == s)
  {
  }
}
