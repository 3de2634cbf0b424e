/** Listing transactions: the request (apps/personal-core/pkg/service/cash_flow.go), the filter built from
    it and the page selected (apps/personal-core/pkg/model/transaction.go), down to the rows the database
    picks by reading the WHERE clause. */
module Ledger {
  import opened Options
  import Calendar
  import Lexicographic
  import opened SqlCondition
  import opened SqlGrammar
  import opened SqlRoundTrip
  import opened SqlStatements
  import opened SqlStatementReader
  import opened SqlSelectReader
  import opened Paging
  import opened TransactionRow

  // ---------------------------------------------------------------- rows

  const AccountColumn := "account_id"
  const CategoryColumn := "category_id"
  const DateColumn := "date"
  const DeletedColumn := "deleted_at"
  const SortColumn := "sort_order"

  function Bool(b: bool): Truth {
    if b then True else False
  }

  function Not(t: Truth): Truth {
    if t.True? then False else if t.False? then True else Unknown
  }

  /** Values of one kind are ordered; anything else compares as unknown. */
  function LessValue(a: Value, b: Value): Truth {
    match (a, b)
    case (Integer(m), Integer(n)) => Bool(m < n)
    case (Text(s), Text(t)) => Bool(Lexicographic.Less(s, t))
    case (Real(x), Real(y)) => Bool(x < y)
    case _ => Unknown
  }

  function SameValue(a: Value, b: Value): Truth {
    match (a, b)
    case (Integer(m), Integer(n)) => Bool(m == n)
    case (Text(s), Text(t)) => Bool(s == t)
    case (Real(x), Real(y)) => Bool(x == y)
    case _ => Unknown
  }

  function AnyOf(a: Value, values: seq<Value>): Truth {
    if values == [] then False else Disj(SameValue(a, values[0]), AnyOf(a, values[1..]))
  }

  /** What a row makes of a predicate. */
  function RowOf(t: Transaction): Row
    requires ValidRow(t)
  {
    (atom: Atom) =>
      match atom
      case CompareAtom(op, column, value) =>
        (match op
         case Eq => SameValue(Cell(t, column), value)
         case NotEq => Not(SameValue(Cell(t, column), value))
         case Lt => LessValue(Cell(t, column), value)
         case Gt => LessValue(value, Cell(t, column)))
      case NullAtom(negated, column) => Bool((Cell(t, column) == Null) != negated)
      case InAtom(negated, column, values) =>
        (if negated then Not(AnyOf(Cell(t, column), values)) else AnyOf(Cell(t, column), values))
      case BetweenAtom(column, low, high) =>
        Conj(Not(LessValue(Cell(t, column), low)), Not(LessValue(high, Cell(t, column))))
  }

  // ---------------------------------------------------------------- the filter

  datatype TransactionFilter = TransactionFilter(
    accountID: string, year: int, month: int, categoryID: int, page: int, pageSize: int)

  function WithEq(column: string, value: Value): Condition {
    Compare(AND, Eq, column, value)
  }

  /** The month is filtered only when both its parts are positive. */
  predicate HasMonth(f: TransactionFilter) {
    f.year > 0 && f.month > 0
  }

  function FilterConditions(f: TransactionFilter): seq<Condition> {
    [WithEq(AccountColumn, Text(f.accountID)), WithEq(DeletedColumn, Integer(0))]
    + (if HasMonth(f) then
         [Between(AND, DateColumn, Text(Calendar.FirstDay(f.year, f.month)), Text(Calendar.LastDay(f.year, f.month)))]
       else [])
    + (if f.categoryID > 0 then [WithEq(CategoryColumn, Integer(f.categoryID))] else [])
  }

  method BuildTransactionFilter(f: TransactionFilter) returns (conds: seq<Condition>)
    ensures conds == FilterConditions(f)
  {
    conds := [WithEq(AccountColumn, Text(f.accountID)), WithEq(DeletedColumn, Integer(0))];
    if f.year > 0 && f.month > 0 {
      var firstDay, lastDay := Calendar.FirstDay(f.year, f.month), Calendar.LastDay(f.year, f.month);
      conds := conds + [Between(AND, DateColumn, Text(firstDay), Text(lastDay))];
    }
    if f.categoryID > 0 {
      conds := conds + [WithEq(CategoryColumn, Integer(f.categoryID))];
    }
  }

  /** A filter that names no month, or a month of the calendar. */
  predicate RealMonth(f: TransactionFilter) {
    f.year > 0 && f.month > 0 ==> f.year <= 9999 && f.month <= 12
  }

  /** The rows a filter is for. */
  predicate Wanted(t: Transaction, f: TransactionFilter) {
    && t.accountID == f.accountID
    && t.deletedAt == 0
    && (f.year > 0 && f.month > 0 ==> t.date.year == f.year && t.date.month == f.month)
    && (f.categoryID > 0 ==> t.categoryID == f.categoryID)
  }

  // ---------------------------------------------------------------- what the clause selects

  predicate IsSimple(c: Condition) {
    !c.Parentheses? && !c.InList? && c.prefix == AND && PlainName(c.expr)
  }

  lemma {:induction false} SimpleList(cs: seq<Condition>)
    requires forall i :: 0 <= i < |cs| ==> IsSimple(cs[i])
    ensures PlainList(cs) && FilledList(cs)
  {
    if cs != [] {
      SimpleList(cs[1..]);
    }
  }

  predicate AllTrue(cs: seq<Condition>, row: Row) {
    forall i :: 0 <= i < |cs| ==> Meaning(cs[i], row) == True
  }

  lemma {:induction false} Conjunction(cs: seq<Condition>, row: Row, open: Truth)
    requires forall i :: 0 <= i < |cs| ==> IsSimple(cs[i])
    ensures Accumulate(cs, row, False, open) == True <==> open == True && AllTrue(cs, row)
    decreases |cs|
  {
    if cs != [] {
      Conjunction(cs[1..], row, Conj(open, Meaning(cs[0], row)));
      assert AllTrue(cs, row) <==> Meaning(cs[0], row) == True && AllTrue(cs[1..], row);
    }
  }

  lemma PlainColumns()
    ensures PlainName(AccountColumn) && PlainName(CategoryColumn) && PlainName(DateColumn) && PlainName(DeletedColumn)
  {
    assert |Upper(AccountColumn)| == 10 && |Upper(CategoryColumn)| == 11 && |Upper(DeletedColumn)| == 10;
    assert Upper(DateColumn)[0] == 'D';
  }

  lemma SimpleFilter(f: TransactionFilter)
    ensures forall i :: 0 <= i < |FilterConditions(f)| ==> IsSimple(FilterConditions(f)[i])
  {
    PlainColumns();
  }

  /** A text range holds a text exactly when it is not before the first and not after the last. */
  lemma {:induction false} NotLess(a: string, b: string)
    ensures !Lexicographic.Less(b, a) <==> Lexicographic.LessEq(a, b)
  {
    if a == b {
      Lexicographic.Irreflexive(a);
    } else if a != "" && b != "" && a[0] == b[0] {
      assert a == [a[0]] + a[1..] && b == [b[0]] + b[1..];
      NotLess(a[1..], b[1..]);
    }
  }

  lemma BetweenIsMonth(t: Transaction, f: TransactionFilter)
    requires ValidRow(t) && HasMonth(f) && RealMonth(f)
    ensures RowOf(t)(BetweenAtom(DateColumn, Text(Calendar.FirstDay(f.year, f.month)),
                                 Text(Calendar.LastDay(f.year, f.month)))) == True
       <==> t.date.year == f.year && t.date.month == f.month
  {
    OutsideMonth(t.date, f.year, f.month);
    BetweenTexts(t, Calendar.FirstDay(f.year, f.month), Calendar.LastDay(f.year, f.month));
  }

  lemma BetweenTexts(t: Transaction, low: string, high: string)
    requires ValidRow(t)
    ensures RowOf(t)(BetweenAtom(DateColumn, Text(low), Text(high))) == True
       <==> !(Lexicographic.Less(Calendar.Text(t.date), low) || Lexicographic.Less(high, Calendar.Text(t.date)))
  {
    MiddleCells(t);
  }

  lemma OutsideMonth(d: Calendar.Date, y: int, m: int)
    requires Calendar.ValidDate(d) && d.year <= 9999 && 1 <= y <= 9999 && 1 <= m <= 12
    ensures (|| Lexicographic.Less(Calendar.Text(d), Calendar.FirstDay(y, m))
             || Lexicographic.Less(Calendar.LastDay(y, m), Calendar.Text(d)))
       <==> d.year != y || d.month != m
  {
    NotLess(Calendar.FirstDay(y, m), Calendar.Text(d));
    NotLess(Calendar.Text(d), Calendar.LastDay(y, m));
    Calendar.MonthWindow(d, y, m);
  }

  lemma AtomsAreWanted(t: Transaction, f: TransactionFilter)
    requires ValidRow(t) && RealMonth(f)
    requires forall i :: 0 <= i < |FilterConditions(f)| ==> IsSimple(FilterConditions(f)[i])
    ensures AllTrue(FilterConditions(f), RowOf(t)) <==> Wanted(t, f)
  {
    var cs, row := FilterConditions(f), RowOf(t);
    FirstCells(t);
    LastCells(t);
    assert Meaning(cs[0], row) == Bool(t.accountID == f.accountID);
    assert Meaning(cs[1], row) == Bool(t.deletedAt == 0);
    var k := if HasMonth(f) then 3 else 2;
    if HasMonth(f) {
      BetweenIsMonth(t, f);
      assert Meaning(cs[2], row) == True <==> t.date.year == f.year && t.date.month == f.month;
    }
    if f.categoryID > 0 {
      assert Meaning(cs[k], row) == Bool(t.categoryID == f.categoryID);
      assert |cs| == k + 1;
    }
  }

  /** The database's choice of a row: there is no clause, or it is true of the row. */
  predicate Holds(where: Option<Search>, t: Transaction)
    requires ValidRow(t)
  {
    where.Some? ==> EvalSearch(where.value, RowOf(t)) == True
  }

  /** The filter as the database reads it. */
  function FilterWhere(f: TransactionFilter): Option<Search> {
    ReadWhereOf(FilterConditions(f))
  }

  /** The rendered filter can be read, and read back it picks exactly the undeleted rows of the account in
      that month and category. */
  lemma FilterSelects(t: Transaction, f: TransactionFilter)
    requires ValidRow(t) && RealMonth(f)
    ensures FilterWhere(f).Some? && (Holds(FilterWhere(f), t) <==> Wanted(t, f))
  {
    var cs, row := FilterConditions(f), RowOf(t);
    FilterReads(f);
    SimpleFilter(f);
    AtomsAreWanted(t, f);
    Conjunction(cs[1..], row, Meaning(cs[0], row));
    assert AllTrue(cs, row) <==> Meaning(cs[0], row) == True && AllTrue(cs[1..], row);
  }

  lemma FilterReads(f: TransactionFilter)
    ensures PlainList(FilterConditions(f)) && FilledList(FilterConditions(f)) && FilterWhere(f).Some?
    ensures forall row: Row :: EvalSearch(FilterWhere(f).value, row) == ListMeaning(FilterConditions(f), row)
  {
    SimpleFilter(f);
    SimpleList(FilterConditions(f));
    WhereRoundTrip(FilterConditions(f));
  }

  // ---------------------------------------------------------------- order

  const SortAscending := Order(SortColumn, "ASC")
  const DateDescending := Order(DateColumn, "DESC")
  const IdDescending := Order("id", "DESC")
  const ListOrder := [SortAscending, DateDescending, IdDescending]

  /** Whether a comes before b under an ORDER BY list; an item not known here decides nothing. */
  predicate Precedes(order: seq<Order>, a: Transaction, b: Transaction) {
    if order == [] then false
    else if order[0] == SortAscending then
      a.sortOrder < b.sortOrder || (a.sortOrder == b.sortOrder && Precedes(order[1..], a, b))
    else if order[0] == DateDescending then
      Calendar.Earlier(b.date, a.date) || (a.date == b.date && Precedes(order[1..], a, b))
    else if order[0] == IdDescending then
      a.id > b.id || (a.id == b.id && Precedes(order[1..], a, b))
    else Precedes(order[1..], a, b)
  }

  function Inserted(t: Transaction, rows: seq<Transaction>, order: seq<Order>): seq<Transaction>
    decreases |rows|
  {
    if rows == [] || Precedes(order, t, rows[0]) then [t] + rows
    else [rows[0]] + Inserted(t, rows[1..], order)
  }

  /** The rows as ORDER BY arranges them. */
  function Ordered(rows: seq<Transaction>, order: seq<Order>): seq<Transaction>
    decreases |rows|
  {
    if rows == [] then [] else Inserted(rows[0], Ordered(rows[1..], order), order)
  }

  lemma {:induction false} InsertedRows(t: Transaction, rows: seq<Transaction>, order: seq<Order>)
    ensures multiset(Inserted(t, rows, order)) == multiset{t} + multiset(rows)
    decreases |rows|
  {
    if rows != [] && !Precedes(order, t, rows[0]) {
      InsertedRows(t, rows[1..], order);
      assert rows == [rows[0]] + rows[1..];
    }
  }

  lemma {:induction false} OrderedRows(rows: seq<Transaction>, order: seq<Order>)
    ensures multiset(Ordered(rows, order)) == multiset(rows)
    decreases |rows|
  {
    if rows != [] {
      OrderedRows(rows[1..], order);
      InsertedRows(rows[0], Ordered(rows[1..], order), order);
      assert rows == [rows[0]] + rows[1..];
    }
  }

  lemma SameMembers(rows: seq<Transaction>, other: seq<Transaction>)
    requires multiset(rows) == multiset(other)
    ensures |rows| == |other| && forall t :: t in rows <==> t in other
  {
    assert |multiset(rows)| == |rows| && |multiset(other)| == |other|;
    forall t
      ensures t in rows <==> t in other
    {
      assert t in multiset(rows) <==> t in multiset(other);
    }
  }

  /** The order of the list: by sort order, then latest date, then highest id. */
  predicate Before(a: Transaction, b: Transaction) {
    a.sortOrder < b.sortOrder
    || (a.sortOrder == b.sortOrder && (Calendar.Earlier(b.date, a.date) || (a.date == b.date && a.id > b.id)))
  }

  lemma ListOrderIsBefore(a: Transaction, b: Transaction)
    ensures Precedes(ListOrder, a, b) <==> Before(a, b)
  {
    var rest := [DateDescending, IdDescending];
    assert ListOrder[1..] == rest && rest[1..] == [IdDescending] && [IdDescending][1..] == [];
    assert |SortColumn| == 10 && |DateColumn| == 4 && |"id"| == 2;
    assert Precedes([IdDescending], a, b) <==> a.id > b.id;
    assert Precedes(rest, a, b) <==> Calendar.Earlier(b.date, a.date) || (a.date == b.date && a.id > b.id);
  }

  ghost predicate Sorted(rows: seq<Transaction>) {
    forall i, j :: 0 <= i < j < |rows| ==> Before(rows[i], rows[j])
  }

  ghost predicate DistinctIds(rows: seq<Transaction>) {
    forall i, j :: 0 <= i < j < |rows| ==> rows[i].id != rows[j].id
  }

  lemma BeforeTransitive(a: Transaction, b: Transaction, c: Transaction)
    requires Before(a, b) && Before(b, c)
    ensures Before(a, c)
  {
  }

  lemma SortedCons(t: Transaction, rows: seq<Transaction>)
    requires Sorted(rows) && forall u :: u in rows ==> Before(t, u)
    ensures Sorted([t] + rows)
  {
  }

  lemma {:induction false} InsertedSorted(t: Transaction, rows: seq<Transaction>)
    requires Sorted(rows) && forall u :: u in rows ==> u.id != t.id
    ensures Sorted(Inserted(t, rows, ListOrder))
    decreases |rows|
  {
    if rows == [] {
      assert [t] + rows == [t];
    } else {
      ListOrderIsBefore(t, rows[0]);
      BeforeLaws(t, rows[0]);
      if Before(t, rows[0]) {
        forall u | u in rows
          ensures Before(t, u)
        {
          var i :| 0 <= i < |rows| && rows[i] == u;
          if i > 0 {
            BeforeTransitive(t, rows[0], u);
          }
        }
        SortedCons(t, rows);
      } else {
        InsertedSorted(t, rows[1..]);
        InsertedAfter(t, rows);
        SortedCons(rows[0], Inserted(t, rows[1..], ListOrder));
      }
    }
  }

  lemma InsertedAfter(t: Transaction, rows: seq<Transaction>)
    requires rows != [] && Sorted(rows) && Before(rows[0], t)
    ensures forall u :: u in Inserted(t, rows[1..], ListOrder) ==> Before(rows[0], u)
  {
    var rest := Inserted(t, rows[1..], ListOrder);
    InsertedRows(t, rows[1..], ListOrder);
    forall u | u in rest
      ensures Before(rows[0], u)
    {
      assert u in multiset(rest);
      assert u == t || u in rows[1..];
    }
  }

  /** With distinct ids the order is total, and ORDER BY sorts by it. */
  lemma {:induction false} OrderedSorted(rows: seq<Transaction>)
    requires DistinctIds(rows)
    ensures Sorted(Ordered(rows, ListOrder))
    decreases |rows|
  {
    if rows != [] {
      OrderedSorted(rows[1..]);
      OrderedRows(rows[1..], ListOrder);
      SameMembers(Ordered(rows[1..], ListOrder), rows[1..]);
      InsertedSorted(rows[0], Ordered(rows[1..], ListOrder));
    }
  }

  lemma BeforeLaws(a: Transaction, b: Transaction)
    ensures !(Before(a, b) && Before(b, a))
    ensures a.id != b.id ==> Before(a, b) || Before(b, a)
  {
  }

  lemma HasMember(rows: seq<Transaction>)
    ensures rows == [] || exists t :: t in rows
  {
    if rows != [] {
      assert rows[0] in rows;
    }
  }

  /** There is one listing of given rows in that order: every page query slices the same sequence. */
  lemma {:induction false} SortedUnique(rows: seq<Transaction>, other: seq<Transaction>)
    requires Sorted(rows) && Sorted(other)
    requires forall t :: t in rows <==> t in other
    ensures rows == other
    decreases |rows|
  {
    if rows == [] {
      HasMember(other);
    } else {
      assert rows[0] in other;
      SameHead(rows, other);
      TailMembers(rows, other);
      TailMembers(other, rows);
      SortedUnique(rows[1..], other[1..]);
      assert rows == [rows[0]] + rows[1..] && other == [other[0]] + other[1..];
    }
  }

  lemma SameHead(rows: seq<Transaction>, other: seq<Transaction>)
    requires Sorted(rows) && Sorted(other) && rows != [] && other != []
    requires forall t :: t in rows <==> t in other
    ensures rows[0] == other[0]
  {
    assert rows[0] in other && other[0] in rows;
    var i :| 0 <= i < |other| && other[i] == rows[0];
    var j :| 0 <= j < |rows| && rows[j] == other[0];
    BeforeLaws(rows[0], other[0]);
  }

  lemma TailMembers(rows: seq<Transaction>, other: seq<Transaction>)
    requires Sorted(rows) && Sorted(other) && rows != [] && other != [] && rows[0] == other[0]
    requires forall t :: t in rows <==> t in other
    ensures forall t :: t in rows[1..] ==> t in other[1..]
  {
    forall t | t in rows[1..]
      ensures t in other[1..]
    {
      var i :| 1 <= i < |rows| && rows[i] == t;
      assert Before(rows[0], t);
      BeforeLaws(t, t);
      assert t in other;
      assert t != other[0];
    }
  }

  // ---------------------------------------------------------------- selecting a page

  predicate ValidRows(rows: seq<Transaction>) {
    forall i :: 0 <= i < |rows| ==> ValidRow(rows[i])
  }

  function Picked(rows: seq<Transaction>, where: Option<Search>): seq<Transaction>
    requires ValidRows(rows)
  {
    if rows == [] then []
    else (if Holds(where, rows[0]) then [rows[0]] else []) + Picked(rows[1..], where)
  }

  lemma {:induction false} PickedRows(rows: seq<Transaction>, where: Option<Search>)
    requires ValidRows(rows)
    ensures |Picked(rows, where)| <= |rows|
    ensures forall t :: t in Picked(rows, where) <==> t in rows && ValidRow(t) && Holds(where, t)
  {
    if rows != [] {
      PickedRows(rows[1..], where);
    }
  }

  lemma {:induction false} PickedDistinct(rows: seq<Transaction>, where: Option<Search>)
    requires ValidRows(rows) && DistinctIds(rows)
    ensures DistinctIds(Picked(rows, where))
  {
    if rows != [] {
      PickedDistinct(rows[1..], where);
      PickedRows(rows[1..], where);
      var rest := Picked(rows[1..], where);
      forall j | 0 <= j < |rest|
        ensures rows[0].id != rest[j].id
      {
        assert rest[j] in rows[1..];
      }
    }
  }

  lemma UnorderedRows(rows: seq<Transaction>, order: seq<Order>)
    ensures |Ordered(rows, order)| == |rows|
  {
    OrderedRows(rows, order);
    SameMembers(Ordered(rows, order), rows);
  }

  // ---------------------------------------------------------------- the database

  const TransactionTable := "transactions"
  const CountColumns := ["COUNT(*)"]

  /** A number, or for every row the cells of the columns asked for. */
  datatype Reply = Counted(n: int) | Returned(cells: seq<seq<Value>>)

  function Projected(rows: seq<Transaction>, columns: seq<string>): seq<seq<Value>>
    requires ValidRows(rows)
  {
    seq(|rows|, i requires 0 <= i < |rows| => Project(rows[i], columns))
  }

  /** Columns that are plain names. */
  predicate OneWordEach(columns: seq<seq<string>>) {
    forall i :: 0 <= i < |columns| ==> |columns[i]| == 1
  }

  function NamesOf(columns: seq<seq<string>>): seq<string>
    requires OneWordEach(columns)
  {
    seq(|columns|, i requires 0 <= i < |columns| => columns[i][0])
  }

  /** A limit whose offset and count are numbers from zero on. */
  predicate GoodLimit(limit: Option<Limit>) {
    limit.Some? ==>
      && limit.value.offset.Integer? && limit.value.offset.n >= 0
      && limit.value.count.Integer? && limit.value.count.n >= 0
  }

  function Cut(rows: seq<Transaction>, limit: Option<Limit>): seq<Transaction>
    requires GoodLimit(limit)
  {
    if limit.None? then rows else Slice(rows, limit.value.offset.n, limit.value.count.n)
  }

  lemma AnsweredRows(rows: seq<Transaction>, q: SelectRead)
    requires ValidRows(rows) && GoodLimit(q.limit)
    ensures ValidRows(Cut(Ordered(Picked(rows, q.where), q.orderby), q.limit))
  {
    var picked := Picked(rows, q.where);
    var found := Ordered(picked, q.orderby);
    PickedRows(rows, q.where);
    OrderedRows(picked, q.orderby);
    SameMembers(found, picked);
    forall t | t in Cut(found, q.limit)
      ensures ValidRow(t)
    {
      assert t in found;
    }
  }

  /** What the database makes of a statement on the transactions table: the text and the arguments are all it
      gets. */
  function Answer(rows: seq<Transaction>, stmt: Statement): Result<Reply>
    requires ValidRows(rows)
  {
    var read := ReadSelect(stmt.sql, stmt.args);
    if read.None? then Err("syntax error")
    else
      var q := read.value;
      if q.table != TransactionTable || q.groupby != [] || !GoodLimit(q.limit) then Err("cannot be answered")
      else
        AnsweredRows(rows, q);
        var found := Ordered(Picked(rows, q.where), q.orderby);
        if q.columns == [["COUNT", "(", "*", ")"]] && q.limit.None? then Ok(Counted(|found|))
        else if OneWordEach(q.columns) then Ok(Returned(Projected(Cut(found, q.limit), NamesOf(q.columns))))
        else Err("cannot be answered")
  }

  /** A word that is no keyword of the clauses read here. */
  predicate Unreserved(c: string) {
    && c != "" && (forall x :: x in c ==> IsWordChar(x))
    && Upper(c) != "AND" && Upper(c) != "OR" && Upper(c) != "NOT" && Upper(c) != "IN" && Upper(c) != "IS"
    && Upper(c) != "NULL" && Upper(c) != "BETWEEN" && Upper(c) != "FROM"
  }

  lemma UnreservedColumn(c: string)
    requires Unreserved(c)
    ensures PlainName(c) && ColumnText(c)
  {
    LexName(c);
    assert c[0] in c;
  }

  lemma LongColumn(c: string)
    requires |c| > 7 && forall x :: x in c ==> IsWordChar(x)
    ensures Unreserved(c)
  {
    assert |Upper(c)| == |c|;
  }

  lemma ShortColumns()
    ensures Unreserved("id") && Unreserved("type") && Unreserved("name") && Unreserved("note")
    ensures Unreserved(DateColumn) && Unreserved("amount")
  {
    assert Upper("id")[1] == 'D' && |Upper("id")| == 2;
    assert Upper("type")[0] == 'T' && Upper("name")[1] == 'A' && Upper("note")[1] == 'O';
    assert |Upper("type")| == 4 && |Upper("name")| == 4 && |Upper("note")| == 4 && |Upper(DateColumn)| == 4;
    assert Upper(DateColumn)[0] == 'D' && |Upper("amount")| == 6;
  }

  lemma LongColumns()
    ensures Unreserved(AccountColumn) && Unreserved(CategoryColumn) && Unreserved(SortColumn)
    ensures Unreserved(DeletedColumn) && Unreserved("created_at") && Unreserved("updated_at")
    ensures Unreserved(TransactionTable)
  {
    LongColumn(AccountColumn);
    LongColumn(CategoryColumn);
    LongColumn(SortColumn);
    LongColumn(DeletedColumn);
    LongColumn("created_at");
    LongColumn("updated_at");
    LongColumn(TransactionTable);
  }

  lemma RowColumn(i: nat)
    requires i < |RowColumns|
    ensures Unreserved(RowColumns[i])
  {
    if i == 0 || i == 3 || i == 4 || i == 5 || i == 6 || i == 7 {
      ShortColumns();
    } else {
      LongColumns();
    }
  }

  lemma RowColumnTexts()
    ensures ColumnTexts(RowColumns) && |ColumnWords(RowColumns)| > 1
    ensures OneWordEach(ColumnWords(RowColumns)) && NamesOf(ColumnWords(RowColumns)) == RowColumns
  {
    forall i | 0 <= i < |RowColumns|
      ensures Unreserved(RowColumns[i])
    {
      RowColumn(i);
    }
    UnreservedColumns(RowColumns);
    PlainColumnWords(RowColumns);
  }

  lemma PlainColumnWords(columns: seq<string>)
    requires columns != [] && forall i :: 0 <= i < |columns| ==> Unreserved(columns[i])
    ensures |ColumnWords(columns)| == |columns|
    ensures OneWordEach(ColumnWords(columns)) && NamesOf(ColumnWords(columns)) == columns
  {
    forall i | 0 <= i < |columns|
      ensures Lex(columns[i]) == [columns[i]]
    {
      UnreservedColumn(columns[i]);
      LexName(columns[i]);
    }
  }

  lemma UnreservedColumns(columns: seq<string>)
    requires forall i :: 0 <= i < |columns| ==> Unreserved(columns[i])
    ensures ColumnTexts(columns)
  {
    forall c | c in columns
      ensures ColumnText(c)
    {
      UnreservedColumn(c);
    }
  }

  lemma CountColumn(count: string, open: string, star: string, close: string)
    requires Whole(count) && IsWordChar(count[0]) && Upper(count) != "FROM"
    requires open == "(" && star == "*" && close == ")"
    ensures ColumnTexts([count + (open + (star + close))])
    ensures ColumnWords([count + (open + (star + close))]) == [[count, open, star, close]]
  {
    LexWhole(close);
    LexSingle(star, close);
    LexSingle(open, star + close);
    LexWordThen(count, open + (star + close));
    assert |Upper(open)| == 1 && |Upper(star)| == 1 && |Upper(close)| == 1;
    assert [count] + ([open] + ([star] + [close])) == [count, open, star, close];
    var columns := [count + (open + (star + close))];
    assert ColumnWords(columns) == [Lex(columns[0])];
  }

  lemma CountColumnText()
    ensures ColumnTexts(CountColumns) && ColumnWords(CountColumns) == [["COUNT", "(", "*", ")"]]
  {
    WordIs("COUNT");
    assert |Upper("COUNT")| == 5;
    CountColumn("COUNT", "(", "*", ")");
    assert "COUNT(*)" == "COUNT" + ("(" + ("*" + ")"));
  }

  lemma UnreservedOrders(orders: seq<Order>)
    requires forall i :: 0 <= i < |orders| ==>
      Unreserved(orders[i].expr) && (orders[i].suffix == "ASC" || orders[i].suffix == "DESC")
    ensures PlainOrders(orders)
  {
    forall o | o in orders
      ensures PlainOrder(o)
    {
      UnreservedColumn(o.expr);
    }
  }

  lemma ListOrderPlain()
    ensures PlainOrders(ListOrder)
  {
    forall i | 0 <= i < |ListOrder|
      ensures Unreserved(ListOrder[i].expr) && (ListOrder[i].suffix == "ASC" || ListOrder[i].suffix == "DESC")
    {
      if i == 0 {
        LongColumns();
      } else {
        ShortColumns();
      }
    }
    UnreservedOrders(ListOrder);
  }

  lemma TableName()
    ensures PlainName(TransactionTable)
  {
    LongColumns();
    UnreservedColumn(TransactionTable);
  }

  lemma CountReplied(rows: seq<Transaction>, stmt: Statement, q: SelectRead)
    requires ValidRows(rows) && ReadSelect(stmt.sql, stmt.args) == Some(q)
    requires q.table == TransactionTable && q.groupby == [] && q.limit == None
    requires q.columns == [["COUNT", "(", "*", ")"]]
    ensures Answer(rows, stmt) == Ok(Counted(|Picked(rows, q.where)|))
  {
    UnorderedRows(Picked(rows, q.where), q.orderby);
  }

  lemma RowsReplied(rows: seq<Transaction>, stmt: Statement, q: SelectRead)
    requires ValidRows(rows) && ReadSelect(stmt.sql, stmt.args) == Some(q)
    requires q.table == TransactionTable && q.groupby == [] && GoodLimit(q.limit)
    requires |q.columns| > 1 && OneWordEach(q.columns)
    ensures ValidRows(Cut(Ordered(Picked(rows, q.where), q.orderby), q.limit))
    ensures Answer(rows, stmt)
         == Ok(Returned(Projected(Cut(Ordered(Picked(rows, q.where), q.orderby), q.limit), NamesOf(q.columns))))
  {
    AnsweredRows(rows, q);
  }

  /** What the database makes of the two statements built here. */
  lemma CountAnswered(rows: seq<Transaction>, cs: seq<Condition>)
    requires ValidRows(rows) && PlainList(cs) && FilledList(cs)
    ensures Answer(rows, SelectStatement(CountColumns, cs, [], [])) == Ok(Counted(|Picked(rows, ReadWhereOf(cs))|))
  {
    CountColumnText();
    TableName();
    SelectReadsBack(CountColumns, TransactionTable, cs, [], [], []);
    CountReplied(rows, SelectStatement(CountColumns, cs, [], []),
                 SelectRead(ColumnWords(CountColumns), TransactionTable, ReadWhereOf(cs), [], [], None));
  }

  lemma PageAnswered(rows: seq<Transaction>, cs: seq<Condition>, limit: seq<int>)
    requires ValidRows(rows) && PlainList(cs) && FilledList(cs)
    requires |limit| == 2 ==> limit[0] >= 0 && limit[1] >= 0
    ensures var found := Cut(Ordered(Picked(rows, ReadWhereOf(cs)), ListOrder), LimitRead(limit));
            && ValidRows(found)
            && Answer(rows, SelectStatement(RowColumns, cs, ListOrder, limit))
               == Ok(Returned(Projected(found, RowColumns)))
  {
    RowColumnTexts();
    TableName();
    ListOrderPlain();
    SelectReadsBack(RowColumns, TransactionTable, cs, [], ListOrder, limit);
    RowsReplied(rows, SelectStatement(RowColumns, cs, ListOrder, limit),
                SelectRead(ColumnWords(RowColumns), TransactionTable, ReadWhereOf(cs), [], ListOrder,
                           LimitRead(limit)));
  }

  // ---------------------------------------------------------------- selecting

  /** A query of the transactions table, as the builder writes it. */
  function SelectStatement(columns: seq<string>, cs: seq<Condition>, orders: seq<Order>, limit: seq<int>): Statement {
    Statement(SelectText(columns, TransactionTable, cs, [], OrderTexts(orders), limit), ListArgs(cs) + LimitArgs(limit))
  }

  /** The limit of a page; none for a size that is not positive. */
  function PageLimit(page: int, pageSize: int): seq<int> {
    if pageSize > 0 then [Offset(page, pageSize), pageSize] else []
  }

  method CountStatement(conds: seq<Condition>) returns (stmt: Statement)
    ensures stmt == SelectStatement(CountColumns, conds, [], [])
  {
    var q := new Query();
    q.Columns(CountColumns);
    q.Table(TransactionTable);
    q.Where(conds);
    assert q.conditions == conds && OrderTexts([]) == [];
    var r := q.QueryCtx();
    stmt := r.value;
  }

  method PageStatement(columns: seq<string>, orders: seq<Order>, conds: seq<Condition>, page: int, pageSize: int)
    returns (stmt: Statement)
    ensures stmt == SelectStatement(columns, conds, orders, PageLimit(page, pageSize))
  {
    var q := new Query();
    q.Columns(columns);
    q.Table(TransactionTable);
    q.Where(conds);
    q.OrderBy(orders);
    assert q.conditions == conds && q.orderby == OrderTexts(orders);
    if pageSize > 0 {
      var offset := Wrapped((page - 1) * pageSize, TwoTo63);
      if offset < 0 {
        offset := 0;
      }
      q.Limit(offset, pageSize);
    }
    var r := q.QueryCtx();
    stmt := r.value;
  }

  /** SELECT COUNT(*). */
  method CountQuery(rows: seq<Transaction>, conds: seq<Condition>) returns (total: int)
    requires ValidRows(rows) && PlainList(conds) && FilledList(conds)
    ensures total == |Picked(rows, ReadWhereOf(conds))|
  {
    var stmt := CountStatement(conds);
    CountAnswered(rows, conds);
    total := Answer(rows, stmt).value.n;
  }

  lemma PageIsCut(rows: seq<Transaction>, page: int, pageSize: int)
    ensures Cut(rows, LimitRead(PageLimit(page, pageSize))) == PageOf(rows, page, pageSize)
  {
  }

  /** The records of the rows, one for one. */
  ghost predicate RecordsOf(rows: seq<Transaction>, list: seq<Record>) {
    |list| == |rows| && forall i :: 0 <= i < |rows| ==> ValidRow(rows[i]) && Records(rows[i], list[i])
  }

  /** The ordered and limited query, scanned. */
  method PageQuery(rows: seq<Transaction>, conds: seq<Condition>, page: int, pageSize: int, round: real -> real)
    returns (list: seq<Record>)
    requires ValidRows(rows) && PlainList(conds) && FilledList(conds) && RoundsToNearest(round)
    ensures RecordsOf(PageOf(Ordered(Picked(rows, ReadWhereOf(conds)), ListOrder), page, pageSize), list)
  {
    var stmt := PageStatement(RowColumns, ListOrder, conds, page, pageSize);
    PageAnswered(rows, conds, PageLimit(page, pageSize));
    ghost var found := Ordered(Picked(rows, ReadWhereOf(conds)), ListOrder);
    PageIsCut(found, page, pageSize);
    var cells := Answer(rows, stmt).value.cells;
    ScannedPage(PageOf(found, page, pageSize), cells, round);
    var scanned := ScanTransactions(cells, round);
    list := scanned.value;
  }

  lemma ScannedPage(rows: seq<Transaction>, cells: seq<seq<Value>>, round: real -> real)
    requires ValidRows(rows) && cells == Projected(rows, RowColumns) && RoundsToNearest(round)
    ensures forall i :: 0 <= i < |cells| ==> Scannable(cells[i]) && Records(rows[i], Scanned(cells[i], round))
  {
    forall i | 0 <= i < |cells|
      ensures Scannable(cells[i]) && Records(rows[i], Scanned(cells[i], round))
    {
      ScanGivesRecord(rows[i], round);
    }
  }

  /** What the database picks for a filter, in the order of the list. */
  function Found(rows: seq<Transaction>, f: TransactionFilter): seq<Transaction>
    requires ValidRows(rows)
  {
    Ordered(Picked(rows, FilterWhere(f)), ListOrder)
  }

  method SelectTransactions(rows: seq<Transaction>, f: TransactionFilter, round: real -> real)
    returns (list: seq<Record>, total: int)
    requires ValidRows(rows) && RoundsToNearest(round)
    ensures RecordsOf(PageOf(Found(rows, f), f.page, f.pageSize), list) && total == |Found(rows, f)|
  {
    var conds := BuildTransactionFilter(f);
    FilterReads(f);
    total := CountQuery(rows, conds);
    list := PageQuery(rows, conds, f.page, f.pageSize, round);
    UnorderedRows(Picked(rows, FilterWhere(f)), ListOrder);
  }

  // ---------------------------------------------------------------- requests

  datatype ListRequest = ListRequest(year: int, month: int, categoryID: int, page: int, pageSize: int)

  predicate ValidRequest(q: ListRequest) {
    Int32(q.year) && Int32(q.month) && Int64(q.categoryID) && Int32(q.page) && Int32(q.pageSize)
  }

  /** The filter of a request: page at least 1, and no paging for a size below 1. */
  function FilterOf(accountID: string, q: ListRequest): TransactionFilter {
    TransactionFilter(accountID, q.year, q.month, q.categoryID,
                      if q.page < 1 then 1 else q.page, if q.pageSize < 1 then 0 else q.pageSize)
  }

  /** The page and the total a request is answered with. */
  function Listed(rows: seq<Transaction>, accountID: string, q: ListRequest): (seq<Transaction>, int)
    requires ValidRows(rows)
  {
    var f := FilterOf(accountID, q);
    (PageOf(Found(rows, f), f.page, f.pageSize), Wrapped(|Found(rows, f)|, TwoTo31))
  }

  /** Whatever the page and size asked for: pages below 1 are the first, sizes below 1 list everything. */
  method ListTransactions(rows: seq<Transaction>, accountID: string, q: ListRequest, round: real -> real)
    returns (list: seq<Record>, total: int)
    requires ValidRows(rows) && ValidRequest(q) && RoundsToNearest(round)
    ensures RecordsOf(Listed(rows, accountID, q).0, list) && total == Listed(rows, accountID, q).1
    ensures q.pageSize >= 1 ==> |list| <= q.pageSize
    ensures q.pageSize <= 0 ==> RecordsOf(Found(rows, FilterOf(accountID, q)), list)
    ensures q.pageSize >= 1 && q.page <= 1 ==>
      RecordsOf(PageOf(Found(rows, FilterOf(accountID, q)), 1, q.pageSize), list)
    ensures Int32(total)
  {
    var f := TransactionFilter(accountID, q.year, q.month, q.categoryID, q.page, q.pageSize);
    if f.page < 1 {
      f := f.(page := 1);
    }
    if f.pageSize < 1 {
      f := f.(pageSize := 0);
    }
    assert f == FilterOf(accountID, q);
    list, total := SelectTransactions(rows, f, round);
    ListedFits(rows, accountID, q);
    total := Wrapped(total, TwoTo31);
  }

  lemma ListedFits(rows: seq<Transaction>, accountID: string, q: ListRequest)
    requires ValidRows(rows)
    ensures Int32(Listed(rows, accountID, q).1)
    ensures q.pageSize >= 1 ==> |Listed(rows, accountID, q).0| <= q.pageSize
    ensures q.pageSize <= 0 ==> Listed(rows, accountID, q).0 == Found(rows, FilterOf(accountID, q))
    ensures q.pageSize >= 1 && q.page <= 1 ==>
      Listed(rows, accountID, q).0 == PageOf(Found(rows, FilterOf(accountID, q)), 1, q.pageSize)
  {
    var f := FilterOf(accountID, q);
    WrapFits(|Found(rows, f)|);
    if q.pageSize >= 1 {
      PageFits(Found(rows, f), f.page, f.pageSize);
    }
  }

  /** Requests for pages 1 to n, one after the other. */
  function ListedTo(rows: seq<Transaction>, accountID: string, q: ListRequest, n: nat): seq<Transaction>
    requires ValidRows(rows)
  {
    PageRun((k: nat) => Listed(rows, accountID, q.(page := k)).0, n)
  }

  lemma ListedPages(rows: seq<Transaction>, accountID: string, q: ListRequest, n: nat)
    requires ValidRows(rows) && q.pageSize >= 1
    ensures ListedTo(rows, accountID, q, n) == PagesTo(Found(rows, FilterOf(accountID, q)), q.pageSize, n)
  {
    var all := Found(rows, FilterOf(accountID, q));
    var listed, pages := (k: nat) => Listed(rows, accountID, q.(page := k)).0, (k: nat) => PageOf(all, k, q.pageSize);
    forall k: nat | 1 <= k <= n
      ensures listed(k) == pages(k)
    {
      ListedAt(rows, accountID, q, k);
    }
    PageRunSame(listed, pages, n);
  }

  lemma ListedAt(rows: seq<Transaction>, accountID: string, q: ListRequest, page: int)
    requires ValidRows(rows) && q.pageSize >= 1 && page >= 1
    ensures Listed(rows, accountID, q.(page := page)).0 == PageOf(Found(rows, FilterOf(accountID, q)), page, q.pageSize)
  {
    SameFilter(FilterOf(accountID, q), FilterOf(accountID, q.(page := page)));
  }

  /** Which rows are found does not depend on the page. */
  lemma SameFilter(f: TransactionFilter, g: TransactionFilter)
    requires f.accountID == g.accountID && f.year == g.year && f.month == g.month && f.categoryID == g.categoryID
    ensures FilterConditions(f) == FilterConditions(g)
  {
  }

  lemma LaterPagesEmpty(rows: seq<Transaction>, accountID: string, q: ListRequest, page: int)
    requires ValidRows(rows) && ValidRequest(q) && q.pageSize >= 1 && Int32(page)
    requires Int32(LastPage(|Found(rows, FilterOf(accountID, q))|, q.pageSize))
    requires page > LastPage(|Found(rows, FilterOf(accountID, q))|, q.pageSize)
    ensures Listed(rows, accountID, q.(page := page)).0 == []
  {
    ListedAt(rows, accountID, q, page);
    PagesComplete(Found(rows, FilterOf(accountID, q)), q.pageSize);
  }

  lemma TotalReported(rows: seq<Transaction>, accountID: string, q: ListRequest)
    requires ValidRows(rows) && Int32(|rows|)
    ensures Listed(rows, accountID, q).1 == |Found(rows, FilterOf(accountID, q))| <= |rows|
  {
    var f := FilterOf(accountID, q);
    PickedRows(rows, FilterWhere(f));
    UnorderedRows(Picked(rows, FilterWhere(f)), ListOrder);
  }

  lemma FoundRows(rows: seq<Transaction>, f: TransactionFilter)
    requires ValidRows(rows) && DistinctIds(rows)
    ensures Sorted(Found(rows, f))
    ensures forall t :: t in Found(rows, f) <==> t in rows && ValidRow(t) && Holds(FilterWhere(f), t)
    ensures RealMonth(f) ==> forall t :: t in Found(rows, f) <==> t in rows && Wanted(t, f)
  {
    var picked := Picked(rows, FilterWhere(f));
    PickedRows(rows, FilterWhere(f));
    PickedDistinct(rows, FilterWhere(f));
    OrderedSorted(picked);
    OrderedRows(picked, ListOrder);
    SameMembers(Found(rows, f), picked);
    if RealMonth(f) {
      forall t | t in rows
        ensures ValidRow(t) && (Holds(FilterWhere(f), t) <==> Wanted(t, f))
      {
        FilterSelects(t, f);
      }
    }
  }

  /** For the months 1 to 12 of the years 1 to 9999 the rows found are the account's undeleted rows of that month, and
      of the category if one is given; without a year or without a month they are those of every date. */
  lemma FoundByMonth(rows: seq<Transaction>, f: TransactionFilter)
    requires ValidRows(rows) && DistinctIds(rows)
    ensures 1 <= f.year <= 9999 && 1 <= f.month <= 12 ==>
      forall t :: t in Found(rows, f) <==>
        && t in rows && t.accountID == f.accountID && t.deletedAt == 0
        && t.date.year == f.year && t.date.month == f.month && (t.categoryID == f.categoryID || f.categoryID <= 0)
    ensures f.year <= 0 || f.month <= 0 ==>
      forall t :: t in Found(rows, f) <==>
        && t in rows && t.accountID == f.accountID && t.deletedAt == 0
        && (t.categoryID == f.categoryID || f.categoryID <= 0)
  {
    FoundRows(rows, f);
  }

  /** The rows come by sort order, then latest date, then highest id. */
  lemma FoundInOrder(rows: seq<Transaction>, f: TransactionFilter, i: nat, j: nat)
    requires ValidRows(rows) && DistinctIds(rows) && i < j < |Found(rows, f)|
    ensures var a, b := Found(rows, f)[i], Found(rows, f)[j];
            && a.sortOrder <= b.sortOrder
            && (a.sortOrder == b.sortOrder ==> a.date.year >= b.date.year)
            && (a.sortOrder == b.sortOrder && a.date.year == b.date.year ==> a.date.month >= b.date.month)
            && (a.sortOrder == b.sortOrder && a.date.year == b.date.year && a.date.month == b.date.month ==>
                  a.date.day >= b.date.day)
            && (a.sortOrder == b.sortOrder && a.date == b.date ==> a.id > b.id)
  {
    FoundRows(rows, f);
  }

  /** Asking for page after page, as many as the reported total makes, lists once and in order: for a month of the
      calendar every undeleted row of the account in that month and, if one is given, category; without a year or
      a month those of every date. Any later page is empty. */
  lemma PagesListEverything(rows: seq<Transaction>, accountID: string, q: ListRequest)
    requires ValidRows(rows) && ValidRequest(q) && q.pageSize >= 1 && DistinctIds(rows) && Int32(|rows|)
    ensures Listed(rows, accountID, q).1 >= 0
    ensures var n := LastPage(Listed(rows, accountID, q).1, q.pageSize);
      var list := ListedTo(rows, accountID, q, n);
      && Sorted(list) && list == Found(rows, FilterOf(accountID, q))
      && (1 <= q.year <= 9999 && 1 <= q.month <= 12 ==>
            forall t :: t in list <==>
              && t in rows && t.accountID == accountID && t.deletedAt == 0
              && t.date.year == q.year && t.date.month == q.month
              && (t.categoryID == q.categoryID || q.categoryID <= 0))
      && (q.year <= 0 || q.month <= 0 ==>
            forall t :: t in list <==>
              && t in rows && t.accountID == accountID && t.deletedAt == 0
              && (t.categoryID == q.categoryID || q.categoryID <= 0))
      && (forall page :: n < page && Int32(page) ==> Listed(rows, accountID, q.(page := page)).0 == [])
  {
    var f := FilterOf(accountID, q);
    TotalReported(rows, accountID, q);
    var n := LastPage(|Found(rows, f)|, q.pageSize);
    FewPages(|Found(rows, f)|, q.pageSize);
    PagesComplete(Found(rows, f), q.pageSize);
    ListedPages(rows, accountID, q, n);
    FoundRows(rows, f);
    FoundByMonth(rows, f);
    forall page | n < page && Int32(page)
      ensures Listed(rows, accountID, q.(page := page)).0 == []
    {
      LaterPagesEmpty(rows, accountID, q, page);
    }
  }

  lemma FewPages(total: nat, size: int)
    requires size >= 1
    ensures LastPage(total, size) <= total
  {
    var n := LastPage(total, size);
    if n > total {
      Further(total, n - 1, size);
      Further(1, size, total);
    }
  }
}
