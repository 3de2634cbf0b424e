/** A row of the transactions table, its cells as a query returns them, and the record scanned from them
    (apps/personal-core/pkg/model/transaction.go). */
module TransactionRow {
  import opened Options
  import opened SqlCondition
  import Calendar
  import Cents

  /** The table: the amount in hundredths, the date as a calendar date. */
  datatype Transaction = Transaction(
    id: int,
    accountID: string,
    categoryID: int,
    kind: int,
    name: string,
    amount: int,
    date: Calendar.Date,
    note: string,
    sortOrder: int,
    deletedAt: int,
    createdAt: int,
    updatedAt: int)

  /** A date the layout can print, and an amount the column can hold. */
  predicate ValidRow(t: Transaction) {
    Calendar.ValidDate(t.date) && t.date.year <= 9999 && Cents.InRange(t.amount)
  }

  /** What the table holds in a column, by the names of its definition. */
  function Cell(t: Transaction, column: string): Value
    requires ValidRow(t)
  {
    match column
    case "id" => Integer(t.id)
    case "account_id" => Text(t.accountID)
    case "category_id" => Integer(t.categoryID)
    case "type" => Integer(t.kind)
    case "name" => Text(t.name)
    case "amount" => Real(t.amount as real / 100.0)
    case "date" => Text(Calendar.Text(t.date))
    case "note" => Text(t.note)
    case "sort_order" => Integer(t.sortOrder)
    case "deleted_at" => Integer(t.deletedAt)
    case "created_at" => Integer(t.createdAt)
    case "updated_at" => Integer(t.updatedAt)
    case _ => Null
  }

  /** The cells of the named columns. */
  function Project(t: Transaction, columns: seq<string>): seq<Value>
    requires ValidRow(t)
  {
    seq(|columns|, i requires 0 <= i < |columns| => Cell(t, columns[i]))
  }

  // ---------------------------------------------------------------- scanning

  /** The record the program works with: the amount in cents, the date as text. */
  datatype Record = Record(
    id: int,
    accountID: string,
    categoryID: int,
    kind: int,
    name: string,
    amount: int,
    date: string,
    note: string,
    sortOrder: int,
    deletedAt: int,
    createdAt: int,
    updatedAt: int)

  /** The types row.Scan expects, by position. */
  predicate Scannable(row: seq<Value>) {
    && |row| == 12
    && row[0].Integer? && row[1].Text? && row[2].Integer? && row[3].Integer? && row[4].Text? && row[5].Real?
    && row[6].Text? && row[7].Text? && row[8].Integer? && row[9].Integer? && row[10].Integer? && row[11].Integer?
  }

  /** One row scanned by position; `round` is the float64 rounding of the machine. */
  function Scanned(row: seq<Value>, round: real -> real): Record
    requires Scannable(row)
  {
    var amountDec := round(row[5].r);
    Record(row[0].n, row[1].s, row[2].n, row[3].n, row[4].s, Cents.GoRound(round(amountDec * 100.0)), row[6].s,
           row[7].s, row[8].n, row[9].n, row[10].n, row[11].n)
  }

  /** scanTransactions; a row of other types is an error. */
  method ScanTransactions(rows: seq<seq<Value>>, round: real -> real) returns (list: Option<seq<Record>>)
    ensures list.Some? <==> forall i :: 0 <= i < |rows| ==> Scannable(rows[i])
    ensures list.Some? ==> |list.value| == |rows|
    ensures list.Some? ==> forall i :: 0 <= i < |rows| ==> list.value[i] == Scanned(rows[i], round)
  {
    var records: seq<Record> := [];
    for i := 0 to |rows|
      invariant |records| == i
      invariant forall k :: 0 <= k < i ==> Scannable(rows[k]) && records[k] == Scanned(rows[k], round)
    {
      if !Scannable(rows[i]) {
        return None;
      }
      records := records + [Scanned(rows[i], round)];
    }
    list := Some(records);
  }

  ghost predicate RoundsToNearest(round: real -> real) {
    forall x :: Cents.Nearest(x, round(x))
  }

  /** The record of a row: every field as stored, the amount in whole cents, the date in the layout. */
  predicate Records(t: Transaction, r: Record)
    requires ValidRow(t)
  {
    && r.id == t.id && r.accountID == t.accountID && r.categoryID == t.categoryID && r.kind == t.kind
    && r.name == t.name && r.amount == t.amount && r.date == Calendar.Text(t.date) && r.note == t.note
    && r.sortOrder == t.sortOrder && r.deletedAt == t.deletedAt && r.createdAt == t.createdAt
    && r.updatedAt == t.updatedAt
  }

  lemma FirstCells(t: Transaction)
    requires ValidRow(t)
    ensures Cell(t, "id") == Integer(t.id) && Cell(t, "account_id") == Text(t.accountID)
    ensures Cell(t, "category_id") == Integer(t.categoryID) && Cell(t, "type") == Integer(t.kind)
    ensures Cell(t, "name") == Text(t.name) && Cell(t, "amount") == Real(t.amount as real / 100.0)
  {
    assert "type"[0] == 't' && "name"[1] == 'a' && |"id"| == 2 && |"category_id"| == 11 && |"amount"| == 6;
  }

  lemma MiddleCells(t: Transaction)
    requires ValidRow(t)
    ensures Cell(t, "date") == Text(Calendar.Text(t.date)) && Cell(t, "note") == Text(t.note)
    ensures Cell(t, "sort_order") == Integer(t.sortOrder)
  {
    assert "date"[0] == 'd' && "note"[1] == 'o' && "sort_order"[0] == 's';
  }

  lemma LastCells(t: Transaction)
    requires ValidRow(t)
    ensures Cell(t, "deleted_at") == Integer(t.deletedAt) && Cell(t, "created_at") == Integer(t.createdAt)
    ensures Cell(t, "updated_at") == Integer(t.updatedAt)
  {
    assert "deleted_at"[0] == 'd' && "created_at"[0] == 'c' && "updated_at"[0] == 'u' && "account_id"[0] == 'a';
  }

  const RowColumns := ["id", "account_id", "category_id", "type", "name", "amount", "date", "note", "sort_order",
                       "deleted_at", "created_at", "updated_at"]

  /** The cells of those columns. */
  function Cells(t: Transaction): seq<Value>
    requires ValidRow(t)
  {
    [Integer(t.id), Text(t.accountID), Integer(t.categoryID), Integer(t.kind), Text(t.name),
     Real(t.amount as real / 100.0), Text(Calendar.Text(t.date)), Text(t.note), Integer(t.sortOrder),
     Integer(t.deletedAt), Integer(t.createdAt), Integer(t.updatedAt)]
  }

  lemma Projected(t: Transaction)
    requires ValidRow(t)
    ensures Project(t, RowColumns) == Cells(t)
  {
    FirstCells(t);
    MiddleCells(t);
    LastCells(t);
  }

  lemma ScannedCells(t: Transaction, row: seq<Value>, round: real -> real)
    requires ValidRow(t) && RoundsToNearest(round) && row == Cells(t)
    ensures Scannable(row) && Records(t, Scanned(row, round))
  {
    CellsScannable(t);
    ScannedAmount(row, t.amount, round);
  }

  lemma CellsScannable(t: Transaction)
    requires ValidRow(t)
    ensures Scannable(Cells(t))
  {
  }

  lemma ScannedAmount(row: seq<Value>, k: int, round: real -> real)
    requires Scannable(row) && row[5] == Real(k as real / 100.0) && Cents.InRange(k) && RoundsToNearest(round)
    ensures Scanned(row, round).amount == k
  {
    AmountBack(k, round);
  }

  lemma AmountBack(k: int, round: real -> real)
    requires Cents.InRange(k) && RoundsToNearest(round)
    ensures Cents.GoRound(round(round(k as real / 100.0) * 100.0)) == k
  {
    var r := round(k as real / 100.0);
    Cents.ReadsBack(k, r, round(r * 100.0));
  }

  /** Scanning the twelve columns in the order in which they are selected gives the record of the row. */
  lemma ScanGivesRecord(t: Transaction, round: real -> real)
    requires ValidRow(t) && RoundsToNearest(round)
    ensures Scannable(Project(t, RowColumns)) && Records(t, Scanned(Project(t, RowColumns), round))
  {
    Projected(t);
    ScannedCells(t, Project(t, RowColumns), round);
  }
}
