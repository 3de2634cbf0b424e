/** The SELECT, INSERT and UPDATE builders of lib/sqlutil. Each `…Ctx` method returns the statement
    and the arguments it would hand to the database, or the error it returns before doing so. */
module SqlStatements {
  import opened SqlCondition
  import opened SqlRoundTrip

  datatype Result<+T> = Ok(value: T) | Err(message: string)

  datatype Statement = Statement(sql: string, args: seq<Value>)

  datatype Order = Order(expr: string, suffix: string)

  function OrderText(o: Order): string {
    o.expr + " " + o.suffix
  }

  function OrderTexts(os: seq<Order>): seq<string> {
    seq(|os|, i requires 0 <= i < |os| => OrderText(os[i]))
  }

  // ---------------------------------------------------------------- SELECT

  function WhereClause(cs: seq<Condition>): string {
    if ListText(cs) == "" then "" else " WHERE " + WhereText(cs)
  }

  function ListClause(keyword: string, parts: seq<string>): string {
    if Join(parts, ",") == "" then "" else keyword + Join(parts, ",")
  }

  function LimitClause(limit: seq<int>): string {
    if |limit| == 2 then " LIMIT ?, ?" else ""
  }

  function SelectTail(groupby: seq<string>, orderby: seq<string>, limit: seq<int>): string {
    ListClause(" GROUP BY ", groupby) + ListClause(" ORDER BY ", orderby) + LimitClause(limit)
  }

  function SelectHead(columns: seq<string>, table: string): string {
    "SELECT " + (if columns == [] then "*" else Join(columns, ", ")) + " FROM " + table
  }

  function SelectText(columns: seq<string>, table: string, cs: seq<Condition>, groupby: seq<string>,
                      orderby: seq<string>, limit: seq<int>): string
  {
    SelectHead(columns, table) + WhereClause(cs) + SelectTail(groupby, orderby, limit)
  }

  function LimitArgs(limit: seq<int>): seq<Value> {
    if |limit| == 2 then [Integer(limit[0]), Integer(limit[1])] else []
  }

  class Query {
    var table: string
    var columns: seq<string>
    var conditions: seq<Condition>
    var groupby: seq<string>
    var orderby: seq<string>
    var limit: seq<int>

    constructor ()
      ensures table == "" && columns == [] && conditions == [] && groupby == [] && orderby == [] && limit == []
    {
      table, columns, conditions, groupby, orderby, limit := "", [], [], [], [], [];
    }

    method Columns(names: seq<string>)
      modifies `columns
      ensures columns == names
    {
      columns := names;
    }

    method Table(name: string)
      modifies `table
      ensures table == name
    {
      table := name;
    }

    /** Conditions of several calls accumulate. */
    method Where(cs: seq<Condition>)
      modifies `conditions
      ensures conditions == old(conditions) + cs
    {
      conditions := conditions + cs;
    }

    method GroupBy(names: seq<string>)
      modifies `groupby
      ensures groupby == names
    {
      groupby := names;
    }

    method OrderBy(orders: seq<Order>)
      modifies `orderby
      ensures orderby == old(orderby) + OrderTexts(orders)
    {
      for i := 0 to |orders|
        invariant orderby == old(orderby) + OrderTexts(orders[..i])
      {
        orderby := orderby + [OrderText(orders[i])];
        assert OrderTexts(orders[..i + 1]) == OrderTexts(orders[..i]) + [OrderText(orders[i])];
      }
      assert orders[..|orders|] == orders;
    }

    method Limit(offset: int, count: int)
      modifies `limit
      ensures limit == [offset, count]
    {
      limit := [offset, count];
    }

    method QueryCtx() returns (r: Result<Statement>)
      ensures table == "" <==> r.Err?
      ensures r.Ok? ==>
        && r.value.sql == SelectText(columns, table, conditions, groupby, orderby, limit)
        && r.value.args == ListArgs(conditions) + LimitArgs(limit)
    {
      if table == "" {
        return Err("table is invalid");
      }
      var column := "*";
      if |columns| != 0 {
        column := Join(columns, ", ");
      }
      var where, args := ConcatSQL(conditions);
      var sql := "SELECT " + column + " FROM " + table;
      assert sql == SelectHead(columns, table);
      if |where| != 0 {
        var w := TrimPrefix(where, TypeString(AND));
        w := TrimPrefix(w, TypeString(OR));
        sql := sql + (" WHERE " + w);
      }
      assert sql == SelectHead(columns, table) + WhereClause(conditions);
      if Join(groupby, ",") != "" {
        sql := sql + (" GROUP BY " + Join(groupby, ","));
      }
      if Join(orderby, ",") != "" {
        sql := sql + (" ORDER BY " + Join(orderby, ","));
      }
      if |limit| == 2 {
        sql := sql + " LIMIT ?, ?";
        args := args + [Integer(limit[0]), Integer(limit[1])];
      }
      TailAssoc(SelectHead(columns, table) + WhereClause(conditions), ListClause(" GROUP BY ", groupby),
                ListClause(" ORDER BY ", orderby), LimitClause(limit));
      r := Ok(Statement(sql, args));
    }
  }

  lemma TailAssoc(a: string, b: string, c: string, d: string)
    ensures a + b + c + d == a + (b + c + d)
    ensures a + "" == a && a + b + "" == a + b
  {
  }

  // ---------------------------------------------------------------- INSERT and UPDATE

  type Fields = map<string, Value>

  /** An order in which the language may visit the keys of a map. */
  ghost predicate VisitsKeys(order: seq<string>, fields: Fields) {
    && (forall i, j :: 0 <= i < j < |order| ==> order[i] != order[j])
    && (forall k :: k in order <==> k in fields)
  }

  function InsertText(table: string, columns: seq<string>): string {
    "INSERT INTO " + table + "(" + Join(columns, ", ") + ") VALUES (" + Join(Placeholders(|columns|), ", ") + ")"
  }

  function RowMarks(n: nat): string {
    "(" + Join(Placeholders(n), ", ") + ")"
  }

  function BatchText(table: string, columns: seq<string>, rows: nat): string {
    "insert into " + table + " (" + Join(columns, ",") + ") values " + Join(seq(rows, i => RowMarks(|columns|)), ",")
  }

  function Assignments(columns: seq<string>): seq<string> {
    seq(|columns|, i requires 0 <= i < |columns| => columns[i] + " = ?")
  }

  function UpdateText(table: string, columns: seq<string>, cs: seq<Condition>): string {
    "UPDATE " + table + " SET " + Join(Assignments(columns), ",") + WhereClause(cs)
  }

  class Insert {
    var table: string

    constructor ()
      ensures table == ""
    {
      table := "";
    }

    method Table(name: string)
      modifies `table
      ensures table == name
    {
      table := name;
    }

    method InsertCtx(value: Fields, order: seq<string>) returns (r: Result<Statement>)
      requires VisitsKeys(order, value)
      ensures r.Err? <==> table == "" || value == map[]
      ensures r.Ok? ==> r.value.sql == InsertText(table, order)
      ensures r.Ok? ==> |r.value.args| == |order| && forall k :: 0 <= k < |order| ==> r.value.args[k] == value[order[k]]
    {
      if table == "" {
        return Err("table is invalid");
      }
      if |value| == 0 {
        return Err("value is invalid");
      }
      var fields1: seq<string>, fields2: seq<string>, args: seq<Value> := [], [], [];
      for i := 0 to |order|
        invariant fields1 == order[..i]
        invariant fields2 == Placeholders(i)
        invariant |args| == i && forall k :: 0 <= k < i ==> args[k] == value[order[k]]
      {
        assert order[i] in order;
        fields1 := fields1 + [order[i]];
        fields2 := fields2 + ["?"];
        args := args + [value[order[i]]];
      }
      assert fields1 == order;
      var sql := "INSERT INTO " + table + "(" + Join(fields1, ", ") + ") VALUES (" + Join(fields2, ", ") + ")";
      r := Ok(Statement(sql, args));
    }

    /** Fails exactly when the table, the columns or the rows are missing or a row lacks a column. */
    method InsertBatchCtx(columns: seq<string>, values: seq<Fields>) returns (r: Result<Statement>)
      ensures r.Err? <==> table == "" || columns == [] || values == [] ||
                          exists i, j :: 0 <= i < |values| && 0 <= j < |columns| && columns[j] !in values[i]
      ensures r.Ok? ==> r.value.sql == BatchText(table, columns, |values|)
      ensures r.Ok? ==> Bound(r.value.args, columns, values)
    {
      if table == "" {
        return Err("table is invalid");
      }
      if |columns| == 0 {
        return Err("columns is invalid");
      }
      if |values| == 0 {
        return Err("values is invalid");
      }
      var n := |columns|;
      var fields: seq<string> := [];
      for j := 0 to n
        invariant fields == Placeholders(j)
      {
        fields := fields + ["?"];
      }
      var field := "(" + Join(fields, ", ") + ")";
      var args: seq<Value> := [];
      fields := [];
      for i := 0 to |values|
        invariant fields == seq(i, k => RowMarks(n))
        invariant Bound(args, columns, values[..i])
      {
        ghost var before := args;
        for j := 0 to n
          invariant |args| == |before| + j && args[..|before|] == before
          invariant forall k :: 0 <= k < j ==> columns[k] in values[i] && args[|before| + k] == values[i][columns[k]]
        {
          if columns[j] !in values[i] {
            return Err("not found column with [" + columns[j] + "]");
          }
          args := args + [values[i][columns[j]]];
        }
        BoundStep(before, args, columns, values[..i], values[i]);
        assert values[..i] + [values[i]] == values[..i + 1];
        fields := fields + [field];
      }
      assert values[..|values|] == values;
      var sql := "insert into " + table + " (" + Join(columns, ",") + ") values " + Join(fields, ",");
      r := Ok(Statement(sql, args));
    }
  }

  /** Every row's values, row after row, in column order. */
  ghost predicate Bound(args: seq<Value>, columns: seq<string>, rows: seq<Fields>) {
    && |args| == |rows| * |columns|
    && forall i, j :: 0 <= i < |rows| && 0 <= j < |columns| ==>
         columns[j] in rows[i] && BoundAt(args, i * |columns| + j, rows[i][columns[j]])
  }

  predicate BoundAt(args: seq<Value>, k: int, v: Value) {
    0 <= k < |args| && args[k] == v
  }

  lemma BoundStep(before: seq<Value>, args: seq<Value>, columns: seq<string>, rows: seq<Fields>, row: Fields)
    requires Bound(before, columns, rows)
    requires |args| == |before| + |columns| && args[..|before|] == before
    requires forall k :: 0 <= k < |columns| ==> columns[k] in row && args[|before| + k] == row[columns[k]]
    ensures Bound(args, columns, rows + [row])
  {
    var n := |columns|;
    assert (|rows| + 1) * n == |rows| * n + n;
    forall i, j | 0 <= i < |rows| + 1 && 0 <= j < n
      ensures columns[j] in (rows + [row])[i] && BoundAt(args, i * n + j, (rows + [row])[i][columns[j]])
    {
      if i < |rows| {
        assert BoundAt(before, i * n + j, rows[i][columns[j]]);
        assert args[..|before|][i * n + j] == args[i * n + j];
      }
    }
  }

  class Update {
    var table: string
    var fields: Fields
    var conditions: seq<Condition>

    constructor ()
      ensures table == "" && fields == map[] && conditions == []
    {
      table, fields, conditions := "", map[], [];
    }

    method Field(f: Fields)
      modifies `fields
      ensures fields == f
    {
      fields := f;
    }

    method Table(name: string)
      modifies `table
      ensures table == name
    {
      table := name;
    }

    method Where(cs: seq<Condition>)
      modifies `conditions
      ensures conditions == old(conditions) + cs
    {
      conditions := conditions + cs;
    }

    /** The arguments of SET come before the arguments of WHERE. */
    method UpdateCtx(order: seq<string>) returns (r: Result<Statement>)
      requires VisitsKeys(order, fields)
      ensures r.Err? <==> table == "" || fields == map[]
      ensures r.Ok? ==> r.value.sql == UpdateText(table, order, conditions)
      ensures r.Ok? ==> exists vs: seq<Value> ::
        |vs| == |order| && r.value.args == vs + ListArgs(conditions) &&
        forall k :: 0 <= k < |order| ==> vs[k] == fields[order[k]]
    {
      if table == "" {
        return Err("table is invalid");
      }
      if |fields| == 0 {
        return Err("fields is invalid");
      }
      var texts: seq<string>, args: seq<Value> := [], [];
      for i := 0 to |order|
        invariant texts == Assignments(order[..i])
        invariant |args| == i && forall k :: 0 <= k < i ==> args[k] == fields[order[k]]
      {
        assert order[i] in order;
        texts := texts + [order[i] + " = ?"];
        args := args + [fields[order[i]]];
        assert Assignments(order[..i + 1]) == Assignments(order[..i]) + [order[i] + " = ?"];
      }
      assert order[..|order|] == order;
      ghost var vs := args;
      var where, whereArgs := ConcatSQL(conditions);
      args := args + whereArgs;
      var sql := "UPDATE " + table + " SET " + Join(texts, ",");
      if |where| != 0 {
        var w := TrimPrefix(where, TypeString(AND));
        w := TrimPrefix(w, TypeString(OR));
        sql := sql + (" WHERE " + w);
      }
      assert sql == UpdateText(table, order, conditions);
      assert args == vs + ListArgs(conditions);
      r := Ok(Statement(sql, args));
    }
  }
}
