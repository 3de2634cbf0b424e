/** A reader for SELECT statements: columns, table, WHERE, GROUP BY, ORDER BY and LIMIT, with the k-th placeholder
    bound to the k-th argument. It shows what the query builder's statement means. */
module SqlSelectReader {
  import opened Options
  import opened SqlCondition
  import opened SqlGrammar
  import opened SqlRoundTrip
  import opened SqlStatements
  import opened SqlStatementReader

  // ---------------------------------------------------------------- the reader

  /** Where the first FROM is. */
  function FromAt(words: seq<string>): (r: Option<nat>)
    ensures r.Some? ==> r.value < |words|
  {
    if words == [] then None
    else if Upper(words[0]) == "FROM" then Some(0)
    else
      var rest := FromAt(words[1..]);
      if rest.None? then None else Some(rest.value + 1)
  }

  /** Lexemes between commas. */
  function SplitCommas(words: seq<string>): (parts: seq<seq<string>>)
    ensures parts != []
  {
    if words == [] then [[]]
    else
      var rest := SplitCommas(words[1..]);
      if words[0] == "," then [[]] + rest else [[words[0]] + rest[0]] + rest[1..]
  }

  predicate StartsWord(ts: seq<Token>, w: string) {
    ts != [] && IsWordToken(ts[0], w)
  }

  /** [ WHERE search-condition ] */
  function ParseWhere(ts: seq<Token>, args: seq<Value>): Option<Parse<Option<Search>>> {
    if !StartsWord(ts, "WHERE") then Some(Parse(None, ts, args))
    else
      var search := ParseSearch(ts[1..], args);
      if search.None? then None else Some(Parse(Some(search.value.value), search.value.rest, search.value.args))
  }

  predicate StartsTwo(ts: seq<Token>, v: string, w: string) {
    |ts| >= 2 && IsWordToken(ts[0], v) && IsWordToken(ts[1], w)
  }

  /** [ GROUP BY name { "," name } ] */
  function ParseGroupBy(ts: seq<Token>): Option<(seq<string>, seq<Token>)> {
    if StartsTwo(ts, "GROUP", "BY") then ParseNames(ts[2..]) else Some(([], ts))
  }

  /** name ( ASC | DESC ) { "," name ( ASC | DESC ) } */
  function ParseOrders(ts: seq<Token>): (r: Option<(seq<Order>, seq<Token>)>)
    decreases |ts|
  {
    if |ts| < 2 || !ts[0].Name? || !(IsWordToken(ts[1], "ASC") || IsWordToken(ts[1], "DESC")) then None
    else
      var first := Order(ts[0].s, Upper(ts[1].s));
      if Starts(ts[2..], Comma) then
        var more := ParseOrders(ts[3..]);
        if more.None? then None else Some(([first] + more.value.0, more.value.1))
      else Some(([first], ts[2..]))
  }

  /** [ ORDER BY orders ] */
  function ParseOrderBy(ts: seq<Token>): Option<(seq<Order>, seq<Token>)> {
    if StartsTwo(ts, "ORDER", "BY") then ParseOrders(ts[2..]) else Some(([], ts))
  }

  datatype Limit = Limit(offset: Value, count: Value)

  /** [ LIMIT placeholder "," placeholder ] at the end, using up the arguments. */
  function ParseLimit(ts: seq<Token>, args: seq<Value>): Option<Option<Limit>> {
    if ts == [] then (if args == [] then Some(None) else None)
    else if StartsWord(ts, "LIMIT") && ts[1..] == [Question, Comma, Question] && |args| == 2 then
      Some(Some(Limit(args[0], args[1])))
    else None
  }

  datatype SelectRead = SelectRead(
    columns: seq<seq<string>>,
    table: string,
    where: Option<Search>,
    groupby: seq<string>,
    orderby: seq<Order>,
    limit: Option<Limit>)

  /** What follows the table. */
  function ReadClauses(columns: seq<seq<string>>, table: string, ts: seq<Token>, args: seq<Value>): Option<SelectRead> {
    var where := ParseWhere(ts, args);
    if where.None? then None
    else
      var group := ParseGroupBy(where.value.rest);
      if group.None? then None
      else
        var order := ParseOrderBy(group.value.1);
        if order.None? then None
        else
          var limit := ParseLimit(order.value.1, where.value.args);
          if limit.None? then None
          else Some(SelectRead(columns, table, where.value.value, group.value.0, order.value.0, limit.value))
  }

  function ReadFrom(columns: seq<seq<string>>, ts: seq<Token>, args: seq<Value>): Option<SelectRead> {
    if ts == [] || !ts[0].Name? then None else ReadClauses(columns, ts[0].s, ts[1..], args)
  }

  function ReadSelect(text: string, args: seq<Value>): Option<SelectRead> {
    var words := Lex(text);
    if words == [] || Upper(words[0]) != "SELECT" then None
    else
      var from := FromAt(words[1..]);
      if from.None? then None
      else ReadFrom(SplitCommas(words[1..][..from.value]), Classified(words[1..][from.value + 1..]), args)
  }

  // ---------------------------------------------------------------- the columns

  predicate NoComma(words: seq<string>) {
    forall w :: w in words ==> w != ","
  }

  predicate NoFrom(words: seq<string>) {
    forall w :: w in words ==> Upper(w) != "FROM"
  }

  /** A column expression without a comma and without the word FROM. */
  predicate ColumnText(c: string) {
    NoComma(Lex(c)) && NoFrom(Lex(c))
  }

  ghost predicate ColumnTexts(columns: seq<string>) {
    forall c :: c in columns ==> ColumnText(c)
  }

  /** The lexemes of each column. */
  function ColumnWords(columns: seq<string>): seq<seq<string>> {
    if columns == [] then [["*"]] else seq(|columns|, i requires 0 <= i < |columns| => Lex(columns[i]))
  }

  lemma {:induction false} SplitLast(w: seq<string>)
    requires NoComma(w)
    ensures SplitCommas(w) == [w]
  {
    if w != [] {
      assert w[0] in w;
      assert forall x :: x in w[1..] ==> x in w;
      SplitLast(w[1..]);
      assert w == [w[0]] + w[1..];
    }
  }

  lemma {:induction false} SplitFirst(w: seq<string>, rest: seq<string>)
    requires NoComma(w)
    ensures SplitCommas(w + ([","] + rest)) == [w] + SplitCommas(rest)
  {
    var all := w + ([","] + rest);
    if w == [] {
      assert all == [","] + rest && all[1..] == rest;
    } else {
      assert w[0] in w;
      assert forall x :: x in w[1..] ==> x in w;
      assert all[0] == w[0] && all[1..] == w[1..] + ([","] + rest);
      SplitFirst(w[1..], rest);
      assert w == [w[0]] + w[1..];
    }
  }

  lemma {:induction false} SplitColumns(columns: seq<string>)
    requires columns != [] && ColumnTexts(columns)
    ensures SplitCommas(CommaWords(columns)) == ColumnWords(columns)
    decreases |columns|
  {
    assert columns[0] in columns;
    if |columns| == 1 {
      SplitLast(Lex(columns[0]));
      assert ColumnWords(columns) == [Lex(columns[0])];
    } else {
      assert forall c :: c in columns[1..] ==> c in columns;
      SplitColumns(columns[1..]);
      SplitFirst(Lex(columns[0]), CommaWords(columns[1..]));
      assert ColumnWords(columns) == [Lex(columns[0])] + ColumnWords(columns[1..]);
    }
  }

  lemma {:induction false} NoFromInColumns(columns: seq<string>)
    requires ColumnTexts(columns)
    ensures NoFrom(CommaWords(columns))
    decreases |columns|
  {
    if columns != [] {
      assert columns[0] in columns;
      if |columns| > 1 {
        assert forall c :: c in columns[1..] ==> c in columns;
        NoFromInColumns(columns[1..]);
        assert |Upper(",")| == 1;
      }
    }
  }

  lemma {:induction false} FromFound(words: seq<string>, rest: seq<string>)
    requires NoFrom(words) && rest != [] && Upper(rest[0]) == "FROM"
    ensures FromAt(words + rest) == Some(|words|)
  {
    if words == [] {
      assert words + rest == rest;
    } else {
      assert words[0] in words;
      assert forall x :: x in words[1..] ==> x in words;
      assert (words + rest)[0] == words[0] && (words + rest)[1..] == words[1..] + rest;
      FromFound(words[1..], rest);
    }
  }

  // ---------------------------------------------------------------- text to lexemes

  /** The lexemes between SELECT and FROM. */
  function HeadWords(columns: seq<string>): seq<string> {
    if columns == [] then ["*"] else CommaWords(columns)
  }

  lemma HeadAssoc(cols: string, table: string)
    ensures "SELECT " + cols + " FROM " + table == "SELECT" + (" " + (cols + (" " + ("FROM" + (" " + table)))))
  {
  }

  lemma SelectWords()
    ensures Whole("SELECT") && Whole("FROM") && Upper("SELECT") == "SELECT" && Upper("FROM") == "FROM"
  {
    WordIs("SELECT");
    WordIs("FROM");
  }

  lemma LexColumns(columns: seq<string>)
    ensures Lex(if columns == [] then "*" else Join(columns, ", ")) == HeadWords(columns)
  {
    if columns == [] {
      LexWhole("*");
    } else {
      LexJoin(columns, ", ");
    }
  }

  lemma LexHead(columns: seq<string>, table: string)
    requires PlainName(table)
    ensures Lex(SelectHead(columns, table)) == ["SELECT"] + (HeadWords(columns) + ["FROM", table])
  {
    var cols := if columns == [] then "*" else Join(columns, ", ");
    HeadAssoc(cols, table);
    LexColumns(columns);
    SelectWords();
    LexName(table);
    LexBlank(table);
    LexWordThen("FROM", " " + table);
    LexBlank("FROM" + (" " + table));
    LexConcat(cols, " " + ("FROM" + (" " + table)));
    var rest := cols + (" " + ("FROM" + (" " + table)));
    LexBlank(rest);
    LexWordThen("SELECT", " " + rest);
    assert ["FROM"] + [table] == ["FROM", table];
  }

  /** A clause of two words and a list. */
  function ClauseWords(v: string, w: string, parts: seq<string>): seq<string> {
    if parts == [] then [] else [v, w] + CommaWords(parts)
  }

  lemma ClauseAssoc(v: string, w: string, list: string)
    ensures " " + v + " " + w + " " + list == " " + (v + (" " + (w + (" " + list))))
  {
  }

  lemma LexTwoWords(v: string, w: string, list: string)
    requires Whole(v) && Whole(w)
    ensures Lex(" " + v + " " + w + " " + list) == [v, w] + Lex(list)
  {
    ClauseAssoc(v, w, list);
    LexBlank(list);
    LexFirst(w, " " + list);
    LexFirst(v, " " + (w + (" " + list)));
    assert [v] + ([w] + Lex(list)) == [v, w] + Lex(list);
  }

  lemma JoinNotEmpty(parts: seq<string>, sep: string)
    requires parts != [] && parts[0] != ""
    ensures Join(parts, sep) != ""
  {
  }

  lemma LexClause(v: string, w: string, keyword: string, parts: seq<string>)
    requires Whole(v) && Whole(w) && keyword == " " + v + " " + w + " " && (parts != [] ==> parts[0] != "")
    ensures Lex(ListClause(keyword, parts)) == ClauseWords(v, w, parts)
    ensures ListClause(keyword, parts) != "" ==> ListClause(keyword, parts)[0] == ' '
  {
    if parts != [] {
      JoinNotEmpty(parts, ",");
      LexJoin(parts, ",");
      LexTwoWords(v, w, Join(parts, ","));
    }
  }

  function LimitWords(limit: seq<int>): seq<string> {
    if |limit| == 2 then ["LIMIT", "?", ",", "?"] else []
  }

  lemma LexPair(w: string, mark: string, sep: string)
    requires Whole(w) && |mark| == 1 && mark[0] == '?' && IsComma(sep)
    ensures Lex(" " + (w + (" " + (mark + (sep + mark))))) == [w, mark, ",", mark]
  {
    LexWhole(mark);
    LexComma(sep, mark);
    LexSingle(mark, sep + mark);
    LexBlank(mark + (sep + mark));
    LexFirst(w, " " + (mark + (sep + mark)));
    assert [w] + ([mark] + ([","] + [mark])) == [w, mark, ",", mark];
  }

  lemma LexLimit(limit: seq<int>)
    ensures Lex(LimitClause(limit)) == LimitWords(limit)
    ensures LimitClause(limit) != "" ==> LimitClause(limit)[0] == ' '
  {
    if |limit| == 2 {
      var w, mark, sep := "LIMIT", "?", ", ";
      ClauseNames();
      LexPair(w, mark, sep);
      assert LimitClause(limit) == " " + (w + (" " + (mark + (sep + mark))));
    }
  }

  // ---------------------------------------------------------------- orders

  predicate PlainOrder(o: Order) {
    PlainName(o.expr) && (o.suffix == "ASC" || o.suffix == "DESC")
  }

  ghost predicate PlainOrders(orders: seq<Order>) {
    forall o :: o in orders ==> PlainOrder(o)
  }

  function OrderTokens(orders: seq<Order>): seq<Token> {
    if orders == [] then []
    else if |orders| == 1 then [Name(orders[0].expr), Name(orders[0].suffix)]
    else [Name(orders[0].expr), Name(orders[0].suffix)] + ([Comma] + OrderTokens(orders[1..]))
  }

  lemma OrderWords()
    ensures Upper("ASC") == "ASC" && Upper("DESC") == "DESC" && Whole("ASC") && Whole("DESC")
    ensures Classify("ASC") == Name("ASC") && Classify("DESC") == Name("DESC")
  {
    WordIs("ASC");
    WordIs("DESC");
  }

  lemma LexOrder(o: Order)
    requires PlainOrder(o)
    ensures Lex(OrderText(o)) == [o.expr, o.suffix]
    ensures Classified([o.expr, o.suffix]) == [Name(o.expr), Name(o.suffix)]
  {
    OrderWords();
    LexName(o.expr);
    LexWhole(o.suffix);
    LexBlank(o.suffix);
    assert o.expr[0] in o.expr;
    LexWordThen(o.expr, " " + o.suffix);
    Assoc(o.expr, " ", o.suffix);
    ClassifyName(o.expr);
    ClassifyTwo(o.expr, o.suffix);
    assert [o.expr] + [o.suffix] == [o.expr, o.suffix];
  }

  lemma {:induction false} ClassifyOrders(orders: seq<Order>)
    requires PlainOrders(orders)
    ensures Classified(CommaWords(OrderTexts(orders))) == OrderTokens(orders)
    decreases |orders|
  {
    if orders != [] {
      var texts := OrderTexts(orders);
      assert orders[0] in orders;
      LexOrder(orders[0]);
      if |orders| > 1 {
        assert texts[1..] == OrderTexts(orders[1..]);
        assert forall o :: o in orders[1..] ==> o in orders;
        ClassifyOrders(orders[1..]);
        ClassifyComma();
        ClassifiedConcat([","], CommaWords(texts[1..]));
        ClassifiedConcat([orders[0].expr, orders[0].suffix], [","] + CommaWords(texts[1..]));
      }
    }
  }

  lemma OrdersParseOne(o: Order, rest: seq<Token>)
    requires PlainOrder(o) && (rest != [] ==> rest[0] != Comma)
    ensures ParseOrders([Name(o.expr), Name(o.suffix)] + rest) == Some(([o], rest))
  {
    OrderWords();
    assert ([Name(o.expr), Name(o.suffix)] + rest)[2..] == rest;
  }

  lemma OrdersParseStep(o: Order, ts: seq<Token>, more: seq<Order>, rest: seq<Token>)
    requires PlainOrder(o) && ParseOrders(ts) == Some((more, rest))
    ensures ParseOrders([Name(o.expr), Name(o.suffix)] + ([Comma] + ts)) == Some(([o] + more, rest))
  {
    OrderWords();
    var all := [Name(o.expr), Name(o.suffix)] + ([Comma] + ts);
    assert all[2..] == [Comma] + ts && all[3..] == ts;
  }

  lemma {:induction false} OrdersParse(orders: seq<Order>, rest: seq<Token>)
    requires orders != [] && PlainOrders(orders) && (rest != [] ==> rest[0] != Comma)
    ensures ParseOrders(OrderTokens(orders) + rest) == Some((orders, rest))
    decreases |orders|
  {
    assert orders[0] in orders;
    if |orders| == 1 {
      OrdersParseOne(orders[0], rest);
      assert orders == [orders[0]];
    } else {
      assert forall o :: o in orders[1..] ==> o in orders;
      OrdersParse(orders[1..], rest);
      OrdersParseStep(orders[0], OrderTokens(orders[1..]) + rest, orders[1..], rest);
      Assoc([Name(orders[0].expr), Name(orders[0].suffix)], [Comma] + OrderTokens(orders[1..]), rest);
      Assoc([Comma], OrderTokens(orders[1..]), rest);
      assert orders == [orders[0]] + orders[1..];
    }
  }

  // ---------------------------------------------------------------- clause after clause

  /** Tokens of a clause of two words and a list. */
  function ClauseTokens(v: string, w: string, list: seq<Token>): seq<Token> {
    if list == [] then [] else [Name(v), Name(w)] + list
  }

  function LimitTokens(limit: seq<int>): seq<Token> {
    if |limit| == 2 then [Name("LIMIT"), Question, Comma, Question] else []
  }

  function LimitRead(limit: seq<int>): Option<Limit> {
    if |limit| == 2 then Some(Limit(Integer(limit[0]), Integer(limit[1]))) else None
  }

  predicate Begins(ts: seq<Token>, words: set<string>) {
    ts != [] ==> ts[0].Name? && ts[0].s in words && Upper(ts[0].s) == ts[0].s
  }

  lemma ClauseNames()
    ensures forall w :: w in {"GROUP", "ORDER", "LIMIT", "BY"} ==> Upper(w) == w && Whole(w) && Classify(w) == Name(w)
  {
    WordIs("GROUP");
    WordIs("ORDER");
    WordIs("LIMIT");
    WordIs("BY");
  }

  lemma LimitStage(limit: seq<int>)
    ensures ParseLimit(LimitTokens(limit), LimitArgs(limit)) == Some(LimitRead(limit))
    ensures Begins(LimitTokens(limit), {"LIMIT"})
  {
    ClauseNames();
    if |limit| == 2 {
      assert LimitTokens(limit)[1..] == [Question, Comma, Question];
    }
  }

  lemma OrderStage(orders: seq<Order>, rest: seq<Token>)
    requires PlainOrders(orders) && Begins(rest, {"LIMIT"})
    ensures var ts := ClauseTokens("ORDER", "BY", OrderTokens(orders)) + rest;
            ParseOrderBy(ts) == Some((orders, rest)) && Begins(ts, {"ORDER", "LIMIT"})
  {
    ClauseNames();
    var list := OrderTokens(orders);
    var ts := ClauseTokens("ORDER", "BY", list) + rest;
    if orders == [] {
      assert ts == rest;
    } else {
      OrdersParse(orders, rest);
      TwoInFront(Name("ORDER"), Name("BY"), list, rest);
    }
  }

  lemma TwoInFront(x: Token, y: Token, list: seq<Token>, rest: seq<Token>)
    ensures var ts := [x, y] + list + rest; ts[0] == x && ts[1] == y && ts[2..] == list + rest
  {
  }

  lemma GroupStage(groupby: seq<string>, rest: seq<Token>)
    requires PlainNames(groupby) && Begins(rest, {"ORDER", "LIMIT"})
    ensures var ts := ClauseTokens("GROUP", "BY", NameTokens(groupby)) + rest;
            ParseGroupBy(ts) == Some((groupby, rest)) && Begins(ts, {"GROUP", "ORDER", "LIMIT"})
  {
    ClauseNames();
    var list := NameTokens(groupby);
    var ts := ClauseTokens("GROUP", "BY", list) + rest;
    if groupby == [] {
      assert ts == rest;
    } else {
      NamesParse(groupby, rest);
      TwoInFront(Name("GROUP"), Name("BY"), list, rest);
    }
  }

  lemma WhereStage(cs: seq<Condition>, rest: seq<Token>, args: seq<Value>)
    requires PlainList(cs) && Begins(rest, {"GROUP", "ORDER", "LIMIT"})
    ensures ParseWhere(WhereTokens(cs) + rest, ListArgs(cs) + args)
         == if !FilledList(cs) then None
            else Some(Parse(if cs == [] then None else Some(Group(cs)), rest, args))
  {
    UpdateWords();
    if cs == [] {
      assert WhereTokens(cs) + rest == rest && ListArgs(cs) + args == args;
    } else {
      SearchParses(cs, rest, args);
      Assoc([Name("WHERE")], InnerTokens(cs), rest);
      assert (WhereTokens(cs) + rest)[1..] == InnerTokens(cs) + rest;
    }
  }

  function TailTokensOf(groupby: seq<string>, orders: seq<Order>, limit: seq<int>): seq<Token> {
    ClauseTokens("GROUP", "BY", NameTokens(groupby)) +
    (ClauseTokens("ORDER", "BY", OrderTokens(orders)) + LimitTokens(limit))
  }

  /** What a query reads back to. */
  function Meant(columns: seq<string>, table: string, cs: seq<Condition>, groupby: seq<string>, orders: seq<Order>,
                 limit: seq<int>): SelectRead
  {
    SelectRead(ColumnWords(columns), table, if cs == [] then None else Some(Group(cs)), groupby, orders,
               LimitRead(limit))
  }

  lemma ClausesRead(columns: seq<string>, table: string, cs: seq<Condition>, groupby: seq<string>, orders: seq<Order>,
                    limit: seq<int>)
    requires PlainList(cs) && PlainNames(groupby) && PlainOrders(orders)
    ensures ReadClauses(ColumnWords(columns), table, WhereTokens(cs) + TailTokensOf(groupby, orders, limit),
                        ListArgs(cs) + LimitArgs(limit))
         == if FilledList(cs) then Some(Meant(columns, table, cs, groupby, orders, limit)) else None
  {
    LimitStage(limit);
    OrderStage(orders, LimitTokens(limit));
    GroupStage(groupby, ClauseTokens("ORDER", "BY", OrderTokens(orders)) + LimitTokens(limit));
    WhereStage(cs, TailTokensOf(groupby, orders, limit), LimitArgs(limit));
  }

  // ---------------------------------------------------------------- the whole statement

  function TailWordsOf(groupby: seq<string>, orders: seq<Order>, limit: seq<int>): seq<string> {
    ClauseWords("GROUP", "BY", groupby) + (ClauseWords("ORDER", "BY", OrderTexts(orders)) + LimitWords(limit))
  }

  lemma StartsBlank(a: string, b: string)
    requires (a != "" ==> a[0] == ' ') && (b != "" ==> b[0] == ' ')
    ensures a + b != "" ==> (a + b)[0] == ' '
  {
  }

  lemma LexTailOf(groupby: seq<string>, orders: seq<Order>, limit: seq<int>)
    requires PlainNames(groupby) && PlainOrders(orders)
    ensures var tail := SelectTail(groupby, OrderTexts(orders), limit);
            Lex(tail) == TailWordsOf(groupby, orders, limit) && (tail != "" ==> tail[0] == ' ')
  {
    ClauseNames();
    var texts := OrderTexts(orders);
    assert groupby != [] ==> groupby[0] in groupby;
    LexClause("GROUP", "BY", " GROUP BY ", groupby);
    LexClause("ORDER", "BY", " ORDER BY ", texts);
    LexLimit(limit);
    LexThree(ListClause(" GROUP BY ", groupby), ListClause(" ORDER BY ", texts), LimitClause(limit));
  }

  lemma LexThree(a: string, b: string, c: string)
    requires (a != "" ==> a[0] == ' ') && (b != "" ==> b[0] == ' ') && (c != "" ==> c[0] == ' ')
    ensures Lex(a + b + c) == Lex(a) + (Lex(b) + Lex(c)) && (a + b + c != "" ==> (a + b + c)[0] == ' ')
  {
    LexConcat(b, c);
    StartsBlank(b, c);
    LexConcat(a, b + c);
    StartsBlank(a, b + c);
    Assoc(a, b, c);
  }

  lemma ClassifyClause(v: string, w: string, parts: seq<string>)
    requires Classify(v) == Name(v) && Classify(w) == Name(w) && (parts != [] ==> Classified(CommaWords(parts)) != [])
    ensures Classified(ClauseWords(v, w, parts)) == ClauseTokens(v, w, Classified(CommaWords(parts)))
  {
    if parts != [] {
      ClassifiedConcat([v, w], CommaWords(parts));
      ClassifyTwo(v, w);
    }
  }

  lemma ClassifyTailOf(groupby: seq<string>, orders: seq<Order>, limit: seq<int>)
    requires PlainNames(groupby) && PlainOrders(orders)
    ensures Classified(TailWordsOf(groupby, orders, limit)) == TailTokensOf(groupby, orders, limit)
  {
    ClauseNames();
    ClassifyNames(groupby);
    ClassifyOrders(orders);
    ClassifyClause("GROUP", "BY", groupby);
    ClassifyClause("ORDER", "BY", OrderTexts(orders));
    ClassifySymbols(Eq);
    ClassifyFour("LIMIT", "?", ",", "?");
    ClassifiedConcat(ClauseWords("ORDER", "BY", OrderTexts(orders)), LimitWords(limit));
    ClassifiedConcat(ClauseWords("GROUP", "BY", groupby),
                     ClauseWords("ORDER", "BY", OrderTexts(orders)) + LimitWords(limit));
  }

  lemma ClassifyWhere(cs: seq<Condition>)
    requires PlainList(cs)
    ensures Classified(WhereWords(cs)) == WhereTokens(cs)
  {
    ClassifyInner(cs);
    UpdateWords();
    if cs != [] {
      ClassifiedConcat(["WHERE"], InnerWords(cs));
      ClassifyOne("WHERE");
    }
  }

  /** The lexemes after FROM. */
  function AfterFrom(table: string, cs: seq<Condition>, groupby: seq<string>, orders: seq<Order>, limit: seq<int>)
    : seq<string>
  {
    [table] + (WhereWords(cs) + TailWordsOf(groupby, orders, limit))
  }

  lemma LexSelect(columns: seq<string>, table: string, cs: seq<Condition>, groupby: seq<string>, orders: seq<Order>,
                  limit: seq<int>)
    requires PlainName(table) && PlainList(cs) && PlainNames(groupby) && PlainOrders(orders)
    ensures Lex(SelectText(columns, table, cs, groupby, OrderTexts(orders), limit))
         == ["SELECT"] + (HeadWords(columns) + (["FROM"] + AfterFrom(table, cs, groupby, orders, limit)))
  {
    var head, where := SelectHead(columns, table), WhereClause(cs);
    var tail := SelectTail(groupby, OrderTexts(orders), limit);
    LexHead(columns, table);
    LexWhereClause(cs);
    LexTailOf(groupby, orders, limit);
    LexConcat(where, tail);
    StartsBlank(where, tail);
    LexConcat(head, where + tail);
    Assoc(head, where, tail);
    SelectAssoc(HeadWords(columns), table, WhereWords(cs) + TailWordsOf(groupby, orders, limit));
  }

  lemma SelectAssoc(head: seq<string>, table: string, rest: seq<string>)
    ensures ["SELECT"] + (head + ["FROM", table]) + rest == ["SELECT"] + (head + (["FROM"] + ([table] + rest)))
  {
  }

  lemma ClassifyAfterFrom(table: string, cs: seq<Condition>, groupby: seq<string>, orders: seq<Order>, limit: seq<int>)
    requires PlainName(table) && PlainList(cs) && PlainNames(groupby) && PlainOrders(orders)
    ensures Classified(AfterFrom(table, cs, groupby, orders, limit))
         == [Name(table)] + (WhereTokens(cs) + TailTokensOf(groupby, orders, limit))
  {
    LexName(table);
    ClassifyWhere(cs);
    ClassifyTailOf(groupby, orders, limit);
    ClassifiedConcat(WhereWords(cs), TailWordsOf(groupby, orders, limit));
    ClassifiedConcat([table], WhereWords(cs) + TailWordsOf(groupby, orders, limit));
  }

  lemma HeadColumns(columns: seq<string>)
    requires ColumnTexts(columns)
    ensures SplitCommas(HeadWords(columns)) == ColumnWords(columns) && NoFrom(HeadWords(columns))
  {
    if columns == [] {
      SplitLast(["*"]);
      assert |Upper("*")| == 1;
    } else {
      SplitColumns(columns);
      NoFromInColumns(columns);
    }
  }

  lemma HeadRead(text: string, args: seq<Value>, head: seq<string>, after: seq<string>)
    requires Lex(text) == ["SELECT"] + (head + (["FROM"] + after)) && NoFrom(head)
    ensures ReadSelect(text, args) == ReadFrom(SplitCommas(head), Classified(after), args)
  {
    SelectWords();
    var words := Lex(text);
    assert words[0] == "SELECT" && words[1..] == head + (["FROM"] + after);
    FromFound(head, ["FROM"] + after);
    assert words[1..][..|head|] == head && words[1..][|head| + 1..] == after;
  }

  /** The statement of the query builder reads back, with its arguments, as the columns, the table, the conditions as
      the WHERE clause alone would, the grouping, the orders, and offset and count from the last two arguments. It
      reads back at all if and only if no parentheses and no IN list is empty. */
  lemma SelectReadsBack(columns: seq<string>, table: string, cs: seq<Condition>, groupby: seq<string>,
                        orders: seq<Order>, limit: seq<int>)
    requires ColumnTexts(columns) && PlainName(table) && PlainList(cs) && PlainNames(groupby) && PlainOrders(orders)
    ensures ReadSelect(SelectText(columns, table, cs, groupby, OrderTexts(orders), limit),
                       ListArgs(cs) + LimitArgs(limit))
         == if FilledList(cs)
            then Some(SelectRead(ColumnWords(columns), table, ReadWhereOf(cs), groupby, orders, LimitRead(limit)))
            else None
    ensures cs != [] && FilledList(cs) ==> ReadWhereOf(cs).Some?
  {
    var text := SelectText(columns, table, cs, groupby, OrderTexts(orders), limit);
    var args := ListArgs(cs) + LimitArgs(limit);
    var rest := WhereTokens(cs) + TailTokensOf(groupby, orders, limit);
    LexSelect(columns, table, cs, groupby, orders, limit);
    HeadColumns(columns);
    HeadRead(text, args, HeadWords(columns), AfterFrom(table, cs, groupby, orders, limit));
    ClassifyAfterFrom(table, cs, groupby, orders, limit);
    assert ([Name(table)] + rest)[1..] == rest;
    ClausesRead(columns, table, cs, groupby, orders, limit);
    if cs != [] && FilledList(cs) {
      WhereTokensRead(cs);
    }
  }
}
