/** A reader for INSERT and UPDATE statements. It binds the k-th placeholder to the k-th argument,
    and shows that every builder binds each placeholder to its own column's value. */
module SqlStatementReader {
  import opened Options
  import opened SqlCondition
  import opened SqlGrammar
  import opened SqlRoundTrip
  import opened SqlStatements

  // ---------------------------------------------------------------- the reader

  predicate IsWordToken(t: Token, w: string) {
    t.Name? && Upper(t.s) == w
  }

  /** name { "," name } */
  function ParseNames(ts: seq<Token>): (r: Option<(seq<string>, seq<Token>)>)
    ensures r.Some? ==> |r.value.1| < |ts|
  {
    if ts == [] || !ts[0].Name? then None
    else if Starts(ts[1..], Comma) then
      var more := ParseNames(ts[2..]);
      if more.None? then None else Some(([ts[0].s] + more.value.0, more.value.1))
    else Some(([ts[0].s], ts[1..]))
  }

  /** "(" placeholders ")" { "," "(" placeholders ")" } up to the end */
  function ParseRows(ts: seq<Token>, args: seq<Value>): Option<seq<seq<Value>>>
    decreases |ts|
  {
    if !Starts(ts, LParen) then None
    else
      var row := ParseMarks(ts[1..], args);
      if row.None? then None
      else if row.value.rest == [] then (if row.value.args == [] then Some([row.value.value]) else None)
      else if !Starts(row.value.rest, Comma) then None
      else
        var more := ParseRows(row.value.rest[1..], row.value.args);
        if more.None? then None else Some([row.value.value] + more.value)
  }

  datatype InsertRead = InsertRead(table: string, columns: seq<string>, rows: seq<seq<Value>>)

  function ReadInsert(text: string, args: seq<Value>): Option<InsertRead> {
    var ts := Classified(Lex(text));
    if |ts| < 4 || !IsWordToken(ts[0], "INSERT") || !IsWordToken(ts[1], "INTO") then None
    else if !ts[2].Name? || ts[3] != LParen then None
    else
      var names := ParseNames(ts[4..]);
      if names.None? || |names.value.1| < 2 then None
      else if names.value.1[0] != RParen || !IsWordToken(names.value.1[1], "VALUES") then None
      else
        var rows := ParseRows(names.value.1[2..], args);
        if rows.None? then None else Some(InsertRead(ts[2].s, names.value.0, rows.value))
  }

  /** name "=" placeholder { "," name "=" placeholder } */
  function ParseSets(ts: seq<Token>, args: seq<Value>): (r: Option<Parse<seq<(string, Value)>>>)
    ensures r.Some? ==> |r.value.rest| < |ts|
  {
    if |ts| < 3 || !ts[0].Name? || ts[1] != Operator(Eq) || ts[2] != Question || args == [] then None
    else if Starts(ts[3..], Comma) then
      var more := ParseSets(ts[4..], args[1..]);
      if more.None? then None
      else Some(Parse([(ts[0].s, args[0])] + more.value.value, more.value.rest, more.value.args))
    else Some(Parse([(ts[0].s, args[0])], ts[3..], args[1..]))
  }

  datatype UpdateRead = UpdateRead(table: string, sets: seq<(string, Value)>, where: Option<Search>)

  function ReadUpdate(text: string, args: seq<Value>): Option<UpdateRead> {
    var ts := Classified(Lex(text));
    if |ts| < 3 || !IsWordToken(ts[0], "UPDATE") || !ts[1].Name? || !IsWordToken(ts[2], "SET") then None
    else
      var sets := ParseSets(ts[3..], args);
      if sets.None? then None
      else if sets.value.rest == [] then
        if sets.value.args == [] then Some(UpdateRead(ts[1].s, sets.value.value, None)) else None
      else if !IsWordToken(sets.value.rest[0], "WHERE") then None
      else
        var search := ParseSearch(sets.value.rest[1..], sets.value.args);
        if search.Some? && search.value.rest == [] && search.value.args == [] then
          Some(UpdateRead(ts[1].s, sets.value.value, Some(search.value.value)))
        else None
  }

  // ---------------------------------------------------------------- comma-separated lists

  /** The lexemes of parts joined by commas. */
  function CommaWords(parts: seq<string>): seq<string> {
    if parts == [] then []
    else if |parts| == 1 then Lex(parts[0])
    else Lex(parts[0]) + ([","] + CommaWords(parts[1..]))
  }

  predicate IsComma(sep: string) {
    sep == "," || sep == ", "
  }

  lemma LexComma(sep: string, rest: string)
    requires IsComma(sep)
    ensures Lex(sep + rest) == [","] + Lex(rest)
  {
    if sep == "," {
      LexSingle(",", rest);
    } else {
      LexBlank(rest);
      LexSingle(",", " " + rest);
      assert sep + rest == "," + (" " + rest);
    }
  }

  lemma {:induction false} LexJoin(parts: seq<string>, sep: string)
    requires IsComma(sep)
    ensures Lex(Join(parts, sep)) == CommaWords(parts)
    decreases |parts|
  {
    if |parts| > 1 {
      var more := Join(parts[1..], sep);
      LexJoin(parts[1..], sep);
      LexComma(sep, more);
      assert parts[0] + sep + more == parts[0] + (sep + more);
      LexConcat(parts[0], sep + more);
    }
  }

  ghost predicate PlainNames(names: seq<string>) {
    forall n :: n in names ==> PlainName(n)
  }

  function NameTokens(names: seq<string>): seq<Token> {
    if names == [] then []
    else if |names| == 1 then [Name(names[0])]
    else [Name(names[0])] + ([Comma] + NameTokens(names[1..]))
  }

  lemma LexName(n: string)
    requires PlainName(n)
    ensures Lex(n) == [n] && Classified([n]) == [Name(n)]
  {
    assert n[0] in n;
    LexWhole(n);
    ClassifyName(n);
  }

  lemma ClassifyComma()
    ensures Classified([","]) == [Comma]
  {
    ClassifySymbols(Eq);
    ClassifyOne(",");
  }

  lemma {:induction false} ClassifyNames(names: seq<string>)
    requires PlainNames(names)
    ensures Classified(CommaWords(names)) == NameTokens(names)
    decreases |names|
  {
    if names != [] {
      LexName(names[0]);
      if |names| > 1 {
        ClassifyNames(names[1..]);
        ClassifyComma();
        ClassifiedConcat([","], CommaWords(names[1..]));
        ClassifiedConcat([names[0]], [","] + CommaWords(names[1..]));
      }
    }
  }

  lemma NamesParseStep(name: string, ts: seq<Token>, names: seq<string>, rest: seq<Token>)
    requires ParseNames(ts) == Some((names, rest))
    ensures ParseNames([Name(name)] + ([Comma] + ts)) == Some(([name] + names, rest))
  {
    var all := [Name(name)] + ([Comma] + ts);
    assert all[1..] == [Comma] + ts && all[2..] == ts;
  }

  lemma {:induction false} NamesParse(names: seq<string>, rest: seq<Token>)
    requires names != [] && (rest == [] || rest[0] != Comma)
    ensures ParseNames(NameTokens(names) + rest) == Some((names, rest))
    decreases |names|
  {
    if |names| == 1 {
      assert ([Name(names[0])] + rest)[1..] == rest;
      assert names == [names[0]];
    } else {
      NamesParse(names[1..], rest);
      NamesParseStep(names[0], NameTokens(names[1..]) + rest, names[1..], rest);
      Assoc([Name(names[0])], [Comma] + NameTokens(names[1..]), rest);
      Assoc([Comma], NameTokens(names[1..]), rest);
      assert names == [names[0]] + names[1..];
    }
  }

  lemma {:induction false} MarksAreCommaWords(n: nat)
    ensures CommaWords(Placeholders(n)) == MarkWords(n)
  {
    LexWhole("?");
    if n > 1 {
      assert Placeholders(n)[1..] == Placeholders(n - 1);
      MarksAreCommaWords(n - 1);
      assert ["?"] + ([","] + MarkWords(n - 1)) == ["?", ","] + MarkWords(n - 1);
    }
  }

  // ---------------------------------------------------------------- statement words

  lemma WordIs(w: string)
    requires w != "" && (forall i :: 0 <= i < |w| ==> 'A' <= w[i] <= 'Z')
    ensures Upper(w) == w && Whole(w) && (WordToken(w).Name? ==> Classify(w) == Name(w))
  {
    UpperSame(w);
    forall c | c in w
      ensures IsWordChar(c)
    {
      var i :| 0 <= i < |w| && w[i] == c;
      assert 'A' <= w[i] <= 'Z';
    }
  }

  lemma LexWordThen(w: string, rest: string)
    requires Whole(w)
    requires rest != "" && !IsWordChar(rest[0]) && !IsOperatorChar(rest[0])
    ensures Lex(w + rest) == [w] + Lex(rest)
  {
    LexWhole(w);
    LexConcat(w, rest);
  }

  /** words "(" columns ")" words and the rows that follow */
  lemma LexInsertParts(first: string, second: string, table: string, columns: seq<string>, sep: string, gap: string,
                       third: string, rows: string)
    requires Whole(first) && Whole(second) && Whole(third) && PlainName(table) && IsComma(sep)
    requires gap == "" || gap == " "
    ensures Lex(first + (" " + (second + (" " + (table + (gap + ("(" + (Join(columns, sep) +
                (")" + (" " + (third + (" " + rows))))))))))))
         == [first, second, table, "("] + CommaWords(columns) + [")", third] + Lex(rows)
  {
    var t1 := " " + rows;
    LexBlank(rows);
    LexWordThen(third, t1);
    var t2 := " " + (third + t1);
    LexBlank(third + t1);
    LexSingle(")", t2);
    var t3 := ")" + t2;
    LexJoin(columns, sep);
    LexConcat(Join(columns, sep), t3);
    var t4 := Join(columns, sep) + t3;
    LexSingle("(", t4);
    var t5 := gap + ("(" + t4);
    LexGap(gap, "(" + t4);
    LexName(table);
    assert table[0] in table;
    LexWordThen(table, t5);
    LexBlank(table + t5);
    LexWordThen(second, " " + (table + t5));
    LexBlank(second + (" " + (table + t5)));
    LexWordThen(first, " " + (second + (" " + (table + t5))));
    InsertAssoc(first, second, table, CommaWords(columns), third, Lex(rows));
  }

  lemma LexGap(gap: string, rest: string)
    requires gap == "" || gap == " "
    ensures Lex(gap + rest) == Lex(rest)
  {
    if gap == "" {
      assert gap + rest == rest;
    } else {
      LexBlank(rest);
    }
  }

  lemma InsertAssoc(a: string, b: string, t: string, cs: seq<string>, v: string, rows: seq<string>)
    ensures [a] + ([b] + ([t] + (["("] + (cs + ([")"] + ([v] + rows)))))) == [a, b, t, "("] + cs + [")", v] + rows
  {
  }

  predicate InsertKeywords(first: string, second: string, third: string) {
    && Upper(first) == "INSERT" && Upper(second) == "INTO" && Upper(third) == "VALUES"
    && Classify(first) == Name(first) && Classify(second) == Name(second) && Classify(third) == Name(third)
  }

  function InsertTokens(first: string, second: string, third: string, table: string, columns: seq<string>): seq<Token> {
    [Name(first), Name(second), Name(table), LParen] + NameTokens(columns) + [RParen, Name(third)]
  }

  lemma ClassifyFour(a: string, b: string, c: string, d: string)
    ensures Classified([a, b, c, d]) == [Classify(a), Classify(b), Classify(c), Classify(d)]
  {
  }

  lemma ClassifyTwo(a: string, b: string)
    ensures Classified([a, b]) == [Classify(a), Classify(b)]
  {
  }

  lemma ClassifyInsert(first: string, second: string, third: string, table: string, columns: seq<string>)
    requires InsertKeywords(first, second, third) && PlainName(table) && PlainNames(columns)
    ensures Classified([first, second, table, "("] + CommaWords(columns) + [")", third])
         == InsertTokens(first, second, third, table, columns)
  {
    var front := [first, second, table, "("];
    ClassifiedConcat(front + CommaWords(columns), [")", third]);
    ClassifiedConcat(front, CommaWords(columns));
    ClassifyNames(columns);
    ClassifySymbols(Eq);
    ClassifyName(table);
    ClassifyOne(table);
    ClassifyFour(first, second, table, "(");
    ClassifyTwo(")", third);
  }

  lemma InsertTokensSplit(first: string, second: string, third: string, table: string, columns: seq<string>,
                          rest: seq<Token>)
    ensures var ts := InsertTokens(first, second, third, table, columns) + rest;
            && |ts| >= 4 && ts[0] == Name(first) && ts[1] == Name(second) && ts[2] == Name(table) && ts[3] == LParen
            && ts[4..] == NameTokens(columns) + ([RParen, Name(third)] + rest)
  {
  }

  /** Reading the tokens of an INSERT. */
  lemma InsertTokensRead(first: string, second: string, third: string, table: string, columns: seq<string>,
                         text: string, rowWords: seq<string>, args: seq<Value>, rows: seq<seq<Value>>)
    requires InsertKeywords(first, second, third) && PlainName(table) && columns != [] && PlainNames(columns)
    requires Lex(text) == [first, second, table, "("] + CommaWords(columns) + [")", third] + rowWords
    requires ParseRows(Classified(rowWords), args) == Some(rows)
    ensures ReadInsert(text, args) == Some(InsertRead(table, columns, rows))
  {
    ClassifiedConcat([first, second, table, "("] + CommaWords(columns) + [")", third], rowWords);
    ClassifyInsert(first, second, third, table, columns);
    var tail := Classified(rowWords);
    InsertTokensSplit(first, second, third, table, columns, tail);
    var rest := [RParen, Name(third)] + tail;
    NamesParse(columns, rest);
    assert rest[2..] == tail && rest[0] == RParen && rest[1] == Name(third);
  }

  // ---------------------------------------------------------------- one row

  function RowTokens(n: nat): seq<Token> {
    [LParen] + MarkTokens(n) + [RParen]
  }

  lemma OneRowParses(values: seq<Value>)
    requires values != []
    ensures ParseRows(RowTokens(|values|), values) == Some([values])
  {
    var ts := RowTokens(|values|);
    MarksParse(values, [], []);
    assert ts[1..] == MarkTokens(|values|) + [RParen] + [];
    assert values + [] == values;
  }

  lemma ClassifyRow(n: nat)
    ensures Classified(["("] + MarkWords(n) + [")"]) == RowTokens(n)
  {
    ClassifyMarks(n);
    ClassifyParens();
    ClassifiedConcat(["("] + MarkWords(n), [")"]);
    ClassifiedConcat(["("], MarkWords(n));
  }

  lemma LexRow(n: nat)
    ensures Lex(RowMarks(n)) == ["("] + MarkWords(n) + [")"]
  {
    var marks := Join(Placeholders(n), ", ");
    LexJoin(Placeholders(n), ", ");
    MarksAreCommaWords(n);
    LexWhole(")");
    LexConcat(marks, ")");
    LexSingle("(", marks + ")");
    assert RowMarks(n) == "(" + (marks + ")");
    Assoc(["("], MarkWords(n), [")"]);
  }

  lemma InsertTextParts(table: string, columns: seq<string>)
    ensures InsertText(table, columns)
         == "INSERT" + (" " + ("INTO" + (" " + (table + ("" + ("(" + (Join(columns, ", ") +
            (")" + (" " + ("VALUES" + (" " + RowMarks(|columns|))))))))))))
  {
    InsertTextAssoc(table, Join(columns, ", "), Join(Placeholders(|columns|), ", "));
  }

  lemma InsertTextAssoc(t: string, cs: string, ms: string)
    ensures "INSERT INTO " + t + "(" + cs + ") VALUES (" + ms + ")"
         == "INSERT" + (" " + ("INTO" + (" " + (t + ("" + ("(" + (cs +
            (")" + (" " + ("VALUES" + (" " + ("(" + ms + ")"))))))))))))
  {
  }

  /** The fields a list of columns with their values amounts to; a later column wins. */
  function FieldsOf(columns: seq<string>, values: seq<Value>): Fields
    requires |columns| == |values|
  {
    if columns == [] then map[]
    else map[columns[0] := values[0]] + FieldsOf(columns[1..], values[1..])
  }

  lemma {:induction false} FieldsOfSome(value: Fields, columns: seq<string>, args: seq<Value>)
    requires |args| == |columns|
    requires forall k :: 0 <= k < |columns| ==> columns[k] in value && args[k] == value[columns[k]]
    ensures forall c :: c in FieldsOf(columns, args) <==> c in columns
    ensures forall c :: c in FieldsOf(columns, args) ==> c in value && FieldsOf(columns, args)[c] == value[c]
  {
    if columns != [] {
      FieldsOfSome(value, columns[1..], args[1..]);
      assert columns == [columns[0]] + columns[1..];
    }
  }

  lemma FieldsBack(value: Fields, order: seq<string>, args: seq<Value>)
    requires value != map[] && VisitsKeys(order, value)
    requires |args| == |order| && forall k :: 0 <= k < |order| ==> order[k] in value && args[k] == value[order[k]]
    ensures order != [] && FieldsOf(order, args) == value
  {
    FieldsOfSome(value, order, args);
    assert FieldsOf(order, args) == value;
  }

  lemma InsertReads(table: string, columns: seq<string>, args: seq<Value>)
    requires PlainName(table) && columns != [] && PlainNames(columns) && |args| == |columns|
    ensures ReadInsert(InsertText(table, columns), args) == Some(InsertRead(table, columns, [args]))
  {
    var n := |columns|;
    InsertTextParts(table, columns);
    InsertWords();
    LexInsertParts("INSERT", "INTO", table, columns, ", ", "", "VALUES", RowMarks(n));
    LexRow(n);
    ClassifyRow(n);
    OneRowParses(args);
    InsertTokensRead("INSERT", "INTO", "VALUES", table, columns, InsertText(table, columns),
                     ["("] + MarkWords(n) + [")"], args, [args]);
  }

  /** Whatever the iteration order of the map, an INSERT binds each placeholder to its own column's
      value: reading the statement back gives the table and exactly the fields inserted. */
  lemma InsertBindsFields(table: string, value: Fields, order: seq<string>, args: seq<Value>)
    requires PlainName(table) && value != map[] && VisitsKeys(order, value) && PlainNames(order)
    requires |args| == |order| && forall k :: 0 <= k < |order| ==> order[k] in value && args[k] == value[order[k]]
    ensures ReadInsert(InsertText(table, order), args) == Some(InsertRead(table, order, [args]))
    ensures FieldsOf(order, args) == value
  {
    FieldsBack(value, order, args);
    InsertReads(table, order, args);
  }

  lemma InsertWords()
    ensures Whole("INSERT") && Whole("INTO") && Whole("VALUES") && InsertKeywords("INSERT", "INTO", "VALUES")
  {
    WordIs("INSERT");
    WordIs("INTO");
    WordIs("VALUES");
  }

  // ---------------------------------------------------------------- many rows

  function RowTexts(n: nat, rows: nat): seq<string> {
    seq(rows, i => RowMarks(n))
  }

  function RowsTokens(n: nat, rows: nat): seq<Token> {
    if rows == 0 then [] else if rows == 1 then RowTokens(n) else RowTokens(n) + ([Comma] + RowsTokens(n, rows - 1))
  }

  lemma {:induction false} ClassifyRows(n: nat, rows: nat)
    ensures Classified(CommaWords(RowTexts(n, rows))) == RowsTokens(n, rows)
    decreases rows
  {
    LexRow(n);
    ClassifyRow(n);
    if rows > 1 {
      assert RowTexts(n, rows)[1..] == RowTexts(n, rows - 1);
      ClassifyRows(n, rows - 1);
      ClassifyComma();
      ClassifiedConcat([","], CommaWords(RowTexts(n, rows - 1)));
      ClassifiedConcat(["("] + MarkWords(n) + [")"], [","] + CommaWords(RowTexts(n, rows - 1)));
    }
  }

  /** Arguments laid out row after row. */
  function Flatten(rows: seq<seq<Value>>): seq<Value> {
    if rows == [] then [] else rows[0] + Flatten(rows[1..])
  }

  /** All rows have n values. */
  predicate Even(rows: seq<seq<Value>>, n: nat) {
    rows != [] ==> |rows[0]| == n && Even(rows[1..], n)
  }

  lemma RowInFront(n: nat, rest: seq<Token>)
    ensures var s := RowTokens(n) + rest; s != [] && s[0] == LParen && s[1..] == MarkTokens(n) + [RParen] + rest
  {
  }

  lemma RowsParseStep(row: seq<Value>, ts: seq<Token>, args: seq<Value>, more: seq<seq<Value>>)
    requires row != [] && ParseRows(ts, args) == Some(more)
    ensures ParseRows(RowTokens(|row|) + ([Comma] + ts), row + args) == Some([row] + more)
  {
    var rest := [Comma] + ts;
    RowInFront(|row|, rest);
    MarksParse(row, rest, args);
    assert rest[1..] == ts && rest[0] == Comma;
  }

  lemma {:induction false} RowsParse(n: nat, rows: seq<seq<Value>>)
    requires n > 0 && rows != [] && Even(rows, n)
    ensures ParseRows(RowsTokens(n, |rows|), Flatten(rows)) == Some(rows)
    decreases |rows|
  {
    if |rows| == 1 {
      OneRowParses(rows[0]);
      OneRow(n, rows);
    } else {
      RowsParse(n, rows[1..]);
      RowsParseStep(rows[0], RowsTokens(n, |rows| - 1), Flatten(rows[1..]), rows[1..]);
      MoreRows(n, rows);
    }
  }

  lemma OneRow(n: nat, rows: seq<seq<Value>>)
    requires |rows| == 1 && Even(rows, n)
    ensures RowsTokens(n, |rows|) == RowTokens(|rows[0]|) && Flatten(rows) == rows[0] && rows == [rows[0]]
  {
    assert rows[1..] == [];
    assert rows[0] + [] == rows[0];
  }

  lemma MoreRows(n: nat, rows: seq<seq<Value>>)
    requires |rows| > 1 && Even(rows, n)
    ensures RowsTokens(n, |rows|) == RowTokens(|rows[0]|) + ([Comma] + RowsTokens(n, |rows| - 1))
    ensures Flatten(rows) == rows[0] + Flatten(rows[1..]) && rows == [rows[0]] + rows[1..]
  {
  }

  function RowValues(columns: seq<string>, row: Fields): seq<Value>
    requires forall c :: c in columns ==> c in row
  {
    seq(|columns|, j requires 0 <= j < |columns| => assert columns[j] in columns; row[columns[j]])
  }

  function AllValues(columns: seq<string>, rows: seq<Fields>): seq<seq<Value>>
    requires forall r, c :: r in rows && c in columns ==> c in r
  {
    if rows == [] then [] else [RowValues(columns, rows[0])] + AllValues(columns, rows[1..])
  }

  /** The layout stated with indices is the layout row after row. */
  lemma {:induction false} BoundFlattens(args: seq<Value>, columns: seq<string>, rows: seq<Fields>)
    requires Bound(args, columns, rows)
    requires forall r, c :: r in rows && c in columns ==> c in r
    ensures Flatten(AllValues(columns, rows)) == args
    decreases |rows|
  {
    if rows == [] {
      assert args == [];
    } else {
      BoundTail(args, columns, rows);
      BoundFlattens(args[|columns|..], columns, rows[1..]);
      assert args == args[..|columns|] + args[|columns|..];
    }
  }

  lemma BoundTail(args: seq<Value>, columns: seq<string>, rows: seq<Fields>)
    requires rows != [] && Bound(args, columns, rows)
    requires forall r, c :: r in rows && c in columns ==> c in r
    ensures |columns| <= |args| && args[..|columns|] == RowValues(columns, rows[0])
    ensures Bound(args[|columns|..], columns, rows[1..])
  {
    var n := |columns|;
    assert |rows| * n == n + (|rows| - 1) * n;
    var rest := args[n..];
    forall i, j | 0 <= i < |rows| - 1 && 0 <= j < n
      ensures columns[j] in rows[1..][i] && BoundAt(rest, i * n + j, rows[1..][i][columns[j]])
    {
      assert rows[1..][i] == rows[i + 1];
      assert BoundAt(args, (i + 1) * n + j, rows[i + 1][columns[j]]);
      assert (i + 1) * n + j == n + (i * n + j);
      ShiftedBelow(i, j, |rows| - 1, n);
    }
    FirstRow(args, columns, rows);
  }

  lemma FirstRow(args: seq<Value>, columns: seq<string>, rows: seq<Fields>)
    requires rows != [] && Bound(args, columns, rows) && |columns| <= |args|
    requires forall r, c :: r in rows && c in columns ==> c in r
    ensures args[..|columns|] == RowValues(columns, rows[0])
  {
    forall j | 0 <= j < |columns|
      ensures args[j] == RowValues(columns, rows[0])[j]
    {
      assert BoundAt(args, 0 * |columns| + j, rows[0][columns[j]]);
    }
  }

  lemma ShiftedBelow(i: nat, j: nat, rows: nat, n: nat)
    requires i < rows && j < n
    ensures i * n + j < rows * n
  {
    assert (i + 1) * n <= rows * n;
  }

  lemma BatchTextAssoc(t: string, cs: string, rows: string)
    ensures "insert into " + t + " (" + cs + ") values " + rows
         == "insert" + (" " + ("into" + (" " + (t + (" " + ("(" + (cs + (")" + (" " + ("values" + (" " + rows)))))))))))
  {
  }

  lemma BatchWords()
    ensures Whole("insert") && Whole("into") && Whole("values") && InsertKeywords("insert", "into", "values")
  {
    assert Upper("insert") == "INSERT";
    assert Upper("into") == "INTO";
    assert Upper("values") == "VALUES";
  }

  lemma BatchReads(table: string, columns: seq<string>, rows: seq<seq<Value>>)
    requires PlainName(table) && columns != [] && PlainNames(columns)
    requires rows != [] && Even(rows, |columns|)
    ensures ReadInsert(BatchText(table, columns, |rows|), Flatten(rows)) == Some(InsertRead(table, columns, rows))
  {
    var n, m := |columns|, |rows|;
    RowsParse(n, rows);
    var text := Join(RowTexts(n, m), ",");
    LexJoin(RowTexts(n, m), ",");
    ClassifyRows(n, m);
    BatchTextAssoc(table, Join(columns, ","), text);
    BatchWords();
    LexInsertParts("insert", "into", table, columns, ",", " ", "values", text);
    assert seq(m, i => RowMarks(|columns|)) == RowTexts(n, m);
    InsertTokensRead("insert", "into", "values", table, columns, BatchText(table, columns, m),
                     CommaWords(RowTexts(n, m)), Flatten(rows), rows);
  }

  /** A batch that the builder accepts reads back as its columns and, for every row, that row's
      values in column order. */
  lemma BatchBindsRows(table: string, columns: seq<string>, values: seq<Fields>, args: seq<Value>)
    requires PlainName(table) && columns != [] && PlainNames(columns) && values != []
    requires Bound(args, columns, values)
    ensures forall r, c :: r in values && c in columns ==> c in r
    ensures ReadInsert(BatchText(table, columns, |values|), args)
         == Some(InsertRead(table, columns, AllValues(columns, values)))
  {
    BoundKeys(args, columns, values);
    BoundFlattens(args, columns, values);
    RowsEven(columns, values);
    BatchReads(table, columns, AllValues(columns, values));
  }

  lemma {:induction false} RowsEven(columns: seq<string>, rows: seq<Fields>)
    requires forall r, c :: r in rows && c in columns ==> c in r
    ensures |AllValues(columns, rows)| == |rows|
    ensures Even(AllValues(columns, rows), |columns|)
  {
    if rows != [] {
      RowsEven(columns, rows[1..]);
    }
  }

  lemma BoundKeys(args: seq<Value>, columns: seq<string>, rows: seq<Fields>)
    requires Bound(args, columns, rows)
    ensures forall r, c :: r in rows && c in columns ==> c in r
  {
    forall r, c | r in rows && c in columns
      ensures c in r
    {
      var i :| 0 <= i < |rows| && rows[i] == r;
      var j :| 0 <= j < |columns| && columns[j] == c;
      assert columns[j] in rows[i];
    }
  }

  // ---------------------------------------------------------------- UPDATE

  function SetTokens(columns: seq<string>): seq<Token> {
    if columns == [] then []
    else if |columns| == 1 then [Name(columns[0]), Operator(Eq), Question]
    else [Name(columns[0]), Operator(Eq), Question] + ([Comma] + SetTokens(columns[1..]))
  }

  lemma LexAssignment(column: string)
    requires PlainName(column)
    ensures Lex(column + " = ?") == [column, "=", "?"]
    ensures Classified([column, "=", "?"]) == [Name(column), Operator(Eq), Question]
  {
    assert column[0] in column;
    SpacedTwo("=", "?");
    LexSpaced(["=", "?"], "");
    assert Spaced(["=", "?"]) + "" == " = ?";
    LexWordThen(column, " = ?");
    LexName(column);
    ClassifyCompare(Eq);
    ClassifiedConcat([column], ["=", "?"]);
    assert [column] + ["=", "?"] == [column, "=", "?"];
  }

  lemma {:induction false} ClassifySets(columns: seq<string>)
    requires PlainNames(columns)
    ensures Classified(CommaWords(Assignments(columns))) == SetTokens(columns)
    decreases |columns|
  {
    if columns != [] {
      var parts := Assignments(columns);
      LexAssignment(columns[0]);
      if |columns| > 1 {
        assert parts[1..] == Assignments(columns[1..]);
        ClassifySets(columns[1..]);
        ClassifyComma();
        ClassifiedConcat([","], CommaWords(parts[1..]));
        ClassifiedConcat([columns[0], "=", "?"], [","] + CommaWords(parts[1..]));
      }
    }
  }

  function Pairs(columns: seq<string>, values: seq<Value>): seq<(string, Value)>
    requires |columns| == |values|
  {
    seq(|columns|, k requires 0 <= k < |columns| => (columns[k], values[k]))
  }

  lemma SetsParseOne(column: string, value: Value, rest: seq<Token>, args: seq<Value>)
    requires rest == [] || rest[0] != Comma
    ensures ParseSets([Name(column), Operator(Eq), Question] + rest, [value] + args)
         == Some(Parse([(column, value)], rest, args))
  {
    assert ([Name(column), Operator(Eq), Question] + rest)[3..] == rest;
    assert ([value] + args)[1..] == args;
  }

  lemma SetsParseStep(column: string, value: Value, ts: seq<Token>, args: seq<Value>, more: Parse<seq<(string, Value)>>)
    requires ParseSets(ts, args) == Some(more)
    ensures ParseSets([Name(column), Operator(Eq), Question] + ([Comma] + ts), [value] + args)
         == Some(Parse([(column, value)] + more.value, more.rest, more.args))
  {
    var all := [Name(column), Operator(Eq), Question] + ([Comma] + ts);
    assert all[3..] == [Comma] + ts && all[4..] == ts;
    assert ([value] + args)[1..] == args;
  }

  lemma {:induction false} SetsParse(columns: seq<string>, values: seq<Value>, rest: seq<Token>, args: seq<Value>)
    requires columns != [] && |values| == |columns| && (rest == [] || rest[0] != Comma)
    ensures ParseSets(SetTokens(columns) + rest, values + args) == Some(Parse(Pairs(columns, values), rest, args))
    decreases |columns|
  {
    if |columns| == 1 {
      SetsParseOne(columns[0], values[0], rest, args);
      assert values == [values[0]];
      assert Pairs(columns, values) == [(columns[0], values[0])];
    } else {
      SetsParse(columns[1..], values[1..], rest, args);
      SetsParseStep(columns[0], values[0], SetTokens(columns[1..]) + rest, values[1..] + args,
                    Parse(Pairs(columns[1..], values[1..]), rest, args));
      SetAssoc(columns[0], SetTokens(columns[1..]), rest);
      Assoc([values[0]], values[1..], args);
      assert values == [values[0]] + values[1..];
      assert Pairs(columns, values) == [(columns[0], values[0])] + Pairs(columns[1..], values[1..]);
    }
  }

  lemma SetAssoc(column: string, more: seq<Token>, rest: seq<Token>)
    ensures [Name(column), Operator(Eq), Question] + ([Comma] + more) + rest
         == [Name(column), Operator(Eq), Question] + ([Comma] + (more + rest))
  {
  }

  lemma UpdateWords()
    ensures Whole("UPDATE") && Whole("SET") && Whole("WHERE")
    ensures Upper("UPDATE") == "UPDATE" && Upper("SET") == "SET" && Upper("WHERE") == "WHERE"
    ensures Classify("UPDATE") == Name("UPDATE") && Classify("SET") == Name("SET") && Classify("WHERE") == Name("WHERE")
  {
    WordIs("UPDATE");
    WordIs("SET");
    WordIs("WHERE");
  }

  function WhereWords(cs: seq<Condition>): seq<string> {
    if cs == [] then [] else ["WHERE"] + InnerWords(cs)
  }

  lemma WhereAssoc(w: string)
    ensures " WHERE " + w == " " + ("WHERE" + (" " + w))
  {
  }

  lemma LexWhereClause(cs: seq<Condition>)
    requires PlainList(cs)
    ensures Lex(WhereClause(cs)) == WhereWords(cs)
    ensures WhereClause(cs) != "" ==> WhereClause(cs)[0] == ' '
  {
    if cs != [] {
      TailEdges(cs);
      LexInner(cs);
      var w := WhereText(cs);
      UpdateWords();
      LexBlank(w);
      LexFirst("WHERE", " " + w);
      WhereAssoc(w);
    }
  }

  lemma UpdateTextAssoc(t: string, sets: string, where: string)
    ensures "UPDATE " + t + " SET " + sets + where == "UPDATE" + (" " + (t + (" " + ("SET" + (" " + (sets + where))))))
  {
  }

  lemma LexUpdate(table: string, columns: seq<string>, cs: seq<Condition>)
    requires PlainName(table) && PlainList(cs)
    ensures Lex(UpdateText(table, columns, cs))
         == ["UPDATE", table, "SET"] + (CommaWords(Assignments(columns)) + WhereWords(cs))
  {
    var sets, where := Join(Assignments(columns), ","), WhereClause(cs);
    UpdateTextAssoc(table, sets, where);
    LexJoin(Assignments(columns), ",");
    LexWhereClause(cs);
    LexConcat(sets, where);
    UpdateWords();
    var t1 := " " + (sets + where);
    LexBlank(sets + where);
    LexWordThen("SET", t1);
    LexBlank("SET" + t1);
    assert table[0] in table;
    LexWordThen(table, " " + ("SET" + t1));
    LexBlank(table + (" " + ("SET" + t1)));
    LexWordThen("UPDATE", " " + (table + (" " + ("SET" + t1))));
    ThreeInFront("UPDATE", table, "SET", CommaWords(Assignments(columns)) + WhereWords(cs));
  }

  lemma ThreeInFront<T>(x: T, y: T, z: T, rest: seq<T>)
    ensures [x] + ([y] + ([z] + rest)) == [x, y, z] + rest
    ensures var s := [x, y, z] + rest; |s| >= 3 && s[0] == x && s[1] == y && s[2] == z && s[3..] == rest
  {
  }

  function WhereTokens(cs: seq<Condition>): seq<Token> {
    if cs == [] then [] else [Name("WHERE")] + InnerTokens(cs)
  }

  lemma UpdateTokens(table: string, columns: seq<string>, cs: seq<Condition>)
    requires PlainName(table) && PlainList(cs) && PlainNames(columns)
    ensures Classified(Lex(UpdateText(table, columns, cs)))
         == [Name("UPDATE"), Name(table), Name("SET")] + (SetTokens(columns) + WhereTokens(cs))
  {
    LexUpdate(table, columns, cs);
    UpdateWords();
    ClassifiedConcat(["UPDATE", table, "SET"], CommaWords(Assignments(columns)) + WhereWords(cs));
    ClassifiedConcat(CommaWords(Assignments(columns)), WhereWords(cs));
    ClassifySets(columns);
    ClassifyInner(cs);
    if cs != [] {
      ClassifiedConcat(["WHERE"], InnerWords(cs));
      ClassifyOne("WHERE");
    }
    ClassifyName(table);
    ClassifyOne(table);
    ClassifyThree("UPDATE", table, "SET");
  }

  lemma ClassifyThree(a: string, b: string, c: string)
    ensures Classified([a, b, c]) == [Classify(a), Classify(b), Classify(c)]
  {
  }

  /** Whatever the iteration order of the map, an UPDATE binds the SET placeholders to their own
      columns' values and the remaining ones to the conditions, as the WHERE clause alone would. It reads back
      at all if and only if no parentheses and no IN list is empty. */
  lemma UpdateBindsFields(table: string, fields: Fields, order: seq<string>, cs: seq<Condition>, vs: seq<Value>)
    requires PlainName(table) && fields != map[] && VisitsKeys(order, fields) && PlainNames(order) && PlainList(cs)
    requires |vs| == |order| && forall k :: 0 <= k < |order| ==> order[k] in fields && vs[k] == fields[order[k]]
    ensures ReadUpdate(UpdateText(table, order, cs), vs + ListArgs(cs))
         == if FilledList(cs) then Some(UpdateRead(table, Pairs(order, vs), ReadWhereOf(cs))) else None
    ensures FieldsOf(order, vs) == fields
    ensures cs != [] ==> (ReadWhereOf(cs).Some? <==> FilledList(cs))
  {
    FieldsBack(fields, order, vs);
    UpdateTokens(table, order, cs);
    SetsParse(order, vs, WhereTokens(cs), ListArgs(cs));
    UpdateTokensRead(table, UpdateText(table, order, cs), SetTokens(order) + WhereTokens(cs), vs + ListArgs(cs));
    if cs != [] {
      WhereTokensRead(cs);
    }
  }

  /** The WHERE clause read on its own. */
  function ReadWhereOf(cs: seq<Condition>): Option<Search> {
    if cs == [] then None else ReadWhere(WhereText(cs), ListArgs(cs))
  }

  lemma WhereTokensRead(cs: seq<Condition>)
    requires cs != [] && PlainList(cs)
    ensures WhereTokens(cs)[1..] == InnerTokens(cs)
    ensures ParseSearch(InnerTokens(cs), ListArgs(cs))
         == if FilledList(cs) then Some(Parse(Group(cs), [], [])) else None
    ensures ReadWhereOf(cs) == if FilledList(cs) then Some(Group(cs)) else None
  {
    SearchParses(cs, [], []);
    assert InnerTokens(cs) + [] == InnerTokens(cs) && ListArgs(cs) + [] == ListArgs(cs);
    LexInner(cs);
    ClassifyInner(cs);
  }

  lemma UpdateTokensRead(table: string, text: string, rest: seq<Token>, args: seq<Value>)
    requires Classified(Lex(text)) == [Name("UPDATE"), Name(table), Name("SET")] + rest
    requires ParseSets(rest, args).Some?
    ensures var sets := ParseSets(rest, args).value;
            && (sets.rest == [] && sets.args == [] ==>
                 ReadUpdate(text, args) == Some(UpdateRead(table, sets.value, None)))
            && (sets.rest != [] && sets.rest[0] == Name("WHERE") ==>
                 var search := ParseSearch(sets.rest[1..], sets.args);
                 && (search.None? ==> ReadUpdate(text, args) == None)
                 && (search.Some? && search.value.rest == [] && search.value.args == [] ==>
                      ReadUpdate(text, args) == Some(UpdateRead(table, sets.value, Some(search.value.value)))))
  {
    UpdateWords();
    ThreeInFront(Name("UPDATE"), Name(table), Name("SET"), rest);
  }
}
