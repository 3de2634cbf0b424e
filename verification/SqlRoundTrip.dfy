/** Reading back a rendered WHERE clause gives the condition tree it was rendered from. */
module SqlRoundTrip {
  import opened Options
  import opened SqlCondition
  import opened SqlGrammar

  // ---------------------------------------------------------------- which trees

  /** A column expression that is one unreserved word. */
  predicate PlainName(s: string) {
    s != "" && (forall c :: c in s ==> IsWordChar(c)) && WordToken(s).Name?
  }

  predicate PlainCondition(c: Condition)
    decreases c, 1
  {
    if c.Parentheses? then PlainList(c.conditions) else PlainName(c.expr)
  }

  predicate PlainList(cs: seq<Condition>)
    decreases cs, 0
  {
    cs != [] ==> PlainCondition(cs[0]) && PlainList(cs[1..])
  }

  /** No empty parentheses and no empty IN list, at any depth. */
  predicate FilledCondition(c: Condition)
    decreases c, 1
  {
    match c
    case InList(_, _, _, values) => values != []
    case Parentheses(_, conditions) => conditions != [] && FilledList(conditions)
    case _ => true
  }

  predicate FilledList(cs: seq<Condition>)
    decreases cs, 0
  {
    cs != [] ==> FilledCondition(cs[0]) && FilledList(cs[1..])
  }

  function Size(c: Condition): nat
    decreases c, 1
  {
    1 + if c.Parentheses? then ListSize(c.conditions) else 0
  }

  function ListSize(cs: seq<Condition>): nat
    decreases cs, 0
  {
    if cs == [] then 0 else Size(cs[0]) + ListSize(cs[1..])
  }

  // ---------------------------------------------------------------- what the tree means

  /** What reading can give back: at each level the first connective is lost, and every
      connective other than OR is AND. */
  function Normal(c: Condition, prefix: Type): Condition
    decreases c, 1
  {
    match c
    case Parentheses(_, conditions) => Parentheses(prefix, NormalList(conditions))
    case Compare(_, op, expr, value) => Compare(prefix, op, expr, value)
    case NullTest(_, negated, expr) => NullTest(prefix, negated, expr)
    case InList(_, negated, expr, values) => InList(prefix, negated, expr, values)
    case Between(_, expr, low, high) => Between(prefix, expr, low, high)
  }

  function NormalList(cs: seq<Condition>): seq<Condition>
    decreases cs, 1
  {
    if cs == [] then [] else [Normal(cs[0], AND)] + NormalTail(cs[1..])
  }

  function NormalTail(cs: seq<Condition>): seq<Condition>
    decreases cs, 0
  {
    if cs == [] then []
    else [Normal(cs[0], if cs[0].prefix == OR then OR else AND)] + NormalTail(cs[1..])
  }

  function AtomOf(c: Condition): Atom
    requires !c.Parentheses?
  {
    match c
    case Compare(_, op, expr, value) => CompareAtom(op, expr, value)
    case NullTest(_, negated, expr) => NullAtom(negated, expr)
    case InList(_, negated, expr, values) => InAtom(negated, expr, values)
    case Between(_, expr, low, high) => BetweenAtom(expr, low, high)
  }

  function Meaning(c: Condition, row: Row): Truth
    decreases c, 1
  {
    if c.Parentheses? then ListMeaning(c.conditions, row) else row(AtomOf(c))
  }

  /** A list of conditions from left to right: AND extends the current conjunction, OR closes
      it and starts another. */
  function ListMeaning(cs: seq<Condition>, row: Row): Truth
    decreases cs, 1
  {
    if cs == [] then True else Accumulate(cs[1..], row, False, Meaning(cs[0], row))
  }

  function Accumulate(cs: seq<Condition>, row: Row, closed: Truth, open: Truth): Truth
    decreases cs, 0
  {
    if cs == [] then Disj(closed, open)
    else if cs[0].prefix == OR then Accumulate(cs[1..], row, Disj(closed, open), Meaning(cs[0], row))
    else Accumulate(cs[1..], row, closed, Conj(open, Meaning(cs[0], row)))
  }

  // ---------------------------------------------------------------- reading a parse tree back

  function FactorCondition(f: Factor, prefix: Type): Condition
    decreases f, 2
  {
    match f
    case Leaf(CompareAtom(op, column, value)) => Compare(prefix, op, column, value)
    case Leaf(NullAtom(negated, column)) => NullTest(prefix, negated, column)
    case Leaf(InAtom(negated, column, values)) => InList(prefix, negated, column, values)
    case Leaf(BetweenAtom(column, low, high)) => Between(prefix, column, low, high)
    case Nested(search) => Parentheses(prefix, SearchConditions(search, AND))
  }

  function TermConditions(fs: seq<Factor>, prefix: Type): seq<Condition>
    decreases fs, 1
  {
    if fs == [] then [] else [FactorCondition(fs[0], prefix)] + TermConditions(fs[1..], AND)
  }

  function SearchConditions(search: Search, prefix: Type): seq<Condition>
    decreases search, 0
  {
    if search == [] then []
    else TermConditions(search[0].factors, prefix) + SearchConditions(search[1..], OR)
  }

  // ---------------------------------------------------------------- the expected parse tree

  predicate Continues(cs: seq<Condition>) {
    |cs| > 1 && cs[1].prefix != OR
  }

  function AfterLead(cs: seq<Condition>): (r: seq<Condition>)
    requires cs != []
    ensures |r| < |cs| && ListSize(r) < ListSize(cs)
    ensures PlainList(cs) ==> PlainList(r)
    ensures r != [] ==> r[0].prefix == OR
    decreases |cs|
  {
    if Continues(cs) then AfterLead(cs[1..]) else cs[1..]
  }

  function FactorOf(c: Condition): Factor
    decreases Size(c), 0
  {
    if c.Parentheses? then Nested(Group(c.conditions)) else Leaf(AtomOf(c))
  }

  function Lead(cs: seq<Condition>): seq<Factor>
    requires cs != []
    decreases ListSize(cs), 1
  {
    [FactorOf(cs[0])] + if Continues(cs) then Lead(cs[1..]) else []
  }

  function Group(cs: seq<Condition>): Search
    decreases ListSize(cs), 2
  {
    if cs == [] then [] else [Term(Lead(cs))] + Group(AfterLead(cs))
  }

  predicate LeadFilled(cs: seq<Condition>)
    requires cs != []
    decreases |cs|
  {
    FilledCondition(cs[0]) && (Continues(cs) ==> LeadFilled(cs[1..]))
  }

  lemma {:induction false} FilledSplit(cs: seq<Condition>)
    requires cs != []
    ensures FilledList(cs) <==> LeadFilled(cs) && FilledList(AfterLead(cs))
    decreases |cs|
  {
    if Continues(cs) {
      FilledSplit(cs[1..]);
    }
  }

  // ---------------------------------------------------------------- text to lexemes

  lemma Assoc<T>(a: seq<T>, b: seq<T>, c: seq<T>)
    ensures a + b + c == a + (b + c)
  {
  }

  predicate Separate(a: string, b: string) {
    a != "" && b != "" ==> !Joined(a[|a| - 1], b[0])
  }

  lemma {:induction false} LexemeLenConcat(a: string, b: string)
    requires a != "" && Separate(a, b)
    ensures LexemeLen(a + b) == LexemeLen(a)
  {
    assert (a + b)[0] == a[0];
    if |a| > 1 {
      assert (a + b)[1] == a[1] && (a + b)[1..] == a[1..] + b;
      LexemeLenConcat(a[1..], b);
    }
  }

  lemma {:induction false} LexConcat(a: string, b: string)
    requires Separate(a, b)
    ensures Lex(a + b) == Lex(a) + Lex(b)
    decreases |a|
  {
    if a == "" {
      assert a + b == b;
    } else {
      assert (a + b)[0] == a[0];
      var n := if a[0] == ' ' then 1 else LexemeLen(a);
      LexemeLenConcat(a, b);
      assert (a + b)[..n] == a[..n] && (a + b)[n..] == a[n..] + b;
      LexConcat(a[n..], b);
    }
  }

  /** One lexeme. */
  predicate Whole(w: string) {
    w != "" && w[0] != ' ' &&
    (|w| == 1 || (forall c :: c in w ==> IsWordChar(c)) || (forall c :: c in w ==> IsOperatorChar(c)))
  }

  lemma {:induction false} LexemeLenWhole(w: string)
    requires Whole(w)
    ensures LexemeLen(w) == |w|
  {
    if |w| > 1 {
      assert w[0] in w && w[1] in w;
      assert Joined(w[0], w[1]);
      LexemeLenWhole(w[1..]);
    }
  }

  lemma LexWhole(w: string)
    requires Whole(w)
    ensures Lex(w) == [w]
  {
    LexemeLenWhole(w);
    assert w[..|w|] == w && w[|w|..] == "";
  }

  lemma LexBlank(rest: string)
    ensures Lex(" " + rest) == Lex(rest)
  {
    assert (" " + rest)[1..] == rest;
  }

  lemma LexFirst(w: string, rest: string)
    requires Whole(w)
    requires rest != "" ==> !IsWordChar(rest[0]) && !IsOperatorChar(rest[0])
    ensures Lex(" " + (w + rest)) == [w] + Lex(rest)
  {
    LexBlank(w + rest);
    LexWhole(w);
    LexConcat(w, rest);
  }

  /** Lexemes written with a blank in front of each. */
  function Spaced(ws: seq<string>): string {
    if ws == [] then "" else " " + ws[0] + Spaced(ws[1..])
  }

  lemma {:induction false} LexSpaced(ws: seq<string>, rest: string)
    requires forall w :: w in ws ==> Whole(w)
    requires rest != "" ==> !IsWordChar(rest[0]) && !IsOperatorChar(rest[0])
    ensures Lex(Spaced(ws) + rest) == ws + Lex(rest)
  {
    if ws == [] {
      assert Spaced(ws) + rest == rest;
    } else {
      var more := Spaced(ws[1..]) + rest;
      LexSpaced(ws[1..], rest);
      assert more != "" ==> !IsWordChar(more[0]) && !IsOperatorChar(more[0]);
      LexFirst(ws[0], more);
      Assoc(" ", ws[0], Spaced(ws[1..]));
      Assoc(" ", ws[0] + Spaced(ws[1..]), rest);
      Assoc(ws[0], Spaced(ws[1..]), rest);
      Assoc([ws[0]], ws[1..], Lex(rest));
      assert ws == [ws[0]] + ws[1..];
    }
  }

  // ---------------------------------------------------------------- the lexemes of a condition

  function NotWords(negated: bool): seq<string> {
    if negated then ["NOT"] else []
  }

  function MarkWords(n: nat): seq<string> {
    if n == 0 then [] else if n == 1 then ["?"] else ["?", ","] + MarkWords(n - 1)
  }

  function ConnectiveWord(t: Type): string {
    if t == OR then "OR" else "AND"
  }

  function LeafWords(c: Condition): seq<string>
    requires !c.Parentheses?
  {
    match c
    case Compare(_, op, _, _) => [OpString(op), "?"]
    case NullTest(_, negated, _) => ["IS"] + NotWords(negated) + ["NULL"]
    case InList(_, negated, _, values) => NotWords(negated) + ["IN", "("] + MarkWords(|values|) + [")"]
    case Between(_, _, _, _) => ["BETWEEN", "?", "AND", "?"]
  }

  function BodyWords(c: Condition): seq<string>
    decreases c, 0
  {
    if c.Parentheses? then ["("] + InnerWords(c.conditions) + [")"] else [c.expr] + LeafWords(c)
  }

  function InnerWords(cs: seq<Condition>): seq<string>
    decreases cs, 1
  {
    if cs == [] then [] else BodyWords(cs[0]) + TailWords(cs[1..])
  }

  function TailWords(cs: seq<Condition>): seq<string>
    decreases cs, 0
  {
    if cs == [] then [] else [ConnectiveWord(cs[0].prefix)] + BodyWords(cs[0]) + TailWords(cs[1..])
  }

  /** A character that is a lexeme of its own. */
  lemma LexSingle(w: string, rest: string)
    requires |w| == 1 && w[0] != ' ' && !IsWordChar(w[0]) && !IsOperatorChar(w[0])
    ensures Lex(w + rest) == [w] + Lex(rest)
  {
    LexWhole(w);
    LexConcat(w, rest);
  }

  function MarksText(n: nat): string {
    Join(Placeholders(n), ",") + ")"
  }

  lemma MarksTextStep(n: nat)
    requires n > 1
    ensures MarksText(n) == "?" + ("," + MarksText(n - 1))
  {
    assert Placeholders(n)[1..] == Placeholders(n - 1);
  }

  lemma LexMarksStep(n: nat)
    requires n > 1
    requires Lex(MarksText(n - 1)) == MarkWords(n - 1) + [")"]
    ensures Lex(MarksText(n)) == MarkWords(n) + [")"]
  {
    MarksTextStep(n);
    LexTwoSingles("?", ",", MarksText(n - 1));
    MarkWordsStep(n);
  }

  lemma MarkWordsStep(n: nat)
    requires n > 1
    ensures ["?"] + ([","] + (MarkWords(n - 1) + [")"])) == MarkWords(n) + [")"]
  {
  }

  lemma LexTwoSingles(v: string, w: string, rest: string)
    requires |v| == 1 && v[0] != ' ' && !IsWordChar(v[0]) && !IsOperatorChar(v[0])
    requires |w| == 1 && w[0] != ' ' && !IsWordChar(w[0]) && !IsOperatorChar(w[0])
    ensures Lex(v + (w + rest)) == [v] + ([w] + Lex(rest))
  {
    LexSingle(v, w + rest);
    LexSingle(w, rest);
  }

  lemma {:induction false} LexMarks(n: nat)
    ensures Lex(MarksText(n)) == MarkWords(n) + [")"]
  {
    if n == 0 {
      LexWhole(")");
      assert MarksText(n) == ")";
    } else if n == 1 {
      LexWhole(")");
      assert MarksText(n) == "?" + ")";
      LexSingle("?", ")");
    } else {
      LexMarks(n - 1);
      LexMarksStep(n);
    }
  }

  /** The text after the column: blank-separated lexemes, then for an IN list its placeholders. */
  lemma LeafText(c: Condition)
    requires !c.Parentheses? && !c.InList?
    ensures BodyText(c) == c.expr + Spaced(LeafWords(c))
  {
    match c
    case Compare(_, op, expr, _) =>
      SpacedTwo(OpString(op), "?");
      CompareText(expr, OpString(op));
    case NullTest(_, negated, expr) =>
      NullText(negated);
    case Between(_, expr, _, _) =>
      BetweenText();
  }

  lemma CompareText(expr: string, o: string)
    ensures expr + " " + o + " ?" == expr + (" " + o + (" " + "?"))
  {
  }

  lemma NullText(negated: bool)
    ensures NullSuffix(negated) == Spaced(["IS"] + NotWords(negated) + ["NULL"])
  {
    if negated {
      SpacedTwo("NOT", "NULL");
      assert ["IS"] + NotWords(negated) + ["NULL"] == ["IS", "NOT", "NULL"];
      assert ["IS", "NOT", "NULL"][1..] == ["NOT", "NULL"];
    } else {
      SpacedTwo("IS", "NULL");
      assert ["IS"] + NotWords(negated) + ["NULL"] == ["IS", "NULL"];
    }
  }

  lemma BetweenText()
    ensures " BETWEEN ? AND ?" == Spaced(["BETWEEN", "?", "AND", "?"])
  {
    SpacedTwo("AND", "?");
    assert ["BETWEEN", "?", "AND", "?"][1..] == ["?", "AND", "?"] && ["?", "AND", "?"][1..] == ["AND", "?"];
    assert Spaced(["?", "AND", "?"]) == " " + "?" + Spaced(["AND", "?"]);
  }

  lemma SpacedTwo(v: string, w: string)
    ensures Spaced([v, w]) == " " + v + (" " + w)
  {
    assert [v, w][1..] == [w] && [w][1..] == [];
    assert Spaced([w]) == " " + w + "";
  }

  lemma InText(c: Condition)
    requires c.InList?
    ensures BodyText(c) == c.expr + (Spaced(InWords(c.negated)) + (" " + ("(" + MarksText(|c.values|))))
  {
    InInfixText(c.negated);
    InAssoc(c.expr, Spaced(InWords(c.negated)), Join(Placeholders(|c.values|), ","));
  }

  lemma InAssoc(expr: string, words: string, marks: string)
    ensures expr + (words + " (") + marks + ")" == expr + (words + (" " + ("(" + (marks + ")"))))
  {
  }

  lemma InInfixText(negated: bool)
    ensures InInfix(negated) == Spaced(InWords(negated)) + " ("
  {
    if negated {
      SpacedTwo("NOT", "IN");
      assert InWords(negated) == ["NOT", "IN"];
    } else {
      assert InWords(negated) == ["IN"] && ["IN"][1..] == [];
      assert Spaced(["IN"]) == " " + "IN" + Spaced([]);
    }
  }

  lemma LeafWhole(c: Condition)
    requires !c.Parentheses? && !c.InList?
    ensures forall w :: w in LeafWords(c) ==> Whole(w)
  {
  }

  function InWords(negated: bool): seq<string> {
    NotWords(negated) + ["IN"]
  }

  lemma InWordsWhole(negated: bool)
    ensures forall w :: w in InWords(negated) ==> Whole(w)
  {
  }

  lemma LexInRest(negated: bool, n: nat)
    ensures Lex(Spaced(InWords(negated)) + (" " + ("(" + MarksText(n))))
         == InWords(negated) + (["("] + (MarkWords(n) + [")"]))
  {
    var list := "(" + MarksText(n);
    LexMarks(n);
    LexSingle("(", MarksText(n));
    LexBlank(list);
    InWordsWhole(negated);
    LexSpaced(InWords(negated), " " + list);
  }

  lemma LexInList(c: Condition)
    requires PlainCondition(c) && c.InList?
    ensures Lex(BodyText(c)) == BodyWords(c)
  {
    var n := |c.values|;
    InText(c);
    LexInRest(c.negated, n);
    SpacedBlank(InWords(c.negated));
    LexColumn(c, Spaced(InWords(c.negated)) + (" " + ("(" + MarksText(n))));
    assert InWords(c.negated) + (["("] + (MarkWords(n) + [")"])) == LeafWords(c);
  }

  lemma SpacedBlank(ws: seq<string>)
    requires ws != []
    ensures Spaced(ws) != "" && Spaced(ws)[0] == ' '
  {
  }

  lemma LexColumn(c: Condition, rest: string)
    requires PlainCondition(c) && !c.Parentheses? && rest != "" && rest[0] == ' '
    ensures Lex(c.expr + rest) == [c.expr] + Lex(rest)
  {
    assert c.expr[0] in c.expr;
    LexWhole(c.expr);
    LexConcat(c.expr, rest);
  }

  lemma LexLeaf(c: Condition)
    requires PlainCondition(c) && !c.Parentheses?
    ensures Lex(BodyText(c)) == BodyWords(c)
  {
    if c.InList? {
      LexInList(c);
    } else {
      LeafText(c);
      LeafWhole(c);
      LexSpaced(LeafWords(c), "");
      assert Spaced(LeafWords(c)) + "" == Spaced(LeafWords(c));
      LexColumn(c, Spaced(LeafWords(c)));
    }
  }

  predicate CleanEdges(t: string) {
    t != "" && (IsWordChar(t[0]) || t[0] == '(')
  }

  predicate CleanEnd(t: string) {
    t != "" ==> !IsOperatorChar(t[|t| - 1])
  }

  /** Bodies start with a column or a parenthesis and never with a blank, and do not end in an operator. */
  lemma BodyEdges(c: Condition)
    requires PlainCondition(c)
    ensures CleanEdges(BodyText(c)) && CleanEnd(BodyText(c))
  {
  }

  lemma {:induction false} TailEdges(cs: seq<Condition>)
    requires PlainList(cs)
    ensures CleanEnd(ListText(cs)) && (cs != [] ==> ListText(cs) != "" && ListText(cs)[0] == ' ')
    decreases |cs|
  {
    if cs != [] {
      BodyEdges(cs[0]);
      TailEdges(cs[1..]);
    }
  }

  lemma ListUncons(cs: seq<Condition>)
    requires cs != []
    ensures ListText(cs) == TypeString(cs[0].prefix) + (BodyText(cs[0]) + ListText(cs[1..]))
  {
    Assoc(TypeString(cs[0].prefix), BodyText(cs[0]), ListText(cs[1..]));
  }

  /** Only the first connective is trimmed. */
  lemma TrimFirst(cs: seq<Condition>)
    requires cs != [] && PlainList(cs)
    ensures TrimConnective(ListText(cs)) == BodyText(cs[0]) + ListText(cs[1..])
  {
    BodyEdges(cs[0]);
    var body := BodyText(cs[0]) + ListText(cs[1..]);
    assert CleanEdges(body);
    ListUncons(cs);
    TrimBody(cs[0].prefix, body);
  }

  lemma TrimBody(prefix: Type, body: string)
    requires CleanEdges(body)
    ensures TrimConnective(TypeString(prefix) + body) == body
  {
    var p := TypeString(prefix);
    assert (p + body)[|p|..] == body;
    assert TrimPrefix(body, TypeString(OR)) == body by {
      assert body[0] != TypeString(OR)[0];
    }
    if prefix == OR {
      assert (p + body)[1] != TypeString(AND)[1];
    }
  }

  lemma {:induction false} LexBody(c: Condition)
    requires PlainCondition(c)
    ensures Lex(BodyText(c)) == BodyWords(c)
    decreases c, 1
  {
    if c.Parentheses? {
      var inner := TrimConnective(ListText(c.conditions));
      LexInner(c.conditions);
      LexWhole(")");
      LexConcat(inner, ")");
      LexSingle("(", inner + ")");
      Assoc("(", inner, ")");
      Assoc(["("], InnerWords(c.conditions), [")"]);
    } else {
      LexLeaf(c);
    }
  }

  lemma LexConnective(prefix: Type, rest: string)
    ensures Lex(TypeString(prefix) + rest) == [ConnectiveWord(prefix)] + Lex(rest)
  {
    var w := ConnectiveWord(prefix);
    LexBlank(rest);
    LexFirst(w, " " + rest);
    assert TypeString(prefix) == " " + w + " ";
    Assoc(" ", w, " ");
    Assoc(" ", w + " ", rest);
    Assoc(w, " ", rest);
  }

  lemma {:induction false} LexTail(cs: seq<Condition>)
    requires PlainList(cs)
    ensures Lex(ListText(cs)) == TailWords(cs)
    decreases cs, 0
  {
    if cs != [] {
      var body := BodyText(cs[0]);
      BodyEdges(cs[0]);
      LexBody(cs[0]);
      LexTail(cs[1..]);
      TailEdges(cs[1..]);
      LexConcat(body, ListText(cs[1..]));
      var rest := body + ListText(cs[1..]);
      LexConnective(cs[0].prefix, rest);
      ListUncons(cs);
      Assoc([ConnectiveWord(cs[0].prefix)], BodyWords(cs[0]), TailWords(cs[1..]));
    }
  }

  lemma {:induction false} LexInner(cs: seq<Condition>)
    requires PlainList(cs)
    ensures Lex(TrimConnective(ListText(cs))) == InnerWords(cs)
    decreases cs, 1
  {
    if cs == [] {
      assert TrimConnective("") == "";
    } else {
      TrimFirst(cs);
      LexBody(cs[0]);
      LexTail(cs[1..]);
      BodyEdges(cs[0]);
      TailEdges(cs[1..]);
      LexConcat(BodyText(cs[0]), ListText(cs[1..]));
    }
  }

  // ---------------------------------------------------------------- lexemes to tokens

  function NotTokens(negated: bool): seq<Token> {
    if negated then [Keyword(KwNot)] else []
  }

  function MarkTokens(n: nat): seq<Token> {
    if n == 0 then [] else if n == 1 then [Question] else [Question, Comma] + MarkTokens(n - 1)
  }

  function ConnectiveToken(t: Type): Token {
    if t == OR then Keyword(KwOr) else Keyword(KwAnd)
  }

  function LeafTokens(c: Condition): seq<Token>
    requires !c.Parentheses?
  {
    match c
    case Compare(_, op, _, _) => [Operator(op), Question]
    case NullTest(_, negated, _) => [Keyword(KwIs)] + NotTokens(negated) + [Keyword(KwNull)]
    case InList(_, negated, _, values) =>
      NotTokens(negated) + [Keyword(KwIn), LParen] + MarkTokens(|values|) + [RParen]
    case Between(_, _, _, _) => [Keyword(KwBetween), Question, Keyword(KwAnd), Question]
  }

  function BodyTokens(c: Condition): seq<Token>
    decreases c, 0
  {
    if c.Parentheses? then [LParen] + InnerTokens(c.conditions) + [RParen] else [Name(c.expr)] + LeafTokens(c)
  }

  function InnerTokens(cs: seq<Condition>): seq<Token>
    decreases cs, 1
  {
    if cs == [] then [] else BodyTokens(cs[0]) + TailTokens(cs[1..])
  }

  function TailTokens(cs: seq<Condition>): seq<Token>
    decreases cs, 0
  {
    if cs == [] then [] else [ConnectiveToken(cs[0].prefix)] + BodyTokens(cs[0]) + TailTokens(cs[1..])
  }

  lemma ClassifiedConcat(a: seq<string>, b: seq<string>)
    ensures Classified(a + b) == Classified(a) + Classified(b)
  {
  }

  lemma UpperSame(w: string)
    requires forall i :: 0 <= i < |w| ==> 'A' <= w[i] <= 'Z'
    ensures Upper(w) == w
  {
  }

  lemma ClassifyKeywords()
    ensures Classify("AND") == Keyword(KwAnd) && Classify("OR") == Keyword(KwOr) && Classify("NOT") == Keyword(KwNot)
    ensures Classify("IN") == Keyword(KwIn) && Classify("IS") == Keyword(KwIs) && Classify("NULL") == Keyword(KwNull)
    ensures Classify("BETWEEN") == Keyword(KwBetween)
  {
    UpperSame("AND");
    UpperSame("OR");
    UpperSame("NOT");
    UpperSame("IN");
    UpperSame("IS");
    UpperSame("NULL");
    UpperSame("BETWEEN");
  }

  lemma ClassifySymbols(op: CompareOp)
    ensures Classify("?") == Question && Classify("(") == LParen && Classify(")") == RParen && Classify(",") == Comma
    ensures Classify(OpString(op)) == Operator(op)
  {
  }

  lemma {:induction false} ClassifyMarks(n: nat)
    ensures Classified(MarkWords(n)) == MarkTokens(n)
  {
    ClassifySymbols(Eq);
    if n > 1 {
      ClassifyMarks(n - 1);
      ClassifiedConcat(["?", ","], MarkWords(n - 1));
    }
  }

  lemma ClassifyOne(w: string)
    ensures Classified([w]) == [Classify(w)]
  {
  }

  lemma ClassifyParens()
    ensures Classified(["("]) == [LParen] && Classified([")"]) == [RParen]
  {
    ClassifySymbols(Eq);
    ClassifyOne("(");
    ClassifyOne(")");
  }

  lemma ClassifyName(w: string)
    requires PlainName(w)
    ensures Classified([w]) == [Name(w)]
  {
    assert w[0] in w;
    ClassifyOne(w);
  }

  lemma ClassifyBetween()
    ensures Classified(["BETWEEN", "?", "AND", "?"]) == [Keyword(KwBetween), Question, Keyword(KwAnd), Question]
  {
    ClassifyKeywords();
    ClassifySymbols(Eq);
  }

  lemma ClassifyCompare(op: CompareOp)
    ensures Classified([OpString(op), "?"]) == [Operator(op), Question]
  {
    ClassifySymbols(op);
  }

  lemma ClassifyNull(negated: bool)
    ensures Classified(["IS"] + NotWords(negated) + ["NULL"])
         == [Keyword(KwIs)] + NotTokens(negated) + [Keyword(KwNull)]
  {
    ClassifyKeywords();
    ClassifyNot(negated);
    ClassifiedConcat(["IS"] + NotWords(negated), ["NULL"]);
    ClassifiedConcat(["IS"], NotWords(negated));
    ClassifyOne("IS");
    ClassifyOne("NULL");
  }

  lemma ClassifyNot(negated: bool)
    ensures Classified(NotWords(negated)) == NotTokens(negated)
  {
    ClassifyKeywords();
  }

  lemma ClassifyLeaf(c: Condition)
    requires !c.Parentheses?
    ensures Classified(LeafWords(c)) == LeafTokens(c)
  {
    match c
    case Compare(_, op, _, _) => ClassifyCompare(op);
    case NullTest(_, negated, _) => ClassifyNull(negated);
    case InList(_, negated, _, values) => ClassifyInList(negated, |values|);
    case Between(_, _, _, _) => ClassifyBetween();
  }

  lemma ClassifyInList(negated: bool, n: nat)
    ensures Classified(NotWords(negated) + ["IN", "("] + MarkWords(n) + [")"])
         == NotTokens(negated) + [Keyword(KwIn), LParen] + MarkTokens(n) + [RParen]
  {
    ClassifyKeywords();
    ClassifySymbols(Eq);
    ClassifyNot(negated);
    ClassifyMarks(n);
    ClassifyOne(")");
    ClassifiedConcat(NotWords(negated) + ["IN", "("] + MarkWords(n), [")"]);
    ClassifiedConcat(NotWords(negated) + ["IN", "("], MarkWords(n));
    ClassifiedConcat(NotWords(negated), ["IN", "("]);
    assert Classified(["IN", "("]) == [Keyword(KwIn), LParen];
  }

  lemma {:induction false} ClassifyBody(c: Condition)
    requires PlainCondition(c)
    ensures Classified(BodyWords(c)) == BodyTokens(c)
    decreases c, 1
  {
    if c.Parentheses? {
      ClassifyInner(c.conditions);
      ClassifyParens();
      ClassifiedConcat(["("] + InnerWords(c.conditions), [")"]);
      ClassifiedConcat(["("], InnerWords(c.conditions));
    } else {
      ClassifyLeaf(c);
      ClassifiedConcat([c.expr], LeafWords(c));
      ClassifyName(c.expr);
    }
  }

  lemma {:induction false} ClassifyInner(cs: seq<Condition>)
    requires PlainList(cs)
    ensures Classified(InnerWords(cs)) == InnerTokens(cs)
    decreases cs, 1
  {
    if cs != [] {
      ClassifyBody(cs[0]);
      ClassifyTail(cs[1..]);
      ClassifiedConcat(BodyWords(cs[0]), TailWords(cs[1..]));
    }
  }

  lemma {:induction false} ClassifyTail(cs: seq<Condition>)
    requires PlainList(cs)
    ensures Classified(TailWords(cs)) == TailTokens(cs)
    decreases cs, 0
  {
    if cs != [] {
      var w := ConnectiveWord(cs[0].prefix);
      assert Classify(w) == ConnectiveToken(cs[0].prefix) by { ClassifyKeywords(); }
      ClassifyBody(cs[0]);
      ClassifyTail(cs[1..]);
      ClassifiedConcat([w] + BodyWords(cs[0]), TailWords(cs[1..]));
      ClassifiedConcat([w], BodyWords(cs[0]));
      ClassifyOne(w);
    }
  }

  // ---------------------------------------------------------------- tokens to the tree

  lemma {:induction false} MarksParse(values: seq<Value>, rest: seq<Token>, args: seq<Value>)
    ensures ParseMarks(MarkTokens(|values|) + [RParen] + rest, values + args)
         == if values == [] then None else Some(Parse(values, rest, args))
    decreases |values|
  {
    var ts := MarkTokens(|values|) + [RParen] + rest;
    if values == [] {
      assert ts[0] == RParen;
    } else if |values| == 1 {
      assert ts[0] == Question && ts[1..][0] == RParen && ts[2..] == rest;
      assert (values + args)[1..] == args && values == [values[0]];
    } else {
      assert ts[0] == Question && ts[1..][0] == Comma;
      assert ts[2..] == MarkTokens(|values[1..]|) + [RParen] + rest;
      assert (values + args)[1..] == values[1..] + args;
      assert values == [values[0]] + values[1..];
      MarksParse(values[1..], rest, args);
    }
  }

  lemma AtomParses(c: Condition, rest: seq<Token>, args: seq<Value>)
    requires !c.Parentheses?
    ensures ParseAtom(BodyTokens(c) + rest, ConditionArgs(c) + args)
         == if FilledCondition(c) then Some(Parse(AtomOf(c), rest, args)) else None
  {
    if c.InList? {
      InParses(c, rest, args);
    } else {
      var ts := BodyTokens(c) + rest;
      var all := ConditionArgs(c) + args;
      assert all[|ConditionArgs(c)|..] == args;
      assert ts[|BodyTokens(c)|..] == rest;
      assert forall i :: 0 <= i < |BodyTokens(c)| ==> ts[i] == BodyTokens(c)[i];
    }
  }

  lemma InParses(c: Condition, rest: seq<Token>, args: seq<Value>)
    requires c.InList?
    ensures ParseAtom(BodyTokens(c) + rest, ConditionArgs(c) + args)
         == if FilledCondition(c) then Some(Parse(AtomOf(c), rest, args)) else None
  {
    var marks := MarkTokens(|c.values|) + [RParen] + rest;
    MarksParse(c.values, rest, args);
    InTokens(c.negated, c.expr, MarkTokens(|c.values|), rest);
    assert BodyTokens(c) + rest == InPrefix(c.negated, c.expr) + marks;
    ParseInPrefix(c.negated, c.expr, marks, c.values + args);
  }

  function InPrefix(negated: bool, expr: string): seq<Token> {
    [Name(expr)] + NotTokens(negated) + [Keyword(KwIn), LParen]
  }

  lemma InTokens(negated: bool, expr: string, marks: seq<Token>, rest: seq<Token>)
    ensures [Name(expr)] + (NotTokens(negated) + [Keyword(KwIn), LParen] + marks + [RParen]) + rest
         == InPrefix(negated, expr) + (marks + [RParen] + rest)
  {
  }

  lemma ParseInPrefix(negated: bool, expr: string, marks: seq<Token>, args: seq<Value>)
    ensures ParseAtom(InPrefix(negated, expr) + marks, args) == ParseIn(negated, expr, [LParen] + marks, args)
  {
    var ts := InPrefix(negated, expr) + marks;
    if negated {
      assert ts[0] == Name(expr) && ts[1] == Keyword(KwNot) && ts[2] == Keyword(KwIn) && ts[3..] == [LParen] + marks;
    } else {
      assert ts[0] == Name(expr) && ts[1] == Keyword(KwIn) && ts[2..] == [LParen] + marks;
    }
  }

  /** Nothing follows that would continue a search condition. */
  predicate Ends(rest: seq<Token>) {
    rest != [] ==> rest[0] != Keyword(KwAnd) && rest[0] != Keyword(KwOr)
  }

  lemma {:induction false} FactorParses(c: Condition, rest: seq<Token>, args: seq<Value>)
    requires PlainCondition(c)
    ensures ParseFactor(BodyTokens(c) + rest, ConditionArgs(c) + args)
         == if FilledCondition(c) then Some(Parse(FactorOf(c), rest, args)) else None
    decreases Size(c), 0
  {
    var ts := BodyTokens(c) + rest;
    match c
    case Parentheses(_, cs) =>
      assert ts[0] == LParen && ts[1..] == InnerTokens(cs) + ([RParen] + rest);
      if cs == [] {
        assert InnerTokens(cs) == [];
        assert ts[1..] == [RParen] + rest;
        assert ParseAtom(ts[1..], args).None?;
        assert ParseFactor(ts[1..], args).None?;
        assert ParseTerm(ts[1..], args).None?;
        assert ListArgs(cs) + args == args;
      } else {
        SearchParses(cs, [RParen] + rest, args);
        assert ([RParen] + rest)[1..] == rest;
      }
    case _ =>
      AtomParses(c, rest, args);
      assert ts[0] == Name(c.expr);
  }

  lemma InnerUncons(cs: seq<Condition>, rest: seq<Token>, args: seq<Value>)
    requires cs != []
    ensures InnerTokens(cs) + rest == BodyTokens(cs[0]) + (TailTokens(cs[1..]) + rest)
    ensures ListArgs(cs) + args == ConditionArgs(cs[0]) + (ListArgs(cs[1..]) + args)
  {
    Assoc(BodyTokens(cs[0]), TailTokens(cs[1..]), rest);
    Assoc(ConditionArgs(cs[0]), ListArgs(cs[1..]), args);
  }

  lemma TailUncons(cs: seq<Condition>, rest: seq<Token>)
    requires cs != []
    ensures var tail := TailTokens(cs) + rest;
            tail != [] && tail[0] == ConnectiveToken(cs[0].prefix) && tail[1..] == InnerTokens(cs) + rest
  {
    ConsDrop(ConnectiveToken(cs[0].prefix), BodyTokens(cs[0]), TailTokens(cs[1..]), rest);
  }

  lemma ConsDrop<T>(x: T, a: seq<T>, b: seq<T>, c: seq<T>)
    ensures var s := [x] + a + b + c; s[0] == x && s[1..] == a + b + c
  {
  }

  lemma {:induction false} TermParses(cs: seq<Condition>, rest: seq<Token>, args: seq<Value>)
    requires cs != [] && PlainList(cs) && Ends(rest)
    ensures ParseTerm(InnerTokens(cs) + rest, ListArgs(cs) + args)
         == if LeadFilled(cs)
            then Some(Parse(Lead(cs), TailTokens(AfterLead(cs)) + rest, ListArgs(AfterLead(cs)) + args))
            else None
    decreases ListSize(cs), 1
  {
    var tail := TailTokens(cs[1..]) + rest;
    var tailArgs := ListArgs(cs[1..]) + args;
    InnerUncons(cs, rest, args);
    FactorParses(cs[0], tail, tailArgs);
    if |cs| > 1 {
      TailUncons(cs[1..], rest);
      if Continues(cs) && FilledCondition(cs[0]) {
        TermParses(cs[1..], rest, args);
      }
    } else {
      assert tail == rest;
    }
    if !Continues(cs) {
      assert Lead(cs) == [FactorOf(cs[0])];
    }
  }

  lemma {:induction false} SearchParses(cs: seq<Condition>, rest: seq<Token>, args: seq<Value>)
    requires cs != [] && PlainList(cs) && Ends(rest)
    ensures ParseSearch(InnerTokens(cs) + rest, ListArgs(cs) + args)
         == if FilledList(cs) then Some(Parse(Group(cs), rest, args)) else None
    decreases ListSize(cs), 2
  {
    FilledSplit(cs);
    TermParses(cs, rest, args);
    var after := AfterLead(cs);
    var tail := TailTokens(after) + rest;
    if LeadFilled(cs) {
      if after == [] {
        assert tail == rest && ListArgs(after) + args == args;
        assert Group(cs) == [Term(Lead(cs))];
      } else {
        TailUncons(after, rest);
        SearchParses(after, rest, args);
      }
    }
  }

  // ---------------------------------------------------------------- the tree read back

  lemma {:induction false} FactorBack(c: Condition, prefix: Type)
    ensures FactorCondition(FactorOf(c), prefix) == Normal(c, prefix)
    decreases Size(c), 0
  {
    if c.Parentheses? {
      GroupBack(c.conditions, AND);
    }
  }

  lemma {:induction false} LeadBack(cs: seq<Condition>, prefix: Type)
    requires cs != []
    ensures [Normal(cs[0], prefix)] + NormalTail(cs[1..])
         == TermConditions(Lead(cs), prefix) + NormalTail(AfterLead(cs))
    decreases ListSize(cs), 1
  {
    FactorBack(cs[0], prefix);
    var fs := Lead(cs);
    if Continues(cs) {
      assert fs[1..] == Lead(cs[1..]);
      LeadBack(cs[1..], AND);
      assert cs[1..][1..] == cs[2..];
      assert NormalTail(cs[1..]) == [Normal(cs[1], AND)] + NormalTail(cs[2..]);
    } else {
      assert fs[1..] == [];
    }
  }

  lemma {:induction false} GroupBack(cs: seq<Condition>, prefix: Type)
    ensures SearchConditions(Group(cs), prefix)
         == if cs == [] then [] else [Normal(cs[0], prefix)] + NormalTail(cs[1..])
    decreases ListSize(cs), 2
  {
    if cs != [] {
      LeadBack(cs, prefix);
      var after := AfterLead(cs);
      GroupBack(after, OR);
      assert Group(cs)[1..] == Group(after);
    }
  }

  // ---------------------------------------------------------------- the same truth on every row

  lemma TruthLaws(a: Truth, b: Truth, c: Truth)
    ensures Disj(a, Disj(b, c)) == Disj(Disj(a, b), c)
    ensures Conj(a, Conj(b, c)) == Conj(Conj(a, b), c)
    ensures Conj(True, a) == a && Conj(a, True) == a && Disj(a, False) == a && Disj(False, a) == a
  {
  }

  lemma {:induction false} FactorMeans(c: Condition, row: Row)
    requires FilledCondition(c)
    ensures EvalFactor(FactorOf(c), row) == Meaning(c, row)
    decreases Size(c), 0
  {
    if c.Parentheses? {
      GroupMeans(c.conditions, row);
    }
  }

  lemma {:induction false} LeadMeans(cs: seq<Condition>, row: Row, closed: Truth, open: Truth)
    requires cs != [] && FilledList(cs)
    ensures Accumulate(cs[1..], row, closed, Conj(open, Meaning(cs[0], row)))
         == Disj(closed, Disj(Conj(open, EvalTerm(Lead(cs), row)), EvalSearch(Group(AfterLead(cs)), row)))
    decreases ListSize(cs), 1
  {
    FactorMeans(cs[0], row);
    var fs := Lead(cs);
    var now := Conj(open, Meaning(cs[0], row));
    if Continues(cs) {
      assert fs[1..] == Lead(cs[1..]);
      LeadMeans(cs[1..], row, closed, now);
      TruthLaws(open, Meaning(cs[0], row), EvalTerm(fs[1..], row));
    } else {
      assert fs[1..] == [];
      var after := AfterLead(cs);
      assert after == cs[1..];
      TruthLaws(Meaning(cs[0], row), True, True);
      TruthLaws(now, True, True);
      if after != [] {
        TruthLaws(Meaning(after[0], row), True, True);
        var next := Meaning(after[0], row);
        assert Accumulate(after, row, closed, now) == Accumulate(after[1..], row, Disj(closed, now), Conj(True, next));
        LeadMeans(after, row, Disj(closed, now), True);
        assert Group(after)[0] == Term(Lead(after)) && Group(after)[1..] == Group(AfterLead(after));
        TruthLaws(EvalTerm(Lead(after), row), True, True);
        TruthLaws(closed, now, EvalSearch(Group(after), row));
      }
    }
  }

  lemma {:induction false} GroupMeans(cs: seq<Condition>, row: Row)
    requires cs != [] && FilledList(cs)
    ensures EvalSearch(Group(cs), row) == ListMeaning(cs, row)
    decreases ListSize(cs), 2
  {
    LeadMeans(cs, row, False, True);
    TruthLaws(Meaning(cs[0], row), True, True);
    TruthLaws(EvalTerm(Lead(cs), row), True, True);
    TruthLaws(EvalSearch(Group(cs), row), True, True);
    assert Group(cs)[0] == Term(Lead(cs)) && Group(cs)[1..] == Group(AfterLead(cs));
  }

  // ---------------------------------------------------------------- the theorem

  /** The clause a statement carries for a list of conditions (api_query.go, api_update.go). */
  function WhereText(cs: seq<Condition>): string {
    TrimConnective(ListText(cs))
  }

  /** Reading the clause back succeeds exactly when no parentheses and no IN list is empty; it
      then uses every placeholder and argument once, gives back the tree, and is true, false or
      unknown on every row as the tree is. */
  lemma {:induction false} WhereRoundTrip(cs: seq<Condition>)
    requires cs != [] && PlainList(cs)
    ensures var read := ReadWhere(WhereText(cs), ListArgs(cs));
            && (read.Some? <==> FilledList(cs))
            && (read.Some? ==> SearchConditions(read.value, AND) == NormalList(cs))
            && (read.Some? ==> forall row: Row :: EvalSearch(read.value, row) == ListMeaning(cs, row))
  {
    LexInner(cs);
    ClassifyInner(cs);
    SearchParses(cs, [], []);
    assert InnerTokens(cs) + [] == InnerTokens(cs) && ListArgs(cs) + [] == ListArgs(cs);
    if FilledList(cs) {
      GroupBack(cs, AND);
      forall row: Row {
        GroupMeans(cs, row);
      }
    }
  }
}
