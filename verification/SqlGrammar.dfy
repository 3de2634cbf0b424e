/** A reader for WHERE clauses, written from the SQL grammar and not from the renderer:
    search conditions as in clause 8.12 of ISO/IEC 9075:1992 (AND binds tighter than OR),
    with the k-th placeholder bound to the k-th argument. */
module SqlGrammar {
  import opened SqlCondition
  import opened Options

  // ---------------------------------------------------------------- tokens

  predicate IsWordChar(c: char) {
    'a' <= c <= 'z' || 'A' <= c <= 'Z' || '0' <= c <= '9' || c == '_' || c == '.'
  }

  predicate IsOperatorChar(c: char) {
    c == '=' || c == '<' || c == '>' || c == '!'
  }

  /** Neighbours of one lexeme: word characters with word characters, operators with operators. */
  predicate Joined(c: char, d: char) {
    (IsWordChar(c) && IsWordChar(d)) || (IsOperatorChar(c) && IsOperatorChar(d))
  }

  function LexemeLen(s: string): (n: nat)
    requires s != ""
    ensures 1 <= n <= |s|
  {
    if |s| > 1 && Joined(s[0], s[1]) then 1 + LexemeLen(s[1..]) else 1
  }

  /** The lexemes of a text: longest words and operators, single other characters, no blanks. */
  function Lex(s: string): seq<string>
    decreases |s|
  {
    if s == "" then []
    else if s[0] == ' ' then Lex(s[1..])
    else [s[..LexemeLen(s)]] + Lex(s[LexemeLen(s)..])
  }

  datatype Reserved = KwAnd | KwOr | KwNot | KwIn | KwIs | KwNull | KwBetween

  datatype Token =
    | Name(s: string) | Keyword(k: Reserved) | Operator(op: CompareOp)
    | Question | LParen | RParen | Comma | Bad

  function UpperChar(c: char): char {
    if 'a' <= c <= 'z' then (c as int - 32) as char else c
  }

  function Upper(s: string): string {
    seq(|s|, i requires 0 <= i < |s| => UpperChar(s[i]))
  }

  /** Keywords are recognised in either case; every other word is a name. */
  function WordToken(s: string): Token {
    match Upper(s)
    case "AND" => Keyword(KwAnd)
    case "OR" => Keyword(KwOr)
    case "NOT" => Keyword(KwNot)
    case "IN" => Keyword(KwIn)
    case "IS" => Keyword(KwIs)
    case "NULL" => Keyword(KwNull)
    case "BETWEEN" => Keyword(KwBetween)
    case _ => Name(s)
  }

  function SymbolToken(s: string): Token {
    match s
    case "?" => Question
    case "(" => LParen
    case ")" => RParen
    case "," => Comma
    case "=" => Operator(Eq)
    case "!=" => Operator(NotEq)
    case ">" => Operator(Gt)
    case "<" => Operator(Lt)
    case _ => Bad
  }

  function Classify(lexeme: string): Token {
    if lexeme != "" && IsWordChar(lexeme[0]) then WordToken(lexeme) else SymbolToken(lexeme)
  }

  function Classified(lexemes: seq<string>): seq<Token> {
    seq(|lexemes|, i requires 0 <= i < |lexemes| => Classify(lexemes[i]))
  }

  // ---------------------------------------------------------------- the parse tree

  /** A predicate with its arguments bound. */
  datatype Atom =
    | CompareAtom(op: CompareOp, column: string, value: Value)
    | NullAtom(negated: bool, column: string)
    | InAtom(negated: bool, column: string, values: seq<Value>)
    | BetweenAtom(column: string, low: Value, high: Value)

  /** Boolean primary: a predicate or a parenthesised search condition. */
  datatype Factor = Leaf(atom: Atom) | Nested(search: Search)

  /** Boolean term: a conjunction of factors. */
  datatype Term = Term(factors: seq<Factor>)

  /** A search condition: a disjunction of boolean terms. */
  type Search = seq<Term>

  /** What a parse leaves: the value, the tokens and the arguments not yet read. */
  datatype Parse<+T> = Parse(value: T, rest: seq<Token>, args: seq<Value>)

  // ---------------------------------------------------------------- the parser

  predicate Starts(ts: seq<Token>, t: Token) {
    ts != [] && ts[0] == t
  }

  /** placeholder { "," placeholder } ")" */
  function ParseMarks(ts: seq<Token>, args: seq<Value>): (r: Option<Parse<seq<Value>>>)
    ensures r.Some? ==> |r.value.rest| < |ts|
    decreases |ts|
  {
    if !Starts(ts, Question) || args == [] then None
    else if Starts(ts[1..], RParen) then Some(Parse([args[0]], ts[2..], args[1..]))
    else if Starts(ts[1..], Comma) then
      var more := ParseMarks(ts[2..], args[1..]);
      if more.None? then None
      else Some(Parse([args[0]] + more.value.value, more.value.rest, more.value.args))
    else None
  }

  function ParseIn(negated: bool, column: string, ts: seq<Token>, args: seq<Value>): (r: Option<Parse<Atom>>)
    ensures r.Some? ==> |r.value.rest| < |ts|
  {
    if !Starts(ts, LParen) then None
    else
      var marks := ParseMarks(ts[1..], args);
      if marks.None? then None
      else Some(Parse(InAtom(negated, column, marks.value.value), marks.value.rest, marks.value.args))
  }

  function ParseAtom(ts: seq<Token>, args: seq<Value>): (r: Option<Parse<Atom>>)
    ensures r.Some? ==> |r.value.rest| < |ts|
  {
    if |ts| < 2 || !ts[0].Name? then None
    else
      var column := ts[0].s;
      if ts[1].Operator? then
        if Starts(ts[2..], Question) && args != [] then
          Some(Parse(CompareAtom(ts[1].op, column, args[0]), ts[3..], args[1..]))
        else None
      else if ts[1] == Keyword(KwIs) then
        if Starts(ts[2..], Keyword(KwNull)) then Some(Parse(NullAtom(false, column), ts[3..], args))
        else if Starts(ts[2..], Keyword(KwNot)) && Starts(ts[3..], Keyword(KwNull)) then
          Some(Parse(NullAtom(true, column), ts[4..], args))
        else None
      else if ts[1] == Keyword(KwIn) then ParseIn(false, column, ts[2..], args)
      else if ts[1] == Keyword(KwNot) && Starts(ts[2..], Keyword(KwIn)) then ParseIn(true, column, ts[3..], args)
      else if ts[1] == Keyword(KwBetween) then
        if |ts| >= 5 && ts[2] == Question && ts[3] == Keyword(KwAnd) && ts[4] == Question && |args| >= 2 then
          Some(Parse(BetweenAtom(column, args[0], args[1]), ts[5..], args[2..]))
        else None
      else None
  }

  function ParseFactor(ts: seq<Token>, args: seq<Value>): (r: Option<Parse<Factor>>)
    ensures r.Some? ==> |r.value.rest| < |ts|
    decreases |ts|, 0
  {
    if Starts(ts, LParen) then
      var inner := ParseSearch(ts[1..], args);
      if inner.Some? && Starts(inner.value.rest, RParen) then
        Some(Parse(Nested(inner.value.value), inner.value.rest[1..], inner.value.args))
      else None
    else
      var atom := ParseAtom(ts, args);
      if atom.None? then None
      else Some(Parse(Leaf(atom.value.value), atom.value.rest, atom.value.args))
  }

  function ParseTerm(ts: seq<Token>, args: seq<Value>): (r: Option<Parse<seq<Factor>>>)
    ensures r.Some? ==> |r.value.rest| < |ts|
    decreases |ts|, 1
  {
    var first := ParseFactor(ts, args);
    if first.None? then None
    else if Starts(first.value.rest, Keyword(KwAnd)) then
      var more := ParseTerm(first.value.rest[1..], first.value.args);
      if more.None? then None
      else Some(Parse([first.value.value] + more.value.value, more.value.rest, more.value.args))
    else Some(Parse([first.value.value], first.value.rest, first.value.args))
  }

  function ParseSearch(ts: seq<Token>, args: seq<Value>): (r: Option<Parse<Search>>)
    ensures r.Some? ==> |r.value.rest| < |ts|
    decreases |ts|, 2
  {
    var first := ParseTerm(ts, args);
    if first.None? then None
    else if Starts(first.value.rest, Keyword(KwOr)) then
      var more := ParseSearch(first.value.rest[1..], first.value.args);
      if more.None? then None
      else Some(Parse([Term(first.value.value)] + more.value.value, more.value.rest, more.value.args))
    else Some(Parse([Term(first.value.value)], first.value.rest, first.value.args))
  }

  /** Reads a whole clause: every token and every argument must be used. */
  function ReadWhere(text: string, args: seq<Value>): Option<Search> {
    var p := ParseSearch(Classified(Lex(text)), args);
    if p.Some? && p.value.rest == [] && p.value.args == [] then Some(p.value.value) else None
  }

  // ---------------------------------------------------------------- three-valued meaning

  datatype Truth = False | Unknown | True

  function Conj(a: Truth, b: Truth): Truth {
    if a.False? || b.False? then False else if a.True? && b.True? then True else Unknown
  }

  function Disj(a: Truth, b: Truth): Truth {
    if a.True? || b.True? then True else if a.False? && b.False? then False else Unknown
  }

  /** A row decides every predicate. */
  type Row = Atom -> Truth

  function EvalFactor(f: Factor, row: Row): Truth
    decreases f, 0
  {
    match f
    case Leaf(atom) => row(atom)
    case Nested(search) => EvalSearch(search, row)
  }

  function EvalTerm(fs: seq<Factor>, row: Row): Truth
    decreases fs, 0
  {
    if fs == [] then True else Conj(EvalFactor(fs[0], row), EvalTerm(fs[1..], row))
  }

  function EvalSearch(search: Search, row: Row): Truth
    decreases search, 0
  {
    if search == [] then False else Disj(EvalTerm(search[0].factors, row), EvalSearch(search[1..], row))
  }
}
