/** The condition trees of lib/sqlutil and the text and arguments each renders to. */
module SqlCondition {

  /** A bound argument (`interface{}` in the source). */
  datatype Value = Null | Integer(n: int) | Text(s: string) | Real(r: real)

  /** The connective in front of a condition; any value other than OR renders as AND. */
  type Type = int
  const AND: Type := 0
  const OR: Type := 1

  function TypeString(t: Type): string {
    if t == OR then " OR " else " AND "
  }

  datatype CompareOp = Eq | NotEq | Gt | Lt

  function OpString(op: CompareOp): string {
    match op
    case Eq => "="
    case NotEq => "!="
    case Gt => ">"
    case Lt => "<"
  }

  datatype Condition =
    | Compare(prefix: Type, op: CompareOp, expr: string, value: Value)
    | NullTest(prefix: Type, negated: bool, expr: string)
    | InList(prefix: Type, negated: bool, expr: string, values: seq<Value>)
    | Between(prefix: Type, expr: string, low: Value, high: Value)
    | Parentheses(prefix: Type, conditions: seq<Condition>)

  // ---------------------------------------------------------------- rendering, as functions

  /** strings.TrimPrefix */
  function TrimPrefix(s: string, p: string): string {
    if p <= s then s[|p|..] else s
  }

  function TrimConnective(w: string): string {
    TrimPrefix(TrimPrefix(w, TypeString(AND)), TypeString(OR))
  }

  /** strings.Join */
  function Join(parts: seq<string>, sep: string): string {
    if |parts| == 0 then ""
    else if |parts| == 1 then parts[0]
    else parts[0] + sep + Join(parts[1..], sep)
  }

  function Placeholders(n: nat): seq<string> {
    seq(n, i => "?")
  }

  function NullSuffix(negated: bool): string {
    if negated then " IS NOT NULL" else " IS NULL"
  }

  function InInfix(negated: bool): string {
    if negated then " NOT IN (" else " IN ("
  }

  /** The text of a condition without its leading connective. */
  function BodyText(c: Condition): string
    decreases c, 0
  {
    match c
    case Compare(_, op, expr, _) => expr + " " + OpString(op) + " ?"
    case NullTest(_, negated, expr) => expr + NullSuffix(negated)
    case InList(_, negated, expr, values) => expr + InInfix(negated) + Join(Placeholders(|values|), ",") + ")"
    case Between(_, expr, _, _) => expr + " BETWEEN ? AND ?"
    case Parentheses(_, conditions) => "(" + TrimConnective(ListText(conditions)) + ")"
  }

  function ConditionText(c: Condition): string
    decreases c, 1
  {
    TypeString(c.prefix) + BodyText(c)
  }

  function ListText(conditions: seq<Condition>): string
    decreases conditions, 0
  {
    if conditions == [] then "" else ConditionText(conditions[0]) + ListText(conditions[1..])
  }

  function ConditionArgs(c: Condition): seq<Value>
    decreases c, 1
  {
    match c
    case Compare(_, _, _, value) => [value]
    case NullTest(_, _, _) => []
    case InList(_, _, _, values) => values
    case Between(_, _, low, high) => [low, high]
    case Parentheses(_, conditions) => ListArgs(conditions)
  }

  function ListArgs(conditions: seq<Condition>): seq<Value>
    decreases conditions, 0
  {
    if conditions == [] then [] else ConditionArgs(conditions[0]) + ListArgs(conditions[1..])
  }

  lemma {:induction false} ListSnoc(conditions: seq<Condition>, c: Condition)
    ensures ListText(conditions + [c]) == ListText(conditions) + ConditionText(c)
    ensures ListArgs(conditions + [c]) == ListArgs(conditions) + ConditionArgs(c)
  {
    if conditions == [] {
      assert [c][1..] == [];
    } else {
      assert (conditions + [c])[1..] == conditions[1..] + [c];
      ListSnoc(conditions[1..], c);
    }
  }

  // ---------------------------------------------------------------- rendering, as the source runs it

  /** The placeholder loop of WithIn and WithNotIn. */
  method QuestionMarks(n: nat) returns (args: seq<string>)
    ensures args == Placeholders(n)
  {
    args := [];
    for i := 0 to n
      invariant args == Placeholders(i)
    {
      args := args + ["?"];
    }
  }

  /** Condition.SQL for every kind of condition. */
  method SQL(c: Condition) returns (text: string, args: seq<Value>)
    ensures text == ConditionText(c)
    ensures args == ConditionArgs(c)
    decreases c, 1
  {
    match c
    case Compare(prefix, op, expr, value) =>
      text, args := TypeString(prefix) + (expr + " " + OpString(op) + " ?"), [value];
    case NullTest(prefix, negated, expr) =>
      text, args := TypeString(prefix) + (expr + NullSuffix(negated)), [];
    case InList(prefix, negated, expr, values) =>
      var marks := QuestionMarks(|values|);
      text, args := TypeString(prefix) + (expr + InInfix(negated) + Join(marks, ",") + ")"), values;
    case Between(prefix, expr, low, high) =>
      text, args := TypeString(prefix) + (expr + " BETWEEN ? AND ?"), [low, high];
    case Parentheses(prefix, conditions) =>
      var w;
      w, args := ConcatSQL(conditions);
      w := TrimPrefix(w, TypeString(AND));
      w := TrimPrefix(w, TypeString(OR));
      text := TypeString(prefix) + ("(" + w + ")");
  }

  /** The loop shared by parentheses, SELECT, UPDATE and DELETE. */
  method ConcatSQL(conditions: seq<Condition>) returns (text: string, args: seq<Value>)
    ensures text == ListText(conditions)
    ensures args == ListArgs(conditions)
    decreases conditions, 0
  {
    text, args := "", [];
    for i := 0 to |conditions|
      invariant text == ListText(conditions[..i])
      invariant args == ListArgs(conditions[..i])
    {
      var t, a := SQL(conditions[i]);
      text, args := text + t, args + a;
      assert conditions[..i + 1] == conditions[..i] + [conditions[i]];
      ListSnoc(conditions[..i], conditions[i]);
    }
    assert conditions[..|conditions|] == conditions;
  }

  /** SetPrefix: the same condition under another connective. */
  function SetPrefix(c: Condition, prefix: Type): (r: Condition)
    ensures ConditionText(r) == TypeString(prefix) + BodyText(c)
    ensures ConditionArgs(r) == ConditionArgs(c)
  {
    c.(prefix := prefix)
  }
}
