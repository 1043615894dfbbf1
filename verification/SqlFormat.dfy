/** The SQL text of a clause, as the encoder's format strings produce it. */
module SqlFormat {
  import opened Wql
  import opened TagSql
  import opened Placeholders

  /** The fixed texts a filter is made of. */
  datatype Words =
    | Head(negate: bool)
    | Value(op: CompareOp)
    | PrefixTest(op: CompareOp)
    | ValueIn
    | Comma
    | EndList
    | Plain(plaintext: bool)
    | False
    | OpenBracket
    | CloseBracket
    | JoinedBy(join: ConjunctionOp)

  function OpSql(op: CompareOp): string {
    match op
    case Eq => "="
    case Neq => "!="
    case Gt => ">"
    case Gte => ">="
    case Lt => "<"
    case Lte => "<="
    case Like => "LIKE"
  }

  function JoinSql(join: ConjunctionOp): string {
    if join == ConjAnd then " AND " else " OR "
  }

  function WordsText(w: Words): string {
    match w
    case Head(negate) =>
      "i.id " + (if negate then "NOT IN" else "IN") + " (SELECT item_id FROM " + "items_tags WHERE name = "
    case Value(op) => " AND value " + OpSql(op) + " "
    case PrefixTest(op) => " AND SUBSTR(value, " + "1, 12) " + OpSql(op) + " "
    case ValueIn => " AND value IN ("
    case Comma => ", "
    case EndList => ")"
    case Plain(plaintext) => " AND plaintext = " + (if plaintext then "1" else "0") + ")"
    case False => "0"
    case OpenBracket => "("
    case CloseBracket => ")"
    case JoinedBy(join) => JoinSql(join)
  }

  /** Proofs about the text hold for any wording; WordsText is the one in use. */
  type Wording = Words -> string

  /** The format strings of the three kinds of clause. */
  function FormatOp(negate: bool, op: CompareOp, prefix: string, plaintext: bool, at: nat, t: Wording): string {
    (t(Head(negate)) + ("$" + Decimal(at + 1))) + (t(Value(op)) + ("$" + Decimal(at + 2)))
    + prefix + t(Plain(plaintext))
  }

  function FormatPrefix(op: CompareOp, at: nat, t: Wording): string {
    t(PrefixTest(op)) + ("$" + Decimal(at + 3))
  }

  function FormatIn(negate: bool, list: string, plaintext: bool, t: Wording): string {
    (t(Head(negate)) + "$$") + t(ValueIn) + list + (t(EndList) + t(Plain(plaintext)))
  }

  function FormatExist(negate: bool, plaintext: bool, t: Wording): string {
    (t(Head(negate)) + "$$") + t(Plain(plaintext))
  }

  /** `$$` repeated and interspersed with ", ". */
  function Dollars(count: nat, t: Wording): string {
    if count == 0 then "" else if count == 1 then "$$" else "$$" + t(Comma) + Dollars(count - 1, t)
  }

  /** The prefix test of a comparison, if it has one. */
  function PrefixPart(op: CompareOp, prefixed: bool, at: nat, t: Wording): string {
    if prefixed && PrefixOp(op).Some? then FormatPrefix(PrefixOp(op).value, at, t) else ""
  }

  /** The string emitted for a clause. */
  function ClauseText(cl: Clause, t: Wording): string
    decreases cl, 1
  {
    match cl
    case OpClause(negate, op, prefixed, plaintext, at) =>
      FormatOp(negate, op, PrefixPart(op, prefixed, at, t), plaintext, at, t)
    case InClause(negate, plaintext, count, at) => FormatIn(negate, Dollars(count, t), plaintext, t)
    case ExistClause(negate, plaintext, at) => FormatExist(negate, plaintext, t)
    case Zero => t(False)
    case Conj(join, parts) =>
      if |parts| > 1 then t(OpenBracket) + JoinedText(parts, join, t) + t(CloseBracket) else JoinedText(parts, join, t)
  }

  function JoinedText(cls: seq<Clause>, join: ConjunctionOp, t: Wording): string
    decreases cls, 0
  {
    if cls == [] then ""
    else if |cls| == 1 then ClauseText(cls[0], t)
    else ClauseText(cls[0], t) + t(JoinedBy(join)) + JoinedText(cls[1..], join, t)
  }

  lemma JoinRegroups<T>(a: seq<T>, j: seq<T>, b: seq<T>, c: seq<T>)
    ensures a + j + (b + j + c) == a + j + b + j + c
  {
  }

  lemma {:induction false} JoinedTextSnoc(cls: seq<Clause>, last: Clause, join: ConjunctionOp, t: Wording)
    requires cls != []
    ensures JoinedText(cls + [last], join, t) == JoinedText(cls, join, t) + t(JoinedBy(join)) + ClauseText(last, t)
  {
    var all := cls + [last];
    assert all[1..] == cls[1..] + [last] && all[0] == cls[0];
    if |cls| == 1 {
      assert all[1..] == [last];
    } else {
      JoinedTextSnoc(cls[1..], last, join, t);
      JoinRegroups(ClauseText(cls[0], t), t(JoinedBy(join)), JoinedText(cls[1..], join, t), ClauseText(last, t));
    }
  }
}
