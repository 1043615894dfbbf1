/** The characters of a clause, split at its placeholders. */
module SqlPieces {
  import opened Wql
  import opened TagSql
  import opened Placeholders
  import opened SqlText
  import opened SqlFormat

  /** Fixed text, a numbered placeholder `$n`, or the anonymous placeholder `$$`. */
  datatype Piece = Lit(words: Words) | Num(n: nat) | Next

  function PieceText(p: Piece, t: Wording): string {
    match p
    case Lit(words) => t(words)
    case Num(n) => "$" + Decimal(n)
    case Next => "$$"
  }

  function Text(ps: seq<Piece>, t: Wording): string {
    if ps == [] then "" else PieceText(ps[0], t) + Text(ps[1..], t)
  }

  lemma {:induction false} TextAppend(a: seq<Piece>, b: seq<Piece>, t: Wording)
    ensures Text(a + b, t) == Text(a, t) + Text(b, t)
  {
    if a == [] {
      assert a + b == b;
    } else {
      assert (a + b)[1..] == a[1..] + b;
      TextAppend(a[1..], b, t);
    }
  }

  // ----- the text of each clause -----

  /** Fixed text followed by one placeholder. */
  function Slot(words: Words, hole: Piece): seq<Piece> {
    [Lit(words), hole]
  }

  /** `$$, $$, ...` */
  function HoleList(count: nat): seq<Piece> {
    if count == 0 then []
    else if count == 1 then [Next]
    else [Next, Lit(Comma)] + HoleList(count - 1)
  }

  function PrefixSlot(op: CompareOp, prefixed: bool, at: nat): seq<Piece> {
    if prefixed && PrefixOp(op).Some? then Slot(PrefixTest(PrefixOp(op).value), Num(at + 3)) else []
  }

  /** Comparisons number their placeholders; In and Exist leave the numbering to the scanner. */
  function LeafPieces(cl: Clause): seq<Piece> {
    match cl
    case OpClause(negate, op, prefixed, plaintext, at) =>
      Slot(Head(negate), Num(at + 1)) + (Slot(Value(op), Num(at + 2)) +
      (PrefixSlot(op, prefixed, at) + [Lit(Plain(plaintext))]))
    case InClause(negate, plaintext, count, at) =>
      Slot(Head(negate), Next) + ([Lit(ValueIn)] + (HoleList(count) + [Lit(EndList), Lit(Plain(plaintext))]))
    case ExistClause(negate, plaintext, at) =>
      Slot(Head(negate), Next) + [Lit(Plain(plaintext))]
    case Zero => [Lit(False)]
    case Conj(_, _) => []
  }

  function TokenPieces(t: Token): seq<Piece> {
    match t
    case Open => [Lit(OpenBracket)]
    case Close => [Lit(CloseBracket)]
    case AndWord => [Lit(JoinedBy(ConjAnd))]
    case OrWord => [Lit(JoinedBy(ConjOr))]
    case Atom(leaf) => LeafPieces(leaf)
  }

  function Pieces(ts: seq<Token>): seq<Piece> {
    if ts == [] then [] else TokenPieces(ts[0]) + Pieces(ts[1..])
  }

  lemma {:induction false} PiecesAppend(a: seq<Token>, b: seq<Token>)
    ensures Pieces(a + b) == Pieces(a) + Pieces(b)
  {
    if a == [] {
      assert a + b == b;
    } else {
      assert (a + b)[1..] == a[1..] + b;
      PiecesAppend(a[1..], b);
    }
  }

  lemma TextOne(p: Piece, t: Wording)
    ensures Text([p], t) == PieceText(p, t)
  {
    assert [p][1..] == [];
  }

  lemma TextSlot(words: Words, hole: Piece, t: Wording)
    ensures Text(Slot(words, hole), t) == t(words) + PieceText(hole, t)
  {
    TextOne(Lit(words), t);
    TextOne(hole, t);
    TextAppend([Lit(words)], [hole], t);
    assert Slot(words, hole) == [Lit(words)] + [hole];
  }

  lemma OpText(cl: Clause, t: Wording)
    requires cl.OpClause?
    ensures ClauseText(cl, t) == Text(LeafPieces(cl), t)
  {
    var head, value := Slot(Head(cl.negate), Num(cl.at + 1)), Slot(Value(cl.op), Num(cl.at + 2));
    var pfx, last := PrefixSlot(cl.op, cl.prefixed, cl.at), [Lit(Plain(cl.plaintext))];
    TextSlot(PrefixTest(PrefixOp(cl.op).GetOr(cl.op)), Num(cl.at + 3), t);
    TextSlot(Head(cl.negate), Num(cl.at + 1), t);
    TextSlot(Value(cl.op), Num(cl.at + 2), t);
    TextOne(Lit(Plain(cl.plaintext)), t);
    TextAppend(pfx, last, t);
    TextAppend(value, pfx + last, t);
    TextAppend(head, value + (pfx + last), t);
    Regroup(Text(head, t), Text(value, t), Text(pfx, t), Text(last, t));
  }

  lemma {:induction false} HoleListText(count: nat, t: Wording)
    ensures Text(HoleList(count), t) == Dollars(count, t)
  {
    if count == 1 {
      TextOne(Next, t);
    } else if count > 1 {
      HoleListText(count - 1, t);
      TextOne(Next, t);
      TextOne(Lit(Comma), t);
      TextAppend([Next], [Lit(Comma)], t);
      assert [Next] + [Lit(Comma)] == [Next, Lit(Comma)];
      TextAppend([Next, Lit(Comma)], HoleList(count - 1), t);
    }
  }

  lemma InText(cl: Clause, t: Wording)
    requires cl.InClause?
    ensures ClauseText(cl, t) == Text(LeafPieces(cl), t)
  {
    var head, list, last := Slot(Head(cl.negate), Next), HoleList(cl.count), [Lit(EndList), Lit(Plain(cl.plaintext))];
    TextSlot(Head(cl.negate), Next, t);
    TextOne(Lit(ValueIn), t);
    TextSlot(EndList, Lit(Plain(cl.plaintext)), t);
    HoleListText(cl.count, t);
    TextAppend(list, last, t);
    TextAppend([Lit(ValueIn)], list + last, t);
    TextAppend(head, [Lit(ValueIn)] + (list + last), t);
    Regroup(Text(head, t), t(ValueIn), Dollars(cl.count, t), Text(last, t));
  }

  lemma ExistText(cl: Clause, t: Wording)
    requires cl.ExistClause?
    ensures ClauseText(cl, t) == Text(LeafPieces(cl), t)
  {
    TextSlot(Head(cl.negate), Next, t);
    TextOne(Lit(Plain(cl.plaintext)), t);
    TextAppend(Slot(Head(cl.negate), Next), [Lit(Plain(cl.plaintext))], t);
  }

  lemma OneTokenText(token: Token, t: Wording)
    ensures Text(Pieces([token]), t) == Text(TokenPieces(token), t)
  {
    assert [token][1..] == [];
    assert Pieces([token]) == TokenPieces(token) + Pieces([token][1..]);
    assert TokenPieces(token) + [] == TokenPieces(token);
  }

  /** The emitted string is the text of the clause's tokens. */
  lemma {:induction false} ClauseTextIsTokens(cl: Clause, t: Wording)
    ensures ClauseText(cl, t) == Text(Pieces(Tokens(cl)), t)
    decreases cl, 1
  {
    match cl
    case OpClause(_, _, _, _, _) => OpText(cl, t); OneTokenText(Atom(cl), t);
    case InClause(_, _, _, _) => InText(cl, t); OneTokenText(Atom(cl), t);
    case ExistClause(_, _, _) => ExistText(cl, t); OneTokenText(Atom(cl), t);
    case Zero => TextOne(Lit(False), t); OneTokenText(Atom(cl), t);
    case Conj(join, parts) =>
      JoinedTextIsTokens(parts, join, t);
      if |parts| > 1 {
        BracketedText(JoinTokens(parts, join), t);
      }
  }

  lemma BracketedText(body: seq<Token>, t: Wording)
    ensures Text(Pieces([Open] + body + [Close]), t) == t(OpenBracket) + Text(Pieces(body), t) + t(CloseBracket)
  {
    OneTokenText(Open, t);
    OneTokenText(Close, t);
    TextOne(Lit(OpenBracket), t);
    TextOne(Lit(CloseBracket), t);
    PiecesAppend([Open], body);
    PiecesAppend([Open] + body, [Close]);
    TextAppend(Pieces([Open]), Pieces(body), t);
    TextAppend(Pieces([Open] + body), Pieces([Close]), t);
  }

  lemma InfixText(left: seq<Token>, join: ConjunctionOp, right: seq<Token>, t: Wording)
    ensures Text(Pieces(left + [Word(join)] + right), t)
         == Text(Pieces(left), t) + t(JoinedBy(join)) + Text(Pieces(right), t)
  {
    OneTokenText(Word(join), t);
    TextOne(Lit(JoinedBy(join)), t);
    PiecesAppend(left, [Word(join)]);
    PiecesAppend(left + [Word(join)], right);
    TextAppend(Pieces(left), Pieces([Word(join)]), t);
    TextAppend(Pieces(left + [Word(join)]), Pieces(right), t);
  }

  lemma {:induction false} JoinedTextIsTokens(cls: seq<Clause>, join: ConjunctionOp, t: Wording)
    ensures JoinedText(cls, join, t) == Text(Pieces(JoinTokens(cls, join)), t)
    decreases cls, 0
  {
    if cls != [] {
      ClauseTextIsTokens(cls[0], t);
      if |cls| > 1 {
        JoinedTextIsTokens(cls[1..], join, t);
        InfixText(Tokens(cls[0]), join, JoinTokens(cls[1..], join), t);
      }
    }
  }
}
