/** What the placeholder scanner makes of emitted text: it sees exactly the intended placeholders. */
module SqlScan {
  import opened Wql
  import opened TagSql
  import opened Placeholders
  import opened SqlText
  import opened SqlFormat
  import opened SqlPieces

  /** Texts that do not start with a digit. */
  predicate StartsSafely(w: Words) {
    w != False
  }

  lemma HeadIsSafe(negate: bool)
    ensures '$' !in WordsText(Head(negate)) && WordsText(Head(negate))[0] == 'i'
  {
    assert '$' !in " (SELECT item_id FROM ";
    assert '$' !in "items_tags WHERE name = ";
  }

  lemma TestIsSafe(op: CompareOp)
    ensures '$' !in WordsText(Value(op)) && WordsText(Value(op))[0] == ' '
    ensures '$' !in WordsText(PrefixTest(op)) && WordsText(PrefixTest(op))[0] == ' '
  {
    assert '$' !in OpSql(op);
    assert '$' !in " AND SUBSTR(value, ";
  }

  lemma PlainIsSafe(plaintext: bool)
    ensures '$' !in WordsText(Plain(plaintext)) && WordsText(Plain(plaintext))[0] == ' '
  {
    assert '$' !in " AND plaintext = ";
  }

  lemma WordsAreSafe(w: Words)
    ensures '$' !in WordsText(w)
    ensures StartsSafely(w) ==> WordsText(w) != "" && !IsDigit(WordsText(w)[0])
  {
    match w
    case Head(negate) => HeadIsSafe(negate);
    case Value(op) => TestIsSafe(op);
    case PrefixTest(op) => TestIsSafe(op);
    case Plain(plaintext) => PlainIsSafe(plaintext);
    case _ =>
  }

  /** No digit follows a numbered placeholder. */
  ghost predicate Safe(ps: seq<Piece>) {
    forall i | 0 <= i < |ps| - 1 && ps[i].Num? && ps[i + 1].Lit? :: StartsSafely(ps[i + 1].words)
  }

  /** Safe on its own and safe in front of anything safe. */
  ghost predicate SafeBlock(ps: seq<Piece>) {
    Safe(ps) && (ps != [] ==> !ps[|ps| - 1].Num?)
  }

  lemma {:induction false} HoleListIsSafe(count: nat)
    ensures SafeBlock(HoleList(count))
    ensures forall i | 0 <= i < |HoleList(count)| :: !HoleList(count)[i].Num?
  {
    if count > 1 {
      HoleListIsSafe(count - 1);
    }
  }

  lemma LeafIsSafe(cl: Clause)
    ensures SafeBlock(LeafPieces(cl))
  {
    if cl.InClause? {
      HoleListIsSafe(cl.count);
    }
  }

  lemma {:induction false} PiecesAreSafe(ts: seq<Token>)
    ensures SafeBlock(Pieces(ts))
  {
    if ts != [] {
      if ts[0].Atom? { LeafIsSafe(ts[0].leaf); }
      PiecesAreSafe(ts[1..]);
      assert SafeBlock(TokenPieces(ts[0]));
    }
  }

  ghost predicate SafeWording(t: Wording) {
    forall w :: '$' !in t(w) && (StartsSafely(w) ==> t(w) != "" && !IsDigit(t(w)[0]))
  }

  lemma WordsTextIsSafe()
    ensures SafeWording(WordsText)
  {
    forall w ensures '$' !in WordsText(w) && (StartsSafely(w) ==> WordsText(w) != "" && !IsDigit(WordsText(w)[0])) {
      WordsAreSafe(w);
    }
  }

  /** A piece with its placeholder printed: `$n` counted from start, `$$` by running index. */
  function NumberedPiece(p: Piece, t: Wording, start: int, index: int, placeholder: int -> string): string {
    match p
    case Lit(words) => t(words)
    case Num(n) => placeholder(n + start - 1)
    case Next => placeholder(index)
  }

  function IndexAfter(p: Piece, index: int): int {
    if p.Lit? then index else index + 1
  }

  function NumberedText(ps: seq<Piece>, t: Wording, start: int, index: int, placeholder: int -> string): string {
    if ps == [] then ""
    else
      NumberedPiece(ps[0], t, start, index, placeholder) +
      NumberedText(ps[1..], t, start, IndexAfter(ps[0], index), placeholder)
  }

  lemma RewriteLit(words: Words, rest: string, t: Wording, start: int, index: int, placeholder: int -> string)
    requires '$' !in t(words)
    ensures Rewrite(PieceText(Lit(words), t) + rest, start, index, placeholder)
         == NumberedPiece(Lit(words), t, start, index, placeholder) + Rewrite(rest, start, index, placeholder)
  {
    RewriteSkips(t(words), rest, start, index, placeholder);
  }

  lemma RewriteNum(n: nat, rest: string, t: Wording, start: int, index: int, placeholder: int -> string)
    requires rest == [] || !IsDigit(rest[0])
    ensures Rewrite(PieceText(Num(n), t) + rest, start, index, placeholder)
         == NumberedPiece(Num(n), t, start, index, placeholder) + Rewrite(rest, start, index + 1, placeholder)
  {
    DecimalRoundTrip(n);
    RewriteDollar(PieceText(Num(n), t), Decimal(n), rest, start, index, placeholder);
  }

  lemma RewriteNext(rest: string, t: Wording, start: int, index: int, placeholder: int -> string)
    ensures Rewrite(PieceText(Next, t) + rest, start, index, placeholder)
         == NumberedPiece(Next, t, start, index, placeholder) + Rewrite(rest, start, index + 1, placeholder)
  {
    assert (PieceText(Next, t) + rest)[2..] == rest;
  }

  /** The scanner handles one piece, then goes on with the rest. */
  lemma {:induction false} RewritePiece(p: Piece, rest: string, t: Wording, start: int, index: int,
                                        placeholder: int -> string)
    requires SafeWording(t)
    requires p.Num? ==> rest == [] || !IsDigit(rest[0])
    ensures Rewrite(PieceText(p, t) + rest, start, index, placeholder)
         == NumberedPiece(p, t, start, index, placeholder) + Rewrite(rest, start, IndexAfter(p, index), placeholder)
  {
    match p
    case Lit(words) => RewriteLit(words, rest, t, start, index, placeholder);
    case Num(n) => RewriteNum(n, rest, t, start, index, placeholder);
    case Next => RewriteNext(rest, t, start, index, placeholder);
  }

  lemma NoDigitFollows(ps: seq<Piece>, t: Wording)
    requires SafeWording(t) && Safe(ps) && ps != []
    ensures ps[0].Num? ==> var rest := Text(ps[1..], t); rest == [] || !IsDigit(rest[0])
  {
    if |ps| > 1 {
      assert ps[1..][0] == ps[1];
      assert Text(ps[1..], t) == PieceText(ps[1], t) + Text(ps[1..][1..], t);
    }
  }

  /** Printing an index in decimal and scanning the characters again finds the same placeholders. */
  lemma {:induction false} RewriteText(ps: seq<Piece>, t: Wording, start: int, index: int, placeholder: int -> string)
    requires SafeWording(t) && Safe(ps)
    ensures Rewrite(Text(ps, t), start, index, placeholder) == NumberedText(ps, t, start, index, placeholder)
  {
    if ps != [] {
      SafeTail(ps);
      RewriteText(ps[1..], t, start, IndexAfter(ps[0], index), placeholder);
      NoDigitFollows(ps, t);
      RewritePiece(ps[0], Text(ps[1..], t), t, start, index, placeholder);
    }
  }

  lemma SafeTail(ps: seq<Piece>)
    requires Safe(ps) && ps != []
    ensures Safe(ps[1..])
  {
  }
}
