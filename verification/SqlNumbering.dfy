/** The numbers that placed tokens get when their text is rewritten. */
module SqlNumbering {
  import opened TagSql
  import opened Placeholders
  import opened SqlText
  import opened SqlFormat
  import opened SqlPieces
  import opened SqlScan
  import opened SqlPlaces

  function PieceHoles(ps: seq<Piece>): nat {
    if ps == [] then 0 else (if ps[0].Lit? then 0 else 1) + PieceHoles(ps[1..])
  }

  /** A numbered placeholder that is the j-th of all carries number j. */
  predicate Aligned(ps: seq<Piece>, k: nat) {
    ps == [] ||
    (if ps[0].Lit? then Aligned(ps[1..], k) else (ps[0].Num? ==> ps[0].n == k + 1) && Aligned(ps[1..], k + 1))
  }

  lemma {:induction false} AlignedAppend(a: seq<Piece>, b: seq<Piece>, k: nat)
    requires Aligned(a, k) && Aligned(b, k + PieceHoles(a))
    ensures Aligned(a + b, k) && PieceHoles(a + b) == PieceHoles(a) + PieceHoles(b)
  {
    if a == [] {
      assert a + b == b;
    } else {
      assert (a + b)[1..] == a[1..] + b;
      AlignedAppend(a[1..], b, if a[0].Lit? then k else k + 1);
    }
  }

  lemma LitAligned(words: Words, k: nat)
    ensures Aligned([Lit(words)], k) && PieceHoles([Lit(words)]) == 0
  {
    assert [Lit(words)][1..] == [];
  }

  lemma HoleAligned(hole: Piece, k: nat)
    requires hole == Num(k + 1) || hole == Next
    ensures Aligned([hole], k) && PieceHoles([hole]) == 1
  {
    assert [hole][1..] == [];
    assert PieceHoles([hole]) == 1 + PieceHoles([hole][1..]);
  }

  lemma SlotAligned(words: Words, hole: Piece, k: nat)
    requires hole == Num(k + 1) || hole == Next
    ensures Aligned(Slot(words, hole), k) && PieceHoles(Slot(words, hole)) == 1
  {
    LitAligned(words, k);
    HoleAligned(hole, k);
    AlignedAppend([Lit(words)], [hole], k);
    assert Slot(words, hole) == [Lit(words)] + [hole];
  }

  lemma {:induction false} HoleListAligned(count: nat, k: nat)
    ensures Aligned(HoleList(count), k) && PieceHoles(HoleList(count)) == count
  {
    if count == 1 {
      assert [Next][1..] == [];
    } else if count > 1 {
      HoleListAligned(count - 1, k + 1);
      var pair := [Next, Lit(Comma)];
      assert pair[1..] == [Lit(Comma)];
      LitAligned(Comma, k + 1);
      assert Aligned(pair, k) && PieceHoles(pair) == 1;
      AlignedAppend(pair, HoleList(count - 1), k);
    }
  }

  lemma OpAligned(cl: Clause)
    requires cl.OpClause?
    ensures Aligned(LeafPieces(cl), cl.at) && PieceHoles(LeafPieces(cl)) == LeafHoles(cl)
  {
    var head, value := Slot(Head(cl.negate), Num(cl.at + 1)), Slot(Value(cl.op), Num(cl.at + 2));
    var pfx, last := PrefixSlot(cl.op, cl.prefixed, cl.at), [Lit(Plain(cl.plaintext))];
    LitAligned(Plain(cl.plaintext), cl.at + 2 + PieceHoles(pfx));
    SlotAligned(PrefixTest(PrefixOp(cl.op).GetOr(cl.op)), Num(cl.at + 3), cl.at + 2);
    AlignedAppend(pfx, last, cl.at + 2);
    SlotAligned(Value(cl.op), Num(cl.at + 2), cl.at + 1);
    AlignedAppend(value, pfx + last, cl.at + 1);
    SlotAligned(Head(cl.negate), Num(cl.at + 1), cl.at);
    AlignedAppend(head, value + (pfx + last), cl.at);
  }

  lemma InAligned(cl: Clause)
    requires cl.InClause?
    ensures Aligned(LeafPieces(cl), cl.at) && PieceHoles(LeafPieces(cl)) == LeafHoles(cl)
  {
    var end := cl.at + 1 + cl.count;
    var head, list := Slot(Head(cl.negate), Next), HoleList(cl.count);
    var last := [Lit(EndList), Lit(Plain(cl.plaintext))];
    LitAligned(EndList, end);
    LitAligned(Plain(cl.plaintext), end);
    AlignedAppend([Lit(EndList)], [Lit(Plain(cl.plaintext))], end);
    assert [Lit(EndList)] + [Lit(Plain(cl.plaintext))] == last;
    HoleListAligned(cl.count, cl.at + 1);
    AlignedAppend(list, last, cl.at + 1);
    LitAligned(ValueIn, cl.at + 1);
    AlignedAppend([Lit(ValueIn)], list + last, cl.at + 1);
    SlotAligned(Head(cl.negate), Next, cl.at);
    AlignedAppend(head, [Lit(ValueIn)] + (list + last), cl.at);
  }

  lemma ExistAligned(cl: Clause)
    requires cl.ExistClause?
    ensures Aligned(LeafPieces(cl), cl.at) && PieceHoles(LeafPieces(cl)) == LeafHoles(cl)
  {
    LitAligned(Plain(cl.plaintext), cl.at + 1);
    SlotAligned(Head(cl.negate), Next, cl.at);
    AlignedAppend(Slot(Head(cl.negate), Next), [Lit(Plain(cl.plaintext))], cl.at);
  }

  lemma TokenAligned(t: Token, k: nat)
    requires TokenPlaced(t, k)
    ensures Aligned(TokenPieces(t), k) && PieceHoles(TokenPieces(t)) == TokenHoles(t)
  {
    if t.Atom? && t.leaf.OpClause? {
      OpAligned(t.leaf);
    } else if t.Atom? && t.leaf.InClause? {
      InAligned(t.leaf);
    } else if t.Atom? && t.leaf.ExistClause? {
      ExistAligned(t.leaf);
    } else if TokenPieces(t) != [] {
      LitAligned(TokenPieces(t)[0].words, k);
      assert TokenPieces(t) == [Lit(TokenPieces(t)[0].words)];
    }
  }

  lemma {:induction false} PlacedAligned(ts: seq<Token>, k: nat)
    requires Placed(ts, k)
    ensures Aligned(Pieces(ts), k) && PieceHoles(Pieces(ts)) == Holes(ts)
  {
    if ts != [] {
      PlacedAligned(ts[1..], k + TokenHoles(ts[0]));
      TokenAligned(ts[0], k);
      AlignedAppend(TokenPieces(ts[0]), Pieces(ts[1..]), k);
    }
  }

  /** The pieces with their placeholders, of either kind, printed as index, index + 1, ... from left to right. */
  function UniformText(ps: seq<Piece>, t: Wording, index: int, placeholder: int -> string): string {
    if ps == [] then ""
    else
      (if ps[0].Lit? then t(ps[0].words) else placeholder(index)) +
      UniformText(ps[1..], t, IndexAfter(ps[0], index), placeholder)
  }

  lemma {:induction false} UniformTextAppend(a: seq<Piece>, b: seq<Piece>, t: Wording, index: int,
                                             placeholder: int -> string)
    ensures UniformText(a + b, t, index, placeholder)
         == UniformText(a, t, index, placeholder) + UniformText(b, t, index + PieceHoles(a), placeholder)
  {
    if a == [] {
      assert a + b == b;
    } else {
      assert (a + b)[1..] == a[1..] + b;
      UniformTextAppend(a[1..], b, t, IndexAfter(a[0], index), placeholder);
    }
  }

  lemma {:induction false} AlignedNumbersUniformly(ps: seq<Piece>, k: nat, t: Wording, start: int,
                                                   placeholder: int -> string)
    requires Aligned(ps, k)
    ensures NumberedText(ps, t, start, start + k, placeholder) == UniformText(ps, t, start + k, placeholder)
  {
    if ps != [] {
      AlignedNumbersUniformly(ps[1..], if ps[0].Lit? then k else k + 1, t, start, placeholder);
    }
  }

  lemma AlignedTextRenumbers(ps: seq<Piece>, k: nat, t: Wording, start: int, placeholder: int -> string)
    requires SafeWording(t) && Safe(ps) && Aligned(ps, k)
    ensures Rewrite(Text(ps, t), start, start + k, placeholder) == UniformText(ps, t, start + k, placeholder)
  {
    RewriteText(ps, t, start, start + k, placeholder);
    AlignedNumbersUniformly(ps, k, t, start, placeholder);
  }

  lemma PlacedTextRenumbers(ts: seq<Token>, k: nat, t: Wording, start: int, placeholder: int -> string)
    requires SafeWording(t) && Placed(ts, k)
    ensures Rewrite(Text(Pieces(ts), t), start, start + k, placeholder)
         == UniformText(Pieces(ts), t, start + k, placeholder)
  {
    PiecesAreSafe(ts);
    PlacedAligned(ts, k);
    AlignedTextRenumbers(Pieces(ts), k, t, start, placeholder);
  }

  /**
   * Placeholder alignment. For every query, sign, wording, starting number and placeholder style,
   * scanning the emitted text numbers its placeholders one after the other; there is one for each
   * argument, and each clause's own placeholders stand where its arguments do.
   */
  lemma {:induction false} PlaceholdersNameArguments(c: Codec, q: TagQuery, negate: bool, at: nat, t: Wording,
                                                     start: int, placeholder: int -> string)
    requires SafeWording(t) && Compile(c, q, negate, at).clause.Some?
    ensures var r := Compile(c, q, negate, at);
      && Rewrite(ClauseText(r.clause.value, t), start, start + at, placeholder)
         == UniformText(Pieces(Tokens(r.clause.value)), t, start + at, placeholder)
      && PieceHoles(Pieces(Tokens(r.clause.value))) == |r.args|
      && Placed(Tokens(r.clause.value), at)
  {
    var ts := Tokens(Compile(c, q, negate, at).clause.value);
    CompilePlaces(c, q, negate, at);
    PlacedAligned(ts, at);
    ClauseTextIsTokens(Compile(c, q, negate, at).clause.value, t);
    PlacedTextRenumbers(ts, at, t, start, placeholder);
  }
}
