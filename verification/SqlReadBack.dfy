/** The final text of a compiled clause reads back as the clause's own tokens. */
module SqlReadBack {
  import opened Prelude
  import opened Wql
  import opened TagSql
  import opened Placeholders
  import opened SqlText
  import opened SqlFormat
  import opened SqlPieces
  import opened SqlScan
  import opened SqlPlaces
  import opened SqlNumbering
  import opened QueryCondition
  import opened SqlReader
  import opened SqlSpelling

  // ----- what a clause without parts asks -----

  function Describe(cl: Clause): Check {
    match cl
    case OpClause(negate, op, prefixed, plaintext, at) =>
      InTags(negate, at, Compared(op, at + 1, DescribePrefix(op, prefixed, at)), plaintext)
    case InClause(negate, plaintext, count, at) => InTags(negate, at, Among(at + 1, count), plaintext)
    case ExistClause(negate, plaintext, at) => InTags(negate, at, AnyValue, plaintext)
    case Zero => Never
    case Conj(_, _) => Never
  }

  function DescribePrefix(op: CompareOp, prefixed: bool, at: nat): Option<PrefixCheck> {
    if prefixed && PrefixOp(op).Some? then Some(PrefixCheck(PrefixOp(op).value, at + 2)) else None
  }

  lemma DescribedRow(cl: Clause, args: seq<Bytes>, r: Row, like: LikeFn)
    requires cl.OpClause? || cl.InClause? || cl.ExistClause?
    ensures InSubselect(cl, args, r, like) == RowPasses(Describe(cl), args, r, like)
  {
  }

  /** Read as SQL, a test means what the clause means. */
  lemma DescribedHolds(cl: Clause, args: seq<Bytes>, table: set<Row>, item: int, like: LikeFn)
    requires !cl.Conj?
    ensures CheckHolds(Describe(cl), args, table, item, like) == Selects(cl, args, table, item, like)
  {
    if !cl.Zero? {
      forall r ensures InSubselect(cl, args, r, like) == RowPasses(Describe(cl), args, r, like) {
        DescribedRow(cl, args, r, like);
      }
    }
  }

  lemma DescribedEvaluates(args: seq<Bytes>, table: set<Row>, item: int, like: LikeFn)
    ensures Evaluates(Through(CheckTruth(args, table, item, like), Describe), args, table, item, like)
  {
    var v := Through(CheckTruth(args, table, item, like), Describe);
    forall leaf: Clause | !leaf.Conj? ensures v(leaf) == Selects(leaf, args, table, item, like) {
      DescribedHolds(leaf, args, table, item, like);
    }
  }

  // ----- the encoder's wording in the reader's vocabulary -----

  ghost predicate SpellsTests(t: Wording, x: Lexicon) {
    && (forall b :: t(Head(b)) == x.item + ((if b then x.not else "") + x.among))
    && (forall op :: t(Value(op)) == x.and + (x.value + x.symbol(op)))
    && (forall op :: t(PrefixTest(op)) == x.and + (x.prefix + x.symbol(op)))
    && t(ValueIn) == x.and + (x.value + x.list) && t(Comma) == x.comma && t(EndList) == x.close
    && (forall b :: t(Plain(b)) == x.and + (x.plaintext + ((if b then x.one else x.zero) + x.close)))
  }

  ghost predicate SpellsSigns(t: Wording, x: Lexicon) {
    && t(False) == x.zero && t(OpenBracket) == x.open && t(CloseBracket) == x.close
    && t(JoinedBy(ConjAnd)) == x.and && t(JoinedBy(ConjOr)) == x.or
  }

  lemma HeadSpells(negate: bool)
    ensures WordsText(Head(negate)) == SQL.item + ((if negate then SQL.not else "") + SQL.among)
  {
    assert "NOT IN" == "NOT " + "IN" && "IN" == "" + "IN";
    HeadRegroups("i.id ", if negate then "NOT " else "", "IN", " (SELECT item_id FROM ", "items_tags WHERE name = ");
  }

  lemma HeadRegroups(a: string, b: string, c: string, d: string, e: string)
    ensures a + (b + c) + d + e == a + (b + (c + d + e))
  {
  }

  lemma TestRegroups(a: string, b: string, c: string, d: string, e: string, ab: string, bc: string, de: string)
    requires ab == a + b && bc == b + c && de == d + e
    ensures ab + c + d + e == a + (bc + de)
  {
  }

  lemma SymbolSpells(op: CompareOp)
    ensures OpSql(op) + " " == Symbol(op)
  {
  }

  lemma ValueSpells(op: CompareOp)
    ensures WordsText(Value(op)) == SQL.and + (SQL.value + Symbol(op))
  {
    SymbolSpells(op);
    assert " AND value " == " AND " + "value ";
  }

  lemma PrefixSpells(op: CompareOp)
    ensures WordsText(PrefixTest(op)) == SQL.and + (SQL.prefix + Symbol(op))
  {
    SymbolSpells(op);
    assert " AND SUBSTR(value, " == " AND " + "SUBSTR(value, ";
    assert "SUBSTR(value, 1, 12) " == "SUBSTR(value, " + "1, 12) ";
    TestRegroups(" AND ", "SUBSTR(value, ", "1, 12) ", OpSql(op), " ", " AND SUBSTR(value, ", "SUBSTR(value, 1, 12) ",
                 Symbol(op));
  }

  lemma KindSpells(plaintext: bool)
    ensures WordsText(Plain(plaintext)) == SQL.and + (SQL.plaintext + ((if plaintext then SQL.one else SQL.zero) + ")"))
  {
    assert " AND plaintext = " == " AND " + "plaintext = ";
  }

  lemma TestsSpell()
    ensures SpellsTests(WordsText, SQL)
  {
    forall b ensures WordsText(Head(b)) == SQL.item + ((if b then SQL.not else "") + SQL.among) {
      HeadSpells(b);
    }
    forall op ensures WordsText(Value(op)) == SQL.and + (SQL.value + SQL.symbol(op)) {
      ValueSpells(op);
    }
    forall op ensures WordsText(PrefixTest(op)) == SQL.and + (SQL.prefix + SQL.symbol(op)) {
      PrefixSpells(op);
    }
    forall b
      ensures WordsText(Plain(b)) == SQL.and + (SQL.plaintext + ((if b then SQL.one else SQL.zero) + SQL.close))
    {
      KindSpells(b);
    }
    assert " AND value IN (" == " AND " + ("value " + "IN (");
  }

  /** The wording in use is the vocabulary's. */
  lemma WordsTextSpells()
    ensures SpellsTests(WordsText, SQL) && SpellsSigns(WordsText, SQL)
  {
    TestsSpell();
  }

  // ----- the text of a clause is the spelling of what it asks -----

  /** Argument n is marked by the placeholder numbered first + n. */
  function Marked(first: int, placeholder: int -> string): nat -> string {
    (n: nat) => placeholder(first + n)
  }

  lemma Unfold3(a: string, b: string, c: string, rest: string)
    ensures a + (b + c) + rest == a + (b + (c + rest))
  {
  }

  lemma HeadText(negate: bool, rest: string, t: Wording, x: Lexicon)
    requires SpellsTests(t, x)
    ensures t(Head(negate)) + rest == x.item + if negate then x.not + (x.among + rest) else x.among + rest
  {
    Unfold3(x.item, if negate then x.not else "", x.among, rest);
    assert "" + (x.among + rest) == x.among + rest;
  }

  lemma ComparisonText(op: CompareOp, mark: string, rest: string, t: Wording, x: Lexicon)
    requires SpellsTests(t, x)
    ensures t(Value(op)) + (mark + (x.and + rest)) == x.and + (x.value + SpellComparison(op, mark, x, rest))
    ensures t(PrefixTest(op)) + (mark + (x.and + rest)) == x.and + (x.prefix + SpellComparison(op, mark, x, rest))
  {
    Unfold3(x.and, x.value, x.symbol(op), mark + (x.and + rest));
    Unfold3(x.and, x.prefix, x.symbol(op), mark + (x.and + rest));
  }

  lemma KindText(plaintext: bool, rest: string, t: Wording, x: Lexicon)
    requires SpellsTests(t, x)
    ensures t(Plain(plaintext)) + rest == x.and + SpellKind(plaintext, x, rest)
  {
    var flag := if plaintext then x.one else x.zero;
    Unfold3(x.and, x.plaintext, flag + x.close, rest);
    AppendAssociative(flag, x.close, rest);
  }

  lemma LitFirst(words: Words, ps: seq<Piece>, t: Wording, index: int, placeholder: int -> string)
    ensures UniformText([Lit(words)] + ps, t, index, placeholder) == t(words) + UniformText(ps, t, index, placeholder)
  {
    assert ([Lit(words)] + ps)[1..] == ps;
  }

  lemma HoleFirst(hole: Piece, ps: seq<Piece>, t: Wording, index: int, placeholder: int -> string)
    requires !hole.Lit?
    ensures UniformText([hole] + ps, t, index, placeholder)
         == placeholder(index) + UniformText(ps, t, index + 1, placeholder)
  {
    assert ([hole] + ps)[1..] == ps;
  }

  lemma SlotFirst(words: Words, hole: Piece, ps: seq<Piece>, t: Wording, index: int, placeholder: int -> string)
    requires !hole.Lit?
    ensures UniformText(Slot(words, hole) + ps, t, index, placeholder)
         == t(words) + (placeholder(index) + UniformText(ps, t, index + 1, placeholder))
  {
    assert Slot(words, hole) + ps == [Lit(words)] + ([hole] + ps);
    LitFirst(words, [hole] + ps, t, index, placeholder);
    HoleFirst(hole, ps, t, index, placeholder);
  }

  lemma RegroupPieces(a: seq<Piece>, b: seq<Piece>, c: seq<Piece>, d: seq<Piece>, ps: seq<Piece>)
    ensures a + (b + (c + d)) + ps == a + (b + (c + (d + ps)))
  {
  }

  /** The prefix test, if any, and the end of the subselect. */
  lemma PrefixText(cl: Clause, ps: seq<Piece>, t: Wording, x: Lexicon, first: int, placeholder: int -> string)
    requires SpellsTests(t, x) && cl.OpClause?
    ensures var rest := UniformText(ps, t, first + (cl.at + LeafHoles(cl)), placeholder);
      UniformText(PrefixSlot(cl.op, cl.prefixed, cl.at) + ([Lit(Plain(cl.plaintext))] + ps), t, first + (cl.at + 2),
                  placeholder)
      == x.and + SpellPrefix(DescribePrefix(cl.op, cl.prefixed, cl.at), x, Marked(first, placeholder),
                             SpellKind(cl.plaintext, x, rest))
  {
    var i := first + (cl.at + 2);
    var last := [Lit(Plain(cl.plaintext))] + ps;
    var rest := UniformText(ps, t, first + (cl.at + LeafHoles(cl)), placeholder);
    KindText(cl.plaintext, rest, t, x);
    if cl.prefixed && PrefixOp(cl.op).Some? {
      var op := PrefixOp(cl.op).value;
      SlotFirst(PrefixTest(op), Num(cl.at + 3), last, t, i, placeholder);
      LitFirst(Plain(cl.plaintext), ps, t, i + 1, placeholder);
      ComparisonText(op, placeholder(i), SpellKind(cl.plaintext, x, rest), t, x);
    } else {
      assert [] + last == last;
      LitFirst(Plain(cl.plaintext), ps, t, i, placeholder);
    }
  }

  lemma OpReadsBack(cl: Clause, ps: seq<Piece>, t: Wording, x: Lexicon, first: int, placeholder: int -> string)
    requires SpellsTests(t, x) && cl.OpClause?
    ensures UniformText(LeafPieces(cl) + ps, t, first + cl.at, placeholder)
         == SpellCheck(Describe(cl), x, Marked(first, placeholder),
                       UniformText(ps, t, first + (cl.at + LeafHoles(cl)), placeholder))
  {
    var i, mark := first + cl.at, Marked(first, placeholder);
    var head, value := Slot(Head(cl.negate), Num(cl.at + 1)), Slot(Value(cl.op), Num(cl.at + 2));
    var prefix, last := PrefixSlot(cl.op, cl.prefixed, cl.at), [Lit(Plain(cl.plaintext))];
    RegroupPieces(head, value, prefix, last, ps);
    PrefixText(cl, ps, t, x, first, placeholder);
    TwoSlots(Head(cl.negate), Num(cl.at + 1), Value(cl.op), Num(cl.at + 2), prefix + (last + ps), t, i, placeholder);
    assert mark(cl.at) == placeholder(i) && mark(cl.at + 1) == placeholder(i + 1);
    OpSpells(cl, UniformText(ps, t, first + (cl.at + LeafHoles(cl)), placeholder), t, x, mark);
  }

  lemma TwoSlots(w: Words, hole: Piece, w': Words, hole': Piece, ps: seq<Piece>, t: Wording, i: int,
                 placeholder: int -> string)
    requires !hole.Lit? && !hole'.Lit?
    ensures UniformText(Slot(w, hole) + (Slot(w', hole') + ps), t, i, placeholder)
         == t(w) + (placeholder(i) + (t(w') + (placeholder(i + 1) + UniformText(ps, t, i + 2, placeholder))))
  {
    SlotFirst(w, hole, Slot(w', hole') + ps, t, i, placeholder);
    SlotFirst(w', hole', ps, t, i + 1, placeholder);
  }

  lemma OpSpells(cl: Clause, rest: string, t: Wording, x: Lexicon, mark: nat -> string)
    requires SpellsTests(t, x) && cl.OpClause?
    ensures var after := SpellPrefix(DescribePrefix(cl.op, cl.prefixed, cl.at), x, mark,
                                     SpellKind(cl.plaintext, x, rest));
      SpellCheck(Describe(cl), x, mark, rest)
      == t(Head(cl.negate)) + (mark(cl.at) + (t(Value(cl.op)) + (mark(cl.at + 1) + (x.and + after))))
  {
    var after := SpellPrefix(DescribePrefix(cl.op, cl.prefixed, cl.at), x, mark, SpellKind(cl.plaintext, x, rest));
    ComparisonText(cl.op, mark(cl.at + 1), after, t, x);
    HeadText(cl.negate, SpellSubselect(Describe(cl), x, mark, rest), t, x);
  }

  lemma {:induction false} HoleListSpells(n: nat, count: nat, ps: seq<Piece>, rest: string, t: Wording, x: Lexicon,
                                          first: int, index: int, placeholder: int -> string)
    requires t(EndList) == x.close && t(Comma) == x.comma
    requires index == first + n && rest == UniformText(ps, t, index + count, placeholder)
    ensures UniformText(HoleList(count) + ([Lit(EndList)] + ps), t, index, placeholder)
         == SpellItems(n, count, x, Marked(first, placeholder), rest)
    decreases count
  {
    var end := [Lit(EndList)] + ps;
    assert Marked(first, placeholder)(n) == placeholder(index);
    if count <= 1 {
      ShortListSpells(n, count, ps, rest, t, x, first, index, placeholder);
    } else {
      HoleListSpells(n + 1, count - 1, ps, rest, t, x, first, index + 1, placeholder);
      CommaFirst(HoleList(count - 1), end, t, index, placeholder);
      assert HoleList(count) == [Next, Lit(Comma)] + HoleList(count - 1);
    }
  }

  lemma {:induction false} ShortListSpells(n: nat, count: nat, ps: seq<Piece>, rest: string, t: Wording, x: Lexicon,
                                           first: int, index: int, placeholder: int -> string)
    requires count <= 1 && t(EndList) == x.close
    requires index == first + n && rest == UniformText(ps, t, index + count, placeholder)
    ensures UniformText(HoleList(count) + ([Lit(EndList)] + ps), t, index, placeholder)
         == SpellItems(n, count, x, Marked(first, placeholder), rest)
  {
    var end := [Lit(EndList)] + ps;
    LitFirst(EndList, ps, t, index + count, placeholder);
    if count == 0 {
      assert HoleList(0) + end == end;
    } else {
      HoleFirst(Next, end, t, index, placeholder);
      assert HoleList(1) == [Next] && Marked(first, placeholder)(n) == placeholder(index);
    }
  }

  lemma CommaFirst(list: seq<Piece>, end: seq<Piece>, t: Wording, index: int, placeholder: int -> string)
    ensures UniformText([Next, Lit(Comma)] + list + end, t, index, placeholder)
         == placeholder(index) + (t(Comma) + UniformText(list + end, t, index + 1, placeholder))
  {
    var more := list + end;
    assert [Next, Lit(Comma)] + list + end == [Next] + ([Lit(Comma)] + more);
    HoleFirst(Next, [Lit(Comma)] + more, t, index, placeholder);
    LitFirst(Comma, more, t, index + 1, placeholder);
  }

  lemma InReadsBack(cl: Clause, ps: seq<Piece>, t: Wording, x: Lexicon, first: int, placeholder: int -> string)
    requires SpellsTests(t, x) && cl.InClause?
    ensures UniformText(LeafPieces(cl) + ps, t, first + cl.at, placeholder)
         == SpellCheck(Describe(cl), x, Marked(first, placeholder),
                       UniformText(ps, t, first + (cl.at + LeafHoles(cl)), placeholder))
  {
    var i, mark, end := first + cl.at, Marked(first, placeholder), first + (cl.at + LeafHoles(cl));
    var head, list := Slot(Head(cl.negate), Next), HoleList(cl.count);
    var last := [Lit(Plain(cl.plaintext))] + ps;
    InPieces(head, list, cl.plaintext, ps);
    SlotFirst(Head(cl.negate), Next, [Lit(ValueIn)] + (list + ([Lit(EndList)] + last)), t, i, placeholder);
    LitFirst(ValueIn, list + ([Lit(EndList)] + last), t, i + 1, placeholder);
    HoleListSpells(cl.at + 1, cl.count, last, UniformText(last, t, end, placeholder), t, x, first, i + 1, placeholder);
    LitFirst(Plain(cl.plaintext), ps, t, end, placeholder);
    assert mark(cl.at) == placeholder(i);
    InSpells(cl, UniformText(ps, t, end, placeholder), t, x, mark);
  }

  lemma InPieces(head: seq<Piece>, list: seq<Piece>, plaintext: bool, ps: seq<Piece>)
    ensures head + ([Lit(ValueIn)] + (list + [Lit(EndList), Lit(Plain(plaintext))])) + ps
         == head + ([Lit(ValueIn)] + (list + ([Lit(EndList)] + ([Lit(Plain(plaintext))] + ps))))
  {
  }

  lemma InSpells(cl: Clause, rest: string, t: Wording, x: Lexicon, mark: nat -> string)
    requires SpellsTests(t, x) && cl.InClause?
    ensures SpellCheck(Describe(cl), x, mark, rest)
         == t(Head(cl.negate)) + (mark(cl.at) + (t(ValueIn) +
              SpellItems(cl.at + 1, cl.count, x, mark, t(Plain(cl.plaintext)) + rest)))
  {
    KindText(cl.plaintext, rest, t, x);
    Unfold3(x.and, x.value, x.list, SpellItems(cl.at + 1, cl.count, x, mark, t(Plain(cl.plaintext)) + rest));
    HeadText(cl.negate, SpellSubselect(Describe(cl), x, mark, rest), t, x);
  }

  lemma ExistReadsBack(cl: Clause, ps: seq<Piece>, t: Wording, x: Lexicon, first: int, placeholder: int -> string)
    requires SpellsTests(t, x) && cl.ExistClause?
    ensures UniformText(LeafPieces(cl) + ps, t, first + cl.at, placeholder)
         == SpellCheck(Describe(cl), x, Marked(first, placeholder),
                       UniformText(ps, t, first + (cl.at + LeafHoles(cl)), placeholder))
  {
    var i, mark := first + cl.at, Marked(first, placeholder);
    var last := [Lit(Plain(cl.plaintext))];
    AppendAssociative(Slot(Head(cl.negate), Next), last, ps);
    SlotFirst(Head(cl.negate), Next, last + ps, t, i, placeholder);
    LitFirst(Plain(cl.plaintext), ps, t, i + 1, placeholder);
    assert mark(cl.at) == placeholder(i);
    KindText(cl.plaintext, UniformText(ps, t, i + 1, placeholder), t, x);
    HeadText(cl.negate, SpellSubselect(Describe(cl), x, mark, UniformText(ps, t, i + 1, placeholder)), t, x);
  }

  // ----- tokens -----

  /** Tests in a token list are single ones. */
  predicate Single(token: Token) {
    token.Atom? ==> !token.leaf.Conj?
  }

  predicate AllSingle(ts: seq<Token>) {
    forall i | 0 <= i < |ts| :: Single(ts[i])
  }

  lemma {:induction false} TokensAreSingle(cl: Clause)
    ensures AllSingle(Tokens(cl))
    decreases cl, 1
  {
    if cl.Conj? {
      JoinTokensAreSingle(cl.parts, cl.join);
    }
  }

  lemma {:induction false} JoinTokensAreSingle(cls: seq<Clause>, join: ConjunctionOp)
    ensures AllSingle(JoinTokens(cls, join))
    decreases cls, 0
  {
    if cls != [] {
      TokensAreSingle(cls[0]);
      if |cls| > 1 {
        JoinTokensAreSingle(cls[1..], join);
      }
    }
  }

  lemma TokenReadsBack(token: Token, k: nat, ps: seq<Piece>, t: Wording, x: Lexicon, first: int,
                       placeholder: int -> string)
    requires SpellsTests(t, x) && SpellsSigns(t, x) && Single(token) && TokenPlaced(token, k)
    ensures UniformText(TokenPieces(token) + ps, t, first + k, placeholder)
         == SpellToken(LiftToken(token, Describe), x, Marked(first, placeholder),
                       UniformText(ps, t, first + (k + TokenHoles(token)), placeholder))
  {
    match token
    case Atom(leaf) => LeafReadsBack(leaf, k, ps, t, x, first, placeholder);
    case _ => SignReadsBack(token, ps, t, x, Marked(first, placeholder), first + k, placeholder);
  }

  lemma SignReadsBack(token: Token, ps: seq<Piece>, t: Wording, x: Lexicon, mark: nat -> string, index: int,
                      placeholder: int -> string)
    requires SpellsSigns(t, x) && !token.Atom?
    ensures UniformText(TokenPieces(token) + ps, t, index, placeholder)
         == SpellToken(LiftToken(token, Describe), x, mark, UniformText(ps, t, index, placeholder))
  {
    match token
    case Open => LitFirst(OpenBracket, ps, t, index, placeholder);
    case Close => LitFirst(CloseBracket, ps, t, index, placeholder);
    case AndWord => LitFirst(JoinedBy(ConjAnd), ps, t, index, placeholder);
    case OrWord => LitFirst(JoinedBy(ConjOr), ps, t, index, placeholder);
  }

  lemma LeafReadsBack(leaf: Clause, k: nat, ps: seq<Piece>, t: Wording, x: Lexicon, first: int,
                      placeholder: int -> string)
    requires SpellsTests(t, x) && SpellsSigns(t, x) && !leaf.Conj? && TokenPlaced(Atom(leaf), k)
    ensures UniformText(LeafPieces(leaf) + ps, t, first + k, placeholder)
         == SpellCheck(Describe(leaf), x, Marked(first, placeholder),
                       UniformText(ps, t, first + (k + LeafHoles(leaf)), placeholder))
  {
    match leaf
    case OpClause(_, _, _, _, _) => OpReadsBack(leaf, ps, t, x, first, placeholder);
    case InClause(_, _, _, _) => InReadsBack(leaf, ps, t, x, first, placeholder);
    case ExistClause(_, _, _) => ExistReadsBack(leaf, ps, t, x, first, placeholder);
    case Zero => LitFirst(False, ps, t, first + k, placeholder);
  }

  lemma {:induction false} TokensStand(ts: seq<Token>, k: nat)
    requires AllSingle(ts) && Placed(ts, k)
    ensures AllStand(Lift(ts, Describe), k) && AllMarks(Lift(ts, Describe)) == Holes(ts)
  {
    if ts != [] {
      assert Lift(ts, Describe)[1..] == Lift(ts[1..], Describe);
      TokensStand(ts[1..], k + TokenHoles(ts[0]));
    }
  }

  /** What `spell` writes for a token in front of a text is the token's own text in front of it. */
  ghost predicate Writes(spell: Speller, token: Token, k: nat, ps: seq<Piece>, t: Wording, first: int,
                         placeholder: int -> string)
  {
    UniformText(TokenPieces(token) + ps, t, first + k, placeholder)
    == spell(LiftToken(token, Describe), UniformText(ps, t, first + (k + TokenHoles(token)), placeholder))
  }

  lemma {:induction false} TokensWrite(spell: Speller, ts: seq<Token>, k: nat, t: Wording, first: int,
                                       placeholder: int -> string)
    requires AllSingle(ts) && Placed(ts, k)
    requires forall token, j, ps | Single(token) && TokenPlaced(token, j) ::
      Writes(spell, token, j, ps, t, first, placeholder)
    ensures UniformText(Pieces(ts), t, first + k, placeholder) == SpellBy(Lift(ts, Describe), spell)
  {
    if ts != [] {
      TokensWrite(spell, ts[1..], k + TokenHoles(ts[0]), t, first, placeholder);
      assert Writes(spell, ts[0], k, Pieces(ts[1..]), t, first, placeholder);
      assert Lift(ts, Describe)[1..] == Lift(ts[1..], Describe);
    }
  }

  lemma TokensSpell(ts: seq<Token>, k: nat, t: Wording, x: Lexicon, first: int, placeholder: int -> string)
    requires SpellsTests(t, x) && SpellsSigns(t, x) && AllSingle(ts) && Placed(ts, k)
    ensures UniformText(Pieces(ts), t, first + k, placeholder)
         == Spell(Lift(ts, Describe), x, Marked(first, placeholder))
  {
    var spell := SqlSpeller(x, Marked(first, placeholder));
    forall token, j, ps | Single(token) && TokenPlaced(token, j)
      ensures Writes(spell, token, j, ps, t, first, placeholder)
    {
      TokenReadsBack(token, j, ps, t, x, first, placeholder);
    }
    TokensWrite(spell, ts, k, t, first, placeholder);
  }

  /** Placeholders that can be told from the end of a list. */
  ghost predicate Tellable(placeholder: int -> string) {
    forall i :: placeholder(i) != "" && placeholder(i)[0] != ')'
  }

  lemma TellableMarks(first: int, placeholder: int -> string)
    requires Tellable(placeholder)
    ensures Marking(Marked(first, placeholder), SQL)
  {
    forall n: nat ensures Apart(SQL.close, Marked(first, placeholder)(n)) {
      FirstsDiffer(SQL.close, placeholder(first + n));
    }
  }

  /** Placed tokens, printed with numbered placeholders, are read back. */
  lemma {:induction false} PlacedTextReads(text: string, ts: seq<Token>, k: nat, first: int, index: int,
                                           placeholder: int -> string)
    requires AllSingle(ts) && Placed(ts, k) && Tellable(placeholder) && index == first + k
    requires text == UniformText(Pieces(ts), WordsText, index, placeholder)
    ensures Lex(text, k, SQL, Marked(first, placeholder)) == Some(Lift(ts, Describe))
    ensures AllMarks(Lift(ts, Describe)) == Holes(ts)
  {
    assert Sound(SQL) by { SqlIsSound(); }
    assert SpellsTests(WordsText, SQL) && SpellsSigns(WordsText, SQL) by { WordsTextSpells(); }
    TellableMarks(first, placeholder);
    TextReadsIn(text, ts, k, WordsText, SQL, first, index, placeholder);
  }

  lemma {:induction false} TextReadsIn(text: string, ts: seq<Token>, k: nat, t: Wording, x: Lexicon, first: int,
                                       index: int, placeholder: int -> string)
    requires Sound(x) && SpellsTests(t, x) && SpellsSigns(t, x) && Marking(Marked(first, placeholder), x)
    requires AllSingle(ts) && Placed(ts, k) && index == first + k
    requires text == UniformText(Pieces(ts), t, index, placeholder)
    ensures Lex(text, k, x, Marked(first, placeholder)) == Some(Lift(ts, Describe))
    ensures AllMarks(Lift(ts, Describe)) == Holes(ts)
  {
    TokensStand(ts, k);
    TokensSpell(ts, k, t, x, first, placeholder);
    SpelledReads(text, ts, k, x, Marked(first, placeholder));
  }

  lemma {:induction false} SpelledReads(text: string, ts: seq<Token>, k: nat, x: Lexicon, mark: nat -> string)
    requires Sound(x) && Marking(mark, x) && AllStand(Lift(ts, Describe), k)
    requires text == Spell(Lift(ts, Describe), x, mark)
    ensures Lex(text, k, x, mark) == Some(Lift(ts, Describe))
  {
    LexSpelled(Lift(ts, Describe), k, x, mark);
  }

  /**
   * For every query, sign and starting place, the text emitted for it, once its placeholders are
   * numbered, reads as SQL to exactly the tokens of the compiled clause.
   */
  lemma {:induction false} EmittedTextReads(c: Codec, q: TagQuery, negate: bool, at: nat, start: int,
                                            placeholder: int -> string)
    requires Tellable(placeholder) && Compile(c, q, negate, at).clause.Some?
    ensures var r := Compile(c, q, negate, at);
      var read := Lex(Rewrite(ClauseText(r.clause.value, WordsText), start, start + at, placeholder), at, SQL,
                      Marked(start, placeholder));
      read == Some(Lift(Tokens(r.clause.value), Describe)) && AllMarks(read.value) == |r.args|
  {
    var cl := Compile(c, q, negate, at).clause.value;
    WordsTextIsSafe();
    PlaceholdersNameArguments(c, q, negate, at, WordsText, start, placeholder);
    CompilePlaces(c, q, negate, at);
    TokensAreSingle(cl);
    PlacedTextReads(Rewrite(ClauseText(cl, WordsText), start, start + at, placeholder), Tokens(cl), at, start,
                    start + at, placeholder);
  }

  /** So the text is one operand of a condition, true of an item exactly when the compiled clause selects it. */
  lemma {:induction false} EmittedTextSelects(c: Codec, q: TagQuery, negate: bool, at: nat, start: int,
                                              placeholder: int -> string, args: seq<Bytes>, table: set<Row>,
                                              item: int, like: LikeFn)
    requires Tellable(placeholder) && Compile(c, q, negate, at).clause.Some?
    ensures var cl := Compile(c, q, negate, at).clause.value;
      var read := Lex(Rewrite(ClauseText(cl, WordsText), start, start + at, placeholder), at, SQL,
                      Marked(start, placeholder));
      && read.Some?
      && ReadFactor(read.value, CheckTruth(args, table, item, like)) == Read(Selects(cl, args, table, item, like), [])
  {
    EmittedTextReads(c, q, negate, at, start, placeholder);
    CompiledIsNonEmptyConj(c, q, negate, at);
    DescribedReads(Compile(c, q, negate, at).clause.value, args, table, item, like);
  }

  lemma DescribedReads(cl: Clause, args: seq<Bytes>, table: set<Row>, item: int, like: LikeFn)
    requires NonEmptyConj(cl)
    ensures ReadFactor(Lift(Tokens(cl), Describe), CheckTruth(args, table, item, like))
         == Read(Selects(cl, args, table, item, like), [])
  {
    var v := CheckTruth(args, table, item, like);
    DescribedEvaluates(args, table, item, like);
    TokensReadBack(cl, [], args, table, item, like, Through(v, Describe));
    assert Tokens(cl) + [] == Tokens(cl);
    LiftFactor(Tokens(cl), Describe, v, Through(v, Describe));
  }

  // ----- the placeholders of the backends -----

  function SignedDecimal(n: int): string {
    if n < 0 then "-" + Decimal(-n) else Decimal(n)
  }

  /** SQLite's placeholder. */
  function QuestionNumber(index: int): string {
    "?" + SignedDecimal(index)
  }

  /** PostgreSQL's placeholder. */
  function DollarNumber(index: int): string {
    "$" + SignedDecimal(index)
  }

  lemma BackendsAreTellable()
    ensures Tellable(QuestionNumber) && Tellable(DollarNumber) && Tellable(Positional)
  {
  }
}
