/** The boolean structure of the emitted text: its tokens, and how SQL reads them back. */
module SqlText {
  import opened Prelude
  import opened TagSql

  // ----- tokens of the boolean structure -----

  /** Brackets, connectives and tests of kind L. */
  datatype Tok<L> = Open | Close | AndWord | OrWord | Atom(leaf: L)

  type Token = Tok<Clause>

  function Word(join: ConjunctionOp): Token {
    if join == ConjAnd then AndWord else OrWord
  }

  /** Every conjunction of two or more parts is parenthesised. */
  function Tokens(cl: Clause): seq<Token>
    decreases cl, 1
  {
    match cl
    case Conj(join, parts) =>
      if |parts| > 1 then [Open] + JoinTokens(parts, join) + [Close] else JoinTokens(parts, join)
    case _ => [Atom(cl)]
  }

  function JoinTokens(cls: seq<Clause>, join: ConjunctionOp): seq<Token>
    decreases cls, 0
  {
    if cls == [] then []
    else if |cls| == 1 then Tokens(cls[0])
    else Tokens(cls[0]) + [Word(join)] + JoinTokens(cls[1..], join)
  }

  /** Conjunctions are never empty: the encoder answers "0" or nothing instead. */
  predicate NonEmptyConj(cl: Clause)
    decreases cl, 1
  {
    cl.Conj? ==> cl.parts != [] && AllNonEmptyConj(cl.parts)
  }

  predicate AllNonEmptyConj(cls: seq<Clause>)
    decreases cls, 0
  {
    cls == [] || (NonEmptyConj(cls[0]) && AllNonEmptyConj(cls[1..]))
  }

  lemma {:induction false} CompiledIsNonEmptyConj(c: Codec, q: TagQuery, negate: bool, at: nat)
    ensures var cl := Compile(c, q, negate, at).clause; cl.Some? ==> NonEmptyConj(cl.value)
    decreases q, 1
  {
    match q
    case And(subs) => CompiledAllNonEmptyConj(c, subs, negate, at);
    case Or(subs) => CompiledAllNonEmptyConj(c, subs, negate, at);
    case Not(sub) => CompiledIsNonEmptyConj(c, sub, !negate, at);
    case Exist(names) => NamesNonEmptyConj(c, names, negate, at);
    case _ =>
  }

  lemma {:induction false} CompiledAllNonEmptyConj(c: Codec, qs: seq<TagQuery>, negate: bool, at: nat)
    ensures AllNonEmptyConj(CompileAll(c, qs, negate, at).parts)
    decreases qs, 0
  {
    if qs != [] {
      var first := Compile(c, qs[0], negate, at);
      var rest := CompileAll(c, qs[1..], negate, at + |first.args|);
      CompiledIsNonEmptyConj(c, qs[0], negate, at);
      CompiledAllNonEmptyConj(c, qs[1..], negate, at + |first.args|);
      assert CompileAll(c, qs, negate, at).parts[if first.clause.Some? then 1 else 0..] == rest.parts;
    }
  }

  lemma {:induction false} NamesNonEmptyConj(c: Codec, names: seq<TagName>, negate: bool, at: nat)
    ensures AllNonEmptyConj(CompileNames(c, names, negate, at).parts)
  {
    if names != [] {
      NamesNonEmptyConj(c, names[1..], negate, at + 1);
      assert CompileNames(c, names, negate, at).parts[1..] == CompileNames(c, names[1..], negate, at + 1).parts;
    }
  }

  // ----- reading tokens back with SQL's precedence: OR binds weaker than AND -----

  datatype Reading<L> = Bad | Read(truth: bool, rest: seq<Tok<L>>)

  ghost function ReadOr<L>(ts: seq<Tok<L>>, v: L -> bool): (r: Reading<L>)
    ensures r.Read? ==> |r.rest| < |ts|
    decreases |ts|, 3
  {
    var first := ReadAnd(ts, v);
    if first.Bad? then Bad else ReadOrRest(first.truth, first.rest, v)
  }

  ghost function ReadOrRest<L>(truth: bool, ts: seq<Tok<L>>, v: L -> bool): (r: Reading<L>)
    ensures r.Read? ==> |r.rest| <= |ts|
    decreases |ts|, 0
  {
    if ts == [] || ts[0] != OrWord then Read(truth, ts)
    else
      var next := ReadAnd(ts[1..], v);
      if next.Bad? then Bad else ReadOrRest(truth || next.truth, next.rest, v)
  }

  ghost function ReadAnd<L>(ts: seq<Tok<L>>, v: L -> bool): (r: Reading<L>)
    ensures r.Read? ==> |r.rest| < |ts|
    decreases |ts|, 2
  {
    var first := ReadFactor(ts, v);
    if first.Bad? then Bad else ReadAndRest(first.truth, first.rest, v)
  }

  ghost function ReadAndRest<L>(truth: bool, ts: seq<Tok<L>>, v: L -> bool): (r: Reading<L>)
    ensures r.Read? ==> |r.rest| <= |ts|
    decreases |ts|, 0
  {
    if ts == [] || ts[0] != AndWord then Read(truth, ts)
    else
      var next := ReadFactor(ts[1..], v);
      if next.Bad? then Bad else ReadAndRest(truth && next.truth, next.rest, v)
  }

  ghost function ReadFactor<L>(ts: seq<Tok<L>>, v: L -> bool): (r: Reading<L>)
    ensures r.Read? ==> |r.rest| < |ts|
    decreases |ts|, 1
  {
    if ts == [] then Bad
    else
      match ts[0]
      case Atom(leaf) => Read(v(leaf), ts[1..])
      case Open =>
        var inner := ReadOr(ts[1..], v);
        if inner.Read? && inner.rest != [] && inner.rest[0] == Close then Read(inner.truth, inner.rest[1..]) else Bad
      case _ => Bad
  }

  /** The valuation v gives every single test its truth about the item. */
  ghost predicate Evaluates(v: Clause -> bool, args: seq<Bytes>, table: set<Row>, item: int, like: LikeFn) {
    forall leaf: Clause :: !leaf.Conj? ==> v(leaf) == Selects(leaf, args, table, item, like)
  }

  /** Whatever follows it, the text of a clause reads as one operand and with the clause's own meaning. */
  lemma {:induction false} TokensReadBack(cl: Clause, rest: seq<Token>,
                                          args: seq<Bytes>, table: set<Row>, item: int, like: LikeFn,
                                          v: Clause -> bool)
    requires NonEmptyConj(cl) && Evaluates(v, args, table, item, like)
    ensures ReadFactor(Tokens(cl) + rest, v)
         == Read(Selects(cl, args, table, item, like), rest)
    decreases cl, 1
  {
    if !cl.Conj? {
      assert (Tokens(cl) + rest)[1..] == rest;
    } else if |cl.parts| == 1 {
      var only := cl.parts[0];
      assert cl.parts[1..] == [];
      assert SelectsAll(cl.parts, args, table, item, like) == Selects(only, args, table, item, like);
      assert SelectsAny(cl.parts, args, table, item, like) == Selects(only, args, table, item, like);
      assert Selects(cl, args, table, item, like) == Selects(only, args, table, item, like) by {
        if cl.join == ConjAnd {} else {}
      }
      TokensReadBack(only, rest, args, table, item, like, v);
    } else {
      var parts, after := cl.parts, [Close] + rest;
      var body := JoinTokens(parts, cl.join) + after;
      assert (Tokens(cl) + rest)[1..] == body;
      var tail := [Word(cl.join)] + JoinTokens(parts[1..], cl.join) + after;
      assert body == Tokens(parts[0]) + tail;
      TokensReadBack(parts[0], tail, args, table, item, like, v);
      var t0 := Selects(parts[0], args, table, item, like);
      if cl.join == ConjAnd {
        AndTailReadsBack(parts[1..], t0, after, args, table, item, like, v);
        assert ReadAnd(body, v) == Read(t0 && SelectsAll(parts[1..], args, table, item, like), after);
      } else {
        OrTailReadsBack(parts[1..], t0, after, args, table, item, like, v);
        assert ReadAnd(body, v) == Read(t0, tail);
      }
      assert ReadOr(body, v) == Read(Selects(cl, args, table, item, like), after);
      assert after[1..] == rest;
    }
  }

  lemma {:induction false} AndTailReadsBack(cls: seq<Clause>, truth: bool, after: seq<Token>,
                                            args: seq<Bytes>, table: set<Row>, item: int, like: LikeFn,
                                            v: Clause -> bool)
    requires cls != [] && AllNonEmptyConj(cls) && after != [] && after[0] == Close
    requires Evaluates(v, args, table, item, like)
    ensures ReadAndRest(truth, [AndWord] + JoinTokens(cls, ConjAnd) + after, v)
         == Read(truth && SelectsAll(cls, args, table, item, like), after)
    decreases cls, 0
  {
    var t0 := Selects(cls[0], args, table, item, like);
    if |cls| == 1 {
      TokensReadBack(cls[0], after, args, table, item, like, v);
      OneConjunct(truth, Tokens(cls[0]), after, t0, v);
      assert cls[1..] == [];
    } else {
      var tail := [AndWord] + JoinTokens(cls[1..], ConjAnd) + after;
      JoinSplits(cls, ConjAnd, after);
      TokensReadBack(cls[0], tail, args, table, item, like, v);
      OneConjunct(truth, Tokens(cls[0]), tail, t0, v);
      AndTailReadsBack(cls[1..], truth && t0, after, args, table, item, like, v);
    }
  }

  lemma {:induction false} OrTailReadsBack(cls: seq<Clause>, truth: bool, after: seq<Token>,
                                           args: seq<Bytes>, table: set<Row>, item: int, like: LikeFn,
                                           v: Clause -> bool)
    requires cls != [] && AllNonEmptyConj(cls) && after != [] && after[0] == Close
    requires Evaluates(v, args, table, item, like)
    ensures ReadOrRest(truth, [OrWord] + JoinTokens(cls, ConjOr) + after, v)
         == Read(truth || SelectsAny(cls, args, table, item, like), after)
    decreases cls, 0
  {
    var t0 := Selects(cls[0], args, table, item, like);
    if |cls| == 1 {
      TokensReadBack(cls[0], after, args, table, item, like, v);
      OneAlternative(truth, Tokens(cls[0]), after, t0, v);
      assert cls[1..] == [];
    } else {
      var tail := [OrWord] + JoinTokens(cls[1..], ConjOr) + after;
      JoinSplits(cls, ConjOr, after);
      TokensReadBack(cls[0], tail, args, table, item, like, v);
      OneAlternative(truth, Tokens(cls[0]), tail, t0, v);
      OrTailReadsBack(cls[1..], truth || t0, after, args, table, item, like, v);
    }
  }

  lemma JoinSplits(cls: seq<Clause>, join: ConjunctionOp, after: seq<Token>)
    requires |cls| > 1
    ensures [Word(join)] + JoinTokens(cls, join) + after
         == [Word(join)] + Tokens(cls[0]) + ([Word(join)] + JoinTokens(cls[1..], join) + after)
  {
    ListRegroups([Word(join)], Tokens(cls[0]), JoinTokens(cls[1..], join), after);
  }

  lemma ListRegroups<T>(w: seq<T>, a: seq<T>, b: seq<T>, c: seq<T>)
    ensures w + (a + w + b) + c == w + a + (w + b + c)
  {
  }

  lemma OneConjunct<L>(truth: bool, operand: seq<Tok<L>>, tail: seq<Tok<L>>, t0: bool, v: L -> bool)
    requires ReadFactor(operand + tail, v) == Read(t0, tail)
    ensures ReadAndRest(truth, [AndWord] + operand + tail, v) == ReadAndRest(truth && t0, tail, v)
  {
    assert ([AndWord] + operand + tail)[1..] == operand + tail;
  }

  /** An operand that no AND follows is an alternative of its own. */
  lemma OneAlternative<L>(truth: bool, operand: seq<Tok<L>>, tail: seq<Tok<L>>, t0: bool, v: L -> bool)
    requires ReadFactor(operand + tail, v) == Read(t0, tail) && tail != [] && tail[0] != AndWord
    ensures ReadOrRest(truth, [OrWord] + operand + tail, v) == ReadOrRest(truth || t0, tail, v)
  {
    var ts := [OrWord] + operand + tail;
    assert ts[1..] == operand + tail;
    assert ReadAnd(ts[1..], v) == Read(t0, tail);
  }
}
