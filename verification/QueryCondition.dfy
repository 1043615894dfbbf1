/** A backend's own query and the filter appended to its condition. */
module QueryCondition {
  import opened Prelude
  import opened TagSql
  import opened SqlText

  // ----- reading is not disturbed by what follows -----

  /** An operand reads the same whatever follows it. */
  lemma {:induction false} FactorStable<L>(ts: seq<Tok<L>>, more: seq<Tok<L>>, v: L -> bool)
    requires ReadFactor(ts, v).Read?
    ensures ReadFactor(ts + more, v) == Read(ReadFactor(ts, v).truth, ReadFactor(ts, v).rest + more)
    decreases |ts|, 1
  {
    assert (ts + more)[1..] == ts[1..] + more;
    if ts[0] == Open {
      var rest := ReadOr(ts[1..], v).rest;
      OrStable(ts[1..], more, v);
      assert (rest + more)[1..] == rest[1..] + more;
    }
  }

  lemma {:induction false} AndStable<L>(ts: seq<Tok<L>>, more: seq<Tok<L>>, v: L -> bool)
    requires ReadAnd(ts, v).Read? && ReadAnd(ts, v).rest != []
    ensures ReadAnd(ts + more, v) == Read(ReadAnd(ts, v).truth, ReadAnd(ts, v).rest + more)
    decreases |ts|, 2
  {
    var first := ReadFactor(ts, v);
    FactorStable(ts, more, v);
    AndRestStable(first.truth, first.rest, more, v);
  }

  lemma {:induction false} AndRestStable<L>(truth: bool, ts: seq<Tok<L>>, more: seq<Tok<L>>, v: L -> bool)
    requires ReadAndRest(truth, ts, v).Read? && ReadAndRest(truth, ts, v).rest != []
    ensures ReadAndRest(truth, ts + more, v)
         == Read(ReadAndRest(truth, ts, v).truth, ReadAndRest(truth, ts, v).rest + more)
    decreases |ts|, 2
  {
    if ts[0] == AndWord {
      var next := ReadFactor(ts[1..], v);
      assert (ts + more)[1..] == ts[1..] + more;
      FactorStable(ts[1..], more, v);
      AndRestStable(truth && next.truth, next.rest, more, v);
    }
  }

  lemma {:induction false} OrStable<L>(ts: seq<Tok<L>>, more: seq<Tok<L>>, v: L -> bool)
    requires ReadOr(ts, v).Read? && ReadOr(ts, v).rest != []
    ensures ReadOr(ts + more, v) == Read(ReadOr(ts, v).truth, ReadOr(ts, v).rest + more)
    decreases |ts|, 3
  {
    var first := ReadAnd(ts, v);
    AndStable(ts, more, v);
    OrRestStable(first.truth, first.rest, more, v);
  }

  lemma {:induction false} OrRestStable<L>(truth: bool, ts: seq<Tok<L>>, more: seq<Tok<L>>, v: L -> bool)
    requires ReadOrRest(truth, ts, v).Read? && ReadOrRest(truth, ts, v).rest != []
    ensures ReadOrRest(truth, ts + more, v)
         == Read(ReadOrRest(truth, ts, v).truth, ReadOrRest(truth, ts, v).rest + more)
    decreases |ts|, 3
  {
    if ts[0] == OrWord {
      var next := ReadAnd(ts[1..], v);
      assert (ts + more)[1..] == ts[1..] + more;
      AndStable(ts[1..], more, v);
      OrRestStable(truth || next.truth, next.rest, more, v);
    }
  }

  /** A chain of operands goes on with what follows it. */
  lemma {:induction false} AndRestContinues<L>(truth: bool, ts: seq<Tok<L>>, more: seq<Tok<L>>, v: L -> bool)
    requires ReadAndRest(truth, ts, v).Read? && ReadAndRest(truth, ts, v).rest == []
    ensures ReadAndRest(truth, ts + more, v) == ReadAndRest(ReadAndRest(truth, ts, v).truth, more, v)
    decreases |ts|
  {
    if ts == [] {
      assert ts + more == more;
    } else {
      var next := ReadFactor(ts[1..], v);
      assert (ts + more)[1..] == ts[1..] + more;
      FactorStable(ts[1..], more, v);
      AndRestContinues(truth && next.truth, next.rest, more, v);
    }
  }

  lemma AndContinues<L>(ts: seq<Tok<L>>, more: seq<Tok<L>>, b: bool, v: L -> bool)
    requires ReadAnd(ts, v) == Read(b, [])
    ensures ReadAnd(ts + more, v) == ReadAndRest(b, more, v)
  {
    var first := ReadFactor(ts, v);
    FactorStable(ts, more, v);
    AndRestContinues(first.truth, first.rest, more, v);
  }

  lemma {:induction false} OrRestContinues<L>(truth: bool, ts: seq<Tok<L>>, more: seq<Tok<L>>, v: L -> bool)
    requires ReadOrRest(truth, ts, v).Read? && ReadOrRest(truth, ts, v).rest == [] && more != [] && more[0] == OrWord
    ensures ReadOrRest(truth, ts + more, v) == ReadOrRest(ReadOrRest(truth, ts, v).truth, more, v)
    decreases |ts|
  {
    if ts == [] {
      assert ts + more == more;
    } else {
      var next := ReadAnd(ts[1..], v);
      assert (ts + more)[1..] == ts[1..] + more;
      AndBeforeOr(ts[1..], more, v);
      OrRestContinues(truth || next.truth, next.rest, more, v);
    }
  }

  lemma AndBeforeOr<L>(ts: seq<Tok<L>>, more: seq<Tok<L>>, v: L -> bool)
    requires ReadAnd(ts, v).Read? && more != [] && more[0] == OrWord
    ensures ReadAnd(ts + more, v) == Read(ReadAnd(ts, v).truth, ReadAnd(ts, v).rest + more)
  {
    var r := ReadAnd(ts, v);
    if r.rest == [] {
      AndContinues(ts, more, r.truth, v);
      assert r.rest + more == more;
    } else {
      AndStable(ts, more, v);
    }
  }

  lemma OrContinues<L>(ts: seq<Tok<L>>, more: seq<Tok<L>>, b: bool, v: L -> bool)
    requires ReadOr(ts, v) == Read(b, []) && more != [] && more[0] == OrWord
    ensures ReadOr(ts + more, v) == ReadOrRest(b, more, v)
  {
    var first := ReadAnd(ts, v);
    AndBeforeOr(ts, more, v);
    OrRestContinues(first.truth, first.rest, more, v);
  }

  // ----- appending an operand after AND -----

  /** Appended to any chain of operands, bracketed or not, an operand restricts the chain. */
  lemma ChainExtends<L>(base: seq<Tok<L>>, filter: seq<Tok<L>>, b: bool, f: bool, v: L -> bool)
    requires ReadAnd(base, v) == Read(b, []) && ReadFactor(filter, v) == Read(f, [])
    ensures ReadAnd(base + [AndWord] + filter, v) == Read(b && f, [])
    ensures ReadOr(base + [AndWord] + filter, v) == Read(b && f, [])
  {
    var more := [AndWord] + filter;
    assert base + [AndWord] + filter == base + more && more[1..] == filter;
    AndContinues(base, more, b, v);
    assert ReadAndRest(b && f, [], v) == Read(b && f, []);
  }

  /**
   * A base with an OR outside brackets reads as the last of its alternatives restricted alone, so
   * appending restricts the base exactly when the filter holds wherever an earlier alternative does.
   */
  lemma AlternativesExtendExactly<L>(early: seq<Tok<L>>, last: seq<Tok<L>>, filter: seq<Tok<L>>,
                                     x: bool, y: bool, f: bool, v: L -> bool)
    requires ReadOr(early, v) == Read(x, []) && ReadAnd(last, v) == Read(y, []) && ReadFactor(filter, v) == Read(f, [])
    ensures var base := early + [OrWord] + last;
      && ReadOr(base, v) == Read(x || y, [])
      && ReadOr(base + [AndWord] + filter, v) == Read(x || (y && f), [])
      && (ReadOr(base + [AndWord] + filter, v) == Read((x || y) && f, []) <==> (x ==> f))
  {
    var base := early + [OrWord] + last;
    AlternativeReads(early, last, x, y, v);
    ChainExtends(last, filter, y, f, v);
    AlternativeReads(early, last + [AndWord] + filter, x, y && f, v);
    assert base + [AndWord] + filter == early + [OrWord] + (last + [AndWord] + filter);
  }

  lemma AlternativeReads<L>(early: seq<Tok<L>>, last: seq<Tok<L>>, x: bool, y: bool, v: L -> bool)
    requires ReadOr(early, v) == Read(x, []) && ReadAnd(last, v) == Read(y, [])
    ensures ReadOr(early + [OrWord] + last, v) == Read(x || y, [])
  {
    var more := [OrWord] + last;
    assert early + [OrWord] + last == early + more && more[1..] == last;
    OrContinues(early, more, x, v);
    assert ReadOrRest(x || y, [], v) == Read(x || y, []);
  }

  // ----- tests of the query itself beside tag tests -----

  /** A test in a backend's query: one of the filter's, or one of its own by its wording. */
  datatype Test = TagTest(clause: Clause) | OwnTest(words: string)

  function ToTest(cl: Clause): Test {
    TagTest(cl)
  }

  /** The same structure with each test replaced by what f makes of it. */
  function Lift<L, M>(ts: seq<Tok<L>>, f: L -> M): (r: seq<Tok<M>>)
    ensures |r| == |ts|
  {
    if ts == [] then [] else [LiftToken(ts[0], f)] + Lift(ts[1..], f)
  }

  function LiftToken<L, M>(t: Tok<L>, f: L -> M): Tok<M> {
    match t
    case Open => Open
    case Close => Close
    case AndWord => AndWord
    case OrWord => OrWord
    case Atom(leaf) => Atom(f(leaf))
  }

  ghost function LiftReading<L, M>(r: Reading<L>, f: L -> M): Reading<M> {
    if r.Bad? then Bad else Read(r.truth, Lift(r.rest, f))
  }

  function Through<L, M>(v: M -> bool, f: L -> M): L -> bool {
    leaf => v(f(leaf))
  }

  /** v says of what f makes of a test what `own` says of the test. */
  ghost predicate Extends<L(!new), M>(v: M -> bool, f: L -> M, own: L -> bool) {
    forall leaf :: v(f(leaf)) == own(leaf)
  }

  lemma {:induction false} LiftFactor<L(!new), M>(ts: seq<Tok<L>>, f: L -> M, v: M -> bool, own: L -> bool)
    requires Extends(v, f, own)
    ensures ReadFactor(Lift(ts, f), v) == LiftReading(ReadFactor(ts, own), f)
    decreases |ts|, 1
  {
    if ts != [] {
      assert Lift(ts, f)[1..] == Lift(ts[1..], f);
      if ts[0] == Open {
        LiftOr(ts[1..], f, v, own);
        var inner := ReadOr(ts[1..], own);
        if inner.Read? && inner.rest != [] {
          assert Lift(inner.rest, f)[1..] == Lift(inner.rest[1..], f);
        }
      }
    }
  }

  lemma {:induction false} LiftAnd<L(!new), M>(ts: seq<Tok<L>>, f: L -> M, v: M -> bool, own: L -> bool)
    requires Extends(v, f, own)
    ensures ReadAnd(Lift(ts, f), v) == LiftReading(ReadAnd(ts, own), f)
    decreases |ts|, 2
  {
    var first := ReadFactor(ts, own);
    LiftFactor(ts, f, v, own);
    if first.Read? {
      LiftAndRest(first.truth, first.rest, f, v, own);
    }
  }

  lemma {:induction false} LiftAndRest<L(!new), M>(truth: bool, ts: seq<Tok<L>>, f: L -> M, v: M -> bool,
                                                   own: L -> bool)
    requires Extends(v, f, own)
    ensures ReadAndRest(truth, Lift(ts, f), v) == LiftReading(ReadAndRest(truth, ts, own), f)
    decreases |ts|, 2
  {
    if ts != [] && ts[0] == AndWord {
      assert Lift(ts, f)[1..] == Lift(ts[1..], f);
      var next := ReadFactor(ts[1..], own);
      LiftFactor(ts[1..], f, v, own);
      if next.Read? {
        LiftAndRest(truth && next.truth, next.rest, f, v, own);
      }
    }
  }

  lemma {:induction false} LiftOr<L(!new), M>(ts: seq<Tok<L>>, f: L -> M, v: M -> bool, own: L -> bool)
    requires Extends(v, f, own)
    ensures ReadOr(Lift(ts, f), v) == LiftReading(ReadOr(ts, own), f)
    decreases |ts|, 3
  {
    var first := ReadAnd(ts, own);
    LiftAnd(ts, f, v, own);
    if first.Read? {
      LiftOrRest(first.truth, first.rest, f, v, own);
    }
  }

  lemma {:induction false} LiftOrRest<L(!new), M>(truth: bool, ts: seq<Tok<L>>, f: L -> M, v: M -> bool, own: L -> bool)
    requires Extends(v, f, own)
    ensures ReadOrRest(truth, Lift(ts, f), v) == LiftReading(ReadOrRest(truth, ts, own), f)
    decreases |ts|, 3
  {
    if ts != [] && ts[0] == OrWord {
      assert Lift(ts, f)[1..] == Lift(ts[1..], f);
      var next := ReadAnd(ts[1..], own);
      LiftAnd(ts[1..], f, v, own);
      if next.Read? {
        LiftOrRest(truth || next.truth, next.rest, f, v, own);
      }
    }
  }

  lemma FilterReads(cl: Clause, args: seq<Bytes>, table: set<Row>, item: int, like: LikeFn, v: Test -> bool)
    requires NonEmptyConj(cl) && Evaluates(Through(v, ToTest), args, table, item, like)
    ensures ReadFactor(Lift(Tokens(cl), ToTest), v) == Read(Selects(cl, args, table, item, like), [])
  {
    TokensReadBack(cl, [], args, table, item, like, Through(v, ToTest));
    assert Tokens(cl) + [] == Tokens(cl);
    LiftFactor(Tokens(cl), ToTest, v, Through(v, ToTest));
  }

  /** Appending " AND " and the filter to any chain of tests restricts the chain by the filter. */
  lemma FilterExtendsCondition(base: seq<Tok<Test>>, b: bool, cl: Clause, args: seq<Bytes>, table: set<Row>,
                               item: int, like: LikeFn, v: Test -> bool)
    requires ReadAnd(base, v) == Read(b, [])
    requires NonEmptyConj(cl) && Evaluates(Through(v, ToTest), args, table, item, like)
    ensures ReadOr(base + [AndWord] + Lift(Tokens(cl), ToTest), v)
         == Read(b && Selects(cl, args, table, item, like), [])
  {
    FilterReads(cl, args, table, item, like, v);
    ChainExtends(base, Lift(Tokens(cl), ToTest), b, Selects(cl, args, table, item, like), v);
  }

  // ----- the conditions of the backends -----

  function Either(a: string, b: string): seq<Tok<Test>> {
    [Open, Atom(OwnTest(a)), OrWord, Atom(OwnTest(b)), Close]
  }

  lemma EitherReads(a: string, b: string, v: Test -> bool)
    ensures ReadFactor(Either(a, b), v) == Read(v(OwnTest(a)) || v(OwnTest(b)), [])
  {
    var ts := Either(a, b);
    var inner := ts[1..];
    var after := [OrWord, Atom(OwnTest(b)), Close];
    assert inner[1..] == after && after[1..] == [Atom(OwnTest(b)), Close] && after[1..][1..] == [Close];
    assert ReadFactor(inner, v) == Read(v(OwnTest(a)), after);
    assert ReadAnd(inner, v) == Read(v(OwnTest(a)), after);
    assert ReadFactor(after[1..], v) == Read(v(OwnTest(b)), [Close]);
    assert ReadAnd(after[1..], v) == Read(v(OwnTest(b)), [Close]);
    assert ReadOrRest(v(OwnTest(a)), after, v) == ReadOrRest(v(OwnTest(a)) || v(OwnTest(b)), [Close], v);
    var close: seq<Tok<Test>> := [Close];
    assert close[1..] == [];
  }

  /** A chain followed by bracketed pairs of alternatives. */
  function Groups(base: seq<Tok<Test>>, groups: seq<(string, string)>): seq<Tok<Test>>
    decreases |groups|
  {
    if groups == [] then base else Groups(base + [AndWord] + Either(groups[0].0, groups[0].1), groups[1..])
  }

  ghost predicate GroupsHold(groups: seq<(string, string)>, v: Test -> bool) {
    forall g | g in groups :: v(OwnTest(g.0)) || v(OwnTest(g.1))
  }

  lemma {:induction false} GroupsRead(base: seq<Tok<Test>>, b: bool, groups: seq<(string, string)>, v: Test -> bool)
    requires ReadAnd(base, v) == Read(b, [])
    ensures ReadAnd(Groups(base, groups), v) == Read(b && GroupsHold(groups, v), [])
    decreases |groups|
  {
    if groups != [] {
      var g := groups[0];
      var f := v(OwnTest(g.0)) || v(OwnTest(g.1));
      EitherReads(g.0, g.1, v);
      ChainExtends(base, Either(g.0, g.1), b, f, v);
      GroupsRead(base + [AndWord] + Either(g.0, g.1), b && f, groups[1..], v);
      assert groups == [g] + groups[1..];
    }
  }

  /**
   * The shape of the scan, count and delete queries: one test on the profile, then "given or not"
   * pairs on kind, category and expiry.
   */
  function OwnCondition(profile: string, groups: seq<(string, string)>): seq<Tok<Test>> {
    Groups([Atom(OwnTest(profile))], groups)
  }

  /** A filtered scan, count or deletion is about the rows of the unfiltered one that satisfy the filter. */
  lemma FilteredQuery(profile: string, groups: seq<(string, string)>, cl: Clause,
                      args: seq<Bytes>, table: set<Row>, item: int, like: LikeFn, v: Test -> bool)
    requires NonEmptyConj(cl) && Evaluates(Through(v, ToTest), args, table, item, like)
    ensures ReadOr(OwnCondition(profile, groups) + [AndWord] + Lift(Tokens(cl), ToTest), v)
         == Read(v(OwnTest(profile)) && GroupsHold(groups, v) && Selects(cl, args, table, item, like), [])
  {
    var first: seq<Tok<Test>> := [Atom(OwnTest(profile))];
    assert first[1..] == [];
    assert ReadFactor(first, v) == Read(v(OwnTest(profile)), []);
    assert ReadAnd(first, v) == Read(v(OwnTest(profile)), []);
    GroupsRead(first, v(OwnTest(profile)), groups, v);
    var b := v(OwnTest(profile)) && GroupsHold(groups, v);
    FilterExtendsCondition(OwnCondition(profile, groups), b, cl, args, table, item, like, v);
  }
}
