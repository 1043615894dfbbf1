/** The queries on which the tag compiler departs from the query's meaning, and exactly by how much. */
module TagSqlEdges {
  import opened Prelude
  import opened Wql
  import opened TagSql

  /** The clause compiled from q selects the item exactly when q, with its sign, holds of the item. */
  ghost predicate CorrectAt(c: Codec, q: TagQuery, negate: bool, at: nat,
                            args: seq<Bytes>, table: set<Row>, item: int, like: LikeFn)
  {
    SelectsOpt(Compile(c, q, negate, at).clause, args, table, item, like)
    == (Matches(c, q, table, item, like) != negate)
  }

  /** For queries compiled to "no filter" the guard is exact, on every table. */
  lemma VacuousExact(c: Codec, q: TagQuery, negate: bool, at: nat,
                     args: seq<Bytes>, table: set<Row>, item: int, like: LikeFn)
    requires Vacuous(q, negate)
    ensures CorrectAt(c, q, negate, at, args, table, item, like) <==> Faithful(c, q, negate)
  {
    VacuousCompilesToNone(c, q, negate, at);
    VacuousTruthIsMeaning(q, negate, StoredAtoms(c, table, item, like));
  }

  /** A negated Exist of several names is right for an item exactly when the item has all of them or none. */
  lemma NegatedExistPointwise(c: Codec, names: seq<TagName>, at: nat,
                              args: seq<Bytes>, table: set<Row>, item: int, like: LikeFn)
    requires |names| >= 2 && Window(args, at, CompileExist(c, names, true, at).args)
    ensures CorrectAt(c, Exist(names), true, at, args, table, item, like) <==>
            forall j, k | j in names && k in names ::
              TagPresent(c, j, table, item) == TagPresent(c, k, table, item)
  {
    assert names[0] in names;
    NamesCorrect(c, names, true, at, args, table, item, like);
  }

  /** A negated Exist of several names is right on every table exactly when they all name one tag. */
  lemma NegatedExistExact(c: Codec, names: seq<TagName>, at: nat, args: seq<Bytes>, item: int, like: LikeFn)
    requires |names| >= 2 && Window(args, at, CompileExist(c, names, true, at).args)
    ensures (forall table :: CorrectAt(c, Exist(names), true, at, args, table, item, like)) <==> SameKey(c, names)
  {
    if SameKey(c, names) {
      forall table ensures CorrectAt(c, Exist(names), true, at, args, table, item, like) {
        SameKeySamePresence(c, names, table, item);
        NegatedExistPointwise(c, names, at, args, table, item, like);
      }
    } else {
      var i, j :| 0 <= i < |names| && 0 <= j < |names| &&
        !(c.NameArg(names[i]) == c.NameArg(names[j]) && names[i].Plaintext? == names[j].Plaintext?);
      var row := Row(item, c.NameArg(names[i]), [], names[i].Plaintext?);
      var table := {row};
      assert TagIs(c, names[i], table, item, row);
      assert TagPresent(c, names[i], table, item) && !TagPresent(c, names[j], table, item);
      NegatedExistPointwise(c, names, at, args, table, item, like);
      assert !CorrectAt(c, Exist(names), true, at, args, table, item, like);
    }
  }

  lemma DroppedChildVanishes(c: Codec, dropped: TagQuery, subs: seq<TagQuery>, negate: bool, at: nat)
    requires Vacuous(dropped, negate)
    ensures CompileAll(c, [dropped] + subs, negate, at) == CompileAll(c, subs, negate, at)
  {
    assert ([dropped] + subs)[1..] == subs;
    VacuousCompilesToNone(c, dropped, negate, at);
    VacuousPushesNothing(c, dropped, negate, at);
    var rest := CompileAll(c, subs, negate, at);
    assert Prepend(Compile(c, dropped, negate, at), rest) == rest;
  }

  lemma ConsHolds(q: TagQuery, qs: seq<TagQuery>, m: Atoms<TagName, string>)
    ensures AllHold([q] + qs, m) == (Holds(q, m) && AllHold(qs, m))
    ensures AnyHolds([q] + qs, m) == (Holds(q, m) || AnyHolds(qs, m))
  {
    assert ([q] + qs)[1..] == qs;
  }

  /** The query whose emitted conjunction is OR. */
  function OrLike(qs: seq<TagQuery>, negate: bool): TagQuery {
    if negate then And(qs) else Or(qs)
  }

  /**
   * Under an effective OR a true child without a clause is lost: the items left right are those
   * another child accepts.
   */
  lemma DroppedChildExact(c: Codec, dropped: TagQuery, subs: seq<TagQuery>, negate: bool, at: nat,
                          args: seq<Bytes>, table: set<Row>, item: int, like: LikeFn)
    requires Vacuous(dropped, negate) && VacuousTruth(dropped, negate)
    requires FaithfulInOr(c, subs, negate) && AllCollisionFree(c, subs, table)
    requires Window(args, at, CompileAll(c, subs, negate, at).args)
    ensures CorrectAt(c, OrLike([dropped] + subs, negate), negate, at, args, table, item, like) <==>
            Matches(c, OrLike(subs, negate), table, item, like) != negate
  {
    var m := StoredAtoms(c, table, item, like);
    DroppedChildVanishes(c, dropped, subs, negate, at);
    VacuousTruthIsMeaning(dropped, negate, m);
    ConsHolds(dropped, subs, m);
    AnyPartCorrect(c, subs, negate, at, args, table, item, like);
    OrClauseSelects(CompileAll(c, subs, negate, at).parts, args, table, item, like);
    assert Compile(c, OrLike([dropped] + subs, negate), negate, at).clause
        == ConjClause(ConjOr, CompileAll(c, subs, negate, at).parts);
    assert Matches(c, OrLike([dropped] + subs, negate), table, item, like) != negate;
  }

  lemma OrClauseSelects(parts: seq<Clause>, args: seq<Bytes>, table: set<Row>, item: int, like: LikeFn)
    ensures SelectsOpt(ConjClause(ConjOr, parts), args, table, item, like) == SelectsAny(parts, args, table, item, like)
  {
  }

  lemma {:induction false} VacuousPushesNothing(c: Codec, q: TagQuery, negate: bool, at: nat)
    requires Vacuous(q, negate)
    ensures Compile(c, q, negate, at).args == []
    decreases q, 1
  {
    match q
    case Exist(names) =>
    case And(subs) => AllVacuousPushNothing(c, subs, negate, at);
    case Or(subs) => AllVacuousPushNothing(c, subs, negate, at);
    case Not(sub) => VacuousPushesNothing(c, sub, !negate, at);
  }

  lemma {:induction false} AllVacuousPushNothing(c: Codec, qs: seq<TagQuery>, negate: bool, at: nat)
    requires AllVacuous(qs, negate)
    ensures CompileAll(c, qs, negate, at).args == []
    decreases qs, 0
  {
    if qs != [] {
      VacuousPushesNothing(c, qs[0], negate, at);
      AllVacuousPushNothing(c, qs[1..], negate, at);
    }
  }

  /**
   * `!=` on a long encrypted value is right for an item unless every differing value collides on
   * the 12-byte prefix.
   */
  lemma NeqExact(c: Codec, name: TagName, value: string, negate: bool, at: nat,
                 args: seq<Bytes>, table: set<Row>, item: int, like: LikeFn)
    requires name.Encrypted? && |c.ValueArg(value, false)| > NONCE_PREFIX
    requires Window(args, at, CompileCompare(c, Neq, name, value, negate, at).args)
    ensures var v := c.ValueArg(value, false);
      CorrectAt(c, Compare(Neq, name, value), negate, at, args, table, item, like) <==>
      ((exists r :: TagIs(c, name, table, item, r) && r.value != v) ==>
       (exists r :: TagIs(c, name, table, item, r) && Prefix(r.value, NONCE_PREFIX) != v[..NONCE_PREFIX]))
  {
    var compiled := CompileCompare(c, Neq, name, value, negate, at);
    var v := c.ValueArg(value, false);
    assert compiled.args[0] == c.NameArg(name) && compiled.args[1] == v && compiled.args[2] == v[..NONCE_PREFIX];
    assert forall r | r in table && r.item == item ::
        InSubselect(compiled.clause.value, args, r, like) <==>
        TagIs(c, name, table, item, r) && Prefix(r.value, NONCE_PREFIX) != v[..NONCE_PREFIX];
  }

  /** Two signs of one faithful query split the items: whatever one clause selects, the other rejects. */
  lemma NegationIsComplement(c: Codec, q: TagQuery, at: nat, plainArgs: seq<Bytes>, negArgs: seq<Bytes>,
                             table: set<Row>, item: int, like: LikeFn)
    requires Faithful(c, q, false) && Faithful(c, q, true) && CollisionFree(c, q, table)
    requires Window(plainArgs, at, Compile(c, q, false, at).args)
    requires Window(negArgs, at, Compile(c, q, true, at).args)
    ensures SelectsOpt(Compile(c, q, true, at).clause, negArgs, table, item, like)
         != SelectsOpt(Compile(c, q, false, at).clause, plainArgs, table, item, like)
  {
    CompileCorrect(c, q, false, at, plainArgs, table, item, like);
    CompileCorrect(c, q, true, at, negArgs, table, item, like);
  }

  // ----- the choice of the prefix test -----

  /** The comparison p of prefixes follows from the comparison op of the whole values. */
  ghost predicate Follows(op: CompareOp, p: CompareOp, n: nat, like: LikeFn) {
    forall x, y :: SqlCompare(op, x, y, like) ==> SqlCompare(p, Prefix(x, n), Prefix(y, n), like)
  }

  /** Values that agree on their first n bytes, the first of them longer. */
  function Longer(n: nat): Bytes {
    seq(n + 1, _ => 0)
  }

  function Shorter(n: nat): Bytes {
    seq(n, _ => 0)
  }

  lemma {:induction false} LongerIsGreater(a: Bytes, b: bv8)
    ensures LexLess(a, a + [b]) && !LexLess(a + [b], a)
  {
    if a != [] {
      LongerIsGreater(a[1..], b);
      assert (a + [b])[1..] == a[1..] + [b];
    }
  }

  /** Equal prefixes and prefixes in either strict order, from values that satisfy the given comparison. */
  lemma PrefixWitnesses(n: nat)
    requires n > 0
    ensures Prefix(Longer(n), n) == Prefix(Shorter(n), n) == Shorter(n)
    ensures LexLess(Shorter(n), Longer(n)) && !LexLess(Longer(n), Shorter(n))
    ensures Prefix([1], n) == [1] && Prefix([0], n) == [0] && LexLess([0], [1]) && !LexLess([1], [0])
  {
    assert Longer(n) == Shorter(n) + [0];
    LongerIsGreater(Shorter(n), 0);
  }

  /**
   * Among the comparisons of prefixes that lose no row, the one put into the clause is the strictest:
   * it implies every other.
   */
  lemma PrefixTestIsStrictest(op: CompareOp, p: CompareOp, n: nat, like: LikeFn)
    requires op != Neq && op != Like && p != Like && n > 0 && Follows(op, p, n, like)
    ensures PrefixOp(op).Some?
    ensures forall x, y :: SqlCompare(PrefixOp(op).value, x, y, like) ==> SqlCompare(p, x, y, like)
  {
    PrefixWitnesses(n);
    var long, short := Longer(n), Shorter(n);
    assert SqlCompare(op, long, short, like) ==> SqlCompare(p, Prefix(long, n), Prefix(short, n), like);
    assert SqlCompare(op, short, long, like) ==> SqlCompare(p, Prefix(short, n), Prefix(long, n), like);
    assert SqlCompare(op, short, short, like) ==> SqlCompare(p, Prefix(short, n), Prefix(short, n), like);
    assert SqlCompare(op, [1], [0], like) ==> SqlCompare(p, Prefix([1], n), Prefix([0], n), like);
    assert SqlCompare(op, [0], [1], like) ==> SqlCompare(p, Prefix([0], n), Prefix([1], n), like);
    LexTotal(short, short);
    forall x, y ensures SqlCompare(PrefixOp(op).value, x, y, like) ==> SqlCompare(p, x, y, like) {
      LexTotal(x, y);
    }
  }
}
