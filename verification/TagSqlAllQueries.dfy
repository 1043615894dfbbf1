/** What the compiled clause selects for every query at all, and when that is the query's meaning. */
module TagSqlAllQueries {
  import opened Prelude
  import opened Wql
  import opened TagSql
  import opened TagSqlEdges

  /**
   * What the compiler keeps of a query and its sign. It differs from the meaning in two places:
   * under negation a list of names asks that every one be absent, and below an effective OR a
   * child that restricts nothing is passed over.
   */
  ghost predicate Kept<K(!new), V(!new)>(q: Query<K, V>, negate: bool, m: Atoms<K, V>)
    decreases q, 1
  {
    match q
    case And(subs) => if negate then AnyKept(subs, negate, m) else AllKept(subs, negate, m)
    case Or(subs) => if negate then AllKept(subs, negate, m) else AnyKept(subs, negate, m)
    case Not(sub) => Kept(sub, !negate, m)
    case Compare(op, name, value) => m.compare(op, name, value) != negate
    case In(name, values) => m.oneOf(name, values) != negate
    case Exist(names) => forall k | k in names :: m.present(k) != negate
  }

  ghost predicate AllKept<K(!new), V(!new)>(qs: seq<Query<K, V>>, negate: bool, m: Atoms<K, V>)
    decreases qs, 0
  {
    qs == [] || (Kept(qs[0], negate, m) && AllKept(qs[1..], negate, m))
  }

  ghost predicate AnyKept<K(!new), V(!new)>(qs: seq<Query<K, V>>, negate: bool, m: Atoms<K, V>)
    decreases qs, 0
  {
    qs != [] && ((!Vacuous(qs[0], negate) && Kept(qs[0], negate, m)) || AnyKept(qs[1..], negate, m))
  }

  /** For every query and sign, whatever its shape, the clause selects exactly what is kept. */
  lemma {:induction false} CompileSelectsKept(c: Codec, q: TagQuery, negate: bool, at: nat,
                                              args: seq<Bytes>, table: set<Row>, item: int, like: LikeFn)
    requires CollisionFree(c, q, table)
    requires Window(args, at, Compile(c, q, negate, at).args)
    ensures SelectsOpt(Compile(c, q, negate, at).clause, args, table, item, like)
         == Kept(q, negate, StoredAtoms(c, table, item, like))
    decreases q, 1
  {
    match q
    case Compare(op, name, value) => CompareCorrect(c, op, name, value, negate, at, args, table, item, like);
    case In(name, values) => InCorrect(c, name, values, negate, at, args, table, item, like);
    case Exist(names) => ExistSelectsKept(c, names, negate, at, args, table, item, like);
    case And(subs) =>
      if negate {
        AnyPartKept(c, subs, negate, at, args, table, item, like);
      } else {
        AllPartsKept(c, subs, negate, at, args, table, item, like);
      }
    case Or(subs) =>
      if negate {
        AllPartsKept(c, subs, negate, at, args, table, item, like);
      } else {
        AnyPartKept(c, subs, negate, at, args, table, item, like);
      }
    case Not(sub) => CompileSelectsKept(c, sub, !negate, at, args, table, item, like);
  }

  lemma ExistSelectsKept(c: Codec, names: seq<TagName>, negate: bool, at: nat,
                         args: seq<Bytes>, table: set<Row>, item: int, like: LikeFn)
    requires Window(args, at, CompileExist(c, names, negate, at).args)
    ensures SelectsOpt(CompileExist(c, names, negate, at).clause, args, table, item, like)
         == forall k | k in names :: TagPresent(c, k, table, item) != negate
  {
    if |names| == 1 {
      assert names[0] in names && forall k | k in names :: k == names[0];
      ExistOneCorrect(c, names[0], negate, at, args, table, item, like);
    } else if names != [] {
      NamesCorrect(c, names, negate, at, args, table, item, like);
    }
  }

  lemma {:induction false} AllPartsKept(c: Codec, qs: seq<TagQuery>, negate: bool, at: nat,
                                        args: seq<Bytes>, table: set<Row>, item: int, like: LikeFn)
    requires AllCollisionFree(c, qs, table)
    requires Window(args, at, CompileAll(c, qs, negate, at).args)
    ensures SelectsAll(CompileAll(c, qs, negate, at).parts, args, table, item, like)
         == AllKept(qs, negate, StoredAtoms(c, table, item, like))
    decreases qs, 0
  {
    if qs != [] {
      var first := Compile(c, qs[0], negate, at);
      var rest := CompileAll(c, qs[1..], negate, at + |first.args|);
      WindowSplit(args, at, first.args, rest.args);
      CompileSelectsKept(c, qs[0], negate, at, args, table, item, like);
      AllPartsKept(c, qs[1..], negate, at + |first.args|, args, table, item, like);
      PrependSelects(first, rest, args, table, item, like);
    }
  }

  lemma {:induction false} AnyPartKept(c: Codec, qs: seq<TagQuery>, negate: bool, at: nat,
                                       args: seq<Bytes>, table: set<Row>, item: int, like: LikeFn)
    requires AllCollisionFree(c, qs, table)
    requires Window(args, at, CompileAll(c, qs, negate, at).args)
    ensures SelectsAny(CompileAll(c, qs, negate, at).parts, args, table, item, like)
         == AnyKept(qs, negate, StoredAtoms(c, table, item, like))
    decreases qs, 0
  {
    if qs != [] {
      var first := Compile(c, qs[0], negate, at);
      var rest := CompileAll(c, qs[1..], negate, at + |first.args|);
      WindowSplit(args, at, first.args, rest.args);
      VacuousCompilesToNone(c, qs[0], negate, at);
      CompileSelectsKept(c, qs[0], negate, at, args, table, item, like);
      AnyPartKept(c, qs[1..], negate, at + |first.args|, args, table, item, like);
      PrependSelects(first, rest, args, table, item, like);
    }
  }

  /** So the compiled clause is right about an item exactly when what is kept agrees with the meaning there. */
  lemma CorrectExactly(c: Codec, q: TagQuery, negate: bool, at: nat,
                       args: seq<Bytes>, table: set<Row>, item: int, like: LikeFn)
    requires CollisionFree(c, q, table)
    requires Window(args, at, Compile(c, q, negate, at).args)
    ensures var m := StoredAtoms(c, table, item, like);
      CorrectAt(c, q, negate, at, args, table, item, like) <==> (Kept(q, negate, m) <==> Holds(q, m) != negate)
  {
    CompileSelectsKept(c, q, negate, at, args, table, item, like);
  }

  // ----- queries of the ordinary shape -----

  /** No empty And, Or or Exist, and no list of names under an odd number of Nots. */
  predicate Ordinary(q: TagQuery, negate: bool)
    decreases q, 1
  {
    match q
    case And(subs) => subs != [] && AllOrdinary(subs, negate)
    case Or(subs) => subs != [] && AllOrdinary(subs, negate)
    case Not(sub) => Ordinary(sub, !negate)
    case Exist(names) => |names| == 1 || (!negate && names != [])
    case _ => true
  }

  predicate AllOrdinary(qs: seq<TagQuery>, negate: bool)
    decreases qs, 0
  {
    qs == [] || (Ordinary(qs[0], negate) && AllOrdinary(qs[1..], negate))
  }

  lemma {:induction false} OrdinaryIsFaithful(c: Codec, q: TagQuery, negate: bool)
    requires Ordinary(q, negate)
    ensures !Vacuous(q, negate) && Faithful(c, q, negate)
    decreases q, 1
  {
    match q
    case And(subs) => AllOrdinaryAreFaithful(c, subs, negate);
    case Or(subs) => AllOrdinaryAreFaithful(c, subs, negate);
    case Not(sub) => OrdinaryIsFaithful(c, sub, !negate);
    case _ =>
  }

  lemma {:induction false} AllOrdinaryAreFaithful(c: Codec, qs: seq<TagQuery>, negate: bool)
    requires AllOrdinary(qs, negate)
    ensures (qs != [] ==> !AllVacuous(qs, negate)) && AllFaithful(c, qs, negate) && FaithfulInOr(c, qs, negate)
    decreases qs, 0
  {
    if qs != [] {
      OrdinaryIsFaithful(c, qs[0], negate);
      AllOrdinaryAreFaithful(c, qs[1..], negate);
    }
  }

  /** Compiled either way, a query of the ordinary shape selects its items, or exactly the others. */
  lemma OrdinaryCompilesCorrectly(c: Codec, q: TagQuery, negate: bool, at: nat,
                                  args: seq<Bytes>, table: set<Row>, item: int, like: LikeFn)
    requires Ordinary(q, negate) && CollisionFree(c, q, table)
    requires Window(args, at, Compile(c, q, negate, at).args)
    ensures CorrectAt(c, q, negate, at, args, table, item, like)
  {
    OrdinaryIsFaithful(c, q, negate);
    CompileCorrect(c, q, negate, at, args, table, item, like);
  }
}
