/** For queries that name each stored tag once, the guard on the tag compiler is exact over all tables. */
module TagSqlExact {
  import opened Prelude
  import opened Wql
  import opened TagSql
  import opened TagSqlEdges
  import opened TagSqlAllQueries
  import WqlExact

  // ----- the stored tags a query asks about -----

  /** A tag as it is stored: the encrypted name, and whether the value is plaintext. */
  datatype StoredName = StoredName(name: Bytes, plaintext: bool)

  ghost function Stored(c: Codec, name: TagName): StoredName {
    StoredName(c.NameArg(name), name.Plaintext?)
  }

  ghost function NameOf(r: Row): StoredName {
    StoredName(r.name, r.plaintext)
  }

  ghost function NamesOf(c: Codec, q: TagQuery): set<StoredName>
    decreases q, 1
  {
    match q
    case And(subs) => NamesOfAll(c, subs)
    case Or(subs) => NamesOfAll(c, subs)
    case Not(sub) => NamesOf(c, sub)
    case Compare(_, name, _) => {Stored(c, name)}
    case In(name, _) => {Stored(c, name)}
    case Exist(names) => set k | k in names :: Stored(c, k)
  }

  ghost function NamesOfAll(c: Codec, qs: seq<TagQuery>): set<StoredName>
    decreases qs, 0
  {
    if qs == [] then {} else NamesOf(c, qs[0]) + NamesOfAll(c, qs[1..])
  }

  ghost predicate Within(t: set<Row>, names: set<StoredName>) {
    forall r | r in t :: NameOf(r) in names
  }

  /**
   * No stored name occurs in two subqueries; every comparison is true of some value, every In lists
   * one; and no effective OR is left without a child, for which the constant "0" would be emitted.
   */
  ghost predicate Separate(c: Codec, q: TagQuery, negate: bool, like: LikeFn)
    decreases q, 1
  {
    match q
    case And(subs) => AllSeparate(c, subs, negate, like) && (negate ==> !AllVacuous(subs, negate))
    case Or(subs) => AllSeparate(c, subs, negate, like) && (!negate ==> !AllVacuous(subs, negate))
    case Not(sub) => Separate(c, sub, !negate, like)
    case Compare(op, name, value) => exists x :: SqlCompare(op, x, c.ValueArg(value, name.Plaintext?), like)
    case In(_, values) => values != []
    case Exist(_) => true
  }

  ghost predicate AllSeparate(c: Codec, qs: seq<TagQuery>, negate: bool, like: LikeFn)
    decreases qs, 0
  {
    qs == [] ||
    (&& Separate(c, qs[0], negate, like) && AllSeparate(c, qs[1..], negate, like)
     && NamesOf(c, qs[0]) !! NamesOfAll(c, qs[1..]))
  }

  // ----- the meaning of lists under a sign -----

  ghost predicate Means(q: TagQuery, negate: bool, m: Atoms<TagName, string>) {
    Holds(q, m) != negate
  }

  ghost predicate AllMean(qs: seq<TagQuery>, negate: bool, m: Atoms<TagName, string>) {
    qs == [] || (Means(qs[0], negate, m) && AllMean(qs[1..], negate, m))
  }

  ghost predicate AnyMeans(qs: seq<TagQuery>, negate: bool, m: Atoms<TagName, string>) {
    qs != [] && (Means(qs[0], negate, m) || AnyMeans(qs[1..], negate, m))
  }

  /** De Morgan's laws. */
  lemma {:induction false} ListsMean(qs: seq<TagQuery>, m: Atoms<TagName, string>)
    ensures AllMean(qs, false, m) == AllHold(qs, m) && AnyMeans(qs, false, m) == AnyHolds(qs, m)
    ensures AllMean(qs, true, m) == !AnyHolds(qs, m) && AnyMeans(qs, true, m) == !AllHold(qs, m)
  {
    if qs != [] {
      ListsMean(qs[1..], m);
    }
  }

  lemma {:induction false} VacuousIsKept(q: TagQuery, negate: bool, m: Atoms<TagName, string>)
    requires Vacuous(q, negate)
    ensures Kept(q, negate, m)
    decreases q, 1
  {
    match q
    case And(subs) => AllVacuousAreKept(subs, negate, m);
    case Or(subs) => AllVacuousAreKept(subs, negate, m);
    case Not(sub) => VacuousIsKept(sub, !negate, m);
    case _ =>
  }

  lemma {:induction false} AllVacuousAreKept(qs: seq<TagQuery>, negate: bool, m: Atoms<TagName, string>)
    requires AllVacuous(qs, negate)
    ensures AllKept(qs, negate, m)
    decreases qs, 0
  {
    if qs != [] {
      VacuousIsKept(qs[0], negate, m);
      AllVacuousAreKept(qs[1..], negate, m);
    }
  }

  // ----- only the rows under a query's names matter to it -----

  ghost predicate Alike(t: set<Row>, t': set<Row>, names: set<StoredName>) {
    forall r | NameOf(r) in names :: r in t <==> r in t'
  }

  lemma AtomsAlike(c: Codec, name: TagName, t: set<Row>, t': set<Row>, item: int, like: LikeFn)
    requires Alike(t, t', {Stored(c, name)})
    ensures forall r :: TagIs(c, name, t, item, r) <==> TagIs(c, name, t', item, r)
    ensures forall op, v :: TagCompares(c, op, name, v, t, item, like) == TagCompares(c, op, name, v, t', item, like)
    ensures forall vs :: TagOneOf(c, name, vs, t, item) == TagOneOf(c, name, vs, t', item)
    ensures TagPresent(c, name, t, item) == TagPresent(c, name, t', item)
  {
    forall r ensures TagIs(c, name, t, item, r) <==> TagIs(c, name, t', item, r) {
      assert NameOf(r) == Stored(c, name) ==> (r in t <==> r in t');
    }
  }

  lemma {:induction false} Local(c: Codec, q: TagQuery, negate: bool, t: set<Row>, t': set<Row>, item: int,
                                 like: LikeFn)
    requires Alike(t, t', NamesOf(c, q))
    ensures Means(q, negate, StoredAtoms(c, t, item, like)) == Means(q, negate, StoredAtoms(c, t', item, like))
    ensures Kept(q, negate, StoredAtoms(c, t, item, like)) == Kept(q, negate, StoredAtoms(c, t', item, like))
    ensures CollisionFree(c, q, t) == CollisionFree(c, q, t')
    decreases q, 1
  {
    match q
    case And(subs) => LocalAll(c, subs, negate, t, t', item, like);
      ListsMean(subs, StoredAtoms(c, t, item, like));
      ListsMean(subs, StoredAtoms(c, t', item, like));
    case Or(subs) => LocalAll(c, subs, negate, t, t', item, like);
      ListsMean(subs, StoredAtoms(c, t, item, like));
      ListsMean(subs, StoredAtoms(c, t', item, like));
    case Not(sub) => Local(c, sub, !negate, t, t', item, like);
    case Compare(op, name, value) =>
      AtomsAlike(c, name, t, t', item, like);
      assert forall r: Row | r.name == c.NameArg(name) && !r.plaintext && name.Encrypted? ::
          NameOf(r) == Stored(c, name);
    case In(name, values) => AtomsAlike(c, name, t, t', item, like);
    case Exist(names) =>
      forall k | k in names ensures TagPresent(c, k, t, item) == TagPresent(c, k, t', item) {
        assert Stored(c, k) in NamesOf(c, q);
        AtomsAlike(c, k, t, t', item, like);
      }
  }

  lemma {:induction false} LocalAll(c: Codec, qs: seq<TagQuery>, negate: bool, t: set<Row>, t': set<Row>, item: int,
                                    like: LikeFn)
    requires Alike(t, t', NamesOfAll(c, qs))
    ensures var m, m' := StoredAtoms(c, t, item, like), StoredAtoms(c, t', item, like);
      && AllMean(qs, negate, m) == AllMean(qs, negate, m') && AnyMeans(qs, negate, m) == AnyMeans(qs, negate, m')
      && AllKept(qs, negate, m) == AllKept(qs, negate, m') && AnyKept(qs, negate, m) == AnyKept(qs, negate, m')
    ensures AllCollisionFree(c, qs, t) == AllCollisionFree(c, qs, t')
    decreases qs, 0
  {
    if qs != [] {
      Local(c, qs[0], negate, t, t', item, like);
      LocalAll(c, qs[1..], negate, t, t', item, like);
    }
  }

  /** Rows chosen for the first query and for the others can be put together. */
  lemma {:induction false} Together(c: Codec, qs: seq<TagQuery>, negate: bool, t: set<Row>, ts: set<Row>, item: int,
                                    like: LikeFn)
    requires qs != [] && AllSeparate(c, qs, negate, like)
    requires Within(t, NamesOf(c, qs[0])) && Within(ts, NamesOfAll(c, qs[1..]))
    requires CollisionFree(c, qs[0], t) && AllCollisionFree(c, qs[1..], ts)
    ensures Within(t + ts, NamesOfAll(c, qs)) && AllCollisionFree(c, qs, t + ts)
    ensures var m := StoredAtoms(c, t + ts, item, like);
      var m1, ms := StoredAtoms(c, t, item, like), StoredAtoms(c, ts, item, like);
      && Means(qs[0], negate, m) == Means(qs[0], negate, m1) && Kept(qs[0], negate, m) == Kept(qs[0], negate, m1)
      && AllMean(qs[1..], negate, m) == AllMean(qs[1..], negate, ms)
      && AnyMeans(qs[1..], negate, m) == AnyMeans(qs[1..], negate, ms)
      && AllKept(qs[1..], negate, m) == AllKept(qs[1..], negate, ms)
      && AnyKept(qs[1..], negate, m) == AnyKept(qs[1..], negate, ms)
  {
    Local(c, qs[0], negate, t + ts, t, item, like);
    LocalAll(c, qs[1..], negate, t + ts, ts, item, like);
  }

  // ----- every query can be made to read either way -----

  /** A value of which the comparison is true and, for !=, visibly so in its first bytes. */
  lemma Attain(op: CompareOp, v: Bytes, like: LikeFn) returns (x: Bytes)
    requires exists y :: SqlCompare(op, y, v, like)
    ensures SqlCompare(op, x, v, like)
    ensures op == Neq && |v| > NONCE_PREFIX ==> Prefix(x, NONCE_PREFIX) != v[..NONCE_PREFIX]
  {
    if op == Neq {
      x := if v == [] then [0] else [];
    } else {
      x :| SqlCompare(op, x, v, like);
    }
  }

  lemma ReachCompare(c: Codec, op: CompareOp, name: TagName, value: string, holds: bool, item: int, like: LikeFn)
      returns (t: set<Row>)
    requires exists x :: SqlCompare(op, x, c.ValueArg(value, name.Plaintext?), like)
    ensures Within(t, {Stored(c, name)}) && CollisionFree(c, Compare(op, name, value), t)
    ensures TagCompares(c, op, name, value, t, item, like) == holds
  {
    t := {};
    if holds {
      var x := Attain(op, c.ValueArg(value, name.Plaintext?), like);
      var r := Row(item, c.NameArg(name), x, name.Plaintext?);
      t := {r};
      assert TagIs(c, name, t, item, r);
    }
  }

  lemma ReachIn(c: Codec, name: TagName, values: seq<string>, holds: bool, item: int) returns (t: set<Row>)
    requires values != []
    ensures Within(t, {Stored(c, name)}) && TagOneOf(c, name, values, t, item) == holds
  {
    t := {};
    if holds {
      var r := Row(item, c.NameArg(name), c.ValueArg(values[0], name.Plaintext?), name.Plaintext?);
      t := {r};
      assert TagIs(c, name, t, item, r) && values[0] in values;
    }
  }

  ghost function Present(c: Codec, name: TagName, item: int): Row {
    Row(item, c.NameArg(name), [], name.Plaintext?)
  }

  lemma ReachExist(c: Codec, names: seq<TagName>, negate: bool, b: bool, item: int) returns (t: set<Row>)
    requires names != []
    ensures Within(t, set k | k in names :: Stored(c, k))
    ensures b == forall k | k in names :: TagPresent(c, k, t, item) != negate
  {
    t := {};
    if b != negate {
      t := set k | k in names :: Present(c, k, item);
      forall k | k in names ensures TagPresent(c, k, t, item) {
        assert TagIs(c, k, t, item, Present(c, k, item));
      }
    }
    assert names[0] in names;
  }

  lemma {:induction false} Reach(c: Codec, q: TagQuery, negate: bool, b: bool, item: int, like: LikeFn)
      returns (t: set<Row>)
    requires Separate(c, q, negate, like) && !Vacuous(q, negate)
    ensures Within(t, NamesOf(c, q)) && CollisionFree(c, q, t)
    ensures Kept(q, negate, StoredAtoms(c, t, item, like)) == b
    decreases q, 1
  {
    match q
    case And(subs) =>
      if negate {
        t := ReachAny(c, subs, negate, b, item, like);
      } else {
        t := ReachAll(c, subs, negate, b, item, like);
      }
    case Or(subs) =>
      if negate {
        t := ReachAll(c, subs, negate, b, item, like);
      } else {
        t := ReachAny(c, subs, negate, b, item, like);
      }
    case Not(sub) => t := Reach(c, sub, !negate, b, item, like);
    case Compare(op, name, value) => t := ReachCompare(c, op, name, value, b != negate, item, like);
    case In(name, values) => t := ReachIn(c, name, values, b != negate, item);
    case Exist(names) => t := ReachExist(c, names, negate, b, item);
  }

  lemma {:induction false} ReachAll(c: Codec, qs: seq<TagQuery>, negate: bool, b: bool, item: int, like: LikeFn)
      returns (t: set<Row>)
    requires AllSeparate(c, qs, negate, like) && (b || !AllVacuous(qs, negate))
    ensures Within(t, NamesOfAll(c, qs)) && AllCollisionFree(c, qs, t)
    ensures AllKept(qs, negate, StoredAtoms(c, t, item, like)) == b
    decreases qs, 0
  {
    if qs == [] {
      t := {};
    } else {
      var first := ReadsTrue(c, qs[0], negate, item, like);
      var others := ReachAll(c, qs[1..], negate, b || AllVacuous(qs[1..], negate), item, like);
      if !b && AllVacuous(qs[1..], negate) {
        first := Reach(c, qs[0], negate, false, item, like);
      }
      Together(c, qs, negate, first, others, item, like);
      t := first + others;
    }
  }

  lemma {:induction false} ReadsTrue(c: Codec, q: TagQuery, negate: bool, item: int, like: LikeFn) returns (t: set<Row>)
    requires Separate(c, q, negate, like)
    ensures Within(t, NamesOf(c, q)) && CollisionFree(c, q, t)
    ensures Kept(q, negate, StoredAtoms(c, t, item, like))
    decreases q, 2
  {
    if Vacuous(q, negate) {
      t := {};
      VacuousIsKept(q, negate, StoredAtoms(c, t, item, like));
      EmptyIsCollisionFree(c, q);
    } else {
      t := Reach(c, q, negate, true, item, like);
    }
  }

  lemma {:induction false} EmptyIsCollisionFree(c: Codec, q: TagQuery)
    ensures CollisionFree(c, q, {})
    decreases q, 1
  {
    match q
    case And(subs) => EmptyIsAllCollisionFree(c, subs);
    case Or(subs) => EmptyIsAllCollisionFree(c, subs);
    case Not(sub) => EmptyIsCollisionFree(c, sub);
    case _ =>
  }

  lemma {:induction false} EmptyIsAllCollisionFree(c: Codec, qs: seq<TagQuery>)
    ensures AllCollisionFree(c, qs, {})
    decreases qs, 0
  {
    if qs != [] {
      EmptyIsCollisionFree(c, qs[0]);
      EmptyIsAllCollisionFree(c, qs[1..]);
    }
  }

  lemma {:induction false} ReachAny(c: Codec, qs: seq<TagQuery>, negate: bool, b: bool, item: int, like: LikeFn)
      returns (t: set<Row>)
    requires AllSeparate(c, qs, negate, like) && (!b || !AllVacuous(qs, negate))
    ensures Within(t, NamesOfAll(c, qs)) && AllCollisionFree(c, qs, t)
    ensures AnyKept(qs, negate, StoredAtoms(c, t, item, like)) == b
    decreases qs, 0
  {
    if qs == [] {
      t := {};
    } else {
      var first: set<Row> := {};
      EmptyIsCollisionFree(c, qs[0]);
      if !Vacuous(qs[0], negate) {
        first := Reach(c, qs[0], negate, b, item, like);
      }
      var others := ReachAny(c, qs[1..], negate, b && Vacuous(qs[0], negate), item, like);
      Together(c, qs, negate, first, others, item, like);
      t := first + others;
    }
  }

  // ----- a query outside the guard is misread on some table -----

  lemma {:induction false} Differ(c: Codec, q: TagQuery, negate: bool, item: int, like: LikeFn) returns (t: set<Row>)
    requires Separate(c, q, negate, like) && !Faithful(c, q, negate)
    ensures Within(t, NamesOf(c, q)) && CollisionFree(c, q, t)
    ensures var m := StoredAtoms(c, t, item, like); Kept(q, negate, m) != Means(q, negate, m)
    decreases q, 1
  {
    if Vacuous(q, negate) {
      t := {};
      EmptyIsCollisionFree(c, q);
      VacuousIsKept(q, negate, StoredAtoms(c, t, item, like));
      VacuousTruthIsMeaning(q, negate, StoredAtoms(c, t, item, like));
    } else {
      match q
      case And(subs) =>
        if negate {
          t := DifferAny(c, subs, negate, item, like);
        } else {
          t := DifferAll(c, subs, negate, item, like);
        }
        ListsMean(subs, StoredAtoms(c, t, item, like));
      case Or(subs) =>
        if negate {
          t := DifferAll(c, subs, negate, item, like);
        } else {
          t := DifferAny(c, subs, negate, item, like);
        }
        ListsMean(subs, StoredAtoms(c, t, item, like));
      case Not(sub) => t := Differ(c, sub, !negate, item, like);
      case Exist(names) => t := DifferExist(c, names, item, like);
    }
  }

  /** One of two different names present, the other absent. */
  lemma DifferExist(c: Codec, names: seq<TagName>, item: int, like: LikeFn) returns (t: set<Row>)
    requires !SameKey(c, names)
    ensures Within(t, set k | k in names :: Stored(c, k))
    ensures exists k :: k in names && TagPresent(c, k, t, item)
    ensures exists k :: k in names && !TagPresent(c, k, t, item)
  {
    var i, j :| 0 <= i < |names| && 0 <= j < |names| && Stored(c, names[i]) != Stored(c, names[j]);
    t := {Present(c, names[i], item)};
    assert TagIs(c, names[i], t, item, Present(c, names[i], item)) && names[i] in names && names[j] in names;
    OnlyPresent(c, names[i], names[j], item);
  }

  lemma OnlyPresent(c: Codec, here: TagName, other: TagName, item: int)
    requires Stored(c, here) != Stored(c, other)
    ensures !TagPresent(c, other, {Present(c, here, item)}, item)
  {
    var r := Present(c, here, item);
    assert NameOf(r) == Stored(c, here);
    assert c.NameArg(other) != r.name || other.Plaintext? != r.plaintext;
  }

  lemma {:induction false} DifferAll(c: Codec, qs: seq<TagQuery>, negate: bool, item: int, like: LikeFn)
      returns (t: set<Row>)
    requires AllSeparate(c, qs, negate, like) && !AllFaithful(c, qs, negate)
    ensures Within(t, NamesOfAll(c, qs)) && AllCollisionFree(c, qs, t)
    ensures var m := StoredAtoms(c, t, item, like); AllKept(qs, negate, m) != AllMean(qs, negate, m)
    decreases qs, 0
  {
    var first := ReadsTrue(c, qs[0], negate, item, like);
    var others := ReachAll(c, qs[1..], negate, true, item, like);
    Together(c, qs, negate, first, others, item, like);
    t := first + others;
    if AllMean(qs, negate, StoredAtoms(c, t, item, like)) {
      if !Faithful(c, qs[0], negate) {
        first := Differ(c, qs[0], negate, item, like);
      } else {
        others := DifferAll(c, qs[1..], negate, item, like);
      }
      Together(c, qs, negate, first, others, item, like);
      t := first + others;
    }
  }

  lemma {:induction false} DifferAny(c: Codec, qs: seq<TagQuery>, negate: bool, item: int, like: LikeFn)
      returns (t: set<Row>)
    requires AllSeparate(c, qs, negate, like) && !FaithfulInOr(c, qs, negate)
    ensures Within(t, NamesOfAll(c, qs)) && AllCollisionFree(c, qs, t)
    ensures var m := StoredAtoms(c, t, item, like); AnyKept(qs, negate, m) != AnyMeans(qs, negate, m)
    decreases qs, 0
  {
    var first: set<Row> := {};
    EmptyIsCollisionFree(c, qs[0]);
    if !Vacuous(qs[0], negate) {
      first := Reach(c, qs[0], negate, false, item, like);
    }
    var others := ReachAny(c, qs[1..], negate, false, item, like);
    Together(c, qs, negate, first, others, item, like);
    t := first + others;
    if !AnyMeans(qs, negate, StoredAtoms(c, t, item, like)) {
      if Vacuous(qs[0], negate) {
        VacuousTruthIsMeaning(qs[0], negate, StoredAtoms(c, t, item, like));
        VacuousTruthIsMeaning(qs[0], negate, StoredAtoms(c, first, item, like));
        others := DifferAny(c, qs[1..], negate, item, like);
      } else if !Faithful(c, qs[0], negate) {
        first := Differ(c, qs[0], negate, item, like);
      } else {
        others := DifferAny(c, qs[1..], negate, item, like);
      }
      Together(c, qs, negate, first, others, item, like);
      t := first + others;
    }
  }

  /** For such queries the compiled clause is right on every table if and only if the query is faithful. */
  lemma {:induction false} FaithfulExactly(c: Codec, q: TagQuery, negate: bool, at: nat, args: seq<Bytes>, item: int,
                                           like: LikeFn)
    requires Separate(c, q, negate, like) && Window(args, at, Compile(c, q, negate, at).args)
    ensures (forall table | CollisionFree(c, q, table) :: CorrectAt(c, q, negate, at, args, table, item, like))
        <==> Faithful(c, q, negate)
  {
    if Faithful(c, q, negate) {
      forall table | CollisionFree(c, q, table) ensures CorrectAt(c, q, negate, at, args, table, item, like) {
        CompileCorrect(c, q, negate, at, args, table, item, like);
      }
    } else {
      var t := Differ(c, q, negate, item, like);
      CompileSelectsKept(c, q, negate, at, args, t, item, like);
      assert !CorrectAt(c, q, negate, at, args, t, item, like);
    }
  }

  // ----- why the shape alone does not decide when names repeat -----

  lemma ConsKept(q: TagQuery, qs: seq<TagQuery>, m: Atoms<TagName, string>)
    ensures AnyKept([q] + qs, false, m) == ((!Vacuous(q, false) && Kept(q, false, m)) || AnyKept(qs, false, m))
    ensures AnyHolds([q] + qs, m) == (Holds(q, m) || AnyHolds(qs, m))
  {
    assert ([q] + qs)[1..] == qs;
  }

  lemma WithTrueChildKept(a: TagQuery, b: TagQuery, m: Atoms<TagName, string>)
    requires a.Compare? && b.Compare?
    ensures Holds(WqlExact.WithTrueChild(a, b), m)
    ensures Kept(WqlExact.WithTrueChild(a, b), false, m) == (Holds(a, m) || !Holds(b, m))
  {
    var empty: TagQuery, last: TagQuery := And([]), Not(b);
    ConsKept(empty, [a] + [last], m);
    ConsKept(a, [last], m);
    ConsKept(last, [], m);
    assert [last] + [] == [last];
    assert Vacuous(empty, false) && AllHold(empty.subs, m);
    assert Kept(last, false, m) == Kept(b, true, m);
  }

  /**
   * A query that loses a true child and is still compiled correctly for every table, and one of the
   * same shape that is misread on some: once names repeat, no condition on the shape is exact.
   */
  lemma {:induction false} CompilerShapeDoesNotDecide(c: Codec, a: TagQuery, b: TagQuery, at: nat, args: seq<Bytes>,
                                                      args': seq<Bytes>, item: int, like: LikeFn)
    requires a.Compare? && b.Compare? && a.op == b.op && Stored(c, a.name) != Stored(c, b.name)
    requires exists x :: SqlCompare(b.op, x, c.ValueArg(b.value, b.name.Plaintext?), like)
    requires Window(args, at, Compile(c, WqlExact.WithTrueChild(a, a), false, at).args)
    requires Window(args', at, Compile(c, WqlExact.WithTrueChild(a, b), false, at).args)
    ensures WqlExact.SameShape(WqlExact.WithTrueChild(a, a), WqlExact.WithTrueChild(a, b))
    ensures forall table | CollisionFree(c, WqlExact.WithTrueChild(a, a), table) ::
      CorrectAt(c, WqlExact.WithTrueChild(a, a), false, at, args, table, item, like)
    ensures !forall table | CollisionFree(c, WqlExact.WithTrueChild(a, b), table) ::
      CorrectAt(c, WqlExact.WithTrueChild(a, b), false, at, args', table, item, like)
  {
    WqlExact.WithTrueChildShape(a, b);
    forall table | CollisionFree(c, WqlExact.WithTrueChild(a, a), table)
      ensures CorrectAt(c, WqlExact.WithTrueChild(a, a), false, at, args, table, item, like)
    {
      CompileSelectsKept(c, WqlExact.WithTrueChild(a, a), false, at, args, table, item, like);
      WithTrueChildKept(a, a, StoredAtoms(c, table, item, like));
    }
    var t := ReachCompare(c, b.op, b.name, b.value, true, item, like);
    OthersAbsent(c, a, b, t, item, like);
    CompileSelectsKept(c, WqlExact.WithTrueChild(a, b), false, at, args', t, item, like);
    WithTrueChildKept(a, b, StoredAtoms(c, t, item, like));
    assert !CorrectAt(c, WqlExact.WithTrueChild(a, b), false, at, args', t, item, like);
  }

  /** In a table with rows of b's name only, a holds of nothing and nothing collides with it. */
  lemma OthersAbsent(c: Codec, a: TagQuery, b: TagQuery, t: set<Row>, item: int, like: LikeFn)
    requires a.Compare? && b.Compare? && Stored(c, a.name) != Stored(c, b.name)
    requires Within(t, {Stored(c, b.name)}) && CollisionFree(c, b, t)
    ensures CollisionFree(c, WqlExact.WithTrueChild(a, b), t) && !Holds(a, StoredAtoms(c, t, item, like))
  {
    var empty: TagQuery, last: TagQuery := And([]), Not(b);
    assert forall r | r in t :: NameOf(r) == Stored(c, b.name);
    assert forall r | r in t :: r.name != c.NameArg(a.name) || r.plaintext != a.name.Plaintext?;
    assert CollisionFree(c, a, t) && CollisionFree(c, last, t) && CollisionFree(c, empty, t);
    ConsCollisionFree(c, empty, [a] + [last], t);
    ConsCollisionFree(c, a, [last], t);
    ConsCollisionFree(c, last, [], t);
    assert [last] + [] == [last];
  }

  lemma ConsCollisionFree(c: Codec, q: TagQuery, qs: seq<TagQuery>, t: set<Row>)
    ensures AllCollisionFree(c, [q] + qs, t) == (CollisionFree(c, q, t) && AllCollisionFree(c, qs, t))
  {
    assert ([q] + qs)[1..] == qs;
  }
}
