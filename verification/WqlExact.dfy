/** What the optimiser makes of every query, and exactly when that is the query's meaning. */
module WqlExact {
  import opened Wql

  // ----- a reading for every query -----

  /**
   * What an optimised query says. A part without leaves is passed over, whatever its own truth
   * value; an And or Or left with nothing restricts nothing.
   */
  ghost predicate Optimised<K(!new), V(!new)>(q: Query<K, V>, m: Atoms<K, V>)
    decreases q, 1
  {
    if Leafless(q) then true
    else
      match q
      case And(subs) => AllOptimised(subs, m)
      case Or(subs) => AnyOptimised(subs, m)
      case Not(sub) => !Optimised(sub, m)
      case _ => Holds(q, m)
  }

  ghost predicate AllOptimised<K(!new), V(!new)>(qs: seq<Query<K, V>>, m: Atoms<K, V>)
    decreases qs, 0
  {
    qs == [] || (Optimised(qs[0], m) && AllOptimised(qs[1..], m))
  }

  ghost predicate AnyOptimised<K(!new), V(!new)>(qs: seq<Query<K, V>>, m: Atoms<K, V>)
    decreases qs, 0
  {
    qs != [] && ((!Leafless(qs[0]) && Optimised(qs[0], m)) || AnyOptimised(qs[1..], m))
  }

  /** For every query at all, the result of the optimiser has that reading. */
  lemma {:induction false} OptimiseReads<K(!new), V(!new)>(q: Query<K, V>, m: Atoms<K, V>)
    requires Sensible(m)
    ensures HoldsOpt(Optimise(q), m) == Optimised(q, m)
    decreases q, 1
  {
    OptimiseVanishes(q);
    if !Leafless(q) {
      match q
      case Not(sub) =>
        OptimiseVanishes(sub);
        OptimiseReads(sub, m);
      case And(subs) =>
        OptimiseAllReads(subs, m);
        SmallConjunction(OptimiseAll(subs), m);
      case Or(subs) =>
        OptimiseAllReads(subs, m);
        SmallConjunction(OptimiseAll(subs), m);
      case In(k, values) =>
        assert |values| == 1 ==> values == [values[0]];
      case _ =>
    }
  }

  lemma {:induction false} OptimiseAllReads<K(!new), V(!new)>(qs: seq<Query<K, V>>, m: Atoms<K, V>)
    requires Sensible(m)
    ensures AllHold(OptimiseAll(qs), m) == AllOptimised(qs, m)
    ensures AnyHolds(OptimiseAll(qs), m) == AnyOptimised(qs, m)
    decreases qs, 0
  {
    if qs != [] {
      OptimiseVanishes(qs[0]);
      OptimiseReads(qs[0], m);
      OptimiseAllReads(qs[1..], m);
      OptimiseAllStep(qs);
    }
  }

  // ----- an Or that loses children -----

  /** The children that are kept. */
  function Leafy<K, V>(qs: seq<Query<K, V>>): seq<Query<K, V>> {
    if qs == [] then [] else (if Leafless(qs[0]) then [] else [qs[0]]) + Leafy(qs[1..])
  }

  predicate DropsTrue<K, V>(qs: seq<Query<K, V>>) {
    qs != [] && ((Leafless(qs[0]) && Constant(qs[0])) || DropsTrue(qs[1..]))
  }

  predicate LeafyOptimisable<K, V>(qs: seq<Query<K, V>>) {
    qs == [] || ((Leafless(qs[0]) || Optimisable(qs[0])) && LeafyOptimisable(qs[1..]))
  }

  lemma {:induction false} OrSplits<K(!new), V(!new)>(qs: seq<Query<K, V>>, m: Atoms<K, V>)
    requires LeafyOptimisable(qs) && Sensible(m)
    ensures AnyHolds(qs, m) == (DropsTrue(qs) || AnyHolds(Leafy(qs), m))
    ensures AnyOptimised(qs, m) == AnyHolds(Leafy(qs), m)
  {
    if qs != [] {
      OrSplits(qs[1..], m);
      if Leafless(qs[0]) {
        ConstantIsMeaning(qs[0], m);
        assert Leafy(qs) == Leafy(qs[1..]);
      } else {
        assert Leafy(qs)[1..] == Leafy(qs[1..]);
        OptimisePreservesMeaning(qs[0], m);
        OptimiseReads(qs[0], m);
      }
    }
  }

  /** An Or that drops a true child keeps its meaning exactly for the items some kept child still accepts. */
  lemma OptimiseOrExact<K(!new), V(!new)>(subs: seq<Query<K, V>>, m: Atoms<K, V>)
    requires LeafyOptimisable(subs) && !AllLeafless(subs) && Sensible(m)
    ensures HoldsOpt(Optimise(Or(subs)), m) == Holds(Or(subs), m)
        <==> (DropsTrue(subs) ==> AnyHolds(Leafy(subs), m))
  {
    OptimiseReads(Or(subs), m);
    OrSplits(subs, m);
  }

  // ----- facts, worlds, and queries that read each fact once -----

  /** What can be true or false of an item. */
  datatype Fact<K, V> = Compares(op: CompareOp, k: K, v: V) | OneOf(k: K, vs: seq<V>) | Present(k: K)

  function InFact<K, V>(k: K, vs: seq<V>): Fact<K, V> {
    if |vs| == 1 then Compares(Eq, k, vs[0]) else OneOf(k, vs)
  }

  /** An item of which exactly the facts in w are true. */
  ghost function World<K(!new), V(!new)>(w: set<Fact<K, V>>): (m: Atoms<K, V>)
    ensures Sensible(m)
  {
    Atoms((op, k, v) => Compares(op, k, v) in w, (k, vs) => InFact(k, vs) in w, k => Present(k) in w)
  }

  ghost function FactsOf<K(!new), V(!new)>(q: Query<K, V>): set<Fact<K, V>>
    decreases q, 1
  {
    match q
    case And(subs) => FactsOfAll(subs)
    case Or(subs) => FactsOfAll(subs)
    case Not(sub) => FactsOf(sub)
    case Compare(op, name, value) => {Compares(op, name, value)}
    case In(name, values) => {InFact(name, values)}
    case Exist(names) => set k | k in names :: Present(k)
  }

  ghost function FactsOfAll<K(!new), V(!new)>(qs: seq<Query<K, V>>): set<Fact<K, V>>
    decreases qs, 0
  {
    if qs == [] then {} else FactsOf(qs[0]) + FactsOfAll(qs[1..])
  }

  /** No fact is asked in two subqueries, and no Exist is empty. */
  ghost predicate ReadOnce<K(!new), V(!new)>(q: Query<K, V>)
    decreases q, 1
  {
    match q
    case And(subs) => AllReadOnce(subs)
    case Or(subs) => AllReadOnce(subs)
    case Not(sub) => ReadOnce(sub)
    case Exist(names) => names != []
    case _ => true
  }

  ghost predicate AllReadOnce<K(!new), V(!new)>(qs: seq<Query<K, V>>)
    decreases qs, 0
  {
    qs == [] || (ReadOnce(qs[0]) && AllReadOnce(qs[1..]) && FactsOf(qs[0]) !! FactsOfAll(qs[1..]))
  }

  /** Only the facts a query asks matter to it. */
  lemma {:induction false} Local<K(!new), V(!new)>(q: Query<K, V>, w: set<Fact<K, V>>, w': set<Fact<K, V>>)
    requires forall f | f in FactsOf(q) :: f in w <==> f in w'
    ensures Holds(q, World(w)) == Holds(q, World(w')) && Optimised(q, World(w)) == Optimised(q, World(w'))
    decreases q, 1
  {
    match q
    case And(subs) => LocalAll(subs, w, w');
    case Or(subs) => LocalAll(subs, w, w');
    case Not(sub) => Local(sub, w, w');
    case Exist(names) => assert forall k | k in names :: Present(k) in FactsOf(q);
    case _ =>
  }

  lemma {:induction false} LocalAll<K(!new), V(!new)>(qs: seq<Query<K, V>>, w: set<Fact<K, V>>, w': set<Fact<K, V>>)
    requires forall f | f in FactsOfAll(qs) :: f in w <==> f in w'
    ensures AllHold(qs, World(w)) == AllHold(qs, World(w')) && AnyHolds(qs, World(w)) == AnyHolds(qs, World(w'))
    ensures AllOptimised(qs, World(w)) == AllOptimised(qs, World(w'))
    ensures AnyOptimised(qs, World(w)) == AnyOptimised(qs, World(w'))
    decreases qs, 0
  {
    if qs != [] {
      Local(qs[0], w, w');
      LocalAll(qs[1..], w, w');
    }
  }

  /** Facts chosen for the first query and for the others can be put together. */
  lemma {:induction false} Together<K(!new), V(!new)>(qs: seq<Query<K, V>>, w: set<Fact<K, V>>, ws: set<Fact<K, V>>)
    requires qs != [] && AllReadOnce(qs) && w <= FactsOf(qs[0]) && ws <= FactsOfAll(qs[1..])
    ensures w + ws <= FactsOfAll(qs)
    ensures Holds(qs[0], World(w + ws)) == Holds(qs[0], World(w))
    ensures Optimised(qs[0], World(w + ws)) == Optimised(qs[0], World(w))
    ensures AllHold(qs[1..], World(w + ws)) == AllHold(qs[1..], World(ws))
    ensures AnyHolds(qs[1..], World(w + ws)) == AnyHolds(qs[1..], World(ws))
    ensures AllOptimised(qs[1..], World(w + ws)) == AllOptimised(qs[1..], World(ws))
    ensures AnyOptimised(qs[1..], World(w + ws)) == AnyOptimised(qs[1..], World(ws))
  {
    Local(qs[0], w + ws, w);
    LocalAll(qs[1..], w + ws, ws);
  }

  /** Every query with a leaf can be made to read true, and made to read false. */
  lemma {:induction false} Reach<K(!new), V(!new)>(q: Query<K, V>, b: bool) returns (w: set<Fact<K, V>>)
    requires ReadOnce(q) && !Leafless(q)
    ensures w <= FactsOf(q) && Optimised(q, World(w)) == b
    decreases q, 1
  {
    match q
    case And(subs) => w := ReachAll(subs, b);
    case Or(subs) => w := ReachAny(subs, b);
    case Not(sub) => w := Reach(sub, !b);
    case Exist(names) =>
      w := if b then FactsOf(q) else {};
      assert names[0] in names;
    case _ => w := if b then FactsOf(q) else {};
  }

  lemma {:induction false} ReachAll<K(!new), V(!new)>(qs: seq<Query<K, V>>, b: bool) returns (w: set<Fact<K, V>>)
    requires AllReadOnce(qs) && (b || !AllLeafless(qs))
    ensures w <= FactsOfAll(qs) && AllOptimised(qs, World(w)) == b
    decreases qs, 0
  {
    if qs == [] {
      w := {};
    } else if Leafless(qs[0]) {
      w := ReachAll(qs[1..], b);
    } else {
      var first := Reach(qs[0], b);
      var others := ReachAll(qs[1..], true);
      Together(qs, first, others);
      w := first + others;
    }
  }

  lemma {:induction false} ReachAny<K(!new), V(!new)>(qs: seq<Query<K, V>>, b: bool) returns (w: set<Fact<K, V>>)
    requires AllReadOnce(qs) && (!b || !AllLeafless(qs))
    ensures w <= FactsOfAll(qs) && AnyOptimised(qs, World(w)) == b
    decreases qs, 0
  {
    if qs == [] {
      w := {};
    } else if Leafless(qs[0]) {
      w := ReachAny(qs[1..], b);
    } else {
      var first := Reach(qs[0], b);
      var others := ReachAny(qs[1..], false);
      Together(qs, first, others);
      w := first + others;
    }
  }

  /** A query outside the guard reads differently from its meaning for some item. */
  lemma {:induction false} Differ<K(!new), V(!new)>(q: Query<K, V>) returns (w: set<Fact<K, V>>)
    requires ReadOnce(q) && !Optimisable(q)
    ensures w <= FactsOf(q) && Optimised(q, World(w)) != Holds(q, World(w))
    decreases q, 1
  {
    if Leafless(q) {
      w := {};
      ConstantIsMeaning(q, World(w));
    } else {
      match q
      case And(subs) => w := DifferAll(subs);
      case Or(subs) => w := DifferAny(subs);
      case Not(sub) => w := Differ(sub);
    }
  }

  /** The first of a list that is false while it reads true, or some item at which it differs and the rest agree. */
  lemma {:induction false} DifferAll<K(!new), V(!new)>(qs: seq<Query<K, V>>) returns (w: set<Fact<K, V>>)
    requires AllReadOnce(qs) && !AllOptimisable(qs)
    ensures w <= FactsOfAll(qs) && AllOptimised(qs, World(w)) != AllHold(qs, World(w))
    decreases qs, 0
  {
    var first := ReadsTrue(qs[0]);
    var others := ReachAll(qs[1..], true);
    Together(qs, first, others);
    w := first + others;
    if AllHold(qs, World(w)) {
      if !Optimisable(qs[0]) {
        first := Differ(qs[0]);
      } else {
        others := DifferAll(qs[1..]);
      }
      Together(qs, first, others);
      w := first + others;
    }
  }

  lemma ReadsTrue<K(!new), V(!new)>(q: Query<K, V>) returns (w: set<Fact<K, V>>)
    requires ReadOnce(q)
    ensures w <= FactsOf(q) && Optimised(q, World(w))
  {
    w := {};
    if !Leafless(q) {
      w := Reach(q, true);
    }
  }

  lemma {:induction false} DifferAny<K(!new), V(!new)>(qs: seq<Query<K, V>>) returns (w: set<Fact<K, V>>)
    requires AllReadOnce(qs) && !AllOptimisableInOr(qs)
    ensures w <= FactsOfAll(qs) && AnyOptimised(qs, World(w)) != AnyHolds(qs, World(w))
    decreases qs, 0
  {
    var first: set<Fact<K, V>> := {};
    if !Leafless(qs[0]) {
      first := Reach(qs[0], false);
    }
    var others := ReachAny(qs[1..], false);
    Together(qs, first, others);
    w := first + others;
    if !AnyHolds(qs, World(w)) {
      if Leafless(qs[0]) {
        ConstantIsMeaning(qs[0], World(w));
        others := DifferAny(qs[1..]);
        ConstantIsMeaning(qs[0], World(first));
      } else if !Optimisable(qs[0]) {
        first := Differ(qs[0]);
      } else {
        others := DifferAny(qs[1..]);
      }
      Together(qs, first, others);
      w := first + others;
    }
  }

  /**
   * For queries that ask each fact once the guard is exact: the meaning is kept for every item if
   * and only if it holds.
   */
  lemma {:induction false} OptimiseExact<K(!new), V(!new)>(q: Query<K, V>)
    requires ReadOnce(q)
    ensures (forall m | Sensible(m) :: HoldsOpt(Optimise(q), m) == Holds(q, m)) <==> Optimisable(q)
  {
    if Optimisable(q) {
      forall m | Sensible(m) ensures HoldsOpt(Optimise(q), m) == Holds(q, m) {
        OptimisePreservesMeaning(q, m);
      }
    } else {
      var w := Differ(q);
      OptimiseReads(q, World(w));
    }
  }

  // ----- why the shape alone does not decide when facts repeat -----

  /** Two queries that differ in names and values only. */
  predicate SameShape<K, V>(p: Query<K, V>, q: Query<K, V>)
    decreases p, 1
  {
    match p
    case And(subs) => q.And? && SameShapes(subs, q.subs)
    case Or(subs) => q.Or? && SameShapes(subs, q.subs)
    case Not(sub) => q.Not? && SameShape(sub, q.sub)
    case Compare(op, _, _) => q.Compare? && op == q.op
    case In(_, values) => q.In? && |values| == |q.values|
    case Exist(names) => q.Exist? && |names| == |q.names|
  }

  predicate SameShapes<K, V>(ps: seq<Query<K, V>>, qs: seq<Query<K, V>>)
    decreases ps, 0
  {
    |ps| == |qs| && (ps == [] || (SameShape(ps[0], qs[0]) && SameShapes(ps[1..], qs[1..])))
  }

  function WithTrueChild<K, V>(a: Query<K, V>, b: Query<K, V>): Query<K, V> {
    Or([And([])] + ([a] + [Not(b)]))
  }

  lemma ConsReads<K(!new), V(!new)>(q: Query<K, V>, qs: seq<Query<K, V>>, m: Atoms<K, V>)
    ensures AnyHolds([q] + qs, m) == (Holds(q, m) || AnyHolds(qs, m))
    ensures AnyOptimised([q] + qs, m) == ((!Leafless(q) && Optimised(q, m)) || AnyOptimised(qs, m))
    ensures AllLeafless([q] + qs) == (Leafless(q) && AllLeafless(qs))
  {
    assert ([q] + qs)[1..] == qs;
  }

  lemma ConsShape<K, V>(p: Query<K, V>, ps: seq<Query<K, V>>, q: Query<K, V>, qs: seq<Query<K, V>>)
    ensures SameShapes([p] + ps, [q] + qs) == (SameShape(p, q) && SameShapes(ps, qs))
  {
    assert ([p] + ps)[1..] == ps && ([q] + qs)[1..] == qs;
  }

  lemma WithTrueChildReads<K(!new), V(!new)>(a: Query<K, V>, b: Query<K, V>, m: Atoms<K, V>)
    requires a.Compare? && b.Compare? && Sensible(m)
    ensures Holds(WithTrueChild(a, b), m)
    ensures HoldsOpt(Optimise(WithTrueChild(a, b)), m) == (Holds(a, m) || !Holds(b, m))
  {
    var empty: Query<K, V>, last: Query<K, V> := And([]), Not(b);
    ConsReads(empty, [a] + [last], m);
    ConsReads(a, [last], m);
    ConsReads(last, [], m);
    assert [last] + [] == [last];
    assert Leafless(empty) && AllHold(empty.subs, m);
    assert Optimised(b, m) == Holds(b, m);
    var subs := [empty] + ([a] + [last]);
    assert !Leafless(Or(subs)) && WithTrueChild(a, b) == Or(subs);
    assert AnyOptimised(subs, m) == (Holds(a, m) || !Holds(b, m));
    OptimiseReads(Or(subs), m);
  }

  lemma WithTrueChildShape<K, V>(a: Query<K, V>, b: Query<K, V>)
    requires a.Compare? && b.Compare? && a.op == b.op
    ensures SameShape(WithTrueChild(a, a), WithTrueChild(a, b))
  {
    var empty: Query<K, V> := And([]);
    var last: Query<K, V>, last': Query<K, V> := Not(a), Not(b);
    ConsShape(empty, [a] + [last], empty, [a] + [last']);
    ConsShape(a, [last], a, [last']);
    ConsShape(last, [], last', []);
    assert [last] + [] == [last] && [last'] + [] == [last'];
  }

  /**
   * A query that loses a true child and keeps its meaning for every item, and one of the same shape
   * that loses it for some: no condition on the shape can be exact once facts repeat.
   */
  lemma ShapeDoesNotDecide<K(!new), V(!new)>(a: Query<K, V>, b: Query<K, V>)
    requires a.Compare? && b.Compare? && a.op == b.op && a != b
    ensures SameShape(WithTrueChild(a, a), WithTrueChild(a, b))
    ensures forall m | Sensible(m) :: HoldsOpt(Optimise(WithTrueChild(a, a)), m) == Holds(WithTrueChild(a, a), m)
    ensures exists m :: Sensible(m) && HoldsOpt(Optimise(WithTrueChild(a, b)), m) != Holds(WithTrueChild(a, b), m)
  {
    WithTrueChildShape(a, b);
    forall m | Sensible(m)
      ensures HoldsOpt(Optimise(WithTrueChild(a, a)), m) == Holds(WithTrueChild(a, a), m)
    {
      WithTrueChildReads(a, a, m);
    }
    var m := World({Compares(b.op, b.name, b.value)});
    WithTrueChildReads(a, b, m);
    assert !Holds(a, m) && Holds(b, m);
  }
}
