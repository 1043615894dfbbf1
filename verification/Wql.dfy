/** The wallet query language: its abstract syntax, its meaning, and the clause optimiser. */
module Wql {
  import opened Prelude

  datatype CompareOp = Eq | Neq | Gt | Gte | Lt | Lte | Like

  /** A query over names K and values V. The seven comparison variants share one constructor. */
  datatype Query<K, V> =
    | And(subs: seq<Query<K, V>>)
    | Or(subs: seq<Query<K, V>>)
    | Not(sub: Query<K, V>)
    | Compare(op: CompareOp, name: K, value: V)
    | In(name: K, values: seq<V>)
    | Exist(names: seq<K>)

  /** What the atoms of a query say about one item. */
  datatype Atoms<!K, !V> = Atoms(
    compare: (CompareOp, K, V) -> bool,
    oneOf: (K, seq<V>) -> bool,
    present: K -> bool)

  /** The meaning of a query for an item whose atoms are m. */
  ghost predicate Holds<K(!new), V(!new)>(q: Query<K, V>, m: Atoms<K, V>)
    decreases q, 1
  {
    match q
    case And(subs) => AllHold(subs, m)
    case Or(subs) => AnyHolds(subs, m)
    case Not(sub) => !Holds(sub, m)
    case Compare(op, name, value) => m.compare(op, name, value)
    case In(name, values) => m.oneOf(name, values)
    case Exist(names) => forall k | k in names :: m.present(k)
  }

  ghost predicate AllHold<K(!new), V(!new)>(qs: seq<Query<K, V>>, m: Atoms<K, V>)
    decreases qs, 0
  {
    qs == [] || (Holds(qs[0], m) && AllHold(qs[1..], m))
  }

  ghost predicate AnyHolds<K(!new), V(!new)>(qs: seq<Query<K, V>>, m: Atoms<K, V>)
    decreases qs, 0
  {
    qs != [] && (Holds(qs[0], m) || AnyHolds(qs[1..], m))
  }

  /** Basic clause optimisation. None stands for "no restriction". */
  function Optimise<K, V>(q: Query<K, V>): (r: Option<Query<K, V>>)
    decreases q, 1
  {
    match q
    case Not(sub) =>
      (match Optimise(sub)
       case None => None
       case Some(Not(nested)) => Some(nested)
       case Some(other) => Some(Not(other)))
    case And(subs) =>
      var kept := OptimiseAll(subs);
      if |kept| == 0 then None else if |kept| == 1 then Some(kept[0]) else Some(And(kept))
    case Or(subs) =>
      var kept := OptimiseAll(subs);
      if |kept| == 0 then None else if |kept| == 1 then Some(kept[0]) else Some(Or(kept))
    case In(name, values) =>
      if |values| == 1 then Some(Compare(Eq, name, values[0])) else Some(q)
    case _ => Some(q)
  }

  /** `filter_map(optimise)` over a list of subqueries. */
  function OptimiseAll<K, V>(qs: seq<Query<K, V>>): (r: seq<Query<K, V>>)
    ensures |r| <= |qs|
    decreases qs, 0
  {
    if qs == [] then []
    else
      match Optimise(qs[0])
      case None => OptimiseAll(qs[1..])
      case Some(q) => [q] + OptimiseAll(qs[1..])
  }

  // ----- what the optimiser produces -----

  /** No double Not, no And or Or with fewer than two children, no single-value In. */
  predicate Normal<K, V>(q: Query<K, V>)
    decreases q, 1
  {
    match q
    case Not(sub) => !sub.Not? && Normal(sub)
    case And(subs) => |subs| >= 2 && AllNormal(subs)
    case Or(subs) => |subs| >= 2 && AllNormal(subs)
    case In(_, values) => |values| != 1
    case _ => true
  }

  predicate AllNormal<K, V>(qs: seq<Query<K, V>>)
    decreases qs, 0
  {
    qs == [] || (Normal(qs[0]) && AllNormal(qs[1..]))
  }

  lemma {:induction false} OptimiseNormalises<K, V>(q: Query<K, V>)
    ensures Optimise(q).Some? ==> Normal(Optimise(q).value)
    decreases q, 1
  {
    match q
    case Not(sub) => OptimiseNormalises(sub);
    case And(subs) => OptimiseAllNormalises(subs);
    case Or(subs) => OptimiseAllNormalises(subs);
    case _ =>
  }

  lemma {:induction false} OptimiseAllNormalises<K, V>(qs: seq<Query<K, V>>)
    ensures AllNormal(OptimiseAll(qs))
    decreases qs, 0
  {
    if qs != [] {
      OptimiseNormalises(qs[0]);
      OptimiseAllNormalises(qs[1..]);
      assert Optimise(qs[0]).Some? ==> OptimiseAll(qs)[1..] == OptimiseAll(qs[1..]);
    }
  }

  lemma {:induction false} NormalIsFixed<K, V>(q: Query<K, V>)
    requires Normal(q)
    ensures Optimise(q) == Some(q)
    decreases q, 1
  {
    match q
    case Not(sub) => NormalIsFixed(sub);
    case And(subs) => AllNormalIsFixed(subs);
    case Or(subs) => AllNormalIsFixed(subs);
    case _ =>
  }

  lemma {:induction false} AllNormalIsFixed<K, V>(qs: seq<Query<K, V>>)
    requires AllNormal(qs)
    ensures OptimiseAll(qs) == qs
    decreases qs, 0
  {
    if qs != [] {
      NormalIsFixed(qs[0]);
      AllNormalIsFixed(qs[1..]);
    }
  }

  /** Optimising twice is optimising once. */
  lemma OptimiseIdempotent<K, V>(q: Query<K, V>)
    ensures Optimise(q).Some? ==> Optimise(Optimise(q).value) == Optimise(q)
  {
    if Optimise(q).Some? {
      OptimiseNormalises(q);
      NormalIsFixed(Optimise(q).value);
    }
  }

  // ----- when the optimiser keeps the meaning -----

  /** A query without any comparison, In or Exist in it. */
  predicate Leafless<K, V>(q: Query<K, V>)
    decreases q, 1
  {
    match q
    case Not(sub) => Leafless(sub)
    case And(subs) => AllLeafless(subs)
    case Or(subs) => AllLeafless(subs)
    case _ => false
  }

  predicate AllLeafless<K, V>(qs: seq<Query<K, V>>)
    decreases qs, 0
  {
    qs == [] || (Leafless(qs[0]) && AllLeafless(qs[1..]))
  }

  /** The optimiser answers "no restriction" exactly for the leafless queries. */
  lemma {:induction false} OptimiseVanishes<K, V>(q: Query<K, V>)
    ensures Optimise(q).None? <==> Leafless(q)
    decreases q, 1
  {
    match q
    case Not(sub) => OptimiseVanishes(sub);
    case And(subs) => OptimiseAllVanishes(subs);
    case Or(subs) => OptimiseAllVanishes(subs);
    case _ =>
  }

  lemma {:induction false} OptimiseAllVanishes<K, V>(qs: seq<Query<K, V>>)
    ensures OptimiseAll(qs) == [] <==> AllLeafless(qs)
    decreases qs, 0
  {
    if qs != [] {
      OptimiseVanishes(qs[0]);
      OptimiseAllVanishes(qs[1..]);
    }
  }

  /** The constant truth value of a leafless query. */
  predicate Constant<K, V>(q: Query<K, V>)
    requires Leafless(q)
    decreases q, 1
  {
    match q
    case Not(sub) => !Constant(sub)
    case And(subs) => ConstantAll(subs)
    case Or(subs) => ConstantAny(subs)
  }

  predicate ConstantAll<K, V>(qs: seq<Query<K, V>>)
    requires AllLeafless(qs)
    decreases qs, 0
  {
    qs == [] || (Constant(qs[0]) && ConstantAll(qs[1..]))
  }

  predicate ConstantAny<K, V>(qs: seq<Query<K, V>>)
    requires AllLeafless(qs)
    decreases qs, 0
  {
    qs != [] && (Constant(qs[0]) || ConstantAny(qs[1..]))
  }

  lemma {:induction false} ConstantIsMeaning<K(!new), V(!new)>(q: Query<K, V>, m: Atoms<K, V>)
    requires Leafless(q)
    ensures Constant(q) == Holds(q, m)
    decreases q, 1
  {
    match q
    case Not(sub) => ConstantIsMeaning(sub, m);
    case And(subs) => ConstantListIsMeaning(subs, m);
    case Or(subs) => ConstantListIsMeaning(subs, m);
  }

  lemma {:induction false} ConstantListIsMeaning<K(!new), V(!new)>(qs: seq<Query<K, V>>, m: Atoms<K, V>)
    requires AllLeafless(qs)
    ensures ConstantAll(qs) == AllHold(qs, m)
    ensures ConstantAny(qs) == AnyHolds(qs, m)
    decreases qs, 0
  {
    if qs != [] {
      ConstantIsMeaning(qs[0], m);
      ConstantListIsMeaning(qs[1..], m);
    }
  }

  /** A vanishing query is true, and a query that vanishes below an Or is false. */
  predicate Optimisable<K, V>(q: Query<K, V>)
    decreases q, 1
  {
    if Leafless(q) then Constant(q)
    else
      match q
      case Not(sub) => Optimisable(sub)
      case And(subs) => AllOptimisable(subs)
      case Or(subs) => AllOptimisableInOr(subs)
      case _ => true
  }

  predicate AllOptimisable<K, V>(qs: seq<Query<K, V>>)
    decreases qs, 0
  {
    qs == [] || (Optimisable(qs[0]) && AllOptimisable(qs[1..]))
  }

  predicate AllOptimisableInOr<K, V>(qs: seq<Query<K, V>>)
    decreases qs, 0
  {
    qs == [] ||
    ((if Leafless(qs[0]) then !Constant(qs[0]) else Optimisable(qs[0])) && AllOptimisableInOr(qs[1..]))
  }

  /** The meaning of an optional query: an absent one restricts nothing. */
  ghost predicate HoldsOpt<K(!new), V(!new)>(q: Option<Query<K, V>>, m: Atoms<K, V>) {
    q.Some? ==> Holds(q.value, m)
  }

  /** In with one value means equality with that value. */
  ghost predicate Sensible<K(!new), V(!new)>(m: Atoms<K, V>) {
    forall k, v :: m.oneOf(k, [v]) == m.compare(Eq, k, v)
  }

  /** The optimiser keeps the meaning of every optimisable query. */
  lemma {:induction false} OptimisePreservesMeaning<K(!new), V(!new)>(q: Query<K, V>, m: Atoms<K, V>)
    requires Optimisable(q) && Sensible(m)
    ensures HoldsOpt(Optimise(q), m) == Holds(q, m)
    decreases q, 1
  {
    OptimiseVanishes(q);
    if Leafless(q) {
      ConstantIsMeaning(q, m);
    } else {
      match q
      case Not(sub) =>
        OptimiseVanishes(sub);
        OptimisePreservesMeaning(sub, m);
      case And(subs) =>
        OptimiseAllPreservesAnd(subs, m);
        SmallConjunction(OptimiseAll(subs), m);
      case Or(subs) =>
        OptimiseAllPreservesOr(subs, m);
        SmallConjunction(OptimiseAll(subs), m);
      case In(k, values) =>
        assert |values| == 1 ==> values == [values[0]];
      case _ =>
    }
  }

  lemma SmallConjunction<K(!new), V(!new)>(qs: seq<Query<K, V>>, m: Atoms<K, V>)
    ensures |qs| == 1 ==> AllHold(qs, m) == AnyHolds(qs, m) == Holds(qs[0], m)
  {
    if |qs| == 1 {
      assert qs[1..] == [];
    }
  }

  lemma OptimiseAllStep<K, V>(qs: seq<Query<K, V>>)
    requires qs != []
    ensures Optimise(qs[0]).Some? ==> OptimiseAll(qs)[1..] == OptimiseAll(qs[1..])
  {
  }

  lemma {:induction false} OptimiseAllPreservesAnd<K(!new), V(!new)>(qs: seq<Query<K, V>>, m: Atoms<K, V>)
    requires AllOptimisable(qs) && Sensible(m)
    ensures AllHold(OptimiseAll(qs), m) == AllHold(qs, m)
    decreases qs, 0
  {
    if qs != [] {
      OptimisePreservesMeaning(qs[0], m);
      OptimiseAllPreservesAnd(qs[1..], m);
      OptimiseAllStep(qs);
    }
  }

  lemma {:induction false} OptimiseAllPreservesOr<K(!new), V(!new)>(qs: seq<Query<K, V>>, m: Atoms<K, V>)
    requires AllOptimisableInOr(qs) && Sensible(m)
    ensures AnyHolds(OptimiseAll(qs), m) == AnyHolds(qs, m)
    decreases qs, 0
  {
    if qs != [] {
      OptimiseVanishes(qs[0]);
      if Leafless(qs[0]) {
        ConstantIsMeaning(qs[0], m);
      } else {
        OptimisePreservesMeaning(qs[0], m);
      }
      OptimiseAllPreservesOr(qs[1..], m);
      OptimiseAllStep(qs);
    }
  }

  /** For leafless queries the guard is exact: the meaning survives if and only if it was "true". */
  lemma OptimiseLeaflessExact<K(!new), V(!new)>(q: Query<K, V>, m: Atoms<K, V>)
    requires Leafless(q)
    ensures HoldsOpt(Optimise(q), m) == Holds(q, m) <==> Optimisable(q)
  {
    OptimiseVanishes(q);
    ConstantIsMeaning(q, m);
  }

  // ----- queries without empty lists -----

  predicate NoEmptyList<K, V>(q: Query<K, V>)
    decreases q, 1
  {
    match q
    case And(subs) => subs != [] && NoEmptyLists(subs)
    case Or(subs) => subs != [] && NoEmptyLists(subs)
    case Not(sub) => NoEmptyList(sub)
    case _ => true
  }

  predicate NoEmptyLists<K, V>(qs: seq<Query<K, V>>)
    decreases qs, 0
  {
    qs == [] || (NoEmptyList(qs[0]) && NoEmptyLists(qs[1..]))
  }

  /** A query in which no And and no Or is empty never vanishes, and the optimiser keeps its meaning. */
  lemma {:induction false} NoEmptyListIsOptimisable<K, V>(q: Query<K, V>)
    requires NoEmptyList(q)
    ensures !Leafless(q) && Optimisable(q)
    decreases q, 1
  {
    match q
    case And(subs) => NoEmptyListsAreOptimisable(subs);
    case Or(subs) => NoEmptyListsAreOptimisable(subs);
    case Not(sub) => NoEmptyListIsOptimisable(sub);
    case _ =>
  }

  lemma {:induction false} NoEmptyListsAreOptimisable<K, V>(qs: seq<Query<K, V>>)
    requires NoEmptyLists(qs)
    ensures (qs != [] ==> !AllLeafless(qs)) && AllOptimisable(qs) && AllOptimisableInOr(qs)
    decreases qs, 0
  {
    if qs != [] {
      NoEmptyListIsOptimisable(qs[0]);
      NoEmptyListsAreOptimisable(qs[1..]);
    }
  }
}
