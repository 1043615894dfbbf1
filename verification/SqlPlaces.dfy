/** The k-th placeholder of compiled text names the k-th argument. */
module SqlPlaces {
  import opened Wql
  import opened TagSql
  import opened SqlText

  /** How many placeholders a clause without parts prints. */
  function LeafHoles(cl: Clause): nat {
    match cl
    case OpClause(_, op, prefixed, _, _) => if prefixed && PrefixOp(op).Some? then 3 else 2
    case InClause(_, _, count, _) => 1 + count
    case ExistClause(_, _, _) => 1
    case _ => 0
  }

  function TokenHoles(t: Token): nat {
    if t.Atom? then LeafHoles(t.leaf) else 0
  }

  function Holes(ts: seq<Token>): nat {
    if ts == [] then 0 else TokenHoles(ts[0]) + Holes(ts[1..])
  }

  predicate TokenPlaced(t: Token, k: nat) {
    t.Atom? && (t.leaf.OpClause? || t.leaf.InClause? || t.leaf.ExistClause?) ==> t.leaf.at == k
  }

  /** Each leaf's `at` counts the placeholders to its left, starting from k. */
  predicate Placed(ts: seq<Token>, k: nat) {
    ts == [] || (TokenPlaced(ts[0], k) && Placed(ts[1..], k + TokenHoles(ts[0])))
  }

  lemma {:induction false} PlacedAppend(a: seq<Token>, b: seq<Token>, k: nat)
    requires Placed(a, k) && Placed(b, k + Holes(a))
    ensures Placed(a + b, k) && Holes(a + b) == Holes(a) + Holes(b)
  {
    if a == [] {
      assert a + b == b;
    } else {
      assert (a + b)[1..] == a[1..] + b;
      PlacedAppend(a[1..], b, k + TokenHoles(a[0]));
    }
  }

  lemma OneTokenPlaced(t: Token, k: nat)
    requires TokenPlaced(t, k)
    ensures Placed([t], k) && Holes([t]) == TokenHoles(t)
  {
    assert [t][1..] == [];
  }

  /** A conjunction is placed when the list of its parts is. */
  lemma BracketsKeepPlace(parts: seq<Clause>, join: ConjunctionOp, k: nat)
    requires Placed(JoinTokens(parts, join), k)
    ensures var r := ConjClause(join, parts);
      if r.None? then parts == []
      else Placed(Tokens(r.value), k) && Holes(Tokens(r.value)) == Holes(JoinTokens(parts, join))
  {
    var body := JoinTokens(parts, join);
    if |parts| == 0 {
      OneTokenPlaced(Atom(Zero), k);
    } else if |parts| > 1 {
      OneTokenPlaced(Open, k);
      OneTokenPlaced(Close, k + Holes(body));
      PlacedAppend([Open], body, k);
      PlacedAppend([Open] + body, [Close], k);
    }
  }

  /** Adding one more part in front of a placed list keeps it placed. */
  lemma ConsPlaces(first: Clause, rest: seq<Clause>, join: ConjunctionOp, k: nat)
    requires Placed(Tokens(first), k) && Placed(JoinTokens(rest, join), k + Holes(Tokens(first)))
    ensures Placed(JoinTokens([first] + rest, join), k)
    ensures Holes(JoinTokens([first] + rest, join)) == Holes(Tokens(first)) + Holes(JoinTokens(rest, join))
  {
    assert ([first] + rest)[1..] == rest;
    if rest != [] {
      OneTokenPlaced(Word(join), k + Holes(Tokens(first)));
      PlacedAppend(Tokens(first), [Word(join)], k);
      PlacedAppend(Tokens(first) + [Word(join)], JoinTokens(rest, join), k);
    }
  }

  /** The clause, if any, is placed at k and prints as many placeholders as there are arguments. */
  predicate CompiledPlaced(r: Compiled, k: nat) {
    if r.clause.None? then r.args == []
    else Placed(Tokens(r.clause.value), k) && Holes(Tokens(r.clause.value)) == |r.args|
  }

  lemma {:induction false} CompilePlaces(c: Codec, q: TagQuery, negate: bool, at: nat)
    ensures CompiledPlaced(Compile(c, q, negate, at), at)
    decreases q, 1
  {
    match q
    case Not(sub) => CompilePlaces(c, sub, !negate, at);
    case And(subs) =>
      CompileAllPlaces(c, subs, Effective(ConjAnd, negate), negate, at);
      BracketsKeepPlace(CompileAll(c, subs, negate, at).parts, Effective(ConjAnd, negate), at);
    case Or(subs) =>
      CompileAllPlaces(c, subs, Effective(ConjOr, negate), negate, at);
      BracketsKeepPlace(CompileAll(c, subs, negate, at).parts, Effective(ConjOr, negate), at);
    case Exist(names) => CompileExistPlaces(c, names, negate, at);
    case Compare(op, name, value) =>
      OneTokenPlaced(Atom(CompileCompare(c, op, name, value, negate, at).clause.value), at);
    case In(name, values) =>
      OneTokenPlaced(Atom(CompileIn(c, name, values, negate, at).clause.value), at);
  }

  ghost predicate ListPlaced(r: CompiledList, join: ConjunctionOp, at: nat) {
    Placed(JoinTokens(r.parts, join), at) && Holes(JoinTokens(r.parts, join)) == |r.args|
  }

  lemma {:induction false} CompileAllPlaces(c: Codec, qs: seq<TagQuery>, join: ConjunctionOp, negate: bool, at: nat)
    ensures ListPlaced(CompileAll(c, qs, negate, at), join, at)
    decreases qs, 0
  {
    if qs != [] {
      var first := Compile(c, qs[0], negate, at);
      var rest := CompileAll(c, qs[1..], negate, at + |first.args|);
      CompilePlaces(c, qs[0], negate, at);
      CompileAllPlaces(c, qs[1..], join, negate, at + |first.args|);
      PrependPlaces(first, rest, join, at);
      CompileAllUnfolds(c, qs, negate, at);
    }
  }

  lemma CompileAllUnfolds(c: Codec, qs: seq<TagQuery>, negate: bool, at: nat)
    requires qs != []
    ensures var first := Compile(c, qs[0], negate, at);
      CompileAll(c, qs, negate, at) == Prepend(first, CompileAll(c, qs[1..], negate, at + |first.args|))
  {
  }

  lemma PrependPlaces(first: Compiled, rest: CompiledList, join: ConjunctionOp, k: nat)
    requires CompiledPlaced(first, k) && ListPlaced(rest, join, k + |first.args|)
    ensures ListPlaced(Prepend(first, rest), join, k)
  {
    if first.clause.Some? {
      ConsPlaces(first.clause.value, rest.parts, join, k);
    } else {
      assert Prepend(first, rest).parts == rest.parts;
    }
  }

  lemma CompileExistPlaces(c: Codec, names: seq<TagName>, negate: bool, at: nat)
    ensures CompiledPlaced(CompileExist(c, names, negate, at), at)
  {
    if |names| == 1 {
      OneTokenPlaced(Atom(CompileExist(c, names, negate, at).clause.value), at);
    } else {
      CompileNamesPlaces(c, names, negate, at);
      BracketsKeepPlace(CompileNames(c, names, negate, at).parts, ConjAnd, at);
    }
  }

  lemma {:induction false} CompileNamesPlaces(c: Codec, names: seq<TagName>, negate: bool, at: nat)
    ensures var r := CompileNames(c, names, negate, at);
      Placed(JoinTokens(r.parts, ConjAnd), at) && Holes(JoinTokens(r.parts, ConjAnd)) == |r.args|
  {
    if names != [] {
      var first := ExistClause(negate, names[0].Plaintext?, at);
      OneTokenPlaced(Atom(first), at);
      CompileNamesPlaces(c, names[1..], negate, at + 1);
      ConsPlaces(first, CompileNames(c, names[1..], negate, at + 1).parts, ConjAnd, at);
    }
  }
}
