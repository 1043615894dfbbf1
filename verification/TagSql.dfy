/** Compilation of a tag query to a SQL clause and its argument list, and what the clause selects. */
module TagSql {
  import opened Prelude
  import opened Wql

  datatype TagName = Encrypted(text: string) | Plaintext(text: string)

  type TagQuery = Query<TagName, string>

  datatype ConjunctionOp = ConjAnd | ConjOr {
    function Negate(): ConjunctionOp {
      if this == ConjAnd then ConjOr else ConjAnd
    }
  }

  /** Length of the nonce that starts an encrypted tag value. */
  const NONCE_PREFIX := 12

  /** The comparison put on the first NONCE_PREFIX bytes of the value, if any. */
  function PrefixOp(op: CompareOp): Option<CompareOp> {
    match op
    case Eq => Some(Eq)
    case Neq => Some(Neq)
    case Gt | Gte => Some(Gte)
    case Lt | Lte => Some(Lte)
    case Like => None
  }

  /** The two encryption closures held by the encoder (either may fail), and UTF-8 encoding. */
  datatype Codec = Codec(
    encName: string -> Option<Bytes>,
    encValue: string -> Option<Bytes>,
    utf8: string -> Bytes)
  {
    function NameArg(name: TagName): Bytes {
      encName(name.text).GetOr([])
    }

    function ValueArg(value: string, plaintext: bool): Bytes {
      if plaintext then utf8(value) else encValue(value).GetOr([])
    }
  }

  /** A clause of the generated WHERE condition. `at` is how many arguments precede its own. */
  datatype Clause =
    | OpClause(negate: bool, op: CompareOp, prefixed: bool, plaintext: bool, at: nat)
    | InClause(negate: bool, plaintext: bool, count: nat, at: nat)
    | ExistClause(negate: bool, plaintext: bool, at: nat)
    | Zero
    | Conj(join: ConjunctionOp, parts: seq<Clause>)

  /** What encoding adds: an optional clause (None restricts nothing) and pushed arguments. */
  datatype Compiled = Compiled(clause: Option<Clause>, args: seq<Bytes>)
  datatype CompiledList = CompiledList(parts: seq<Clause>, args: seq<Bytes>)

  function ConjClause(op: ConjunctionOp, parts: seq<Clause>): Option<Clause> {
    if |parts| == 0 then (if op == ConjOr then Some(Zero) else None) else Some(Conj(op, parts))
  }

  function CompileCompare(c: Codec, op: CompareOp, name: TagName, value: string, negate: bool, at: nat): Compiled {
    var plain := name.Plaintext?;
    var arg := c.ValueArg(value, plain);
    var prefixed := !plain && PrefixOp(op).Some? && |arg| > NONCE_PREFIX;
    Compiled(Some(OpClause(negate, op, prefixed, plain, at)),
             [c.NameArg(name), arg] + if prefixed then [arg[..NONCE_PREFIX]] else [])
  }

  function ValueArgs(c: Codec, values: seq<string>, plain: bool): (r: seq<Bytes>)
    ensures |r| == |values|
    ensures forall i | 0 <= i < |r| :: r[i] == c.ValueArg(values[i], plain)
  {
    if values == [] then [] else [c.ValueArg(values[0], plain)] + ValueArgs(c, values[1..], plain)
  }

  function CompileIn(c: Codec, name: TagName, values: seq<string>, negate: bool, at: nat): Compiled {
    var plain := name.Plaintext?;
    Compiled(Some(InClause(negate, plain, |values|, at)), [c.NameArg(name)] + ValueArgs(c, values, plain))
  }

  function CompileExist(c: Codec, names: seq<TagName>, negate: bool, at: nat): Compiled {
    if |names| == 0 then Compiled(None, [])
    else if |names| == 1 then CompileName(c, names[0], negate, at)
    else
      var each := CompileNames(c, names, negate, at);
      Compiled(ConjClause(ConjAnd, each.parts), each.args)
  }

  function CompileNames(c: Codec, names: seq<TagName>, negate: bool, at: nat): (r: CompiledList)
    ensures |r.parts| == |r.args| == |names|
  {
    if names == [] then CompiledList([], [])
    else
      var rest := CompileNames(c, names[1..], negate, at + 1);
      Prepend(CompileName(c, names[0], negate, at), rest)
  }

  function CompileName(c: Codec, name: TagName, negate: bool, at: nat): Compiled {
    Compiled(Some(ExistClause(negate, name.Plaintext?, at)), [c.NameArg(name)])
  }

  /** The conjunction really emitted: De Morgan's law under negation. */
  function Effective(op: ConjunctionOp, negate: bool): ConjunctionOp {
    if negate then op.Negate() else op
  }

  function Compile(c: Codec, q: TagQuery, negate: bool, at: nat): Compiled
    decreases q, 1
  {
    match q
    case Compare(op, name, value) => CompileCompare(c, op, name, value, negate, at)
    case In(name, values) => CompileIn(c, name, values, negate, at)
    case Exist(names) => CompileExist(c, names, negate, at)
    case And(subs) =>
      var all := CompileAll(c, subs, negate, at);
      Compiled(ConjClause(Effective(ConjAnd, negate), all.parts), all.args)
    case Or(subs) =>
      var all := CompileAll(c, subs, negate, at);
      Compiled(ConjClause(Effective(ConjOr, negate), all.parts), all.args)
    case Not(sub) => Compile(c, sub, !negate, at)
  }

  /** Children are compiled in order; those that restrict nothing are dropped. */
  function CompileAll(c: Codec, qs: seq<TagQuery>, negate: bool, at: nat): CompiledList
    decreases qs, 0
  {
    if qs == [] then CompiledList([], [])
    else
      var first := Compile(c, qs[0], negate, at);
      var rest := CompileAll(c, qs[1..], negate, at + |first.args|);
      Prepend(first, rest)
  }

  function Prepend(first: Compiled, rest: CompiledList): CompiledList {
    CompiledList((if first.clause.Some? then [first.clause.value] else []) + rest.parts, first.args + rest.args)
  }

  // ----- what a clause selects -----

  /** A row of items_tags. */
  datatype Row = Row(item: int, name: Bytes, value: Bytes, plaintext: bool)

  type LikeFn = (Bytes, Bytes) -> bool

  ghost predicate SqlCompare(op: CompareOp, x: Bytes, y: Bytes, like: LikeFn) {
    match op
    case Eq => x == y
    case Neq => x != y
    case Gt => LexLess(y, x)
    case Gte => !LexLess(x, y)
    case Lt => LexLess(x, y)
    case Lte => !LexLess(y, x)
    case Like => like(x, y)
  }

  /** Blobs are compared at the first byte where they differ. */
  lemma SqlCompareMeans(op: CompareOp, x: Bytes, y: Bytes, like: LikeFn)
    ensures SqlCompare(op, x, y, like) ==
      match op
      case Eq => x == y
      case Neq => x != y
      case Gt => Precedes(y, x, ByteLess)
      case Gte => x == y || Precedes(y, x, ByteLess)
      case Lt => Precedes(x, y, ByteLess)
      case Lte => x == y || Precedes(x, y, ByteLess)
      case Like => like(x, y)
  {
    LexLessExactly(x, y);
    LexLessExactly(y, x);
    LexTotal(x, y);
  }

  /** The n-th bound argument, counting from 0. */
  function Arg(args: seq<Bytes>, n: nat): Bytes {
    if n < |args| then args[n] else []
  }

  ghost predicate InSubselect(cl: Clause, args: seq<Bytes>, r: Row, like: LikeFn)
    requires cl.OpClause? || cl.InClause? || cl.ExistClause?
  {
    && r.name == Arg(args, cl.at)
    && r.plaintext == cl.plaintext
    && match cl
       case OpClause(_, op, prefixed, _, at) =>
         && SqlCompare(op, r.value, Arg(args, at + 1), like)
         && (prefixed && PrefixOp(op).Some? ==>
               SqlCompare(PrefixOp(op).value, Prefix(r.value, NONCE_PREFIX), Arg(args, at + 2), like))
       case InClause(_, _, count, at) => exists n :: at < n <= at + count && r.value == Arg(args, n)
       case ExistClause(_, _, _) => true
  }

  /** `i.id [NOT] IN (SELECT item_id FROM items_tags WHERE ...)`, and conjunctions of such tests. */
  ghost predicate Selects(cl: Clause, args: seq<Bytes>, table: set<Row>, item: int, like: LikeFn)
    decreases cl, 1
  {
    match cl
    case Zero => false
    case Conj(ConjAnd, parts) => SelectsAll(parts, args, table, item, like)
    case Conj(ConjOr, parts) => SelectsAny(parts, args, table, item, like)
    case _ => (exists r :: r in table && r.item == item && InSubselect(cl, args, r, like)) != cl.negate
  }

  ghost predicate SelectsAll(cls: seq<Clause>, args: seq<Bytes>, table: set<Row>, item: int, like: LikeFn)
    decreases cls, 0
  {
    cls == [] || (Selects(cls[0], args, table, item, like) && SelectsAll(cls[1..], args, table, item, like))
  }

  ghost predicate SelectsAny(cls: seq<Clause>, args: seq<Bytes>, table: set<Row>, item: int, like: LikeFn)
    decreases cls, 0
  {
    cls != [] && (Selects(cls[0], args, table, item, like) || SelectsAny(cls[1..], args, table, item, like))
  }

  ghost predicate SelectsOpt(cl: Option<Clause>, args: seq<Bytes>, table: set<Row>, item: int, like: LikeFn) {
    cl.Some? ==> Selects(cl.value, args, table, item, like)
  }

  // ----- what the query says about an item's stored tags -----

  ghost predicate TagIs(c: Codec, name: TagName, table: set<Row>, item: int, r: Row) {
    r in table && r.item == item && r.name == c.NameArg(name) && r.plaintext == name.Plaintext?
  }

  ghost predicate TagCompares(c: Codec, op: CompareOp, name: TagName, value: string, table: set<Row>, item: int,
                              like: LikeFn)
  {
    exists r :: TagIs(c, name, table, item, r) && SqlCompare(op, r.value, c.ValueArg(value, name.Plaintext?), like)
  }

  ghost predicate TagOneOf(c: Codec, name: TagName, values: seq<string>, table: set<Row>, item: int) {
    exists r :: TagIs(c, name, table, item, r) && exists v :: v in values && r.value == c.ValueArg(v, name.Plaintext?)
  }

  ghost predicate TagPresent(c: Codec, name: TagName, table: set<Row>, item: int) {
    exists r :: TagIs(c, name, table, item, r)
  }

  ghost function StoredAtoms(c: Codec, table: set<Row>, item: int, like: LikeFn): Atoms<TagName, string> {
    Atoms((op, k, v) => TagCompares(c, op, k, v, table, item, like),
          (k, vs) => TagOneOf(c, k, vs, table, item),
          k => TagPresent(c, k, table, item))
  }

  /** The query's own answer for an item, independent of any SQL. */
  ghost predicate Matches(c: Codec, q: TagQuery, table: set<Row>, item: int, like: LikeFn) {
    Holds(q, StoredAtoms(c, table, item, like))
  }

  // ----- where the compiler can go wrong -----

  /** Queries compiled to no clause at all. */
  predicate Vacuous<K, V>(q: Query<K, V>, negate: bool)
    decreases q, 1
  {
    match q
    case Exist(names) => names == []
    case And(subs) => !negate && AllVacuous(subs, negate)
    case Or(subs) => negate && AllVacuous(subs, negate)
    case Not(sub) => Vacuous(sub, !negate)
    case _ => false
  }

  predicate AllVacuous<K, V>(qs: seq<Query<K, V>>, negate: bool)
    decreases qs, 0
  {
    qs == [] || (Vacuous(qs[0], negate) && AllVacuous(qs[1..], negate))
  }

  /** The constant answer of a vacuous query: false only if an empty Exist stands under an odd number of Nots. */
  predicate VacuousTruth(q: TagQuery, negate: bool)
    requires Vacuous(q, negate)
    decreases q, 1
  {
    match q
    case Exist(names) => !negate
    case And(subs) => AllVacuousTrue(subs, negate)
    case Or(subs) => AllVacuousTrue(subs, negate)
    case Not(sub) => VacuousTruth(sub, !negate)
  }

  predicate AllVacuousTrue(qs: seq<TagQuery>, negate: bool)
    requires AllVacuous(qs, negate)
    decreases qs, 0
  {
    qs == [] || (VacuousTruth(qs[0], negate) && AllVacuousTrue(qs[1..], negate))
  }

  /** All names denote the same stored tag name. */
  predicate SameKey(c: Codec, names: seq<TagName>) {
    forall i, j | 0 <= i < |names| && 0 <= j < |names| ::
      c.NameArg(names[i]) == c.NameArg(names[j]) && names[i].Plaintext? == names[j].Plaintext?
  }

  /**
   * A vacuous query must be true (false below an effective OR, where it is dropped), and a
   * multi-name Exist under an odd number of Nots must repeat one name.
   */
  predicate Faithful(c: Codec, q: TagQuery, negate: bool)
    decreases q, 1
  {
    if Vacuous(q, negate) then VacuousTruth(q, negate)
    else
      match q
      case Exist(names) => negate ==> SameKey(c, names)
      case And(subs) => if negate then FaithfulInOr(c, subs, negate) else AllFaithful(c, subs, negate)
      case Or(subs) => if negate then AllFaithful(c, subs, negate) else FaithfulInOr(c, subs, negate)
      case Not(sub) => Faithful(c, sub, !negate)
      case _ => true
  }

  predicate AllFaithful(c: Codec, qs: seq<TagQuery>, negate: bool)
    decreases qs, 0
  {
    qs == [] || (Faithful(c, qs[0], negate) && AllFaithful(c, qs[1..], negate))
  }

  predicate FaithfulInOr(c: Codec, qs: seq<TagQuery>, negate: bool)
    decreases qs, 0
  {
    qs == [] ||
    ((if Vacuous(qs[0], negate) then !VacuousTruth(qs[0], negate) else Faithful(c, qs[0], negate)) &&
     FaithfulInOr(c, qs[1..], negate))
  }

  /** No stored value differs from an encrypted `!=` operand while sharing its 12-byte prefix. */
  ghost predicate CollisionFree(c: Codec, q: TagQuery, table: set<Row>)
    decreases q, 1
  {
    match q
    case Compare(op, name, value) => op == Neq && name.Encrypted? ==> PrefixDistinguishes(c, name, value, table)
    case And(subs) => AllCollisionFree(c, subs, table)
    case Or(subs) => AllCollisionFree(c, subs, table)
    case Not(sub) => CollisionFree(c, sub, table)
    case _ => true
  }

  ghost predicate AllCollisionFree(c: Codec, qs: seq<TagQuery>, table: set<Row>)
    decreases qs, 0
  {
    qs == [] || (CollisionFree(c, qs[0], table) && AllCollisionFree(c, qs[1..], table))
  }

  ghost predicate PrefixDistinguishes(c: Codec, name: TagName, value: string, table: set<Row>) {
    var v := c.ValueArg(value, false);
    forall r | r in table && r.name == c.NameArg(name) && !r.plaintext && r.value != v ::
      |v| > NONCE_PREFIX ==> Prefix(r.value, NONCE_PREFIX) != v[..NONCE_PREFIX]
  }

  // ----- compiler correctness -----

  /** The prefix test costs nothing: it holds whenever the full comparison does, except for `!=`. */
  lemma PrefixTestIsSound(op: CompareOp, x: Bytes, y: Bytes, n: nat, like: LikeFn)
    requires op != Neq && PrefixOp(op).Some? && SqlCompare(op, x, y, like)
    ensures SqlCompare(PrefixOp(op).value, Prefix(x, n), Prefix(y, n), like)
  {
    if LexLess(Prefix(x, n), Prefix(y, n)) { PrefixReflectsOrder(x, y, n); LexAsymmetric(x, y); }
    if LexLess(Prefix(y, n), Prefix(x, n)) { PrefixReflectsOrder(y, x, n); LexAsymmetric(y, x); }
  }

  /** The arguments from position `at` on begin with w. */
  predicate Window(args: seq<Bytes>, at: nat, w: seq<Bytes>) {
    at + |w| <= |args| && forall i | 0 <= i < |w| :: args[at + i] == w[i]
  }

  lemma WindowSplit(args: seq<Bytes>, at: nat, a: seq<Bytes>, b: seq<Bytes>)
    requires Window(args, at, a + b)
    ensures Window(args, at, a) && Window(args, at + |a|, b)
  {
    forall i | 0 <= i < |a| ensures args[at + i] == a[i] { assert (a + b)[i] == a[i]; }
    forall i | 0 <= i < |b| ensures args[at + |a| + i] == b[i] { assert (a + b)[|a| + i] == b[i]; }
  }

  lemma CompareCorrect(c: Codec, op: CompareOp, name: TagName, value: string, negate: bool, at: nat,
                       args: seq<Bytes>, table: set<Row>, item: int, like: LikeFn)
    requires CollisionFree(c, Compare(op, name, value), table)
    requires Window(args, at, CompileCompare(c, op, name, value, negate, at).args)
    ensures Selects(CompileCompare(c, op, name, value, negate, at).clause.value, args, table, item, like)
         == (TagCompares(c, op, name, value, table, item, like) != negate)
  {
    var r := CompileCompare(c, op, name, value, negate, at);
    var cl, v := r.clause.value, c.ValueArg(value, name.Plaintext?);
    assert r.args[0] == c.NameArg(name) && r.args[1] == v;
    assert cl.prefixed ==> r.args[2] == v[..NONCE_PREFIX] == Prefix(v, NONCE_PREFIX);
    forall row | row in table && row.item == item
      ensures InSubselect(cl, args, row, like) <==>
              TagIs(c, name, table, item, row) && SqlCompare(op, row.value, v, like)
    {
      if TagIs(c, name, table, item, row) && cl.prefixed && op != Neq && SqlCompare(op, row.value, v, like) {
        PrefixTestIsSound(op, row.value, v, NONCE_PREFIX, like);
      }
    }
  }

  lemma InCorrect(c: Codec, name: TagName, values: seq<string>, negate: bool, at: nat,
                  args: seq<Bytes>, table: set<Row>, item: int, like: LikeFn)
    requires Window(args, at, CompileIn(c, name, values, negate, at).args)
    ensures Selects(CompileIn(c, name, values, negate, at).clause.value, args, table, item, like)
         == (TagOneOf(c, name, values, table, item) != negate)
  {
    var r := CompileIn(c, name, values, negate, at);
    var cl, plain := r.clause.value, name.Plaintext?;
    assert r.args[0] == c.NameArg(name);
    assert forall j | 1 <= j <= |values| :: r.args[j] == c.ValueArg(values[j - 1], plain);
    forall row | row in table && row.item == item
      ensures InSubselect(cl, args, row, like) <==>
              TagIs(c, name, table, item, row) && exists v :: v in values && row.value == c.ValueArg(v, plain)
    {
      if v :| v in values && row.value == c.ValueArg(v, plain) {
        var k :| 0 <= k < |values| && values[k] == v;
        assert args[at + (k + 1)] == r.args[k + 1];
        assert row.value == Arg(args, at + (k + 1));
      }
      if n :| at < n <= at + |values| && row.value == Arg(args, n) {
        assert args[at + (n - at)] == r.args[n - at];
        assert values[n - at - 1] in values;
      }
    }
  }

  lemma ExistOneCorrect(c: Codec, name: TagName, negate: bool, at: nat,
                        args: seq<Bytes>, table: set<Row>, item: int, like: LikeFn)
    requires Window(args, at, [c.NameArg(name)])
    ensures Selects(ExistClause(negate, name.Plaintext?, at), args, table, item, like)
         == (TagPresent(c, name, table, item) != negate)
  {
    assert Arg(args, at) == [c.NameArg(name)][0];
    var cl := ExistClause(negate, name.Plaintext?, at);
    assert forall row | row in table && row.item == item ::
        InSubselect(cl, args, row, like) <==> TagIs(c, name, table, item, row);
  }

  /** A list of existence tests joined by AND, all with the same sign. */
  lemma {:induction false} NamesCorrect(c: Codec, names: seq<TagName>, negate: bool, at: nat,
                                        args: seq<Bytes>, table: set<Row>, item: int, like: LikeFn)
    requires Window(args, at, CompileNames(c, names, negate, at).args)
    ensures SelectsAll(CompileNames(c, names, negate, at).parts, args, table, item, like)
         == forall k | k in names :: TagPresent(c, k, table, item) != negate
  {
    if names != [] {
      var r := CompileNames(c, names, negate, at);
      var rest := CompileNames(c, names[1..], negate, at + 1);
      WindowSplit(args, at, [c.NameArg(names[0])], rest.args);
      ExistOneCorrect(c, names[0], negate, at, args, table, item, like);
      NamesCorrect(c, names[1..], negate, at + 1, args, table, item, like);
      assert r.parts[1..] == rest.parts;
      assert forall k :: k in names <==> k == names[0] || k in names[1..];
    }
  }

  lemma SameKeySamePresence(c: Codec, names: seq<TagName>, table: set<Row>, item: int)
    requires SameKey(c, names)
    ensures forall j, k | j in names && k in names ::
      TagPresent(c, j, table, item) == TagPresent(c, k, table, item)
  {
    forall j, k | j in names && k in names
      ensures TagPresent(c, j, table, item) == TagPresent(c, k, table, item)
    {
      assert forall r :: TagIs(c, j, table, item, r) <==> TagIs(c, k, table, item, r);
    }
  }

  lemma ExistCorrect(c: Codec, names: seq<TagName>, negate: bool, at: nat,
                     args: seq<Bytes>, table: set<Row>, item: int, like: LikeFn)
    requires names != [] && (negate ==> SameKey(c, names))
    requires Window(args, at, CompileExist(c, names, negate, at).args)
    ensures SelectsOpt(CompileExist(c, names, negate, at).clause, args, table, item, like)
         == (Matches(c, Exist(names), table, item, like) != negate)
  {
    assert names[0] in names;
    if |names| == 1 {
      ExistOneCorrect(c, names[0], negate, at, args, table, item, like);
    } else {
      NamesCorrect(c, names, negate, at, args, table, item, like);
      if negate { SameKeySamePresence(c, names, table, item); }
    }
  }

  lemma {:induction false} VacuousCompilesToNone(c: Codec, q: TagQuery, negate: bool, at: nat)
    ensures Compile(c, q, negate, at).clause.None? <==> Vacuous(q, negate)
    decreases q, 1
  {
    match q
    case And(subs) => AllVacuousCompileToNone(c, subs, negate, at);
    case Or(subs) => AllVacuousCompileToNone(c, subs, negate, at);
    case Not(sub) => VacuousCompilesToNone(c, sub, !negate, at);
    case _ =>
  }

  lemma {:induction false} AllVacuousCompileToNone(c: Codec, qs: seq<TagQuery>, negate: bool, at: nat)
    ensures CompileAll(c, qs, negate, at).parts == [] <==> AllVacuous(qs, negate)
    decreases qs, 0
  {
    if qs != [] {
      VacuousCompilesToNone(c, qs[0], negate, at);
      AllVacuousCompileToNone(c, qs[1..], negate, at + |Compile(c, qs[0], negate, at).args|);
    }
  }

  lemma {:induction false} VacuousTruthIsMeaning(q: TagQuery, negate: bool, m: Atoms<TagName, string>)
    requires Vacuous(q, negate)
    ensures VacuousTruth(q, negate) == (Holds(q, m) != negate)
    decreases q, 1
  {
    match q
    case Exist(names) =>
    case And(subs) => AllVacuousTruthIsMeaning(subs, negate, m);
    case Or(subs) => AllVacuousTruthIsMeaning(subs, negate, m);
    case Not(sub) => VacuousTruthIsMeaning(sub, !negate, m);
  }

  lemma {:induction false} AllVacuousTruthIsMeaning(qs: seq<TagQuery>, negate: bool, m: Atoms<TagName, string>)
    requires AllVacuous(qs, negate)
    ensures AllVacuousTrue(qs, negate) == if negate then !AnyHolds(qs, m) else AllHold(qs, m)
    decreases qs, 0
  {
    if qs != [] {
      VacuousTruthIsMeaning(qs[0], negate, m);
      AllVacuousTruthIsMeaning(qs[1..], negate, m);
    }
  }

  /**
   * Compiler correctness. For every faithful query, sign, table and item, the clause selects the
   * item exactly when the query holds of its tags (or fails of them, when compiled negated).
   */
  lemma {:induction false} CompileCorrect(c: Codec, q: TagQuery, negate: bool, at: nat,
                                          args: seq<Bytes>, table: set<Row>, item: int, like: LikeFn)
    requires Faithful(c, q, negate) && CollisionFree(c, q, table)
    requires Window(args, at, Compile(c, q, negate, at).args)
    ensures SelectsOpt(Compile(c, q, negate, at).clause, args, table, item, like)
         == (Matches(c, q, table, item, like) != negate)
    decreases q, 1
  {
    VacuousCompilesToNone(c, q, negate, at);
    if Vacuous(q, negate) {
      VacuousTruthIsMeaning(q, negate, StoredAtoms(c, table, item, like));
    } else {
      match q
      case Compare(op, name, value) => CompareCorrect(c, op, name, value, negate, at, args, table, item, like);
      case In(name, values) => InCorrect(c, name, values, negate, at, args, table, item, like);
      case Exist(names) => ExistCorrect(c, names, negate, at, args, table, item, like);
      case And(subs) => ConjCorrect(c, subs, ConjAnd, negate, at, args, table, item, like);
      case Or(subs) => ConjCorrect(c, subs, ConjOr, negate, at, args, table, item, like);
      case Not(sub) => CompileCorrect(c, sub, !negate, at, args, table, item, like);
    }
  }

  lemma {:induction false} ConjCorrect(c: Codec, qs: seq<TagQuery>, op: ConjunctionOp, negate: bool, at: nat,
                                       args: seq<Bytes>, table: set<Row>, item: int, like: LikeFn)
    requires if Effective(op, negate) == ConjAnd then AllFaithful(c, qs, negate) else FaithfulInOr(c, qs, negate)
    requires AllCollisionFree(c, qs, table)
    requires Window(args, at, CompileAll(c, qs, negate, at).args)
    ensures SelectsOpt(ConjClause(Effective(op, negate), CompileAll(c, qs, negate, at).parts), args, table, item, like)
         == (Matches(c, if op == ConjAnd then And(qs) else Or(qs), table, item, like) != negate)
    decreases qs, 1
  {
    if Effective(op, negate) == ConjAnd {
      AllPartsCorrect(c, qs, negate, at, args, table, item, like);
    } else {
      AnyPartCorrect(c, qs, negate, at, args, table, item, like);
    }
  }

  lemma PrependSelects(first: Compiled, rest: CompiledList, args: seq<Bytes>, table: set<Row>, item: int, like: LikeFn)
    ensures SelectsAll(Prepend(first, rest).parts, args, table, item, like)
        <==> SelectsOpt(first.clause, args, table, item, like) && SelectsAll(rest.parts, args, table, item, like)
    ensures SelectsAny(Prepend(first, rest).parts, args, table, item, like)
        <==> (first.clause.Some? && Selects(first.clause.value, args, table, item, like))
             || SelectsAny(rest.parts, args, table, item, like)
  {
    assert Prepend(first, rest).parts[if first.clause.Some? then 1 else 0..] == rest.parts;
  }

  lemma {:induction false} AllPartsCorrect(c: Codec, qs: seq<TagQuery>, negate: bool, at: nat,
                                           args: seq<Bytes>, table: set<Row>, item: int, like: LikeFn)
    requires AllFaithful(c, qs, negate) && AllCollisionFree(c, qs, table)
    requires Window(args, at, CompileAll(c, qs, negate, at).args)
    ensures var m := StoredAtoms(c, table, item, like);
      SelectsAll(CompileAll(c, qs, negate, at).parts, args, table, item, like)
      == if negate then !AnyHolds(qs, m) else AllHold(qs, m)
    decreases qs, 0
  {
    if qs != [] {
      var first := Compile(c, qs[0], negate, at);
      var rest := CompileAll(c, qs[1..], negate, at + |first.args|);
      WindowSplit(args, at, first.args, rest.args);
      CompileCorrect(c, qs[0], negate, at, args, table, item, like);
      AllPartsCorrect(c, qs[1..], negate, at + |first.args|, args, table, item, like);
      PrependSelects(first, rest, args, table, item, like);
    }
  }

  lemma {:induction false} AnyPartCorrect(c: Codec, qs: seq<TagQuery>, negate: bool, at: nat,
                                          args: seq<Bytes>, table: set<Row>, item: int, like: LikeFn)
    requires FaithfulInOr(c, qs, negate) && AllCollisionFree(c, qs, table)
    requires Window(args, at, CompileAll(c, qs, negate, at).args)
    ensures var m := StoredAtoms(c, table, item, like);
      SelectsAny(CompileAll(c, qs, negate, at).parts, args, table, item, like)
      == if negate then !AllHold(qs, m) else AnyHolds(qs, m)
    decreases qs, 0
  {
    if qs != [] {
      var m := StoredAtoms(c, table, item, like);
      var first := Compile(c, qs[0], negate, at);
      var rest := CompileAll(c, qs[1..], negate, at + |first.args|);
      WindowSplit(args, at, first.args, rest.args);
      VacuousCompilesToNone(c, qs[0], negate, at);
      if Vacuous(qs[0], negate) {
        VacuousTruthIsMeaning(qs[0], negate, m);
      } else {
        CompileCorrect(c, qs[0], negate, at, args, table, item, like);
      }
      AnyPartCorrect(c, qs[1..], negate, at + |first.args|, args, table, item, like);
      PrependSelects(first, rest, args, table, item, like);
    }
  }
}
