/** What the conditions on a query come to: a condition on each comparison that occurs in it. */
module QueryGuards {
  import opened Prelude
  import opened Wql
  import opened TagSql
  import opened Searchable

  /** The query has this comparison somewhere. */
  ghost predicate Compares(q: TagQuery, op: CompareOp, name: TagName, value: string)
    decreases q, 1
  {
    match q
    case And(subs) => AnyCompares(subs, op, name, value)
    case Or(subs) => AnyCompares(subs, op, name, value)
    case Not(sub) => Compares(sub, op, name, value)
    case Compare(_, _, _) => q == Compare(op, name, value)
    case _ => false
  }

  ghost predicate AnyCompares(qs: seq<TagQuery>, op: CompareOp, name: TagName, value: string)
    decreases qs, 0
  {
    exists i | 0 <= i < |qs| :: Compares(qs[i], op, name, value)
  }

  /** Every comparison of the query satisfies p. */
  ghost predicate Every(q: TagQuery, p: (CompareOp, TagName, string) -> bool) {
    forall op, name, value :: Compares(q, op, name, value) ==> p(op, name, value)
  }

  ghost predicate EveryOf(qs: seq<TagQuery>, p: (CompareOp, TagName, string) -> bool) {
    forall op, name, value :: AnyCompares(qs, op, name, value) ==> p(op, name, value)
  }

  lemma {:induction false} EveryCons(qs: seq<TagQuery>, p: (CompareOp, TagName, string) -> bool)
    requires qs != []
    ensures EveryOf(qs, p) <==> Every(qs[0], p) && EveryOf(qs[1..], p)
  {
    forall op, name, value
      ensures AnyCompares(qs, op, name, value) <==>
        Compares(qs[0], op, name, value) || AnyCompares(qs[1..], op, name, value)
    {
      if i :| 0 <= i < |qs| && Compares(qs[i], op, name, value) {
        assert i > 0 ==> qs[1..][i - 1] == qs[i];
      }
      if j :| 0 <= j < |qs| - 1 && Compares(qs[1..][j], op, name, value) {
        assert qs[j + 1] == qs[1..][j];
      }
    }
  }

  lemma {:induction false} EverySplits(q: TagQuery, p: (CompareOp, TagName, string) -> bool)
    ensures Every(q, p) ==
      match q
      case And(subs) => EveryOf(subs, p)
      case Or(subs) => EveryOf(subs, p)
      case Not(sub) => Every(sub, p)
      case Compare(op, name, value) => p(op, name, value)
      case _ => true
  {
    match q
    case And(subs) => assert forall o, n, v :: Compares(q, o, n, v) == AnyCompares(subs, o, n, v);
    case Or(subs) => assert forall o, n, v :: Compares(q, o, n, v) == AnyCompares(subs, o, n, v);
    case Not(sub) => assert forall o, n, v :: Compares(q, o, n, v) == Compares(sub, o, n, v);
    case Compare(op, name, value) => assert Compares(q, op, name, value);
    case _ =>
  }

  ghost function EqualityTest(): (CompareOp, TagName, string) -> bool {
    (op, name: TagName, value) => name.Encrypted? ==> op == Eq || op == Neq
  }

  /** Only = and != are asked of encrypted values. */
  lemma {:induction false} EqualityOnlyExactly(q: TagQuery)
    ensures EqualityOnly(q) <==> Every(q, EqualityTest())
    decreases q, 1
  {
    EverySplits(q, EqualityTest());
    match q
    case And(subs) => AllEqualityOnlyExactly(subs);
    case Or(subs) => AllEqualityOnlyExactly(subs);
    case Not(sub) => EqualityOnlyExactly(sub);
    case _ =>
  }

  lemma {:induction false} AllEqualityOnlyExactly(qs: seq<TagQuery>)
    ensures AllEqualityOnly(qs) <==> EveryOf(qs, EqualityTest())
    decreases qs, 0
  {
    if qs != [] {
      EqualityOnlyExactly(qs[0]);
      AllEqualityOnlyExactly(qs[1..]);
      EveryCons(qs, EqualityTest());
    }
  }

  /** Nonces have to differ only for the operands of != on encrypted values. */
  ghost function NonceTest(key: ProfileKey, entries: map<int, seq<EntryTag>>): (CompareOp, TagName, string) -> bool {
    (op, name: TagName, value) =>
      op == Neq && name.Encrypted? ==>
        forall item, t | item in entries && t in entries[item] && t.name == name && t.value != value ::
          key.nonce(key.utf8(t.value)) != key.nonce(key.utf8(value))
  }

  lemma {:induction false} NoncesDifferExactly(q: TagQuery, key: ProfileKey, entries: map<int, seq<EntryTag>>)
    ensures NoncesDiffer(q, key, entries) <==> Every(q, NonceTest(key, entries))
    decreases q, 1
  {
    EverySplits(q, NonceTest(key, entries));
    match q
    case And(subs) => AllNoncesDifferExactly(subs, key, entries);
    case Or(subs) => AllNoncesDifferExactly(subs, key, entries);
    case Not(sub) => NoncesDifferExactly(sub, key, entries);
    case _ =>
  }

  lemma {:induction false} AllNoncesDifferExactly(qs: seq<TagQuery>, key: ProfileKey,
                                                  entries: map<int, seq<EntryTag>>)
    ensures AllNoncesDiffer(qs, key, entries) <==> EveryOf(qs, NonceTest(key, entries))
    decreases qs, 0
  {
    if qs != [] {
      NoncesDifferExactly(qs[0], key, entries);
      AllNoncesDifferExactly(qs[1..], key, entries);
      EveryCons(qs, NonceTest(key, entries));
    }
  }

  /** Prefixes have to tell values apart only for those operands. */
  ghost function PrefixesTell(c: Codec, table: set<Row>): (CompareOp, TagName, string) -> bool {
    (op, name: TagName, value) =>
      op == Neq && name.Encrypted? ==>
        forall r | r in table && r.name == c.NameArg(name) && !r.plaintext && r.value != c.ValueArg(value, false) ::
          |c.ValueArg(value, false)| > 12 ==> Prefix(r.value, 12) != Prefix(c.ValueArg(value, false), 12)
  }

  lemma {:induction false} CollisionFreeExactly(c: Codec, q: TagQuery, table: set<Row>)
    ensures CollisionFree(c, q, table) <==> Every(q, PrefixesTell(c, table))
    decreases q, 1
  {
    EverySplits(q, PrefixesTell(c, table));
    match q
    case And(subs) => AllCollisionFreeExactly(c, subs, table);
    case Or(subs) => AllCollisionFreeExactly(c, subs, table);
    case Not(sub) => CollisionFreeExactly(c, sub, table);
    case _ =>
  }

  lemma {:induction false} AllCollisionFreeExactly(c: Codec, qs: seq<TagQuery>, table: set<Row>)
    ensures AllCollisionFree(c, qs, table) <==> EveryOf(qs, PrefixesTell(c, table))
    decreases qs, 0
  {
    if qs != [] {
      CollisionFreeExactly(c, qs[0], table);
      AllCollisionFreeExactly(c, qs[1..], table);
      EveryCons(qs, PrefixesTell(c, table));
    }
  }
}
