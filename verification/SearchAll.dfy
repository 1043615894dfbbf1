/** Searching the encrypted table with any query at all, faithfully compiled or not. */
module SearchAll {
  import opened Prelude
  import opened Wql
  import opened TagSql
  import opened TagSqlAllQueries
  import opened Searchable

  /** What the compiler keeps of a query is the same on the encrypted rows as on the plain tags. */
  lemma {:induction false} KeptPlain(q: TagQuery, negate: bool, key: ProfileKey, table: set<Row>,
                                     entries: map<int, seq<EntryTag>>, item: int, like: LikeFn)
    requires key.Valid() && Stores(table, entries, key) && item in entries && EqualityOnly(q)
    ensures Kept(q, negate, StoredAtoms(key.ToCodec(), table, item, like))
         == Kept(q, negate, PlainAtoms(entries[item], key, like))
    decreases q, 1
  {
    match q
    case And(subs) => AllKeptPlain(subs, negate, key, table, entries, item, like);
    case Or(subs) => AllKeptPlain(subs, negate, key, table, entries, item, like);
    case Not(sub) => KeptPlain(sub, !negate, key, table, entries, item, like);
    case Compare(op, name, value) => CompareAtomsAgree(op, name, value, key, table, entries, item, like);
    case In(name, values) => OneOfAtomsAgree(name, values, key, table, entries, item);
    case Exist(names) =>
      forall k | k in names
        ensures TagPresent(key.ToCodec(), k, table, item) == PlainAtoms(entries[item], key, like).present(k)
      {
        PresentAtomsAgree(k, key, table, entries, item);
      }
  }

  lemma {:induction false} AllKeptPlain(qs: seq<TagQuery>, negate: bool, key: ProfileKey, table: set<Row>,
                                        entries: map<int, seq<EntryTag>>, item: int, like: LikeFn)
    requires key.Valid() && Stores(table, entries, key) && item in entries && AllEqualityOnly(qs)
    ensures var m, plain := StoredAtoms(key.ToCodec(), table, item, like), PlainAtoms(entries[item], key, like);
      AllKept(qs, negate, m) == AllKept(qs, negate, plain) && AnyKept(qs, negate, m) == AnyKept(qs, negate, plain)
    decreases qs, 0
  {
    if qs != [] {
      KeptPlain(qs[0], negate, key, table, entries, item, like);
      AllKeptPlain(qs[1..], negate, key, table, entries, item, like);
    }
  }

  // ----- in the user's own names -----

  lemma {:induction false} MapNamesVacuous<K, RK, V>(q: Query<K, V>, negate: bool, f: K -> RK)
    ensures Vacuous(MapNames(q, f), negate) == Vacuous(q, negate)
    decreases q, 1
  {
    match q
    case And(subs) => MapAllNamesVacuous(subs, negate, f);
    case Or(subs) => MapAllNamesVacuous(subs, negate, f);
    case Not(sub) => MapNamesVacuous(sub, !negate, f);
    case _ =>
  }

  lemma {:induction false} MapAllNamesVacuous<K, RK, V>(qs: seq<Query<K, V>>, negate: bool, f: K -> RK)
    ensures AllVacuous(MapAllNames(qs, f), negate) == AllVacuous(qs, negate)
    decreases qs, 0
  {
    if qs != [] {
      MapNamesVacuous(qs[0], negate, f);
      MapAllNamesVacuous(qs[1..], negate, f);
      assert MapAllNames(qs, f)[1..] == MapAllNames(qs[1..], f);
    }
  }

  /** What is kept of a renamed query is what is kept of the query, asked by its own names. */
  lemma {:induction false} MapNamesKept<K(!new), RK(!new), V(!new)>(q: Query<K, V>, negate: bool, m: Atoms<K, V>,
                                                                    f: K -> RK, renamed: Atoms<RK, V>)
    requires Renames(m, f, renamed)
    ensures Kept(MapNames(q, f), negate, renamed) == Kept(q, negate, m)
    decreases q, 1
  {
    match q
    case And(subs) => MapAllNamesKept(subs, negate, m, f, renamed);
    case Or(subs) => MapAllNamesKept(subs, negate, m, f, renamed);
    case Not(sub) => MapNamesKept(sub, !negate, m, f, renamed);
    case Exist(names) => MapNamesPresent(names, negate, m, f, renamed);
    case _ =>
  }

  lemma {:induction false} MapAllNamesKept<K(!new), RK(!new), V(!new)>(qs: seq<Query<K, V>>, negate: bool,
                                                                       m: Atoms<K, V>, f: K -> RK,
                                                                       renamed: Atoms<RK, V>)
    requires Renames(m, f, renamed)
    ensures AllKept(MapAllNames(qs, f), negate, renamed) == AllKept(qs, negate, m)
    ensures AnyKept(MapAllNames(qs, f), negate, renamed) == AnyKept(qs, negate, m)
    decreases qs, 0
  {
    if qs != [] {
      MapNamesKept(qs[0], negate, m, f, renamed);
      MapNamesVacuous(qs[0], negate, f);
      MapAllNamesKept(qs[1..], negate, m, f, renamed);
      assert MapAllNames(qs, f)[1..] == MapAllNames(qs[1..], f);
    }
  }

  /** For every query, the clause over the encrypted table selects an entry by what is kept of its plain tags. */
  lemma SearchSelectsKept(q: Query<string, string>, key: ProfileKey, at: nat, args: seq<Bytes>, table: set<Row>,
                          entries: map<int, seq<EntryTag>>, item: int, like: LikeFn)
    requires key.Valid() && Stores(table, entries, key) && item in entries
    requires var tq := ToTagQuery(q);
      && EqualityOnly(tq) && NoncesDiffer(tq, key, entries)
      && Window(args, at, Compile(key.ToCodec(), tq, false, at).args)
    ensures SelectsOpt(Compile(key.ToCodec(), ToTagQuery(q), false, at).clause, args, table, item, like)
         == Kept(q, false, UserAtoms(entries[item], key, like))
  {
    var tq := ToTagQuery(q);
    NoncesPreventCollisions(tq, key, table, entries);
    CompileSelectsKept(key.ToCodec(), tq, false, at, args, table, item, like);
    KeptPlain(tq, false, key, table, entries, item, like);
    UserAtomsRename(entries[item], key, like);
    MapNamesKept(q, false, UserAtoms(entries[item], key, like), ToTagName, PlainAtoms(entries[item], key, like));
  }
}
