/** Searchable encryption of tags, and why searching the encrypted table answers the plain query. */
module Searchable {
  import opened Prelude
  import opened Wql
  import opened TagSql
  import TagCodec

  // ----- renaming the names of a query -----

  function MapNames<K, RK, V>(q: Query<K, V>, f: K -> RK): Query<RK, V>
    decreases q, 1
  {
    match q
    case And(subs) => And(MapAllNames(subs, f))
    case Or(subs) => Or(MapAllNames(subs, f))
    case Not(sub) => Not(MapNames(sub, f))
    case Compare(op, name, value) => Compare(op, f(name), value)
    case In(name, values) => In(f(name), values)
    case Exist(names) => Exist(MapSeq(names, f))
  }

  function MapAllNames<K, RK, V>(qs: seq<Query<K, V>>, f: K -> RK): seq<Query<RK, V>>
    decreases qs, 0
  {
    if qs == [] then [] else [MapNames(qs[0], f)] + MapAllNames(qs[1..], f)
  }

  function MapSeq<K, RK>(names: seq<K>, f: K -> RK): (r: seq<RK>)
    ensures |r| == |names| && forall i | 0 <= i < |names| :: r[i] == f(names[i])
  {
    if names == [] then [] else [f(names[0])] + MapSeq(names[1..], f)
  }

  /** Asked about a name, m answers as `renamed` does about what f makes of the name. */
  ghost predicate Renames<K(!new), RK, V(!new)>(m: Atoms<K, V>, f: K -> RK, renamed: Atoms<RK, V>) {
    && (forall op, k, v :: m.compare(op, k, v) == renamed.compare(op, f(k), v))
    && (forall k, vs :: m.oneOf(k, vs) == renamed.oneOf(f(k), vs))
    && (forall k :: m.present(k) == renamed.present(f(k)))
  }

  /** Renaming the query is renaming what its atoms are asked about. */
  lemma {:induction false} MapNamesHolds<K(!new), RK(!new), V(!new)>(q: Query<K, V>, m: Atoms<K, V>, f: K -> RK,
                                                                     renamed: Atoms<RK, V>)
    requires Renames(m, f, renamed)
    ensures Holds(MapNames(q, f), renamed) == Holds(q, m)
    decreases q, 1
  {
    match q
    case And(subs) => MapAllNamesHold(subs, m, f, renamed);
    case Or(subs) => MapAllNamesHold(subs, m, f, renamed);
    case Not(sub) => MapNamesHolds(sub, m, f, renamed);
    case Exist(names) => MapNamesPresent(names, false, m, f, renamed);
    case _ =>
  }

  lemma MapNamesPresent<K(!new), RK(!new), V(!new)>(names: seq<K>, negate: bool, m: Atoms<K, V>, f: K -> RK,
                                                    renamed: Atoms<RK, V>)
    requires Renames(m, f, renamed)
    ensures (forall k | k in MapSeq(names, f) :: renamed.present(k) != negate)
        <==> (forall k | k in names :: m.present(k) != negate)
  {
    var mapped := MapSeq(names, f);
    assert forall i | 0 <= i < |names| :: mapped[i] in mapped && names[i] in names;
  }

  lemma {:induction false} MapAllNamesHold<K(!new), RK(!new), V(!new)>(qs: seq<Query<K, V>>, m: Atoms<K, V>,
                                                                       f: K -> RK, renamed: Atoms<RK, V>)
    requires Renames(m, f, renamed)
    ensures AllHold(MapAllNames(qs, f), renamed) == AllHold(qs, m)
    ensures AnyHolds(MapAllNames(qs, f), renamed) == AnyHolds(qs, m)
    decreases qs, 0
  {
    if qs != [] {
      MapNamesHolds(qs[0], m, f, renamed);
      MapAllNamesHold(qs[1..], m, f, renamed);
      assert MapAllNames(qs, f)[1..] == MapAllNames(qs[1..], f);
    }
  }

  /** A leading `~` marks the name of a plaintext tag. */
  function ToTagName(name: string): TagName {
    if name != "" && name[0] == '~' then Plaintext(name[1..]) else Encrypted(name)
  }

  function ToTagQuery(q: Query<string, string>): TagQuery {
    MapNames(q, ToTagName)
  }

  // ----- profile keys -----

  /** Authenticated encryption under one key: nonce and text to sealed text, and back. */
  datatype Aead = Aead(seal: (Bytes, Bytes) -> Bytes, unseal: (Bytes, Bytes) -> Option<Bytes>) {
    ghost predicate Correct() {
      forall nonce, text :: unseal(nonce, seal(nonce, text)) == Some(text)
    }
  }

  /** The parts of a profile key used for tags; `nonce` is the HMAC that derives a value's nonce. */
  datatype ProfileKey = ProfileKey(
    tagName: Aead,
    tagValue: Aead,
    nonce: Bytes -> Bytes,
    utf8: string -> Bytes)
  {
    ghost predicate Valid() {
      && tagName.Correct() && tagValue.Correct()
      && (forall v :: |nonce(v)| == NONCE_PREFIX)
      && (forall s, s' :: utf8(s) == utf8(s') ==> s == s')
    }

    function EncName(name: string): Bytes {
      Sealed(utf8(name), tagName, nonce)
    }

    function EncValue(value: string): Bytes {
      Sealed(utf8(value), tagValue, nonce)
    }

    /** The closures given to the tag encoder. */
    function ToCodec(): Codec {
      Codec(s => Some(EncName(s)), s => Some(EncValue(s)), utf8)
    }
  }

  /** The stored form of a searchable text: its derived nonce, then the sealed text. */
  function Sealed(text: Bytes, key: Aead, nonce: Bytes -> Bytes): Bytes {
    nonce(text) + key.seal(nonce(text), text)
  }

  /** Encryption in place with a predictable nonce. */
  method EncryptSearchable(text: Bytes, key: Aead, nonce: Bytes -> Bytes) returns (buffer: Bytes)
    ensures buffer == Sealed(text, key, nonce)
  {
    buffer := text;
    var n := nonce(buffer);
    buffer := key.seal(n, buffer);
    buffer := n + buffer;
  }

  method Decrypt(ciphertext: Bytes, key: Aead) returns (r: Option<Bytes>)
    ensures r == Unsealed(ciphertext, key)
  {
    if |ciphertext| < NONCE_PREFIX {
      return None;
    }
    var buffer := ciphertext;
    var n := buffer[..NONCE_PREFIX];
    buffer := buffer[NONCE_PREFIX..];
    r := key.unseal(n, buffer);
  }

  function Unsealed(ciphertext: Bytes, key: Aead): Option<Bytes> {
    if |ciphertext| < NONCE_PREFIX then None else key.unseal(ciphertext[..NONCE_PREFIX], ciphertext[NONCE_PREFIX..])
  }

  lemma UnsealSealed(text: Bytes, key: Aead, nonce: Bytes -> Bytes)
    requires key.Correct() && |nonce(text)| == NONCE_PREFIX
    ensures Unsealed(Sealed(text, key, nonce), key) == Some(text)
  {
    var c := Sealed(text, key, nonce);
    assert c[..NONCE_PREFIX] == nonce(text) && c[NONCE_PREFIX..] == key.seal(nonce(text), text);
  }

  /** Equal stored forms come from equal texts. */
  lemma SealedInjective(a: Bytes, b: Bytes, key: Aead, nonce: Bytes -> Bytes)
    requires key.Correct() && |nonce(a)| == |nonce(b)| == NONCE_PREFIX
    ensures Sealed(a, key, nonce) == Sealed(b, key, nonce) <==> a == b
  {
    UnsealSealed(a, key, nonce);
    UnsealSealed(b, key, nonce);
  }

  // ----- the encrypted table -----

  /** A tag of an entry, before encryption. */
  datatype EntryTag = EntryTag(name: TagName, value: string)

  /** A tag's name is always encrypted; its value is unless the tag is plaintext. */
  function EncryptTag(key: ProfileKey, t: EntryTag): TagCodec.EncEntryTag {
    TagCodec.EncEntryTag(key.EncName(t.name.text),
                         if t.name.Plaintext? then key.utf8(t.value) else key.EncValue(t.value),
                         t.name.Plaintext?)
  }

  function StoredRow(key: ProfileKey, item: int, t: EntryTag): Row {
    var e := EncryptTag(key, t);
    Row(item, e.name, e.value, e.plaintext)
  }

  /** The bytes of a stored tag: each text under its own key, behind a nonce derived from the text. */
  lemma StoredTagIs(key: ProfileKey, item: int, t: EntryTag)
    ensures var name, value := key.utf8(t.name.text), key.utf8(t.value);
      var encName := key.nonce(name) + key.tagName.seal(key.nonce(name), name);
      var encValue := key.nonce(value) + key.tagValue.seal(key.nonce(value), value);
      StoredRow(key, item, t) == match t.name
                                 case Plaintext(_) => Row(item, encName, value, true)
                                 case Encrypted(_) => Row(item, encName, encValue, false)
  {
  }

  /** The table holds exactly the encrypted tags of every entry. */
  ghost predicate Stores(table: set<Row>, entries: map<int, seq<EntryTag>>, key: ProfileKey) {
    forall r :: r in table <==> r.item in entries && exists t :: t in entries[r.item] && r == StoredRow(key, r.item, t)
  }

  // ----- the plain reading of a query -----

  ghost predicate PlainCompares(op: CompareOp, name: TagName, value: string, tags: seq<EntryTag>, key: ProfileKey,
                                like: LikeFn)
  {
    exists t :: t in tags && t.name == name && SqlCompare(op, key.utf8(t.value), key.utf8(value), like)
  }

  /** What a query's atoms say of an entry's plain tags. */
  ghost function PlainAtoms(tags: seq<EntryTag>, key: ProfileKey, like: LikeFn): Atoms<TagName, string> {
    Atoms((op, k, v) => PlainCompares(op, k, v, tags, key, like),
          (k, vs) => exists t :: t in tags && t.name == k && t.value in vs,
          k => exists t :: t in tags && t.name == k)
  }

  /** The name by which a user asks for tags: `~t` for the plaintext tags t, t itself for the encrypted ones. */
  predicate Asks(name: string, tag: TagName) {
    match tag
    case Plaintext(text) => name == "~" + text
    case Encrypted(text) => name == text && !("~" <= text)
  }

  /** What the user's own names and values say of an entry's plain tags. */
  ghost function UserAtoms(tags: seq<EntryTag>, key: ProfileKey, like: LikeFn): Atoms<string, string> {
    Atoms((op, k, v) => UserCompares(op, k, v, tags, key, like),
          (k, vs) => exists t :: t in tags && Asks(k, t.name) && t.value in vs,
          k => exists t :: t in tags && Asks(k, t.name))
  }

  ghost predicate UserCompares(op: CompareOp, name: string, value: string, tags: seq<EntryTag>, key: ProfileKey,
                               like: LikeFn)
  {
    exists t :: t in tags && Asks(name, t.name) && SqlCompare(op, key.utf8(t.value), key.utf8(value), like)
  }

  /** The marker is read as it is meant: a user's name selects exactly the tags it asks for. */
  lemma NameSelects(name: string, tag: TagName)
    ensures ToTagName(name) == tag <==> Asks(name, tag)
  {
    if tag.Plaintext? {
      assert "~" + tag.text == ['~'] + tag.text;
    }
  }

  lemma UserAtomsRename(tags: seq<EntryTag>, key: ProfileKey, like: LikeFn)
    ensures Renames(UserAtoms(tags, key, like), ToTagName, PlainAtoms(tags, key, like))
  {
    forall name, tag ensures ToTagName(name) == tag <==> Asks(name, tag) {
      NameSelects(name, tag);
    }
  }

  /** Encrypted values are only compared with = and !=. */
  predicate EqualityOnly(q: TagQuery)
    decreases q, 1
  {
    match q
    case Compare(op, name, _) => name.Encrypted? ==> op == Eq || op == Neq
    case And(subs) => AllEqualityOnly(subs)
    case Or(subs) => AllEqualityOnly(subs)
    case Not(sub) => EqualityOnly(sub)
    case _ => true
  }

  predicate AllEqualityOnly(qs: seq<TagQuery>)
    decreases qs, 0
  {
    qs == [] || (EqualityOnly(qs[0]) && AllEqualityOnly(qs[1..]))
  }

  /** An item's own row and the tag it encrypts correspond. */
  lemma RowIsTag(key: ProfileKey, name: TagName, table: set<Row>, entries: map<int, seq<EntryTag>>, item: int)
    requires key.Valid() && Stores(table, entries, key) && item in entries
    ensures forall t :: t in entries[item] && t.name == name ==>
      TagIs(key.ToCodec(), name, table, item, StoredRow(key, item, t))
    ensures forall r :: TagIs(key.ToCodec(), name, table, item, r) ==>
      exists t :: t in entries[item] && t.name == name && r == StoredRow(key, item, t)
  {
    forall r | TagIs(key.ToCodec(), name, table, item, r)
      ensures exists t :: t in entries[item] && t.name == name && r == StoredRow(key, item, t)
    {
      var t :| t in entries[item] && r == StoredRow(key, item, t);
      SealedInjective(key.utf8(t.name.text), key.utf8(name.text), key.tagName, key.nonce);
      assert t.name == name;
    }
  }

  lemma CompareSurvives(op: CompareOp, name: TagName, value: string, t: EntryTag, key: ProfileKey, item: int,
                        like: LikeFn)
    requires key.Valid() && t.name == name && (name.Encrypted? ==> op == Eq || op == Neq)
    ensures SqlCompare(op, StoredRow(key, item, t).value, key.ToCodec().ValueArg(value, name.Plaintext?), like)
         == SqlCompare(op, key.utf8(t.value), key.utf8(value), like)
  {
    SealedInjective(key.utf8(t.value), key.utf8(value), key.tagValue, key.nonce);
  }

  lemma StoredTagCompares(op: CompareOp, name: TagName, value: string, t: EntryTag, key: ProfileKey, table: set<Row>,
                          entries: map<int, seq<EntryTag>>, item: int, like: LikeFn)
    requires key.Valid() && Stores(table, entries, key) && item in entries
    requires name.Encrypted? ==> op == Eq || op == Neq
    requires t in entries[item] && t.name == name && SqlCompare(op, key.utf8(t.value), key.utf8(value), like)
    ensures TagCompares(key.ToCodec(), op, name, value, table, item, like)
  {
    RowIsTag(key, name, table, entries, item);
    CompareSurvives(op, name, value, t, key, item, like);
    assert TagIs(key.ToCodec(), name, table, item, StoredRow(key, item, t));
  }

  lemma ComparedRowIsTag(op: CompareOp, name: TagName, value: string, r: Row, key: ProfileKey, table: set<Row>,
                         entries: map<int, seq<EntryTag>>, item: int, like: LikeFn)
    requires key.Valid() && Stores(table, entries, key) && item in entries
    requires name.Encrypted? ==> op == Eq || op == Neq
    requires TagIs(key.ToCodec(), name, table, item, r)
    requires SqlCompare(op, r.value, key.ToCodec().ValueArg(value, name.Plaintext?), like)
    ensures PlainCompares(op, name, value, entries[item], key, like)
  {
    RowIsTag(key, name, table, entries, item);
    var t :| t in entries[item] && t.name == name && r == StoredRow(key, item, t);
    CompareSurvives(op, name, value, t, key, item, like);
  }

  lemma CompareAtomsAgree(op: CompareOp, name: TagName, value: string, key: ProfileKey, table: set<Row>,
                          entries: map<int, seq<EntryTag>>, item: int, like: LikeFn)
    requires key.Valid() && Stores(table, entries, key) && item in entries
    requires name.Encrypted? ==> op == Eq || op == Neq
    ensures TagCompares(key.ToCodec(), op, name, value, table, item, like)
         == PlainCompares(op, name, value, entries[item], key, like)
  {
    var c := key.ToCodec();
    if r :| TagIs(c, name, table, item, r) && SqlCompare(op, r.value, c.ValueArg(value, name.Plaintext?), like) {
      ComparedRowIsTag(op, name, value, r, key, table, entries, item, like);
    }
    if t :| t in entries[item] && t.name == name && SqlCompare(op, key.utf8(t.value), key.utf8(value), like) {
      StoredTagCompares(op, name, value, t, key, table, entries, item, like);
    }
  }

  lemma {:induction false} ValueSurvives(v: string, t: EntryTag, key: ProfileKey, item: int)
    requires key.Valid()
    ensures StoredRow(key, item, t).value == key.ToCodec().ValueArg(v, t.name.Plaintext?) <==> t.value == v
  {
    SealedInjective(key.utf8(t.value), key.utf8(v), key.tagValue, key.nonce);
  }

  lemma OneOfAtomsAgree(name: TagName, values: seq<string>, key: ProfileKey, table: set<Row>,
                        entries: map<int, seq<EntryTag>>, item: int)
    requires key.Valid() && Stores(table, entries, key) && item in entries
    ensures TagOneOf(key.ToCodec(), name, values, table, item)
         <==> exists t :: t in entries[item] && t.name == name && t.value in values
  {
    RowIsTag(key, name, table, entries, item);
    var c := key.ToCodec();
    if r, v :| TagIs(c, name, table, item, r) && v in values && r.value == c.ValueArg(v, name.Plaintext?) {
      var t :| t in entries[item] && t.name == name && r == StoredRow(key, item, t);
      ValueSurvives(v, t, key, item);
      assert t.value in values;
    }
    if t :| t in entries[item] && t.name == name && t.value in values {
      ValueSurvives(t.value, t, key, item);
      assert TagIs(key.ToCodec(), name, table, item, StoredRow(key, item, t));
    }
  }

  lemma PresentAtomsAgree(name: TagName, key: ProfileKey, table: set<Row>, entries: map<int, seq<EntryTag>>, item: int)
    requires key.Valid() && Stores(table, entries, key) && item in entries
    ensures TagPresent(key.ToCodec(), name, table, item) <==> exists t :: t in entries[item] && t.name == name
  {
    RowIsTag(key, name, table, entries, item);
    if t :| t in entries[item] && t.name == name {
      assert TagIs(key.ToCodec(), name, table, item, StoredRow(key, item, t));
    }
  }

  /** Searching ciphertext is searching plaintext. */
  lemma {:induction false} MatchesPlain(q: TagQuery, key: ProfileKey, table: set<Row>,
                                        entries: map<int, seq<EntryTag>>, item: int, like: LikeFn)
    requires key.Valid() && Stores(table, entries, key) && item in entries && EqualityOnly(q)
    ensures Matches(key.ToCodec(), q, table, item, like) == Holds(q, PlainAtoms(entries[item], key, like))
    decreases q, 1
  {
    match q
    case And(subs) => AllMatchPlain(subs, key, table, entries, item, like);
    case Or(subs) => AllMatchPlain(subs, key, table, entries, item, like);
    case Not(sub) => MatchesPlain(sub, key, table, entries, item, like);
    case Compare(op, name, value) => CompareAtomsAgree(op, name, value, key, table, entries, item, like);
    case In(name, values) => OneOfAtomsAgree(name, values, key, table, entries, item);
    case Exist(names) =>
      forall name | name in names
        ensures TagPresent(key.ToCodec(), name, table, item) <==> exists t :: t in entries[item] && t.name == name
      {
        PresentAtomsAgree(name, key, table, entries, item);
      }
  }

  lemma {:induction false} AllMatchPlain(qs: seq<TagQuery>, key: ProfileKey, table: set<Row>,
                                         entries: map<int, seq<EntryTag>>, item: int, like: LikeFn)
    requires key.Valid() && Stores(table, entries, key) && item in entries && AllEqualityOnly(qs)
    ensures var m, plain := StoredAtoms(key.ToCodec(), table, item, like), PlainAtoms(entries[item], key, like);
      AllHold(qs, m) == AllHold(qs, plain) && AnyHolds(qs, m) == AnyHolds(qs, plain)
    decreases qs, 0
  {
    if qs != [] {
      MatchesPlain(qs[0], key, table, entries, item, like);
      AllMatchPlain(qs[1..], key, table, entries, item, like);
    }
  }

  /** The nonces derived for an encrypted != operand and for any other stored value of that tag differ. */
  ghost predicate NoncesDiffer(q: TagQuery, key: ProfileKey, entries: map<int, seq<EntryTag>>)
    decreases q, 1
  {
    match q
    case Compare(op, name, value) =>
      op == Neq && name.Encrypted? ==>
        forall item, t | item in entries && t in entries[item] && t.name == name && t.value != value ::
          key.nonce(key.utf8(t.value)) != key.nonce(key.utf8(value))
    case And(subs) => AllNoncesDiffer(subs, key, entries)
    case Or(subs) => AllNoncesDiffer(subs, key, entries)
    case Not(sub) => NoncesDiffer(sub, key, entries)
    case _ => true
  }

  ghost predicate AllNoncesDiffer(qs: seq<TagQuery>, key: ProfileKey, entries: map<int, seq<EntryTag>>)
    decreases qs, 0
  {
    qs == [] || (NoncesDiffer(qs[0], key, entries) && AllNoncesDiffer(qs[1..], key, entries))
  }

  lemma {:induction false} NeqCollisionFree(name: TagName, value: string, key: ProfileKey, table: set<Row>,
                                            entries: map<int, seq<EntryTag>>)
    requires key.Valid() && Stores(table, entries, key) && name.Encrypted?
    requires NoncesDiffer(Compare(Neq, name, value), key, entries)
    ensures PrefixDistinguishes(key.ToCodec(), name, value, table)
  {
    var c := key.ToCodec();
    var v := c.ValueArg(value, false);
    assert Prefix(v, NONCE_PREFIX) == key.nonce(key.utf8(value));
    forall r | r in table && r.name == c.NameArg(name) && !r.plaintext && r.value != v
      ensures |v| > NONCE_PREFIX ==> Prefix(r.value, NONCE_PREFIX) != v[..NONCE_PREFIX]
    {
      assert TagIs(c, name, table, r.item, r);
      RowIsTag(key, name, table, entries, r.item);
      var t :| t in entries[r.item] && t.name == name && r == StoredRow(key, r.item, t);
      assert Prefix(r.value, NONCE_PREFIX) == key.nonce(key.utf8(t.value));
    }
  }

  lemma {:induction false} NoncesPreventCollisions(q: TagQuery, key: ProfileKey, table: set<Row>, entries: map<int,
                                                   seq<EntryTag>>)
    requires key.Valid() && Stores(table, entries, key) && NoncesDiffer(q, key, entries)
    ensures CollisionFree(key.ToCodec(), q, table)
    decreases q, 1
  {
    match q
    case Compare(op, name, value) =>
      if op == Neq && name.Encrypted? { NeqCollisionFree(name, value, key, table, entries); }
    case And(subs) => AllNoncesPreventCollisions(subs, key, table, entries);
    case Or(subs) => AllNoncesPreventCollisions(subs, key, table, entries);
    case Not(sub) => NoncesPreventCollisions(sub, key, table, entries);
    case _ =>
  }

  lemma {:induction false} AllNoncesPreventCollisions(qs: seq<TagQuery>, key: ProfileKey, table: set<Row>,
                                                      entries: map<int, seq<EntryTag>>)
    requires key.Valid() && Stores(table, entries, key) && AllNoncesDiffer(qs, key, entries)
    ensures AllCollisionFree(key.ToCodec(), qs, table)
    decreases qs, 0
  {
    if qs != [] {
      NoncesPreventCollisions(qs[0], key, table, entries);
      AllNoncesPreventCollisions(qs[1..], key, table, entries);
    }
  }

  /**
   * End to end: for every entry of the store, the SQL compiled from the user's query, run over the
   * encrypted table, selects the entry exactly when the query, in the user's own names, holds of the
   * entry's plain tags.
   */
  lemma SearchAnswersPlainQuery(q: Query<string, string>, key: ProfileKey, at: nat, args: seq<Bytes>, table: set<Row>,
                                entries: map<int, seq<EntryTag>>, item: int, like: LikeFn)
    requires key.Valid() && Stores(table, entries, key) && item in entries
    requires var tq := ToTagQuery(q);
      && Faithful(key.ToCodec(), tq, false) && EqualityOnly(tq) && NoncesDiffer(tq, key, entries)
      && Window(args, at, Compile(key.ToCodec(), tq, false, at).args)
    ensures SelectsOpt(Compile(key.ToCodec(), ToTagQuery(q), false, at).clause, args, table, item, like)
         == Holds(q, UserAtoms(entries[item], key, like))
  {
    var tq := ToTagQuery(q);
    NoncesPreventCollisions(tq, key, table, entries);
    CompileCorrect(key.ToCodec(), tq, false, at, args, table, item, like);
    MatchesPlain(tq, key, table, entries, item, like);
    UserAtomsRename(entries[item], key, like);
    MapNamesHolds(q, UserAtoms(entries[item], key, like), ToTagName, PlainAtoms(entries[item], key, like));
  }
}
