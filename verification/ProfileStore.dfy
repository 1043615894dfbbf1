/** Profile keys wrapped in a table, the key caches in front of it, and rekeying. */
module ProfileStore {
  import opened Prelude

  // ----- wrapping profile keys -----

  const NONCE_SIZE := 12

  type RawKey = Bytes

  /** The component keys of a profile key, as they are serialized. */
  datatype KeyParts = KeyParts(parts: seq<Bytes>)

  /** Serialization of profile keys, and authenticated encryption under store keys. */
  datatype Crypto = Crypto(
    toBytes: KeyParts -> Bytes,
    fromBytes: Bytes -> Option<KeyParts>,
    seal: (RawKey, Bytes, Bytes) -> Bytes,
    unseal: (RawKey, Bytes, Bytes) -> Option<Bytes>)
  {
    ghost predicate Correct() {
      && (forall p :: fromBytes(toBytes(p)) == Some(p))
      && (forall k, n, d :: unseal(k, n, seal(k, n, d)) == Some(d))
    }

    /** Data wrapped under the store key; without one it is stored as it is. */
    function WrapData(key: Option<RawKey>, data: Bytes, nonce: Bytes): Bytes {
      if key.Some? then nonce + seal(key.value, nonce, data) else data
    }

    function UnwrapData(key: Option<RawKey>, ciphertext: Bytes): Option<Bytes> {
      if key.None? then Some(ciphertext)
      else if |ciphertext| < NONCE_SIZE then None
      else unseal(key.value, ciphertext[..NONCE_SIZE], ciphertext[NONCE_SIZE..])
    }

    function EncodeKey(key: Option<RawKey>, p: KeyParts, nonce: Bytes): Bytes {
      WrapData(key, toBytes(p), nonce)
    }

    function LoadKey(key: Option<RawKey>, ciphertext: Bytes): Option<KeyParts> {
      var data := UnwrapData(key, ciphertext);
      if data.None? then None else fromBytes(data.value)
    }

    /** A wrapped profile key does not open under another store key as some other profile key. */
    ghost predicate Authentic() {
      forall k, k', p, n {:trigger LoadKey(k', EncodeKey(k, p, n))} ::
        |n| == NONCE_SIZE && LoadKey(k', EncodeKey(k, p, n)).Some? ==> LoadKey(k', EncodeKey(k, p, n)) == Some(p)
    }

    /** Nor does it open under another store key at all. */
    ghost predicate Exclusive() {
      forall k, k', p, n {:trigger LoadKey(k', EncodeKey(k, p, n))} ::
        |n| == NONCE_SIZE && k != k' ==> LoadKey(k', EncodeKey(k, p, n)).None?
    }
  }

  lemma LoadEncoded(cr: Crypto, key: Option<RawKey>, p: KeyParts, nonce: Bytes)
    requires cr.Correct() && |nonce| == NONCE_SIZE
    ensures cr.LoadKey(key, cr.EncodeKey(key, p, nonce)) == Some(p)
  {
    if key.Some? {
      var w := cr.EncodeKey(key, p, nonce);
      assert w[..NONCE_SIZE] == nonce && w[NONCE_SIZE..] == cr.seal(key.value, nonce, cr.toBytes(p));
    }
  }

  // ----- the store -----

  /** A row of the profiles table. */
  datatype Profile = Profile(id: int, blob: Bytes)

  /** A cache: the store key it was made with, and the profiles looked up through it. */
  datatype KeyCache = KeyCache(storeKey: Option<RawKey>, info: map<string, (int, KeyParts)>)

  /** The name and the key a profile was created with. */
  datatype Origin = Origin(name: string, key: KeyParts)

  /**
   * The backend. Rekeying replaces the cache, while sessions keep the one they were opened with, so
   * all caches ever made are kept here, the backend's own last. `truth` records, for each id ever
   * given out, the name and key created with it; no operation consults it.
   */
  datatype Store = Store(
    table: map<string, Profile>,
    nextId: int,
    caches: seq<KeyCache>,
    truth: map<int, Origin>)

  function Current(s: Store): KeyCache
    requires s.caches != []
  {
    s.caches[|s.caches| - 1]
  }

  datatype Op =
    | Create(name: string, key: KeyParts, nonce: Bytes)
    | Remove(name: string)
    | Acquire(cache: nat, name: string)
    | Rekey(newKey: Option<RawKey>, nonces: int -> Bytes)

  predicate Enabled(s: Store, op: Op) {
    match op
    case Create(_, _, nonce) => |nonce| == NONCE_SIZE
    case Remove(_) => true
    case Acquire(cache, _) => cache < |s.caches|
    case Rekey(_, nonces) => forall n | n in s.table :: |nonces(s.table[n].id)| == NONCE_SIZE
  }

  /** The rows whose ids are given, wrapped anew. */
  function Rewrapped(cr: Crypto, table: map<string, Profile>, oldKey: Option<RawKey>, newKey: Option<RawKey>,
                           nonces: int -> Bytes, ids: set<int>): map<string, Profile> {
    map n | n in table ::
      var row := table[n];
      if row.id in ids && cr.LoadKey(oldKey, row.blob).Some? then
        Profile(row.id, cr.EncodeKey(newKey, cr.LoadKey(oldKey, row.blob).value, nonces(row.id)))
      else row
  }

  function Ids(table: map<string, Profile>): set<int> {
    set n | n in table :: table[n].id
  }

  function Step(cr: Crypto, s: Store, op: Op): Store
    requires s.caches != [] && Enabled(s, op)
  {
    var last := |s.caches| - 1;
    match op
    case Create(name, key, nonce) =>
      if name in s.table then s
      else
        var id := s.nextId;
        Store(s.table[name := Profile(id, cr.EncodeKey(Current(s).storeKey, key, nonce))],
              id + 1,
              s.caches[last := Current(s).(info := Current(s).info[name := (id, key)])],
              s.truth[id := Origin(name, key)])
    case Remove(name) => s.(table := s.table - {name})
    case Acquire(g, name) =>
      var cache := s.caches[g];
      if name in cache.info || name !in s.table then s
      else
        var loaded := cr.LoadKey(cache.storeKey, s.table[name].blob);
        if loaded.None? then s
        else s.(caches := s.caches[g := cache.(info := cache.info[name := (s.table[name].id, loaded.value)])])
    case Rekey(newKey, nonces) =>
      if exists n :: n in s.table && cr.LoadKey(Current(s).storeKey, s.table[n].blob).None? then s
      else
        s.(table := Rewrapped(cr, s.table, Current(s).storeKey, newKey, nonces, Ids(s.table)),
           caches := s.caches + [KeyCache(newKey, map[])])
  }

  // ----- what every step keeps -----

  ghost predicate Holds(cr: Crypto, key: Option<RawKey>, p: KeyParts, blob: Bytes) {
    exists nonce :: |nonce| == NONCE_SIZE && blob == cr.EncodeKey(key, p, nonce)
  }

  /** A row holds the key created with its id, wrapped under the current store key. */
  ghost predicate RowInv(cr: Crypto, s: Store, n: string)
    requires s.caches != [] && n in s.table
  {
    var row := s.table[n];
    && row.id in s.truth && s.truth[row.id].name == n
    && Holds(cr, Current(s).storeKey, s.truth[row.id].key, row.blob)
  }

  ghost predicate TableInv(cr: Crypto, s: Store)
    requires s.caches != []
  {
    && (forall n | n in s.table :: RowInv(cr, s, n))
    && DistinctIds(s.table)
    && (forall i | i in s.truth :: i < s.nextId)
  }

  ghost predicate CacheInv(s: Store, cache: KeyCache) {
    forall n | n in cache.info ::
      cache.info[n].0 in s.truth && s.truth[cache.info[n].0] == Origin(n, cache.info[n].1)
  }

  ghost predicate Inv(cr: Crypto, s: Store) {
    && s.caches != []
    && TableInv(cr, s)
    && (forall g | 0 <= g < |s.caches| :: CacheInv(s, s.caches[g]))
    && (forall n | n in s.table && n in Current(s).info :: Current(s).info[n].0 == s.table[n].id)
  }

  lemma CreateKeepsInv(cr: Crypto, s: Store, name: string, key: KeyParts, nonce: Bytes)
    requires cr.Correct() && Inv(cr, s) && |nonce| == NONCE_SIZE
    ensures Inv(cr, Step(cr, s, Create(name, key, nonce)))
  {
    if name !in s.table {
      var s' := Step(cr, s, Create(name, key, nonce));
      assert Holds(cr, Current(s).storeKey, key, s'.table[name].blob);
      forall g | 0 <= g < |s'.caches| ensures CacheInv(s', s'.caches[g]) {
        assert CacheInv(s, s.caches[g]);
      }
      forall n | n in s'.table
        ensures RowInv(cr, s', n)
      {
      }
    }
  }

  lemma AcquireKeepsInv(cr: Crypto, s: Store, g: nat, name: string)
    requires cr.Correct() && cr.Authentic() && Inv(cr, s) && g < |s.caches|
    ensures Inv(cr, Step(cr, s, Acquire(g, name)))
  {
    var s' := Step(cr, s, Acquire(g, name));
    if s' != s {
      var row := s.table[name];
      var p := s.truth[row.id].key;
      var nonce :| |nonce| == NONCE_SIZE && row.blob == cr.EncodeKey(Current(s).storeKey, p, nonce);
      assert cr.LoadKey(s.caches[g].storeKey, cr.EncodeKey(Current(s).storeKey, p, nonce)) == Some(p);
      assert Current(s').storeKey == Current(s).storeKey;
      forall h | 0 <= h < |s'.caches| ensures CacheInv(s', s'.caches[h]) {
        assert CacheInv(s, s.caches[h]);
      }
    }
  }

  /** Every row still opens under the store key its cache holds, as the key created with its id. */
  lemma RowsLoad(cr: Crypto, s: Store, name: string)
    requires cr.Correct() && Inv(cr, s) && name in s.table
    ensures cr.LoadKey(Current(s).storeKey, s.table[name].blob) == Some(s.truth[s.table[name].id].key)
  {
    var p := s.truth[s.table[name].id].key;
    var nonce :| |nonce| == NONCE_SIZE && s.table[name].blob == cr.EncodeKey(Current(s).storeKey, p, nonce);
    LoadEncoded(cr, Current(s).storeKey, p, nonce);
  }

  ghost predicate RowRewrapped(cr: Crypto, s: Store, s': Store, newKey: Option<RawKey>, nonces: int -> Bytes, n: string)
  {
    && n in s.table && n in s'.table && s.table[n].id in s.truth
    && s'.table[n] == Profile(s.table[n].id, cr.EncodeKey(newKey, s.truth[s.table[n].id].key, nonces(s.table[n].id)))
  }

  /** A rekey rewraps every row, and leaves the row's id and its key. */
  lemma RekeyRewraps(cr: Crypto, s: Store, newKey: Option<RawKey>, nonces: int -> Bytes)
    requires cr.Correct() && Inv(cr, s) && Enabled(s, Rekey(newKey, nonces))
    ensures var s' := Step(cr, s, Rekey(newKey, nonces));
      && s'.caches == s.caches + [KeyCache(newKey, map[])]
      && s'.table.Keys == s.table.Keys && s'.truth == s.truth && s'.nextId == s.nextId
      && forall n | n in s.table :: RowRewrapped(cr, s, s', newKey, nonces, n)
  {
    forall n | n in s.table
      ensures cr.LoadKey(Current(s).storeKey, s.table[n].blob) == Some(s.truth[s.table[n].id].key)
    {
      RowsLoad(cr, s, n);
    }
    assert forall n | n in s.table :: s.table[n].id in Ids(s.table);
  }

  lemma {:induction false} RekeyKeepsInv(cr: Crypto, s: Store, newKey: Option<RawKey>, nonces: int -> Bytes)
    requires cr.Correct() && Inv(cr, s) && Enabled(s, Rekey(newKey, nonces))
    ensures var s' := Step(cr, s, Rekey(newKey, nonces));
      && Inv(cr, s') && Current(s').storeKey == newKey
      && s'.table.Keys == s.table.Keys && s'.truth == s.truth
      && forall n | n in s.table :: s'.table[n].id == s.table[n].id
  {
    RekeyRewraps(cr, s, newKey, nonces);
    RewrappedKeepsInv(cr, s, Step(cr, s, Rekey(newKey, nonces)), newKey, nonces);
  }

  lemma RewrappedKeepsInv(cr: Crypto, s: Store, s': Store, newKey: Option<RawKey>, nonces: int -> Bytes)
    requires Inv(cr, s) && s'.caches == s.caches + [KeyCache(newKey, map[])]
    requires s'.table.Keys == s.table.Keys && s'.truth == s.truth && s'.nextId == s.nextId
    requires forall n | n in s.table :: |nonces(s.table[n].id)| == NONCE_SIZE
    requires forall n | n in s.table :: RowRewrapped(cr, s, s', newKey, nonces, n)
    ensures Inv(cr, s') && Current(s').storeKey == newKey
  {
    forall n | n in s'.table ensures Holds(cr, newKey, s'.truth[s'.table[n].id].key, s'.table[n].blob) {
      assert n in s.table;
    }
    forall g | 0 <= g < |s'.caches| ensures CacheInv(s', s'.caches[g]) {
      if g < |s.caches| {
        assert CacheInv(s, s.caches[g]);
      }
    }
  }

  lemma {:induction false} StepKeepsInv(cr: Crypto, s: Store, op: Op)
    requires cr.Correct() && cr.Authentic() && Inv(cr, s) && Enabled(s, op)
    ensures Inv(cr, Step(cr, s, op))
  {
    match op
    case Create(name, key, nonce) => CreateKeepsInv(cr, s, name, key, nonce);
    case Remove(name) =>
      var s' := Step(cr, s, op);
      assert forall g | 0 <= g < |s'.caches| :: CacheInv(s, s'.caches[g]) ==> CacheInv(s', s'.caches[g]);
    case Acquire(g, name) => AcquireKeepsInv(cr, s, g, name);
    case Rekey(newKey, nonces) => RekeyKeepsInv(cr, s, newKey, nonces);
  }

  // ----- whole runs -----

  function New(key: Option<RawKey>): Store {
    Store(map[], 1, [KeyCache(key, map[])], map[])
  }

  ghost predicate Runs(cr: Crypto, s: Store, ops: seq<Op>)
    decreases |ops|
  {
    ops == [] || (s.caches != [] && Enabled(s, ops[0]) && Runs(cr, Step(cr, s, ops[0]), ops[1..]))
  }

  ghost function After(cr: Crypto, s: Store, ops: seq<Op>): Store
    requires Runs(cr, s, ops)
    decreases |ops|
  {
    if ops == [] then s else After(cr, Step(cr, s, ops[0]), ops[1..])
  }

  lemma {:induction false} RunKeepsInv(cr: Crypto, s: Store, ops: seq<Op>)
    requires cr.Correct() && cr.Authentic() && Inv(cr, s) && Runs(cr, s, ops)
    ensures Inv(cr, After(cr, s, ops))
    decreases |ops|
  {
    if ops != [] {
      StepKeepsInv(cr, s, ops[0]);
      RunKeepsInv(cr, Step(cr, s, ops[0]), ops[1..]);
    }
  }

  /**
   * Cache agreement. After any run, an entry of the backend's cache whose name is still in the table
   * holds that row's id; and an entry of any cache that holds a row's id holds the key the row's bytes
   * open to under the store key.
   */
  lemma {:induction false} CachesAgree(cr: Crypto, key: Option<RawKey>, ops: seq<Op>, g: nat, name: string)
    requires cr.Correct() && cr.Authentic() && Runs(cr, New(key), ops)
    requires var s := After(cr, New(key), ops); g < |s.caches| && name in s.table && name in s.caches[g].info
    ensures var s := After(cr, New(key), ops);
      var entry, row := s.caches[g].info[name], s.table[name];
      && (g == |s.caches| - 1 ==> entry.0 == row.id)
      && (entry.0 == row.id ==> Some(entry.1) == cr.LoadKey(Current(s).storeKey, row.blob))
  {
    RunKeepsInv(cr, New(key), ops);
    var s := After(cr, New(key), ops);
    assert CacheInv(s, s.caches[g]);
    RowsLoad(cr, s, name);
  }

  /** The keys of existing profiles never change: rekeying rewrites every row and no key. */
  lemma {:induction false} KeysNeverChange(cr: Crypto, s: Store, ops: seq<Op>, id: int)
    requires cr.Correct() && cr.Authentic() && Inv(cr, s) && Runs(cr, s, ops) && id in s.truth
    ensures var s' := After(cr, s, ops);
      && s'.caches != [] && id in s'.truth && s'.truth[id] == s.truth[id]
      && forall n | n in s'.table && s'.table[n].id == id ::
        cr.LoadKey(Current(s').storeKey, s'.table[n].blob) == Some(s.truth[id].key)
    decreases |ops|
  {
    if ops == [] {
      forall n | n in s.table
        ensures cr.LoadKey(Current(s).storeKey, s.table[n].blob) == Some(s.truth[s.table[n].id].key)
      {
        RowsLoad(cr, s, n);
      }
    } else {
      StepKeepsInv(cr, s, ops[0]);
      KeysNeverChange(cr, Step(cr, s, ops[0]), ops[1..], id);
    }
  }

  // ----- caches that sessions keep across a rekey -----

  /** An id that no row has and none will get. */
  ghost predicate Gone(s: Store, id: int) {
    id < s.nextId && forall n | n in s.table :: s.table[n].id != id
  }

  lemma {:induction false} GoneStays(cr: Crypto, s: Store, ops: seq<Op>, id: int)
    requires Runs(cr, s, ops) && Gone(s, id)
    ensures Gone(After(cr, s, ops), id)
    decreases |ops|
  {
    if ops != [] {
      GoneStays(cr, Step(cr, s, ops[0]), ops[1..], id);
    }
  }

  /** No step touches an entry of a cache that is no longer the backend's. */
  lemma {:induction false} OldEntryStays(cr: Crypto, s: Store, ops: seq<Op>, g: nat, name: string)
    requires Runs(cr, s, ops) && g + 1 < |s.caches| && name in s.caches[g].info
    ensures var s' := After(cr, s, ops);
      g + 1 < |s'.caches| && name in s'.caches[g].info && s'.caches[g].info[name] == s.caches[g].info[name]
    decreases |ops|
  {
    if ops != [] {
      OldEntryStays(cr, Step(cr, s, ops[0]), ops[1..], g, name);
    }
  }

  lemma RowStep(cr: Crypto, s: Store, op: Op, name: string)
    requires cr.Correct() && Inv(cr, s) && Enabled(s, op) && name in s.table
    ensures var s', id := Step(cr, s, op), s.table[name].id;
      if op == Remove(name) then Gone(s', id) else name in s'.table && s'.table[name].id == id
  {
  }

  /** A row stays in the table under its id until it is removed, and then its id is gone. */
  lemma {:induction false} RowUntilRemoved(cr: Crypto, s: Store, ops: seq<Op>, name: string)
    requires cr.Correct() && cr.Authentic() && Inv(cr, s) && Runs(cr, s, ops) && name in s.table
    ensures var s', id := After(cr, s, ops), s.table[name].id;
      if Remove(name) in ops then Gone(s', id) else name in s'.table && s'.table[name].id == id
    decreases |ops|
  {
    if ops != [] {
      var op, rest := ops[0], ops[1..];
      RowStep(cr, s, op, name);
      StepKeepsInv(cr, s, op);
      assert Remove(name) in ops <==> op == Remove(name) || Remove(name) in rest;
      if op == Remove(name) {
        GoneStays(cr, Step(cr, s, op), rest, s.table[name].id);
      } else {
        RowUntilRemoved(cr, Step(cr, s, op), rest, name);
      }
    }
  }

  /** An entry of some cache, and the row of its name: they are about one profile. */
  ghost predicate About(s: Store, g: nat, name: string) {
    && g < |s.caches| && name in s.caches[g].info && name in s.table
    && s.caches[g].info[name].0 == s.table[name].id
  }

  /** An entry that is not about the row of its name is about a profile that is gone. */
  lemma StrayIsGone(cr: Crypto, s: Store, g: nat, name: string)
    requires Inv(cr, s) && g < |s.caches| && name in s.caches[g].info && !About(s, g, name)
    ensures Gone(s, s.caches[g].info[name].0)
  {
    assert CacheInv(s, s.caches[g]);
    assert forall n | n in s.table :: RowInv(cr, s, n);
  }

  /**
   * A session keeps the cache it was opened with when the backend is rekeyed. Take any entry of any
   * such cache, at any moment of any run, cached before the rekey or acquired after it. Over every run
   * that follows, the entry is about the row of its name, and then holds its key, if and only if it
   * is so at that moment and the name is not removed afterwards.
   */
  lemma {:induction false} RetiredCacheAgreesExactly(cr: Crypto, key: Option<RawKey>, before: seq<Op>, since: seq<Op>,
                                                     g: nat, name: string)
    requires cr.Correct() && cr.Authentic() && Runs(cr, New(key), before)
    requires var s := After(cr, New(key), before);
      g + 1 < |s.caches| && name in s.caches[g].info && Runs(cr, s, since)
    ensures var s := After(cr, New(key), before);
      var s' := After(cr, s, since);
      && g + 1 < |s'.caches| && name in s'.caches[g].info
      && (About(s', g, name) <==> About(s, g, name) && Remove(name) !in since)
      && (About(s', g, name) ==>
            Some(s'.caches[g].info[name].1) == cr.LoadKey(Current(s').storeKey, s'.table[name].blob))
  {
    var s := After(cr, New(key), before);
    RunKeepsInv(cr, New(key), before);
    RetiredEntry(cr, s, since, g, name);
    RunKeepsInv(cr, s, since);
    AboutHoldsKey(cr, After(cr, s, since), g, name);
  }

  lemma {:induction false} RetiredEntry(cr: Crypto, s: Store, ops: seq<Op>, g: nat, name: string)
    requires cr.Correct() && cr.Authentic() && Inv(cr, s) && Runs(cr, s, ops)
    requires g + 1 < |s.caches| && name in s.caches[g].info
    ensures var s' := After(cr, s, ops);
      && g + 1 < |s'.caches| && name in s'.caches[g].info
      && (About(s', g, name) <==> About(s, g, name) && Remove(name) !in ops)
  {
    OldEntryStays(cr, s, ops, g, name);
    if About(s, g, name) {
      RowUntilRemoved(cr, s, ops, name);
    } else {
      StrayIsGone(cr, s, g, name);
      GoneStays(cr, s, ops, s.caches[g].info[name].0);
    }
  }

  lemma AboutHoldsKey(cr: Crypto, s: Store, g: nat, name: string)
    requires cr.Correct() && Inv(cr, s)
    ensures About(s, g, name) ==>
      Some(s.caches[g].info[name].1) == cr.LoadKey(Current(s).storeKey, s.table[name].blob)
  {
    if About(s, g, name) {
      assert CacheInv(s, s.caches[g]);
      RowsLoad(cr, s, name);
    }
  }

  /** Unwrapping a row under the current store key never finds it shorter than a nonce. */
  lemma {:induction false} RowsAreLongEnough(cr: Crypto, key: Option<RawKey>, ops: seq<Op>, name: string)
    requires cr.Correct() && cr.Authentic() && Runs(cr, New(key), ops) && name in After(cr, New(key), ops).table
    ensures var s := After(cr, New(key), ops);
      s.caches != [] && (Current(s).storeKey.Some? ==> |s.table[name].blob| >= NONCE_SIZE)
  {
    RunKeepsInv(cr, New(key), ops);
  }

  /** One run after which the entry of an older cache is stale. */
  lemma OldCacheGoesStale(cr: Crypto, key: Option<RawKey>, newKey: Option<RawKey>, p: KeyParts, p': KeyParts,
                          nonce: Bytes)
    requires cr.Correct() && |nonce| == NONCE_SIZE
    ensures var s1 := Step(cr, New(key), Create("a", p, nonce));
      Enabled(s1, Rekey(newKey, _ => nonce)) &&
      var s2 := Step(cr, s1, Rekey(newKey, _ => nonce));
      s2.caches != [] &&
      var s3 := Step(cr, s2, Remove("a"));
      s3.caches != [] &&
      var s4 := Step(cr, s3, Create("a", p', nonce));
      |s4.caches| == 2 && "a" in s4.table && "a" in s4.caches[0].info && s4.caches[0].info["a"].0 != s4.table["a"].id
  {
    var s1 := Step(cr, New(key), Create("a", p, nonce));
    LoadEncoded(cr, key, p, nonce);
    var s2 := Step(cr, s1, Rekey(newKey, _ => nonce));
    assert |s2.caches| == 2;
    assert s2.nextId == 2 && s2.caches[0].info["a"].0 == 1;
  }

  // ----- a rekey stopped by the database -----

  /** The loop wrote the rows in `done` and then failed; the store key and the caches stay as they were. */
  function Interrupted(cr: Crypto, s: Store, newKey: Option<RawKey>, nonces: int -> Bytes, done: set<int>): Store
    requires s.caches != []
  {
    s.(table := Rewrapped(cr, s.table, Current(s).storeKey, newKey, nonces, done))
  }

  /**
   * After an interrupted rekey to a different key, the profiles that still open are exactly those
   * not yet rewritten.
   */
  lemma InterruptedRekeyExact(cr: Crypto, s: Store, newKey: Option<RawKey>, nonces: int -> Bytes,
                                               done: set<int>, name: string)
    requires cr.Correct() && cr.Exclusive() && Inv(cr, s) && Enabled(s, Rekey(newKey, nonces))
    requires newKey != Current(s).storeKey && name in s.table
    ensures var s' := Interrupted(cr, s, newKey, nonces, done);
      cr.LoadKey(Current(s').storeKey, s'.table[name].blob).Some? <==> s.table[name].id !in done
  {
    RowsLoad(cr, s, name);
  }

  // ----- the rekey loop -----

  /** The loop stopped before this row: it did the rows of lower id, and this one does not load or is refused. */
  ghost predicate StopsBefore(cr: Crypto, rows: map<string, Profile>, storeKey: Option<RawKey>, failAt: nat,
                              done: set<int>, name: string)
    requires name in rows
  {
    && done == (set p | p in Ids(rows) && p < rows[name].id)
    && (cr.LoadKey(storeKey, rows[name].blob).None? || |done| == failAt)
  }

  ghost predicate StoppedAt(cr: Crypto, rows: map<string, Profile>, storeKey: Option<RawKey>, failAt: nat,
                            done: set<int>)
  {
    exists name :: name in rows && StopsBefore(cr, rows, storeKey, failAt, done, name)
  }

  predicate DistinctIds(table: map<string, Profile>) {
    forall n, m | n in table && m in table && n != m :: table[n].id != table[m].id
  }

  lemma NothingRewrapped(cr: Crypto, table: map<string, Profile>, oldKey: Option<RawKey>, newKey: Option<RawKey>,
                         nonces: int -> Bytes)
    ensures Rewrapped(cr, table, oldKey, newKey, nonces, {}) == table
  {
  }

  /** Writing one more row back is rewrapping with one more id. */
  lemma OneMoreRewrapped(cr: Crypto, table: map<string, Profile>, oldKey: Option<RawKey>, newKey: Option<RawKey>,
                         nonces: int -> Bytes, done: set<int>, name: string)
    requires DistinctIds(table) && name in table && cr.LoadKey(oldKey, table[name].blob).Some?
    ensures var pid := table[name].id;
      Rewrapped(cr, table, oldKey, newKey, nonces, done)[name :=
        Profile(pid, cr.EncodeKey(newKey, cr.LoadKey(oldKey, table[name].blob).value, nonces(pid)))]
      == Rewrapped(cr, table, oldKey, newKey, nonces, done + {pid})
  {
  }

  /** How a key lookup ends; `Aborted` stands for an unwrapped empty result. */
  datatype Acquired = Got(id: int, key: KeyParts) | Aborted | NotLoaded

  /** The backend object. Its own cache is the last; a session works through the one it was opened with. */
  class OdbcBackend {
    const cr: Crypto
    var table: map<string, Profile>
    var nextId: int
    var caches: seq<KeyCache>
    ghost var truth: map<int, Origin>

    ghost function AsStore(): Store
      reads this
    {
      Store(table, nextId, caches, truth)
    }

    constructor (cr: Crypto, storeKey: Option<RawKey>)
      ensures this.cr == cr && AsStore() == New(storeKey)
    {
      this.cr := cr;
      table := map[];
      nextId := 1;
      caches := [KeyCache(storeKey, map[])];
      truth := map[];
    }

    method CreateProfile(name: string, key: KeyParts, nonce: Bytes) returns (ok: bool)
      requires caches != [] && |nonce| == 12
      modifies this
      ensures AsStore() == Step(cr, old(AsStore()), Create(name, key, nonce)) && ok == (name !in old(table))
      ensures !ok ==> AsStore() == old(AsStore())
      ensures ok ==>
        var id, last := old(nextId), old(caches)[|old(caches)| - 1];
        var data := cr.toBytes(key);
        && table == old(table)[name := Profile(id, match last.storeKey
                                                   case None => data
                                                   case Some(k) => nonce + cr.seal(k, nonce, data))]
        && nextId == id + 1
        && caches == old(caches)[|old(caches)| - 1 := KeyCache(last.storeKey, last.info[name := (id, key)])]
    {
      var last := |caches| - 1;
      var encKey := cr.EncodeKey(caches[last].storeKey, key, nonce);
      if name in table {
        return false;
      }
      var pid := nextId;
      table := table[name := Profile(pid, encKey)];
      nextId := nextId + 1;
      caches := caches[last := caches[last].(info := caches[last].info[name := (pid, key)])];
      truth := truth[pid := Origin(name, key)];
      return true;
    }

    method RemoveProfile(name: string) returns (removed: bool)
      requires caches != []
      modifies this
      ensures AsStore() == Step(cr, old(AsStore()), Remove(name)) && removed == (name in old(table))
      ensures name !in table && caches == old(caches) && nextId == old(nextId)
      ensures forall n | n != name :: (n in table <==> n in old(table)) && (n in table ==> table[n] == old(table)[n])
    {
      removed := name in table;
      table := table - {name};
    }

    /** The cache first, then the row. A name that is in neither aborts; a row may fail to load. */
    method AcquireKey(cache: nat, name: string) returns (r: Acquired)
      requires cache < |caches|
      modifies this
      ensures AsStore() == Step(cr, old(AsStore()), Acquire(cache, name))
      ensures table == old(table) && nextId == old(nextId)
      ensures var before := old(caches)[cache];
        if name in before.info then r == Got(before.info[name].0, before.info[name].1) && caches == old(caches)
        else if name !in table then r == Aborted && caches == old(caches)
        else
          match cr.LoadKey(before.storeKey, table[name].blob)
          case None => r == NotLoaded && caches == old(caches)
          case Some(key) =>
            && r == Got(table[name].id, key)
            && caches == old(caches)[cache := KeyCache(before.storeKey, before.info[name := (table[name].id, key)])]
    {
      if name in caches[cache].info {
        return Got(caches[cache].info[name].0, caches[cache].info[name].1);
      }
      if name !in table {
        return Aborted;
      }
      var row := table[name];
      var key := cr.LoadKey(caches[cache].storeKey, row.blob);
      if key.None? {
        return NotLoaded;
      }
      caches := caches[cache := caches[cache].(info := caches[cache].info[name := (row.id, key.value)])];
      return Got(row.id, key.value);
    }

    /**
     * Reads every (id, key) pair, then loads, rewraps and writes back the rows by ascending id, then
     * records the new store key, and replaces the cache last. `failAt` is how many rows the database
     * accepts before it refuses one, and `recorded` whether it accepts the new store key.
     */
    method Rekey(newKey: Option<RawKey>, nonces: int -> Bytes, failAt: nat, recorded: bool)
        returns (ok: bool, ghost done: set<int>)
      requires caches != [] && DistinctIds(table)
      modifies this
      ensures var oldKey := old(Current(AsStore())).storeKey;
        && (ok <==> (forall n | n in old(table) :: cr.LoadKey(oldKey, old(table)[n].blob).Some?)
                    && |Ids(old(table))| <= failAt && recorded)
        && (if (forall n | n in old(table) :: cr.LoadKey(oldKey, old(table)[n].blob).Some?)
               && |Ids(old(table))| <= failAt
            then done == Ids(old(table)) else StoppedAt(cr, old(table), oldKey, failAt, done))
        && (ok ==> done == Ids(old(table)) && AsStore() == old(AsStore()).(
              table := Rewrapped(cr, old(table), oldKey, newKey, nonces, done),
              caches := old(caches) + [KeyCache(newKey, map[])]))
      ensures !ok ==> AsStore() == Interrupted(cr, old(AsStore()), newKey, nonces, done)
    {
      var storeKey := caches[|caches| - 1].storeKey;
      table, ok, done := RewriteRows(table, storeKey, newKey, nonces, failAt);
      if ok && !recorded {
        return false, done;
      }
      if ok {
        caches := caches + [KeyCache(newKey, map[])];
      }
    }

    /** The loop over the collected rows, by ascending id. */
    method RewriteRows(rows: map<string, Profile>, storeKey: Option<RawKey>, newKey: Option<RawKey>,
                       nonces: int -> Bytes, failAt: nat)
        returns (written: map<string, Profile>, ok: bool, ghost done: set<int>)
      requires DistinctIds(rows)
      ensures written == Rewrapped(cr, rows, storeKey, newKey, nonces, done)
      ensures ok <==> (forall n | n in rows :: cr.LoadKey(storeKey, rows[n].blob).Some?) && |Ids(rows)| <= failAt
      ensures if ok then done == Ids(rows) else StoppedAt(cr, rows, storeKey, failAt, done)
    {
      var todo := Ids(rows);
      written := rows;
      done := {};
      var count := 0;
      NothingRewrapped(cr, rows, storeKey, newKey, nonces);
      while todo != {}
        invariant Ascending(Ids(rows), done, todo) && count == |done| <= failAt
        invariant AllLoad(cr, rows, storeKey, done)
        invariant written == Rewrapped(cr, rows, storeKey, newKey, nonces, done)
        decreases |todo|
      {
        var pid;
        written, pid, ok := RewriteLeast(rows, written, storeKey, newKey, nonces, failAt, count, todo, done);
        if !ok {
          StoppedFails(cr, rows, storeKey, failAt, done);
          return written, false, done;
        }
        todo := todo - {pid};
        done := done + {pid};
        count := count + 1;
      }
      assert done == Ids(rows);
      return written, true, done;
    }

    /** One turn: the row of least id among those left, unless it does not load or is refused. */
    method RewriteLeast(rows: map<string, Profile>, before: map<string, Profile>, storeKey: Option<RawKey>,
                        newKey: Option<RawKey>, nonces: int -> Bytes, failAt: nat, count: nat, todo: set<int>,
                        ghost done: set<int>)
        returns (written: map<string, Profile>, pid: int, ok: bool)
      requires DistinctIds(rows) && Ascending(Ids(rows), done, todo) && todo != {} && count == |done|
      requires AllLoad(cr, rows, storeKey, done) && before == Rewrapped(cr, rows, storeKey, newKey, nonces, done)
      ensures pid in todo && |todo - {pid}| < |todo|
      ensures !ok ==> written == before && StoppedAt(cr, rows, storeKey, failAt, done)
      ensures ok ==> Ascending(Ids(rows), done + {pid}, todo - {pid}) && |done + {pid}| == count + 1 && count != failAt
      ensures ok ==> AllLoad(cr, rows, storeKey, done + {pid})
      ensures ok ==> written == Rewrapped(cr, rows, storeKey, newKey, nonces, done + {pid})
    {
      LeastExists(todo);
      pid :| pid in todo && forall p | p in todo :: pid <= p;
      AscendingStep(Ids(rows), done, todo, pid);
      var name, profileKey := LoadById(rows, storeKey, pid);
      if profileKey.None? || count == failAt {
        assert StopsBefore(cr, rows, storeKey, failAt, done, name);
        return before, pid, false;
      }
      LoadStep(cr, rows, storeKey, done, name);
      OneMoreRewrapped(cr, rows, storeKey, newKey, nonces, done, name);
      return before[name := Profile(pid, cr.EncodeKey(newKey, profileKey.value, nonces(pid)))], pid, true;
    }

    method LoadById(rows: map<string, Profile>, storeKey: Option<RawKey>, pid: int)
        returns (name: string, key: Option<KeyParts>)
      requires DistinctIds(rows) && pid in Ids(rows)
      ensures name in rows && rows[name].id == pid && (forall n | n in rows && rows[n].id == pid :: n == name)
      ensures key == cr.LoadKey(storeKey, rows[name].blob)
    {
      name :| name in rows && rows[name].id == pid;
      key := cr.LoadKey(storeKey, rows[name].blob);
    }
  }

  lemma EmptyOrNot(s: set<int>)
    ensures s == {} || exists x :: x in s
  {
    if !exists x :: x in s {
      assert s == {};
    }
  }

  lemma {:induction false} LeastExists(s: set<int>)
    requires s != {}
    ensures exists x :: x in s && forall y | y in s :: x <= y
    decreases |s|
  {
    EmptyOrNot(s);
    var x :| x in s;
    var others := s - {x};
    if others == {} {
      assert s == {x};
    } else {
      LeastExists(others);
      var z :| z in others && forall y | y in others :: z <= y;
      var least := if x < z then x else z;
      assert forall y | y in s :: y == x || y in others;
      assert least in s && forall y | y in s :: least <= y;
    }
  }

  /** The ids split into those done and those to do, all of the former below all of the latter. */
  ghost predicate Ascending(ids: set<int>, done: set<int>, todo: set<int>) {
    done + todo == ids && done !! todo && forall p, p' | p in done && p' in todo :: p < p'
  }

  lemma AscendingStep(ids: set<int>, done: set<int>, todo: set<int>, pid: int)
    requires Ascending(ids, done, todo) && pid in todo && forall p | p in todo :: pid <= p
    ensures Ascending(ids, done + {pid}, todo - {pid})
    ensures done == (set p | p in ids && p < pid) && pid in ids
    ensures |done + {pid}| == |done| + 1 <= |ids| && |todo - {pid}| < |todo|
  {
    assert (done + {pid}) + (todo - {pid}) == ids;
    assert |ids| == |done + {pid}| + |todo - {pid}|;
  }

  /** A loop that stopped could not have done every row. */
  lemma StoppedFails(cr: Crypto, rows: map<string, Profile>, storeKey: Option<RawKey>, failAt: nat, done: set<int>)
    requires StoppedAt(cr, rows, storeKey, failAt, done)
    ensures (forall n | n in rows :: cr.LoadKey(storeKey, rows[n].blob).Some?) ==> |Ids(rows)| > failAt
  {
    var name :| name in rows && StopsBefore(cr, rows, storeKey, failAt, done, name);
    var rest := Ids(rows) - done;
    assert rows[name].id in rest;
    assert |Ids(rows)| == |done| + |rest| by { assert Ids(rows) == done + rest; }
  }

  ghost predicate AllLoad(cr: Crypto, rows: map<string, Profile>, storeKey: Option<RawKey>, done: set<int>) {
    forall n | n in rows && rows[n].id in done :: cr.LoadKey(storeKey, rows[n].blob).Some?
  }

  lemma LoadStep(cr: Crypto, rows: map<string, Profile>, storeKey: Option<RawKey>, done: set<int>, name: string)
    requires AllLoad(cr, rows, storeKey, done) && DistinctIds(rows)
    requires name in rows && cr.LoadKey(storeKey, rows[name].blob).Some?
    ensures AllLoad(cr, rows, storeKey, done + {rows[name].id})
  {
  }
}
