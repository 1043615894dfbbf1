/** Keys kept as tagged entries: their own tags and the user's share one list and are told apart again. */
module KeyEntries {
  import opened Prelude
  import TagSql
  import Searchable
  import opened TagSet
  import opened Sorting

  // ----- the order of tags -----

  /** Encrypted tags first, then by name, then by value. */
  predicate TagBefore(a: EntryTag, b: EntryTag) {
    if a.name.Encrypted? != b.name.Encrypted? then a.name.Encrypted?
    else if a.name.text != b.name.text then TextBefore(a.name.text, b.name.text)
    else TextBefore(a.value, b.value)
  }

  /** The order of the source's enumeration: its first variant first, then field by field. */
  lemma TagBeforeExactly(a: EntryTag, b: EntryTag)
    ensures TagBefore(a, b) <==>
      || (a.name.Encrypted? && b.name.Plaintext?)
      || (a.name.Encrypted? == b.name.Encrypted? && Precedes(a.name.text, b.name.text, CharLess))
      || (a.name == b.name && Precedes(a.value, b.value, CharLess))
  {
    TextBeforeExactly(a.name.text, b.name.text);
    TextBeforeExactly(a.value, b.value);
    TextIrreflexive(a.name.text);
  }

  lemma OrdersAreStrict()
    ensures StrictOrder(TextBefore) && StrictOrder(TagBefore)
  {
    forall a: string ensures !TextBefore(a, a) { TextIrreflexive(a); }
    forall a: string, b: string ensures TextBefore(a, b) || TextBefore(b, a) || a == b { TextTotal(a, b); }
    forall a: string, b: string, c: string | TextBefore(a, b) && TextBefore(b, c) ensures TextBefore(a, c) {
      TextTransitive(a, b, c);
    }
    TagOrderIsStrict();
  }

  lemma TagOrderIsStrict()
    requires StrictOrder(TextBefore)
    ensures StrictOrder(TagBefore)
  {
    forall a, b ensures TagBefore(a, b) || TagBefore(b, a) || a == b {
      TextTotal(a.name.text, b.name.text);
      TextTotal(a.value, b.value);
    }
    forall a, b, c | TagBefore(a, b) && TagBefore(b, c) ensures TagBefore(a, c) {
      TagTransitive(a, b, c);
    }
    forall a ensures !TagBefore(a, a) {
      TextIrreflexive(a.value);
    }
  }

  lemma TagTransitive(a: EntryTag, b: EntryTag, c: EntryTag)
    requires TagBefore(a, b) && TagBefore(b, c)
    ensures TagBefore(a, c)
  {
    if TextBefore(a.name.text, b.name.text) && TextBefore(b.name.text, c.name.text) {
      TextTransitive(a.name.text, b.name.text, c.name.text);
      TextIrreflexive(a.name.text);
    } else if TextBefore(a.value, b.value) && TextBefore(b.value, c.value) {
      TextTransitive(a.value, b.value, c.value);
    }
  }

  // ----- telling tags apart -----

  const USER: string := "user:"
  const ALG: string := "alg"
  const THUMB: string := "thumb"

  function Renamed(name: TagName, text: string): TagName {
    if name.Encrypted? then TagSql.Encrypted(text) else TagSql.Plaintext(text)
  }

  predicate IsUser(t: EntryTag) {
    USER <= t.name.text
  }

  function Prefixed(t: EntryTag): EntryTag {
    Searchable.EntryTag(Renamed(t.name, USER + t.name.text), t.value)
  }

  function Stripped(t: EntryTag): EntryTag
    requires IsUser(t)
  {
    Searchable.EntryTag(Renamed(t.name, t.name.text[5..]), t.value)
  }

  /** Prefixing is one to one, and onto the user tags. */
  lemma PrefixStrip(t: EntryTag)
    ensures IsUser(Prefixed(t)) && Stripped(Prefixed(t)) == t
    ensures IsUser(t) ==> Prefixed(Stripped(t)) == t
  {
    assert (USER + t.name.text)[5..] == t.name.text;
    if IsUser(t) {
      assert USER + t.name.text[5..] == t.name.text;
    }
  }

  /** The names the key's own tags bear are not the user's, even where the user chose those words. */
  lemma OwnNames(t: EntryTag)
    requires t.name.text == ALG || t.name.text == THUMB
    ensures !IsUser(t) && Prefixed(t).name.text != ALG && Prefixed(t).name.text != THUMB
  {
    assert ALG[0] == 'a' && THUMB[0] == 't' && USER[0] == 'u';
    assert Prefixed(t).name.text[0] == 'u';
  }

  // ----- what an entry's tags hold -----

  function UserTag(t: EntryTag): seq<EntryTag> {
    if IsUser(t) then [Stripped(t)] else []
  }

  function UserTags(tags: seq<EntryTag>): seq<EntryTag> {
    if tags == [] then [] else UserTag(tags[0]) + UserTags(tags[1..])
  }

  function NotUser(tags: seq<EntryTag>): seq<EntryTag> {
    if tags == [] then [] else (if IsUser(tags[0]) then [] else [tags[0]]) + NotUser(tags[1..])
  }

  function Thumbs(tags: seq<EntryTag>): seq<string> {
    if tags == [] then [] else (if tags[0].name.text == THUMB then [tags[0].value] else []) + Thumbs(tags[1..])
  }

  /** The last one, should there be several. */
  function AlgOf(tags: seq<EntryTag>): Option<string> {
    if tags == [] then None
    else if AlgOf(tags[1..]).Some? then AlgOf(tags[1..])
    else if tags[0].name.text == ALG then Some(tags[0].value)
    else None
  }

  lemma ConsCount<T>(s: seq<T>, y: T)
    requires s != []
    ensures multiset(s)[y] == (if s[0] == y then 1 else 0) + multiset(s[1..])[y]
  {
    assert s == [s[0]] + s[1..];
  }

  lemma StrippedIs(u: EntryTag, t: EntryTag)
    ensures u == Prefixed(t) <==> IsUser(u) && Stripped(u) == t
  {
    PrefixStrip(t);
    PrefixStrip(u);
  }

  lemma {:induction false} UserCount(tags: seq<EntryTag>, t: EntryTag)
    ensures multiset(UserTags(tags))[t] == multiset(tags)[Prefixed(t)]
  {
    if tags != [] {
      UserCount(tags[1..], t);
      ConsCount(tags, Prefixed(t));
      StrippedIs(tags[0], t);
      if IsUser(tags[0]) {
        ConsCount(UserTags(tags), t);
        assert UserTags(tags)[1..] == UserTags(tags[1..]);
      } else {
        assert UserTags(tags) == UserTags(tags[1..]);
      }
    }
  }

  lemma {:induction false} NotUserCount(tags: seq<EntryTag>, t: EntryTag)
    ensures multiset(NotUser(tags))[t] == if IsUser(t) then 0 else multiset(tags)[t]
  {
    if tags != [] {
      NotUserCount(tags[1..], t);
      assert tags == [tags[0]] + tags[1..];
    }
  }

  lemma {:induction false} ThumbCount(tags: seq<EntryTag>, v: string)
    ensures multiset(Thumbs(tags))[v]
         == multiset(tags)[Searchable.EntryTag(TagSql.Encrypted(THUMB), v)]
          + multiset(tags)[Searchable.EntryTag(TagSql.Plaintext(THUMB), v)]
  {
    if tags != [] {
      ThumbCount(tags[1..], v);
      assert tags == [tags[0]] + tags[1..];
    }
  }

  lemma {:induction false} AlgFound(tags: seq<EntryTag>)
    ensures AlgOf(tags).None? ==> forall t | t in tags :: t.name.text != ALG
    ensures AlgOf(tags).Some? ==> exists t :: t in tags && t.name.text == ALG && t.value == AlgOf(tags).value
  {
    if tags != [] {
      AlgFound(tags[1..]);
      assert tags == [tags[0]] + tags[1..];
    }
  }

  /** None of it depends on the order in which a database returns the tags. */
  lemma {:induction false} OrderIrrelevant(a: seq<EntryTag>, b: seq<EntryTag>)
    requires multiset(a) == multiset(b)
    ensures multiset(UserTags(a)) == multiset(UserTags(b))
    ensures multiset(NotUser(a)) == multiset(NotUser(b))
    ensures multiset(Thumbs(a)) == multiset(Thumbs(b))
  {
    forall t ensures multiset(UserTags(a))[t] == multiset(UserTags(b))[t] {
      UserCount(a, t);
      UserCount(b, t);
    }
    forall t ensures multiset(NotUser(a))[t] == multiset(NotUser(b))[t] {
      NotUserCount(a, t);
      NotUserCount(b, t);
    }
    forall v ensures multiset(Thumbs(a))[v] == multiset(Thumbs(b))[v] {
      ThumbCount(a, v);
      ThumbCount(b, v);
    }
  }

  // ----- the tags a key is stored with -----

  function PrefixAll(tags: seq<EntryTag>): seq<EntryTag> {
    if tags == [] then [] else [Prefixed(tags[0])] + PrefixAll(tags[1..])
  }

  function ThumbTags(thumbs: seq<string>): seq<EntryTag> {
    if thumbs == [] then [] else [Searchable.EntryTag(TagSql.Encrypted(THUMB), thumbs[0])] + ThumbTags(thumbs[1..])
  }

  function AlgTags(alg: string): seq<EntryTag> {
    if alg == "" then [] else [Searchable.EntryTag(TagSql.Encrypted(ALG), alg)]
  }

  function KeyTags(alg: string, thumbs: seq<string>, user: seq<EntryTag>): seq<EntryTag> {
    AlgTags(alg) + ThumbTags(thumbs) + PrefixAll(user)
  }

  /** The tags a key is stored with, one by one; the user's keep their kind. */
  lemma {:induction false} KeyTagsAre(alg: string, thumbs: seq<string>, user: seq<EntryTag>)
    ensures var tags, own := KeyTags(alg, thumbs, user), if alg == "" then 0 else 1;
      && |tags| == own + |thumbs| + |user|
      && (alg != "" ==> tags[0] == Searchable.EntryTag(TagSql.Encrypted("alg"), alg))
      && (forall i | 0 <= i < |thumbs| :: tags[own + i] == Searchable.EntryTag(TagSql.Encrypted("thumb"), thumbs[i]))
      && (forall i | 0 <= i < |user| ::
           tags[own + |thumbs| + i] == Searchable.EntryTag(match user[i].name
                                                           case Encrypted(text) => TagSql.Encrypted("user:" + text)
                                                           case Plaintext(text) => TagSql.Plaintext("user:" + text),
                                                           user[i].value))
  {
    ThumbTagsAre(thumbs);
    PrefixAllAre(user);
  }

  lemma {:induction false} ThumbTagsAre(thumbs: seq<string>)
    ensures |ThumbTags(thumbs)| == |thumbs|
    ensures forall i | 0 <= i < |thumbs| ::
      ThumbTags(thumbs)[i] == Searchable.EntryTag(TagSql.Encrypted("thumb"), thumbs[i])
  {
    if thumbs != [] {
      ThumbTagsAre(thumbs[1..]);
    }
  }

  lemma {:induction false} PrefixAllAre(user: seq<EntryTag>)
    ensures |PrefixAll(user)| == |user| && forall i | 0 <= i < |user| :: PrefixAll(user)[i] == Prefixed(user[i])
  {
    if user != [] {
      PrefixAllAre(user[1..]);
    }
  }

  /** An update puts new user tags before the tags that are not the user's. */
  function Updated(tags: seq<EntryTag>, user: seq<EntryTag>): seq<EntryTag> {
    PrefixAll(user) + NotUser(tags)
  }

  lemma {:induction false} UserAppend(a: seq<EntryTag>, b: seq<EntryTag>)
    ensures UserTags(a + b) == UserTags(a) + UserTags(b)
  {
    if a == [] {
      assert a + b == b;
    } else {
      assert (a + b)[1..] == a[1..] + b;
      UserAppend(a[1..], b);
      AppendAssociative(UserTag(a[0]), UserTags(a[1..]), UserTags(b));
    }
  }

  lemma {:induction false} NotUserAppend(a: seq<EntryTag>, b: seq<EntryTag>)
    ensures NotUser(a + b) == NotUser(a) + NotUser(b)
  {
    if a == [] {
      assert a + b == b;
    } else {
      assert (a + b)[1..] == a[1..] + b;
      NotUserAppend(a[1..], b);
    }
  }

  lemma {:induction false} ThumbsAppend(a: seq<EntryTag>, b: seq<EntryTag>)
    ensures Thumbs(a + b) == Thumbs(a) + Thumbs(b)
  {
    if a == [] {
      assert a + b == b;
    } else {
      assert (a + b)[1..] == a[1..] + b;
      ThumbsAppend(a[1..], b);
    }
  }

  lemma SplitAppend(a: seq<EntryTag>, b: seq<EntryTag>)
    ensures UserTags(a + b) == UserTags(a) + UserTags(b)
    ensures NotUser(a + b) == NotUser(a) + NotUser(b)
    ensures Thumbs(a + b) == Thumbs(a) + Thumbs(b)
  {
    UserAppend(a, b);
    NotUserAppend(a, b);
    ThumbsAppend(a, b);
  }

  lemma {:induction false} SplitPrefixed(user: seq<EntryTag>)
    ensures UserTags(PrefixAll(user)) == user && NotUser(PrefixAll(user)) == [] && Thumbs(PrefixAll(user)) == []
    ensures forall t | t in PrefixAll(user) :: t.name.text != ALG
  {
    if user != [] {
      SplitPrefixed(user[1..]);
      PrefixStrip(user[0]);
      if Prefixed(user[0]).name.text == ALG || Prefixed(user[0]).name.text == THUMB {
        OwnNames(Prefixed(user[0]));
      }
      assert user == [user[0]] + user[1..];
    }
  }

  lemma {:induction false} SplitThumbs(thumbs: seq<string>)
    ensures UserTags(ThumbTags(thumbs)) == [] && NotUser(ThumbTags(thumbs)) == ThumbTags(thumbs)
    ensures Thumbs(ThumbTags(thumbs)) == thumbs
    ensures forall t | t in ThumbTags(thumbs) :: t.name.text == THUMB
  {
    if thumbs != [] {
      SplitThumbs(thumbs[1..]);
      OwnNames(ThumbTags(thumbs)[0]);
      assert thumbs == [thumbs[0]] + thumbs[1..];
    }
  }

  lemma SplitAlg(alg: string)
    ensures UserTags(AlgTags(alg)) == [] && NotUser(AlgTags(alg)) == AlgTags(alg) && Thumbs(AlgTags(alg)) == []
  {
    if alg != "" {
      OwnNames(AlgTags(alg)[0]);
      assert ALG[0] != THUMB[0];
    }
  }

  /** The three kinds of tag come apart again. */
  lemma {:induction false} KeyTagsSplit(alg: string, thumbs: seq<string>, user: seq<EntryTag>)
    ensures UserTags(KeyTags(alg, thumbs, user)) == user
    ensures NotUser(KeyTags(alg, thumbs, user)) == AlgTags(alg) + ThumbTags(thumbs)
    ensures Thumbs(KeyTags(alg, thumbs, user)) == thumbs
    ensures forall t | t in KeyTags(alg, thumbs, user) && t.name.text == ALG :: alg != "" && t.value == alg
  {
    SplitAlg(alg);
    SplitThumbs(thumbs);
    SplitPrefixed(user);
    SplitAppend(AlgTags(alg), ThumbTags(thumbs));
    SplitAppend(AlgTags(alg) + ThumbTags(thumbs), PrefixAll(user));
    assert ALG[0] != THUMB[0];
  }

  /** A list of tags that holds a key's, in any order. */
  ghost predicate HoldsKey(tags: seq<EntryTag>, alg: string, thumbs: seq<string>, user: seq<EntryTag>) {
    multiset(tags) == multiset(KeyTags(alg, thumbs, user))
  }

  /** What is made of an entry's tags. */
  datatype KeyView = KeyView(alg: Option<string>, thumbprints: seq<string>, tags: seq<EntryTag>)

  function ViewOf(tags: seq<EntryTag>): KeyView {
    KeyView(AlgOf(tags), Sort(Thumbs(tags), TextBefore), Sort(UserTags(tags), TagBefore))
  }

  /** Whatever order they come in, a key's tags give its algorithm, its thumbprints and the user's tags. */
  lemma {:induction false} ViewOfKey(tags: seq<EntryTag>, alg: string, thumbs: seq<string>, user: seq<EntryTag>)
    requires HoldsKey(tags, alg, thumbs, user)
    ensures ViewOf(tags) == KeyView(if alg == "" then None else Some(alg),
                                    Sort(thumbs, TextBefore), Sort(user, TagBefore))
  {
    var stored := KeyTags(alg, thumbs, user);
    KeyTagsSplit(alg, thumbs, user);
    OrderIrrelevant(tags, stored);
    OrdersAreStrict();
    SortCanonical(Thumbs(tags), thumbs, TextBefore);
    SortCanonical(UserTags(tags), user, TagBefore);
    AlgOfKey(tags, alg, thumbs, user);
  }

  lemma {:induction false} AlgOfKey(tags: seq<EntryTag>, alg: string, thumbs: seq<string>, user: seq<EntryTag>)
    requires HoldsKey(tags, alg, thumbs, user)
    ensures AlgOf(tags) == if alg == "" then None else Some(alg)
  {
    var stored := KeyTags(alg, thumbs, user);
    KeyTagsSplit(alg, thumbs, user);
    if alg != "" {
      assert stored[0] in multiset(stored) && stored[0].name.text == ALG;
      assert stored[0] in tags;
    }
    AlgFound(tags);
    if AlgOf(tags).Some? {
      var t :| t in tags && t.name.text == ALG && t.value == AlgOf(tags).value;
      assert t in multiset(tags);
      assert t in stored;
    }
  }

  /** An update replaces the user's tags and keeps the key's own. */
  lemma {:induction false} UpdateHolds(tags: seq<EntryTag>, alg: string, thumbs: seq<string>, user: seq<EntryTag>,
                                       user': seq<EntryTag>)
    requires HoldsKey(tags, alg, thumbs, user)
    ensures HoldsKey(Updated(tags, user'), alg, thumbs, user')
  {
    OrderIrrelevant(tags, KeyTags(alg, thumbs, user));
    KeyTagsSplit(alg, thumbs, user);
  }

  // ----- over a run of updates -----

  /** The tags as the database returned them, and the user tags given. */
  datatype Update = Update(seen: seq<EntryTag>, user: seq<EntryTag>)

  /** Each update sees the tags the last one left, in some order; so does the final fetch. */
  ghost predicate Run(tags: seq<EntryTag>, updates: seq<Update>, last: seq<EntryTag>)
    decreases |updates|
  {
    if updates == [] then multiset(last) == multiset(tags)
    else
      && multiset(updates[0].seen) == multiset(tags)
      && Run(Updated(updates[0].seen, updates[0].user), updates[1..], last)
  }

  /** The user tags given last. */
  ghost function LastGiven(user: seq<EntryTag>, updates: seq<Update>): seq<EntryTag>
    decreases |updates|
  {
    if updates == [] then user else LastGiven(updates[0].user, updates[1..])
  }

  lemma {:induction false} LastGivenIsLast(user: seq<EntryTag>, updates: seq<Update>)
    ensures LastGiven(user, updates) == if updates == [] then user else updates[|updates| - 1].user
    decreases |updates|
  {
    if updates != [] {
      LastGivenIsLast(updates[0].user, updates[1..]);
    }
  }

  lemma {:induction false} RunHolds(tags: seq<EntryTag>, updates: seq<Update>, last: seq<EntryTag>,
                                    alg: string, thumbs: seq<string>, user: seq<EntryTag>)
    requires HoldsKey(tags, alg, thumbs, user) && Run(tags, updates, last)
    ensures HoldsKey(last, alg, thumbs, LastGiven(user, updates))
    decreases |updates|
  {
    if updates != [] {
      UpdateHolds(updates[0].seen, alg, thumbs, user, updates[0].user);
      RunHolds(Updated(updates[0].seen, updates[0].user), updates[1..], last, alg, thumbs, updates[0].user);
    }
  }

  /** After an insertion and any updates, a key has its algorithm, its thumbprints and the last tags given. */
  lemma {:induction false} FetchAfterRun(alg: string, thumbs: seq<string>, user: seq<EntryTag>, updates: seq<Update>,
                                         last: seq<EntryTag>)
    requires Run(KeyTags(alg, thumbs, user), updates, last)
    ensures var given := if updates == [] then user else updates[|updates| - 1].user;
      ViewOf(last) == KeyView(if alg == "" then None else Some(alg), Sort(thumbs, TextBefore), Sort(given, TagBefore))
  {
    var given := if updates == [] then user else updates[|updates| - 1].user;
    RunHolds(KeyTags(alg, thumbs, user), updates, last, alg, thumbs, user);
    LastGivenIsLast(user, updates);
    ViewOfKey(last, alg, thumbs, given);
  }

  // ----- the loop over an entry's tags -----

  datatype KeyParams = KeyParams(metadata: Option<string>, reference: Option<string>, data: Option<Bytes>)

  /** The binary form of the parameters. */
  datatype ParamsCodec = ParamsCodec(encode: KeyParams -> Bytes, decode: Bytes -> Option<KeyParams>) {
    ghost predicate Valid() {
      forall p :: decode(encode(p)) == Some(p)
    }
  }

  datatype KeyEntry = KeyEntry(name: string, params: KeyParams, view: KeyView)

  /** A stored entry; its expiry, if any, counts from when it was written. */
  datatype Entry = Entry(value: Bytes, tags: seq<EntryTag>, expiry: Option<int>)

  lemma AlgAppend(done: seq<EntryTag>, t: EntryTag)
    ensures AlgOf(done + [t]) == if t.name.text == ALG then Some(t.value) else AlgOf(done)
  {
    if done == [] {
      assert done + [t] == [t];
    } else {
      assert (done + [t])[1..] == done[1..] + [t];
      AlgAppend(done[1..], t);
    }
  }

  lemma SplitSnoc(done: seq<EntryTag>, t: EntryTag)
    ensures UserTags(done + [t]) == UserTags(done) + if IsUser(t) then [Stripped(t)] else []
    ensures Thumbs(done + [t]) == Thumbs(done) + if t.name.text == THUMB then [t.value] else []
  {
    SplitAppend(done, [t]);
  }

  /** The tags in `done` were dealt with: the user's, renamed, are the first idx that are left. */
  ghost predicate Dealt(all: seq<EntryTag>, done: seq<EntryTag>, tags: seq<EntryTag>, idx: nat,
                        alg: Option<string>, thumbs: seq<string>) {
    && idx <= |tags| && tags[..idx] == UserTags(done) && done + tags[idx..] == all
    && alg == AlgOf(done) && thumbs == Thumbs(done)
  }

  lemma UserDealt(all: seq<EntryTag>, done: seq<EntryTag>, tags: seq<EntryTag>, idx: nat,
                  alg: Option<string>, thumbs: seq<string>)
    requires Dealt(all, done, tags, idx, alg, thumbs) && idx < |tags| && IsUser(tags[idx])
    ensures Dealt(all, done + [tags[idx]], tags[..idx] + [Stripped(tags[idx])] + tags[idx + 1..], idx + 1, alg, thumbs)
  {
    var tag, rest := tags[idx], tags[idx + 1..];
    AlgAppend(done, tag);
    SplitSnoc(done, tag);
    assert done + [tag] + rest == done + tags[idx..];
    if tag.name.text == ALG || tag.name.text == THUMB {
      OwnNames(tag);
    }
  }

  lemma OtherDealt(all: seq<EntryTag>, done: seq<EntryTag>, tags: seq<EntryTag>, idx: nat,
                   alg: Option<string>, thumbs: seq<string>)
    requires Dealt(all, done, tags, idx, alg, thumbs) && idx < |tags| && !IsUser(tags[idx])
    ensures var tag := tags[idx];
      Dealt(all, done + [tag], tags[..idx] + tags[idx + 1..], idx,
            if tag.name.text == ALG then Some(tag.value) else alg,
            if tag.name.text == THUMB then thumbs + [tag.value] else thumbs)
  {
    var tag, rest := tags[idx], tags[idx + 1..];
    AlgAppend(done, tag);
    SplitSnoc(done, tag);
    assert done + [tag] + rest == done + tags[idx..];
    assert (tags[..idx] + rest)[..idx] == tags[..idx] && (tags[..idx] + rest)[idx..] == rest;
  }

  /** Takes the tags in turn, renaming the user's in place and removing all others. */
  method SplitTags(entryTags: seq<EntryTag>)
      returns (alg: Option<string>, thumbprints: seq<string>, tags: seq<EntryTag>)
    ensures alg == AlgOf(entryTags) && thumbprints == Thumbs(entryTags) && tags == UserTags(entryTags)
  {
    alg, thumbprints, tags := None, [], entryTags;
    var idx: nat := 0;
    ghost var done := [];
    while idx < |tags|
      invariant Dealt(entryTags, done, tags, idx, alg, thumbprints)
      decreases |tags| - idx
    {
      var tag := tags[idx];
      if USER <= tag.name.text {
        UserDealt(entryTags, done, tags, idx, alg, thumbprints);
        tags := tags[..idx] + [Stripped(tag)] + tags[idx + 1..];
        idx := idx + 1;
      } else {
        OtherDealt(entryTags, done, tags, idx, alg, thumbprints);
        tags := tags[..idx] + tags[idx + 1..];
        if tag.name.text == ALG {
          alg := Some(tag.value);
          assert ALG[0] != THUMB[0];
        } else if tag.name.text == THUMB {
          thumbprints := thumbprints + [tag.value];
        }
      }
      done := done + [tag];
    }
    assert done == entryTags && tags[..idx] == tags;
  }

  method FromEntry(codec: ParamsCodec, name: string, entry: Entry) returns (r: Option<KeyEntry>)
    ensures r == match codec.decode(entry.value)
                 case None => None
                 case Some(params) => Some(KeyEntry(name, params, ViewOf(entry.tags)))
  {
    var params := codec.decode(entry.value);
    if params.None? {
      return None;
    }
    var alg, thumbprints, tags := SplitTags(entry.tags);
    return Some(KeyEntry(name, params.value, KeyView(alg, Sort(thumbprints, TextBefore), Sort(tags, TagBefore))));
  }

  // ----- keys in a session -----

  /** A key: what is kept of it is its id if hardware holds it, and else its encoding; either may fail. */
  datatype LocalKey = LocalKey(
    alg: string, thumbs: seq<string>, hardware: bool, id: Option<Bytes>, encoding: Option<Bytes>)

  datatype SessionError = Unsupported | Duplicate | NotFound | Unexpected

  /** What a stored key is to be read as. */
  ghost predicate Stores(codec: ParamsCodec, e: Entry, key: LocalKey, params: KeyParams, user: seq<EntryTag>) {
    codec.decode(e.value) == Some(params) && HoldsKey(e.tags, key.alg, key.thumbs, user)
  }

  /** A session on a store whose Replace replaces value and tags. */
  class Session {
    const codec: ParamsCodec
    var rows: map<string, Entry>

    constructor (codec: ParamsCodec)
      ensures this.codec == codec && rows == map[]
    {
      this.codec := codec;
      rows := map[];
    }

    /** The tags come back in an order of the database's choosing. */
    method Fetch(name: string) returns (e: Option<Entry>)
      ensures e.Some? <==> name in rows
      ensures e.Some? ==> e.value.value == rows[name].value && multiset(e.value.tags) == multiset(rows[name].tags)
    {
      return if name in rows then Some(rows[name]) else None;
    }

    method InsertKey(name: string, key: LocalKey, metadata: Option<string>, reference: Option<string>,
                     tags: Option<seq<EntryTag>>, expiry: Option<int>)
        returns (error: Option<SessionError>)
      requires codec.Valid()
      modifies this`rows
      ensures error == if (if key.hardware then key.id else key.encoding).None? then Some(Unsupported)
                       else if name in old(rows) then Some(Duplicate) else None
      ensures error.Some? ==> rows == old(rows)
      ensures error.None? ==> rows.Keys == old(rows).Keys + {name} && rows == old(rows)[name := rows[name]]
      ensures error.None? ==>
        var data := if key.hardware then key.id else key.encoding;
        && Stores(codec, rows[name], key, KeyParams(metadata, reference, data), tags.GetOr([]))
        && rows[name].expiry == expiry
    {
      var data := if key.hardware then key.id else key.encoding;
      if data.None? {
        return Some(Unsupported);
      }
      var value := codec.encode(KeyParams(metadata, reference, data));
      var thumbs := PushThumbs(key.thumbs);
      var insTags := AlgTags(key.alg) + thumbs;
      var user := tags.GetOr([]);
      var prefixed := PushPrefixed(user);
      insTags := insTags + prefixed;
      if name in rows {
        return Some(Duplicate);
      }
      rows := rows[name := Entry(value, insTags, expiry)];
      return None;
    }

    /** Whatever key the row holds, it still holds it afterwards, under the new metadata and tags. */
    method UpdateKey(name: string, metadata: Option<string>, tags: Option<seq<EntryTag>>, expiry: Option<int>,
                     ghost key: LocalKey, ghost params: KeyParams, ghost user: seq<EntryTag>)
        returns (error: Option<SessionError>)
      requires codec.Valid()
      modifies this`rows
      ensures error == if name !in old(rows) then Some(NotFound)
                       else if codec.decode(old(rows)[name].value).None? then Some(Unexpected) else None
      ensures error.Some? ==> rows == old(rows)
      ensures error.None? ==> name in rows && rows == old(rows)[name := rows[name]] && rows[name].expiry == expiry
      ensures error.None? && Stores(codec, old(rows)[name], key, params, user) ==>
        Stores(codec, rows[name], key, params.(metadata := metadata), tags.GetOr([]))
    {
      var row := Fetch(name);
      if row.None? {
        return Some(NotFound);
      }
      var decoded := codec.decode(row.value.value);
      if decoded.None? {
        return Some(Unexpected);
      }
      var value := codec.encode(decoded.value.(metadata := metadata));
      var updTags := PushPrefixed(tags.GetOr([]));
      var kept := PushOthers(row.value.tags);
      updTags := updTags + kept;
      rows := rows[name := Entry(value, updTags, expiry)];
      if HoldsKey(row.value.tags, key.alg, key.thumbs, user) {
        UpdateHolds(row.value.tags, key.alg, key.thumbs, user, tags.GetOr([]));
      }
      return None;
    }

    /** The key comes back as it was stored. */
    method FetchKey(name: string, ghost key: LocalKey, ghost params: KeyParams, ghost user: seq<EntryTag>)
        returns (r: Result<Option<KeyEntry>, SessionError>)
      ensures r == Ok(None) <==> name !in rows
      ensures r.Err? <==> name in rows && codec.decode(rows[name].value).None?
      ensures name in rows && Stores(codec, rows[name], key, params, user) ==>
        r == Ok(Some(KeyEntry(name, params, KeyView(if key.alg == "" then None else Some(key.alg),
                                                    Sort(key.thumbs, TextBefore), Sort(user, TagBefore)))))
    {
      var row := Fetch(name);
      if row.None? {
        return Ok(None);
      }
      var entry := FromEntry(codec, name, row.value);
      if entry.None? {
        return Err(Unexpected);
      }
      if HoldsKey(row.value.tags, key.alg, key.thumbs, user) {
        ViewOfKey(row.value.tags, key.alg, key.thumbs, user);
      }
      return Ok(Some(entry.value));
    }
  }

  lemma {:induction false} ThumbTagsAppend(thumbs: seq<string>, v: string)
    ensures ThumbTags(thumbs + [v]) == ThumbTags(thumbs) + [Searchable.EntryTag(TagSql.Encrypted(THUMB), v)]
  {
    if thumbs != [] {
      assert (thumbs + [v])[1..] == thumbs[1..] + [v];
      ThumbTagsAppend(thumbs[1..], v);
    }
  }

  lemma {:induction false} PrefixAllAppend(tags: seq<EntryTag>, t: EntryTag)
    ensures PrefixAll(tags + [t]) == PrefixAll(tags) + [Prefixed(t)]
  {
    if tags != [] {
      assert (tags + [t])[1..] == tags[1..] + [t];
      PrefixAllAppend(tags[1..], t);
    }
  }

  method PushThumbs(thumbs: seq<string>) returns (out: seq<EntryTag>)
    ensures out == ThumbTags(thumbs)
  {
    out := [];
    for i := 0 to |thumbs|
      invariant out == ThumbTags(thumbs[..i])
    {
      out := out + [Searchable.EntryTag(TagSql.Encrypted(THUMB), thumbs[i])];
      ThumbTagsAppend(thumbs[..i], thumbs[i]);
      assert thumbs[..i + 1] == thumbs[..i] + [thumbs[i]];
    }
    assert thumbs[..|thumbs|] == thumbs;
  }

  method PushPrefixed(tags: seq<EntryTag>) returns (out: seq<EntryTag>)
    ensures out == PrefixAll(tags)
  {
    out := [];
    for i := 0 to |tags|
      invariant out == PrefixAll(tags[..i])
    {
      out := out + [Prefixed(tags[i])];
      PrefixAllAppend(tags[..i], tags[i]);
      assert tags[..i + 1] == tags[..i] + [tags[i]];
    }
    assert tags[..|tags|] == tags;
  }

  method PushOthers(tags: seq<EntryTag>) returns (out: seq<EntryTag>)
    ensures out == NotUser(tags)
  {
    out := [];
    for i := 0 to |tags|
      invariant out == NotUser(tags[..i])
    {
      if !(USER <= tags[i].name.text) {
        out := out + [tags[i]];
      }
      SplitAppend(tags[..i], [tags[i]]);
      assert tags[..i + 1] == tags[..i] + [tags[i]];
    }
    assert tags[..|tags|] == tags;
  }
}
