/** An entry's tags on their way into the database and back: encrypted, printed, decoded, decrypted. */
module TagStorage {
  import opened Prelude
  import opened Searchable
  import TagSql
  import opened TagCodec

  /** The inverse of the text encoding; it fails on bytes that encode no text. */
  type DecodeText = Bytes -> Option<string>

  ghost predicate Inverts(decode: DecodeText, key: ProfileKey) {
    forall s :: decode(key.utf8(s)) == Some(s)
  }

  function EncryptTags(key: ProfileKey, tags: seq<EntryTag>): seq<EncEntryTag> {
    if tags == [] then [] else [EncryptTag(key, tags[0])] + EncryptTags(key, tags[1..])
  }

  function DecryptText(ciphertext: Bytes, key: Aead, decode: DecodeText): Option<string> {
    var text := Unsealed(ciphertext, key);
    if text.None? then None else decode(text.value)
  }

  function DecryptTag(key: ProfileKey, decode: DecodeText, t: EncEntryTag): Option<EntryTag> {
    var name := DecryptText(t.name, key.tagName, decode);
    var value := if t.plaintext then decode(t.value) else DecryptText(t.value, key.tagValue, decode);
    if name.None? || value.None? then None
    else if t.plaintext then Some(EntryTag(TagSql.Plaintext(name.value), value.value))
    else Some(EntryTag(TagSql.Encrypted(name.value), value.value))
  }

  function DecryptTags(key: ProfileKey, decode: DecodeText, tags: seq<EncEntryTag>): Option<seq<EntryTag>> {
    if tags == [] then Some([])
    else
      var init, last := DecryptTags(key, decode, tags[..|tags| - 1]), DecryptTag(key, decode, tags[|tags| - 1]);
      if init.None? || last.None? then None else Some(init.value + [last.value])
  }

  method DecryptEntryTags(key: ProfileKey, decode: DecodeText, encTags: seq<EncEntryTag>)
      returns (r: Option<seq<EntryTag>>)
    ensures r == DecryptTags(key, decode, encTags)
  {
    var acc: seq<EntryTag> := [];
    for i := 0 to |encTags|
      invariant DecryptTags(key, decode, encTags[..i]) == Some(acc)
    {
      assert encTags[..i + 1][..i] == encTags[..i];
      var tag := DecryptTag(key, decode, encTags[i]);
      if tag.None? {
        StaysFailed(key, decode, encTags, i + 1);
        return None;
      }
      acc := acc + [tag.value];
    }
    assert encTags[..|encTags|] == encTags;
    return Some(acc);
  }

  /** Once a tag fails, so does every longer list. */
  lemma {:induction false} StaysFailed(key: ProfileKey, decode: DecodeText, tags: seq<EncEntryTag>, n: nat)
    requires n <= |tags| && DecryptTags(key, decode, tags[..n]).None?
    ensures DecryptTags(key, decode, tags).None?
    decreases |tags|
  {
    if n < |tags| {
      assert tags[..|tags| - 1][..n] == tags[..n];
      StaysFailed(key, decode, tags[..|tags| - 1], n);
    } else {
      assert tags[..n] == tags;
    }
  }

  lemma TagRoundTrip(key: ProfileKey, decode: DecodeText, t: EntryTag)
    requires key.Valid() && Inverts(decode, key)
    ensures DecryptTag(key, decode, EncryptTag(key, t)) == Some(t)
  {
    UnsealSealed(key.utf8(t.name.text), key.tagName, key.nonce);
    UnsealSealed(key.utf8(t.value), key.tagValue, key.nonce);
  }

  lemma {:induction false} EncryptTagsSnoc(key: ProfileKey, tags: seq<EntryTag>, last: EntryTag)
    ensures EncryptTags(key, tags + [last]) == EncryptTags(key, tags) + [EncryptTag(key, last)]
  {
    if tags != [] {
      assert (tags + [last])[1..] == tags[1..] + [last];
      EncryptTagsSnoc(key, tags[1..], last);
    }
  }

  lemma {:induction false} DecryptEncrypted(key: ProfileKey, decode: DecodeText, tags: seq<EntryTag>)
    requires key.Valid() && Inverts(decode, key)
    ensures DecryptTags(key, decode, EncryptTags(key, tags)) == Some(tags)
    decreases |tags|
  {
    if tags != [] {
      var init, last := tags[..|tags| - 1], tags[|tags| - 1];
      assert tags == init + [last];
      EncryptTagsSnoc(key, init, last);
      var enc := EncryptTags(key, tags);
      assert enc[..|enc| - 1] == EncryptTags(key, init);
      DecryptEncrypted(key, decode, init);
      TagRoundTrip(key, decode, last);
    }
  }

  /**
   * Encrypted, printed by the database in either case of digits, decoded and decrypted, tags come
   * back as they were.
   */
  lemma {:induction false} TagsSurviveStorage(key: ProfileKey, decode: DecodeText, tags: seq<EntryTag>, upper: bool)
    requires key.Valid() && Inverts(decode, key)
    ensures Decode(TagsText(EncryptTags(key, tags), upper)).Some?
    ensures DecryptTags(key, decode, Decode(TagsText(EncryptTags(key, tags), upper)).value) == Some(tags)
  {
    DecodePrinted(EncryptTags(key, tags), upper);
    DecryptEncrypted(key, decode, tags);
  }
}
