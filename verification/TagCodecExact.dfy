/** Exactly which texts decode to a list of tags. */
module TagCodecExact {
  import opened Prelude
  import opened TagCodec

  // ----- hexadecimal -----

  /** One of `0` to `9`, `a` to `f` or `A` to `F`, for its value. */
  predicate DigitFor(ch: bv8, value: bv8) {
    if value < 10 then ch == 48 + value else value < 16 && (ch == 65 + (value - 10) || ch == 97 + (value - 10))
  }

  predicate PairFor(text: Bytes, data: Bytes, i: nat)
    requires i < |data| && |text| == 2 * |data|
  {
    DigitFor(text[2 * i], data[i] >> 4) && DigitFor(text[2 * i + 1], data[i] & 15)
  }

  predicate HexSpells(text: Bytes, data: Bytes) {
    |text| == 2 * |data| && forall i | 0 <= i < |data| :: PairFor(text, data, i)
  }

  lemma DigitExactly(ch: bv8, value: bv8)
    ensures HexValue(ch) == Some(value) <==> DigitFor(ch, value)
  {
  }

  lemma PairExactly(hi: bv8, lo: bv8, b: bv8)
    requires hi < 16 && lo < 16
    ensures (hi << 4) | lo == b <==> hi == b >> 4 && lo == b & 15
  {
  }

  lemma DigitsAreSmall(ch: bv8)
    ensures HexValue(ch).Some? ==> HexValue(ch).value < 16
  {
  }

  lemma PairShifts(text: Bytes, data: Bytes, i: nat)
    requires i + 1 < |data| && |text| == 2 * |data|
    ensures PairFor(text[2..], data[1..], i) == PairFor(text, data, i + 1)
  {
    assert text[2..][2 * i] == text[2 * (i + 1)] && text[2..][2 * i + 1] == text[2 * (i + 1) + 1];
  }

  lemma SpellsFirst(text: Bytes, data: Bytes)
    requires |text| == 2 * |data| && data != []
    ensures HexSpells(text, data) <==> PairFor(text, data, 0) && HexSpells(text[2..], data[1..])
  {
    forall i | 0 <= i < |data| - 1 ensures PairFor(text[2..], data[1..], i) == PairFor(text, data, i + 1) {
      PairShifts(text, data, i);
    }
    if PairFor(text, data, 0) && HexSpells(text[2..], data[1..]) {
      forall i | 0 <= i < |data| ensures PairFor(text, data, i) {
        assert i > 0 ==> PairFor(text[2..], data[1..], i - 1);
      }
    }
  }

  lemma {:induction false} HexDecodesExactly(text: Bytes, data: Bytes)
    ensures HexDecode(text) == Some(data) <==> HexSpells(text, data)
    decreases |text|
  {
    if |text| >= 2 && data != [] {
      HexDecodesExactly(text[2..], data[1..]);
      if |text| == 2 * |data| {
        SpellsFirst(text, data);
      }
      DigitExactly(text[0], data[0] >> 4);
      DigitExactly(text[1], data[0] & 15);
      FirstByte(text, data);
    }
  }

  lemma FirstByte(text: Bytes, data: Bytes)
    requires |text| >= 2 && data != []
    ensures HexDecode(text) == Some(data) <==>
      && HexValue(text[0]) == Some(data[0] >> 4) && HexValue(text[1]) == Some(data[0] & 15)
      && HexDecode(text[2..]) == Some(data[1..])
  {
    var hi, lo, rest := HexValue(text[0]), HexValue(text[1]), HexDecode(text[2..]);
    DigitsAreSmall(text[0]);
    DigitsAreSmall(text[1]);
    if hi.Some? && lo.Some? && rest.Some? {
      PairExactly(hi.value, lo.value, data[0]);
      assert ([(hi.value << 4) | lo.value] + rest.value)[1..] == rest.value;
      assert data == [data[0]] + data[1..];
    }
  }

  lemma {:induction false} SpelledHasNoSeparator(text: Bytes, data: Bytes)
    requires HexSpells(text, data)
    ensures 44 !in text && 58 !in text
  {
    forall i | 0 <= i < |text| ensures text[i] != 44 && text[i] != 58 {
      var k := i / 2;
      assert i == 2 * k || i == 2 * k + 1;
      assert PairFor(text, data, k);
      DigitIsNoSeparator(text[2 * k], data[k] >> 4);
      DigitIsNoSeparator(text[2 * k + 1], data[k] & 15);
    }
  }

  lemma DigitIsNoSeparator(ch: bv8, value: bv8)
    requires DigitFor(ch, value)
    ensures ch != 44 && ch != 58
  {
  }

  // ----- tags -----

  /** Digits of the name, the colon, and digits of the value. */
  ghost predicate SegmentSpelled(segment: Bytes, tag: EncEntryTag, colon: nat) {
    && colon < |segment| && segment[colon] == 58
    && HexSpells(segment[..colon], tag.name) && HexSpells(segment[colon + 1..], tag.value)
  }

  /** The flag, one byte that is not looked at, and a segment up to `end`, which is a comma or the end of the text. */
  ghost predicate TagSpelled(s: Bytes, tag: EncEntryTag, colon: nat, end: nat) {
    && 2 <= end <= |s| && (end < |s| ==> s[end] == 44)
    && tag.plaintext == (s[0] == 49)
    && SegmentSpelled(s[2..end], tag, colon)
  }

  function Behind(s: Bytes, end: nat): Bytes {
    if end < |s| then s[end + 1..] else []
  }

  /** A comma at the very end of the text is allowed. */
  ghost predicate Spelled(s: Bytes, tags: seq<EncEntryTag>)
    decreases |tags|
  {
    if tags == [] then s == []
    else exists colon: nat, end: nat :: TagSpelled(s, tags[0], colon, end) && Spelled(Behind(s, end), tags[1..])
  }

  lemma SegmentReads(segment: Bytes, tag: EncEntryTag, colon: nat)
    requires SegmentSpelled(segment, tag, colon)
    ensures DecodeSegment(segment, tag.plaintext) == Some(tag) && 44 !in segment
  {
    var name, value := segment[..colon], segment[colon + 1..];
    SpelledHasNoSeparator(name, tag.name);
    SpelledHasNoSeparator(value, tag.value);
    HexDecodesExactly(name, tag.name);
    HexDecodesExactly(value, tag.value);
    IndexOfUnique(segment, COLON, colon);
    assert segment == name + [segment[colon]] + value;
  }

  lemma SegmentFound(segment: Bytes, plaintext: bool, tag: EncEntryTag)
    requires DecodeSegment(segment, plaintext) == Some(tag)
    ensures tag.plaintext == plaintext && SegmentSpelled(segment, tag, IndexOf(segment, COLON))
  {
    var c := IndexOf(segment, COLON);
    HexDecodesExactly(segment[..c], tag.name);
    HexDecodesExactly(segment[c + 1..], tag.value);
  }

  /** Where the first segment ends, and what is read up to there. */
  lemma FirstEnds(s: Bytes, end: nat)
    requires 2 <= end <= |s| && 44 !in s[2..end] && (end < |s| ==> s[end] == 44)
    ensures First(s) == DecodeSegment(s[2..end], s[0] == 49) && Others(s) == Behind(s, end)
  {
    assert Body(s) == s[2..];
    Slice(s, 2, 2, end);
    IndexOfUnique(Body(s), COMMA, end - 2);
  }

  /** A spelled tag is read. */
  lemma SpelledIsFound(s: Bytes, tag: EncEntryTag, colon: nat, end: nat)
    requires TagSpelled(s, tag, colon, end)
    ensures s != [] && First(s) == Some(tag) && Others(s) == Behind(s, end)
  {
    SegmentReads(s[2..end], tag, colon);
    FirstEnds(s, end);
  }

  /** What is read is spelled there. */
  lemma FoundIsSpelled(s: Bytes, tag: EncEntryTag)
    requires s != [] && First(s) == Some(tag)
    ensures exists colon: nat, end: nat :: TagSpelled(s, tag, colon, end) && Others(s) == Behind(s, end)
  {
    var end := 2 + IndexOf(Body(s), COMMA);
    FlagThenSegment(s);
    FirstEnds(s, end);
    SegmentFound(s[2..end], s[0] == 49, tag);
    assert TagSpelled(s, tag, IndexOf(s[2..end], COLON), end);
  }

  lemma FlagThenSegment(s: Bytes)
    requires s != [] && First(s).Some?
    ensures var end := 2 + IndexOf(Body(s), COMMA);
      2 <= end <= |s| && 44 !in s[2..end] && (end < |s| ==> s[end] == 44)
  {
    if |s| >= 2 {
      assert Body(s) == s[2..];
      Slice(s, 2, 2, 2 + IndexOf(Body(s), COMMA));
    }
  }

  /** A text decodes to a list of tags exactly when it spells that list; everything else is refused. */
  lemma {:induction false} DecodesExactly(s: Bytes, tags: seq<EncEntryTag>)
    ensures Decode(s) == Some(tags) <==> Spelled(s, tags)
    decreases |tags|
  {
    if tags != [] {
      if s != [] && First(s) == Some(tags[0]) {
        FoundIsSpelled(s, tags[0]);
        DecodesExactly(Others(s), tags[1..]);
      }
      if colon: nat, end: nat :| TagSpelled(s, tags[0], colon, end) && Spelled(Behind(s, end), tags[1..]) {
        SpelledIsFound(s, tags[0], colon, end);
        DecodesExactly(Behind(s, end), tags[1..]);
      }
      DecodesFirst(s, tags);
    }
  }

  lemma {:induction false} DecodesFirst(s: Bytes, tags: seq<EncEntryTag>)
    requires tags != []
    ensures Decode(s) == Some(tags) <==> s != [] && First(s) == Some(tags[0]) && Decode(Others(s)) == Some(tags[1..])
  {
    if s != [] {
      ConsExactly(First(s), Decode(Others(s)), tags);
    }
  }

  lemma ConsExactly(tag: Option<EncEntryTag>, rest: Option<seq<EncEntryTag>>, tags: seq<EncEntryTag>)
    requires tags != []
    ensures Cons(tag, rest) == Some(tags) <==> tag == Some(tags[0]) && rest == Some(tags[1..])
  {
    assert tags == [tags[0]] + tags[1..];
    if tag.Some? && rest.Some? {
      assert ([tag.value] + rest.value)[1..] == rest.value;
    }
  }
}
