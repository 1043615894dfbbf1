/** The text in which a database returns an entry's tags: `flag:hex:hex`, separated by commas. */
module TagCodec {
  import opened Prelude

  /** An encrypted tag as stored. */
  datatype EncEntryTag = EncEntryTag(name: Bytes, value: Bytes, plaintext: bool)

  const COMMA: bv8 := 44
  const COLON: bv8 := 58
  const ZERO: bv8 := 48
  const ONE: bv8 := 49

  // ----- hexadecimal -----

  /** Databases print upper- or lower-case digits. */
  function HexDigit(n: bv8, upper: bool): bv8 {
    if n < 10 then 48 + n else if upper then 55 + n else 87 + n
  }

  function HexValue(ch: bv8): Option<bv8> {
    if 48 <= ch <= 57 then Some(ch - 48)
    else if 65 <= ch <= 70 then Some(ch - 55)
    else if 97 <= ch <= 102 then Some(ch - 87)
    else None
  }

  function HexEncode(data: Bytes, upper: bool): Bytes {
    if data == [] then []
    else [HexDigit(data[0] >> 4, upper), HexDigit(data[0] & 15, upper)] + HexEncode(data[1..], upper)
  }

  /** Fails on an odd number of digits and on any other character. */
  function HexDecode(text: Bytes): Option<Bytes> {
    if text == [] then Some([])
    else if |text| == 1 then None
    else
      var hi, lo, rest := HexValue(text[0]), HexValue(text[1]), HexDecode(text[2..]);
      if hi.None? || lo.None? || rest.None? then None else Some([(hi.value << 4) | lo.value] + rest.value)
  }

  lemma HexDigitPair(b: bv8, upper: bool)
    ensures HexValue(HexDigit(b >> 4, upper)) == Some(b >> 4)
    ensures HexValue(HexDigit(b & 15, upper)) == Some(b & 15)
    ensures ((b >> 4) << 4) | (b & 15) == b
  {
  }

  lemma {:induction false} HexRoundTrip(data: Bytes, upper: bool)
    ensures HexDecode(HexEncode(data, upper)) == Some(data)
  {
    if data != [] {
      HexRoundTrip(data[1..], upper);
      HexDigitPair(data[0], upper);
      assert HexEncode(data, upper)[2..] == HexEncode(data[1..], upper);
      assert [data[0]] + data[1..] == data;
    }
  }

  lemma {:induction false} HexHasNoSeparator(data: Bytes, upper: bool)
    ensures COMMA !in HexEncode(data, upper) && COLON !in HexEncode(data, upper)
  {
    if data != [] {
      HexHasNoSeparator(data[1..], upper);
      HexDigitNoSeparator(data[0] >> 4, upper);
      HexDigitNoSeparator(data[0] & 15, upper);
    }
  }

  lemma HexDigitNoSeparator(n: bv8, upper: bool)
    requires n < 16
    ensures HexDigit(n, upper) != COMMA && HexDigit(n, upper) != COLON
  {
  }

  // ----- what the decoder computes -----

  /** Position of the first `sep`, or the length. */
  function IndexOf(s: Bytes, sep: bv8): (i: nat)
    ensures i <= |s| && sep !in s[..i] && (i < |s| ==> s[i] == sep)
  {
    if s == [] || s[0] == sep then 0 else 1 + IndexOf(s[1..], sep)
  }

  lemma {:induction false} IndexOfUnique(s: Bytes, sep: bv8, i: nat)
    requires i <= |s| && sep !in s[..i] && (i < |s| ==> s[i] == sep)
    ensures IndexOf(s, sep) == i
  {
    if i > 0 {
      assert s[..i][0] == s[0] && s[..i][1..] == s[1..][..i - 1];
      assert forall x | x in s[1..][..i - 1] :: x in s[..i];
      IndexOfUnique(s[1..], sep, i - 1);
    }
  }

  lemma {:induction false} IndexBeyond(s: Bytes, sep: bv8, n: nat)
    requires n <= |s| && sep !in s[..n]
    ensures IndexOf(s, sep) >= n
  {
    if n > 0 {
      assert s[..n][0] == s[0] && s[..n][1..] == s[1..][..n - 1];
      assert forall x | x in s[1..][..n - 1] :: x in s[..n];
      IndexBeyond(s[1..], sep, n - 1);
    }
  }

  /** One `hex:hex` segment, with exactly one colon. */
  function DecodeSegment(segment: Bytes, plaintext: bool): Option<EncEntryTag> {
    var c := IndexOf(segment, COLON);
    if c == |segment| || COLON in segment[c + 1..] then None
    else
      var name, value := HexDecode(segment[..c]), HexDecode(segment[c + 1..]);
      if name.None? || value.None? then None else Some(EncEntryTag(name.value, value.value, plaintext))
  }

  /** What follows the flag and the byte after it, which is skipped unread. */
  function Body(s: Bytes): (body: Bytes)
    ensures |body| == if |s| < 2 then 0 else |s| - 2
  {
    s[if |s| < 2 then |s| else 2..]
  }

  /** The first tag of the text; its segment runs up to a comma or the end. */
  function First(s: Bytes): Option<EncEntryTag>
    requires s != []
  {
    DecodeSegment(Body(s)[..IndexOf(Body(s), COMMA)], s[0] == ONE)
  }

  /** The text after that comma. */
  function Others(s: Bytes): (rest: Bytes)
    requires s != []
    ensures |rest| < |s|
  {
    var e := IndexOf(Body(s), COMMA);
    if e < |Body(s)| then Body(s)[e + 1..] else []
  }

  function Cons(tag: Option<EncEntryTag>, rest: Option<seq<EncEntryTag>>): Option<seq<EncEntryTag>> {
    if tag.None? || rest.None? then None else Some([tag.value] + rest.value)
  }

  function Decode(s: Bytes): Option<seq<EncEntryTag>>
    decreases |s|
  {
    if s == [] then Some([]) else Cons(First(s), Decode(Others(s)))
  }

  // ----- printing, and reading back -----

  function TagText(tag: EncEntryTag, upper: bool): Bytes {
    [if tag.plaintext then ONE else ZERO, COLON] + (HexEncode(tag.name, upper) + [COLON] + HexEncode(tag.value, upper))
  }

  function TagsText(tags: seq<EncEntryTag>, upper: bool): Bytes {
    if tags == [] then []
    else if |tags| == 1 then TagText(tags[0], upper)
    else TagText(tags[0], upper) + [COMMA] + TagsText(tags[1..], upper)
  }

  lemma SegmentRoundTrip(tag: EncEntryTag, upper: bool)
    ensures var segment := HexEncode(tag.name, upper) + [COLON] + HexEncode(tag.value, upper);
      COMMA !in segment && DecodeSegment(segment, tag.plaintext) == Some(tag)
  {
    var name, value := HexEncode(tag.name, upper), HexEncode(tag.value, upper);
    var segment := name + [COLON] + value;
    HexHasNoSeparator(tag.name, upper);
    HexHasNoSeparator(tag.value, upper);
    assert segment[..|name|] == name && segment[|name| + 1..] == value;
    IndexOfUnique(segment, COLON, |name|);
    HexRoundTrip(tag.name, upper);
    HexRoundTrip(tag.value, upper);
  }

  /** The first tag is read off, and what follows its comma is left. */
  lemma FirstPrinted(tag: EncEntryTag, upper: bool, more: Bytes)
    requires more == [] || more[0] == COMMA
    ensures TagText(tag, upper) + more != []
    ensures First(TagText(tag, upper) + more) == Some(tag)
    ensures Others(TagText(tag, upper) + more) == if more == [] then [] else more[1..]
  {
    var segment := HexEncode(tag.name, upper) + [COLON] + HexEncode(tag.value, upper);
    SegmentRoundTrip(tag, upper);
    FirstSegment(tag.plaintext, segment, more);
  }

  lemma FirstSegment(plaintext: bool, segment: Bytes, more: Bytes)
    requires COMMA !in segment && (more == [] || more[0] == COMMA)
    ensures var s := [if plaintext then ONE else ZERO, COLON] + segment + more;
      && First(s) == DecodeSegment(segment, plaintext)
      && Others(s) == if more == [] then [] else more[1..]
  {
    BehindFlag(if plaintext then ONE else ZERO, segment, more);
    SegmentBefore(segment, more);
  }

  lemma BehindFlag(flag: bv8, segment: Bytes, more: Bytes)
    ensures var s := [flag, COLON] + segment + more; s[0] == flag && Body(s) == segment + more
  {
  }

  lemma SegmentBefore(segment: Bytes, more: Bytes)
    requires COMMA !in segment && (more == [] || more[0] == COMMA)
    ensures IndexOf(segment + more, COMMA) == |segment|
    ensures (segment + more)[..|segment|] == segment
    ensures more != [] ==> (segment + more)[|segment| + 1..] == more[1..]
  {
    assert (segment + more)[..|segment|] == segment;
    IndexOfUnique(segment + more, COMMA, |segment|);
  }

  lemma TagsTextSplits(tags: seq<EncEntryTag>, upper: bool)
    requires tags != []
    ensures TagsText(tags, upper)
         == TagText(tags[0], upper) + if |tags| == 1 then [] else [COMMA] + TagsText(tags[1..], upper)
  {
    if |tags| == 1 {
      assert TagText(tags[0], upper) + [] == TagText(tags[0], upper);
    } else {
      AppendAssociative(TagText(tags[0], upper), [COMMA], TagsText(tags[1..], upper));
    }
  }

  lemma ConsTail(text: Bytes)
    ensures ([COMMA] + text)[1..] == text
  {
  }

  /** Decoding the printing of any list of tags, whatever bytes they hold, returns the list. */
  lemma {:induction false} DecodePrinted(tags: seq<EncEntryTag>, upper: bool)
    ensures Decode(TagsText(tags, upper)) == Some(tags)
  {
    if tags != [] {
      var text := TagsText(tags[1..], upper);
      var more := if |tags| == 1 then [] else [COMMA] + text;
      DecodePrinted(tags[1..], upper);
      ConsTail(text);
      TagsTextSplits(tags, upper);
      FirstPrinted(tags[0], upper, more);
      ConsPrinted(TagText(tags[0], upper) + more, text, tags);
    }
  }

  lemma ConsPrinted(s: Bytes, rest: Bytes, tags: seq<EncEntryTag>)
    requires tags != [] && s != [] && First(s) == Some(tags[0]) && Others(s) == rest && Decode(rest) == Some(tags[1..])
    ensures Decode(s) == Some(tags)
  {
    assert tags == [tags[0]] + tags[1..];
  }

  // ----- the decoder's loops -----

  /** What is left of the text from an index that may lie past its end. */
  ghost function From(tags: Bytes, at: nat): Bytes {
    tags[if at < |tags| then at else |tags|..]
  }

  lemma ExtendCons(done: seq<EncEntryTag>, tag: Option<EncEntryTag>, rest: Option<seq<EncEntryTag>>)
    ensures Extend(done, Cons(tag, rest)) == if tag.None? then None else Extend(done + [tag.value], rest)
  {
    if tag.Some? && rest.Some? {
      assert done + ([tag.value] + rest.value) == done + [tag.value] + rest.value;
    }
  }

  /** The tags done so far, followed by those in the rest of the text, are the whole outcome. */
  ghost predicate Reached(all: Option<seq<EncEntryTag>>, done: seq<EncEntryTag>, rest: Bytes) {
    all == Extend(done, Decode(rest))
  }

  /** What a turn of the outer loop reads, and where the text continues after it. */
  lemma TurnAt(tags: Bytes, at: nat)
    requires at < |tags|
    ensures From(tags, at) != [] && From(tags, at)[0] == tags[at]
    ensures Body(From(tags, at)) == From(tags, at + 2)
  {
  }

  lemma TurnReads(tags: Bytes, at: nat)
    requires at < |tags|
    ensures From(tags, at) != []
    ensures First(From(tags, at)) == DecodeSegment(Segment(tags, at + 2), tags[at] == ONE)
  {
    TurnAt(tags, at);
  }

  lemma TurnEnds(tags: Bytes, at: nat, comma: nat)
    requires at < |tags| && comma == at + 2 + IndexOf(From(tags, at + 2), COMMA)
    ensures From(tags, at) != [] && Others(From(tags, at)) == From(tags, comma + 1)
  {
    TurnAt(tags, at);
  }

  lemma {:induction false} ReachedNext(all: Option<seq<EncEntryTag>>, done: seq<EncEntryTag>, rest: Bytes,
                                       tag: Option<EncEntryTag>, next: Bytes)
    requires Reached(all, done, rest) && rest != [] && First(rest) == tag && Others(rest) == next
    ensures if tag.None? then all == None else Reached(all, done + [tag.value], next)
  {
    ExtendCons(done, tag, Decode(next));
  }

  /** Every index stays in range on every input, both loops end, and the outcome is Decode's. */
  method DecodeTags(tags: Bytes) returns (r: Option<seq<EncEntryTag>>)
    ensures r == Decode(tags)
  {
    var idx := 0;
    var encTags: seq<EncEntryTag> := [];
    var end := |tags|;
    ghost var all, rest := Decode(tags), tags;
    ExtendEnds(all, []);
    while idx < end
      invariant rest == From(tags, idx)
      invariant Reached(all, encTags, rest)
      decreases end - idx
    {
      var tag, next := DecodeTurn(tags, idx);
      ghost var others := Others(rest);
      ReachedNext(all, encTags, rest, tag, others);
      if tag.None? {
        return None;
      }
      encTags := encTags + [tag.value];
      rest := others;
      idx := next;
    }
    ExtendEnds(None, encTags);
    return Some(encTags);
  }

  /** One turn of the outer loop: the flag, the segment after it, and the step past the comma. */
  method DecodeTurn(tags: Bytes, at: nat) returns (tag: Option<EncEntryTag>, next: nat)
    requires at < |tags|
    ensures From(tags, at) != [] && tag == First(From(tags, at))
    ensures tag.Some? ==> at < next && From(tags, next) == Others(From(tags, at))
  {
    var plaintext := tags[at] == ONE;
    TurnReads(tags, at);
    var idx: nat;
    tag, idx := DecodeOne(tags, at + 2, plaintext);
    if tag.Some? {
      TurnEnds(tags, at, idx);
    }
    next := idx + 1;
  }

  /** The segment that starts at `start`. */
  ghost function Segment(tags: Bytes, start: nat): Bytes {
    From(tags, start)[..IndexOf(From(tags, start), COMMA)]
  }

  /** No comma from start up to idx, and no colon but the one at nameEnd, if that is set. */
  ghost predicate Scanned(tags: Bytes, start: nat, nameEnd: nat, idx: nat) {
    && (if start <= |tags| then start <= idx <= |tags| && COMMA !in tags[start..idx] else idx == start)
    && (if nameEnd == 0 then idx <= |tags| ==> COLON !in tags[start..idx]
        else
          && start <= nameEnd < idx <= |tags| && tags[nameEnd] == COLON
          && COLON !in tags[start..nameEnd] && COLON !in tags[nameEnd + 1..idx])
  }

  lemma ScanNext(tags: Bytes, start: nat, nameEnd: nat, idx: nat)
    requires start > 0 && Scanned(tags, start, nameEnd, idx) && idx < |tags| && tags[idx] != COMMA
    ensures tags[idx] != COLON ==> Scanned(tags, start, nameEnd, idx + 1)
    ensures tags[idx] == COLON && nameEnd == 0 ==> Scanned(tags, start, idx, idx + 1)
  {
    assert tags[start..idx + 1] == tags[start..idx] + [tags[idx]];
    if nameEnd != 0 {
      assert tags[nameEnd + 1..idx + 1] == tags[nameEnd + 1..idx] + [tags[idx]];
    }
  }

  /** At the end of the segment, what was noted decides the outcome. */
  lemma {:induction false} ScanEnds(tags: Bytes, start: nat, nameEnd: nat, idx: nat, plaintext: bool)
    requires Scanned(tags, start, nameEnd, idx) && (idx < |tags| ==> tags[idx] == COMMA)
    ensures nameEnd == 0 ==> DecodeSegment(Segment(tags, start), plaintext).None?
    ensures nameEnd != 0 ==>
      var name, value := HexDecode(tags[start..nameEnd]), HexDecode(tags[nameEnd + 1..idx]);
      && idx == start + IndexOf(From(tags, start), COMMA)
      && DecodeSegment(Segment(tags, start), plaintext) ==
        if name.None? || value.None? then None else Some(EncEntryTag(name.value, value.value, plaintext))
  {
    if start <= |tags| {
      assert From(tags, start)[..idx - start] == tags[start..idx];
      IndexOfUnique(From(tags, start), COMMA, idx - start);
      if nameEnd == 0 {
        IndexOfUnique(tags[start..idx], COLON, idx - start);
      } else {
        OneColon(tags, start, nameEnd, idx, plaintext);
      }
    }
  }

  lemma OneColon(tags: Bytes, start: nat, colon: nat, idx: nat, plaintext: bool)
    requires start <= colon < idx <= |tags| && tags[colon] == COLON
    requires COLON !in tags[start..colon] && COLON !in tags[colon + 1..idx]
    ensures var name, value := HexDecode(tags[start..colon]), HexDecode(tags[colon + 1..idx]);
      DecodeSegment(tags[start..idx], plaintext) ==
      if name.None? || value.None? then None else Some(EncEntryTag(name.value, value.value, plaintext))
  {
    var segment := tags[start..idx];
    assert segment[..colon - start] == tags[start..colon] && segment[colon - start + 1..] == tags[colon + 1..idx];
    IndexOfUnique(segment, COLON, colon - start);
  }

  /** A second colon before the comma is an error, whatever follows. */
  lemma TwoColons(tags: Bytes, start: nat, nameEnd: nat, idx: nat, plaintext: bool)
    requires Scanned(tags, start, nameEnd, idx) && nameEnd != 0 && idx < |tags| && tags[idx] == COLON
    ensures DecodeSegment(Segment(tags, start), plaintext).None?
  {
    var body, colon := From(tags, start), nameEnd - start;
    assert body == tags[start..];
    Slice(tags, start, start, idx + 1);
    assert tags[start..idx + 1] == tags[start..idx] + [tags[idx]];
    IndexBeyond(body, COMMA, idx - start + 1);
    SecondColon(body[..IndexOf(body, COMMA)], colon, idx - start, plaintext) by {
      Slice(tags, start, start, nameEnd);
      assert body[..IndexOf(body, COMMA)][..colon] == body[..colon];
    }
  }

  lemma Slice<T>(s: seq<T>, start: nat, i: nat, j: nat)
    requires start <= i <= j <= |s|
    ensures s[start..][i - start..j - start] == s[i..j]
  {
  }

  lemma SecondColon(segment: Bytes, first: nat, second: nat, plaintext: bool)
    requires first < second < |segment| && COLON !in segment[..first]
    requires segment[first] == COLON && segment[second] == COLON
    ensures DecodeSegment(segment, plaintext).None?
  {
    IndexOfUnique(segment, COLON, first);
    assert segment[first + 1..][second - first - 1] == COLON;
  }

  /** The inner loop: scan to the comma, noting the colon, then decode both halves. */
  method DecodeOne(tags: Bytes, start: nat, plaintext: bool) returns (tag: Option<EncEntryTag>, idx: nat)
    requires start >= 2
    ensures tag == DecodeSegment(Segment(tags, start), plaintext)
    ensures tag.Some? ==> idx == start + IndexOf(From(tags, start), COMMA)
  {
    idx := start;
    var nameEnd := 0;
    while idx < |tags| && tags[idx] != COMMA
      invariant Scanned(tags, start, nameEnd, idx)
      decreases |tags| - idx
    {
      ScanNext(tags, start, nameEnd, idx);
      if tags[idx] == COLON {
        if nameEnd != 0 {
          TwoColons(tags, start, nameEnd, idx, plaintext);
          return None, idx;
        }
        nameEnd := idx;
      }
      idx := idx + 1;
    }
    ScanEnds(tags, start, nameEnd, idx, plaintext);
    if nameEnd == 0 {
      return None, idx;
    }
    var name := HexDecode(tags[start..nameEnd]);
    if name.None? {
      return None, idx;
    }
    var value := HexDecode(tags[nameEnd + 1..idx]);
    if value.None? {
      return None, idx;
    }
    return Some(EncEntryTag(name.value, value.value, plaintext)), idx;
  }
}
