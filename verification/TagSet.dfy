/** Tags as one JSON object: values grouped under `name` or `~name`, and the tags read back from it. */
module TagSet {
  import opened Prelude
  import TagSql
  import Searchable

  type TagName = TagSql.TagName
  type EntryTag = Searchable.EntryTag

  // ----- the order of the grouping map -----

  predicate TextBefore(a: string, b: string) {
    if b == [] then false
    else if a == [] then true
    else if a[0] != b[0] then a[0] < b[0]
    else TextBefore(a[1..], b[1..])
  }

  /** By text, and for equal texts the plaintext tag first. */
  predicate KeyBefore(a: TagName, b: TagName) {
    TextBefore(a.text, b.text) || (a.text == b.text && a.Plaintext? && b.Encrypted?)
  }

  predicate CharLess(x: char, y: char) {
    x < y
  }

  lemma {:induction false} TextBeforeExactly(a: string, b: string)
    ensures TextBefore(a, b) <==> Precedes(a, b, CharLess)
  {
    if b != [] {
      if a == [] {
        assert a[..0] == b[..0];
      } else {
        PrecedesFirst(a, b, CharLess);
        TextBeforeExactly(a[1..], b[1..]);
      }
    }
  }

  lemma KeyBeforeExactly(a: TagName, b: TagName)
    ensures KeyBefore(a, b) <==>
      Precedes(a.text, b.text, CharLess) || (a.text == b.text && a.Plaintext? && b.Encrypted?)
  {
    TextBeforeExactly(a.text, b.text);
  }

  lemma {:induction false} TextIrreflexive(a: string)
    ensures !TextBefore(a, a)
  {
    if a != [] {
      TextIrreflexive(a[1..]);
    }
  }

  lemma {:induction false} TextTotal(a: string, b: string)
    ensures TextBefore(a, b) || TextBefore(b, a) || a == b
  {
    if a != [] && b != [] && a[0] == b[0] {
      TextTotal(a[1..], b[1..]);
      assert a == [a[0]] + a[1..] && b == [b[0]] + b[1..];
    }
  }

  lemma {:induction false} TextTransitive(a: string, b: string, c: string)
    requires TextBefore(a, b) && TextBefore(b, c)
    ensures TextBefore(a, c)
  {
    if a != [] && a[0] == b[0] && b[0] == c[0] {
      TextTransitive(a[1..], b[1..], c[1..]);
    }
  }

  lemma KeyTotal(a: TagName, b: TagName)
    ensures !KeyBefore(a, a) && (KeyBefore(a, b) || KeyBefore(b, a) || a == b)
  {
    TextIrreflexive(a.text);
    TextTotal(a.text, b.text);
  }

  lemma KeyTransitive(a: TagName, b: TagName, c: TagName)
    requires KeyBefore(a, b) && KeyBefore(b, c)
    ensures KeyBefore(a, c)
  {
    if TextBefore(a.text, b.text) && TextBefore(b.text, c.text) {
      TextTransitive(a.text, b.text, c.text);
    }
  }

  // ----- grouping -----

  datatype Group = Group(key: TagName, values: seq<string>)

  /** Appends the value to its key's group, which is made in its place when there is none. */
  function Upsert(groups: seq<Group>, key: TagName, value: string): seq<Group> {
    if groups == [] then [Group(key, [value])]
    else if groups[0].key == key then [Group(key, groups[0].values + [value])] + groups[1..]
    else if KeyBefore(key, groups[0].key) then [Group(key, [value])] + groups
    else [groups[0]] + Upsert(groups[1..], key, value)
  }

  ghost predicate Above(groups: seq<Group>, key: TagName) {
    forall i | 0 <= i < |groups| :: KeyBefore(key, groups[i].key)
  }

  ghost predicate Sorted(groups: seq<Group>) {
    groups == [] || (groups[0].values != [] && Above(groups[1..], groups[0].key) && Sorted(groups[1..]))
  }

  /** The values that groups hold under a key. */
  ghost function Under(groups: seq<Group>, key: TagName): seq<string> {
    if groups == [] then []
    else (if groups[0].key == key then groups[0].values else []) + Under(groups[1..], key)
  }

  /** The values of the tags with a name, in their order. */
  ghost function ValuesOf(tags: seq<EntryTag>, key: TagName): seq<string> {
    if tags == [] then []
    else (if tags[0].name == key then [tags[0].value] else []) + ValuesOf(tags[1..], key)
  }

  lemma {:induction false} UnderAbove(groups: seq<Group>, key: TagName)
    requires Above(groups, key)
    ensures Under(groups, key) == []
  {
    if groups != [] {
      KeyTotal(key, key);
      UnderAbove(groups[1..], key);
    }
  }

  lemma AboveLower(groups: seq<Group>, low: TagName, key: TagName)
    requires KeyBefore(low, key) && Above(groups, key)
    ensures Above(groups, low)
  {
    forall i | 0 <= i < |groups| ensures KeyBefore(low, groups[i].key) {
      KeyTransitive(low, key, groups[i].key);
    }
  }

  lemma {:induction false} UpsertAbove(groups: seq<Group>, key: TagName, value: string, low: TagName)
    requires Above(groups, low) && KeyBefore(low, key)
    ensures Above(Upsert(groups, key, value), low)
  {
    if groups != [] && groups[0].key != key && !KeyBefore(key, groups[0].key) {
      UpsertAbove(groups[1..], key, value, low);
    }
  }

  /** Grouping keeps the keys in order and once each. */
  lemma {:induction false} UpsertSorted(groups: seq<Group>, key: TagName, value: string)
    requires Sorted(groups)
    ensures Sorted(Upsert(groups, key, value))
  {
    var after := Upsert(groups, key, value);
    if groups == [] {
      assert after[1..] == [];
    } else if groups[0].key == key {
      assert after[1..] == groups[1..];
    } else if KeyBefore(key, groups[0].key) {
      assert after[1..] == groups;
      AboveLower(groups[1..], key, groups[0].key);
    } else {
      assert after[1..] == Upsert(groups[1..], key, value);
      KeyTotal(key, groups[0].key);
      UpsertAbove(groups[1..], key, value, groups[0].key);
      UpsertSorted(groups[1..], key, value);
    }
  }

  lemma UnderCons(g: Group, groups: seq<Group>, k: TagName)
    ensures Under([g] + groups, k) == (if g.key == k then g.values else []) + Under(groups, k)
  {
    assert ([g] + groups)[1..] == groups;
  }

  lemma UnderLater(groups: seq<Group>, rest: seq<Group>, k: TagName, more: seq<string>)
    requires groups != [] && Under(rest, k) == Under(groups[1..], k) + more
    ensures Under([groups[0]] + rest, k) == Under(groups, k) + more
  {
    UnderCons(groups[0], rest, k);
    AppendAssociative(if groups[0].key == k then groups[0].values else [], Under(groups[1..], k), more);
  }

  /** It adds the value at the end of its key's, and changes no other key's. */
  lemma {:induction false} UpsertAdds(groups: seq<Group>, key: TagName, value: string, k: TagName)
    requires Sorted(groups)
    ensures Under(Upsert(groups, key, value), k) == Under(groups, k) + if k == key then [value] else []
  {
    if groups == [] {
      UnderCons(Group(key, [value]), [], k);
    } else if groups[0].key == key {
      UnderCons(Group(key, groups[0].values + [value]), groups[1..], k);
      UnderAbove(groups[1..], key);
    } else if KeyBefore(key, groups[0].key) {
      UnderCons(Group(key, [value]), groups, k);
      AboveLower(groups[1..], key, groups[0].key);
      UnderAbove(groups, key);
    } else {
      UpsertAdds(groups[1..], key, value, k);
      UnderLater(groups, Upsert(groups[1..], key, value), k, if k == key then [value] else []);
    }
  }

  lemma UnderHead(groups: seq<Group>)
    requires Sorted(groups) && groups != []
    ensures Under(groups, groups[0].key) == groups[0].values
    ensures forall k :: KeyBefore(k, groups[0].key) ==> Under(groups, k) == []
  {
    UnderAbove(groups[1..], groups[0].key);
    forall k | KeyBefore(k, groups[0].key) ensures Under(groups, k) == [] {
      AboveLower(groups[1..], k, groups[0].key);
      UnderAbove(groups, k);
    }
  }

  lemma UnderTail(groups: seq<Group>, k: TagName)
    requires Sorted(groups) && groups != []
    ensures Under(groups[1..], k) == if k == groups[0].key then [] else Under(groups, k)
  {
    UnderAbove(groups[1..], groups[0].key);
  }

  /** Sorted groups are determined by the values under each key. */
  lemma {:induction false} SortedUnique(a: seq<Group>, b: seq<Group>)
    requires Sorted(a) && Sorted(b) && forall key :: Under(a, key) == Under(b, key)
    ensures a == b
  {
    if a != [] && b != [] {
      UnderHead(a);
      UnderHead(b);
      KeyTotal(a[0].key, b[0].key);
      forall key ensures Under(a[1..], key) == Under(b[1..], key) {
        UnderTail(a, key);
        UnderTail(b, key);
      }
      SortedUnique(a[1..], b[1..]);
      assert a == [a[0]] + a[1..] && b == [b[0]] + b[1..];
    } else if a != [] {
      UnderHead(a);
    } else if b != [] {
      UnderHead(b);
    }
  }

  // ----- the object's entries -----

  datatype EntryTagValues = Single(value: string) | Multiple(values: seq<string>)

  datatype Member = Member(key: string, values: EntryTagValues)

  function PrintKey(name: TagName): string {
    if name.Encrypted? then name.text else "~" + name.text
  }

  /** JSON text spells these characters with an escape. */
  predicate NeedsEscape(text: string) {
    exists i | 0 <= i < |text| :: text[i] == '"' || text[i] == '\\' || text[i] < ' '
  }

  /** Keys are borrowed from the text, so one that is spelled with an escape is refused. */
  function ReadKey(key: string): Option<TagName> {
    if NeedsEscape(key) || key == "" then None
    else if key[0] == '~' then Some(TagSql.Plaintext(key[1..]))
    else Some(TagSql.Encrypted(key))
  }

  /** The names that survive printing. */
  predicate Printable(name: TagName) {
    !NeedsEscape(name.text) && (name.Plaintext? || (name.text != "" && name.text[0] != '~'))
  }

  lemma KeyRoundTrip(name: TagName)
    ensures ReadKey(PrintKey(name)) == Some(name) <==> Printable(name)
    ensures ReadKey(PrintKey(name)).None? <==> NeedsEscape(name.text) || name == TagSql.Encrypted("")
  {
    PrintedEscapes(name);
  }

  /** A printed name is the one by which a search asks for the tag. */
  lemma PrintedNameAsks(name: TagName)
    requires Printable(name)
    ensures Searchable.Asks(PrintKey(name), name) && Searchable.ToTagName(PrintKey(name)) == name
  {
    Searchable.NameSelects(PrintKey(name), name);
  }

  /** Every key but an empty or escaped one is read, as the name of the tags that a search by it asks for. */
  lemma ReadKeyAsks(key: string)
    ensures ReadKey(key).Some? <==> key != "" && !NeedsEscape(key)
    ensures ReadKey(key).Some? ==> forall name :: ReadKey(key).value == name <==> Searchable.Asks(key, name)
  {
    if ReadKey(key).Some? {
      forall name ensures ReadKey(key).value == name <==> Searchable.Asks(key, name) {
        Searchable.NameSelects(key, name);
      }
    }
  }

  /** The marker needs no escape, so a printed name needs one exactly where the name does. */
  lemma PrintedEscapes(name: TagName)
    ensures NeedsEscape(PrintKey(name)) <==> NeedsEscape(name.text)
  {
    if name.Plaintext? {
      var key := PrintKey(name);
      assert key[0] == '~' && key[1..] == name.text;
      if i :| 0 <= i < |name.text| && (name.text[i] == '"' || name.text[i] == '\\' || name.text[i] < ' ') {
        assert key[i + 1] == name.text[i];
      }
      if j :| 0 <= j < |key| && (key[j] == '"' || key[j] == '\\' || key[j] < ' ') {
        assert name.text[j - 1] == key[j];
      }
    }
  }

  /** What is read back needed no escape. */
  lemma ReadKeyPrintable(key: string)
    ensures ReadKey(key).Some? ==> Printable(ReadKey(key).value)
  {
    if ReadKey(key).Some? {
      PrintedEscapes(ReadKey(key).value);
      assert PrintKey(ReadKey(key).value) == key;
    }
  }

  function ToMember(g: Group): Member
    requires g.values != []
  {
    Member(PrintKey(g.key), if |g.values| > 1 then Multiple(g.values) else Single(g.values[0]))
  }

  function Tags(name: TagName, values: EntryTagValues): seq<EntryTag> {
    var vs := if values.Single? then [values.value] else values.values;
    seq(|vs|, i requires 0 <= i < |vs| => Searchable.EntryTag(name, vs[i]))
  }

  // ----- what the two directions compute -----

  ghost function Grouped(tags: seq<EntryTag>): seq<Group> {
    if tags == [] then []
    else Upsert(Grouped(tags[..|tags| - 1]), tags[|tags| - 1].name, tags[|tags| - 1].value)
  }

  ghost function Members(groups: seq<Group>): seq<Member>
    requires Sorted(groups)
  {
    if groups == [] then [] else [ToMember(groups[0])] + Members(groups[1..])
  }

  ghost function ReadMembers(members: seq<Member>): Option<seq<EntryTag>> {
    if members == [] then Some([])
    else
      var name, rest := ReadKey(members[0].key), ReadMembers(members[1..]);
      if name.None? || rest.None? then None else Some(Tags(name.value, members[0].values) + rest.value)
  }

  /** A member has its group's name, marked if plaintext, and a list exactly when there are several values. */
  lemma {:induction false} WrittenMembers(groups: seq<Group>)
    requires Sorted(groups)
    ensures |Members(groups)| == |groups|
    ensures forall i | 0 <= i < |groups| ::
      && Members(groups)[i].key == (match groups[i].key case Encrypted(t) => t case Plaintext(t) => "~" + t)
      && Members(groups)[i].values == (var vs := groups[i].values; if |vs| == 1 then Single(vs[0]) else Multiple(vs))
  {
    if groups != [] {
      WrittenMembers(groups[1..]);
    }
  }

  /** The values of the members whose keys ask for a name, in their order. */
  ghost function Gathered(members: seq<Member>, name: TagName): seq<string> {
    if members == [] then []
    else
      var m := members[0];
      (if !Searchable.Asks(m.key, name) then [] else if m.values.Single? then [m.values.value] else m.values.values)
      + Gathered(members[1..], name)
  }

  /** Any object is read to the values under each name, unless a key is empty or escaped. */
  lemma {:induction false} ReadObject(members: seq<Member>, name: TagName)
    ensures ReadMembers(members).Some? <==> forall m | m in members :: m.key != "" && !NeedsEscape(m.key)
    ensures ReadMembers(members).Some? ==> ValuesOf(ReadMembers(members).value, name) == Gathered(members, name)
  {
    if members != [] {
      var m, rest := members[0], ReadMembers(members[1..]);
      ReadObject(members[1..], name);
      ReadKeyAsks(m.key);
      assert members == [m] + members[1..];
      if ReadMembers(members).Some? {
        var key := ReadKey(m.key).value;
        var vs := if m.values.Single? then [m.values.value] else m.values.values;
        assert Tags(key, m.values) == Tags(key, Multiple(vs));
        ValuesOfTags(key, vs, name);
        ValuesOfAppend(Tags(key, m.values), rest.value, name);
      }
    }
  }

  lemma {:induction false} ValuesOfAppend(a: seq<EntryTag>, b: seq<EntryTag>, key: TagName)
    ensures ValuesOf(a + b, key) == ValuesOf(a, key) + ValuesOf(b, key)
  {
    if a == [] {
      assert a + b == b;
    } else {
      assert (a + b)[1..] == a[1..] + b;
      ValuesOfAppend(a[1..], b, key);
    }
  }

  /** Grouping is sorted and loses no value, nor the order of any name's values. */
  lemma {:induction false} GroupedHolds(tags: seq<EntryTag>, key: TagName)
    ensures Sorted(Grouped(tags)) && Under(Grouped(tags), key) == ValuesOf(tags, key)
  {
    if tags != [] {
      var init, last := tags[..|tags| - 1], tags[|tags| - 1];
      GroupedHolds(init, key);
      UpsertSorted(Grouped(init), last.name, last.value);
      UpsertAdds(Grouped(init), last.name, last.value, key);
      ValuesOfAppend(init, [last], key);
      assert init + [last] == tags;
    }
  }

  lemma {:induction false} ValuesOfTags(name: TagName, vs: seq<string>, key: TagName)
    ensures ValuesOf(Tags(name, Multiple(vs)), key) == if key == name then vs else []
  {
    if vs != [] {
      var tags := Tags(name, Multiple(vs));
      assert tags[1..] == Tags(name, Multiple(vs[1..]));
      ValuesOfTags(name, vs[1..], key);
      assert key == name ==> [vs[0]] + vs[1..] == vs;
    }
  }

  lemma TagsOfMember(g: Group, key: TagName)
    requires g.values != []
    ensures ValuesOf(Tags(g.key, ToMember(g).values), key) == if key == g.key then g.values else []
  {
    ValuesOfTags(g.key, g.values, key);
    if |g.values| == 1 {
      assert Tags(g.key, Single(g.values[0])) == Tags(g.key, Multiple(g.values));
    }
  }

  ghost predicate AllPrintable(groups: seq<Group>) {
    forall i | 0 <= i < |groups| :: Printable(groups[i].key)
  }

  /** Groups under printable keys read back with the same values under each. */
  lemma {:induction false} ReadBack(groups: seq<Group>, key: TagName)
    requires Sorted(groups) && AllPrintable(groups)
    ensures ReadMembers(Members(groups)).Some?
    ensures ValuesOf(ReadMembers(Members(groups)).value, key) == Under(groups, key)
  {
    if groups != [] {
      KeyRoundTrip(groups[0].key);
      ReadBack(groups[1..], key);
      TagsOfMember(groups[0], key);
      assert Members(groups)[1..] == Members(groups[1..]);
      ValuesOfAppend(Tags(groups[0].key, ToMember(groups[0]).values), ReadMembers(Members(groups[1..])).value, key);
    }
  }

  // ----- the round trip -----

  ghost predicate SameValues(a: seq<EntryTag>, b: seq<EntryTag>) {
    forall key :: ValuesOf(a, key) == ValuesOf(b, key)
  }

  /** A list of tags holds a tag as often as its value occurs under its name. */
  lemma {:induction false} CountInValues(tags: seq<EntryTag>, tag: EntryTag)
    ensures multiset(tags)[tag] == multiset(ValuesOf(tags, tag.name))[tag.value]
  {
    if tags != [] {
      CountInValues(tags[1..], tag);
      assert tags == [tags[0]] + tags[1..];
    }
  }

  lemma SameValuesSameTags(a: seq<EntryTag>, b: seq<EntryTag>)
    requires SameValues(a, b)
    ensures multiset(a) == multiset(b)
  {
    forall tag ensures multiset(a)[tag] == multiset(b)[tag] {
      CountInValues(a, tag);
      CountInValues(b, tag);
    }
  }

  lemma {:induction false} UnderPresent(groups: seq<Group>, i: nat)
    requires Sorted(groups) && i < |groups|
    ensures Under(groups, groups[i].key) != []
  {
    if i > 0 {
      UnderPresent(groups[1..], i - 1);
    }
  }

  lemma {:induction false} ValuesOfPresent(tags: seq<EntryTag>, key: TagName)
    ensures ValuesOf(tags, key) != [] <==> exists t :: t in tags && t.name == key
  {
    if tags != [] {
      ValuesOfPresent(tags[1..], key);
      assert tags == [tags[0]] + tags[1..];
    }
  }

  ghost predicate PrintableTags(tags: seq<EntryTag>) {
    forall t | t in tags :: Printable(t.name)
  }

  /** What is written and read again has the same values in the same order under every name. */
  lemma {:induction false} RoundTrip(tags: seq<EntryTag>)
    requires PrintableTags(tags)
    ensures Sorted(Grouped(tags)) && ReadMembers(Members(Grouped(tags))).Some?
    ensures SameValues(ReadMembers(Members(Grouped(tags))).value, tags)
    ensures multiset(ReadMembers(Members(Grouped(tags))).value) == multiset(tags)
  {
    var groups := Grouped(tags);
    GroupedHolds(tags, TagSql.Encrypted(""));
    forall i | 0 <= i < |groups| ensures Printable(groups[i].key) {
      UnderPresent(groups, i);
      GroupedHolds(tags, groups[i].key);
      ValuesOfPresent(tags, groups[i].key);
    }
    var r := ReadMembers(Members(groups));
    forall key ensures r.Some? && ValuesOf(r.value, key) == ValuesOf(tags, key) {
      ReadBack(groups, key);
      GroupedHolds(tags, key);
    }
    ReadBack(groups, TagSql.Encrypted(""));
    SameValuesSameTags(ReadMembers(Members(groups)).value, tags);
  }

  /** Nothing that is read has a name that could not be printed. */
  lemma {:induction false} ReadIsPrintable(members: seq<Member>)
    ensures ReadMembers(members).Some? ==> PrintableTags(ReadMembers(members).value)
  {
    if members != [] {
      ReadKeyPrintable(members[0].key);
      ReadIsPrintable(members[1..]);
    }
  }

  /** The tags come back exactly when no name needs an escape and no encrypted one is empty or starts with `~`. */
  lemma {:induction false} RoundTripExactly(tags: seq<EntryTag>)
    ensures Sorted(Grouped(tags))
    ensures var r := ReadMembers(Members(Grouped(tags)));
      (r.Some? && multiset(r.value) == multiset(tags)) <==> PrintableTags(tags)
  {
    GroupedHolds(tags, TagSql.Encrypted(""));
    var r := ReadMembers(Members(Grouped(tags)));
    if PrintableTags(tags) {
      RoundTrip(tags);
    }
    if r.Some? && multiset(r.value) == multiset(tags) {
      ReadIsPrintable(Members(Grouped(tags)));
      forall t | t in tags ensures Printable(t.name) {
        assert t in multiset(tags);
        assert t in r.value;
      }
    }
  }

  /** The object written depends only on the values under each name: it is a canonical form. */
  lemma {:induction false} WritesAlike(a: seq<EntryTag>, b: seq<EntryTag>)
    requires SameValues(a, b)
    ensures Grouped(a) == Grouped(b)
  {
    forall key ensures Sorted(Grouped(a)) && Sorted(Grouped(b)) && Under(Grouped(a), key) == Under(Grouped(b), key) {
      GroupedHolds(a, key);
      GroupedHolds(b, key);
    }
    GroupedHolds(a, TagSql.Encrypted(""));
    GroupedHolds(b, TagSql.Encrypted(""));
    SortedUnique(Grouped(a), Grouped(b));
  }

  // ----- the loops -----

  method Serialize(tags: seq<EntryTag>) returns (members: seq<Member>)
    ensures Sorted(Grouped(tags)) && members == Members(Grouped(tags))
  {
    var groups: seq<Group> := [];
    for i := 0 to |tags|
      invariant groups == Grouped(tags[..i])
    {
      assert tags[..i + 1][..i] == tags[..i];
      groups := Upsert(groups, tags[i].name, tags[i].value);
    }
    assert tags[..|tags|] == tags;
    GroupedHolds(tags, TagSql.Encrypted(""));
    members := [];
    ghost var rest := groups;
    for i := 0 to |groups|
      invariant rest == groups[i..] && Sorted(rest)
      invariant members + Members(rest) == Members(groups)
    {
      members := members + [ToMember(groups[i])];
      rest := rest[1..];
    }
  }

  method Deserialize(members: seq<Member>) returns (r: Option<seq<EntryTag>>)
    ensures r == ReadMembers(members)
  {
    var v: seq<EntryTag> := [];
    ghost var all, rest := ReadMembers(members), members;
    ExtendEnds(all, []);
    for i := 0 to |members|
      invariant rest == members[i..]
      invariant all == Extend(v, ReadMembers(rest))
    {
      var name := ReadKey(members[i].key);
      if name.None? {
        return None;
      }
      ExtendStep(v, name.value, members[i].values, ReadMembers(rest[1..]));
      match members[i].values {
        case Single(value) =>
          v := v + [Searchable.EntryTag(name.value, value)];
        case Multiple(values) =>
          v := PushAll(v, name.value, values);
      }
      rest := rest[1..];
    }
    ExtendEnds(None, v);
    return Some(v);
  }

  method PushAll(v: seq<EntryTag>, name: TagName, values: seq<string>) returns (v': seq<EntryTag>)
    ensures v' == v + Tags(name, Multiple(values))
  {
    v' := v;
    for i := 0 to |values|
      invariant v' == v + Tags(name, Multiple(values[..i]))
    {
      v' := v' + [Searchable.EntryTag(name, values[i])];
      assert Tags(name, Multiple(values[..i + 1]))
          == Tags(name, Multiple(values[..i])) + [Searchable.EntryTag(name, values[i])];
    }
    assert values[..|values|] == values;
  }

  lemma ExtendStep(v: seq<EntryTag>, name: TagName, values: EntryTagValues, rest: Option<seq<EntryTag>>)
    ensures Extend(v, if rest.None? then None else Some(Tags(name, values) + rest.value))
         == Extend(v + Tags(name, values), rest)
    ensures values.Single? ==> Tags(name, values) == [Searchable.EntryTag(name, values.value)]
  {
    if rest.Some? {
      assert v + (Tags(name, values) + rest.value) == v + Tags(name, values) + rest.value;
    }
  }
}
