/** What a JSON query says, and which values are queries, without reference to the parser. */
module WqlJsonMeaning {
  import opened Prelude
  import opened Wql
  import opened WqlJson

  // ----- which values are queries -----

  predicate Texts(values: seq<Json>) {
    forall i | 0 <= i < |values| :: values[i].Str?
  }

  /** `{"$gt": "v"}` and the like, or `{"$in": ["v", "w"]}`. */
  predicate OperatorFormed(key: string, value: Json) {
    || (key in {"$neq", "$gt", "$gte", "$lt", "$lte", "$like"} && value.Str?)
    || (key == "$in" && value.Arr? && Texts(value.items))
  }

  predicate FieldFormed(key: string, value: Json)
    decreases value, 2
  {
    match key
    case "$and" => value.Arr? && AllFormed(value.items)
    case "$or" => value.Arr? && AllFormed(value.items)
    case "$not" => ObjectFormed(value)
    case "$exist" => value.Str? || (value.Arr? && Texts(value.items))
    case _ =>
      value.Str? || (value.Obj? && |value.fields| == 1 && OperatorFormed(value.fields[0].key, value.fields[0].value))
  }

  predicate AllFormed(values: seq<Json>)
    decreases values, 2
  {
    forall i | 0 <= i < |values| :: ObjectFormed(values[i])
  }

  predicate ObjectFormed(v: Json)
    decreases v, 1
  {
    v.Obj? && FieldsFormed(v.fields)
  }

  predicate FieldsFormed(fields: seq<Field>)
    decreases fields, 0
  {
    forall i | 0 <= i < |fields| :: FieldFormed(fields[i].key, fields[i].value)
  }

  /** A restriction of the old format may have null fields, which count as not given. */
  predicate RestrictionFormed(v: Json) {
    && v.Obj?
    && forall i | 0 <= i < |v.fields| && !v.fields[i].value.Null? :: FieldFormed(v.fields[i].key, v.fields[i].value)
  }

  predicate AllRestrictions(items: seq<Json>) {
    forall i | 0 <= i < |items| :: RestrictionFormed(items[i])
  }

  predicate Formed(v: Json) {
    if v.Arr? then AllRestrictions(v.items) else ObjectFormed(v)
  }

  // ----- what they say -----

  type StringAtoms = Atoms<string, string>

  ghost predicate OperatorMeans(name: string, key: string, value: Json, m: StringAtoms)
    requires OperatorFormed(key, value)
  {
    match key
    case "$neq" => m.compare(Neq, name, value.text)
    case "$gt" => m.compare(Gt, name, value.text)
    case "$gte" => m.compare(Gte, name, value.text)
    case "$lt" => m.compare(Lt, name, value.text)
    case "$lte" => m.compare(Lte, name, value.text)
    case "$like" => m.compare(Like, name, value.text)
    case _ => m.oneOf(name, seq(|value.items|, i requires 0 <= i < |value.items| => value.items[i].text))
  }

  /** An empty `$or` restricts nothing, like an empty `$and` or `$exist`. */
  ghost predicate FieldMeans(key: string, value: Json, m: StringAtoms)
    requires FieldFormed(key, value)
    decreases value, 2
  {
    match key
    case "$and" => EveryMeans(value.items, m)
    case "$or" => value.items == [] || SomeMeans(value.items, m)
    case "$not" => !ObjectMeans(value, m)
    case "$exist" =>
      if value.Str? then m.present(value.text)
      else forall i | 0 <= i < |value.items| :: m.present(value.items[i].text)
    case _ =>
      if value.Str? then m.compare(Eq, key, value.text)
      else OperatorMeans(key, value.fields[0].key, value.fields[0].value, m)
  }

  ghost predicate EveryMeans(values: seq<Json>, m: StringAtoms)
    requires AllFormed(values)
    decreases values, 2
  {
    forall i | 0 <= i < |values| :: ObjectMeans(values[i], m)
  }

  ghost predicate SomeMeans(values: seq<Json>, m: StringAtoms)
    requires AllFormed(values)
    decreases values, 2
  {
    exists i | 0 <= i < |values| :: ObjectMeans(values[i], m)
  }

  /** An object holds when all its fields do. */
  ghost predicate ObjectMeans(v: Json, m: StringAtoms)
    requires ObjectFormed(v)
    decreases v, 1
  {
    FieldsMean(v.fields, m)
  }

  ghost predicate FieldsMean(fields: seq<Field>, m: StringAtoms)
    requires FieldsFormed(fields)
    decreases fields, 0
  {
    forall i | 0 <= i < |fields| :: FieldMeans(fields[i].key, fields[i].value, m)
  }

  predicate Blank(v: Json)
    requires v.Obj?
  {
    forall i | 0 <= i < |v.fields| :: v.fields[i].value.Null?
  }

  predicate AllBlank(items: seq<Json>)
    requires AllRestrictions(items)
  {
    forall i | 0 <= i < |items| :: Blank(items[i])
  }

  ghost predicate RestrictionMeans(v: Json, m: StringAtoms)
    requires RestrictionFormed(v)
  {
    forall i | 0 <= i < |v.fields| && !v.fields[i].value.Null? :: FieldMeans(v.fields[i].key, v.fields[i].value, m)
  }

  ghost predicate SomeRestrictionMeans(items: seq<Json>, m: StringAtoms)
    requires AllRestrictions(items)
  {
    exists i | 0 <= i < |items| :: !Blank(items[i]) && RestrictionMeans(items[i], m)
  }

  /** The old format holds when one of its restrictions that are not blank does, or all are blank. */
  ghost predicate Means(v: Json, m: StringAtoms)
    requires Formed(v)
  {
    if v.Arr? then AllBlank(v.items) || SomeRestrictionMeans(v.items, m) else ObjectMeans(v, m)
  }

  // ----- the parser accepts exactly these and keeps what they say -----

  lemma {:induction false} StringsAreTexts(values: seq<Json>)
    ensures ParseStrings(values).Some? <==> Texts(values)
    ensures Texts(values) ==>
      ParseStrings(values).value == seq(|values|, i requires 0 <= i < |values| => values[i].text)
  {
    if values != [] {
      StringsAreTexts(values[1..]);
    }
  }

  lemma SingleMeans(operator: string, name: string, value: Json, m: StringAtoms)
    ensures var r := ParseSingle(operator, name, value);
      && (r.Ok? <==> OperatorFormed(operator, value))
      && (r.Ok? ==> Holds(r.value, m) == OperatorMeans(name, operator, value, m))
  {
    if operator == "$in" && value.Arr? {
      StringsAreTexts(value.items);
    }
  }

  /** An outcome of the dispatch agrees with the field's form and meaning. */
  ghost predicate OperatorAgrees(r: Parsed<Option<StringQuery>>, key: string, value: Json, m: StringAtoms) {
    && (r.Ok? <==> FieldFormed(key, value))
    && (r.Ok? ==> FieldMeans(key, value, m) == (r.value.Some? ==> Holds(r.value.value, m)))
  }

  lemma {:induction false} OperatorMeansField(key: string, value: Json, m: StringAtoms)
    ensures OperatorAgrees(ParseOperator(key, value), key, value, m)
    decreases value, 0
  {
    if key == "$and" || key == "$or" {
      if value.Arr? {
        ListMeans(value.items, m);
      }
    } else if key == "$not" {
      if value.Obj? {
        QueryMeansFields(value.fields, m);
      }
    } else if key == "$exist" {
      ExistMeans(value, m);
    } else if value.Obj? && |value.fields| == 1 {
      SingleMeans(value.fields[0].key, key, value.fields[0].value, m);
    }
  }

  lemma ExistMeans(value: Json, m: StringAtoms)
    ensures OperatorAgrees(ParseOperator("$exist", value), "$exist", value, m)
  {
    if value.Arr? {
      StringsAreTexts(value.items);
      if Texts(value.items) && value.items != [] {
        var names := ParseStrings(value.items).value;
        assert ParseOperator("$exist", value) == Ok(Some(Exist(names)));
        assert forall i | 0 <= i < |names| :: names[i] == value.items[i].text && names[i] in names;
      }
    }
  }

  lemma {:induction false} FieldsParse(fields: seq<Field>, m: StringAtoms)
    ensures var r := ParseFields(fields);
      && (r.Ok? <==> FieldsFormed(fields))
      && (r.Ok? ==> AllHold(r.value, m) == FieldsMean(fields, m))
    decreases fields, 0
  {
    if fields != [] {
      OperatorMeansField(fields[0].key, fields[0].value, m);
      FieldsParse(fields[1..], m);
      assert FieldsFormed(fields) <==> FieldFormed(fields[0].key, fields[0].value) && FieldsFormed(fields[1..]);
      if ParseFields(fields).Ok? {
        var first, rest := ParseOperator(fields[0].key, fields[0].value).value, ParseFields(fields[1..]).value;
        assert ParseFields(fields).value[if first.Some? then 1 else 0..] == rest;
        assert FieldsMean(fields, m) <==>
          FieldMeans(fields[0].key, fields[0].value, m) && FieldsMean(fields[1..], m);
      }
    }
  }

  lemma {:induction false} QueryMeansFields(fields: seq<Field>, m: StringAtoms)
    ensures var r := ParseQuery(fields);
      && (r.Ok? <==> FieldsFormed(fields))
      && (r.Ok? ==> Holds(r.value, m) == FieldsMean(fields, m))
    decreases fields, 1
  {
    FieldsParse(fields, m);
    if ParseFields(fields).Ok? {
      var operators := ParseFields(fields).value;
      if |operators| == 1 {
        assert operators[1..] == [];
      }
    }
  }

  lemma {:induction false} ListMeans(values: seq<Json>, m: StringAtoms)
    ensures var r := ParseList(values);
      && (r.Ok? <==> AllFormed(values))
      && (r.Ok? ==> AllHold(r.value, m) == EveryMeans(values, m))
      && (r.Ok? ==> AnyHolds(r.value, m) == SomeMeans(values, m))
    decreases values, 0
  {
    if values != [] {
      if values[0].Obj? {
        QueryMeansFields(values[0].fields, m);
      }
      ListMeans(values[1..], m);
      assert values == [values[0]] + values[1..];
      if ParseList(values).Ok? {
        assert ParseList(values).value[1..] == ParseList(values[1..]).value;
      }
    }
  }

  // ----- the old format -----

  lemma FieldsCons(first: Field, rest: seq<Field>, m: StringAtoms)
    ensures FieldsFormed([first] + rest) <==> FieldFormed(first.key, first.value) && FieldsFormed(rest)
    ensures FieldsFormed([first] + rest) ==>
      (FieldsMean([first] + rest, m) <==> FieldMeans(first.key, first.value, m) && FieldsMean(rest, m))
  {
    var fields := [first] + rest;
    assert fields[0] == first && forall i | 0 <= i < |rest| :: rest[i] == fields[i + 1];
  }

  lemma RestrictionCons(first: Field, rest: seq<Field>, m: StringAtoms)
    ensures var v, given := Obj([first] + rest), !first.value.Null?;
      && (Blank(v) <==> !given && Blank(Obj(rest)))
      && (RestrictionFormed(v) <==> (given ==> FieldFormed(first.key, first.value)) && RestrictionFormed(Obj(rest)))
      && (RestrictionFormed(v) ==>
           (RestrictionMeans(v, m) <==>
             (given ==> FieldMeans(first.key, first.value, m)) && RestrictionMeans(Obj(rest), m)))
  {
    var fields := [first] + rest;
    assert fields[0] == first && forall i | 0 <= i < |rest| :: rest[i] == fields[i + 1];
  }

  lemma {:induction false} NonNullMeans(fields: seq<Field>, m: StringAtoms)
    ensures var v, kept := Obj(fields), NonNull(fields);
      && (kept == [] <==> Blank(v))
      && (FieldsFormed(kept) <==> RestrictionFormed(v))
      && (RestrictionFormed(v) ==> FieldsMean(kept, m) == RestrictionMeans(v, m))
  {
    if fields != [] {
      var first, rest := fields[0], fields[1..];
      NonNullMeans(rest, m);
      assert fields == [first] + rest;
      RestrictionCons(first, rest, m);
      FieldsCons(first, NonNull(rest), m);
      if first.value.Null? {
        assert NonNull(fields) == NonNull(rest);
      }
    }
  }

  lemma SomeCons(first: Json, rest: seq<Json>, m: StringAtoms)
    ensures AllFormed([first] + rest) <==> ObjectFormed(first) && AllFormed(rest)
    ensures AllFormed([first] + rest) ==>
      (SomeMeans([first] + rest, m) <==> ObjectMeans(first, m) || SomeMeans(rest, m))
  {
    var all := [first] + rest;
    assert all[0] == first && forall i | 0 <= i < |rest| :: rest[i] == all[i + 1];
  }

  lemma SomeRestrictionCons(first: Json, rest: seq<Json>, m: StringAtoms)
    ensures AllRestrictions([first] + rest) <==> RestrictionFormed(first) && AllRestrictions(rest)
    ensures AllRestrictions([first] + rest) ==>
      && (AllBlank([first] + rest) <==> Blank(first) && AllBlank(rest))
      && (SomeRestrictionMeans([first] + rest, m) <==>
           (!Blank(first) && RestrictionMeans(first, m)) || SomeRestrictionMeans(rest, m))
  {
    var all := [first] + rest;
    assert all[0] == first && forall i | 0 <= i < |rest| :: rest[i] == all[i + 1];
  }

  lemma {:induction false} RestrictionsMean(items: seq<Json>, m: StringAtoms)
    ensures var r := Restrictions(items);
      && (r.Some? && AllFormed(r.value) <==> AllRestrictions(items))
      && (AllRestrictions(items) ==>
           && (r.value == [] <==> AllBlank(items))
           && (SomeMeans(r.value, m) <==> SomeRestrictionMeans(items, m)))
  {
    if items != [] {
      var first, rest := items[0], items[1..];
      assert items == [first] + rest;
      RestrictionsMean(rest, m);
      SomeRestrictionCons(first, rest, m);
      if first.Obj? && Restrictions(rest).Some? {
        var kept := NonNull(first.fields);
        NonNullMeans(first.fields, m);
        SomeCons(Obj(kept), Restrictions(rest).value, m);
        if kept == [] {
          assert Restrictions(items).value == Restrictions(rest).value;
        }
      }
    }
  }

  /**
   * Parsing keeps the meaning. For every JSON value, exactly the well-formed ones are accepted, and
   * the query read from one holds of an item exactly when what the value says does.
   */
  lemma ParsedMeansJson(v: Json, m: StringAtoms)
    ensures Deserialize(v).Ok? <==> Formed(v)
    ensures Formed(v) ==> Holds(Deserialize(v).value, m) == Means(v, m)
  {
    match v
    case Obj(fields) => QueryMeansFields(fields, m);
    case Arr(items) =>
      RestrictionsMean(items, m);
      if Restrictions(items).Some? {
        var kept := Arr(Restrictions(items).value);
        ParseOneField("$or", kept);
        OperatorMeansField("$or", kept, m);
      }
    case _ =>
  }
}
