/** The JSON form of a query: printing, parsing, and exactly which queries survive the round trip. */
module WqlJson {
  import opened Prelude
  import opened Wql

  type StringQuery = Query<string, string>

  datatype Json =
    | Null
    | Bool(flag: bool)
    | Number(number: int)
    | Str(text: string)
    | Arr(items: seq<Json>)
    | Obj(fields: seq<Field>)

  datatype Field = Field(key: string, value: Json)

  datatype ParseError =
    | AndNotArray | OrNotArray | NotNotObject | ExistNotStrings
    | OperatorNotSingle | UnsupportedValue | OperatorsNotObjects
    | OperandNotString | InNotStrings | UnknownOperator
    | RestrictionInvalid | NotObjectOrArray

  type Parsed<T> = Result<T, ParseError>

  // ----- printing -----

  function OpKey(op: CompareOp): string
    requires op != Eq
  {
    match op
    case Neq => "$neq"
    case Gt => "$gt"
    case Gte => "$gte"
    case Lt => "$lt"
    case Lte => "$lte"
    case Like => "$like"
  }

  function Single(key: string, value: Json): Json {
    Obj([Field(key, value)])
  }

  function ToValue(q: StringQuery): (v: Json)
    ensures v.Obj?
    decreases q, 1
  {
    match q
    case Compare(op, name, value) =>
      if op == Eq then Single(name, Str(value)) else Single(name, Single(OpKey(op), Str(value)))
    case In(name, values) => Single(name, Single("$in", Arr(Strings(values))))
    case Exist(names) => Single("$exist", Arr(Strings(names)))
    case And(subs) => if subs == [] then Obj([]) else Single("$and", Arr(ToValues(subs)))
    case Or(subs) => if subs == [] then Obj([]) else Single("$or", Arr(ToValues(subs)))
    case Not(sub) => Single("$not", ToValue(sub))
  }

  function ToValues(qs: seq<StringQuery>): (r: seq<Json>)
    ensures |r| == |qs|
    decreases qs, 0
  {
    if qs == [] then [] else [ToValue(qs[0])] + ToValues(qs[1..])
  }

  function Strings(texts: seq<string>): (r: seq<Json>)
    ensures |r| == |texts|
  {
    if texts == [] then [] else [Str(texts[0])] + Strings(texts[1..])
  }

  // ----- parsing -----

  function ParseQuery(fields: seq<Field>): Parsed<StringQuery>
    decreases fields, 1
  {
    match ParseFields(fields)
    case Err(e) => Err(e)
    case Ok(operators) => Ok(if |operators| == 1 then operators[0] else And(operators))
  }

  function ParseFields(fields: seq<Field>): Parsed<seq<StringQuery>>
    decreases fields, 0
  {
    if fields == [] then Ok([])
    else
      match ParseOperator(fields[0].key, fields[0].value)
      case Err(e) => Err(e)
      case Ok(first) =>
        match ParseFields(fields[1..])
        case Err(e) => Err(e)
        case Ok(rest) => Ok((if first.Some? then [first.value] else []) + rest)
  }

  function ParseOperator(key: string, value: Json): Parsed<Option<StringQuery>>
    decreases value, 0
  {
    if key == "$and" then
      if !value.Arr? then Err(AndNotArray)
      else if value.items == [] then Ok(None)
      else
        match ParseList(value.items)
        case Err(e) => Err(e)
        case Ok(operators) => Ok(Some(And(operators)))
    else if key == "$or" then
      if !value.Arr? then Err(OrNotArray)
      else if value.items == [] then Ok(None)
      else
        match ParseList(value.items)
        case Err(e) => Err(e)
        case Ok(operators) => Ok(Some(Or(operators)))
    else if key == "$not" then
      if !value.Obj? then Err(NotNotObject)
      else
        match ParseQuery(value.fields)
        case Err(e) => Err(e)
        case Ok(operator) => Ok(Some(Not(operator)))
    else if key == "$exist" then
      if value.Str? then Ok(Some(Exist([value.text])))
      else if !value.Arr? then Err(ExistNotStrings)
      else if value.items == [] then Ok(None)
      else
        match ParseStrings(value.items)
        case None => Err(ExistNotStrings)
        case Some(keys) => Ok(Some(Exist(keys)))
    else
      match value
      case Str(text) => Ok(Some(Compare(Eq, key, text)))
      case Obj(fields) =>
        if |fields| != 1 then Err(OperatorNotSingle)
        else
          (match ParseSingle(fields[0].key, key, fields[0].value)
           case Err(e) => Err(e)
           case Ok(operator) => Ok(Some(operator)))
      case _ => Err(UnsupportedValue)
  }

  function ParseList(values: seq<Json>): Parsed<seq<StringQuery>>
    decreases values, 0
  {
    if values == [] then Ok([])
    else if !values[0].Obj? then Err(OperatorsNotObjects)
    else
      match ParseQuery(values[0].fields)
      case Err(e) => Err(e)
      case Ok(first) =>
        match ParseList(values[1..])
        case Err(e) => Err(e)
        case Ok(rest) => Ok([first] + rest)
  }

  function ParseStrings(values: seq<Json>): Option<seq<string>> {
    if values == [] then Some([])
    else if !values[0].Str? then None
    else
      match ParseStrings(values[1..])
      case None => None
      case Some(rest) => Some([values[0].text] + rest)
  }

  function KeyOp(key: string): Option<CompareOp> {
    match key
    case "$neq" => Some(Neq)
    case "$gt" => Some(Gt)
    case "$gte" => Some(Gte)
    case "$lt" => Some(Lt)
    case "$lte" => Some(Lte)
    case "$like" => Some(Like)
    case _ => None
  }

  function ParseSingle(operator: string, key: string, value: Json): Parsed<StringQuery> {
    if KeyOp(operator).Some? then
      if value.Str? then Ok(Compare(KeyOp(operator).value, key, value.text)) else Err(OperandNotString)
    else if operator == "$in" then
      if !value.Arr? then Err(InNotStrings)
      else
        match ParseStrings(value.items)
        case None => Err(InNotStrings)
        case Some(values) => Ok(In(key, values))
    else Err(UnknownOperator)
  }

  /** Deserialization: an object is a query; an array is the old restriction format, an OR of objects. */
  function Deserialize(v: Json): Parsed<StringQuery> {
    match v
    case Obj(fields) => ParseQuery(fields)
    case Arr(items) =>
      (match Restrictions(items)
       case None => Err(RestrictionInvalid)
       case Some(kept) => ParseQuery([Field("$or", Arr(kept))]))
    case _ => Err(NotObjectOrArray)
  }

  /** Null members are dropped from each restriction, and empty restrictions from the list. */
  function Restrictions(items: seq<Json>): Option<seq<Json>> {
    if items == [] then Some([])
    else if !items[0].Obj? then None
    else
      match Restrictions(items[1..])
      case None => None
      case Some(rest) =>
        var kept := NonNull(items[0].fields);
        Some((if kept == [] then [] else [Obj(kept)]) + rest)
  }

  function NonNull(fields: seq<Field>): seq<Field> {
    if fields == [] then []
    else (if fields[0].value.Null? then [] else [fields[0]]) + NonNull(fields[1..])
  }

  // ----- which queries are stable -----

  predicate Reserved(name: string) {
    name == "$and" || name == "$or" || name == "$not" || name == "$exist"
  }

  /** No reserved name is compared, and no Or or Exist is empty. */
  predicate Stable(q: StringQuery)
    decreases q, 1
  {
    match q
    case Compare(_, name, _) => !Reserved(name)
    case In(name, _) => !Reserved(name)
    case Exist(names) => names != []
    case And(subs) => AllStable(subs)
    case Or(subs) => subs != [] && AllStable(subs)
    case Not(sub) => Stable(sub)
  }

  predicate AllStable(qs: seq<StringQuery>)
    decreases qs, 0
  {
    qs == [] || (Stable(qs[0]) && AllStable(qs[1..]))
  }

  predicate NoReservedName(q: StringQuery)
    decreases q, 1
  {
    match q
    case Compare(_, name, _) => !Reserved(name)
    case In(name, _) => !Reserved(name)
    case Exist(_) => true
    case And(subs) => NoReservedNames(subs)
    case Or(subs) => NoReservedNames(subs)
    case Not(sub) => NoReservedName(sub)
  }

  predicate NoReservedNames(qs: seq<StringQuery>)
    decreases qs, 0
  {
    qs == [] || (NoReservedName(qs[0]) && NoReservedNames(qs[1..]))
  }

  /** Every empty Or and empty Exist replaced by the empty And. */
  function Settle(q: StringQuery): StringQuery
    decreases q, 1
  {
    match q
    case Exist(names) => if names == [] then And([]) else q
    case And(subs) => And(SettleAll(subs))
    case Or(subs) => if subs == [] then And([]) else Or(SettleAll(subs))
    case Not(sub) => Not(Settle(sub))
    case _ => q
  }

  function SettleAll(qs: seq<StringQuery>): seq<StringQuery>
    decreases qs, 0
  {
    if qs == [] then [] else [Settle(qs[0])] + SettleAll(qs[1..])
  }

  // ----- printing then parsing -----

  /** The parse of a printed query. */
  function Reparse(q: StringQuery): Parsed<StringQuery> {
    ParseQuery(ToValue(q).fields)
  }

  lemma ParseOneField(key: string, value: Json)
    ensures ParseQuery([Field(key, value)]) ==
      match ParseOperator(key, value)
      case Err(e) => Err(e)
      case Ok(None) => Ok(And([]))
      case Ok(Some(q)) => Ok(q)
  {
    var fields := [Field(key, value)];
    assert fields[1..] == [];
    var first := ParseOperator(fields[0].key, fields[0].value);
    if first.Ok? {
      assert ParseFields(fields[1..]) == Ok([]);
      assert (if first.value.Some? then [first.value.value] else []) + []
          == if first.value.Some? then [first.value.value] else [];
    }
  }

  lemma {:induction false} ParseStringsOf(texts: seq<string>)
    ensures ParseStrings(Strings(texts)) == Some(texts)
  {
    if texts != [] {
      ParseStringsOf(texts[1..]);
      assert Strings(texts)[1..] == Strings(texts[1..]);
      assert [texts[0]] + texts[1..] == texts;
    }
  }

  lemma OpKeyRoundTrip(op: CompareOp)
    requires op != Eq
    ensures KeyOp(OpKey(op)) == Some(op)
  {
  }

  lemma OpKeyNotReserved(op: CompareOp)
    requires op != Eq
    ensures !Reserved(OpKey(op))
  {
  }

  /** A comparison or In under an ordinary name reads back; under a reserved name it does not. */
  lemma CompareReparses(op: CompareOp, name: string, value: string)
    ensures Reparse(Compare(op, name, value)) == Ok(Compare(op, name, value)) <==> !Reserved(name)
  {
    if op == Eq {
      ParseOneField(name, Str(value));
    } else {
      var inner := [Field(OpKey(op), Str(value))];
      ParseOneField(name, Obj(inner));
      ParseOneField(OpKey(op), Str(value));
      OpKeyRoundTrip(op);
      OpKeyNotReserved(op);
    }
  }

  lemma InReparses(name: string, values: seq<string>)
    ensures Reparse(In(name, values)) == Ok(In(name, values)) <==> !Reserved(name)
  {
    var list := Arr(Strings(values));
    ParseOneField(name, Single("$in", list));
    ParseOneField("$in", list);
    ParseStringsOf(values);
  }

  lemma ExistReparses(names: seq<string>)
    ensures Reparse(Exist(names)) == Ok(Settle(Exist(names)))
  {
    ParseOneField("$exist", Arr(Strings(names)));
    ParseStringsOf(names);
  }

  /** A printed conjunction reads back from the list of its children. */
  lemma ConjReparses(subs: seq<StringQuery>)
    requires subs != []
    ensures var list := ParseList(ToValues(subs));
      && Reparse(And(subs)) == (if list.Ok? then Ok(And(list.value)) else Err(list.error))
      && Reparse(Or(subs)) == (if list.Ok? then Ok(Or(list.value)) else Err(list.error))
  {
    ParseOneField("$and", Arr(ToValues(subs)));
    ParseOneField("$or", Arr(ToValues(subs)));
  }

  lemma NotReparses(sub: StringQuery)
    ensures Reparse(Not(sub)) == match Reparse(sub) case Ok(q) => Ok(Not(q)) case Err(e) => Err(e)
  {
    ParseOneField("$not", ToValue(sub));
  }

  lemma ParseListCons(first: Json, rest: seq<Json>)
    requires first.Obj?
    ensures ParseList([first] + rest) ==
      match ParseQuery(first.fields)
      case Err(e) => Err(e)
      case Ok(q) => (match ParseList(rest) case Err(e) => Err(e) case Ok(qs) => Ok([q] + qs))
  {
    assert ([first] + rest)[1..] == rest;
  }

  /** For every query without reserved names, parsing what was printed gives the query settled. */
  lemma {:induction false} ReparseSettles(q: StringQuery)
    requires NoReservedName(q)
    ensures Reparse(q) == Ok(Settle(q))
    decreases q, 1
  {
    match q
    case Compare(op, name, value) => CompareReparses(op, name, value);
    case In(name, values) => InReparses(name, values);
    case Exist(names) => ExistReparses(names);
    case And(subs) => if subs != [] { ConjReparses(subs); ReparseAllSettle(subs); }
    case Or(subs) => if subs != [] { ConjReparses(subs); ReparseAllSettle(subs); }
    case Not(sub) => NotReparses(sub); ReparseSettles(sub);
  }

  lemma {:induction false} ReparseAllSettle(qs: seq<StringQuery>)
    requires NoReservedNames(qs)
    ensures ParseList(ToValues(qs)) == Ok(SettleAll(qs))
    decreases qs, 0
  {
    if qs != [] {
      ReparseSettles(qs[0]);
      ReparseAllSettle(qs[1..]);
      ParseListCons(ToValue(qs[0]), ToValues(qs[1..]));
    }
  }

  /** A query survives printing and parsing exactly when it is stable. */
  lemma {:induction false} ReparseExact(q: StringQuery)
    ensures Reparse(q) == Ok(q) <==> Stable(q)
    decreases q, 1
  {
    match q
    case Compare(op, name, value) => CompareReparses(op, name, value);
    case In(name, values) => InReparses(name, values);
    case Exist(names) => ExistReparses(names);
    case And(subs) => if subs != [] { ConjReparses(subs); ReparseAllExact(subs); }
    case Or(subs) => if subs != [] { ConjReparses(subs); ReparseAllExact(subs); }
    case Not(sub) => NotReparses(sub); ReparseExact(sub);
  }

  lemma {:induction false} ReparseAllExact(qs: seq<StringQuery>)
    ensures ParseList(ToValues(qs)) == Ok(qs) <==> AllStable(qs)
    decreases qs, 0
  {
    if qs != [] {
      ReparseExact(qs[0]);
      ReparseAllExact(qs[1..]);
      ParseListCons(ToValue(qs[0]), ToValues(qs[1..]));
      assert qs == [qs[0]] + qs[1..];
      var tail := ParseList(ToValues(qs[1..]));
      var head := Reparse(qs[0]);
      if head.Ok? && tail.Ok? {
        assert ([head.value] + tail.value)[1..] == tail.value;
        assert [head.value] + tail.value == qs ==> head.value == qs[0] && tail.value == qs[1..];
      }
    }
  }

  // ----- whatever the parser accepts is stable -----

  lemma {:induction false} ParsedIsStable(fields: seq<Field>)
    ensures ParseQuery(fields).Ok? ==> Stable(ParseQuery(fields).value)
    decreases fields, 1
  {
    ParsedFieldsAreStable(fields);
    if ParseFields(fields).Ok? {
      var operators := ParseFields(fields).value;
      assert |operators| == 1 ==> Stable(operators[0]);
    }
  }

  lemma {:induction false} ParsedFieldsAreStable(fields: seq<Field>)
    ensures ParseFields(fields).Ok? ==> AllStable(ParseFields(fields).value)
    decreases fields, 0
  {
    if fields != [] {
      ParsedOperatorIsStable(fields[0].key, fields[0].value);
      ParsedFieldsAreStable(fields[1..]);
      if ParseFields(fields).Ok? {
        var first, rest := ParseOperator(fields[0].key, fields[0].value).value, ParseFields(fields[1..]).value;
        assert ParseFields(fields).value[if first.Some? then 1 else 0..] == rest;
      }
    }
  }

  lemma {:induction false} ParsedOperatorIsStable(key: string, value: Json)
    ensures var r := ParseOperator(key, value); r.Ok? && r.value.Some? ==> Stable(r.value.value)
    decreases value, 0
  {
    if (key == "$and" || key == "$or") && value.Arr? {
      ParsedListIsStable(value.items);
    } else if key == "$not" && value.Obj? {
      ParsedIsStable(value.fields);
    } else if key == "$exist" && value.Arr? {
      ParsedStringsLength(value.items);
    }
  }

  lemma {:induction false} ParsedListIsStable(values: seq<Json>)
    ensures var r := ParseList(values); r.Ok? ==> |r.value| == |values| && AllStable(r.value)
    decreases values, 0
  {
    if values != [] && values[0].Obj? {
      ParsedIsStable(values[0].fields);
      ParsedListIsStable(values[1..]);
      if ParseList(values).Ok? {
        assert ParseList(values).value[1..] == ParseList(values[1..]).value;
      }
    }
  }

  lemma {:induction false} ParsedStringsLength(values: seq<Json>)
    ensures ParseStrings(values).Some? ==> |ParseStrings(values).value| == |values|
  {
    if values != [] {
      ParsedStringsLength(values[1..]);
    }
  }

  /** JSON stability: printing an accepted query and reading it again gives exactly that query. */
  lemma JsonStability(v: Json)
    ensures var r := Deserialize(v); r.Ok? ==> Deserialize(ToValue(r.value)) == r
  {
    var r := Deserialize(v);
    if r.Ok? {
      if v.Obj? {
        ParsedIsStable(v.fields);
      } else {
        ParsedIsStable([Field("$or", Arr(Restrictions(v.items).value))]);
      }
      ReparseExact(r.value);
    }
  }

  // ----- the loops of the parser -----

  /** The whole outcome is what is done so far, then the outcome of the rest. */
  ghost predicate Continues<T>(whole: Parsed<seq<T>>, done: seq<T>, rest: Parsed<seq<T>>) {
    if rest.Err? then whole == rest else whole.Ok? && whole.value == done + rest.value
  }

  method ParseQueryLoop(fields: seq<Field>) returns (r: Parsed<StringQuery>)
    ensures r == ParseQuery(fields)
    decreases fields, 1
  {
    var operators: seq<StringQuery> := [];
    assert fields[0..] == fields;
    for i := 0 to |fields|
      invariant Continues(ParseFields(fields), operators, ParseFields(fields[i..]))
    {
      assert fields[i..][0] == fields[i] && fields[i..][1..] == fields[i + 1..];
      var operator := ParseOperatorCall(fields[i].key, fields[i].value);
      if operator.Err? {
        return Err(operator.error);
      }
      if operator.value.Some? {
        operators := operators + [operator.value.value];
      }
    }
    assert fields[|fields|..] == [];
    assert operators + [] == operators && ParseFields(fields).value == operators;
    if |operators| == 1 {
      return Ok(operators[0]);
    }
    return Ok(And(operators));
  }

  /** The dispatch on the key, with the loops where the source has them. */
  method ParseOperatorCall(key: string, value: Json) returns (r: Parsed<Option<StringQuery>>)
    ensures r == ParseOperator(key, value)
    decreases value, 0
  {
    if key == "$and" {
      if !value.Arr? {
        return Err(AndNotArray);
      } else if value.items == [] {
        return Ok(None);
      }
      var operators := ParseListLoop(value.items);
      return if operators.Err? then Err(operators.error) else Ok(Some(And(operators.value)));
    } else if key == "$or" {
      if !value.Arr? {
        return Err(OrNotArray);
      } else if value.items == [] {
        return Ok(None);
      }
      var operators := ParseListLoop(value.items);
      return if operators.Err? then Err(operators.error) else Ok(Some(Or(operators.value)));
    } else if key == "$not" {
      if !value.Obj? {
        return Err(NotNotObject);
      }
      var operator := ParseQueryLoop(value.fields);
      return if operator.Err? then Err(operator.error) else Ok(Some(Not(operator.value)));
    } else if key == "$exist" {
      if value.Str? {
        return Ok(Some(Exist([value.text])));
      } else if !value.Arr? {
        return Err(ExistNotStrings);
      } else if value.items == [] {
        return Ok(None);
      }
      var keys := StringsLoop(value.items);
      return if keys.None? then Err(ExistNotStrings) else Ok(Some(Exist(keys.value)));
    } else if value.Str? {
      return Ok(Some(Compare(Eq, key, value.text)));
    } else if value.Obj? {
      if |value.fields| != 1 {
        return Err(OperatorNotSingle);
      }
      var operator := ParseSingleCall(value.fields[0].key, key, value.fields[0].value);
      return if operator.Err? then Err(operator.error) else Ok(Some(operator.value));
    }
    return Err(UnsupportedValue);
  }

  /** The operator of a one-field object: a comparison with a string, or membership in a list of strings. */
  method ParseSingleCall(operator: string, key: string, value: Json) returns (r: Parsed<StringQuery>)
    ensures r == ParseSingle(operator, key, value)
  {
    var op := KeyOp(operator);
    if op.Some? {
      return if value.Str? then Ok(Compare(op.value, key, value.text)) else Err(OperandNotString);
    } else if operator == "$in" {
      if !value.Arr? {
        return Err(InNotStrings);
      }
      var values := StringsLoop(value.items);
      return if values.None? then Err(InNotStrings) else Ok(In(key, values.value));
    }
    return Err(UnknownOperator);
  }

  method ParseListLoop(values: seq<Json>) returns (r: Parsed<seq<StringQuery>>)
    ensures r == ParseList(values)
    decreases values, 0
  {
    var out: seq<StringQuery> := [];
    assert values[0..] == values;
    for i := 0 to |values|
      invariant Continues(ParseList(values), out, ParseList(values[i..]))
    {
      assert values[i..][0] == values[i] && values[i..][1..] == values[i + 1..];
      if !values[i].Obj? {
        return Err(OperatorsNotObjects);
      }
      var subquery := ParseQueryLoop(values[i].fields);
      if subquery.Err? {
        return Err(subquery.error);
      }
      out := out + [subquery.value];
    }
    assert values[|values|..] == [];
    assert out + [] == out && ParseList(values).value == out;
    return Ok(out);
  }

  method StringsLoop(values: seq<Json>) returns (r: Option<seq<string>>)
    ensures r == ParseStrings(values)
  {
    var out: seq<string> := [];
    assert values[0..] == values;
    for i := 0 to |values|
      invariant var whole, rest := ParseStrings(values), ParseStrings(values[i..]);
        if rest.None? then whole.None? else whole.Some? && whole.value == out + rest.value
    {
      assert values[i..][0] == values[i] && values[i..][1..] == values[i + 1..];
      if !values[i].Str? {
        return None;
      }
      out := out + [values[i].text];
    }
    assert values[|values|..] == [];
    assert out + [] == out && ParseStrings(values).value == out;
    return Some(out);
  }
}
