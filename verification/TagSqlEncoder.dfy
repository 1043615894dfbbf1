/** The stateful encoder: it emits SQL text while pushing onto its argument list. */
module TagSqlEncoding {
  import opened Prelude
  import opened Wql
  import opened TagSql
  import opened SqlFormat

  datatype EncodeError = EncryptionFailed

  /** Texts joined by a separator. */
  function Joined(texts: seq<string>, separator: string): string {
    if texts == [] then ""
    else if |texts| == 1 then texts[0]
    else Joined(texts[..|texts| - 1], separator) + separator + texts[|texts| - 1]
  }

  function ClauseTexts(cls: seq<Clause>, t: Wording): (r: seq<string>)
    ensures |r| == |cls|
  {
    if cls == [] then [] else ClauseTexts(cls[..|cls| - 1], t) + [ClauseText(cls[|cls| - 1], t)]
  }

  lemma ClauseTextsSnoc(cls: seq<Clause>, last: Clause, t: Wording)
    ensures ClauseTexts(cls + [last], t) == ClauseTexts(cls, t) + [ClauseText(last, t)]
  {
    assert (cls + [last])[..|cls|] == cls;
  }

  lemma JoinedGrows(texts: seq<string>, n: nat, separator: string)
    requires n < |texts|
    ensures Joined(texts[..n + 1], separator)
         == if n == 0 then texts[0] else Joined(texts[..n], separator) + separator + texts[n]
  {
    assert texts[..n + 1][..n] == texts[..n];
  }

  lemma {:induction false} JoinedIsText(cls: seq<Clause>, join: ConjunctionOp, t: Wording)
    ensures Joined(ClauseTexts(cls, t), t(JoinedBy(join))) == JoinedText(cls, join, t)
  {
    if |cls| == 1 {
      assert cls[..0] == [];
    } else if |cls| > 1 {
      var front, last := cls[..|cls| - 1], cls[|cls| - 1];
      TakeOneMore(cls, |cls| - 1);
      assert cls[..|cls|] == cls;
      JoinedIsText(front, join, t);
      JoinedTextSnoc(front, last, join, t);
      var texts := ClauseTexts(cls, t);
      assert texts[..|texts| - 1] == ClauseTexts(front, t);
    }
  }

  // ----- which queries can be encoded -----

  predicate EncodableName(c: Codec, name: TagName) {
    c.encName(name.text).Some?
  }

  predicate AllEncodableNames(c: Codec, names: seq<TagName>) {
    names == [] || (EncodableName(c, names[0]) && AllEncodableNames(c, names[1..]))
  }

  predicate EncodableValue(c: Codec, value: string, plaintext: bool) {
    plaintext || c.encValue(value).Some?
  }

  predicate Encodable(c: Codec, q: TagQuery)
    decreases q, 1
  {
    match q
    case Compare(_, name, value) => EncodableName(c, name) && EncodableValue(c, value, name.Plaintext?)
    case In(name, values) => EncodableName(c, name) && forall v | v in values :: EncodableValue(c, v, name.Plaintext?)
    case Exist(names) => AllEncodableNames(c, names)
    case And(subs) => AllEncodable(c, subs)
    case Or(subs) => AllEncodable(c, subs)
    case Not(sub) => Encodable(c, sub)
  }

  predicate AllEncodable(c: Codec, qs: seq<TagQuery>)
    decreases qs, 0
  {
    qs == [] || (Encodable(c, qs[0]) && AllEncodable(c, qs[1..]))
  }

  function TextOpt(cl: Option<Clause>, t: Wording): Option<string> {
    if cl.Some? then Some(ClauseText(cl.value, t)) else None
  }

  lemma TakeOneMore<T>(s: seq<T>, i: nat)
    requires i < |s|
    ensures s[..i + 1] == s[..i] + [s[i]]
  {
  }

  /** Moving one compiled child from what is left to what is done. */
  lemma PrependStep(parts: seq<Clause>, args: seq<Bytes>, first: Compiled, rest: CompiledList)
    ensures parts + Prepend(first, rest).parts
         == (if first.clause.Some? then parts + [first.clause.value] else parts) + rest.parts
    ensures args + Prepend(first, rest).args == (args + first.args) + rest.args
  {
  }

  // ----- what an encoding that fails has pushed -----

  ghost function Pushed(c: Codec, q: TagQuery, negate: bool, at: nat): seq<Bytes>
    decreases q, 1
  {
    match q
    case And(subs) => PushedAll(c, subs, negate, at)
    case Or(subs) => PushedAll(c, subs, negate, at)
    case Not(sub) => Pushed(c, sub, !negate, at)
    case Exist(names) => PushedNames(c, names)
    case _ => if Encodable(c, q) then Compile(c, q, negate, at).args else []
  }

  /** All of the subqueries before the one that fails, and what that one pushed. */
  ghost function PushedAll(c: Codec, qs: seq<TagQuery>, negate: bool, at: nat): seq<Bytes>
    decreases qs, 0
  {
    if qs == [] then []
    else if !Encodable(c, qs[0]) then Pushed(c, qs[0], negate, at)
    else
      var first := Compile(c, qs[0], negate, at).args;
      first + PushedAll(c, qs[1..], negate, at + |first|)
  }

  ghost function PushedNames(c: Codec, names: seq<TagName>): seq<Bytes> {
    if names == [] || !EncodableName(c, names[0]) then [] else [c.NameArg(names[0])] + PushedNames(c, names[1..])
  }

  lemma PushedUnfolds(c: Codec, qs: seq<TagQuery>, negate: bool, at: nat, i: nat, args: seq<Bytes>)
    requires i < |qs|
    ensures Encodable(c, qs[i]) ==>
      var first := Compile(c, qs[i], negate, at).args;
      args + PushedAll(c, qs[i..], negate, at) == args + first + PushedAll(c, qs[i + 1..], negate, at + |first|)
    ensures !Encodable(c, qs[i]) ==> PushedAll(c, qs[i..], negate, at) == Pushed(c, qs[i], negate, at)
  {
    assert qs[i..][0] == qs[i] && qs[i..][1..] == qs[i + 1..];
    if Encodable(c, qs[i]) {
      var first := Compile(c, qs[i], negate, at).args;
      AppendAssociative(args, first, PushedAll(c, qs[i + 1..], negate, at + |first|));
    }
  }

  lemma PushedNamesUnfolds(c: Codec, names: seq<TagName>, i: nat, args: seq<Bytes>)
    requires i < |names|
    ensures EncodableName(c, names[i]) ==>
      args + PushedNames(c, names[i..]) == args + [c.NameArg(names[i])] + PushedNames(c, names[i + 1..])
    ensures !EncodableName(c, names[i]) ==> args + PushedNames(c, names[i..]) == args
  {
    assert names[i..][0] == names[i] && names[i..][1..] == names[i + 1..];
    AppendAssociative(args, [c.NameArg(names[i])], PushedNames(c, names[i + 1..]));
  }

  /** What was pushed so far and what is still to come make up the whole. */
  ghost predicate Progress(before: seq<Bytes>, all: CompiledList, args: seq<Bytes>, parts: seq<Clause>,
                           todo: CompiledList)
  {
    all.parts == parts + todo.parts && before + all.args == args + todo.args
  }

  lemma ProgressStep(before: seq<Bytes>, all: CompiledList, args: seq<Bytes>, parts: seq<Clause>, first: Compiled,
                     rest: CompiledList)
    requires Progress(before, all, args, parts, Prepend(first, rest))
    ensures Progress(before, all, args + first.args,
                     if first.clause.Some? then parts + [first.clause.value] else parts, rest)
  {
    PrependStep(parts, args, first, rest);
  }

  lemma ProgressEnds(before: seq<Bytes>, all: CompiledList, args: seq<Bytes>, parts: seq<Clause>)
    requires Progress(before, all, args, parts, CompiledList([], []))
    ensures parts == all.parts && args == before + all.args
  {
  }

  lemma SubqueriesUnfold(c: Codec, qs: seq<TagQuery>, negate: bool, at: nat, i: nat)
    requires i < |qs|
    ensures var first := Compile(c, qs[i], negate, at);
      CompileAll(c, qs[i..], negate, at) == Prepend(first, CompileAll(c, qs[i + 1..], negate, at + |first.args|))
    ensures AllEncodable(c, qs[i..]) <==> Encodable(c, qs[i]) && AllEncodable(c, qs[i + 1..])
  {
    assert qs[i..][0] == qs[i] && qs[i..][1..] == qs[i + 1..];
  }

  lemma NamesUnfold(c: Codec, names: seq<TagName>, negate: bool, at: nat, idx: nat)
    requires idx < |names|
    ensures CompileNames(c, names[idx..], negate, at)
         == Prepend(CompileName(c, names[idx], negate, at), CompileNames(c, names[idx + 1..], negate, at + 1))
    ensures AllEncodableNames(c, names[idx..])
        <==> AllEncodableNames(c, [names[idx]]) && AllEncodableNames(c, names[idx + 1..])
  {
    assert names[idx..][0] == names[idx] && names[idx..][1..] == names[idx + 1..];
  }

  /** The loop over names after idx of them. */
  ghost predicate NamesDone(c: Codec, t: Wording, names: seq<TagName>, negate: bool, idx: nat, before: seq<Bytes>,
                            all: CompiledList, pushed: seq<Bytes>, args: seq<Bytes>, parts: seq<Clause>,
                            cs: seq<string>)
  {
    && idx <= |names| && AllEncodableNames(c, names) == AllEncodableNames(c, names[idx..])
    && cs == ClauseTexts(parts, t)
    && Progress(before, all, args, parts, CompileNames(c, names[idx..], negate, |args|))
    && pushed == args + PushedNames(c, names[idx..])
  }

  lemma NamesTurn(c: Codec, t: Wording, names: seq<TagName>, negate: bool, idx: nat, before: seq<Bytes>,
                  all: CompiledList, pushed: seq<Bytes>, args: seq<Bytes>, parts: seq<Clause>, cs: seq<string>)
    requires idx < |names| && NamesDone(c, t, names, negate, idx, before, all, pushed, args, parts, cs)
    ensures EncodableName(c, names[idx]) ==>
      var first := CompileName(c, names[idx], negate, |args|);
      NamesDone(c, t, names, negate, idx + 1, before, all, pushed, args + first.args,
                parts + [first.clause.value], cs + [ClauseText(first.clause.value, t)])
    ensures !EncodableName(c, names[idx]) ==> !AllEncodableNames(c, names) && args == pushed
  {
    var first := CompileName(c, names[idx], negate, |args|);
    var rest := CompileNames(c, names[idx + 1..], negate, |args| + 1);
    NamesUnfold(c, names, negate, |args|, idx);
    PushedNamesUnfolds(c, names, idx, args);
    ProgressStep(before, all, args, parts, first, rest);
    ClauseTextsSnoc(parts, first.clause.value, t);
    assert |args + first.args| == |args| + 1;
  }

  /** The loop over subqueries after i of them. */
  ghost predicate SubqueriesDone(c: Codec, t: Wording, qs: seq<TagQuery>, negate: bool, i: nat, before: seq<Bytes>,
                                 all: CompiledList, pushed: seq<Bytes>, args: seq<Bytes>, parts: seq<Clause>,
                                 cs: seq<string>)
  {
    && i <= |qs| && AllEncodable(c, qs) == AllEncodable(c, qs[i..])
    && cs == ClauseTexts(parts, t)
    && Progress(before, all, args, parts, CompileAll(c, qs[i..], negate, |args|))
    && pushed == args + PushedAll(c, qs[i..], negate, |args|)
  }

  /** One turn: a subquery that can be encoded adds its arguments and its clause, if it has one. */
  lemma SubqueriesTurn(c: Codec, t: Wording, qs: seq<TagQuery>, negate: bool, i: nat, before: seq<Bytes>,
                       all: CompiledList, pushed: seq<Bytes>, args: seq<Bytes>, parts: seq<Clause>, cs: seq<string>)
    requires i < |qs| && SubqueriesDone(c, t, qs, negate, i, before, all, pushed, args, parts, cs)
    ensures Encodable(c, qs[i]) ==>
      var first := Compile(c, qs[i], negate, |args|);
      SubqueriesDone(c, t, qs, negate, i + 1, before, all, pushed, args + first.args,
                     if first.clause.Some? then parts + [first.clause.value] else parts,
                     if first.clause.Some? then cs + [ClauseText(first.clause.value, t)] else cs)
    ensures !Encodable(c, qs[i]) ==>
      !AllEncodable(c, qs) && pushed == args + Pushed(c, qs[i], negate, |args|)
  {
    PushedUnfolds(c, qs, negate, |args|, i, args);
    SubqueriesUnfold(c, qs, negate, |args|, i);
    if Encodable(c, qs[i]) {
      TurnDone(c, t, qs, negate, i, before, all, pushed, args, parts, cs, Compile(c, qs[i], negate, |args|));
    }
  }

  lemma TurnDone(c: Codec, t: Wording, qs: seq<TagQuery>, negate: bool, i: nat, before: seq<Bytes>,
                 all: CompiledList, pushed: seq<Bytes>, args: seq<Bytes>, parts: seq<Clause>, cs: seq<string>,
                 first: Compiled)
    requires i < |qs| && AllEncodable(c, qs) == AllEncodable(c, qs[i + 1..]) && cs == ClauseTexts(parts, t)
    requires var next := |args| + |first.args|;
      && Progress(before, all, args, parts, Prepend(first, CompileAll(c, qs[i + 1..], negate, next)))
      && pushed == args + first.args + PushedAll(c, qs[i + 1..], negate, next)
    ensures SubqueriesDone(c, t, qs, negate, i + 1, before, all, pushed, args + first.args,
                           if first.clause.Some? then parts + [first.clause.value] else parts,
                           if first.clause.Some? then cs + [ClauseText(first.clause.value, t)] else cs)
  {
    ProgressStep(before, all, args, parts, first, CompileAll(c, qs[i + 1..], negate, |args| + |first.args|));
    if first.clause.Some? {
      ClauseTextsSnoc(parts, first.clause.value, t);
    }
  }

  class TagSqlEncoder {
    const codec: Codec
    const wording: Wording
    var arguments: seq<Bytes>

    constructor (codec: Codec)
      ensures this.codec == codec && wording == WordsText && arguments == []
    {
      this.codec := codec;
      wording := WordsText;
      arguments := [];
    }

    method EncodeName(name: TagName) returns (r: Option<Bytes>)
      ensures r.Some? <==> EncodableName(codec, name)
      ensures r.Some? ==> r.value == codec.NameArg(name)
    {
      r := codec.encName(name.text);
    }

    method EncodeValue(value: string, plaintext: bool) returns (r: Option<Bytes>)
      ensures r.Some? <==> EncodableValue(codec, value, plaintext)
      ensures r.Some? ==> r.value == codec.ValueArg(value, plaintext)
    {
      r := if plaintext then Some(codec.utf8(value)) else codec.encValue(value);
    }

    method EncodeOpClause(op: CompareOp, encName: Bytes, encValue: Bytes, plaintext: bool, negate: bool)
        returns (query: string, ghost prefixed: bool)
      modifies this`arguments
      ensures prefixed == (!plaintext && PrefixOp(op).Some? && |encValue| > NONCE_PREFIX)
      ensures query == ClauseText(OpClause(negate, op, prefixed, plaintext, |old(arguments)|), wording)
      ensures arguments == old(arguments) + [encName, encValue] + if prefixed then [encValue[..NONCE_PREFIX]] else []
    {
      var idx := |arguments|;
      var opPrefix := "";
      var matchPrefix: Option<Bytes> := None;
      prefixed := false;
      if !plaintext && PrefixOp(op).Some? && |encValue| > NONCE_PREFIX {
        matchPrefix := Some(encValue[..NONCE_PREFIX]);
        opPrefix := FormatPrefix(PrefixOp(op).value, idx, wording);
        prefixed := true;
      }
      arguments := arguments + [encName];
      arguments := arguments + [encValue];
      if matchPrefix.Some? {
        arguments := arguments + [matchPrefix.value];
      }
      query := FormatOp(negate, op, opPrefix, plaintext, idx, wording);
    }

    method EncodeInClause(encName: Bytes, encValues: seq<Bytes>, plaintext: bool, negate: bool) returns (query: string)
      modifies this`arguments
      ensures query == ClauseText(InClause(negate, plaintext, |encValues|, |old(arguments)|), wording)
      ensures arguments == old(arguments) + [encName] + encValues
    {
      query := FormatIn(negate, Dollars(|encValues|, wording), plaintext, wording);
      arguments := arguments + [encName];
      arguments := arguments + encValues;
    }

    method EncodeExistClause(encName: Bytes, plaintext: bool, negate: bool) returns (query: string)
      modifies this`arguments
      ensures query == ClauseText(ExistClause(negate, plaintext, |old(arguments)|), wording)
      ensures arguments == old(arguments) + [encName]
    {
      query := FormatExist(negate, plaintext, wording);
      arguments := arguments + [encName];
    }

    method EncodeConjClause(op: ConjunctionOp, clauses: seq<string>, ghost parts: seq<Clause>)
        returns (r: Option<string>)
      requires clauses == ClauseTexts(parts, wording)
      ensures r == TextOpt(ConjClause(op, parts), wording)
    {
      var qc := |clauses|;
      if qc == 0 {
        if op == ConjOr {
          return Some(wording(False));
        }
        return None;
      }
      var s := JoinClauses(clauses, wording(JoinedBy(op)), wording(OpenBracket), wording(CloseBracket));
      JoinedIsText(parts, op, wording);
      return Some(s);
    }

    /** The text-building loop of encode_conj_clause. */
    static method JoinClauses(clauses: seq<string>, separator: string, left: string, right: string) returns (s: string)
      ensures s == if |clauses| > 1 then left + Joined(clauses, separator) + right else Joined(clauses, separator)
    {
      var qc := |clauses|;
      s := "";
      if qc > 1 {
        s := s + left;
      }
      ghost var front := s;
      for index := 0 to qc
        invariant s == front + Joined(clauses[..index], separator)
      {
        JoinedGrows(clauses, index, separator);
        if index > 0 {
          s := s + separator;
        }
        s := s + clauses[index];
      }
      assert clauses[..qc] == clauses;
      if qc > 1 {
        s := s + right;
      }
    }

    method EncodeTagIn(name: TagName, values: seq<string>, negate: bool)
        returns (r: Result<Option<string>, EncodeError>)
      modifies this`arguments
      ensures r.Ok? <==> Encodable(codec, In(name, values))
      ensures var k := CompileIn(codec, name, values, negate, |old(arguments)|);
        r.Ok? ==> arguments == old(arguments) + k.args && r.value == TextOpt(k.clause, wording)
      ensures r.Err? ==> arguments == old(arguments)
    {
      var plaintext := name.Plaintext?;
      var encName := EncodeName(name);
      if encName.None? {
        return Err(EncryptionFailed);
      }
      var encValues: seq<Bytes> := [];
      for i := 0 to |values|
        invariant |encValues| == i && arguments == old(arguments)
        invariant forall j | 0 <= j < i ::
          EncodableValue(codec, values[j], plaintext) && encValues[j] == codec.ValueArg(values[j], plaintext)
      {
        var v := EncodeValue(values[i], plaintext);
        if v.None? {
          return Err(EncryptionFailed);
        }
        encValues := encValues + [v.value];
      }
      assert encValues == ValueArgs(codec, values, plaintext);
      ghost var before := arguments;
      assert before + [encName.value] + encValues == before + ([encName.value] + encValues);
      var text := EncodeInClause(encName.value, encValues, plaintext, negate);
      return Ok(Some(text));
    }

    method EncodeTagExist(names: seq<TagName>, negate: bool) returns (r: Result<Option<string>, EncodeError>)
      modifies this`arguments
      ensures r.Ok? <==> Encodable(codec, Exist(names))
      ensures var k := CompileExist(codec, names, negate, |old(arguments)|);
        r.Ok? ==> arguments == old(arguments) + k.args && r.value == TextOpt(k.clause, wording)
      ensures r.Err? ==> arguments == old(arguments) + PushedNames(codec, names)
    {
      if |names| == 0 {
        return Ok(None);
      } else if |names| == 1 {
        assert names[1..] == [] && AllEncodableNames(codec, names) == EncodableName(codec, names[0]);
        var text := EncodeOneName(names[0], negate, CompileName(codec, names[0], negate, |arguments|));
        return if text.Some? then Ok(text) else Err(EncryptionFailed);
      }
      r := EncodeNames(names, negate);
    }

    /** encode_tag_exist on two or more names. */
    method EncodeNames(names: seq<TagName>, negate: bool) returns (r: Result<Option<string>, EncodeError>)
      modifies this`arguments
      ensures r.Ok? <==> AllEncodableNames(codec, names)
      ensures var k := CompileNames(codec, names, negate, |old(arguments)|);
        r.Ok? ==> arguments == old(arguments) + k.args && r.value == TextOpt(ConjClause(ConjAnd, k.parts), wording)
      ensures r.Err? ==> arguments == old(arguments) + PushedNames(codec, names)
    {
      var cs: seq<string> := [];
      ghost var all := CompileNames(codec, names, negate, |arguments|);
      ghost var pushed := arguments + PushedNames(codec, names);
      assert names[0..] == names;
      ghost var parts: seq<Clause> := [];
      for idx := 0 to |names|
        invariant NamesDone(codec, wording, names, negate, idx, old(arguments), all, pushed, arguments, parts, cs)
      {
        NamesTurn(codec, wording, names, negate, idx, old(arguments), all, pushed, arguments, parts, cs);
        ghost var first := CompileName(codec, names[idx], negate, |arguments|);
        var text := EncodeOneName(names[idx], negate, first);
        if text.None? {
          return Err(EncryptionFailed);
        }
        cs := cs + [text.value];
        parts := parts + [first.clause.value];
      }
      assert names[|names|..] == [];
      ProgressEnds(old(arguments), all, arguments, parts);
      var text := EncodeConjClause(ConjAnd, cs, parts);
      return Ok(text);
    }

    /** encode_tag_exist on a single name. */
    method EncodeOneName(name: TagName, negate: bool, ghost k: Compiled) returns (r: Option<string>)
      requires k == CompileName(codec, name, negate, |arguments|)
      modifies this`arguments
      ensures r.Some? <==> EncodableName(codec, name)
      ensures r.Some? ==> arguments == old(arguments) + k.args && r.value == ClauseText(k.clause.value, wording)
      ensures r.Some? ==> |arguments| == |old(arguments)| + 1
      ensures r.None? ==> arguments == old(arguments)
    {
      var encName := EncodeName(name);
      if encName.None? {
        return None;
      }
      var text := EncodeExistClause(encName.value, name.Plaintext?, negate);
      return Some(text);
    }

    method EncodeTagOp(op: CompareOp, name: TagName, value: string, negate: bool)
        returns (r: Result<Option<string>, EncodeError>)
      modifies this`arguments
      ensures r.Ok? <==> Encodable(codec, Compare(op, name, value))
      ensures var k := CompileCompare(codec, op, name, value, negate, |old(arguments)|);
        r.Ok? ==> arguments == old(arguments) + k.args && r.value == TextOpt(k.clause, wording)
      ensures r.Err? ==> arguments == old(arguments)
    {
      var encName := EncodeName(name);
      if encName.None? {
        return Err(EncryptionFailed);
      }
      var encValue := EncodeValue(value, name.Plaintext?);
      if encValue.None? {
        return Err(EncryptionFailed);
      }
      var text, prefixed := EncodeOpClause(op, encName.value, encValue.value, name.Plaintext?, negate);
      return Ok(Some(text));
    }

    method EncodeTagConj(op: ConjunctionOp, subqueries: seq<TagQuery>, negate: bool)
        returns (r: Result<Option<string>, EncodeError>)
      modifies this`arguments
      ensures r.Ok? <==> AllEncodable(codec, subqueries)
      ensures var k := CompileAll(codec, subqueries, negate, |old(arguments)|);
        && (r.Ok? ==> && arguments == old(arguments) + k.args
                      && r.value == TextOpt(ConjClause(Effective(op, negate), k.parts), wording))
        && (r.Err? ==> arguments == old(arguments) + PushedAll(codec, subqueries, negate, |old(arguments)|))
      decreases subqueries, 0
    {
      var eff := if negate then op.Negate() else op;
      var clauses: seq<string> := [];
      ghost var all := CompileAll(codec, subqueries, negate, |arguments|);
      ghost var pushed := arguments + PushedAll(codec, subqueries, negate, |arguments|);
      assert subqueries[0..] == subqueries;
      ghost var parts: seq<Clause> := [];
      for i := 0 to |subqueries|
        invariant SubqueriesDone(codec, wording, subqueries, negate, i, old(arguments), all, pushed, arguments,
                                 parts, clauses)
      {
        SubqueriesTurn(codec, wording, subqueries, negate, i, old(arguments), all, pushed, arguments, parts, clauses);
        ghost var first := Compile(codec, subqueries[i], negate, |arguments|);
        var clause := EncodeTagQuery(subqueries[i], negate);
        if clause.Err? {
          return Err(clause.error);
        }
        if clause.value.Some? {
          clauses := clauses + [clause.value.value];
          parts := parts + [first.clause.value];
        }
      }
      assert subqueries[|subqueries|..] == [];
      ProgressEnds(old(arguments), all, arguments, parts);
      var text := EncodeConjClause(eff, clauses, parts);
      return Ok(text);
    }

    /**
     * The emitted text is the compiled clause's text and the pushed arguments are the compiled
     * arguments; encoding fails exactly when some name or value cannot be encrypted.
     */
    method EncodeTagQuery(query: TagQuery, negate: bool) returns (r: Result<Option<string>, EncodeError>)
      modifies this`arguments
      ensures r.Ok? <==> Encodable(codec, query)
      ensures var k := Compile(codec, query, negate, |old(arguments)|);
        r.Ok? ==> arguments == old(arguments) + k.args && r.value == TextOpt(k.clause, wording)
      ensures r.Err? ==> arguments == old(arguments) + Pushed(codec, query, negate, |old(arguments)|)
      decreases query, 1
    {
      match query
      case Compare(op, name, value) => r := EncodeTagOp(op, name, value, negate);
      case In(name, values) => r := EncodeTagIn(name, values, negate);
      case Exist(names) => r := EncodeTagExist(names, negate);
      case And(subs) => r := EncodeTagConj(ConjAnd, subs, negate);
      case Or(subs) => r := EncodeTagConj(ConjOr, subs, negate);
      case Not(sub) => r := EncodeTagQuery(sub, !negate);
    }
  }
}
