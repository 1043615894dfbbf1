/** Reading the final text of a filter as SQL, character by character. */
module SqlReader {
  import opened Prelude
  import opened Wql
  import opened TagSql
  import opened SqlText

  // ----- what a test in the text says -----

  /** A comparison of the first twelve bytes of a value with argument number `arg`, counting from 0. */
  datatype PrefixCheck = PrefixCheck(op: CompareOp, arg: nat)

  datatype ValueCheck =
    | AnyValue
    | Among(first: nat, count: nat)
    | Compared(op: CompareOp, arg: nat, prefix: Option<PrefixCheck>)

  /** `0`, or whether the item is (or is not) among those with a tag of that name, value and kind. */
  datatype Check = Never | InTags(negate: bool, name: nat, value: ValueCheck, plaintext: bool)

  ghost predicate RowPasses(check: Check, args: seq<Bytes>, r: Row, like: LikeFn)
    requires check.InTags?
  {
    && r.name == Arg(args, check.name)
    && r.plaintext == check.plaintext
    && match check.value
       case AnyValue => true
       case Among(first, count) => exists n :: first <= n < first + count && r.value == Arg(args, n)
       case Compared(op, arg, prefix) =>
         && SqlCompare(op, r.value, Arg(args, arg), like)
         && (prefix.Some? ==> SqlCompare(prefix.value.op, Prefix(r.value, 12), Arg(args, prefix.value.arg), like))
  }

  ghost predicate CheckHolds(check: Check, args: seq<Bytes>, table: set<Row>, item: int, like: LikeFn) {
    check.InTags? && (exists r :: r in table && r.item == item && RowPasses(check, args, r, like)) != check.negate
  }

  ghost function CheckTruth(args: seq<Bytes>, table: set<Row>, item: int, like: LikeFn): Check -> bool {
    check => CheckHolds(check, args, table, item, like)
  }

  /** How many placeholders a test has. */
  function Marks(check: Check): nat {
    if check.Never? then 0
    else
      match check.value
      case AnyValue => 1
      case Among(_, count) => 1 + count
      case Compared(_, _, prefix) => if prefix.Some? then 3 else 2
  }

  function AllMarks(ts: seq<Tok<Check>>): nat {
    if ts == [] then 0 else NextArgument(AllMarks(ts[1..]), ts[0])
  }

  // ----- the vocabulary -----

  /** The words that are read. */
  datatype Lexicon = Lexicon(
    open: string,
    close: string,
    zero: string,
    one: string,
    and: string,
    or: string,
    item: string,
    not: string,
    among: string,
    value: string,
    list: string,
    comma: string,
    prefix: string,
    plaintext: string,
    symbol: CompareOp -> string)

  /** The vocabulary of a tag filter. */
  const SQL := Lexicon(
    "(",
    ")",
    "0",
    "1",
    " AND ",
    " OR ",
    "i.id ",
    "NOT ",
    "IN" + " (SELECT item_id FROM " + "items_tags WHERE name = ",
    "value ",
    "IN (",
    ", ",
    "SUBSTR(value, 1, 12) ",
    "plaintext = ",
    Symbol)

  function Symbol(op: CompareOp): string {
    match op
    case Eq => "= "
    case Neq => "!= "
    case Lt => "< "
    case Lte => "<= "
    case Gt => "> "
    case Gte => ">= "
    case Like => "LIKE "
  }

  // ----- the reader -----

  /** Something read, and the text behind it. */
  datatype Part<+T> = Part(what: T, rest: string)

  /** The text behind the given word. */
  function Strip(s: string, word: string): (r: Option<string>)
    ensures r.Some? ==> s == word + r.value
  {
    if word <= s then Some(s[|word|..]) else None
  }

  function StripBoth(s: string, word: string, next: string): (r: Option<string>)
    ensures r.Some? ==> s == word + next + r.value
  {
    var after := Strip(s, word);
    if after.None? then None else Strip(after.value, next)
  }

  function ReadOp(s: string, x: Lexicon): (r: Option<Part<CompareOp>>)
    ensures r.Some? ==> |r.value.rest| <= |s|
  {
    if x.symbol(Eq) <= s then Some(Part(Eq, s[|x.symbol(Eq)|..]))
    else if x.symbol(Neq) <= s then Some(Part(Neq, s[|x.symbol(Neq)|..]))
    else if x.symbol(Lt) <= s then Some(Part(Lt, s[|x.symbol(Lt)|..]))
    else if x.symbol(Lte) <= s then Some(Part(Lte, s[|x.symbol(Lte)|..]))
    else if x.symbol(Gt) <= s then Some(Part(Gt, s[|x.symbol(Gt)|..]))
    else if x.symbol(Gte) <= s then Some(Part(Gte, s[|x.symbol(Gte)|..]))
    else if x.symbol(Like) <= s then Some(Part(Like, s[|x.symbol(Like)|..]))
    else None
  }

  /** A symbol, a placeholder and the connective to the next test. */
  function ReadComparison(s: string, x: Lexicon, mark: string): (r: Option<Part<CompareOp>>)
    ensures r.Some? ==> |r.value.rest| <= |s|
  {
    var op := ReadOp(s, x);
    if op.None? then None
    else
      var after := StripBoth(op.value.rest, mark, x.and);
      if after.None? then None else Some(Part(op.value.what, after.value))
  }

  /** The rest of a comparison whose value is argument n, with its prefix test if there is one. */
  function ReadCompared(s: string, n: nat, x: Lexicon, mark: nat -> string): (r: Option<Part<ValueCheck>>)
    ensures r.Some? ==> |r.value.rest| <= |s|
  {
    var full := ReadComparison(s, x, mark(n));
    if full.None? then None
    else
      var op, rest := full.value.what, full.value.rest;
      var prefixed := Strip(rest, x.prefix);
      if prefixed.None? then Some(Part(Compared(op, n, None), rest))
      else
        var front := ReadComparison(prefixed.value, x, mark(n + 1));
        if front.None? then None
        else Some(Part(Compared(op, n, Some(PrefixCheck(front.value.what, n + 1))), front.value.rest))
  }

  /** The number of placeholders up to the end of the list, at least one. */
  function ReadItems(s: string, n: nat, x: Lexicon, mark: nat -> string): (r: Option<Part<nat>>)
    ensures r.Some? ==> |r.value.rest| <= |s|
    decreases |s|
  {
    var after := Strip(s, mark(n));
    if after.None? then None
    else
      var end, comma := Strip(after.value, x.close), Strip(after.value, x.comma);
      if end.Some? then Some(Part(1, end.value))
      else if comma.None? || |comma.value| == |s| then None
      else
        var more := ReadItems(comma.value, n + 1, x, mark);
        if more.None? then None else Some(Part(1 + more.value.what, more.value.rest))
  }

  function ReadList(s: string, n: nat, x: Lexicon, mark: nat -> string): (r: Option<Part<nat>>)
    ensures r.Some? ==> |r.value.rest| <= |s|
  {
    var end := Strip(s, x.close);
    if end.Some? then Some(Part(0, end.value)) else ReadItems(s, n, x, mark)
  }

  /** The test on the value, if there is one, with the connective behind it; its arguments start at n. */
  function ReadValue(s: string, n: nat, x: Lexicon, mark: nat -> string): (r: Option<Part<ValueCheck>>)
    ensures r.Some? ==> |r.value.rest| <= |s|
  {
    var value := Strip(s, x.value);
    if value.None? then Some(Part(AnyValue, s))
    else
      var list := Strip(value.value, x.list);
      if list.None? then ReadCompared(value.value, n, x, mark)
      else
        var items := ReadList(list.value, n, x, mark);
        if items.None? then None
        else
          var after := Strip(items.value.rest, x.and);
          if after.None? then None else Some(Part(Among(n, items.value.what), after.value))
  }

  /** The kind of tag and the end of the subselect. */
  function ReadKind(s: string, x: Lexicon): (r: Option<Part<bool>>)
    ensures r.Some? ==> |r.value.rest| <= |s|
  {
    var flag := Strip(s, x.plaintext);
    if flag.None? then None
    else
      var yes, no := StripBoth(flag.value, x.one, x.close), StripBoth(flag.value, x.zero, x.close);
      if yes.Some? then Some(Part(true, yes.value)) else if no.Some? then Some(Part(false, no.value)) else None
  }

  /** What a subselect asks of a row; its arguments start at n. */
  function ReadSubselect(s: string, negate: bool, n: nat, x: Lexicon, mark: nat -> string): (r: Option<Part<Check>>)
    ensures r.Some? ==> |r.value.rest| <= |s|
  {
    var name := StripBoth(s, mark(n), x.and);
    if name.None? then None
    else
      var value := ReadValue(name.value, n + 1, x, mark);
      if value.None? then None
      else
        var kind := ReadKind(value.value.rest, x);
        if kind.None? then None else Some(Part(InTags(negate, n, value.value.what, kind.value.what), kind.value.rest))
  }

  function ReadCheck(s: string, n: nat, x: Lexicon, mark: nat -> string): (r: Option<Part<Check>>)
    ensures r.Some? ==> |r.value.rest| <= |s|
  {
    var item := Strip(s, x.item);
    if item.None? then None
    else
      var not := Strip(item.value, x.not);
      var among := Strip(if not.Some? then not.value else item.value, x.among);
      if among.None? then None else ReadSubselect(among.value, not.Some?, n, x, mark)
  }

  /** One bracket or connective, or `0`. */
  function ReadSign(s: string, x: Lexicon): (r: Option<Part<Tok<Check>>>) {
    if x.open <= s then Some(Part(Open, s[|x.open|..]))
    else if x.close <= s then Some(Part(Close, s[|x.close|..]))
    else if x.zero <= s then Some(Part(Atom(Never), s[|x.zero|..]))
    else if x.and <= s then Some(Part(AndWord, s[|x.and|..]))
    else if x.or <= s then Some(Part(OrWord, s[|x.or|..]))
    else None
  }

  /** The sign read, or else the test. */
  function SignOrTest(sign: Option<Part<Tok<Check>>>, check: Option<Part<Check>>): Option<Part<Tok<Check>>> {
    if sign.Some? then sign
    else if check.None? then None
    else Some(Part(Atom(check.value.what), check.value.rest))
  }

  /** Reads one token of a text in which argument n is next. */
  type TokenReader = (string, nat) -> Option<Part<Tok<Check>>>

  function SqlTokens(x: Lexicon, mark: nat -> string): TokenReader {
    (s: string, n: nat) => SignOrTest(ReadSign(s, x), ReadCheck(s, n, x, mark))
  }

  function NextArgument(n: nat, t: Tok<Check>): nat {
    n + if t.Atom? then Marks(t.leaf) else 0
  }

  function LexBy(s: string, n: nat, read: TokenReader): Option<seq<Tok<Check>>>
    decreases |s|
  {
    if s == "" then Some([])
    else
      var first := read(s, n);
      if first.None? || |first.value.rest| >= |s| then None
      else
        var rest := LexBy(first.value.rest, NextArgument(n, first.value.what), read);
        if rest.None? then None else Some([first.value.what] + rest.value)
  }

  /** The tokens of a text whose first argument is number n and in which argument k is marked by mark(k). */
  function Lex(s: string, n: nat, x: Lexicon, mark: nat -> string): Option<seq<Tok<Check>>> {
    LexBy(s, n, SqlTokens(x, mark))
  }
}
