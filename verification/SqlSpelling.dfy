/** Spelling tests and tokens out in a vocabulary, which the reader undoes. */
module SqlSpelling {
  import opened Prelude
  import opened Wql
  import opened SqlText
  import opened SqlReader

  // ----- vocabularies in which no word is mistaken for another -----

  /** No text starts with both. */
  predicate Apart(a: string, b: string) {
    !(a <= b) && !(b <= a)
  }

  predicate AllApart(words: seq<string>) {
    forall i, j | 0 <= i < |words| && 0 <= j < |words| && i != j :: Apart(words[i], words[j])
  }

  ghost predicate SymbolsApart(x: Lexicon) {
    && (forall a, b | a != b :: Apart(x.symbol(a), x.symbol(b)))
    && (forall a :: Apart(x.list, x.symbol(a)))
  }

  /** Words between which the reader has to choose are apart. */
  ghost predicate Sound(x: Lexicon) {
    && AllApart([x.open, x.close, x.zero, x.and, x.or, x.item])
    && Apart(x.not, x.among) && Apart(x.value, x.plaintext) && Apart(x.prefix, x.plaintext)
    && Apart(x.one, x.zero) && Apart(x.comma, x.close)
    && SymbolsApart(x)
  }

  /** The end of a list cannot be taken for a placeholder. */
  ghost predicate Marking(mark: nat -> string, x: Lexicon) {
    forall n :: Apart(x.close, mark(n))
  }

  lemma FirstsDiffer(a: string, b: string)
    requires a != "" && b != "" && a[0] != b[0]
    ensures Apart(a, b)
  {
  }

  lemma SymbolsAreApart()
    ensures SymbolsApart(SQL)
  {
    forall a, b | a != b ensures Apart(Symbol(a), Symbol(b)) {
      assert Symbol(a)[0] != Symbol(b)[0] || Symbol(a)[1] != Symbol(b)[1];
    }
    forall a ensures Apart("IN (", Symbol(a)) {
      FirstsDiffer("IN (", Symbol(a));
    }
  }

  lemma StartsAreApart()
    ensures AllApart(["(", ")", "0", " AND ", " OR ", "i.id "])
  {
    var words := ["(", ")", "0", " AND ", " OR ", "i.id "];
    assert " AND "[1] == 'A' && " OR "[1] == 'O';
    forall i, j | 0 <= i < |words| && 0 <= j < |words| && i != j ensures Apart(words[i], words[j]) {
      if words[i][0] != words[j][0] {
        FirstsDiffer(words[i], words[j]);
      }
    }
  }

  lemma SqlIsSound()
    ensures Sound(SQL)
  {
    StartsAreApart();
    SymbolsAreApart();
    FirstsDiffer(SQL.not, SQL.among);
    FirstsDiffer(SQL.value, SQL.plaintext);
    FirstsDiffer(SQL.prefix, SQL.plaintext);
    FirstsDiffer(SQL.one, SQL.zero);
    FirstsDiffer(SQL.comma, SQL.close);
  }

  lemma Met(word: string, rest: string)
    ensures word <= word + rest && Strip(word + rest, word) == Some(rest)
  {
    assert (word + rest)[|word|..] == rest;
  }

  lemma OneBeginsTheOther(a: string, b: string, s: string)
    requires a <= s && b <= s
    ensures a <= b || b <= a
  {
    if |a| <= |b| {
      assert a == s[..|a|] == b[..|a|];
    } else {
      assert b == s[..|b|] == a[..|b|];
    }
  }

  lemma Missed(word: string, other: string, rest: string)
    requires Apart(word, other)
    ensures !(word <= other + rest) && Strip(other + rest, word) == None
  {
    Met(other, rest);
    if word <= other + rest {
      OneBeginsTheOther(word, other, other + rest);
    }
  }

  // ----- spelling -----

  function SpellKind(plaintext: bool, x: Lexicon, rest: string): string {
    x.plaintext + ((if plaintext then x.one else x.zero) + (x.close + rest))
  }

  function SpellComparison(op: CompareOp, mark: string, x: Lexicon, rest: string): string {
    x.symbol(op) + (mark + (x.and + rest))
  }

  function SpellPrefix(prefix: Option<PrefixCheck>, x: Lexicon, mark: nat -> string, rest: string): string {
    if prefix.None? then rest else x.prefix + SpellComparison(prefix.value.op, mark(prefix.value.arg), x, rest)
  }

  function SpellItems(first: nat, count: nat, x: Lexicon, mark: nat -> string, rest: string): string
    decreases count
  {
    if count == 0 then x.close + rest
    else if count == 1 then mark(first) + (x.close + rest)
    else mark(first) + (x.comma + SpellItems(first + 1, count - 1, x, mark, rest))
  }

  function SpellValue(value: ValueCheck, x: Lexicon, mark: nat -> string, rest: string): string {
    match value
    case AnyValue => rest
    case Among(first, count) => x.value + (x.list + SpellItems(first, count, x, mark, x.and + rest))
    case Compared(op, arg, prefix) =>
      x.value + SpellComparison(op, mark(arg), x, SpellPrefix(prefix, x, mark, rest))
  }

  function SpellSubselect(check: Check, x: Lexicon, mark: nat -> string, rest: string): string
    requires check.InTags?
  {
    mark(check.name) + (x.and + SpellValue(check.value, x, mark, SpellKind(check.plaintext, x, rest)))
  }

  function SpellCheck(check: Check, x: Lexicon, mark: nat -> string, rest: string): string {
    match check
    case Never => x.zero + rest
    case InTags(negate, _, _, _) =>
      var among := x.among + SpellSubselect(check, x, mark, rest);
      x.item + if negate then x.not + among else among
  }

  function SpellToken(t: Tok<Check>, x: Lexicon, mark: nat -> string, rest: string): string {
    match t
    case Open => x.open + rest
    case Close => x.close + rest
    case AndWord => x.and + rest
    case OrWord => x.or + rest
    case Atom(check) => SpellCheck(check, x, mark, rest)
  }

  /** Writes a token in front of a text. */
  type Speller = (Tok<Check>, string) -> string

  function SqlSpeller(x: Lexicon, mark: nat -> string): Speller {
    (t: Tok<Check>, rest: string) => SpellToken(t, x, mark, rest)
  }

  function SpellBy(ts: seq<Tok<Check>>, spell: Speller): string {
    if ts == [] then "" else spell(ts[0], SpellBy(ts[1..], spell))
  }

  function Spell(ts: seq<Tok<Check>>, x: Lexicon, mark: nat -> string): string {
    SpellBy(ts, SqlSpeller(x, mark))
  }

  // ----- every placeholder stands for the argument of its place -----

  predicate ValueStands(value: ValueCheck, n: nat) {
    match value
    case AnyValue => true
    case Among(first, _) => first == n
    case Compared(_, arg, prefix) => arg == n && (prefix.Some? ==> prefix.value.arg == n + 1)
  }

  predicate Stands(check: Check, n: nat) {
    check.InTags? ==> check.name == n && ValueStands(check.value, n + 1)
  }

  predicate AllStand(ts: seq<Tok<Check>>, n: nat) {
    ts == [] ||
    ((ts[0].Atom? ==> Stands(ts[0].leaf, n)) && AllStand(ts[1..], NextArgument(n, ts[0])))
  }

  // ----- reading what was spelled -----

  lemma KindReads(plaintext: bool, x: Lexicon, rest: string)
    requires Sound(x)
    ensures ReadKind(SpellKind(plaintext, x, rest), x) == Some(Part(plaintext, rest))
  {
    var flag := if plaintext then x.one else x.zero;
    Met(x.plaintext, flag + (x.close + rest));
    Met(flag, x.close + rest);
    Met(x.close, rest);
    if !plaintext {
      Missed(x.one, x.zero, x.close + rest);
    }
  }

  lemma OpReads(op: CompareOp, x: Lexicon, rest: string)
    requires Sound(x)
    ensures ReadOp(x.symbol(op) + rest, x) == Some(Part(op, rest))
  {
    var s := x.symbol(op) + rest;
    Met(x.symbol(op), rest);
    forall other | other != op ensures !(x.symbol(other) <= s) {
      Missed(x.symbol(other), x.symbol(op), rest);
    }
  }

  lemma ComparisonReads(op: CompareOp, mark: string, x: Lexicon, rest: string)
    requires Sound(x)
    ensures ReadComparison(SpellComparison(op, mark, x, rest), x, mark) == Some(Part(op, rest))
  {
    OpReads(op, x, mark + (x.and + rest));
    Met(mark, x.and + rest);
    Met(x.and, rest);
  }

  lemma PrefixReads(prefix: Option<PrefixCheck>, n: nat, x: Lexicon, mark: nat -> string, plaintext: bool, rest: string)
    requires Sound(x) && (prefix.Some? ==> prefix.value.arg == n)
    ensures var kind := SpellKind(plaintext, x, rest);
      var stripped := Strip(SpellPrefix(prefix, x, mark, kind), x.prefix);
      && stripped.Some? == prefix.Some?
      && (prefix.Some? ==> ReadComparison(stripped.value, x, mark(n)) == Some(Part(prefix.value.op, kind)))
  {
    var kind := SpellKind(plaintext, x, rest);
    if prefix.Some? {
      Met(x.prefix, SpellComparison(prefix.value.op, mark(n), x, kind));
      ComparisonReads(prefix.value.op, mark(n), x, kind);
    } else {
      Missed(x.prefix, x.plaintext, (if plaintext then x.one else x.zero) + (x.close + rest));
    }
  }

  lemma ComparedReads(value: ValueCheck, n: nat, x: Lexicon, mark: nat -> string, plaintext: bool, rest: string)
    requires Sound(x) && value.Compared? && ValueStands(value, n)
    ensures var kind := SpellKind(plaintext, x, rest);
      ReadCompared(SpellComparison(value.op, mark(n), x, SpellPrefix(value.prefix, x, mark, kind)), n, x, mark)
      == Some(Part(value, kind))
  {
    var kind := SpellKind(plaintext, x, rest);
    var after := SpellPrefix(value.prefix, x, mark, kind);
    ComparisonReads(value.op, mark(n), x, after);
    PrefixReads(value.prefix, n + 1, x, mark, plaintext, rest);
    ComparedStep(SpellComparison(value.op, mark(n), x, after), after, value, n, x, mark, kind);
  }

  lemma ComparedStep(s: string, after: string, value: ValueCheck, n: nat, x: Lexicon, mark: nat -> string,
                     kind: string)
    requires value.Compared? && ValueStands(value, n)
    requires ReadComparison(s, x, mark(n)) == Some(Part(value.op, after))
    requires var stripped := Strip(after, x.prefix);
      if value.prefix.None? then stripped.None? && after == kind
      else stripped.Some? && ReadComparison(stripped.value, x, mark(n + 1)) == Some(Part(value.prefix.value.op, kind))
    ensures ReadCompared(s, n, x, mark) == Some(Part(value, kind))
  {
  }

  lemma {:induction false} ItemsRead(first: nat, count: nat, x: Lexicon, mark: nat -> string, rest: string)
    requires Sound(x) && Marking(mark, x) && count > 0
    ensures ReadItems(SpellItems(first, count, x, mark, rest), first, x, mark) == Some(Part(count, rest))
    decreases count
  {
    if count == 1 {
      Met(mark(first), x.close + rest);
      Met(x.close, rest);
    } else {
      var more := SpellItems(first + 1, count - 1, x, mark, rest);
      ItemsRead(first + 1, count - 1, x, mark, rest);
      ItemReads(first, more, count, rest, x, mark);
    }
  }

  lemma {:induction false} ItemReads(first: nat, more: string, count: nat, rest: string, x: Lexicon,
                                     mark: nat -> string)
    requires Sound(x) && count > 0 && ReadItems(more, first + 1, x, mark) == Some(Part(count - 1, rest))
    ensures ReadItems(mark(first) + (x.comma + more), first, x, mark) == Some(Part(count, rest))
  {
    Met(mark(first), x.comma + more);
    Met(x.comma, more);
    Missed(x.close, x.comma, more);
  }

  lemma ListReads(first: nat, count: nat, x: Lexicon, mark: nat -> string, rest: string)
    requires Sound(x) && Marking(mark, x)
    ensures ReadList(SpellItems(first, count, x, mark, rest), first, x, mark) == Some(Part(count, rest))
  {
    if count == 0 {
      Met(x.close, rest);
    } else {
      ItemsRead(first, count, x, mark, rest);
      Missed(x.close, mark(first), if count == 1 then x.close + rest
                                   else x.comma + SpellItems(first + 1, count - 1, x, mark, rest));
    }
  }

  lemma AmongReads(count: nat, n: nat, x: Lexicon, mark: nat -> string, kind: string)
    requires Sound(x) && Marking(mark, x)
    ensures ReadValue(SpellValue(Among(n, count), x, mark, kind), n, x, mark) == Some(Part(Among(n, count), kind))
  {
    var items := SpellItems(n, count, x, mark, x.and + kind);
    Met(x.value, x.list + items);
    Met(x.list, items);
    ListReads(n, count, x, mark, x.and + kind);
    Met(x.and, kind);
  }

  lemma ValueReads(value: ValueCheck, n: nat, x: Lexicon, mark: nat -> string, plaintext: bool, rest: string)
    requires Sound(x) && Marking(mark, x) && ValueStands(value, n)
    ensures var kind := SpellKind(plaintext, x, rest);
      ReadValue(SpellValue(value, x, mark, kind), n, x, mark) == Some(Part(value, kind))
  {
    var kind := SpellKind(plaintext, x, rest);
    match value
    case AnyValue => Missed(x.value, x.plaintext, (if plaintext then x.one else x.zero) + (x.close + rest));
    case Among(_, count) => AmongReads(count, n, x, mark, kind);
    case Compared(op, _, prefix) =>
      var after := mark(n) + (x.and + SpellPrefix(prefix, x, mark, kind));
      Met(x.value, SpellComparison(op, mark(n), x, SpellPrefix(prefix, x, mark, kind)));
      Missed(x.list, x.symbol(op), after);
      ComparedReads(value, n, x, mark, plaintext, rest);
  }

  lemma SubselectReads(check: Check, n: nat, x: Lexicon, mark: nat -> string, rest: string)
    requires Sound(x) && Marking(mark, x) && check.InTags? && Stands(check, n)
    ensures ReadSubselect(SpellSubselect(check, x, mark, rest), check.negate, n, x, mark) == Some(Part(check, rest))
  {
    var value := SpellValue(check.value, x, mark, SpellKind(check.plaintext, x, rest));
    Met(mark(n), x.and + value);
    Met(x.and, value);
    ValueReads(check.value, n + 1, x, mark, check.plaintext, rest);
    KindReads(check.plaintext, x, rest);
  }

  lemma CheckReads(check: Check, n: nat, x: Lexicon, mark: nat -> string, rest: string)
    requires Sound(x) && Marking(mark, x) && check.InTags? && Stands(check, n)
    ensures ReadCheck(SpellCheck(check, x, mark, rest), n, x, mark) == Some(Part(check, rest))
  {
    var subselect := SpellSubselect(check, x, mark, rest);
    var among := x.among + subselect;
    Met(x.item, if check.negate then x.not + among else among);
    if check.negate {
      Met(x.not, among);
    } else {
      Missed(x.not, x.among, subselect);
    }
    Met(x.among, subselect);
    SubselectReads(check, n, x, mark, rest);
  }

  /** The j-th of the words a token can start with is not mistaken for an earlier one. */
  lemma WordReads(words: seq<string>, j: nat, rest: string)
    requires AllApart(words) && j < |words|
    ensures forall i | 0 <= i < |words| && i != j :: !(words[i] <= words[j] + rest)
    ensures words[j] <= words[j] + rest && (words[j] + rest)[|words[j]|..] == rest
  {
    Met(words[j], rest);
    forall i | 0 <= i < |words| && i != j ensures !(words[i] <= words[j] + rest) {
      Missed(words[i], words[j], rest);
    }
  }

  lemma StartsNotEmpty(x: Lexicon)
    requires Sound(x)
    ensures x.open != "" && x.close != "" && x.zero != "" && x.and != "" && x.or != "" && x.item != ""
  {
    var words := [x.open, x.close, x.zero, x.and, x.or, x.item];
    assert words[0] == x.open && words[1] == x.close && words[2] == x.zero;
    assert words[3] == x.and && words[4] == x.or && words[5] == x.item;
    assert Apart(words[0], words[1]) && Apart(words[2], words[3]) && Apart(words[4], words[5]);
  }

  lemma SignReads(t: Tok<Check>, x: Lexicon, mark: nat -> string, rest: string)
    requires Sound(x) && (t.Atom? ==> t.leaf.Never?)
    ensures ReadSign(SpellToken(t, x, mark, rest), x) == Some(Part(t, rest))
    ensures |SpellToken(t, x, mark, rest)| > |rest|
  {
    StartsNotEmpty(x);
    var words := [x.open, x.close, x.zero, x.and, x.or, x.item];
    match t
    case Open => WordReads(words, 0, rest); assert words[0] == x.open;
    case Close => WordReads(words, 1, rest); assert words[0] == x.open && words[1] == x.close;
    case Atom(_) =>
      WordReads(words, 2, rest);
      assert words[0] == x.open && words[1] == x.close && words[2] == x.zero;
    case AndWord =>
      WordReads(words, 3, rest);
      assert words[0] == x.open && words[1] == x.close && words[2] == x.zero && words[3] == x.and;
    case OrWord =>
      WordReads(words, 4, rest);
      assert words[0] == x.open && words[1] == x.close && words[2] == x.zero && words[3] == x.and && words[4] == x.or;
  }

  lemma NoSign(x: Lexicon, rest: string)
    requires Sound(x)
    ensures ReadSign(x.item + rest, x) == None
  {
    var words := [x.open, x.close, x.zero, x.and, x.or, x.item];
    WordReads(words, 5, rest);
    assert words[0] == x.open && words[1] == x.close && words[2] == x.zero;
    assert words[3] == x.and && words[4] == x.or && words[5] == x.item;
  }

  lemma CheckIsLonger(check: Check, n: nat, x: Lexicon, mark: nat -> string, rest: string)
    requires Sound(x) && Marking(mark, x) && check.InTags? && Stands(check, n)
    ensures |SpellCheck(check, x, mark, rest)| > |rest|
  {
    SubselectReads(check, n, x, mark, rest);
    StartsNotEmpty(x);
  }

  lemma TestIsToken(s: string, check: Check, rest: string, n: nat, x: Lexicon, mark: nat -> string)
    requires ReadSign(s, x) == None && ReadCheck(s, n, x, mark) == Some(Part(check, rest))
    ensures SqlTokens(x, mark)(s, n) == Some(Part(Atom(check), rest))
  {
  }

  lemma SignIsToken(s: string, t: Tok<Check>, rest: string, n: nat, x: Lexicon, mark: nat -> string)
    requires ReadSign(s, x) == Some(Part(t, rest))
    ensures SqlTokens(x, mark)(s, n) == Some(Part(t, rest))
  {
  }

  lemma TestReads(check: Check, n: nat, x: Lexicon, mark: nat -> string, rest: string, s: string)
    requires Sound(x) && Marking(mark, x) && check.InTags? && Stands(check, n) && s == SpellCheck(check, x, mark, rest)
    ensures SqlTokens(x, mark)(s, n) == Some(Part(Atom(check), rest)) && |s| > |rest|
  {
    assert ReadSign(s, x) == None by {
      CheckHasNoSign(check, x, mark, rest);
    }
    assert ReadCheck(s, n, x, mark) == Some(Part(check, rest)) by {
      CheckReads(check, n, x, mark, rest);
    }
    TestIsToken(s, check, rest, n, x, mark);
    CheckIsLonger(check, n, x, mark, rest);
  }

  lemma TokenReads(t: Tok<Check>, n: nat, x: Lexicon, mark: nat -> string, rest: string)
    requires Sound(x) && Marking(mark, x) && (t.Atom? ==> Stands(t.leaf, n))
    ensures SqlTokens(x, mark)(SpellToken(t, x, mark, rest), n) == Some(Part(t, rest))
    ensures |SpellToken(t, x, mark, rest)| > |rest|
  {
    var s := SpellToken(t, x, mark, rest);
    if t.Atom? && t.leaf.InTags? {
      TestReads(t.leaf, n, x, mark, rest, s);
    } else {
      SignReads(t, x, mark, rest);
      SignIsToken(s, t, rest, n, x, mark);
    }
  }

  lemma CheckHasNoSign(check: Check, x: Lexicon, mark: nat -> string, rest: string)
    requires Sound(x) && check.InTags?
    ensures ReadSign(SpellCheck(check, x, mark, rest), x) == None
  {
    var among := x.among + SpellSubselect(check, x, mark, rest);
    NoSign(x, if check.negate then x.not + among else among);
  }

  /** Whatever is spelled, in any sound vocabulary, is read back. */
  lemma {:induction false} LexSpelled(ts: seq<Tok<Check>>, n: nat, x: Lexicon, mark: nat -> string)
    requires Sound(x) && Marking(mark, x) && AllStand(ts, n)
    ensures Lex(Spell(ts, x, mark), n, x, mark) == Some(ts)
  {
    if ts != [] {
      LexSpelled(ts[1..], NextArgument(n, ts[0]), x, mark);
      TokenReads(ts[0], n, x, mark, Spell(ts[1..], x, mark));
      LexStep(Spell(ts, x, mark), ts[0], Spell(ts[1..], x, mark), ts[1..], n, SqlTokens(x, mark));
      assert [ts[0]] + ts[1..] == ts;
    }
  }

  lemma {:induction false} LexStep(s: string, t: Tok<Check>, rest: string, more: seq<Tok<Check>>, n: nat,
                                   read: TokenReader)
    requires read(s, n) == Some(Part(t, rest)) && |s| > |rest| && LexBy(rest, NextArgument(n, t), read) == Some(more)
    ensures LexBy(s, n, read) == Some([t] + more)
  {
  }
}
