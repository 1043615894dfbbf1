/** A backend's query with its filter, order and limit appended, and the numbers of its placeholders. */
module QueryExtension {
  import opened Prelude
  import opened TagSql
  import opened Placeholders
  import opened SqlFormat
  import opened SqlPieces
  import opened SqlScan
  import opened SqlNumbering
  import opened SqlText
  import opened QueryCondition
  import opened SqlReader
  import opened SqlSpelling
  import opened SqlReadBack
  import opened TagFilter

  // ----- text with holes -----

  datatype Bit = Fixed(text: string) | Hole

  /** The holes are printed as placeholders number first, first + 1, ... from left to right. */
  function Render(bits: seq<Bit>, first: int, placeholder: int -> string): string {
    if bits == [] then ""
    else if bits[0].Hole? then placeholder(first) + Render(bits[1..], first + 1, placeholder)
    else bits[0].text + Render(bits[1..], first, placeholder)
  }

  function HoleCount(bits: seq<Bit>): nat {
    if bits == [] then 0 else (if bits[0].Hole? then 1 else 0) + HoleCount(bits[1..])
  }

  lemma {:induction false} RenderAppend(a: seq<Bit>, b: seq<Bit>, first: int, placeholder: int -> string)
    ensures Render(a + b, first, placeholder)
         == Render(a, first, placeholder) + Render(b, first + HoleCount(a), placeholder)
    ensures HoleCount(a + b) == HoleCount(a) + HoleCount(b)
  {
    if a == [] {
      assert a + b == b;
    } else {
      assert (a + b)[1..] == a[1..] + b;
      var next := if a[0].Hole? then first + 1 else first;
      RenderAppend(a[1..], b, next, placeholder);
      AppendAssociative(if a[0].Hole? then placeholder(first) else a[0].text,
                        Render(a[1..], next, placeholder), Render(b, first + HoleCount(a), placeholder));
    }
  }

  /** The hole at position i has the number of the holes before it, counted from first. */
  lemma HoleAt(bits: seq<Bit>, i: nat, first: int, placeholder: int -> string)
    requires i < |bits| && bits[i].Hole?
    ensures var k := HoleCount(bits[..i]);
      && k < HoleCount(bits)
      && Render(bits, first, placeholder) == Render(bits[..i], first, placeholder)
           + (placeholder(first + k) + Render(bits[i + 1..], first + k + 1, placeholder))
  {
    assert bits == bits[..i] + bits[i..];
    RenderAppend(bits[..i], bits[i..], first, placeholder);
    assert bits[i..][0] == bits[i] && bits[i..][1..] == bits[i + 1..];
  }

  // ----- a filter as text with holes -----

  function FilterBits(ps: seq<Piece>, t: Wording): seq<Bit> {
    if ps == [] then [] else [if ps[0].Lit? then Fixed(t(ps[0].words)) else Hole] + FilterBits(ps[1..], t)
  }

  lemma {:induction false} UniformTextIsRendered(ps: seq<Piece>, t: Wording, first: int, placeholder: int -> string)
    ensures UniformText(ps, t, first, placeholder) == Render(FilterBits(ps, t), first, placeholder)
    ensures HoleCount(FilterBits(ps, t)) == PieceHoles(ps)
  {
    if ps != [] {
      assert FilterBits(ps, t)[1..] == FilterBits(ps[1..], t);
      UniformTextIsRendered(ps[1..], t, IndexAfter(ps[0], first), placeholder);
    }
  }

  /** A filter whose placeholders are numbered from `first`, one for each of its arguments. */
  ghost predicate Numbered(f: Filter, bits: seq<Bit>, first: int, placeholder: int -> string) {
    f.text == Render(bits, first, placeholder) && HoleCount(bits) == |f.args|
  }

  lemma FilterIsNumbered(f: Filter, c: Codec, q: TagQuery, first: int, placeholder: int -> string)
    requires IsFilterOf(Some(f), c, q, first, placeholder)
    ensures Numbered(f, FilterBits(FilterPieces(c, q), WordsText), first, placeholder)
  {
    FilterHoles(f, c, q, first, placeholder);
    UniformTextIsRendered(FilterPieces(c, q), WordsText, first, placeholder);
  }

  // ----- the parts that are appended -----

  /** An argument bound to a placeholder. */
  datatype Arg = Blob(bytes: Bytes) | Number(n: int) | Null

  datatype Dialect = Sqlite | Postgres

  function Separator(d: Dialect): string {
    if d == Sqlite then ", " else " OFFSET "
  }

  function LimitText(d: Dialect): string {
    " LIMIT " + ("$$" + (Separator(d) + "$$"))
  }

  function LimitBits(d: Dialect): seq<Bit> {
    [Fixed(" LIMIT "), Hole, Fixed(Separator(d)), Hole]
  }

  /** SQLite takes the offset first, 0 and -1 standing for none; PostgreSQL the limit first, null for none. */
  function LimitArgs(d: Dialect, offset: Option<int>, limit: Option<int>): seq<Arg> {
    if d == Sqlite then [Number(offset.GetOr(0)), Number(limit.GetOr(-1))]
    else [if limit.Some? then Number(limit.value) else Null, Number(offset.GetOr(0))]
  }

  /** The rows asked for: how many to pass over, and how many to return at most. */
  datatype Page = Page(skip: int, take: Option<int>)

  /**
   * How a database reads a limit: behind a comma the first number is the offset and a negative count
   * means no limit; with OFFSET the first is the count, null meaning no limit.
   */
  function ReadPage(separator: string, first: Arg, second: Arg): Option<Page> {
    if separator == ", " && first.Number? && second.Number? then
      Some(Page(first.n, if second.n < 0 then None else Some(second.n)))
    else if separator == " OFFSET " && (first.Number? || first.Null?) && second.Number? then
      Some(Page(second.n, if first.Null? then None else Some(first.n)))
    else None
  }

  /** Both dialects ask for the same page. */
  lemma LimitAsks(d: Dialect, offset: Option<int>, limit: Option<int>)
    requires limit.Some? ==> limit.value >= 0
    ensures var args := LimitArgs(d, offset, limit);
      |args| == 2 && ReadPage(Separator(d), args[0], args[1]) == Some(Page(offset.GetOr(0), limit))
  {
    assert ", "[0] != " OFFSET "[0];
  }

  function Blobs(args: seq<Bytes>): (r: seq<Arg>)
    ensures |r| == |args| && forall i | 0 <= i < |args| :: r[i] == Blob(args[i])
  {
    seq(|args|, i requires 0 <= i < |args| => Blob(args[i]))
  }

  lemma TwoHoles(a: string, b: string, index: int, placeholder: int -> string)
    requires '$' !in a && '$' !in b
    ensures Rewrite(a + ("$$" + (b + "$$")), index, index, placeholder)
         == Render([Fixed(a), Hole, Fixed(b), Hole], index, placeholder)
  {
    TwoHolesRender(a, b, index, placeholder);
    RewriteSkips(a, "$$" + (b + "$$"), index, index, placeholder);
    RewriteHole(b + "$$", index, index, placeholder);
    RewriteSkips(b, "$$", index, index + 1, placeholder);
    RewriteHole("", index, index + 1, placeholder);
    assert "$$" + "" == "$$";
  }

  lemma TwoHolesRender(a: string, b: string, index: int, placeholder: int -> string)
    ensures Render([Fixed(a), Hole, Fixed(b), Hole], index, placeholder)
         == a + (placeholder(index) + (b + (placeholder(index + 1) + "")))
    ensures HoleCount([Fixed(a), Hole, Fixed(b), Hole]) == 2
  {
    ConsRenders(Fixed(a), [Hole, Fixed(b), Hole], index, placeholder);
    ConsRenders(Hole, [Fixed(b), Hole], index, placeholder);
    ConsRenders(Fixed(b), [Hole], index + 1, placeholder);
    ConsRenders(Hole, [], index + 1, placeholder);
    assert [Fixed(a)] + [Hole, Fixed(b), Hole] == [Fixed(a), Hole, Fixed(b), Hole];
    assert [Hole] + [Fixed(b), Hole] == [Hole, Fixed(b), Hole];
    assert [Fixed(b)] + [Hole] == [Fixed(b), Hole] && [Hole] + [] == [Hole];
  }

  lemma ConsRenders(bit: Bit, bits: seq<Bit>, first: int, placeholder: int -> string)
    ensures Render([bit] + bits, first, placeholder)
         == (if bit.Hole? then placeholder(first) else bit.text)
            + Render(bits, if bit.Hole? then first + 1 else first, placeholder)
    ensures HoleCount([bit] + bits) == (if bit.Hole? then 1 else 0) + HoleCount(bits)
  {
    assert ([bit] + bits)[1..] == bits;
  }

  lemma RewriteHole(rest: string, start: int, index: int, placeholder: int -> string)
    ensures Rewrite("$$" + rest, start, index, placeholder)
         == placeholder(index) + Rewrite(rest, start, index + 1, placeholder)
  {
    assert ("$$" + rest)[2..] == rest;
  }

  method LimitQuery(query: string, args: seq<Arg>, offset: Option<int>, limit: Option<int>, d: Dialect,
                    placeholder: int -> string)
      returns (text: string, bound: seq<Arg>)
    ensures offset.None? && limit.None? ==> text == query && bound == args
    ensures offset.Some? || limit.Some? ==>
      && text == query + Render(LimitBits(d), |args| + 1, placeholder)
      && bound == args + LimitArgs(d, offset, limit)
    ensures offset.Some? || limit.Some? ==>
      var one, two := placeholder(|args| + 1), placeholder(|args| + 2);
      match d
      case Sqlite =>
        && text == query + (" LIMIT " + (one + (", " + two)))
        && bound == args + [Number(offset.GetOr(0)), Number(limit.GetOr(-1))]
      case Postgres =>
        && text == query + (" LIMIT " + (one + (" OFFSET " + two)))
        && bound == args + [if limit.Some? then Number(limit.value) else Null, Number(offset.GetOr(0))]
  {
    if offset.None? && limit.None? {
      return query, args;
    }
    var lastIdx := |args| + 1;
    TwoHoles(" LIMIT ", Separator(d), lastIdx, placeholder);
    TwoHolesRender(" LIMIT ", Separator(d), lastIdx, placeholder);
    assert placeholder(lastIdx + 1) + "" == placeholder(lastIdx + 1);
    var appended := ReplaceArgPlaceholders(LimitText(d), lastIdx, placeholder);
    return query + appended, args + LimitArgs(d, offset, limit);
  }

  function OrderText(descending: bool): string {
    " ORDER BY id" + if descending then " DESC" else ""
  }

  lemma OrderReads(descending: bool)
    ensures OrderText(descending) == if descending then " ORDER BY id DESC" else " ORDER BY id"
  {
  }

  // ----- the whole -----

  function TrimStart(s: string): string {
    if s != [] && s[0] in " \t\n\r" then TrimStart(s[1..]) else s
  }

  function Upper(ch: char): char {
    if 'a' <= ch <= 'z' then ch - 'a' + 'A' else ch
  }

  /** Only queries that start with SELECT, in any case, get an order and a limit. */
  predicate IsSelect(query: string) {
    var s := TrimStart(query);
    |s| >= 6 && forall i | 0 <= i < 6 :: Upper(s[i]) == "SELECT"[i]
  }

  /** Blanks, then the six letters of SELECT, each large or small. */
  ghost predicate SelectAt(query: string, k: nat) {
    && k + 6 <= |query|
    && (forall i | 0 <= i < k :: query[i] == ' ' || query[i] == '\t' || query[i] == '\n' || query[i] == '\r')
    && query[k] in "Ss" && query[k + 1] in "Ee" && query[k + 2] in "Ll"
    && query[k + 3] in "Ee" && query[k + 4] in "Cc" && query[k + 5] in "Tt"
  }

  lemma StartsWithSelect(query: string)
    ensures (|query| >= 6 && forall i | 0 <= i < 6 :: Upper(query[i]) == "SELECT"[i]) <==> SelectAt(query, 0)
  {
    if |query| >= 6 {
      assert forall i | 0 <= i < 6 :: Upper(query[i]) == "SELECT"[i] <==>
        query[i] == "SELECT"[i] || query[i] == "select"[i];
    }
  }

  lemma {:induction false} IsSelectExactly(query: string)
    ensures IsSelect(query) <==> exists k: nat :: SelectAt(query, k)
  {
    if query != [] && query[0] in " \t\n\r" {
      IsSelectExactly(query[1..]);
      if k: nat :| SelectAt(query[1..], k) {
        assert SelectAt(query, k + 1);
      }
      if k: nat :| SelectAt(query, k) {
        assert k > 0 && SelectAt(query[1..], k - 1);
      }
    } else {
      StartsWithSelect(query);
    }
  }

  /** The filter behind its connective. */
  function FilterPart(filter: Option<seq<Bit>>): seq<Bit> {
    if filter.Some? then [Fixed(" AND ")] + filter.value else []
  }

  function OrderPart(order: Option<bool>): seq<Bit> {
    if order.Some? then [Fixed(OrderText(order.value))] else []
  }

  function LimitPart(offset: Option<int>, limit: Option<int>, d: Dialect): seq<Bit> {
    if offset.Some? || limit.Some? then LimitBits(d) else []
  }

  /** What is appended to a query: the filter, and for a SELECT the order and the limit. */
  function Extension(filter: Option<seq<Bit>>, select: bool, order: Option<bool>, offset: Option<int>,
                     limit: Option<int>, d: Dialect): seq<Bit> {
    FilterPart(filter) + if select then OrderPart(order) + LimitPart(offset, limit, d) else []
  }

  /** What is bound beside the arguments given. */
  function Extra(filter: Option<Filter>, select: bool, offset: Option<int>, limit: Option<int>, d: Dialect): seq<Arg> {
    (if filter.Some? then Blobs(filter.value.args) else [])
    + (if select && (offset.Some? || limit.Some?) then LimitArgs(d, offset, limit) else [])
  }

  method AppendFilter(query: string, args: seq<Arg>, filter: Option<Filter>, placeholder: int -> string,
                      ghost bits: Option<seq<Bit>>)
      returns (text: string, bound: seq<Arg>)
    requires filter.Some? == bits.Some?
    requires filter.Some? ==> Numbered(filter.value, bits.value, |args| + 1, placeholder)
    ensures text == query + Render(FilterPart(bits), |args| + 1, placeholder)
    ensures text == if filter.Some? then query + " AND " + filter.value.text else query
    ensures bound == args + (if filter.Some? then Blobs(filter.value.args) else [])
    ensures |bound| == |args| + HoleCount(FilterPart(bits))
  {
    text, bound := query, args;
    if filter.Some? {
      bound := bound + Blobs(filter.value.args);
      text := text + " AND ";
      text := text + filter.value.text;
      ConsRenders(Fixed(" AND "), bits.value, |args| + 1, placeholder);
      AppendAssociative(query, " AND ", filter.value.text);
    }
  }

  method AppendOrderAndLimit(query: string, args: seq<Arg>, offset: Option<int>, limit: Option<int>,
                             order: Option<bool>, d: Dialect, placeholder: int -> string)
      returns (text: string, bound: seq<Arg>)
    ensures text == query + Render(OrderPart(order) + LimitPart(offset, limit, d), |args| + 1, placeholder)
    ensures bound == args + if offset.Some? || limit.Some? then LimitArgs(d, offset, limit) else []
    ensures order == Some(true) && offset.None? && limit.None? ==> text == query + " ORDER BY id DESC"
    ensures order == Some(false) && offset.None? && limit.None? ==> text == query + " ORDER BY id"
    ensures |bound| == |args| + HoleCount(OrderPart(order) + LimitPart(offset, limit, d))
  {
    text := query;
    if order.Some? {
      text := text + OrderText(order.value);
      OrderReads(order.value);
      ConsRenders(Fixed(OrderText(order.value)), [], |args| + 1, placeholder);
      assert [Fixed(OrderText(order.value))] + [] == OrderPart(order);
    }
    assert text == query + Render(OrderPart(order), |args| + 1, placeholder) && HoleCount(OrderPart(order)) == 0;
    RenderAppend(OrderPart(order), LimitPart(offset, limit, d), |args| + 1, placeholder);
    AppendAssociative(query, Render(OrderPart(order), |args| + 1, placeholder),
                      Render(LimitPart(offset, limit, d), |args| + 1, placeholder));
    TwoHolesRender(" LIMIT ", Separator(d), |args| + 1, placeholder);
    text, bound := LimitQuery(text, args, offset, limit, d, placeholder);
  }

  /**
   * Filter and limit are numbered on from the arguments of the query itself, and each number names
   * its argument: of N arguments bound in all, the placeholders appended are |args| + 1 to N in turn.
   */
  method ExtendQuery(query: string, args: seq<Arg>, filter: Option<Filter>, offset: Option<int>, limit: Option<int>,
                     order: Option<bool>, d: Dialect, placeholder: int -> string, ghost bits: Option<seq<Bit>>)
      returns (text: string, bound: seq<Arg>)
    requires filter.Some? == bits.Some?
    requires filter.Some? ==> Numbered(filter.value, bits.value, |args| + 1, placeholder)
    ensures var select := IsSelect(query + Render(FilterPart(bits), |args| + 1, placeholder));
      var extension := Extension(bits, select, order, offset, limit, d);
      && text == query + Render(extension, |args| + 1, placeholder)
      && bound == args + Extra(filter, select, offset, limit, d)
      && |bound| == |args| + HoleCount(extension)
    ensures (if filter.Some? then query + " AND " + filter.value.text else query) <= text
  {
    ghost var head := FilterPart(bits);
    text, bound := AppendFilter(query, args, filter, placeholder, bits);
    ghost var mid, own := text, bound;
    var select := IsSelect(text);
    if select {
      text, bound := AppendOrderAndLimit(text, bound, offset, limit, order, d, placeholder);
      ghost var tail := OrderPart(order) + LimitPart(offset, limit, d);
      Joined(query, head, tail, |args| + 1, |own| + 1, placeholder, mid, text);
    } else {
      Joined(query, head, [], |args| + 1, |own| + 1, placeholder, mid, text);
    }
    AppendAssociative(args, if filter.Some? then Blobs(filter.value.args) else [],
                      if select && (offset.Some? || limit.Some?) then LimitArgs(d, offset, limit) else []);
  }

  /**
   * What a filter does to a query it is appended to. Its text behind AND is read as that connective
   * and the filter's own tokens; appended to any chain of tests it restricts the chain to where the
   * filter answers true.
   */
  lemma {:induction false} AppendedFilterRestricts<L(!new)>(f: Filter, first: int, placeholder: int -> string,
                                                            table: set<Row>, item: int, like: LikeFn, answer: bool,
                                                            base: seq<Tok<L>>, b: bool, ask: Check -> L, v: L -> bool)
    requires Answers(Some(f), first, placeholder, table, item, like, answer)
    requires ReadAnd(base, v) == Read(b, []) && Extends(v, ask, CheckTruth(f.args, table, item, like))
    ensures var read, whole := Lex(f.text, 0, SQL, Marked(first, placeholder)),
                               Lex(" AND " + f.text, 0, SQL, Marked(first, placeholder));
      && read.Some? && whole == Some([AndWord] + read.value)
      && ReadOr(base + Lift(whole.value, ask), v) == Read(b && answer, [])
  {
    var mark := Marked(first, placeholder);
    var read := Lex(f.text, 0, SQL, mark).value;
    AndIsRead(f.text, read, mark);
    LiftFactor(read, ask, v, CheckTruth(f.args, table, item, like));
    ChainExtends(base, Lift(read, ask), b, answer, v);
    assert Lift([AndWord] + read, ask) == [AndWord] + Lift(read, ask) by {
      assert ([AndWord] + read)[1..] == read;
    }
    AppendAssociative(base, [AndWord], Lift(read, ask));
  }

  lemma {:induction false} AndIsRead(text: string, read: seq<Tok<Check>>, mark: nat -> string)
    requires Lex(text, 0, SQL, mark) == Some(read)
    ensures Lex(" AND " + text, 0, SQL, mark) == Some([AndWord] + read)
  {
    assert Sound(SQL) by { SqlIsSound(); }
    SignReads(AndWord, SQL, mark, text);
    SignIsToken(" AND " + text, AndWord, text, 0, SQL, mark);
    LexStep(" AND " + text, AndWord, text, read, 0, SqlTokens(SQL, mark));
  }

  /** Two parts rendered one after the other are the rendering of both. */
  lemma Joined(query: string, a: seq<Bit>, b: seq<Bit>, first: int, next: int, placeholder: int -> string,
               mid: string, text: string)
    requires mid == query + Render(a, first, placeholder) && next == first + HoleCount(a)
    requires text == mid + Render(b, next, placeholder)
    ensures text == query + Render(a + b, first, placeholder) && HoleCount(a + b) == HoleCount(a) + HoleCount(b)
  {
    RenderAppend(a, b, first, placeholder);
    AppendAssociative(query, Render(a, first, placeholder), Render(b, next, placeholder));
  }
}
