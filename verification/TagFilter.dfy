/** From a user's tag filter to the final SQL text and the argument list bound to it. */
module TagFilter {
  import opened Prelude
  import opened Wql
  import opened TagSql
  import opened Placeholders
  import opened SqlText
  import opened SqlFormat
  import opened SqlPieces
  import opened SqlScan
  import opened SqlPlaces
  import opened SqlNumbering
  import opened QueryCondition
  import opened SqlReader
  import opened SqlReadBack
  import opened TagSqlEncoding
  import opened Searchable
  import opened TagSqlAllQueries
  import opened SearchAll
  import WqlJson
  import WqlJsonMeaning

  /** A filter ready to be appended to a query: its condition and the arguments it binds. */
  datatype Filter = Filter(text: string, args: seq<Bytes>)

  /**
   * The filter that q must become when `offset` arguments are bound before it: its condition is the
   * compiled clause with argument n (from 0) printed as placeholder number offset + 1 + n.
   */
  ghost predicate IsFilterOf(f: Option<Filter>, c: Codec, q: TagQuery, first: int, placeholder: int -> string) {
    var k := Compile(c, q, false, 0);
    if k.clause.None? then f.None?
    else
      && f.Some?
      && f.value.args == k.args
      && f.value.text == UniformText(Pieces(Tokens(k.clause.value)), WordsText, first, placeholder)
  }

  /** The pieces of q's condition, empty when q restricts nothing. */
  function FilterPieces(c: Codec, q: TagQuery): seq<Piece> {
    var k := Compile(c, q, false, 0);
    if k.clause.None? then [] else Pieces(Tokens(k.clause.value))
  }

  lemma {:induction false} RenderedFilter(c: Codec, q: TagQuery, text: string, first: int, placeholder: int -> string)
    requires var k := Compile(c, q, false, 0); k.clause.Some? && text == ClauseText(k.clause.value, WordsText)
    ensures var f := Filter(Rewrite(text, first, first, placeholder), Compile(c, q, false, 0).args);
      IsFilterOf(Some(f), c, q, first, placeholder)
  {
    WordsTextIsSafe();
    PlaceholdersNameArguments(c, q, false, 0, WordsText, first, placeholder);
  }

  /** encode_tag_filter for the backends with numbered placeholders. */
  method EncodeTagFilter(filter: Option<Query<string, string>>, key: ProfileKey, offset: nat,
                         placeholder: int -> string)
      returns (r: Result<Option<Filter>, EncodeError>)
    ensures r.Ok?
    ensures filter.None? ==> r.value.None?
    ensures filter.Some? ==> IsFilterOf(r.value, key.ToCodec(), ToTagQuery(filter.value), offset + 1, placeholder)
  {
    if filter.None? {
      return Ok(None);
    }
    var query := ToTagQuery(filter.value);
    var enc := new TagSqlEncoder(key.ToCodec());
    AlwaysEncodable(key, query);
    var text := enc.EncodeTagQuery(query, false);
    if text.value.None? {
      return Ok(None);
    }
    var numbered := ReplaceArgPlaceholders(text.value.value, offset + 1, placeholder);
    RenderedFilter(key.ToCodec(), query, text.value.value, offset + 1, placeholder);
    return Ok(Some(Filter(numbered, enc.arguments)));
  }

  /** encode_odbc_tag_filter: every placeholder is a bare question mark. */
  method EncodeOdbcTagFilter(filter: Option<Query<string, string>>, key: ProfileKey)
      returns (r: Result<Option<Filter>, EncodeError>)
    ensures r.Ok?
    ensures filter.None? ==> r.value.None?
    ensures filter.Some? ==> IsFilterOf(r.value, key.ToCodec(), ToTagQuery(filter.value), 1, Positional)
  {
    if filter.None? {
      return Ok(None);
    }
    var query := ToTagQuery(filter.value);
    var enc := new TagSqlEncoder(key.ToCodec());
    AlwaysEncodable(key, query);
    var text := enc.EncodeTagQuery(query, false);
    if text.value.None? {
      return Ok(None);
    }
    var positional := ReplaceOdbcArgPlaceholders(text.value.value);
    RenderedFilter(key.ToCodec(), query, text.value.value, 1, Positional);
    return Ok(Some(Filter(positional, enc.arguments)));
  }

  /** A profile key encrypts any text, so no query is refused. */
  lemma {:induction false} AlwaysEncodable(key: ProfileKey, q: TagQuery)
    ensures Encodable(key.ToCodec(), q)
    decreases q, 1
  {
    match q
    case And(subs) => AllAlwaysEncodable(key, subs);
    case Or(subs) => AllAlwaysEncodable(key, subs);
    case Not(sub) => AlwaysEncodable(key, sub);
    case Exist(names) => NamesAlwaysEncodable(key, names);
    case _ =>
  }

  lemma {:induction false} AllAlwaysEncodable(key: ProfileKey, qs: seq<TagQuery>)
    ensures AllEncodable(key.ToCodec(), qs)
    decreases qs, 0
  {
    if qs != [] {
      AlwaysEncodable(key, qs[0]);
      AllAlwaysEncodable(key, qs[1..]);
    }
  }

  lemma {:induction false} NamesAlwaysEncodable(key: ProfileKey, names: seq<TagName>)
    ensures AllEncodableNames(key.ToCodec(), names)
  {
    if names != [] {
      NamesAlwaysEncodable(key, names[1..]);
    }
  }

  // ----- numbered and positional renderings bind the same values -----

  /** The k-th placeholder's position in a rendered filter, by kind of piece. */
  function PlaceholderAt(ps: seq<Piece>, k: nat): nat
    requires k < PieceHoles(ps)
  {
    if ps[0].Lit? then 1 + PlaceholderAt(ps[1..], k)
    else if k == 0 then 0
    else 1 + PlaceholderAt(ps[1..], k - 1)
  }

  /** The text splits at the k-th placeholder of its pieces, and the placeholder printed there is number first + k. */
  ghost predicate SplitsAt(text: string, ps: seq<Piece>, k: nat, t: Wording, first: int, placeholder: int -> string)
    requires k < PieceHoles(ps)
  {
    var i := PlaceholderAt(ps, k);
    && i < |ps| && !ps[i].Lit?
    && PieceHoles(ps[..i]) == k
    && text == UniformText(ps[..i], t, first, placeholder) + placeholder(first + k)
               + UniformText(ps[i + 1..], t, first + k + 1, placeholder)
  }

  lemma {:induction false} PlaceholderAtCounts(ps: seq<Piece>, k: nat)
    requires k < PieceHoles(ps)
    ensures var i := PlaceholderAt(ps, k); i < |ps| && !ps[i].Lit? && PieceHoles(ps[..i]) == k
  {
    if ps[0].Lit? || k > 0 {
      var k' := if ps[0].Lit? then k else k - 1;
      PlaceholderAtCounts(ps[1..], k');
      var j := PlaceholderAt(ps[1..], k');
      assert ps[..j + 1][1..] == ps[1..][..j];
    }
  }

  lemma {:induction false} KthPlaceholder(ps: seq<Piece>, k: nat, t: Wording, first: int, placeholder: int -> string)
    requires k < PieceHoles(ps)
    ensures SplitsAt(UniformText(ps, t, first, placeholder), ps, k, t, first, placeholder)
  {
    PlaceholderAtCounts(ps, k);
    SplitText(ps, PlaceholderAt(ps, k), t, first, placeholder);
  }

  lemma SplitText(ps: seq<Piece>, i: nat, t: Wording, first: int, placeholder: int -> string)
    requires i < |ps| && !ps[i].Lit?
    ensures var k := PieceHoles(ps[..i]);
      UniformText(ps, t, first, placeholder) == UniformText(ps[..i], t, first, placeholder) + placeholder(first + k)
                                                + UniformText(ps[i + 1..], t, first + k + 1, placeholder)
  {
    var tail := ps[i..];
    assert ps == ps[..i] + tail && tail[1..] == ps[i + 1..] && tail[0] == ps[i];
    UniformTextAppend(ps[..i], tail, t, first, placeholder);
  }

  lemma FilterHoles(f: Filter, c: Codec, q: TagQuery, first: int, placeholder: int -> string)
    requires IsFilterOf(Some(f), c, q, first, placeholder)
    ensures PieceHoles(FilterPieces(c, q)) == |f.args| && f.args == Compile(c, q, false, 0).args
    ensures f.text == UniformText(FilterPieces(c, q), WordsText, first, placeholder)
  {
    CompilePlaces(c, q, false, 0);
    PlacedAligned(Tokens(Compile(c, q, false, 0).clause.value), 0);
  }

  lemma {:induction false} FilterSplits(f: Filter, c: Codec, q: TagQuery, first: int, placeholder: int -> string,
                                        k: nat)
    requires IsFilterOf(Some(f), c, q, first, placeholder) && k < |f.args| == PieceHoles(FilterPieces(c, q))
    ensures SplitsAt(f.text, FilterPieces(c, q), k, WordsText, first, placeholder)
  {
    FilterHoles(f, c, q, first, placeholder);
    KthPlaceholder(FilterPieces(c, q), k, WordsText, first, placeholder);
  }

  /**
   * The numbered and the positional rendering of one filter bind the same values: both have one
   * placeholder per argument, the k-th of each standing at the same place of the text, and number
   * offset + 1 + k is, among the `offset` earlier arguments and the filter's own, the filter's k-th.
   */
  lemma {:induction false} RenderingsBindAlike(c: Codec, q: TagQuery, offset: nat, placeholder: int -> string,
                                               numbered: Filter, positional: Filter, before: seq<Bytes>, k: nat)
    requires |before| == offset
    requires IsFilterOf(Some(numbered), c, q, offset + 1, placeholder)
    requires IsFilterOf(Some(positional), c, q, 1, Positional)
    requires k < |numbered.args|
    ensures PieceHoles(FilterPieces(c, q)) == |numbered.args| == |positional.args|
    ensures SplitsAt(numbered.text, FilterPieces(c, q), k, WordsText, offset + 1, placeholder)
    ensures SplitsAt(positional.text, FilterPieces(c, q), k, WordsText, 1, Positional) && Positional(1 + k) == "?"
    ensures (before + numbered.args)[offset + 1 + k - 1] == positional.args[k]
  {
    ArgumentsAlike(c, q, offset + 1, placeholder, numbered, 1, Positional, positional);
    FilterSplits(numbered, c, q, offset + 1, placeholder, k);
    FilterSplits(positional, c, q, 1, Positional, k);
  }

  lemma ArgumentsAlike(c: Codec, q: TagQuery, first: int, placeholder: int -> string, f: Filter,
                       first': int, placeholder': int -> string, f': Filter)
    requires IsFilterOf(Some(f), c, q, first, placeholder) && IsFilterOf(Some(f'), c, q, first', placeholder')
    ensures f.args == f'.args && PieceHoles(FilterPieces(c, q)) == |f.args|
  {
    FilterHoles(f, c, q, first, placeholder);
  }

  /**
   * The final text, if there is one, is read as SQL with argument n marked by the placeholder numbered
   * first + n; it is one operand with one placeholder for each of the filter's arguments, and with
   * them it has the given truth value for the item. Where there is no text, the value is true.
   */
  ghost predicate Answers(f: Option<Filter>, first: int, placeholder: int -> string, table: set<Row>, item: int,
                          like: LikeFn, answer: bool)
  {
    match f
    case None => answer
    case Some(filter) =>
      var read := Lex(filter.text, 0, SQL, Marked(first, placeholder));
      && read.Some? && AllMarks(read.value) == |filter.args|
      && ReadFactor(read.value, CheckTruth(filter.args, table, item, like)) == Read(answer, [])
  }

  /** The text of a filter answers as the compiled clause selects. */
  lemma {:induction false} FilterAnswers(f: Option<Filter>, c: Codec, q: TagQuery, first: int,
                                       placeholder: int -> string, table: set<Row>, item: int, like: LikeFn)
    requires IsFilterOf(f, c, q, first, placeholder) && Tellable(placeholder)
    ensures var k := Compile(c, q, false, 0);
      Answers(f, first, placeholder, table, item, like, SelectsOpt(k.clause, k.args, table, item, like))
  {
    if f.Some? {
      var k := Compile(c, q, false, 0);
      CompilePlaces(c, q, false, 0);
      CompiledIsNonEmptyConj(c, q, false, 0);
      TextAnswers(f.value, k.clause.value, first, placeholder, table, item, like);
    }
  }

  lemma {:induction false} TextAnswers(f: Filter, cl: Clause, first: int, placeholder: int -> string, table: set<Row>,
                                       item: int, like: LikeFn)
    requires f.text == UniformText(Pieces(Tokens(cl)), WordsText, first, placeholder) && Tellable(placeholder)
    requires NonEmptyConj(cl) && Placed(Tokens(cl), 0) && Holes(Tokens(cl)) == |f.args|
    ensures Answers(Some(f), first, placeholder, table, item, like, Selects(cl, f.args, table, item, like))
  {
    var read := Lift(Tokens(cl), Describe);
    TokensAreSingle(cl);
    PlacedTextReads(f.text, Tokens(cl), 0, first, first, placeholder);
    DescribedReads(cl, f.args, table, item, like);
    ReadAnswers(f, read, first, placeholder, table, item, like, Selects(cl, f.args, table, item, like));
  }

  lemma {:induction false} ReadAnswers(f: Filter, read: seq<Tok<Check>>, first: int, placeholder: int -> string,
                                       table: set<Row>, item: int, like: LikeFn, answer: bool)
    requires Lex(f.text, 0, SQL, Marked(first, placeholder)) == Some(read) && AllMarks(read) == |f.args|
    requires ReadFactor(read, CheckTruth(f.args, table, item, like)) == Read(answer, [])
    ensures Answers(Some(f), first, placeholder, table, item, like, answer)
  {
  }

  /** The whole way, for every query: the final text selects an entry by what is kept of its plain tags. */
  lemma {:induction false} FilterSelectsKept(q: Query<string, string>, key: ProfileKey, f: Option<Filter>, first: int,
                                             placeholder: int -> string, table: set<Row>,
                                             entries: map<int, seq<EntryTag>>, item: int, like: LikeFn)
    requires key.Valid() && Stores(table, entries, key) && item in entries && Tellable(placeholder)
    requires var tq := ToTagQuery(q);
      && EqualityOnly(tq) && NoncesDiffer(tq, key, entries)
      && IsFilterOf(f, key.ToCodec(), tq, first, placeholder)
    ensures Answers(f, first, placeholder, table, item, like, Kept(q, false, UserAtoms(entries[item], key, like)))
  {
    var k := Compile(key.ToCodec(), ToTagQuery(q), false, 0);
    WholeWindow(k.args);
    SearchSelectsKept(q, key, 0, k.args, table, entries, item, like);
    FilterAnswers(f, key.ToCodec(), ToTagQuery(q), first, placeholder, table, item, like);
  }

  /**
   * The whole way, for faithful queries: the final text is true of an entry exactly when the user's
   * query, in the user's own names, holds of the entry's plain tags.
   */
  lemma {:induction false} FilterAnswersPlainQuery(q: Query<string, string>, key: ProfileKey, f: Option<Filter>,
                                                   first: int, placeholder: int -> string, table: set<Row>,
                                                   entries: map<int, seq<EntryTag>>, item: int, like: LikeFn)
    requires key.Valid() && Stores(table, entries, key) && item in entries && Tellable(placeholder)
    requires var tq := ToTagQuery(q);
      && Faithful(key.ToCodec(), tq, false) && EqualityOnly(tq) && NoncesDiffer(tq, key, entries)
      && IsFilterOf(f, key.ToCodec(), tq, first, placeholder)
    ensures Answers(f, first, placeholder, table, item, like, Holds(q, UserAtoms(entries[item], key, like)))
  {
    var k := Compile(key.ToCodec(), ToTagQuery(q), false, 0);
    WholeWindow(k.args);
    SearchAnswersPlainQuery(q, key, 0, k.args, table, entries, item, like);
    FilterAnswers(f, key.ToCodec(), ToTagQuery(q), first, placeholder, table, item, like);
  }

  /** And so from the JSON the user wrote: the final text answers what the JSON says of the entry's plain tags. */
  lemma {:induction false} FilterAnswersJson(v: WqlJson.Json, key: ProfileKey, f: Option<Filter>, first: int,
                                             placeholder: int -> string, table: set<Row>,
                                             entries: map<int, seq<EntryTag>>, item: int, like: LikeFn)
    requires key.Valid() && Stores(table, entries, key) && item in entries && Tellable(placeholder)
    requires WqlJsonMeaning.Formed(v) && WqlJson.Deserialize(v).Ok?
    requires var tq := ToTagQuery(WqlJson.Deserialize(v).value);
      && Faithful(key.ToCodec(), tq, false) && EqualityOnly(tq) && NoncesDiffer(tq, key, entries)
      && IsFilterOf(f, key.ToCodec(), tq, first, placeholder)
    ensures Answers(f, first, placeholder, table, item, like,
                    WqlJsonMeaning.Means(v, UserAtoms(entries[item], key, like)))
  {
    WqlJsonMeaning.ParsedMeansJson(v, UserAtoms(entries[item], key, like));
    FilterAnswersPlainQuery(WqlJson.Deserialize(v).value, key, f, first, placeholder, table, entries, item, like);
  }

  lemma WholeWindow(args: seq<Bytes>)
    ensures Window(args, 0, args)
  {
  }
}
