# Aries Askar, modelled and proved in Dafny

Aries Askar is a secure store for wallets: entries and keys are kept in a database, encrypted under
a profile key, and found again by their tags. This project models the parts of it where most can go
wrong and proves what they promise.

* **Tag queries.** A wallet query arrives as JSON (`WqlJson`, whose meaning apart from the parser is
  in `WqlJsonMeaning`), may be optimised (`Wql`), is renamed to encrypted and plaintext tag names
  (`Searchable`), and is compiled to SQL by a recursive encoder that pushes negation inwards and
  appends to an argument list (`TagSql`, `TagSqlEncoding`; its conditions on a query are spelled out in
  `QueryGuards`). The text (`SqlFormat`, `SqlText`,
  `SqlPieces`) has two kinds of placeholder, which a scanner rewrites for each database
  (`Placeholders`, `SqlScan`, `SqlPlaces`, `SqlNumbering`, `TagFilter`). `SqlReader` reads the final
  text as SQL, character by character and without knowledge of the encoder; `SqlSpelling` and
  `SqlReadBack` show that it reads what was compiled. The results run from compiler correctness,
  argument alignment and the soundness of searching ciphertext up to
  `TagFilter.FilterAnswersJson`, which joins them end to end (`SearchAll` and
  `TagFilter.FilterSelectsKept` for queries of any shape). `TagSqlEdges`,
  `TagSqlAllQueries` and `TagSqlExact` say exactly which queries the compiler misreads, `WqlExact`
  which the optimiser does. `QueryCondition` and `QueryExtension` are about the
  queries that a filter, an order and a limit are appended to.
* **Storage of tags and keys.** How tags are encrypted, printed and decoded (`TagStorage`,
  `TagCodec`, `TagCodecExact`), exchanged as JSON (`TagSet`), and used to keep a key's own data beside the user's tags
  (`KeyEntries`, `Sorting`).
* **Sessions and profiles.** The session with its nested transactions and guards as a state machine
  (`DbSessions`), and profile keys in a table behind a cache, through rekeying (`ProfileStore`).
* **Cryptographic plumbing.** AES key wrap over an abstract block cipher (`KeyWrap`, with the register
  machine for any round function in `KeyWrapPasses` and the form of the standard in
  `KeyWrapStandard`), the order of bytes in numbers (`ByteOrder`), the concatenation key derivation
  (`ConcatKdf`), one-pass key agreement (`Ecdh`), the in-place slice
  writer (`SliceWriter`, `Buffers`) and sealed boxes (`CryptoBox`).

Where the source changes things step by step the model does too: the encoder, the session and its
guards, the profile store, the hashing state, the writers and the key session are classes, and the
loops over text, buffers and lists are loops, each proved against a function whose properties are
then proved as lemmas. `dafny verify dfyconfig.toml` checks everything.

## Readings and assumptions

* Ciphers, digests, the key exchange, the text encoding, the binary form of key parameters and the
  `LIKE` test are parameters. What is assumed of them is a predicate that the theorems name:
  decryption inverts encryption, a block cipher permutes, a digest has a fixed length, an exchange
  commutes, text is encoded one to one. Random values (ephemeral keys, nonces, profile keys) are
  parameters as well, and so is whether a database call succeeds.
* The seven comparison constructors of a query are one constructor with an operator.
* A JSON object is a list of fields; JSON text is not modelled, except that the keys of a tag set are
  borrowed from it, so that a name with a quote, a backslash or a control character, which has to be
  spelled with an escape, is refused. Reserved names are those that the parser treats as operators.
* Where the code departs from the plain claim the code is kept and the difference is proved. The
  compiler misreads a negated list of names, an empty `Exist` under negation, and a true child that
  it drops below an effective OR; the optimiser misreads an empty `Or` and a `Not` of an empty query.
  `Faithful` and `Optimisable` are conditions on the query alone that exclude these. They are exact
  for queries that ask each thing once (`TagSqlExact.FaithfulExactly`, `WqlExact.OptimiseExact`); once
  something is asked twice no condition on the shape is (`TagSqlExact.CompilerShapeDoesNotDecide`,
  `WqlExact.ShapeDoesNotDecide`). For every
  query at all, `TagSqlAllQueries.CompileSelectsKept` and `WqlExact.OptimiseReads` say what the
  result selects instead.
* A filter's text is read with placeholders that are not empty and do not start with a closing
  bracket (`Tellable`), as those of all three backends are (`SqlReadBack.BackendsAreTellable`).
* The `!=` test on encrypted values is right when the 12-byte prefixes of distinct stored values
  differ (`CollisionFree`), which follows when their nonces differ; `TagSqlEdges.NeqExact` is exact.
* A commit or rollback that fails still ends its transaction, as the depth is counted down before the
  outcome is known. Using a closed session aborts in the source; here it is not enabled. The guard
  borrows the session, so nothing else is enabled while one lives; a guard that is leaked rather
  than dropped is an operation of its own.
* In the slice writer an abort is an outcome, `Panics`, with its exact condition. `splice` subtracts
  the growth from the end of the range, so inserting at the front of a slice always aborts; and
  `buffer_resize` adds to the position although its documentation speaks of the new length.
* An `In` without values becomes `value IN ()`, which SQLite reads as false and PostgreSQL refuses as
  a syntax error. It is modelled as SQLite reads it.
* `acquire_key` on a name that is in neither cache nor table aborts where the database returns an
  empty result; this is an outcome. `unwrap_data` would abort on fewer than 12 bytes; under the
  current store key that does not happen (`ProfileStore.RowsAreLongEnough`), and a row that an older
  cache cannot unwrap counts as one that does not load.
* A `cc_tag` of 125 to 128 bytes passes the check on its length and is then refused by the 132-byte
  buffer; the model keeps both.

## Model

| member | source | states |
|---|---|---|
| `Wql.OptimiseNormalises` | askar-storage/src/wql/query.rs:39-71 | any result of the optimiser is in normal form: no double Not, no And or Or with fewer than two children, no In with one value |
| `Wql.NormalIsFixed` | askar-storage/src/wql/query.rs:39-71 | every normal query is a fixed point of the optimiser |
| `Wql.OptimiseIdempotent` | askar-storage/src/wql/query.rs:39-71 | optimising an optimised query changes nothing |
| `Wql.OptimiseVanishes` | askar-storage/src/wql/query.rs:41-65 | the optimiser returns no query exactly for queries without a leaf |
| `Wql.OptimisePreservesMeaning` | askar-storage/src/wql/query.rs:39-71 | the optimised query holds of an item exactly when the query does, provided a vanishing part is true where And drops it and false where Or drops it |
| `Wql.NoEmptyListIsOptimisable` | askar-storage/src/wql/query.rs:39-71 | the proviso is met, and nothing vanishes, when no And and no Or is empty |
| `Wql.OptimiseLeaflessExact` | askar-storage/src/wql/query.rs:41-62 | for a vanishing query the proviso is exact: the meaning is kept if and only if it holds |
| `WqlExact.OptimiseReads` | askar-storage/src/wql/query.rs:39-71 | for every query whatever its shape, the optimised query has a reading that passes over every part without leaves, whatever that part means |
| `WqlExact.OptimiseExact` | askar-storage/src/wql/query.rs:39-71 | for queries that ask no fact twice and have no empty Exist the proviso is exact: the meaning is kept for every item if and only if it holds |
| `WqlExact.OptimiseOrExact` | askar-storage/src/wql/query.rs:56-65 | an Or whose kept children are optimised faithfully keeps its meaning for an item if and only if no true child was dropped or some kept child holds |
| `WqlExact.ShapeDoesNotDecide` | askar-storage/src/wql/query.rs:56-65 | two queries of one shape, of which one keeps its meaning for every item and the other loses it for some: once facts repeat, no condition on the shape is exact |
| `TagSql.PrefixTestIsSound` | askar-storage/src/wql/sql.rs:60-77 | a value that passes =, >, >=, < or <= also passes the test on the two prefixes, whatever the lengths, so that conjunct changes no answer |
| `TagSqlEdges.PrefixTestIsStrictest` | askar-storage/src/wql/tags.rs:116-124 | of all comparisons of prefixes that lose no row, the one chosen for =, >, >=, < and <= implies every other |
| `TagSql.SqlCompareMeans` | askar-storage/src/wql/tags.rs:104-115 | what an operator says of two byte strings: order is decided at the first byte where they differ, an ended string first |
| `TagSql.CompareCorrect` | askar-storage/src/wql/sql.rs:52-90 | a comparison clause selects the item if and only if one of its tags of that name and kind compares so; negated, if and only if none does |
| `TagSql.InCorrect` | askar-storage/src/wql/sql.rs:92-110 | a membership clause selects the item if and only if one of its tags of that name and kind has a listed value; negated, the others; no value listed selects none |
| `TagSql.ExistOneCorrect` | askar-storage/src/wql/sql.rs:112-125 | an existence clause selects the item if and only if it has such a tag; negated, the others |
| `TagSql.NamesCorrect` | askar-storage/src/wql/tags.rs:232-240 | a list of names compiles to "every one present", and under negation to "every one absent" |
| `TagSql.ExistCorrect` | askar-storage/src/wql/tags.rs:221-242 | a list of names is compiled faithfully unless it stands under negation and names different tags |
| `TagSql.VacuousCompilesToNone` | askar-storage/src/wql/tags.rs:221-260 | no clause is emitted exactly for empty Exist, and for combinations under an effective AND all of whose parts emit none |
| `TagSql.VacuousTruthIsMeaning` | askar-storage/src/wql/tags.rs:221-260 | such a query has a constant meaning, computed from its shape |
| `TagSql.CompileCorrect` | askar-storage/src/wql/tags.rs:149-260 | compiler correctness: for every faithful query, sign, starting offset, tag table, item and argument list, the clause selects the item if and only if the query, or its negation, holds of the item |
| `TagSql.ConjCorrect` | askar-storage/src/wql/tags.rs:244-260 | And and Or, with the operator flipped under negation, mean the conjunction or disjunction of their parts |
| `TagSqlAllQueries.CompileSelectsKept` | askar-storage/src/wql/tags.rs:149-260 | for every query whatever its shape, the clause selects exactly the items of a reading that departs from the meaning only at negated lists of names and at dropped children of an OR |
| `TagSqlAllQueries.CorrectExactly` | askar-storage/src/wql/tags.rs:149-260 | where that reading differs from the meaning at an item the clause is wrong about it, and nowhere else |
| `TagSqlExact.FaithfulExactly` | askar-storage/src/wql/tags.rs:149-260 | for queries that name each stored tag in one place, compare with attainable values, list a value in every In and emit no constant 0, the clause is right on every table if and only if the query is faithful |
| `TagSqlExact.Reach` | askar-storage/src/wql/tags.rs:149-260 | such a query can be made to select an item and to reject it by choice of the table |
| `TagSqlExact.CompilerShapeDoesNotDecide` | askar-storage/src/wql/tags.rs:254-257 | two queries of one shape, of which one is compiled correctly for every table and the other is misread on some: once names repeat, no condition on the shape is exact |
| `TagSqlAllQueries.OrdinaryIsFaithful` | askar-storage/src/wql/tags.rs:149-260 | queries with no empty And, Or or Exist and no list of names under an odd number of Nots are faithful |
| `TagSqlAllQueries.OrdinaryCompilesCorrectly` | askar-storage/src/wql/tags.rs:149-260 | queries that have that shape under a sign are compiled correctly under it |
| `TagSqlEdges.VacuousExact` | askar-storage/src/wql/tags.rs:226-257 | for queries that compile to no filter the guard is exact on every table |
| `TagSqlEdges.NegatedExistPointwise` | askar-storage/src/wql/tags.rs:232-240 | a negated list of names is right about an item if and only if the item has all of the names or none |
| `TagSqlEdges.NegatedExistExact` | askar-storage/src/wql/tags.rs:232-240 | it is right on every table if and only if all the names denote one stored name |
| `TagSqlEdges.DroppedChildVanishes` | askar-storage/src/wql/tags.rs:254-257 | a child that emits no clause leaves clause and arguments as if it were not there |
| `TagSqlEdges.DroppedChildExact` | askar-storage/src/wql/tags.rs:254-257 | an effective OR that drops a true child is right about an item if and only if another child holds of it |
| `TagSqlEdges.NeqExact` | askar-storage/src/wql/sql.rs:60-77 | the prefix test on != is right about an item if and only if, when some value differs, some value differs in the first 12 bytes |
| `TagSqlEdges.NegationIsComplement` | askar-storage/src/wql/tags.rs:149-183 | of the two signs of one query exactly one selects each item |
| `SqlText.CompiledIsNonEmptyConj` | askar-storage/src/wql/sql.rs:127-154 | no emitted combination is empty |
| `SqlText.TokensReadBack` | askar-storage/src/wql/sql.rs:127-154 | read with SQL precedence, AND before OR, the emitted tokens have the truth value of the clause and use up exactly its tokens, whatever follows |
| `QueryCondition.ChainExtends` | askar-storage/src/backend/db_utils.rs:649-653 | an operand appended after AND to any chain of operands, bracketed or not, restricts the chain |
| `QueryCondition.FilterExtendsCondition` | askar-storage/src/backend/db_utils.rs:649-653 | so a filter appended to any chain of a query's own tests restricts it by exactly the items the clause selects |
| `QueryCondition.AlternativesExtendExactly` | askar-storage/src/backend/db_utils.rs:649-653 | appended to a condition with an OR outside brackets it restricts the last alternative alone, so it restricts the whole if and only if the filter holds wherever an earlier alternative does |
| `QueryCondition.FilteredQuery` | askar-storage/src/backend/sqlite/mod.rs:39-67 | for conditions of the form of the scan, count and delete queries, one test and then bracketed pairs, the filtered query is about the rows of the unfiltered one that satisfy the filter |
| `SqlPieces.ClauseTextIsTokens` | askar-storage/src/wql/sql.rs:78-154 | the emitted string is the tokens spelled out, with its placeholders as pieces of their own |
| `SqlSpelling.LexSpelled` | askar-storage/src/wql/sql.rs:66-154 | a reader that knows only characters, brackets, connectives, subselects, operators, flags and placeholder marks reads back whatever tokens are spelled out in a sound vocabulary |
| `SqlReadBack.WordsTextSpells` | askar-storage/src/wql/sql.rs:66-154 | the encoder's words are those of the vocabulary: AND and OR, IN and NOT IN, the seven operators, SUBSTR from 1 for 12 and the plaintext flag 0 or 1 |
| `SqlReadBack.DescribedHolds` | askar-storage/src/wql/sql.rs:66-122 | a subselect read as SQL has the truth value of the clause it came from |
| `SqlReadBack.EmittedTextReads` | askar-storage/src/wql/sql.rs:52-154 | for every query, sign and offset the emitted string, with its placeholders numbered, is read character by character to exactly the tokens of the compiled clause, with one mark per argument |
| `SqlReadBack.EmittedTextSelects` | askar-storage/src/wql/sql.rs:52-154 | so the string is a single operand, true of an item if and only if the compiled clause selects the item |
| `SqlReadBack.BackendsAreTellable` | askar-storage/src/backend/postgres/mod.rs:612-614 | the placeholders ?n, $n and ? can all be told from the end of a list, which the reading requires |
| `SqlScan.WordsAreSafe` | askar-storage/src/wql/sql.rs:66-122 | no fixed word contains a dollar sign, and what follows a numbered placeholder does not start with a digit |
| `SqlScan.RewriteText` | askar-storage/src/backend/db_utils.rs:471-509 | on emitted text the scanner rewrites every placeholder and nothing else |
| `SqlPlaces.CompilePlaces` | askar-storage/src/wql/sql.rs:59-122 | through the whole recursion the k-th placeholder of the text is the one for the k-th argument pushed |
| `SqlNumbering.PlacedAligned` | askar-storage/src/wql/sql.rs:59-122 | numbered and anonymous placeholders agree: each number printed is the place at which it stands |
| `SqlNumbering.PlaceholdersNameArguments` | askar-storage/src/backend/db_utils.rs:471-509 | after rewriting with any start, the placeholders of any compiled query are numbered consecutively and there is one for each argument |
| `Placeholders.DecimalRoundTrip` | askar-storage/src/backend/db_utils.rs:491-494 | a printed number is read back as itself |
| `Placeholders.RewriteNumbered` | askar-storage/src/backend/db_utils.rs:482-501 | a dollar sign with a whole run of digits becomes the placeholder of that number plus the start less one |
| `Placeholders.RewriteAnonymous` | askar-storage/src/backend/db_utils.rs:481-501 | a double dollar sign becomes the placeholder of the running index |
| `Placeholders.RewriteStray` | askar-storage/src/backend/db_utils.rs:502-505 | any other dollar sign is copied |
| `Placeholders.ReplaceArgPlaceholders` | askar-storage/src/backend/db_utils.rs:471-509 | the scanning loop computes that rewriting for every input and stays within the text |
| `Placeholders.ReplaceOdbcArgPlaceholders` | askar-storage/src/backend/odbc/mod.rs:997-1031 | the ODBC loop computes the same rewriting with a question mark for every placeholder |
| `TagSqlEncoding.TagSqlEncoder.constructor` | askar-storage/src/wql/sql.rs:20-27 | a new encoder has no arguments |
| `TagSqlEncoding.TagSqlEncoder.EncodeName` | askar-storage/src/wql/sql.rs:38-42 | a name is always encrypted, of either kind |
| `TagSqlEncoding.TagSqlEncoder.EncodeValue` | askar-storage/src/wql/sql.rs:44-50 | a value is encrypted unless the tag is plaintext |
| `TagSqlEncoding.TagSqlEncoder.EncodeOpClause` | askar-storage/src/wql/sql.rs:52-90 | the comparison clause is numbered from the present argument count; name, value and, for encrypted values longer than 12 bytes, the prefix are pushed |
| `TagSqlEncoding.TagSqlEncoder.EncodeInClause` | askar-storage/src/wql/sql.rs:92-110 | one anonymous placeholder per value; name and values are pushed |
| `TagSqlEncoding.TagSqlEncoder.EncodeExistClause` | askar-storage/src/wql/sql.rs:112-125 | one anonymous placeholder; the name is pushed |
| `TagSqlEncoding.TagSqlEncoder.EncodeConjClause` | askar-storage/src/wql/sql.rs:127-154 | the joining loop yields the text of the combination, "0" for an empty OR and nothing for an empty AND |
| `TagSqlEncoding.TagSqlEncoder.EncodeTagOp` | askar-storage/src/wql/tags.rs:185-200 | text and arguments are those of the specified clause; it fails, and pushes nothing, exactly when encryption does |
| `TagSqlEncoding.TagSqlEncoder.EncodeTagIn` | askar-storage/src/wql/tags.rs:202-219 | text and arguments are those of the specified clause; it fails, and pushes nothing, exactly when encryption does |
| `TagSqlEncoding.TagSqlEncoder.EncodeTagExist` | askar-storage/src/wql/tags.rs:221-242 | text and arguments are those of the specified clause, for no, one and many names; on failure the names before the failing one were pushed |
| `TagSqlEncoding.TagSqlEncoder.EncodeTagConj` | askar-storage/src/wql/tags.rs:244-260 | children are encoded in order, those without a clause are left out, and the arguments are those of all children in order, or on failure of those before it and what it had pushed |
| `TagSqlEncoding.TagSqlEncoder.EncodeTagQuery` | askar-storage/src/wql/tags.rs:149-183 | the stateful recursion emits the text of the compiled clause and appends exactly its arguments, for every query and sign; it fails exactly when some encryption does, and then what it has pushed is stated |
| `Searchable.MapNamesHolds` | askar-storage/src/wql/query.rs:90-159 | renaming the names of a query and renaming them in the facts it is asked of come to the same |
| `Searchable.NameSelects` | askar-storage/src/wql/tags.rs:6-18 | a name with a leading tilde selects the plaintext tags called by the rest, and any other name the encrypted tags of that name |
| `Searchable.StoredTagIs` | askar-storage/src/protect/profile_key.rs:206-228 | the bytes of a stored tag: the name, and the value unless plaintext, each sealed under its own key behind a nonce derived from itself |
| `Searchable.EncryptSearchable` | askar-storage/src/protect/profile_key.rs:86-97 | the stored form is the derived nonce followed by the sealed text |
| `Searchable.Decrypt` | askar-storage/src/protect/profile_key.rs:106-116 | the nonce is split off and the rest unsealed; shorter input is an error |
| `Searchable.UnsealSealed` | askar-storage/src/protect/profile_key.rs:86-116 | decrypting a searchable encryption gives the text back |
| `Searchable.SealedInjective` | askar-storage/src/protect/profile_key.rs:86-97 | two texts have the same stored form if and only if they are equal |
| `Searchable.MatchesPlain` | askar-storage/src/protect/profile_key.rs:206-228 | a query asked of the encrypted rows has the answer it has on the plain tags, with = and != on encrypted names and any operator on plaintext ones |
| `Searchable.NoncesPreventCollisions` | askar-storage/src/protect/profile_key.rs:91-96 | when the nonces of distinct values differ, the prefix test on != is harmless |
| `Searchable.SearchAnswersPlainQuery` | askar-storage/src/wql/tags.rs:6-18 | searching ciphertext is searching plaintext: the compiled clause selects an entry if and only if the query, in the user's own names with a tilde for plaintext, holds of the entry's plain tags |
| `QueryGuards.EqualityOnlyExactly` | askar-storage/src/protect/profile_key.rs:206-228 | the condition on encrypted values is met if and only if each comparison of an encrypted name that occurs in the query is = or != |
| `QueryGuards.NoncesDifferExactly` | askar-storage/src/protect/profile_key.rs:91-96 | the condition on nonces is one on the operands of != on encrypted names alone |
| `QueryGuards.CollisionFreeExactly` | askar-storage/src/wql/sql.rs:60-77 | so is the condition on 12-byte prefixes |
| `SearchAll.MapNamesKept` | askar-storage/src/wql/query.rs:90-159 | what is kept of a renamed query is what is kept of the query itself, asked by its own names |
| `TagStorage.DecryptEntryTags` | askar-storage/src/protect/profile_key.rs:230-243 | the folding loop decrypts all tags in order or fails if one does |
| `TagStorage.DecryptEncrypted` | askar-storage/src/protect/profile_key.rs:206-243 | decrypting encrypted tags gives the tags back, in order |
| `TagStorage.TagsSurviveStorage` | askar-storage/src/protect/profile_key.rs:206-243 | encrypted, printed by the database, decoded and decrypted, every list of tags comes back |
| `TagFilter.EncodeTagFilter` | askar-storage/src/backend/db_utils.rs:590-611 | a filter's text is the condition with placeholders numbered from the offset on; it never fails under a profile key and yields nothing exactly when there is nothing to restrict |
| `TagFilter.EncodeOdbcTagFilter` | askar-storage/src/backend/odbc/mod.rs:976-995 | the same with question marks |
| `TagFilter.KthPlaceholder` | askar-storage/src/backend/db_utils.rs:471-509 | the k-th placeholder of a rendered text stands between the renderings of what comes before and after it |
| `TagFilter.RenderingsBindAlike` | askar-storage/src/backend/odbc/mod.rs:976-1031 | the numbered and the positional rendering of any query have one placeholder per argument at the same places, and the k-th of each binds the same value |
| `SearchAll.SearchSelectsKept` | askar-storage/src/protect/profile_key.rs:206-228 | for every query, faithfully compiled or not, the clause over the encrypted table selects an entry by what the compiler keeps of the query, read on the plain tags in the user's own names |
| `SearchAll.KeptPlain` | askar-storage/src/protect/profile_key.rs:206-228 | what the compiler keeps of a query reads the same on the encrypted rows and on the plain tags |
| `TagFilter.FilterSelectsKept` | askar-storage/src/backend/db_utils.rs:590-611 | end to end for every query: the final text, read as SQL character by character with the filter's own arguments, is true of an entry if and only if what is kept of the query, in the user's own names, holds of its plain tags |
| `TagFilter.FilterAnswersPlainQuery` | askar-storage/src/backend/db_utils.rs:590-611 | end to end for faithful queries: that text is true of an entry if and only if the user's query holds of its plain tags; no text is rendered only if the query holds of every entry |
| `TagFilter.FilterAnswersJson` | askar-storage/src/wql/query.rs:190-230 | end to end from the JSON: the final text is true of an entry if and only if what the JSON says holds of its plain tags |
| `QueryExtension.FilterIsNumbered` | askar-storage/src/backend/db_utils.rs:590-611 | a filter's placeholders are numbered consecutively from its offset on, one for each of its arguments |
| `QueryExtension.LimitQuery` | askar-storage/src/backend/db_utils.rs:440-457 | two placeholders are appended and numbered on from the arguments bound so far, with offset and limit bound in the order of the database |
| `QueryExtension.LimitAsks` | askar-storage/src/backend/postgres/mod.rs:616-633 | read as each database reads them, the two numbers ask for the same page: the offset or none, and the limit or none |
| `QueryExtension.AppendOrderAndLimit` | askar-storage/src/backend/db_utils.rs:459-468 | the order is by id, descending if asked, and comes before the limit |
| `QueryExtension.IsSelectExactly` | askar-storage/src/backend/db_utils.rs:654-663 | order and limit go to exactly the queries that are blanks followed by SELECT in large or small letters |
| `QueryExtension.ExtendQuery` | askar-storage/src/backend/db_utils.rs:635-665 | query, filter, order and limit: the placeholders appended are numbered on from the query's own arguments to the number of all arguments, and each names its argument; order and limit are appended to a SELECT only |
| `QueryExtension.AppendedFilterRestricts` | askar-storage/src/backend/db_utils.rs:649-653 | the text " AND " and filter is read as that connective and the filter's tokens, and appended to any chain of tests it restricts the chain to where the filter answers true |
| `QueryExtension.HoleAt` | askar-storage/src/backend/db_utils.rs:635-665 | the placeholder at a position has the number of those before it |
| `WqlJson.ReparseSettles` | askar-storage/src/wql/query.rs:233-266 | printing and parsing a query without reserved names gives the query with empty Or and empty Exist replaced by empty And |
| `WqlJson.ReparseExact` | askar-storage/src/wql/query.rs:233-397 | printing and parsing gives back exactly the queries with no reserved tag name and no empty Or or Exist |
| `WqlJson.ParsedIsStable` | askar-storage/src/wql/query.rs:275-397 | every query the parser accepts is one of those |
| `WqlJson.JsonStability` | askar-storage/src/wql/query.rs:190-230 | for every JSON value that is accepted, printing the result and parsing again gives the same result |
| `WqlJsonMeaning.ParsedMeansJson` | askar-storage/src/wql/query.rs:190-397 | for every JSON value: it is accepted if and only if it has the form of a query, and the query read holds of an item if and only if what the value says does: all fields of an object, some member of a non-empty $or, presence for $exist with a string or list, and in the old array form some restriction that is not blank, or all blank |
| `WqlJsonMeaning.QueryMeansFields` | askar-storage/src/wql/query.rs:275-291 | an object is read as the conjunction of its fields |
| `WqlJsonMeaning.OperatorMeansField` | askar-storage/src/wql/query.rs:293-346 | a field is read as its key and value say, and refused exactly when it has no such form |
| `WqlJsonMeaning.SingleMeans` | askar-storage/src/wql/query.rs:363-397 | so is an operator object of one field |
| `WqlJsonMeaning.RestrictionsMean` | askar-storage/src/wql/query.rs:200-218 | null fields of a restriction count as not given, and blank restrictions as absent |
| `WqlJson.ParseQueryLoop` | askar-storage/src/wql/query.rs:275-291 | the loop over an object's fields computes the specified parse |
| `WqlJson.ParseOperatorCall` | askar-storage/src/wql/query.rs:293-346 | the dispatch on a key computes the specified parse |
| `WqlJson.ParseSingleCall` | askar-storage/src/wql/query.rs:363-397 | the dispatch on a one-field operator computes the specified parse |
| `WqlJson.ParseListLoop` | askar-storage/src/wql/query.rs:348-361 | the loop over a list of objects computes the specified parse |
| `WqlJson.StringsLoop` | askar-storage/src/wql/query.rs:323-331 | the loop over names accepts exactly lists of strings |
| `WqlJson.CompareReparses` | askar-storage/src/wql/query.rs:363-397 | a comparison survives printing and parsing if and only if its name is not reserved |
| `WqlJson.InReparses` | askar-storage/src/wql/query.rs:363-397 | so does a membership test |
| `KeyWrapPasses.StepInverse` | askar-crypto/src/alg/aes/key_wrap.rs:92-148 | a step under one round function is undone by a step under a round function that undoes it |
| `KeyWrapPasses.UnPassesPasses` | askar-crypto/src/alg/aes/key_wrap.rs:91-149 | any number of passes is undone by as many backwards |
| `KeyWrapPasses.PassesUnPasses` | askar-crypto/src/alg/aes/key_wrap.rs:91-149 | and conversely |
| `KeyWrapPasses.IndexingAgreesWithShifting` | askar-crypto/src/alg/aes/key_wrap.rs:91-103 | the indexed passes hold the same registers as the shifting form of section 2.2.1 of RFC 3394 after every pass |
| `KeyWrapPasses.UnwindingAgreesWithShifting` | askar-crypto/src/alg/aes/key_wrap.rs:137-149 | the indexed passes backwards leave the same registers as the shifting form of section 2.2.2 of RFC 3394 |
| `KeyWrap.RoundsInverse` | askar-crypto/src/alg/aes/key_wrap.rs:93-101 | with a permuting cipher the round of wrapping and the round of unwrapping undo one another |
| `KeyWrap.UnwrapWrapped` | askar-crypto/src/alg/aes/key_wrap.rs:64-156 | unwrapping a wrapped text returns it, for every whole number of blocks |
| `KeyWrap.WrapUnwrapped` | askar-crypto/src/alg/aes/key_wrap.rs:64-156 | whatever unwrapping accepts is the wrapping of what it returns |
| `KeyWrapStandard.WrappedIsStandard` | askar-crypto/src/alg/aes/key_wrap.rs:23-106 | the result is the RFC's: from eight bytes A6, 6n shifting steps that encrypt both registers and mix the 64-bit big-endian counter into the first; no blocks wrap to those eight bytes |
| `KeyWrapStandard.UnwrappedIsStandard` | askar-crypto/src/alg/aes/key_wrap.rs:128-156 | unwrapping runs the 6n steps backwards and accepts exactly when the register left is eight bytes A6 |
| `KeyWrapStandard.CounterBytes` | askar-crypto/src/alg/aes/key_wrap.rs:96 | the counter is written in eight bytes, the highest first |
| `ByteOrder.BigEndianSpells` | askar-crypto/src/alg/aes/key_wrap.rs:96 | the bytes of a number, read highest first, give the number cut to their width |
| `KeyWrap.EncryptInPlace` | askar-crypto/src/alg/aes/key_wrap.rs:64-106 | the in-place loops leave the wrapped text and report its length; nonce, additional data or an odd length are refused and change nothing |
| `KeyWrap.EncryptPass` | askar-crypto/src/alg/aes/key_wrap.rs:92-102 | a pass over the buffer performs the indexed pass on the registers it holds |
| `KeyWrap.EncryptTurn` | askar-crypto/src/alg/aes/key_wrap.rs:92-102 | a turn of the loop does one more step of the pass |
| `KeyWrap.EncryptChunk` | askar-crypto/src/alg/aes/key_wrap.rs:93-101 | the bytes moved in a turn perform one step on the chunk |
| `KeyWrap.DecryptInPlace` | askar-crypto/src/alg/aes/key_wrap.rs:108-156 | the backwards loops leave the unwound registers and succeed exactly when the integrity value is right |
| `KeyWrap.DecryptPass` | askar-crypto/src/alg/aes/key_wrap.rs:138-148 | a backwards pass performs the indexed pass undone |
| `KeyWrap.DecryptTurn` | askar-crypto/src/alg/aes/key_wrap.rs:138-148 | a turn of the backwards loop leaves one step less to undo |
| `KeyWrap.DecryptChunk` | askar-crypto/src/alg/aes/key_wrap.rs:139-147 | the bytes moved in a turn perform one step back on the chunk |
| `DbSessions.Step` | askar-storage/src/backend/db_utils.rs:98-360 | every operation on a session keeps the invariant: the depth is the number of transactions open on the connection |
| `DbSessions.DepthCountsTransactions` | askar-storage/src/backend/db_utils.rs:98-183 | after any run from a new session the depth is that number; it is 0 once closed or dropped, and then nothing is open unless a guard was leaked |
| `DbSessions.NothingLeaks` | askar-storage/src/backend/db_utils.rs:333-360 | a run in which no guard is forgotten adds no leaked transaction |
| `DbSessions.CloseCleansExactly` | askar-storage/src/backend/db_utils.rs:150-169 | closing leaves no transaction open if and only if at most one was |
| `DbSessions.StepIsolated` | askar-storage/src/backend/db_utils.rs:286-360 | no operation but closing with commit changes the committed data of a session opened as a transaction |
| `DbSessions.OnlyClosingCommits` | askar-storage/src/backend/db_utils.rs:98-183 | nor does any run of such operations, whatever inner guards were committed or dropped |
| `DbSessions.ClosePublishes` | askar-storage/src/backend/db_utils.rs:150-169 | closing with commit publishes what the session sees, unless a leaked guard is in between |
| `DbSessions.RunReads` | askar-storage/src/backend/db_utils.rs:98-360 | over any run the connection's stack of snapshots behaves as a durable and a current value with at most one undo copy |
| `DbSessions.RunFromNewReads` | askar-storage/src/backend/db_utils.rs:47-61 | so every run from a new session commits and reads what that simple session does |
| `DbSessions.LostNameStaysLost` | askar-storage/src/backend/db_utils.rs:120-128 | after a failed key lookup the profile name is empty for the rest of the run |
| `DbSessions.ResolvedStays` | askar-storage/src/backend/db_utils.rs:120-133 | a resolved key never changes |
| `DbSessions.KeyIsFirstFound` | askar-storage/src/backend/db_utils.rs:98-138 | over every run of a new session the key is resolved to k if and only if k is the id found by the first activation that had a connection and found one; until then the name is the session's own, and empty once a lookup failed |
| `DbSessions.DbSession.constructor` | askar-storage/src/backend/db_utils.rs:47-61 | a new session is pending and touches nothing |
| `DbSessions.DbSession.MakeActive` | askar-storage/src/backend/db_utils.rs:98-138 | without a connection, or the transaction asked for, nothing changes and no id is returned; else the session is active, one deeper if it is a transaction, and the id is the resolved one or the one found, which is kept |
| `DbSessions.DbSession.Begin` | askar-storage/src/backend/db_utils.rs:286-300 | a nested transaction and a guard that must end it |
| `DbSessions.DbSession.AsTransaction` | askar-storage/src/backend/db_utils.rs:302-325 | a guard that ends a transaction only if it started one |
| `DbSessions.DbSession.Close` | askar-storage/src/backend/db_utils.rs:150-169 | closing ends the open transaction as asked and sets the depth to 0 |
| `DbSessions.DbSession.DropSession` | askar-storage/src/backend/db_utils.rs:172-184 | dropping rolls back |
| `DbSessions.DbSessionTxn.Commit` | askar-storage/src/backend/db_utils.rs:338-350 | committing a guard ends its transaction once; the later drop does nothing |
| `DbSessions.DbSessionTxn.DropGuard` | askar-storage/src/backend/db_utils.rs:352-360 | dropping a guard rolls back the transaction it owns |
| `ProfileStore.LoadEncoded` | askar-storage/src/protect/store_key.rs:63-86 | a profile key wrapped under a store key loads under it, for the empty store key too |
| `ProfileStore.StepKeepsInv` | askar-storage/src/backend/odbc/mod.rs:148-317 | create, remove, load and completed rekey keep every row and every cached entry loadable as the key the profile was created with |
| `ProfileStore.RekeyKeepsInv` | askar-storage/src/backend/odbc/mod.rs:260-317 | a completed rekey keeps names, ids and keys, and every row then loads under the new store key |
| `ProfileStore.RunKeepsInv` | askar-storage/src/backend/odbc/mod.rs:148-317 | so does any run of them |
| `ProfileStore.CachesAgree` | askar-storage/src/protect/mod.rs:29-67 | after any run, an entry of the current cache whose name is still in the table has that row's id, and an entry of any cache that has a row's id has the key its bytes unwrap to |
| `ProfileStore.RetiredCacheAgreesExactly` | askar-storage/src/backend/odbc/mod.rs:260-317 | for every cache that is no longer the backend's and every entry of it, at any moment of any run: over every run that follows, the entry is about the row of its name, and then holds its key, if and only if it is so at that moment and the name is not removed afterwards |
| `ProfileStore.StrayIsGone` | askar-storage/src/backend/odbc/mod.rs:246-258 | an entry that is not about the row of its name is about a profile whose id no row has or will have |
| `ProfileStore.RowUntilRemoved` | askar-storage/src/backend/odbc/mod.rs:246-258 | a row keeps its id until it is removed, and then the id is gone for good |
| `ProfileStore.RowsAreLongEnough` | askar-storage/src/protect/store_key.rs:75-86 | under the current store key no row is ever shorter than a nonce, so unwrapping does not abort on it |
| `ProfileStore.KeysNeverChange` | askar-storage/src/backend/odbc/mod.rs:260-317 | over any run a profile's key never changes, and its row always unwraps to it |
| `ProfileStore.OldCacheGoesStale` | askar-storage/src/backend/odbc/mod.rs:313 | a run after which a cache kept across a rekey names a row that was since replaced |
| `ProfileStore.InterruptedRekeyExact` | askar-storage/src/backend/odbc/mod.rs:296-313 | if a rekey does not complete, exactly the rows not yet rewritten still load under the current store key |
| `ProfileStore.OdbcBackend.constructor` | askar-storage/src/protect/mod.rs:36-41 | a store starts without profiles and with an empty cache |
| `ProfileStore.OdbcBackend.CreateProfile` | askar-storage/src/backend/odbc/mod.rs:148-194 | a new name gets the next id, a row with the key wrapped behind its 12-byte nonce, and a cached entry; a used one is refused and changes nothing |
| `ProfileStore.OdbcBackend.RemoveProfile` | askar-storage/src/backend/odbc/mod.rs:246-258 | the row goes and the cache keeps its entry |
| `ProfileStore.OdbcBackend.AcquireKey` | askar-storage/src/backend/odbc/mod.rs:405-433 | the cache is asked first, then the row, whose key is cached; a name in neither aborts, and a row may fail to load |
| `ProfileStore.OdbcBackend.Rekey` | askar-storage/src/backend/odbc/mod.rs:260-317 | every row is rewrapped, the store key recorded and the cache replaced; if a row does not load or is refused, exactly the rows of lower id stay rewritten, and if only the store key is not recorded all do |
| `ProfileStore.OdbcBackend.RewriteRows` | askar-storage/src/backend/odbc/mod.rs:296-306 | the loop over the collected keys goes by ascending id, rewrites each row once and stops before the first that fails |
| `TagCodec.HexRoundTrip` | askar-storage/src/backend/db_utils.rs:532-533 | hexadecimal digits of either case decode to the bytes |
| `TagCodec.DecodePrinted` | askar-storage/src/backend/db_utils.rs:511-552 | decoding the printing of any list of tags, with any bytes in names and values, returns the list |
| `TagCodecExact.DecodesExactly` | askar-storage/src/backend/db_utils.rs:511-552 | a text decodes to a list of tags if and only if it spells the list: per tag a flag byte that is 1 for plaintext, one byte unread, the digits of the name, a colon, the digits of the value, and a comma or the end |
| `TagCodecExact.HexDecodesExactly` | askar-storage/src/backend/db_utils.rs:532-533 | digits decode to bytes if and only if there are two per byte, each 0 to 9, a to f or A to F, the higher first |
| `TagCodec.FirstPrinted` | askar-storage/src/backend/db_utils.rs:522-549 | one printed tag is read off and the rest is what follows its comma |
| `TagCodec.DecodeTags` | askar-storage/src/backend/db_utils.rs:511-552 | on every byte string both loops end without an index out of range and compute the specified outcome, error or list |
| `TagCodec.DecodeTurn` | askar-storage/src/backend/db_utils.rs:522-549 | one turn of the outer loop reads the first tag of what is left |
| `TagCodec.DecodeOne` | askar-storage/src/backend/db_utils.rs:527-548 | the inner loop fails exactly on no colon, a second colon or bad digits |
| `ConcatKdf.InfoDeterminesParams` | askar-crypto/src/kdf/concat.rs:88-98 | fields under 2^32 bytes cannot run into one another: parameters with public information of one length that are hashed alike are equal |
| `ConcatKdf.DerivedIsConcatenation` | askar-crypto/src/kdf/concat.rs:35-57 | the derived key is the front of H(1, Z, info), H(2, Z, info), and so on, as in section 4.6.2 of RFC 7518 |
| `ConcatKdf.DeriveKey` | askar-crypto/src/kdf/concat.rs:35-57 | the loop fills exactly that key for every permitted length and refuses the others; the counter overflows if and only if the length exceeds 2^32 - 2 blocks, and only after its last use |
| `ConcatKdf.FillBlock` | askar-crypto/src/kdf/concat.rs:46-55 | pass k hashes the number k and copies as much of the block as fits |
| `ConcatKdf.PassNumberFits` | askar-crypto/src/kdf/concat.rs:41-47 | for permitted lengths every pass number fits in 32 bits |
| `ConcatKdf.ConcatKdfHash.constructor` | askar-crypto/src/kdf/concat.rs:69-74 | the counter starts at 1 |
| `ConcatKdf.ConcatKdfHash.StartPass` | askar-crypto/src/kdf/concat.rs:77-80 | the counter is hashed, big-endian, and then incremented |
| `ConcatKdf.ConcatKdfHash.HashParams` | askar-crypto/src/kdf/concat.rs:88-98 | algorithm, both parties and the two informations are hashed in this order, the first three under 32-bit lengths |
| `ConcatKdf.ConcatKdfHash.FinishPass` | askar-crypto/src/kdf/concat.rs:101-106 | the digest of what was absorbed, and a reset |
| `Ecdh.EsAgreement` | askar-crypto/src/kdf/ecdh_es.rs:48-79 | sender and receiver, each with only its own secret key, derive the same key, that of the shared secret and the length in bits, for every permitted length |
| `Ecdh.OnePuAgreement` | askar-crypto/src/kdf/ecdh_1pu.rs:55-100 | so they do with two exchanges, the ephemeral secret before the sender's, and the tag under its length; a key comes out if and only if it has at most 32 bytes and the tag at most 124, and tags of 125 to 128 bytes are refused by the buffer after passing the length check |
| `Ecdh.OnePassSuffices` | askar-crypto/src/kdf/ecdh_1pu.rs:95-97 | up to one block a single pass is the whole derivation |
| `Ecdh.WriteKeyExchange` | askar-crypto/src/alg/x25519.rs:213-222 | the shared secret is hashed, or the missing secret key reported and nothing hashed |
| `Ecdh.EcdhEs` | askar-crypto/src/kdf/ecdh_es.rs:48-79 | the output is the concatenation derivation of the shared secret, or the stated error and an unchanged output |
| `Ecdh.Ecdh1PU` | askar-crypto/src/kdf/ecdh_1pu.rs:55-100 | the output is the concatenation derivation of both shared secrets, or the stated error and an unchanged output |
| `Ecdh.FillPubInfo` | askar-crypto/src/kdf/ecdh_1pu.rs:79-85 | the buffer of 132 bytes holds length and tag exactly when the tag has at most 124 bytes |
| `SliceWriter.SpliceBack` | askar-crypto/src/buffer/writer.rs:40-70 | splicing the replaced bytes back in restores the contents |
| `SliceWriter.InsertThenRemove` | askar-crypto/src/buffer/writer.rs:99-109 | removing what was inserted restores the contents |
| `SliceWriter.SplicesCommute` | askar-crypto/src/buffer/writer.rs:40-70 | two splices at separate places may be made in either order |
| `SliceWriter.MoveSplices` | askar-crypto/src/buffer/writer.rs:49-68 | the overlapping move and the write that follows it together splice, and leave the bytes beyond the position alone |
| `SliceWriter.PanicsWithinContents` | askar-crypto/src/buffer/writer.rs:55-56 | of the splices within the contents that fit, exactly those that grow by more than the end of their range abort; so does every insertion at the front |
| `SliceWriter.Writer.constructor` | askar-crypto/src/buffer/writer.rs:25-30 | a writer starts with no contents |
| `SliceWriter.Writer.CopyWithin` | askar-crypto/src/buffer/writer.rs:55-63 | an overlapping move copies the bytes as they were |
| `SliceWriter.Writer.Splice` | askar-crypto/src/buffer/writer.rs:40-70 | contents and position after a splice, within the written part and past it, and exactly when it fails or aborts |
| `SliceWriter.Writer.MakeRoom` | askar-crypto/src/buffer/writer.rs:49-66 | the move alone |
| `SliceWriter.Writer.BufferWrite` | askar-crypto/src/buffer/writer.rs:86-95 | appends, or fails exactly when it does not fit |
| `SliceWriter.Writer.BufferInsert` | askar-crypto/src/buffer/writer.rs:99-101 | inserts, fails exactly when it does not fit, and aborts exactly when the position is less than the number of bytes or too far past the contents |
| `SliceWriter.Writer.BufferRemove` | askar-crypto/src/buffer/writer.rs:103-109 | removes a range within the contents and aborts on any other |
| `SliceWriter.Writer.BufferResize` | askar-crypto/src/buffer/writer.rs:111-118 | the length is added to the position, so the contents get the length asked for exactly when they were empty |
| `Buffers.OffsetWriter.BufferInsert` | askar-crypto/src/buffer/writer.rs:156-158 | inserts within the view and keeps the skipped prefix; a position outside aborts and changes nothing |
| `Buffers.OffsetWriter.BufferRemove` | askar-crypto/src/buffer/writer.rs:160-163 | removes within the view and keeps the skipped prefix; a range outside aborts and changes nothing |
| `Buffers.OffsetWriter.SetView` | askar-crypto/src/buffer/writer.rs:149-153 | encrypting in place through the view keeps the skipped prefix |
| `CryptoBox.UnboxedExactly` | askar-crypto/src/encrypt/crypto_box.rs:48-87 | a box opens to a message if and only if it is that message's box |
| `CryptoBox.OpenSealed` | askar-crypto/src/encrypt/crypto_box.rs:104-130 | the holder of the key opens what was sealed for it, for every message and ephemeral key |
| `CryptoBox.OpenedExactly` | askar-crypto/src/encrypt/crypto_box.rs:104-130 | behind a given ephemeral key, exactly the sealed message opens as that message |
| `CryptoBox.Box` | askar-crypto/src/encrypt/crypto_box.rs:48-63 | the view becomes tag and ciphertext, or stays as it was on an error |
| `CryptoBox.Unbox` | askar-crypto/src/encrypt/crypto_box.rs:66-87 | the view becomes the message, or stays as it was on an error |
| `CryptoBox.Seal` | askar-crypto/src/encrypt/crypto_box.rs:104-115 | the result is the ephemeral key, then tag and ciphertext under the nonce that hashes ephemeral key and recipient key in this order |
| `CryptoBox.SealOpen` | askar-crypto/src/encrypt/crypto_box.rs:118-130 | the message, or an error for fewer than 48 bytes, a missing secret key or a failed decryption |
| `TagSet.UpsertSorted` | src/ffi/tags.rs:173-180 | grouping keeps the names in order and once each |
| `TagSet.UpsertAdds` | src/ffi/tags.rs:173-180 | and adds each value at the end of its name's |
| `TagSet.KeyRoundTrip` | src/ffi/tags.rs:60-64 | a printed name is read back as itself if and only if it needs no escape in JSON and is plaintext, or not empty and without a leading tilde |
| `TagSet.PrintedNameAsks` | src/ffi/tags.rs:159-169 | a printed name is the one by which a search asks for the tag |
| `TagSet.ReadKeyAsks` | src/ffi/tags.rs:60-64 | a key is read, unless empty or escaped, as the name of the tags a search by it asks for |
| `TagSet.WrittenMembers` | src/ffi/tags.rs:182-190 | a member has its name, with a tilde if plaintext, and a list exactly when there are several values |
| `TagSet.ReadObject` | src/ffi/tags.rs:53-86 | any object is read to the values under each name in order, unless a key is empty or escaped |
| `TagSet.KeyBeforeExactly` | src/ffi/tags.rs:149-151 | names are ordered by text at the first difference, a plaintext name before an encrypted one of the same text |
| `TagSet.RoundTrip` | src/ffi/tags.rs:53-86 | with such names, reading the written object gives the same tags, the values of each name in order |
| `TagSet.RoundTripExactly` | src/ffi/tags.rs:142-191 | the tags come back if and only if all names are such |
| `TagSet.WritesAlike` | src/ffi/tags.rs:173-191 | the object written depends only on the values under each name |
| `TagSet.Serialize` | src/ffi/tags.rs:142-191 | both loops compute the grouped object |
| `TagSet.Deserialize` | src/ffi/tags.rs:53-86 | the loop over an object's entries computes the list of tags, or fails on an empty name and on one spelled with an escape |
| `KeyEntries.PrefixStrip` | src/kms/entry.rs:128-130 | the prefix is added and removed without loss |
| `KeyEntries.OrderIrrelevant` | src/kms/entry.rs:125-139 | what is read from an entry does not depend on the order of its tags |
| `KeyEntries.KeyTagsSplit` | src/store.rs:367-380 | algorithm, thumbprints and user tags come apart again, even where the user named a tag alg or thumb |
| `KeyEntries.KeyTagsAre` | src/store.rs:367-380 | a key is stored with an encrypted tag alg, encrypted tags thumb, and the user's tags under user: with their kind |
| `KeyEntries.ViewOfKey` | src/kms/entry.rs:119-150 | a key's tags in any order give its algorithm, its sorted thumbprints and the user's sorted tags |
| `KeyEntries.UpdateHolds` | src/store.rs:506-516 | an update replaces the user's tags and keeps the key's own |
| `KeyEntries.FetchAfterRun` | src/store.rs:489-531 | after an insertion and any number of updates, a fetch gives the algorithm, the thumbprints and the last tags given |
| `KeyEntries.SplitTags` | src/kms/entry.rs:121-139 | the loop that renames and removes in place computes the three parts |
| `KeyEntries.FromEntry` | src/kms/entry.rs:119-150 | an entry is read so, or fails on bad parameters |
| `KeyEntries.Session.InsertKey` | src/store.rs:347-393 | the row stored holds the key and the expiry; a key that yields no data and a used name are refused |
| `KeyEntries.Session.UpdateKey` | src/store.rs:489-531 | the row still holds the same key, under the new metadata, tags and expiry; a missing name is an error |
| `KeyEntries.Session.FetchKey` | src/store.rs:399-420 | the key comes back as stored |
| `Sorting.SortCanonical` | src/kms/entry.rs:141-142 | sorted lists are equal whenever they have the same elements equally often |
| `KeyEntries.OrdersAreStrict` | askar-storage/src/entry.rs:110-116 | the orders of texts and of tags are strict and total |
| `KeyEntries.TagBeforeExactly` | askar-storage/src/entry.rs:110-116 | encrypted tags come first, then the lesser name, then the lesser value, each decided at the first difference |

## Left out

- Concrete ciphers, hashes, HMAC, curves, base64, CBOR and JSON text: code of other libraries.
- AES-CBC-HMAC, AES-GCM and ChaCha20 wrappers: their difficult steps lie in those libraries.
- QueryExtension.ExtendQuery: the test for SELECT folds the case of ASCII letters and skips ASCII blanks only.
- QueryExtension.IsSelectExactly: for the same reason speaks of ASCII letters and blanks.
- QueryExtension.LimitAsks: negative limits, which SQLite reads as none and PostgreSQL refuses, are left open.
- `create_query` of the ODBC backend beyond the filter it appends.
- ODBC `update` with Replace, which deletes tags by profile id: the key session is modelled on a store whose Replace replaces value and tags.
- `fetch_all_keys`: with names that start with a tilde the added prefix hides the marker.
- `map_values` and the value side of `map`: no value is renamed on the way to the compiler.
- `derive_value_key` and the encryption of entry values, names and categories: the same steps as for tags, without search.
- Key wrap with padding, JWK encoding, `Options::into_uri`, curve key types and `AnyKey` dispatch: easy or finite.
- Indy migration, provisioning, connection pools, foreign-function entry points and language wrappers: input and output.
- Concurrent use of one cache by several sessions beyond the interleaving of whole operations.
- Placeholders.ReplaceArgPlaceholders: numbers are unbounded, so the overflow of a 64-bit parse of a longer run of digits is not modelled; the encoder prints no such number.
- ConcatKdf.DeriveKey: the product of block size and 2^32 - 1 is taken as it is on 64-bit machines; where it would overflow a 32-bit size is not modelled.
- Searchable.EncryptSearchable: a failing key derivation or cipher is not an outcome; the encoder's closures may fail, those made from a profile key do not.
- TagFilter.EncodeTagFilter: for the same reason never fails.
- TagFilter.EncodeOdbcTagFilter: for the same reason never fails.
- KeyWrap.EncryptInPlace: the buffer can always grow by eight bytes; one that cannot is not modelled.
- TagSet.Deserialize: a key that is spelled with an escape without need is refused too, which a model without text does not show.
- Buffers.OffsetWriter.BufferInsert: the inner buffer can always grow; one that reports an error is not modelled.
- Buffers.OffsetWriter.BufferRemove: an inner buffer that reports an error is not modelled.
- CryptoBox.Box: neither the length limit of the cipher nor a buffer that cannot grow is modelled.
- KeyEntries.Session.InsertKey: a failing computation of the thumbprints is not an outcome, and what an expiry does when it passes is not modelled.
- KeyEntries.Session.UpdateKey: what an expiry does when it passes is not modelled.
