# QuadTreeField, modelled in Dafny

`QuadTreeField` is a Solr field type that indexes shapes as quad-tree cell
tokens and queries them with weighted per-level clauses. This project models
its three jobs:

- **Configuration** (`init`). The schema arguments may give `resolutions`, a
  comma- or space-separated list of bytes. When they do, they must also give
  the `prefix` that auxiliary field names start with. The grid is then fixed to
  the world rectangle x in [-180, 180], y in [-270, 90], with 16 levels and a
  resolution of 5 (`Quads.DefaultGrid`).
- **Index-time field layout** (`createFields`). A value produces one primary
  field plus one auxiliary field per resolution.
  - A value starting with `[` is a raw list of cells. It is stored verbatim and
    read by the cell tokenizer.
  - Any other value is parsed into a shape and matched against the grid.
  - Each auxiliary field holds the distinct primary tokens whose length lies
    in `[1, resolution]`.
- **Query assembly** (`getFieldQuery`). The query shape is matched, transformed
  ("mostly within"), and turned into SHOULD clauses, at most two per level:
  - one over the intersecting cells, on `prefix + two-digit level`;
  - one over the covered cells, on that name plus `_cover`, boosted by
    `(depth - level) + 2`.

Range queries, generic spatial queries and sorting are rejected.

Layout of the project:

- `Solr.QuadTreeField` (quad_tree_field.dfy) is the field type as a class. It
  has the source's mutable state: the `resolutions` byte array, the prefix and
  the grid.
  - Its methods loop as the source does: filling the byte array, filling the
    field array slot by slot, and adding clauses to a mutable `BooleanQuery`.
  - Each method is proved to compute the pure specification in `QuadTreeSpec`
    (quad_tree_spec.dfy). The lemmas there state what the source promises.
- The Java and Lucene library behaviour it relies on is modelled in
  java_text.dfy and lucene.dfy:
  - `StringTokenizer`;
  - `Byte.parseByte`;
  - string concatenation of numbers and of `null`;
  - `NumberFormat` with two minimum digits;
  - `List.toString`;
  - `LengthFilter`, `RemoveDuplicatesTokenFilter` and `BooleanQuery.add`
    with its clause limit.
- The shape parser, the grid matcher, the mostly-within transform and the cell
  tokenizer are not part of this model. They are inputs, gathered in
  `Quads.Env` (quads.dfy), and the shape is an abstract type.

Two index/query mismatches of the source are modelled as written:

- Index-time auxiliary names are `prefix + resolution` in plain decimal.
  Query-time names are `prefix + level` padded to two digits. They name the
  same field only for equal numbers of at least two digits
  (`QuadTreeSpec.LevelFieldIsAuxFieldIff`).
- No auxiliary field the index writes is ever named `..._cover`
  (`QuadTreeSpec.CoverFieldNeverIndexed`).

Two details of the source are kept as written:

- The grid's minimum y is written `-90-180`, that is -270
  (QuadTreeField.java:106; `Quads.DefaultGridIsSquare`).
- Covered cells are queried on the level name followed by `_cover`
  (QuadTreeField.java:188), so a covered cell at level 2 is queried on
  `<prefix>02_cover` (`QuadTreeSpec.SingleCoverLevel`).

## Model

| member | source | states |
|---|---|---|
| Solr.QuadTreeField.constructor | quad-solr/src/main/java/voyager/quads/solr/QuadTreeField.java:81-85 | before `init`, the prefix is null and there are no resolutions (and no grid) |
| Solr.QuadTreeField.Init | quad-solr/src/main/java/voyager/quads/solr/QuadTreeField.java:88-108 | succeeds exactly when `ParseSettings` does, and fails with its error otherwise. Without `resolutions`, the arguments, resolutions and prefix are untouched. With it: the key is removed; a fresh array gets one slot per token; on a good parse the array holds the parsed bytes in order, the prefix is the removed `prefix` value (null if absent) and both keys are gone. The grid becomes the default grid only on success |
| Solr.QuadTreeField.ReadResolutions | quad-solr/src/main/java/voyager/quads/solr/QuadTreeField.java:93-97 | the byte loop allocates one slot per token. It succeeds iff every token is a byte, and then the array equals `ParseBytes` of the tokens; grid and prefix are unchanged |
| Solr.ParseBytesFailsFrom | quad-solr/src/main/java/voyager/quads/solr/QuadTreeField.java:95-96 | once token n fails `Byte.parseByte` after n-1 good tokens, parsing the whole list fails on that token |
| Solr.QuadTreeField.CreateFields | quad-solr/src/main/java/voyager/quads/solr/QuadTreeField.java:113-156 | fails exactly when `FieldLayout` fails, with its error. On success it returns a fresh array whose contents are `FieldLayout`'s fields |
| Solr.QuadTreeField.FillAuxFields | quad-solr/src/main/java/voyager/quads/solr/QuadTreeField.java:123-129 | slot 0 is left alone and slot i becomes the auxiliary field of resolution i-1 over the primary tokens (the same loop appears at :147-153) |
| Solr.QuadTreeField.GetRangeQuery | quad-solr/src/main/java/voyager/quads/solr/QuadTreeField.java:160-162 | always fails as unsupported |
| Solr.QuadTreeField.GetFieldQuery | quad-solr/src/main/java/voyager/quads/solr/QuadTreeField.java:165-203 | fails exactly when `FieldQuery` fails, with its error. On success it returns a fresh query with coordination disabled whose clauses are `FieldQuery`'s clauses, in order |
| Solr.QuadTreeField.AddLevelClauses | quad-solr/src/main/java/voyager/quads/solr/QuadTreeField.java:180-192 | adds a level's intersects clause (if any) and then its covers clause (if any). It succeeds iff the query stays within the clause limit, and then the query grows by exactly `LevelClauses`. On failure the query holds the clauses that still fitted, that is, the intersects clause added before the covers clause is refused at :191 |
| Solr.QuadTreeField.CreateSpatialQuery | quad-solr/src/main/java/voyager/quads/solr/QuadTreeField.java:206-208 | always fails as unsupported |
| Solr.QuadTreeField.GetSortField | quad-solr/src/main/java/voyager/quads/solr/QuadTreeField.java:226-228 | always a BAD_REQUEST whose message is "Sorting not supported on QuadTreeField " followed by the field name |
| Lucene.BooleanQuery.constructor | quad-solr/src/main/java/voyager/quads/solr/QuadTreeField.java:178 | a new query has the given coordination flag and no clauses |
| Lucene.BooleanQuery.Add | quad-solr/src/main/java/voyager/quads/solr/QuadTreeField.java:185 | appends the clause iff the query holds fewer than the clause limit, and leaves it unchanged otherwise (also :191) |
| Lucene.LengthFilter | quad-solr/src/main/java/voyager/quads/solr/QuadTreeField.java:127-128 | a token is kept iff its length lies in [min, max]; never more tokens than given |
| Lucene.RemoveDuplicates | quad-solr/src/main/java/voyager/quads/solr/QuadTreeField.java:126 | same set of tokens as the input, each once, never longer |
| JavaText.Tokenize | quad-solr/src/main/java/voyager/quads/solr/QuadTreeField.java:93 | every token is non-empty and holds no delimiter |
| JavaText.TokenizeJoin | quad-solr/src/main/java/voyager/quads/solr/QuadTreeField.java:93-96 | tokens joined by a non-empty run of delimiters tokenize back to the same tokens |
| JavaText.ParseByte | quad-solr/src/main/java/voyager/quads/solr/QuadTreeField.java:96 | succeeds iff `Integer.parseInt` does and the value fits in a byte, and then returns that value |
| JavaText.ParseInt | quad-solr/src/main/java/voyager/quads/solr/QuadTreeField.java:96 | succeeds iff the text is an optional sign followed by decimal digits whose value lies in the 32-bit `int` range, and then returns that value |
| JavaText.ParseDecimalRoundTrip | quad-solr/src/main/java/voyager/quads/solr/QuadTreeField.java:96 | the sign-and-digits reading gives back the decimal form of every integer |
| JavaText.ParseIntDecimal | quad-solr/src/main/java/voyager/quads/solr/QuadTreeField.java:96 | `Integer.parseInt` reads back the decimal form of every value in the `int` range |
| JavaText.ParseByteDecimal | quad-solr/src/main/java/voyager/quads/solr/QuadTreeField.java:96 | `Byte.parseByte` reads back the decimal form of every byte |
| JavaText.DecimalStringInjective | quad-solr/src/main/java/voyager/quads/solr/QuadTreeField.java:125 | distinct resolutions get distinct decimal suffixes, hence distinct auxiliary names |
| JavaText.TwoDigitMatchesDecimal | quad-solr/src/main/java/voyager/quads/solr/QuadTreeField.java:167-168 | the two-digit form of n equals the plain decimal form of m iff n = m and n has at least two digits |
| JavaText.ListToString | quad-solr/src/main/java/voyager/quads/solr/QuadTreeField.java:144 | the stored form of a token list starts with `[` and ends with `]`, and between them holds the elements in order, separated by a comma and a space |
| JavaText.ListToStringTokens | quad-solr/src/main/java/voyager/quads/solr/QuadTreeField.java:144 | with the brackets removed, the stored form of a list of tokens tokenizes, on the delimiters used at :93, back to the same list |
| JavaText.TwoDigit | quad-solr/src/main/java/voyager/quads/solr/QuadTreeField.java:167-168 | the two-digit form starts with `-` iff the level is negative, and has at least two characters after any sign |
| JavaText.ParseIntTwoDigit | quad-solr/src/main/java/voyager/quads/solr/QuadTreeField.java:167-168 | `Integer.parseInt` reads back the two-digit form of every value in the `int` range, leading zero included |
| QuadTreeSpec.ParseBytes | quad-solr/src/main/java/voyager/quads/solr/QuadTreeField.java:94-97 | succeeds iff every token is a byte, giving one byte per token in order. Otherwise it fails on the first token that is not a byte |
| QuadTreeSpec.ParseResolutions | quad-solr/src/main/java/voyager/quads/solr/QuadTreeField.java:93-97 | succeeds when every comma- or space-separated token is a byte, and then gives one byte per token, each the value `Byte.parseByte` reads from its token |
| QuadTreeSpec.ParseSettings | quad-solr/src/main/java/voyager/quads/solr/QuadTreeField.java:91-103 | absent `resolutions` yields no settings and needs no prefix. Present `resolutions` succeeds iff it parses and `prefix` is given, and then yields settings; a bad byte fails with the parse error; a good parse without a prefix is the missing-prefix error. On success the resolutions are the parsed bytes and the prefix is the argument |
| QuadTreeSpec.ResolutionsRoundTrip | quad-solr/src/main/java/voyager/quads/solr/QuadTreeField.java:93-96 | any byte list written comma-and-space separated parses back to itself |
| QuadTreeSpec.SettingsRoundTrip | quad-solr/src/main/java/voyager/quads/solr/QuadTreeField.java:91-103 | arguments holding written resolutions and a prefix are accepted as exactly those settings |
| QuadTreeSpec.AuxFieldNameResolution | quad-solr/src/main/java/voyager/quads/solr/QuadTreeField.java:125 | an auxiliary field name is the prefix (`null` when absent) followed by text that `Byte.parseByte` reads back as the resolution (also :149) |
| QuadTreeSpec.LevelFieldNameLevel | quad-solr/src/main/java/voyager/quads/solr/QuadTreeField.java:180 | a level field name is the prefix followed by at least two characters that `Integer.parseInt` reads back as the level |
| QuadTreeSpec.CoverFieldNameLevel | quad-solr/src/main/java/voyager/quads/solr/QuadTreeField.java:188 | a cover field name is the level field name followed by `_cover`, so it never ends in a digit |
| QuadTreeSpec.LevelFieldIsAuxFieldIff | quad-solr/src/main/java/voyager/quads/solr/QuadTreeField.java:180 | a query-time level name equals an index-time auxiliary name (:125, :149) iff level = resolution and the level has at least two digits |
| QuadTreeSpec.CoverFieldNeverIndexed | quad-solr/src/main/java/voyager/quads/solr/QuadTreeField.java:188 | no `_cover` name ever equals an auxiliary field name written at :125 or :149, whatever the prefixes |
| QuadTreeSpec.ListToStringIsRawLiteral | quad-solr/src/main/java/voyager/quads/solr/QuadTreeField.java:119 | the stored text of a token list (:144) always starts with `[`, so it is read back as a raw literal |
| QuadTreeSpec.AuxTokensFilter | quad-solr/src/main/java/voyager/quads/solr/QuadTreeField.java:126-128 | an auxiliary token list holds exactly the source tokens of length 1 to the resolution, each once |
| QuadTreeSpec.WithAuxFields | quad-solr/src/main/java/voyager/quads/solr/QuadTreeField.java:115-129 | one field more than there are resolutions: the primary first, then field i as the auxiliary field of resolution i-1 over the primary tokens |
| QuadTreeSpec.FieldLayout | quad-solr/src/main/java/voyager/quads/solr/QuadTreeField.java:113-156 | fails, with BAD_REQUEST wrapping the parse error, iff the value is not raw and does not parse. Otherwise: one field more than there are resolutions; field 0 has the schema name and stored flag. Raw values keep the value verbatim with the cell tokens. Shapes take the match tokens, with the token list's text as value iff the field is stored. Field i is the auxiliary field of resolution i-1 over field 0's tokens |
| QuadTreeSpec.AuxFieldsFilterPrimary | quad-solr/src/main/java/voyager/quads/solr/QuadTreeField.java:123-128 | auxiliary field i is named prefix + resolution, is not stored, has no value, and its tokens are exactly the distinct primary tokens of length 1 to the resolution (same at :147-152) |
| QuadTreeSpec.RawLiteralBypassesMatcher | quad-solr/src/main/java/voyager/quads/solr/QuadTreeField.java:119-129 | for a raw value, the layout does not depend on the shape parser, the grid or the matcher, only on the cells read from the literal |
| QuadTreeSpec.StoredValueReindexes | quad-solr/src/main/java/voyager/quads/solr/QuadTreeField.java:142-146 | the stored value of a matched shape is itself a raw literal; when it reads back as the same cells, re-indexing it gives the same fields |
| QuadTreeSpec.QueryClauses | quad-solr/src/main/java/voyager/quads/solr/QuadTreeField.java:179-193 | at most two clauses per level |
| QuadTreeSpec.QueryClausesStep | quad-solr/src/main/java/voyager/quads/solr/QuadTreeField.java:179-193 | handling level i appends exactly that level's clauses to those of the levels before it |
| QuadTreeSpec.QueryClausesPrefixLength | quad-solr/src/main/java/voyager/quads/solr/QuadTreeField.java:179-193 | the levels handled so far never have more clauses than all levels |
| QuadTreeSpec.LevelClausesMembers | quad-solr/src/main/java/voyager/quads/solr/QuadTreeField.java:182-192 | a level contributes its intersects clause iff it has intersecting cells, and its covers clause iff it has covered cells, and nothing else |
| QuadTreeSpec.LevelClausesOrder | quad-solr/src/main/java/voyager/quads/solr/QuadTreeField.java:182-192 | a level gives at most two clauses, none iff it has neither intersecting nor covered cells; the intersects clause comes first and the covers clause last |
| QuadTreeSpec.CoverBoost | quad-solr/src/main/java/voyager/quads/solr/QuadTreeField.java:190 | the boost is 2 iff the level is the match depth, and greater than 2 iff the level is less than the depth |
| QuadTreeSpec.QueryClausesMembers | quad-solr/src/main/java/voyager/quads/solr/QuadTreeField.java:179-193 | a clause is in the query iff some level contributes it |
| QuadTreeSpec.QueryClausesEmpty | quad-solr/src/main/java/voyager/quads/solr/QuadTreeField.java:182-187 | the query has no clauses iff every level has neither intersecting nor covered cells |
| QuadTreeSpec.QueryClausesBoosts | quad-solr/src/main/java/voyager/quads/solr/QuadTreeField.java:185-191 | every clause is SHOULD. A clause is boosted iff it is the covers clause of some level, and its boost is (depth - level) + 2 |
| QuadTreeSpec.LevelClausesBoost | quad-solr/src/main/java/voyager/quads/solr/QuadTreeField.java:187-191 | within one level, only the covers clause, which comes last, carries a boost |
| QuadTreeSpec.EarlierBoostsLarger | quad-solr/src/main/java/voyager/quads/solr/QuadTreeField.java:190 | every boost from levels below a bound exceeds the boost at the bound |
| QuadTreeSpec.BoostsDecreaseAppend | quad-solr/src/main/java/voyager/quads/solr/QuadTreeField.java:179-191 | appending a level whose only boost is smaller than every earlier boost keeps the boosts strictly decreasing |
| QuadTreeSpec.CoverBoostsDecrease | quad-solr/src/main/java/voyager/quads/solr/QuadTreeField.java:176-190 | with levels in increasing order, the boosts strictly decrease along the query |
| QuadTreeSpec.FieldQuery | quad-solr/src/main/java/voyager/quads/solr/QuadTreeField.java:165-203 | an unparseable shape is BAD_REQUEST wrapping the parse error. For a parsed shape, with the clauses built from the mostly-within levels and the depth being the number of matched levels, the query succeeds iff those clauses fit the clause limit, and then it is exactly those clauses; otherwise it is BAD_REQUEST for too many clauses |
| QuadTreeSpec.SingleCoverLevel | quad-solr/src/main/java/voyager/quads/solr/QuadTreeField.java:187-191 | one level 2 with the covered cell `AB` gives the single clause SHOULD `<prefix>02_cover` : [AB] with boost depth |
| Quads.DefaultGridIsSquare | quad-solr/src/main/java/voyager/quads/solr/QuadTreeField.java:106-107 | the default grid is a 360 by 360 square with minimum y -270, and its resolution (5) stays within its 16 levels |

## Left out

- `super.init`, the `IndexSchema` argument, the `FieldType` plumbing and `isPolyField`: these belong to Solr, not to this field type.
- `SimpleAbstractField` and its index flags (no norms, no term frequencies or positions): a field is modelled as name, stored flag, value and token list.
- Token streams: the tokenizers are modelled as the token lists they yield, and the `boost` argument of `createFields` is unused by the source.
- `write` and the `System.out.println` of the query: output only.
- `FieldValuesFilter`, `FilteredQuery` and `MatchAllDocsQuery`: a clause is modelled as a field, its terms and an optional boost; how Lucene evaluates it is not modelled.
- The unused `bestfit` in `getFieldQuery`: the source reads `match.bboxLevel` into this local (QuadTreeField.java:175) and nothing uses it afterwards.
- The shape parser, `SpatialGrid.read`, `MatchInfo.getMostlyWithinQueryTokens` and `QuadCellsTokenizer` are not part of this model. They are inputs in `Quads.Env`, taken to be total. Exceptions they could raise, other than the parser's, are not modelled.
- `QuadTreeSpec.StoredValueReindexes`: the round trip is stated under the condition that the cell tokenizer reads `List.toString` back as the same cells, because that tokenizer is not part of this model.
- `Lucene.RemoveDuplicates`: Lucene's filter drops only duplicates at the same position. The model keeps each distinct token once. With term frequencies and positions omitted from the index, the indexed terms are the same.
- `JavaText.TwoDigit`: `NumberFormat`'s locale and its grouping separators (for levels of 1000 or more) are not modelled, only the two-digit minimum.
- `JavaText.ParseInt`: only ASCII digits are read. Java also accepts other Unicode decimal digits. A leading `+` is accepted, as in Java 7 and later.
- `Lucene.LengthFilter`: Lucene measures a token in UTF-16 code units, the model in characters (code points). The two differ for tokens with characters outside the Basic Multilingual Plane; cell tokens are ASCII.
- `Solr.QuadTreeField.ReadResolutions`: after a token that is not a byte, the contents of the partly filled array are not stated; `Init` then fails.
- `QuadTreeSpec.CoverBoost`: the boost is an unbounded integer. The `int` overflow of `(depth - level) + 2` and its conversion to `float` are not modelled.
- `Solr.QuadTreeField.CreateFields`, `Solr.QuadTreeField.GetFieldQuery`: they require the grid to be set, which models Solr calling `init` before using the field type. Without a grid the source would still index a raw literal, would throw a `NullPointerException` for a shape in `createFields`, and in `getFieldQuery` would turn that exception into BAD_REQUEST through the catch at QuadTreeField.java:200-202.
- `Solr.QuadTreeField.GetFieldQuery`: when a level overflows the clause limit, the partly built query is discarded and BAD_REQUEST is returned, as in the source; `AddLevelClauses` states what it holds.
- Null values in the argument map are not modelled: the map is from strings to strings.
