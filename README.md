# Stratio Lucene per-column secondary index: the row ↔ document mapping

This project models, in Dafny, the part of the Stratio Cassandra Lucene index that turns a
table's cells into Lucene documents and turns search results back into row requests. It
then proves properties of that model.

- **Byte codec** (`ByteBufferUtils`):
  - copying a buffer's remaining bytes;
  - hex encoding and decoding;
  - splitting a composite key into its components;
  - rendering components as `:`-joined text.
- **Row decorator** (`Decorated`): a cell seen together with its partition key and the
  table schema. It gives:
  - the clustering key (the name's components, with the last one replaced by an empty
    component);
  - the value the indexed column's role selects;
  - the identifying string `partition-key-text:name-text:timestamp`.
- **Field mappers** (`PartitionKeyMapper`, `ClusteringKeyMapper`, `TokenMapper`,
  `FullKeyMapper`, `TimestampMapper`, `ValueMapper`): each turns one attribute into a
  named Lucene field with fixed flags. The key mappers read their key back from a
  document. The timestamp and value mappers build the matching queries; the value mapper
  dispatches on the column's type.
- **Document mapper** (`ColumnMapper`):
  - the six-field document, in a fixed order;
  - the identity term;
  - the truncation query `(-inf, T]`;
  - the `(token, clustering_key)` sort.
- **Index** (`SecondaryIndex.LucenePerColumnSecondaryIndex`), a class over an abstract
  document store (`Lucene.DocumentStore`):
  - `init`, including the running maximum over the regular column names;
  - `indexes`;
  - insert, update, delete and truncate;
  - the finish bound of `getRow`.
- **Searcher** (`Searcher.LucenePerColumnSecondaryIndexSearcher`):
  - the first-match choice of the equality predicate;
  - the loop that turns the top documents into row requests.

Cassandra and Lucene are stand-ins:

- `Marshal.Host` bundles what the marshal layer, the partitioner and the query parser do:
  - `compose` unmarshals a value of a column type (the text of a value is then Java's
    `toString` of the composed value, or `String.valueOf` where a `StringBuilder` appends
    it);
  - `token` is the partitioner token of a partition key;
  - `parses` says which strings the query parser accepts.
- Composite names use the model's own layout (`Marshal.Build` / `Marshal.SplitComponents`):
  each component is a two-byte big-endian length, the bytes, and an end-of-component
  byte.
- `Lucene.Engine` holds the two things the model does not compute:
  - the matching of parsed text queries;
  - `IndexSearcher`'s ranking under a sort. `Lucene.RanksMatches` states what a ranking
    holds: every matching document, as often as the index holds it, and nothing else.
    The properties of search results that depend on it take it as a premise.

Java exceptions are the `Err` half of a `Result`. A void method that may throw returns an
`Outcome`.

Where the code and its documentation disagree, the model follows the code. The one case
where the code is evidently wrong is listed under Findings. There the model keeps both
the code as written and the corrected behaviour, and the rest of the model uses the
corrected one.

## Model

| member | source | states |
|---|---|---|
| ByteBufferUtils.AsArray | src/java/org/apache/cassandra/db/index/stratio/ByteBufferUtils.java:13-18 | returns a fresh array holding exactly the buffer's remaining bytes, in order; the caller's buffer is not modified |
| ByteBufferUtils.ToHex | src/java/org/apache/cassandra/db/index/stratio/ByteBufferUtils.java:48-51 | the hex text of the buffer's remaining bytes, without changing the buffer |
| ByteBufferUtils.BytesToHex | src/java/org/apache/cassandra/db/index/stratio/ByteBufferUtils.java:50 | two lower-case hex digits per byte |
| ByteBufferUtils.FromHex | src/java/org/apache/cassandra/db/index/stratio/ByteBufferUtils.java:53-57 | any failure to decode is an invalid-hex error |
| ByteBufferUtils.HexRoundTrip | src/java/org/apache/cassandra/db/index/stratio/ByteBufferUtils.java:48-57 | decoding the hex of any byte sequence gives that sequence back |
| ByteBufferUtils.FromHexAccepts | src/java/org/apache/cassandra/db/index/stratio/ByteBufferUtils.java:53-57 | decoding succeeds exactly on even-length strings of hex digits, giving half as many bytes |
| ByteBufferUtils.FromHexThenEncode | src/java/org/apache/cassandra/db/index/stratio/ByteBufferUtils.java:48-57 | re-encoding a decoded lower-case hex string gives that string back |
| ByteBufferUtils.Split | src/java/org/apache/cassandra/db/index/stratio/ByteBufferUtils.java:20-26 | a single (non-composite) comparator gives the one-element array of the input; a composite gives at most one component per declared type |
| ByteBufferUtils.SplitOfBuilt | src/java/org/apache/cassandra/db/index/stratio/ByteBufferUtils.java:21-22 | splitting a composite built from components gives those components, in declared order |
| ByteBufferUtils.ToString | src/java/org/apache/cassandra/db/index/stratio/ByteBufferUtils.java:28-46 | the method computes `TextOf`: a single type's composed value's `toString`, so a null value is a null-pointer error; for a composite, the `:`-join of the components' `String.valueOf` texts (a null component reads `null`), with the first failing compose, a malformed composite or a missing component as the error |
| ByteBufferUtils.TextOf | src/java/org/apache/cassandra/db/index/stratio/ByteBufferUtils.java:28-46 | a single type's text exists exactly when compose succeeds with a non-null value, and is that value's `toString`; a composite's text needs a well-formed split with at least one component per type |
| ByteBufferUtils.AppendComponents | src/java/org/apache/cassandra/db/index/stratio/ByteBufferUtils.java:33-42 | the StringBuilder loop gives the `:`-join of the per-type texts, or the error of the first component that fails to compose or is missing |
| ByteBufferUtils.TextOfBuilt | src/java/org/apache/cassandra/db/index/stratio/ByteBufferUtils.java:29-42 | for a composite built from at most one component per type, the text exists exactly when there is one component per type and each composes; it is then the `:`-join of the components' `String.valueOf` texts |
| ByteBufferUtils.TextOfBuiltFailsAt | src/java/org/apache/cassandra/db/index/stratio/ByteBufferUtils.java:34-37 | for a built composite, the first component that fails to compose, or the first missing one (an index error), decides the error |
| ByteBufferUtils.JoinSeparators | src/java/org/apache/cassandra/db/index/stratio/ByteBufferUtils.java:34-41 | n renderings without `:` are joined by exactly n-1 separators, and the text ends with the last rendering (no trailing separator) |
| Marshal.JavaToString | src/java/org/apache/cassandra/db/index/stratio/lucene/mapping/ValueMapper.java:151-152 | `toString` fails exactly on a null reference |
| Marshal.SplitComponents | src/java/org/apache/cassandra/db/index/stratio/ByteBufferUtils.java:22 | a successful split has at most one component per type, each encodable, and is empty exactly for the empty buffer |
| Marshal.BuildSplitRoundTrip | src/java/org/apache/cassandra/db/index/stratio/DecoratedColumn.java:139-146 | splitting what the composite builder built gives the components back |
| Marshal.SplitIsStable | src/java/org/apache/cassandra/db/index/stratio/ByteBufferUtils.java:22 | rebuilding a split composite and splitting again gives the same components |
| Marshal.CompareAntisymmetric | src/java/org/apache/cassandra/db/index/stratio/lucene/LucenePerColumnSecondaryIndex.java:107-109 | the column-name comparison is antisymmetric |
| Marshal.CompareZeroIsEquality | src/java/org/apache/cassandra/db/index/stratio/lucene/LucenePerColumnSecondaryIndex.java:107-109 | two names compare equal exactly when they are the same bytes |
| Marshal.CompareTransitive | src/java/org/apache/cassandra/db/index/stratio/lucene/LucenePerColumnSecondaryIndex.java:107-109 | the column-name comparison is transitive |
| Marshal.LongToStringRoundTrip | src/java/org/apache/cassandra/db/index/stratio/DecoratedColumn.java:243 | the decimal text of a timestamp parses back to it and contains no `:` |
| Marshal.LongToStringInjective | src/java/org/apache/cassandra/db/index/stratio/DecoratedColumn.java:243 | different timestamps have different decimal texts |
| Decorated.Decorate | src/java/org/apache/cassandra/db/index/stratio/DecoratedColumn.java:46-56 | decorating succeeds exactly when the table's comparator is composite (otherwise a class-cast error) and keeps the key, the cell, the definition and the three types |
| Decorated.DecorateKeepsCell | src/java/org/apache/cassandra/db/index/stratio/DecoratedColumn.java:156-229 | a decorated cell's name and timestamp are the cell's, its token bytes are the partitioner's token of its own partition key, and a regular column's value is the cell's value |
| Decorated.TokenBytes | src/java/org/apache/cassandra/db/index/stratio/DecoratedColumn.java:225-229 | no contract of its own: `DecorateKeepsCell` and `TokenDependsOnlyOnPartitionKey` state it |
| Decorated.PartitionKeyText | src/java/org/apache/cassandra/db/index/stratio/DecoratedColumn.java:128-130 | no contract of its own: the partition key under `ByteBufferUtils.TextOf`, whose contract states it |
| Decorated.NameText | src/java/org/apache/cassandra/db/index/stratio/DecoratedColumn.java:167-169 | no contract of its own: the name under `ByteBufferUtils.TextOf` with the composite name type, whose contract states it |
| Decorated.Value | src/java/org/apache/cassandra/db/index/stratio/DecoratedColumn.java:176-189 | no contract of its own: `ValueSelectsComponent` and `ValueOfSimplePartitionKey` state it |
| Decorated.TokenDependsOnlyOnPartitionKey | src/java/org/apache/cassandra/db/index/stratio/DecoratedColumn.java:225-229 | two cells with the same partition key have the same token bytes |
| Decorated.GetClusteringKey | src/java/org/apache/cassandra/db/index/stratio/DecoratedColumn.java:137-147 | the builder loop computes the clustering key of the reference definition |
| Decorated.ClusteringKeyShape | src/java/org/apache/cassandra/db/index/stratio/DecoratedColumn.java:139-146 | the clustering key has the name's arity: the name's first n-1 components, in order, then one empty component |
| Decorated.ClusteringKeyFails | src/java/org/apache/cassandra/db/index/stratio/DecoratedColumn.java:139-140 | the clustering key fails exactly on a malformed name or a name without components |
| Decorated.ValueSelectsComponent | src/java/org/apache/cassandra/db/index/stratio/DecoratedColumn.java:176-189 | a partition-key column gets component `componentIndex` of the key, a clustering-key column that component of the name (out of range is an index error); any other role gets the cell's value verbatim |
| Decorated.ValueOfSimplePartitionKey | src/java/org/apache/cassandra/db/index/stratio/DecoratedColumn.java:178-181 | with a single-type key validator the key is its own only component |
| Decorated.IdentifyingString | src/java/org/apache/cassandra/db/index/stratio/DecoratedColumn.java:237-245 | exists exactly when both the partition key's and the name's texts exist; otherwise the first of the two failures is the error |
| Decorated.IdentifyingStringEndsWithTimestamp | src/java/org/apache/cassandra/db/index/stratio/DecoratedColumn.java:237-245 | the text after the identifying string's last `:` is a decimal long that parses back to the cell's timestamp |
| Decorated.LastIndexOfBeforeSuffix | src/java/org/apache/cassandra/db/index/stratio/DecoratedColumn.java:237-245 | the last separator of `a:b` with no `:` in `b` sits right after `a` |
| Decorated.IdentifyingStringDeterminesTimestamp | src/java/org/apache/cassandra/db/index/stratio/DecoratedColumn.java:237-245 | two cells with the same identifying string have the same timestamp and the same `key:name` text |
| PartitionKeyMapper.Field | src/java/org/apache/cassandra/db/index/stratio/lucene/mapping/PartitionKeyMapper.java:15-40 | a `partition_key` string field, indexed, stored and untokenized, whose hex decodes to the partition key |
| PartitionKeyMapper.Bytes | src/java/org/apache/cassandra/db/index/stratio/lucene/mapping/PartitionKeyMapper.java:49-53 | a missing field is a null-pointer error and a bad field an invalid-hex error; otherwise the decoded field |
| PartitionKeyMapper.BytesOfField | src/java/org/apache/cassandra/db/index/stratio/lucene/mapping/PartitionKeyMapper.java:37-53 | a document holding the field, or its stored fields loaded back, reads back the partition key |
| ClusteringKeyMapper.Field | src/java/org/apache/cassandra/db/index/stratio/lucene/mapping/ClusteringKeyMapper.java:16-41 | a `clustering_key` field, indexed, stored and untokenized, whose hex decodes to the clustering key; it fails exactly when the clustering key does |
| ClusteringKeyMapper.Bytes | src/java/org/apache/cassandra/db/index/stratio/lucene/mapping/ClusteringKeyMapper.java:50-53 | a missing field is a null-pointer error and a bad field an invalid-hex error; otherwise the decoded field |
| ClusteringKeyMapper.BytesOfField | src/java/org/apache/cassandra/db/index/stratio/lucene/mapping/ClusteringKeyMapper.java:38-53 | a document holding the field, or its loaded stored fields, reads back the clustering key |
| TokenMapper.Field | src/java/org/apache/cassandra/db/index/stratio/lucene/mapping/TokenMapper.java:15-40 | a `token` field, indexed, stored and untokenized, whose hex decodes to the token bytes |
| TokenMapper.FieldsAgreeIffTokensAgree | src/java/org/apache/cassandra/db/index/stratio/lucene/mapping/TokenMapper.java:37-40 | two cells get the same token field exactly when their partition keys have the same token; it depends on the partition key alone |
| FullKeyMapper.Field | src/java/org/apache/cassandra/db/index/stratio/lucene/mapping/FullKeyMapper.java:12-37 | a `full_key` field, indexed, not stored, untokenized, carrying the identifying string |
| FullKeyMapper.Term | src/java/org/apache/cassandra/db/index/stratio/lucene/mapping/FullKeyMapper.java:48-51 | a `full_key` term, defined exactly when the identifying string is |
| FullKeyMapper.TermFindsField | src/java/org/apache/cassandra/db/index/stratio/lucene/mapping/FullKeyMapper.java:34-51 | one cell's term finds another's field exactly when their identifying strings agree; a cell's term finds its own field |
| FullKeyMapper.TermSeparatesTimestamps | src/java/org/apache/cassandra/db/index/stratio/lucene/mapping/FullKeyMapper.java:34-51 | cells written at different timestamps never find each other's field |
| TimestampMapper.Field | src/java/org/apache/cassandra/db/index/stratio/lucene/mapping/TimestampMapper.java:25-28 | an unstored long field `timestamp` carrying the cell's timestamp |
| TimestampMapper.RangeQuery | src/java/org/apache/cassandra/db/index/stratio/lucene/mapping/TimestampMapper.java:47-49 | no contract of its own: `RangeQueryMatches` states what it matches |
| TimestampMapper.PointQuery | src/java/org/apache/cassandra/db/index/stratio/lucene/mapping/TimestampMapper.java:35-37 | no contract of its own: `PointQueryMatches` states what it matches |
| TimestampMapper.RangeQueryMatches | src/java/org/apache/cassandra/db/index/stratio/lucene/mapping/TimestampMapper.java:47-49 | the range query matches a timestamp field exactly when the timestamp is within the bounds, with the given inclusivity; a null bound is open |
| TimestampMapper.PointQueryMatches | src/java/org/apache/cassandra/db/index/stratio/lucene/mapping/TimestampMapper.java:35-37 | the point query matches exactly the cells written at that time |
| TimestampMapper.Value | src/java/org/apache/cassandra/db/index/stratio/lucene/mapping/TimestampMapper.java:58-60 | a document without a timestamp field is a null-pointer error |
| TimestampMapper.ValueOfField | src/java/org/apache/cassandra/db/index/stratio/lucene/mapping/TimestampMapper.java:25-28 | a document holding the field reads back the cell's timestamp |
| TimestampMapper.ValueOfLoadedHit | src/java/org/apache/cassandra/db/index/stratio/lucene/mapping/TimestampMapper.java:58-60 | the unstored timestamp never survives loading a hit, so reading it from a loaded hit is a null-pointer error |
| ValueMapper.FieldOf | src/java/org/apache/cassandra/db/index/stratio/lucene/mapping/ValueMapper.java:65-100 | every field is named `value`, indexed and not stored; bytes, decimal and any unlisted type are unsupported, and no other type is |
| ValueMapper.Field | src/java/org/apache/cassandra/db/index/stratio/lucene/mapping/ValueMapper.java:65-66 | the field of the composed value is named `value`, indexed and not stored |
| ValueMapper.ParseQuery | src/java/org/apache/cassandra/db/index/stratio/lucene/mapping/ValueMapper.java:167-177 | no contract of its own: `TextQuery` states the string it parses and the error of a failed parse |
| ValueMapper.QueryOf | src/java/org/apache/cassandra/db/index/stratio/lucene/mapping/ValueMapper.java:111-154 | every query targets the `value` field; only bytes and decimal are unsupported |
| ValueMapper.Query | src/java/org/apache/cassandra/db/index/stratio/lucene/mapping/ValueMapper.java:111-154 | every query looks in the `value` field; a value the column type cannot compose is compose's error, and a composed one gets the query of its type (`QueryOf`) |
| ValueMapper.PointQueryMatchesField | src/java/org/apache/cassandra/db/index/stratio/lucene/mapping/ValueMapper.java:111-154 | for every exactly matched type (numbers, booleans, timestamps, UUIDs) the query of a value matches the field of another value exactly when the two agree |
| ValueMapper.BooleanAsInt | src/java/org/apache/cassandra/db/index/stratio/lucene/mapping/ValueMapper.java:73-74 | a boolean is the int field 1 or 0, and its query is the point range of the same int |
| ValueMapper.NullNumericQueryMatchesAll | src/java/org/apache/cassandra/db/index/stratio/lucene/mapping/ValueMapper.java:115-125 | a null numeric value queries an open range that matches every field of the type |
| ValueMapper.TextQuery | src/java/org/apache/cassandra/db/index/stratio/lucene/mapping/ValueMapper.java:167-177 | ascii and UTF8 are unstored text fields; their query parses `value:` followed by the text, and a parse failure is an error carrying that string |
| ValueMapper.QueryFallback | src/java/org/apache/cassandra/db/index/stratio/lucene/mapping/ValueMapper.java:97-152 | an unlisted type is refused by the field (`UnsupportedOperationException`, lines 97-98) but queried by a term on the value's text (lines 151-152) |
| ValueMapper.TimestampQueryAsWritten | src/java/org/apache/cassandra/db/index/stratio/lucene/mapping/ValueMapper.java:141-143 | no contract of its own: `TimestampQueryAsWrittenRejectsDates` states how it fails |
| ValueMapper.TimestampQueryAsWrittenRejectsDates | src/java/org/apache/cassandra/db/index/stratio/lucene/mapping/ValueMapper.java:141-143 | the field of a date is its milliseconds, but the query as written fails on every date with a class-cast error |
| ColumnMapper.Make | src/java/org/apache/cassandra/db/index/stratio/lucene/mapping/ColumnMapper.java:32-40 | the value mapper uses the column's validator |
| ColumnMapper.DocumentOf | src/java/org/apache/cassandra/db/index/stratio/lucene/mapping/ColumnMapper.java:49-58 | no contract of its own: `DocumentShape` states what it is and `Document` that the appends compute it |
| ColumnMapper.Document | src/java/org/apache/cassandra/db/index/stratio/lucene/mapping/ColumnMapper.java:49-58 | the six appends compute the reference document |
| ColumnMapper.DocumentShape | src/java/org/apache/cassandra/db/index/stratio/lucene/mapping/ColumnMapper.java:49-58 | the document exists exactly when the full key, clustering key and value fields do; it then has exactly six fields, in the order full_key, token, partition_key, clustering_key, value, timestamp, each the matching mapper's field, and only the middle keys are stored |
| ColumnMapper.PartitionKey | src/java/org/apache/cassandra/db/index/stratio/lucene/mapping/ColumnMapper.java:60-62 | a document without a stored `partition_key` is exactly the null-pointer case; any other failure is an invalid-hex error |
| ColumnMapper.ClusteringKey | src/java/org/apache/cassandra/db/index/stratio/lucene/mapping/ColumnMapper.java:64-66 | a document without a stored `clustering_key` is exactly the null-pointer case; any other failure is an invalid-hex error |
| ColumnMapper.KeysRoundTrip | src/java/org/apache/cassandra/db/index/stratio/lucene/mapping/ColumnMapper.java:60-66 | the document, and the stored fields loaded back for it, read back the cell's partition key and clustering key |
| ColumnMapper.Term | src/java/org/apache/cassandra/db/index/stratio/lucene/mapping/ColumnMapper.java:68-70 | exists exactly when the identifying string does, and names the `full_key` field |
| ColumnMapper.TermFindsDocument | src/java/org/apache/cassandra/db/index/stratio/lucene/mapping/ColumnMapper.java:68-70 | a cell's term is contained in another cell's document exactly when their identifying strings agree; in particular in its own |
| ColumnMapper.Query | src/java/org/apache/cassandra/db/index/stratio/lucene/mapping/ColumnMapper.java:72-74 | every query looks in the `value` field; a value the column type cannot compose is compose's error |
| ColumnMapper.QueryBefore | src/java/org/apache/cassandra/db/index/stratio/lucene/mapping/ColumnMapper.java:76-78 | no contract of its own: `QueryBeforeMatches` states what it matches |
| ColumnMapper.QueryBeforeMatches | src/java/org/apache/cassandra/db/index/stratio/lucene/mapping/ColumnMapper.java:76-78 | the truncation query matches a cell's document exactly when it was written at or before the bound |
| ColumnMapper.Sort | src/java/org/apache/cassandra/db/index/stratio/lucene/mapping/ColumnMapper.java:80-84 | no contract of its own: `NamesAgree` states its two sort fields |
| TokenMapper.Sort | src/java/org/apache/cassandra/db/index/stratio/lucene/mapping/TokenMapper.java:42-44 | no contract of its own: `ColumnMapper.NamesAgree` states it is a string sort on `token` |
| ClusteringKeyMapper.Sort | src/java/org/apache/cassandra/db/index/stratio/lucene/mapping/ClusteringKeyMapper.java:55-57 | no contract of its own: `ColumnMapper.NamesAgree` states it is a string sort on `clustering_key` |
| ColumnMapper.NamesAgree | src/java/org/apache/cassandra/db/index/stratio/lucene/mapping/ColumnMapper.java:22-23 | the timestamp and full-key names agree with their mappers', and the sort is token first, then clustering key, both as strings |
| Lucene.WithoutTerm | src/java/org/apache/cassandra/db/index/stratio/lucene/LuceneIndex.java:115-121 | exactly the documents that do not contain the term remain |
| Lucene.WithoutMatches | src/java/org/apache/cassandra/db/index/stratio/lucene/LuceneIndex.java:123-130 | exactly the documents the query does not match remain |
| Lucene.CountWithoutTerm | src/java/org/apache/cassandra/db/index/stratio/lucene/LuceneIndex.java:115-121 | after a delete by term no document contains the term |
| Lucene.UpdateLeavesOne | src/java/org/apache/cassandra/db/index/stratio/lucene/LuceneIndex.java:101-107 | after an update with a document containing the term, exactly one document contains it |
| Lucene.Matching | src/java/org/apache/cassandra/db/index/stratio/lucene/LuceneIndex.java:174-178 | the documents the query matches: exactly those of the index that match, never more than the index holds |
| Lucene.Take | src/java/org/apache/cassandra/db/index/stratio/lucene/LuceneIndex.java:169-194 | the top hits are a prefix of the ranking, exactly `count` long, or the whole ranking when it is shorter |
| Lucene.SearchHitsMatch | src/java/org/apache/cassandra/db/index/stratio/lucene/LuceneIndex.java:169-187 | when the ranking holds exactly the matching documents, each top hit is a matching document of the index, and there are `count` of them, or every match when there are fewer |
| Lucene.StoredDropsUnstored | src/java/org/apache/cassandra/db/index/stratio/lucene/LuceneIndex.java:183-186 | a loaded hit holds no field under a name that no stored field of the document has |
| Lucene.StoredGetFromStoredField | src/java/org/apache/cassandra/db/index/stratio/lucene/LuceneIndex.java:183-186 | whatever a loaded hit holds under a name comes from a stored field of that name in the indexed document |
| Lucene.DocumentStore.constructor | src/java/org/apache/cassandra/db/index/stratio/lucene/LuceneIndex.java:39 | a store over a directory starts without documents |
| Lucene.DocumentStore.Insert | src/java/org/apache/cassandra/db/index/stratio/lucene/LuceneIndex.java:83-89 | the document is appended |
| Lucene.DocumentStore.Update | src/java/org/apache/cassandra/db/index/stratio/lucene/LuceneIndex.java:101-107 | documents with the term are removed, then the document is added, leaving one document with the term |
| Lucene.DocumentStore.Delete | src/java/org/apache/cassandra/db/index/stratio/lucene/LuceneIndex.java:115-121 | documents with the term are removed, and none with it remains |
| Lucene.DocumentStore.DeleteByQuery | src/java/org/apache/cassandra/db/index/stratio/lucene/LuceneIndex.java:123-130 | documents the query matches are removed |
| Lucene.DocumentStore.Search | src/java/org/apache/cassandra/db/index/stratio/lucene/LuceneIndex.java:169-194 | at most `count` hits, the loaded top of the ranking; when the ranking holds exactly the matching documents, every hit is the loaded form of a document the query matches |
| SecondaryIndex.LastColumnName | src/java/org/apache/cassandra/db/index/stratio/lucene/LucenePerColumnSecondaryIndex.java:87-92 | the running maximum is null only without candidates, is otherwise one of them, and is at least every regular column name under the comparison |
| SecondaryIndex.LastColumnNameUnique | src/java/org/apache/cassandra/db/index/stratio/lucene/LucenePerColumnSecondaryIndex.java:87-92 | only one value can be that maximum |
| SecondaryIndex.FinishBoundShape | src/java/org/apache/cassandra/db/index/stratio/lucene/LucenePerColumnSecondaryIndex.java:213-219 | the finish bound has the clustering key's arity, its first n-1 components, and the greatest column name last |
| SecondaryIndex.TruncateKeepsLater | src/java/org/apache/cassandra/db/index/stratio/lucene/LucenePerColumnSecondaryIndex.java:204-209 | truncating keeps a cell's document exactly when it was present and written after the truncation time |
| SecondaryIndex.IndexesBuilt | src/java/org/apache/cassandra/db/index/stratio/lucene/LucenePerColumnSecondaryIndex.java:112-120 | a name whose last component is empty is owned exactly when the column is not regular; any other name is owned exactly when its last component is the column's name |
| SecondaryIndex.IndexesEmptyName | src/java/org/apache/cassandra/db/index/stratio/lucene/LucenePerColumnSecondaryIndex.java:113-115 | a name without components has no last component to read |
| SecondaryIndex.IndexDirectory | src/java/org/apache/cassandra/db/index/stratio/lucene/LucenePerColumnSecondaryIndex.java:77-80 | no contract of its own: `Init` states that the store opens there |
| SecondaryIndex.LucenePerColumnSecondaryIndex.Indexes | src/java/org/apache/cassandra/db/index/stratio/lucene/LucenePerColumnSecondaryIndex.java:112-120 | no contract of its own: `IndexesBuilt` and `IndexesEmptyName` state it |
| SecondaryIndex.LucenePerColumnSecondaryIndex.Init | src/java/org/apache/cassandra/db/index/stratio/lucene/LucenePerColumnSecondaryIndex.java:60-96 | names and key comparator from the schema; regular exactly for the regular role; passes exactly with a composite comparator and a data location; then a fresh empty store in `location/lucene/cf/index`, the column's mapper, and the greatest regular column name. A failure is a class-cast error for a simple comparator and an index error without a data location; it keeps the store, mapper and running maximum, and sets the name types only when the comparator cast succeeded |
| SecondaryIndex.LucenePerColumnSecondaryIndex.DecorateColumn | src/java/org/apache/cassandra/db/index/stratio/lucene/LucenePerColumnSecondaryIndex.java:147-149 | no contract of its own: `Decorated.Decorate` states it |
| SecondaryIndex.LucenePerColumnSecondaryIndex.DocumentContainsTerm | src/java/org/apache/cassandra/db/index/stratio/lucene/LucenePerColumnSecondaryIndex.java:123-145 | the document an insert adds holds the term a later delete or update uses |
| SecondaryIndex.LucenePerColumnSecondaryIndex.Insert | src/java/org/apache/cassandra/db/index/stratio/lucene/LucenePerColumnSecondaryIndex.java:131-136 | adds the cell's document, or fails with the mapping's error and changes nothing |
| SecondaryIndex.LucenePerColumnSecondaryIndex.Update | src/java/org/apache/cassandra/db/index/stratio/lucene/LucenePerColumnSecondaryIndex.java:139-145 | replaces the documents with the cell's term by the cell's document, leaving exactly one with the term; or fails with the term's error, else the document's, and changes nothing |
| SecondaryIndex.LucenePerColumnSecondaryIndex.Delete | src/java/org/apache/cassandra/db/index/stratio/lucene/LucenePerColumnSecondaryIndex.java:123-128 | removes every document with the cell's term, or fails and changes nothing |
| SecondaryIndex.LucenePerColumnSecondaryIndex.TruncateBlocking | src/java/org/apache/cassandra/db/index/stratio/lucene/LucenePerColumnSecondaryIndex.java:204-209 | deletes by the truncation query of the given time |
| SecondaryIndex.LucenePerColumnSecondaryIndex.RowFor | src/java/org/apache/cassandra/db/index/stratio/lucene/LucenePerColumnSecondaryIndex.java:211-233 | no contract of its own: `FinishBoundShape` states its finish bound and `GetRow` that the array loop computes it |
| SecondaryIndex.LucenePerColumnSecondaryIndex.GetRow | src/java/org/apache/cassandra/db/index/stratio/lucene/LucenePerColumnSecondaryIndex.java:211-233 | the array loop builds the slice from the clustering key to the finish bound of the reference definition |
| Searcher.LucenePerColumnSecondaryIndexSearcher.HighestSelectivityPredicate | src/java/org/apache/cassandra/db/index/stratio/lucene/LucenePerColumnSecondaryIndexSearcher.java:59-70 | none exactly when no expression is an equality on this index's column; otherwise the first such expression in clause order |
| Searcher.LucenePerColumnSecondaryIndexSearcher.IsIndexing | src/java/org/apache/cassandra/db/index/stratio/lucene/LucenePerColumnSecondaryIndexSearcher.java:53-56 | no contract of its own: `IsIndexingIff` states it |
| Searcher.LucenePerColumnSecondaryIndexSearcher.IsIndexingIff | src/java/org/apache/cassandra/db/index/stratio/lucene/LucenePerColumnSecondaryIndexSearcher.java:53-56 | the searcher indexes a clause exactly when some expression is an equality on this index's column |
| Searcher.LucenePerColumnSecondaryIndexSearcher.RowsOf | src/java/org/apache/cassandra/db/index/stratio/lucene/LucenePerColumnSecondaryIndexSearcher.java:42-48 | one row request per document, in document order, each from the document's own keys; it fails exactly when some document does |
| Searcher.LucenePerColumnSecondaryIndexSearcher.SearchResult | src/java/org/apache/cassandra/db/index/stratio/lucene/LucenePerColumnSecondaryIndexSearcher.java:37-50 | no contract of its own: `Search` computes it, and `SearchRowsFromMatches` and `SearchUsesFirstExpression` state it |
| Searcher.LucenePerColumnSecondaryIndexSearcher.Search | src/java/org/apache/cassandra/db/index/stratio/lucene/LucenePerColumnSecondaryIndexSearcher.java:37-50 | the loop returns the rows of the top 100 documents under the mapper's sort, never more than 100 |
| Searcher.LucenePerColumnSecondaryIndexSearcher.SearchRowsFromMatches | src/java/org/apache/cassandra/db/index/stratio/lucene/LucenePerColumnSecondaryIndexSearcher.java:37-50 | when the ranking holds exactly the matching documents, each row comes from the loaded hit of an indexed document that the value query of the first expression matches |
| Searcher.LucenePerColumnSecondaryIndexSearcher.SearchUsesFirstExpression | src/java/org/apache/cassandra/db/index/stratio/lucene/LucenePerColumnSecondaryIndexSearcher.java:38-40 | the result depends on the first expression's value alone, not on the selected predicate |
| Searcher.LucenePerColumnSecondaryIndexSearcher.RowOfIndexedColumn | src/java/org/apache/cassandra/db/index/stratio/lucene/LucenePerColumnSecondaryIndexSearcher.java:44-46 | a loaded hit of a cell's document leads to the row of that cell's partition key and clustering key |
| Common.Collect | src/java/org/apache/cassandra/db/index/stratio/lucene/LucenePerColumnSecondaryIndexSearcher.java:42-48 | collecting succeeds exactly when every element does, keeping length and order |

## Left out

- Floating-point values (float and double fields and their range queries) are opaque: the type tags exist, but their numbers are not reasoned about.
- The query parser and its English analyzer are opaque: a parsed query carries its string, `Host.parses` says whether parsing succeeds, and `Engine.opaqueMatch` says what a parsed query matches.
- Lucene's scoring and sort execution are abstract: `Engine.rank` is uninterpreted, and the store takes its top `count` documents. `Lucene.RanksMatches` is a premise of the hit properties, not a fact of the model. The order under the sort (token, then clustering key) is not constrained.
- The composite name layout is the model's own. Cassandra's `CompositeType` binary format, and its `deconstruct`/`builder`, are not part of this model.
- Unmarshalling (`AbstractType.compose`) is the uninterpreted `Host.compose`, and the `toString` of a composed value is the model's `Marshal.JavaToString`; the text forms of Cassandra's value classes are not modelled.
- The partitioner is the uninterpreted `Host.token`; the token factory's byte layout is not modelled.
- The `LuceneIndex` wrapper is a store of documents. Not modelled: the index writer, the searcher manager, the background reopen thread, and on-disk state. Its `commit`, `close`, `removeIndex` and `getRAMSizeInBytes` are not modelled.
- Lucene.DocumentStore.constructor: opening a directory that already holds an index starts empty here.
- Concurrency is not modelled: the per-cell operations run as atomic steps.
- The index's `reload`, `validateOptions`, `getIndexName`, `createSecondaryIndexSearcher`, `forceBlockingFlush`, `getLiveSize`, `getIndexCfs`, `removeIndex`, `invalidate` and `format` are not modelled: they hand work to the host or to logging.
- Logging and `System.out` tracing are left out.
- SecondaryIndex.LucenePerColumnSecondaryIndex.Init: the schema and the indexed column's definition are fields set by the constructor, instead of being read from the column family store and `columnDefs.iterator().next()`. The `columnName` text field is not kept. A failing init keeps the fields it set before the failure, as the code does: the names, the regularity flag and the key comparator, and the name types once the comparator cast has succeeded. The store, the mapper and the running maximum keep their old values.
- SecondaryIndex.IndexDirectory: `File.separatorChar` is taken to be `/`.
- SecondaryIndex.LucenePerColumnSecondaryIndex.GetRow: it returns the slice it would read (a `RowRequest`). The column family store read, `decorateKey`, the query filter and `System.currentTimeMillis` are not modelled.
- The searcher's ordering of expressions against the index manager is the function `indexFor`; the manager itself is not modelled. The `ExtendedFilter` is its list of expressions.
- Decorated.ColumnDefinition: `componentIndex` is a natural number; a negative index cannot be written.
- TimestampMapper.Value: a field holding a floating-point number is an unsupported-operation error, since the model does not give floating-point values a long value.
- Integer widths: `int64` and `int32` are range-restricted integers; no operation of the core does arithmetic that could overflow them.
- `Hex.bytesToHex` and `Hex.hexToBytes` are not part of this model's sources. The model assumes lower-case output, and decoding that accepts both cases and rejects odd lengths and non-hex characters.

## Findings

| source | as written | input that shows it | evidently intended | confidence | as-written member | corrected member |
|---|---|---|---|---|---|---|
| src/java/org/apache/cassandra/db/index/stratio/lucene/mapping/ValueMapper.java:141-143 | the Timestamp query casts the composed value to `Long`, but a timestamp column composes to a `Date` | a `TimestampType` column value `JDate(millis, text)`: the field indexes `millis`, the query fails with a class-cast error | a point range on the date's milliseconds, as the field uses | not executed | ValueMapper.TimestampQueryAsWritten, ValueMapper.TimestampQueryAsWrittenRejectsDates | ValueMapper.QueryOf, ValueMapper.PointQueryMatchesField |
