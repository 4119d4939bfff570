/** ColumnMapper: a decorated column as a six-field Lucene document, the readers of the
    keys back from a document, the identity term, the value query, the truncation query
    and the result sort. */
module ColumnMapper {
  import opened Common
  import opened Marshal
  import opened Lucene
  import Decorated
  import PartitionKeyMapper
  import ClusteringKeyMapper
  import TokenMapper
  import FullKeyMapper
  import TimestampMapper
  import ValueMapper

  const TIMESTAMP_FIELD_NAME := "timestamp"
  const FULL_KEY_FIELD_NAME := "full_key"

  /** The mapper of one indexed column; only the value mapper depends on the column. */
  datatype Mapper = Mapper(valueMapper: ValueMapper.Mapper)

  /** The constructor: the value mapper takes the column's validator. */
  function Make(definition: Decorated.ColumnDefinition): (m: Mapper)
    ensures m.valueMapper.columnType == definition.validator
  {
    Mapper(ValueMapper.Mapper(definition.validator))
  }

  /** The field names of a document, in order. */
  const FIELD_ORDER := [FullKeyMapper.FIELD_NAME, TokenMapper.FIELD_NAME, PartitionKeyMapper.FIELD_NAME,
                        ClusteringKeyMapper.FIELD_NAME, ValueMapper.FIELD_NAME, TimestampMapper.FIELD_NAME]

  /** document: the six mapper fields in order; the first mapper that throws decides the error. */
  function DocumentOf(host: Host, m: Mapper, dc: Decorated.DecoratedColumn): Result<Document> {
    Assemble(FullKeyMapper.Field(host, dc), TokenMapper.Field(host, dc), PartitionKeyMapper.Field(dc),
             ClusteringKeyMapper.Field(dc), ValueMapper.Field(host, m.valueMapper, dc), TimestampMapper.Field(dc))
  }

  function Assemble(fullKey: Result<Field>, token: Field, partitionKey: Field, clusteringKey: Result<Field>,
                    value: Result<Field>, timestamp: Field): Result<Document> {
    var f :- fullKey;
    var c :- clusteringKey;
    var v :- value;
    Ok([f, token, partitionKey, c, v, timestamp])
  }

  /** document as written: the six mappers' fields, then a new document and six
      successive adds. */
  method Document(host: Host, m: Mapper, dc: Decorated.DecoratedColumn) returns (r: Result<Lucene.Document>)
    ensures r == DocumentOf(host, m, dc)
  {
    var fullKey := FullKeyMapper.Field(host, dc);
    var token := TokenMapper.Field(host, dc);
    var partitionKey := PartitionKeyMapper.Field(dc);
    var clusteringKey := ClusteringKeyMapper.Field(dc);
    var value := ValueMapper.Field(host, m.valueMapper, dc);
    var timestamp := TimestampMapper.Field(dc);
    r := AddAll(fullKey, token, partitionKey, clusteringKey, value, timestamp);
  }

  /** The adds of document, failing at the first field a mapper could not build. */
  method AddAll(fullKey: Result<Field>, token: Field, partitionKey: Field, clusteringKey: Result<Field>,
                value: Result<Field>, timestamp: Field) returns (r: Result<Lucene.Document>)
    ensures r == Assemble(fullKey, token, partitionKey, clusteringKey, value, timestamp)
  {
    var document: Lucene.Document := [];
    if fullKey.Err? {
      return Err(fullKey.error);
    }
    document := document + [fullKey.value];
    document := document + [token];
    document := document + [partitionKey];
    if clusteringKey.Err? {
      return Err(clusteringKey.error);
    }
    document := document + [clusteringKey.value];
    if value.Err? {
      return Err(value.error);
    }
    document := document + [value.value];
    document := document + [timestamp];
    assert document == [fullKey.value, token, partitionKey, clusteringKey.value, value.value, timestamp];
    r := Ok(document);
  }

  /** The layout of every document: six fields named as FIELD_ORDER says, of which
      only the token, partition-key and clustering-key fields are stored. */
  predicate LaidOut(d: Document) {
    && |d| == 6
    && (forall i :: 0 <= i < 6 ==> d[i].name == FIELD_ORDER[i])
    && (forall i :: 0 <= i < 6 ==> (d[i].fieldType.stored <==> 1 <= i <= 3))
  }

  /** No two fields of a document share a name. */
  lemma FieldOrderInjective(i: int, j: int)
    requires 0 <= i < 6 && 0 <= j < 6 && FIELD_ORDER[i] == FIELD_ORDER[j]
    ensures i == j
  {
    assert |FIELD_ORDER[0]| == 8 && |FIELD_ORDER[1]| == 5 && |FIELD_ORDER[2]| == 13;
    assert |FIELD_ORDER[3]| == 14 && |FIELD_ORDER[4]| == 5 && |FIELD_ORDER[5]| == 9;
    assert FIELD_ORDER[1][0] != FIELD_ORDER[4][0];
  }

  /** A document has the six fields in order, each the one its mapper builds, laid out
      as LaidOut says. It exists exactly when the identifying string, the clustering key
      and the value field can all be computed. */
  lemma DocumentShape(host: Host, m: Mapper, dc: Decorated.DecoratedColumn)
    ensures DocumentOf(host, m, dc).Ok?
        <==> FullKeyMapper.Field(host, dc).Ok? && ClusteringKeyMapper.Field(dc).Ok?
             && ValueMapper.Field(host, m.valueMapper, dc).Ok?
    ensures DocumentOf(host, m, dc).Ok? ==>
      var d := DocumentOf(host, m, dc).value;
      && LaidOut(d)
      && d == [FullKeyMapper.Field(host, dc).value, TokenMapper.Field(host, dc), PartitionKeyMapper.Field(dc),
               ClusteringKeyMapper.Field(dc).value, ValueMapper.Field(host, m.valueMapper, dc).value,
               TimestampMapper.Field(dc)]
  {
    AssembledLaidOut(FullKeyMapper.Field(host, dc), TokenMapper.Field(host, dc), PartitionKeyMapper.Field(dc),
                     ClusteringKeyMapper.Field(dc), ValueMapper.Field(host, m.valueMapper, dc), TimestampMapper.Field(dc));
  }

  /** The documents Assemble builds from the mappers' fields are laid out. */
  lemma AssembledLaidOut(fullKey: Result<Field>, token: Field, partitionKey: Field, clusteringKey: Result<Field>,
                         value: Result<Field>, timestamp: Field)
    requires fullKey.Ok? ==> fullKey.value.name == FullKeyMapper.FIELD_NAME && fullKey.value.fieldType == FullKeyMapper.FIELD_TYPE
    requires token.name == TokenMapper.FIELD_NAME && token.fieldType == TokenMapper.FIELD_TYPE
    requires partitionKey.name == PartitionKeyMapper.FIELD_NAME && partitionKey.fieldType == PartitionKeyMapper.FIELD_TYPE
    requires clusteringKey.Ok? ==>
      clusteringKey.value.name == ClusteringKeyMapper.FIELD_NAME && clusteringKey.value.fieldType == ClusteringKeyMapper.FIELD_TYPE
    requires value.Ok? ==> value.value.name == ValueMapper.FIELD_NAME && !value.value.fieldType.stored
    requires timestamp.name == TimestampMapper.FIELD_NAME && timestamp.fieldType == NumericNotStored(LongNumeric)
    ensures Assemble(fullKey, token, partitionKey, clusteringKey, value, timestamp).Ok?
        <==> fullKey.Ok? && clusteringKey.Ok? && value.Ok?
    ensures Assemble(fullKey, token, partitionKey, clusteringKey, value, timestamp).Ok? ==>
      var d := Assemble(fullKey, token, partitionKey, clusteringKey, value, timestamp).value;
      && LaidOut(d)
      && d == [fullKey.value, token, partitionKey, clusteringKey.value, value.value, timestamp]
  {
    AssembleShape(fullKey, token, partitionKey, clusteringKey, value, timestamp);
    if fullKey.Ok? && clusteringKey.Ok? && value.Ok? {
      FieldsLaidOut(fullKey.value, token, partitionKey, clusteringKey.value, value.value, timestamp);
    }
  }

  lemma FieldsLaidOut(fullKey: Field, token: Field, partitionKey: Field, clusteringKey: Field,
                      value: Field, timestamp: Field)
    requires fullKey.name == FullKeyMapper.FIELD_NAME && fullKey.fieldType == FullKeyMapper.FIELD_TYPE
    requires token.name == TokenMapper.FIELD_NAME && token.fieldType == TokenMapper.FIELD_TYPE
    requires partitionKey.name == PartitionKeyMapper.FIELD_NAME && partitionKey.fieldType == PartitionKeyMapper.FIELD_TYPE
    requires clusteringKey.name == ClusteringKeyMapper.FIELD_NAME && clusteringKey.fieldType == ClusteringKeyMapper.FIELD_TYPE
    requires value.name == ValueMapper.FIELD_NAME && !value.fieldType.stored
    requires timestamp.name == TimestampMapper.FIELD_NAME && timestamp.fieldType == NumericNotStored(LongNumeric)
    ensures LaidOut([fullKey, token, partitionKey, clusteringKey, value, timestamp])
  {
  }

  lemma AssembleShape(fullKey: Result<Field>, token: Field, partitionKey: Field, clusteringKey: Result<Field>,
                      value: Result<Field>, timestamp: Field)
    ensures Assemble(fullKey, token, partitionKey, clusteringKey, value, timestamp).Ok?
        <==> fullKey.Ok? && clusteringKey.Ok? && value.Ok?
    ensures Assemble(fullKey, token, partitionKey, clusteringKey, value, timestamp).Ok? ==>
      Assemble(fullKey, token, partitionKey, clusteringKey, value, timestamp).value
        == [fullKey.value, token, partitionKey, clusteringKey.value, value.value, timestamp]
  {
  }

  /** partitonKey: the partition key read back from a document; a document without
      the stored field is a null dereference, a malformed one a hex error. */
  function PartitionKey(d: Document): (r: Result<bytes>)
    ensures r == Err(NullPointer) <==> Get(d, PartitionKeyMapper.FIELD_NAME).None?
    ensures r.Err? ==> r.error == NullPointer || r.error == InvalidHex
  {
    PartitionKeyMapper.Bytes(d)
  }

  /** clusteringKey: the clustering key read back from a document; a document without
      the stored field is a null dereference, a malformed one a hex error. */
  function ClusteringKey(d: Document): (r: Result<bytes>)
    ensures r == Err(NullPointer) <==> Get(d, ClusteringKeyMapper.FIELD_NAME).None?
    ensures r.Err? ==> r.error == NullPointer || r.error == InvalidHex
  {
    ClusteringKeyMapper.Bytes(d)
  }

  /** The keys read back from a document built for a column, or from the stored fields
      of that document as a search loads them, are the column's partition key and
      clustering key. */
  lemma KeysRoundTrip(host: Host, m: Mapper, dc: Decorated.DecoratedColumn)
    requires DocumentOf(host, m, dc).Ok?
    ensures PartitionKey(DocumentOf(host, m, dc).value) == Ok(dc.partitionKey)
    ensures PartitionKey(Stored(DocumentOf(host, m, dc).value)) == Ok(dc.partitionKey)
    ensures ClusteringKey(DocumentOf(host, m, dc).value) == Decorated.ClusteringKey(dc)
    ensures ClusteringKey(Stored(DocumentOf(host, m, dc).value)) == Decorated.ClusteringKey(dc)
  {
    DocumentShape(host, m, dc);
    KeysOfLaidOut(DocumentOf(host, m, dc).value, dc);
  }

  lemma KeysOfLaidOut(d: Document, dc: Decorated.DecoratedColumn)
    requires LaidOut(d) && d[2] == PartitionKeyMapper.Field(dc)
    requires ClusteringKeyMapper.Field(dc).Ok? && d[3] == ClusteringKeyMapper.Field(dc).value
    ensures PartitionKey(d) == Ok(dc.partitionKey) && PartitionKey(Stored(d)) == Ok(dc.partitionKey)
    ensures ClusteringKey(d) == Decorated.ClusteringKey(dc) && ClusteringKey(Stored(d)) == Decorated.ClusteringKey(dc)
  {
    var before2, before3 := d[..2], d[..3];
    forall i | 0 <= i < |before2| ensures before2[i].name != PartitionKeyMapper.FIELD_NAME {
      if d[i].name == FIELD_ORDER[2] { FieldOrderInjective(i, 2); }
    }
    forall i | 0 <= i < |before3| ensures before3[i].name != ClusteringKeyMapper.FIELD_NAME {
      if d[i].name == FIELD_ORDER[3] { FieldOrderInjective(i, 3); }
    }
    GetAbsent(before2, PartitionKeyMapper.FIELD_NAME);
    GetAbsent(before3, ClusteringKeyMapper.FIELD_NAME);
    PartitionKeyMapper.BytesOfField(dc, before2, d[3..]);
    ClusteringKeyMapper.BytesOfField(dc, before3, d[4..]);
    assert d == before2 + [d[2]] + d[3..];
    assert d == before3 + [d[3]] + d[4..];
  }

  /** term: the full-key term; it exists exactly when the identifying string does. */
  function Term(host: Host, dc: Decorated.DecoratedColumn): (r: Result<Lucene.Term>)
    ensures r.Ok? <==> Decorated.IdentifyingString(host, dc).Ok?
    ensures r.Ok? ==> r.value.field == FULL_KEY_FIELD_NAME
  {
    FullKeyMapper.Term(host, dc)
  }

  /** The term of a column is contained in the document of a column exactly when both
      have the same identifying string; a document always contains its own column's term. */
  lemma TermFindsDocument(host: Host, m: Mapper, x: Decorated.DecoratedColumn, y: Decorated.DecoratedColumn)
    requires DocumentOf(host, m, x).Ok? && Term(host, y).Ok?
    ensures ContainsTerm(DocumentOf(host, m, x).value, Term(host, y).value)
        <==> Decorated.IdentifyingString(host, x) == Decorated.IdentifyingString(host, y)
    ensures Term(host, x).Ok? && ContainsTerm(DocumentOf(host, m, x).value, Term(host, x).value)
  {
    DocumentShape(host, m, x);
    FullKeyMapper.TermFindsField(host, x, y);
    FullKeyMapper.TermFindsField(host, x, x);
    var d := DocumentOf(host, m, x).value;
    ContainsTermLaidOut(d, Term(host, y).value);
    ContainsTermLaidOut(d, Term(host, x).value);
  }

  /** Only the full-key field of a document can hold a full-key term. */
  lemma ContainsTermLaidOut(d: Document, t: Lucene.Term)
    requires LaidOut(d) && t.field == FullKeyMapper.FIELD_NAME
    ensures ContainsTerm(d, t) <==> HasTerm(d[0], t)
  {
    if ContainsTerm(d, t) {
      var i :| 0 <= i < |d| && HasTerm(d[i], t);
      FieldOrderInjective(i, 0);
    }
  }

  /** query: the value mapper's query, which always looks in the value field. */
  function Query(host: Host, m: Mapper, value: bytes): (r: Result<Lucene.Query>)
    ensures r.Ok? ==> ValueMapper.TargetsValueField(r.value)
    ensures host.compose(m.valueMapper.columnType, value).Err? ==> r == Err(host.compose(m.valueMapper.columnType, value).error)
  {
    ValueMapper.Query(host, m.valueMapper, value)
  }

  /** queryBefore: no lower bound, inclusive upper bound. */
  function QueryBefore(timestamp: int64): Lucene.Query {
    TimestampMapper.RangeQuery(None, Some(timestamp), false, true)
  }

  /** The truncation query matches a column's document exactly when the column was
      written at or before the truncation time. */
  lemma QueryBeforeMatches(host: Host, m: Mapper, dc: Decorated.DecoratedColumn, timestamp: int64,
                           opaqueMatch: (Lucene.Query, Lucene.Field) -> bool)
    requires DocumentOf(host, m, dc).Ok?
    ensures Matches(QueryBefore(timestamp), DocumentOf(host, m, dc).value, opaqueMatch)
        <==> dc.column.timestamp <= timestamp
  {
    DocumentShape(host, m, dc);
    TimestampMapper.RangeQueryMatches(dc, None, Some(timestamp), false, true, opaqueMatch);
    MatchesLaidOut(DocumentOf(host, m, dc).value, timestamp, opaqueMatch);
  }

  /** Only the timestamp field of a document can match a timestamp range. */
  lemma MatchesLaidOut(d: Document, timestamp: int64, opaqueMatch: (Lucene.Query, Lucene.Field) -> bool)
    requires LaidOut(d)
    ensures Matches(QueryBefore(timestamp), d, opaqueMatch) <==> FieldMatches(QueryBefore(timestamp), d[5], opaqueMatch)
  {
    if Matches(QueryBefore(timestamp), d, opaqueMatch) {
      var i :| 0 <= i < |d| && FieldMatches(QueryBefore(timestamp), d[i], opaqueMatch);
      FieldOrderInjective(i, 5);
    }
  }

  /** sort: token first, then clustering key, both as strings. */
  function Sort(): Lucene.Sort {
    Lucene.Sort([TokenMapper.Sort(), ClusteringKeyMapper.Sort()])
  }

  /** The exported field-name constants are the timestamp and full-key mappers' names,
      and the result order is by token, then by clustering key. */
  lemma NamesAgree()
    ensures TIMESTAMP_FIELD_NAME == TimestampMapper.FIELD_NAME && FULL_KEY_FIELD_NAME == FullKeyMapper.FIELD_NAME
    ensures Sort().fields == [SortField(TokenMapper.FIELD_NAME, StringVal), SortField(ClusteringKeyMapper.FIELD_NAME, StringVal)]
  {
  }
}
