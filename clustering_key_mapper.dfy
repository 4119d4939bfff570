/** ClusteringKeyMapper: the clustering key as an untokenized hex field, its reader and
    its sort. */
module ClusteringKeyMapper {
  import opened Common
  import opened Lucene
  import ByteBufferUtils
  import Decorated

  const FIELD_NAME := "clustering_key"

  /** Indexed, stored, untokenized, without norms, documents only. */
  const FIELD_TYPE := FieldType(true, true, false, true, DocsOnly, NotNumeric)

  /** field: the hex text of the decorated column's clustering key; it fails exactly
      when the clustering key cannot be computed. */
  function Field(dc: Decorated.DecoratedColumn): (r: Result<Lucene.Field>)
    ensures r.Ok? <==> Decorated.ClusteringKey(dc).Ok?
    ensures r.Err? ==> r.error == Decorated.ClusteringKey(dc).error
    ensures r.Ok? ==> && r.value.name == FIELD_NAME && r.value.fieldType == FIELD_TYPE && r.value.value.StringValue?
                      && ByteBufferUtils.FromHex(r.value.value.s) == Decorated.ClusteringKey(dc)
  {
    var key :- Decorated.ClusteringKey(dc);
    ByteBufferUtils.HexRoundTrip(key);
    Ok(Lucene.Field(FIELD_NAME, StringValue(ByteBufferUtils.BytesToHex(key)), FIELD_TYPE))
  }

  /** bytes: hex-decodes the document's clustering_key field. */
  function Bytes(d: Document): (r: Result<bytes>)
    ensures r == Err(NullPointer) <==> Get(d, FIELD_NAME).None?
    ensures r.Err? ==> r.error == NullPointer || r.error == InvalidHex
  {
    match Get(d, FIELD_NAME)
    case None => Err(NullPointer)
    case Some(s) => ByteBufferUtils.FromHex(s)
  }

  /** sort: string order on the clustering_key field. */
  function Sort(): SortField {
    SortField(FIELD_NAME, StringVal)
  }

  /** Reading a document that holds field(dc), or its loaded stored fields, gives back
      the clustering key. */
  lemma BytesOfField(dc: Decorated.DecoratedColumn, before: Document, after: Document)
    requires Field(dc).Ok? && Get(before, FIELD_NAME).None?
    ensures Bytes(before + [Field(dc).value] + after) == Decorated.ClusteringKey(dc)
    ensures Bytes(Stored(before + [Field(dc).value] + after)) == Decorated.ClusteringKey(dc)
  {
    GetStored(before, Field(dc).value, after);
  }
}
