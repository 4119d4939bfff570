/** PartitionKeyMapper: the partition key as an untokenized hex field, and its reader. */
module PartitionKeyMapper {
  import opened Common
  import opened Lucene
  import ByteBufferUtils
  import Decorated

  const FIELD_NAME := "partition_key"

  /** Indexed, stored, untokenized, without norms, documents only. */
  const FIELD_TYPE := FieldType(true, true, false, true, DocsOnly, NotNumeric)

  /** field: the hex text of the partition key; the hex decoder reads the key back. */
  function Field(dc: Decorated.DecoratedColumn): (f: Lucene.Field)
    ensures f.name == FIELD_NAME && f.fieldType == FIELD_TYPE && f.value.StringValue?
    ensures ByteBufferUtils.FromHex(f.value.s) == Ok(dc.partitionKey)
  {
    ByteBufferUtils.HexRoundTrip(dc.partitionKey);
    Lucene.Field(FIELD_NAME, StringValue(ByteBufferUtils.BytesToHex(dc.partitionKey)), FIELD_TYPE)
  }

  /** bytes: hex-decodes the document's partition_key field; a missing field is a null
      string handed to the decoder. */
  function Bytes(d: Document): (r: Result<bytes>)
    ensures r == Err(NullPointer) <==> Get(d, FIELD_NAME).None?
    ensures r.Err? ==> r.error == NullPointer || r.error == InvalidHex
  {
    match Get(d, FIELD_NAME)
    case None => Err(NullPointer)
    case Some(s) => ByteBufferUtils.FromHex(s)
  }

  /** Reading a document that holds field(dc), or the stored fields loaded back for it,
      gives back the partition key. */
  lemma BytesOfField(dc: Decorated.DecoratedColumn, before: Document, after: Document)
    requires Get(before, FIELD_NAME).None?
    ensures Bytes(before + [Field(dc)] + after) == Ok(dc.partitionKey)
    ensures Bytes(Stored(before + [Field(dc)] + after)) == Ok(dc.partitionKey)
  {
    GetStored(before, Field(dc), after);
  }
}
