/** TokenMapper: the partitioner token of the partition key as an untokenized hex field,
    and its sort. */
module TokenMapper {
  import opened Common
  import opened Marshal
  import opened Lucene
  import ByteBufferUtils
  import Decorated

  const FIELD_NAME := "token"

  /** Indexed, stored, untokenized, without norms, documents only. */
  const FIELD_TYPE := FieldType(true, true, false, true, DocsOnly, NotNumeric)

  /** field: the hex text of the token bytes. */
  function Field(host: Host, dc: Decorated.DecoratedColumn): (f: Lucene.Field)
    ensures f.name == FIELD_NAME && f.fieldType == FIELD_TYPE && f.value.StringValue?
    ensures ByteBufferUtils.FromHex(f.value.s) == Ok(Decorated.TokenBytes(host, dc))
  {
    ByteBufferUtils.HexRoundTrip(Decorated.TokenBytes(host, dc));
    Lucene.Field(FIELD_NAME, StringValue(ByteBufferUtils.BytesToHex(Decorated.TokenBytes(host, dc))), FIELD_TYPE)
  }

  /** sort: string order on the token field. */
  function Sort(): SortField {
    SortField(FIELD_NAME, StringVal)
  }

  /** Two columns get the same token field exactly when their partition keys have the
      same token; in particular the field depends on the partition key alone. */
  lemma FieldsAgreeIffTokensAgree(host: Host, a: Decorated.DecoratedColumn, b: Decorated.DecoratedColumn)
    ensures Field(host, a) == Field(host, b) <==> host.token(a.partitionKey) == host.token(b.partitionKey)
    ensures a.partitionKey == b.partitionKey ==> Field(host, a) == Field(host, b)
  {
    if Field(host, a) == Field(host, b) {
      assert ByteBufferUtils.FromHex(Field(host, a).value.s) == ByteBufferUtils.FromHex(Field(host, b).value.s);
    }
  }
}
