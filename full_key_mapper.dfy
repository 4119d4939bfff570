/** FullKeyMapper: the column's identifying string as an untokenized, unstored field, and
    the term that finds it. */
module FullKeyMapper {
  import opened Common
  import opened Marshal
  import opened Lucene
  import Decorated

  const FIELD_NAME := "full_key"

  /** Indexed, not stored, untokenized, without norms, documents only. */
  const FIELD_TYPE := FieldType(true, false, false, true, DocsOnly, NotNumeric)

  /** field: the identifying string under full_key. */
  function Field(host: Host, dc: Decorated.DecoratedColumn): (r: Result<Lucene.Field>)
    ensures r.Ok? <==> Decorated.IdentifyingString(host, dc).Ok?
    ensures r.Ok? ==> r.value.name == FIELD_NAME && r.value.fieldType == FIELD_TYPE
                      && r.value.value == StringValue(Decorated.IdentifyingString(host, dc).value)
  {
    var id :- Decorated.IdentifyingString(host, dc);
    Ok(Lucene.Field(FIELD_NAME, StringValue(id), FIELD_TYPE))
  }

  /** term: the identifying string as a full_key term. */
  function Term(host: Host, dc: Decorated.DecoratedColumn): (r: Result<Lucene.Term>)
    ensures r.Ok? <==> Decorated.IdentifyingString(host, dc).Ok?
    ensures r.Ok? ==> r.value.field == FIELD_NAME
  {
    var id :- Decorated.IdentifyingString(host, dc);
    Ok(Lucene.Term(FIELD_NAME, id))
  }

  /** The term of a column is found in the field of a column exactly when the two have
      the same identifying string; so a column's own term finds its own field. */
  lemma TermFindsField(host: Host, x: Decorated.DecoratedColumn, y: Decorated.DecoratedColumn)
    requires Field(host, x).Ok? && Term(host, y).Ok?
    ensures HasTerm(Field(host, x).value, Term(host, y).value)
        <==> Decorated.IdentifyingString(host, x) == Decorated.IdentifyingString(host, y)
    ensures HasTerm(Field(host, x).value, Term(host, x).value)
  {
  }

  /** Columns written at different timestamps never find each other's full_key field. */
  lemma TermSeparatesTimestamps(host: Host, x: Decorated.DecoratedColumn, y: Decorated.DecoratedColumn)
    requires Field(host, x).Ok? && Term(host, y).Ok?
    requires x.column.timestamp != y.column.timestamp
    ensures !HasTerm(Field(host, x).value, Term(host, y).value)
  {
    if HasTerm(Field(host, x).value, Term(host, y).value) {
      Decorated.IdentifyingStringDeterminesTimestamp(host, x, y);
    }
  }
}
