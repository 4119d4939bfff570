/** TimestampMapper: the write timestamp as an unstored long field, its range queries and
    its reader. */
module TimestampMapper {
  import opened Common
  import opened Lucene
  import Decorated

  const FIELD_NAME := "timestamp"

  /** field: a LongField carrying the timestamp, not stored. */
  function Field(dc: Decorated.DecoratedColumn): (f: Lucene.Field)
    ensures f.name == FIELD_NAME && f.fieldType == NumericNotStored(LongNumeric)
    ensures f.value == LongValue(Decorated.Timestamp(dc))
  {
    Lucene.Field(FIELD_NAME, LongValue(Decorated.Timestamp(dc)), NumericNotStored(LongNumeric))
  }

  /** query(min, max, minInclusive, maxInclusive): a long range on the timestamp field;
      a null bound is open. */
  function RangeQuery(min: Option<int64>, max: Option<int64>, minInclusive: bool, maxInclusive: bool): Query {
    LongRangeQuery(FIELD_NAME, min, max, minInclusive, maxInclusive)
  }

  /** query(value): the inclusive point range [value, value]. */
  function PointQuery(value: Option<int64>): Query {
    RangeQuery(value, value, true, true)
  }

  /** value: the numeric value of the first timestamp field; a missing field, or one
      without a numeric value, dereferences null. */
  function Value(d: Document): (r: Result<int>)
    ensures r.Ok? ==> GetField(d, FIELD_NAME).Some?
    ensures GetField(d, FIELD_NAME).None? ==> r == Err(NullPointer)
  {
    match GetField(d, FIELD_NAME)
    case None => Err(NullPointer)
    case Some(f) =>
      match f.value
      case LongValue(n) => Ok(n)
      case IntValue(i) => Ok(i)
      case StringValue(_) => Err(NullPointer)
      case FloatingValue(_) => Err(UnsupportedOperation)
  }

  /** The range query matches a column's timestamp field exactly when the timestamp lies
      within the bounds, with the given inclusivity. */
  lemma RangeQueryMatches(dc: Decorated.DecoratedColumn, min: Option<int64>, max: Option<int64>,
                          minInclusive: bool, maxInclusive: bool, opaqueMatch: (Query, Lucene.Field) -> bool)
    ensures FieldMatches(RangeQuery(min, max, minInclusive, maxInclusive), Field(dc), opaqueMatch)
        <==> && (min.None? || (if minInclusive then min.value <= dc.column.timestamp else min.value < dc.column.timestamp))
             && (max.None? || (if maxInclusive then dc.column.timestamp <= max.value else dc.column.timestamp < max.value))
  {
  }

  /** The point query matches exactly the columns written at that timestamp. */
  lemma PointQueryMatches(dc: Decorated.DecoratedColumn, value: int64, opaqueMatch: (Query, Lucene.Field) -> bool)
    ensures FieldMatches(PointQuery(Some(value)), Field(dc), opaqueMatch) <==> dc.column.timestamp == value
  {
  }

  /** A document holding the timestamp field reads back the timestamp. */
  lemma ValueOfField(dc: Decorated.DecoratedColumn, before: Document, after: Document)
    requires GetField(before, FIELD_NAME).None?
    ensures Value(before + [Field(dc)] + after) == Ok(dc.column.timestamp)
  {
    GetFieldAppend(before + [Field(dc)], after, FIELD_NAME);
    GetFieldAppend(before, [Field(dc)], FIELD_NAME);
  }

  /** The timestamp field is not stored, so the fields loaded back for a search hit never
      hold it and reading the timestamp from them dereferences null. */
  lemma ValueOfLoadedHit(d: Document)
    requires forall i :: 0 <= i < |d| && d[i].name == FIELD_NAME ==> !d[i].fieldType.stored
    ensures Value(Stored(d)) == Err(NullPointer)
  {
    StoredDropsUnstored(d, FIELD_NAME);
  }
}
