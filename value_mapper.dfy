/** ValueMapper: the indexed column's value as a Lucene field, and the query that finds
    a value, both chosen by the column's validator type. */
module ValueMapper {
  import opened Common
  import opened Marshal
  import opened Lucene
  import Decorated

  const FIELD_NAME := "value"

  /** The mapper of one indexed column, built from its validator. Its query parser
      parses with FIELD_NAME as the default field. */
  datatype Mapper = Mapper(columnType: ColumnType)

  // ---------------------------------------------------------------------------
  // The Java casts applied to a composed value: null passes a reference cast, any
  // value of another class is a ClassCastException.

  function CastString(v: JavaValue): Result<Option<string>> {
    match v
    case JString(s) => Ok(Some(s))
    case JNull => Ok(None)
    case _ => Err(ClassCast)
  }

  function CastLong(v: JavaValue): Result<Option<int64>> {
    match v
    case JLong(n) => Ok(Some(n))
    case JNull => Ok(None)
    case _ => Err(ClassCast)
  }

  function CastInt(v: JavaValue): Result<Option<int32>> {
    match v
    case JInt(i) => Ok(Some(i))
    case JNull => Ok(None)
    case _ => Err(ClassCast)
  }

  function CastBoolean(v: JavaValue): Result<Option<bool>> {
    match v
    case JBoolean(b) => Ok(Some(b))
    case JNull => Ok(None)
    case _ => Err(ClassCast)
  }

  /** A UUID, seen through its toString. */
  function CastUuid(v: JavaValue): Result<Option<string>> {
    match v
    case JUuid(t) => Ok(Some(t))
    case JNull => Ok(None)
    case _ => Err(ClassCast)
  }

  /** A Date, seen through getTime. */
  function CastDate(v: JavaValue): Result<Option<int64>> {
    match v
    case JDate(m, _) => Ok(Some(m))
    case JNull => Ok(None)
    case _ => Err(ClassCast)
  }

  function CastFloating(v: JavaValue): Result<Option<bytes>> {
    match v
    case JFloating(bits, _) => Ok(Some(bits))
    case JNull => Ok(None)
    case _ => Err(ClassCast)
  }

  /** Unboxing, or a method call on, a null reference. */
  function Deref<T>(o: Option<T>): Result<T> {
    match o
    case Some(x) => Ok(x)
    case None => Err(NullPointer)
  }

  /** Lucene's Field constructor refuses a null string value. */
  function FieldText(o: Option<string>): Result<string> {
    match o
    case Some(s) => Ok(s)
    case None => Err(IllegalArgument)
  }

  /** StringBuilder.append of a possibly null string. */
  function AppendedText(o: Option<string>): string {
    match o
    case Some(s) => s
    case None => "null"
  }

  function LongFieldOf(n: int64): Lucene.Field {
    Lucene.Field(FIELD_NAME, LongValue(n), NumericNotStored(LongNumeric))
  }

  function IntFieldOf(i: int32): Lucene.Field {
    Lucene.Field(FIELD_NAME, IntValue(i), NumericNotStored(IntNumeric))
  }

  function StringFieldOf(s: string): Lucene.Field {
    Lucene.Field(FIELD_NAME, StringValue(s), STRING_NOT_STORED)
  }

  // ---------------------------------------------------------------------------
  // field

  /** The field for a composed value of the given type. Bytes, Decimal and every type
      outside the list are refused; every field produced is an unstored, indexed field
      named FIELD_NAME. */
  function FieldOf(t: ColumnType, v: JavaValue): (r: Result<Lucene.Field>)
    ensures r.Ok? ==> r.value.name == FIELD_NAME && r.value.fieldType.indexed && !r.value.fieldType.stored
    ensures r == Err(UnsupportedOperation) <==> t.BytesType? || t.DecimalType? || t.OtherType?
  {
    match t
    case AsciiType | UTF8Type =>
      var s :- CastString(v);
      var text :- FieldText(s);
      Ok(Lucene.Field(FIELD_NAME, StringValue(text), TEXT_NOT_STORED))
    case LongType | CounterColumnType =>
      var n :- CastLong(v);
      var x :- Deref(n);
      Ok(LongFieldOf(x))
    case BytesType | DecimalType => Err(UnsupportedOperation)
    case BooleanType =>
      var b :- CastBoolean(v);
      var x :- Deref(b);
      Ok(IntFieldOf(if x then 1 else 0))
    case DoubleType =>
      var d :- CastFloating(v);
      var x :- Deref(d);
      Ok(Lucene.Field(FIELD_NAME, FloatingValue(x), NumericNotStored(DoubleNumeric)))
    case FloatType =>
      var d :- CastFloating(v);
      var x :- Deref(d);
      Ok(Lucene.Field(FIELD_NAME, FloatingValue(x), NumericNotStored(FloatNumeric)))
    case InetAddressType =>
      var s :- CastString(v);
      var text :- FieldText(s);
      Ok(StringFieldOf(text))
    case Int32Type | IntegerType =>
      var i :- CastInt(v);
      var x :- Deref(i);
      Ok(IntFieldOf(x))
    case TimestampType =>
      var d :- CastDate(v);
      var x :- Deref(d);
      Ok(LongFieldOf(x))
    case UUIDType | TimeUUIDType =>
      var u :- CastUuid(v);
      var x :- Deref(u);
      Ok(StringFieldOf(x))
    case OtherType(_) => Err(UnsupportedOperation)
  }

  /** field(dc): composes the decorated column's value with the column's type. */
  function Field(host: Host, m: Mapper, dc: Decorated.DecoratedColumn): (r: Result<Lucene.Field>)
    ensures r.Ok? ==> r.value.name == FIELD_NAME && r.value.fieldType.indexed && !r.value.fieldType.stored
  {
    var bytes :- Decorated.Value(dc);
    var value :- host.compose(m.columnType, bytes);
    FieldOf(m.columnType, value)
  }

  // ---------------------------------------------------------------------------
  // query

  /** Whether a query of this mapper looks in FIELD_NAME. */
  predicate TargetsValueField(q: Query) {
    match q
    case TermQuery(t) => t.field == FIELD_NAME
    case ParsedQuery(f, _) => f == FIELD_NAME
    case _ => q.field == FIELD_NAME
  }

  /** query(fieldName, fieldValue): parses "fieldName:fieldValue"; a parse failure is
      rethrown. */
  function ParseQuery(host: Host, fieldName: string, fieldValue: string): Result<Query> {
    var text := fieldName + ":" + fieldValue;
    if host.parses(text) then Ok(ParsedQuery(FIELD_NAME, text)) else Err(QueryParse(text))
  }

  /** The query for a composed value of the given type. Only Bytes and Decimal are
      refused; a type outside the list falls back to a term on the value's text. */
  function QueryOf(host: Host, t: ColumnType, v: JavaValue): (r: Result<Query>)
    ensures r.Ok? ==> TargetsValueField(r.value)
    ensures r == Err(UnsupportedOperation) <==> t.BytesType? || t.DecimalType?
  {
    match t
    case AsciiType | UTF8Type =>
      var s :- CastString(v);
      ParseQuery(host, FIELD_NAME, AppendedText(s))
    case LongType | CounterColumnType =>
      var n :- CastLong(v);
      Ok(LongRangeQuery(FIELD_NAME, n, n, true, true))
    case BytesType | DecimalType => Err(UnsupportedOperation)
    case BooleanType =>
      var b :- CastBoolean(v);
      var x :- Deref(b);
      Ok(IntRangeQuery(FIELD_NAME, Some(if x then 1 else 0), Some(if x then 1 else 0), true, true))
    case DoubleType =>
      var d :- CastFloating(v);
      Ok(FloatingRangeQuery(FIELD_NAME, DoubleNumeric, d, d, true, true))
    case FloatType =>
      var d :- CastFloating(v);
      Ok(FloatingRangeQuery(FIELD_NAME, FloatNumeric, d, d, true, true))
    case InetAddressType =>
      var s :- CastString(v);
      var text :- Deref(s);
      Ok(TermQuery(Term(FIELD_NAME, text)))
    case Int32Type | IntegerType =>
      var i :- CastInt(v);
      Ok(IntRangeQuery(FIELD_NAME, i, i, true, true))
    case TimestampType =>
      var d :- CastDate(v);
      var x :- Deref(d);
      Ok(LongRangeQuery(FIELD_NAME, Some(x), Some(x), true, true))
    case UUIDType | TimeUUIDType =>
      var u :- CastUuid(v);
      var x :- Deref(u);
      Ok(TermQuery(Term(FIELD_NAME, x)))
    case OtherType(_) =>
      var text :- JavaToString(v);
      Ok(TermQuery(Term(FIELD_NAME, text)))
  }

  /** The Timestamp branch of query as written: the composed Date is cast to Long. */
  function TimestampQueryAsWritten(v: JavaValue): Result<Query> {
    var n :- CastLong(v);
    Ok(LongRangeQuery(FIELD_NAME, n, n, true, true))
  }

  /** query(columnValue): composes the value with the column's type; an uncomposable
      value is compose's error, and every query looks in the value field. */
  function Query(host: Host, m: Mapper, columnValue: bytes): (r: Result<Lucene.Query>)
    ensures r.Ok? ==> TargetsValueField(r.value)
    ensures host.compose(m.columnType, columnValue).Err? ==> r == Err(host.compose(m.columnType, columnValue).error)
    ensures host.compose(m.columnType, columnValue).Ok? ==> r == QueryOf(host, m.columnType, host.compose(m.columnType, columnValue).value)
  {
    var value :- host.compose(m.columnType, columnValue);
    QueryOf(host, m.columnType, value)
  }

  // ---------------------------------------------------------------------------
  // Properties

  /** The types whose values are indexed as one exact term or number. */
  predicate IsExactType(t: ColumnType) {
    t.LongType? || t.CounterColumnType? || t.Int32Type? || t.IntegerType? || t.TimestampType?
    || t.BooleanType? || t.UUIDType? || t.TimeUUIDType? || t.InetAddressType?
  }

  /** For the exact types, the query for a non-null value y is a point query of the
      encoding the field uses: it matches the field of x exactly when x and y are
      indexed identically. */
  lemma PointQueryMatchesField(host: Host, t: ColumnType, x: JavaValue, y: JavaValue,
                               opaqueMatch: (Lucene.Query, Lucene.Field) -> bool)
    requires IsExactType(t) && y != JNull
    requires FieldOf(t, x).Ok? && QueryOf(host, t, y).Ok?
    ensures FieldOf(t, y).Ok?
    ensures FieldMatches(QueryOf(host, t, y).value, FieldOf(t, x).value, opaqueMatch)
        <==> FieldOf(t, x) == FieldOf(t, y)
  {
  }

  /** Boolean is indexed and queried as the int 1 or 0, so a query finds exactly the
      fields of the same truth value. */
  lemma BooleanAsInt(host: Host, b: bool, c: bool, opaqueMatch: (Lucene.Query, Lucene.Field) -> bool)
    ensures FieldOf(BooleanType, JBoolean(b)) == Ok(IntFieldOf(if b then 1 else 0))
    ensures QueryOf(host, BooleanType, JBoolean(b))
         == Ok(IntRangeQuery(FIELD_NAME, Some(if b then 1 else 0), Some(if b then 1 else 0), true, true))
    ensures FieldMatches(QueryOf(host, BooleanType, JBoolean(b)).value, FieldOf(BooleanType, JBoolean(c)).value, opaqueMatch)
        <==> b == c
  {
  }

  /** A null composed value passes the cast of the numeric query branches and leaves both
      bounds open, so that query matches every field of the type. */
  lemma NullNumericQueryMatchesAll(host: Host, t: ColumnType, x: JavaValue,
                                   opaqueMatch: (Lucene.Query, Lucene.Field) -> bool)
    requires t.LongType? || t.CounterColumnType? || t.Int32Type? || t.IntegerType?
    requires FieldOf(t, x).Ok?
    ensures QueryOf(host, t, JNull).Ok?
    ensures FieldMatches(QueryOf(host, t, JNull).value, FieldOf(t, x).value, opaqueMatch)
  {
  }

  /** Text types are indexed as analysed text and queried by parsing FIELD_NAME, a colon
      and the text; a parse failure is reported, never swallowed. */
  lemma TextQuery(host: Host, t: ColumnType, s: string)
    requires t.AsciiType? || t.UTF8Type?
    ensures FieldOf(t, JString(s)) == Ok(Lucene.Field(FIELD_NAME, StringValue(s), TEXT_NOT_STORED))
    ensures var r := QueryOf(host, t, JString(s));
      && (r.Ok? <==> host.parses(FIELD_NAME + ":" + s))
      && (r.Ok? ==> r.value.ParsedQuery? && r.value.text[..|FIELD_NAME| + 1] == FIELD_NAME + ":"
                    && r.value.text[|FIELD_NAME| + 1..] == s)
      && (r.Err? ==> r.error == QueryParse(FIELD_NAME + ":" + s))
  {
    var r := QueryOf(host, t, JString(s));
    if r.Ok? {
      assert r.value.text == FIELD_NAME + ":" + s;
    }
  }

  /** A type outside the list is refused by field but queried by a term on the value's
      text. */
  lemma QueryFallback(host: Host, name: string, v: JavaValue)
    requires v != JNull
    ensures FieldOf(OtherType(name), v) == Err(UnsupportedOperation)
    ensures QueryOf(host, OtherType(name), v) == Ok(TermQuery(Term(FIELD_NAME, JavaToString(v).value)))
  {
  }

  /** As written, the Timestamp query casts the composed Date to Long, so it fails on
      every date the field accepts. */
  lemma TimestampQueryAsWrittenRejectsDates(millis: int64, text: string)
    ensures FieldOf(TimestampType, JDate(millis, text)) == Ok(LongFieldOf(millis))
    ensures TimestampQueryAsWritten(JDate(millis, text)) == Err(ClassCast)
  {
  }
}
