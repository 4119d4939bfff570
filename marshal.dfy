/** Stand-ins for the Cassandra marshal layer the core relies on: the closed set of
    column types, composed Java values, the host collaborators (composition, the
    partitioner, the query parser), a composite-name byte layout with its builder and
    splitter, the unsigned byte comparison used by UTF8Type, and Long.toString. */
module Marshal {
  import opened Common

  /** The Cassandra AbstractType subclasses the value mapper distinguishes; OtherType is
      every other type (composites, collections, ...). */
  datatype ColumnType =
    | AsciiType | LongType | BytesType | BooleanType | CounterColumnType | DecimalType
    | DoubleType | FloatType | InetAddressType | Int32Type | UTF8Type | TimestampType
    | UUIDType | IntegerType | TimeUUIDType | OtherType(name: string)

  /** A comparator (key validator or column-name comparator): a single type, or a
      CompositeType with its declared component types. */
  datatype Comparator = Simple(t: ColumnType) | Composite(types: seq<ColumnType>)

  /** The Java object a type's `compose` returns. Floating values are kept opaque. */
  datatype JavaValue =
    | JString(s: string)
    | JLong(n: int64)
    | JInt(i: int32)
    | JBoolean(b: bool)
    | JUuid(text: string)
    | JDate(millis: int64, text: string)
    | JFloating(bits: bytes, text: string)
    | JObject(text: string)
    | JNull

  /** `Object.toString()` of a composed value; a null value throws. */
  function JavaToString(v: JavaValue): (r: Result<string>)
    ensures r.Err? <==> v.JNull?
  {
    match v
    case JString(s) => Ok(s)
    case JLong(n) => Ok(LongToString(n))
    case JInt(i) => Ok(LongToString(i))
    case JBoolean(b) => Ok(if b then "true" else "false")
    case JUuid(t) => Ok(t)
    case JDate(_, t) => Ok(t)
    case JFloating(_, t) => Ok(t)
    case JObject(t) => Ok(t)
    case JNull => Err(NullPointer)
  }

  /** String.valueOf, which StringBuilder.append(Object) uses: "null" for a null
      reference, the value's toString() otherwise. */
  function StringValueOf(v: JavaValue): string {
    match JavaToString(v)
    case Ok(s) => s
    case Err(_) => "null"
  }

  /** The host collaborators the core calls but does not define:
      compose(t, b) is `t.compose(b)`, token(k) is the partitioner's token of key k
      serialised to bytes, and parses(s) says whether Lucene's query parser accepts s. */
  datatype Host = Host(
    compose: (ColumnType, bytes) -> Result<JavaValue>,
    token: bytes -> bytes,
    parses: string -> bool)

  // ---------------------------------------------------------------------------
  // Composite names: each component is a 2-byte big-endian length, the bytes,
  // and an end-of-component byte. The builder writes end-of-component 0 and keeps
  // only the low 16 bits of the length; the splitter ignores end-of-component.

  const COMPONENT_LIMIT := 0x1_0000

  predicate Encodable(cs: seq<bytes>) {
    forall i :: 0 <= i < |cs| ==> |cs[i]| < COMPONENT_LIMIT
  }

  function EncodeComponent(c: bytes): bytes {
    var n := |c| % COMPONENT_LIMIT;
    [n / 256, n % 256] + c + [0]
  }

  /** CompositeType.build / CompositeType.Builder.build. */
  function Build(cs: seq<bytes>): bytes {
    if cs == [] then [] else EncodeComponent(cs[0]) + Build(cs[1..])
  }

  /** CompositeType.split: reads components while bytes remain; asking for the
      comparator of a component beyond the declared types fails, and so does a
      component that runs past the end of the buffer. */
  function SplitComponents(b: bytes, budget: nat): (r: Result<seq<bytes>>)
    ensures r.Ok? ==> |r.value| <= budget && Encodable(r.value)
    ensures r.Ok? ==> (|r.value| == 0 <==> b == [])
    decreases |b|
  {
    if b == [] then Ok([])
    else if budget == 0 then Err(MalformedComposite)
    else if |b| < 2 then Err(MalformedComposite)
    else
      var len: int := b[0] as int * 256 + b[1] as int;
      if |b| < 2 + len + 1 then Err(MalformedComposite)
      else
        var rest :- SplitComponents(b[2 + len + 1..], budget - 1);
        Ok([b[2..2 + len]] + rest)
  }

  function SplitComposite(types: seq<ColumnType>, b: bytes): Result<seq<bytes>> {
    SplitComponents(b, |types|)
  }

  /** One step of the splitter over an encoded component followed by anything. */
  lemma SplitStep(c: bytes, tail: bytes, budget: nat)
    requires |c| < COMPONENT_LIMIT && budget > 0
    ensures SplitComponents(EncodeComponent(c) + tail, budget)
         == (match SplitComponents(tail, budget - 1)
             case Ok(rest) => Ok([c] + rest)
             case Err(e) => Err(e))
  {
    var n := |c|;
    var hi: byte, lo: byte := (n / 256) as byte, (n % 256) as byte;
    assert hi as int * 256 + lo as int == n;
    var b := EncodeComponent(c) + tail;
    assert b == [hi, lo] + c + [0] + tail;
    assert b[0] == hi && b[1] == lo;
    assert b[2..2 + n] == c;
    assert b[2 + n + 1..] == tail;
  }

  lemma {:induction false} SplitBuild(cs: seq<bytes>, budget: nat)
    requires |cs| <= budget && Encodable(cs)
    ensures SplitComponents(Build(cs), budget) == Ok(cs)
    decreases |cs|
  {
    if cs != [] {
      SplitStep(cs[0], Build(cs[1..]), budget);
      SplitBuild(cs[1..], budget - 1);
      assert [cs[0]] + cs[1..] == cs;
    }
  }

  /** Splitting what the builder wrote gives back the components: decode after encode. */
  lemma BuildSplitRoundTrip(types: seq<ColumnType>, cs: seq<bytes>)
    requires |cs| <= |types| && Encodable(cs)
    ensures SplitComposite(types, Build(cs)) == Ok(cs)
  {
    SplitBuild(cs, |types|);
  }

  /** Rebuilding a split name and splitting again is stable (the composite round-trip). */
  lemma SplitIsStable(types: seq<ColumnType>, b: bytes)
    requires SplitComposite(types, b).Ok?
    ensures SplitComposite(types, Build(SplitComposite(types, b).value)) == SplitComposite(types, b)
  {
    SplitBuild(SplitComposite(types, b).value, |types|);
  }

  // ---------------------------------------------------------------------------
  // ByteBufferUtil.compareUnsigned (UTF8Type.compare): lexicographic on unsigned
  // bytes, a proper prefix first. Only the sign of the result is modelled.

  function CompareUnsigned(a: bytes, b: bytes): (r: int)
    ensures -1 <= r <= 1
  {
    if a == [] && b == [] then 0
    else if a == [] then -1
    else if b == [] then 1
    else if a[0] < b[0] then -1
    else if a[0] > b[0] then 1
    else CompareUnsigned(a[1..], b[1..])
  }

  lemma {:induction false} CompareAntisymmetric(a: bytes, b: bytes)
    ensures CompareUnsigned(a, b) == -CompareUnsigned(b, a)
    decreases |a|
  {
    if a != [] && b != [] && a[0] == b[0] {
      CompareAntisymmetric(a[1..], b[1..]);
    }
  }

  lemma {:induction false} CompareZeroIsEquality(a: bytes, b: bytes)
    ensures CompareUnsigned(a, b) == 0 <==> a == b
    decreases |a|
  {
    if a != [] && b != [] && a[0] == b[0] {
      CompareZeroIsEquality(a[1..], b[1..]);
      assert a == [a[0]] + a[1..] && b == [b[0]] + b[1..];
    }
  }

  lemma {:induction false} CompareTransitive(a: bytes, b: bytes, c: bytes)
    requires CompareUnsigned(a, b) <= 0 && CompareUnsigned(b, c) <= 0
    ensures CompareUnsigned(a, c) <= 0
    decreases |a|
  {
    if a != [] && b != [] && c != [] && a[0] == b[0] == c[0] {
      CompareTransitive(a[1..], b[1..], c[1..]);
    }
  }

  // ---------------------------------------------------------------------------
  // Long.toString: optional minus sign, then the decimal digits.

  function DigitChar(d: nat): (c: char)
    requires d < 10
  {
    (48 + d) as char
  }

  predicate IsDigit(c: char) {
    '0' <= c <= '9'
  }

  function DigitValue(c: char): (d: nat)
    requires IsDigit(c)
    ensures d < 10
  {
    c as int - '0' as int
  }

  function NatToString(n: nat): (s: string)
    ensures |s| >= 1 && forall i :: 0 <= i < |s| ==> IsDigit(s[i])
  {
    if n < 10 then [DigitChar(n)] else NatToString(n / 10) + [DigitChar(n % 10)]
  }

  function LongToString(n: int): string {
    if n < 0 then "-" + NatToString(-n) else NatToString(n)
  }

  /** Reads back a run of decimal digits (Long.parseLong without a sign). */
  function ParseDigits(s: string): nat
    requires forall i :: 0 <= i < |s| ==> IsDigit(s[i])
  {
    if s == [] then 0 else ParseDigits(s[..|s| - 1]) * 10 + DigitValue(s[|s| - 1])
  }

  /** A sign or a digit, then digits. */
  predicate IsLongText(s: string) {
    |s| >= 1 && (s[0] == '-' || IsDigit(s[0])) && forall i :: 0 < i < |s| ==> IsDigit(s[i])
  }

  function ParseLong(s: string): int
    requires IsLongText(s)
  {
    if s[0] == '-' then 0 - ParseDigits(s[1..]) else ParseDigits(s)
  }

  lemma {:induction false} ParseNatToString(n: nat)
    ensures ParseDigits(NatToString(n)) == n
  {
    if n >= 10 {
      var s := NatToString(n);
      ParseNatToString(n / 10);
      assert s[..|s| - 1] == NatToString(n / 10);
    }
  }

  /** Long.toString is read back by the decimal parser, so it is injective. */
  lemma LongToStringRoundTrip(n: int)
    ensures IsLongText(LongToString(n)) && ParseLong(LongToString(n)) == n
    ensures forall i :: 0 <= i < |LongToString(n)| ==> LongToString(n)[i] != ':'
  {
    var s := LongToString(n);
    if n < 0 {
      ParseNatToString(-n);
      assert s[1..] == NatToString(-n);
    } else {
      ParseNatToString(n);
    }
  }

  lemma LongToStringInjective(a: int, b: int)
    requires LongToString(a) == LongToString(b)
    ensures a == b
  {
    LongToStringRoundTrip(a);
    LongToStringRoundTrip(b);
  }
}
