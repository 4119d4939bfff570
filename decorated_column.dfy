/** DecoratedColumn: a stored column seen together with its partition key and the
    table's schema, and the facts derived from them. */
module Decorated {
  import opened Common
  import opened Marshal
  import ByteBufferUtils

  /** ColumnDefinition.Type. */
  datatype ColumnRole = PartitionKeyRole | ClusteringKeyRole | RegularRole | CompactValueRole

  datatype ColumnDefinition = ColumnDefinition(
    name: bytes,
    role: ColumnRole,
    componentIndex: nat,
    validator: ColumnType,
    indexName: string)

  /** A storage-engine column: its (composite) name, value and write timestamp. */
  datatype Column = Column(name: bytes, value: bytes, timestamp: int64)

  /** The table metadata the index reads. */
  datatype TableMetadata = TableMetadata(
    ksName: string,
    cfName: string,
    keyValidator: Comparator,
    comparator: Comparator,
    regularColumns: seq<ColumnDefinition>)

  datatype DecoratedColumn = DecoratedColumn(
    partitionKey: bytes,
    column: Column,
    definition: ColumnDefinition,
    keyType: Comparator,
    nameTypes: seq<ColumnType>,
    valueType: ColumnType)

  /** The constructor: the table's comparator is cast to CompositeType. */
  function Decorate(partitionKey: bytes, column: Column, table: TableMetadata, definition: ColumnDefinition)
    : (r: Result<DecoratedColumn>)
    ensures r.Ok? <==> table.comparator.Composite?
    ensures r.Err? ==> r.error == ClassCast
    ensures r.Ok? ==>
      && r.value.partitionKey == partitionKey && r.value.column == column
      && r.value.definition == definition && r.value.keyType == table.keyValidator
      && r.value.nameTypes == table.comparator.types && r.value.valueType == definition.validator
  {
    match table.comparator
    case Composite(types) =>
      Ok(DecoratedColumn(partitionKey, column, definition, table.keyValidator, types, definition.validator))
    case Simple(_) => Err(ClassCast)
  }

  /** getName. */
  function Name(dc: DecoratedColumn): (r: bytes)
    ensures r == dc.column.name
  {
    dc.column.name
  }

  /** getTimestamp. */
  function Timestamp(dc: DecoratedColumn): (r: int64)
    ensures r == dc.column.timestamp
  {
    dc.column.timestamp
  }

  /** getTokenAsByteBuffer: the partitioner's token of the partition key. */
  function TokenBytes(host: Host, dc: DecoratedColumn): bytes {
    host.token(dc.partitionKey)
  }

  /** A decorated column exposes the stored column's name and timestamp, the
      partitioner's token of its own partition key, and a regular column's value bytes. */
  lemma DecorateKeepsCell(host: Host, partitionKey: bytes, column: Column, table: TableMetadata,
                          definition: ColumnDefinition)
    requires Decorate(partitionKey, column, table, definition).Ok?
    ensures var dc := Decorate(partitionKey, column, table, definition).value;
      && Name(dc) == column.name && Timestamp(dc) == column.timestamp
      && TokenBytes(host, dc) == host.token(partitionKey)
      && (definition.role == RegularRole ==> Value(dc) == Ok(column.value))
  {
  }

  /** The token is a function of the partition key alone. */
  lemma TokenDependsOnlyOnPartitionKey(host: Host, a: DecoratedColumn, b: DecoratedColumn)
    requires a.partitionKey == b.partitionKey
    ensures TokenBytes(host, a) == TokenBytes(host, b)
  {
  }

  /** getPartitionKeyAsString. */
  function PartitionKeyText(host: Host, dc: DecoratedColumn): Result<string> {
    ByteBufferUtils.TextOf(host, dc.partitionKey, dc.keyType)
  }

  /** getNameAsString. */
  function NameText(host: Host, dc: DecoratedColumn): Result<string> {
    ByteBufferUtils.TextOf(host, dc.column.name, Composite(dc.nameTypes))
  }

  /** getClusteringKey: the name's components with the last one replaced by an empty
      component. An empty name has no last component to remove. */
  function ClusteringKey(dc: DecoratedColumn): Result<bytes> {
    var components :- SplitComposite(dc.nameTypes, dc.column.name);
    if |components| == 0 then Err(IndexOutOfBounds)
    else Ok(Build(components[..|components| - 1] + [[]]))
  }

  /** getClusteringKey as written: deconstruct, remove the last component, and add
      the others to a builder in a loop before the closing empty component. */
  method GetClusteringKey(dc: DecoratedColumn) returns (r: Result<bytes>)
    ensures r == ClusteringKey(dc)
  {
    var deconstructed := SplitComposite(dc.nameTypes, dc.column.name);
    if deconstructed.Err? {
      r := Err(deconstructed.error);
      return;
    }
    var components := deconstructed.value;
    if |components| == 0 {
      r := Err(IndexOutOfBounds);
      return;
    }
    components := components[..|components| - 1];
    var builder: seq<bytes> := [];
    var i := 0;
    while i < |components|
      invariant 0 <= i <= |components|
      invariant builder == components[..i]
    {
      builder := builder + [components[i]];
      i := i + 1;
    }
    assert builder == components;
    builder := builder + [[]];
    r := Ok(Build(builder));
  }

  /** The clustering key keeps the name's arity: it splits into the name's first
      n-1 components followed by one empty component. */
  lemma ClusteringKeyShape(dc: DecoratedColumn)
    requires ClusteringKey(dc).Ok?
    ensures var name := SplitComposite(dc.nameTypes, dc.column.name).value;
      && |name| >= 1
      && SplitComposite(dc.nameTypes, ClusteringKey(dc).value) == Ok(name[..|name| - 1] + [[]])
  {
    var name := SplitComposite(dc.nameTypes, dc.column.name).value;
    var key := name[..|name| - 1] + [[]];
    assert Encodable(key) by {
      forall i | 0 <= i < |key| ensures |key[i]| < COMPONENT_LIMIT {
        if i < |name| - 1 { assert key[i] == name[i]; }
      }
    }
    BuildSplitRoundTrip(dc.nameTypes, key);
  }

  /** getClusteringKey fails exactly on a malformed or empty name. */
  lemma ClusteringKeyFails(dc: DecoratedColumn)
    ensures ClusteringKey(dc).Err? <==> SplitComposite(dc.nameTypes, dc.column.name).Err? || dc.column.name == []
  {
  }

  /** getValue: the role picks a component of the split partition key, a component of
      the split name, or the column's own value bytes. */
  function Value(dc: DecoratedColumn): Result<bytes> {
    match dc.definition.role
    case PartitionKeyRole =>
      var components :- ByteBufferUtils.Split(dc.partitionKey, dc.keyType);
      if dc.definition.componentIndex < |components| then Ok(components[dc.definition.componentIndex])
      else Err(IndexOutOfBounds)
    case ClusteringKeyRole =>
      var components :- ByteBufferUtils.Split(dc.column.name, Composite(dc.nameTypes));
      if dc.definition.componentIndex < |components| then Ok(components[dc.definition.componentIndex])
      else Err(IndexOutOfBounds)
    case _ => Ok(dc.column.value)
  }

  /** For keys assembled from components, getValue reads back the component that the
      role and component index select; a regular column yields its value verbatim. */
  lemma ValueSelectsComponent(dc: DecoratedColumn, cs: seq<bytes>)
    requires Encodable(cs)
    requires dc.definition.role == PartitionKeyRole ==>
      dc.keyType.Composite? && |cs| <= |dc.keyType.types| && dc.partitionKey == Build(cs)
    requires dc.definition.role == ClusteringKeyRole ==>
      |cs| <= |dc.nameTypes| && dc.column.name == Build(cs)
    ensures Value(dc) == match dc.definition.role
      case PartitionKeyRole | ClusteringKeyRole =>
        if dc.definition.componentIndex < |cs| then Ok(cs[dc.definition.componentIndex])
        else Err(IndexOutOfBounds)
      case _ => Ok(dc.column.value)
  {
    match dc.definition.role
    case PartitionKeyRole => BuildSplitRoundTrip(dc.keyType.types, cs);
    case ClusteringKeyRole => BuildSplitRoundTrip(dc.nameTypes, cs);
    case _ =>
  }

  /** A partition key with a single-type validator is its own only component. */
  lemma ValueOfSimplePartitionKey(dc: DecoratedColumn)
    requires dc.definition.role == PartitionKeyRole && dc.keyType.Simple?
    ensures Value(dc) == if dc.definition.componentIndex == 0 then Ok(dc.partitionKey) else Err(IndexOutOfBounds)
  {
  }

  /** getIndentifyingString: "partition key text:name text:timestamp", failing with
      the first of the two texts that fails. */
  function IdentifyingString(host: Host, dc: DecoratedColumn): (r: Result<string>)
    ensures r.Ok? <==> PartitionKeyText(host, dc).Ok? && NameText(host, dc).Ok?
    ensures r.Err? ==>
      r.error == if PartitionKeyText(host, dc).Err? then PartitionKeyText(host, dc).error else NameText(host, dc).error
  {
    var pk :- PartitionKeyText(host, dc);
    var name :- NameText(host, dc);
    Ok(pk + ":" + name + ":" + LongToString(dc.column.timestamp))
  }

  /** The timestamp reads back from after the identifying string's last ':'. */
  lemma IdentifyingStringEndsWithTimestamp(host: Host, dc: DecoratedColumn)
    requires IdentifyingString(host, dc).Ok?
    ensures var s := IdentifyingString(host, dc).value; var k := LastIndexOf(s, ':');
      && 0 <= k < |s|
      && IsLongText(s[k + 1..]) && ParseLong(s[k + 1..]) == dc.column.timestamp
  {
    var prefix := PartitionKeyText(host, dc).value + ":" + NameText(host, dc).value;
    var ts := LongToString(dc.column.timestamp);
    LongToStringRoundTrip(dc.column.timestamp);
    LastIndexOfBeforeSuffix(prefix, ':', ts);
    assert (prefix + ":" + ts)[|prefix| + 1..] == ts;
  }

  /** The last position of a text holding c, or -1: the proof aid for reading the
      timestamp back from after the identifying string's last separator. */
  function LastIndexOf(s: string, c: char): int {
    if s == [] then -1 else if s[|s| - 1] == c then |s| - 1 else LastIndexOf(s[..|s| - 1], c)
  }

  lemma {:induction false} LastIndexOfBeforeSuffix(a: string, c: char, b: string)
    requires c !in b
    ensures LastIndexOf(a + [c] + b, c) == |a|
    decreases |b|
  {
    if b == [] {
      assert (a + [c] + b)[|a|] == c;
    } else {
      assert (a + [c] + b)[..|a + [c] + b| - 1] == a + [c] + b[..|b| - 1];
      assert b[..|b| - 1] <= b;
      LastIndexOfBeforeSuffix(a, c, b[..|b| - 1]);
    }
  }

  /** Two texts made of a prefix, ':' and a colon-free suffix agree iff prefix and suffix agree. */
  lemma SplitAtLastColon(a: string, b: string, a': string, b': string)
    requires ':' !in b && ':' !in b'
    requires a + ":" + b == a' + ":" + b'
    ensures a == a' && b == b'
  {
    var s := a + ":" + b;
    LastIndexOfBeforeSuffix(a, ':', b);
    LastIndexOfBeforeSuffix(a', ':', b');
    assert a == s[..|a|] == a';
    assert b == s[|a| + 1..] == b';
  }

  /** The identifying string determines the timestamp and the "key:name" text: two
      columns written at different times never share an identity. */
  lemma IdentifyingStringDeterminesTimestamp(host: Host, x: DecoratedColumn, y: DecoratedColumn)
    requires IdentifyingString(host, x).Ok? && IdentifyingString(host, x) == IdentifyingString(host, y)
    ensures x.column.timestamp == y.column.timestamp
    ensures PartitionKeyText(host, x).value + ":" + NameText(host, x).value
         == PartitionKeyText(host, y).value + ":" + NameText(host, y).value
  {
    LongToStringRoundTrip(x.column.timestamp);
    LongToStringRoundTrip(y.column.timestamp);
    SplitAtLastColon(PartitionKeyText(host, x).value + ":" + NameText(host, x).value,
                     LongToString(x.column.timestamp),
                     PartitionKeyText(host, y).value + ":" + NameText(host, y).value,
                     LongToString(y.column.timestamp));
    LongToStringInjective(x.column.timestamp, y.column.timestamp);
  }
}
