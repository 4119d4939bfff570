/** LucenePerColumnSecondaryIndex: the per-column secondary index that keeps one Lucene
    document per indexed column, over the document store of its directory. */
module SecondaryIndex {
  import opened Common
  import opened Marshal
  import opened Lucene
  import Decorated
  import ColumnMapper
  import ByteBufferUtils

  /** The slice getRow asks the column family store for: from the clustering key to
      the finish bound, within the partition. */
  datatype RowRequest = RowRequest(partitionKey: bytes, cfName: string, start: bytes, finish: bytes)

  /** The outcome of the running maximum over the regular column names: absent only when
      there is nothing to compare, otherwise the start or one of the names, and no name
      compares greater under compareColumnNames (UTF8Type.compare). */
  predicate IsLastColumnName(last: Option<bytes>, start: Option<bytes>, columns: seq<Decorated.ColumnDefinition>) {
    && (last.None? <==> start.None? && |columns| == 0)
    && (last.Some? ==> last == start || exists j :: 0 <= j < |columns| && columns[j].name == last.value)
    && (last.Some? ==> forall j :: 0 <= j < |columns| ==> CompareUnsigned(columns[j].name, last.value) <= 0)
    && (last.Some? && start.Some? ==> CompareUnsigned(start.value, last.value) <= 0)
  }

  /** The loop of init that keeps the greatest column name seen so far. */
  method LastColumnName(start: Option<bytes>, columns: seq<Decorated.ColumnDefinition>) returns (last: Option<bytes>)
    ensures IsLastColumnName(last, start, columns)
  {
    last := start;
    if start.Some? {
      CompareZeroIsEquality(start.value, start.value);
    }
    for i := 0 to |columns|
      invariant last.None? <==> start.None? && i == 0
      invariant last.Some? ==> last == start || exists j :: 0 <= j < i && columns[j].name == last.value
      invariant last.Some? ==> forall j :: 0 <= j < i ==> CompareUnsigned(columns[j].name, last.value) <= 0
      invariant last.Some? && start.Some? ==> CompareUnsigned(start.value, last.value) <= 0
    {
      var rawColumnName := columns[i].name;
      if last.None? || CompareUnsigned(last.value, rawColumnName) < 0 {
        CompareZeroIsEquality(rawColumnName, rawColumnName);
        if last.Some? {
          forall j | 0 <= j < i
            ensures CompareUnsigned(columns[j].name, rawColumnName) <= 0
          {
            CompareTransitive(columns[j].name, last.value, rawColumnName);
          }
          if start.Some? {
            CompareTransitive(start.value, last.value, rawColumnName);
          }
        }
        last := Some(rawColumnName);
      } else {
        CompareAntisymmetric(last.value, rawColumnName);
      }
    }
  }

  /** The running maximum is determined by its inputs: the comparison is a total order
      whose ties are equal names. */
  lemma LastColumnNameUnique(a: Option<bytes>, b: Option<bytes>, start: Option<bytes>,
                             columns: seq<Decorated.ColumnDefinition>)
    requires IsLastColumnName(a, start, columns) && IsLastColumnName(b, start, columns)
    ensures a == b
  {
    if a.Some? {
      assert CompareUnsigned(a.value, b.value) <= 0;
      assert CompareUnsigned(b.value, a.value) <= 0;
      CompareAntisymmetric(a.value, b.value);
      CompareZeroIsEquality(a.value, b.value);
    }
  }

  /** getRow's finish bound: the clustering key's components with the last one replaced
      by the greatest regular column name. No component to replace is an index out of
      bounds; no greatest name is a null component handed to the builder. */
  function FinishBound(components: seq<bytes>, last: Option<bytes>): Result<bytes> {
    if |components| == 0 then Err(IndexOutOfBounds)
    else if last.None? then Err(NullPointer)
    else Ok(Build(components[..|components| - 1] + [last.value]))
  }

  /** CompositeType.build over components that may be null references. */
  function BuildAll(cs: seq<Option<bytes>>): Result<bytes> {
    if forall i :: 0 <= i < |cs| ==> cs[i].Some? then Ok(Build(seq(|cs|, i requires 0 <= i < |cs| => cs[i].value)))
    else Err(NullPointer)
  }

  /** The finish bound has the arity of the clustering key, its first n-1 components,
      and the greatest column name in last place. */
  lemma FinishBoundShape(types: seq<ColumnType>, components: seq<bytes>, last: Option<bytes>)
    requires FinishBound(components, last).Ok?
    requires |components| <= |types| && Encodable(components) && |last.value| < COMPONENT_LIMIT
    ensures SplitComposite(types, FinishBound(components, last).value)
         == Ok(components[..|components| - 1] + [last.value])
  {
    var finish := components[..|components| - 1] + [last.value];
    assert Encodable(finish) by {
      forall i | 0 <= i < |finish| ensures |finish[i]| < COMPONENT_LIMIT {
        if i < |components| - 1 { assert finish[i] == components[i]; }
      }
    }
    BuildSplitRoundTrip(types, finish);
  }

  /** Deleting by the truncation query keeps a column's document exactly when it was in
      the index and the column was written after the truncation time. */
  lemma TruncateKeepsLater(docs: seq<Document>, timestamp: int64, host: Host, m: ColumnMapper.Mapper,
                           dc: Decorated.DecoratedColumn, opaqueMatch: (Query, Field) -> bool)
    requires ColumnMapper.DocumentOf(host, m, dc).Ok?
    ensures ColumnMapper.DocumentOf(host, m, dc).value in WithoutMatches(docs, ColumnMapper.QueryBefore(timestamp), opaqueMatch)
        <==> ColumnMapper.DocumentOf(host, m, dc).value in docs && dc.column.timestamp > timestamp
  {
    ColumnMapper.QueryBeforeMatches(host, m, dc, timestamp, opaqueMatch);
  }

  /** The index directory: the "lucene" directory under a data location, then the
      table's name, then the index's name. */
  function IndexDirectory(dataLocation: string, cfName: string, indexName: string): string {
    dataLocation + [SEPARATOR] + "lucene" + [SEPARATOR] + cfName + [SEPARATOR] + indexName
  }

  /** File.separatorChar on the platforms the model assumes. */
  const SEPARATOR := '/'

  class LucenePerColumnSecondaryIndex {
    const host: Host
    /** The base table's metadata and the indexed column's definition. */
    var table: Decorated.TableMetadata
    var definition: Decorated.ColumnDefinition
    var ksName: string
    var cfName: string
    var indexName: string
    var isRegularColumn: bool
    var keyComparator: Comparator
    var nameTypes: seq<ColumnType>
    var mapper: ColumnMapper.Mapper
    var index: DocumentStore?
    var lastColumnName: Option<bytes>

    /** The index as the secondary index manager creates it, before init. */
    constructor (host: Host, table: Decorated.TableMetadata, definition: Decorated.ColumnDefinition)
      ensures this.host == host && this.table == table && this.definition == definition
      ensures index == null && lastColumnName == None
    {
      this.host := host;
      this.table := table;
      this.definition := definition;
      ksName, cfName, indexName := "", "", "";
      isRegularColumn := false;
      keyComparator := table.keyValidator;
      nameTypes := [];
      mapper := ColumnMapper.Make(definition);
      index := null;
      lastColumnName := None;
    }

    /** init: loads the table facts, casts the comparator to a composite, builds the
        directory path under the first data location, opens the store there and scans the
        regular columns for the greatest name. */
    method Init(dataFileLocations: seq<string>, engine: Engine) returns (outcome: Outcome)
      modifies this
      ensures table == old(table) && definition == old(definition)
      ensures ksName == table.ksName && cfName == table.cfName && indexName == definition.indexName
      ensures isRegularColumn <==> definition.role == Decorated.RegularRole
      ensures keyComparator == table.keyValidator
      ensures outcome.Pass? <==> table.comparator.Composite? && |dataFileLocations| > 0
      ensures outcome.Fail? ==> outcome.error == if table.comparator.Simple? then ClassCast else IndexOutOfBounds
      ensures outcome.Pass? ==>
        && nameTypes == table.comparator.types
        && mapper == ColumnMapper.Make(definition)
        && index != null && fresh(index) && index.directory == IndexDirectory(dataFileLocations[0], cfName, indexName) && index.engine == engine
        && index.docs == []
        && IsLastColumnName(lastColumnName, old(lastColumnName), table.regularColumns)
      ensures outcome.Fail? ==> index == old(index) && mapper == old(mapper) && lastColumnName == old(lastColumnName)
      ensures table.comparator.Simple? ==> nameTypes == old(nameTypes)
      ensures table.comparator.Composite? ==> nameTypes == table.comparator.types
    {
      var t, def, start := table, definition, lastColumnName;
      ksName, cfName, indexName, isRegularColumn, keyComparator :=
        t.ksName, t.cfName, def.indexName, def.role == Decorated.RegularRole, t.keyValidator;
      if t.comparator.Simple? {
        return Fail(ClassCast);
      }
      if |dataFileLocations| == 0 {
        nameTypes := t.comparator.types;
        return Fail(IndexOutOfBounds);
      }
      var path := IndexDirectory(dataFileLocations[0], t.cfName, def.indexName);
      var store := new DocumentStore(path, engine);
      var last := LastColumnName(start, t.regularColumns);
      nameTypes, mapper, index, lastColumnName := t.comparator.types, ColumnMapper.Make(def), store, last;
      outcome := Pass;
    }

    /** indexes: a name whose last component is empty is a clustering-key cell, owned
        unless the indexed column is regular; any other name is owned when its last
        component is the indexed column's name. */
    function Indexes(columnName: bytes): Result<bool>
      reads this
    {
      var components :- SplitComposite(nameTypes, columnName);
      if |components| == 0 then Err(IndexOutOfBounds)
      else
        var lastComponent := components[|components| - 1];
        if lastComponent == [] then Ok(!isRegularColumn) else Ok(lastComponent == definition.name)
    }

    /** decorate: the column seen with its partition key and the table's schema. */
    function DecorateColumn(partitionKey: bytes, column: Decorated.Column): Result<Decorated.DecoratedColumn>
      reads this
    {
      Decorated.Decorate(partitionKey, column, table, definition)
    }

    function DocumentFor(partitionKey: bytes, column: Decorated.Column): Result<Document>
      reads this
    {
      var dc :- DecorateColumn(partitionKey, column);
      ColumnMapper.DocumentOf(host, mapper, dc)
    }

    function TermFor(partitionKey: bytes, column: Decorated.Column): Result<Term>
      reads this
    {
      var dc :- DecorateColumn(partitionKey, column);
      ColumnMapper.Term(host, dc)
    }

    /** A column's document always contains the column's own identity term. */
    lemma DocumentContainsTerm(partitionKey: bytes, column: Decorated.Column)
      requires DocumentFor(partitionKey, column).Ok?
      ensures TermFor(partitionKey, column).Ok?
      ensures ContainsTerm(DocumentFor(partitionKey, column).value, TermFor(partitionKey, column).value)
    {
      var dc := DecorateColumn(partitionKey, column).value;
      ColumnMapper.TermFindsDocument(host, mapper, dc, dc);
    }

    /** insert: adds the column's document. */
    method Insert(partitionKey: bytes, column: Decorated.Column) returns (outcome: Outcome)
      requires index != null
      modifies index
      ensures outcome.Pass? <==> DocumentFor(partitionKey, column).Ok?
      ensures outcome.Pass? ==> index.docs == old(index.docs) + [DocumentFor(partitionKey, column).value]
      ensures outcome.Fail? ==> outcome.error == DocumentFor(partitionKey, column).error && index.docs == old(index.docs)
    {
      var decorated := DecorateColumn(partitionKey, column);
      if decorated.Err? {
        return Fail(decorated.error);
      }
      var document := ColumnMapper.Document(host, mapper, decorated.value);
      if document.Err? {
        return Fail(document.error);
      }
      index.Insert(document.value);
      outcome := Pass;
    }

    /** update: replaces the documents holding the column's identity term by its new
        document; afterwards exactly one document holds that term. */
    method Update(partitionKey: bytes, column: Decorated.Column) returns (outcome: Outcome)
      requires index != null
      modifies index
      ensures outcome.Pass? <==> TermFor(partitionKey, column).Ok? && DocumentFor(partitionKey, column).Ok?
      ensures outcome.Pass? ==>
        && index.docs == WithoutTerm(old(index.docs), TermFor(partitionKey, column).value) + [DocumentFor(partitionKey, column).value]
        && CountWithTerm(index.docs, TermFor(partitionKey, column).value) == 1
      ensures outcome.Fail? ==>
        && outcome.error == (if TermFor(partitionKey, column).Err? then TermFor(partitionKey, column).error
                             else DocumentFor(partitionKey, column).error)
        && index.docs == old(index.docs)
    {
      var decorated := DecorateColumn(partitionKey, column);
      if decorated.Err? {
        return Fail(decorated.error);
      }
      var term := ColumnMapper.Term(host, decorated.value);
      if term.Err? {
        return Fail(term.error);
      }
      var document := ColumnMapper.Document(host, mapper, decorated.value);
      if document.Err? {
        return Fail(document.error);
      }
      DocumentContainsTerm(partitionKey, column);
      index.Update(term.value, document.value);
      outcome := Pass;
    }

    /** delete: removes every document holding the column's identity term. */
    method Delete(partitionKey: bytes, column: Decorated.Column) returns (outcome: Outcome)
      requires index != null
      modifies index
      ensures outcome.Pass? <==> TermFor(partitionKey, column).Ok?
      ensures outcome.Pass? ==>
        && index.docs == WithoutTerm(old(index.docs), TermFor(partitionKey, column).value)
        && CountWithTerm(index.docs, TermFor(partitionKey, column).value) == 0
      ensures outcome.Fail? ==> outcome.error == TermFor(partitionKey, column).error && index.docs == old(index.docs)
    {
      var decorated := DecorateColumn(partitionKey, column);
      if decorated.Err? {
        return Fail(decorated.error);
      }
      var term := ColumnMapper.Term(host, decorated.value);
      if term.Err? {
        return Fail(term.error);
      }
      index.Delete(term.value);
      outcome := Pass;
    }

    /** truncateBlocking: deletes the documents matching the truncation query. */
    method TruncateBlocking(truncatedAt: int64)
      requires index != null
      modifies index
      ensures index.docs == WithoutMatches(old(index.docs), ColumnMapper.QueryBefore(truncatedAt), index.engine.opaqueMatch)
    {
      index.DeleteByQuery(ColumnMapper.QueryBefore(truncatedAt));
    }

    /** The slice request getRow makes for a partition key and a clustering key. */
    function RowFor(partitionKey: bytes, clusteringKey: bytes): Result<RowRequest>
      reads this
    {
      var components :- ByteBufferUtils.Split(clusteringKey, Composite(nameTypes));
      var finish :- FinishBound(components, lastColumnName);
      Ok(RowRequest(partitionKey, cfName, clusteringKey, finish))
    }

    /** getRow as written: the finish components are filled in an array of (null)
        references before the composite is built. */
    method GetRow(partitionKey: bytes, clusteringKey: bytes) returns (r: Result<RowRequest>)
      ensures r == RowFor(partitionKey, clusteringKey)
    {
      var split := ByteBufferUtils.Split(clusteringKey, Composite(nameTypes));
      if split.Err? {
        return Err(split.error);
      }
      var components := split.value;
      var n := |components|;
      var finishComponents := new Option<bytes>[n](_ => None);
      var i := 0;
      while i < n - 1
        invariant 0 <= i <= if n == 0 then 0 else n - 1
        invariant forall j :: 0 <= j < i ==> finishComponents[j] == Some(components[j])
      {
        finishComponents[i] := Some(components[i]);
        i := i + 1;
      }
      if n == 0 {
        return Err(IndexOutOfBounds);
      }
      finishComponents[n - 1] := lastColumnName;
      var fc := finishComponents[..];
      assert forall j :: 0 <= j < n - 1 ==> fc[j] == Some(components[j]);
      assert fc[n - 1] == lastColumnName;
      if lastColumnName.Some? {
        assert forall j :: 0 <= j < n ==> fc[j].Some?;
        var values := seq(n, j requires 0 <= j < n => fc[j].value);
        assert values == components[..n - 1] + [lastColumnName.value];
      }
      var finish := BuildAll(fc);
      assert finish == FinishBound(components, lastColumnName);
      if finish.Err? {
        return Err(finish.error);
      }
      r := Ok(RowRequest(partitionKey, cfName, clusteringKey, finish.value));
    }
  }

  /** For a name assembled from components, indexes looks only at the last component:
      empty means a clustering-key cell, owned unless the column is regular; otherwise
      the name is owned exactly when the last component is the indexed column's name. */
  lemma IndexesBuilt(idx: LucenePerColumnSecondaryIndex, cs: seq<bytes>)
    requires Encodable(cs) && 1 <= |cs| <= |idx.nameTypes|
    ensures idx.Indexes(Build(cs))
         == Ok(if cs[|cs| - 1] == [] then !idx.isRegularColumn else cs[|cs| - 1] == idx.definition.name)
  {
    var name := Build(cs);
    BuildSplitRoundTrip(idx.nameTypes, cs);
    IndexesSplit(idx, name, cs);
  }

  lemma IndexesSplit(idx: LucenePerColumnSecondaryIndex, name: bytes, cs: seq<bytes>)
    requires SplitComposite(idx.nameTypes, name) == Ok(cs) && |cs| >= 1
    ensures idx.Indexes(name)
         == Ok(if cs[|cs| - 1] == [] then !idx.isRegularColumn else cs[|cs| - 1] == idx.definition.name)
  {
  }

  /** An empty name has no last component. */
  lemma IndexesEmptyName(idx: LucenePerColumnSecondaryIndex)
    ensures idx.Indexes([]) == Err(IndexOutOfBounds)
  {
  }
}
