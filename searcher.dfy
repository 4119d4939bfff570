/** LucenePerColumnSecondaryIndexSearcher: picks the index expression this index answers
    and turns the top documents of a value query into row requests. */
module Searcher {
  import opened Common
  import opened Marshal
  import opened Lucene
  import Decorated
  import ColumnMapper
  import SecondaryIndex

  /** The maximum number of documents a search asks for. */
  const MAX_HITS := 100

  datatype IndexOperator = EQ | GTE | GT | LTE | LT

  /** A restriction `column op value` of a query's filter clause. */
  datatype IndexExpression = IndexExpression(columnName: bytes, op: IndexOperator, value: bytes)

  class LucenePerColumnSecondaryIndexSearcher {
    /** SecondaryIndexManager.getIndexForColumn, with indexes named by number. */
    const indexFor: bytes -> Option<nat>
    /** The number of the index this searcher serves. */
    const currentId: nat
    const currentIndex: SecondaryIndex.LucenePerColumnSecondaryIndex
    const mapper: ColumnMapper.Mapper
    const luceneIndex: DocumentStore
    const host: Host

    constructor (indexFor: bytes -> Option<nat>, currentId: nat, currentIndex: SecondaryIndex.LucenePerColumnSecondaryIndex,
                 mapper: ColumnMapper.Mapper, luceneIndex: DocumentStore, host: Host)
      ensures this.indexFor == indexFor && this.currentId == currentId && this.currentIndex == currentIndex
      ensures this.mapper == mapper && this.luceneIndex == luceneIndex && this.host == host
    {
      this.indexFor := indexFor;
      this.currentId := currentId;
      this.currentIndex := currentIndex;
      this.mapper := mapper;
      this.luceneIndex := luceneIndex;
      this.host := host;
    }

    /** An equality expression on a column whose index is this one. */
    predicate Selects(e: IndexExpression) {
      indexFor(e.columnName) == Some(currentId) && e.op == EQ
    }

    /** highestSelectivityPredicate: the first expression, in clause order, that this
        index selects; none when no expression qualifies. */
    function HighestSelectivityPredicate(clause: seq<IndexExpression>): (r: Option<IndexExpression>)
      ensures r.None? <==> forall i :: 0 <= i < |clause| ==> !Selects(clause[i])
      ensures r.Some? ==> exists i :: 0 <= i < |clause| && clause[i] == r.value && Selects(clause[i])
                                      && forall j :: 0 <= j < i ==> !Selects(clause[j])
    {
      if clause == [] then None
      else if Selects(clause[0]) then Some(clause[0])
      else
        var r := HighestSelectivityPredicate(clause[1..]);
        assert r.Some? ==> exists i :: 1 <= i < |clause| && clause[i] == r.value && Selects(clause[i])
                                       && forall j :: 0 <= j < i ==> !Selects(clause[j]) by {
          if r.Some? {
            var k :| 0 <= k < |clause[1..]| && clause[1..][k] == r.value && Selects(clause[1..][k])
                     && forall j :: 0 <= j < k ==> !Selects(clause[1..][j]);
            assert forall j :: 1 <= j < k + 1 ==> !Selects(clause[j]) by {
              forall j | 1 <= j < k + 1 ensures !Selects(clause[j]) {
                assert clause[j] == clause[1..][j - 1];
              }
            }
            assert clause[k + 1] == r.value;
          }
        }
        r
    }

    /** isIndexing: some expression of the clause is answered by this index. */
    predicate IsIndexing(clause: seq<IndexExpression>) {
      HighestSelectivityPredicate(clause).Some?
    }

    /** The row request for a loaded document: its keys, read back through the mapper,
        passed to getRow. */
    function RowOf(d: Document): Result<SecondaryIndex.RowRequest>
      reads currentIndex
    {
      var partitionKey :- ColumnMapper.PartitionKey(d);
      var clusteringKey :- ColumnMapper.ClusteringKey(d);
      currentIndex.RowFor(partitionKey, clusteringKey)
    }

    /** The row request, or the error, of each document, in document order. */
    function RowResults(hits: seq<Document>): (r: seq<Result<SecondaryIndex.RowRequest>>)
      reads currentIndex
      ensures |r| == |hits| && forall i :: 0 <= i < |hits| ==> r[i] == RowOf(hits[i])
    {
      if hits == [] then [] else [RowOf(hits[0])] + RowResults(hits[1..])
    }

    /** One row request per document, in document order; the first document that fails
        decides the error. */
    function RowsOf(hits: seq<Document>): (r: Result<seq<SecondaryIndex.RowRequest>>)
      reads currentIndex
      ensures r.Ok? ==> |r.value| == |hits|
      ensures r.Ok? ==> forall i :: 0 <= i < |hits| ==> RowOf(hits[i]) == Ok(r.value[i])
      ensures r.Err? <==> exists i :: 0 <= i < |hits| && RowOf(hits[i]).Err?
    {
      Collect(RowResults(hits))
    }

    /** The rows search returns: the value query of the clause's first expression, the
        top MAX_HITS documents under the mapper's sort, and one row request per document. */
    function SearchResult(clause: seq<IndexExpression>): Result<seq<SecondaryIndex.RowRequest>>
      reads luceneIndex, currentIndex
    {
      if |clause| == 0 then Err(IndexOutOfBounds)
      else
        var query :- ColumnMapper.Query(host, mapper, clause[0].value);
        RowsOf(LoadAll(Take(luceneIndex.engine.rank(luceneIndex.docs, query, ColumnMapper.Sort()), MAX_HITS)))
    }

    /** search as written: a loop over the documents appending one row each. */
    method Search(clause: seq<IndexExpression>) returns (r: Result<seq<SecondaryIndex.RowRequest>>)
      ensures r == SearchResult(clause)
      ensures r.Ok? ==> |r.value| <= MAX_HITS
    {
      if |clause| == 0 {
        return Err(IndexOutOfBounds);
      }
      var indexExpression := clause[0];
      var columnValue := indexExpression.value;
      var query := ColumnMapper.Query(host, mapper, columnValue);
      if query.Err? {
        return Err(query.error);
      }
      var documents := luceneIndex.Search(query.value, MAX_HITS, ColumnMapper.Sort());
      assert SearchResult(clause) == RowsOf(documents);
      ghost var results := RowResults(documents);
      var rows: seq<SecondaryIndex.RowRequest> := [];
      var i := 0;
      while i < |documents|
        invariant 0 <= i <= |documents|
        invariant Collect(results[..i]) == Ok(rows)
      {
        var document := documents[i];
        var partitionKey := ColumnMapper.PartitionKey(document);
        if partitionKey.Err? {
          CollectFailsAt(results, i);
          return Err(partitionKey.error);
        }
        var clusteringKey := ColumnMapper.ClusteringKey(document);
        if clusteringKey.Err? {
          CollectFailsAt(results, i);
          return Err(clusteringKey.error);
        }
        var row := currentIndex.GetRow(partitionKey.value, clusteringKey.value);
        if row.Err? {
          CollectFailsAt(results, i);
          return Err(row.error);
        }
        CollectSnoc(results, i, rows);
        rows := rows + [row.value];
        i := i + 1;
      }
      assert results[..i] == results;
      r := Ok(rows);
    }

    /** With a ranking that holds the matching documents, every row search returns is
        the row request of the loaded hit of an indexed document that the value query of
        the clause's first expression matches. */
    lemma SearchRowsFromMatches(clause: seq<IndexExpression>)
      requires RanksMatches(luceneIndex.engine) && SearchResult(clause).Ok?
      ensures |clause| > 0 && ColumnMapper.Query(host, mapper, clause[0].value).Ok?
      ensures var q := ColumnMapper.Query(host, mapper, clause[0].value).value;
        forall i :: 0 <= i < |SearchResult(clause).value| ==>
          exists d :: d in luceneIndex.docs && Matches(q, d, luceneIndex.engine.opaqueMatch)
                      && RowOf(Stored(d)) == Ok(SearchResult(clause).value[i])
    {
      var q := ColumnMapper.Query(host, mapper, clause[0].value).value;
      var engine := luceneIndex.engine;
      var top := Take(engine.rank(luceneIndex.docs, q, ColumnMapper.Sort()), MAX_HITS);
      var rows := SearchResult(clause).value;
      SearchHitsMatch(engine, luceneIndex.docs, q, ColumnMapper.Sort(), MAX_HITS);
      assert RowsOf(LoadAll(top)) == Ok(rows);
      forall i | 0 <= i < |rows|
        ensures exists d :: d in luceneIndex.docs && Matches(q, d, engine.opaqueMatch) && RowOf(Stored(d)) == Ok(rows[i])
      {
        var d := top[i];
        assert LoadAll(top)[i] == Stored(d);
        assert d in luceneIndex.docs && Matches(q, d, engine.opaqueMatch) && RowOf(Stored(d)) == Ok(rows[i]);
      }
    }

    /** isIndexing holds exactly when some expression of the clause is an equality on a
        column whose index is this one. */
    lemma IsIndexingIff(clause: seq<IndexExpression>)
      ensures IsIndexing(clause) <==> exists i :: 0 <= i < |clause| && Selects(clause[i])
    {
    }

    /** The search query comes from the first expression's value alone, not from the
        expression highestSelectivityPredicate picks. */
    lemma SearchUsesFirstExpression(a: seq<IndexExpression>, b: seq<IndexExpression>)
      requires |a| > 0 && |b| > 0 && a[0].value == b[0].value
      ensures SearchResult(a) == SearchResult(b)
    {
    }

    /** A hit loaded for a column's document leads getRow to that column's partition key
        and clustering key. */
    lemma RowOfIndexedColumn(dc: Decorated.DecoratedColumn)
      requires ColumnMapper.DocumentOf(host, mapper, dc).Ok?
      ensures Decorated.ClusteringKey(dc).Ok?
      ensures RowOf(Stored(ColumnMapper.DocumentOf(host, mapper, dc).value))
           == currentIndex.RowFor(dc.partitionKey, Decorated.ClusteringKey(dc).value)
    {
      ColumnMapper.KeysRoundTrip(host, mapper, dc);
      ColumnMapper.DocumentShape(host, mapper, dc);
    }
  }
}
