/** Abstract stand-ins for the parts of Lucene 4.6 the core uses: field types, fields
    and documents, terms, queries with their matching rule, sorts, and the index
    (LuceneIndex) as a document store with the writer operations' documented effects. */
module Lucene {
  import opened Common

  datatype IndexOptions = DocsOnly | DocsAndFreqsAndPositions

  datatype NumericType = NotNumeric | LongNumeric | IntNumeric | DoubleNumeric | FloatNumeric

  datatype FieldType = FieldType(
    indexed: bool,
    stored: bool,
    tokenized: bool,
    omitNorms: bool,
    indexOptions: IndexOptions,
    numericType: NumericType)

  /** StringField.TYPE_NOT_STORED: one untokenized term, not stored. */
  const STRING_NOT_STORED := FieldType(true, false, false, true, DocsOnly, NotNumeric)

  /** TextField.TYPE_NOT_STORED: analysed text, not stored. */
  const TEXT_NOT_STORED := FieldType(true, false, true, false, DocsAndFreqsAndPositions, NotNumeric)

  /** LongField/IntField/DoubleField/FloatField TYPE_NOT_STORED. */
  function NumericNotStored(t: NumericType): FieldType {
    FieldType(true, false, true, true, DocsOnly, t)
  }

  /** A field's value. Floating values stay opaque bytes. */
  datatype FieldValue = StringValue(s: string) | LongValue(n: int64) | IntValue(i: int32) | FloatingValue(bits: bytes)

  datatype Field = Field(name: string, value: FieldValue, fieldType: FieldType)

  type Document = seq<Field>

  /** Document.get: the string value of the first field with that name that has one. */
  function Get(d: Document, name: string): Option<string> {
    if d == [] then None
    else if d[0].name == name && d[0].value.StringValue? then Some(d[0].value.s)
    else Get(d[1..], name)
  }

  /** Document.getField: the first field with that name. */
  function GetField(d: Document, name: string): Option<Field> {
    if d == [] then None else if d[0].name == name then Some(d[0]) else GetField(d[1..], name)
  }

  /** What IndexSearcher.doc loads back for a hit: the stored fields, in order. */
  function Stored(d: Document): (r: Document)
    ensures forall i :: 0 <= i < |r| ==> r[i].fieldType.stored
  {
    if d == [] then [] else (if d[0].fieldType.stored then [d[0]] else []) + Stored(d[1..])
  }

  lemma {:induction false} StoredAppend(a: Document, b: Document)
    ensures Stored(a + b) == Stored(a) + Stored(b)
    decreases |a|
  {
    if a == [] {
      assert a + b == b;
    } else {
      assert (a + b)[1..] == a[1..] + b;
      StoredAppend(a[1..], b);
    }
  }

  lemma {:induction false} GetAppend(a: Document, b: Document, name: string)
    ensures Get(a + b, name) == if Get(a, name).Some? then Get(a, name) else Get(b, name)
    decreases |a|
  {
    if a == [] {
      assert a + b == b;
    } else {
      assert (a + b)[1..] == a[1..] + b;
      GetAppend(a[1..], b, name);
    }
  }

  lemma {:induction false} GetFieldAppend(a: Document, b: Document, name: string)
    ensures GetField(a + b, name) == if GetField(a, name).Some? then GetField(a, name) else GetField(b, name)
    decreases |a|
  {
    if a == [] {
      assert a + b == b;
    } else {
      assert (a + b)[1..] == a[1..] + b;
      GetFieldAppend(a[1..], b, name);
    }
  }

  /** A document with no field of that name yields no string under it. */
  lemma {:induction false} GetAbsent(d: Document, name: string)
    requires forall i :: 0 <= i < |d| ==> d[i].name != name
    ensures Get(d, name).None?
    decreases |d|
  {
    if d != [] {
      assert forall i :: 0 <= i < |d[1..]| ==> d[1..][i] == d[i + 1];
      GetAbsent(d[1..], name);
    }
  }

  /** A stored string field is read back by name from a loaded hit, provided no
      earlier field carries a string under that name. */
  lemma {:induction false} GetStored(before: Document, f: Field, after: Document)
    requires Get(before, f.name).None? && f.fieldType.stored && f.value.StringValue?
    ensures Get(Stored(before + [f] + after), f.name) == Some(f.value.s)
    ensures Get(before + [f] + after, f.name) == Some(f.value.s)
    decreases |before|
  {
    StoredAppend(before + [f], after);
    StoredAppend(before, [f]);
    GetAppend(Stored(before) + Stored([f]), Stored(after), f.name);
    GetAppend(Stored(before), Stored([f]), f.name);
    GetAppend(before + [f], after, f.name);
    GetAppend(before, [f], f.name);
    StoredHidesNothing(before, f.name);
  }

  lemma {:induction false} StoredHidesNothing(d: Document, name: string)
    requires Get(d, name).None?
    ensures Get(Stored(d), name).None?
    decreases |d|
  {
    if d != [] {
      StoredHidesNothing(d[1..], name);
      StoredAppend([d[0]], d[1..]);
      assert [d[0]] + d[1..] == d;
      GetAppend(Stored([d[0]]), Stored(d[1..]), name);
    }
  }

  /** A loaded hit keeps nothing of a field that was not stored: where no field of
      that name is stored, the hit has no field and no string under the name. */
  lemma {:induction false} StoredDropsUnstored(d: Document, name: string)
    requires forall i :: 0 <= i < |d| && d[i].name == name ==> !d[i].fieldType.stored
    ensures GetField(Stored(d), name).None? && Get(Stored(d), name).None?
    decreases |d|
  {
    if d != [] {
      StoredDropsUnstored(d[1..], name);
      assert [d[0]] + d[1..] == d;
      StoredAppend([d[0]], d[1..]);
      GetFieldAppend(Stored([d[0]]), Stored(d[1..]), name);
      GetAppend(Stored([d[0]]), Stored(d[1..]), name);
    }
  }

  /** A string a loaded hit yields under a name is the value of a stored string field
      of the document with that name. */
  lemma {:induction false} StoredGetFromStoredField(d: Document, name: string)
    requires Get(Stored(d), name).Some?
    ensures exists i :: 0 <= i < |d| && d[i].name == name && d[i].fieldType.stored
                        && d[i].value == StringValue(Get(Stored(d), name).value)
    decreases |d|
  {
    assert [d[0]] + d[1..] == d;
    StoredAppend([d[0]], d[1..]);
    GetAppend(Stored([d[0]]), Stored(d[1..]), name);
    if Get(Stored([d[0]]), name).Some? {
      assert d[0].name == name && d[0].fieldType.stored && d[0].value == StringValue(Get(Stored(d), name).value);
    } else {
      StoredGetFromStoredField(d[1..], name);
      var k :| 0 <= k < |d[1..]| && d[1..][k].name == name && d[1..][k].fieldType.stored
               && d[1..][k].value == StringValue(Get(Stored(d[1..]), name).value);
      assert d[k + 1] == d[1..][k];
    }
  }

  // ---------------------------------------------------------------------------
  // Terms, queries and matching.

  datatype Term = Term(field: string, text: string)

  datatype Query =
    | TermQuery(term: Term)
    | LongRangeQuery(field: string, longMin: Option<int64>, longMax: Option<int64>, minInclusive: bool, maxInclusive: bool)
    | IntRangeQuery(field: string, intMin: Option<int32>, intMax: Option<int32>, minInclusive: bool, maxInclusive: bool)
    | FloatingRangeQuery(field: string, width: NumericType, bitsMin: Option<bytes>, bitsMax: Option<bytes>, minInclusive: bool, maxInclusive: bool)
    | ParsedQuery(defaultField: string, text: string)

  /** NumericRangeQuery bounds: a null bound is open. */
  predicate InRange(v: int, min: Option<int>, max: Option<int>, minInclusive: bool, maxInclusive: bool) {
    && (min.None? || (if minInclusive then min.value <= v else min.value < v))
    && (max.None? || (if maxInclusive then v <= max.value else v < max.value))
  }

  /** What the model leaves to the engine: matching of parsed (analysed) queries and of
      floating-point ranges, and the ranking IndexSearcher computes for a query under a
      sort. RanksMatches states what a ranking holds; its order is left open. */
  datatype Engine = Engine(
    opaqueMatch: (Query, Field) -> bool,
    rank: (seq<Document>, Query, Sort) -> seq<Document>)

  /** An untokenized field indexes its whole string as one term. */
  predicate HasTerm(f: Field, t: Term) {
    f.name == t.field && f.fieldType.indexed && !f.fieldType.tokenized && f.value == StringValue(t.text)
  }

  predicate FieldMatches(q: Query, f: Field, opaqueMatch: (Query, Field) -> bool) {
    match q
    case TermQuery(t) => HasTerm(f, t)
    case LongRangeQuery(n, lo, hi, li, hi') =>
      f.name == n && f.fieldType.indexed && f.fieldType.numericType == LongNumeric && f.value.LongValue?
      && InRange(f.value.n, lo, hi, li, hi')
    case IntRangeQuery(n, lo, hi, li, hi') =>
      f.name == n && f.fieldType.indexed && f.fieldType.numericType == IntNumeric && f.value.IntValue?
      && InRange(f.value.i, lo, hi, li, hi')
    case FloatingRangeQuery(n, w, _, _, _, _) =>
      f.name == n && f.fieldType.indexed && f.fieldType.numericType == w && opaqueMatch(q, f)
    case ParsedQuery(_, _) => f.fieldType.indexed && opaqueMatch(q, f)
  }

  predicate Matches(q: Query, d: Document, opaqueMatch: (Query, Field) -> bool) {
    exists i :: 0 <= i < |d| && FieldMatches(q, d[i], opaqueMatch)
  }

  predicate ContainsTerm(d: Document, t: Term) {
    exists i :: 0 <= i < |d| && HasTerm(d[i], t)
  }

  /** The documents that match the query, in store order. */
  function Matching(docs: seq<Document>, q: Query, opaqueMatch: (Query, Field) -> bool): (r: seq<Document>)
    ensures |r| <= |docs|
    ensures forall d :: d in r <==> d in docs && Matches(q, d, opaqueMatch)
  {
    if docs == [] then []
    else (if Matches(q, docs[0], opaqueMatch) then [docs[0]] else []) + Matching(docs[1..], q, opaqueMatch)
  }

  /** IndexSearcher's ranking holds every matching document, as often as the index
      holds it, and nothing else. */
  ghost predicate RanksMatches(e: Engine) {
    forall docs, q, s :: multiset(e.rank(docs, q, s)) == multiset(Matching(docs, q, e.opaqueMatch))
  }

  // ---------------------------------------------------------------------------
  // Sorting.

  datatype SortFieldType = StringVal

  datatype SortField = SortField(field: string, sortType: SortFieldType)

  datatype Sort = Sort(fields: seq<SortField>)

  // ---------------------------------------------------------------------------
  // The index's contents under the writer operations.

  /** The documents left after deleting every document containing the term. */
  function WithoutTerm(docs: seq<Document>, t: Term): (r: seq<Document>)
    ensures |r| <= |docs|
    ensures forall d :: d in r <==> d in docs && !ContainsTerm(d, t)
  {
    if docs == [] then []
    else (if ContainsTerm(docs[0], t) then [] else [docs[0]]) + WithoutTerm(docs[1..], t)
  }

  /** The documents left after deleting every document matching the query. */
  function WithoutMatches(docs: seq<Document>, q: Query, opaqueMatch: (Query, Field) -> bool): (r: seq<Document>)
    ensures |r| <= |docs|
    ensures forall d :: d in r <==> d in docs && !Matches(q, d, opaqueMatch)
  {
    if docs == [] then []
    else (if Matches(q, docs[0], opaqueMatch) then [] else [docs[0]]) + WithoutMatches(docs[1..], q, opaqueMatch)
  }

  function CountWithTerm(docs: seq<Document>, t: Term): nat {
    if docs == [] then 0 else (if ContainsTerm(docs[0], t) then 1 else 0) + CountWithTerm(docs[1..], t)
  }

  lemma {:induction false} CountWithTermAppend(a: seq<Document>, b: seq<Document>, t: Term)
    ensures CountWithTerm(a + b, t) == CountWithTerm(a, t) + CountWithTerm(b, t)
    decreases |a|
  {
    if a == [] {
      assert a + b == b;
    } else {
      assert (a + b)[1..] == a[1..] + b;
      CountWithTermAppend(a[1..], b, t);
    }
  }

  lemma {:induction false} CountWithoutTerm(docs: seq<Document>, t: Term)
    ensures CountWithTerm(WithoutTerm(docs, t), t) == 0
    decreases |docs|
  {
    if docs != [] {
      CountWithoutTerm(docs[1..], t);
      CountWithTermAppend(if ContainsTerm(docs[0], t) then [] else [docs[0]], WithoutTerm(docs[1..], t), t);
    }
  }

  /** After an update with a document that contains the term, exactly one document
      of the index contains that term, whatever the index held before. */
  lemma UpdateLeavesOne(docs: seq<Document>, t: Term, d: Document)
    requires ContainsTerm(d, t)
    ensures CountWithTerm(WithoutTerm(docs, t) + [d], t) == 1
  {
    CountWithoutTerm(docs, t);
    CountWithTermAppend(WithoutTerm(docs, t), [d], t);
  }

  /** The first `count` documents of a ranking: all of them when there are fewer. */
  function Take(docs: seq<Document>, count: int): (r: seq<Document>)
    ensures |r| <= |docs| && (count >= 0 ==> |r| <= count)
    ensures count >= 0 ==> |r| == if count < |docs| then count else |docs|
    ensures r == docs[..|r|]
  {
    if count <= 0 then [] else if count >= |docs| then docs else docs[..count]
  }

  /** The loaded hits: each document's stored fields, in ranking order. */
  function LoadAll(docs: seq<Document>): (r: seq<Document>)
    ensures |r| == |docs| && forall i :: 0 <= i < |docs| ==> r[i] == Stored(docs[i])
  {
    seq(|docs|, i requires 0 <= i < |docs| => Stored(docs[i]))
  }

  /** With a ranking that holds the matching documents, the top `count` documents
      are matching documents of the index, as many as the count asks for, or as many
      as there are matches when fewer. */
  lemma SearchHitsMatch(e: Engine, docs: seq<Document>, q: Query, sort: Sort, count: int)
    requires RanksMatches(e)
    ensures var top := Take(e.rank(docs, q, sort), count);
      && (forall i :: 0 <= i < |top| ==> top[i] in docs && Matches(q, top[i], e.opaqueMatch))
      && (count >= 0 ==>
            |top| == if count < |Matching(docs, q, e.opaqueMatch)| then count else |Matching(docs, q, e.opaqueMatch)|)
  {
    var ranked := e.rank(docs, q, sort);
    var top := Take(ranked, count);
    assert multiset(ranked) == multiset(Matching(docs, q, e.opaqueMatch));
    assert |ranked| == |multiset(ranked)| == |Matching(docs, q, e.opaqueMatch)|;
    forall i | 0 <= i < |top|
      ensures top[i] in docs && Matches(q, top[i], e.opaqueMatch)
    {
      assert top[i] == ranked[i] && top[i] in multiset(ranked);
      assert top[i] in Matching(docs, q, e.opaqueMatch);
    }
  }

  /** LuceneIndex, reduced to its documents and the effects its writer calls document. */
  class DocumentStore {
    const directory: string
    const engine: Engine
    var docs: seq<Document>

    /** Opens the index directory: a new index starts empty. */
    constructor (directory: string, engine: Engine)
      ensures this.directory == directory && this.engine == engine && docs == []
    {
      this.directory := directory;
      this.engine := engine;
      docs := [];
    }

    /** insert: IndexWriter.addDocument. */
    method Insert(d: Document)
      modifies this
      ensures docs == old(docs) + [d]
    {
      docs := docs + [d];
    }

    /** update: delete the documents containing the term, then add the document,
        as one writer operation. */
    method Update(t: Term, d: Document)
      modifies this
      ensures docs == WithoutTerm(old(docs), t) + [d]
      ensures ContainsTerm(d, t) ==> CountWithTerm(docs, t) == 1
    {
      docs := WithoutTerm(docs, t) + [d];
      if ContainsTerm(d, t) {
        UpdateLeavesOne(old(docs), t, d);
      }
    }

    /** delete(Term): removes every document containing the term. */
    method Delete(t: Term)
      modifies this
      ensures docs == WithoutTerm(old(docs), t)
      ensures CountWithTerm(docs, t) == 0
    {
      docs := WithoutTerm(docs, t);
      CountWithoutTerm(old(docs), t);
    }

    /** delete(Query): removes every document matching the query. */
    method DeleteByQuery(q: Query)
      modifies this
      ensures docs == WithoutMatches(old(docs), q, engine.opaqueMatch)
    {
      docs := WithoutMatches(docs, q, engine.opaqueMatch);
    }

    /** search: the stored fields of the top `count` documents of the ranking; with
        a ranking that holds the matching documents, each hit is the stored part of a
        matching document. */
    method Search(q: Query, count: int, sort: Sort) returns (hits: seq<Document>)
      ensures count >= 0 ==> |hits| <= count
      ensures hits == LoadAll(Take(engine.rank(docs, q, sort), count))
      ensures RanksMatches(engine) ==>
        forall i :: 0 <= i < |hits| ==> hits[i] in LoadAll(Matching(docs, q, engine.opaqueMatch))
    {
      var top := Take(engine.rank(docs, q, sort), count);
      hits := [];
      var i := 0;
      while i < |top|
        invariant 0 <= i <= |top|
        invariant hits == LoadAll(top[..i])
      {
        hits := hits + [Stored(top[i])];
        i := i + 1;
      }
      assert top[..i] == top;
      assert hits == LoadAll(top);
      if RanksMatches(engine) {
        SearchHitsMatch(engine, docs, q, sort, count);
        forall j | 0 <= j < |hits|
          ensures hits[j] in LoadAll(Matching(docs, q, engine.opaqueMatch))
        {
          var matching := Matching(docs, q, engine.opaqueMatch);
          var k :| 0 <= k < |matching| && matching[k] == top[j];
          assert LoadAll(matching)[k] == hits[j];
        }
      }
    }
  }
}
