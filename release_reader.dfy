/** The query evaluator: the service's ReleaseReader, which parses a query, looks concepts up
    in the index and filters and projects them. Each method is proved equal to a function of
    the index and its inputs; the properties of those functions are in EvaluatorProperties. */
module Service {
  import opened Results
  import opened JavaLong
  import opened ConceptIndex
  import opened ElQueryModel
  import opened Listener

  /** The id of the root of the hierarchy: the SNOMED CT root concept, 138875005. */
  const RootConceptId: Long := 138875005

  /** ConceptConstants.rootConcept: the root's id as text, "138875005". */
  const RootConcept: string := LongToString(RootConceptId)

  /** `getConceptResult`: the id as stored text and the fully specified name. */
  function GetConceptResult(d: Document): (c: ConceptResult)
    ensures ParseLong(Some(c.id)) == Some(d.id)
    ensures c.fsn == d.fsn
  {
    ParseLongToString(d.id);
    ConceptResult(LongToString(d.id), d.fsn)
  }

  /** `getConceptDocument(String)`: the id text must parse as a long, and a document must
      carry that id. */
  function GetConceptDocument(index: Index, conceptId: Option<string>): (r: Result<Document, Error>)
    ensures ParseLong(conceptId).None? <==> r == Failure(NumberFormat(conceptId))
    ensures r.Success? ==> r.value in index && ParseLong(conceptId) == Some(r.value.id)
    ensures ParseLong(conceptId).Some? && r.Failure? ==>
      conceptId.Some? && r == Failure(NotFound(conceptId.value)) &&
      forall k :: 0 <= k < |index| ==> Some(index[k].id) != ParseLong(conceptId)
  {
    match ParseLong(conceptId)
    case None => Failure(NumberFormat(conceptId))
    case Some(n) =>
      match FirstWithId(index, n)
      case None => Failure(NotFound(conceptId.value))
      case Some(k) => Success(index[k])
  }

  /** `retrieveConcept`: one concept's projection. */
  function RetrieveConcept(index: Index, conceptId: Option<string>): (r: Result<ConceptResult, Error>)
    ensures r.Success? <==> GetConceptDocument(index, conceptId).Success?
    ensures r.Success? ==> ParseLong(Some(r.value.id)) == ParseLong(conceptId)
    ensures r.Success? ==> r.value == GetConceptResult(GetConceptDocument(index, conceptId).value)
    ensures r.Failure? ==> r.error == GetConceptDocument(index, conceptId).error
  {
    var d :- GetConceptDocument(index, conceptId);
    Success(GetConceptResult(d))
  }

  /** `conditionalAdd`'s decision. Only the FIRST stored value of the attribute is compared,
      whatever the number of values. */
  predicate Accepts(d: Document, q: Query)
    requires q.NullSafe()
  {
    match q.attributeName
    case None => true
    case Some(name) =>
      var values := GetValues(d, name);
      |values| > 0 &&
      match q.attributeOperator
      case None => true
      case Some(op) => (values[0] == q.attributeValue.value) == (op == Equals)
  }

  /** The projections of the accepted documents, in order: `conditionalAdd` applied to each. */
  function Collect(docs: seq<Document>, q: Query): seq<ConceptResult>
    requires q.NullSafe()
  {
    if docs == [] then []
    else
      var last := docs[|docs| - 1];
      Collect(docs[..|docs| - 1], q) + if Accepts(last, q) then [GetConceptResult(last)] else []
  }

  /** `retrieveConceptDescendants(conceptId, query)`: a search on the ancestor closure; no
      lookup of the id itself. */
  function Descendants(index: Index, conceptId: Option<string>, q: Query): Result<seq<ConceptResult>, Error>
    requires q.NullSafe()
  {
    match ParseLong(conceptId)
    case None => Failure(NumberFormat(conceptId))
    case Some(n) => Success(Collect(DocumentsAt(index, HitsFor(index, n)), q))
  }

  /** One id lookup per text, in order; the first failure ends it. */
  function ResolveAll(index: Index, ids: seq<string>): Result<seq<Document>, Error> {
    if ids == [] then Success([])
    else
      var init :- ResolveAll(index, ids[..|ids| - 1]);
      var d :- GetConceptDocument(index, Some(ids[|ids| - 1]));
      Success(init + [d])
  }

  /** `retrieveConceptAncestors(conceptId, query)`. */
  function Ancestors(index: Index, conceptId: Option<string>, q: Query): Result<seq<ConceptResult>, Error>
    requires q.NullSafe()
  {
    var focus :- GetConceptDocument(index, conceptId);
    var docs :- ResolveAll(index, AncestorValues(focus));
    Success(Collect(docs, q))
  }

  /** The focus concept's own contribution, when the query includes it. */
  function SelfPart(index: Index, q: Query): Result<seq<ConceptResult>, Error>
    requires q.NullSafe()
  {
    var focus :- GetConceptDocument(index, q.focusConceptId);
    Success(Collect([focus], q))
  }

  /** What the hierarchy flags add after the focus concept: descendants take precedence
      over ancestors. */
  function RelatedPart(index: Index, q: Query): Result<seq<ConceptResult>, Error>
    requires q.NullSafe()
  {
    if q.descendantOf then Descendants(index, q.focusConceptId, q)
    else if q.ancestorOf then Ancestors(index, q.focusConceptId, q)
    else Success([])
  }

  /** The evaluation of a built query (lines 59-71). */
  function Evaluate(index: Index, q: Query): Result<seq<ConceptResult>, Error>
    requires q.NullSafe()
  {
    if q.focusConceptWildcard then Descendants(index, Some(RootConcept), q)
    else
      var own :- if q.includeSelf then SelfPart(index, q) else Success([]);
      var related :- RelatedPart(index, q);
      Success(own + related)
  }

  /** `retrieveConcepts(ecQuery)`, with `walk` the events of the tree the generated parser
      derives from `ecQuery`. */
  function Retrieve(index: Index, ecQuery: Option<string>, walk: seq<Event>): Result<seq<ConceptResult>, Error>
    requires ValueFollowsOperator(walk)
  {
    if ecQuery.None? || ecQuery.value == "" then Success([])
    else
      var q :- Build(walk);
      BuildIsNullSafe(walk);
      Evaluate(index, q)
  }

  /** A ResolveAll that failed on a prefix fails the same way on the whole list. */
  lemma {:induction false} ResolveAllFailurePersists(index: Index, ids: seq<string>, k: nat)
    requires k <= |ids| && ResolveAll(index, ids[..k]).Failure?
    ensures ResolveAll(index, ids) == ResolveAll(index, ids[..k])
    decreases |ids| - k
  {
    if k < |ids| {
      assert ids[..k + 1][..k] == ids[..k];
      ResolveAllFailurePersists(index, ids, k + 1);
    } else {
      assert ids[..k] == ids;
    }
  }

  class ReleaseReader {
    const index: Index

    constructor (index: Index)
      ensures this.index == index
    {
      this.index := index;
    }

    /** `conditionalAdd`: appends the projection of `d` when the decision says so. The loop
        is the source's: it re-reads `values[0]` on every turn, so its first turn decides. */
    method ConditionalAdd(d: Document, concepts: seq<ConceptResult>, q: Query) returns (concepts': seq<ConceptResult>)
      requires q.NullSafe()
      ensures concepts' == concepts + if Accepts(d, q) then [GetConceptResult(d)] else []
    {
      var addConcept := false;
      if q.attributeName.None? {
        addConcept := true;
      } else {
        var values := GetValues(d, q.attributeName.value);
        if |values| > 0 {
          if q.attributeOperator.None? {
            addConcept := true;
          } else {
            var attributeValue := q.attributeValue.value;
            var i := 0;
            while !addConcept && i < |values|
              invariant 0 <= i <= |values|
              invariant addConcept == (i > 0 && (values[0] == attributeValue) == (q.attributeOperator.value == Equals))
            {
              var equals := attributeValue == values[0];
              addConcept := if q.attributeOperator.value == Equals then equals else !equals;
              i := i + 1;
            }
          }
        }
      }
      if addConcept {
        concepts' := concepts + [GetConceptResult(d)];
      } else {
        concepts' := concepts;
      }
    }

    method RetrieveConceptDescendants(conceptId: Option<string>, q: Query) returns (r: Result<seq<ConceptResult>, Error>)
      requires q.NullSafe()
      ensures r == Descendants(index, conceptId, q)
    {
      var concepts: seq<ConceptResult> := [];
      var idLong := ParseLong(conceptId);
      if idLong.None? {
        return Failure(NumberFormat(conceptId));
      }
      var hits := HitsFor(index, idLong.value);
      ghost var docs := DocumentsAt(index, hits);
      var i := 0;
      while i < |hits|
        invariant 0 <= i <= |hits|
        invariant concepts == Collect(docs[..i], q)
      {
        assert hits[i] in hits;
        assert docs[..i + 1][..i] == docs[..i];
        concepts := ConditionalAdd(index[hits[i]], concepts, q);
        i := i + 1;
      }
      assert docs[..i] == docs;
      return Success(concepts);
    }

    method RetrieveConceptAncestors(conceptId: Option<string>, q: Query) returns (r: Result<seq<ConceptResult>, Error>)
      requires q.NullSafe()
      ensures r == Ancestors(index, conceptId, q)
    {
      var concepts: seq<ConceptResult> := [];
      var focus :- GetConceptDocument(index, conceptId);
      var ancestorIds := AncestorValues(focus);
      ghost var docs: seq<Document> := [];
      var i := 0;
      while i < |ancestorIds|
        invariant 0 <= i <= |ancestorIds|
        invariant ResolveAll(index, ancestorIds[..i]) == Success(docs)
        invariant concepts == Collect(docs, q)
      {
        assert ancestorIds[..i + 1][..i] == ancestorIds[..i];
        var d := GetConceptDocument(index, Some(ancestorIds[i]));
        if d.Failure? {
          ResolveAllFailurePersists(index, ancestorIds, i + 1);
          return Failure(d.error);
        }
        assert (docs + [d.value])[..|docs|] == docs;
        concepts := ConditionalAdd(d.value, concepts, q);
        docs := docs + [d.value];
        i := i + 1;
      }
      assert ancestorIds[..i] == ancestorIds;
      return Success(concepts);
    }

    /** `parseQuery`: a fresh listener walks the tree; its query, or the exception. */
    method ParseQuery(walk: seq<Event>) returns (r: Result<Query, Error>)
      ensures r == Build(walk)
    {
      var listener := new ExpressionConstraintListener();
      var thrown := listener.Walk(walk);
      if thrown.Some? {
        return Failure(thrown.value);
      }
      var elQuery := listener.GetElQuery();
      return Success(elQuery.Snapshot());
    }

    method RetrieveConcepts(ecQuery: Option<string>, walk: seq<Event>) returns (r: Result<seq<ConceptResult>, Error>)
      requires ValueFollowsOperator(walk)
      ensures r == Retrieve(index, ecQuery, walk)
    {
      var concepts: seq<ConceptResult> := [];
      if ecQuery.Some? && ecQuery.value != "" {
        var query :- ParseQuery(walk);
        BuildIsNullSafe(walk);
        assert Retrieve(index, ecQuery, walk) == Evaluate(index, query);
        if query.focusConceptWildcard {
          var descendants :- RetrieveConceptDescendants(Some(RootConcept), query);
          assert [] + descendants == descendants;
          concepts := concepts + descendants;
        } else {
          var focusConcept := query.focusConceptId;
          if query.includeSelf {
            var focus :- GetConceptDocument(index, focusConcept);
            concepts := ConditionalAdd(focus, concepts, query);
            assert [focus][..0] == [];
            assert Collect([focus], query) == concepts;
            assert SelfPart(index, query) == Success(concepts);
          }
          ghost var own := concepts;
          assert (if query.includeSelf then SelfPart(index, query) else Success([])) == Success(own);
          if query.descendantOf {
            var descendants :- RetrieveConceptDescendants(focusConcept, query);
            concepts := concepts + descendants;
          } else if query.ancestorOf {
            var ancestors :- RetrieveConceptAncestors(focusConcept, query);
            concepts := concepts + ancestors;
          } else {
            assert concepts == own + [];
          }
          assert RelatedPart(index, query) == Success(concepts[|own|..]);
          assert concepts == own + concepts[|own|..];
          assert Evaluate(index, query) == Success(concepts);
        }
      } else {
        assert Retrieve(index, ecQuery, walk) == Success([]);
      }
      return Success(concepts);
    }
  }
}
