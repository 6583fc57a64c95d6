/** What the evaluator's results are, stated over the index and the query's flags; every
    lemma holds for any combination of flags. */
module EvaluatorProperties {
  import opened Results
  import opened JavaLong
  import opened ConceptIndex
  import opened ElQueryModel
  import opened Listener
  import opened Service

  // ----- the refinement filter -----

  /** The filter the query language describes: some stored value equals (for `Equals`) or
      differs from (for `NotEquals`) the query value. */
  predicate AnyValueMatches(d: Document, q: Query)
    requires q.NullSafe()
  {
    match q.attributeName
    case None => true
    case Some(name) =>
      var values := GetValues(d, name);
      |values| > 0 &&
      match q.attributeOperator
      case None => true
      case Some(op) => exists i :: 0 <= i < |values| && (values[i] == q.attributeValue.value) == (op == Equals)
  }

  /** Only the first stored value decides: documents that agree on it are filtered alike,
      whatever their other values. */
  lemma AcceptsDependsOnFirstValueOnly(d: Document, d': Document, q: Query)
    requires q.NullSafe() && q.attributeName.Some?
    requires |GetValues(d, q.attributeName.value)| > 0 && |GetValues(d', q.attributeName.value)| > 0
    requires GetValues(d, q.attributeName.value)[0] == GetValues(d', q.attributeName.value)[0]
    ensures Accepts(d, q) == Accepts(d', q)
  {
  }

  /** Every document the filter accepts is accepted by the described filter, and for an
      attribute with a single value the two agree. */
  lemma AcceptsRefinesAnyValue(d: Document, q: Query)
    requires q.NullSafe()
    ensures Accepts(d, q) ==> AnyValueMatches(d, q)
    ensures q.attributeName.Some? && |GetValues(d, q.attributeName.value)| == 1 ==>
      Accepts(d, q) == AnyValueMatches(d, q)
  {
    if q.attributeName.Some? && q.attributeOperator.Some? {
      var values := GetValues(d, q.attributeName.value);
      if |values| > 0 && Accepts(d, q) {
        assert (values[0] == q.attributeValue.value) == (q.attributeOperator.value == Equals);
      }
    }
  }

  /** A concept whose matching value is not its first is dropped: the two filters differ. */
  lemma AcceptsIgnoresLaterValues()
    ensures var d := Document(1, "x", [], map["a" := ["u", "v"]]);
            var q := Query(false, Some("1"), true, false, false, Some("a"), Some(Equals), Some("v"));
            !Accepts(d, q) && AnyValueMatches(d, q)
  {
    var d := Document(1, "x", [], map["a" := ["u", "v"]]);
    var q := Query(false, Some("1"), true, false, false, Some("a"), Some(Equals), Some("v"));
    assert GetValues(d, "a")[1] == "v";
  }

  // ----- collecting filtered projections -----

  /** The collected list holds exactly the projections of the accepted documents, and no
      more entries than there are documents. */
  lemma {:induction false} CollectMembers(docs: seq<Document>, q: Query)
    requires q.NullSafe()
    ensures |Collect(docs, q)| <= |docs|
    ensures forall c :: c in Collect(docs, q) <==>
      exists d :: d in docs && Accepts(d, q) && GetConceptResult(d) == c
  {
    if docs != [] {
      var init := docs[..|docs| - 1];
      CollectMembers(init, q);
      assert docs == init + [docs[|docs| - 1]];
    }
  }

  /** The collected list depends on the query only through its refinement. */
  lemma {:induction false} CollectDependsOnRefinement(docs: seq<Document>, q: Query, q': Query)
    requires q.NullSafe()
    requires q'.attributeName == q.attributeName
    requires q'.attributeOperator == q.attributeOperator
    requires q'.attributeValue == q.attributeValue
    ensures Collect(docs, q) == Collect(docs, q')
  {
    if docs != [] {
      CollectDependsOnRefinement(docs[..|docs| - 1], q, q');
    }
  }

  /** So do the descendant and ancestor lookups. */
  lemma LookupsDependOnRefinement(index: Index, conceptId: Option<string>, q: Query, q': Query)
    requires q.NullSafe()
    requires q'.attributeName == q.attributeName
    requires q'.attributeOperator == q.attributeOperator
    requires q'.attributeValue == q.attributeValue
    ensures Descendants(index, conceptId, q) == Descendants(index, conceptId, q')
    ensures Ancestors(index, conceptId, q) == Ancestors(index, conceptId, q')
  {
    var n := ParseLong(conceptId);
    if n.Some? {
      CollectDependsOnRefinement(DocumentsAt(index, HitsFor(index, n.value)), q, q');
    }
    var focus := GetConceptDocument(index, conceptId);
    if focus.Success? {
      var docs := ResolveAll(index, AncestorValues(focus.value));
      if docs.Success? {
        CollectDependsOnRefinement(docs.value, q, q');
      }
    }
  }

  // ----- descendant lookup -----

  /** The documents an ancestor search hits are exactly the indexed documents whose
      ancestor closure holds the id. */
  lemma DescendantHitsExactly(index: Index, n: Long)
    ensures forall d :: d in DocumentsAt(index, HitsFor(index, n)) <==> d in index && n in d.ancestors
  {
    var hits := HitsFor(index, n);
    var docs := DocumentsAt(index, hits);
    forall d | d in docs
      ensures d in index && n in d.ancestors
    {
      var i :| 0 <= i < |docs| && docs[i] == d;
      assert hits[i] in hits;
    }
    forall d | d in index && n in d.ancestors
      ensures d in docs
    {
      var k :| 0 <= k < |index| && index[k] == d;
      assert k in hits;
      var i :| 0 <= i < |hits| && hits[i] == k;
      assert docs[i] == d;
    }
  }

  /** A numeric id gives exactly the accepted documents whose ancestor closure holds it;
      the id itself is never looked up. */
  lemma DescendantsExactly(index: Index, conceptId: Option<string>, q: Query)
    requires q.NullSafe() && ParseLong(conceptId).Some?
    ensures Descendants(index, conceptId, q).Success?
    ensures forall c :: c in Descendants(index, conceptId, q).value <==>
      exists d :: d in index && ParseLong(conceptId).value in d.ancestors && Accepts(d, q) && GetConceptResult(d) == c
  {
    var n := ParseLong(conceptId).value;
    DescendantHitsExactly(index, n);
    CollectMembers(DocumentsAt(index, HitsFor(index, n)), q);
  }

  /** An id no document lists as an ancestor gives an empty list, not NotFound. */
  lemma DescendantsOfUnlistedIdAreEmpty(index: Index, conceptId: Option<string>, q: Query)
    requires q.NullSafe() && ParseLong(conceptId).Some?
    requires forall k :: 0 <= k < |index| ==> ParseLong(conceptId).value !in index[k].ancestors
    ensures Descendants(index, conceptId, q) == Success([])
  {
    var hits := HitsFor(index, ParseLong(conceptId).value);
    assert forall i :: 0 <= i < |hits| ==> hits[i] in hits;
  }

  /** A concept that is not its own ancestor is not among its descendants. */
  lemma StrictDescendantsExcludeFocus(index: Index, k: nat, q: Query)
    requires q.NullSafe() && UniqueIds(index)
    requires k < |index| && index[k].id !in index[k].ancestors
    ensures Descendants(index, Some(LongToString(index[k].id)), q).Success?
    ensures GetConceptResult(index[k]) !in Descendants(index, Some(LongToString(index[k].id)), q).value
  {
    var conceptId := Some(LongToString(index[k].id));
    ParseLongToString(index[k].id);
    DescendantsExactly(index, conceptId, q);
    forall d | d in index && index[k].id in d.ancestors
      ensures GetConceptResult(d) != GetConceptResult(index[k])
    {
      var j :| 0 <= j < |index| && index[j] == d;
      if j != k {
        LongToStringInjective(index[j].id, index[k].id);
      }
    }
  }

  // ----- ancestor lookup -----

  /** The id text names a concept of the index. */
  ghost predicate NamesIndexed(index: Index, text: string) {
    ParseLong(Some(text)).Some? && Indexed(index, ParseLong(Some(text)).value)
  }

  /** When every id text names an indexed concept, they are resolved one by one, in order. */
  lemma {:induction false} ResolveAllFindsEach(index: Index, ids: seq<string>)
    requires forall i :: 0 <= i < |ids| ==> NamesIndexed(index, ids[i])
    ensures ResolveAll(index, ids).Success?
    ensures |ResolveAll(index, ids).value| == |ids|
    ensures forall i :: 0 <= i < |ids| ==>
      ResolveAll(index, ids).value[i] in index &&
      Some(ResolveAll(index, ids).value[i].id) == ParseLong(Some(ids[i]))
  {
    if ids != [] {
      var init := ids[..|ids| - 1];
      assert forall i :: 0 <= i < |init| ==> init[i] == ids[i];
      ResolveAllFindsEach(index, init);
      var found := ResolveAll(index, init).value;
      var last := GetConceptDocument(index, Some(ids[|ids| - 1]));
      assert NamesIndexed(index, ids[|ids| - 1]);
      assert last.Success?;
      assert ResolveAll(index, ids) == Success(found + [last.value]);
    }
  }

  /** The first id text that names no indexed concept fails the whole lookup with its
      error; nothing collected before it is returned. */
  lemma ResolveAllStopsAtFirstMissing(index: Index, ids: seq<string>, k: nat)
    requires k < |ids|
    requires forall i :: 0 <= i < k ==> NamesIndexed(index, ids[i])
    requires !NamesIndexed(index, ids[k])
    ensures GetConceptDocument(index, Some(ids[k])).Failure?
    ensures ResolveAll(index, ids) == Failure(GetConceptDocument(index, Some(ids[k])).error)
  {
    var prefix := ids[..k];
    assert forall i :: 0 <= i < |prefix| ==> prefix[i] == ids[i];
    ResolveAllFindsEach(index, prefix);
    var upTo := ids[..k + 1];
    assert upTo[..k] == prefix && upTo[k] == ids[k];
    var missing := GetConceptDocument(index, Some(ids[k]));
    assert missing.Failure?;
    assert ResolveAll(index, upTo) == Failure(missing.error);
    ResolveAllFailurePersists(index, ids, k + 1);
  }

  /** The stored ancestor texts read back as the stored ancestor ids. */
  lemma AncestorValuesParse(d: Document)
    ensures forall i :: 0 <= i < |d.ancestors| ==> ParseLong(Some(AncestorValues(d)[i])) == Some(d.ancestors[i])
  {
    forall i | 0 <= i < |d.ancestors|
      ensures ParseLong(Some(AncestorValues(d)[i])) == Some(d.ancestors[i])
    {
      ParseLongToString(d.ancestors[i]);
    }
  }

  /** An ancestor lookup whose focus cannot be found fails as the focus lookup does. */
  lemma AncestorsOfMissingFocus(index: Index, conceptId: Option<string>, q: Query)
    requires q.NullSafe() && GetConceptDocument(index, conceptId).Failure?
    ensures Ancestors(index, conceptId, q) == Failure(GetConceptDocument(index, conceptId).error)
  {
  }

  /** When every stored ancestor of the focus is indexed, the lookup resolves each of them,
      in stored order, and filters them. */
  lemma AncestorsInStoredOrder(index: Index, conceptId: Option<string>, q: Query)
    requires q.NullSafe() && GetConceptDocument(index, conceptId).Success?
    requires var focus := GetConceptDocument(index, conceptId).value;
      forall i :: 0 <= i < |focus.ancestors| ==> Indexed(index, focus.ancestors[i])
    ensures var focus := GetConceptDocument(index, conceptId).value;
      exists docs: seq<Document> ::
        |docs| == |focus.ancestors| &&
        (forall i :: 0 <= i < |docs| ==> docs[i] in index && docs[i].id == focus.ancestors[i]) &&
        Ancestors(index, conceptId, q) == Success(Collect(docs, q))
  {
    var focus := GetConceptDocument(index, conceptId).value;
    var texts := AncestorValues(focus);
    AncestorValuesParse(focus);
    assert forall i :: 0 <= i < |texts| ==> NamesIndexed(index, texts[i]);
    ResolveAllFindsEach(index, texts);
    var docs := ResolveAll(index, texts).value;
    assert Ancestors(index, conceptId, q) == Success(Collect(docs, q));
  }

  /** The first stored ancestor missing from the index fails the whole lookup with its
      NotFound. */
  lemma AncestorsFailAtFirstMissing(index: Index, conceptId: Option<string>, q: Query, k: nat)
    requires q.NullSafe() && GetConceptDocument(index, conceptId).Success?
    requires var focus := GetConceptDocument(index, conceptId).value;
      k < |focus.ancestors| &&
      (forall i :: 0 <= i < k ==> Indexed(index, focus.ancestors[i])) &&
      !Indexed(index, focus.ancestors[k])
    ensures var focus := GetConceptDocument(index, conceptId).value;
      Ancestors(index, conceptId, q) == Failure(NotFound(LongToString(focus.ancestors[k])))
  {
    var focus := GetConceptDocument(index, conceptId).value;
    var texts := AncestorValues(focus);
    AncestorValuesParse(focus);
    assert forall i :: 0 <= i < k ==> NamesIndexed(index, texts[i]);
    ResolveAllStopsAtFirstMissing(index, texts, k);
  }

  /** In an index that holds every concept's ancestors, an ancestor lookup of an indexed
      concept never fails. */
  lemma AncestorsOfIndexedConcept(index: Index, conceptId: Option<string>, q: Query)
    requires q.NullSafe() && AncestorsIndexed(index)
    requires GetConceptDocument(index, conceptId).Success?
    ensures Ancestors(index, conceptId, q).Success?
  {
    var focus := GetConceptDocument(index, conceptId).value;
    var k :| 0 <= k < |index| && index[k] == focus;
    forall i | 0 <= i < |focus.ancestors|
      ensures Indexed(index, focus.ancestors[i])
    {
      assert focus.ancestors[i] in index[k].ancestors;
    }
    AncestorsInStoredOrder(index, conceptId, q);
  }

  // ----- the whole evaluation -----

  /** A wildcard query is the filtered descendants of the root, whatever the focus id and
      the hierarchy flags say. */
  lemma WildcardIsRootDescendants(index: Index, q: Query)
    requires q.NullSafe() && q.focusConceptWildcard
    ensures Evaluate(index, q).Success?
    ensures forall c :: c in Evaluate(index, q).value <==>
      exists d :: d in index && RootConceptId in d.ancestors && Accepts(d, q) && GetConceptResult(d) == c
    ensures forall f, s, d, a :: Evaluate(index, q.(focusConceptId := f, includeSelf := s, descendantOf := d, ancestorOf := a)) == Evaluate(index, q)
  {
    ParseLongToString(RootConceptId);
    DescendantsExactly(index, Some(RootConcept), q);
    forall f, s, d, a
      ensures Evaluate(index, q.(focusConceptId := f, includeSelf := s, descendantOf := d, ancestorOf := a)) == Evaluate(index, q)
    {
      LookupsDependOnRefinement(index, Some(RootConcept), q, q.(focusConceptId := f, includeSelf := s, descendantOf := d, ancestorOf := a));
    }
  }

  /** The root itself is not in a wildcard result unless it lists itself as an ancestor. */
  lemma WildcardOmitsRoot(index: Index, k: nat, q: Query)
    requires q.NullSafe() && q.focusConceptWildcard && UniqueIds(index)
    requires k < |index| && index[k].id == RootConceptId && RootConceptId !in index[k].ancestors
    ensures Evaluate(index, q).Success? && GetConceptResult(index[k]) !in Evaluate(index, q).value
  {
    ParseLongToString(RootConceptId);
    StrictDescendantsExcludeFocus(index, k, q);
  }

  /** Without a wildcard, the focus concept (if included and accepted) comes first, then
      what the hierarchy flags add. */
  lemma SelfComesFirst(index: Index, q: Query)
    requires q.NullSafe() && !q.focusConceptWildcard && q.includeSelf
    requires Evaluate(index, q).Success?
    ensures GetConceptDocument(index, q.focusConceptId).Success?
    ensures var focus := GetConceptDocument(index, q.focusConceptId).value;
      Evaluate(index, q.(includeSelf := false)).Success? &&
      Evaluate(index, q).value ==
        (if Accepts(focus, q) then [GetConceptResult(focus)] else []) + Evaluate(index, q.(includeSelf := false)).value
  {
    var q' := q.(includeSelf := false);
    LookupsDependOnRefinement(index, q.focusConceptId, q, q');
    assert RelatedPart(index, q) == RelatedPart(index, q');
    var focus := GetConceptDocument(index, q.focusConceptId).value;
    assert SelfPart(index, q) == Success(Collect([focus], q));
    assert [focus][..0] == [];
    assert Collect([focus], q) == if Accepts(focus, q) then [GetConceptResult(focus)] else [];
    var related := RelatedPart(index, q).value;
    assert Evaluate(index, q) == Success(Collect([focus], q) + related);
    assert Evaluate(index, q') == Success([] + related);
    assert [] + related == related;
  }

  /** A focus concept that must be included but is not in the index fails the query. */
  lemma MissingFocusIsNotFound(index: Index, q: Query)
    requires q.NullSafe() && !q.focusConceptWildcard && q.includeSelf
    requires ParseLong(q.focusConceptId).Some?
    requires forall k :: 0 <= k < |index| ==> index[k].id != ParseLong(q.focusConceptId).value
    ensures Evaluate(index, q) == Failure(NotFound(q.focusConceptId.value))
  {
  }

  /** Descendants and ancestors are never both added: with descendantOf set, ancestorOf
      changes nothing. */
  lemma DescendantsTakePrecedence(index: Index, q: Query)
    requires q.NullSafe() && !q.focusConceptWildcard && q.descendantOf
    ensures Evaluate(index, q) == Evaluate(index, q.(ancestorOf := !q.ancestorOf))
  {
    var q' := q.(ancestorOf := !q.ancestorOf);
    LookupsDependOnRefinement(index, q.focusConceptId, q, q');
    if q.includeSelf && GetConceptDocument(index, q.focusConceptId).Success? {
      CollectDependsOnRefinement([GetConceptDocument(index, q.focusConceptId).value], q, q');
    }
  }

  /** A strict descendant query on an id that nothing lists gives an empty list, even when
      no concept has that id: nothing looks the id up. */
  lemma StrictDescendantsOfUnknownConcept(index: Index, q: Query)
    requires q.NullSafe() && !q.focusConceptWildcard && !q.includeSelf && q.descendantOf
    requires ParseLong(q.focusConceptId).Some?
    requires forall k :: 0 <= k < |index| ==> ParseLong(q.focusConceptId).value !in index[k].ancestors
    ensures Evaluate(index, q) == Success([])
  {
    DescendantsOfUnlistedIdAreEmpty(index, q.focusConceptId, q);
    assert RelatedPart(index, q) == Success([]);
    var none: seq<ConceptResult> := [];
    assert none + none == none;
  }

  // ----- the whole query -----

  /** A null or empty query string gives an empty list, whatever the walk. */
  lemma EmptyQueryIsEmpty(index: Index, walk: seq<Event>)
    requires ValueFollowsOperator(walk)
    ensures Retrieve(index, None, walk) == Success([])
    ensures Retrieve(index, Some(""), walk) == Success([])
  {
  }

  /** A query whose walk reaches an unsupported construct fails with that construct's
      exception before anything is looked up. */
  lemma UnsupportedQueryFails(index: Index, ecQuery: string, walk: seq<Event>, k: nat)
    requires ValueFollowsOperator(walk) && ecQuery != ""
    requires k < |walk| && Rejects(walk[k])
    requires forall j :: 0 <= j < k ==> !Rejects(walk[j])
    ensures Retrieve(index, Some(ecQuery), walk) == Failure(RejectionOf(walk[k]))
  {
    BuildStopsAtFirstRejection(InitialQuery, walk, k);
  }

  // What each relation prefix gives: the flags a relation callback sets, read by the evaluator.

  /** The focus concept's filtered projection, when it is accepted. */
  function FocusPart(focus: Document, q: Query): seq<ConceptResult>
    requires q.NullSafe()
  {
    if Accepts(focus, q) then [GetConceptResult(focus)] else []
  }

  /** A one-document Collect is that document's FocusPart. */
  lemma CollectSingle(d: Document, q: Query)
    requires q.NullSafe()
    ensures Collect([d], q) == FocusPart(d, q)
  {
    assert [d][..0] == [];
    var none: seq<ConceptResult> := [];
    assert none + FocusPart(d, q) == FocusPart(d, q);
  }

  /** No prefix (the fresh query's flags): the focus concept alone, or its lookup failure. */
  lemma NoPrefixIsFocusOnly(index: Index, q: Query)
    requires q.NullSafe() && !q.focusConceptWildcard
    ensures var q' := q.(includeSelf := true, descendantOf := false, ancestorOf := false);
      var focus := GetConceptDocument(index, q.focusConceptId);
      (focus.Failure? ==> Evaluate(index, q') == Failure(focus.error)) &&
      (focus.Success? ==> Evaluate(index, q') == Success(FocusPart(focus.value, q)))
  {
    var q' := q.(includeSelf := true, descendantOf := false, ancestorOf := false);
    var focus := GetConceptDocument(index, q.focusConceptId);
    if focus.Success? {
      CollectDependsOnRefinement([focus.value], q, q');
      CollectSingle(focus.value, q);
      assert SelfPart(index, q') == Success(FocusPart(focus.value, q));
      assert FocusPart(focus.value, q) + [] == FocusPart(focus.value, q);
    }
  }

  /** `<X`: the descendants of X, with no lookup of X itself. */
  lemma DescendantOfPrefix(index: Index, q: Query)
    requires q.NullSafe() && !q.focusConceptWildcard
    ensures Evaluate(index, q.WithRelation(DescendantOf)) == Descendants(index, q.focusConceptId, q)
  {
    var q' := q.WithRelation(DescendantOf);
    LookupsDependOnRefinement(index, q.focusConceptId, q, q');
    var r := Descendants(index, q.focusConceptId, q);
    if r.Success? {
      var none: seq<ConceptResult> := [];
      assert none + r.value == r.value;
    }
  }

  /** `<<X`: X when accepted, then the descendants of X; X must be found. */
  lemma DescendantOrSelfOfPrefix(index: Index, q: Query)
    requires q.NullSafe() && !q.focusConceptWildcard
    ensures var focus := GetConceptDocument(index, q.focusConceptId);
      var r := Evaluate(index, q.WithRelation(DescendantOrSelfOf));
      (focus.Failure? ==> r == Failure(focus.error)) &&
      (focus.Success? ==>
        (Descendants(index, q.focusConceptId, q).Success? &&
         r == Success(FocusPart(focus.value, q) + Descendants(index, q.focusConceptId, q).value)))
  {
    var q' := q.WithRelation(DescendantOrSelfOf);
    LookupsDependOnRefinement(index, q.focusConceptId, q, q');
    var focus := GetConceptDocument(index, q.focusConceptId);
    if focus.Success? {
      CollectDependsOnRefinement([focus.value], q, q');
      CollectSingle(focus.value, q);
      assert SelfPart(index, q') == Success(FocusPart(focus.value, q));
    }
  }

  /** `>X`: the ancestors of X, in stored order. */
  lemma AncestorOfPrefix(index: Index, q: Query)
    requires q.NullSafe() && !q.focusConceptWildcard
    ensures Evaluate(index, q.WithRelation(AncestorOf)) == Ancestors(index, q.focusConceptId, q)
  {
    var q' := q.WithRelation(AncestorOf);
    LookupsDependOnRefinement(index, q.focusConceptId, q, q');
    var r := Ancestors(index, q.focusConceptId, q);
    if r.Success? {
      var none: seq<ConceptResult> := [];
      assert none + r.value == r.value;
    }
  }

  /** `>>X`: X when accepted, then the ancestors of X; the first failed lookup fails it. */
  lemma AncestorOrSelfOfPrefix(index: Index, q: Query)
    requires q.NullSafe() && !q.focusConceptWildcard
    ensures var focus := GetConceptDocument(index, q.focusConceptId);
      var ancestors := Ancestors(index, q.focusConceptId, q);
      var r := Evaluate(index, q.WithRelation(AncestorOrSelfOf));
      (focus.Failure? ==> r == Failure(focus.error)) &&
      (focus.Success? && ancestors.Failure? ==> r == Failure(ancestors.error)) &&
      (focus.Success? && ancestors.Success? ==> r == Success(FocusPart(focus.value, q) + ancestors.value))
  {
    var q' := q.WithRelation(AncestorOrSelfOf);
    LookupsDependOnRefinement(index, q.focusConceptId, q, q');
    var focus := GetConceptDocument(index, q.focusConceptId);
    if focus.Success? {
      CollectDependsOnRefinement([focus.value], q, q');
      CollectSingle(focus.value, q);
      var own := FocusPart(focus.value, q);
      assert SelfPart(index, q') == Success(own);
      assert RelatedPart(index, q') == Ancestors(index, q.focusConceptId, q);
    }
  }
}

/** The three parts together, on the walk of a refined descendant query `<X:A=v`. */
module QueryScenarios {
  import opened Results
  import opened JavaLong
  import opened ConceptIndex
  import opened ElQueryModel
  import opened Listener
  import opened Service
  import EvaluatorProperties

  /** The enter events of the tree for `<X:A=v`, in walk order. */
  function RefinedDescendantWalk(x: string, a: string, v: string): seq<Event> {
    [OtherNode, RelationNode(DescendantOf), FocusConceptNode(FocusContext(false, false, x)),
     OtherNode, AttributeNameNode(a), ComparisonOperatorNode(true), ConstraintValueNode(v)]
  }

  /** The query the walk of `<X:A=v` builds. */
  lemma RefinedDescendantBuild(x: string, a: string, v: string)
    ensures Build(RefinedDescendantWalk(x, a, v)) ==
      Success(Query(false, Some(x), false, true, false, Some(a), Some(Equals), Some(v)))
  {
    var walk := RefinedDescendantWalk(x, a, v);
    var q := Query(false, Some(x), false, true, false, Some(a), Some(Equals), Some(v));
    var q1 := InitialQuery.WithRelation(DescendantOf);
    var q2 := q1.(focusConceptId := Some(x));
    var q3 := q2.(attributeName := Some(a));
    var q4 := q3.(attributeOperator := Some(Equals));
    assert BuildFrom(q4, walk[6..]) == Success(q) by {
      assert walk[6..] == [ConstraintValueNode(v)];
      assert walk[6..][1..] == [];
    }
    assert BuildFrom(q3, walk[5..]) == Success(q) by { assert walk[5..][1..] == walk[6..]; }
    assert BuildFrom(q2, walk[3..]) == Success(q) by {
      assert walk[3..][1..] == walk[4..];
      assert walk[4..][1..] == walk[5..];
    }
    assert q1 == Query(false, None, false, true, false, None, None, None);
    assert BuildFrom(q1, walk[2..]) == Success(q) by { assert walk[2..][1..] == walk[3..]; }
    assert BuildFrom(InitialQuery, walk[1..]) == Success(q) by {
      assert walk[1..][0] == RelationNode(DescendantOf);
      assert walk[1..][1..] == walk[2..];
    }
  }

  /** `<X:A=v` gives the concepts whose ancestor closure holds X and whose FIRST value of A
      is v; the focus itself is never looked up. */
  lemma RefinedDescendantQuery(index: Index, ecQuery: string, x: string, a: string, v: string)
    requires ecQuery != "" && ParseLong(Some(x)).Some?
    ensures ValueFollowsOperator(RefinedDescendantWalk(x, a, v))
    ensures var r := Retrieve(index, Some(ecQuery), RefinedDescendantWalk(x, a, v));
      r.Success? &&
      forall c :: c in r.value <==>
        exists d :: d in index && ParseLong(Some(x)).value in d.ancestors &&
          |GetValues(d, a)| > 0 && GetValues(d, a)[0] == v && GetConceptResult(d) == c
  {
    var walk := RefinedDescendantWalk(x, a, v);
    assert ValueFollowsOperator(walk) by {
      assert walk[6].ConstraintValueNode?;
    }
    RefinedDescendantBuild(x, a, v);
    var q := Query(false, Some(x), false, true, false, Some(a), Some(Equals), Some(v));
    EvaluatorProperties.DescendantsExactly(index, Some(x), q);
  }

  /** The same walk when the value's subtree holds a focus concept of its own, as it does
      when the grammar derives a constraint value as a nested simple constraint: the
      walker enters that focusconcept after the value. */
  function NestedValueWalk(x: string, a: string, v: string): seq<Event> {
    RefinedDescendantWalk(x, a, v) + [OtherNode, FocusConceptNode(FocusContext(false, false, v))]
  }

  /** On that walk the second focusconcept callback replaces X by v as the focus concept,
      while the value v stays the constraint value. */
  lemma NestedValueTakesFocus(x: string, a: string, v: string)
    ensures Build(NestedValueWalk(x, a, v)) ==
      Success(Query(false, Some(v), false, true, false, Some(a), Some(Equals), Some(v)))
  {
    var tail := [OtherNode, FocusConceptNode(FocusContext(false, false, v))];
    RefinedDescendantBuild(x, a, v);
    BuildFromAppend(InitialQuery, RefinedDescendantWalk(x, a, v), tail);
    var q := Query(false, Some(x), false, true, false, Some(a), Some(Equals), Some(v));
    assert BuildFrom(q, tail) == Success(q.(focusConceptId := Some(v))) by {
      assert tail[1..] == [FocusConceptNode(FocusContext(false, false, v))];
      assert tail[1..][1..] == [];
      assert BuildFrom(q, tail[1..]) == Success(q.(focusConceptId := Some(v)));
    }
  }

  /** So on that walk `<X:A=v` answers with the descendants of v, whatever X is. */
  lemma NestedValueQuery(index: Index, ecQuery: string, x: string, a: string, v: string)
    requires ecQuery != "" && ParseLong(Some(v)).Some?
    ensures ValueFollowsOperator(NestedValueWalk(x, a, v))
    ensures var r := Retrieve(index, Some(ecQuery), NestedValueWalk(x, a, v));
      r.Success? &&
      forall c :: c in r.value <==>
        exists d :: d in index && ParseLong(Some(v)).value in d.ancestors &&
          |GetValues(d, a)| > 0 && GetValues(d, a)[0] == v && GetConceptResult(d) == c
  {
    var walk := NestedValueWalk(x, a, v);
    assert ValueFollowsOperator(walk) by {
      assert walk[6].ConstraintValueNode?;
      assert forall i :: 0 <= i < |walk| && walk[i].ComparisonOperatorNode? ==> i == 5;
    }
    NestedValueTakesFocus(x, a, v);
    var q := Query(false, Some(v), false, true, false, Some(a), Some(Equals), Some(v));
    EvaluatorProperties.DescendantsExactly(index, Some(v), q);
  }
}
