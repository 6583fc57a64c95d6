/** The query object the listener fills in and the evaluator reads. The source's ELQuery
    class is not part of this model; its fields are the ones its getters and setters imply. */
module ElQueryModel {
  import opened Results

  datatype ComparisonOperator = Equals | NotEquals

  /** The four hierarchy prefixes: `<`, `<<`, `>`, `>>`. */
  datatype Relation = DescendantOf | DescendantOrSelfOf | AncestorOf | AncestorOrSelfOf

  /** The value an ELQuery holds at one moment. `None` stands for a Java null. */
  datatype Query = Query(
    focusConceptWildcard: bool,
    focusConceptId: Option<string>,
    includeSelf: bool,
    descendantOf: bool,
    ancestorOf: bool,
    attributeName: Option<string>,
    attributeOperator: Option<ComparisonOperator>,
    attributeValue: Option<string>)
  {
    /** A refinement operator never stands without a value to compare with. */
    predicate NullSafe() {
      attributeOperator.Some? ==> attributeValue.Some?
    }

    /** The flags after one of the four relation setters: the prefix table of the query
        language (`<` strict descendants, `<<` self and descendants, `>` ancestors,
        `>>` self and ancestors). */
    function WithRelation(r: Relation): (q: Query)
      ensures q.descendantOf <==> r == DescendantOf || r == DescendantOrSelfOf
      ensures q.ancestorOf <==> r == AncestorOf || r == AncestorOrSelfOf
      ensures q.includeSelf <==> r == DescendantOrSelfOf || r == AncestorOrSelfOf
      ensures q.(includeSelf := includeSelf, descendantOf := descendantOf, ancestorOf := ancestorOf) == this
    {
      this.(includeSelf := r == DescendantOrSelfOf || r == AncestorOrSelfOf,
            descendantOf := r == DescendantOf || r == DescendantOrSelfOf,
            ancestorOf := r == AncestorOf || r == AncestorOrSelfOf)
    }
  }

  /** A fresh ELQuery: a query for the focus concept itself, with no refinement. */
  const InitialQuery: Query :=
    Query(false, None, true, false, false, None, None, None)

  class ELQuery {
    var focusConceptWildcard: bool
    var focusConceptId: Option<string>
    var includeSelf: bool
    var descendantOf: bool
    var ancestorOf: bool
    var attributeName: Option<string>
    var attributeOperator: Option<ComparisonOperator>
    var attributeValue: Option<string>

    /** What the getters currently return. */
    function Snapshot(): Query
      reads this
    {
      Query(focusConceptWildcard, focusConceptId, includeSelf, descendantOf, ancestorOf,
            attributeName, attributeOperator, attributeValue)
    }

    constructor ()
      ensures Snapshot() == InitialQuery
    {
      focusConceptWildcard := false;
      focusConceptId := None;
      includeSelf := true;
      descendantOf := false;
      ancestorOf := false;
      attributeName := None;
      attributeOperator := None;
      attributeValue := None;
    }

    method SetFocusConceptWildcard()
      modifies this
      ensures Snapshot() == old(Snapshot()).(focusConceptWildcard := true)
    {
      focusConceptWildcard := true;
    }

    method SetFocusConceptId(id: string)
      modifies this
      ensures Snapshot() == old(Snapshot()).(focusConceptId := Some(id))
    {
      focusConceptId := Some(id);
    }

    /** The common effect of the four relation setters. */
    method SetRelation(r: Relation)
      modifies this
      ensures Snapshot() == old(Snapshot()).WithRelation(r)
    {
      includeSelf := r == DescendantOrSelfOf || r == AncestorOrSelfOf;
      descendantOf := r == DescendantOf || r == DescendantOrSelfOf;
      ancestorOf := r == AncestorOf || r == AncestorOrSelfOf;
    }

    method SetDescendantOf()
      modifies this
      ensures Snapshot() == old(Snapshot()).WithRelation(DescendantOf)
    {
      SetRelation(DescendantOf);
    }

    method SetDescendantOrSelfOf()
      modifies this
      ensures Snapshot() == old(Snapshot()).WithRelation(DescendantOrSelfOf)
    {
      SetRelation(DescendantOrSelfOf);
    }

    method SetAncestorOf()
      modifies this
      ensures Snapshot() == old(Snapshot()).WithRelation(AncestorOf)
    {
      SetRelation(AncestorOf);
    }

    method SetAncestorOrSelfOf()
      modifies this
      ensures Snapshot() == old(Snapshot()).WithRelation(AncestorOrSelfOf)
    {
      SetRelation(AncestorOrSelfOf);
    }

    method SetAttributeName(name: string)
      modifies this
      ensures Snapshot() == old(Snapshot()).(attributeName := Some(name))
    {
      attributeName := Some(name);
    }

    method SetAttributeOperator(op: ComparisonOperator)
      modifies this
      ensures Snapshot() == old(Snapshot()).(attributeOperator := Some(op))
    {
      attributeOperator := Some(op);
    }

    method SetAttributeValue(value: string)
      modifies this
      ensures Snapshot() == old(Snapshot()).(attributeValue := Some(value))
    {
      attributeValue := Some(value);
    }
  }
}
