/** The query builder: a listener that the parse-tree walker notifies once per node, in
    depth-first order, and that fills in one ELQuery or throws on the first unsupported
    construct. The generated parser is not part of this model: a parse tree is given as
    the sequence of `enter` events its walk produces. */
module Listener {
  import opened Results
  import opened ElQueryModel

  /** What a focusconcept node offers: a memberof child, a wildcard child, and otherwise
      the text of its concept id. */
  datatype FocusContext = FocusContext(hasMemberOf: bool, hasWildcard: bool, conceptId: string)

  /** The productions the listener recognises only to reject them. */
  datatype UnsupportedProduction =
    | CompoundExpressionConstraint
    | ConjunctionRefinementSet
    | DisjunctionRefinementSet
    | ConjunctionAttributeSet
    | DisjunctionAttributeSet
    | MemberOf
    | StringComparisonOperator
    | NumericComparisonOperator

  /** One `enter` callback of the walk. */
  datatype Event =
    | FocusConceptNode(ctx: FocusContext)
      /** One of the four relation prefixes. */
    | RelationNode(relation: Relation)
    | AttributeNameNode(name: string)
      /** An expression comparison operator; `hasEquals` when its token is EQUALS. */
    | ComparisonOperatorNode(hasEquals: bool)
    | ConstraintValueNode(text: string)
    | UnsupportedNode(production: UnsupportedProduction)
      /** A node the listener does not override. */
    | OtherNode

  /** The feature an unsupported production is reported under; `None` for the generic
      message about compound expressions. */
  function FeatureName(p: UnsupportedProduction): Option<string> {
    match p
    case CompoundExpressionConstraint => None
    case ConjunctionRefinementSet => Some("conjunctionRefinementSet")
    case DisjunctionRefinementSet => Some("disjunctionRefinementSet")
    case ConjunctionAttributeSet => Some("conjunctionAttributeSet")
    case DisjunctionAttributeSet => Some("disjunctionAttributeSet")
    case MemberOf => Some("memberOf")
    case StringComparisonOperator => Some("stringComparisonOperator")
    case NumericComparisonOperator => Some("numericComparisonOperator")
  }

  /** The events the listener throws on. */
  predicate Rejects(e: Event) {
    e.UnsupportedNode? || (e.FocusConceptNode? && e.ctx.hasMemberOf)
  }

  /** The exception a rejected event throws. */
  function RejectionOf(e: Event): Error
    requires Rejects(e)
  {
    if e.UnsupportedNode? then Unsupported(FeatureName(e.production)) else Unsupported(Some("memberOf"))
  }

  /** The effect of one callback on the query being built. */
  function Step(q: Query, e: Event): (r: Result<Query, Error>)
    ensures r.Failure? <==> Rejects(e)
    ensures r.Failure? ==> r.error == RejectionOf(e)
  {
    match e
    case FocusConceptNode(ctx) =>
      if ctx.hasMemberOf then Failure(Unsupported(Some("memberOf")))
      else if ctx.hasWildcard then Success(q.(focusConceptWildcard := true))
      else Success(q.(focusConceptId := Some(ctx.conceptId)))
    case RelationNode(relation) => Success(q.WithRelation(relation))
    case AttributeNameNode(name) => Success(q.(attributeName := Some(name)))
    case ComparisonOperatorNode(hasEquals) =>
      Success(q.(attributeOperator := Some(if hasEquals then Equals else NotEquals)))
    case ConstraintValueNode(text) => Success(q.(attributeValue := Some(text)))
    case UnsupportedNode(p) => Failure(Unsupported(FeatureName(p)))
    case OtherNode => Success(q)
  }

  /** The effect of a whole walk, starting from `q`: stops at the first exception. */
  function BuildFrom(q: Query, events: seq<Event>): Result<Query, Error>
    decreases |events|
  {
    if events == [] then Success(q)
    else
      var q' :- Step(q, events[0]);
      BuildFrom(q', events[1..])
  }

  /** The query a walk builds from a fresh ELQuery, or the exception it stops with. */
  function Build(events: seq<Event>): Result<Query, Error> {
    BuildFrom(InitialQuery, events)
  }

  /** In a tree the grammar derives, a comparison operator is always followed by a value. */
  ghost predicate ValueFollowsOperator(events: seq<Event>) {
    forall i :: 0 <= i < |events| && events[i].ComparisonOperatorNode? ==>
      exists j :: i < j < |events| && events[j].ConstraintValueNode?
  }

  class ExpressionConstraintListener {
    const elQuery: ELQuery

    constructor ()
      ensures fresh(elQuery)
      ensures elQuery.Snapshot() == InitialQuery
    {
      elQuery := new ELQuery();
    }

    method GetElQuery() returns (q: ELQuery)
      ensures q == elQuery
    {
      q := elQuery;
    }

    /** A memberof child wins over a wildcard, a wildcard over a concept id. */
    method EnterFocusConcept(ctx: FocusContext) returns (thrown: Option<Error>)
      modifies elQuery
      ensures ctx.hasMemberOf ==> thrown == Some(Unsupported(Some("memberOf")))
      ensures ctx.hasMemberOf ==> elQuery.Snapshot() == old(elQuery.Snapshot())
      ensures !ctx.hasMemberOf && ctx.hasWildcard ==>
        thrown.None? && elQuery.Snapshot() == old(elQuery.Snapshot()).(focusConceptWildcard := true)
      ensures !ctx.hasMemberOf && !ctx.hasWildcard ==>
        thrown.None? && elQuery.Snapshot() == old(elQuery.Snapshot()).(focusConceptId := Some(ctx.conceptId))
    {
      if ctx.hasMemberOf {
        thrown := Some(Unsupported(Some("memberOf")));
      } else if ctx.hasWildcard {
        elQuery.SetFocusConceptWildcard();
        thrown := None;
      } else {
        elQuery.SetFocusConceptId(ctx.conceptId);
        thrown := None;
      }
    }

    method EnterDescendantOf()
      modifies elQuery
      ensures elQuery.Snapshot() == old(elQuery.Snapshot()).WithRelation(DescendantOf)
    {
      elQuery.SetDescendantOf();
    }

    method EnterDescendantOrSelfOf()
      modifies elQuery
      ensures elQuery.Snapshot() == old(elQuery.Snapshot()).WithRelation(DescendantOrSelfOf)
    {
      elQuery.SetDescendantOrSelfOf();
    }

    method EnterAncestorOf()
      modifies elQuery
      ensures elQuery.Snapshot() == old(elQuery.Snapshot()).WithRelation(AncestorOf)
    {
      elQuery.SetAncestorOf();
    }

    method EnterAncestorOrSelfOf()
      modifies elQuery
      ensures elQuery.Snapshot() == old(elQuery.Snapshot()).WithRelation(AncestorOrSelfOf)
    {
      elQuery.SetAncestorOrSelfOf();
    }

    method EnterAttributeName(name: string)
      modifies elQuery
      ensures elQuery.Snapshot() == old(elQuery.Snapshot()).(attributeName := Some(name))
    {
      elQuery.SetAttributeName(name);
    }

    /** EQUALS gives `Equals`; every other operator token gives `NotEquals`. */
    method EnterComparisonOperator(hasEquals: bool)
      modifies elQuery
      ensures hasEquals ==> elQuery.Snapshot() == old(elQuery.Snapshot()).(attributeOperator := Some(Equals))
      ensures !hasEquals ==> elQuery.Snapshot() == old(elQuery.Snapshot()).(attributeOperator := Some(NotEquals))
    {
      elQuery.SetAttributeOperator(if hasEquals then Equals else NotEquals);
    }

    method EnterConstraintValue(text: string)
      modifies elQuery
      ensures elQuery.Snapshot() == old(elQuery.Snapshot()).(attributeValue := Some(text))
    {
      elQuery.SetAttributeValue(text);
    }

    /** Every unsupported production throws, naming its feature, and changes nothing. */
    method EnterUnsupported(p: UnsupportedProduction) returns (thrown: Option<Error>)
      ensures thrown == Some(Unsupported(FeatureName(p)))
    {
      thrown := Some(Unsupported(FeatureName(p)));
    }

    /** The walker's dispatch of one event to its callback. */
    method Enter(e: Event) returns (thrown: Option<Error>)
      modifies elQuery
      ensures Step(old(elQuery.Snapshot()), e) ==
        if thrown.Some? then Failure(thrown.value) else Success(elQuery.Snapshot())
      ensures thrown.Some? ==> elQuery.Snapshot() == old(elQuery.Snapshot())
    {
      thrown := None;
      match e {
        case FocusConceptNode(ctx) =>
          thrown := EnterFocusConcept(ctx);
        case RelationNode(relation) =>
          match relation {
            case DescendantOf => EnterDescendantOf();
            case DescendantOrSelfOf => EnterDescendantOrSelfOf();
            case AncestorOf => EnterAncestorOf();
            case AncestorOrSelfOf => EnterAncestorOrSelfOf();
          }
        case AttributeNameNode(name) =>
          EnterAttributeName(name);
        case ComparisonOperatorNode(hasEquals) =>
          EnterComparisonOperator(hasEquals);
        case ConstraintValueNode(text) =>
          EnterConstraintValue(text);
        case UnsupportedNode(p) =>
          thrown := EnterUnsupported(p);
        case OtherNode =>
      }
    }

    /** The walk of a whole tree; an exception ends it at once. */
    method Walk(events: seq<Event>) returns (thrown: Option<Error>)
      modifies elQuery
      ensures BuildFrom(old(elQuery.Snapshot()), events) ==
        if thrown.Some? then Failure(thrown.value) else Success(elQuery.Snapshot())
    {
      var i := 0;
      while i < |events|
        invariant 0 <= i <= |events|
        invariant BuildFrom(old(elQuery.Snapshot()), events) == BuildFrom(elQuery.Snapshot(), events[i..])
      {
        assert events[i..][1..] == events[i + 1..];
        thrown := Enter(events[i]);
        if thrown.Some? {
          return;
        }
        i := i + 1;
      }
      thrown := None;
    }
  }

  /** Once a walk reaches an event it rejects, with none rejected before, it ends with that
      event's exception, whatever follows. */
  /** Walking two trees' events one after the other is walking the first, then the second
      from where the first left the query; an exception in the first skips the second. */
  lemma {:induction false} BuildFromAppend(q: Query, first: seq<Event>, second: seq<Event>)
    ensures BuildFrom(q, first + second) ==
      if BuildFrom(q, first).Failure? then BuildFrom(q, first)
      else BuildFrom(BuildFrom(q, first).value, second)
    decreases |first|
  {
    if first == [] {
      assert first + second == second;
    } else {
      assert (first + second)[0] == first[0];
      assert (first + second)[1..] == first[1..] + second;
      var step := Step(q, first[0]);
      if step.Success? {
        BuildFromAppend(step.value, first[1..], second);
      }
    }
  }

  lemma {:induction false} BuildStopsAtFirstRejection(q: Query, events: seq<Event>, k: nat)
    requires k < |events| && Rejects(events[k])
    requires forall j :: 0 <= j < k ==> !Rejects(events[j])
    ensures BuildFrom(q, events) == Failure(RejectionOf(events[k]))
    decreases k
  {
    if k > 0 {
      assert !Rejects(events[0]);
      var rest := events[1..];
      assert forall j :: 0 <= j < k - 1 ==> rest[j] == events[j + 1];
      BuildStopsAtFirstRejection(Step(q, events[0]).value, rest, k - 1);
    }
  }

  /** A walk fails exactly when it holds a rejected event. */
  lemma {:induction false} BuildFromFailsIffRejected(q: Query, events: seq<Event>)
    ensures BuildFrom(q, events).Failure? <==> exists k :: 0 <= k < |events| && Rejects(events[k])
    decreases |events|
  {
    if events != [] && !Rejects(events[0]) {
      var rest := events[1..];
      BuildFromFailsIffRejected(Step(q, events[0]).value, rest);
      if exists k :: 0 <= k < |events| && Rejects(events[k]) {
        var k :| 0 <= k < |events| && Rejects(events[k]);
        assert rest[k - 1] == events[k];
      }
      if exists k :: 0 <= k < |rest| && Rejects(rest[k]) {
        var k :| 0 <= k < |rest| && Rejects(rest[k]);
        assert events[k + 1] == rest[k];
      }
    }
  }

  /** A built query never holds an operator without a value, when every operator in the
      walk is followed by a value. */
  lemma {:induction false} BuildFromIsNullSafe(q: Query, events: seq<Event>)
    requires ValueFollowsOperator(events)
    requires q.NullSafe() || exists j :: 0 <= j < |events| && events[j].ConstraintValueNode?
    ensures BuildFrom(q, events).Success? ==> BuildFrom(q, events).value.NullSafe()
    decreases |events|
  {
    if events != [] && Step(q, events[0]).Success? {
      var q' := Step(q, events[0]).value;
      var rest := events[1..];
      assert forall j :: 0 <= j < |rest| ==> rest[j] == events[j + 1];
      assert ValueFollowsOperator(rest) by {
        forall i | 0 <= i < |rest| && rest[i].ComparisonOperatorNode?
          ensures exists j :: i < j < |rest| && rest[j].ConstraintValueNode?
        {
          var j :| i + 1 < j < |events| && events[j].ConstraintValueNode?;
          assert rest[j - 1].ConstraintValueNode?;
        }
      }
      if events[0].ComparisonOperatorNode? {
        var j :| 0 < j < |events| && events[j].ConstraintValueNode?;
        assert rest[j - 1].ConstraintValueNode?;
      } else if !events[0].ConstraintValueNode? && !q.NullSafe() {
        var j :| 0 <= j < |events| && events[j].ConstraintValueNode?;
        assert rest[j - 1].ConstraintValueNode?;
      }
      BuildFromIsNullSafe(q', rest);
    }
  }

  lemma BuildIsNullSafe(events: seq<Event>)
    requires ValueFollowsOperator(events)
    ensures Build(events).Success? ==> Build(events).value.NullSafe()
  {
    BuildFromIsNullSafe(InitialQuery, events);
  }

  /** Distinct unsupported productions are reported under distinct names. */
  lemma FeatureNamesDistinct(p: UnsupportedProduction, p': UnsupportedProduction)
    ensures FeatureName(p) == FeatureName(p') ==> p == p'
  {
  }
}
