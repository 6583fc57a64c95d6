# Expression-constraint query engine of the SNOMED release query service

This project models the read side of the service: the part that takes a SNOMED CT
expression constraint such as `<<404684003:363698007=39057004`, turns its parse tree
into a query object, and evaluates that object against the concept index of one
release. The model follows `service/ReleaseReader.java`:

- **Concept identifiers** are Java `long`s parsed from text with `Long.parseLong`
  (module `JavaLong`). The model gives the accepted syntax, the 64-bit range and the
  round trip with the decimal rendering the index stores.
- **The concept index** (module `ConceptIndex`) is a sequence of documents by document
  number. Each document holds a concept id, its fully specified name, its transitive
  ancestor ids and its attribute fields. An id lookup returns the first document with
  that id. A descendant search returns, in document order, every document whose ancestor
  field holds the id.
- **The query object** (module `ElQueryModel`) is the mutable `ELQuery` with its eight
  fields. The datatype `Query` is the value its getters return at one moment.
- **The parse-tree listener** (module `Listener`) is the class
  `ExpressionConstraintListener`. It has one method per enter callback, `Enter` to
  dispatch one callback and `Walk` for the whole walk. Its effect is specified by the
  fold `BuildFrom`, which stops at the first exception thrown.
- **The reader** (module `Service`) is the class `ReleaseReader`. Its methods follow
  the source's loops and are proved equal to the functions `Descendants`,
  `Ancestors`, `Evaluate` and `Retrieve`.
- **The properties** of those functions are in modules `EvaluatorProperties` and
  `QueryScenarios`.

The model returns exceptions as values of the `Error` datatype:
- `NumberFormat` for `NumberFormatException`;
- `NotFound` for `NotFoundException`;
- `Unsupported` for `UnsupportedOperationException`. Its feature is `None` for the
  generic message about compound constraints.

A Java `null` is `None`.

## Where the query language's description and the code differ

The model follows the code in each of these cases.

- **Attribute refinement.** The description says a refinement keeps a concept when any of
  its values matches. The loop at lines 128-131 compares `values[0]` on every pass. So
  only the first stored value decides, and `!=` keeps a concept whose first value
  differs. `EvaluatorProperties.AcceptsIgnoresLaterValues` exhibits a concept that
  any-value matching keeps and the code drops.
- **`*`.** It is evaluated as the descendants of the root concept 138875005 (line 60).
  So the root itself is not in the result.
- **`<X` for an unknown X.** The query gives an empty list, not `NotFound`. The focus
  concept is looked up only when the query includes self (lines 63-64). The descendant
  search (line 108) then finds nothing.

## Model

| member | source | states |
|---|---|---|
| JavaLong.ParseLong | src/main/java/com/kaicube/snomed/srqs/service/ReleaseReader.java:148-149 | a null concept id is a NumberFormatException, as `new Long(null)` is |
| JavaLong.ParseLongText | src/main/java/com/kaicube/snomed/srqs/service/ReleaseReader.java:107 | the empty text is refused; an accepted text is an optional sign then digits only; only a '-' gives a negative id |
| JavaLong.ParseLongToString | src/main/java/com/kaicube/snomed/srqs/service/ReleaseReader.java:145-149 | an id rendered as the index stores it parses back to the same `long` |
| JavaLong.LongToStringInjective | src/main/java/com/kaicube/snomed/srqs/service/ReleaseReader.java:145 | distinct ids render as distinct strings, so result ids identify concepts |
| JavaLong.DigitsValueOfDecimal | src/main/java/com/kaicube/snomed/srqs/service/ReleaseReader.java:149 | the decimal digits of a number read back as that number |
| JavaLong.ParseLongRejectsNonDigit | src/main/java/com/kaicube/snomed/srqs/service/ReleaseReader.java:149 | a concept id with a non-digit after the optional sign raises NumberFormatException |
| ConceptIndex.FirstWithId | src/main/java/com/kaicube/snomed/srqs/service/ReleaseReader.java:150-154 | the id search returns the first document holding that id, and none exists when it returns nothing |
| ConceptIndex.HitsFor | src/main/java/com/kaicube/snomed/srqs/service/ReleaseReader.java:108 | the ancestor search hits exactly the documents whose ancestor field holds the id, in ascending document order |
| ConceptIndex.GetValues | src/main/java/com/kaicube/snomed/srqs/service/ReleaseReader.java:121-122 | a field's stored values in order, and an empty array (never null) when the document lacks the field |
| ConceptIndex.AncestorValues | src/main/java/com/kaicube/snomed/srqs/service/ReleaseReader.java:94 | the stored ancestor field has one value per ancestor |
| Service.GetConceptResult | src/main/java/com/kaicube/snomed/srqs/service/ReleaseReader.java:144-146 | the result carries the document's id (as text that parses back to it) and its FSN |
| Service.GetConceptDocument | src/main/java/com/kaicube/snomed/srqs/service/ReleaseReader.java:148-155 | an unparsable id is NumberFormat; a success is a document of the index with that id; a parsable id no document holds is NotFound |
| Service.RetrieveConcept | src/main/java/com/kaicube/snomed/srqs/service/ReleaseReader.java:50-52 | succeeds exactly when the document lookup succeeds, and then returns that document's id and FSN; otherwise fails with the lookup's own exception (NumberFormat or NotFound) |
| Service.ResolveAllFailurePersists | src/main/java/com/kaicube/snomed/srqs/service/ReleaseReader.java:95-97 | once one ancestor lookup in the loop has thrown, the rest of the loop does not change the outcome |
| Service.ReleaseReader.ConditionalAdd | src/main/java/com/kaicube/snomed/srqs/service/ReleaseReader.java:115-138 | appends the document's concept exactly when the refinement accepts it: no attribute, or a first value present and (no operator, or the first value compared with the constraint value as the operator says) |
| Service.ReleaseReader.RetrieveConceptDescendants | src/main/java/com/kaicube/snomed/srqs/service/ReleaseReader.java:105-113 | the loop returns the filtered concepts of every descendant hit, in hit order, or NumberFormat for an unparsable id |
| Service.ReleaseReader.RetrieveConceptAncestors | src/main/java/com/kaicube/snomed/srqs/service/ReleaseReader.java:92-98 | the loop returns the filtered concepts of the stored ancestors in stored order, or the first lookup failure |
| Service.ReleaseReader.ParseQuery | src/main/java/com/kaicube/snomed/srqs/service/ReleaseReader.java:76-86 | a walk over a fresh listener yields the query the walk builds, or the exception it stops with |
| Service.ReleaseReader.RetrieveConcepts | src/main/java/com/kaicube/snomed/srqs/service/ReleaseReader.java:54-74 | the result is the evaluation of the built query: empty for a null or empty constraint, descendants of the root for `*`, else the focus concept (when self is included) followed by its descendants or ancestors |
| Listener.Step | src/main/java/com/kaicube/snomed/srqs/service/ReleaseReader.java:165-257 | one enter callback throws exactly when it meets an unsupported production (or a memberOf focus), with that production's feature name |
| Listener.ExpressionConstraintListener.constructor | src/main/java/com/kaicube/snomed/srqs/service/ReleaseReader.java:161-163 | a new listener owns a fresh ELQuery in its initial state |
| Listener.ExpressionConstraintListener.GetElQuery | src/main/java/com/kaicube/snomed/srqs/service/ReleaseReader.java:259-261 | returns the listener's own ELQuery object, not a copy |
| Listener.ExpressionConstraintListener.EnterFocusConcept | src/main/java/com/kaicube/snomed/srqs/service/ReleaseReader.java:166-174 | memberOf throws and leaves the query unchanged; else a wildcard sets the wildcard flag; else the concept id is recorded |
| Listener.ExpressionConstraintListener.EnterDescendantOf | src/main/java/com/kaicube/snomed/srqs/service/ReleaseReader.java:177-179 | applies the `<` row of the prefix table |
| Listener.ExpressionConstraintListener.EnterDescendantOrSelfOf | src/main/java/com/kaicube/snomed/srqs/service/ReleaseReader.java:182-184 | applies the `<<` row of the prefix table |
| Listener.ExpressionConstraintListener.EnterAncestorOf | src/main/java/com/kaicube/snomed/srqs/service/ReleaseReader.java:187-189 | applies the `>` row of the prefix table |
| Listener.ExpressionConstraintListener.EnterAncestorOrSelfOf | src/main/java/com/kaicube/snomed/srqs/service/ReleaseReader.java:192-194 | applies the `>>` row of the prefix table |
| Listener.ExpressionConstraintListener.EnterAttributeName | src/main/java/com/kaicube/snomed/srqs/service/ReleaseReader.java:197-199 | records the attribute name and changes nothing else |
| Listener.ExpressionConstraintListener.EnterComparisonOperator | src/main/java/com/kaicube/snomed/srqs/service/ReleaseReader.java:202-204 | `=` records equals, any other operator records notEquals |
| Listener.ExpressionConstraintListener.EnterConstraintValue | src/main/java/com/kaicube/snomed/srqs/service/ReleaseReader.java:207-209 | records the constraint value and changes nothing else |
| Listener.ExpressionConstraintListener.EnterUnsupported | src/main/java/com/kaicube/snomed/srqs/service/ReleaseReader.java:211-257 | each unsupported production throws with its own feature name, the compound constraint with the generic message |
| Listener.ExpressionConstraintListener.Enter | src/main/java/com/kaicube/snomed/srqs/service/ReleaseReader.java:165-257 | one callback changes the query as `Step` says, and leaves it unchanged when it throws |
| Listener.ExpressionConstraintListener.Walk | src/main/java/com/kaicube/snomed/srqs/service/ReleaseReader.java:82-84 | the walk of a whole tree ends with the query `BuildFrom` gives, or with the first exception thrown |
| Listener.BuildFromAppend | src/main/java/com/kaicube/snomed/srqs/service/ReleaseReader.java:82-84 | walking two event sequences in turn is walking the first, then the second from the query the first left; an exception in the first skips the second |
| Listener.BuildStopsAtFirstRejection | src/main/java/com/kaicube/snomed/srqs/service/ReleaseReader.java:251-257 | the first unsupported production met in walk order decides the exception, whatever follows it |
| Listener.BuildFromFailsIffRejected | src/main/java/com/kaicube/snomed/srqs/service/ReleaseReader.java:211-257 | a walk fails exactly when it holds an unsupported production |
| Listener.BuildIsNullSafe | src/main/java/com/kaicube/snomed/srqs/service/ReleaseReader.java:127-129 | in a grammatical walk a built query with an operator also has a value, so line 129 never dereferences null |
| Listener.FeatureNamesDistinct | src/main/java/com/kaicube/snomed/srqs/service/ReleaseReader.java:216-248 | different unsupported productions give different feature names |
| EvaluatorProperties.AcceptsDependsOnFirstValueOnly | src/main/java/com/kaicube/snomed/srqs/service/ReleaseReader.java:128-130 | two concepts with the same first value of the attribute are filtered alike |
| EvaluatorProperties.AcceptsRefinesAnyValue | src/main/java/com/kaicube/snomed/srqs/service/ReleaseReader.java:121-131 | a kept concept has a matching value, and for a single-valued attribute keeping and matching coincide |
| EvaluatorProperties.AcceptsIgnoresLaterValues | src/main/java/com/kaicube/snomed/srqs/service/ReleaseReader.java:128-130 | an example: a concept whose values are [u, v] is dropped by `=v`, because its first value u differs, though its second value matches |
| EvaluatorProperties.CollectMembers | src/main/java/com/kaicube/snomed/srqs/service/ReleaseReader.java:109-111 | the filtered list is no longer than the hits and holds exactly the results of the accepted documents |
| EvaluatorProperties.CollectDependsOnRefinement | src/main/java/com/kaicube/snomed/srqs/service/ReleaseReader.java:115-138 | the filter reads only the attribute name, operator and value of the query |
| EvaluatorProperties.LookupsDependOnRefinement | src/main/java/com/kaicube/snomed/srqs/service/ReleaseReader.java:92-113 | descendant and ancestor retrieval read only the refinement part of the query |
| EvaluatorProperties.DescendantHitsExactly | src/main/java/com/kaicube/snomed/srqs/service/ReleaseReader.java:108-110 | the descendant hits are exactly the index documents that list the id as an ancestor |
| EvaluatorProperties.DescendantsExactly | src/main/java/com/kaicube/snomed/srqs/service/ReleaseReader.java:105-113 | for a parsable id the result holds exactly the accepted concepts that list the id as an ancestor |
| EvaluatorProperties.DescendantsOfUnlistedIdAreEmpty | src/main/java/com/kaicube/snomed/srqs/service/ReleaseReader.java:105-113 | an id no document lists as an ancestor has no descendants, whether or not it is a concept |
| EvaluatorProperties.StrictDescendantsExcludeFocus | src/main/java/com/kaicube/snomed/srqs/service/ReleaseReader.java:105-113 | a concept is not among its own descendants |
| EvaluatorProperties.ResolveAllFindsEach | src/main/java/com/kaicube/snomed/srqs/service/ReleaseReader.java:95-97 | when every ancestor id is indexed, the loop resolves each one to a document with that id, in order |
| EvaluatorProperties.ResolveAllStopsAtFirstMissing | src/main/java/com/kaicube/snomed/srqs/service/ReleaseReader.java:95-97 | the first ancestor id with no document ends the loop with that lookup's exception |
| EvaluatorProperties.AncestorValuesParse | src/main/java/com/kaicube/snomed/srqs/service/ReleaseReader.java:94-96 | each stored ancestor value parses back to the ancestor id |
| EvaluatorProperties.AncestorsOfMissingFocus | src/main/java/com/kaicube/snomed/srqs/service/ReleaseReader.java:94 | ancestor retrieval of a concept that cannot be found fails with the lookup's exception |
| EvaluatorProperties.AncestorsInStoredOrder | src/main/java/com/kaicube/snomed/srqs/service/ReleaseReader.java:92-98 | with every ancestor indexed, the result is the accepted ancestors in stored order |
| EvaluatorProperties.AncestorsFailAtFirstMissing | src/main/java/com/kaicube/snomed/srqs/service/ReleaseReader.java:95-97 | an ancestor missing from the index makes the whole retrieval fail with NotFound for the first such id |
| EvaluatorProperties.AncestorsOfIndexedConcept | src/main/java/com/kaicube/snomed/srqs/service/ReleaseReader.java:92-98 | in an index closed under ancestors, ancestor retrieval of an indexed concept succeeds |
| EvaluatorProperties.WildcardIsRootDescendants | src/main/java/com/kaicube/snomed/srqs/service/ReleaseReader.java:59-60 | `*` yields the accepted descendants of the root, whatever the focus id and relation flags hold |
| EvaluatorProperties.WildcardOmitsRoot | src/main/java/com/kaicube/snomed/srqs/service/ReleaseReader.java:59-60 | `*` does not return the root concept itself |
| EvaluatorProperties.SelfComesFirst | src/main/java/com/kaicube/snomed/srqs/service/ReleaseReader.java:63-70 | when self is included the focus concept is looked up first and its filtered result heads the list |
| EvaluatorProperties.MissingFocusIsNotFound | src/main/java/com/kaicube/snomed/srqs/service/ReleaseReader.java:63-64 | a self-including query on a concept absent from the index fails with NotFound for that id |
| EvaluatorProperties.DescendantsTakePrecedence | src/main/java/com/kaicube/snomed/srqs/service/ReleaseReader.java:66-70 | when descendantOf is set, ancestorOf has no effect |
| EvaluatorProperties.NoPrefixIsFocusOnly | src/main/java/com/kaicube/snomed/srqs/service/ReleaseReader.java:62-65 | a constraint with no prefix (the fresh query's flags) yields the focus concept alone when accepted, or its lookup failure |
| EvaluatorProperties.DescendantOfPrefix | src/main/java/com/kaicube/snomed/srqs/service/ReleaseReader.java:66-67 | after `<`, the evaluation is exactly the descendant retrieval of the focus id, with no lookup of the focus |
| EvaluatorProperties.DescendantOrSelfOfPrefix | src/main/java/com/kaicube/snomed/srqs/service/ReleaseReader.java:63-67 | after `<<`, a focus that cannot be looked up fails the query with that lookup's exception; otherwise the result is the focus when accepted, followed by its descendants |
| EvaluatorProperties.AncestorOfPrefix | src/main/java/com/kaicube/snomed/srqs/service/ReleaseReader.java:68-69 | after `>`, the evaluation is exactly the ancestor retrieval of the focus id |
| EvaluatorProperties.AncestorOrSelfOfPrefix | src/main/java/com/kaicube/snomed/srqs/service/ReleaseReader.java:63-70 | after `>>`, the focus lookup's failure, else the first failed ancestor lookup, else the focus when accepted followed by its ancestors |
| EvaluatorProperties.CollectSingle | src/main/java/com/kaicube/snomed/srqs/service/ReleaseReader.java:115-138 | filtering a single document keeps its projection exactly when the refinement accepts it |
| EvaluatorProperties.StrictDescendantsOfUnknownConcept | src/main/java/com/kaicube/snomed/srqs/service/ReleaseReader.java:63-67 | `<X` for an X nobody lists as an ancestor gives an empty list and no NotFound |
| EvaluatorProperties.EmptyQueryIsEmpty | src/main/java/com/kaicube/snomed/srqs/service/ReleaseReader.java:55-57 | a null or empty constraint yields an empty list |
| EvaluatorProperties.UnsupportedQueryFails | src/main/java/com/kaicube/snomed/srqs/service/ReleaseReader.java:211-257 | a constraint whose walk meets an unsupported production fails with that production's exception |
| QueryScenarios.RefinedDescendantBuild | src/main/java/com/kaicube/snomed/srqs/service/ReleaseReader.java:166-209 | the seven-event walk of `<X:A=v` builds the query with focus X, strict descendants, attribute A, equals and value v |
| QueryScenarios.RefinedDescendantQuery | src/main/java/com/kaicube/snomed/srqs/service/ReleaseReader.java:54-74 | `<X:A=v` yields exactly the concepts listing X as an ancestor whose first value of A is v |
| QueryScenarios.NestedValueTakesFocus | src/main/java/com/kaicube/snomed/srqs/service/ReleaseReader.java:166-174 | when the value's subtree holds its own focusconcept, line 172 runs again and v replaces X as the focus concept |
| QueryScenarios.NestedValueQuery | src/main/java/com/kaicube/snomed/srqs/service/ReleaseReader.java:54-74 | on that walk `<X:A=v` answers with the descendants of v whose first value of A is v, whatever X is |

## Left out

- The Lucene plumbing: opening the index, the query parser field, `getConceptCount`
  (lines 34-48) and `IOException`. The index is a sequence of documents, a hit is a
  document number, and descendant hits come back in ascending document order.
- The hit cap `Integer.MAX_VALUE` at line 108 is not modelled; the search returns all hits.
- The ANTLR lexer and parser (lines 77-80): a parse tree is given as the sequence of
  enter callbacks a `ParseTreeWalker` makes. Syntax errors and error recovery are not
  modelled, and neither are callbacks the listener does not override.
- `retrieveConceptAncestors(String)` and `retrieveConceptDescendants(String)` with a
  null query (lines 88-90, 101-103). With a null query, every call that reaches
  `conditionalAdd` throws NullPointerException at line 116. A call that never reaches it
  returns an empty list: descendants of an id with no hits, or ancestors of a concept
  with no stored ancestors, such as the root.
- The source of the ELQuery class and of ConceptConstants is not part of this model.
  `ElQueryModel.ELQuery` models ELQuery from the getters and setters this file calls.
  Its assumed initial state is `includeSelf` true, the other flags false, and the id,
  attribute name, operator and value null (`ElQueryModel.InitialQuery`). The root
  concept id is taken to be 138875005.
- ElQueryModel.Query.WithRelation: the flag table of the four relation setters is assumed
  from the query language's prefixes, not read from ELQuery's source. Its consequences
  for evaluation are proved in `EvaluatorProperties.NoPrefixIsFocusOnly`,
  `DescendantOfPrefix`, `DescendantOrSelfOfPrefix`, `AncestorOfPrefix` and
  `AncestorOrSelfOfPrefix`.
- QueryScenarios.RefinedDescendantWalk: the callback sequence of the tree for `<X:A=v`
  is assumed, because the grammar is not part of this model. The walk assumes the
  constraint value fires no focusconcept callback of its own. If the grammar derives a
  value as a nested simple constraint, the walk is `QueryScenarios.NestedValueWalk`.
  Line 172 then overwrites the focus id with the value, and line 208 takes the text of
  the whole value subtree. `QueryScenarios.NestedValueQuery` records the result.
- `src/main/java/com/kaicube/snomed/srqs/ReleaseReader.java` (the application class)
  is not part of this model.
- `Long.parseLong` also accepts non-ASCII Unicode digits; the model accepts ASCII digits only.
- Service.ReleaseReader.ConditionalAdd: requires that an operator comes with a value.
  The source throws a NullPointerException at line 129 otherwise. The grammar never
  builds such a query (`Listener.BuildIsNullSafe`).
- Service.ReleaseReader.RetrieveConcepts: requires a walk in which every comparison
  operator is followed by a value, as every tree of the grammar is.
- Service.ReleaseReader.ConditionalAdd: the result list is passed in and returned as a
  value rather than mutated through an aliased `ArrayList`.
- Exception message texts are not modelled beyond the concept id and feature name they carry.
- Attribute names are taken to be distinct from the index's own `id`, `fsn` and
  `ancestor` fields.
