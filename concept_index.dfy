/** The read-only concept index the engine searches: one stored document per concept,
    addressed by document number. It stands for the search library's index, which is
    built elsewhere and never changes while queries run. */
module ConceptIndex {
  import opened Results
  import opened JavaLong

  /** A stored concept: its id, its fully specified name, the precomputed closure of its
      ancestor ids in stored order, and its attribute values by attribute name. */
  datatype Document = Document(
    id: Long,
    fsn: string,
    ancestors: seq<Long>,
    attributes: map<string, seq<string>>)

  /** The documents, indexed by document number. */
  type Index = seq<Document>

  /** What the engine hands back for a concept: its id text and its name. */
  datatype ConceptResult = ConceptResult(id: string, fsn: string)

  /** `document.getValues(name)` for an attribute field: the stored values in order,
      none when the document has no such field. */
  function GetValues(d: Document, name: string): (values: seq<string>)
    ensures name in d.attributes ==> values == d.attributes[name]
    ensures name !in d.attributes ==> values == []
  {
    if name in d.attributes then d.attributes[name] else []
  }

  /** `document.getValues(ANCESTOR)`: the ancestor ids as the text they are stored as. */
  function AncestorValues(d: Document): (values: seq<string>)
    ensures |values| == |d.ancestors|
  {
    seq(|d.ancestors|, i requires 0 <= i < |d.ancestors| => LongToString(d.ancestors[i]))
  }

  /** The top hit of an exact-match search on the id field: the lowest-numbered document
      with that id, if there is one. */
  function FirstWithId(index: Index, n: Long): (r: Option<nat>)
    ensures r.Some? ==> r.value < |index| && index[r.value].id == n
    ensures r.Some? ==> forall k :: 0 <= k < r.value ==> index[k].id != n
    ensures r.None? ==> forall k :: 0 <= k < |index| ==> index[k].id != n
  {
    if |index| == 0 then None
    else if index[0].id == n then Some(0)
    else
      match FirstWithId(index[1..], n)
      case None => None
      case Some(k) => Some(k + 1)
  }

  /** The hits of an exact-match search on the ancestor field: the numbers of the documents
      whose ancestor closure contains `n`, in ascending order. */
  function HitsFor(index: Index, n: Long): (hits: seq<nat>)
    ensures forall k: nat :: k in hits <==> k < |index| && n in index[k].ancestors
    ensures forall i, j :: 0 <= i < j < |hits| ==> hits[i] < hits[j]
  {
    if |index| == 0 then []
    else
      var rest := HitsFor(index[..|index| - 1], n);
      assert forall i :: 0 <= i < |rest| ==> rest[i] in rest && rest[i] < |index| - 1;
      if n in index[|index| - 1].ancestors then rest + [|index| - 1] else rest
  }

  /** The documents with the given numbers, in the order given. */
  function DocumentsAt(index: Index, numbers: seq<nat>): (docs: seq<Document>)
    requires forall k :: k in numbers ==> k < |index|
    ensures |docs| == |numbers|
  {
    seq(|numbers|, i requires 0 <= i < |numbers| => assert numbers[i] in numbers; index[numbers[i]])
  }

  /** Some document carries the id. */
  ghost predicate Indexed(index: Index, n: Long) {
    exists j :: 0 <= j < |index| && index[j].id == n
  }

  /** Every concept the index holds has its ancestors in the index too. */
  ghost predicate AncestorsIndexed(index: Index) {
    forall k, a :: 0 <= k < |index| && a in index[k].ancestors ==> Indexed(index, a)
  }

  /** No two documents share an id. */
  ghost predicate UniqueIds(index: Index) {
    forall i, j :: 0 <= i < |index| && 0 <= j < |index| && index[i].id == index[j].id ==> i == j
  }
}
