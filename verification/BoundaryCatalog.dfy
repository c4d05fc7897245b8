// The boundary catalog: folding lifecycle events into boundaries
// (admin/slices/boundary_catalog/event_handler.go), replaying them page by page
// (query_handler.go), and rebuilding one boundary from the newest event of each lifecycle
// type (admin/slices/boundary_provisioning/command_handler.go).
module BoundaryCatalog {
  import opened Common
  import opened Ordering
  import opened Tags
  import opened EventLog
  import opened EventReads

  const CREATED := "$BoundaryCreated"
  const ACTIVATED := "$BoundaryActivated"
  const FAILED := "$BoundaryProvisioningFailed"

  // ---- Lifecycle events ----

  // What an event says, once decoded; `Garbled` when its data does not decode.
  datatype Lifecycle =
    | Created(boundary: string, description: string, backend: string, namespace: string)
    | Activated(boundary: string)
    | Failed(boundary: string, error: string)
    | Garbled
    | Unrelated

  // A string member of a JSON object: empty when missing or null.
  function TextMember(doc: Document, key: string): Option<string> {
    if key !in doc || doc[key].NullField? then Some("")
    else if doc[key].TextField? then Some(doc[key].text)
    else None
  }

  // The members of the nested placement object.
  function Placement(doc: Document): Option<Document> {
    if "placement" !in doc || doc["placement"].NullField? then Some(map[])
    else if doc["placement"].ObjectField? then Some(doc["placement"].members)
    else None
  }

  // The text a read or an equality tag sees under a key.
  function TextAt(doc: Document, key: string): Option<string> {
    if key in doc then ScalarText(doc[key]) else None
  }

  function EventType(doc: Document): string {
    var text := TextAt(doc, "__eventType");
    if text.Some? then text.value else ""
  }

  function Decode(doc: Document): Lifecycle {
    var boundary := TextMember(doc, "boundary");
    if EventType(doc) == CREATED then
      var description, placement := TextMember(doc, "description"), Placement(doc);
      if boundary.None? || description.None? || placement.None? then Garbled
      else
        var backend, namespace := TextMember(placement.value, "backend"), TextMember(placement.value, "namespace");
        if backend.None? || namespace.None? then Garbled
        else Created(boundary.value, description.value, backend.value, namespace.value)
    else if EventType(doc) == ACTIVATED then
      if boundary.None? then Garbled else Activated(boundary.value)
    else if EventType(doc) == FAILED then
      var error := TextMember(doc, "error");
      if boundary.None? || error.None? then Garbled else Failed(boundary.value, error.value)
    else Unrelated
  }

  datatype BoundaryStatus = Provisioning | Active | Broken

  datatype Boundary = Boundary(
    name: string, description: string, backend: string, namespace: string,
    status: BoundaryStatus, lastError: string, definitionPosition: Position, statusPosition: Position)

  type Boundaries = map<string, Boundary>

  // ---- The fold ----

  function Defined(e: Lifecycle, p: Position): Boundary
    requires e.Created?
  {
    Boundary(e.boundary, e.description, e.backend, e.namespace, Provisioning, "", p, p)
  }

  predicate Definable(e: Lifecycle) {
    e.Created? && e.boundary != "" && e.backend != "" && e.namespace != ""
  }

  function WithActivated(b: Boundary, p: Position): Boundary {
    b.(status := Active, lastError := "", statusPosition := p)
  }

  // ACTIVE is terminal: a later failure changes nothing.
  function WithFailed(b: Boundary, error: string, p: Position): Boundary {
    if b.status == Active then b else b.(status := Broken, lastError := error, statusPosition := p)
  }

  // One event. An outcome before its definition is ignored.
  function Fold1(m: Boundaries, row: Row): Result<Boundaries> {
    var e, p := Decode(row.doc), row.position;
    match e
    case Created(name, _, _, _) => if Definable(e) && name !in m then Ok(m[name := Defined(e, p)]) else Err(Internal)
    case Activated(name) =>
      if name == "" then Err(Internal)
      else if name !in m then Ok(m)
      else Ok(m[name := WithActivated(m[name], p)])
    case Failed(name, error) =>
      if name == "" then Err(Internal)
      else if name !in m then Ok(m)
      else if error == "" then Err(Internal)
      else Ok(m[name := WithFailed(m[name], error, p)])
    case Garbled => Err(Internal)
    case Unrelated => Ok(m)
  }

  // A whole sequence of events, up to the first error.
  function Fold(rows: Log): Result<Boundaries> {
    if rows == [] then Ok(map[])
    else
      var before := Fold(rows[..|rows| - 1]);
      if before.Err? then before else Fold1(before.value, rows[|rows| - 1])
  }

  // Catalog: the fold in place.
  class Catalog {
    var boundaries: Boundaries

    constructor ()
      ensures boundaries == map[]
    {
      boundaries := map[];
    }

    method Define(e: Lifecycle, position: Position) returns (ok: bool)
      requires e.Created?
      modifies this
      ensures ok <==> Definable(e) && e.boundary !in old(boundaries)
      ensures boundaries == if ok then old(boundaries)[e.boundary := Defined(e, position)] else old(boundaries)
    {
      if e.boundary == "" || e.backend == "" || e.namespace == "" || e.boundary in boundaries {
        return false;
      }
      boundaries := boundaries[e.boundary :=
        Boundary(e.boundary, e.description, e.backend, e.namespace, Provisioning, "", position, position)];
      ok := true;
    }

    // Applies one event; `applied` is whether it was a lifecycle event.
    method Apply(row: Row) returns (applied: bool, ok: bool)
      modifies this
      ensures applied <==> !Decode(row.doc).Unrelated?
      ensures ok <==> Fold1(old(boundaries), row).Ok?
      ensures boundaries == if ok then Fold1(old(boundaries), row).value else old(boundaries)
    {
      var e := Decode(row.doc);
      match e
      case Created(_, _, _, _) =>
        applied := true;
        ok := Define(e, row.position);
      case Activated(name) =>
        if name == "" {
          return true, false;
        }
        if name !in boundaries {
          return true, true;
        }
        var boundary := boundaries[name];
        boundary := boundary.(status := Active, lastError := "", statusPosition := row.position);
        boundaries := boundaries[name := boundary];
        return true, true;
      case Failed(name, error) =>
        if name == "" {
          return true, false;
        }
        if name !in boundaries {
          return true, true;
        }
        if error == "" {
          return true, false;
        }
        var boundary := boundaries[name];
        if boundary.status == Active {
          assert boundaries[name := boundary] == boundaries;
          return true, true;
        }
        boundary := boundary.(status := Broken, lastError := error, statusPosition := row.position);
        boundaries := boundaries[name := boundary];
        return true, true;
      case Garbled => return true, false;
      case Unrelated => return false, true;
    }
  }

  lemma FoldAppend(rows: Log, row: Row)
    ensures Fold(rows + [row]) == if Fold(rows).Err? then Fold(rows) else Fold1(Fold(rows).value, row)
  {
    assert (rows + [row])[..|rows|] == rows;
  }

  lemma {:induction false} FoldErrorStays(rows: Log, k: nat)
    requires k <= |rows| && Fold(rows[..k]).Err?
    ensures Fold(rows).Err?
  {
    if k == |rows| {
      assert rows[..k] == rows;
    } else {
      assert rows[..|rows| - 1][..k] == rows[..k];
      FoldErrorStays(rows[..|rows| - 1], k);
    }
  }

  // ---- Which events concern a boundary ----

  predicate IsLifecycle(doc: Document) {
    EventType(doc) in {CREATED, ACTIVATED, FAILED}
  }

  // The lifecycle events of a boundary; all of them when no name is given.
  predicate Concerns(doc: Document, name: string) {
    IsLifecycle(doc) && (name != "" ==> TextAt(doc, "boundary") == Some(name))
  }

  function Concerning(name: string): Document -> bool {
    doc => Concerns(doc, name)
  }

  function OfType(name: string, kind: string): Document -> bool {
    doc => EventType(doc) == kind && TextAt(doc, "boundary") == Some(name)
  }

  // lifecycleQuery of the catalog.
  function CatalogCriterion(name: string, kind: string): Criterion {
    [Tag("__eventType", kind, "")] + (if name != "" then [Tag("boundary", name, "")] else [])
  }

  function CatalogQuery(name: string): Query {
    [CatalogCriterion(name, CREATED), CatalogCriterion(name, ACTIVATED), CatalogCriterion(name, FAILED)]
  }

  // lifecycleCriteria of the provisioning command, and definitionCriteria of the create one.
  function TypeCriterion(name: string, kind: string): Criterion {
    [Tag("boundary", name, ""), Tag("__eventType", kind, "")]
  }

  function LifecycleCriteria(name: string): Query {
    [TypeCriterion(name, CREATED), TypeCriterion(name, ACTIVATED), TypeCriterion(name, FAILED)]
  }

  lemma EqualityTag(doc: Document, key: string, value: string)
    ensures TagHolds(doc, Tag(key, value, "")) <==> TextAt(doc, key) == Some(value)
  {
  }

  lemma TypeCriterionMeans(doc: Document, name: string, kind: string)
    requires kind != ""
    ensures CriterionHolds(doc, TypeCriterion(name, kind)) <==> OfType(name, kind)(doc)
  {
    hide TagHolds;
    EqualityTag(doc, "boundary", name);
    EqualityTag(doc, "__eventType", kind);
  }

  lemma CatalogCriterionMeans(doc: Document, name: string, kind: string)
    requires kind != ""
    ensures CriterionHolds(doc, CatalogCriterion(name, kind)) <==> EventType(doc) == kind && (name != "" ==> TextAt(doc, "boundary") == Some(name))
  {
    hide TagHolds, TextAt;
    EqualityTag(doc, "boundary", name);
    EqualityTag(doc, "__eventType", kind);
    assert Tag("__eventType", kind, "") in CatalogCriterion(name, kind);
    assert name != "" ==> Tag("boundary", name, "") in CatalogCriterion(name, kind);
  }

  lemma QueryOfThree(doc: Document, a: Criterion, b: Criterion, c: Criterion)
    requires a != [] && b != [] && c != []
    ensures QueryHolds(doc, [a, b, c]) <==> CriterionHolds(doc, a) || CriterionHolds(doc, b) || CriterionHolds(doc, c)
  {
    hide CriterionHolds;
    var q := [a, b, c];
    assert q[0] in q && q[1] in q && q[2] in q;
  }

  // What the two queries select.
  lemma {:induction false} CatalogQueryMeans(doc: Document, name: string)
    ensures QueryHolds(doc, CatalogQuery(name)) <==> Concerns(doc, name)
  {
    hide QueryHolds, CriterionHolds, TextAt;
    QueryOfThree(doc, CatalogCriterion(name, CREATED), CatalogCriterion(name, ACTIVATED), CatalogCriterion(name, FAILED));
    CatalogCriterionMeans(doc, name, CREATED);
    CatalogCriterionMeans(doc, name, ACTIVATED);
    CatalogCriterionMeans(doc, name, FAILED);
  }

  lemma {:induction false} LifecycleCriteriaMean(doc: Document, name: string)
    requires name != ""
    ensures QueryHolds(doc, LifecycleCriteria(name)) <==> Concerns(doc, name)
  {
    hide QueryHolds, CriterionHolds, TextAt;
    QueryOfThree(doc, TypeCriterion(name, CREATED), TypeCriterion(name, ACTIVATED), TypeCriterion(name, FAILED));
    TypeCriterionMeans(doc, name, CREATED);
    TypeCriterionMeans(doc, name, ACTIVATED);
    TypeCriterionMeans(doc, name, FAILED);
  }
}
