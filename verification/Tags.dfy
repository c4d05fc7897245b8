// Tags, criteria and what they select (orisun/query_predicates.go and the comparisons
// rendered by sqlite/sqlite_eventstore.go).
module Tags {
  import opened Common
  import opened Text
  import JsonNumbers

  datatype Tag = Tag(key: string, value: string, operator: string)

  // A criterion is a conjunction of tags; a query matches when one of its criteria does.
  type Criterion = seq<Tag>
  type Query = seq<Criterion>

  function CanonicalTagOperator(operator: string): Option<string> {
    if operator == "" || operator == "eq" then Some("eq")
    else if operator in {"ne", "gt", "gte", "lt", "lte"} then Some(operator)
    else None
  }

  predicate ValidTag(t: Tag) {
    && t.key != ""
    && '\0' !in t.key && '\0' !in t.value
    && CanonicalTagOperator(t.operator).Some?
  }

  predicate ValidCriterion(c: Criterion) {
    forall t :: t in c ==> ValidTag(t)
  }

  // A field of a stored document. `token` is the JSON number as written and `rendered` the
  // text SQLite's CAST gives a number, array or object.
  datatype Field =
    | TextField(text: string)
    | NumberField(token: string, rendered: string)
    | BooleanField(flag: bool)
    | NullField
    | ArrayField(rendered: string)
    | ObjectField(rendered: string, members: map<string, Field>)

  type Document = map<string, Field>

  function ScalarText(f: Field): Option<string> {
    match f
    case TextField(text) => Some(text)
    case NumberField(_, rendered) => Some(rendered)
    case BooleanField(flag) => Some(if flag then "true" else "false")
    case NullField => None
    case ArrayField(rendered) => Some(rendered)
    case ObjectField(rendered, _) => Some(rendered)
  }

  function CompareText(a: string, b: string): int {
    if Less(a, b) then -1 else if a == b then 0 else 1
  }

  function CompareField(f: Field, value: string): Option<int> {
    match f
    case TextField(text) => Some(CompareText(text, value))
    case NumberField(token, _) => JsonNumbers.Compare(token, value)
    case _ => None
  }

  // One rendered comparison. A missing field or JSON null satisfies no operator.
  predicate Holds(doc: Document, key: string, operator: string, value: string) {
    key in doc &&
    match CanonicalTagOperator(operator)
    case None => false
    case Some(op) =>
      var text, cmp := ScalarText(doc[key]), CompareField(doc[key], value);
      if op == "eq" then text == Some(value)
      else if op == "ne" then text.Some? && text.value != value
      else
        && cmp.Some?
        && (op == "gt" ==> cmp.value > 0)
        && (op == "gte" ==> cmp.value >= 0)
        && (op == "lt" ==> cmp.value < 0)
        && (op == "lte" ==> cmp.value <= 0)
  }

  predicate TagHolds(doc: Document, t: Tag) {
    Holds(doc, t.key, t.operator, t.value)
  }

  predicate CriterionHolds(doc: Document, c: Criterion) {
    forall t :: t in c ==> TagHolds(doc, t)
  }

  // Criteria without tags are ignored; with none left every event matches.
  predicate QueryHolds(doc: Document, q: Query) {
    (forall c :: c in q ==> c == []) || exists c :: c in q && c != [] && CriterionHolds(doc, c)
  }

  // ---- What a tag selects ----

  // How a field stands to a value: texts by bytes, numbers by what they denote; nothing else is
  // ordered.
  ghost predicate Below(f: Field, value: string) {
    || (f.TextField? && Less(f.text, value))
    || (f.NumberField? && exists m, n :: JsonNumbers.Written(f.token, m) && JsonNumbers.Written(value, n) && JsonNumbers.Value(m) < JsonNumbers.Value(n))
  }

  ghost predicate Above(f: Field, value: string) {
    || (f.TextField? && Less(value, f.text))
    || (f.NumberField? && exists m, n :: JsonNumbers.Written(f.token, m) && JsonNumbers.Written(value, n) && JsonNumbers.Value(m) > JsonNumbers.Value(n))
  }

  ghost predicate Level(f: Field, value: string) {
    || (f.TextField? && f.text == value)
    || (f.NumberField? && exists m, n :: JsonNumbers.Written(f.token, m) && JsonNumbers.Written(value, n) && JsonNumbers.Value(m) == JsonNumbers.Value(n))
  }

  // The text of a field that has one: its own, "true" or "false", or what it is rendered as.
  predicate HasText(f: Field, text: string) {
    match f
    case TextField(own) => text == own
    case NumberField(_, rendered) => text == rendered
    case BooleanField(flag) => (flag && text == "true") || (!flag && text == "false")
    case NullField => false
    case ArrayField(rendered) => text == rendered
    case ObjectField(rendered, _) => text == rendered
  }

  lemma OrderedAs(f: Field, value: string)
    ensures CompareField(f, value) == Some(-1) <==> Below(f, value)
    ensures CompareField(f, value) == Some(0) <==> Level(f, value)
    ensures CompareField(f, value) == Some(1) <==> Above(f, value)
    ensures CompareField(f, value).Some? ==> CompareField(f, value).value in {-1, 0, 1}
  {
    if f.TextField? {
      LessIrreflexive(value);
      LessConnected(f.text, value);
      if Less(f.text, value) && Less(value, f.text) {
        LessTransitive(f.text, value, f.text);
        LessIrreflexive(f.text);
      }
    } else if f.NumberField? {
      JsonNumbers.WrittenOrder(f.token, value);
    }
  }

  // A tag holds of a document exactly when the field is there, and stands to the value as the
  // operator says.
  lemma {:induction false} TagMeans(doc: Document, t: Tag)
    ensures t.key !in doc ==> !TagHolds(doc, t)
    ensures t.key in doc ==>
      var f := doc[t.key];
      && (t.operator == "" || t.operator == "eq" ==> (TagHolds(doc, t) <==> HasText(f, t.value)))
      && (t.operator == "ne" ==> (TagHolds(doc, t) <==> !f.NullField? && !HasText(f, t.value)))
      && (t.operator == "lt" ==> (TagHolds(doc, t) <==> Below(f, t.value)))
      && (t.operator == "lte" ==> (TagHolds(doc, t) <==> Below(f, t.value) || Level(f, t.value)))
      && (t.operator == "gt" ==> (TagHolds(doc, t) <==> Above(f, t.value)))
      && (t.operator == "gte" ==> (TagHolds(doc, t) <==> Above(f, t.value) || Level(f, t.value)))
      && (t.operator !in {"", "eq", "ne", "lt", "lte", "gt", "gte"} ==> !TagHolds(doc, t))
  {
    hide CompareField, Below, Above, Level, ScalarText, HasText;
    if t.key in doc {
      OrderedAs(doc[t.key], t.value);
      TextAs(doc[t.key], t.value);
    }
  }

  lemma TextAs(f: Field, value: string)
    ensures ScalarText(f) == Some(value) <==> HasText(f, value)
    ensures ScalarText(f).Some? <==> !f.NullField?
  {
  }
}
