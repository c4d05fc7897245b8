// Compiling a consistency query into ordered lookups (sqlite/consistency.go) and the
// latest-by-criteria read (sqlite/sqlite_eventstore.go).
module SqliteCriteria {
  import opened Common
  import opened Ordering
  import opened Tags
  import opened EventLog
  import opened CriterionCodec
  import opened ConsistencyQueries

  // ---- minimalCriteria ----

  // criterionContains: the criterion has every field of the subset, with the same value.
  predicate Contains(criterion: Encoded, subset: Encoded) {
    && |subset| <= |criterion|
    && forall key :: key in subset ==> key in criterion && criterion[key] == subset[key]
  }

  lemma ContainsReflexive(a: Encoded)
    ensures Contains(a, a)
  {
  }

  lemma ContainsTransitive(a: Encoded, b: Encoded, c: Encoded)
    requires Contains(a, b) && Contains(b, c)
    ensures Contains(a, c)
  {
  }

  // A criterion selects no more than what it contains selects.
  lemma ContainedIsWeaker(doc: Document, criterion: Encoded, subset: Encoded)
    requires Contains(criterion, subset) && EncodedHolds(doc, criterion)
    ensures EncodedHolds(doc, subset)
  {
    forall key | key in subset ensures FieldHolds(doc, key, subset[key]) {
      assert key in criterion;
    }
  }

  // The kept criteria that do not contain the candidate.
  function Without(minimal: seq<Encoded>, candidate: Encoded): seq<Encoded> {
    if minimal == [] then []
    else
      var last := minimal[|minimal| - 1];
      Without(minimal[..|minimal| - 1], candidate) + (if Contains(last, candidate) then [] else [last])
  }

  predicate Redundant(minimal: seq<Encoded>, candidate: Encoded) {
    exists i :: 0 <= i < |minimal| && Contains(candidate, minimal[i])
  }

  function AddCandidate(minimal: seq<Encoded>, candidate: Encoded): seq<Encoded> {
    if Redundant(minimal, candidate) then minimal else Without(minimal, candidate) + [candidate]
  }

  function Minimal(criteria: seq<Encoded>): seq<Encoded> {
    if criteria == [] then []
    else AddCandidate(Minimal(criteria[..|criteria| - 1]), criteria[|criteria| - 1])
  }

  // No kept criterion contains another.
  predicate Irreducible(s: seq<Encoded>) {
    forall i, j :: 0 <= i < |s| && 0 <= j < |s| && i != j ==> !Contains(s[i], s[j])
  }

  // Every criterion contains a kept one.
  predicate Covers(minimal: seq<Encoded>, criteria: seq<Encoded>) {
    forall c :: c in criteria ==> Redundant(minimal, c)
  }

  lemma {:induction false} WithoutMembers(minimal: seq<Encoded>, candidate: Encoded)
    ensures forall m :: m in Without(minimal, candidate) <==> m in minimal && !Contains(m, candidate)
  {
    if minimal != [] {
      var init, last := minimal[..|minimal| - 1], minimal[|minimal| - 1];
      WithoutMembers(init, candidate);
      assert minimal == init + [last];
    }
  }

  lemma {:induction false} WithoutCounts(minimal: seq<Encoded>, candidate: Encoded)
    ensures multiset(Without(minimal, candidate)) <= multiset(minimal)
  {
    if minimal != [] {
      WithoutCounts(minimal[..|minimal| - 1], candidate);
      assert minimal == minimal[..|minimal| - 1] + [minimal[|minimal| - 1]];
    }
  }

  // `x` neither contains nor is contained in a kept criterion.
  predicate Apart(s: seq<Encoded>, x: Encoded) {
    forall m :: m in s ==> !Contains(m, x) && !Contains(x, m)
  }

  lemma IrreducibleAppend(s: seq<Encoded>, x: Encoded)
    ensures Irreducible(s + [x]) <==> Irreducible(s) && Apart(s, x)
  {
    var t := s + [x];
    assert t[|s|] == x && forall i :: 0 <= i < |s| ==> t[i] == s[i] && s[i] in s;
  }

  lemma {:induction false} WithoutIrreducible(minimal: seq<Encoded>, candidate: Encoded)
    requires Irreducible(minimal)
    ensures Irreducible(Without(minimal, candidate))
  {
    if minimal != [] {
      var init, last := minimal[..|minimal| - 1], minimal[|minimal| - 1];
      assert minimal == init + [last];
      IrreducibleAppend(init, last);
      WithoutIrreducible(init, candidate);
      WithoutMembers(init, candidate);
      IrreducibleAppend(Without(init, candidate), last);
    }
  }

  lemma {:induction false} MinimalIsMinimal(criteria: seq<Encoded>)
    ensures multiset(Minimal(criteria)) <= multiset(criteria)
    ensures Irreducible(Minimal(criteria))
    ensures Covers(Minimal(criteria), criteria)
  {
    if criteria != [] {
      var init, candidate := criteria[..|criteria| - 1], criteria[|criteria| - 1];
      MinimalIsMinimal(init);
      assert criteria == init + [candidate];
      WithoutCounts(Minimal(init), candidate);
      AddIrreducible(Minimal(init), candidate);
      AddCovers(Minimal(init), init, candidate);
    }
  }

  lemma AddIrreducible(minimal: seq<Encoded>, candidate: Encoded)
    requires Irreducible(minimal)
    ensures Irreducible(AddCandidate(minimal, candidate))
  {
    if !Redundant(minimal, candidate) {
      WithoutIrreducible(minimal, candidate);
      WithoutMembers(minimal, candidate);
      IrreducibleAppend(Without(minimal, candidate), candidate);
    }
  }

  lemma RedundantBy(minimal: seq<Encoded>, m: Encoded, c: Encoded)
    requires m in minimal && Contains(c, m)
    ensures Redundant(minimal, c)
  {
    var i :| 0 <= i < |minimal| && minimal[i] == m;
  }

  lemma AddCovers(minimal: seq<Encoded>, criteria: seq<Encoded>, candidate: Encoded)
    requires Covers(minimal, criteria)
    ensures Covers(AddCandidate(minimal, candidate), criteria + [candidate])
  {
    if !Redundant(minimal, candidate) {
      var kept := Without(minimal, candidate) + [candidate];
      WithoutMembers(minimal, candidate);
      ContainsReflexive(candidate);
      RedundantBy(kept, candidate, candidate);
      forall c | c in criteria ensures Redundant(kept, c) {
        var i :| 0 <= i < |minimal| && Contains(c, minimal[i]);
        if Contains(minimal[i], candidate) {
          ContainsTransitive(c, minimal[i], candidate);
          RedundantBy(kept, candidate, c);
        } else {
          RedundantBy(kept, minimal[i], c);
        }
      }
    }
  }

  // The slice is compacted in place: kept criteria are moved down over dropped ones.
  method Compact(buffer: array<Encoded>, n: nat, candidate: Encoded) returns (kept: nat)
    requires n <= buffer.Length
    modifies buffer
    ensures kept <= n && buffer[..kept] == Without(old(buffer[..n]), candidate)
  {
    hide Contains, Without;
    ghost var was := buffer[..n];
    assert was[..n] == was;
    WithoutNothing(was, candidate);
    kept := 0;
    for j := 0 to n
      invariant kept <= j && buffer[..kept] == Without(was[..j], candidate)
      invariant forall k :: j <= k < n ==> buffer[k] == was[k]
    {
      WithoutStep(was, j, candidate);
      ghost var before := buffer[..kept];
      if !Contains(buffer[j], candidate) {
        buffer[kept] := buffer[j];
        kept := kept + 1;
        assert buffer[..kept] == before + [was[j]];
      }
    }
  }

  lemma WithoutNothing(minimal: seq<Encoded>, candidate: Encoded)
    ensures Without(minimal[..0], candidate) == []
  {
  }

  lemma WithoutStep(minimal: seq<Encoded>, j: nat, candidate: Encoded)
    requires j < |minimal|
    ensures Without(minimal[..j + 1], candidate)
      == if Contains(minimal[j], candidate) then Without(minimal[..j], candidate) else Without(minimal[..j], candidate) + [minimal[j]]
  {
    hide Contains;
    assert minimal[..j + 1][..j] == minimal[..j];
    assert Without(minimal[..j], candidate) + [] == Without(minimal[..j], candidate);
  }

  method IsRedundant(buffer: array<Encoded>, n: nat, candidate: Encoded) returns (redundant: bool)
    requires n <= buffer.Length
    ensures redundant == Redundant(buffer[..n], candidate)
  {
    redundant := false;
    for i := 0 to n
      invariant forall j :: 0 <= j < i ==> !Contains(candidate, buffer[j])
    {
      if Contains(candidate, buffer[i]) {
        assert Contains(candidate, buffer[..n][i]);
        return true;
      }
    }
  }

  lemma MinimalStep(criteria: seq<Encoded>, i: nat)
    requires i < |criteria|
    ensures Minimal(criteria[..i + 1]) == AddCandidate(Minimal(criteria[..i]), criteria[i])
  {
    assert criteria[..i + 1][..i] == criteria[..i];
  }

  // One candidate: passed over, or put behind the kept criteria that do not contain it.
  method AddInPlace(buffer: array<Encoded>, n: nat, candidate: Encoded) returns (m: nat)
    requires n < buffer.Length
    modifies buffer
    ensures m <= n + 1 && buffer[..m] == AddCandidate(old(buffer[..n]), candidate)
  {
    hide Redundant, Without;
    var redundant := IsRedundant(buffer, n, candidate);
    if redundant {
      return n;
    }
    m := Compact(buffer, n, candidate);
    ghost var kept := buffer[..m];
    buffer[m] := candidate;
    m := m + 1;
    assert buffer[..m] == kept + [candidate];
  }

  method MinimalCriteria(criteria: seq<Encoded>) returns (minimal: seq<Encoded>)
    ensures minimal == Minimal(criteria)
  {
    assert Minimal(criteria[..0]) == [];
    hide Minimal, AddCandidate;
    var buffer := new Encoded[|criteria|];
    var n: nat := 0;
    for i := 0 to |criteria|
      invariant n <= i && buffer[..n] == Minimal(criteria[..i])
    {
      MinimalStep(criteria, i);
      n := AddInPlace(buffer, n, criteria[i]);
    }
    assert criteria[..|criteria|] == criteria;
    minimal := buffer[..n];
  }

  // Dropping redundant criteria leaves the disjunction unchanged.
  lemma {:induction false} MinimalKeepsMeaning(doc: Document, criteria: seq<Encoded>)
    ensures (exists c :: c in Minimal(criteria) && EncodedHolds(doc, c)) <==> (exists c :: c in criteria && EncodedHolds(doc, c))
  {
    var minimal := Minimal(criteria);
    MinimalIsMinimal(criteria);
    forall c | c in criteria && EncodedHolds(doc, c) ensures exists m :: m in minimal && EncodedHolds(doc, m) {
      var i :| 0 <= i < |minimal| && Contains(c, minimal[i]);
      ContainedIsWeaker(doc, c, minimal[i]);
      assert minimal[i] in minimal;
    }
    forall m | m in minimal ensures m in criteria {
      assert m in multiset(minimal);
    }
  }

  // ---- latestCriteriaQueries ----

  // One "ORDER BY transaction_id DESC, global_id DESC LIMIT 1" lookup.
  datatype Lookup = AllRows | Where(criterion: Encoded)

  predicate LookupHolds(doc: Document, l: Lookup) {
    l.Where? ==> EncodedHolds(doc, l.criterion)
  }

  // renderCriterionPredicate succeeds: no NUL in a value, no unknown operator.
  predicate RenderableField(value: FieldValue) {
    match value
    case Equality(text) => '\0' !in text
    case Conjunction(predicates) =>
      forall p :: p in predicates ==> CanonicalTagOperator(p.operator).Some? && '\0' !in p.value
    case Malformed => false
  }

  predicate Renderable(fields: Encoded) {
    forall key :: key in fields ==> RenderableField(fields[key])
  }

  ghost predicate RenderableQuery(q: Query) {
    forall c :: c in q ==> Renderable(Encode(c))
  }

  // The lookups together find exactly what the query matches.
  ghost predicate LookupsFor(lookups: seq<Lookup>, q: Query) {
    forall doc :: (exists l :: l in lookups && LookupHolds(doc, l)) <==> QueryHolds(doc, q)
  }

  // Encodes the non-empty criteria; every one must render, redundant or not.
  method RenderCriteria(criteria: Query) returns (r: Result<seq<Encoded>>)
    ensures r.Ok? <==> RenderableQuery(criteria)
    ensures r.Ok? ==> forall e :: e in r.value <==> exists c :: c in criteria && c != [] && Encode(c) == e
    ensures r.Err? ==> r.status == InvalidArgument
  {
    var encoded: seq<Encoded> := [];
    for i := 0 to |criteria|
      invariant RenderableQuery(criteria[..i])
      invariant forall e :: e in encoded <==> exists c :: c in criteria[..i] && c != [] && Encode(c) == e
    {
      var c := criteria[i];
      assert c in criteria && criteria[..i + 1] == criteria[..i] + [c];
      var e := EncodeCriterion(c);
      EncodeEmpty(c);
      if |e| == 0 {
        continue;
      }
      if !Renderable(e) {
        return Err(InvalidArgument);
      }
      encoded := encoded + [e];
    }
    assert criteria[..|criteria|] == criteria;
    return Ok(encoded);
  }

  lemma EncodeEmpty(c: Criterion)
    ensures |Encode(c)| == 0 <==> c == []
    ensures c == [] ==> Renderable(Encode(c))
  {
    if c != [] {
      assert c[0] in c;
      assert c[0].key in Encode(c);
    }
  }

  // A criterion renders exactly when its operators are known and no value holds a NUL.
  lemma {:induction false} RendersExactlyWhen(c: Criterion)
    ensures Renderable(Encode(c)) <==> forall t :: t in c ==> KnownOperator(t.operator) && '\0' !in t.value
  {
    forall key | key in Encode(c)
      ensures RenderableField(Encode(c)[key]) <==> forall t :: t in c && t.key == key ==> KnownOperator(t.operator) && '\0' !in t.value
    {
      WithKeyMembers(c, key);
      FieldRendersExactlyWhen(WithKey(c, key));
    }
    hide RenderableField, KnownOperator;
    assert forall t :: t in c ==> t.key in Encode(c);
  }

  lemma FieldRendersExactlyWhen(tags: Criterion)
    ensures RenderableField(Pack(Predicates(tags))) <==> forall t :: t in tags ==> KnownOperator(t.operator) && '\0' !in t.value
  {
    var predicates := Predicates(tags);
    PackRenders(predicates);
    hide RenderableField, Pack;
    forall t | t in tags ensures Predicate(t) in predicates {
      var i :| 0 <= i < |tags| && tags[i] == t;
      assert predicates[i] == Predicate(t);
    }
    forall p | p in predicates ensures exists t :: t in tags && p == Predicate(t) {
      var i :| 0 <= i < |predicates| && predicates[i] == p;
      assert tags[i] in tags;
    }
  }

  lemma PackRenders(predicates: seq<TagPredicate>)
    ensures RenderableField(Pack(predicates)) <==> forall p :: p in predicates ==> KnownOperator(p.operator) && '\0' !in p.value
  {
    if |predicates| == 1 {
      assert predicates[0] in predicates;
    }
  }

  // Validated tags always render.
  lemma ValidCriterionRenders(c: Criterion)
    requires ValidCriterion(c)
    ensures Renderable(Encode(c))
  {
    forall key | key in Encode(c) ensures RenderableField(Encode(c)[key]) {
      var tags := WithKey(c, key);
      WithKeyMembers(c, key);
      forall p | p in Predicates(tags) ensures CanonicalTagOperator(p.operator).Some? && '\0' !in p.value {
        var i :| 0 <= i < |tags| && Predicate(tags[i]) == p;
        assert tags[i] in tags;
      }
    }
  }

  method LatestCriteriaQueries(criteria: Query) returns (r: Result<seq<Lookup>>)
    ensures r.Ok? <==> RenderableQuery(criteria)
    ensures r.Ok? ==> r.value != [] && LookupsFor(r.value, criteria)
    ensures r.Err? ==> r.status == InvalidArgument
  {
    hide RenderableQuery, LookupsFor, Minimal;
    var rendered := RenderCriteria(criteria);
    if rendered.Err? {
      return Err(InvalidArgument);
    }
    var minimal := MinimalCriteria(rendered.value);
    var lookups: seq<Lookup> := [];
    for i := 0 to |minimal|
      invariant |lookups| == i && forall j :: 0 <= j < i ==> lookups[j] == Where(minimal[j])
    {
      lookups := lookups + [Where(minimal[i])];
    }
    if lookups == [] {
      lookups := [AllRows];
    }
    LookupsMeanQuery(criteria, rendered.value, lookups);
    return Ok(lookups);
  }

  lemma LookupsMeanQuery(criteria: Query, rendered: seq<Encoded>, lookups: seq<Lookup>)
    requires forall e :: e in rendered <==> exists c :: c in criteria && c != [] && Encode(c) == e
    requires if Minimal(rendered) == [] then lookups == [AllRows]
             else |lookups| == |Minimal(rendered)| && forall j :: 0 <= j < |lookups| ==> lookups[j] == Where(Minimal(rendered)[j])
    ensures LookupsFor(lookups, criteria)
  {
    forall doc ensures (exists l :: l in lookups && LookupHolds(doc, l)) <==> QueryHolds(doc, criteria) {
      LookupsMeanQueryOn(doc, criteria, rendered, lookups);
    }
  }

  lemma WhereLookups(doc: Document, minimal: seq<Encoded>, lookups: seq<Lookup>)
    requires |lookups| == |minimal| && forall j :: 0 <= j < |lookups| ==> lookups[j] == Where(minimal[j])
    ensures (exists l :: l in lookups && LookupHolds(doc, l)) <==> exists m :: m in minimal && EncodedHolds(doc, m)
  {
    hide EncodedHolds;
    forall m | m in minimal ensures Where(m) in lookups {
      var j :| 0 <= j < |minimal| && minimal[j] == m;
      assert lookups[j] == Where(m);
    }
    forall l | l in lookups ensures l.Where? && l.criterion in minimal {
      var j :| 0 <= j < |lookups| && lookups[j] == l;
    }
  }

  // The non-empty criteria's encodings select what the query does, unless there are none.
  lemma RenderedMeansQuery(doc: Document, criteria: Query, rendered: seq<Encoded>)
    requires forall e :: e in rendered <==> exists c :: c in criteria && c != [] && Encode(c) == e
    requires rendered != []
    ensures (exists e :: e in rendered && EncodedHolds(doc, e)) <==> QueryHolds(doc, criteria)
  {
    hide Encode, EncodedHolds, CriterionHolds;
    forall c | c in criteria ensures EncodedHolds(doc, Encode(c)) <==> CriterionHolds(doc, c) {
      EncodeKeepsMeaning(doc, c);
    }
    assert rendered[0] in rendered;
  }

  lemma LookupsMeanQueryOn(doc: Document, criteria: Query, rendered: seq<Encoded>, lookups: seq<Lookup>)
    requires forall e :: e in rendered <==> exists c :: c in criteria && c != [] && Encode(c) == e
    requires if Minimal(rendered) == [] then lookups == [AllRows]
             else |lookups| == |Minimal(rendered)| && forall j :: 0 <= j < |lookups| ==> lookups[j] == Where(Minimal(rendered)[j])
    ensures (exists l :: l in lookups && LookupHolds(doc, l)) <==> QueryHolds(doc, criteria)
  {
    if rendered == [] {
      assert LookupHolds(doc, lookups[0]);
      assert forall c :: c in criteria && c != [] ==> Encode(c) in rendered;
    } else {
      hide Encode, EncodedHolds, QueryHolds, LookupHolds;
      assert Minimal(rendered) != [];
      WhereLookups(doc, Minimal(rendered), lookups);
      MinimalKeepsMeaning(doc, rendered);
      RenderedMeansQuery(doc, criteria, rendered);
    }
  }

  // ---- Reading the newest match ----

  predicate SomeLookupHolds(doc: Document, lookups: seq<Lookup>) {
    exists l :: l in lookups && LookupHolds(doc, l)
  }

  function Selecting(l: Lookup): Document -> bool {
    doc => LookupHolds(doc, l)
  }

  function SelectingAny(lookups: seq<Lookup>): Document -> bool {
    doc => SomeLookupHolds(doc, lookups)
  }

  // The newest match of either test is the later of their newest matches.
  lemma NewestOfEither(log: Log, f: Document -> bool, g: Document -> bool, either: Document -> bool)
    requires forall doc :: either(doc) <==> f(doc) || g(doc)
    ensures NewestBy(log, either) == Later(NewestBy(log, f), NewestBy(log, g))
  {
    var p, q := NewestBy(log, f), NewestBy(log, g);
    NewestIsNewest(log, f);
    NewestIsNewest(log, g);
    hide NewestBy;
    assert IsNewest(log, either, Later(p, q));
    NewestUnique(log, either, Later(p, q));
  }

  lemma NewestOfMore(log: Log, lookups: seq<Lookup>, l: Lookup)
    ensures NewestBy(log, SelectingAny(lookups + [l]))
         == Later(NewestBy(log, Selecting(l)), NewestBy(log, SelectingAny(lookups)))
  {
    hide NewestBy, LookupHolds;
    forall doc ensures SelectingAny(lookups + [l])(doc) <==> Selecting(l)(doc) || SelectingAny(lookups)(doc) {
      assert forall k :: k in lookups + [l] <==> k in lookups || k == l;
    }
    NewestOfEither(log, Selecting(l), SelectingAny(lookups), SelectingAny(lookups + [l]));
  }

  // latestPreparedCriteriaPosition: the maximum of the lookups is the newest match of any.
  method LatestPreparedPosition(log: Log, lookups: seq<Lookup>) returns (latest: Position)
    ensures latest == NewestBy(log, SelectingAny(lookups))
  {
    latest := NOT_EXISTS;
    NewestIsNewest(log, SelectingAny([]));
    for i := 0 to |lookups|
      invariant latest == NewestBy(log, SelectingAny(lookups[..i]))
    {
      assert lookups[..i + 1] == lookups[..i] + [lookups[i]];
      NewestOfMore(log, lookups[..i], lookups[i]);
      var found := NewestBy(log, Selecting(lookups[i]));
      if found.commit > latest.commit || (found.commit == latest.commit && found.prepare > latest.prepare) {
        latest := found;
      }
    }
    assert lookups[..|lookups|] == lookups;
  }

  // Pruned lookups find the newest match of the full disjunction.
  lemma {:induction false} PrunedLookupsExact(log: Log, lookups: seq<Lookup>, q: Query)
    requires LookupsFor(lookups, q)
    ensures NewestBy(log, SelectingAny(lookups)) == Newest(log, q)
  {
    forall i | 0 <= i < |log| ensures SelectingAny(lookups)(log[i].doc) == Matching(q)(log[i].doc) {
    }
    NewestDependsOnMeaning(log, SelectingAny(lookups), Matching(q));
  }

  // latestCriteriaPosition: compile, then look up.
  method LatestCriteriaPosition(log: Log, criteria: Query) returns (r: Result<Position>)
    ensures r.Ok? <==> RenderableQuery(criteria)
    ensures r.Ok? ==> r.value == Newest(log, criteria)
    ensures r.Err? ==> r.status == InvalidArgument
  {
    var lookups := LatestCriteriaQueries(criteria);
    if lookups.Err? {
      return Err(InvalidArgument);
    }
    var latest := LatestPreparedPosition(log, lookups.value);
    PrunedLookupsExact(log, lookups.value, criteria);
    return Ok(latest);
  }
}
