// Normalising the queries a save observed (orisun/consistency.go).
module ConsistencyQueries {
  import opened Common
  import opened Ordering
  import opened Text
  import opened Tags
  import opened EventLog

  // ---- Length-prefixed keys ----

  // "%d:%s" of a string.
  function Chunk(s: string): string {
    Decimal(|s|) + (":" + s)
  }

  function TagKey(t: Tag): string {
    Chunk(t.key) + (Chunk(t.operator) + Chunk(t.value))
  }

  function CriterionKey(c: Criterion): string {
    if c == [] then "" else TagKey(c[0]) + CriterionKey(c[1..])
  }

  function QueryKey(q: Query): string {
    if q == [] then "" else Chunk(CriterionKey(q[0])) + QueryKey(q[1..])
  }

  // A chunk says where it ends, so it can be taken off the front in one way only.
  lemma {:induction false} ChunkDecodes(a: string, x: string, b: string, y: string)
    requires Chunk(a) + x == Chunk(b) + y
    ensures a == b && x == y
  {
    var s := Chunk(a) + x;
    ChunkLength(a, x);
    ChunkLength(b, y);
    assert |a| == |b|;
    assert s[|Decimal(|a|)| + 1..][..|a|] == a && s[|Decimal(|a|)| + 1..][|a|..] == x;
    assert s[|Decimal(|b|)| + 1..][..|b|] == b && s[|Decimal(|b|)| + 1..][|b|..] == y;
  }

  lemma ChunkLength(a: string, x: string)
    ensures DigitRun(Chunk(a) + x) == |Decimal(|a|)|
    ensures Number((Chunk(a) + x)[..DigitRun(Chunk(a) + x)]) == |a|
  {
    DigitRunOf(Decimal(|a|), ":" + a + x);
    assert Chunk(a) + x == Decimal(|a|) + (":" + a + x);
  }

  lemma {:induction false} TagKeyDecodes(a: Tag, x: string, b: Tag, y: string)
    requires TagKey(a) + x == TagKey(b) + y
    ensures a == b && x == y
  {
    var ao, av := Chunk(a.operator), Chunk(a.value);
    var bo, bv := Chunk(b.operator), Chunk(b.value);
    Associate(Chunk(a.key), ao, av, x);
    Associate(Chunk(b.key), bo, bv, y);
    ChunkDecodes(a.key, ao + (av + x), b.key, bo + (bv + y));
    ChunkDecodes(a.operator, av + x, b.operator, bv + y);
    ChunkDecodes(a.value, x, b.value, y);
  }

  lemma Associate(a: string, b: string, c: string, d: string)
    ensures a + (b + c) + d == a + (b + (c + d))
    ensures a + (b + c) == (a + b) + c
  {
  }

  lemma {:induction false} CriterionKeyInjective(a: Criterion, b: Criterion)
    requires CriterionKey(a) == CriterionKey(b)
    ensures a == b
  {
    if a == [] {
      TagKeyNotEmpty(b);
    } else if b == [] {
      TagKeyNotEmpty(a);
    } else {
      TagKeyDecodes(a[0], CriterionKey(a[1..]), b[0], CriterionKey(b[1..]));
      CriterionKeyInjective(a[1..], b[1..]);
      assert a == [a[0]] + a[1..] && b == [b[0]] + b[1..];
    }
  }

  lemma TagKeyNotEmpty(c: Criterion)
    ensures CriterionKey(c) == "" <==> c == []
  {
  }

  // The query key determines the normalised query.
  lemma {:induction false} QueryKeyInjective(a: Query, b: Query)
    requires QueryKey(a) == QueryKey(b)
    ensures a == b
  {
    if a != [] && b != [] {
      ChunkDecodes(CriterionKey(a[0]), QueryKey(a[1..]), CriterionKey(b[0]), QueryKey(b[1..]));
      CriterionKeyInjective(a[0], b[0]);
      QueryKeyInjective(a[1..], b[1..]);
      assert a == [a[0]] + a[1..] && b == [b[0]] + b[1..];
    }
  }

  // ---- Orders on tags and criteria ----

  predicate TagLess(a: Tag, b: Tag) {
    if a.key != b.key then Less(a.key, b.key)
    else if a.operator != b.operator then Less(a.operator, b.operator)
    else Less(a.value, b.value)
  }

  predicate CriterionLess(a: Criterion, b: Criterion) {
    Less(CriterionKey(a), CriterionKey(b))
  }

  lemma {:induction false} TagLessIsStrictTotal()
    ensures StrictTotal(TagLess)
  {
    LessIsStrictTotal();
    forall a, b, c | TagLess(a, b) && TagLess(b, c) ensures TagLess(a, c) {
      TagLessTransitive(a, b, c);
    }
  }

  lemma TagLessTransitive(a: Tag, b: Tag, c: Tag)
    requires TagLess(a, b) && TagLess(b, c)
    ensures TagLess(a, c)
  {
    LessChain(a.key, b.key, c.key);
    LessChain(a.operator, b.operator, c.operator);
    LessChain(a.value, b.value, c.value);
  }

  lemma LessChain(a: string, b: string, c: string)
    ensures Less(a, b) && Less(b, c) ==> Less(a, c) && a != c
  {
    if Less(a, b) && Less(b, c) {
      LessTransitive(a, b, c);
      LessIrreflexive(a);
    }
  }

  lemma CriterionLessIsStrictTotal()
    ensures StrictTotal(CriterionLess)
  {
    LessIsStrictTotal();
    forall a, b ensures CriterionLess(a, b) || a == b || CriterionLess(b, a) {
      if CriterionKey(a) == CriterionKey(b) {
        CriterionKeyInjective(a, b);
      }
    }
  }

  // ---- The normal form ----

  // A tag with its operator spelled the canonical way; equality is the empty operator.
  function Canon(t: Tag): Tag {
    if t.operator == "eq" then t.(operator := "") else t
  }

  ghost function CanonSet(c: Criterion): set<Tag> {
    set t | t in c :: Canon(t)
  }

  ghost function QuerySet(q: Query): set<set<Tag>> {
    set c | c in q :: CanonSet(c)
  }

  ghost function NormalCriterion(c: Criterion): (n: Criterion)
    ensures Ascending(TagLess, n) && Elements(n) == CanonSet(c)
  {
    TagLessIsStrictTotal();
    Arranged(TagLess, CanonSet(c))
  }

  ghost function NormalCriteria(q: Query): set<Criterion> {
    set c | c in q :: NormalCriterion(c)
  }

  ghost function NormalQuery(q: Query): (n: Query)
    ensures Ascending(CriterionLess, n) && Elements(n) == NormalCriteria(q)
  {
    CriterionLessIsStrictTotal();
    Arranged(CriterionLess, NormalCriteria(q))
  }

  // Two queries get one key exactly when they are the same set of sets of tags.
  lemma {:induction false} KeyDecidesQueryEquality(p: Query, q: Query)
    ensures QueryKey(NormalQuery(p)) == QueryKey(NormalQuery(q)) <==> QuerySet(p) == QuerySet(q)
    ensures NormalQuery(p) == NormalQuery(q) <==> QuerySet(p) == QuerySet(q)
  {
    TagLessIsStrictTotal();
    CriterionLessIsStrictTotal();
    if QuerySet(p) == QuerySet(q) {
      NormalCriteriaFromSets(p, q);
      NormalCriteriaFromSets(q, p);
      AscendingUnique(CriterionLess, NormalQuery(p), NormalQuery(q));
    }
    if QueryKey(NormalQuery(p)) == QueryKey(NormalQuery(q)) {
      QueryKeyInjective(NormalQuery(p), NormalQuery(q));
      SetsFromNormalCriteria(p, q);
      SetsFromNormalCriteria(q, p);
    }
  }

  lemma NormalCriteriaFromSets(p: Query, q: Query)
    requires QuerySet(p) <= QuerySet(q)
    ensures NormalCriteria(p) <= NormalCriteria(q)
  {
    TagLessIsStrictTotal();
    forall c | c in p ensures NormalCriterion(c) in NormalCriteria(q) {
      assert CanonSet(c) in QuerySet(q);
      var d :| d in q && CanonSet(d) == CanonSet(c);
      AscendingUnique(TagLess, NormalCriterion(c), NormalCriterion(d));
    }
  }

  lemma SetsFromNormalCriteria(p: Query, q: Query)
    requires NormalCriteria(p) <= NormalCriteria(q)
    ensures QuerySet(p) <= QuerySet(q)
  {
    forall c | c in p ensures CanonSet(c) in QuerySet(q) {
      assert NormalCriterion(c) in NormalCriteria(q);
      var d :| d in q && NormalCriterion(d) == NormalCriterion(c);
      assert CanonSet(d) == Elements(NormalCriterion(d)) == CanonSet(c);
    }
  }

  // ---- The normal form means what the query meant ----

  lemma CanonHolds(doc: Document, t: Tag)
    ensures TagHolds(doc, Canon(t)) == TagHolds(doc, t)
  {
  }

  lemma NormalCriterionHolds(doc: Document, c: Criterion)
    ensures CriterionHolds(doc, NormalCriterion(c)) == CriterionHolds(doc, c)
    ensures NormalCriterion(c) == [] <==> c == []
  {
    var n := NormalCriterion(c);
    forall t | t in c ensures Canon(t) in n && TagHolds(doc, Canon(t)) == TagHolds(doc, t) {
      CanonHolds(doc, t);
      assert Canon(t) in Elements(n);
    }
    forall u | u in n ensures exists t :: t in c && Canon(t) == u {
      assert u in Elements(n);
    }
    assert c != [] ==> Canon(c[0]) in n;
    assert n != [] ==> n[0] in n;
  }

  lemma {:induction false} NormalQueryHolds(doc: Document, q: Query)
    ensures QueryHolds(doc, NormalQuery(q)) == QueryHolds(doc, q)
  {
    hide NormalCriterion, CriterionHolds;
    var n := NormalQuery(q);
    forall c | c in q
      ensures NormalCriterion(c) in n
      ensures CriterionHolds(doc, NormalCriterion(c)) == CriterionHolds(doc, c)
      ensures NormalCriterion(c) == [] <==> c == []
    {
      NormalCriterionHolds(doc, c);
      assert NormalCriterion(c) in Elements(n);
    }
    forall d | d in n ensures exists c :: c in q && NormalCriterion(c) == d {
      assert d in Elements(n);
    }
  }

  // ---- normalizeConsistencyQuery ----

  // One value per key among a criterion's equalities.
  predicate AgreeingEqualities(c: Criterion) {
    forall t, u :: t in c && u in c && Canon(t).operator == "" && Canon(u).operator == "" && t.key == u.key
      ==> t.value == u.value
  }

  predicate ObservableCriterion(c: Criterion) {
    c != [] && ValidCriterion(c) && AgreeingEqualities(c)
  }

  // A nil query is the empty one, a nil criterion one without tags, a nil tag an invalid one.
  predicate ObservableQuery(q: Query) {
    q != [] && forall c :: c in q ==> ObservableCriterion(c)
  }

  // What the `equalities` map holds after the tags of `c`.
  predicate EqualitiesOf(equalities: map<string, string>, c: Criterion) {
    && (forall t :: t in c && Canon(t).operator == "" ==> t.key in equalities && equalities[t.key] == t.value)
    && (forall key :: key in equalities ==> Tag(key, equalities[key], "") in c || Tag(key, equalities[key], "eq") in c)
  }

  lemma ExtendEqualities(equalities: map<string, string>, c: Criterion, t: Tag)
    requires EqualitiesOf(equalities, c) && AgreeingEqualities(c)
    ensures Canon(t).operator != "" ==> EqualitiesOf(equalities, c + [t]) && AgreeingEqualities(c + [t])
    ensures Canon(t).operator == "" && (t.key in equalities ==> equalities[t.key] == t.value) ==>
      EqualitiesOf(equalities[t.key := t.value], c + [t]) && AgreeingEqualities(c + [t])
    ensures Canon(t).operator == "" && t.key in equalities && equalities[t.key] != t.value ==>
      !AgreeingEqualities(c + [t])
  {
    var d := c + [t];
    assert t in d && forall u :: u in d <==> u in c || u == t;
    if Canon(t).operator == "" && t.key in equalities && equalities[t.key] != t.value {
      var u := if Tag(t.key, equalities[t.key], "") in c
               then Tag(t.key, equalities[t.key], "") else Tag(t.key, equalities[t.key], "eq");
      assert u in d && Canon(u).operator == "";
    }
  }

  lemma AgreementOfPrefix(c: Criterion, i: nat)
    requires i <= |c| && AgreeingEqualities(c)
    ensures AgreeingEqualities(c[..i])
  {
  }

  // The tags by identity; fails on an invalid tag or on two values for one equality.
  method CollectPredicates(c: Criterion) returns (r: Result<map<string, Tag>>)
    ensures r.Ok? <==> ValidCriterion(c) && AgreeingEqualities(c)
    ensures r.Ok? ==> (forall id :: id in r.value ==> id == TagKey(r.value[id])) && r.value.Values == CanonSet(c)
    ensures r.Err? ==> r.status == InvalidArgument
  {
    hide ValidTag, TagKey;
    var predicates: map<string, Tag> := map[];
    var equalities: map<string, string> := map[];
    for i := 0 to |c|
      invariant ValidCriterion(c[..i]) && AgreeingEqualities(c[..i]) && EqualitiesOf(equalities, c[..i])
      invariant forall id :: id in predicates ==> id == TagKey(predicates[id])
      invariant predicates.Values == CanonSet(c[..i])
    {
      var tag := c[i];
      assert tag in c && c[..i + 1] == c[..i] + [tag];
      if !ValidTag(tag) {
        return Err(InvalidArgument);
      }
      ExtendEqualities(equalities, c[..i], tag);
      if Canon(tag).operator == "" {
        if tag.key in equalities && equalities[tag.key] != tag.value {
          assert !AgreeingEqualities(c) by {
            if AgreeingEqualities(c) {
              AgreementOfPrefix(c, i + 1);
            }
          }
          return Err(InvalidArgument);
        }
        equalities := equalities[tag.key := tag.value];
      }
      AddIdentity(predicates, Canon(tag));
      CanonSetAppend(c[..i], tag);
      predicates := predicates[TagKey(Canon(tag)) := Canon(tag)];
    }
    assert c[..|c|] == c;
    return Ok(predicates);
  }

  lemma CanonSetAppend(c: Criterion, t: Tag)
    ensures CanonSet(c + [t]) == CanonSet(c) + {Canon(t)}
  {
    assert forall u :: u in c + [t] <==> u in c || u == t;
  }

  method NormalizeCriterion(c: Criterion) returns (r: Result<Criterion>)
    ensures r.Ok? <==> ObservableCriterion(c)
    ensures r.Ok? ==> r.value == NormalCriterion(c)
    ensures r.Err? ==> r.status == InvalidArgument
  {
    if c == [] {
      return Err(InvalidArgument);
    }
    var predicates := CollectPredicates(c);
    if predicates.Err? {
      return Err(InvalidArgument);
    }
    var tags := MapValues(predicates.value, TagKey);
    TagLessIsStrictTotal();
    SortSorts(TagLess, tags);
    AscendingUnique(TagLess, Sort(TagLess, tags), NormalCriterion(c));
    return Ok(Sort(TagLess, tags));
  }

  // Recording a tag under its identity overwrites nothing but the tag itself.
  lemma AddIdentity(m: map<string, Tag>, t: Tag)
    requires forall id :: id in m ==> id == TagKey(m[id])
    ensures m[TagKey(t) := t].Values == m.Values + {t}
  {
    var m' := m[TagKey(t) := t];
    assert TagKey(t) in m';
    forall v | v in m.Values ensures v in m'.Values {
      var id :| id in m && m[id] == v;
      if id == TagKey(t) {
        TagKeyDecodes(v, "", t, "");
      }
      assert id in m' && m'[id] == v;
    }
    forall v | v in m'.Values ensures v in m.Values + {t} {
      var id :| id in m' && m'[id] == v;
    }
  }

  // What `criteriaByKey` and `keys` hold after the criteria of `q`.
  ghost predicate ByKey(m: map<string, Criterion>, keys: seq<string>, q: Query) {
    && Distinct(keys) && Elements(keys) == m.Keys
    && (forall k :: k in m ==> CriterionKey(m[k]) == k)
    && m.Values == NormalCriteria(q)
  }

  lemma NormalCriteriaAppend(q: Query, c: Criterion)
    ensures NormalCriteria(q + [c]) == NormalCriteria(q) + {NormalCriterion(c)}
  {
    assert forall d :: d in q + [c] <==> d in q || d == c;
  }

  lemma ValuesOfExtension<K, V>(m: map<K, V>, k: K, v: V)
    requires k !in m
    ensures m[k := v].Values == m.Values + {v}
  {
    var m' := m[k := v];
    assert k in m' && m'[k] == v;
    forall w | w in m.Values ensures w in m'.Values {
      var j :| j in m && m[j] == w;
      assert j in m' && m'[j] == w;
    }
  }

  lemma RepeatedByKey(m: map<string, Criterion>, keys: seq<string>, q: Query, c: Criterion)
    requires ByKey(m, keys, q) && CriterionKey(NormalCriterion(c)) in m
    ensures ByKey(m, keys, q + [c])
  {
    var n, k := NormalCriterion(c), CriterionKey(NormalCriterion(c));
    NormalCriteriaAppend(q, c);
    CriterionKeyInjective(m[k], n);
    assert m[k] in m.Values;
  }

  lemma ExtendedByKey(m: map<string, Criterion>, keys: seq<string>, q: Query, c: Criterion)
    requires ByKey(m, keys, q) && CriterionKey(NormalCriterion(c)) !in m
    ensures var n, k := NormalCriterion(c), CriterionKey(NormalCriterion(c));
      ByKey(m[k := n], keys + [k], q + [c])
  {
    var n, k := NormalCriterion(c), CriterionKey(NormalCriterion(c));
    NormalCriteriaAppend(q, c);
    ValuesOfExtension(m, k, n);
    DistinctAppend(keys, k);
    assert m[k := n].Keys == m.Keys + {k};
  }

  lemma SortedByKey(m: map<string, Criterion>, keys: seq<string>, q: Query, criteria: Query)
    requires ByKey(m, keys, q)
    requires |criteria| == |Sort(Less, keys)|
    requires forall i :: 0 <= i < |criteria| ==> Sort(Less, keys)[i] in m && criteria[i] == m[Sort(Less, keys)[i]]
    ensures criteria == NormalQuery(q)
  {
    var sorted := Sort(Less, keys);
    LessIsStrictTotal();
    CriterionLessIsStrictTotal();
    SortSorts(Less, keys);
    assert Ascending(CriterionLess, criteria);
    forall v | v in m.Values ensures v in Elements(criteria) {
      var k :| k in m && m[k] == v;
      assert k in Elements(sorted);
      var i :| 0 <= i < |sorted| && sorted[i] == k;
      assert criteria[i] == v;
    }
    forall d | d in criteria ensures d in m.Values {
      var i :| 0 <= i < |criteria| && criteria[i] == d;
    }
    assert Elements(criteria) == m.Values;
    AscendingUnique(CriterionLess, criteria, NormalQuery(q));
  }

  // The normalised criteria by key, each key once; fails on the first criterion that does.
  method CollectCriteria(q: Query) returns (r: Result<(map<string, Criterion>, seq<string>)>)
    ensures r.Ok? <==> forall c :: c in q ==> ObservableCriterion(c)
    ensures r.Ok? ==> ByKey(r.value.0, r.value.1, q)
    ensures r.Err? ==> r.status == InvalidArgument
  {
    hide ObservableCriterion, NormalCriterion;
    var criteriaByKey: map<string, Criterion> := map[];
    var keys: seq<string> := [];
    for i := 0 to |q|
      invariant forall c :: c in q[..i] ==> ObservableCriterion(c)
      invariant ByKey(criteriaByKey, keys, q[..i])
    {
      assert q[i] in q && q[..i + 1] == q[..i] + [q[i]];
      var normalized := NormalizeCriterion(q[i]);
      if normalized.Err? {
        return Err(InvalidArgument);
      }
      var key := CriterionKey(normalized.value);
      if key in criteriaByKey {
        RepeatedByKey(criteriaByKey, keys, q[..i], q[i]);
      } else {
        ExtendedByKey(criteriaByKey, keys, q[..i], q[i]);
        criteriaByKey := criteriaByKey[key := normalized.value];
        keys := keys + [key];
      }
    }
    assert q[..|q|] == q;
    return Ok((criteriaByKey, keys));
  }

  // The criteria in the order of their sorted keys, and the key of the whole.
  method ListCriteria(criteriaByKey: map<string, Criterion>, sorted: seq<string>) returns (criteria: Query, queryKey: string)
    requires forall k :: k in sorted ==> k in criteriaByKey && CriterionKey(criteriaByKey[k]) == k
    ensures |criteria| == |sorted| && forall j :: 0 <= j < |sorted| ==> criteria[j] == criteriaByKey[sorted[j]]
    ensures queryKey == QueryKey(criteria)
  {
    hide CriterionKey, Chunk;
    criteria, queryKey := [], "";
    assert queryKey == QueryKey(criteria);
    hide QueryKey;
    for i := 0 to |sorted|
      invariant |criteria| == i && forall j :: 0 <= j < i ==> criteria[j] == criteriaByKey[sorted[j]]
      invariant queryKey == QueryKey(criteria)
    {
      var c := criteriaByKey[sorted[i]];
      QueryKeyAppend(criteria, c);
      criteria := criteria + [c];
      queryKey := queryKey + Chunk(sorted[i]);
    }
  }

  method NormalizeConsistencyQuery(q: Query) returns (r: Result<(Query, string)>)
    ensures r.Ok? <==> ObservableQuery(q)
    ensures r.Ok? ==> r.value == (NormalQuery(q), QueryKey(NormalQuery(q)))
    ensures r.Err? ==> r.status == InvalidArgument
  {
    hide ObservableCriterion, NormalQuery, NormalCriterion, QueryKey, CriterionKey;
    if q == [] {
      return Err(InvalidArgument);
    }
    var collected := CollectCriteria(q);
    if collected.Err? {
      return Err(InvalidArgument);
    }
    var criteriaByKey, keys := collected.value.0, collected.value.1;
    LessIsStrictTotal();
    SortSorts(Less, keys);
    var sorted := Sort(Less, keys);
    assert forall k :: k in sorted <==> k in Elements(sorted);
    var criteria, queryKey := ListCriteria(criteriaByKey, sorted);
    SortedByKey(criteriaByKey, keys, q, criteria);
    return Ok((criteria, queryKey));
  }

  lemma {:induction false} QueryKeyAppend(q: Query, c: Criterion)
    ensures QueryKey(q + [c]) == QueryKey(q) + Chunk(CriterionKey(c))
  {
    if q == [] {
      assert q + [c] == [c] && [c][1..] == [];
    } else {
      QueryKeyAppend(q[1..], c);
      assert (q + [c])[1..] == q[1..] + [c];
      Associate(Chunk(CriterionKey(q[0])), QueryKey(q[1..]), Chunk(CriterionKey(c)), "");
    }
  }

  // ---- ConsistencyChecksFromObservations ----

  const MAX_OBSERVATIONS := 1024
  const MAX_CRITERIA := 4096
  const MAX_TAGS := 16384

  // A query paired with the newest position it was seen to match. A nil observation or
  // position is one whose position is invalid.
  datatype Observation = Observation(query: Query, position: Position)

  // One normalised observation, as storage checks it.
  datatype Check = Check(criteria: Query, position: Position)

  predicate ValidPosition(p: Position) {
    p == NOT_EXISTS || (p.commit >= 0 && p.prepare >= 0)
  }

  function CriteriaCount(obs: seq<Observation>): nat {
    if obs == [] then 0 else CriteriaCount(obs[..|obs| - 1]) + |obs[|obs| - 1].query|
  }

  function TagsIn(q: Query): nat {
    if q == [] then 0 else TagsIn(q[..|q| - 1]) + |q[|q| - 1]|
  }

  function TagCount(obs: seq<Observation>): nat {
    if obs == [] then 0 else TagCount(obs[..|obs| - 1]) + TagsIn(obs[|obs| - 1].query)
  }

  ghost predicate WithinLimits(obs: seq<Observation>) {
    |obs| <= MAX_OBSERVATIONS && CriteriaCount(obs) <= MAX_CRITERIA && TagCount(obs) <= MAX_TAGS
  }

  // All the criteria of all the observations, and all their tags, one after the other.
  function Queries(obs: seq<Observation>): seq<Query> {
    seq(|obs|, i requires 0 <= i < |obs| => obs[i].query)
  }

  lemma {:induction false} TagsAreFlattened(q: Query)
    ensures TagsIn(q) == |Flatten(q)|
  {
    if q != [] {
      TagsAreFlattened(q[..|q| - 1]);
    }
  }

  lemma {:induction false} FlattenTwice(q: seq<Query>, last: Query)
    ensures |Flatten(Flatten(q + [last]))| == |Flatten(Flatten(q))| + |Flatten(last)|
  {
    FlattenAppend(q, last);
    FlattenJoined(Flatten(q), last);
  }

  lemma {:induction false} FlattenJoined<T>(a: seq<seq<T>>, b: seq<seq<T>>)
    ensures |Flatten(a + b)| == |Flatten(a)| + |Flatten(b)|
  {
    if b == [] {
      assert a + b == a;
    } else {
      assert (a + b)[..|a + b| - 1] == a + b[..|b| - 1];
      FlattenJoined(a, b[..|b| - 1]);
    }
  }

  // The limits count every criterion and every tag, of every observation, repeated or not.
  lemma {:induction false} CountsAreTotals(obs: seq<Observation>)
    ensures CriteriaCount(obs) == |Flatten(Queries(obs))|
    ensures TagCount(obs) == |Flatten(Flatten(Queries(obs)))|
  {
    hide TagsIn;
    if obs != [] {
      var init, last := obs[..|obs| - 1], obs[|obs| - 1];
      CountsAreTotals(init);
      assert Queries(obs) == Queries(init) + [last.query];
      FlattenAppend(Queries(init), last.query);
      FlattenTwice(Queries(init), last.query);
      TagsAreFlattened(last.query);
    }
  }

  // The same set of sets of tags seen at two positions.
  ghost predicate Contradict(a: Observation, b: Observation) {
    QuerySet(a.query) == QuerySet(b.query) && a.position != b.position
  }

  ghost predicate Acceptable(obs: seq<Observation>) {
    && (forall o :: o in obs ==> ValidPosition(o.position) && ObservableQuery(o.query))
    && (forall a, b :: a in obs && b in obs ==> !Contradict(a, b))
  }

  // What an observation says of a log: its query's newest match is still there.
  ghost predicate Stands(log: Log, q: Query, p: Position) {
    Newest(log, q) == p
  }

  // One check per distinct query, in the order the queries were first observed.
  ghost function DistinctChecks(obs: seq<Observation>): seq<Check> {
    if obs == [] then []
    else
      var checks, last := DistinctChecks(obs[..|obs| - 1]), obs[|obs| - 1];
      if exists k :: k in checks && k.criteria == NormalQuery(last.query) then checks
      else checks + [Check(NormalQuery(last.query), last.position)]
  }

  lemma RepeatRepresented(checks: seq<Check>, obs: seq<Observation>, o: Observation, k: Check)
    requires Represents(checks, obs) && k in checks && k.criteria == NormalQuery(o.query)
    requires forall a :: a in obs ==> !Contradict(a, o)
    ensures Represents(checks, obs + [o])
  {
    var a :| a in obs && k == Check(NormalQuery(a.query), a.position);
    KeyDecidesQueryEquality(a.query, o.query);
    assert !Contradict(a, o);
    var all := obs + [o];
    assert forall b :: b in all <==> b in obs || b == o;
  }

  lemma NewRepresented(checks: seq<Check>, obs: seq<Observation>, o: Observation)
    requires Represents(checks, obs) && forall k :: k in checks ==> k.criteria != NormalQuery(o.query)
    ensures Represents(checks + [Check(NormalQuery(o.query), o.position)], obs + [o])
  {
    hide NormalQuery;
    var all, more := obs + [o], checks + [Check(NormalQuery(o.query), o.position)];
    assert o in all && forall b :: b in all <==> b in obs || b == o;
    assert forall k :: k in more <==> k in checks || k == Check(NormalQuery(o.query), o.position);
    assert forall i :: 0 <= i < |checks| ==> checks[i] in checks;
  }

  lemma {:induction false} DistinctChecksRepresent(obs: seq<Observation>)
    requires forall a, b :: a in obs && b in obs ==> !Contradict(a, b)
    ensures Represents(DistinctChecks(obs), obs)
  {
    hide NormalQuery, Represents, Contradict;
    if obs == [] {
      NothingRepresented();
    } else {
      var init, last := obs[..|obs| - 1], obs[|obs| - 1];
      assert obs == init + [last];
      DistinctChecksRepresent(init);
      var checks := DistinctChecks(init);
      if k :| k in checks && k.criteria == NormalQuery(last.query) {
        RepeatRepresented(checks, init, last, k);
      } else {
        NewRepresented(checks, init, last);
      }
    }
  }

  lemma NothingRepresented()
    ensures Represents([], [])
  {
  }

  // Every observation is represented by a check, and every check comes from an observation.
  ghost predicate Represents(checks: seq<Check>, obs: seq<Observation>) {
    && (forall o :: o in obs ==> Check(NormalQuery(o.query), o.position) in checks)
    && (forall k :: k in checks ==> exists o :: o in obs && k == Check(NormalQuery(o.query), o.position))
    && (forall i, j :: 0 <= i < j < |checks| ==> checks[i].criteria != checks[j].criteria)
  }

  // The checks stand in the order in which their queries were first observed: those of the first
  // so many observations come first, and nothing observed later moves them.
  lemma {:induction false} ChecksInFirstSeenOrder(obs: seq<Observation>, n: nat)
    requires n <= |obs|
    ensures DistinctChecks(obs[..n]) <= DistinctChecks(obs)
  {
    hide NormalQuery;
    if n == |obs| {
      assert obs[..n] == obs;
    } else {
      assert obs[..|obs| - 1][..n] == obs[..n];
      ChecksInFirstSeenOrder(obs[..|obs| - 1], n);
    }
  }

  // On every log the checks all hold exactly when the observations all do.
  lemma {:induction false} ChecksEquivalentToObservations(log: Log, checks: seq<Check>, obs: seq<Observation>)
    requires Represents(checks, obs)
    ensures (forall k :: k in checks ==> Stands(log, k.criteria, k.position))
       <==> (forall o :: o in obs ==> Stands(log, o.query, o.position))
  {
    forall o | o in obs ensures Newest(log, NormalQuery(o.query)) == Newest(log, o.query) {
      NormalQueryNewest(log, o.query);
    }
    forall o | o in obs && !Stands(log, o.query, o.position)
      ensures exists k :: k in checks && !Stands(log, k.criteria, k.position)
    {
      var k := Check(NormalQuery(o.query), o.position);
      assert k in checks;
    }
  }

  lemma NormalQueryNewest(log: Log, q: Query)
    ensures Newest(log, NormalQuery(q)) == Newest(log, q)
  {
    forall i | 0 <= i < |log| ensures Matching(NormalQuery(q))(log[i].doc) == Matching(q)(log[i].doc) {
      NormalQueryHolds(log[i].doc, q);
    }
    NewestDependsOnMeaning(log, Matching(NormalQuery(q)), Matching(q));
  }

  // Observations rejected as contradictory cannot both hold on any log.
  lemma {:induction false} ContradictionsNeverHold(log: Log, a: Observation, b: Observation)
    requires Contradict(a, b)
    ensures !(Stands(log, a.query, a.position) && Stands(log, b.query, b.position))
  {
    KeyDecidesQueryEquality(a.query, b.query);
    QueryKeyInjective(NormalQuery(a.query), NormalQuery(b.query));
    NormalQueryNewest(log, a.query);
    NormalQueryNewest(log, b.query);
  }

  lemma {:induction false} CountsGrow(obs: seq<Observation>, i: nat)
    requires i <= |obs|
    ensures CriteriaCount(obs[..i]) <= CriteriaCount(obs) && TagCount(obs[..i]) <= TagCount(obs)
  {
    if i < |obs| {
      CountsGrow(obs[..|obs| - 1], i);
      assert obs[..|obs| - 1][..i] == obs[..i];
    } else {
      assert obs[..i] == obs;
    }
  }

  lemma {:induction false} TagsGrow(q: Query, j: nat)
    requires j <= |q|
    ensures TagsIn(q[..j]) <= TagsIn(q)
  {
    if j < |q| {
      TagsGrow(q[..|q| - 1], j);
      assert q[..|q| - 1][..j] == q[..j];
    } else {
      assert q[..j] == q;
    }
  }

  // The running tag total, or an error as soon as it passes the limit.
  method AddTags(totalTags: nat, q: Query) returns (r: Result<nat>)
    requires totalTags <= MAX_TAGS
    ensures r.Ok? <==> totalTags + TagsIn(q) <= MAX_TAGS
    ensures r.Ok? ==> r.value == totalTags + TagsIn(q)
  {
    var total := totalTags;
    for j := 0 to |q|
      invariant total == totalTags + TagsIn(q[..j]) <= MAX_TAGS
    {
      assert q[..j + 1][..j] == q[..j];
      TagsGrow(q, j + 1);
      total := total + |q[j]|;
      if total > MAX_TAGS {
        return Err(InvalidArgument);
      }
    }
    assert q[..|q|] == q;
    return Ok(total);
  }

  // What `seen` holds beside the checks collected so far.
  ghost predicate SeenOf(seen: map<string, Position>, checks: seq<Check>) {
    && (forall k :: k in checks ==> QueryKey(k.criteria) in seen && seen[QueryKey(k.criteria)] == k.position)
    && (forall key :: key in seen ==> exists k :: k in checks && QueryKey(k.criteria) == key)
  }

  lemma SeenDecides(seen: map<string, Position>, checks: seq<Check>, n: Query)
    requires SeenOf(seen, checks)
    ensures QueryKey(n) in seen <==> exists k :: k in checks && k.criteria == n
    ensures QueryKey(n) in seen ==> Check(n, seen[QueryKey(n)]) in checks
  {
    if QueryKey(n) in seen {
      var k :| k in checks && QueryKey(k.criteria) == QueryKey(n);
      QueryKeyInjective(k.criteria, n);
      assert k == Check(n, seen[QueryKey(n)]);
    }
  }

  // A repeated query at another position contradicts the observation it repeats.
  lemma RepeatContradicts(obs: seq<Observation>, i: nat, p: Position)
    requires i < |obs| && p != obs[i].position
    requires Represents(DistinctChecks(obs[..i]), obs[..i])
    requires Check(NormalQuery(obs[i].query), p) in DistinctChecks(obs[..i])
    ensures !Acceptable(obs)
  {
    var o :| o in obs[..i] && Check(NormalQuery(obs[i].query), p) == Check(NormalQuery(o.query), o.position);
    KeyDecidesQueryEquality(o.query, obs[i].query);
    assert o in obs && obs[i] in obs && Contradict(o, obs[i]);
  }

  lemma NoNewContradiction(obs: seq<Observation>, i: nat)
    requires i < |obs|
    requires forall a, b :: a in obs[..i] && b in obs[..i] ==> !Contradict(a, b)
    requires forall k :: k in DistinctChecks(obs[..i]) && k.criteria == NormalQuery(obs[i].query) ==> k.position == obs[i].position
    ensures forall a, b :: a in obs[..i + 1] && b in obs[..i + 1] ==> !Contradict(a, b)
  {
    assert obs[..i + 1] == obs[..i] + [obs[i]];
    DistinctChecksRepresent(obs[..i]);
    forall a | a in obs[..i] ensures !Contradict(a, obs[i]) && !Contradict(obs[i], a) {
      KeyDecidesQueryEquality(a.query, obs[i].query);
      if QuerySet(a.query) == QuerySet(obs[i].query) {
        QueryKeyInjective(NormalQuery(a.query), NormalQuery(obs[i].query));
      }
      assert Check(NormalQuery(a.query), a.position) in DistinctChecks(obs[..i]);
    }
  }

  lemma PrefixOf(obs: seq<Observation>, i: nat)
    requires i < |obs|
    ensures obs[i] in obs && obs[..i + 1][..i] == obs[..i]
    ensures forall o :: o in obs[..i + 1] <==> o in obs[..i] || o == obs[i]
    ensures CriteriaCount(obs[..i + 1]) == CriteriaCount(obs[..i]) + |obs[i].query|
    ensures TagCount(obs[..i + 1]) == TagCount(obs[..i]) + TagsIn(obs[i].query)
  {
    assert obs[..i + 1] == obs[..i] + [obs[i]];
    assert obs[..i + 1][..i] == obs[..i];
  }

  ghost predicate Collected(checks: seq<Check>, seen: map<string, Position>, obs: seq<Observation>) {
    Acceptable(obs) && checks == DistinctChecks(obs) && SeenOf(seen, checks)
  }

  lemma CollectedRepeat(checks: seq<Check>, seen: map<string, Position>, obs: seq<Observation>, i: nat)
    requires i < |obs| && Collected(checks, seen, obs[..i])
    requires ValidPosition(obs[i].position) && ObservableQuery(obs[i].query)
    requires QueryKey(NormalQuery(obs[i].query)) in seen
    requires seen[QueryKey(NormalQuery(obs[i].query))] == obs[i].position
    ensures Collected(checks, seen, obs[..i + 1])
  {
    hide NormalQuery, Contradict, SeenOf, ObservableQuery, Represents, QueryKey;
    PrefixOf(obs, i);
    DistinctChecksRepresent(obs[..i]);
    SeenDecides(seen, checks, NormalQuery(obs[i].query));
    RepeatIsUnique(checks, obs[..i], NormalQuery(obs[i].query), obs[i].position);
    NoNewContradiction(obs, i);
  }

  lemma RepeatIsUnique(checks: seq<Check>, obs: seq<Observation>, n: Query, p: Position)
    requires Represents(checks, obs) && Check(n, p) in checks
    ensures forall k :: k in checks && k.criteria == n ==> k.position == p
  {
  }

  lemma CollectedNew(checks: seq<Check>, seen: map<string, Position>, obs: seq<Observation>, i: nat)
    requires i < |obs| && Collected(checks, seen, obs[..i])
    requires ValidPosition(obs[i].position) && ObservableQuery(obs[i].query)
    requires QueryKey(NormalQuery(obs[i].query)) !in seen
    ensures var n, p := NormalQuery(obs[i].query), obs[i].position;
      Collected(checks + [Check(n, p)], seen[QueryKey(n) := p], obs[..i + 1])
  {
    hide NormalQuery, Contradict, SeenOf, ObservableQuery, QueryKey;
    var n, p := NormalQuery(obs[i].query), obs[i].position;
    PrefixOf(obs, i);
    SeenDecides(seen, checks, n);
    NoNewContradiction(obs, i);
    SeenExtends(seen, checks, Check(n, p));
    assert obs[..i + 1][|obs[..i + 1]| - 1] == obs[i];
  }

  lemma CollectedContradiction(checks: seq<Check>, seen: map<string, Position>, obs: seq<Observation>, i: nat)
    requires i < |obs| && Collected(checks, seen, obs[..i])
    requires QueryKey(NormalQuery(obs[i].query)) in seen
    requires seen[QueryKey(NormalQuery(obs[i].query))] != obs[i].position
    ensures !Acceptable(obs)
  {
    SeenDecides(seen, checks, NormalQuery(obs[i].query));
    DistinctChecksRepresent(obs[..i]);
    RepeatContradicts(obs, i, seen[QueryKey(NormalQuery(obs[i].query))]);
  }

  // Looks one valid observation up by its key: a repeat is dropped, or rejected at another position.
  method RecordObservation(o: Observation, checks: seq<Check>, seen: map<string, Position>, ghost obs: seq<Observation>, ghost i: nat)
    returns (r: Result<(seq<Check>, map<string, Position>)>)
    requires i < |obs| && o == obs[i] && ValidPosition(o.position)
    requires Collected(checks, seen, obs[..i])
    ensures r.Ok? ==> Collected(r.value.0, r.value.1, obs[..i + 1])
    ensures r.Err? ==> !Acceptable(obs)
  {
    var normalized := NormalizeConsistencyQuery(o.query);
    if normalized.Err? {
      return Err(InvalidArgument);
    }
    var criteria, key := normalized.value.0, normalized.value.1;
    if key in seen {
      if seen[key] != o.position {
        CollectedContradiction(checks, seen, obs, i);
        return Err(InvalidArgument);
      }
      CollectedRepeat(checks, seen, obs, i);
      return Ok((checks, seen));
    }
    CollectedNew(checks, seen, obs, i);
    return Ok((checks + [Check(criteria, o.position)], seen[key := o.position]));
  }

  lemma SeenExtends(seen: map<string, Position>, checks: seq<Check>, k: Check)
    requires SeenOf(seen, checks) && QueryKey(k.criteria) !in seen
    ensures SeenOf(seen[QueryKey(k.criteria) := k.position], checks + [k])
  {
    hide QueryKey;
    var all := checks + [k];
    assert k in all && forall j :: j in all <==> j in checks || j == k;
  }

  method ConsistencyChecksFromObservations(obs: seq<Observation>) returns (r: Result<seq<Check>>)
    ensures r.Ok? <==> WithinLimits(obs) && Acceptable(obs)
    ensures r.Ok? ==> r.value == DistinctChecks(obs) && Represents(r.value, obs)
    ensures r.Err? ==> r.status == InvalidArgument
  {
    if |obs| > MAX_OBSERVATIONS {
      return Err(InvalidArgument);
    }
    var checks: seq<Check> := [];
    var seen: map<string, Position> := map[];
    var totalCriteria, totalTags := 0, 0;
    for i := 0 to |obs|
      invariant totalCriteria == CriteriaCount(obs[..i]) <= MAX_CRITERIA
      invariant totalTags == TagCount(obs[..i]) <= MAX_TAGS
      invariant Collected(checks, seen, obs[..i])
    {
      PrefixOf(obs, i);
      CountsGrow(obs, i + 1);
      if !ValidPosition(obs[i].position) {
        return Err(InvalidArgument);
      }
      totalCriteria := totalCriteria + |obs[i].query|;
      if totalCriteria > MAX_CRITERIA {
        return Err(InvalidArgument);
      }
      var total := AddTags(totalTags, obs[i].query);
      if total.Err? {
        return Err(InvalidArgument);
      }
      totalTags := total.value;
      var recorded := RecordObservation(obs[i], checks, seen, obs, i);
      if recorded.Err? {
        return Err(InvalidArgument);
      }
      checks, seen := recorded.value.0, recorded.value.1;
    }
    assert obs[..|obs|] == obs;
    DistinctChecksRepresent(obs);
    return Ok(checks);
  }
}
