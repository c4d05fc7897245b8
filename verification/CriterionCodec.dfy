// The durable encoding of a criterion (orisun/query_predicates.go).
module CriterionCodec {
  import opened Common
  import opened Ordering
  import opened Text
  import opened Tags
  import opened ConsistencyQueries

  datatype TagPredicate = TagPredicate(operator: string, value: string)

  // A field of an encoded criterion: a bare string is equality, an array a conjunction.
  // Anything else a stored document could hold does not decode.
  datatype FieldValue =
    | Equality(text: string)
    | Conjunction(predicates: seq<TagPredicate>)
    | Malformed

  type Encoded = map<string, FieldValue>

  // ---- Stable order by key ----

  function WithKey(tags: Criterion, key: string): Criterion {
    if tags == [] then []
    else WithKey(tags[..|tags| - 1], key) + (if tags[|tags| - 1].key == key then [tags[|tags| - 1]] else [])
  }

  ghost predicate KeysAscend(tags: Criterion) {
    forall i, j :: 0 <= i < j < |tags| ==> tags[i].key == tags[j].key || Less(tags[i].key, tags[j].key)
  }

  // `b` is `a` stably ordered by key.
  ghost predicate StablyOrdered(a: Criterion, b: Criterion) {
    KeysAscend(b) && forall key :: WithKey(b, key) == WithKey(a, key)
  }

  lemma {:induction false} WithKeyAppend(a: Criterion, b: Criterion, key: string)
    ensures WithKey(a + b, key) == WithKey(a, key) + WithKey(b, key)
  {
    if b == [] {
      assert a + b == a;
    } else {
      var init, last := b[..|b| - 1], b[|b| - 1];
      WithKeyAppend(a, init, key);
      assert (a + b)[..|a + b| - 1] == a + init && (a + b)[|a + b| - 1] == last;
      Associative(WithKey(a, key), WithKey(init, key), if last.key == key then [last] else []);
    }
  }

  lemma {:induction false} WithKeyMembers(tags: Criterion, key: string)
    ensures forall t :: t in WithKey(tags, key) <==> t in tags && t.key == key
  {
    if tags != [] {
      var init, last := tags[..|tags| - 1], tags[|tags| - 1];
      assert tags == init + [last];
      WithKeyMembers(init, key);
    }
  }

  lemma {:induction false} WithKeyAll(tags: Criterion, key: string)
    requires forall t :: t in tags ==> t.key == key
    ensures WithKey(tags, key) == tags
  {
    if tags != [] {
      var init, last := tags[..|tags| - 1], tags[|tags| - 1];
      assert tags == init + [last] && last in tags && forall t :: t in init ==> t in tags;
      WithKeyAll(init, key);
    }
  }

  lemma WithKeyNone(tags: Criterion, key: string)
    requires forall t :: t in tags ==> t.key != key
    ensures WithKey(tags, key) == []
  {
    WithKeyMembers(tags, key);
    assert WithKey(tags, key) != [] ==> WithKey(tags, key)[0] in WithKey(tags, key);
  }

  // The stable order is unique, so StablyOrdered says all there is to say.
  lemma {:induction false} StableOrderUnique(a: Criterion, b: Criterion)
    requires KeysAscend(a) && KeysAscend(b)
    requires forall key :: WithKey(a, key) == WithKey(b, key)
    ensures a == b
  {
    if a == [] {
      if b != [] {
        var _ := LastAppears(b, a);
        assert false;
      }
    } else {
      var _ := LastAppears(a, b);
      LastKeysAgree(a, b);
      var x, y := a[|a| - 1], b[|b| - 1];
      var a', b' := a[..|a| - 1], b[..|b| - 1];
      assert WithKey(a, x.key) == WithKey(b, x.key);
      LastInjective(WithKey(a', x.key), x, WithKey(b', x.key), y);
      forall key ensures WithKey(a', key) == WithKey(b', key) {
        assert key != x.key ==> WithKey(a, key) == WithKey(a', key) && WithKey(b, key) == WithKey(b', key);
      }
      StableOrderUnique(a', b');
      assert a == a' + [x] && b == b' + [y];
    }
  }

  lemma LastAppears(a: Criterion, b: Criterion) returns (j: nat)
    requires a != [] && WithKey(a, a[|a| - 1].key) == WithKey(b, a[|a| - 1].key)
    ensures j < |b| && b[j] == a[|a| - 1]
  {
    var last := a[|a| - 1];
    WithKeyMembers(a, last.key);
    WithKeyMembers(b, last.key);
    assert last in WithKey(b, last.key);
    j :| 0 <= j < |b| && b[j] == last;
  }

  lemma UpToLast(b: Criterion, j: nat)
    requires KeysAscend(b) && j < |b|
    ensures b[j].key == b[|b| - 1].key || Less(b[j].key, b[|b| - 1].key)
  {
    hide Less;
  }

  lemma LastKeysAgree(a: Criterion, b: Criterion)
    requires a != [] && b != [] && KeysAscend(a) && KeysAscend(b)
    requires WithKey(a, a[|a| - 1].key) == WithKey(b, a[|a| - 1].key)
    requires WithKey(a, b[|b| - 1].key) == WithKey(b, b[|b| - 1].key)
    ensures a[|a| - 1].key == b[|b| - 1].key
  {
    hide WithKey, Less, KeysAscend;
    var j := LastAppears(a, b);
    var i := LastAppears(b, a);
    UpToLast(b, j);
    UpToLast(a, i);
    LessChain(a[|a| - 1].key, b[|b| - 1].key, a[|a| - 1].key);
  }

  // ---- EncodeCriterion ----

  function Predicate(t: Tag): TagPredicate {
    TagPredicate(if t.operator == "" then "eq" else t.operator, t.value)
  }

  function Predicates(tags: Criterion): seq<TagPredicate> {
    seq(|tags|, i requires 0 <= i < |tags| => Predicate(tags[i]))
  }

  function Pack(predicates: seq<TagPredicate>): FieldValue {
    if |predicates| == 1 && predicates[0].operator == "eq" then Equality(predicates[0].value)
    else Conjunction(predicates)
  }

  ghost function KeysOf(tags: Criterion): set<string> {
    set t | t in tags :: t.key
  }

  // Every key with its comparisons in the order they were given.
  ghost function Encode(tags: Criterion): Encoded {
    map key | key in KeysOf(tags) :: Pack(Predicates(WithKey(tags, key)))
  }

  // What `fields` holds after the tags of a list.
  ghost predicate FieldsOf(fields: map<string, seq<TagPredicate>>, tags: Criterion) {
    && fields.Keys == KeysOf(tags)
    && forall key :: key in fields ==> fields[key] == Predicates(WithKey(tags, key))
  }

  lemma KeysOfAppend(tags: Criterion, t: Tag)
    ensures KeysOf(tags + [t]) == KeysOf(tags) + {t.key}
  {
    assert forall u :: u in tags + [t] <==> u in tags || u == t;
  }

  lemma PredicatesAppend(tags: Criterion, t: Tag)
    ensures Predicates(tags + [t]) == Predicates(tags) + [Predicate(t)]
  {
  }

  lemma WithKeyStep(tags: Criterion, t: Tag, key: string)
    ensures WithKey(tags + [t], key) == if t.key == key then WithKey(tags, key) + [t] else WithKey(tags, key)
  {
    assert (tags + [t])[..|tags|] == tags;
  }

  lemma KeyAbsent(tags: Criterion, key: string)
    requires key !in KeysOf(tags)
    ensures WithKey(tags, key) == []
  {
    assert forall t :: t in tags ==> t.key in KeysOf(tags);
    WithKeyNone(tags, key);
  }

  lemma FieldsExtend(fields: map<string, seq<TagPredicate>>, tags: Criterion, t: Tag)
    requires FieldsOf(fields, tags)
    ensures var old' := if t.key in fields then fields[t.key] else [];
      FieldsOf(fields[t.key := old' + [Predicate(t)]], tags + [t])
  {
    hide WithKey, Predicates, KeysOf, Predicate;
    KeysOfAppend(tags, t);
    PredicatesAppend(WithKey(tags, t.key), t);
    if t.key !in fields {
      KeyAbsent(tags, t.key);
      NoPredicates();
    }
    forall key ensures WithKey(tags + [t], key) == if t.key == key then WithKey(tags, key) + [t] else WithKey(tags, key) {
      WithKeyStep(tags, t, key);
    }
  }

  lemma NoPredicates()
    ensures Predicates([]) == []
  {
  }

  method EncodeCriterion(tags: Criterion) returns (result: Encoded)
    ensures result == Encode(tags)
  {
    hide WithKey, Predicates, KeysOf, Pack, FieldsOf;
    var fields: map<string, seq<TagPredicate>> := map[];
    NoFields();
    for i := 0 to |tags|
      invariant FieldsOf(fields, tags[..i])
    {
      var tag := tags[i];
      FieldsExtend(fields, tags[..i], tag);
      assert tags[..i + 1] == tags[..i] + [tag];
      var op := if tag.operator == "" then "eq" else tag.operator;
      fields := fields[tag.key := (if tag.key in fields then fields[tag.key] else []) + [TagPredicate(op, tag.value)]];
    }
    assert tags[..|tags|] == tags;
    PackedFields(fields, tags);
    result := map key | key in fields :: Pack(fields[key]);
  }

  lemma NoFields()
    ensures FieldsOf(map[], [])
  {
  }

  lemma PackedFields(fields: map<string, seq<TagPredicate>>, tags: Criterion)
    requires FieldsOf(fields, tags)
    ensures (map key | key in fields :: Pack(fields[key])) == Encode(tags)
  {
    hide WithKey, Predicates, Pack;
  }

  // ---- DecodeCriterion ----

  function DecodeTagPredicates(value: FieldValue): Result<seq<TagPredicate>> {
    match value
    case Equality(text) => Ok([TagPredicate("eq", text)])
    case Conjunction(predicates) => if predicates == [] then Err(InvalidArgument) else Ok(predicates)
    case Malformed => Err(InvalidArgument)
  }

  function TagOf(key: string, p: TagPredicate): Tag {
    Tag(key, p.value, if p.operator == "eq" then "" else p.operator)
  }

  function TagsOf(key: string, predicates: seq<TagPredicate>): Criterion {
    seq(|predicates|, i requires 0 <= i < |predicates| => TagOf(key, predicates[i]))
  }

  predicate DecodableField(key: string, value: FieldValue) {
    && DecodeTagPredicates(value).Ok?
    && forall p :: p in DecodeTagPredicates(value).value ==> ValidTag(Tag(key, p.value, p.operator))
  }

  predicate Decodable(fields: Encoded) {
    forall key :: key in fields ==> DecodableField(key, fields[key])
  }

  function TagsAt(fields: Encoded, key: string): Criterion {
    if key in fields && DecodableField(key, fields[key]) then TagsOf(key, DecodeTagPredicates(fields[key]).value) else []
  }

  // The tags of the listed fields, one field after the other.
  function FieldTags(fields: Encoded, keys: seq<string>): Criterion {
    if keys == [] then []
    else FieldTags(fields, keys[..|keys| - 1]) + TagsAt(fields, keys[|keys| - 1])
  }

  ghost function SortedKeys(fields: Encoded): (keys: seq<string>)
    ensures Ascending(Less, keys) && Elements(keys) == fields.Keys
  {
    LessIsStrictTotal();
    Arranged(Less, fields.Keys)
  }

  ghost function Decode(fields: Encoded): Result<Criterion> {
    if Decodable(fields) then Ok(FieldTags(fields, SortedKeys(fields))) else Err(InvalidArgument)
  }

  // One of the operators there are, the empty one standing for equality.
  predicate KnownOperator(operator: string) {
    operator in {"", "eq", "ne", "gt", "gte", "lt", "lte"}
  }

  // A field that decodes: a name, and a text or some known comparisons, without a NUL in any.
  predicate WellWritten(key: string, value: FieldValue) {
    && key != "" && '\0' !in key
    && match value
       case Equality(text) => '\0' !in text
       case Conjunction(predicates) => predicates != [] && forall p :: p in predicates ==> KnownOperator(p.operator) && '\0' !in p.value
       case Malformed => false
  }

  // A stored criterion decodes exactly when every field is well written.
  lemma {:induction false} DecodesExactlyWhen(fields: Encoded)
    ensures Decode(fields).Ok? <==> forall key :: key in fields ==> WellWritten(key, fields[key])
  {
    forall key | key in fields ensures DecodableField(key, fields[key]) <==> WellWritten(key, fields[key]) {
      FieldDecodesExactlyWhen(key, fields[key]);
    }
    hide DecodableField, WellWritten;
  }

  lemma FieldDecodesExactlyWhen(key: string, value: FieldValue)
    ensures DecodableField(key, value) <==> WellWritten(key, value)
  {
    if value.Conjunction? && value.predicates != [] {
      assert value.predicates[0] in value.predicates;
    }
  }

  method MapKeys(fields: Encoded) returns (keys: seq<string>)
    ensures Distinct(keys) && Elements(keys) == fields.Keys
  {
    keys := [];
    var remaining := fields.Keys;
    while remaining != {}
      invariant remaining <= fields.Keys
      invariant Distinct(keys) && Elements(keys) == fields.Keys - remaining
      decreases |remaining|
    {
      var key :| key in remaining;
      DistinctAppend(keys, key);
      keys := keys + [key];
      remaining := remaining - {key};
    }
  }

  method DecodeField(key: string, value: FieldValue) returns (r: Result<Criterion>)
    ensures r.Ok? <==> DecodableField(key, value)
    ensures r.Ok? ==> r.value == TagsOf(key, DecodeTagPredicates(value).value)
    ensures r.Err? ==> r.status == InvalidArgument
  {
    var decoded := DecodeTagPredicates(value);
    if decoded.Err? {
      return Err(InvalidArgument);
    }
    var predicates, tags: Criterion := decoded.value, [];
    for i := 0 to |predicates|
      invariant tags == TagsOf(key, predicates[..i])
      invariant forall p :: p in predicates[..i] ==> ValidTag(Tag(key, p.value, p.operator))
    {
      var p := predicates[i];
      assert p in predicates && predicates[..i + 1] == predicates[..i] + [p];
      if !ValidTag(Tag(key, p.value, p.operator)) {
        return Err(InvalidArgument);
      }
      var op := if p.operator == "eq" then "" else p.operator;
      tags := tags + [Tag(key, p.value, op)];
    }
    assert predicates[..|predicates|] == predicates;
    return Ok(tags);
  }

  // The tags of the listed fields in turn, or the first field's error.
  method DecodeFields(fields: Encoded, keys: seq<string>) returns (r: Result<Criterion>)
    requires forall key :: key in keys ==> key in fields
    ensures r.Ok? <==> forall key :: key in keys ==> DecodableField(key, fields[key])
    ensures r.Ok? ==> r.value == FieldTags(fields, keys)
    ensures r.Err? ==> r.status == InvalidArgument
  {
    var tags: Criterion := [];
    for i := 0 to |keys|
      invariant forall key :: key in keys[..i] ==> DecodableField(key, fields[key])
      invariant tags == FieldTags(fields, keys[..i])
    {
      assert keys[i] in keys && keys[..i + 1][..i] == keys[..i];
      var field := DecodeField(keys[i], fields[keys[i]]);
      if field.Err? {
        return Err(InvalidArgument);
      }
      tags := tags + field.value;
    }
    assert keys[..|keys|] == keys;
    return Ok(tags);
  }

  method DecodeCriterion(fields: Encoded) returns (r: Result<Criterion>)
    ensures r == Decode(fields)
  {
    var keys := MapKeys(fields);
    LessIsStrictTotal();
    SortSorts(Less, keys);
    keys := Sort(Less, keys);
    AscendingUnique(Less, keys, SortedKeys(fields));
    assert forall key :: key in keys <==> key in Elements(keys);
    r := DecodeFields(fields, keys);
  }

  // ---- Round trip ----

  function CanonAll(tags: Criterion): Criterion {
    seq(|tags|, i requires 0 <= i < |tags| => Canon(tags[i]))
  }

  lemma {:induction false} WithKeyOfCanon(tags: Criterion, key: string)
    ensures WithKey(CanonAll(tags), key) == CanonAll(WithKey(tags, key))
  {
    if tags != [] {
      var init := tags[..|tags| - 1];
      WithKeyOfCanon(init, key);
      assert CanonAll(tags)[..|tags| - 1] == CanonAll(init);
    }
  }

  // A field decodes to the tags it was packed from.
  lemma UnpackPacked(tags: Criterion, key: string)
    requires tags != [] && forall t :: t in tags ==> ValidTag(t) && t.key == key
    ensures DecodableField(key, Pack(Predicates(tags)))
    ensures TagsOf(key, DecodeTagPredicates(Pack(Predicates(tags))).value) == CanonAll(tags)
  {
    var predicates := Predicates(tags);
    var unpacked := DecodeTagPredicates(Pack(predicates)).value;
    assert unpacked == predicates;
    forall p | p in unpacked ensures ValidTag(Tag(key, p.value, p.operator)) {
      var i :| 0 <= i < |predicates| && predicates[i] == p;
      assert tags[i] in tags;
    }
    assert forall i :: 0 <= i < |tags| ==> tags[i] in tags && TagOf(key, predicates[i]) == Canon(tags[i]);
  }

  lemma EncodeDecodable(tags: Criterion)
    requires ValidCriterion(tags)
    ensures Decodable(Encode(tags))
    ensures forall key :: key in Encode(tags) ==>
      TagsOf(key, DecodeTagPredicates(Encode(tags)[key]).value) == CanonAll(WithKey(tags, key))
  {
    forall key | key in Encode(tags)
      ensures DecodableField(key, Encode(tags)[key])
      ensures TagsOf(key, DecodeTagPredicates(Encode(tags)[key]).value) == CanonAll(WithKey(tags, key))
    {
      WithKeyMembers(tags, key);
      var t :| t in tags && t.key == key;
      assert t in WithKey(tags, key);
      UnpackPacked(WithKey(tags, key), key);
    }
  }

  lemma AppendField(before: Criterion, tail: Criterion, last: string)
    requires KeysAscend(before) && forall t :: t in before ==> Less(t.key, last)
    requires forall t :: t in tail ==> t.key == last
    ensures KeysAscend(before + tail)
    ensures forall key :: WithKey(before + tail, key) == if key == last then tail else WithKey(before, key)
  {
    assert forall i :: 0 <= i < |before| ==> before[i] in before;
    assert forall i :: 0 <= i < |tail| ==> tail[i] in tail;
    LessIrreflexive(last);
    forall key ensures WithKey(before + tail, key) == if key == last then tail else WithKey(before, key) {
      WithKeyAppend(before, tail, key);
      if key == last {
        WithKeyNone(before, last);
        WithKeyAll(tail, last);
      } else {
        WithKeyNone(tail, key);
      }
    }
  }

  lemma TagsAtKey(fields: Encoded, key: string)
    ensures forall t :: t in TagsAt(fields, key) ==> t.key == key
  {
  }

  lemma AscendingInit(init: seq<string>, last: string)
    requires Ascending(Less, init + [last])
    ensures Ascending(Less, init) && last !in init && forall key :: key in init ==> Less(key, last)
  {
    hide Less;
    var keys := init + [last];
    assert forall i :: 0 <= i < |init| ==> keys[i] == init[i];
    assert keys[|init|] == last;
    LessIrreflexive(last);
  }

  // The tags of some fields, kept together in key order.
  ghost predicate Grouped(tags: Criterion, fields: Encoded, keys: seq<string>) {
    && KeysAscend(tags)
    && (forall t :: t in tags ==> t.key in keys)
    && (forall key :: WithKey(tags, key) == if key in keys then TagsAt(fields, key) else [])
  }

  lemma GroupedAppend(before: Criterion, fields: Encoded, init: seq<string>, last: string)
    requires Grouped(before, fields, init) && last !in init && forall key :: key in init ==> Less(key, last)
    ensures Grouped(before + TagsAt(fields, last), fields, init + [last])
  {
    hide WithKey, TagsAt, Less, KeysAscend;
    TagsAtKey(fields, last);
    AppendField(before, TagsAt(fields, last), last);
  }

  // Concatenating fields in ascending key order keeps each field's tags together and in order.
  lemma {:induction false} FieldTagsOrdered(fields: Encoded, keys: seq<string>)
    requires Ascending(Less, keys)
    ensures Grouped(FieldTags(fields, keys), fields, keys)
  {
    if keys != [] {
      var init, last := keys[..|keys| - 1], keys[|keys| - 1];
      hide Grouped, TagsAt, Less, Ascending;
      assert keys == init + [last];
      AscendingInit(init, last);
      FieldTagsOrdered(fields, init);
      GroupedAppend(FieldTags(fields, init), fields, init, last);
    }
  }

  // Decoding an encoded criterion gives the same tags, stably ordered by key, with
  // equality written as the empty operator.
  lemma {:induction false} RoundTrip(tags: Criterion)
    requires ValidCriterion(tags)
    ensures Decode(Encode(tags)).Ok? && StablyOrdered(CanonAll(tags), Decode(Encode(tags)).value)
  {
    var fields, keys := Encode(tags), SortedKeys(Encode(tags));
    EncodeDecodable(tags);
    assert forall key :: key in keys <==> key in Elements(keys);
    FieldTagsOrdered(fields, keys);
    forall key ensures WithKey(FieldTags(fields, keys), key) == WithKey(CanonAll(tags), key) {
      WithKeyOfCanon(tags, key);
      if key !in keys {
        assert key !in KeysOf(tags);
        WithKeyNone(tags, key);
      }
    }
  }

  // A criterion already in normal form comes back exactly as it went in.
  lemma {:induction false} RoundTripNormal(c: Criterion)
    requires ValidCriterion(c)
    requires Ascending(TagLess, c) && forall t :: t in c ==> Canon(t) == t
    ensures Decode(Encode(c)) == Ok(c)
  {
    RoundTrip(c);
    assert CanonAll(c) == c by {
      assert forall i :: 0 <= i < |c| ==> c[i] in c;
    }
    assert KeysAscend(c);
    StableOrderUnique(c, Decode(Encode(c)).value);
  }

  // ---- Meaning ----

  predicate FieldHolds(doc: Document, key: string, value: FieldValue) {
    match value
    case Equality(text) => Holds(doc, key, "eq", text)
    case Conjunction(predicates) => forall p :: p in predicates ==> Holds(doc, key, p.operator, p.value)
    case Malformed => false
  }

  // The WHERE clause rendered from an encoded criterion.
  predicate EncodedHolds(doc: Document, fields: Encoded) {
    forall key :: key in fields ==> FieldHolds(doc, key, fields[key])
  }

  lemma PredicateHolds(doc: Document, t: Tag)
    ensures Holds(doc, t.key, Predicate(t).operator, Predicate(t).value) == TagHolds(doc, t)
  {
  }

  lemma PackHolds(doc: Document, key: string, predicates: seq<TagPredicate>)
    ensures FieldHolds(doc, key, Pack(predicates)) <==> forall p :: p in predicates ==> Holds(doc, key, p.operator, p.value)
  {
    hide Holds;
    if |predicates| == 1 {
      assert predicates[0] in predicates;
      assert forall p :: p in predicates ==> p == predicates[0];
    }
  }

  lemma PredicatesHold(doc: Document, tags: Criterion, key: string)
    requires forall t :: t in tags ==> t.key == key
    ensures FieldHolds(doc, key, Pack(Predicates(tags))) <==> CriterionHolds(doc, tags)
  {
    hide Holds, TagHolds, Predicate, Pack, FieldHolds;
    var predicates := Predicates(tags);
    PackHolds(doc, key, predicates);
    forall i | 0 <= i < |tags|
      ensures predicates[i] in predicates && tags[i] in tags
      ensures Holds(doc, key, predicates[i].operator, predicates[i].value) == TagHolds(doc, tags[i])
    {
      assert tags[i] in tags && predicates[i] == Predicate(tags[i]);
      PredicateHolds(doc, tags[i]);
    }
    forall p | p in predicates ensures exists i :: 0 <= i < |tags| && predicates[i] == p {
    }
  }

  // The encoded criterion selects what the conjunction of the tags selects.
  lemma {:induction false} EncodeKeepsMeaning(doc: Document, tags: Criterion)
    ensures EncodedHolds(doc, Encode(tags)) <==> CriterionHolds(doc, tags)
  {
    var fields := Encode(tags);
    forall key | key in fields
      ensures FieldHolds(doc, key, fields[key]) <==> CriterionHolds(doc, WithKey(tags, key))
    {
      WithKeyMembers(tags, key);
      PredicatesHold(doc, WithKey(tags, key), key);
    }
    forall t | t in tags ensures t.key in fields && t in WithKey(tags, t.key) {
      WithKeyMembers(tags, t.key);
    }
    forall key, t | key in fields && t in WithKey(tags, key) ensures t in tags {
      WithKeyMembers(tags, key);
    }
  }
}
