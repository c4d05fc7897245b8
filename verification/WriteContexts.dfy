// Recorded evidence of the observations a save was checked against, and the identifier
// of a save (orisun/write_context.go).
module WriteContexts {
  import opened Common
  import opened Ordering
  import opened Text
  import opened Tags
  import opened ConsistencyQueries
  import opened CriterionCodec

  // ---- Durable form of a check list ----

  datatype StoredObservation = StoredObservation(criteria: seq<Encoded>, position: Position)

  ghost function EncodeAll(q: Query): seq<Encoded> {
    seq(|q|, i requires 0 <= i < |q| => Encode(q[i]))
  }

  ghost function StoredOf(k: Check): StoredObservation {
    StoredObservation(EncodeAll(k.criteria), k.position)
  }

  // The stored form of a whole check list.
  ghost function StoredList(checks: seq<Check>): seq<StoredObservation> {
    seq(|checks|, i requires 0 <= i < |checks| => StoredOf(checks[i]))
  }

  predicate ValidCheck(k: Check) {
    forall c :: c in k.criteria ==> ValidCriterion(c)
  }

  method EncodeReadCriteria(q: Query) returns (encoded: seq<Encoded>)
    ensures encoded == EncodeAll(q)
  {
    encoded := [];
    for i := 0 to |q|
      invariant encoded == EncodeAll(q[..i])
    {
      var e := EncodeCriterion(q[i]);
      encoded := encoded + [e];
    }
    assert q[..|q|] == q;
  }

  method MarshalConsistency(checks: seq<Check>) returns (r: Result<seq<StoredObservation>>)
    ensures r.Ok? <==> forall k :: k in checks ==> ValidCheck(k)
    ensures r.Ok? ==> r.value == StoredList(checks)
    ensures r.Err? ==> r.status == InvalidArgument
  {
    var stored: seq<StoredObservation> := [];
    for i := 0 to |checks|
      invariant |stored| == i && forall j :: 0 <= j < i ==> stored[j] == StoredOf(checks[j])
      invariant forall j :: 0 <= j < i ==> ValidCheck(checks[j])
    {
      if !ValidCheck(checks[i]) {
        return Err(InvalidArgument);
      }
      var criteria := EncodeReadCriteria(checks[i].criteria);
      stored := stored + [StoredObservation(criteria, checks[i].position)];
    }
    return Ok(stored);
  }

  ghost predicate DecodableObservation(o: StoredObservation) {
    forall i :: 0 <= i < |o.criteria| ==> Decode(o.criteria[i]).Ok?
  }

  // The observation a stored one decodes to.
  ghost function Decoded(o: StoredObservation): Observation
    requires DecodableObservation(o)
  {
    Observation(seq(|o.criteria|, i requires 0 <= i < |o.criteria| => Decode(o.criteria[i]).value), o.position)
  }

  // The whole stored list, or an error if any part of it does not decode.
  ghost function DecodedList(stored: seq<StoredObservation>): Result<seq<Observation>> {
    if forall i :: 0 <= i < |stored| ==> DecodableObservation(stored[i])
    then Ok(seq(|stored|, i requires 0 <= i < |stored| => Decoded(stored[i])))
    else Err(Internal)
  }

  method DecodeObservation(o: StoredObservation) returns (r: Result<Observation>)
    ensures r.Ok? <==> DecodableObservation(o)
    ensures r.Ok? ==> r.value == Decoded(o)
  {
    var query: Query := [];
    for j := 0 to |o.criteria|
      invariant |query| == j && forall i :: 0 <= i < j ==> Decode(o.criteria[i]) == Ok(query[i])
    {
      var tags := DecodeCriterion(o.criteria[j]);
      if tags.Err? {
        return Err(Internal);
      }
      query := query + [tags.value];
    }
    return Ok(Observation(query, o.position));
  }

  method DecodeWriteContext(stored: seq<StoredObservation>) returns (r: Result<seq<Observation>>)
    ensures r == DecodedList(stored)
  {
    hide DecodableObservation, Decoded;
    var result: seq<Observation> := [];
    for i := 0 to |stored|
      invariant |result| == i && forall j :: 0 <= j < i ==> DecodableObservation(stored[j]) && result[j] == Decoded(stored[j])
    {
      var o := DecodeObservation(stored[i]);
      if o.Err? {
        return Err(Internal);
      }
      result := result + [o.value];
    }
    assert result == DecodedList(stored).value;
    return Ok(result);
  }

  // A stored check always decodes, to each criterion stably ordered by key.
  lemma {:induction false} StoredDecodes(k: Check)
    requires ValidCheck(k)
    ensures DecodableObservation(StoredOf(k))
    ensures forall i :: 0 <= i < |k.criteria| ==>
      StablyOrdered(CanonAll(k.criteria[i]), Decode(StoredOf(k).criteria[i]).value)
  {
    forall i | 0 <= i < |k.criteria|
      ensures Decode(StoredOf(k).criteria[i]).Ok?
      ensures StablyOrdered(CanonAll(k.criteria[i]), Decode(StoredOf(k).criteria[i]).value)
    {
      assert k.criteria[i] in k.criteria;
      RoundTrip(k.criteria[i]);
    }
  }

  ghost predicate NormalCheck(k: Check) {
    exists o: Observation :: ObservableQuery(o.query) && k == Check(NormalQuery(o.query), o.position)
  }

  lemma NormalCriterionComesBack(c: Criterion)
    requires ObservableCriterion(c)
    ensures ValidCriterion(NormalCriterion(c))
    ensures Decode(Encode(NormalCriterion(c))) == Ok(NormalCriterion(c))
  {
    var n := NormalCriterion(c);
    forall u | u in n ensures ValidTag(u) && Canon(u) == u {
      assert u in Elements(n);
      var t :| t in c && Canon(t) == u;
    }
    RoundTripNormal(n);
  }

  function ObservationOf(k: Check): Observation {
    Observation(k.criteria, k.position)
  }

  function ObservationsOf(checks: seq<Check>): seq<Observation> {
    seq(|checks|, i requires 0 <= i < |checks| => ObservationOf(checks[i]))
  }

  lemma NormalQueryComesBack(q: Query, i: nat)
    requires ObservableQuery(q) && i < |NormalQuery(q)|
    ensures ValidCriterion(NormalQuery(q)[i])
    ensures Decode(Encode(NormalQuery(q)[i])) == Ok(NormalQuery(q)[i])
  {
    var n := NormalQuery(q);
    assert n[i] in Elements(n);
    var c :| c in q && NormalCriterion(c) == n[i];
    hide Decode, Encode, NormalQuery, NormalCriterion;
    NormalCriterionComesBack(c);
  }

  lemma CriteriaComeBack(k: Check)
    requires forall i :: 0 <= i < |k.criteria| ==> ValidCriterion(k.criteria[i]) && Decode(Encode(k.criteria[i])) == Ok(k.criteria[i])
    ensures ValidCheck(k) && DecodableObservation(StoredOf(k)) && Decoded(StoredOf(k)) == ObservationOf(k)
  {
    hide Decode, Encode, ValidCriterion;
    assert Decoded(StoredOf(k)).query == k.criteria;
  }

  // Marshalling a normalised check and decoding the record gives back its query and position
  // unchanged.
  lemma {:induction false} RecordedCheckComesBack(k: Check)
    requires NormalCheck(k)
    ensures ValidCheck(k)
    ensures DecodableObservation(StoredOf(k)) && Decoded(StoredOf(k)) == ObservationOf(k)
  {
    hide Decode, Encode, NormalQuery, ValidCriterion, ObservableQuery, DecodableObservation, StoredOf, Decoded, ObservationOf, ValidCheck;
    var o: Observation :| ObservableQuery(o.query) && k == Check(NormalQuery(o.query), o.position);
    forall i | 0 <= i < |k.criteria|
      ensures ValidCriterion(k.criteria[i]) && Decode(Encode(k.criteria[i])) == Ok(k.criteria[i])
    {
      NormalQueryComesBack(o.query, i);
    }
    CriteriaComeBack(k);
  }

  // The whole list of checks a save was accepted under can be marshalled, and its record
  // decodes to that very list.
  lemma {:induction false} RecordComesBack(obs: seq<Observation>)
    requires Acceptable(obs)
    ensures forall k :: k in DistinctChecks(obs) ==> ValidCheck(k)
    ensures DecodedList(StoredList(DistinctChecks(obs))) == Ok(ObservationsOf(DistinctChecks(obs)))
  {
    hide DistinctChecks, ValidCheck, StoredOf, Decoded, DecodableObservation, ObservationOf, NormalQuery, ObservableQuery;
    var checks := DistinctChecks(obs);
    DistinctChecksRepresent(obs);
    forall k | k in checks ensures ValidCheck(k) && DecodableObservation(StoredOf(k)) && Decoded(StoredOf(k)) == ObservationOf(k) {
      var o :| o in obs && k == Check(NormalQuery(o.query), o.position);
      RecordedCheckComesBack(k);
    }
    assert forall i :: 0 <= i < |checks| ==> checks[i] in checks;
    assert DecodedList(StoredList(checks)).value == ObservationsOf(checks);
  }

  // ---- Write identifiers ----

  function FormatInt(n: int): string {
    if n < 0 then "-" + Decimal(-n) else Decimal(n)
  }

  function WriteID(commit: int, prepare: int): string {
    FormatInt(commit) + ":" + FormatInt(prepare)
  }

  // strconv.ParseInt(s, 10, 64): an optional sign, digits, and the range of int64.
  function ParseInt(s: string): (r: Option<int>)
    ensures r.Some? ==> -MAX_INT64 - 1 <= r.value <= MAX_INT64
  {
    var negative := s != "" && s[0] == '-';
    var digits := if s != "" && (s[0] == '-' || s[0] == '+') then s[1..] else s;
    if digits == "" || !AllDigits(digits) then None
    else
      var n := if negative then -(Number(digits) as int) else Number(digits) as int;
      if -MAX_INT64 - 1 <= n <= MAX_INT64 then Some(n) else None
  }

  // strings.Split on a separator.
  function Split(s: string, sep: char): (parts: seq<string>)
    ensures parts != []
    ensures sep !in s ==> parts == [s]
    ensures sep in s ==> |parts| >= 2
  {
    if s == "" then [""]
    else
      var rest := Split(s[1..], sep);
      assert s == [s[0]] + s[1..];
      if s[0] == sep then [""] + rest else [[s[0]] + rest[0]] + rest[1..]
  }

  lemma {:induction false} SplitOnce(a: string, sep: char, b: string)
    requires sep !in a
    ensures Split(a + [sep] + b, sep) == [a] + Split(b, sep)
  {
    var s := a + [sep] + b;
    if a == "" {
      assert s[1..] == b;
    } else {
      assert s[1..] == a[1..] + [sep] + b;
      SplitOnce(a[1..], sep, b);
      assert a == [a[0]] + a[1..];
    }
  }

  function ValidateWriteContextRequest(boundary: string, writeId: string): Result<Position> {
    var parts := Split(writeId, ':');
    if boundary == "" || |parts| != 2 then Err(InvalidArgument)
    else
      var commit, prepare := ParseInt(parts[0]), ParseInt(parts[1]);
      if commit.None? || prepare.None? || commit.value < 0 || prepare.value < 0
         || WriteID(commit.value, prepare.value) != writeId then Err(InvalidArgument)
      else Ok(Position(commit.value, prepare.value))
  }

  // An identifier is accepted as a position exactly when it is that position printed, for
  // two non-negative int64 values; signs, leading zeros and extra parts are all refused.
  lemma {:induction false} AcceptsExactlyPrinted(boundary: string, writeId: string, p: Position)
    ensures ValidateWriteContextRequest(boundary, writeId) == Ok(p) <==>
      && boundary != "" && 0 <= p.commit <= MAX_INT64 && 0 <= p.prepare <= MAX_INT64
      && writeId == WriteID(p.commit, p.prepare)
  {
    if 0 <= p.commit <= MAX_INT64 && 0 <= p.prepare <= MAX_INT64 && writeId == WriteID(p.commit, p.prepare) {
      SplitWriteID(p.commit, p.prepare);
      ParseFormatted(p.commit);
      ParseFormatted(p.prepare);
    }
  }

  lemma ParseFormatted(n: nat)
    requires n <= MAX_INT64
    ensures ParseInt(Decimal(n)) == Some(n)
  {
  }

  lemma SplitWriteID(commit: nat, prepare: nat)
    ensures Split(WriteID(commit, prepare), ':') == [Decimal(commit), Decimal(prepare)]
  {
    assert ':' !in Decimal(commit) && ':' !in Decimal(prepare);
    SplitOnce(Decimal(commit), ':', Decimal(prepare));
  }
}
