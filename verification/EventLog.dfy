// A boundary's committed events and the newest match of a query on them.
module EventLog {
  import opened Common
  import opened Tags

  // One row of the event table: the stored document and its (transaction_id, global_id).
  datatype Row = Row(doc: Document, position: Position)

  type Log = seq<Row>

  // Positions ascend strictly and all lie after (-1, -1).
  predicate Ordered(log: Log) {
    && (forall i :: 0 <= i < |log| ==> After(log[i].position, NOT_EXISTS))
    && (forall i, j :: 0 <= i < j < |log| ==> After(log[j].position, log[i].position))
  }

  function Later(p: Position, q: Position): Position {
    if After(p, q) then p else q
  }

  // The greatest position among the rows a test accepts, or (-1, -1).
  function NewestBy(log: Log, test: Document -> bool): Position {
    if log == [] then NOT_EXISTS
    else
      var rest, last := NewestBy(log[..|log| - 1], test), log[|log| - 1];
      if test(last.doc) then Later(last.position, rest) else rest
  }

  function Matching(q: Query): Document -> bool {
    doc => QueryHolds(doc, q)
  }

  // The newest match of a query.
  function Newest(log: Log, q: Query): Position {
    NewestBy(log, Matching(q))
  }

  // What the newest match is, without a scan: at or after every match, and one of them.
  ghost predicate IsNewest(log: Log, test: Document -> bool, p: Position) {
    && AtOrAfter(p, NOT_EXISTS)
    && (p == NOT_EXISTS || exists i :: 0 <= i < |log| && test(log[i].doc) && log[i].position == p)
    && (forall i :: 0 <= i < |log| && test(log[i].doc) ==> AtOrAfter(p, log[i].position))
  }

  lemma {:induction false} NewestIsNewest(log: Log, test: Document -> bool)
    ensures IsNewest(log, test, NewestBy(log, test))
  {
    if log != [] {
      var init, last := log[..|log| - 1], log[|log| - 1];
      NewestIsNewest(init, test);
      var rest := NewestBy(init, test);
      if rest != NOT_EXISTS {
        var i :| 0 <= i < |init| && test(init[i].doc) && init[i].position == rest;
        assert log[i] == init[i];
      }
      assert forall i :: 0 <= i < |init| ==> log[i] == init[i];
    }
  }

  lemma NewestUnique(log: Log, test: Document -> bool, p: Position)
    requires IsNewest(log, test, p)
    ensures p == NewestBy(log, test)
  {
    NewestIsNewest(log, test);
  }

  // The newest match moves exactly when a later event matches.
  lemma {:induction false} NewestUnchanged(log: Log, test: Document -> bool, k: nat)
    requires Ordered(log) && k <= |log|
    ensures NewestBy(log, test) == NewestBy(log[..k], test) <==> forall j :: k <= j < |log| ==> !test(log[j].doc)
  {
    NewestIsNewest(log, test);
    NewestIsNewest(log[..k], test);
    var p := NewestBy(log[..k], test);
    assert forall i :: 0 <= i < k ==> log[..k][i] == log[i];
    if forall j :: k <= j < |log| ==> !test(log[j].doc) {
      assert IsNewest(log, test, p) by {
        if p != NOT_EXISTS {
          var i :| 0 <= i < k && test(log[..k][i].doc) && log[..k][i].position == p;
          assert log[i].position == p;
        }
      }
      NewestUnique(log, test, p);
    } else {
      var j :| k <= j < |log| && test(log[j].doc);
      assert After(log[j].position, p);
    }
  }

  // Tests that accept the same rows have the same newest match.
  lemma {:induction false} NewestDependsOnMeaning(log: Log, f: Document -> bool, g: Document -> bool)
    requires forall i :: 0 <= i < |log| ==> f(log[i].doc) == g(log[i].doc)
    ensures NewestBy(log, f) == NewestBy(log, g)
  {
    if log != [] {
      NewestDependsOnMeaning(log[..|log| - 1], f, g);
    }
  }
}
