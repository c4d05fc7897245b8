// A queue executed batch by batch, each batch in its own transaction that may fail as a whole
// (sqlite/group_commit_executor.go).
module SqliteTransactions {
  import opened Common
  import opened Ordering
  import opened SqliteStore
  import CCC = CommandContextConsistency

  // What a batch answers: its outcomes, or the failure of its transaction.
  type Reply = Result<seq<Outcome>>

  // Each batch in turn; a failed one leaves no trace.
  ghost function RunTransactions(s: State, batches: seq<seq<Save>>, fails: seq<bool>): (State, seq<Reply>)
    requires |fails| == |batches|
  {
    if batches == [] then (s, [])
    else
      var n := |batches| - 1;
      var (before, answers) := RunTransactions(s, batches[..n], fails[..n]);
      if fails[n] then (before, answers + [Err(Internal)])
      else
        var (after, outcomes) := ServeAll(before, batches[n]);
        (after, answers + [Ok(outcomes)])
  }

  // The batches whose transaction did not fail.
  function Committed<T>(batches: seq<seq<T>>, fails: seq<bool>): seq<seq<T>>
    requires |fails| == |batches|
  {
    if batches == [] then []
    else
      var n := |batches| - 1;
      Committed(batches[..n], fails[..n]) + (if fails[n] then [] else [batches[n]])
  }

  // The tables are those of serving the saves of the committed batches one at a time.
  lemma {:induction false} TablesOfCommitted(s: State, batches: seq<seq<Save>>, fails: seq<bool>)
    requires |fails| == |batches|
    ensures RunTransactions(s, batches, fails).0 == ServeAll(s, Flatten(Committed(batches, fails))).0
    ensures |RunTransactions(s, batches, fails).1| == |batches|
  {
    if batches != [] {
      var n := |batches| - 1;
      TablesOfCommitted(s, batches[..n], fails[..n]);
      hide ServeAll, Flatten;
      if fails[n] {
        assert Committed(batches[..n], fails[..n]) + [] == Committed(batches[..n], fails[..n]);
      } else {
        FlattenAppend(Committed(batches[..n], fails[..n]), batches[n]);
        CCC.ServeAllAppend(s, Flatten(Committed(batches[..n], fails[..n])), batches[n]);
      }
    } else {
      assert ServeAll(s, []).0 == s;
    }
  }

  // A batch answers with the outcomes of serving it after all committed batches before it.
  lemma {:induction false} AnswerOfBatch(s: State, batches: seq<seq<Save>>, fails: seq<bool>, i: nat)
    requires |fails| == |batches| && i < |batches|
    ensures |RunTransactions(s, batches, fails).1| == |batches|
    ensures RunTransactions(s, batches, fails).1[i] ==
      if fails[i] then Err(Internal)
      else Ok(ServeAll(ServeAll(s, Flatten(Committed(batches[..i], fails[..i]))).0, batches[i]).1)
  {
    hide ServeAll, Flatten, Committed;
    var n := |batches| - 1;
    TablesOfCommitted(s, batches[..n], fails[..n]);
    if i < n {
      AnswerOfBatch(s, batches[..n], fails[..n], i);
      assert batches[..n][..i] == batches[..i] && fails[..n][..i] == fails[..i];
    }
  }

  // One save of a served queue gets the outcome of its own turn.
  lemma {:induction false} OutcomeOfTurn(s: State, saves: seq<Save>, j: nat)
    requires j < |saves|
    ensures |ServeAll(s, saves).1| == |saves|
    ensures ServeAll(s, saves).1[j] == Serve(ServeAll(s, saves[..j]).0, saves[j]).1
  {
    var n := |saves| - 1;
    hide Serve;
    if j < n {
      OutcomeOfTurn(s, saves[..n], j);
      assert saves[..n][..j] == saves[..j];
    } else if n > 0 {
      OutcomeOfTurn(s, saves[..n], 0);
    }
  }

  lemma {:induction false} ServeAllKeepsSequence(s: State, saves: seq<Save>)
    ensures ServeAll(s, saves).0.nextId >= s.nextId
  {
    if saves != [] {
      ServeAllKeepsSequence(s, saves[..|saves| - 1]);
      hide RowsOf, FirstRejection;
    }
  }

  ghost function AllSaves(batches: seq<seq<PreparedSave>>): seq<seq<Save>> {
    seq(|batches|, i requires 0 <= i < |batches| => SavesOf(batches[i]))
  }

  lemma RunTransactionsStep(s: State, batches: seq<seq<PreparedSave>>, fails: seq<bool>, i: nat)
    requires |fails| == |batches| && i < |batches|
    ensures var (before, answers) := RunTransactions(s, AllSaves(batches[..i]), fails[..i]);
      RunTransactions(s, AllSaves(batches[..i + 1]), fails[..i + 1]) ==
        if fails[i] then (before, answers + [Err(Internal)])
        else (ServeAll(before, SavesOf(batches[i])).0, answers + [Ok(ServeAll(before, SavesOf(batches[i])).1)])
  {
    hide ServeAll, SavesOf;
    assert AllSaves(batches[..i + 1])[..i] == AllSaves(batches[..i]);
    assert AllSaves(batches[..i + 1])[i] == SavesOf(batches[i]);
    assert fails[..i + 1][..i] == fails[..i];
  }

  // Which transactions fail: those that do so themselves or, with an id sequence that is out of
  // range, all of them.
  function Failing(s: State, fails: seq<bool>): seq<bool> {
    if s.nextId >= 1 then fails else seq(|fails|, i => true)
  }

  // The engine run on a queue however it is cut into batches, and whichever transactions
  // fail.
  method ExecuteBatches(db: Database, batches: seq<seq<PreparedSave>>, fails: seq<bool>) returns (answers: seq<Reply>)
    requires |fails| == |batches|
    requires forall i, j :: 0 <= i < |batches| && 0 <= j < |batches[i]| ==> Prepared(batches[i][j])
    modifies db
    ensures (db.Contents(), answers) == RunTransactions(old(db.Contents()), AllSaves(batches), Failing(old(db.Contents()), fails))
    ensures db.Contents() == ServeAll(old(db.Contents()), Flatten(Committed(AllSaves(batches), Failing(old(db.Contents()), fails)))).0
    ensures old(db.nextId) >= 1 && (forall i :: 0 <= i < |fails| ==> !fails[i]) ==>
      (db.Contents(), Together(answers)) == ServeAll(old(db.Contents()), Flatten(AllSaves(batches)))
  {
    hide ServeAll, SavesOf, Prepared;
    ghost var start := db.Contents();
    ghost var failing := Failing(start, fails);
    answers := [];
    NoTransactions(start, batches, failing);
    for i := 0 to |batches|
      invariant (db.Contents(), answers) == RunTransactions(start, AllSaves(batches[..i]), failing[..i])
      invariant db.nextId >= 1 <==> start.nextId >= 1
    {
      RunTransactionsStep(start, batches, failing, i);
      ServeAllKeepsSequence(db.Contents(), SavesOf(batches[i]));
      var outcomes := db.ExecuteTransaction(batches[i], fails[i]);
      answers := answers + [outcomes];
    }
    assert batches[..|batches|] == batches && failing[..|failing|] == failing;
    TablesOfCommitted(start, AllSaves(batches), failing);
    if start.nextId >= 1 && forall i :: 0 <= i < |fails| ==> !fails[i] {
      PartitionServesQueue(start, AllSaves(batches), fails);
    }
  }

  lemma NoTransactions(s: State, batches: seq<seq<PreparedSave>>, fails: seq<bool>)
    requires |fails| == |batches|
    ensures RunTransactions(s, AllSaves(batches[..0]), fails[..0]) == (s, [])
  {
  }

  // When no transaction fails, the answers put together are the outcomes of serving the whole
  // queue one save at a time, so no partition differs from another.
  lemma {:induction false} PartitionServesQueue(s: State, batches: seq<seq<Save>>, fails: seq<bool>)
    requires |fails| == |batches| && forall i :: 0 <= i < |fails| ==> !fails[i]
    ensures RunTransactions(s, batches, fails).0 == ServeAll(s, Flatten(batches)).0
    ensures Together(RunTransactions(s, batches, fails).1) == ServeAll(s, Flatten(batches)).1
  {
    if batches != [] {
      var n := |batches| - 1;
      PartitionServesQueue(s, batches[..n], fails[..n]);
      hide ServeAll;
      var before := RunTransactions(s, batches[..n], fails[..n]);
      TogetherLast(before.1, ServeAll(before.0, batches[n]).1);
      CCC.ServeAllAppend(s, Flatten(batches[..n]), batches[n]);
    } else {
      assert ServeAll(s, []) == (s, []);
    }
  }

  // The outcomes of the batches that answered.
  function Together(answers: seq<Reply>): seq<Outcome> {
    if answers == [] then []
    else
      var last := answers[|answers| - 1];
      Together(answers[..|answers| - 1]) + (if last.Ok? then last.value else [])
  }

  lemma TogetherLast(answers: seq<Reply>, outcomes: seq<Outcome>)
    ensures Together(answers + [Ok(outcomes)]) == Together(answers) + outcomes
  {
    assert (answers + [Ok(outcomes)])[..|answers|] == answers;
  }

  // However a queue is cut into batches, the final tables and every outcome are the same, so
  // they are those of running each save in a transaction of its own.
  lemma {:induction false} BatchIndependence(s: State, p: seq<seq<Save>>, q: seq<seq<Save>>, pFails: seq<bool>, qFails: seq<bool>)
    requires Flatten(p) == Flatten(q) && |pFails| == |p| && |qFails| == |q|
    requires (forall i :: 0 <= i < |pFails| ==> !pFails[i]) && (forall i :: 0 <= i < |qFails| ==> !qFails[i])
    ensures RunTransactions(s, p, pFails).0 == RunTransactions(s, q, qFails).0
    ensures Together(RunTransactions(s, p, pFails).1) == Together(RunTransactions(s, q, qFails).1)
  {
    hide RunTransactions, Together, Flatten, ServeAll;
    PartitionServesQueue(s, p, pFails);
    PartitionServesQueue(s, q, qFails);
  }

  // Where a committed batch stands among all the saves that left a trace.
  lemma {:induction false} CommittedSplit<T>(batches: seq<seq<T>>, fails: seq<bool>, i: nat) returns (rest: seq<T>)
    requires |fails| == |batches| && i < |batches| && !fails[i]
    ensures Flatten(Committed(batches, fails)) == Flatten(Committed(batches[..i], fails[..i])) + batches[i] + rest
  {
    var n := |batches| - 1;
    var init := Committed(batches[..n], fails[..n]);
    if i == n {
      FlattenAppend(init, batches[n]);
      rest := [];
      assert Flatten(init) + batches[n] + [] == Flatten(init) + batches[n];
    } else {
      var more := CommittedSplit(batches[..n], fails[..n], i);
      assert batches[..n][..i] == batches[..i] && fails[..n][..i] == fails[..i];
      var front := Flatten(Committed(batches[..i], fails[..i])) + batches[i];
      if fails[n] {
        rest := more;
        assert init + [] == init;
      } else {
        FlattenAppend(init, batches[n]);
        rest := more + batches[n];
        Associative(front, more, batches[n]);
      }
    }
  }
}
