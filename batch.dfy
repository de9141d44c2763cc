/**
 * The records a batch run reads and writes, and the deterministic batch loop
 * shared by strict.py and solve.py: one row per scenario whose borrower is on
 * record, in input order; a scenario whose borrower is missing is skipped.
 */
module Batch {
  import opened Chat

  /** A row of the borrower table, keyed by borrower id. */
  datatype Borrower = Borrower(loanType: string, principal: real, dpd: int)

  datatype Scenario = Scenario(scenarioId: string, borrowerId: string, chatHistory: seq<Turn>)

  datatype OfferRow = OfferRow(scenarioId: string, minAcceptableOffer: int)

  /** The row the loop emits for a scenario whose borrower is known. */
  function RowFor(borrowers: map<string, Borrower>, s: Scenario, offer: (Borrower, string) -> int): OfferRow
    requires s.borrowerId in borrowers
  {
    OfferRow(s.scenarioId, offer(borrowers[s.borrowerId], UserText(s.chatHistory)))
  }

  /** The rows emitted for `scenarios`, built up in the order the loop visits them. */
  function Rows(borrowers: map<string, Borrower>, scenarios: seq<Scenario>, offer: (Borrower, string) -> int): seq<OfferRow>
    decreases |scenarios|
  {
    if |scenarios| == 0 then []
    else
      var last := scenarios[|scenarios| - 1];
      Rows(borrowers, scenarios[..|scenarios| - 1], offer)
      + (if last.borrowerId in borrowers then [RowFor(borrowers, last, offer)] else [])
  }

  /** The `for scenario in scenarios` loop, with loading, printing and saving left out. */
  method ProcessScenarios(borrowers: map<string, Borrower>, scenarios: seq<Scenario>, offer: (Borrower, string) -> int)
    returns (results: seq<OfferRow>)
    ensures results == Rows(borrowers, scenarios, offer)
  {
    results := [];
    for i := 0 to |scenarios|
      invariant results == Rows(borrowers, scenarios[..i], offer)
    {
      assert scenarios[..i + 1][..i] == scenarios[..i];
      var scenario := scenarios[i];
      var borrowerId := scenario.borrowerId;
      if borrowerId !in borrowers {
        continue;
      }
      var borrower := borrowers[borrowerId];
      var userText := UserText(scenario.chatHistory);
      var minOffer := offer(borrower, userText);
      results := results + [OfferRow(scenario.scenarioId, minOffer)];
    }
    assert scenarios[..|scenarios|] == scenarios;
  }

  /** Scenarios are processed independently: the rows of a concatenation are the concatenated rows. */
  lemma {:induction false} RowsAppend(borrowers: map<string, Borrower>, a: seq<Scenario>, b: seq<Scenario>, offer: (Borrower, string) -> int)
    ensures Rows(borrowers, a + b, offer) == Rows(borrowers, a, offer) + Rows(borrowers, b, offer)
    decreases |b|
  {
    if |b| == 0 {
      assert a + b == a;
    } else {
      var n := |b| - 1;
      assert (a + b)[..|a + b| - 1] == a + b[..n];
      assert (a + b)[|a + b| - 1] == b[n];
      RowsAppend(borrowers, a, b[..n], offer);
    }
  }

  /** A scenario with no borrower on record leaves no trace in the output. */
  lemma MissingBorrowerSkipped(borrowers: map<string, Borrower>, scenarios: seq<Scenario>, i: int, offer: (Borrower, string) -> int)
    requires 0 <= i < |scenarios| && scenarios[i].borrowerId !in borrowers
    ensures Rows(borrowers, scenarios, offer) == Rows(borrowers, scenarios[..i] + scenarios[i + 1..], offer)
  {
    assert scenarios == scenarios[..i] + [scenarios[i]] + scenarios[i + 1..];
    RowsAppend(borrowers, scenarios[..i] + [scenarios[i]], scenarios[i + 1..], offer);
    RowsAppend(borrowers, scenarios[..i], [scenarios[i]], offer);
    RowsAppend(borrowers, scenarios[..i], scenarios[i + 1..], offer);
    assert Rows(borrowers, [scenarios[i]], offer) == [] by {
      assert [scenarios[i]][..0] == [];
    }
  }

  /** When every borrower is on record there is exactly one row per scenario, in input order. */
  lemma {:induction false} OneRowPerScenario(borrowers: map<string, Borrower>, scenarios: seq<Scenario>, offer: (Borrower, string) -> int)
    requires forall i :: 0 <= i < |scenarios| ==> scenarios[i].borrowerId in borrowers
    ensures |Rows(borrowers, scenarios, offer)| == |scenarios|
    ensures forall i :: 0 <= i < |scenarios| ==> Rows(borrowers, scenarios, offer)[i] == RowFor(borrowers, scenarios[i], offer)
    decreases |scenarios|
  {
    if |scenarios| > 0 {
      var n := |scenarios| - 1;
      OneRowPerScenario(borrowers, scenarios[..n], offer);
    }
  }

  /** Every emitted row comes from some scenario whose borrower is on record. */
  lemma {:induction false} RowsComeFromKnownBorrowers(borrowers: map<string, Borrower>, scenarios: seq<Scenario>, offer: (Borrower, string) -> int, k: int)
    requires 0 <= k < |Rows(borrowers, scenarios, offer)|
    ensures exists i :: 0 <= i < |scenarios| && scenarios[i].borrowerId in borrowers
                        && Rows(borrowers, scenarios, offer)[k] == RowFor(borrowers, scenarios[i], offer)
    decreases |scenarios|
  {
    var n := |scenarios| - 1;
    var front := Rows(borrowers, scenarios[..n], offer);
    if k < |front| {
      RowsComeFromKnownBorrowers(borrowers, scenarios[..n], offer, k);
      var i :| 0 <= i < n && scenarios[..n][i].borrowerId in borrowers
               && front[k] == RowFor(borrowers, scenarios[..n][i], offer);
      assert scenarios[..n][i] == scenarios[i];
    } else {
      assert Rows(borrowers, scenarios, offer)[k] == RowFor(borrowers, scenarios[n], offer);
    }
  }
}
