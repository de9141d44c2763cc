/**
 * solve.py: the same classifier returning the discount alone, and the offer
 * rounded to the NEAREST multiple of 100 with Python's `round` (ties to the
 * even hundred), which may fall below the floor the discount permits.
 */
module Solve {
  import opened Text
  import opened Offer
  import opened Policy
  import opened Batch
  import Strict

  /** `get_discount_percentage`: the ladder of strict.py without rule names. */
  function GetDiscountPercentage(loanType: string, principal: real, dpd: int, chatText: string): (d: real)
    ensures d in DiscountLevels
  {
    var chatTextLower := Lower(chatText);
    var jobLoss := Contains("job loss", chatTextLower) || Contains("unemployment", chatTextLower)
                   || Contains("lost my job", chatTextLower);
    var medical := Contains("hospital", chatTextLower) || Contains("medical", chatTextLower);
    if loanType == "Personal Loan" then
      if jobLoss then 0.50
      else if medical then 0.45
      else if dpd > 90 then 0.35
      else 0.20
    else if loanType == "Credit Card" then
      if principal < 50000.0 then 0.10
      else if dpd > 90 then 0.50
      else 0.30
    else 0.0
  }

  /** The two classifiers agree on the discount for every input, so this one follows the policy ladder too. */
  lemma AgreesWithStrict(loanType: string, principal: real, dpd: int, chatText: string)
    ensures GetDiscountPercentage(loanType, principal, dpd, chatText)
            == Strict.GetDiscountPercentage(loanType, principal, dpd, chatText).discount
    ensures GetDiscountPercentage(loanType, principal, dpd, chatText)
            == Ceiling(Governing(Case(loanType, principal, dpd, chatText)))
  {
    Strict.FollowsPolicyLadder(Case(loanType, principal, dpd, chatText));
  }

  /**
   * `calculate_min_offer`: a multiple of 100 within 50 of the floor, the even
   * hundred on a tie. The `math.ceil` value the source computes first is
   * overwritten before use and so has no effect on the result.
   */
  function CalculateMinOffer(principal: real, discountPercent: real): (r: int)
    ensures r % 100 == 0
    ensures RawOffer(principal, discountPercent) - 50.0 <= r as real <= RawOffer(principal, discountPercent) + 50.0
    ensures (r as real == RawOffer(principal, discountPercent) - 50.0 || r as real == RawOffer(principal, discountPercent) + 50.0)
            ==> (r / 100) % 2 == 0
  {
    RoundTo100(RawOffer(principal, discountPercent))
  }

  /** Rounding to nearest never offers more than strict.py's rounding up. */
  lemma NotAboveStrict(principal: real, discount: real)
    ensures CalculateMinOffer(principal, discount) <= Strict.CalculateMinOffer(principal, Strict.Plain(discount))
  {
    CeilNotBelowRound(RawOffer(principal, discount));
  }

  /** The offer for one borrower and chat text, as `solve` computes it. */
  function ScenarioOffer(b: Borrower, userText: string): (offer: int)
    ensures offer % 100 == 0
    ensures offer <= Strict.ScenarioOffer(b, userText)
  {
    var discountPercent := GetDiscountPercentage(b.loanType, b.principal, b.dpd, userText);
    AgreesWithStrict(b.loanType, b.principal, b.dpd, userText);
    NotAboveStrict(b.principal, discountPercent);
    Strict.PairSameAsDiscount(b.principal, Strict.GetDiscountPercentage(b.loanType, b.principal, b.dpd, userText));
    CalculateMinOffer(b.principal, discountPercent)
  }

  /** `solve` without the file I/O: one row per scenario with a known borrower. */
  method Solve(borrowers: map<string, Borrower>, scenarios: seq<Scenario>) returns (results: seq<OfferRow>)
    ensures results == Rows(borrowers, scenarios, ScenarioOffer)
  {
    results := ProcessScenarios(borrowers, scenarios, ScenarioOffer);
  }

  /**
   * A Credit Card of 45,020 with no chat has a floor of 40,518: solve.py offers
   * 40,500, below it, where strict.py offers 40,600.
   */
  lemma UndercutsFloor()
    ensures RawOffer(45020.0, GetDiscountPercentage("Credit Card", 45020.0, 10, "")) == 40518.0
    ensures ScenarioOffer(Borrower("Credit Card", 45020.0, 10), "") == 40500
    ensures Strict.ScenarioOffer(Borrower("Credit Card", 45020.0, 10), "") == 40600
  {
    NearestCanUndercutFloor();
  }
}
