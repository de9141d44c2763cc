/**
 * strict.py: the rule classifier that returns a discount with the name of
 * its rule, the offer rounded UP to a multiple of 100 (never below the floor
 * the discount permits), and the batch run over all scenarios.
 */
module Strict {
  import opened Text
  import opened Chat
  import opened Offer
  import opened Policy
  import opened Batch

  /** `get_discount_percentage`: a first-match ladder over the loan type, keywords, principal and DPD. */
  function GetDiscountPercentage(loanType: string, principal: real, dpd: int, chatText: string): (d: Decision)
    ensures d.discount in DiscountLevels
  {
    var chatTextLower := Lower(chatText);
    var jobLoss := Contains("job loss", chatTextLower) || Contains("unemployment", chatTextLower)
                   || Contains("lost my job", chatTextLower);
    var medical := Contains("hospital", chatTextLower) || Contains("medical", chatTextLower);
    if loanType == "Personal Loan" then
      if jobLoss then Decision(0.50, "Job Loss (PL)")
      else if medical then Decision(0.45, "Medical (PL)")
      else if dpd > 90 then Decision(0.35, "PL High Delinquency")
      else Decision(0.20, "PL Standard")
    else if loanType == "Credit Card" then
      if principal < 50000.0 then Decision(0.10, "CC Small Balance")
      else if dpd > 90 then Decision(0.50, "CC High Delinquency")
      else Decision(0.30, "CC Standard")
    else Decision(0.0, "Unknown")
  }

  lemma MentionsJobLossIff(chatText: string)
    ensures Mentions(JobLossKeywords, chatText) <==>
      (Contains("job loss", Lower(chatText)) || Contains("unemployment", Lower(chatText))
       || Contains("lost my job", Lower(chatText)))
  {
    if Contains("job loss", Lower(chatText)) { assert JobLossKeywords[0] == "job loss"; }
    if Contains("unemployment", Lower(chatText)) { assert JobLossKeywords[1] == "unemployment"; }
    if Contains("lost my job", Lower(chatText)) { assert JobLossKeywords[2] == "lost my job"; }
  }

  lemma MentionsMedicalIff(chatText: string)
    ensures Mentions(MedicalKeywords, chatText) <==>
      (Contains("hospital", Lower(chatText)) || Contains("medical", Lower(chatText)))
  {
    if Contains("hospital", Lower(chatText)) { assert MedicalKeywords[0] == "hospital"; }
    if Contains("medical", Lower(chatText)) { assert MedicalKeywords[1] == "medical"; }
  }

  /** The classifier decides exactly as the first qualifying rule of the policy ladder. */
  lemma FollowsPolicyLadder(c: Case)
    ensures GetDiscountPercentage(c.loanType, c.principal, c.dpd, c.chatText) == Decide(Governing(c))
  {
    MentionsJobLossIff(c.chatText);
    MentionsMedicalIff(c.chatText);
    var r := Governing(c);
    var k :| 0 <= k < |Ladder| && Ladder[k] == r && forall j :: 0 <= j < k ==> !Qualifies(Ladder[j], c);
    if k > 0 { assert !Qualifies(Ladder[0], c); }
    if k > 1 { assert !Qualifies(Ladder[1], c); }
    if k > 2 { assert !Qualifies(Ladder[2], c); }
    if k > 3 { assert !Qualifies(Ladder[3], c); }
    if k > 4 { assert !Qualifies(Ladder[4], c); }
    if k > 5 { assert !Qualifies(Ladder[5], c); }
    if k > 6 { assert !Qualifies(Ladder[6], c); }
  }

  /** Personal Loan: a job-loss keyword wins whatever else the chat says and whatever the DPD. */
  lemma JobLossOverrides(principal: real, dpd: int, chatText: string)
    requires Mentions(JobLossKeywords, chatText)
    ensures GetDiscountPercentage("Personal Loan", principal, dpd, chatText) == Decision(0.50, "Job Loss (PL)")
  {
    MentionsJobLossIff(chatText);
  }

  /** Personal Loan: a medical keyword without a job-loss keyword gives the medical rule. */
  lemma MedicalNext(principal: real, dpd: int, chatText: string)
    requires !Mentions(JobLossKeywords, chatText) && Mentions(MedicalKeywords, chatText)
    ensures GetDiscountPercentage("Personal Loan", principal, dpd, chatText) == Decision(0.45, "Medical (PL)")
  {
    MentionsJobLossIff(chatText);
    MentionsMedicalIff(chatText);
  }

  /** Personal Loan without keywords: high delinquency exactly when DPD exceeds 90. */
  lemma PersonalLoanByDelinquency(principal: real, dpd: int, chatText: string)
    requires !Mentions(JobLossKeywords, chatText) && !Mentions(MedicalKeywords, chatText)
    ensures GetDiscountPercentage("Personal Loan", principal, dpd, chatText)
            == if dpd > 90 then Decision(0.35, "PL High Delinquency") else Decision(0.20, "PL Standard")
  {
    MentionsJobLossIff(chatText);
    MentionsMedicalIff(chatText);
  }

  /** Credit Card under 50,000: small balance, whatever the DPD and the chat. */
  lemma SmallBalanceOverrides(principal: real, dpd: int, chatText: string)
    requires principal < 50000.0
    ensures GetDiscountPercentage("Credit Card", principal, dpd, chatText) == Decision(0.10, "CC Small Balance")
  {
  }

  /** Credit Card from 50,000: high delinquency (0.50) if and only if DPD exceeds 90, otherwise standard (0.30). */
  lemma CreditCardDelinquencyIff(principal: real, dpd: int, chatText: string)
    requires principal >= 50000.0
    ensures GetDiscountPercentage("Credit Card", principal, dpd, chatText).ruleName == "CC High Delinquency" <==> dpd > 90
    ensures GetDiscountPercentage("Credit Card", principal, dpd, chatText).discount == 0.50 <==> dpd > 90
    ensures dpd <= 90 ==> GetDiscountPercentage("Credit Card", principal, dpd, chatText) == Decision(0.30, "CC Standard")
  {
  }

  /** Chat keywords never affect a Credit Card decision. */
  lemma CreditCardIgnoresChat(principal: real, dpd: int, chat1: string, chat2: string)
    ensures GetDiscountPercentage("Credit Card", principal, dpd, chat1)
            == GetDiscountPercentage("Credit Card", principal, dpd, chat2)
  {
  }

  /** Any other loan type gets no discount. */
  lemma UnknownLoanType(loanType: string, principal: real, dpd: int, chatText: string)
    requires loanType != "Personal Loan" && loanType != "Credit Card"
    ensures GetDiscountPercentage(loanType, principal, dpd, chatText) == Decision(0.0, "Unknown")
  {
  }

  /** Keyword matching ignores case: upper-casing the chat never changes the decision. */
  lemma CaseInsensitive(loanType: string, principal: real, dpd: int, chatText: string)
    ensures GetDiscountPercentage(loanType, principal, dpd, Upper(chatText))
            == GetDiscountPercentage(loanType, principal, dpd, chatText)
  {
    LowerOfUpper(chatText);
  }

  /** A job-loss phrase in any one user turn of a Personal Loan transcript decides the case. */
  lemma JobLossInAnyUserTurn(principal: real, dpd: int, history: seq<Turn>, i: int, k: int)
    requires 0 <= i < |history| && history[i].role == "user"
    requires 0 <= k < |JobLossKeywords| && Contains(JobLossKeywords[k], Lower(history[i].content))
    ensures GetDiscountPercentage("Personal Loan", principal, dpd, UserText(history)) == Decision(0.50, "Job Loss (PL)")
  {
    UserTurnInText(history, i);
    var at :| OccursAt(history[i].content, UserText(history), at);
    LowerKeepsOccurrence(history[i].content, UserText(history), at);
    ContainsWithin(JobLossKeywords[k], Lower(history[i].content), Lower(UserText(history)), at);
    JobLossOverrides(principal, dpd, UserText(history));
  }

  /** `calculate_min_offer` accepts the discount alone or the (discount, rule) pair. */
  datatype DiscountArg = Plain(discount: real) | Pair(decision: Decision)

  /** `calculate_min_offer`: a multiple of 100, never below the floor, less than 100 above it. */
  function CalculateMinOffer(principal: real, discountPercent: DiscountArg): (r: int)
    ensures var discount := if discountPercent.Pair? then discountPercent.decision.discount else discountPercent.discount;
            r % 100 == 0 && RawOffer(principal, discount) <= r as real < RawOffer(principal, discount) + 100.0
  {
    var discount := match discountPercent
      case Pair(decision) => decision.discount
      case Plain(d) => d;
    CeilTo100(RawOffer(principal, discount))
  }

  /** Passing the pair gives the same offer as passing its discount. */
  lemma PairSameAsDiscount(principal: real, decision: Decision)
    ensures CalculateMinOffer(principal, Pair(decision)) == CalculateMinOffer(principal, Plain(decision.discount))
  {
  }

  /** A floor that is already a multiple of 100 is the offer itself. */
  lemma ExactFloorKept(principal: real, discount: real)
    requires RawOffer(principal, discount) == RawOffer(principal, discount).Floor as real
    requires RawOffer(principal, discount).Floor % 100 == 0
    ensures CalculateMinOffer(principal, Plain(discount)) as real == RawOffer(principal, discount)
  {
    ExactHundredsUnchanged(RawOffer(principal, discount).Floor);
  }

  /** The offer for one borrower and chat text, as `solve` computes it. */
  function ScenarioOffer(b: Borrower, userText: string): (offer: int)
    ensures offer % 100 == 0
    ensures var floor := RawOffer(b.principal, GetDiscountPercentage(b.loanType, b.principal, b.dpd, userText).discount);
            floor <= offer as real < floor + 100.0
  {
    var discountPercent := GetDiscountPercentage(b.loanType, b.principal, b.dpd, userText);
    CalculateMinOffer(b.principal, Pair(discountPercent))
  }

  /** A borrower with a non-negative principal is never offered a negative amount. */
  lemma ScenarioOfferBounds(b: Borrower, userText: string)
    requires b.principal >= 0.0
    ensures ScenarioOffer(b, userText) % 100 == 0
    ensures ScenarioOffer(b, userText) >= 0
    ensures ScenarioOffer(b, userText) as real
            >= RawOffer(b.principal, GetDiscountPercentage(b.loanType, b.principal, b.dpd, userText).discount)
  {
    var d := GetDiscountPercentage(b.loanType, b.principal, b.dpd, userText).discount;
    assert b.principal * d <= b.principal * 0.5;
  }

  /** `solve` without the file I/O: one row per scenario with a known borrower. */
  method Solve(borrowers: map<string, Borrower>, scenarios: seq<Scenario>) returns (results: seq<OfferRow>)
    ensures results == Rows(borrowers, scenarios, ScenarioOffer)
  {
    results := ProcessScenarios(borrowers, scenarios, ScenarioOffer);
  }

  /** Every offer `solve` writes is a multiple of 100 that does not undercut its borrower's floor. */
  lemma SolveRowsRespectFloor(borrowers: map<string, Borrower>, scenarios: seq<Scenario>, k: int)
    requires 0 <= k < |Rows(borrowers, scenarios, ScenarioOffer)|
    ensures var row := Rows(borrowers, scenarios, ScenarioOffer)[k];
            row.minAcceptableOffer % 100 == 0
            && (exists i :: 0 <= i < |scenarios| && scenarios[i].borrowerId in borrowers
                  && row.scenarioId == scenarios[i].scenarioId
                  && var b := borrowers[scenarios[i].borrowerId];
                     var text := UserText(scenarios[i].chatHistory);
                     row.minAcceptableOffer as real
                     >= RawOffer(b.principal, GetDiscountPercentage(b.loanType, b.principal, b.dpd, text).discount))
  {
    RowsComeFromKnownBorrowers(borrowers, scenarios, ScenarioOffer, k);
  }

  /** Personal Loan, 100,000, 30 days, "I lost my job last month": 50% off, offer 50,000. */
  lemma ExampleJobLoss()
    ensures ScenarioOffer(Borrower("Personal Loan", 100000.0, 30), "I lost my job last month") == 50000
  {
    var text := "I lost my job last month";
    ExampleMentionsJobLoss(text);
    JobLossOverrides(100000.0, 30, text);
    ExactHundredsUnchanged(50000);
  }

  lemma ExampleMentionsJobLoss(text: string)
    requires text == "I lost my job last month"
    ensures Mentions(JobLossKeywords, text)
  {
    var piece := "lost my job";
    assert text == "I " + piece + " last month";
    assert text[2..13] == piece;
    assert Lower(piece) == piece;
    LowerKeepsOccurrence(piece, text, 2);
    assert Contains(piece, Lower(text));
    assert JobLossKeywords[2] == piece;
  }

  /** Credit Card, 45,000, 120 days, no chat: small balance beats delinquency; the floor 40,500 is kept as is. */
  lemma ExampleSmallBalance()
    ensures GetDiscountPercentage("Credit Card", 45000.0, 120, "") == Decision(0.10, "CC Small Balance")
    ensures ScenarioOffer(Borrower("Credit Card", 45000.0, 120), "") == 40500
  {
    ExactHundredsUnchanged(40500);
  }

  /** Personal Loan, 80,000, 95 days, nothing to flag in the chat: high delinquency, floor 52,000 kept exactly. */
  lemma ExampleHighDelinquency()
    ensures GetDiscountPercentage("Personal Loan", 80000.0, 95, "") == Decision(0.35, "PL High Delinquency")
    ensures ScenarioOffer(Borrower("Personal Loan", 80000.0, 95), "") == 52000
  {
    ExactHundredsUnchanged(52000);
  }
}
