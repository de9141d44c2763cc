/**
 * The settlement policy stated declaratively: each rule with the conditions
 * under which it qualifies, the maximum discount it permits and its label,
 * and the order in which rules are tried. The rule that governs a case is the
 * first qualifying rule of the ladder; the classifiers are proved against it.
 */
module Policy {
  import opened Text

  const PersonalLoan := "Personal Loan"
  const CreditCard := "Credit Card"

  const JobLossKeywords: seq<string> := ["job loss", "unemployment", "lost my job"]
  const MedicalKeywords: seq<string> := ["hospital", "medical"]

  /** Credit-card balances below this are settled under the small-balance rule. */
  const SmallBalanceLimit := 50000.0
  /** Days past due beyond which a loan counts as highly delinquent. */
  const HighDelinquencyDays := 90

  /** Every discount ceiling the policy can grant. */
  const DiscountLevels: set<real> := {0.0, 0.10, 0.20, 0.30, 0.35, 0.45, 0.50}

  /** Some keyword occurs in the chat text, ignoring case. */
  predicate Mentions(keywords: seq<string>, chatText: string)
  {
    exists k :: 0 <= k < |keywords| && Contains(keywords[k], Lower(chatText))
  }

  datatype Case = Case(loanType: string, principal: real, dpd: int, chatText: string)

  datatype Rule =
    | JobLossPL | MedicalPL | HighDelinquencyPL | StandardPL
    | SmallBalanceCC | HighDelinquencyCC | StandardCC
    | Unknown

  /** The conditions of one rule, read on their own. */
  predicate Qualifies(r: Rule, c: Case)
  {
    match r
    case JobLossPL => c.loanType == PersonalLoan && Mentions(JobLossKeywords, c.chatText)
    case MedicalPL => c.loanType == PersonalLoan && Mentions(MedicalKeywords, c.chatText)
    case HighDelinquencyPL => c.loanType == PersonalLoan && c.dpd > HighDelinquencyDays
    case StandardPL => c.loanType == PersonalLoan
    case SmallBalanceCC => c.loanType == CreditCard && c.principal < SmallBalanceLimit
    case HighDelinquencyCC => c.loanType == CreditCard && c.dpd > HighDelinquencyDays
    case StandardCC => c.loanType == CreditCard
    case Unknown => true
  }

  /** Rules in priority order; no stacking: the first that qualifies decides. */
  const Ladder: seq<Rule> :=
    [JobLossPL, MedicalPL, HighDelinquencyPL, StandardPL,
     SmallBalanceCC, HighDelinquencyCC, StandardCC, Unknown]

  /** Position of the first rule of `rules` that qualifies, or `|rules|` if none does. */
  function FirstQualifying(rules: seq<Rule>, c: Case): (k: nat)
    ensures k <= |rules|
    ensures k < |rules| ==> Qualifies(rules[k], c)
    ensures forall j :: 0 <= j < k ==> !Qualifies(rules[j], c)
    decreases |rules|
  {
    if |rules| == 0 then 0
    else if Qualifies(rules[0], c) then 0
    else 1 + FirstQualifying(rules[1..], c)
  }

  /** The rule that governs a case: some rule always does, since `Unknown` closes the ladder. */
  function Governing(c: Case): (r: Rule)
    ensures Qualifies(r, c)
    ensures exists k :: 0 <= k < |Ladder| && Ladder[k] == r && forall j :: 0 <= j < k ==> !Qualifies(Ladder[j], c)
  {
    var k := FirstQualifying(Ladder, c);
    assert Qualifies(Ladder[7], c);
    Ladder[k]
  }

  /** The maximum discount a rule permits. */
  function Ceiling(r: Rule): real
  {
    match r
    case JobLossPL => 0.50
    case MedicalPL => 0.45
    case HighDelinquencyPL => 0.35
    case StandardPL => 0.20
    case SmallBalanceCC => 0.10
    case HighDelinquencyCC => 0.50
    case StandardCC => 0.30
    case Unknown => 0.0
  }

  function Label(r: Rule): string
  {
    match r
    case JobLossPL => "Job Loss (PL)"
    case MedicalPL => "Medical (PL)"
    case HighDelinquencyPL => "PL High Delinquency"
    case StandardPL => "PL Standard"
    case SmallBalanceCC => "CC Small Balance"
    case HighDelinquencyCC => "CC High Delinquency"
    case StandardCC => "CC Standard"
    case Unknown => "Unknown"
  }

  /** A discount ceiling with the label of the rule that produced it. */
  datatype Decision = Decision(discount: real, ruleName: string)

  function Decide(r: Rule): Decision
  {
    Decision(Ceiling(r), Label(r))
  }

  /** Labels name rules one-to-one, and every ceiling is a discount level within [0, 1]. */
  lemma LabelsIdentifyRules(r1: Rule, r2: Rule)
    ensures Label(r1) == Label(r2) ==> r1 == r2
    ensures Ceiling(r1) in DiscountLevels && 0.0 <= Ceiling(r1) <= 1.0
  {
  }
}
