/**
 * agent.py: the retrieve -> reason -> calculate pipeline run per scenario.
 * The policy retriever, the language-model chain, `json.loads` and `float`
 * of a string are collaborators this model does not see into; each is a
 * parameter that returns a value or a failure.
 */
module Agent {
  import opened Wrappers
  import opened Text
  import opened Chat
  import opened Offer
  import opened Batch
  import Solve

  /** A value `json.loads` can return. */
  datatype JValue =
    | JNull
    | JBool(b: bool)
    | JNumber(n: real)
    | JString(s: string)
    | JArray(items: seq<JValue>)
    | JObject(fields: map<string, JValue>)

  /** The graph state `AgentState`. `selected_rule` holds whatever the model's JSON put under "rule_name". */
  datatype AgentState = AgentState(
    scenarioId: string,
    borrowerId: string,
    loanType: string,
    principal: real,
    dpd: int,
    chatHistory: string,
    retrievedPolicy: string,
    selectedRule: JValue,
    discountPercent: real,
    minOffer: int)

  /** The variables the prompt template is filled with. */
  datatype PromptInput = PromptInput(loanType: string, principal: real, dpd: int, chatHistory: string, retrievedPolicy: string)

  /** The outside calls; a `Failure` stands for an exception. */
  datatype Env = Env(
    retrievePolicy: string -> Result<string, string>,
    chain: PromptInput -> Result<string, string>,
    jsonLoads: string -> Option<JValue>,
    parseFloat: string -> Option<real>)

  // ------------------------------------------------------------------ retrieve

  /** The search string `f"{loan_type} DPD {dpd} {chat_history}"`. */
  function RetrievalQuery(state: AgentState): string
  {
    state.loanType + " DPD " + IntToString(state.dpd) + " " + state.chatHistory
  }

  /** The query holds the loan type, then " DPD ", then the DPD in decimal, then a space and the chat text, in that order. */
  lemma QueryFields(state: AgentState)
    ensures var q, n, m := RetrievalQuery(state), |state.loanType|, |state.chatHistory|;
            n + 5 <= |q| - m - 1
            && q[..n] == state.loanType
            && q[n..n + 5] == " DPD "
            && ParseInt(q[n + 5..|q| - m - 1]) == state.dpd
            && q[|q| - m - 1] == ' '
            && q[|q| - m..] == state.chatHistory
  {
    ConcatFive(state.loanType, " DPD ", IntToString(state.dpd), " ", state.chatHistory);
    IntToStringRoundTrip(state.dpd);
  }

  /** `retrieve_node`: the policy passages for the query, or the retriever's exception. */
  function RetrieveNode(state: AgentState, env: Env): Result<string, string>
  {
    env.retrievePolicy(RetrievalQuery(state))
  }

  // -------------------------------------------------------------------- reason

  /** What `reason_node` writes back: `selected_rule` and `discount_percent`. */
  datatype Reasoning = Reasoning(selectedRule: JValue, discountPercent: real)

  /** The safe default on any failure in the model call, the parse or the conversion. */
  const Fallback := Reasoning(JString("Error Fallback"), 0.20)

  /** `response.replace("```json", "").replace("```", "").strip()`. */
  function CleanResponse(response: string): (r: string)
    ensures !Contains(Fence, r) && !Contains(JsonFence, r)
    ensures r == [] || (!IsSpace(r[0]) && !IsSpace(r[|r| - 1]))
  {
    var unfenced := Replace(Replace(response, JsonFence, ""), Fence, "");
    RemoveFenceLeavesNone(Replace(response, JsonFence, ""));
    StripKeepsAbsence(Fence, unfenced);
    var r := Strip(unfenced);
    JsonFenceHoldsFence(r);
    r
  }

  predicate NoBacktick(s: string)
  {
    forall k :: 0 <= k < |s| ==> s[k] != '`'
  }

  lemma {:induction false} ReplaceSkipsPlainText(b: string, t: string, pat: string, rep: string)
    requires |pat| > 0 && pat[0] == '`' && NoBacktick(b)
    requires |t| < |pat| ==> Replace(t, pat, rep) == t
    ensures Replace(b + t, pat, rep) == b + Replace(t, pat, rep)
    decreases |b|
  {
    var s := b + t;
    if |b| == 0 {
      assert s == t;
    } else {
      assert s[0] == b[0] && s[1..] == b[1..] + t;
      ReplaceSkipsPlainText(b[1..], t, pat, rep);
      if |s| < |pat| {
        assert Replace(s, pat, rep) == s;
      } else {
        assert s[..|pat|][0] != pat[0];
        assert Replace(s, pat, rep) == [s[0]] + Replace(s[1..], pat, rep);
      }
      assert [b[0]] + b[1..] == b;
    }
  }

  /**
   * Wrapping a reply in a ```json fence changes nothing about what is parsed,
   * whatever the reply holds; a reply without backticks is only stripped.
   */
  lemma FencedReplyParsesAsBare(body: string)
    ensures CleanResponse(JsonFence + body + Fence) == CleanResponse(body)
    ensures NoBacktick(body) ==> CleanResponse(body) == Strip(body)
  {
    var fenced := JsonFence + body + Fence;
    assert fenced[..7] == JsonFence && fenced[7..] == body + Fence;
    var unjson := Replace(body, JsonFence, "");
    ReplaceJsonFenceKeepsTrailing(body);
    assert Replace(fenced, JsonFence, "") == unjson + Fence;
    ReplaceFenceDropsTrailing(unjson);
    assert Replace(Replace(fenced, JsonFence, ""), Fence, "") == Replace(unjson, Fence, "");
    if NoBacktick(body) {
      ReplaceSkipsPlainText(body, "", JsonFence, "");
      ReplaceSkipsPlainText(body, "", Fence, "");
      assert body + "" == body;
    }
  }

  /** Python's `float(value)` for a value read from JSON. */
  function ToFloat(v: JValue, parseFloat: string -> Option<real>): Option<real>
  {
    match v
    case JNumber(n) => Some(n)
    case JBool(b) => Some(if b then 1.0 else 0.0)
    case JString(s) => parseFloat(s)
    case _ => None
  }

  /** The variables `reason_node` fills into the prompt. */
  function Prompt(state: AgentState): PromptInput
  {
    PromptInput(state.loanType, state.principal, state.dpd, state.chatHistory, state.retrievedPolicy)
  }

  /** `reason_node`: ask the model, clean and parse its reply, fall back on any failure. It never fails itself. */
  function ReasonNode(state: AgentState, env: Env): Reasoning
  {
    match env.chain(Prompt(state))
    case Failure(_) => Fallback
    case Success(response) =>
      match env.jsonLoads(CleanResponse(response))
      case None => Fallback
      case Some(data) =>
        if !data.JObject? then Fallback
        else
          var rule := if "rule_name" in data.fields then data.fields["rule_name"] else JString("Unknown");
          var discount := if "discount_percent" in data.fields then data.fields["discount_percent"] else JNumber(0.0);
          match ToFloat(discount, env.parseFloat)
          case None => Fallback
          case Some(d) => Reasoning(rule, d)
  }

  /** A failed model call, an unparseable reply or a reply that is not a JSON object gives exactly the fallback. */
  lemma FailuresFallBack(state: AgentState, env: Env)
    ensures env.chain(Prompt(state)).Failure? ==> ReasonNode(state, env) == Fallback
    ensures env.chain(Prompt(state)).Success? && env.jsonLoads(CleanResponse(env.chain(Prompt(state)).value)).None?
            ==> ReasonNode(state, env) == Fallback
    ensures env.chain(Prompt(state)).Success? && env.jsonLoads(CleanResponse(env.chain(Prompt(state)).value)).Some?
            && !env.jsonLoads(CleanResponse(env.chain(Prompt(state)).value)).value.JObject?
            ==> ReasonNode(state, env) == Fallback
  {
  }

  /** A parsed object: a missing "rule_name" reads as "Unknown", a missing "discount_percent" as 0.0, an unconvertible one falls back. */
  lemma ParsedObjectDefaults(state: AgentState, env: Env, fields: map<string, JValue>)
    requires env.chain(Prompt(state)).Success?
    requires env.jsonLoads(CleanResponse(env.chain(Prompt(state)).value)) == Some(JObject(fields))
    ensures "discount_percent" !in fields ==> ReasonNode(state, env).discountPercent == 0.0
    ensures "rule_name" !in fields && ReasonNode(state, env) != Fallback
            ==> ReasonNode(state, env).selectedRule == JString("Unknown")
    ensures "discount_percent" in fields && ToFloat(fields["discount_percent"], env.parseFloat).None?
            ==> ReasonNode(state, env) == Fallback
    ensures "discount_percent" in fields && fields["discount_percent"] == JNull ==> ReasonNode(state, env) == Fallback
  {
  }

  // ----------------------------------------------------------------- calculate

  /** `calculate_node`: `round(min_offer / 100) * 100`, a multiple of 100 within 50 of the floor, the even hundred on a tie. */
  function CalculateNode(state: AgentState): (minOffer: int)
    ensures minOffer % 100 == 0
    ensures RawOffer(state.principal, state.discountPercent) - 50.0 <= minOffer as real
            <= RawOffer(state.principal, state.discountPercent) + 50.0
    ensures (minOffer as real == RawOffer(state.principal, state.discountPercent) - 50.0
             || minOffer as real == RawOffer(state.principal, state.discountPercent) + 50.0)
            ==> (minOffer / 100) % 2 == 0
  {
    RoundTo100(RawOffer(state.principal, state.discountPercent))
  }

  /** The agent rounds exactly as solve.py does. */
  lemma CalculateLikeSolve(state: AgentState)
    ensures CalculateNode(state) == Solve.CalculateMinOffer(state.principal, state.discountPercent)
  {
    RoundTo100Unique(RawOffer(state.principal, state.discountPercent), CalculateNode(state));
  }

  // --------------------------------------------------------------------- graph

  /** `app.invoke`: retrieve, then reason, then calculate, each merging its fields into the state. */
  function Invoke(state: AgentState, env: Env): Result<AgentState, string>
  {
    match RetrieveNode(state, env)
    case Failure(e) => Failure(e)
    case Success(policy) =>
      var retrieved := state.(retrievedPolicy := policy);
      var reasoning := ReasonNode(retrieved, env);
      var reasoned := retrieved.(selectedRule := reasoning.selectedRule, discountPercent := reasoning.discountPercent);
      Success(reasoned.(minOffer := CalculateNode(reasoned)))
  }

  /** The case fields of a state: what the graph reads rather than writes. */
  predicate SameCase(s1: AgentState, s2: AgentState)
  {
    s1.scenarioId == s2.scenarioId && s1.borrowerId == s2.borrowerId && s1.loanType == s2.loanType
    && s1.principal == s2.principal && s1.dpd == s2.dpd && s1.chatHistory == s2.chatHistory
  }

  /**
   * The graph keeps the case fields and overwrites the other four, so the
   * placeholders a run starts with never reach its result.
   */
  lemma InvokeKeepsCase(s1: AgentState, s2: AgentState, env: Env)
    requires SameCase(s1, s2)
    ensures Invoke(s1, env).Success? <==> Invoke(s2, env).Success?
    ensures Invoke(s1, env).Success? ==> Invoke(s1, env).value == Invoke(s2, env).value && SameCase(Invoke(s1, env).value, s1)
  {
    assert RetrievalQuery(s1) == RetrievalQuery(s2);
    if RetrieveNode(s1, env).Success? {
      var policy := RetrieveNode(s1, env).value;
      assert Prompt(s1.(retrievedPolicy := policy)) == Prompt(s2.(retrievedPolicy := policy));
    }
  }

  /** With a retriever that answers and a model that always fails, the offer is the 20% floor rounded to nearest. */
  lemma ModelOutageGivesStandardOffer(state: AgentState, env: Env)
    requires RetrieveNode(state, env).Success?
    requires forall p :: env.chain(p).Failure?
    ensures Invoke(state, env).Success?
    ensures Invoke(state, env).value.selectedRule == JString("Error Fallback")
    ensures Invoke(state, env).value.minOffer == RoundTo100(RawOffer(state.principal, 0.20))
  {
  }

  // --------------------------------------------------------------------- batch

  /** The state `run_agent` starts a scenario from: case fields filled, the rest placeholders. */
  function InitialState(scenario: Scenario, borrower: Borrower, userText: string): AgentState
  {
    AgentState(
      scenario.scenarioId, scenario.borrowerId,
      borrower.loanType, borrower.principal, borrower.dpd, userText,
      "", JString(""), 0.0, 0)
  }

  /** The row for a scenario: the graph's offer, or 0 if the graph raised. */
  function AgentRow(scenario: Scenario, borrower: Borrower, env: Env): OfferRow
  {
    var initialState := InitialState(scenario, borrower, UserText(scenario.chatHistory));
    match Invoke(initialState, env)
    case Success(finalState) => OfferRow(finalState.scenarioId, finalState.minOffer)
    case Failure(_) => OfferRow(scenario.scenarioId, 0)
  }

  /** Raised by `borrower['loan_type']` when the borrower is missing and `borrower` is `None`. */
  const MissingBorrowerError := "'NoneType' object is not subscriptable"

  /**
   * The outcome of `run_agent` over `scenarios`: the rows in order, or the
   * exception that ends the run at the first scenario with no borrower.
   */
  function RunAgentOutcome(borrowers: map<string, Borrower>, scenarios: seq<Scenario>, env: Env): Result<seq<OfferRow>, string>
    decreases |scenarios|
  {
    if |scenarios| == 0 then Success([])
    else
      var last := scenarios[|scenarios| - 1];
      match RunAgentOutcome(borrowers, scenarios[..|scenarios| - 1], env)
      case Failure(e) => Failure(e)
      case Success(rows) =>
        if last.borrowerId !in borrowers then Failure(MissingBorrowerError)
        else Success(rows + [AgentRow(last, borrowers[last.borrowerId], env)])
  }

  /** Once the run has failed, later scenarios cannot bring it back. */
  lemma {:induction false} FailureIsFinal(borrowers: map<string, Borrower>, scenarios: seq<Scenario>, n: int, env: Env)
    requires 0 <= n <= |scenarios|
    requires RunAgentOutcome(borrowers, scenarios[..n], env).Failure?
    ensures RunAgentOutcome(borrowers, scenarios, env) == RunAgentOutcome(borrowers, scenarios[..n], env)
    decreases |scenarios| - n
  {
    if n < |scenarios| {
      assert scenarios[..n + 1][..n] == scenarios[..n];
      FailureIsFinal(borrowers, scenarios, n + 1, env);
    } else {
      assert scenarios[..n] == scenarios;
    }
  }

  /** `run_agent` with loading, printing and saving left out. */
  method RunAgent(borrowers: map<string, Borrower>, scenarios: seq<Scenario>, env: Env)
    returns (outcome: Result<seq<OfferRow>, string>)
    ensures outcome == RunAgentOutcome(borrowers, scenarios, env)
  {
    var results: seq<OfferRow> := [];
    for i := 0 to |scenarios|
      invariant RunAgentOutcome(borrowers, scenarios[..i], env) == Success(results)
    {
      assert scenarios[..i + 1][..i] == scenarios[..i];
      var scenario := scenarios[i];
      var borrowerId := scenario.borrowerId;
      var userText := UserText(scenario.chatHistory);
      if borrowerId !in borrowers {
        FailureIsFinal(borrowers, scenarios, i + 1, env);
        outcome := Failure(MissingBorrowerError);
        return;
      }
      var borrower := borrowers[borrowerId];
      var initialState := InitialState(scenario, borrower, userText);
      var row;
      match Invoke(initialState, env) {
        case Success(finalState) =>
          row := OfferRow(finalState.scenarioId, finalState.minOffer);
        case Failure(_) =>
          row := OfferRow(scenario.scenarioId, 0);
      }
      results := results + [row];
    }
    assert scenarios[..|scenarios|] == scenarios;
    outcome := Success(results);
  }

  /**
   * With every borrower on record, the run completes with one row per
   * scenario, in input order: row i is scenario i's `AgentRow`, under its id.
   */
  lemma {:induction false} OneRowPerScenario(borrowers: map<string, Borrower>, scenarios: seq<Scenario>, env: Env)
    requires forall i :: 0 <= i < |scenarios| ==> scenarios[i].borrowerId in borrowers
    ensures RunAgentOutcome(borrowers, scenarios, env).Success?
    ensures |RunAgentOutcome(borrowers, scenarios, env).value| == |scenarios|
    ensures forall i :: 0 <= i < |scenarios| ==>
              RunAgentOutcome(borrowers, scenarios, env).value[i]
              == AgentRow(scenarios[i], borrowers[scenarios[i].borrowerId], env)
    ensures forall i :: 0 <= i < |scenarios| ==>
              RunAgentOutcome(borrowers, scenarios, env).value[i].scenarioId == scenarios[i].scenarioId
    decreases |scenarios|
  {
    if |scenarios| > 0 {
      var n := |scenarios| - 1;
      OneRowPerScenario(borrowers, scenarios[..n], env);
    }
  }

  /** A missing borrower anywhere aborts the whole run: no rows are produced at all. */
  lemma MissingBorrowerAborts(borrowers: map<string, Borrower>, scenarios: seq<Scenario>, i: int, env: Env)
    requires 0 <= i < |scenarios| && scenarios[i].borrowerId !in borrowers
    ensures RunAgentOutcome(borrowers, scenarios, env).Failure?
  {
    var front := RunAgentOutcome(borrowers, scenarios[..i], env);
    assert scenarios[..i + 1][..i] == scenarios[..i];
    if front.Success? {
      assert RunAgentOutcome(borrowers, scenarios[..i + 1], env).Failure?;
      FailureIsFinal(borrowers, scenarios, i + 1, env);
    } else {
      FailureIsFinal(borrowers, scenarios, i, env);
    }
  }

  /** Each row's offer is a multiple of 100: the rounded floor when the graph ran, 0 when it raised. */
  lemma AgentRowOffer(scenario: Scenario, borrower: Borrower, env: Env)
    ensures AgentRow(scenario, borrower, env).minAcceptableOffer % 100 == 0
    ensures AgentRow(scenario, borrower, env).scenarioId == scenario.scenarioId
    ensures Invoke(InitialState(scenario, borrower, UserText(scenario.chatHistory)), env).Failure?
            ==> AgentRow(scenario, borrower, env).minAcceptableOffer == 0
    ensures var st := InitialState(scenario, borrower, UserText(scenario.chatHistory));
            RetrieveNode(st, env).Failure? ==> AgentRow(scenario, borrower, env).minAcceptableOffer == 0
  {
  }
}
