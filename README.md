# Settlement-offer decision, modelled in Dafny

This project models how the CredResolve settlement scripts compute a minimum
acceptable settlement offer. The input is a borrower's loan type, outstanding
principal, days past due (DPD) and chat transcript. A rule classifier picks a
discount ceiling, and an offer calculator turns the discounted principal into
an offer that is a multiple of 100. The same decision appears in three scripts:

- `strict.py`: a deterministic classifier that returns `(discount, rule name)`. The offer is rounded **up** to a multiple of 100.
- `solve.py`: the same classifier returning the discount only. The offer is rounded to the **nearest** multiple of 100 with Python's `round`, which sends ties to the even hundred.
- `agent.py`: a retrieve → reason → calculate graph. A language model picks the rule. Its reply is cleaned, parsed as JSON and defaulted, and any failure falls back to `("Error Fallback", 0.20)`. The offer is rounded like `solve.py`.

Modules, one per component:

| file | module | what it holds |
|---|---|---|
| `wrappers.dfy` | `Wrappers` | `Option` and `Result`, for calls that may fail |
| `text.dfy` | `Text` | Python's `in`, `replace`, `strip`, `join` and `str(int)`, and ASCII `lower`/`upper` |
| `chat.dfy` | `Chat` | the chat text: the user turns joined with spaces |
| `offer.dfy` | `Offer` | the raw floor, and rounding by ceiling or by `round` |
| `policy.dfy` | `Policy` | the policy as a declarative rule ladder, used as the reference for the classifiers |
| `batch.dfy` | `Batch` | borrower, scenario and result records, and the batch loop shared by `strict.py` and `solve.py` |
| `strict.dfy` | `Strict` | strict.py: the classifier with rule names, ceiling rounding, and `solve` |
| `solve.dfy` | `Solve` | solve.py: the discount-only classifier, nearest rounding, and `solve` |
| `agent.dfy` | `Agent` | agent.py: the nodes, graph and `run_agent` |

Arithmetic is exact. Principal and discount are `real`, and rounding uses `.Floor`.
The collaborators the code calls without the model seeing inside them are
parameters bundled in `Agent.Env`:
- the policy retriever, `string -> Result<string, string>`;
- the prompt-plus-model chain, `PromptInput -> Result<string, string>`;
- `json.loads`, `string -> Option<JValue>`;
- `float` of a string, `string -> Option<real>`.

Where the design description and the code disagree, the model follows the code:
- **Rounding.** The design requires rounding up everywhere. Only `strict.py` does that. `solve.py` and `agent.py` use `round`, and the model keeps the two contracts apart. `Solve.UndercutsFloor` shows a Credit Card of 45,020: its floor is 40,518, `solve.py` offers 40,500 and `strict.py` offers 40,600.
- **A worked example.** The design says a 40,500 floor "rounds up" to 40,600. Under `math.ceil` an exact multiple of 100 is kept, so the code gives 40,500 (`Strict.ExampleSmallBalance`).
- **Retrieval failure.** The design calls it fatal. In `agent.py` the retriever runs inside `app.invoke`, which is inside the `try`, so the scenario just gets offer 0 (`Agent.AgentRowOffer`).
- **Missing borrower.** The design says skip the scenario or write 0. `strict.py` and `solve.py` skip it. `agent.py` indexes `None` outside the `try`, so the whole run ends with an exception and writes nothing (`Agent.MissingBorrowerAborts`).
- **Missing fields in the model's reply.** The design sends an incomplete reply to the fallback. The code reads the fields with `.get` defaults (agent.py:93-94): a missing `"discount_percent"` becomes 0.0, so the offer is the whole principal rounded, not the 20% fallback (`Agent.ParsedObjectDefaults`).
- **Out-of-range discount.** The design says the calculator should reject a discount outside [0, 1]. The code does not check, so the calculators here take any discount.
- **Rule names.** The code's names are "Job Loss (PL)", "CC Small Balance" and so on, not the design's shorter names.

## Model

| member | source | states |
|---|---|---|
| `Text.Contains` | strict.py:12-13 | substring test: true exactly when the needle occurs at some index of the text |
| `Text.LowerOfUpper` | solve.py:9 | lower-casing after ASCII upper-casing equals lower-casing, so ASCII case never matters to the keyword tests |
| `Text.LowerKeepsOccurrence` | solve.py:9 | lower-casing keeps every occurrence of a piece at the same index |
| `Text.ReplaceAbsent` | agent.py:89 | `replace` of a pattern that does not occur returns the text unchanged |
| `Text.RemoveFenceLeavesNone` | agent.py:89 | after `replace("```", "")` no fence remains, not even one formed across a deletion |
| `Text.JsonFenceHoldsFence` | agent.py:89 | a text containing "```json" contains "```" |
| `Text.ReplaceFenceDropsTrailing` | agent.py:89 | `replace("```", "")` removes a fence appended to any text whole, leaving the text's own result |
| `Text.ReplaceJsonFenceKeepsTrailing` | agent.py:89 | `replace("```json", "")` passes a fence appended to any text through unchanged |
| `Text.Strip` | agent.py:89 | `strip()` result neither starts nor ends with whitespace and sits inside the input with only whitespace around it |
| `Text.StripKeepsAbsence` | agent.py:89 | `strip()` cannot create a substring the input lacks |
| `Text.JoinAppend` | solve.py:94 | joining two non-empty lists is their joins with one separator between |
| `Text.JoinKeepsPart` | solve.py:94 | every joined part occurs, whole, in the joined text |
| `Text.Replace` | agent.py:89 | Python's `str.replace`: leftmost non-overlapping matches; its properties are `Text.ReplaceAbsent` and `Text.RemoveFenceLeavesNone` |
| `Text.Join` | solve.py:94 | `sep.join(parts)`; its properties are `Text.JoinAppend` and `Text.JoinKeepsPart` |
| `Text.Lower` | solve.py:9 | `str.lower` on ASCII letters; `Text.LowerKeepsOccurrence` and `Text.LowerOfUpper` state what the keyword tests need |
| `Text.IntToString` | agent.py:40 | `str(dpd)` in decimal with a leading `-` for negatives; `Text.IntToStringRoundTrip` reads it back |
| `Text.IntToStringRoundTrip` | agent.py:40 | the decimal text of the DPD reads back as the same integer |
| `Chat.UserText` | solve.py:94 | the user turns' contents joined with single spaces; the lemmas below state which turns reach it |
| `Chat.UserContentsAppend` | solve.py:94 | selecting user contents keeps order and distributes over splitting the transcript |
| `Chat.OtherTurnIgnored` | strict.py:93 | a turn whose role is not "user" leaves the chat text unchanged, wherever it stands |
| `Chat.UserTurnKept` | agent.py:155 | a user turn contributes exactly its content, after the earlier user contents |
| `Chat.UserTurnInText` | solve.py:94 | the content of every user turn occurs, whole, in the chat text |
| `Offer.RawOffer` | strict.py:44-45 | the floor `principal - principal * discount`: between 0 and the principal for a discount in [0, 1], the principal itself at discount 0 |
| `Offer.Ceil` | strict.py:59 | `math.ceil`: the least integer not below its argument |
| `Offer.RoundHalfEven` | solve.py:53 | `round`: within one half of its argument, and even when exactly half away |
| `Offer.CeilTo100` | strict.py:59 | a multiple of 100, not below the floor and less than 100 above it |
| `Offer.RoundTo100` | solve.py:53 | a multiple of 100 within 50 of the floor, the even hundred on a tie |
| `Offer.CeilTo100Unique` | strict.py:55-59 | the ceiling contract determines the offer: no other multiple of 100 meets it |
| `Offer.RoundTo100Unique` | agent.py:112 | the nearest-even contract determines the offer |
| `Offer.ExactHundredsUnchanged` | strict.py:59 | an exact multiple of 100 passes through either rounding unchanged |
| `Offer.RoundingIdempotent` | strict.py:59 | rounding an offer a second time changes nothing, for both roundings |
| `Offer.CeilNotBelowRound` | solve.py:46-53 | rounding up never gives less than rounding to nearest |
| `Offer.NearestCanUndercutFloor` | solve.py:53 | floor 40,518 rounds to 40,500, below it, while the ceiling gives 40,600 |
| `Offer.TieGoesToEvenHundred` | agent.py:112 | 40,450 rounds to 40,400 and 40,550 to 40,600 |
| `Policy.FirstQualifying` | strict.py:16-35 | position of the first qualifying rule: that rule qualifies and no earlier one does |
| `Policy.Governing` | strict.py:16-35 | some rule always governs, and it is the first qualifying rule of the ladder |
| `Policy.LabelsIdentifyRules` | strict.py:16-35 | rule names identify rules one-to-one, and each ceiling is one of the seven discount levels in [0, 1] |
| `Batch.ProcessScenarios` | strict.py:77-104 | the loop's output equals the specification `Rows`: one row per scenario with a known borrower, in order |
| `Batch.RowsAppend` | solve.py:78-105 | scenarios are independent: the rows of a concatenation are the concatenated rows |
| `Batch.MissingBorrowerSkipped` | solve.py:84-87 | a scenario whose borrower is missing leaves no trace in the output |
| `Batch.OneRowPerScenario` | solve.py:78-105 | when every borrower exists: exactly one row per scenario, in input order |
| `Batch.RowsComeFromKnownBorrowers` | strict.py:83-104 | every row comes from a scenario whose borrower exists |
| `Strict.GetDiscountPercentage` | strict.py:5-35 | every discount returned is one of 0, 0.10, 0.20, 0.30, 0.35, 0.45, 0.50 |
| `Strict.MentionsJobLossIff` | strict.py:12 | the job-loss flag is set exactly when one of the three job-loss keywords occurs |
| `Strict.MentionsMedicalIff` | strict.py:13 | the medical flag is set exactly when "hospital" or "medical" occurs |
| `Strict.FollowsPolicyLadder` | strict.py:5-35 | the classifier returns the ceiling and name of the first qualifying rule of the ladder, for every input |
| `Strict.JobLossOverrides` | strict.py:16-18 | Personal Loan with a job-loss keyword gives (0.50, "Job Loss (PL)"), whatever the medical keywords and DPD |
| `Strict.MedicalNext` | strict.py:19-20 | Personal Loan with a medical keyword and no job-loss keyword gives (0.45, "Medical (PL)") |
| `Strict.PersonalLoanByDelinquency` | strict.py:21-24 | Personal Loan without keywords gives "PL High Delinquency" (0.35) when DPD > 90, else "PL Standard" (0.20) |
| `Strict.SmallBalanceOverrides` | strict.py:26-29 | Credit Card under 50,000 gives (0.10, "CC Small Balance"), whatever the DPD and chat |
| `Strict.CreditCardDelinquencyIff` | strict.py:30-33 | Credit Card from 50,000 is "CC High Delinquency" (0.50) if and only if DPD > 90, else "CC Standard" (0.30) |
| `Strict.CreditCardIgnoresChat` | strict.py:26-33 | the chat text never changes a Credit Card decision |
| `Strict.UnknownLoanType` | strict.py:35 | any other loan type gives (0.0, "Unknown") |
| `Strict.CaseInsensitive` | strict.py:9 | ASCII upper-casing of the chat never changes the decision |
| `Strict.JobLossInAnyUserTurn` | strict.py:93-96 | a job-loss keyword in any one user turn decides a Personal Loan case |
| `Strict.CalculateMinOffer` | strict.py:37-61 | a multiple of 100, not below principal·(1−discount) and less than 100 above it, taking the discount from a pair or alone |
| `Strict.PairSameAsDiscount` | strict.py:41-42 | passing the (discount, rule) pair gives the same offer as passing the discount |
| `Strict.ExactFloorKept` | strict.py:55-59 | a floor that is already a multiple of 100 is the offer itself |
| `Strict.ScenarioOffer` | strict.py:96-99 | the scenario's offer: a multiple of 100, not below its floor and less than 100 above it |
| `Strict.ScenarioOfferBounds` | strict.py:96-99 | for a non-negative principal the offer is a non-negative multiple of 100 and not below the floor |
| `Strict.Solve` | strict.py:77-104 | `solve` emits the specified rows, one per scenario with a known borrower, in order |
| `Strict.SolveRowsRespectFloor` | strict.py:77-104 | every row written is a multiple of 100 not below its own scenario's floor |
| `Strict.ExampleJobLoss` | strict.py:16-18 | Personal Loan, 100,000, DPD 30, "I lost my job last month": offer 50,000 |
| `Strict.ExampleSmallBalance` | strict.py:28-29 | Credit Card, 45,000, DPD 120, no chat: "CC Small Balance", offer 40,500 |
| `Strict.ExampleHighDelinquency` | strict.py:21-22 | Personal Loan, 80,000, DPD 95, no keywords: "PL High Delinquency", offer 52,000 |
| `Solve.GetDiscountPercentage` | solve.py:5-34 | every discount returned is one of the seven discount levels |
| `Solve.AgreesWithStrict` | solve.py:5-34 | the discount equals strict.py's for every input, and so the ladder's ceiling |
| `Solve.CalculateMinOffer` | solve.py:36-62 | a multiple of 100 within 50 of principal·(1−discount), the even hundred on a tie; the overwritten ceiling has no effect |
| `Solve.NotAboveStrict` | solve.py:46-53 | the nearest-rounded offer never exceeds strict.py's offer |
| `Solve.ScenarioOffer` | solve.py:97-100 | the scenario's offer: a multiple of 100, never above strict.py's offer for the same borrower and chat |
| `Solve.Solve` | solve.py:78-105 | `solve` emits the specified rows, one per scenario with a known borrower, in order |
| `Solve.UndercutsFloor` | solve.py:53 | a Credit Card of 45,020 gets 40,500, below its 40,518 floor; strict.py gives 40,600 |
| `Agent.RetrievalQuery` | agent.py:40 | the f-string query; `Agent.QueryFields` recovers its five fields |
| `Agent.RetrieveNode` | agent.py:36-42 | the retriever's passages for the query, or its exception; a failure makes the row's offer 0 (`Agent.AgentRowOffer`) |
| `Agent.ToFloat` | agent.py:94 | `float(value)` of a JSON value: numbers as-is, booleans as 1.0/0.0, strings through the parser, anything else fails |
| `Agent.Prompt` | agent.py:80-86 | the five state fields passed to the model chain; `Agent.FailuresFallBack` and `Agent.ParsedObjectDefaults` are stated over the chain's answer to it |
| `Agent.ReasonNode` | agent.py:44-99 | never fails: the model's parsed rule and discount, or the fallback; `Agent.FailuresFallBack` and `Agent.ParsedObjectDefaults` state each path |
| `Agent.QueryFields` | agent.py:40 | the query is the loan type, " DPD ", the DPD in decimal, a space, then the chat text, and each field reads back |
| `Agent.CleanResponse` | agent.py:89 | the cleaned reply holds no "```json" and no "```", and has no leading or trailing whitespace |
| `Agent.FencedReplyParsesAsBare` | agent.py:89-90 | any reply wrapped in a ```json fence is cleaned to the same text as the bare reply; a backtick-free reply is only stripped |
| `Agent.FailuresFallBack` | agent.py:79-99 | a failed model call, an unparseable reply or a non-object reply gives exactly ("Error Fallback", 0.20) |
| `Agent.ParsedObjectDefaults` | agent.py:92-99 | a missing "rule_name" reads "Unknown", a missing "discount_percent" reads 0.0, and an unconvertible one falls back |
| `Agent.CalculateNode` | agent.py:101-114 | a multiple of 100 within 50 of principal·(1−discount), the even hundred on a tie |
| `Agent.CalculateLikeSolve` | agent.py:112 | the agent rounds exactly as solve.py does |
| `Agent.Invoke` | agent.py:118-129 | retrieve, then reason, then calculate; `Agent.InvokeKeepsCase` and `Agent.ModelOutageGivesStandardOffer` state what it keeps and computes |
| `Agent.InvokeKeepsCase` | agent.py:157-171 | the graph keeps the case fields and overwrites the placeholders ("", "", 0.0, 0), which never reach the result |
| `Agent.ModelOutageGivesStandardOffer` | agent.py:96-99 | with the retriever answering and the model always failing, the rule is "Error Fallback" and the offer is the 20% floor rounded |
| `Agent.InitialState` | agent.py:157-168 | the case fields from the scenario and borrower, placeholders "", "", 0.0 and 0 for the rest |
| `Agent.AgentRow` | agent.py:170-181 | the graph's offer under the final state's id, or 0 under the scenario's id when the graph raised (`Agent.AgentRowOffer`) |
| `Agent.RunAgentOutcome` | agent.py:147-181 | the rows in scenario order, or the exception at the first missing borrower (`Agent.OneRowPerScenario`, `Agent.MissingBorrowerAborts`) |
| `Agent.FailureIsFinal` | agent.py:152-160 | once the run has raised, later scenarios do not change its outcome |
| `Agent.RunAgent` | agent.py:147-181 | the loop's outcome equals the specification `RunAgentOutcome` |
| `Agent.OneRowPerScenario` | agent.py:147-181 | with every borrower present the run completes with one row per scenario, in input order: row i is scenario i's `AgentRow`, so its offer is the graph's or 0 |
| `Agent.MissingBorrowerAborts` | agent.py:152-160 | a missing borrower anywhere ends the whole run with an exception |
| `Agent.AgentRowOffer` | agent.py:170-181 | every row's offer is a multiple of 100, and 0 when the graph, e.g. its retriever, raised |

## Left out

- `rag.py`: the Chroma index, the embeddings, the Markdown splitter, the lazily built global store and the `"\n\n"` join are behind the `retrievePolicy` parameter. They are foreign calls.
- `list_models.py`: a network call and printing.
- The language-model client and the prompt text: the chain is an opaque parameter over the prompt's variables.
- `json.loads` and `float` of a string are opaque parameters. No JSON or number parser is modelled.
- LangGraph: the graph is plain sequential composition, retrieve then reason then calculate, over a state record.
- File and CSV I/O, building the borrower dictionary, and all `print` logging, including the progress line every 50 scenarios. The borrower table is a `map` from borrower id to record. A duplicate borrower id would make pandas raise, and that is not modelled.
- Text.Lower: maps only the ASCII letters, not Python's full Unicode case mapping. This never changes a classifier decision: the only non-ASCII characters Python lower-cases to ASCII letters are U+0130 (to "i" plus a combining dot) and U+212A (to "k"); no keyword contains "k", and no keyword ends in "i", so neither can complete a keyword match.
- Text.Upper: maps only the ASCII letters. Python's `str.upper` also sends "ı" to "I", "ſ" to "S" and "ß" to "SS".
- Text.LowerOfUpper: holds for ASCII upper-casing only. With Python's `str.upper`, `"ß".upper().lower()` is `"ss"`, not `"ß"`.
- Strict.CaseInsensitive: holds for ASCII upper-casing only. With Python's `str.upper`, a Personal Loan at 30 DPD whose chat says "hospıtal" (dotless ı) gets "PL Standard", while the upper-cased chat "HOSPITAL" gets "Medical (PL)".
- Offer.RawOffer: exact arithmetic, not IEEE-754. For example, 0.35 is inexact in binary, and an infinite discount makes `round` raise. Both are out of scope.
- Records are typed. A scenario or chat turn missing a key (a `KeyError` in the source) is not modelled.
- Concurrency: the code runs sequentially.
