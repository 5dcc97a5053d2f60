# House-plan matcher and chat fallback, in Dafny

This project models the two pieces of logic in the house-plan backend's
`app.py` that go beyond plumbing:

- **The plan endpoint** (`get_plan`). It matches a bedroom count and a
  requested floor area against the fixed `HOUSE_PLANS` catalog:
  - the request is validated first;
  - a size key equal to the footage text is an exact match;
  - otherwise it takes the largest size below the request;
  - otherwise the smallest size above it.

  Each candidate counts only when its image file is present in the plan
  folder.
- **The chat endpoint's input gate** and **the keyword responder**
  (`get_simple_chat_response`). The gate refuses an empty message unless
  the action is "clear", and answers "clear" with a fixed greeting. The
  responder answers with the reply of the first listed keyword contained
  in the lowered message, and otherwise with a stock apology.

Modules:

- `Wrappers`: `Option` and `Result`.
- `Text`: Python's argument-less `strip()`, ASCII `lower()` and the
  substring test `in`.
- `Decimal`: `str.isdigit()` on ASCII digits, `int(s)` and `str(n)` for
  naturals.
- `Extrema`: `max` and `min` of a non-empty set of sizes.
- `Catalog`: the catalog types, its invariant (every size key is written
  the way `str(n)` writes it), and the literal `HOUSE_PLANS` with that
  invariant proved.
- `PlanMatcher`: the plan endpoint.
  - `MatchPlan` runs over any well-formed catalog.
  - `GetPlan` runs over `HousePlans`.
  - `present` is the set of image files present in the plan folder.
- `PlanProperties`: what the plan endpoint promises. Each reply kind gets
  an if-and-only-if, stated against an independent definition of "greatest
  size below" and "least size above". There is also a frame property about
  the folder contents.
- `PlanExamples`: sample requests and corner cases on the fixed catalog.
  Most are stated per category on `MatchInCategory`; the `GetPlan…`
  lemmas state a selection of them for `GetPlan` itself.
- `Chat`: the gate (`ChatReply`) and the keyword responder
  (`SimpleChatResponse`).
- `ChatProperties`: what the chat side promises, with examples.

Outcomes are datatypes rather than JSON replies:

- `PlanMatch` carries the fields of a successful plan reply.
- `PlanError` has one case per error reply.
- `ChatOutcome` has one case per kind of chat reply.

A missing image for the chosen neighbour plan is not an error.
`app.py:241` and `app.py:263` fall through to the next branch, and then to
the "no house plans available" reply (`app.py:277-282`). Only the exact
key's missing image gives "Plan file not found" (`app.py:224-227`).

## Model

| member | source | states |
|---|---|---|
| Text.Strip | app.py:193 | The stripped footage is the part of the input between leading and trailing whitespace, where whitespace means Python's `isspace` characters; the result neither starts nor ends with whitespace |
| Text.StripIsCore | app.py:193 | Any split of a string into whitespace, a core that neither starts nor ends with whitespace, and more whitespace has that core as its stripped form |
| Text.StripIdempotent | app.py:346 | Stripping an already stripped message changes nothing |
| Text.Lower | app.py:381 | The lowered message has the same length, and each character is the ASCII-lowered original |
| Text.LowerIdempotent | app.py:381 | A lowered message has no capitals, and lowering it again changes nothing |
| Text.ContainsIffOccurs | app.py:395 | The substring test holds exactly when the keyword occurs at some offset of the message |
| Text.ContainsSurvivesLower | app.py:381-395 | A keyword without capitals found in a message is still found in the lowered message |
| Text.MissingCharNotContained | app.py:395 | A keyword with a character the message lacks is not contained in it |
| Decimal.NatToString | app.py:236 | `str(n)` is a canonical numeral (digits, no leading zero) that `int` reads back as `n` |
| Decimal.CanonicalRoundTrip | app.py:236-237 | For a canonical key, `str(int(key))` is the key itself, so the looked-up neighbour key exists |
| Decimal.CanonicalInjective | app.py:203 | Two distinct canonical size keys have distinct values |
| Decimal.LeadingZeroSameValue | app.py:204 | A leading zero does not change the value `int` reads |
| Decimal.LeadingNonZeroPositive | app.py:203 | A numeral that does not start with '0' denotes a positive number |
| Extrema.Max | app.py:235 | `max(smaller_plans)` is an element of the set that no other element exceeds |
| Extrema.Min | app.py:257 | `min(larger_plans)` is an element of the set that no other element undercuts |
| Catalog.HousePlansWellFormed | app.py:75-158 | Every size key of the literal catalog is a canonical numeral |
| PlanMatcher.KeyOfSize | app.py:236-237 | A size computed as a number is found again under the key `str(size)` |
| PlanProperties.MaxBelowIsGreatest | app.py:230-236 | The key of `max` of the smaller sizes is exactly the key with the greatest value below the request |
| PlanProperties.MinAboveIsLeast | app.py:231-258 | The key of `min` of the larger sizes is exactly the key with the least value above the request |
| PlanProperties.SmallerBranchTaken | app.py:234-241 | The smaller-plan branch answers exactly when a greatest size below exists and its file is present |
| PlanProperties.LargerBranchTaken | app.py:256-263 | The larger-plan branch answers exactly when a least size above exists and its file is present |
| PlanProperties.InvalidRequestIff | app.py:193-284 | The request is rejected as invalid exactly when the stripped footage is empty or not all digits, whatever the catalog holds; that error alone is answered with 400, every other error with 404 |
| PlanProperties.UnknownCategoryIff | app.py:201-284 | An unknown category is reported, naming the built key, exactly when the footage is valid and `bedrooms + "bhk"` is not a category |
| PlanProperties.ExactKeyAnswer | app.py:207-227 | A footage string that is a size key is answered from that key: the plan reply when its file is present, the missing-file error otherwise |
| PlanProperties.ExactMatchIff | app.py:207-223 | An exact match is reported exactly when the footage string is a size key of the category and its file is present |
| PlanProperties.MissingFileOnlyForExactKey | app.py:224-227 | A missing-file error always names the file of the exact key's plan; a missing neighbour file is never reported that way |
| PlanProperties.SmallerPlanIff | app.py:229-253 | A smaller plan is reported exactly when the footage is not a key and the greatest size below has its file present; the reply carries that size and plan |
| PlanProperties.LargerPlanIff | app.py:255-275 | A larger plan is reported exactly when the footage is not a key, the smaller branch cannot answer, and the least size above has its file present; the reply carries that size and plan |
| PlanProperties.NoPlanNearSizeIff | app.py:277-282 | "No house plans available" for a known category is reported exactly when the footage is not a key and neither neighbour branch can answer |
| PlanProperties.SuccessDescribesCatalogPlan | app.py:213-274 | Every successful reply names a size key of the requested category whose file is present; its image URL and direct link are both the image route plus that file, and its description is that plan's |
| PlanProperties.OnlyCategoryFilesMatter | app.py:212-263 | The reply depends on the folder contents only through the files of the requested category |
| PlanProperties.PaddedFootageNeverExact | app.py:207 | A zero-padded footage such as "0500" never matches exactly, because keys are compared as strings |
| PlanProperties.SmallerAnswer | app.py:229-253 | Within a category, when the footage is not a key and the greatest size below has its file present, the reply is that plan as a smaller plan |
| PlanProperties.LargerAnswer | app.py:255-275 | Within a category, when the smaller branch cannot answer and the least size above has its file present, the reply is that plan as a larger plan |
| PlanProperties.NoPlanAnswer | app.py:277-282 | Within a category, when neither neighbour branch can answer, the reply is the "no house plans available" error with the category's sizes |
| PlanProperties.GreatestBelowUnique | app.py:230-235 | The greatest size below a request is unique |
| PlanProperties.LeastAboveUnique | app.py:231-257 | The least size above a request is unique |
| PlanExamples.TwoBhkBelow650 | app.py:230-235 | Below 650 sq ft, the greatest 2BHK size is 500 |
| PlanExamples.TwoBhkAbove650 | app.py:231-257 | Above 650 sq ft, the least 2BHK size is 700 |
| PlanExamples.ThreeBhkAround100 | app.py:230-257 | Every 3BHK size is at least 900, and 900 is the least size above 100 |
| PlanExamples.OneBhkBelowPadded500 | app.py:204-235 | "0500" is read as 500, and the greatest 1BHK size below it is 400 |
| PlanExamples.PaddedNotOneBhkKey | app.py:207 | "0500" is not a 1BHK size key |
| PlanExamples.TwoBhkNeighbours650 | app.py:234-263 | At 650 sq ft, each 2BHK neighbour branch can answer exactly when its plan's image is present |
| PlanExamples.OneBhkExactExample | app.py:207-223 | 1BHK at "500" with its image present is an exact match on the 500 sq ft plan |
| PlanExamples.OneBhkMissingExactExample | app.py:224-227 | 1BHK at "500" with its image missing is a missing-file error, and no neighbour is offered |
| PlanExamples.TwoBhkSmallerExample | app.py:229-253 | 2BHK at "650" gets the 500 sq ft plan as a smaller plan |
| PlanExamples.TwoBhkFallsThroughExample | app.py:241-275 | 2BHK at "650" with the 500 image missing falls through to the 700 sq ft plan as a larger plan |
| PlanExamples.TwoBhkNoPlanExample | app.py:277-282 | 2BHK at "650" with neither neighbour image present reports no plan near that size |
| PlanExamples.ThreeBhkLargerExample | app.py:255-275 | 3BHK at "100" has no size below and gets the 900 sq ft plan as a larger plan |
| PlanExamples.OneBhkPaddedExample | app.py:204-253 | 1BHK at "0500" is not the key "500": the 500 sq ft plan is skipped and the 400 sq ft plan below it is returned |
| PlanExamples.NonDigitFootageExample | app.py:198-199 | A footage of "abc" is an invalid request |
| PlanExamples.PaddedFootageStrips | app.py:193 | " 0500 " strips to "0500" |
| PlanExamples.GetPlanTwoBhkSmaller | app.py:189-253 | Bedrooms "2" with a footage stripping to "650" and the 500 sq ft image present gets the full 500 sq ft 2BHK reply, flagged smaller, with requested size "650" |
| PlanExamples.GetPlanTwoBhkFallsThrough | app.py:189-275 | Bedrooms "2" at "650" with the 500 sq ft image missing and the 700 sq ft one present gets the 700 sq ft plan, flagged larger |
| PlanExamples.GetPlanTwoBhkNoPlan | app.py:189-282 | Bedrooms "2" at "650" with neither neighbour image present gets "no house plans available" for 2bhk at "650", listing the 2BHK sizes, with status 404 |
| PlanExamples.GetPlanPaddedFootage | app.py:189-253 | Bedrooms "1" with footage " 0500 " is stripped to "0500", misses the key "500", and gets the 400 sq ft plan, flagged smaller, with requested size "0500" |
| PlanExamples.GetPlanUnknownCategory | app.py:189-284 | Bedrooms "4" with a valid footage names the absent category "4bhk", with status 404 |
| PlanExamples.GetPlanNonDigitFootage | app.py:193-199 | Any bedrooms with a footage stripping to "abc" is an invalid request, with status 400 |
| Chat.FirstMatch | app.py:394-395 | The position found is a keyword contained in the text with no earlier keyword contained; no position means no keyword is contained |
| Chat.SimpleChatResponse | app.py:379-413 | A keyword reply is given exactly when some keyword is contained in the lowered message |
| ChatProperties.FirstMatchUnique | app.py:394-395 | The first contained keyword is the only position the search can return |
| ChatProperties.KeywordReplyIsFirstKeyword | app.py:394-401 | The reply is that of keyword `i` when `i` is the first listed keyword contained in the lowered message, and the search returns `i` exactly then |
| ChatProperties.DefaultReplyIff | app.py:394-413 | The stock apology is given exactly when no keyword is contained in the lowered message |
| ChatProperties.KeywordReplyIsListed | app.py:383-401 | Every keyword reply is one of the listed replies |
| ChatProperties.KeywordsLowercase | app.py:383-392 | The listed keywords have no capitals |
| ChatProperties.IgnoresCase | app.py:381 | A message and its lowered form get the same answer |
| ChatProperties.KeywordInMessageAnswered | app.py:381-395 | A message that contains a keyword as written gets a keyword reply, whatever the case of the rest |
| ChatProperties.MessageRequiredIff | app.py:346-350 | The chat endpoint refuses with 400 exactly when the stripped message is empty and the action is not "clear" |
| ChatProperties.ClearAlwaysGreets | app.py:352-357 | The "clear" action always gets the system greeting, with or without a message |
| ChatProperties.AnsweredMessage | app.py:359-375 | A non-empty message with any other action gets the model's answer when there is one, and otherwise the keyword responder's answer on the stripped message |
| ChatProperties.SurroundingWhitespaceIgnored | app.py:346 | Whitespace around a message does not change the chat reply |
| ChatProperties.WhichPlanMatchesHi | app.py:384-395 | A message lowering to "which plan?" gets the reply of "hi", which is listed before "plan" and occurs inside "which" |
| ChatProperties.WhichPlanExample | app.py:381-401 | "Which plan?" gets the "hi" greeting |
| ChatProperties.HiBeforeHello | app.py:384-385 | "which plan?" contains "hi" but not "hello" |
| ChatProperties.NoKeywordBeforeClear | app.py:384-390 | Text without 'h', 'p', 'b' or 't' holds none of the keywords listed before "clear" |
| ChatProperties.ClearMatchesClear | app.py:391-395 | A message lowering to "clear" gets the responder's own "clear" reply |
| ChatProperties.ClearMessageExample | app.py:349-395 | A "clear" message sent without the clear action gets the responder's "Conversation cleared" reply, not the system greeting |
| ChatProperties.NoKeywordExample | app.py:394-413 | "Good morning" contains no keyword and gets a stock apology |

## Left out

- Flask routing, `request.get_json`, `jsonify`, and the reply's JSON field names. Outcomes are datatypes, and `StatusCode` and `ChatStatus` give the HTTP status.
- `os.path.isfile` on the plan folder: it is replaced by the set `present` of image files present in the folder. The file-system access itself is not modelled.
- The JSON values of `bedrooms` and `square_footage` are taken as the text that `str()` and the f-string would produce from them. A request without `bedrooms` is the empty text, so the built key is "bhk", which is never empty. This means the `not bhk` test can never fire, and the model keeps that test as written.
- Catch-all `except Exception` replies with status 500 are not modelled, for example a body that is not JSON or a message that is not a string.
- PlanMatcher.MatchPlan: a footage longer than 4300 digits makes `int()` raise in recent Python versions (the default `sys.set_int_max_str_digits` limit), at `app.py:204`, and the request gets a 500. The model reads a footage of any length as a number and answers it like any other, so PlanProperties.SmallerPlanIff and the other reply lemmas describe such a request as if the limit were off.
- PlanProperties.NoPlanNearSizeIff: the error carries the category, the requested footage and the set of size keys, not the rendered message. The message lists the keys in dictionary insertion order, and that order is not modelled.
- Decimal.ParseNat: `str.isdigit()` and `int()` are modelled on ASCII digits only. Python also accepts other Unicode digits.
- Text.Lower: `str.lower()` is modelled on ASCII letters only.
- The language-model path of the chat endpoint. Starting a chat session and sending the message are foreign calls. Their outcome is the parameter `assistant` of `ChatReply`: `None` stands for no model configured or a call that raised, and both cases fall back to the keyword responder.
- `random.choice` among the four stock apologies, and the apology texts. They become the single outcome `DefaultReply`.
- Timestamps (`datetime.now`) and the `source` field of chat replies.
- Login, token checks, the health check, static file serving and the home page: they are not part of the plan matcher or the chat responder.
