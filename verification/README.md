# SmartTask AI suggestion pipeline in Dafny

This project models the AI suggestion path of SmartTask AI. It covers the
Express route `POST /suggest` in `backend/routes/aiRoutes.js` and the
browser helper `getAISuggestion` in `frontend/src/utils/api.js`. The route
works in these steps:

- It builds one prompt from the request's mode, task or habit list, single
  task, free prompt and journal text.
- It asks the local model first. The reply is sanitised by `cleanAIText`
  and judged by the quality gate `isBadLocalResponse`.
- If the local answer is missing or rejected, it falls back to the cloud
  model.
- It answers with the text under three names. In `task_reorder` mode it
  answers with an order of task identifiers instead, reconciled from the
  titles the model returned.

The client cleans a string prompt, posts the request, and picks the text
to show out of whatever comes back.

JavaScript values are the `Values.Json` datatype, with truthiness, `||`
and property access. Strings are sequences of UTF-16 code units, one
`char` per unit. The two model endpoints and the client's HTTP post are
function parameters of type `string -> Outcome` or `Json -> Outcome`.
Every client function returns what it computed together with the trace of
requests it sent, so "asked once", "asked twice" and "asked nothing" can
be stated.

Modules, one file each:

| file | module | models |
|---|---|---|
| `values.dfy` | `Values` | JSON values, truthiness, `a \|\| b`, `v.key`, `v[0]`, `Option`, `Result` |
| `sequences.dfy` | `Sequences` | subsequences, duplicate-free sequences, `Distinct` |
| `text.dfy` | `Text` | `\s` and `trim()`, `toLowerCase` for the letters that lower to ASCII, `includes`, `split`/`join`, decimal numerals |
| `sanitizer.dfy` | `Sanitizer` | `cleanAIText` |
| `quality_gate.dfy` | `QualityGate` | `looksLikeInstruction`, `isBadLocalResponse` |
| `model_clients.dfy` | `ModelClients` | `callLocalModel`, `callGemini`, `getAIResponse` |
| `prompt_builder.dfy` | `PromptBuilder` | the prompt templates of `/suggest` |
| `reorder.dfy` | `Reorder` | the `task_reorder` reconciler |
| `suggest_route.dfy` | `SuggestRoute` | the route handler, its response bodies and its 500 path |
| `client_api.dfy` | `ClientApi` | `cleanPromptInput`, `getAISuggestion` |

## Model

| member | source | states |
|---|---|---|
| Text.Trim | backend/routes/aiRoutes.js:55-58 | The result has no white space at either end. It is a slice of the input, and everything cut off on both sides is white space in the ECMAScript sense. |
| Text.TrimFixesTrimmed | backend/routes/aiRoutes.js:55-58 | Trimming leaves a string unchanged exactly when it has no white space at either end. |
| Text.TrimEmptyIffBlank | backend/routes/aiRoutes.js:86-87 | A text trims to the empty string exactly when it is all white space. |
| Text.SplitJoin | backend/routes/aiRoutes.js:49 | Lines joined with newlines split back into the same lines, provided no line holds a newline. |
| Text.DecimalRoundTrip | backend/routes/aiRoutes.js:227 | The decimal numeral written for a line number reads back as that number. |
| Sanitizer.StopRun | backend/routes/aiRoutes.js:22 | A `[^.\n]*` tail consumes the longest run free of periods and newlines. It stops at a period, at a newline or at the end. |
| Sanitizer.RemoveWithoutMatch | backend/routes/aiRoutes.js:34-36 | Removing a pattern that matches nowhere leaves the text as it was. |
| Sanitizer.RemovalCanSpliceNewMatch | backend/routes/aiRoutes.js:30-36 | Removal is a single left-to-right pass: removing `<pad>` from `<p<pad>ad>` leaves `<pad>`. |
| Sanitizer.DedupeIsFirstTwo | backend/routes/aiRoutes.js:38-47 | The dedupe loop keeps exactly the non-blank lines that occurred fewer than twice before, in their original order. |
| Sanitizer.FirstTwoCounts | backend/routes/aiRoutes.js:43-46 | A non-blank line that occurs n times in the input occurs min(2, n) times in the output. Blank lines are dropped. |
| Sanitizer.FirstTwoInOrder | backend/routes/aiRoutes.js:42-47 | The kept lines are a subsequence of the input lines. |
| Sanitizer.CleanLinesShape | backend/routes/aiRoutes.js:39-49 | After the dedupe every line is trimmed, non-blank and free of newlines. Each distinct line keeps min(2, n) copies, in order, and the newline join splits back into the same lines. |
| Sanitizer.DedupeAsWrittenIsFirstTwo | backend/routes/aiRoutes.js:38-47 | As written, the dedupe loop keeps the first two occurrences of every non-blank line that names no inherited `Object.prototype` member, in order, and nothing else. |
| Sanitizer.DedupeAsWrittenAgrees | backend/routes/aiRoutes.js:41-46 | When no line names an inherited member, the loop as written and the intended loop keep the same lines. |
| Sanitizer.CleanLinesAsWrittenShape | backend/routes/aiRoutes.js:39-49 | After the dedupe as written every line is trimmed, non-blank, free of newlines and names no inherited member. Every other distinct line keeps min(2, n) copies, in order, and the newline join splits back into the same lines. |
| Sanitizer.CleanAITextAsWritten | backend/routes/aiRoutes.js:15-58 | `cleanAIText` with the tally object as written. A non-string or empty input gives the empty string, and every result has no white space at either end. |
| Sanitizer.CleanAITextAgrees | backend/routes/aiRoutes.js:38-49 | When no line of the text left after the removals names an inherited member, `cleanAIText` as written and the intended version give the same text. |
| Sanitizer.InheritedKeyLinesDropped | backend/routes/aiRoutes.js:41-46 | As written, a line naming an inherited `Object.prototype` member never survives the dedupe. |
| Sanitizer.ConstructorLineLost | backend/routes/aiRoutes.js:41-46 | As written, the one-line reply `constructor` dedupes to nothing, while the intended dedupe keeps it. |
| Sanitizer.RewriteWithoutRun | backend/routes/aiRoutes.js:52 | Text with no run of two or more numbered markers passes the marker rewrite unchanged. |
| Sanitizer.RepeatedMarkersCollapse | backend/routes/aiRoutes.js:51-52 | The run `1. 1. 1.` is replaced by its first non-empty piece, which is a single space. |
| Sanitizer.CollapseLeavesNoTriple | backend/routes/aiRoutes.js:55 | After the newline collapse no three newlines are adjacent. A run of n newlines at the start becomes min(n, 2). |
| Sanitizer.CollapseWithoutTriple | backend/routes/aiRoutes.js:55 | Text without three adjacent newlines passes the newline collapse unchanged. |
| Sanitizer.CleanAIText | backend/routes/aiRoutes.js:15-58 | A non-string or empty input gives the empty string. Every result has no white space at either end. |
| QualityGate.AnyContained | backend/routes/aiRoutes.js:82 | True exactly when some phrase of the list occurs in the text. |
| QualityGate.LooksLikeInstruction | backend/routes/aiRoutes.js:61-83 | True exactly when some instruction indicator occurs in the lower-cased text. |
| QualityGate.IsBadLocalResponse | backend/routes/aiRoutes.js:85-113 | True exactly when the trimmed text meets one of six conditions: it is empty, it has fewer than six words, it is only punctuation, it looks like an instruction, some line occurs three times, or it is only numbered markers. |
| QualityGate.FrequenciesCount | backend/routes/aiRoutes.js:102-103 | The frequency table counts every line exactly as often as it occurs. |
| QualityGate.MaxTallyAtLeastThree | backend/routes/aiRoutes.js:104-105 | The maximum tally reaches 3 exactly when some line's tally does. |
| QualityGate.MaxRepeatFindsTripledLine | backend/routes/aiRoutes.js:100-105 | The repeat check fires exactly when some non-blank line occurs at least three times. |
| QualityGate.LeakPhraseRejected | backend/routes/aiRoutes.js:97 | A reply containing an instruction phrase, in any ASCII letter case, is rejected. This holds even when the phrase is surrounded by white space. |
| QualityGate.KelvinSignIndicator | backend/routes/aiRoutes.js:62-82 | `toLowerCase()` turns the Kelvin sign U+212A into `k`, so `create a tas` followed by a Kelvin sign and ` list` still counts as an instruction. |
| QualityGate.ShortReplyRejected | backend/routes/aiRoutes.js:89-91 | A reply of fewer than six words is rejected. |
| QualityGate.InheritedLineDisablesRepeatCheck | backend/routes/aiRoutes.js:102-105 | As written, one line naming an inherited member such as `toString` turns the repeat check off for the whole reply. |
| QualityGate.ToStringLineHidesRepeats | backend/routes/aiRoutes.js:102-105 | `x`, `x`, `x`, `toString` has a tripled line, yet the check as written does not fire. |
| QualityGate.FrequenciesAgree | backend/routes/aiRoutes.js:102-103 | When no line names an inherited member, the `freq` object as written holds exactly the intended tallies, all of them numbers. |
| QualityGate.RepeatAgrees | backend/routes/aiRoutes.js:100-105 | When no line names an inherited member, the repeat check as written fires exactly when some line occurs three or more times. |
| QualityGate.IsBadLocalResponseAgrees | backend/routes/aiRoutes.js:85-113 | When no line of the trimmed reply names an inherited member, the gate as written and the intended gate give the same verdict. |
| ModelClients.FirstNonBlank | backend/routes/aiRoutes.js:127 | Finds the first element that is a string with non-space content. If there is none it says so. |
| ModelClients.FirstNonBlankIsFirst | backend/routes/aiRoutes.js:127 | Any index holding a non-blank string with no non-blank string before it is the index found. |
| ModelClients.FallbackText | backend/routes/aiRoutes.js:135-139 | Takes the first non-empty string field in the order `suggestion`, `reply`, `message`. The result is empty exactly when none of them is one. |
| ModelClients.LocalText | backend/routes/aiRoutes.js:122-139 | With a non-empty `suggestions` array that holds a non-blank string, the text is such a string from the array. Without such an array, the text comes from the singular fields. |
| ModelClients.LocalTextPicksFirstNonBlank | backend/routes/aiRoutes.js:125-128 | The text taken from a `suggestions` array is its first non-blank string. |
| ModelClients.CallLocalModel | backend/routes/aiRoutes.js:119-149 | Exactly one call is sent, with the given prompt. The result is non-empty exactly when the endpoint replied and the sanitised text passes the gate. In that case the result is the sanitised text. |
| ModelClients.LocalResultPassesGate | backend/routes/aiRoutes.js:130-144 | A non-empty local result is trimmed and passes the quality gate. |
| ModelClients.LocalPrefersFirstNonBlankSuggestion | backend/routes/aiRoutes.js:125-131 | A local result that passes the gate is the first non-blank suggestion, sanitised. |
| ModelClients.CallGemini | backend/routes/aiRoutes.js:151-183 | With no key or an empty key it fails with a missing-key error and sends nothing. Otherwise it sends one request with the wrapped prompt. It fails exactly when the key is missing or the request fails, and a success is trimmed. |
| ModelClients.CandidateTextReadsReply | backend/routes/aiRoutes.js:179 | The optional chain reads back the text of a well-formed reply. It gives `undefined` for an empty object, a blocked reply with only `promptFeedback`, an empty `candidates` array, and a candidate without parts. |
| ModelClients.CloudDefaultText | backend/routes/aiRoutes.js:178-182 | Any reply whose candidate text is missing, null, false or empty gives the sanitised default sentence. |
| ModelClients.CloudCandidateText | backend/routes/aiRoutes.js:178-182 | Any reply whose candidate text is a non-empty string gives that text, sanitised. |
| ModelClients.CloudNonStringCandidate | backend/routes/aiRoutes.js:178-182 | Any reply whose candidate text is truthy but not a string gives the empty string. |
| ModelClients.GetAIResponse | backend/routes/aiRoutes.js:185-209 | The first call always goes to the local model, with the prefixed prompt. At most one more call follows, to the cloud, with the wrapped prefixed prompt. Among failures, a missing key is exactly the case in which only one call was made. |
| ModelClients.LocalRecheckRedundant | backend/routes/aiRoutes.js:199-204 | The cloud is skipped with a success exactly when the local client returned non-empty text, and then that text is the answer. The repeated gate check changes nothing. |
| ModelClients.FallbackIsCloudAnswer | backend/routes/aiRoutes.js:206-208 | When the local result is empty, the answer and the remaining calls are exactly the cloud client's. |
| ModelClients.AnswerIsTrimmed | backend/routes/aiRoutes.js:185-209 | Every successful answer is trimmed, whichever model produced it. |
| PromptBuilder.ReorderTitles | backend/routes/aiRoutes.js:246 | Every listed title is non-empty and trimmed. |
| PromptBuilder.BuildPrompt | backend/routes/aiRoutes.js:217-335 | The prompt is never empty. A known mode's prompt starts with that mode's own instruction. An unknown or missing mode gets exactly the default wrapper around the prompt, or around the default request when the prompt is missing. |
| PromptBuilder.TaskModePrompts | backend/routes/aiRoutes.js:222-259 | The improvement prompt is its instruction followed by the numbered task lines joined by newlines. The reorder prompt is its instruction followed by the trimmed non-blank titles joined by newlines. The breakdown prompt is its instruction followed by the single task's trimmed title, or by nothing. |
| PromptBuilder.HabitModePrompts | backend/routes/aiRoutes.js:263-282 | Each habit mode's prompt is its own instruction followed by the numbered habit lines joined by newlines. |
| PromptBuilder.JournalModePrompts | backend/routes/aiRoutes.js:286-302 | Each journal mode's prompt is its own instruction followed by the journal text, or by nothing when it is missing or empty. |
| PromptBuilder.GeneralTasksPrompt | backend/routes/aiRoutes.js:306-321 | With tasks, the general prompt is the opening, the numbered task lines, the request heading, the user's prompt or nothing, and the closing request for priorities, in that order. |
| PromptBuilder.GeneralPrompt | backend/routes/aiRoutes.js:322-327 | Without tasks, the general prompt is the request wrapper followed by the user's prompt, or by nothing. |
| PromptBuilder.BreakdownUsesTitle | backend/routes/aiRoutes.js:254-259 | A breakdown request whose task has a non-empty title gives the breakdown instruction followed by that title, trimmed; the title wins over the name. |
| PromptBuilder.PlaceholderLines | backend/routes/aiRoutes.js:224-227 | An item without title and name is called `Task n` in the improvement list, where the placeholder survives trimming; the same holds for the general list (lines 308-312), and the habit lists call it `Habit` (line 264). |
| PromptBuilder.NumberedLine | backend/routes/aiRoutes.js:264 | Line i of a habit list starts with the numeral of i + 1 and `. `, and that numeral reads back as i + 1. |
| PromptBuilder.ImprovementListingSplits | backend/routes/aiRoutes.js:222-242 | With single-line fields, the improvement prompt sent starts with its instruction. What follows splits into exactly one line per task, in order. Line i is the numeral of i + 1 and `. `, the trimmed title, name or `Task n`, and the description after a dash when there is one. |
| PromptBuilder.ReorderListingSplits | backend/routes/aiRoutes.js:245-251 | With single-line fields and some non-blank title, the reorder prompt sent starts with its instruction. What follows splits into exactly the trimmed, non-blank titles, in order. |
| Reorder.Candidates | backend/routes/aiRoutes.js:351-354 | Every candidate title is non-empty and trimmed, and holds no newline or comma. |
| Reorder.TwoLineCandidates | backend/routes/aiRoutes.js:351-354 | Two plain titles on two lines give exactly those two candidates. |
| Reorder.FirstMatch | backend/routes/aiRoutes.js:361-369 | Finds the first task whose title matches: equal, or either contains the other. If no task matches it says so. |
| Reorder.MatchFromIsDistinct | backend/routes/aiRoutes.js:356-375 | The matched identifiers are the distinct first-match identifiers, in candidate order. |
| Reorder.UnmatchedCandidateDropped | backend/routes/aiRoutes.js:371 | A candidate that matches no task adds nothing. |
| Reorder.Unmatched | backend/routes/aiRoutes.js:378 | It fails exactly when some task has no identifier. Otherwise the unmatched identifiers keep their original order, and each has the multiplicity it had, or zero if it was matched. |
| Reorder.Reconcile | backend/routes/aiRoutes.js:343-387 | A fallback order is always the current order. An empty answer always gives the fallback. |
| Reorder.ErrorIffMissingId | backend/routes/aiRoutes.js:343-378 | The reconciler fails exactly when the answer is non-empty and some task lacks an identifier. |
| Reorder.NoTasksFallsBack | backend/routes/aiRoutes.js:382-384 | With no tasks, the result is the empty order marked as a fallback. |
| Reorder.ReorderIsPermutation | backend/routes/aiRoutes.js:356-386 | With a non-empty answer and distinct identifiers, the order is no fallback. It is a permutation of the current identifiers that starts with the distinct matches and then lists the rest in their original order. |
| Reorder.SwapTwoTasks | backend/routes/aiRoutes.js:343-386 | Answering with two unrelated titles in swapped order swaps the two identifiers, with no fallback. |
| SuggestRoute.HandleSuggest | backend/routes/aiRoutes.js:215-399 | The route sends exactly the orchestrator's calls. Each response is either a 200 or the fixed 500 error body, and an orchestrator failure is always the 500. Outside reorder mode, a success is 200 with the answer under `reply`, `message` and `suggestion`. |
| SuggestRoute.ReorderModeOutcome | backend/routes/aiRoutes.js:343-398 | In reorder mode with an answer, the route returns 500 exactly when the answer is non-empty and some task lacks an identifier. An empty answer returns the current order as a fallback. |
| SuggestRoute.GoodLocalAnswerIsOneCall | backend/routes/aiRoutes.js:199-204 | When the local model gives an acceptable answer, the route makes that one local call and nothing else. |
| ClientApi.StripUnsafe | frontend/src/utils/api.js:85 | The result holds none of the five unsafe characters. |
| ClientApi.CollapseIsSingleSpaced | frontend/src/utils/api.js:86 | After the collapse every white-space character is a plain space and no two are adjacent. |
| ClientApi.CollapseKeepsInk | frontend/src/utils/api.js:86 | The collapse keeps every visible character, in order. |
| ClientApi.CollapseSingleSpaced | frontend/src/utils/api.js:86 | Single-spaced text passes the collapse unchanged. |
| ClientApi.NormalizePrompt | frontend/src/utils/api.js:84-87 | Before the length cut, the text is trimmed, safe and single-spaced, and keeps every visible character of the safe input. |
| ClientApi.CleanPromptText | frontend/src/utils/api.js:81-89 | The prompt is at most 1000 units long, safe and single-spaced, and does not start with white space. Its visible text is a prefix of the safe input's. |
| ClientApi.ShortPromptKeepsText | frontend/src/utils/api.js:84-88 | A prompt that was not cut keeps all the visible text and is trimmed at both ends. |
| ClientApi.CleanTwiceTrims | frontend/src/utils/api.js:81-89 | Cleaning a cleaned prompt only trims it. |
| ClientApi.CleanTwiceIffTrimmed | frontend/src/utils/api.js:81-89 | Cleaning twice equals cleaning once exactly when the first result has no trailing white space. |
| ClientApi.CleanPromptInput | frontend/src/utils/api.js:81-82 | A non-string comes back as it was. A string comes back as a string of at most 1000 units. |
| ClientApi.SpreadArray | frontend/src/utils/api.js:112 | Spreading an array gives one key per index, holding that element, and no `prompt` key. |
| ClientApi.CopyWithCleanPrompt | frontend/src/utils/api.js:112-116 | The copy has the same keys and the same values, except that a `prompt` is cleaned. |
| ClientApi.RequestBody | frontend/src/utils/api.js:103-119 | There is a body exactly for a string, an object or an array. A string becomes a general-mode request with the cleaned prompt. An object is copied with its prompt cleaned. An array is spread. |
| ClientApi.ReplyText | frontend/src/utils/api.js:123-130 | The chosen reply is always truthy. |
| ClientApi.ReplyTextPicksFirstTruthy | frontend/src/utils/api.js:123-130 | The reply is the first truthy field in the order `reply`, `message`, `suggestion`, `error`. When none is truthy it is the no-reply text. |
| ClientApi.GetAISuggestion | frontend/src/utils/api.js:101-135 | Every result is truthy. Invalid input gives the invalid-request text and posts nothing. Otherwise exactly one body is posted. A failed post reads as the service being unavailable. A reply is read field by field. |
| ClientApi.ReplyOfTextBody | frontend/src/utils/api.js:124-130 | The client reads the route's three-field text body back as the text itself, or as the no-reply text when the answer is empty. |
| ClientApi.StringPromptRoundTrip | frontend/src/utils/api.js:101-135 | A string prompt sent through the route yields one of three things. An orchestrator failure gives the unavailable message. An empty answer gives the no-reply text. Any other answer reaches the caller unchanged. |

## Left out

- Logging (`console.log`, `console.error`) has no effect on results and is not modelled.
- The endpoint URLs, the model name, the request layout of the cloud call and the `dotenv` environment are not modelled. The key is a parameter, and each endpoint is a function from the text sent to an outcome.
- An HTTP error, a network error and a rejected promise are all one `Failed` outcome. axios rejects every non-2xx status, and `AsOutcome` states this for the client.
- JSON numbers are integers. Floating point is left out because no modelled path computes with numbers.
- Characters outside the Basic Multilingual Plane are not modelled. Each `char` is one UTF-16 code unit, as JavaScript strings are.
- `toLowerCase()` is modelled for the characters whose lower case is an ASCII letter: `A` to `Z`, and the Kelvin sign U+212A, which becomes `k`. Every other character is kept as it is. This cannot change whether an ASCII indicator phrase occurs. The one exception would be U+0130, which lowers to `i` followed by U+0307, and it matters only before the end of a phrase ending in `i`; no indicator ends in `i`. The `i` flag of the leak patterns folds ASCII letters only, as a regular expression without the `u` flag does for ASCII patterns. The reorder titles are compared after this partial lower-casing, so two titles that differ only in the case of a non-ASCII letter, such as `É` and `é`, are treated as different where the source treats them as equal.
- The route reads its request as the typed `PromptBuilder.SuggestRequest`, so a request whose fields have other JSON types is not represented. The source renders many such requests normally: in `general` mode a `tasks` that is not an array fails the `Array.isArray` check and gets the no-tasks wrapper; the journal modes and the default wrapper never read `tasks`; a number as a habit title, as a description, or as `prompt` or `journal` is turned into text by the template or by `+`. Other such requests make the handler throw and answer 500, and that path is not modelled either: `.map` on a `tasks` that is not an array in the task and habit modes, `.trim()` on a title or name that is not a string in the improvement, reorder and breakdown modes and in the reorder matching, and a list entry that is `null`. Task identifiers are strings compared as strings, where the source calls `toString()` on them.
- Reorder.ReorderIsPermutation: stated only for tasks with pairwise distinct identifiers. With a repeated identifier, one match removes every task carrying it, so the order is then not a permutation.
- Sanitizer.CleanAIText: applies the intended dedupe, in which every non-blank line counts from zero. The source's tally object inherits `Object.prototype`, which drops every line naming an inherited member (see Findings). `Sanitizer.CleanAITextAsWritten` is the version as written, and `Sanitizer.CleanAITextAgrees` states that the two give the same text whenever no line names an inherited member. Its own contract states the empty and non-string cases and trimming. The individual steps are stated by the step lemmas above, not folded into one ensures.
- Sanitizer.CleanLinesShape: is stated for the intended dedupe. `Sanitizer.CleanLinesAsWrittenShape` states the same shape for the dedupe as written, where lines naming an inherited member occur zero times.
- QualityGate.IsBadLocalResponse: applies the intended repeat check, which counts every line from zero. The source's `freq` object inherits `Object.prototype`, so one line naming an inherited member switches the repeat check off (see Findings). `QualityGate.IsBadLocalResponseAsWritten` is the gate as written, and `QualityGate.IsBadLocalResponseAgrees` states that the two agree whenever no line names an inherited member. The orchestrator and the route use the intended gate.
- The `\n{3,}` collapse of `cleanAIText` is modelled in full, but it never has anything to do. The dedupe joins trimmed non-blank lines with single newlines, so any two newlines have visible text between them. A marker-run replacement holds at most one newline, and the greedy `\s*` at the end of a run swallows the white space after it, so at most two newlines can meet. This argument is not a lemma of the model.
- The sanitiser is not idempotent, as `Sanitizer.RemovalCanSpliceNewMatch` shows, so no idempotence is claimed for `cleanAIText`.
- `cleanPromptInput` is not idempotent either: the 1000-unit cut can leave a trailing space. `ClientApi.CleanTwiceIffTrimmed` states exactly when it is idempotent.

## Findings

| source | as written | input that shows it | evidently intended | confidence | as-written member | corrected member |
|---|---|---|---|---|---|---|
| backend/routes/aiRoutes.js:41-46 | `counts` is a plain `{}`, so `counts[l]` for a line such as `constructor` or `toString` starts from the inherited method. `(method \|\| 0) + 1` is then a string, and `string <= 2` is false. | the reply `constructor` (one line) | every non-blank line is kept up to twice, whatever its text | not executed | Sanitizer.ConstructorLineLost | Sanitizer.DedupeIsFirstTwo |
| backend/routes/aiRoutes.js:102-105 | `freq` is a plain `{}`, so a line `toString` gets a string tally. `Math.max` over a string is NaN, and `NaN >= 3` is false for the whole reply. | the lines `x`, `x`, `x`, `toString` | the reply is rejected whenever some line occurs three or more times | not executed | QualityGate.ToStringLineHidesRepeats | QualityGate.MaxRepeatFindsTripledLine |
