/** The two model clients and the orchestrator that chooses between them:
    `callLocalModel`, which asks the local model and keeps only a reply
    that survives the sanitiser and the quality gate; `callGemini`, the
    cloud fallback; and `getAIResponse`, which tries the local model first
    and the cloud at most once. The HTTP endpoints are parameters: each
    maps the text sent to what came back, a JSON body or a thrown error. */
module ModelClients {
  import opened Values
  import opened Text
  import Sanitizer
  import QualityGate

  /** The preamble `getAIResponse` puts before every prompt. */
  const SystemPrefix: string :=
    "You are SmartTask AI \U{2014} a concise, practical productivity assistant. "
    + "Do NOT output internal instructions, system text, or meta commentary. "
    + "Respond only with the requested content.\n\n"

  /** The preamble `callGemini` puts before the prompt it is given. */
  const SystemWrapper: string :=
    "You are SmartTask AI \U{2014} a concise, practical productivity assistant. "
    + "Do NOT output internal instructions, system text, or meta commentary. "
    + "Respond only with the requested content, in short practical sentences or bullet points.\n\n"

  /** The cloud text used when the reply carries no candidate text. */
  const NoCloudText: string := "AI could not generate a response."

  /** What an HTTP POST yields: the response body, or a thrown error
      (network failure, non-2xx status). */
  datatype Outcome = Replied(data: Json) | Failed

  /** An outbound call, with the prompt text it carries. */
  datatype Request = LocalCall(prompt: string) | CloudCall(text: string)

  /** Why the cloud step threw. */
  datatype CloudError = MissingApiKey | CloudRequestFailed

  /** A client's result together with the calls it made, in order. */
  datatype Exchange<T> = Exchange(result: T, sent: seq<Request>)

  /* ------------------------------------------------- the local client */

  /** `typeof s === "string" && s.trim().length > 0`: a string with a
      character that is not white space, which is what a non-empty trim
      means (`Text.TrimEmptyIffBlank`). */
  predicate NonBlankString(v: Json) {
    v.JStr? && !Blank(v.s)
  }

  /** `items.find(NonBlankString)`, as the index found. */
  function FirstNonBlank(items: seq<Json>): (r: Option<nat>)
    ensures r.Some? ==> r.value < |items| && NonBlankString(items[r.value])
    ensures r.Some? ==> forall k :: 0 <= k < r.value ==> !NonBlankString(items[k])
    ensures r.None? ==> forall k :: 0 <= k < |items| ==> !NonBlankString(items[k])
  {
    if items == [] then None
    else if NonBlankString(items[0]) then Some(0)
    else
      match FirstNonBlank(items[1..])
      case None => None
      case Some(i) => Some(i + 1)
  }

  /** `typeof data[key] === "string" && data[key]`: the field when it is a
      non-empty string. */
  predicate FilledString(data: Json, key: string) {
    Get(data, key).JStr? && Get(data, key).s != ""
  }

  /** The singular fields in priority order: `suggestion`, `reply`,
      `message`; `""` when none holds a non-empty string. */
  function FallbackText(data: Json): (r: string)
    ensures r == "" <==> !FilledString(data, "suggestion") && !FilledString(data, "reply") && !FilledString(data, "message")
    ensures FilledString(data, "suggestion") ==> r == Get(data, "suggestion").s
    ensures !FilledString(data, "suggestion") && FilledString(data, "reply") ==> r == Get(data, "reply").s
    ensures !FilledString(data, "suggestion") && !FilledString(data, "reply") && FilledString(data, "message") ==> r == Get(data, "message").s
  {
    if FilledString(data, "suggestion") then Get(data, "suggestion").s
    else if FilledString(data, "reply") then Get(data, "reply").s
    else if FilledString(data, "message") then Get(data, "message").s
    else ""
  }

  /** The text `callLocalModel` hands to the sanitiser: from a non-empty
      `suggestions` array its first non-blank string, else its first
      element, else `""`; without such an array the singular fields. */
  function LocalText(body: Json): (r: Json)
    ensures var data := Or(body, JObj(map[]));
            var sugg := Get(data, "suggestions");
            if sugg.JArr? && |sugg.items| > 0 then
              (exists k :: 0 <= k < |sugg.items| && NonBlankString(sugg.items[k]))
                ==> NonBlankString(r) && r in sugg.items
            else r == JStr(FallbackText(data))
  {
    var data := Or(body, JObj(map[]));
    var sugg := Get(data, "suggestions");
    if sugg.JArr? && |sugg.items| > 0 then
      match FirstNonBlank(sugg.items)
      case Some(i) => sugg.items[i]
      case None => Or(sugg.items[0], JStr(""))
    else JStr(FallbackText(data))
  }

  /** `callLocalModel(prompt)`: one call to the local endpoint. A thrown
      error, an empty sanitised text and a text the gate rejects all give
      `""`; otherwise the sanitised text. */
  function CallLocalModel(prompt: string, local: string -> Outcome): (x: Exchange<string>)
    ensures x.sent == [LocalCall(prompt)]
    ensures x.result != "" <==>
              local(prompt).Replied?
              && !QualityGate.IsBadLocalResponse(Sanitizer.CleanAIText(LocalText(local(prompt).data)))
    ensures x.result != "" ==> x.result == Sanitizer.CleanAIText(LocalText(local(prompt).data))
  {
    var outcome := local(prompt);
    var text :=
      if outcome.Failed? then ""
      else
        var cleaned := Sanitizer.CleanAIText(LocalText(outcome.data));
        if cleaned == "" || QualityGate.IsBadLocalResponse(cleaned) then "" else cleaned;
    Exchange(text, [LocalCall(prompt)])
  }

  /** Whatever the local endpoint answers, a non-empty local result is
      trimmed and passes the quality gate. */
  lemma LocalResultPassesGate(prompt: string, local: string -> Outcome)
    ensures var r := CallLocalModel(prompt, local).result;
            r == "" || (IsTrimmed(r) && !QualityGate.IsBadLocalResponse(r))
  {
  }

  lemma {:induction false} FirstNonBlankIsFirst(items: seq<Json>, i: nat)
    requires i < |items| && NonBlankString(items[i])
    requires forall k :: 0 <= k < i ==> !NonBlankString(items[k])
    ensures FirstNonBlank(items) == Some(i)
  {
    if i > 0 {
      assert !NonBlankString(items[0]);
      FirstNonBlankIsFirst(items[1..], i - 1);
    }
  }

  /** From a non-empty `suggestions` array the local client takes the
      first non-blank string, whatever comes before or after it. */
  lemma LocalTextPicksFirstNonBlank(items: seq<Json>, i: nat)
    requires i < |items| && NonBlankString(items[i])
    requires forall k :: 0 <= k < i ==> !NonBlankString(items[k])
    ensures LocalText(JObj(map["suggestions" := JArr(items)])) == items[i]
  {
    FirstNonBlankIsFirst(items, i);
  }

  /** A `suggestions` array whose first non-blank string cleans to a text
      the gate accepts is what the local client returns. */
  lemma LocalPrefersFirstNonBlankSuggestion(prompt: string, local: string -> Outcome, items: seq<Json>, i: nat)
    requires local(prompt) == Replied(JObj(map["suggestions" := JArr(items)]))
    requires i < |items| && NonBlankString(items[i])
    requires forall k :: 0 <= k < i ==> !NonBlankString(items[k])
    requires !QualityGate.IsBadLocalResponse(Sanitizer.CleanAIText(items[i]))
    ensures CallLocalModel(prompt, local).result == Sanitizer.CleanAIText(items[i])
  {
    LocalTextPicksFirstNonBlank(items, i);
  }

  /* ------------------------------------------------- the cloud client */

  /** `resp.data?.candidates?.[0]?.content?.parts?.[0]?.text`. */
  function CandidateText(data: Json): Json {
    Get(At0(Get(Get(At0(Get(data, "candidates")), "content"), "parts")), "text")
  }

  /** A reply body holding `text` as its first candidate's first part. */
  function CandidateReply(text: string): Json {
    JObj(map["candidates" := JArr([JObj(map["content" := JObj(map["parts" := JArr([JObj(map["text" := JStr(text)])])])])])])
  }

  /** `callGemini(prompt)`: without a (non-empty) key it throws before any
      call; otherwise it makes one call with the wrapped prompt and cleans
      the candidate text, or the fixed default when there is none. */
  function CallGemini(prompt: string, apiKey: Option<string>, cloud: string -> Outcome): (x: Exchange<Result<string, CloudError>>)
    ensures x.sent == [] <==> apiKey.None? || apiKey.value == ""
    ensures x.sent == [] <==> x.result == Err(MissingApiKey)
    ensures x.sent != [] ==> x.sent == [CloudCall(SystemWrapper + prompt)]
    ensures x.result.Err? <==> x.sent == [] || cloud(SystemWrapper + prompt).Failed?
    ensures x.result.Ok? ==> IsTrimmed(x.result.value)
  {
    if apiKey.None? || apiKey.value == "" then Exchange(Err(MissingApiKey), [])
    else
      var text := SystemWrapper + prompt;
      match cloud(text)
      case Failed => Exchange(Err(CloudRequestFailed), [CloudCall(text)])
      case Replied(data) =>
        var raw := Or(CandidateText(data), JStr(NoCloudText));
        Exchange(Ok(Sanitizer.CleanAIText(raw)), [CloudCall(text)])
  }

  /** The accessor chain reads back the text of a well-formed reply, and
      finds nothing in an empty reply, in one without candidates (a blocked
      prompt) or in one whose candidate has no parts. */
  lemma CandidateTextReadsReply(text: string)
    ensures CandidateText(CandidateReply(text)) == JStr(text)
    ensures CandidateText(JObj(map[])) == JUndefined
    ensures CandidateText(JObj(map["promptFeedback" := JObj(map["blockReason" := JStr("SAFETY")])])) == JUndefined
    ensures CandidateText(JObj(map["candidates" := JArr([])])) == JUndefined
    ensures CandidateText(JObj(map["candidates" := JArr([JObj(map["content" := JObj(map[])])])])) == JUndefined
  {
  }

  /** A reply whose candidate text is missing, null or empty gives the
      cleaned default. */
  lemma CloudDefaultText(prompt: string, key: string, cloud: string -> Outcome, data: Json)
    requires key != ""
    requires cloud(SystemWrapper + prompt) == Replied(data)
    requires !Truthy(CandidateText(data))
    ensures CallGemini(prompt, Some(key), cloud).result == Ok(Sanitizer.CleanAIText(JStr(NoCloudText)))
  {
  }

  /** A reply whose candidate text is a non-empty string gives that text,
      cleaned. */
  lemma CloudCandidateText(prompt: string, key: string, cloud: string -> Outcome, data: Json, text: string)
    requires key != "" && text != ""
    requires cloud(SystemWrapper + prompt) == Replied(data)
    requires CandidateText(data) == JStr(text)
    ensures CallGemini(prompt, Some(key), cloud).result == Ok(Sanitizer.CleanAIText(JStr(text)))
  {
  }

  /** A reply whose candidate text is truthy but not a string (a number, an
      object) passes the `||` and is cleaned to the empty string. */
  lemma CloudNonStringCandidate(prompt: string, key: string, cloud: string -> Outcome, data: Json)
    requires key != ""
    requires cloud(SystemWrapper + prompt) == Replied(data)
    requires Truthy(CandidateText(data)) && !CandidateText(data).JStr?
    ensures CallGemini(prompt, Some(key), cloud).result == Ok("")
  {
  }

  /* ------------------------------------------------- the orchestrator */

  /** `getAIResponse(prompt)`: the prefixed prompt goes to the local model;
      a non-empty answer the gate accepts is returned, and otherwise the
      cloud is asked with the same prefixed prompt. */
  function GetAIResponse(prompt: string, apiKey: Option<string>, local: string -> Outcome, cloud: string -> Outcome): (x: Exchange<Result<string, CloudError>>)
    ensures 1 <= |x.sent| <= 2 && x.sent[0] == LocalCall(SystemPrefix + prompt)
    ensures forall k :: 1 <= k < |x.sent| ==> x.sent[k] == CloudCall(SystemWrapper + SystemPrefix + prompt)
    ensures x.result.Err? ==> (x.result.error == MissingApiKey <==> |x.sent| == 1)
  {
    var modelPrompt := SystemPrefix + prompt;
    var fromLocal := CallLocalModel(modelPrompt, local);
    if fromLocal.result != "" && !QualityGate.IsBadLocalResponse(fromLocal.result) then
      Exchange(Ok(fromLocal.result), fromLocal.sent)
    else
      var fromCloud := CallGemini(modelPrompt, apiKey, cloud);
      assert SystemWrapper + modelPrompt == SystemWrapper + SystemPrefix + prompt;
      Exchange(fromCloud.result, fromLocal.sent + fromCloud.sent)
  }

  /** The gate check `getAIResponse` repeats on the local result never
      changes the decision: the cloud is skipped exactly when the local
      client returned a non-empty text, and that text is the answer. */
  lemma LocalRecheckRedundant(prompt: string, apiKey: Option<string>, local: string -> Outcome, cloud: string -> Outcome)
    ensures var fromLocal := CallLocalModel(SystemPrefix + prompt, local).result;
            var x := GetAIResponse(prompt, apiKey, local, cloud);
            (|x.sent| == 1 && x.result.Ok?) <==> fromLocal != ""
    ensures var fromLocal := CallLocalModel(SystemPrefix + prompt, local).result;
            fromLocal != "" ==> GetAIResponse(prompt, apiKey, local, cloud).result == Ok(fromLocal)
  {
    LocalResultPassesGate(SystemPrefix + prompt, local);
  }

  /** When the local model fails or is rejected, the answer is exactly the
      cloud client's, and the cloud is asked at most once. */
  lemma FallbackIsCloudAnswer(prompt: string, apiKey: Option<string>, local: string -> Outcome, cloud: string -> Outcome)
    requires CallLocalModel(SystemPrefix + prompt, local).result == ""
    ensures var x := GetAIResponse(prompt, apiKey, local, cloud);
            x.result == CallGemini(SystemPrefix + prompt, apiKey, cloud).result
            && x.sent == [LocalCall(SystemPrefix + prompt)] + CallGemini(SystemPrefix + prompt, apiKey, cloud).sent
  {
  }

  /** Every answer the orchestrator returns is trimmed, whichever model it
      came from. */
  lemma AnswerIsTrimmed(prompt: string, apiKey: Option<string>, local: string -> Outcome, cloud: string -> Outcome)
    ensures var x := GetAIResponse(prompt, apiKey, local, cloud);
            x.result.Ok? ==> IsTrimmed(x.result.value)
  {
    LocalResultPassesGate(SystemPrefix + prompt, local);
  }
}
