/** The `/suggest` route as a whole: build the prompt, ask the models, and
    answer either with the text under three names or, for `task_reorder`,
    with an identifier order. Anything thrown on the way becomes a 500
    response with one fixed message. */
module SuggestRoute {
  import opened Values
  import opened PromptBuilder
  import opened ModelClients
  import opened Reorder

  /** A response: its status code and its JSON body. */
  datatype HttpResponse = HttpResponse(status: nat, body: Json)

  const FailureMessage: string := "AI processing failed."

  /** The body of every failed request. */
  function ErrorBody(): Json {
    JObj(map["error" := JStr(FailureMessage)])
  }

  /** `{ reply, message, suggestion }`, all three the same text. */
  function TextBody(text: string): Json {
    JObj(map["reply" := JStr(text), "message" := JStr(text), "suggestion" := JStr(text)])
  }

  /** An identifier as `res.json` writes it; a missing one becomes `null`. */
  function IdJson(id: Option<string>): Json {
    if id.Some? then JStr(id.value) else JNull
  }

  /** `{ order, fallback }`. */
  function OrderBody(r: Reordered): Json {
    JObj(map[
      "order" := JArr(seq(|r.order|, i requires 0 <= i < |r.order| => IdJson(r.order[i]))),
      "fallback" := JBool(r.fallback)])
  }

  /** The route handler. The answer is the orchestrator's; the reconciler
      runs only in `task_reorder` mode. */
  function HandleSuggest(req: SuggestRequest, apiKey: Option<string>, local: string -> Outcome, cloud: string -> Outcome): (x: Exchange<HttpResponse>)
    ensures x.sent == GetAIResponse(BuildPrompt(req), apiKey, local, cloud).sent
    ensures x.result.status == 200 || x.result == HttpResponse(500, ErrorBody())
    ensures GetAIResponse(BuildPrompt(req), apiKey, local, cloud).result.Err? ==> x.result == HttpResponse(500, ErrorBody())
    ensures var answer := GetAIResponse(BuildPrompt(req), apiKey, local, cloud).result;
            req.mode != Some("task_reorder") && answer.Ok? ==> x.result == HttpResponse(200, TextBody(answer.value))
  {
    var answer := GetAIResponse(BuildPrompt(req), apiKey, local, cloud);
    var response :=
      match answer.result
      case Err(_) => HttpResponse(500, ErrorBody())
      case Ok(text) =>
        if req.mode == Some("task_reorder") then
          match Reconcile(req.tasks, text)
          case Err(_) => HttpResponse(500, ErrorBody())
          case Ok(r) => HttpResponse(200, OrderBody(r))
        else HttpResponse(200, TextBody(text));
    Exchange(response, answer.sent)
  }

  /** In `task_reorder` mode with an answer, the route fails exactly when
      the answer is non-empty and some task has no identifier; an empty
      answer gives back the original order as a fallback. */
  lemma ReorderModeOutcome(req: SuggestRequest, apiKey: Option<string>, local: string -> Outcome, cloud: string -> Outcome)
    requires req.mode == Some("task_reorder")
    requires GetAIResponse(BuildPrompt(req), apiKey, local, cloud).result.Ok?
    ensures var text := GetAIResponse(BuildPrompt(req), apiKey, local, cloud).result.value;
            var x := HandleSuggest(req, apiKey, local, cloud);
            && (x.result.status == 500 <==> text != "" && !AllIdsPresent(req.tasks))
            && (text == "" ==> x.result == HttpResponse(200, OrderBody(Reordered(CurrentIds(req.tasks), true))))
  {
    var text := GetAIResponse(BuildPrompt(req), apiKey, local, cloud).result.value;
    ErrorIffMissingId(req.tasks, text);
  }

  /** A local answer the gate accepts is the whole story: one call, to the
      local model, with the prefixed prompt. */
  lemma GoodLocalAnswerIsOneCall(req: SuggestRequest, apiKey: Option<string>, local: string -> Outcome, cloud: string -> Outcome)
    requires CallLocalModel(SystemPrefix + BuildPrompt(req), local).result != ""
    ensures HandleSuggest(req, apiKey, local, cloud).sent == [LocalCall(SystemPrefix + BuildPrompt(req))]
  {
    LocalRecheckRedundant(BuildPrompt(req), apiKey, local, cloud);
  }
}
