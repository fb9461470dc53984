/** The browser side of the suggestion call: the prompt sanitiser
    `cleanPromptInput` and `getAISuggestion`, which shapes the request
    body, posts it and picks the text to show out of whatever comes back. */
module ClientApi {
  import opened Values
  import opened Text
  import opened Sequences
  import opened ModelClients
  import opened PromptBuilder
  import opened SuggestRoute

  /** The characters `/[<>"'&]/g` removes. */
  const UnsafeChars: set<char> := {'<', '>', '"', '\'', '&'}

  /** The `slice(0, 1000)` bound, in UTF-16 code units. */
  const MaxPromptLength: nat := 1000

  const InvalidRequest: string := "Invalid AI request."
  const NoReply: string := "No AI reply returned."
  const Unavailable: string := "AI service unavailable."

  /** The reply fields the client reads, in the order it tries them. */
  const ReplyFields: seq<string> := ["reply", "message", "suggestion", "error"]

  /* ------------------------------ filtering ------------------------------ */

  /** `s` with every character of `drop` removed, the rest in order. */
  function Without(s: string, drop: set<char>): (r: string)
    ensures |r| <= |s|
    ensures forall i :: 0 <= i < |r| ==> r[i] !in drop
  {
    if s == [] then []
    else
      (if s[0] in drop then [] else [s[0]]) + Without(s[1..], drop)
  }

  lemma {:induction false} WithoutConcat(a: string, b: string, drop: set<char>)
    ensures Without(a + b, drop) == Without(a, drop) + Without(b, drop)
  {
    if a == [] {
      assert a + b == b;
    } else {
      assert (a + b)[0] == a[0];
      assert (a + b)[1..] == a[1..] + b;
      WithoutConcat(a[1..], b, drop);
    }
  }

  lemma {:induction false} WithoutNoneDropped(s: string, drop: set<char>)
    requires forall i :: 0 <= i < |s| ==> s[i] !in drop
    ensures Without(s, drop) == s
  {
    if s != [] {
      WithoutNoneDropped(s[1..], drop);
    }
  }

  /** The text with white space removed altogether: what a reader sees. */
  function Ink(s: string): string {
    Without(s, JsSpaces)
  }

  lemma {:induction false} InkOfSpaces(s: string)
    requires forall i :: 0 <= i < |s| ==> IsJsSpace(s[i])
    ensures Ink(s) == []
  {
    if s != [] {
      JsSpaceMembership(s[0]);
      InkOfSpaces(s[1..]);
    }
  }

  /** `replace(/[<>"'&]/g, '')`. */
  function StripUnsafe(s: string): (r: string)
    ensures forall i :: 0 <= i < |r| ==> r[i] !in UnsafeChars
  {
    Without(s, UnsafeChars)
  }

  /* ------------------------- white-space runs ---------------------------- */

  /** Every white-space character is a plain space and no two white-space
      characters are adjacent. */
  predicate SingleSpaced(s: string) {
    && (forall i :: 0 <= i < |s| && IsJsSpace(s[i]) ==> s[i] == ' ')
    && (forall i :: 0 <= i < |s| - 1 ==> !(IsJsSpace(s[i]) && IsJsSpace(s[i + 1])))
  }

  /** `replace(/\s+/g, " ")`: every maximal run of white space becomes one
      plain space; nothing else changes. */
  function CollapseWhitespace(s: string): (r: string)
    decreases |s|
    ensures |r| <= |s|
    ensures r == [] <==> s == []
    ensures r != [] ==> (IsJsSpace(r[0]) <==> IsJsSpace(s[0]))
  {
    if s == [] then []
    else if IsJsSpace(s[0]) then [' '] + CollapseWhitespace(TrimStart(s))
    else [s[0]] + CollapseWhitespace(s[1..])
  }

  /** Putting one character in front of single-spaced text keeps it
      single-spaced unless two white-space characters meet. */
  lemma SingleSpacedCons(c: char, t: string)
    requires SingleSpaced(t)
    requires IsJsSpace(c) ==> c == ' ' && (t == [] || !IsJsSpace(t[0]))
    ensures SingleSpaced([c] + t)
  {
    var u := [c] + t;
    assert forall i :: 1 <= i < |u| ==> u[i] == t[i - 1];
  }

  /** The collapse leaves no white space but single plain spaces. */
  lemma {:induction false} CollapseIsSingleSpaced(s: string)
    ensures SingleSpaced(CollapseWhitespace(s))
    decreases |s|
  {
    if s != [] {
      if IsJsSpace(s[0]) {
        CollapseIsSingleSpaced(TrimStart(s));
        SingleSpacedCons(' ', CollapseWhitespace(TrimStart(s)));
      } else {
        CollapseIsSingleSpaced(s[1..]);
        SingleSpacedCons(s[0], CollapseWhitespace(s[1..]));
      }
    }
  }

  /** The collapse keeps every visible character, in order. */
  lemma {:induction false} CollapseKeepsInk(s: string)
    ensures Ink(CollapseWhitespace(s)) == Ink(s)
    decreases |s|
  {
    if s != [] {
      if IsJsSpace(s[0]) {
        var rest := TrimStart(s);
        var head := s[..|s| - |rest|];
        assert s == head + rest;
        InkOfSpaces(head);
        WithoutConcat(head, rest, JsSpaces);
        CollapseKeepsInk(rest);
        WithoutConcat([' '], CollapseWhitespace(rest), JsSpaces);
      } else {
        assert s == [s[0]] + s[1..];
        JsSpaceMembership(s[0]);
        WithoutConcat([s[0]], s[1..], JsSpaces);
        CollapseKeepsInk(s[1..]);
        WithoutConcat([s[0]], CollapseWhitespace(s[1..]), JsSpaces);
      }
    }
  }

  /** The collapse brings in no character but the plain space. */
  lemma {:induction false} CollapseKeepsSafe(s: string)
    requires forall i :: 0 <= i < |s| ==> s[i] !in UnsafeChars
    ensures forall i :: 0 <= i < |CollapseWhitespace(s)| ==> CollapseWhitespace(s)[i] !in UnsafeChars
  {
    if s != [] {
      if IsJsSpace(s[0]) {
        CollapseKeepsSafe(TrimStart(s));
      } else {
        CollapseKeepsSafe(s[1..]);
      }
    }
  }

  /** Text that is already single-spaced passes through the collapse
      untouched. */
  lemma {:induction false} CollapseSingleSpaced(s: string)
    requires SingleSpaced(s)
    ensures CollapseWhitespace(s) == s
  {
    if s != [] {
      assert SingleSpaced(s[1..]);
      if IsJsSpace(s[0]) {
        assert TrimStart(s) == s[1..] by {
          assert s[1..] == [] || !IsJsSpace(s[1..][0]);
          assert TrimStart(s) == TrimStart(s[1..]);
        }
      }
      CollapseSingleSpaced(s[1..]);
    }
  }

  /* ---------------------------- the sanitiser ---------------------------- */

  lemma SliceSingleSpaced(s: string, lo: int, hi: int)
    requires SingleSpaced(s) && 0 <= lo <= hi <= |s|
    ensures SingleSpaced(s[lo..hi])
  {
    var t := s[lo..hi];
    assert forall i :: 0 <= i < |t| ==> t[i] == s[lo + i];
  }

  lemma TrimKeepsSingleSpaced(s: string)
    requires SingleSpaced(s)
    ensures SingleSpaced(Trim(s))
  {
    var k :| SpaceFramed(s, Trim(s), k);
    SliceSingleSpaced(s, k, k + |Trim(s)|);
  }

  lemma TrimKeepsSafe(s: string)
    requires forall i :: 0 <= i < |s| ==> s[i] !in UnsafeChars
    ensures forall i :: 0 <= i < |Trim(s)| ==> Trim(s)[i] !in UnsafeChars
  {
    var k :| SpaceFramed(s, Trim(s), k);
    assert forall i :: 0 <= i < |Trim(s)| ==> Trim(s)[i] == s[k + i];
  }

  /** Trimming never changes the visible text. */
  lemma TrimKeepsInk(s: string)
    ensures Ink(Trim(s)) == Ink(s)
  {
    var k :| SpaceFramed(s, Trim(s), k);
    FramedKeepsInk(s, Trim(s), k);
  }

  lemma FramedKeepsInk(s: string, r: string, k: int)
    requires SpaceFramed(s, r, k)
    ensures Ink(r) == Ink(s)
  {
    var pre, post := s[..k], s[k + |r|..];
    assert s == pre + r + post;
    InkOfSpaces(pre);
    InkOfSpaces(post);
    WithoutConcat(pre + r, post, JsSpaces);
    WithoutConcat(pre, r, JsSpaces);
  }

  /** The visible text of a prefix is a prefix of the visible text. */
  lemma InkOfPrefix(s: string, n: int)
    requires 0 <= n <= |s|
    ensures StartsWith(Ink(s), Ink(s[..n]))
  {
    assert s == s[..n] + s[n..];
    WithoutConcat(s[..n], s[n..], JsSpaces);
  }

  /** The safe, collapsed and trimmed text, before the length cut. */
  function NormalizePrompt(s: string): (r: string)
    ensures IsTrimmed(r)
    ensures forall i :: 0 <= i < |r| ==> r[i] !in UnsafeChars
    ensures SingleSpaced(r)
    ensures Ink(r) == Ink(StripUnsafe(s))
  {
    var c := CollapseWhitespace(StripUnsafe(s));
    CollapseKeepsSafe(StripUnsafe(s));
    CollapseIsSingleSpaced(StripUnsafe(s));
    CollapseKeepsInk(StripUnsafe(s));
    TrimKeepsInk(c);
    TrimKeepsSingleSpaced(c);
    TrimKeepsSafe(c);
    Trim(c)
  }

  /** `cleanPromptInput` on a string. The result is at most 1000 units
      long, holds none of the five unsafe characters, uses only single
      plain spaces and does not start with white space; what is left once
      spaces are ignored is a prefix of the safe input's text. */
  function CleanPromptText(s: string): (r: string)
    ensures |r| <= MaxPromptLength
    ensures forall i :: 0 <= i < |r| ==> r[i] !in UnsafeChars
    ensures SingleSpaced(r)
    ensures r == [] || !IsJsSpace(r[0])
    ensures StartsWith(Ink(StripUnsafe(s)), Ink(r))
  {
    var t := NormalizePrompt(s);
    var n := Min(MaxPromptLength, |t|);
    CutKeepsShape(t, n);
    InkOfPrefix(t, n);
    t[..n]
  }

  /** A prefix of safe, single-spaced, trimmed text is safe, single-spaced
      and starts with no white space. */
  lemma CutKeepsShape(t: string, n: int)
    requires 0 <= n <= |t|
    requires IsTrimmed(t) && SingleSpaced(t)
    requires forall i :: 0 <= i < |t| ==> t[i] !in UnsafeChars
    ensures forall i :: 0 <= i < n ==> t[..n][i] !in UnsafeChars
    ensures SingleSpaced(t[..n])
    ensures t[..n] == [] || !IsJsSpace(t[..n][0])
  {
    SliceSingleSpaced(t, 0, n);
  }

  /** A prompt that was not cut short keeps every visible character of the
      safe input and has no white space at its end either. */
  lemma ShortPromptKeepsText(s: string)
    requires |CleanPromptText(s)| < MaxPromptLength
    ensures Ink(CleanPromptText(s)) == Ink(StripUnsafe(s))
    ensures IsTrimmed(CleanPromptText(s))
  {
    var t := NormalizePrompt(s);
    assert |t| < MaxPromptLength;
    assert CleanPromptText(s) == t[..|t|] == t;
  }

  /** Cleaning a cleaned prompt only trims it. */
  lemma CleanTwiceTrims(s: string)
    ensures CleanPromptText(CleanPromptText(s)) == Trim(CleanPromptText(s))
  {
    var r := CleanPromptText(s);
    NormalizeCleanText(r);
    TrimNoLonger(r);
    ShortNotCut(r);
  }

  /** On text that is already safe and single-spaced, normalising only
      trims. */
  lemma NormalizeCleanText(r: string)
    requires forall i :: 0 <= i < |r| ==> r[i] !in UnsafeChars
    requires SingleSpaced(r)
    ensures NormalizePrompt(r) == Trim(r)
  {
    WithoutNoneDropped(r, UnsafeChars);
    CollapseSingleSpaced(r);
  }

  lemma TrimNoLonger(s: string)
    ensures |Trim(s)| <= |s|
  {
    var k :| SpaceFramed(s, Trim(s), k);
  }

  /** Text that normalises within the bound is not cut. */
  lemma ShortNotCut(s: string)
    requires |NormalizePrompt(s)| <= MaxPromptLength
    ensures CleanPromptText(s) == NormalizePrompt(s)
  {
    var t := NormalizePrompt(s);
    assert t[..|t|] == t;
  }

  /** The sanitiser is a fixed point on its own output exactly when that
      output has no trailing space. The length cut can leave one, so
      cleaning twice is not always the same as cleaning once. */
  lemma CleanTwiceIffTrimmed(s: string)
    ensures CleanPromptText(CleanPromptText(s)) == CleanPromptText(s) <==> IsTrimmed(CleanPromptText(s))
  {
    CleanTwiceTrims(s);
    if IsTrimmed(CleanPromptText(s)) {
      TrimFixesTrimmed(CleanPromptText(s));
    }
  }

  /** `cleanPromptInput`: anything but a string comes back as it was. */
  function CleanPromptInput(v: Json): (r: Json)
    ensures !v.JStr? ==> r == v
    ensures v.JStr? ==> r.JStr? && |r.s| <= MaxPromptLength
  {
    if v.JStr? then JStr(CleanPromptText(v.s)) else v
  }

  /* ------------------------- the request body ---------------------------- */

  /** `{ ...array }`: an array spreads into its indices as keys. */
  function SpreadArray(items: seq<Json>): (r: map<string, Json>)
    ensures forall i :: 0 <= i < |items| ==> NatToString(i) in r && r[NatToString(i)] == items[i]
    ensures forall k :: k in r ==> exists i :: 0 <= i < |items| && k == NatToString(i)
    ensures "prompt" !in r
  {
    NatToStringInjective();
    var r := map i | 0 <= i < |items| :: NatToString(i) := items[i];
    assert forall k :: k in r ==> IsAsciiDigit(k[0]);
    r
  }

  /** `{ ...input }` followed by cleaning a string `prompt`: the same
      keys, every other value as it was. */
  function CopyWithCleanPrompt(fields: map<string, Json>): (r: map<string, Json>)
    ensures r.Keys == fields.Keys
    ensures forall k :: k in fields && k != "prompt" ==> r[k] == fields[k]
    ensures "prompt" in fields ==> r["prompt"] == CleanPromptInput(fields["prompt"])
  {
    if "prompt" in fields && fields["prompt"].JStr? then
      fields["prompt" := CleanPromptInput(fields["prompt"])]
    else fields
  }

  /** The body `getAISuggestion` posts, or None when the input is neither
      a string nor a non-null object. A string becomes a general-mode
      request; an object or array is copied with its prompt cleaned. */
  function RequestBody(input: Json): (r: Option<Json>)
    ensures r.None? <==> !(input.JStr? || input.JObj? || input.JArr?)
    ensures input.JStr? ==> r == Some(JObj(map["mode" := JStr("general"), "prompt" := JStr(CleanPromptText(input.s))]))
    ensures input.JObj? ==> r == Some(JObj(CopyWithCleanPrompt(input.fields)))
    ensures input.JArr? ==> r == Some(JObj(SpreadArray(input.items)))
  {
    match input
    case JStr(s) => Some(JObj(map["mode" := JStr("general"), "prompt" := JStr(CleanPromptText(s))]))
    case JObj(fields) => Some(JObj(CopyWithCleanPrompt(fields)))
    case JArr(items) => Some(JObj(SpreadArray(items)))
    case _ => None
  }

  /* ------------------------------ the reply ------------------------------ */

  /** `data.reply || data.message || data.suggestion || data.error`, with
      `res.data || {}` standing in for a falsy body. */
  function ReplyText(data: Json): (r: Json)
    ensures Truthy(r)
  {
    var d := Or(data, JObj(map[]));
    Or(Get(d, "reply"), Or(Get(d, "message"), Or(Get(d, "suggestion"), Or(Get(d, "error"), JStr(NoReply)))))
  }

  /** The reply is the first truthy field in the order reply, message,
      suggestion, error, and the fixed no-reply text when none is. */
  lemma ReplyTextPicksFirstTruthy(data: Json)
    ensures forall i :: 0 <= i < |ReplyFields| ==>
              ((Truthy(Get(data, ReplyFields[i])) && forall j :: 0 <= j < i ==> !Truthy(Get(data, ReplyFields[j]))) ==>
                 ReplyText(data) == Get(data, ReplyFields[i]))
    ensures (forall i :: 0 <= i < |ReplyFields| ==> !Truthy(Get(data, ReplyFields[i]))) ==> ReplyText(data) == JStr(NoReply)
  {
    var d := Or(data, JObj(map[]));
    assert forall k :: Get(d, k) == Get(data, k);
    forall i | 0 <= i < |ReplyFields| && Truthy(Get(data, ReplyFields[i])) &&
               forall j :: 0 <= j < i ==> !Truthy(Get(data, ReplyFields[j]))
      ensures ReplyText(data) == Get(data, ReplyFields[i])
    {
      if i >= 1 { assert !Truthy(Get(data, ReplyFields[0])); }
      if i >= 2 { assert !Truthy(Get(data, ReplyFields[1])); }
      if i >= 3 { assert !Truthy(Get(data, ReplyFields[2])); }
    }
    if forall i :: 0 <= i < |ReplyFields| ==> !Truthy(Get(data, ReplyFields[i])) {
      assert !Truthy(Get(data, ReplyFields[0]));
      assert !Truthy(Get(data, ReplyFields[1]));
      assert !Truthy(Get(data, ReplyFields[2]));
      assert !Truthy(Get(data, ReplyFields[3]));
    }
  }

  /** What `getAISuggestion` resolves to, and the bodies it posted. */
  datatype ClientCall = ClientCall(reply: Json, posted: seq<Json>)

  /** `getAISuggestion`. It always resolves to something truthy: the
      invalid-input, no-reply and unavailable messages stand in for an
      answer; a request is posted exactly when the input has a body. */
  function GetAISuggestion(input: Json, post: Json -> Outcome): (x: ClientCall)
    ensures Truthy(x.reply)
    ensures RequestBody(input).None? ==> x == ClientCall(JStr(InvalidRequest), [])
    ensures RequestBody(input).Some? ==> x.posted == [RequestBody(input).value]
    ensures RequestBody(input).Some? && post(RequestBody(input).value).Failed? ==> x.reply == JStr(Unavailable)
    ensures RequestBody(input).Some? && post(RequestBody(input).value).Replied? ==>
              x.reply == ReplyText(post(RequestBody(input).value).data)
  {
    match RequestBody(input)
    case None => ClientCall(JStr(InvalidRequest), [])
    case Some(body) =>
      match post(body)
      case Failed => ClientCall(JStr(Unavailable), [body])
      case Replied(data) => ClientCall(ReplyText(data), [body])
  }

  /* ---------------------------- end to end ------------------------------- */

  /** axios resolves on a 2xx status and rejects otherwise. */
  function AsOutcome(resp: HttpResponse): Outcome {
    if 200 <= resp.status < 300 then Replied(resp.body) else Failed
  }

  /** The request the route sees for a plain-string prompt. */
  function GeneralRequest(s: string): SuggestRequest {
    SuggestRequest(Some("general"), [], None, Some(CleanPromptText(s)), None)
  }

  /** The client's reading of a text-mode answer from the route. */
  lemma ReplyOfTextBody(t: string)
    ensures ReplyText(TextBody(t)) == if t != "" then JStr(t) else JStr(NoReply)
  {
    var data := TextBody(t);
    assert Get(data, "reply") == JStr(t);
    assert Get(data, "message") == JStr(t);
    assert Get(data, "suggestion") == JStr(t);
    assert Get(data, "error") == JUndefined;
  }

  /** A string prompt sent through the route: a failed answer reads as the
      service being unavailable, an empty one as no reply, and any other
      answer reaches the caller unchanged. */
  lemma StringPromptRoundTrip(s: string, apiKey: Option<string>, local: string -> Outcome, cloud: string -> Outcome, post: Json -> Outcome)
    requires post(RequestBody(JStr(s)).value) == AsOutcome(HandleSuggest(GeneralRequest(s), apiKey, local, cloud).result)
    ensures var answer := GetAIResponse(BuildPrompt(GeneralRequest(s)), apiKey, local, cloud).result;
            GetAISuggestion(JStr(s), post).reply ==
              if answer.Err? then JStr(Unavailable)
              else if answer.value != "" then JStr(answer.value)
              else JStr(NoReply)
  {
    var req := GeneralRequest(s);
    var answer := GetAIResponse(BuildPrompt(req), apiKey, local, cloud).result;
    var response := HandleSuggest(req, apiKey, local, cloud).result;
    var body := RequestBody(JStr(s)).value;
    assert req.mode != Some("task_reorder");
    if answer.Ok? {
      assert response == HttpResponse(200, TextBody(answer.value));
      assert post(body) == Replied(TextBody(answer.value));
      ReplyOfTextBody(answer.value);
    } else {
      assert post(body) == Failed;
    }
  }
}
