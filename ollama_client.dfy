/**
 * `OllamaClient`: builds the prompt and the request body, then posts it up to
 * three times, pausing between attempts, and returns the model's `response`
 * text from the first attempt that succeeds. The HTTP exchange itself is an
 * input: `exchange(request, k)` is what the k-th attempt (from 0) yields.
 */
module OllamaApi {
  import opened Wrappers
  import opened Text
  import opened Errors

  const DefaultTimeoutMs: nat := 60000
  const MaxRetries: nat := 3
  const RetryDelayMs: nat := 1000
  const UnknownApiError := "Unknown API error"

  /** Everything before the text in the prompt: the instructions, a blank line and a heading. */
  const PromptPrefix: string :=
    "以下のテキストを解析し、含まれている個人情報（氏名、メールアドレス、電話番号、住所、クレジットカード番号など）を検出してください。" +
    "検出結果はJSON形式で返してください。各項目について、種類（type）、値（value）、行番号（line）、開始位置（start）、終了位置（end）を含めてください。" +
    "\n\nテキスト:\n"

  datatype OllamaClient = OllamaClient(apiUrl: string, model: string, timeoutMs: nat)

  /** The serialised `OllamaRequest`. */
  datatype Request = Request(model: string, prompt: string, format: Option<string>)

  /**
   * What one attempt yields: `send` failed with a message, or a reply came
   * with a status code, the code's canonical reason phrase if it has one,
   * and the body decoded as an `OllamaResponse` (its `response` field) or
   * the decoder's message.
   */
  datatype Attempt =
    | SendFailed(message: string)
    | Replied(status: nat, reason: Option<string>, body: Result<string, string>)

  /** `new`: the timeout defaults to sixty seconds. */
  function New(apiUrl: string, model: string, timeoutMs: Option<nat>): (c: OllamaClient)
    ensures c.apiUrl == apiUrl && c.model == model
    ensures timeoutMs.None? ==> c.timeoutMs == DefaultTimeoutMs
    ensures timeoutMs.Some? ==> c.timeoutMs == timeoutMs.value
  {
    OllamaClient(apiUrl, model, timeoutMs.GetOr(DefaultTimeoutMs))
  }

  /** `create_personal_info_prompt`: the fixed instructions, then the text unchanged. */
  function CreatePersonalInfoPrompt(text: string): (p: string)
    ensures |p| == |PromptPrefix| + |text|
    ensures p[..|PromptPrefix|] == PromptPrefix
    ensures p[|PromptPrefix|..] == text
  {
    PromptPrefix + text
  }

  /** Different texts give different prompts: the text can be read back from the prompt. */
  lemma PromptInjective(t1: string, t2: string)
    requires CreatePersonalInfoPrompt(t1) == CreatePersonalInfoPrompt(t2)
    ensures t1 == t2
  {
    assert t1 == CreatePersonalInfoPrompt(t1)[|PromptPrefix|..];
  }

  /** The request body: the configured model, the prompt for the text, and JSON output. */
  function MakeRequest(c: OllamaClient, text: string): (req: Request)
    ensures req.model == c.model
    ensures |req.prompt| == |PromptPrefix| + |text|
    ensures req.prompt[..|PromptPrefix|] == PromptPrefix && req.prompt[|PromptPrefix|..] == text
    ensures req.format == Some("json")
  {
    Request(c.model, CreatePersonalInfoPrompt(text), Some("json"))
  }

  /** `StatusCode::is_success` */
  predicate IsSuccess(status: nat)
  {
    200 <= status <= 299
  }

  /** The `Display` of a status code: the number, then the reason phrase or a placeholder. */
  function StatusText(status: nat, reason: Option<string>): string
  {
    NatToString(status) + " " + reason.GetOr("<unknown status code>")
  }

  /** An attempt the loop returns from. */
  predicate Succeeds(a: Attempt)
  {
    a.Replied? && IsSuccess(a.status) && a.body.Ok?
  }

  /** The message a failed attempt leaves in `last_error`, one per kind of failure. */
  function FailureMessage(a: Attempt): (m: string)
    requires !Succeeds(a)
    ensures a.SendFailed? ==> m == "API request failed: " + a.message
    ensures a.Replied? && !IsSuccess(a.status) ==>
      m == "API returned error status: " + StatusText(a.status, a.reason)
    ensures a.Replied? && IsSuccess(a.status) ==> m == "Failed to parse API response: " + a.body.error
  {
    match a
    case SendFailed(e) => "API request failed: " + e
    case Replied(status, reason, body) =>
      if IsSuccess(status) then "Failed to parse API response: " + body.error
      else "API returned error status: " + StatusText(status, reason)
  }

  /** The three failure messages can be told apart by their beginnings. */
  lemma FailureKindsDistinct(a: Attempt, b: Attempt)
    requires !Succeeds(a) && !Succeeds(b)
    requires FailureMessage(a) == FailureMessage(b)
    ensures a.SendFailed? <==> b.SendFailed?
    ensures a.Replied? && b.Replied? ==> IsSuccess(a.status) == IsSuccess(b.status)
  {
    FailureTag(a);
    FailureTag(b);
  }

  /** Character 0 tells a decoding failure, character 6 a send failure. */
  lemma FailureTag(a: Attempt)
    requires !Succeeds(a)
    ensures |FailureMessage(a)| > 6
    ensures FailureMessage(a)[0] == 'F' <==> a.Replied? && IsSuccess(a.status)
    ensures FailureMessage(a)[6] == 'q' <==> a.SendFailed?
  {
  }

  /**
   * `call`. `attempts` is the number of requests sent and `sleeps` the
   * number of pauses of `RetryDelayMs` taken: at most three requests, a
   * pause only before another request, the first success returned at once,
   * and after three failures the last failure's message.
   */
  method Call(c: OllamaClient, text: string, exchange: (Request, nat) -> Attempt)
    returns (r: Result<string, Error>, attempts: nat, sleeps: nat)
    ensures 1 <= attempts <= MaxRetries
    ensures sleeps == attempts - 1
    ensures forall k :: 0 <= k < attempts - 1 ==> !Succeeds(exchange(MakeRequest(c, text), k))
    ensures r.Ok? <==> Succeeds(exchange(MakeRequest(c, text), attempts - 1))
    ensures r.Ok? ==> r.value == exchange(MakeRequest(c, text), attempts - 1).body.value
    ensures r.Err? ==> attempts == MaxRetries
    ensures r.Err? ==> r.error == ApiError(FailureMessage(exchange(MakeRequest(c, text), MaxRetries - 1)))
  {
    var request := MakeRequest(c, text);
    var tries: nat := 0;
    var lastError: Option<string> := None;
    sleeps := 0;
    while tries < MaxRetries
      invariant tries <= MaxRetries
      invariant sleeps == if tries < MaxRetries then tries else tries - 1
      invariant forall k :: 0 <= k < tries ==> !Succeeds(exchange(request, k))
      invariant tries == 0 <==> lastError.None?
      invariant tries > 0 ==> lastError == Some(FailureMessage(exchange(request, tries - 1)))
      decreases MaxRetries - tries
    {
      match exchange(request, tries) {
        case SendFailed(e) =>
          lastError := Some("API request failed: " + e);
        case Replied(status, reason, body) =>
          if IsSuccess(status) {
            match body {
              case Ok(response) =>
                return Ok(response), tries + 1, sleeps;
              case Err(e) =>
                lastError := Some("Failed to parse API response: " + e);
            }
          } else {
            lastError := Some("API returned error status: " + StatusText(status, reason));
          }
      }
      tries := tries + 1;
      if tries < MaxRetries {
        sleeps := sleeps + 1;
      }
    }
    r := Err(ApiError(lastError.GetOr(UnknownApiError)));
    attempts := tries;
  }
}
