/** What the handler promises, stated about ConvertSpec and so, through
    Post's postcondition, about the handler. */
module ConvertProperties {
  import opened Wrappers
  import opened Http
  import opened Effects
  import opened Download
  import opened Convert

  /** The upload is acceptable: present and at most 5 MiB. */
  predicate ValidUpload(form: FormData) {
    form.image.Some? && form.image.value.size <= MaxImageBytes
  }

  /** The number of calls of the three upstream kinds together. */
  function UpstreamCalls(calls: seq<Call>): nat {
    Count(calls, Vision) + Count(calls, Generation) + Count(calls, Download)
  }

  /** Without an image field the answer is 400 and nothing upstream is called. */
  lemma MissingImageRejected(form: FormData, env: Environment)
    requires |env.downloads| >= MaxAttempts
    requires form.image.None?
    ensures ConvertSpec(form, env).response == Json(400, NoImageMessage)
    ensures ConvertSpec(form, env).calls == []
    ensures UpstreamCalls(ConvertSpec(form, env).calls) == 0
  {
  }

  /** A file of more than 5 MiB is refused with 400 before any upstream call. */
  lemma OversizedImageRejected(form: FormData, env: Environment)
    requires |env.downloads| >= MaxAttempts
    requires form.image.Some? && form.image.value.size > MaxImageBytes
    ensures ConvertSpec(form, env).response == Json(400, TooLargeMessage)
    ensures ConvertSpec(form, env).calls == []
    ensures UpstreamCalls(ConvertSpec(form, env).calls) == 0
  {
  }

  /** The answer is 400 exactly when the upload is invalid, and then no call
      is made; otherwise the first call is to the vision model, with the
      composed instruction. The bound is inclusive: a file of exactly
      5 MiB is accepted. */
  lemma BadRequestExactlyWhenInvalid(form: FormData, env: Environment)
    requires |env.downloads| >= MaxAttempts
    ensures ConvertSpec(form, env).response.Status() == 400 <==> !ValidUpload(form)
    ensures !ValidUpload(form) <==> ConvertSpec(form, env).calls == []
    ensures ValidUpload(form) ==>
              ConvertSpec(form, env).calls[0] == VisionCall(ComposeVisionPrompt(form.visionPrompt, form.details))
    ensures form.image.Some? && form.image.value.size == 5 * 1024 * 1024 ==> ValidUpload(form)
  {
  }

  /** Non-empty details are appended under the framing sentence; absent or
      empty details leave the caller's template as it is. */
  lemma VisionPromptComposition(visionPrompt: Option<string>, details: Option<string>)
    ensures details.Some? && details.value != "" && visionPrompt.Some? ==>
              ComposeVisionPrompt(visionPrompt, details)
                == Some(visionPrompt.value + DetailsFraming + details.value)
    ensures details.None? || details.value == "" ==>
              ComposeVisionPrompt(visionPrompt, details) == visionPrompt
    ensures details.Some? && details.value != "" && visionPrompt.None? ==>
              ComposeVisionPrompt(visionPrompt, details) == Some("null" + DetailsFraming + details.value)
  {
  }

  /** The composed instruction splits back into template, framing and details. */
  lemma VisionPromptParts(template: string, details: string)
    requires details != ""
    ensures var p := ComposeVisionPrompt(Some(template), Some(details)).value;
      && |p| == |template| + |DetailsFraming| + |details|
      && p[..|template|] == template
      && p[|template|..|template| + |DetailsFraming|] == DetailsFraming
      && p[|p| - |details|..] == details
  {
  }

  /** The vision content is a prefix of the image prompt and the guardrail
      sentence is always its end. */
  lemma GuardrailParts(content: string)
    ensures |WithGuardrail(content)| == |content| + |Guardrail|
    ensures WithGuardrail(content)[..|content|] == content
    ensures WithGuardrail(content)[|content|..] == Guardrail
  {
  }

  /** A null or empty vision reply fails with NoPromptMessage; the image model
      is never called and nothing is downloaded. */
  lemma EmptyVisionStops(form: FormData, env: Environment)
    requires |env.downloads| >= MaxAttempts
    requires ValidUpload(form)
    requires env.vision.Returned? && (env.vision.value.None? || env.vision.value.value == "")
    ensures ConvertSpec(form, env).response == Json(500, NoPromptMessage)
    ensures ConvertSpec(form, env).calls == [VisionCall(ComposeVisionPrompt(form.visionPrompt, form.details))]
    ensures Count(ConvertSpec(form, env).calls, Generation) == 0
    ensures Count(ConvertSpec(form, env).calls, Download) == 0
  {
  }

  /** Every call to the image model carries the non-empty vision content
      followed by the guardrail sentence. */
  lemma GenerationPromptIsGuarded(form: FormData, env: Environment)
    requires |env.downloads| >= MaxAttempts
    ensures var calls := ConvertSpec(form, env).calls;
      forall i :: 0 <= i < |calls| && calls[i].GenerationCall? ==>
        && env.vision.Returned? && env.vision.value.Some?
        && env.vision.value.value != ""
        && calls[i].prompt == env.vision.value.value + Guardrail
  {
    var run := ConvertSpec(form, env);
    if ValidUpload(form) && env.vision.Returned? && Truthy(env.vision.value)
       && env.generation.Returned? && Truthy(env.generation.value) {
      var plan := DownloadSpec(env.downloads);
      AttemptTraceCounts(env.generation.value.value, plan.attempts);
    }
  }

  /** A generation reply without a URL fails with NoUrlMessage and no download
      is attempted. */
  lemma MissingUrlStops(form: FormData, env: Environment)
    requires |env.downloads| >= MaxAttempts
    requires ValidUpload(form)
    requires env.vision.Returned? && Truthy(env.vision.value)
    requires env.generation.Returned? && (env.generation.value.None? || env.generation.value.value == "")
    ensures ConvertSpec(form, env).response == Json(500, NoUrlMessage)
    ensures |ConvertSpec(form, env).calls| == 2
    ensures ConvertSpec(form, env).calls[1] == GenerationCall(env.vision.value.value + Guardrail)
    ensures Count(ConvertSpec(form, env).calls, Download) == 0
  {
  }

  /** An error thrown by either OpenAI call is answered with 500 carrying its
      message (or the fallback text when the message is empty), and the
      pipeline stops there. */
  lemma UpstreamErrorPassesThrough(form: FormData, env: Environment)
    requires |env.downloads| >= MaxAttempts
    requires ValidUpload(form)
    ensures env.vision.Threw? ==>
              ConvertSpec(form, env).response
                == Json(500, if env.vision.message == "" then FallbackMessage else env.vision.message)
              && |ConvertSpec(form, env).calls| == 1
    ensures env.vision.Returned? && Truthy(env.vision.value) && env.generation.Threw? ==>
              ConvertSpec(form, env).response
                == Json(500, if env.generation.message == "" then FallbackMessage else env.generation.message)
              && |ConvertSpec(form, env).calls| == 2
              && ConvertSpec(form, env).calls[1] == GenerationCall(env.vision.value.value + Guardrail)
  {
  }

  /** The first successful attempt among the first three is the one whose
      bytes are returned, unchanged, with the fixed headers; it took k + 1
      attempts and k pauses. */
  lemma FirstSuccessIsReturned(form: FormData, env: Environment)
    requires |env.downloads| >= MaxAttempts
    requires ValidUpload(form)
    requires env.vision.Returned? && Truthy(env.vision.value)
    requires env.generation.Returned? && Truthy(env.generation.value)
    requires FirstSuccess(env.downloads[..MaxAttempts]) < MaxAttempts
    ensures var k := FirstSuccess(env.downloads[..MaxAttempts]);
      && ConvertSpec(form, env).response == Binary(ImageHeaders, env.downloads[k].body)
      && Count(ConvertSpec(form, env).calls, Download) == k + 1
      && Count(ConvertSpec(form, env).calls, Pause) == k
  {
    var url := env.generation.value.value;
    var prefix := [VisionCall(ComposeVisionPrompt(form.visionPrompt, form.details)),
                   GenerationCall(WithGuardrail(env.vision.value.value))];
    var plan := DownloadSpec(env.downloads);
    AttemptTraceCounts(url, plan.attempts);
    CountAppend(prefix, AttemptTrace(url, plan.attempts), Download);
    CountAppend(prefix, AttemptTrace(url, plan.attempts), Pause);
  }

  /** When all three attempts fail the answer is 500 with the fixed message
      built from the third failure; there are exactly three attempts and
      two pauses. */
  lemma AllAttemptsFail(form: FormData, env: Environment)
    requires |env.downloads| >= MaxAttempts
    requires ValidUpload(form)
    requires env.vision.Returned? && Truthy(env.vision.value)
    requires env.generation.Returned? && Truthy(env.generation.value)
    requires forall i :: 0 <= i < MaxAttempts ==> !Succeeded(env.downloads[i])
    ensures ConvertSpec(form, env).response
              == Json(500, ExhaustedPrefix + AttemptError(env.downloads[MaxAttempts - 1]))
    ensures Count(ConvertSpec(form, env).calls, Download) == MaxAttempts
    ensures Count(ConvertSpec(form, env).calls, Pause) == MaxAttempts - 1
  {
    var url := env.generation.value.value;
    var prefix := [VisionCall(ComposeVisionPrompt(form.visionPrompt, form.details)),
                   GenerationCall(WithGuardrail(env.vision.value.value))];
    AttemptTraceCounts(url, MaxAttempts);
    CountAppend(prefix, AttemptTrace(url, MaxAttempts), Download);
    CountAppend(prefix, AttemptTrace(url, MaxAttempts), Pause);
  }

  /** Two failures and then a success: the third attempt's bytes are
      returned after exactly three attempts. */
  lemma FailTwiceThenSucceed(form: FormData, env: Environment)
    requires |env.downloads| >= MaxAttempts
    requires ValidUpload(form)
    requires env.vision.Returned? && Truthy(env.vision.value)
    requires env.generation.Returned? && Truthy(env.generation.value)
    requires !Succeeded(env.downloads[0]) && !Succeeded(env.downloads[1]) && Succeeded(env.downloads[2])
    ensures ConvertSpec(form, env).response == Binary(ImageHeaders, env.downloads[2].body)
    ensures Count(ConvertSpec(form, env).calls, Download) == 3
  {
    FirstSuccessIsReturned(form, env);
  }

  /** A run that reaches the download step logs the two model calls and then
      the download attempts with their pauses. */
  lemma DownloadingRunCalls(form: FormData, env: Environment)
    requires |env.downloads| >= MaxAttempts
    requires ValidUpload(form)
    requires env.vision.Returned? && Truthy(env.vision.value)
    requires env.generation.Returned? && Truthy(env.generation.value)
    ensures ConvertSpec(form, env).calls
              == [VisionCall(ComposeVisionPrompt(form.visionPrompt, form.details)),
                  GenerationCall(WithGuardrail(env.vision.value.value))]
                 + AttemptTrace(env.generation.value.value, DownloadSpec(env.downloads).attempts)
  {
  }

  /** What a log of one request can be: at most one call to each model,
      at most three downloads and two pauses, one pause fewer than there
      are downloads, and every pause between two attempts. */
  predicate WithinCallBounds(calls: seq<Call>) {
    && Count(calls, Vision) <= 1
    && Count(calls, Generation) <= 1
    && Count(calls, Download) <= MaxAttempts
    && Count(calls, Pause) <= MaxAttempts - 1
    && (Count(calls, Download) > 0 ==> Count(calls, Pause) == Count(calls, Download) - 1)
    && PausesBetweenAttempts(calls)
  }

  /** A run that stops before the download step logs at most the vision call
      and then the generation call. */
  lemma StoppedRunCalls(form: FormData, env: Environment)
    requires |env.downloads| >= MaxAttempts
    requires !(ValidUpload(form) && env.vision.Returned? && Truthy(env.vision.value)
               && env.generation.Returned? && Truthy(env.generation.value))
    ensures var calls := ConvertSpec(form, env).calls;
      && |calls| <= 2
      && (|calls| > 0 ==> calls[0].VisionCall?)
      && (|calls| > 1 ==> calls[1].GenerationCall?)
  {
  }

  lemma ModelCallsWithinBounds(calls: seq<Call>)
    requires |calls| <= 2
    requires |calls| > 0 ==> calls[0].VisionCall?
    requires |calls| > 1 ==> calls[1].GenerationCall?
    ensures WithinCallBounds(calls)
  {
    if |calls| == 2 {
      assert calls[1..][1..] == [];
    }
  }

  lemma DownloadLogWithinBounds(text: Option<string>, prompt: string, url: string, n: nat)
    requires 1 <= n <= MaxAttempts
    ensures WithinCallBounds([VisionCall(text), GenerationCall(prompt)] + AttemptTrace(url, n))
  {
    var prefix := [VisionCall(text), GenerationCall(prompt)];
    var t := AttemptTrace(url, n);
    AttemptTraceCounts(url, n);
    AttemptTracePauses(url, n);
    CountAppend(prefix, t, Vision);
    CountAppend(prefix, t, Generation);
    CountAppend(prefix, t, Download);
    CountAppend(prefix, t, Pause);
    PausesAfterPrefix(prefix, t);
  }

  /** Whatever the upstream results, the log of one request stays within the
      call bounds. */
  lemma CallBounds(form: FormData, env: Environment)
    requires |env.downloads| >= MaxAttempts
    ensures WithinCallBounds(ConvertSpec(form, env).calls)
  {
    if ValidUpload(form) && env.vision.Returned? && Truthy(env.vision.value)
       && env.generation.Returned? && Truthy(env.generation.value) {
      DownloadingRunCalls(form, env);
      DownloadLogWithinBounds(ComposeVisionPrompt(form.visionPrompt, form.details),
                              WithGuardrail(env.vision.value.value),
                              env.generation.value.value, DownloadSpec(env.downloads).attempts);
    } else {
      StoppedRunCalls(form, env);
      ModelCallsWithinBounds(ConvertSpec(form, env).calls);
    }
  }

  /** Once the upload is accepted the answer is either the image (200) or a
      JSON error with status 500 and a non-empty message. */
  lemma ErrorsAfterValidationAre500(form: FormData, env: Environment)
    requires |env.downloads| >= MaxAttempts
    requires ValidUpload(form)
    ensures var r := ConvertSpec(form, env).response;
      (r.Binary? && r.Status() == 200 && r.headers == ImageHeaders)
      || (r.Json? && r.status == 500 && r.error != "")
  {
  }
}
